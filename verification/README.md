# Verified models of the gateway's scanning, redaction and streaming core

This project models, in Dafny, the parts of the gateway whose correctness depends on arithmetic, buffers,
interleaving or protocol state, and proves what they promise for every input and every run.
`dafny verify dfyconfig.toml` checks all of it.

## What is modelled

**Long-text PII scan** (`Utf8`, `TextOffsets`, `Findings`, `FindingLabels`, `Chunker`, `ChunkedScan`, `Redaction`). A
text is encoded as UTF-8 (section 3 of RFC 3629), cut into overlapping chunks of bounded size, each chunk is given to a
detector, byte ranges become code point ranges, findings are merged per chunk, shifted, merged again and spliced out.
The detector is a parameter: a function of the chunk text. It is *local* if on any piece of the text it reports
exactly the findings of the whole text that lie inside that piece, each no longer than the overlap. The main result,
`RunGoogle`, says that the chunked scan then reports the spans and scores of one merge over the whole text.

**Scan slots** (`ScanSlots`, `ScanSlotPools`, `RetryLoop`, `ScanRetries`). Three counting semaphores with FIFO queues
and borrowing between two classes of requests. `ScanSlots` is a step machine over any set of requests; the classes of
`ScanSlotPools` are proved to take exactly its steps. `ScanRetries` puts retrying requests on the machine.

**Redaction write-back** (`WriteBack`, `KeyedLeaves`, `ChatPayload`, `AnthropicPayload`, `AnthropicInPlace`,
`AnthropicToChat`, `ResponsesPayload`). One redacted string is pushed back into the text leaves of a request along an
edit script, which may be any script that partitions both strings in order. `AnthropicInPlace` has the objects that
the source mutates; the other payload classes build copies in the source and are functions here.

**Streams** (`SseDecoder`, `MixedStreams`, `PrintedStreams`, `ChatDecoder`, `ChatEvents`, `AnthropicStream`,
`AnthropicEndings`, `CanonicalEvents`, `CanonicalContents`, `AnthropicToCanonical`, `EmittedEvents`, `CanonicalToChat`,
`EncodedEvents`, `AnthropicViaChat`, `ResponsesStream`, `ResponsesEndings`, `ResponsesFromChat`). The decoder turns
pieces of bytes or text into Chat events. Each translator is a method with the variables of the source. What a stream
*holds* (text, tool calls, arguments, token counts) is defined on the input and on the output separately, by functions
that know nothing of the translator's variables, and the two are proved equal. A well-formed output is a recursive
predicate over frames (`GoodBody`), from which position-by-position facts are derived. The modules named after
printing, contents, endings, encoded and emitted events say the rest in terms of the input alone.

**Small state machines** (`RateLimiter`, `LimiterRuns`, `CircuitBreaker`, `BraceScanner`). The Redis sorted set and
counter against the full history of checks; the breaker under any interleaving of calls in flight; the two brace
scanners against a printer of JSON objects with arbitrary layout.

`Wrappers` holds `Option`, `Result` and two facts about sequences.

## Where the code and what is said about it differ

- `_google_text_chunks` checks only that the overlap is smaller than the chunk size. Its loop moves forward on every
  text if and only if the two differ by more than six bytes, or there is no overlap and a chunk holds at least four
  bytes (`Chunker.ProgressNeedsRoom`). The shipped constants satisfy this.
- The comment on the scan slots (governance/app/pii.py:106-112) speaks of waiting for one permit; the exact statement
  is that the waiter at place `k`, counted from zero, is admitted by release number `k + 1` of its pool
  (`ScanSlots.WaiterAdmittedInTurn`), and every place is reached by some run (`ScanSlots.AnyPlaceIsReached`).
- The breaker lets at most one probe out at a time if and only if every sidecar check ends within the cooldown
  (`CircuitBreaker.AtMostOneProbe`). Under any longer limit a late failure can reopen the breaker while its probe is
  still out, and a second probe follows (`CircuitBreaker.SlowCallsAllowTwoProbes`).
- Complete lines that share a piece with an invalid byte are lost. So decoding depends on the cutting exactly when
  there is an invalid byte and a complete line before it that gives an event (`SseDecoder.CuttingDoesNotMatterIff`;
  for Chat events `ChatDecoder.ChatCuttingDoesNotMatterIff`). With pieces of text in between only the lines completed
  since the last text are at stake (`MixedStreams.RecuttingDoesNotMatterIff`).
- For an allowed check, the field `retry_after_seconds` of a limiter result holds the number of remaining checks
  (`RateLimiter.UserWindow.Check`).
- The limiter keeps its limit in every window, over all runs, if and only if the caller's clock never steps back and
  Redis' clock gains no more on it from check to check than keys outlive the window, which is one second for windows
  of whole seconds; or Redis' clock neither gains on it nor steps back (`LimiterRuns.LimitHoldsIff`). Even if no key
  expires, the caller's clock may step back, by however little, only if the limit is one or less
  (`LimiterRuns.LimitHoldsUnexpiredIff`).
- An argument fragment sent before a tool call was started on its block is dropped
  (`AnthropicToCanonical.OnlyEarlyFragmentsAreDropped`).

## Model

| member | source | states |
|---|---|---|
| Utf8.DecodeOfEncode | governance/app/pii.py:505 | strict decoding undoes encoding, for every text |
| Utf8.EncodeOfDecode | governance/app/pii.py:441-451 | strict decoding accepts nothing but encodings |
| Utf8.PumpResumes | proxy/app/openai_chat_stream.py:22-28 | decoding a byte string in two calls of the incremental decoder is decoding it in one |
| Utf8.PumpKeepsCutChar | proxy/app/openai_chat_stream.py:22-30 | what the incremental decoder holds back, with the text decoded so far, is the whole input; and it is one character cut short |
| Utf8.NeedMoreIsCutChar | proxy/app/openai_chat_stream.py:22-30 | only a proper prefix of some character's encoding asks for more bytes |
| TextOffsets.PrefixDecodes | governance/app/pii.py:441-451 | decoding the bytes before a position succeeds exactly on code point boundaries, and counts the code points |
| TextOffsets.ByteRangeIsCodepointRange | governance/app/pii.py:441-451 | a byte range is accepted exactly when it is a non-empty range of whole code points, and becomes the range of those code points |
| Findings.SortByKeyIsStableSort | governance/app/pii.py:468 | the sort of the merge is ordered by (start, -end, -score), a permutation, and keeps the order of findings with equal keys |
| Findings.DeduplicateFindings | governance/app/pii.py:467-482 | the loop that grows the previous span in place computes `Merged` |
| Findings.MergedIsMerge | governance/app/pii.py:467-482 | the merge is sorted and disjoint, covers exactly what its input covers, keeps spans that only touch apart, and gives each span the best score inside it with a label reported with that score |
| FindingLabels.LabelOnTie | governance/app/pii.py:467-482 | of the findings in a span with its score, the label is that of the one that starts first, of these that of the longest, and of those with one extent that of the one reported first |
| Findings.SpansAreOverlapComponents | governance/app/pii.py:467-482 | two findings end in one span if and only if a chain of overlapping findings connects them |
| Findings.ExtentDecidesSpans | governance/app/pii.py:467-482 | disjoint sorted spans are determined by the positions they cover and glue |
| Findings.MergesAgree | governance/app/pii.py:467-482 | any two merges of the same findings have the same spans and scores |
| Findings.MergedIsIdempotent | governance/app/pii.py:467-482 | merging a merge changes nothing |
| Findings.TwoStageMerge | governance/app/pii.py:619-649 | merging parts and then merging the merges is one merge of everything |
| Findings.ShiftIsMerge | governance/app/pii.py:642-647 | a merge shifted by an offset is a merge of the shifted findings |
| Redaction.RedactWithTypedMarkers | governance/app/pii.py:531-539 | splicing right to left gives the text read left to right as gap, marker, gap, ..., gap |
| Redaction.LastMarker | governance/app/pii.py:531-539 | read from the right, it is the text behind the last finding, the finding's type in brackets, and the redaction of what stands before |
| Redaction.KeptTextIsUncoveredText | governance/app/pii.py:531-539 | without its markers the redacted text is exactly the code points no finding covers, in order |
| Chunker.BackToBoundary | governance/app/pii.py:515-524 | walking back over continuation bytes reaches the start of a code point at most three bytes away |
| Chunker.TextChunks | governance/app/pii.py:504-528 | every chunk is a piece of the text of at most the chunk size at its true code point offset; each next chunk starts `overlap` to `overlap + 3` bytes before the end of the last and at least `size - overlap - 6` bytes further on; the last ends the text; the error is raised exactly when a long text meets an overlap not smaller than the size |
| Chunker.ShortSpanInOneChunk | governance/app/pii.py:504-528 | every span of at most `overlap` bytes lies wholly in one chunk |
| Chunker.ProgressNeedsRoom | governance/app/pii.py:508-527 | the loop moves forward on every text if and only if size and overlap differ by more than six bytes, or there is no overlap and a chunk holds any character |
| Chunker.StallingTextStalls | governance/app/pii.py:508-527 | with an overlap and six bytes or less between the sizes there is a text whose first chunk is started again |
| ChunkedScan.LocatedIffPlaced | governance/app/pii.py:441-501 | a finding is located exactly at its code points, or else over exactly the code points that its bytes encode, under its renamed type and the score of its likelihood; any other place is refused with its error |
| ChunkedScan.LocatedAllIffPlaced | governance/app/pii.py:485-501 | a list of findings is located exactly if each of them is, one by one |
| ChunkedScan.NormalizeFindings | governance/app/pii.py:485-501 | it succeeds exactly if every finding has a valid place, and is then the merge of the findings at their places; otherwise it is the error of the first that has none |
| ChunkedScan.ChunksReportEverything | governance/app/pii.py:619-647 | between them the chunks report exactly what a local detector reports on the whole text |
| ChunkedScan.ScanIsOneMerge | governance/app/pii.py:605-654 | with any detector, the final findings are one merge of everything reported for any chunk, at its place in the text |
| ChunkedScan.ScanAgreesWithWhole | governance/app/pii.py:605-654 | with a local detector, spans and scores are those of one merge over the whole text's findings |
| ChunkedScan.ScanChunks | governance/app/pii.py:619-647 | the loop over the chunks succeeds exactly when every response is there, complete and well placed; otherwise it fails at the first that is not, with the error for it |
| ChunkedScan.RunGoogle | governance/app/pii.py:605-654 | the scan fails exactly when a chunk's response is missing, truncated or badly placed, and says which; otherwise its findings are one merge of the findings of all responses, each at its own place in the whole text, and classification and redacted text are those of this merge; for every local detector it agrees with a scan of the whole text, and without its markers the redacted text is exactly the code points that no finding of the whole text covers |
| ScanSlots.SplitPoolSizes | governance/app/pii.py:130-148 | the three sizes always sum to the total; each home pool is a quarter of it rounded down, but one slot for totals of two and three, and none below two |
| ScanSlots.InitialInv | governance/app/pii.py:167-179 | the initial pools satisfy the invariant |
| ScanSlots.StepKeepsInv | governance/app/pii.py:202-239 | every arrival and every departure keeps the invariant (free + held = size in each pool, waiters imply an empty pool, home queues hold only their own class, nobody waits twice) and the number of permits |
| ScanSlots.RunKeepsInv | governance/app/pii.py:202-239 | so does every run |
| ScanSlots.PermitsAddUp | governance/app/pii.py:202-239 | permits held plus permits free are all there are, so at most that many scans run |
| ScanSlots.ArrivesAt | governance/app/pii.py:202-234 | an arriving request tries for one pool only: its home pool if a permit of it can be had, else the shared pool, else the other class's home pool, and else it queues at home, or at the shared pool if home has no slots |
| ScanSlots.WaitsIffAllPermitsHeld | governance/app/pii.py:202-239 | an arriving request is queued if and only if every permit of all three pools is held |
| ScanSlots.WaiterMovesUp | governance/app/pii.py:202-239 | after n releases of its pool the waiter at place k is at place k - n, whatever else happens |
| ScanSlots.WaiterAdmittedInTurn | governance/app/pii.py:202-239 | the waiter at place k waits through k releases of its pool and holds the permit with the next |
| ScanSlots.AnyPlaceIsReached | governance/app/pii.py:202-239 | for every number of slots and every k there is a run from the start after which a request waits at place k |
| ScanSlots.NoBorrowerEnters | governance/app/pii.py:202-239 | while someone waits for a home pool no request of the other class gets a permit of it |
| ScanSlots.BorrowersOnlyLeave | governance/app/pii.py:202-239 | along any run with that queue never empty, the set of borrowers only shrinks |
| ScanSlots.ContendedClassOwnsHome | governance/app/pii.py:202-239 | once all who held a permit when the queue formed have left, the class holds its whole home pool |
| ScanSlots.SomeoneCanLeave | governance/app/pii.py:202-239 | whenever anyone waits and there is a slot at all, a running request can leave |
| ScanSlotPools.Semaphore.Acquire | governance/app/pii.py:182-234 | a semaphore's permit is had at once exactly when it is not locked, otherwise the request joins the queue |
| ScanSlotPools.Semaphore.Release | governance/app/pii.py:236-239 | a released permit goes to the first waiter, or becomes free |
| ScanSlotPools.ScanSlotPools.constructor | governance/app/pii.py:167-179 | the pools start as the machine does |
| ScanSlotPools.ScanSlotPools.Enter | governance/app/pii.py:202-234 | entering takes exactly the machine's arrival step |
| ScanSlotPools.ScanSlotPools.Exit | governance/app/pii.py:236-239 | leaving takes exactly the machine's departure step |
| RetryLoop.InspectWithBackoff | governance/app/pii.py:557-602 | attempts are made up to the first that does not fail retryably or ends past the deadline, which is fewer than timeout + 3.6; action by action, each takes a slot, inspects once with its outcome and gives the slot back, and between any two there is one sleep of 0.2, 0.4, 0.8 and then 1.0 seconds |
| RetryLoop.TotalBackoffGrows | governance/app/pii.py:548-602 | k sleeps under 0.2, 0.4, 0.8, 1.0, ... take at least k - 1.6 seconds, and exactly that from three sleeps on |
| RetryLoop.PermitOnlyToInspect | governance/app/pii.py:587-602 | exactly one permit is held at every inspection, none at any sleep, and never more than one |
| RetryLoop.PermitsBalance | governance/app/pii.py:587-602 | permits are taken and given back once per attempt, and none is left |
| ScanRetries.MoveKeepsOutside | governance/app/pii.py:587-602 | every move of requests that begin, end, back off and retry keeps the slots' invariant, and requests in backoff out of every pool and queue |
| ScanRetries.PlayKeepsOutside | governance/app/pii.py:587-602 | so does every run of them; and the slots go through a run of their own, so all that holds of the slots holds here |
| ScanRetries.BackoffHoldsNothing | governance/app/pii.py:587-602 | from the start on, a request in backoff holds no permit and waits in no queue, and whoever waits can rely on a permit holder that is not asleep |
| ScanRetries.SleeperCanRetry | governance/app/pii.py:587-602 | a request in backoff can always come back, and runs at once if any permit of the three pools is free |
| WriteBack.BoundariesOf | proxy/app/protocol_types.py:29-33 | the boundary table holds the start and end of every leaf |
| WriteBack.LeafForPosition | proxy/app/protocol_types.py:36-40 | the lookup finds the leaf holding a position, the last for a position past all |
| WriteBack.WriteOp | proxy/app/protocol_types.py:45-61 | an operation appends to each leaf exactly its share |
| WriteBack.RedistributeRedactedText | proxy/app/protocol_types.py:21-62 | the loops compute `Redistributed` |
| WriteBack.WriteBackConserves | proxy/app/protocol_types.py:21-62 | as many leaves come back, and together they are exactly the redacted text if and only if there was a leaf or nothing to write |
| WriteBack.UntouchedLeafUnchanged | proxy/app/protocol_types.py:21-62 | a leaf with no edit inside it and no insertion into it is unchanged, for every valid edit script |
| KeyedLeaves.RelabelledTexts | proxy/app/protocol_types.py:644-653 | replacements looked up under distinct keys come back in order |
| ChatPayload.RedactionRoundTrip | proxy/app/protocol_types.py:597-656 | the governed text after a redaction is exactly the redacted text, if there is a governed leaf |
| ChatPayload.RedactionKeepsTheRest | proxy/app/protocol_types.py:633-656 | other messages are untouched; parts keep their place and their other fields |
| ChatPayload.LastUserIsGoverned | proxy/app/protocol_types.py:597-656 | if message k is the last from the user, what is read is all its text, part by part in order; after a redaction its texts are the shares of the redacted text, and no other message has changed |
| ChatPayload.NoUserMessage | proxy/app/protocol_types.py:597-656 | without a user message nothing is read and nothing changes |
| AnthropicPayload.ToolResultRoundTrip | proxy/app/anthropic_compat.py:401-448 | a tool result of any shape (none, text, blocks, images only) holds exactly the text written into it, and its text blocks hold the shares of it |
| AnthropicPayload.ToolResultKeepsImages | proxy/app/anthropic_compat.py:415-448 | its images keep their order |
| AnthropicPayload.RedactedTexts | proxy/app/anthropic_compat.py:334-392 | leaf by leaf, the texts after a redaction are the redistributed ones |
| AnthropicPayload.RedactionRoundTrip | proxy/app/anthropic_compat.py:334-448 | the governed text after a redaction is exactly the redacted text, if there is a governed leaf |
| AnthropicPayload.RedactionKeepsTheRest | proxy/app/anthropic_compat.py:380-392 | other messages are untouched; blocks keep place, kind, identifiers, flags and images |
| AnthropicPayload.LastUserIsGoverned | proxy/app/anthropic_compat.py:334-392 | if message k is the last from the user, what is read is all the text of its text blocks and tool results, in order; after a redaction these are the shares of the redacted text, and no other message has changed |
| AnthropicPayload.NoUserMessage | proxy/app/anthropic_compat.py:374-392 | without a user message nothing is read and nothing changes |
| AnthropicInPlace.RedactToolResultContent | proxy/app/anthropic_compat.py:415-448 | the block object is changed to hold exactly its share, and in nothing else |
| AnthropicInPlace.WriteSubBlocks | proxy/app/anthropic_compat.py:441-448 | the inner loop replaces exactly the text sub-blocks |
| AnthropicInPlace.ReplaceLeaf | proxy/app/anthropic_compat.py:349-357 | one governed block takes its share |
| AnthropicInPlace.WriteBlocks | proxy/app/anthropic_compat.py:385-391 | the loop over the leaves mutates the blocks to the redacted content |
| AnthropicInPlace.MessageObject.WriteRedaction | proxy/app/anthropic_compat.py:380-392 | in place, a message becomes what the functional form says, with the same block objects |
| AnthropicToChat.ExpandUserContentBlocks | proxy/app/anthropic_compat.py:492-521 | the buffering loop computes `Expanded`, or the error of the first block that cannot be translated |
| AnthropicToChat.ExpandedKeepsText | proxy/app/anthropic_compat.py:492-521 | the messages hold the governed text of the blocks, in order and complete |
| AnthropicToChat.ExpandedIsSaid | proxy/app/anthropic_compat.py:474-521 | text up to the next tool result becomes one user message, if there is a text block at all, and every tool result a tool message under its id |
| AnthropicToChat.FirstIsRefused | proxy/app/anthropic_compat.py:474-521 | the first block that is neither text nor a tool result without error and image gives the error for it |
| AnthropicToChat.AssistantIsSpoken | proxy/app/anthropic_compat.py:524-547 | an assistant message holds the text of its text blocks and its tool uses, in order |
| AnthropicToChat.FirstIsUnspeakable | proxy/app/anthropic_compat.py:524-547 | the first block of another kind is its error |
| AnthropicToChat.SystemIsFlattened | proxy/app/anthropic_compat.py:585-602 | a system message is the text of its blocks, in order |
| AnthropicToChat.PlainStaysPlain | proxy/app/anthropic_compat.py:585-602 | a plain message stays one message of its role; blocks are translated by their role |
| AnthropicToChat.TranslationOf | proxy/app/anthropic_compat.py:585-602 | where the translation of each message is in the whole |
| AnthropicToChat.TranslationCarriesRedaction | proxy/app/anthropic_compat.py:585-602 | whenever a redacted request translates, the messages its last user message becomes concatenate to exactly the redacted text |
| ResponsesPayload.RedactionRoundTrip | proxy/app/responses_compat.py:178-251 | the governed text after a redaction is exactly the redacted text, if there is a governed leaf |
| ResponsesPayload.RedactionKeepsTheRest | proxy/app/responses_compat.py:217-251 | ungoverned items are untouched; parts keep place and other fields |
| ResponsesPayload.UserIsGoverned | proxy/app/responses_compat.py:178-251 | what is read is all the text of the messages whose role is "user" in any case, text part by text part in order, or the text input; after a redaction these are the shares of the redacted text |
| ResponsesPayload.TranslatedItem | proxy/app/responses_compat.py:398-434 | a translated request has one message for each item, of the role that Chat knows for its role and with all its text |
| ResponsesPayload.InstructionsComeFirst | proxy/app/responses_compat.py:398-434 | the instructions come first as one system message, and a text input is one user message |
| ResponsesPayload.TranslatedIff | proxy/app/responses_compat.py:398-434 | a request is translated if and only if its instructions and all its items can be and there is a message at all; otherwise the instructions, the first bad item, or the lack of messages is the error |
| ResponsesPayload.ItemsToChatFails | proxy/app/responses_compat.py:398-434 | the items are translated if and only if each is a message of a known role whose parts are all texts; otherwise the first that is not gives the error for what is wrong with it |
| ResponsesPayload.ChatCarriesGovernedText | proxy/app/responses_compat.py:398-434 | the user messages of a translated request hold exactly the governed text |
| ResponsesPayload.TranslationCarriesRedaction | proxy/app/responses_compat.py:398-434 | so they hold exactly the redacted text after a redaction |
| SseDecoder.DrainLines | proxy/app/openai_chat_stream.py:37-53 | the inner loop reads exactly the complete lines of the buffer, up to the first failure |
| SseDecoder.IterSseJson | proxy/app/openai_chat_stream.py:19-74 | the events are those of the decoded text; after each piece exactly the events of the lines complete by then are out; it stops early only with an error |
| SseDecoder.CuttingDoesNotMatter | proxy/app/openai_chat_stream.py:19-74 | two ways of cutting one byte stream of valid UTF-8, the last character possibly cut short, give the same events: those of the whole text split at newlines |
| SseDecoder.DecodedWhole | proxy/app/openai_chat_stream.py:22-36 | piecewise decoding is decoding of the whole |
| SseDecoder.ResumableIsEncodingPlusCutChar | proxy/app/openai_chat_stream.py:22-36 | the streams this covers are exactly an encoding followed by a proper prefix of a character |
| SseDecoder.OneErrorAtTheEnd | proxy/app/openai_chat_stream.py:19-74 | at most one error is emitted, and it is last |
| SseDecoder.CuttingDoesNotMatterIff | proxy/app/openai_chat_stream.py:19-74 | for every byte stream, valid or not: all ways of cutting it give the same events if and only if it has no invalid byte or no complete line before the first one gives an event |
| SseDecoder.InvalidStreamFails | proxy/app/openai_chat_stream.py:34-36 | however an invalid stream is cut it fails with the invalid-UTF-8 error, and the text decoded by then is a prefix of what could be decoded |
| SseDecoder.InvalidByteCuttingMatters | proxy/app/openai_chat_stream.py:25-36 | an instance: a complete line followed by a bad byte is lost or emitted depending on the cut |
| MixedStreams.RecuttingDoesNotMatterIff | proxy/app/openai_chat_stream.py:19-74 | for every stream of bytes and texts: all ways of cutting its bytes and its texts give the same events if and only if there is no invalid byte, or no line completed by the bytes between the last text and that byte gives an event |
| MixedStreams.RecutOfBytes | proxy/app/openai_chat_stream.py:19-74 | for bytes alone, two cuts of one stream are two sequences of pieces with the same bytes |
| MixedStreams.BetweenExtremes | proxy/app/openai_chat_stream.py:22-41 | with an invalid byte every cut fails with the invalid-UTF-8 error, having decoded at least what the fewest cuts decode and at most all that can be decoded |
| MixedStreams.Extremes | proxy/app/openai_chat_stream.py:22-41 | both bounds are met by some cut |
| PrintedStreams.PrintedIsTold | proxy/app/openai_chat_stream.py:37-74 | print any lines (data with any padding and carriage returns, `[DONE]`, blank lines, comments, other fields), with a last line without a newline or an error in it: the events are the values of the data lines in order, up to the first line that is wrong, with its message |
| PrintedStreams.BytesAreTold | proxy/app/openai_chat_stream.py:19-74 | the same for the bytes of the printed stream, however they are cut |
| PrintedStreams.PrintedIsRead | proxy/app/openai_chat_stream.py:40-56 | the same for one line |
| PrintedStreams.TextIsPrinted | proxy/app/openai_chat_stream.py:37-53 | every text is the print of some such lines, so this is all there is |
| ChatDecoder.ChatIsTold | proxy/app/openai_chat_stream.py:77-89 | chunks pass, and the first event that is none fails with its own error, its message, or the protocol error |
| ChatDecoder.IterOpenAiChatEvents | proxy/app/openai_chat_stream.py:77-89 | the Chat events up to and including the first failure, which is the last event |
| ChatDecoder.UpToFailureStops | proxy/app/openai_chat_stream.py:77-89 | nothing after the first failure is emitted |
| ChatDecoder.ChatEventsDoNotDependOnCutting | proxy/app/openai_chat_stream.py:19-89 | valid byte streams decode to the same Chat events however they are cut |
| ChatDecoder.ChatCuttingDoesNotMatterIff | proxy/app/openai_chat_stream.py:19-89 | for Chat events the cut makes no difference if and only if there is no invalid byte, or no complete line before the first one gives an event, or the first event is the very error that an invalid byte gives |
| ChatDecoder.ChatRecuttingDoesNotMatterIff | proxy/app/openai_chat_stream.py:19-89 | for Chat events and streams of bytes and texts: the cut makes no difference if and only if there is no invalid byte, or the first event that cuts can add is missing, comes after a failure, or is the very error that an invalid byte gives |
| AnthropicStream.SendToolCalls | proxy/app/anthropic_compat.py:816-861 | the inner loop sends the deltas of a chunk up to the first that cannot open its call, keeping text, calls, arguments and the block map in step |
| AnthropicStream.OpenAiSseToAnthropicSse | proxy/app/anthropic_compat.py:751-879 | what is sent before the end is well formed and holds exactly the text, tool calls and arguments read before the first problem, the p-th call on block p + 1; what follows is one error, or stops for all blocks in order, stop reason with the last token count, and the message stop |
| AnthropicStream.OneTerminalLast | proxy/app/anthropic_compat.py:751-879 | every run ends in exactly one error or message stop, the latter exactly when the input completes |
| AnthropicStream.BlocksOpenInOrder | proxy/app/anthropic_compat.py:832-850 | blocks are opened with the indices 0, 1, 2, ... |
| AnthropicStream.StartOf | proxy/app/anthropic_compat.py:832-850 | each index is opened exactly once |
| AnthropicStream.DeltaNamesOpenBlock | proxy/app/anthropic_compat.py:808-861 | every delta names a block of its kind opened before it and not yet stopped |
| AnthropicStream.EachBlockStoppedOnce | proxy/app/anthropic_compat.py:864-870 | in a completed run each opened block is stopped exactly once, after everything sent on it and before the message delta |
| AnthropicStream.AllContentArrives | proxy/app/anthropic_compat.py:808-861 | in a completed run the frames hold all the text of the input and each tool call with all its arguments, the p-th call on block p + 1 |
| AnthropicStream.CompletesIff | proxy/app/anthropic_compat.py:777-879 | a stream completes if and only if there is no failure, nothing but choiceless chunks after a finish reason, every tool call opened with id and name, and a finish reason; then nothing is lost |
| AnthropicEndings.CompletesExactly | proxy/app/anthropic_compat.py:777-879 | a run completes if and only if all its events are chunks, none says anything after a finish reason, every tool call is opened with an id and a name that are not empty, and some chunk gives a finish reason |
| AnthropicEndings.EndOfCompleted | proxy/app/anthropic_compat.py:864-870 | a completed run ends with the stop reason for its finish reason and the completion tokens reported last, and the message stop |
| AnthropicEndings.EndOfFlawed | proxy/app/anthropic_compat.py:766-845 | otherwise the first flaw ends it with the error that says what it is |
| AnthropicEndings.EndOfUnfinished | proxy/app/anthropic_compat.py:872-879 | a flawless stream without a finish reason ends with the error for that |
| AnthropicEndings.BeginningOf | proxy/app/anthropic_compat.py:782-788 | it begins with the first chunk's id and the model asked for, and opens the text block |
| CanonicalEvents.IterCanonicalEvents | proxy/app/stream_events.py:174-237 | the loop computes the canonical events of all chunks |
| CanonicalEvents.SendChoice | proxy/app/stream_events.py:211-237 | so does its inner part for one choice |
| CanonicalEvents.ContentPassesThrough | proxy/app/stream_events.py:174-237 | text and the arguments of every tool call pass through unchanged |
| CanonicalEvents.FailureStaysLast | proxy/app/stream_events.py:181-192 | a failure is the last event |
| CanonicalContents.AllIsTold | proxy/app/stream_events.py:174-237 | the tool events are, delta by delta, one start for each delta with an id or a name, with what it has of them, followed by its own arguments; one announcement comes from the first chunk; token counts, reasons and failures are those of the chunks, each in its order |
| CanonicalContents.ChunkInOrder | proxy/app/stream_events.py:194-237 | a chunk announces, then counts tokens, then gives its text, its calls, and its reason to end |
| AnthropicToCanonical.IterAnthropicCanonicalEvents | proxy/app/stream_events.py:58-171 | the loop with its block map and counter emits what the history of events says: each fragment goes to the call last started on its block |
| AnthropicToCanonical.CallsAreNumbered | proxy/app/stream_events.py:118-137 | tool calls are numbered 0, 1, 2, ... and arguments name a call already started |
| AnthropicToCanonical.NumberedAt | proxy/app/stream_events.py:118-156 | the same, position by position |
| AnthropicToCanonical.ArgumentsFollowTheirBlock | proxy/app/stream_events.py:118-156 | each call gets exactly the fragments sent on its block between its own start and the next start on that block, in order, whether or not blocks are used again |
| AnthropicToCanonical.TermOf | proxy/app/stream_events.py:118-137 | every call has such a start and end |
| AnthropicToCanonical.DistinctBlocksAreNotShared | proxy/app/stream_events.py:118-156 | with distinct blocks, call k gets all fragments sent on its block once it had been started |
| AnthropicToCanonical.OnlyEarlyFragmentsAreDropped | proxy/app/stream_events.py:146-156 | of what is sent on a block, exactly what came before a tool call started there is dropped |
| AnthropicToCanonical.TextPassesThrough | proxy/app/stream_events.py:139-145 | text passes through unchanged |
| AnthropicToCanonical.FailureIsLast | proxy/app/stream_events.py:70-100 | a failure is the last event |
| EmittedEvents.PrintedIsHeard | proxy/app/stream_events.py:65-100 | the lines of a printed stream are heard as they were printed, up to the first that is broken or reports an error |
| EmittedEvents.EventIsEmitted | proxy/app/stream_events.py:85-171 | every event gives what it says, right after those before it: ids, names, texts, token counts and reasons as they are or with their defaults, calls under their number, arguments for the call last started on their block |
| CanonicalToChat.IterChatSseFromCanonical | proxy/app/stream_events.py:240-344 | every chunk carries the latest message id, and the stream stops with the first failure |
| CanonicalToChat.ContentIsEncoded | proxy/app/stream_events.py:262-311 | no text or argument is lost |
| CanonicalToChat.CompletionsAreReported | proxy/app/stream_events.py:312-344 | a completion frame reports the latest input and output tokens and their sum, `[DONE]` follows it at once and stands nowhere else, and an error is the last frame |
| CanonicalToChat.CompletionHasItsFrame | proxy/app/stream_events.py:312-344 | every completion before a failure has its frame |
| EncodedEvents.EventIsEncoded | proxy/app/stream_events.py:240-344 | every event up to the first failure, that one included, becomes its frames, right after those before it: its text, its call with index, id and name, its arguments, its finish reason, or its error, under the id announced last and with the tokens counted last |
| AnthropicViaChat.ContentArrives | proxy/app/stream_events.py:58-344 | over both translations all text arrives, and each call arrives with exactly the fragments sent on its block while it had it |
| AnthropicViaChat.MessageDeltaIsReported | proxy/app/stream_events.py:158-344 | the completion of a message delta reports the last non-zero input and output tokens the provider sent, the delta's own included |
| ResponsesStream.SortedKeys | proxy/app/responses_compat.py:565 | the keys in increasing order, each once |
| ResponsesStream.FailedStreamFrame | proxy/app/responses_compat.py:540-591 | a failed frame carries every item so far with its text or arguments, marked incomplete |
| ResponsesStream.EndItems | proxy/app/responses_compat.py:811-862 | the end of a completed run does every item, the text first and the calls by index; the missing-name error is unreachable |
| ResponsesStream.OpenAiSseToResponsesSse | proxy/app/responses_compat.py:594-874 | up to the first problem the frames are well formed and hold all items, text and arguments; then one failed frame with the partial output, or every item done and one completed frame with status, latest usage and model |
| ResponsesStream.OneTerminalLast | proxy/app/responses_compat.py:594-874 | `created` is first and only first, and exactly one terminal frame stands last |
| ResponsesStream.ItemsAddedInOrder | proxy/app/responses_compat.py:656-738 | output indices are 0, 1, 2, ... in order of addition, with distinct identifiers |
| ResponsesStream.DeltaNamesAddedItem | proxy/app/responses_compat.py:678-782 | every delta names, by index and identifier, an item of its kind added before it, and a text delta comes after the item's content part was added |
| ResponsesStream.EachItemDoneOnce | proxy/app/responses_compat.py:811-862 | in a completed run each item added is done exactly once, later, under its own index and identifier, right after its final text or arguments; these, and a call's name, are the concatenation of all fragments |
| ResponsesStream.CompletedFrame | proxy/app/responses_compat.py:811-874 | the completed frame carries all text, the latest usage and model, the status that the finish reason asks for, and as its output exactly the items of the done frames: every item added, once, the text first and then the calls by index |
| ResponsesStream.FailedFrame | proxy/app/responses_compat.py:540-591 | the failed frame names the first problem, or the missing finish reason, and holds every item added by then with the text, name and arguments it has got, under the identifier it was added with, the text first and then the calls by index |
| ResponsesStream.CompletesIff | proxy/app/responses_compat.py:624-809 | a run completes if and only if no event is a problem after the ones before it and some event gives a finish reason |
| ResponsesStream.CallsHaveNames | proxy/app/responses_compat.py:841-843 | no call is ever held without a name or an id, so the error is never raised |
| ResponsesStream.ChatContentArrives | proxy/app/responses_compat.py:594-874 | from the Chat chunks on, the finished message holds all their text and every finished call all its arguments |
| ResponsesFromChat.ChatCallsArrive | proxy/app/responses_compat.py:690-862 | from the Chat chunks on, a finished call has the id of its first delta with an id or a name, and all of the name that its deltas give |
| ResponsesEndings.EndOfCompleted | proxy/app/responses_compat.py:811-874 | a completed run ends with the usage and the model reported last, and is cut exactly if the last reason given is the token limit |
| ResponsesEndings.EndOfWrong | proxy/app/responses_compat.py:540-809 | otherwise the first event that is wrong ends it with the error that says what it is |
| ResponsesEndings.EndOfRight | proxy/app/responses_compat.py:796-874 | with nothing wrong it completes if and only if a reason to end is given, and else fails with the error for that |
| RateLimiter.UserWindow.constructor | proxy/app/rate_limit.py:49-54 | a new window reflects an empty history |
| RateLimiter.UserWindow.Check | proxy/app/rate_limit.py:9-38 | whatever the clocks say, the statements of the script take the keys to what `Script` says; while the clocks keep in step, the check is allowed if and only if fewer than `limit` earlier allowed checks are newer than `now - window`, and remaining and retry-after are those of the history |
| RateLimiter.ScriptRefinesHistory | proxy/app/rate_limit.py:9-38 | the same for `Script` on any keys that reflect a history, through pruning, removal and key expiry; the keys go on reflecting it |
| RateLimiter.NoWindowHoldsMore | proxy/app/rate_limit.py:9-38 | no half-open interval as long as the window holds more than `limit` allowed checks, over any run |
| RateLimiter.DeniedDoNotCount | proxy/app/rate_limit.py:30-31 | denied checks leave no trace |
| RateLimiter.RetryAfterIsExact | proxy/app/rate_limit.py:29-37 | after a denial a check some whole seconds later is allowed if and only if it is at least the reported number, which is positive |
| LimiterRuns.RunConforms | proxy/app/rate_limit.py:9-38 | in every run of the script from empty keys whose clocks are in step, every check is decided by the run's own history |
| LimiterRuns.RetryAfterHolds | proxy/app/rate_limit.py:29-37 | in such a run, after a denied check a later run of the script some whole seconds on is allowed if and only if anything is allowed at all and it is at least the reported number of seconds, which is positive |
| LimiterRuns.LimitHoldsIff | proxy/app/rate_limit.py:9-38 | all runs whose clocks drift from check to check by no more than given bounds keep the limit in every window if and only if the limit is not positive, or the window is zero, or the caller's clock does not step back and Redis' clock gains at most its keys' time to live less the window, or Redis' clock neither gains nor steps back |
| LimiterRuns.LimitHoldsUnexpiredIff | proxy/app/rate_limit.py:9-38 | all runs in which no key expires and the caller's clock steps back by no more than a given bound keep the limit if and only if the bound is zero, or the limit at most one, or the window zero |
| LimiterRuns.FastRedisClockBreaksLimit | proxy/app/rate_limit.py:24-25 | for every larger gain of Redis' clock, by however little: a run with one check too many |
| LimiterRuns.BackwardClockBreaksLimit | proxy/app/rate_limit.py:16-31 | for every step back of the caller's clock, by however little: a run with one check too many, in which denied checks at ever earlier times age the keys |
| LimiterRuns.ForgottenChecksBreakLimit | proxy/app/rate_limit.py:16-22 | the same without any key expiring, for every limit of two or more |
| CircuitBreaker.CircuitBreaker.constructor | mcpproxy/app/circuit_breaker.py:28-31 | a new breaker is closed without failures |
| CircuitBreaker.CircuitBreaker.RecordSuccess | mcpproxy/app/circuit_breaker.py:40-43 | a success closes the breaker and forgets all failures |
| CircuitBreaker.CircuitBreaker.RecordFailure | mcpproxy/app/circuit_breaker.py:45-48 | a failure counts, the fifth trips; a sound breaker stays sound |
| CircuitBreaker.CircuitBreaker.TryStartProbe | mcpproxy/app/circuit_breaker.py:50-64 | the probe is claimed exactly when the breaker is open and the cooldown over, and then it is half open |
| CircuitBreaker.CircuitBreaker.RecordProbeFailure | mcpproxy/app/circuit_breaker.py:66-71 | a failed probe opens the breaker anew |
| CircuitBreaker.ChoosePath | mcpproxy/app/main.py:155-163 | a call goes to the sidecar if the breaker is closed, as a probe if it is open for 30 seconds or more, and to the allow-list otherwise; only a probe changes the breaker, to half open |
| CircuitBreaker.RecordOutcome | mcpproxy/app/main.py:165-185 | an ordinary call is allowed if and only if the sidecar answers so; a probe also if the sidecar does not answer and the tool is listed; a call that did not go out if and only if it is listed; every answer, denial included, closes the breaker, a failed probe opens it anew, and a failed ordinary call counts and opens it from the fifth on |
| CircuitBreaker.StepKeepsHistory | mcpproxy/app/main.py:155-185 | every step of any interleaving of calls, however long they take, keeps the breaker's fields in line with what has happened |
| CircuitBreaker.StepKeepsProbes | mcpproxy/app/main.py:155-185 | every step keeps the probes in order, as long as no call outlasts the cooldown |
| CircuitBreaker.RunKeepsHistory | mcpproxy/app/main.py:155-185 | the first invariant over every run |
| CircuitBreaker.RunKeepsProbes | mcpproxy/app/main.py:155-185 | the second over every run with calls limited to the cooldown |
| CircuitBreaker.AtMostOneProbe | mcpproxy/app/circuit_breaker.py:50-64 | in every state of every run at most one probe is in flight, late answers and failures included, if and only if calls are limited to the cooldown or less |
| CircuitBreaker.HalfOpenHasProbe | mcpproxy/app/circuit_breaker.py:50-64 | a half-open breaker has a probe in flight, however long calls take |
| CircuitBreaker.FieldsTellHistory | mcpproxy/app/circuit_breaker.py:37-71 | in every run, however long calls take: a breaker that is not closed knows when it last tripped; a closed one has seen fewer than five failures since the last answer |
| CircuitBreaker.NoCallDuringCooldown | mcpproxy/app/main.py:155-185 | in every run, however long calls take: after a trip no sidecar call starts for 30 seconds unless an answer came in between |
| CircuitBreaker.SlowCallsAllowTwoProbes | mcpproxy/app/circuit_breaker.py:50-64 | for every limit above the cooldown, by however little, and for none: a run within it with two probes in flight |
| BraceScanner.ScanForEnd | governance/app/entitlements.py:40-64 | the scanner finds the end of the block that starts at a position, if it ends |
| BraceScanner.FindBlockEnd | opa-sidecar/strip_entitlements.py:26-50 | the other scanner finds the same end, or raises |
| BraceScanner.ExtractSnippet | governance/app/entitlements.py:31-69 | the snippet is the located block, with the error of each missing step |
| BraceScanner.StripEntitlements | opa-sidecar/strip_entitlements.py:66-76 | the text before the assignment and the text after the same block |
| BraceScanner.ValueIsSkipped | opa-sidecar/strip_entitlements.py:26-50 | a scanner at any depth reads past a whole printed value, whatever braces, quotes and escapes are in it |
| BraceScanner.ScannerMeetsPrinter | governance/app/entitlements.py:40-64 | the scanner stops exactly after a printed object (string rules of section 7 of RFC 8259, any white space, trailing commas), whatever follows |
| BraceScanner.CutObjectIsOpen | governance/app/entitlements.py:40-64 | in an object that is cut short it finds no end |
| BraceScanner.StripEndsWhereTheValueEnds | opa-sidecar/strip_entitlements.py:66-77 | the bundle gets exactly the printed object, and what remains is the text around the assignment |

## Left out

- HTTP clients and routing, Postgres and Redis transport, the Google and Presidio calls, harm scoring, credentials,
  dashboards, provisioning, response headers: I/O or thin wrappers.
- Lone surrogates: a text is a sequence of Unicode scalar values, so encoding cannot fail.
- JSON parsing and schema validation are total functions with error results. In error events, `type` and `message`
  are strings or missing; in the Anthropic stream, token counts are not negative.
- The detector answers alike for equal chunk texts; network failures and retries are in `RetryLoop` only.
- `difflib` is any edit script that partitions both strings in order; which script it finds is not modelled.
- `asyncio.Semaphore` is a counter with a FIFO queue whose release hands the permit to the first waiter at once.
  Cancellation is not modelled.
- A request queued on its home pool stays there even if a shared permit becomes free: only the statement at the
  moment of queueing is made.
- ScanSlots.SplitPoolSizes: the loop that corrects sizes is not modelled, because twice a home pool always fits
  and it never turns.
- Chunker.TextChunks: requires enough room between chunk size and overlap where the source loops, because without
  it the source does not terminate on some texts (`Chunker.ProgressNeedsRoom` has the exact condition).
- The sub-blocks inside a tool result are values; the blocks and messages that hold them are objects.
- Translation to Chat covers messages; the request's system prompt, tools, sampling options and other members are not modelled.
- Role names are lower-cased as ASCII.
- Identifiers made with `uuid4` are a counter. Creation times, response ids and constant members of frames are not
  modelled; neither are `event:` lines and JSON serialisation of frames.
- The order of the `output` list of a completed response relative to output indices, beyond text first and calls by
  index.
- A round trip from canonical events through Chat chunks on the wire and back does not exist: the chunks carry no
  `created`, which the decoder requires.
- RateLimiter.UserWindow.constructor: windows are not negative.
- Sidecar clients that raise anything but `OpaCheckError`, audit events and the downstream call are not modelled.
- The marker's regular expression is a parameter; the clean-up of trailing commas, which ignores strings, and the
  injected import are not modelled.
