/** Translation of the messages of an Anthropic request to Chat messages (`messages_to_chat_body`). */
module AnthropicToChat {
  import opened Wrappers
  import opened WriteBack
  import opened KeyedLeaves
  import opened AnthropicPayload

  datatype ToolCall = ToolCall(id: string, name: string, arguments: string)

  datatype ChatMessage =
    | SystemChat(content: string)
    | UserChat(content: string)
    | AssistantChat(content: string, toolCalls: seq<ToolCall>)
    | ToolChat(toolCallId: string, content: string)

  datatype CompatError = ToolResultIsError | ToolResultHasImage | UnsupportedBlock(block: Block)

  type Translated = Result<seq<ChatMessage>, CompatError>

  function Contents(messages: seq<ChatMessage>): (r: seq<string>)
    ensures |r| == |messages|
  {
    seq(|messages|, i requires 0 <= i < |messages| => messages[i].content)
  }

  function ToolResultMessage(b: Block): Result<ChatMessage, CompatError>
    requires b.ToolResult?
  {
    if b.isError then Err(ToolResultIsError)
    else if Images(b.content) != [] then Err(ToolResultHasImage)
    else Ok(ToolChat(b.toolUseId, ToolResultText(b.content)))
  }

  /** Messages finished so far, and the text buffered for the next user message. */
  datatype Expansion = Expansion(messages: seq<ChatMessage>, buffer: seq<string>) {
    function Flushed(): seq<ChatMessage> {
      if buffer == [] then messages else messages + [UserChat(Join(buffer))]
    }
  }

  function ExpandUpTo(blocks: seq<Block>): Result<Expansion, CompatError> {
    if blocks == [] then Ok(Expansion([], []))
    else match ExpandUpTo(blocks[..|blocks| - 1])
      case Err(e) => Err(e)
      case Ok(x) => ExpandOne(x, blocks[|blocks| - 1])
  }

  function ExpandOne(x: Expansion, b: Block): Result<Expansion, CompatError> {
    match b
    case TextBlock(text, _) => Ok(Expansion(x.messages, x.buffer + [text]))
    case ToolResult(_, _, _) =>
      (match ToolResultMessage(b)
       case Err(e) => Err(e)
       case Ok(m) => Ok(Expansion(x.Flushed() + [m], [])))
    case _ => Err(UnsupportedBlock(b))
  }

  function Expanded(blocks: seq<Block>): Translated {
    match ExpandUpTo(blocks)
    case Err(e) => Err(e)
    case Ok(x) => Ok(if x.Flushed() == [] then [UserChat("")] else x.Flushed())
  }

  lemma {:induction false} ExpansionStopsAtError(blocks: seq<Block>, i: nat)
    requires i <= |blocks| && ExpandUpTo(blocks[..i]).Err?
    ensures ExpandUpTo(blocks) == ExpandUpTo(blocks[..i])
    decreases |blocks| - i
  {
    if i < |blocks| {
      assert blocks[..i + 1][..i] == blocks[..i];
      ExpansionStopsAtError(blocks, i + 1);
    } else {
      assert blocks[..i] == blocks;
    }
  }

  method ExpandUserContentBlocks(blocks: seq<Block>) returns (r: Translated)
    ensures r == Expanded(blocks)
  {
    hide ToolResultMessage, Join;
    var messages: seq<ChatMessage>, buffer: seq<string> := [], [];
    var i := 0;
    while i < |blocks|
      invariant 0 <= i <= |blocks| && ExpandUpTo(blocks[..i]) == Ok(Expansion(messages, buffer))
    {
      var b := blocks[i];
      assert blocks[..i + 1][..i] == blocks[..i];
      if b.TextBlock? {
        buffer := buffer + [b.text];
      } else if b.ToolResult? {
        if buffer != [] {
          messages := messages + [UserChat(Join(buffer))];
        }
        var m := ToolResultMessage(b);
        if m.Err? {
          ExpansionStopsAtError(blocks, i + 1);
          return Err(m.error);
        }
        messages, buffer := messages + [m.value], [];
      } else {
        ExpansionStopsAtError(blocks, i + 1);
        return Err(UnsupportedBlock(b));
      }
      i := i + 1;
    }
    assert blocks[..i] == blocks;
    if buffer != [] {
      messages := messages + [UserChat(Join(buffer))];
    }
    return Ok(if messages == [] then [UserChat("")] else messages);
  }

  lemma JoinMore(leaves: seq<string>, leaf: string)
    ensures Join(leaves + [leaf]) == Join(leaves) + leaf
  {
    assert (leaves + [leaf])[..|leaves|] == leaves;
  }

  /** Flushing keeps the text in order. */
  lemma FlushedText(x: Expansion)
    ensures Join(Contents(x.Flushed())) == Join(Contents(x.messages)) + Join(x.buffer)
  {
    if x.buffer != [] {
      JoinMore(Contents(x.messages), Join(x.buffer));
      assert Contents(x.messages + [UserChat(Join(x.buffer))]) == Contents(x.messages) + [Join(x.buffer)];
    }
  }

  lemma {:induction false} ExpansionKeepsText(blocks: seq<Block>)
    requires ExpandUpTo(blocks).Ok?
    ensures var x := ExpandUpTo(blocks).value;
            Join(Contents(x.messages)) + Join(x.buffer) == Join(Texts(BlockLeaves(blocks)))
  {
    hide Join, Images;
    if blocks == [] {
      NoText();
    } else {
      var n := |blocks| - 1;
      ExpansionKeepsText(blocks[..n]);
      var before, b := ExpandUpTo(blocks[..n]).value, blocks[n];
      var x := ExpandUpTo(blocks).value;
      assert Texts(BlockLeaves(blocks)) == Texts(BlockLeaves(blocks[..n])) + [BlockText(b)];
      JoinMore(Texts(BlockLeaves(blocks[..n])), BlockText(b));
      if b.TextBlock? {
        JoinMore(before.buffer, b.text);
        Associate(Join(Contents(before.messages)), Join(before.buffer), b.text);
      } else {
        FlushedText(before);
        JoinMore(Contents(before.Flushed()), BlockText(b));
        assert Contents(x.messages) == Contents(before.Flushed()) + [BlockText(b)];
        NoText();
      }
    }
  }

  lemma NoText()
    ensures Join([]) == "" && Contents([]) == [] && Texts<nat>([]) == []
  {
  }

  /** Whatever is translated at all carries the governed text of the blocks, in order and complete. */
  lemma ExpandedKeepsText(blocks: seq<Block>)
    requires Expanded(blocks).Ok?
    ensures Join(Contents(Expanded(blocks).value)) == Join(Texts(BlockLeaves(blocks)))
  {
    ExpansionKeepsText(blocks);
    var x := ExpandUpTo(blocks).value;
    FlushedText(x);
    if x.Flushed() == [] {
      assert Contents([UserChat("")]) == [""];
      JoinMore([], "");
      assert [] + [""] == [""];
    }
  }

  // ---------------------------------------------------------------- all messages

  function ContentStr(blocks: seq<Block>): Result<string, CompatError> {
    if blocks == [] then Ok("")
    else match ContentStr(blocks[..|blocks| - 1])
      case Err(e) => Err(e)
      case Ok(text) =>
        match blocks[|blocks| - 1]
        case TextBlock(t, _) => Ok(text + t)
        case ToolUse(_, _, input) => Ok(text + input)
        case ToolResult(_, content, _) => Ok(text + ToolResultText(content))
        case b => Err(UnsupportedBlock(b))
  }

  function AssistantMessage(blocks: seq<Block>): (r: Result<ChatMessage, CompatError>)
    ensures r.Ok? ==> r.value.AssistantChat?
  {
    if blocks == [] then Ok(AssistantChat("", []))
    else match AssistantMessage(blocks[..|blocks| - 1])
      case Err(e) => Err(e)
      case Ok(m) =>
        var (text, calls) := (m.content, m.toolCalls);
        match blocks[|blocks| - 1]
        case TextBlock(t, _) => Ok(AssistantChat(text + t, calls))
        case ToolUse(id, name, input) => Ok(AssistantChat(text, calls + [ToolCall(id, name, input)]))
        case b => Err(UnsupportedBlock(b))
  }

  function TranslateMessage(m: Message): Translated {
    match m.content
    case Plain(text) =>
      Ok([match m.role
          case System => SystemChat(text)
          case User => UserChat(text)
          case Assistant => AssistantChat(text, [])])
    case Blocks(blocks) =>
      match m.role
      case System => (match ContentStr(blocks) case Err(e) => Err(e) case Ok(text) => Ok([SystemChat(text)]))
      case Assistant => (match AssistantMessage(blocks) case Err(e) => Err(e) case Ok(a) => Ok([a]))
      case User => Expanded(blocks)
  }

  function MessagesToChat(messages: seq<Message>): Translated {
    if messages == [] then Ok([])
    else match MessagesToChat(messages[..|messages| - 1])
      case Err(e) => Err(e)
      case Ok(done) =>
        match TranslateMessage(messages[|messages| - 1])
        case Err(e) => Err(e)
        case Ok(ms) => Ok(done + ms)
  }

  /** Where the translation of message `k` is in the translation of all of them. */
  lemma {:induction false} TranslationOf(messages: seq<Message>, k: nat)
    requires k < |messages| && MessagesToChat(messages).Ok?
    ensures MessagesToChat(messages[..k]).Ok? && TranslateMessage(messages[k]).Ok?
    ensures var from := |MessagesToChat(messages[..k]).value|;
            var to := from + |TranslateMessage(messages[k]).value|;
            to <= |MessagesToChat(messages).value|
            && MessagesToChat(messages).value[from..to] == TranslateMessage(messages[k]).value
    decreases |messages|
  {
    hide TranslateMessage;
    var n := |messages| - 1;
    if k < n {
      TranslationOf(messages[..n], k);
      assert messages[..n][..k] == messages[..k];
    }
  }

  lemma UserTranslationKeepsText(content: Content)
    requires TranslateMessage(Message(User, content)).Ok?
    ensures Join(Contents(TranslateMessage(Message(User, content)).value)) == Join(LeafTexts(content))
  {
    match content
    case Blocks(blocks) => ExpandedKeepsText(blocks);
    case Plain(text) => assert Contents([UserChat(text)]) == [text];
  }

  /**
   When a redacted request can be translated to Chat at all, the messages its last user message becomes hold
   exactly the redacted text, in order.
   */
  lemma {:induction false} TranslationCarriesRedaction(messages: seq<Message>, k: nat, redacted: string, diff: Differ)
    requires ValidDiffer(diff) && IsLastUser(messages, k) && TextsOf(messages[k].content) != []
    requires MessagesToChat(WithRedactedText(messages, redacted, diff)).Ok?
    ensures var all := WithRedactedText(messages, redacted, diff);
            MessagesToChat(all[..k]).Ok? && TranslateMessage(all[k]).Ok?
            && (var from := |MessagesToChat(all[..k]).value|;
                var to := from + |TranslateMessage(all[k]).value|;
                to <= |MessagesToChat(all).value|
                && Join(Contents(MessagesToChat(all).value[from..to])) == redacted)
  {
    hide MessagesToChat, TranslateMessage, Join, LeafTexts, ValidDiffer, WithRedactedText, TextsOf, Redistributed;
    var all := WithRedactedText(messages, redacted, diff);
    LastUserIsGoverned(messages, k, redacted, diff);
    TranslationOf(all, k);
    UserTranslationKeepsText(all[k].content);
    LeavesAreTexts(all[k].content);
  }

  // ---------------------------------------------------------------- read off the blocks

  /** What can be said to Chat: text, and tool results that are no error and hold no image. */
  predicate Translatable(b: Block) {
    match b
    case TextBlock(_, _) => true
    case ToolResult(_, content, isError) =>
      !isError && (content.ListContent? ==> forall i :: 0 <= i < |content.blocks| ==> !content.blocks[i].Image?)
    case _ => false
  }

  function ErrorOf(b: Block): CompatError {
    match b
    case ToolResult(_, _, true) => ToolResultIsError
    case ToolResult(_, _, false) => ToolResultHasImage
    case _ => UnsupportedBlock(b)
  }

  /**
   Text up to the next tool result is one user message, if there is a text block at all; every tool result is a
   message of its own, under its id.
   */
  function Said(waiting: Option<string>, blocks: seq<Block>): seq<ChatMessage>
    decreases |blocks|
  {
    var before := if waiting.Some? then [UserChat(waiting.value)] else [];
    if blocks == [] then before
    else match blocks[0]
      case TextBlock(text, _) => Said(Some((if waiting.Some? then waiting.value else "") + text), blocks[1..])
      case ToolResult(id, content, _) => before + [ToolChat(id, Join(ToolTexts(content)))] + Said(None, blocks[1..])
      case _ => Said(waiting, blocks[1..])
  }

  function Waiting(x: Expansion): Option<string> {
    if x.buffer == [] then None else Some(Join(x.buffer))
  }

  /** What has been expanded so far has been said, and the buffer is waiting. */
  lemma {:induction false} ExpansionIsSaid(blocks: seq<Block>, rest: seq<Block>)
    requires ExpandUpTo(blocks).Ok?
    ensures var x := ExpandUpTo(blocks).value; Said(None, blocks + rest) == x.messages + Said(Waiting(x), rest)
  {
    hide Join, ToolTexts, Said, ToolResultMessage;
    if blocks == [] {
      assert [] + rest == rest && [] + Said(None, rest) == Said(None, rest);
    } else {
      var n := |blocks| - 1;
      var x, b := ExpandUpTo(blocks[..n]).value, blocks[n];
      ExpansionIsSaid(blocks[..n], [b] + rest);
      assert blocks + rest == blocks[..n] + ([b] + rest);
      SaidNext(x, b, rest);
    }
  }

  lemma SaidNext(x: Expansion, b: Block, rest: seq<Block>)
    requires ExpandOne(x, b).Ok?
    ensures var x' := ExpandOne(x, b).value;
            x.messages + Said(Waiting(x), [b] + rest) == x'.messages + Said(Waiting(x'), rest)
  {
    hide Join, ToolTexts, ToolResultText, Images;
    assert ([b] + rest)[1..] == rest;
    if b.TextBlock? {
      JoinMore(x.buffer, b.text);
      EmptyJoin();
      assert [] + [b.text] == [b.text] && "" + b.text == b.text;
    } else {
      ToolTextIsRead(b.content);
      var before := if x.buffer == [] then [] else [UserChat(Join(x.buffer))];
      var m := ToolChat(b.toolUseId, ToolResultText(b.content));
      assert x.Flushed() == x.messages + before;
      Associate(x.messages, before + [m], Said(None, rest));
      Associate(x.messages, before, [m]);
    }
  }

  lemma EmptyJoin()
    ensures Join([]) == ""
  {
  }

  lemma {:induction false} NoImageIsListed(blocks: seq<SubBlock>)
    ensures ImagesOf(blocks) == [] <==> forall i :: 0 <= i < |blocks| ==> !blocks[i].Image?
  {
    if blocks != [] {
      var n := |blocks| - 1;
      var front := blocks[..n];
      NoImageIsListed(front);
      assert ImagesOf(blocks) == ImagesOf(front) + if blocks[n].Image? then [blocks[n]] else [];
      assert forall i :: 0 <= i < n ==> front[i] == blocks[i];
      hide ImagesOf;
    }
  }

  lemma {:induction false} ExpandedOne(x: Expansion, b: Block)
    ensures ExpandOne(x, b).Ok? <==> Translatable(b)
    ensures !Translatable(b) ==> ExpandOne(x, b) == Err(ErrorOf(b))
  {
    if b.ToolResult? && b.content.ListContent? {
      NoImageIsListed(b.content.blocks);
    }
  }

  predicate AllTranslatable(blocks: seq<Block>) {
    forall i :: 0 <= i < |blocks| ==> Translatable(blocks[i])
  }

  /** A user's blocks become what they say, */
  lemma {:induction false} ExpandedIsSaid(blocks: seq<Block>)
    requires AllTranslatable(blocks)
    ensures Expanded(blocks) == Ok(if Said(None, blocks) == [] then [UserChat("")] else Said(None, blocks))
  {
    hide ExpandOne, Translatable, Join, ErrorOf;
    AllExpanded(blocks);
    ExpansionIsSaid(blocks, []);
    var x := ExpandUpTo(blocks).value;
    assert blocks + [] == blocks && x.messages + [] == x.messages;
    assert Said(Waiting(x), []) == if x.buffer == [] then [] else [UserChat(Join(x.buffer))];
  }

  /** or the error of the first that cannot be said. */
  lemma {:induction false} FirstIsRefused(blocks: seq<Block>, i: nat)
    requires i < |blocks| && AllTranslatable(blocks[..i]) && !Translatable(blocks[i])
    ensures Expanded(blocks) == Err(ErrorOf(blocks[i]))
  {
    hide ExpandOne, Translatable, Join, ErrorOf;
    AllExpanded(blocks[..i]);
    assert blocks[..i + 1][..i] == blocks[..i];
    ExpandedOne(ExpandUpTo(blocks[..i]).value, blocks[i]);
    ExpansionStopsAtError(blocks, i + 1);
  }

  lemma {:induction false} AllExpanded(blocks: seq<Block>)
    requires AllTranslatable(blocks)
    ensures ExpandUpTo(blocks).Ok?
  {
    hide ExpandOne, Translatable;
    if blocks != [] {
      var n := |blocks| - 1;
      AllExpanded(blocks[..n]);
      ExpandedOne(ExpandUpTo(blocks[..n]).value, blocks[n]);
    }
  }

  /** The text blocks of an assistant's message, one after the other. */
  function SpokenText(blocks: seq<Block>): string {
    if blocks == [] then ""
    else (if blocks[0].TextBlock? then blocks[0].text else "") + SpokenText(blocks[1..])
  }

  /** Its tool uses, in order. */
  function Calls(blocks: seq<Block>): seq<ToolCall> {
    if blocks == [] then []
    else match blocks[0]
      case ToolUse(id, name, input) => [ToolCall(id, name, input)] + Calls(blocks[1..])
      case _ => Calls(blocks[1..])
  }

  lemma {:induction false} OneMoreSpoken(blocks: seq<Block>, b: Block)
    ensures SpokenText(blocks + [b]) == SpokenText(blocks) + if b.TextBlock? then b.text else ""
  {
    if blocks == [] {
      assert [b][1..] == [];
    } else {
      OneMoreSpoken(blocks[1..], b);
      assert (blocks + [b])[1..] == blocks[1..] + [b];
      var first, last := if blocks[0].TextBlock? then blocks[0].text else "", if b.TextBlock? then b.text else "";
      Associate(first, SpokenText(blocks[1..]), last);
    }
  }

  lemma {:induction false} OneMoreCall(blocks: seq<Block>, b: Block)
    ensures Calls(blocks + [b]) == Calls(blocks) + if b.ToolUse? then [ToolCall(b.id, b.name, b.input)] else []
  {
    if blocks == [] {
      assert [b][1..] == [];
    } else {
      OneMoreCall(blocks[1..], b);
      assert (blocks + [b])[1..] == blocks[1..] + [b];
    }
  }

  predicate Speakable(b: Block) {
    b.TextBlock? || b.ToolUse?
  }

  /** An assistant's message holds its text and its tool uses, if it holds nothing else. */
  lemma {:induction false} AssistantIsSpoken(blocks: seq<Block>)
    requires forall i :: 0 <= i < |blocks| ==> Speakable(blocks[i])
    ensures AssistantMessage(blocks) == Ok(AssistantChat(SpokenText(blocks), Calls(blocks)))
  {
    hide SpokenText, Calls;
    if blocks == [] {
      NothingSpoken();
    } else {
      var n := |blocks| - 1;
      AssistantIsSpoken(blocks[..n]);
      OneMoreSpoken(blocks[..n], blocks[n]);
      OneMoreCall(blocks[..n], blocks[n]);
      assert blocks == blocks[..n] + [blocks[n]] && Speakable(blocks[n]);
      var text, calls := SpokenText(blocks[..n]), Calls(blocks[..n]);
      assert text + "" == text && calls + [] == calls;
    }
  }

  lemma NothingSpoken()
    ensures SpokenText([]) == "" && Calls([]) == []
  {
  }

  lemma {:induction false} FirstIsUnspeakable(blocks: seq<Block>, i: nat)
    requires i < |blocks| && !Speakable(blocks[i]) && forall j :: 0 <= j < i ==> Speakable(blocks[j])
    ensures AssistantMessage(blocks) == Err(UnsupportedBlock(blocks[i]))
    decreases |blocks|
  {
    var n := |blocks| - 1;
    if i < n {
      FirstIsUnspeakable(blocks[..n], i);
    } else {
      AssistantIsSpoken(blocks[..n]);
    }
  }

  /** What a block adds to a system prompt. */
  function SystemPart(b: Block): string {
    match b
    case TextBlock(text, _) => text
    case ToolUse(_, _, input) => input
    case ToolResult(_, content, _) => Join(ToolTexts(content))
    case OtherBlock(_) => ""
  }

  function SystemText(blocks: seq<Block>): string {
    if blocks == [] then "" else SystemPart(blocks[0]) + SystemText(blocks[1..])
  }

  lemma {:induction false} OneMoreSystemPart(blocks: seq<Block>, b: Block)
    ensures SystemText(blocks + [b]) == SystemText(blocks) + SystemPart(b)
  {
    hide SystemPart;
    if blocks == [] {
      assert [b][1..] == [];
    } else {
      OneMoreSystemPart(blocks[1..], b);
      assert (blocks + [b])[1..] == blocks[1..] + [b];
      Associate(SystemPart(blocks[0]), SystemText(blocks[1..]), SystemPart(b));
    }
  }

  /** The blocks of a system message are flattened in order; one of another kind is an error. */
  lemma {:induction false} SystemIsFlattened(blocks: seq<Block>)
    ensures ContentStr(blocks).Ok? <==> forall i :: 0 <= i < |blocks| ==> !blocks[i].OtherBlock?
    ensures ContentStr(blocks).Ok? ==> ContentStr(blocks).value == SystemText(blocks)
    ensures ContentStr(blocks).Err? ==>
              ContentStr(blocks).error.UnsupportedBlock? && ContentStr(blocks).error.block.OtherBlock?
  {
    hide SystemText, ToolTexts, ToolResultText, Join;
    if blocks == [] {
      NoSystemText();
    } else {
      var n := |blocks| - 1;
      SystemIsFlattened(blocks[..n]);
      OneMoreSystemPart(blocks[..n], blocks[n]);
      assert blocks == blocks[..n] + [blocks[n]];
      if blocks[n].ToolResult? {
        ToolTextIsRead(blocks[n].content);
      }
    }
  }

  lemma NoSystemText()
    ensures SystemText([]) == ""
  {
  }

  /** Plain text stays one message of its role; a user's blocks are expanded. */
  lemma PlainStaysPlain(text: string, blocks: seq<Block>)
    ensures TranslateMessage(Message(User, Plain(text))) == Ok([UserChat(text)])
    ensures TranslateMessage(Message(Assistant, Plain(text))) == Ok([AssistantChat(text, [])])
    ensures TranslateMessage(Message(System, Plain(text))) == Ok([SystemChat(text)])
    ensures TranslateMessage(Message(User, Blocks(blocks))) == Expanded(blocks)
    ensures TranslateMessage(Message(Assistant, Blocks(blocks)))
         == match AssistantMessage(blocks) case Ok(m) => Ok([m]) case Err(e) => Err(e)
    ensures TranslateMessage(Message(System, Blocks(blocks)))
         == match ContentStr(blocks) case Ok(text) => Ok([SystemChat(text)]) case Err(e) => Err(e)
  {
  }
}
