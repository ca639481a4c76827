/** Translating a Chat completion stream to an Anthropic Messages stream (`openai_sse_to_anthropic_sse`). */
module AnthropicStream {
  import opened Wrappers
  import opened ChatEvents

  datatype BlockKind = TextKind | ToolKind(id: string, name: string)

  datatype Frame =
    | MessageStart(id: string, model: string)
    | BlockStart(index: nat, block: BlockKind)
    | TextDelta(index: nat, text: string)
    | ArgsDelta(index: nat, json: string)
    | BlockStop(index: nat)
    | MessageDelta(stopReason: string, outputTokens: nat)
    | MessageStop
    | ErrorFrame(kind: string, message: string)

  // ---------------------------------------------------------------- what the input holds

  /** Good enough to open a tool call. */
  predicate Named(d: ToolCallDelta) {
    OrEmpty(d.id) != "" && NameOf(d) != ""
  }

  /** The tool-call indices in order of first appearance. */
  function FirstSeen(ds: seq<ToolCallDelta>): seq<nat> {
    if ds == [] then []
    else
      var seen, k := FirstSeen(ds[..|ds| - 1]), ds[|ds| - 1].index;
      if k in seen then seen else seen + [k]
  }

  /** The id and name each tool call first appeared with. */
  function ToolHeads(ds: seq<ToolCallDelta>): seq<BlockKind> {
    if ds == [] then []
    else
      var before, d := ds[..|ds| - 1], ds[|ds| - 1];
      if d.index in FirstSeen(before) then ToolHeads(before)
      else ToolHeads(before) + [ToolKind(OrEmpty(d.id), NameOf(d))]
  }

  /** How many of `ds` can follow `before` until one opens a tool call without an id or a name. */
  function Acceptable(before: seq<ToolCallDelta>, ds: seq<ToolCallDelta>): (n: nat)
    ensures n <= |ds|
    decreases |ds|
  {
    if ds == [] || (ds[0].index !in FirstSeen(before) && !Named(ds[0])) then 0
    else 1 + Acceptable(before + [ds[0]], ds[1..])
  }

  /** The text, tool-call deltas and finish reason up to the first problem, and that problem. */
  datatype Taken = Taken(text: string, tools: seq<ToolCallDelta>, finish: Option<FinishReason>, problem: Option<Frame>)

  const AFTER_FINISH := ErrorFrame("invalid_upstream_stream", "Provider emitted content after a terminal finish reason")
  const MISSING_ID_OR_NAME :=
    ErrorFrame("invalid_upstream_stream", "Initial tool-call chunk is missing id or function name")
  const INCOMPLETE := ErrorFrame("incomplete_upstream_stream", "Provider stream ended without a terminal finish reason")

  function FrameOf(e: RawError): (f: Frame)
    ensures f.ErrorFrame?
  {
    match e
    case ErrorObject(kind, message) =>
      ErrorFrame(if kind.Some? then kind.value else "api_error",
                 if message.Some? then message.value else "Upstream provider error")
    case ErrorValue(text) => ErrorFrame("api_error", text)
  }

  function TakeOne(t: Taken, e: ChatEvent): Taken {
    match e
    case Failure(error) => t.(problem := Some(FrameOf(error)))
    case Data(chunk) =>
      if chunk.choices == [] then t
      else if t.finish.Some? then t.(problem := Some(AFTER_FINISH))
      else
        var c := chunk.choices[0];
        var n := Acceptable(t.tools, c.toolCalls);
        Taken(t.text + OrEmpty(c.content), t.tools + c.toolCalls[..n], if c.finish.Some? then c.finish else t.finish,
              if n < |c.toolCalls| then Some(MISSING_ID_OR_NAME) else None)
  }

  function Take(events: seq<ChatEvent>): Taken {
    if events == [] then Taken("", [], None, None)
    else
      var t := Take(events[..|events| - 1]);
      if t.problem.Some? then t else TakeOne(t, events[|events| - 1])
  }

  function Tokens(events: seq<ChatEvent>): nat {
    if events == [] then 0
    else
      var e := events[|events| - 1];
      if e.Data? && e.chunk.usage.Some? then e.chunk.usage.value.completionTokens else Tokens(events[..|events| - 1])
  }

  function StopReason(finish: FinishReason): string {
    match finish
    case Length => "max_tokens"
    case ToolCalls => "tool_use"
    case _ => "end_turn"
  }

  /** The stream can be carried through: nothing wrong in it, and it says why it ended. */
  predicate Completes(events: seq<ChatEvent>) {
    Take(events).problem.None? && Take(events).finish.Some?
  }

  // ---------------------------------------------------------------- what the output holds

  function Opened(body: seq<Frame>): nat {
    if body == [] then 0
    else Opened(body[..|body| - 1]) + if body[|body| - 1].BlockStart? then 1 else 0
  }

  function TextOut(body: seq<Frame>): string {
    if body == [] then ""
    else
      var f := body[|body| - 1];
      TextOut(body[..|body| - 1]) + if f.TextDelta? then f.text else ""
  }

  function ToolStarts(body: seq<Frame>): seq<BlockKind> {
    if body == [] then []
    else
      var f := body[|body| - 1];
      ToolStarts(body[..|body| - 1]) + if f.BlockStart? && f.block.ToolKind? then [f.block] else []
  }

  function ArgsOut(body: seq<Frame>, b: nat): string {
    if body == [] then ""
    else
      var f := body[|body| - 1];
      ArgsOut(body[..|body| - 1], b) + if f.ArgsDelta? && f.index == b then f.json else ""
  }

  /** `f` may follow `before`: one message start, blocks numbered as they open, deltas only for open blocks. */
  predicate MayFollow(before: seq<Frame>, f: Frame) {
    match f
    case MessageStart(_, _) => before == []
    case BlockStart(i, block) => before != [] && i == Opened(before) && (block.TextKind? <==> i == 0)
    case TextDelta(i, _) => i == 0 < Opened(before)
    case ArgsDelta(i, _) => 0 < i < Opened(before)
    case _ => false
  }

  predicate GoodBody(body: seq<Frame>) {
    body == [] || (GoodBody(body[..|body| - 1]) && MayFollow(body[..|body| - 1], body[|body| - 1]))
  }

  function Stops(n: nat): seq<Frame> {
    if n == 0 then [] else Stops(n - 1) + [BlockStop(n - 1)]
  }

  /** The frames hold exactly this text and these tool calls, the p-th call to appear on block p + 1. */
  ghost predicate Carries(body: seq<Frame>, text: string, ds: seq<ToolCallDelta>) {
    TextOut(body) == text
    && ToolStarts(body) == ToolHeads(ds)
    && forall p {:trigger FirstSeen(ds)[p]} :: 0 <= p < |FirstSeen(ds)| ==>
         ArgsOut(body, p + 1) == Fragments(ds, FirstSeen(ds)[p])
  }

  lemma OneFrame(body: seq<Frame>, f: Frame)
    ensures (body + [f])[..|body|] == body && (body + [f])[|body|] == f
    ensures TextOut(body + [f]) == TextOut(body) + if f.TextDelta? then f.text else ""
    ensures ToolStarts(body + [f]) == ToolStarts(body) + if f.BlockStart? && f.block.ToolKind? then [f.block] else []
    ensures forall b :: ArgsOut(body + [f], b) == ArgsOut(body, b) + if f.ArgsDelta? && f.index == b then f.json else ""
    ensures Opened(body + [f]) == Opened(body) + if f.BlockStart? then 1 else 0
    ensures GoodBody(body + [f]) <==> GoodBody(body) && MayFollow(body, f)
  {
    hide MayFollow;
    assert (body + [f])[..|body|] == body;
  }

  lemma OneDelta(ds: seq<ToolCallDelta>, d: ToolCallDelta)
    ensures FirstSeen(ds + [d]) == if d.index in FirstSeen(ds) then FirstSeen(ds) else FirstSeen(ds) + [d.index]
    ensures ToolHeads(ds + [d])
         == if d.index in FirstSeen(ds) then ToolHeads(ds) else ToolHeads(ds) + [ToolKind(OrEmpty(d.id), NameOf(d))]
    ensures forall k :: Fragments(ds + [d], k) == Fragments(ds, k) + if d.index == k then ArgumentsOf(d) else ""
  {
    hide OrEmpty, NameOf, ArgumentsOf;
    assert (ds + [d])[..|ds|] == ds;
  }

  lemma {:induction false} UnseenHasNoFragments(ds: seq<ToolCallDelta>, k: nat)
    requires k !in FirstSeen(ds)
    ensures Fragments(ds, k) == ""
  {
    if ds != [] {
      UnseenHasNoFragments(ds[..|ds| - 1], k);
    }
  }

  lemma {:induction false} UnopenedHasNoArgs(body: seq<Frame>, b: nat)
    requires GoodBody(body) && b >= Opened(body)
    ensures ArgsOut(body, b) == ""
  {
    if body != [] {
      UnopenedHasNoArgs(body[..|body| - 1], b);
    }
  }

  // ---------------------------------------------------------------- the translator's own state

  /** The map gives each tool-call index the block it was opened on. */
  ghost predicate Book(m: map<nat, nat>, order: seq<nat>) {
    (forall k :: k in m <==> k in order)
    && forall p :: 0 <= p < |order| ==> order[p] in m && m[order[p]] == p + 1
  }

  ghost predicate Synced(body: seq<Frame>, text: string, ds: seq<ToolCallDelta>, m: map<nat, nat>, next: nat) {
    GoodBody(body)
    && Opened(body) == next == |FirstSeen(ds)| + 1
    && Carries(body, text, ds)
    && Book(m, FirstSeen(ds))
  }

  lemma SendText(body: seq<Frame>, text: string, ds: seq<ToolCallDelta>, m: map<nat, nat>, next: nat, more: string)
    requires Synced(body, text, ds, m, next)
    ensures Synced(body + [TextDelta(0, more)], text + more, ds, m, next)
  {
    hide FirstSeen, ToolHeads, GoodBody, Opened, ToolStarts, ArgsOut, TextOut;
    OneFrame(body, TextDelta(0, more));
  }

  function Opening(m: map<nat, nat>, next: nat, d: ToolCallDelta): seq<Frame> {
    if d.index in m then [] else [BlockStart(next, ToolKind(OrEmpty(d.id), NameOf(d)))]
  }

  function Arguing(b: nat, d: ToolCallDelta): seq<Frame> {
    if ArgumentsOf(d) == "" then [] else [ArgsDelta(b, ArgumentsOf(d))]
  }

  function BlockFor(m: map<nat, nat>, next: nat, k: nat): nat {
    if k in m then m[k] else next
  }

  /** What a delta's frames do to the projections of the body. */
  lemma ToolFrames(body: seq<Frame>, m: map<nat, nat>, next: nat, d: ToolCallDelta)
    requires GoodBody(body) && Opened(body) == next && next > 0 && 0 < BlockFor(m, next, d.index) <= next
    requires d.index in m ==> m[d.index] < next
    ensures var after := body + Opening(m, next, d) + Arguing(BlockFor(m, next, d.index), d);
            GoodBody(after) && TextOut(after) == TextOut(body)
            && Opened(after) == (if d.index in m then next else next + 1)
            && ToolStarts(after)
               == ToolStarts(body) + (if d.index in m then [] else [ToolKind(OrEmpty(d.id), NameOf(d))])
            && forall b :: ArgsOut(after, b)
                 == ArgsOut(body, b) + if b == BlockFor(m, next, d.index) then ArgumentsOf(d) else ""
  {
    hide OrEmpty, NameOf, ArgumentsOf, GoodBody, Opened, ToolStarts, ArgsOut, TextOut;
    var begun := body + Opening(m, next, d);
    if d.index in m {
      assert begun == body;
    } else {
      OneFrame(body, BlockStart(next, ToolKind(OrEmpty(d.id), NameOf(d))));
      assert MayFollow(body, BlockStart(next, ToolKind(OrEmpty(d.id), NameOf(d)))) by {
        EmptyOpensNothing(body);
      }
    }
    if ArgumentsOf(d) == "" {
      assert begun + [] == begun;
    } else {
      OneFrame(begun, ArgsDelta(BlockFor(m, next, d.index), ArgumentsOf(d)));
    }
  }

  lemma EmptyOpensNothing(body: seq<Frame>)
    ensures Opened(body) > 0 ==> body != []
  {
  }

  lemma ToolStep(body: seq<Frame>, text: string, ds: seq<ToolCallDelta>, m: map<nat, nat>, next: nat, d: ToolCallDelta)
    requires Synced(body, text, ds, m, next)
    ensures var b := BlockFor(m, next, d.index);
            Synced(body + Opening(m, next, d) + Arguing(b, d), text, ds + [d], m[d.index := b],
                   if d.index in m then next else next + 1)
  {
    hide FirstSeen, ToolHeads, Fragments, GoodBody, Opened, ToolStarts, ArgsOut, TextOut, Opening;
    hide Arguing, ArgumentsOf, NameOf, OrEmpty;
    var order, k := FirstSeen(ds), d.index;
    var b := BlockFor(m, next, k);
    ToolFrames(body, m, next, d);
    OneDelta(ds, d);
    var after, more := body + Opening(m, next, d) + Arguing(b, d), FirstSeen(ds + [d]);
    if k !in m {
      UnseenHasNoFragments(ds, k);
      UnopenedHasNoArgs(body, next);
    }
    forall p {:trigger more[p]} | 0 <= p < |more|
      ensures ArgsOut(after, p + 1) == Fragments(ds + [d], more[p])
    {
      if p < |order| {
        assert more[p] == order[p];
        assert ArgsOut(body, p + 1) == Fragments(ds, order[p]);
        assert p + 1 == b <==> order[p] == k;
      }
    }
  }

  // ---------------------------------------------------------------- the translator

  lemma {:induction false} NextEvent(events: seq<ChatEvent>, i: nat)
    requires i < |events| && Take(events[..i]).problem.None?
    ensures Take(events[..i + 1]) == TakeOne(Take(events[..i]), events[i])
    ensures Tokens(events[..i + 1])
         == if events[i].Data? && events[i].chunk.usage.Some? then events[i].chunk.usage.value.completionTokens
            else Tokens(events[..i])
    ensures Take(events[..i + 1]).problem.Some? ==> Take(events) == Take(events[..i + 1])
  {
    hide TakeOne;
    assert events[..i + 1][..i] == events[..i];
    if Take(events[..i + 1]).problem.Some? {
      ProblemIsFinal(events, i + 1);
    }
  }

  lemma {:induction false} ProblemIsFinal(events: seq<ChatEvent>, i: nat)
    requires i <= |events| && Take(events[..i]).problem.Some?
    ensures Take(events) == Take(events[..i])
    decreases |events| - i
  {
    hide TakeOne;
    if i < |events| {
      assert events[..i + 1][..i] == events[..i];
      ProblemIsFinal(events, i + 1);
    } else {
      assert events[..i] == events;
    }
  }

  /** The frames that end a run: stop every block and the message, or one error. */
  function Ending(events: seq<ChatEvent>, count: nat): seq<Frame> {
    var t := Take(events);
    if t.problem.Some? then [t.problem.value]
    else if t.finish.None? then [INCOMPLETE]
    else Stops(count) + [MessageDelta(StopReason(t.finish.value), Tokens(events)), MessageStop]
  }

  function Indices(n: nat): (r: seq<nat>)
    ensures |r| == n && forall i :: 0 <= i < n ==> r[i] == i
  {
    seq(n, i => i)
  }

  lemma AcceptStep(before: seq<ToolCallDelta>, calls: seq<ToolCallDelta>, j: nat, n: nat)
    requires j <= |calls| && n == j + Acceptable(before + calls[..j], calls[j..])
    ensures j == |calls| ==> n == |calls| && calls[..n] == calls
    ensures j < |calls| && (calls[j].index in FirstSeen(before + calls[..j]) || Named(calls[j])) ==>
              n == j + 1 + Acceptable(before + calls[..j + 1], calls[j + 1..])
    ensures j < |calls| && calls[j].index !in FirstSeen(before + calls[..j]) && !Named(calls[j]) ==> n == j
    ensures j < |calls| ==> before + calls[..j + 1] == before + calls[..j] + [calls[j]]
  {
    hide Named, FirstSeen;
    if j < |calls| {
      assert calls[j..][0] == calls[j] && calls[j..][1..] == calls[j + 1..];
      assert before + calls[..j + 1] == before + calls[..j] + [calls[j]];
    }
  }

  lemma Started(id: string, model: string)
    ensures Synced([MessageStart(id, model), BlockStart(0, TextKind)], "", [], map[], 1)
  {
    OneFrame([], MessageStart(id, model));
    OneFrame([MessageStart(id, model)], BlockStart(0, TextKind));
    assert [] + [MessageStart(id, model)] == [MessageStart(id, model)];
    assert [MessageStart(id, model)] + [BlockStart(0, TextKind)] == [MessageStart(id, model), BlockStart(0, TextKind)];
  }

  lemma NothingSent()
    ensures GoodBody([]) && Carries([], "", []) && Opened([]) == 0
  {
  }

  /** What has been sent when the first problem, or the end, is met. */
  ghost predicate Sent(body: seq<Frame>, events: seq<ChatEvent>, model: string) {
    GoodBody(body)
    && Carries(body, Take(events).text, Take(events).tools)
    && (body != [] <==> events != [] && events[0].Data?)
    && (body != [] ==> body[0] == MessageStart(events[0].chunk.id, model) && Opened(body) > 0)
  }

  /** The open blocks, their map and the counter: what the translator remembers. */
  datatype Blocks = Blocks(open: seq<nat>, of: map<nat, nat>, next: nat)

  /** The inner loop: the tool-call deltas of one chunk, up to the first that cannot open its call. */
  method SendToolCalls(calls: seq<ToolCallDelta>, sent: seq<Frame>, before: Blocks, ghost text: string,
                       ghost ds: seq<ToolCallDelta>)
    returns (frames: seq<Frame>, blocks: Blocks, ok: bool)
    requires Synced(sent, text, ds, before.of, before.next) && before.open == Indices(before.next)
    ensures var n := Acceptable(ds, calls);
            Synced(frames, text, ds + calls[..n], blocks.of, blocks.next) && (ok <==> n == |calls|)
    ensures blocks.open == Indices(blocks.next)
    ensures sent <= frames
  {
    hide FirstSeen, ToolHeads, Fragments, GoodBody, Opened, ToolStarts, ArgsOut, TextOut, Carries, Acceptable;
    hide Named, ArgumentsOf, NameOf, OrEmpty;
    frames, blocks := sent, before;
    ghost var n := Acceptable(ds, calls);
    assert ds + calls[..0] == ds && calls[0..] == calls;
    var j := 0;
    while j < |calls|
      invariant 0 <= j <= |calls|
      invariant n == j + Acceptable(ds + calls[..j], calls[j..])
      invariant Synced(frames, text, ds + calls[..j], blocks.of, blocks.next)
      invariant blocks.open == Indices(blocks.next)
      invariant sent <= frames
    {
      var d := calls[j];
      AcceptStep(ds, calls, j, n);
      ToolStep(frames, text, ds + calls[..j], blocks.of, blocks.next, d);
      var b := blocks.next;
      if d.index !in blocks.of {
        if !Named(d) {
          return frames, blocks, false;
        }
        frames := frames + [BlockStart(b, ToolKind(OrEmpty(d.id), NameOf(d)))];
        blocks := Blocks(blocks.open + [b], blocks.of[d.index := b], b + 1);
      } else {
        b := blocks.of[d.index];
        assert frames + [] == frames && blocks.of[d.index := b] == blocks.of;
      }
      if ArgumentsOf(d) != "" {
        frames := frames + [ArgsDelta(b, ArgumentsOf(d))];
      } else {
        assert frames + [] == frames;
      }
      j := j + 1;
    }
    AcceptStep(ds, calls, j, n);
    ok := true;
  }

  lemma ContentSent(body: seq<Frame>, text: string, ds: seq<ToolCallDelta>, m: map<nat, nat>, next: nat, more: string)
    requires Synced(body, text, ds, m, next)
    ensures Synced(body + (if more == "" then [] else [TextDelta(0, more)]), text + more, ds, m, next)
  {
    hide Synced;
    if more == "" {
      assert body + [] == body && text + more == text;
    } else {
      SendText(body, text, ds, m, next, more);
    }
  }

  /** The translator's variables after some events without a problem. */
  ghost predicate Following(done: seq<ChatEvent>, started: bool, finish: Option<FinishReason>, frames: seq<Frame>,
                            blocks: Blocks)
  {
    var t := Take(done);
    t.problem.None? && t.finish == finish
    && if started then Synced(frames, t.text, t.tools, blocks.of, blocks.next) && blocks.open == Indices(blocks.next)
       else done == [] && frames == [] && blocks == Blocks([], map[], 1)
  }

  /** The frames of a run: what was sent, and then its ending. */
  ghost predicate IsRun(frames: seq<Frame>, body: seq<Frame>, events: seq<ChatEvent>, model: string) {
    Sent(body, events, model) && frames == body + Ending(events, Opened(body))
  }

  ghost predicate Translates(frames: seq<Frame>, events: seq<ChatEvent>, model: string) {
    exists body :: IsRun(frames, body, events, model)
  }

  method OpenAiSseToAnthropicSse(events: seq<ChatEvent>, model: string) returns (frames: seq<Frame>)
    ensures Translates(frames, events, model)
  {
    hide FirstSeen, ToolHeads, Fragments, GoodBody, Opened, ToolStarts, ArgsOut, TextOut, Carries, Acceptable, Take;
    hide Named, ArgumentsOf, NameOf, OrEmpty, Tokens, FrameOf, StopReason;
    frames := [];
    var started := false;
    var blocks := Blocks([], map[], 1);
    var outputTokens := 0;
    var finish: Option<FinishReason> := None;
    var i := 0;
    NothingTaken(events);
    while i < |events|
      invariant 0 <= i <= |events|
      invariant Following(events[..i], started, finish, frames, blocks)
      invariant outputTokens == Tokens(events[..i])
      invariant started ==>
                  i > 0 && frames != [] && events[0].Data?
                  && frames[0] == MessageStart(events[0].chunk.id, model)
    {
      ghost var t := Take(events[..i]);
      NextEvent(events, i);
      if events[i].Failure? {
        NothingSent();
        assert IsRun(frames + [FrameOf(events[i].error)], frames, events, model);
        return frames + [FrameOf(events[i].error)];
      }
      var chunk := events[i].chunk;
      if !started {
        frames := [MessageStart(chunk.id, model), BlockStart(0, TextKind)];
        blocks := Blocks([0], map[], 1);
        started := true;
        Started(chunk.id, model);
      }
      if chunk.usage.Some? {
        outputTokens := chunk.usage.value.completionTokens;
      }
      i := i + 1;
      if chunk.choices == [] {
        continue;
      }
      if finish.Some? {
        assert IsRun(frames + [AFTER_FINISH], frames, events, model);
        return frames + [AFTER_FINISH];
      }
      var choice := chunk.choices[0];
      if choice.finish.Some? {
        finish := choice.finish;
      }
      ContentSent(frames, t.text, t.tools, blocks.of, blocks.next, OrEmpty(choice.content));
      if OrEmpty(choice.content) != "" {
        frames := frames + [TextDelta(0, OrEmpty(choice.content))];
      } else {
        assert frames + [] == frames;
      }
      var ok;
      frames, blocks, ok := SendToolCalls(choice.toolCalls, frames, blocks, t.text + OrEmpty(choice.content), t.tools);
      if !ok {
        assert IsRun(frames + [MISSING_ID_OR_NAME], frames, events, model);
        return frames + [MISSING_ID_OR_NAME];
      }
    }
    assert events[..i] == events;
    NothingSent();
    ghost var body := frames;
    assert Sent(body, events, model);
    if finish.Some? {
      var j := 0;
      while j < |blocks.open|
        invariant 0 <= j <= |blocks.open|
        invariant frames == body + Stops(j)
      {
        frames := frames + [BlockStop(blocks.open[j])];
        j := j + 1;
      }
      frames := frames + [MessageDelta(StopReason(finish.value), outputTokens), MessageStop];
    } else {
      frames := frames + [INCOMPLETE];
    }
    assert IsRun(frames, body, events, model);
  }

  lemma NothingTaken(events: seq<ChatEvent>)
    ensures Take(events[..0]) == Taken("", [], None, None) && Tokens(events[..0]) == 0
  {
  }

  // ---------------------------------------------------------------- what a client may rely on

  predicate Terminal(f: Frame) {
    f.MessageStop? || f.ErrorFrame?
  }

  lemma {:induction false} BodyFrames(body: seq<Frame>, i: nat)
    requires GoodBody(body) && i < |body|
    ensures GoodBody(body[..i]) && MayFollow(body[..i], body[i])
    decreases |body|
  {
    hide MayFollow;
    var n := |body| - 1;
    if i < n {
      BodyFrames(body[..n], i);
      assert body[..n][..i] == body[..i];
    }
  }

  lemma {:induction false} StopsAt(n: nat)
    ensures |Stops(n)| == n && forall i :: 0 <= i < n ==> Stops(n)[i] == BlockStop(i)
  {
    if n > 0 {
      StopsAt(n - 1);
    }
  }

  /** A frame of an ending: it opens nothing and sends no content. */
  predicate Closing(f: Frame) {
    !f.BlockStart? && !f.TextDelta? && !f.ArgsDelta?
  }

  lemma EndingFrames(events: seq<ChatEvent>, n: nat)
    ensures var e := Ending(events, n);
            if Completes(events) then
              |e| == n + 2 && (forall i :: 0 <= i < n ==> e[i] == BlockStop(i)) && e[n].MessageDelta?
              && e[n + 1] == MessageStop
            else |e| == 1 && e[0].ErrorFrame?
    ensures var e := Ending(events, n);
            forall i :: 0 <= i < |e| ==> Closing(e[i]) && (Terminal(e[i]) <==> i == |e| - 1)
  {
    StopsAt(n);
    ProblemIsError(events);
  }

  lemma {:induction false} ProblemIsError(events: seq<ChatEvent>)
    ensures Take(events).problem.Some? ==> Take(events).problem.value.ErrorFrame?
  {
    hide Acceptable;
    if events != [] {
      ProblemIsError(events[..|events| - 1]);
    }
  }

  /** What was sent before the ending. */
  lemma BodyOf(events: seq<ChatEvent>, model: string, frames: seq<Frame>) returns (body: seq<Frame>)
    requires Translates(frames, events, model)
    ensures Sent(body, events, model) && GoodBody(body) && frames == body + Ending(events, Opened(body))
    ensures forall i :: 0 <= i < |body| ==>
            frames[i] == body[i] && !Terminal(frames[i]) && !frames[i].BlockStop? && !frames[i].MessageDelta?
    ensures forall i :: |body| <= i < |frames| ==> Closing(frames[i]) && (Terminal(frames[i]) <==> i == |frames| - 1)
  {
    hide Carries, GoodBody, Opened, Ending, MayFollow, Take, Terminal, Closing;
    body :| IsRun(frames, body, events, model);
    EndingFrames(events, Opened(body));
    forall i | 0 <= i < |body|
      ensures frames[i] == body[i] && !Terminal(frames[i]) && !frames[i].BlockStop? && !frames[i].MessageDelta?
    {
      BodyFrames(body, i);
      NotTerminal(body[..i], body[i]);
    }
    forall i | |body| <= i < |frames|
      ensures Closing(frames[i]) && (Terminal(frames[i]) <==> i == |frames| - 1)
    {
      assert frames[i] == Ending(events, Opened(body))[i - |body|];
    }
  }

  /** Every run ends in exactly one `error` or `message_stop`: `message_stop` just when the input completes. */
  lemma OneTerminalLast(events: seq<ChatEvent>, model: string, frames: seq<Frame>)
    requires Translates(frames, events, model)
    ensures forall i :: 0 <= i < |frames| ==> (Terminal(frames[i]) <==> i == |frames| - 1)
    ensures frames != [] && (frames[|frames| - 1] == MessageStop <==> Completes(events))
  {
    hide Translates, Sent, GoodBody, Opened, Ending, Completes, Terminal;
    var body := BodyOf(events, model, frames);
    EndingFrames(events, Opened(body));
  }

  lemma NotTerminal(before: seq<Frame>, f: Frame)
    requires MayFollow(before, f)
    ensures !Terminal(f) && !f.BlockStop? && !f.MessageDelta?
  {
  }

  /** Block `b` was opened, once, at the place where `b` blocks had been opened before. */
  lemma {:induction false} StartOf(body: seq<Frame>, b: nat) returns (i: nat)
    requires GoodBody(body) && b < Opened(body)
    ensures i < |body| && body[i].BlockStart? && body[i].index == b == Opened(body[..i])
    ensures forall j :: 0 <= j < |body| && body[j].BlockStart? && body[j].index == b ==> j == i
  {
    hide Opened;
    var n := |body| - 1;
    OpenedStep(body);
    if b < Opened(body[..n]) {
      i := StartOf(body[..n], b);
      assert body[..n][..i] == body[..i];
      assert forall j :: 0 <= j < n ==> body[..n][j] == body[j];
    } else {
      i := n;
      forall j | 0 <= j < n && body[j].BlockStart?
        ensures body[j].index != b
      {
        BodyFrames(body, j);
        OpenedGrows(body, j, n);
      }
    }
  }

  lemma OpenedStep(body: seq<Frame>)
    requires GoodBody(body)
    ensures body != [] ==> Opened(body) == Opened(body[..|body| - 1]) + if body[|body| - 1].BlockStart? then 1 else 0
    ensures body == [] ==> Opened(body) == 0
  {
  }

  /** Between two places more blocks have been opened, if one opens at the first. */
  lemma {:induction false} OpenedGrows(body: seq<Frame>, i: nat, j: nat)
    requires i < j <= |body|
    ensures Opened(body[..i]) <= Opened(body[..j])
    ensures body[i].BlockStart? ==> Opened(body[..i]) < Opened(body[..j])
    decreases j
  {
    assert body[..j][..j - 1] == body[..j - 1];
    if i < j - 1 {
      OpenedGrows(body, i, j - 1);
    }
  }

  /** Blocks are opened with the indices 0, 1, 2, ... in that order. */
  lemma BlocksOpenInOrder(events: seq<ChatEvent>, model: string, frames: seq<Frame>, i: nat, j: nat)
    requires Translates(frames, events, model) && i < j < |frames| && frames[i].BlockStart? && frames[j].BlockStart?
    ensures frames[i].index < frames[j].index
    ensures (forall k :: i < k < j ==> !frames[k].BlockStart?) ==> frames[j].index == frames[i].index + 1
    ensures (forall k :: 0 <= k < i ==> !frames[k].BlockStart?) ==> frames[i].index == 0
  {
    hide Translates, Sent, GoodBody, Opened, Ending, Completes;
    var body := BodyOf(events, model, frames);
    BodyFrames(body, i);
    BodyFrames(body, j);
    OpenedGrows(body, i, j);
    if forall k :: i < k < j ==> !frames[k].BlockStart? {
      OneMore(body, i, j);
    }
    if forall k :: 0 <= k < i ==> !frames[k].BlockStart? {
      NoneOpened(body[..i]);
    }
  }

  lemma {:induction false} NoneOpened(body: seq<Frame>)
    requires forall k :: 0 <= k < |body| ==> !body[k].BlockStart?
    ensures Opened(body) == 0
  {
    if body != [] {
      NoneOpened(body[..|body| - 1]);
    }
  }

  lemma {:induction false} OneMore(body: seq<Frame>, i: nat, j: nat)
    requires i < j <= |body| && body[i].BlockStart? && forall k :: i < k < j ==> !body[k].BlockStart?
    ensures Opened(body[..j]) == Opened(body[..i]) + 1
    decreases j
  {
    assert body[..j][..j - 1] == body[..j - 1];
    if i < j - 1 {
      OneMore(body, i, j - 1);
    }
  }

  /** Every delta names a block opened before it and not yet stopped, of the right kind. */
  lemma DeltaNamesOpenBlock(events: seq<ChatEvent>, model: string, frames: seq<Frame>, i: nat) returns (start: nat)
    requires Translates(frames, events, model)
    requires i < |frames| && (frames[i].TextDelta? || frames[i].ArgsDelta?)
    ensures start < i && frames[start].BlockStart? && frames[start].index == frames[i].index
    ensures frames[start].block.TextKind? <==> frames[i].TextDelta?
    ensures forall k :: 0 <= k < i ==> !frames[k].BlockStop?
  {
    hide Translates, Sent, GoodBody, Opened, Ending, Completes, MayFollow;
    var body := BodyOf(events, model, frames);
    BodyFrames(body, i);
    DeltaIndex(body[..i], body[i]);
    start := StartOf(body[..i], body[i].index);
    BodyFrames(body, start);
    DeltaIndex(body[..start], body[start]);
  }

  lemma DeltaIndex(before: seq<Frame>, f: Frame)
    requires MayFollow(before, f)
    ensures f.TextDelta? ==> f.index == 0 < Opened(before)
    ensures f.ArgsDelta? ==> 0 < f.index < Opened(before)
    ensures f.BlockStart? ==> (f.block.TextKind? <==> f.index == 0)
  {
    hide Opened;
  }

  /**
   In a completed run every opened block is stopped exactly once, after everything sent and before `message_delta`.
   */
  lemma {:induction false} EachBlockStoppedOnce(events: seq<ChatEvent>, model: string, frames: seq<Frame>, i: nat)
    returns (d: nat)
    requires Translates(frames, events, model) && Completes(events) && i < |frames| && frames[i].BlockStart?
    ensures i < d < |frames| - 2 && frames[d] == BlockStop(frames[i].index)
    ensures forall j :: 0 <= j < |frames| && frames[j] == frames[d] ==> j == d
    ensures forall j :: d <= j < |frames| ==> Closing(frames[j])
    ensures frames[|frames| - 2] == MessageDelta(StopReason(Take(events).finish.value), Tokens(events))
  {
    hide Translates, Sent, GoodBody, Opened, Ending, Completes, StopReason, Tokens, Take;
    var body := BodyOf(events, model, frames);
    BodyFrames(body, i);
    OpenedGrows(body, i, |body|);
    assert body[..|body|] == body;
    var ending := Ending(events, Opened(body));
    EndingFrames(events, Opened(body));
    d := |body| + body[i].index;
    assert frames[d] == ending[body[i].index];
    forall j | |body| <= j < |frames| && frames[j] == frames[d]
      ensures j == d
    {
      assert frames[j] == ending[j - |body|];
    }
    MessageDeltaOf(events, Opened(body));
  }

  lemma MessageDeltaOf(events: seq<ChatEvent>, n: nat)
    requires Completes(events)
    ensures var e := Ending(events, n);
            |e| >= 2 && e[|e| - 2] == MessageDelta(StopReason(Take(events).finish.value), Tokens(events))
  {
    hide StopReason, Tokens, Take;
  }

  /** Frames without content add none. */
  lemma {:induction false} NoContent(body: seq<Frame>, more: seq<Frame>)
    requires forall i :: 0 <= i < |more| ==> Closing(more[i])
    ensures TextOut(body + more) == TextOut(body) && ToolStarts(body + more) == ToolStarts(body)
    ensures forall b :: ArgsOut(body + more, b) == ArgsOut(body, b)
    decreases |more|
  {
    if more == [] {
      assert body + more == body;
    } else {
      hide TextOut, ToolStarts, ArgsOut;
      var n := |more| - 1;
      NoContent(body, more[..n]);
      OneFrame(body + more[..n], more[n]);
      assert body + more[..n] + [more[n]] == body + more;
    }
  }

  /** In a completed run the frames hold all the text of the input, and each tool call with all its arguments. */
  lemma AllContentArrives(events: seq<ChatEvent>, model: string, frames: seq<Frame>)
    requires Translates(frames, events, model) && Completes(events)
    ensures Carries(frames, AllText(events), AllToolCalls(events))
  {
    hide Translates, Opened, Completes, Take, AllText, AllToolCalls, TextOut, ToolStarts, ArgsOut;
    hide GoodBody, FirstSeen, ToolHeads, Fragments;
    var body := BodyOf(events, model, frames);
    var more := frames[|body|..];
    assert frames == body + more;
    assert forall i :: 0 <= i < |more| ==> more[i] == frames[|body| + i] && Closing(more[i]);
    NoContent(body, more);
    CompletesIff(events);
  }

  // ---------------------------------------------------------------- which inputs complete, and what they carry

  predicate Quiet(e: ChatEvent) {
    e.Data? && e.chunk.choices == []
  }

  predicate Finishes(e: ChatEvent) {
    e.Data? && e.chunk.choices != [] && e.chunk.choices[0].finish.Some?
  }

  /**
   No failure, nothing but chunks without choices after a finish reason, and every tool call opened with id and name.
   */
  ghost predicate NoProblem(events: seq<ChatEvent>) {
    (forall i :: 0 <= i < |events| ==> events[i].Data?)
    && (forall i, j :: 0 <= i < j < |events| && Finishes(events[i]) ==> Quiet(events[j]))
    && AllOpenNamed(AllToolCalls(events))
  }

  ghost predicate AllOpenNamed(ds: seq<ToolCallDelta>) {
    forall p {:trigger ds[p]} :: 0 <= p < |ds| ==> ds[p].index in FirstSeen(ds[..p]) || Named(ds[p])
  }

  /**
   A stream completes exactly when nothing is wrong with it and it has a finish reason; then nothing of it is lost.
   */
  lemma CompletesIff(events: seq<ChatEvent>)
    ensures Completes(events) <==> NoProblem(events) && HasFinish(events)
    ensures Completes(events) ==> Take(events).text == AllText(events) && Take(events).tools == AllToolCalls(events)
  {
    hide AllText, AllToolCalls, Take;
    TakesAll(events);
  }

  lemma {:induction false} AcceptableIff(ds: seq<ToolCallDelta>, cs: seq<ToolCallDelta>)
    requires AllOpenNamed(ds)
    ensures Acceptable(ds, cs) == |cs| <==> AllOpenNamed(ds + cs)
    decreases |cs|
  {
    hide Named, FirstSeen;
    if cs == [] {
      assert ds + cs == ds;
    } else {
      var c, all := cs[0], ds + cs;
      assert all == ds + [c] + cs[1..] && all[..|ds|] == ds && all[|ds|] == c;
      if c.index in FirstSeen(ds) || Named(c) {
        OneMoreNamed(ds, c);
        AcceptableIff(ds + [c], cs[1..]);
      } else {
        assert !(all[|ds|].index in FirstSeen(all[..|ds|]) || Named(all[|ds|]));
      }
    }
  }

  lemma {:induction false} OneMoreNamed(ds: seq<ToolCallDelta>, c: ToolCallDelta)
    requires AllOpenNamed(ds) && (c.index in FirstSeen(ds) || Named(c))
    ensures AllOpenNamed(ds + [c])
  {
    hide Named, FirstSeen;
    var all := ds + [c];
    forall p {:trigger all[p]} | 0 <= p < |all|
      ensures all[p].index in FirstSeen(all[..p]) || Named(all[p])
    {
      assert all[..p] == ds[..p];
      assert p < |ds| ==> all[p] == ds[p];
    }
  }

  lemma NamedPrefix(ds: seq<ToolCallDelta>, cs: seq<ToolCallDelta>)
    requires AllOpenNamed(ds + cs)
    ensures AllOpenNamed(ds)
  {
    hide Named, FirstSeen;
    var all := ds + cs;
    forall p {:trigger ds[p]} | 0 <= p < |ds|
      ensures ds[p].index in FirstSeen(ds[..p]) || Named(ds[p])
    {
      assert all[..p] == ds[..p] && all[p] == ds[p];
    }
  }

  ghost predicate HasFinish(events: seq<ChatEvent>) {
    exists i :: 0 <= i < |events| && Finishes(events[i])
  }

  lemma NoProblemStep(before: seq<ChatEvent>, e: ChatEvent)
    ensures HasFinish(before + [e]) <==> HasFinish(before) || Finishes(e)
    ensures NoProblem(before + [e])
       <==> NoProblem(before) && e.Data? && (HasFinish(before) ==> Quiet(e)) && AllOpenNamed(AllToolCalls(before + [e]))
  {
    hide Finishes, Quiet, AllOpenNamed;
    var all := before + [e];
    assert forall i :: 0 <= i < |before| ==> all[i] == before[i];
    assert all[|before|] == e && all[..|before|] == before;
    assert AllOpenNamed(AllToolCalls(all)) ==> AllOpenNamed(AllToolCalls(before)) by {
      if AllOpenNamed(AllToolCalls(all)) {
        NamedPrefix(AllToolCalls(before), AllToolCalls(all)[|AllToolCalls(before)|..]);
        assert AllToolCalls(all) == AllToolCalls(before) + AllToolCalls(all)[|AllToolCalls(before)|..];
      }
    }
  }

  lemma {:induction false} TakesAll(events: seq<ChatEvent>)
    ensures Take(events).problem.None? <==> NoProblem(events)
    ensures var t := Take(events);
            t.problem.None? ==> t.text == AllText(events) && t.tools == AllToolCalls(events)
                                && (t.finish.Some? <==> HasFinish(events))
  {
    hide NoProblem, Acceptable, AllOpenNamed, OrEmpty, HasFinish;
    if events == [] {
      NoEvents();
    } else {
      var before, e := events[..|events| - 1], events[|events| - 1];
      assert events == before + [e];
      TakesAll(before);
      NoProblemStep(before, e);
      if NoProblem(before) {
        var t := Take(before);
        ToolCallsNamed(before);
        if e.Data? && e.chunk.choices != [] {
          var calls := e.chunk.choices[0].toolCalls;
          AcceptableIff(t.tools, calls);
          assert Acceptable(t.tools, calls) == |calls| ==> calls[..|calls|] == calls;
        } else {
          assert AllToolCalls(before) + [] == AllToolCalls(before) && AllText(before) + "" == AllText(before);
        }
      }
    }
  }

  lemma ToolCallsNamed(events: seq<ChatEvent>)
    requires NoProblem(events)
    ensures AllOpenNamed(AllToolCalls(events))
  {
  }

  lemma NoEvents()
    ensures NoProblem([]) && !HasFinish([])
  {
  }
}
