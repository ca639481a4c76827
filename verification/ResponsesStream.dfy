/** Translating canonical events to a Responses stream (`openai_sse_to_responses_sse`). */
module ResponsesStream {
  import opened Wrappers
  import opened ChatEvents
  import opened CanonicalEvents
  import opened WriteBack
  import CanonicalToChat

  datatype Status = InProgress | Whole | Cut

  datatype Item =
    | MessageItem(id: nat, status: Status, text: string)
    | CallItem(id: nat, status: Status, callId: string, name: string, arguments: string)

  datatype Error = Error(kind: string, message: string)

  datatype Frame =
    | Created(model: string)
    | ItemAdded(index: nat, item: Item)
    | PartAdded(itemId: nat, index: nat)
    | TextPiece(itemId: nat, index: nat, delta: string)
    | ArgsPiece(itemId: nat, index: nat, delta: string)
    | TextDone(itemId: nat, index: nat, text: string)
    | PartDone(itemId: nat, index: nat, text: string)
    | ArgsDone(itemId: nat, index: nat, arguments: string)
    | ItemDone(index: nat, item: Item)
    | ResponseCompleted(model: string, status: Status, output: seq<Item>, text: string, usage: Usage)
    | ResponseFailed(model: string, output: seq<Item>, text: string, usage: Usage, error: Error)

  /** Fresh identifiers are a counter; the message item has the first. */
  const MESSAGE_ID: nat := 0

  // ---------------------------------------------------------------- what the input has said

  datatype Key = TextKey | CallKey(index: nat)

  /** The key of the item an event is about. */
  function KeyOf(e: Canonical): Option<Key> {
    match e
    case TextDelta(_) => Some(TextKey)
    case ToolStarted(k, _, _) => Some(CallKey(k))
    case _ => None
  }

  /** The items in order of first appearance. */
  function Added(events: seq<Canonical>): seq<Key> {
    if events == [] then []
    else
      var before, key := Added(events[..|events| - 1]), KeyOf(events[|events| - 1]);
      if key.Some? && key.value !in before then before + [key.value] else before
  }

  predicate Starts(e: Canonical, k: nat) {
    e.ToolStarted? && e.index == k
  }

  /** The call id and the name a call first appeared with. */
  function FirstStart(events: seq<Canonical>, k: nat): Option<Canonical> {
    if events == [] then None
    else
      var first, e := FirstStart(events[..|events| - 1], k), events[|events| - 1];
      if first.None? && Starts(e, k) then Some(e) else first
  }

  function CallIdOf(events: seq<Canonical>, k: nat): string {
    match FirstStart(events, k)
    case Some(ToolStarted(_, callId, _)) => callId
    case _ => ""
  }

  function FirstName(events: seq<Canonical>, k: nat): string {
    match FirstStart(events, k)
    case Some(ToolStarted(_, _, name)) => name
    case _ => ""
  }

  /** A name may come in fragments. */
  function FullName(events: seq<Canonical>, k: nat): string {
    if events == [] then ""
    else
      var e := events[|events| - 1];
      FullName(events[..|events| - 1], k) + if Starts(e, k) then e.name else ""
  }

  function LatestModel(events: seq<Canonical>, model: string): string {
    if events == [] then model
    else
      var e := events[|events| - 1];
      if e.Started? && e.model.Some? then e.model.value else LatestModel(events[..|events| - 1], model)
  }

  function OrZero(n: Option<nat>): nat {
    if n.Some? then n.value else 0
  }

  function LatestUsage(events: seq<Canonical>): Usage {
    if events == [] then Usage(0, 0, 0)
    else
      var e := events[|events| - 1];
      if e.UsageUpdated? then Usage(OrZero(e.input), OrZero(e.output), OrZero(e.total))
      else LatestUsage(events[..|events| - 1])
  }

  function LatestReason(events: seq<Canonical>): Option<Reason> {
    if events == [] then None
    else
      var e := events[|events| - 1];
      if e.Completed? then Some(e.reason) else LatestReason(events[..|events| - 1])
  }

  const MISSING_ID := Error("invalid_upstream_stream", "Initial tool-call chunk is missing call id")
  const MISSING_NAME := Error("invalid_upstream_stream", "Initial tool-call chunk is missing function name")
  const ID_CHANGED := Error("invalid_upstream_stream", "Tool-call identity changed during streaming")
  const UNFINISHED := Error("incomplete_upstream_stream", "Provider stream ended without a terminal finish reason")

  /** What is wrong with an event, after the ones before it. */
  function ProblemOf(before: seq<Canonical>, e: Canonical): Option<Error> {
    match e
    case Failed(kind, message) => Some(Error(kind, message))
    case ToolStarted(k, callId, name) =>
      if CallKey(k) !in Added(before) then
        if callId == "" then Some(MISSING_ID) else if name == "" then Some(MISSING_NAME) else None
      else if callId != "" && callId != CallIdOf(before, k) then Some(ID_CHANGED)
      else None
    case ToolArgs(k, _) => if CallKey(k) !in Added(before) then Some(MISSING_ID) else None
    case _ => None
  }

  ghost predicate Sound(events: seq<Canonical>) {
    events == []
    || (Sound(events[..|events| - 1]) && ProblemOf(events[..|events| - 1], events[|events| - 1]).None?)
  }

  // ---------------------------------------------------------------- what the output says

  function Items(body: seq<Frame>): seq<Item> {
    if body == [] then []
    else
      var f := body[|body| - 1];
      Items(body[..|body| - 1]) + if f.ItemAdded? then [f.item] else []
  }

  function TextOut(body: seq<Frame>): string {
    if body == [] then ""
    else
      var f := body[|body| - 1];
      TextOut(body[..|body| - 1]) + if f.TextPiece? then f.delta else ""
  }

  function ArgsOut(body: seq<Frame>, p: nat): string {
    if body == [] then ""
    else
      var f := body[|body| - 1];
      ArgsOut(body[..|body| - 1], p) + if f.ArgsPiece? && f.index == p then f.delta else ""
  }

  /** A new item: nothing in it yet, and an identifier of its own. */
  predicate FreshItem(items: seq<Item>, item: Item) {
    item.status == InProgress
    && (if item.MessageItem? then item.text == "" else item.arguments == "")
    && forall i :: 0 <= i < |items| ==> items[i].id != item.id
  }

  /** `created` comes first; items are numbered as they are added; deltas name an added item by index and id. */
  predicate MayFollow(before: seq<Frame>, f: Frame) {
    var items := Items(before);
    match f
    case Created(_) => before == []
    case ItemAdded(p, item) => before != [] && p == |items| && FreshItem(items, item)
    case PartAdded(id, p) =>
      before != [] && before[|before| - 1].ItemAdded?
      && p == |items| - 1 && items[p].MessageItem? && items[p].id == id
    case TextPiece(id, p, _) =>
      p < |items| && items[p].MessageItem? && items[p].id == id && PartAdded(id, p) in before
    case ArgsPiece(id, p, _) => p < |items| && items[p].CallItem? && items[p].id == id
    case _ => false
  }

  predicate GoodBody(body: seq<Frame>) {
    body == [] || (GoodBody(body[..|body| - 1]) && MayFollow(body[..|body| - 1], body[|body| - 1]))
  }

  lemma OneFrame(body: seq<Frame>, f: Frame)
    ensures GoodBody(body + [f]) <==> GoodBody(body) && MayFollow(body, f)
    ensures Items(body + [f]) == Items(body) + if f.ItemAdded? then [f.item] else []
    ensures TextOut(body + [f]) == TextOut(body) + if f.TextPiece? then f.delta else ""
    ensures forall p ::
              ArgsOut(body + [f], p) == ArgsOut(body, p) + if f.ArgsPiece? && f.index == p then f.delta else ""
  {
    hide MayFollow;
    assert (body + [f])[..|body|] == body;
  }

  /** The item as it was added. */
  predicate AddedAs(item: Item, events: seq<Canonical>, key: Key) {
    match key
    case TextKey => item == MessageItem(MESSAGE_ID, InProgress, "")
    case CallKey(k) => item == CallItem(item.id, InProgress, CallIdOf(events, k), FirstName(events, k), "")
  }

  /** The frames hold the items in order of first appearance, and all their text and arguments. */
  ghost predicate Carries(body: seq<Frame>, events: seq<Canonical>) {
    |Items(body)| == |Added(events)|
    && TextOut(body) == TextOf(events)
    && forall p {:trigger Added(events)[p]} :: 0 <= p < |Added(events)| ==>
         AddedAs(Items(body)[p], events, Added(events)[p])
         && (Added(events)[p].CallKey? ==> ArgsOut(body, p) == ArgsOf(events, Added(events)[p].index))
  }

  // ---------------------------------------------------------------- the translator's variables

  datatype CallState = CallState(itemId: nat, callId: string, name: string, outputIndex: nat, arguments: string)

  datatype Vars = Vars(textIndex: Option<nat>, calls: map<nat, CallState>, nextIndex: nat, nextId: nat)

  /** The state kept for a call is what has been said of it. */
  ghost predicate TrackedAs(c: CallState, k: nat, body: seq<Frame>, events: seq<Canonical>) {
    c.outputIndex < |Added(events)| && Added(events)[c.outputIndex] == CallKey(k)
    && c.outputIndex < |Items(body)| && Items(body)[c.outputIndex].id == c.itemId
    && c.callId == CallIdOf(events, k) && c.name == FullName(events, k) && c.arguments == ArgsOf(events, k)
    && c.name != ""
  }

  ghost predicate CallsTracked(calls: map<nat, CallState>, body: seq<Frame>, events: seq<Canonical>) {
    (forall k {:trigger k in calls} :: k in calls <==> CallKey(k) in Added(events))
    && forall k {:trigger calls[k]} :: k in calls ==> TrackedAs(calls[k], k, body, events)
  }

  ghost predicate Tracks(v: Vars, body: seq<Frame>, events: seq<Canonical>) {
    v.nextIndex == |Added(events)|
    && (v.textIndex.Some? <==> TextKey in Added(events))
    && (v.textIndex.Some? ==> v.textIndex.value < |Added(events)| && Added(events)[v.textIndex.value] == TextKey)
    && CallsTracked(v.calls, body, events)
    && (forall p {:trigger Items(body)[p]} :: 0 <= p < |Items(body)| ==> Items(body)[p].id < v.nextId)
    && MESSAGE_ID < v.nextId
    && (v.textIndex.None? ==>
          forall p {:trigger Items(body)[p]} :: 0 <= p < |Items(body)| ==> Items(body)[p].id != MESSAGE_ID)
    && (v.textIndex.Some? ==> PartAdded(MESSAGE_ID, v.textIndex.value) in body)
  }

  ghost predicate Synced(v: Vars, body: seq<Frame>, events: seq<Canonical>) {
    body != [] && GoodBody(body) && Carries(body, events) && Tracks(v, body, events)
  }

  lemma {:induction false} AddedDistinct(events: seq<Canonical>)
    ensures forall p, q :: 0 <= p < q < |Added(events)| ==> Added(events)[p] != Added(events)[q]
  {
    hide KeyOf;
    if events != [] {
      AddedDistinct(events[..|events| - 1]);
    }
  }

  lemma {:induction false} StartedIsAdded(events: seq<Canonical>, k: nat)
    ensures FirstStart(events, k).Some? <==> CallKey(k) in Added(events)
    ensures CallKey(k) !in Added(events) ==> FullName(events, k) == ""
  {
    if events != [] {
      StartedIsAdded(events[..|events| - 1], k);
    }
  }

  /** What one more event adds to what has been said. */
  lemma SaidOneMore(events: seq<Canonical>, e: Canonical)
    ensures Added(events + [e])
         == if KeyOf(e).Some? && KeyOf(e).value !in Added(events) then Added(events) + [KeyOf(e).value]
            else Added(events)
    ensures TextOf(events + [e]) == TextOf(events) + if e.TextDelta? then e.text else ""
    ensures forall k {:trigger ArgsOf(events + [e], k)} ::
              ArgsOf(events + [e], k) == ArgsOf(events, k) + if e.ToolArgs? && e.index == k then e.delta else ""
    ensures forall k {:trigger FullName(events + [e], k)} ::
              FullName(events + [e], k) == FullName(events, k) + if Starts(e, k) then e.name else ""
    ensures forall k {:trigger FirstStart(events + [e], k)} ::
              FirstStart(events + [e], k)
              == if FirstStart(events, k).None? && Starts(e, k) then Some(e) else FirstStart(events, k)
  {
    hide KeyOf, Starts;
    assert (events + [e])[..|events|] == events;
  }

  /** An event about no new item leaves the items and their heads as they were. */
  lemma NoNewItem(events: seq<Canonical>, e: Canonical)
    requires KeyOf(e).Some? ==> KeyOf(e).value in Added(events)
    ensures Added(events + [e]) == Added(events)
    ensures forall k {:trigger CallIdOf(events + [e], k)} :: CallIdOf(events + [e], k) == CallIdOf(events, k)
    ensures forall k {:trigger FirstName(events + [e], k)} :: FirstName(events + [e], k) == FirstName(events, k)
  {
    hide Added, FirstStart;
    SaidOneMore(events, e);
    forall k
      ensures FirstStart(events + [e], k) == FirstStart(events, k)
    {
      StartedIsAdded(events, k);
    }
  }

  /** A new item comes last; the heads of the others are as they were. */
  lemma NewItem(events: seq<Canonical>, e: Canonical)
    requires KeyOf(e).Some? && KeyOf(e).value !in Added(events)
    ensures Added(events + [e]) == Added(events) + [KeyOf(e).value]
    ensures forall k {:trigger CallIdOf(events + [e], k)} :: !Starts(e, k) ==>
            CallIdOf(events + [e], k) == CallIdOf(events, k)
    ensures forall k {:trigger FirstName(events + [e], k)} :: !Starts(e, k) ==>
            FirstName(events + [e], k) == FirstName(events, k)
    ensures e.ToolStarted? ==> CallIdOf(events + [e], e.index) == e.callId && FirstName(events + [e], e.index) == e.name
                               && FullName(events + [e], e.index) == e.name
  {
    hide Added, FirstStart, FullName;
    SaidOneMore(events, e);
    if e.ToolStarted? {
      StartedIsAdded(events, e.index);
    }
  }

  lemma {:induction false} UnstartedHasNoArgs(events: seq<Canonical>, k: nat)
    requires Sound(events) && CallKey(k) !in Added(events)
    ensures ArgsOf(events, k) == ""
  {
    hide KeyOf;
    if events != [] {
      var before, e := events[..|events| - 1], events[|events| - 1];
      UnstartedHasNoArgs(before, k);
    }
  }

  lemma {:induction false} UnaddedHasNoArgs(body: seq<Frame>, p: nat)
    requires GoodBody(body) && p >= |Items(body)|
    ensures ArgsOut(body, p) == ""
  {
    if body != [] {
      UnaddedHasNoArgs(body[..|body| - 1], p);
    }
  }

  /** An event about no item: nothing is sent. */
  lemma {:induction false} Ignore(v: Vars, body: seq<Frame>, events: seq<Canonical>, e: Canonical)
    requires Synced(v, body, events) && KeyOf(e).None? && !e.ToolArgs?
    ensures Synced(v, body, events + [e])
  {
    hide Items, TextOut, ArgsOut, GoodBody, Added, TextOf, ArgsOf, FirstStart, FullName, CallIdOf, FirstName;
    SaidOneMore(events, e);
    NoNewItem(events, e);
    assert forall k :: !Starts(e, k);
  }

  lemma {:induction false} TextMore(v: Vars, body: seq<Frame>, events: seq<Canonical>, text: string)
    requires Synced(v, body, events) && v.textIndex.Some?
    ensures Synced(v, body + [TextPiece(MESSAGE_ID, v.textIndex.value, text)], events + [TextDelta(text)])
  {
    hide Items, TextOut, ArgsOut, GoodBody, Added, TextOf, ArgsOf, FirstStart, FullName, CallIdOf, FirstName;
    var e, f := TextDelta(text), TextPiece(MESSAGE_ID, v.textIndex.value, text);
    SaidOneMore(events, e);
    NoNewItem(events, e);
    OneFrame(body, f);
    assert AddedAs(Items(body)[v.textIndex.value], events, Added(events)[v.textIndex.value]);
    assert forall k :: !Starts(e, k);
  }

  lemma {:induction false} TextFirst(v: Vars, body: seq<Frame>, events: seq<Canonical>, text: string)
    requires Synced(v, body, events) && v.textIndex.None?
    ensures var n := v.nextIndex;
            Synced(v.(textIndex := Some(n), nextIndex := n + 1),
                   body + [ItemAdded(n, MessageItem(MESSAGE_ID, InProgress, "")), PartAdded(MESSAGE_ID, n),
                           TextPiece(MESSAGE_ID, n, text)],
                   events + [TextDelta(text)])
  {
    hide Items, TextOut, ArgsOut, GoodBody, Added, TextOf, ArgsOf, FirstStart, FullName, CallIdOf, FirstName;
    var e, n := TextDelta(text), v.nextIndex;
    SaidOneMore(events, e);
    NewItem(events, e);
    TextItemFrames(body, n, text);
    UnaddedHasNoArgs(body, n);
    assert forall k :: !Starts(e, k);
  }

  lemma TextItemFrames(body: seq<Frame>, n: nat, text: string)
    requires body != [] && GoodBody(body) && n == |Items(body)|
    requires forall p {:trigger Items(body)[p]} :: 0 <= p < |Items(body)| ==> Items(body)[p].id != MESSAGE_ID
    ensures var item := MessageItem(MESSAGE_ID, InProgress, "");
            var after := body + [ItemAdded(n, item), PartAdded(MESSAGE_ID, n), TextPiece(MESSAGE_ID, n, text)];
            GoodBody(after) && Items(after) == Items(body) + [item] && TextOut(after) == TextOut(body) + text
            && forall p {:trigger ArgsOut(after, p)} :: ArgsOut(after, p) == ArgsOut(body, p)
  {
    hide Items, TextOut, ArgsOut, GoodBody;
    var item := MessageItem(MESSAGE_ID, InProgress, "");
    var a := body + [ItemAdded(n, item)];
    var b := a + [PartAdded(MESSAGE_ID, n)];
    OneFrame(body, ItemAdded(n, item));
    OneFrame(a, PartAdded(MESSAGE_ID, n));
    OneFrame(b, TextPiece(MESSAGE_ID, n, text));
    assert b + [TextPiece(MESSAGE_ID, n, text)]
        == body + [ItemAdded(n, item), PartAdded(MESSAGE_ID, n), TextPiece(MESSAGE_ID, n, text)];
  }

  /** The start of a new call: the frame sent for it, */
  lemma {:induction false} CallFirstSent(v: Vars, body: seq<Frame>, events: seq<Canonical>, k: nat, callId: string,
                                         name: string)
    requires Synced(v, body, events) && Sound(events) && k !in v.calls && name != ""
    ensures var after := body + [ItemAdded(v.nextIndex, CallItem(v.nextId, InProgress, callId, name, ""))];
            GoodBody(after) && Carries(after, events + [ToolStarted(k, callId, name)])
  {
    hide Items, TextOut, ArgsOut, GoodBody, Added, TextOf, ArgsOf, FirstStart, FullName, CallIdOf, FirstName, Sound;
    hide Carries, CallsTracked;
    var item := CallItem(v.nextId, InProgress, callId, name, "");
    SameCount(body, events);
    KnownCalls(v, body, events, k);
    OneFrame(body, ItemAdded(v.nextIndex, item));
    CallFirstCarries(body, events, ToolStarted(k, callId, name), item);
  }

  /** and what is remembered of it. */
  lemma {:induction false} CallFirstKept(v: Vars, body: seq<Frame>, events: seq<Canonical>, k: nat, callId: string,
                                         name: string)
    requires Synced(v, body, events) && Sound(events) && k !in v.calls && name != ""
    ensures var n := v.nextIndex;
            Tracks(v.(calls := v.calls[k := CallState(v.nextId, callId, name, n, "")], nextIndex := n + 1,
                      nextId := v.nextId + 1),
                   body + [ItemAdded(n, CallItem(v.nextId, InProgress, callId, name, ""))],
                   events + [ToolStarted(k, callId, name)])
  {
    hide Items, TextOut, ArgsOut, GoodBody, Added, TextOf, ArgsOf, FirstStart, FullName, CallIdOf, FirstName, Sound;
    hide Carries, CallsTracked;
    var e, n := ToolStarted(k, callId, name), v.nextIndex;
    var item := CallItem(v.nextId, InProgress, callId, name, "");
    SameCount(body, events);
    KnownCalls(v, body, events, k);
    SaidOneMore(events, e);
    OneFrame(body, ItemAdded(n, item));
    CallFirstTracked(v.calls, body, events, e, item);
  }

  lemma {:induction false} InSync(v: Vars, body: seq<Frame>, events: seq<Canonical>)
    requires body != [] && GoodBody(body) && Carries(body, events) && Tracks(v, body, events)
    ensures Synced(v, body, events)
  {
  }

  lemma {:induction false} CallFirstCarries(body: seq<Frame>, events: seq<Canonical>, e: Canonical, item: Item)
    requires Carries(body, events) && GoodBody(body) && Sound(events)
    requires e.ToolStarted? && CallKey(e.index) !in Added(events)
    requires item == CallItem(item.id, InProgress, e.callId, e.name, "")
    ensures Carries(body + [ItemAdded(|Items(body)|, item)], events + [e])
  {
    hide Items, TextOut, ArgsOut, GoodBody, Added, TextOf, ArgsOf, FirstStart, FullName, CallIdOf, FirstName, Sound;
    var n := |Items(body)|;
    var after, said := body + [ItemAdded(n, item)], events + [e];
    SaidOneMore(events, e);
    NewItem(events, e);
    OneFrame(body, ItemAdded(n, item));
    UnaddedHasNoArgs(body, n);
    UnstartedHasNoArgs(events, e.index);
    forall p {:trigger Added(said)[p]} | 0 <= p < |Added(said)|
      ensures AddedAs(Items(after)[p], said, Added(said)[p])
              && (Added(said)[p].CallKey? ==> ArgsOut(after, p) == ArgsOf(said, Added(said)[p].index))
    {
      if p < n {
        assert Added(said)[p] == Added(events)[p];
        assert AddedAs(Items(body)[p], events, Added(events)[p]);
      }
    }
  }

  /** What has been said of one call is not changed by another's start. */
  lemma StillTracked(c: CallState, k: nat, body: seq<Frame>, events: seq<Canonical>, e: Canonical, item: Item)
    requires TrackedAs(c, k, body, events) && e.ToolStarted? && CallKey(e.index) !in Added(events) && k != e.index
    ensures TrackedAs(c, k, body + [ItemAdded(|Items(body)|, item)], events + [e])
  {
    hide Items, ArgsOut, GoodBody, Added, TextOf, ArgsOf, FirstStart, FullName, CallIdOf, FirstName;
    SaidOneMore(events, e);
    NewItem(events, e);
    OneFrame(body, ItemAdded(|Items(body)|, item));
    assert !Starts(e, k);
  }

  lemma NewlyTracked(body: seq<Frame>, events: seq<Canonical>, e: Canonical, item: Item)
    requires Sound(events) && |Items(body)| == |Added(events)|
    requires e.ToolStarted? && CallKey(e.index) !in Added(events) && e.name != ""
    ensures var n := |Items(body)|;
            TrackedAs(CallState(item.id, e.callId, e.name, n, ""), e.index, body + [ItemAdded(n, item)], events + [e])
    ensures Added(events + [e]) == Added(events) + [CallKey(e.index)]
  {
    hide Items, ArgsOut, GoodBody, Added, TextOf, ArgsOf, FirstStart, FullName, CallIdOf, FirstName, Sound;
    SaidOneMore(events, e);
    NewItem(events, e);
    OneFrame(body, ItemAdded(|Items(body)|, item));
    UnstartedHasNoArgs(events, e.index);
  }

  lemma {:induction false} CallFirstTracked(calls: map<nat, CallState>, body: seq<Frame>, events: seq<Canonical>,
                                            e: Canonical, item: Item)
    requires CallsTracked(calls, body, events) && Sound(events) && |Items(body)| == |Added(events)|
    requires e.ToolStarted? && CallKey(e.index) !in Added(events) && e.name != ""
    ensures var n := |Items(body)|;
            CallsTracked(calls[e.index := CallState(item.id, e.callId, e.name, n, "")],
                         body + [ItemAdded(n, item)], events + [e])
  {
    hide Items, Added, Sound, TrackedAs;
    var n := |Items(body)|;
    var more := calls[e.index := CallState(item.id, e.callId, e.name, n, "")];
    var after, said := body + [ItemAdded(n, item)], events + [e];
    NewlyTracked(body, events, e, item);
    forall k {:trigger k in more}
      ensures k in more <==> CallKey(k) in Added(said)
    {
      assert k in calls <==> CallKey(k) in Added(events);
    }
    forall k {:trigger more[k]} | k in more
      ensures TrackedAs(more[k], k, after, said)
    {
      if k != e.index {
        assert k in calls && more[k] == calls[k];
        StillTracked(calls[k], k, body, events, e, item);
      }
    }
  }

  lemma {:induction false} CallAgain(v: Vars, body: seq<Frame>, events: seq<Canonical>, k: nat, callId: string,
                                     name: string)
    requires Synced(v, body, events) && k in v.calls
    ensures Synced(v.(calls := v.calls[k := v.calls[k].(name := v.calls[k].name + name)]),
                   body, events + [ToolStarted(k, callId, name)])
  {
    hide Items, TextOut, ArgsOut, GoodBody, Added, TextOf, ArgsOf, FirstStart, FullName, CallIdOf, FirstName;
    var e := ToolStarted(k, callId, name);
    SaidOneMore(events, e);
    NoNewItem(events, e);
  }

  lemma {:induction false} ArgumentsCarried(c: CallState, k: nat, body: seq<Frame>, events: seq<Canonical>,
                                            delta: string)
    requires Carries(body, events) && TrackedAs(c, k, body, events)
    ensures Carries(body + [ArgsPiece(c.itemId, c.outputIndex, delta)], events + [ToolArgs(k, delta)])
  {
    hide Items, TextOut, ArgsOut, GoodBody, Added, TextOf, ArgsOf, FirstStart, FullName, CallIdOf, FirstName;
    var e, f := ToolArgs(k, delta), ArgsPiece(c.itemId, c.outputIndex, delta);
    SaidOneMore(events, e);
    NoNewItem(events, e);
    OneFrame(body, f);
    AddedDistinct(events);
  }

  lemma {:induction false} ArgumentsTracked(calls: map<nat, CallState>, body: seq<Frame>, events: seq<Canonical>,
                                            k: nat, delta: string)
    requires CallsTracked(calls, body, events) && k in calls
    ensures var c := calls[k];
            CallsTracked(calls[k := c.(arguments := c.arguments + delta)],
                         body + [ArgsPiece(c.itemId, c.outputIndex, delta)], events + [ToolArgs(k, delta)])
  {
    hide Items, TextOut, ArgsOut, GoodBody, Added, TextOf, ArgsOf, FirstStart, FullName, CallIdOf, FirstName;
    var e, c := ToolArgs(k, delta), calls[k];
    SaidOneMore(events, e);
    NoNewItem(events, e);
    OneFrame(body, ArgsPiece(c.itemId, c.outputIndex, delta));
    assert forall j :: !Starts(e, j);
  }

  lemma {:induction false} CallArguments(v: Vars, body: seq<Frame>, events: seq<Canonical>, k: nat, delta: string)
    requires Synced(v, body, events) && k in v.calls
    ensures var c := v.calls[k];
            Synced(v.(calls := v.calls[k := c.(arguments := c.arguments + delta)]),
                   body + [ArgsPiece(c.itemId, c.outputIndex, delta)], events + [ToolArgs(k, delta)])
  {
    hide Items, TextOut, ArgsOut, GoodBody, Added, TextOf, ArgsOf, FirstStart, FullName, CallIdOf, FirstName, AddedAs;
    var e, c := ToolArgs(k, delta), v.calls[k];
    ArgumentsCarried(c, k, body, events, delta);
    ArgumentsTracked(v.calls, body, events, k, delta);
    KindAt(body, events, c.outputIndex);
    hide Carries, CallsTracked;
    NoNewItem(events, e);
    OneFrame(body, ArgsPiece(c.itemId, c.outputIndex, delta));
  }

  /** An item is of the kind of its key. */
  lemma KindAt(body: seq<Frame>, events: seq<Canonical>, p: nat)
    requires Carries(body, events) && p < |Added(events)|
    ensures p < |Items(body)| && (Items(body)[p].CallItem? <==> Added(events)[p].CallKey?)
  {
    hide Items, Added, CallIdOf, FirstName;
    assert AddedAs(Items(body)[p], events, Added(events)[p]);
  }

  // ---------------------------------------------------------------- the end of a run

  function FinalItem(body: seq<Frame>, events: seq<Canonical>, p: nat, status: Status): Item
    requires p < |Items(body)| == |Added(events)|
  {
    match Added(events)[p]
    case TextKey => MessageItem(MESSAGE_ID, status, TextOf(events))
    case CallKey(k) => CallItem(Items(body)[p].id, status, CallIdOf(events, k), FullName(events, k), ArgsOf(events, k))
  }

  /** Every added item once: the text first, then the calls by their index. */
  ghost predicate EndOrder(order: seq<nat>, added: seq<Key>) {
    (forall i :: 0 <= i < |order| ==> order[i] < |added|)
    && (forall p :: 0 <= p < |added| ==> p in order)
    && (forall i, j :: 0 <= i < j < |order| ==>
          order[i] != order[j] && added[order[j]].CallKey?
          && (added[order[i]].CallKey? ==> added[order[i]].index < added[order[j]].index))
  }

  function DoneFrames(p: nat, item: Item): seq<Frame> {
    match item
    case MessageItem(id, _, text) => [TextDone(id, p, text), PartDone(id, p, text), ItemDone(p, item)]
    case CallItem(id, _, _, _, arguments) => [ArgsDone(id, p, arguments), ItemDone(p, item)]
  }

  ghost predicate Within(order: seq<nat>, body: seq<Frame>, events: seq<Canonical>) {
    |Items(body)| == |Added(events)| && forall i :: 0 <= i < |order| ==> order[i] < |Items(body)|
  }

  ghost function AllDone(body: seq<Frame>, events: seq<Canonical>, order: seq<nat>, status: Status): seq<Frame>
    requires Within(order, body, events)
  {
    if order == [] then []
    else
      var p := order[|order| - 1];
      AllDone(body, events, order[..|order| - 1], status) + DoneFrames(p, FinalItem(body, events, p, status))
  }

  ghost function Outputs(body: seq<Frame>, events: seq<Canonical>, order: seq<nat>, status: Status): seq<Item>
    requires Within(order, body, events)
  {
    if order == [] then []
    else Outputs(body, events, order[..|order| - 1], status) + [FinalItem(body, events, order[|order| - 1], status)]
  }

  lemma OneMoreDone(body: seq<Frame>, events: seq<Canonical>, order: seq<nat>, p: nat, status: Status)
    requires Within(order, body, events) && p < |Items(body)|
    ensures Within(order + [p], body, events)
    ensures AllDone(body, events, order + [p], status)
         == AllDone(body, events, order, status) + DoneFrames(p, FinalItem(body, events, p, status))
    ensures Outputs(body, events, order + [p], status)
         == Outputs(body, events, order, status) + [FinalItem(body, events, p, status)]
  {
    hide FinalItem, DoneFrames, Items, Added;
    assert (order + [p])[..|order|] == order;
  }

  // ---------------------------------------------------------------- the ending, from the variables

  ghost predicate Increasing(keys: seq<nat>) {
    forall i, j :: 0 <= i < j < |keys| ==> keys[i] < keys[j]
  }

  lemma {:induction false} LeastExists(s: set<nat>) returns (k: nat)
    requires s != {}
    ensures k in s && forall j :: j in s ==> k <= j
    decreases s
  {
    var any :| any in s;
    var rest := s - {any};
    assert forall j :: j in s ==> j == any || j in rest;
    k := any;
    if rest != {} {
      var least := LeastExists(rest);
      k := if least < any then least else any;
    }
  }

  /** `sorted(function_calls)`. */
  method SortedKeys(calls: map<nat, CallState>) returns (keys: seq<nat>)
    ensures Increasing(keys) && forall k :: k in keys <==> k in calls
  {
    keys := [];
    var rest := calls.Keys;
    while rest != {}
      invariant rest <= calls.Keys && Increasing(keys)
      invariant forall k :: k in calls <==> k in keys || k in rest
      invariant forall i, k :: 0 <= i < |keys| && k in rest ==> keys[i] < k
      decreases rest
    {
      ghost var least := LeastExists(rest);
      var k :| k in rest && forall j :: j in rest ==> k <= j;
      keys, rest := keys + [k], rest - {k};
    }
  }

  function CallOrder(v: Vars, keys: seq<nat>): seq<nat>
    requires forall k :: k in keys ==> k in v.calls
  {
    seq(|keys|, i requires 0 <= i < |keys| => v.calls[keys[i]].outputIndex)
  }

  function TextOrder(v: Vars): seq<nat> {
    if v.textIndex.Some? then [v.textIndex.value] else []
  }

  /** The variables and the items added agree on who is where. */
  ghost predicate Placed(v: Vars, added: seq<Key>) {
    (forall p, q :: 0 <= p < q < |added| ==> added[p] != added[q])
    && (v.textIndex.Some? <==> TextKey in added)
    && (v.textIndex.Some? ==> v.textIndex.value < |added| && added[v.textIndex.value] == TextKey)
    && (forall k {:trigger k in v.calls} :: k in v.calls <==> CallKey(k) in added)
    && forall k {:trigger v.calls[k]} :: k in v.calls ==>
         v.calls[k].outputIndex < |added| && added[v.calls[k].outputIndex] == CallKey(k)
  }

  lemma EveryPlaceOrdered(v: Vars, added: seq<Key>, keys: seq<nat>, p: nat)
    requires Placed(v, added) && p < |added| && forall k :: k in keys <==> k in v.calls
    ensures p in TextOrder(v) + CallOrder(v, keys)
  {
    match added[p] {
      case TextKey => assert TextOrder(v)[0] == p;
      case CallKey(k) =>
        assert k in v.calls;
        var i :| 0 <= i < |keys| && keys[i] == k;
        assert CallOrder(v, keys)[i] == p;
    }
  }

  lemma KeyAtPlace(v: Vars, added: seq<Key>, keys: seq<nat>, i: nat)
    requires Placed(v, added) && forall k :: k in keys <==> k in v.calls
    requires i < |TextOrder(v) + CallOrder(v, keys)|
    ensures var order, t := TextOrder(v) + CallOrder(v, keys), |TextOrder(v)|;
            t <= 1 && |order| == t + |keys|
            && order[i] < |added| && added[order[i]] == if i < t then TextKey else CallKey(keys[i - t])
  {
    var t := |TextOrder(v)|;
    if i >= t {
      assert keys[i - t] in v.calls;
    }
  }

  lemma PlacesAreOrdered(v: Vars, added: seq<Key>, keys: seq<nat>)
    requires Placed(v, added) && Increasing(keys) && forall k :: k in keys <==> k in v.calls
    ensures EndOrder(TextOrder(v) + CallOrder(v, keys), added)
  {
    hide TextOrder, CallOrder, Placed;
    var order, t := TextOrder(v) + CallOrder(v, keys), |TextOrder(v)|;
    forall i | 0 <= i < |order|
      ensures t <= 1 && |order| == t + |keys| && order[i] < |added| && added[order[i]]
           == if i < t then TextKey else CallKey(keys[i - t])
    {
      KeyAtPlace(v, added, keys, i);
    }
    forall p | 0 <= p < |added|
      ensures p in order
    {
      EveryPlaceOrdered(v, added, keys, p);
    }
  }

  lemma OrderIsEndOrder(v: Vars, body: seq<Frame>, events: seq<Canonical>, keys: seq<nat>)
    requires Synced(v, body, events) && Increasing(keys) && forall k :: k in keys <==> k in v.calls
    ensures EndOrder(TextOrder(v) + CallOrder(v, keys), Added(events))
    ensures Within(TextOrder(v) + CallOrder(v, keys), body, events)
  {
    hide Items, Added, GoodBody, FullName, CallIdOf, ArgsOf;
    AddedDistinct(events);
    PlacesAreOrdered(v, Added(events), keys);
  }

  /** The items as the variables hold them. */
  function HeldCall(c: CallState, status: Status): Item {
    CallItem(c.itemId, status, c.callId, c.name, c.arguments)
  }

  lemma HeldIsFinal(v: Vars, body: seq<Frame>, events: seq<Canonical>, status: Status)
    requires Synced(v, body, events)
    ensures v.textIndex.Some? ==>
              v.textIndex.value < |Items(body)|
              && FinalItem(body, events, v.textIndex.value, status) == MessageItem(MESSAGE_ID, status, TextOf(events))
    ensures forall k {:trigger v.calls[k]} :: k in v.calls ==>
              v.calls[k].outputIndex < |Items(body)| && v.calls[k].name != ""
              && FinalItem(body, events, v.calls[k].outputIndex, status) == HeldCall(v.calls[k], status)
  {
    hide Items, Added, GoodBody, FullName, CallIdOf, ArgsOf;
  }

  /** The variables with their sorted keys, and what the end of the run must go through. */
  ghost predicate Ready(v: Vars, keys: seq<nat>, body: seq<Frame>, events: seq<Canonical>) {
    Synced(v, body, events) && Increasing(keys) && forall k :: k in keys <==> k in v.calls
  }

  function OrderUpTo(v: Vars, keys: seq<nat>, i: nat): seq<nat>
    requires i <= |keys| && forall k :: k in keys ==> k in v.calls
  {
    TextOrder(v) + CallOrder(v, keys)[..i]
  }

  lemma ReadyOrder(v: Vars, keys: seq<nat>, body: seq<Frame>, events: seq<Canonical>, i: nat)
    requires Ready(v, keys, body, events) && i <= |keys|
    ensures Within(OrderUpTo(v, keys, i), body, events)
    ensures i == |keys| ==> EndOrder(OrderUpTo(v, keys, i), Added(events))
  {
    hide Synced, Items, Added, EndOrder;
    OrderIsEndOrder(v, body, events, keys);
    assert forall j :: 0 <= j < |OrderUpTo(v, keys, i)| ==>
           OrderUpTo(v, keys, i)[j] == (TextOrder(v) + CallOrder(v, keys))[j];
    assert CallOrder(v, keys)[..|keys|] == CallOrder(v, keys);
  }

  lemma CollectText(v: Vars, keys: seq<nat>, body: seq<Frame>, events: seq<Canonical>, status: Status)
    requires Ready(v, keys, body, events)
    ensures Within(OrderUpTo(v, keys, 0), body, events)
    ensures var order, item := OrderUpTo(v, keys, 0), MessageItem(MESSAGE_ID, status, TextOf(events));
            if v.textIndex.Some? then
              Outputs(body, events, order, status) == [item]
              && AllDone(body, events, order, status) == DoneFrames(v.textIndex.value, item)
            else Outputs(body, events, order, status) == [] && AllDone(body, events, order, status) == []
  {
    hide Synced, Items, Added, FinalItem, TextOf, Within, DoneFrames;
    ReadyOrder(v, keys, body, events, 0);
    assert OrderUpTo(v, keys, 0) == TextOrder(v);
    NothingWithin(v, body, events);
    if v.textIndex.Some? {
      HeldIsFinal(v, body, events, status);
      OneMoreDone(body, events, [], v.textIndex.value, status);
      assert [] + [v.textIndex.value] == TextOrder(v);
    }
  }

  lemma {:induction false} CollectCall(v: Vars, keys: seq<nat>, body: seq<Frame>, events: seq<Canonical>, i: nat,
                                       status: Status)
    requires Ready(v, keys, body, events) && i < |keys|
    ensures keys[i] in v.calls && v.calls[keys[i]].name != ""
    ensures Within(OrderUpTo(v, keys, i), body, events) && Within(OrderUpTo(v, keys, i + 1), body, events)
    ensures var before, now, c := OrderUpTo(v, keys, i), OrderUpTo(v, keys, i + 1), v.calls[keys[i]];
            Outputs(body, events, now, status) == Outputs(body, events, before, status) + [HeldCall(c, status)]
            && AllDone(body, events, now, status)
               == AllDone(body, events, before, status) + DoneFrames(c.outputIndex, HeldCall(c, status))
  {
    hide Synced, Items, Added, FinalItem, TextOf, Within, DoneFrames, Outputs, AllDone;
    ReadyOrder(v, keys, body, events, i);
    HeldIsFinal(v, body, events, status);
    var c := v.calls[keys[i]];
    OneMoreDone(body, events, OrderUpTo(v, keys, i), c.outputIndex, status);
    assert OrderUpTo(v, keys, i) + [c.outputIndex] == OrderUpTo(v, keys, i + 1);
  }

  lemma NothingWithin(v: Vars, body: seq<Frame>, events: seq<Canonical>)
    requires Synced(v, body, events)
    ensures Within([], body, events)
    ensures forall status :: Outputs(body, events, [], status) == [] && AllDone(body, events, [], status) == []
  {
  }

  lemma KeysAreCalls(v: Vars, keys: seq<nat>, body: seq<Frame>, events: seq<Canonical>)
    requires Synced(v, body, events) && Increasing(keys) && forall k :: k in keys <==> k in v.calls
    ensures Ready(v, keys, body, events)
  {
  }

  /** A failed frame with every item there is so far, in the order a completed response would have them. */
  ghost predicate FailedWith(frame: Frame, body: seq<Frame>, events: seq<Canonical>, model: string, usage: Usage,
                             error: Error)
  {
    exists order {:trigger EndOrder(order, Added(events))} ::
      Within(order, body, events) && EndOrder(order, Added(events))
      && frame == ResponseFailed(model, Outputs(body, events, order, Cut), TextOf(events), usage, error)
  }

  /** The frames that do every item, and the items as they then are. */
  ghost predicate EndedWith(frames: seq<Frame>, output: seq<Item>, body: seq<Frame>, events: seq<Canonical>,
                            status: Status)
  {
    exists order {:trigger EndOrder(order, Added(events))} ::
      Within(order, body, events) && EndOrder(order, Added(events))
      && frames == AllDone(body, events, order, status) && output == Outputs(body, events, order, status)
  }

  /** `_failed_stream_frame`. */
  method FailedStreamFrame(v: Vars, text: string, model: string, usage: Usage, error: Error,
                           ghost body: seq<Frame>, ghost events: seq<Canonical>)
    returns (frame: Frame)
    requires Synced(v, body, events) && text == TextOf(events)
    ensures FailedWith(frame, body, events, model, usage, error)
  {
    hide Synced, Ready, Items, Added, TextOf, EndOrder, Within, Outputs, AllDone, OrderUpTo, Increasing;
    var keys := SortedKeys(v.calls);
    KeysAreCalls(v, keys, body, events);
    CollectText(v, keys, body, events, Cut);
    var output := if v.textIndex.Some? then [MessageItem(MESSAGE_ID, Cut, text)] else [];
    var i := 0;
    while i < |keys|
      invariant 0 <= i <= |keys| && Within(OrderUpTo(v, keys, i), body, events)
      invariant output == Outputs(body, events, OrderUpTo(v, keys, i), Cut)
    {
      CollectCall(v, keys, body, events, i, Cut);
      var c := v.calls[keys[i]];
      output := output + [CallItem(c.itemId, Cut, c.callId, c.name, c.arguments)];
      i := i + 1;
    }
    ReadyOrder(v, keys, body, events, i);
    frame := ResponseFailed(model, output, text, usage, error);
  }

  /** The end of a completed run: every item done, the text first and the calls by index. */
  method EndItems(v: Vars, text: string, status: Status, ghost body: seq<Frame>, ghost events: seq<Canonical>)
    returns (frames: seq<Frame>, output: seq<Item>)
    requires Synced(v, body, events) && text == TextOf(events)
    ensures EndedWith(frames, output, body, events, status)
  {
    hide Synced, Ready, Items, Added, TextOf, EndOrder, Within, Outputs, AllDone, OrderUpTo, Increasing;
    var keys := SortedKeys(v.calls);
    KeysAreCalls(v, keys, body, events);
    CollectText(v, keys, body, events, status);
    frames, output := [], [];
    if v.textIndex.Some? {
      var p := v.textIndex.value;
      var message := MessageItem(MESSAGE_ID, status, text);
      frames := [TextDone(MESSAGE_ID, p, text), PartDone(MESSAGE_ID, p, text), ItemDone(p, message)];
      output := [message];
    }
    var i := 0;
    while i < |keys|
      invariant 0 <= i <= |keys| && Within(OrderUpTo(v, keys, i), body, events)
      invariant output == Outputs(body, events, OrderUpTo(v, keys, i), status)
      invariant frames == AllDone(body, events, OrderUpTo(v, keys, i), status)
    {
      CollectCall(v, keys, body, events, i, status);
      var c := v.calls[keys[i]];
      if c.name == "" {
        // The source raises here; this point cannot be reached.
        assert false;
      }
      var call := CallItem(c.itemId, status, c.callId, c.name, c.arguments);
      frames := frames + [ArgsDone(c.itemId, c.outputIndex, c.arguments), ItemDone(c.outputIndex, call)];
      output := output + [call];
      i := i + 1;
    }
    ReadyOrder(v, keys, body, events, i);
  }

  // ---------------------------------------------------------------- the translator

  /** Why the run ends as a failure, if it does: `done` are the events before the first problem. */
  function Reasoned(done: seq<Canonical>, next: Option<Canonical>): Option<Error> {
    if next.Some? then ProblemOf(done, next.value)
    else if LatestReason(done).None? then Some(UNFINISHED)
    else None
  }

  function EndStatus(done: seq<Canonical>): Status {
    if LatestReason(done) == Some(MaxTokens) then Cut else Whole
  }

  /** The frames that follow the body. */
  ghost function Ending(body: seq<Frame>, done: seq<Canonical>, error: Option<Error>, order: seq<nat>,
                        model: string): seq<Frame>
    requires Within(order, body, done)
  {
    if error.Some? then
      [ResponseFailed(LatestModel(done, model), Outputs(body, done, order, Cut), TextOf(done), LatestUsage(done),
                      error.value)]
    else
      AllDone(body, done, order, EndStatus(done))
      + [ResponseCompleted(LatestModel(done, model), EndStatus(done), Outputs(body, done, order, EndStatus(done)),
                           TextOf(done), LatestUsage(done))]
  }

  /** The outcome of a run: where it stopped reading, and what it had sent by then. */
  ghost predicate Ran(events: seq<Canonical>, n: nat, body: seq<Frame>, order: seq<nat>, model: string) {
    n <= |events| && Sound(events[..n]) && (n < |events| ==> ProblemOf(events[..n], events[n]).Some?)
    && GoodBody(body) && body != [] && body[0] == Created(model)
    && Carries(body, events[..n])
    && Within(order, body, events[..n]) && EndOrder(order, Added(events[..n]))
  }

  function NextOf(events: seq<Canonical>, n: nat): Option<Canonical> {
    if n < |events| then Some(events[n]) else None
  }

  /** The frames of a run: `n` events were read without a problem, `body` was sent for them, and then the ending. */
  ghost predicate IsRun(frames: seq<Frame>, events: seq<Canonical>, n: nat, body: seq<Frame>, order: seq<nat>,
                        model: string)
  {
    Ran(events, n, body, order, model)
    && frames == body + Ending(body, events[..n], Reasoned(events[..n], NextOf(events, n)), order, model)
  }

  ghost predicate Translates(frames: seq<Frame>, events: seq<Canonical>, model: string) {
    exists n: nat, body, order :: IsRun(frames, events, n, body, order, model)
  }

  lemma NextSaid(events: seq<Canonical>, i: nat, model: string)
    requires i < |events|
    ensures events[..i + 1] == events[..i] + [events[i]]
    ensures LatestModel(events[..i + 1], model)
         == if events[i].Started? && events[i].model.Some? then events[i].model.value
            else LatestModel(events[..i], model)
    ensures LatestUsage(events[..i + 1])
         == if events[i].UsageUpdated?
            then Usage(OrZero(events[i].input), OrZero(events[i].output), OrZero(events[i].total))
            else LatestUsage(events[..i])
    ensures LatestReason(events[..i + 1])
         == if events[i].Completed? then Some(events[i].reason) else LatestReason(events[..i])
    ensures TextOf(events[..i + 1]) == TextOf(events[..i]) + if events[i].TextDelta? then events[i].text else ""
    ensures Sound(events[..i]) && ProblemOf(events[..i], events[i]).None? ==> Sound(events[..i + 1])
  {
    hide OrZero, ProblemOf;
    var longer := events[..i + 1];
    assert longer[..i] == events[..i];
    assert longer == events[..i] + [events[i]];
  }

  /** What the translator's variables hold after some events. */
  ghost predicate Holds(v: Vars, fragments: seq<string>, finalModel: string, usage: Usage, finish: Option<FinishReason>,
                        frames: seq<Frame>, done: seq<Canonical>, model: string) {
    Synced(v, frames, done) && Sound(done) && frames != [] && frames[0] == Created(model)
    && Join(fragments) == TextOf(done)
    && finalModel == LatestModel(done, model) && usage == LatestUsage(done)
    && finish == match LatestReason(done) case None => None case Some(r) => Some(CanonicalToChat.FinishOf(r))
  }

  lemma Begun(model: string)
    ensures Holds(Vars(None, map[], 0, 1), [], model, Usage(0, 0, 0), None, [Created(model)], [], model)
  {
    OneFrame([], Created(model));
    assert [] + [Created(model)] == [Created(model)];
  }

  /** The calls in the map are the calls added. */
  lemma KnownCalls(v: Vars, body: seq<Frame>, events: seq<Canonical>, k: nat)
    requires Synced(v, body, events)
    ensures k in v.calls <==> CallKey(k) in Added(events)
    ensures k in v.calls ==> v.calls[k].callId == CallIdOf(events, k)
  {
    hide Items, Added, GoodBody, FullName, CallIdOf, ArgsOf;
  }

  lemma JoinMore(leaves: seq<string>, leaf: string)
    ensures Join(leaves + [leaf]) == Join(leaves) + leaf
  {
    assert (leaves + [leaf])[..|leaves|] == leaves;
  }

  /** The variables hold what a run needs when it stops at event `n`. */
  ghost predicate Stops(v: Vars, body: seq<Frame>, events: seq<Canonical>, n: nat, model: string) {
    n <= |events| && Synced(v, body, events[..n]) && Sound(events[..n]) && body != [] && body[0] == Created(model)
    && (n < |events| ==> ProblemOf(events[..n], events[n]).Some?)
  }

  lemma RunFails(v: Vars, body: seq<Frame>, events: seq<Canonical>, n: nat, failed: Frame, model: string, error: Error)
    requires Stops(v, body, events, n, model) && Reasoned(events[..n], NextOf(events, n)) == Some(error)
    requires FailedWith(failed, body, events[..n], LatestModel(events[..n], model), LatestUsage(events[..n]), error)
    ensures Translates(body + [failed], events, model)
  {
    hide Sound, Added, Items, GoodBody, Carries, EndOrder, Outputs, ProblemOf, Reasoned, TextOf;
    hide LatestModel, LatestUsage, Within;
    var order :| Within(order, body, events[..n]) && EndOrder(order, Added(events[..n]))
                 && failed == ResponseFailed(LatestModel(events[..n], model), Outputs(body, events[..n], order, Cut),
                                             TextOf(events[..n]), LatestUsage(events[..n]), error);
    assert IsRun(body + [failed], events, n, body, order, model);
  }

  lemma RunCompletes(v: Vars, body: seq<Frame>, events: seq<Canonical>, ended: seq<Frame>, output: seq<Item>,
                     model: string)
    requires Stops(v, body, events, |events|, model) && Reasoned(events, None).None?
    requires EndedWith(ended, output, body, events, EndStatus(events))
    ensures Translates(body + ended + [ResponseCompleted(LatestModel(events, model), EndStatus(events), output,
                                                         TextOf(events), LatestUsage(events))], events, model)
  {
    hide Sound, Added, Items, GoodBody, Carries, EndOrder, Outputs, AllDone, ProblemOf, Reasoned;
    hide TextOf, LatestModel, LatestUsage, Within, EndStatus;
    var n := |events|;
    assert events[..n] == events;
    var order :| Within(order, body, events) && EndOrder(order, Added(events))
                 && ended == AllDone(body, events, order, EndStatus(events))
                 && output == Outputs(body, events, order, EndStatus(events));
    var last := ResponseCompleted(LatestModel(events, model), EndStatus(events), output, TextOf(events),
                                  LatestUsage(events));
    assert body + ended + [last] == body + Ending(body, events, None, order, model);
    assert IsRun(body + ended + [last], events, n, body, order, model);
  }

  method OpenAiSseToResponsesSse(events: seq<Canonical>, model: string)
    returns (frames: seq<Frame>)
    ensures Translates(frames, events, model)
  {
    hide Synced, Sound, Added, Items, GoodBody, Carries, TextOf, LatestModel, LatestUsage;
    hide LatestReason, Join, EndOrder, Within, CallIdOf;
    hide Translates, FailedWith, EndedWith, Tracks, CanonicalToChat.FinishOf;
    var v := Vars(None, map[], 0, 1);
    var fragments: seq<string>, finalModel, usage := [], model, Usage(0, 0, 0);
    var finish: Option<FinishReason> := None;
    frames := [Created(model)];
    Begun(model);
    var i := 0;
    assert events[..i] == [];
    while i < |events|
      invariant 0 <= i <= |events|
      invariant Holds(v, fragments, finalModel, usage, finish, frames, events[..i], model)
    {
      var e := events[i];
      ghost var done := events[..i];
      NextSaid(events, i, model);
      var problem: Option<Error> := None;
      if e.ToolStarted? || e.ToolArgs? {
        KnownCalls(v, frames, done, e.index);
      }
      match e {
        case Failed(kind, message) =>
          problem := Some(Error(kind, message));
        case Started(_, m) =>
          Ignore(v, frames, done, e);
          if m.Some? {
            finalModel := m.value;
          }
        case UsageUpdated(input, output, total) =>
          Ignore(v, frames, done, e);
          usage := Usage(OrZero(input), OrZero(output), OrZero(total));
        case TextDelta(text) =>
          if v.textIndex.None? {
            TextFirst(v, frames, done, text);
            var p := v.nextIndex;
            v := v.(textIndex := Some(p), nextIndex := p + 1);
            frames := frames + [ItemAdded(p, MessageItem(MESSAGE_ID, InProgress, "")), PartAdded(MESSAGE_ID, p),
                                TextPiece(MESSAGE_ID, p, text)];
          } else {
            TextMore(v, frames, done, text);
            frames := frames + [TextPiece(MESSAGE_ID, v.textIndex.value, text)];
          }
          JoinMore(fragments, text);
          fragments := fragments + [text];
        case ToolStarted(k, callId, name) =>
          if k !in v.calls {
            if callId == "" {
              problem := Some(MISSING_ID);
            } else if name == "" {
              problem := Some(MISSING_NAME);
            } else {
              CallFirstSent(v, frames, done, k, callId, name);
              CallFirstKept(v, frames, done, k, callId, name);
              var p, id := v.nextIndex, v.nextId;
              v := v.(calls := v.calls[k := CallState(id, callId, name, p, "")], nextIndex := p + 1, nextId := id + 1);
              frames := frames + [ItemAdded(p, CallItem(id, InProgress, callId, name, ""))];
              InSync(v, frames, done + [e]);
            }
          } else if callId != "" && callId != v.calls[k].callId {
            problem := Some(ID_CHANGED);
          } else {
            CallAgain(v, frames, done, k, callId, name);
            v := v.(calls := v.calls[k := v.calls[k].(name := v.calls[k].name + name)]);
          }
        case ToolArgs(k, delta) =>
          if k !in v.calls {
            problem := Some(MISSING_ID);
          } else {
            CallArguments(v, frames, done, k, delta);
            var c := v.calls[k];
            v := v.(calls := v.calls[k := c.(arguments := c.arguments + delta)]);
            frames := frames + [ArgsPiece(c.itemId, c.outputIndex, delta)];
          }
        case Completed(reason) =>
          Ignore(v, frames, done, e);
          finish := Some(CanonicalToChat.FinishOf(reason));
      }
      if problem.Some? {
        assert ProblemOf(done, e) == problem;
        var failed := FailedStreamFrame(v, Join(fragments), finalModel, usage, problem.value, frames, done);
        RunFails(v, frames, events, i, failed, model, problem.value);
        return frames + [failed];
      }
      i := i + 1;
    }
    assert events[..i] == events;
    if finish.None? {
      var failed := FailedStreamFrame(v, Join(fragments), finalModel, usage, UNFINISHED, frames, events);
      RunFails(v, frames, events, i, failed, model, UNFINISHED);
      frames := frames + [failed];
    } else {
      var status := if finish.value == Length then Cut else Whole;
      OnlyMaxTokensCuts();
      var ended, output := EndItems(v, Join(fragments), status, frames, events);
      RunCompletes(v, frames, events, ended, output, model);
      frames := frames + ended + [ResponseCompleted(finalModel, status, output, Join(fragments), usage)];
    }
  }

  lemma OnlyMaxTokensCuts()
    ensures forall r :: CanonicalToChat.FinishOf(r) == Length <==> r == MaxTokens
  {
  }

  // ---------------------------------------------------------------- what a client may rely on

  predicate Terminal(f: Frame) {
    f.ResponseCompleted? || f.ResponseFailed?
  }

  lemma {:induction false} BodyFrames(body: seq<Frame>, i: nat)
    requires GoodBody(body) && i < |body|
    ensures GoodBody(body[..i]) && MayFollow(body[..i], body[i])
    decreases |body|
  {
    hide MayFollow;
    var m := |body| - 1;
    if i < m {
      BodyFrames(body[..m], i);
      assert body[..m][..i] == body[..i];
    }
  }

  lemma NotTerminal(before: seq<Frame>, f: Frame)
    requires MayFollow(before, f)
    ensures !Terminal(f) && !f.ItemDone? && (f.Created? ==> before == [])
  {
  }

  lemma {:induction false} DoneIsNotTerminal(body: seq<Frame>, events: seq<Canonical>, order: seq<nat>, status: Status)
    requires Within(order, body, events)
    ensures forall f :: f in AllDone(body, events, order, status) ==> !Terminal(f) && Closing(f)
  {
    hide FinalItem, Items, Added;
    if order != [] {
      DoneIsNotTerminal(body, events, order[..|order| - 1], status);
    }
  }

  /** A frame that neither begins a response, nor adds an item, nor sends a piece of one. */
  predicate Closing(f: Frame) {
    !f.Created? && !f.ItemAdded? && !f.TextPiece? && !f.ArgsPiece?
  }

  /** A run completes: no event is a problem after the ones before it, and some event gives a finish reason. */
  ghost predicate Completes(events: seq<Canonical>) {
    Sound(events) && exists i :: 0 <= i < |events| && events[i].Completed?
  }

  lemma EndingFrames(events: seq<Canonical>, n: nat, body: seq<Frame>, order: seq<nat>, model: string,
                     error: Option<Error>)
    requires Ran(events, n, body, order, model)
    ensures var e := Ending(body, events[..n], error, order, model);
            e != [] && (e[|e| - 1].ResponseFailed? <==> error.Some?)
            && forall i :: 0 <= i < |e| ==> Closing(e[i]) && (Terminal(e[i]) <==> i == |e| - 1)
  {
    hide Carries, GoodBody, Sound, EndOrder, Within, Outputs, AllDone, LatestModel, LatestUsage;
    hide LatestReason, ProblemOf, Closing, Terminal;
    var done := events[..n];
    var status := EndStatus(done);
    DoneIsNotTerminal(body, done, order, status);
    var all := AllDone(body, done, order, status);
    assert forall i :: 0 <= i < |all| ==> all[i] in all;
    LastIsTerminal();
  }

  lemma LastIsTerminal()
    ensures forall m, o, t, u, e :: Terminal(ResponseFailed(m, o, t, u, e)) && Closing(ResponseFailed(m, o, t, u, e))
    ensures forall m, s, o, t, u ::
              Terminal(ResponseCompleted(m, s, o, t, u)) && Closing(ResponseCompleted(m, s, o, t, u))
  {
  }

  /** A run taken apart. */
  lemma PartsOf(events: seq<Canonical>, model: string, frames: seq<Frame>)
    returns (n: nat, body: seq<Frame>, order: seq<nat>)
    requires Translates(frames, events, model)
    ensures Ran(events, n, body, order, model) && GoodBody(body) && body != []
    ensures frames == body + Ending(body, events[..n], Reasoned(events[..n], NextOf(events, n)), order, model)
    ensures Reasoned(events[..n], NextOf(events, n)).None? <==> Completes(events)
    ensures Completes(events) ==> n == |events| && events[..n] == events
    ensures forall i :: 0 <= i < |body| ==>
              frames[i] == body[i] && !Terminal(frames[i]) && !frames[i].ItemDone? && (frames[i].Created? <==> i == 0)
    ensures |body| < |frames| && (frames[|frames| - 1].ResponseFailed? <==> !Completes(events))
    ensures forall i :: |body| <= i < |frames| ==> Closing(frames[i]) && (Terminal(frames[i]) <==> i == |frames| - 1)
  {
    hide Carries, GoodBody, Sound, EndOrder, Within, Ending, ProblemOf, Reasoned, Terminal, Closing, MayFollow;
    var k: nat, b, o :| IsRun(frames, events, k, b, o, model);
    n, body, order := k, b, o;
    var error := Reasoned(events[..n], NextOf(events, n));
    CompletesIff(events, n, body, order, model);
    assert events[..|events|] == events;
    EndingFrames(events, n, body, order, model, error);
    var ending := Ending(body, events[..n], error, order, model);
    forall i | 0 <= i < |body|
      ensures frames[i] == body[i] && !Terminal(frames[i]) && !frames[i].ItemDone? && (frames[i].Created? <==> i == 0)
    {
      BodyFrames(body, i);
      NotTerminal(body[..i], body[i]);
    }
    forall i | |body| <= i < |frames|
      ensures Closing(frames[i]) && (Terminal(frames[i]) <==> i == |frames| - 1)
    {
      assert frames[i] == ending[i - |body|];
    }
    assert frames[|frames| - 1] == ending[|ending| - 1];
  }

  /** Every run begins with `created`, once, and ends with one completed or failed frame, once. */
  lemma OneTerminalLast(events: seq<Canonical>, model: string, frames: seq<Frame>)
    requires Translates(frames, events, model)
    ensures frames != [] && frames[0] == Created(model)
    ensures forall i :: 0 <= i < |frames| ==>
            (Terminal(frames[i]) <==> i == |frames| - 1) && (frames[i].Created? <==> i == 0)
    ensures frames[|frames| - 1].ResponseCompleted? <==> Completes(events)
  {
    hide Carries, GoodBody, Sound, EndOrder, Within, Ending, Reasoned, Completes, Translates;
    var n, body, order := PartsOf(events, model, frames);
  }

  /** Items are numbered 0, 1, 2, ... as they are added, each with an identifier of its own. */
  lemma ItemsAddedInOrder(events: seq<Canonical>, model: string, frames: seq<Frame>, i: nat, j: nat)
    requires Translates(frames, events, model) && i < j < |frames| && frames[i].ItemAdded? && frames[j].ItemAdded?
    ensures frames[i].index < frames[j].index && frames[i].item.id != frames[j].item.id
    ensures (forall k :: i < k < j ==> !frames[k].ItemAdded?) ==> frames[j].index == frames[i].index + 1
    ensures (forall k :: 0 <= k < i ==> !frames[k].ItemAdded?) ==> frames[i].index == 0
  {
    hide Ran, GoodBody, Ending, Reasoned, Completes, Translates, Items;
    var n, body, order := PartsOf(events, model, frames);
    BodyFrames(body, i);
    BodyFrames(body, j);
    ItemsGrow(body, i, j);
    assert frames[i] == body[i] && frames[j] == body[j];
    assert Items(body[..j])[body[i].index] == body[i].item;
    if forall k :: i < k < j ==> !frames[k].ItemAdded? {
      assert forall k :: i < k < j ==> !body[k].ItemAdded?;
      OneItemMore(body, i, j);
    }
    if forall k :: 0 <= k < i ==> !frames[k].ItemAdded? {
      NoneAdded(body[..i]);
    }
  }

  lemma {:induction false} ItemsGrow(body: seq<Frame>, i: nat, j: nat)
    requires i < j <= |body|
    ensures Items(body[..i]) <= Items(body[..j])
    ensures body[i].ItemAdded? ==> Items(body[..i]) + [body[i].item] <= Items(body[..j])
    decreases j
  {
    assert body[..j][..j - 1] == body[..j - 1];
    if i < j - 1 {
      ItemsGrow(body, i, j - 1);
    }
  }

  lemma {:induction false} OneItemMore(body: seq<Frame>, i: nat, j: nat)
    requires i < j <= |body| && body[i].ItemAdded? && forall k :: i < k < j ==> !body[k].ItemAdded?
    ensures |Items(body[..j])| == |Items(body[..i])| + 1
    decreases j
  {
    assert body[..j][..j - 1] == body[..j - 1];
    if i < j - 1 {
      OneItemMore(body, i, j - 1);
    }
  }

  lemma {:induction false} NoneAdded(body: seq<Frame>)
    requires forall k :: 0 <= k < |body| ==> !body[k].ItemAdded?
    ensures Items(body) == []
  {
    if body != [] {
      NoneAdded(body[..|body| - 1]);
    }
  }

  /** The frame that added an item. */
  lemma {:induction false} AddingFrame(body: seq<Frame>, p: nat) returns (i: nat)
    requires GoodBody(body) && p < |Items(body)|
    ensures i < |body| && body[i] == ItemAdded(p, Items(body)[p])
  {
    hide FreshItem;
    var m := |body| - 1;
    if p < |Items(body[..m])| {
      i := AddingFrame(body[..m], p);
    } else {
      i := m;
    }
  }

  /** A delta names, by index and identifier, an item of its kind added before it. */
  lemma DeltaNamesAddedItem(events: seq<Canonical>, model: string, frames: seq<Frame>, i: nat) returns (j: nat)
    requires Translates(frames, events, model) && i < |frames| && (frames[i].TextPiece? || frames[i].ArgsPiece?)
    ensures j < i && frames[j].ItemAdded? && frames[j].index == frames[i].index && frames[j].item.id == frames[i].itemId
    ensures frames[j].item.MessageItem? <==> frames[i].TextPiece?
    ensures frames[i].TextPiece? ==> PartAdded(frames[i].itemId, frames[i].index) in frames[..i]
  {
    hide Ran, Items, GoodBody, Ending, Reasoned, Completes, Translates;
    var n, body, order := PartsOf(events, model, frames);
    BodyFrames(body, i);
    j := AddingFrame(body[..i], body[i].index);
  }

  lemma {:induction false} NotInOrderNotDone(body: seq<Frame>, events: seq<Canonical>, order: seq<nat>, status: Status,
                                             p: nat)
    requires Within(order, body, events) && p !in order
    ensures forall f :: f in AllDone(body, events, order, status) && f.ItemDone? ==> f.index != p
  {
    hide FinalItem, Items, Added;
    if order != [] {
      NotInOrderNotDone(body, events, order[..|order| - 1], status, p);
    }
  }

  /** `frames` ends with the final text or arguments of an item and the item done. */
  predicate EndsWithDone(frames: seq<Frame>, p: nat, item: Item) {
    var d := |frames| - 1;
    d > 0 && frames[d] == ItemDone(p, item)
    && if item.CallItem? then frames[d - 1] == ArgsDone(item.id, p, item.arguments)
       else d > 1 && frames[d - 2] == TextDone(item.id, p, item.text)
            && frames[d - 1] == PartDone(item.id, p, item.text)
  }

  lemma DoneFramesEnd(before: seq<Frame>, p: nat, item: Item)
    ensures var frames := before + DoneFrames(p, item);
            EndsWithDone(frames, p, item)
            && forall i :: |before| <= i < |frames| && frames[i].ItemDone? ==> i == |frames| - 1 && frames[i].index == p
  {
  }

  lemma LastDone(body: seq<Frame>, events: seq<Canonical>, order: seq<nat>, status: Status)
    requires Within(order, body, events) && order != []
    ensures Within(order[..|order| - 1], body, events) && order[|order| - 1] < |Items(body)|
    ensures var p := order[|order| - 1];
            AllDone(body, events, order, status)
            == AllDone(body, events, order[..|order| - 1], status) + DoneFrames(p, FinalItem(body, events, p, status))
  {
    hide FinalItem, Items, Added;
  }

  /** At the end an item is done exactly once, under its own index, right after its final text or arguments. */
  lemma {:induction false} DoneOnce(body: seq<Frame>, events: seq<Canonical>, order: seq<nat>, status: Status, p: nat)
    returns (d: nat)
    requires Within(order, body, events) && p in order
    requires forall i, j :: 0 <= i < j < |order| ==> order[i] != order[j]
    ensures var frames := AllDone(body, events, order, status);
            d < |frames| && EndsWithDone(frames[..d + 1], p, FinalItem(body, events, p, status))
            && forall i :: 0 <= i < |frames| && frames[i].ItemDone? && frames[i].index == p ==> i == d
  {
    hide FinalItem, Items, Added, AllDone, DoneFrames, EndsWithDone;
    LastDone(body, events, order, status);
    var m := |order| - 1;
    var last := order[m];
    var before, frames := AllDone(body, events, order[..m], status), AllDone(body, events, order, status);
    DoneFramesEnd(before, last, FinalItem(body, events, last, status));
    if last == p {
      d := |frames| - 1;
      NotInOrderNotDone(body, events, order[..m], status, p);
      assert frames[..d + 1] == frames;
      assert forall i :: 0 <= i < |before| ==> frames[i] == before[i] && before[i] in before;
    } else {
      d := DoneOnce(body, events, order[..m], status, p);
      assert frames[..d + 1] == before[..d + 1];
      assert forall i :: 0 <= i < |before| ==> frames[i] == before[i];
    }
  }

  lemma LaterPosition(body: seq<Frame>, frames: seq<Frame>, ended: seq<Frame>, d: nat, p: nat, item: Item)
    requires d < |ended| && body + ended <= frames && EndsWithDone(ended[..d + 1], p, item)
    ensures EndsWithDone(frames[..|body| + d + 1], p, item)
  {
    assert frames[..|body| + d + 1] == body + ended[..d + 1];
  }

  lemma DoneOnceInAll(events: seq<Canonical>, n: nat, body: seq<Frame>, order: seq<nat>, model: string, p: nat)
    returns (d: nat)
    requires Ran(events, n, body, order, model) && p < |Items(body)|
    ensures var done := events[..n];
            var frames := body + Ending(body, done, None, order, model);
            var item := FinalItem(body, done, p, EndStatus(done));
            |body| < d < |frames| && EndsWithDone(frames[..d + 1], p, item)
            && item.id == Items(body)[p].id && (item.MessageItem? <==> Items(body)[p].MessageItem?)
            && forall i :: 0 <= i < |frames| && frames[i].ItemDone? && frames[i].index == p ==> i == d
  {
    hide GoodBody, Sound, Outputs, AllDone, MayFollow, LatestModel, LatestUsage, LatestReason, ProblemOf, Items, Added;
    var done := events[..n];
    var frames := body + Ending(body, done, None, order, model);
    assert p in order;
    d := DoneOnce(body, done, order, EndStatus(done), p);
    var ended := AllDone(body, done, order, EndStatus(done));
    LaterPosition(body, frames, ended, d, p, FinalItem(body, done, p, EndStatus(done)));
    d := |body| + d;
    forall i | 0 <= i < |frames| && frames[i].ItemDone? && frames[i].index == p
      ensures i == d
    {
      if i < |body| {
        BodyFrames(body, i);
        NotTerminal(body[..i], body[i]);
      } else if i < |frames| - 1 {
        assert frames[i] == ended[i - |body|];
      }
    }
    assert AddedAs(Items(body)[p], done, Added(done)[p]);
  }

  /** The item as the input makes it: the p-th to appear, with all its text, or all its name and arguments. */
  predicate IsItem(item: Item, events: seq<Canonical>, p: nat, id: nat, status: Status) {
    p < |Added(events)|
    && match Added(events)[p]
       case TextKey => item == MessageItem(id, status, TextOf(events))
       case CallKey(k) => item == CallItem(id, status, CallIdOf(events, k), FullName(events, k), ArgsOf(events, k))
  }

  predicate IsFinal(item: Item, events: seq<Canonical>, p: nat, id: nat) {
    IsItem(item, events, p, id, EndStatus(events))
  }

  /**
   In a completed run every item added is done exactly once, under its own index and identifier, with all its
   content.
   */
  lemma {:induction false} EachItemDoneOnce(events: seq<Canonical>, model: string, frames: seq<Frame>, i: nat)
    returns (d: nat)
    requires Translates(frames, events, model) && Completes(events) && i < |frames| && frames[i].ItemAdded?
    ensures i < d < |frames| && frames[d].ItemDone? && EndsWithDone(frames[..d + 1], frames[i].index, frames[d].item)
    ensures IsFinal(frames[d].item, events, frames[i].index, frames[i].item.id)
    ensures forall j :: 0 <= j < |frames| && frames[j].ItemDone? && frames[j].index == frames[i].index ==> j == d
  {
    hide GoodBody, Ending, Reasoned, Completes, Translates, Items, Added, EndsWithDone, EndStatus;
    hide Carries, Within, EndOrder, Sound, TextOf, ArgsOf;
    var n, body, order := PartsOf(events, model, frames);
    BodyFrames(body, i);
    ItemsGrow(body, i, |body|);
    assert body[..|body|] == body && frames[i] == body[i];
    var p := body[i].index;
    d := DoneOnceInAll(events, n, body, order, model, p);
    SameCount(body, events);
    DoneItem(frames[..d + 1], p, FinalItem(body, events, p, EndStatus(events)));
  }

  lemma DoneItem(frames: seq<Frame>, p: nat, item: Item)
    requires EndsWithDone(frames, p, item)
    ensures frames[|frames| - 1] == ItemDone(p, item)
  {
  }

  lemma SameCount(body: seq<Frame>, events: seq<Canonical>)
    requires Carries(body, events)
    ensures |Items(body)| == |Added(events)|
  {
  }

  /** The items done along the frames, and their indices. */
  function DoneItems(frames: seq<Frame>): seq<Item> {
    if frames == [] then []
    else
      var f := frames[|frames| - 1];
      DoneItems(frames[..|frames| - 1]) + if f.ItemDone? then [f.item] else []
  }

  function DoneIndices(frames: seq<Frame>): seq<nat> {
    if frames == [] then []
    else
      var f := frames[|frames| - 1];
      DoneIndices(frames[..|frames| - 1]) + if f.ItemDone? then [f.index] else []
  }

  lemma {:induction false} DoneAppend(a: seq<Frame>, b: seq<Frame>)
    ensures DoneItems(a + b) == DoneItems(a) + DoneItems(b)
    ensures DoneIndices(a + b) == DoneIndices(a) + DoneIndices(b)
    decreases |b|
  {
    if b == [] {
      assert a + b == a;
    } else {
      var n := |b| - 1;
      DoneAppend(a, b[..n]);
      assert (a + b)[..|a| + n] == a + b[..n] && (a + b)[|a| + n] == b[n];
      var item, index := if b[n].ItemDone? then [b[n].item] else [], if b[n].ItemDone? then [b[n].index] else [];
      Associate(DoneItems(a), DoneItems(b[..n]), item);
      Associate(DoneIndices(a), DoneIndices(b[..n]), index);
    }
  }

  lemma {:induction false} NoneDone(frames: seq<Frame>)
    requires forall i :: 0 <= i < |frames| ==> !frames[i].ItemDone?
    ensures DoneItems(frames) == [] && DoneIndices(frames) == []
  {
    if frames != [] {
      NoneDone(frames[..|frames| - 1]);
    }
  }

  lemma {:induction false} OneItemDone(p: nat, item: Item)
    ensures DoneItems(DoneFrames(p, item)) == [item] && DoneIndices(DoneFrames(p, item)) == [p]
  {
    var frames := DoneFrames(p, item);
    var front := frames[..|frames| - 1];
    NoneDone(front);
  }

  lemma {:induction false} AllDoneItems(body: seq<Frame>, events: seq<Canonical>, order: seq<nat>, status: Status)
    requires Within(order, body, events)
    ensures DoneItems(AllDone(body, events, order, status)) == Outputs(body, events, order, status)
    ensures DoneIndices(AllDone(body, events, order, status)) == order
  {
    hide FinalItem, Items, Added, DoneFrames, DoneItems, DoneIndices;
    if order == [] {
      NoneDone([]);
    } else {
      var front, p := order[..|order| - 1], order[|order| - 1];
      AllDoneItems(body, events, front, status);
      var item := FinalItem(body, events, p, status);
      OneItemDone(p, item);
      DoneAppend(AllDone(body, events, front, status), DoneFrames(p, item));
    }
  }

  /**
   The last frame of a completed run. Its output is exactly the items of the done frames, in their order: every
   item added once, the text first and then the calls by their index.
   */
  lemma {:induction false} CompletedFrame(events: seq<Canonical>, model: string, frames: seq<Frame>)
    requires Translates(frames, events, model) && Completes(events)
    ensures var last := frames[|frames| - 1];
            last.ResponseCompleted? && last.text == TextOf(events) && last.usage == LatestUsage(events)
            && last.model == LatestModel(events, model) && last.status == EndStatus(events)
            && last.output == DoneItems(frames) && EndOrder(DoneIndices(frames), Added(events))
  {
    hide GoodBody, Reasoned, Completes, Translates, Items, Added, EndStatus, Carries, Within, EndOrder, Sound, TextOf;
    hide LatestModel, LatestUsage, AllDone, Outputs, DoneItems, DoneIndices;
    var n, body, order := PartsOf(events, model, frames);
    var status := EndStatus(events);
    var all, last := AllDone(body, events, order, status), frames[|frames| - 1];
    assert frames == body + all + [last];
    AllDoneItems(body, events, order, status);
    NoneDone(body);
    NoneDone([last]);
    DoneAppend(body, all);
    DoneAppend(body + all, [last]);
    assert [] + Outputs(body, events, order, status) + [] == Outputs(body, events, order, status);
    assert [] + order + [] == order;
  }

  /** `output` holds every item added along the frames as far as it got, the text first and then the calls by index. */
  ghost predicate HoldsPartial(output: seq<Item>, frames: seq<Frame>, done: seq<Canonical>, order: seq<nat>) {
    EndOrder(order, Added(done)) && |output| == |order|
    && forall i {:trigger output[i]} :: 0 <= i < |output| ==> IsPartial(output[i], frames, done, order[i])
  }

  ghost predicate IsPartial(item: Item, frames: seq<Frame>, done: seq<Canonical>, p: nat) {
    IsItem(item, done, p, item.id, Cut) && AddedUnder(frames, p, item.id)
  }

  ghost predicate AddedUnder(frames: seq<Frame>, p: nat, id: nat) {
    exists j :: 0 <= j < |frames| && frames[j].ItemAdded? && frames[j].index == p && frames[j].item.id == id
  }

  /** `last` names what ended the run, and has the text, usage, model and items of the events before it, `done`. */
  ghost predicate ReportsFailure(last: Frame, frames: seq<Frame>, done: seq<Canonical>, next: Option<Canonical>,
                                 order: seq<nat>, model: string)
  {
    last.ResponseFailed? && Some(last.error) == Reasoned(done, next)
    && last.text == TextOf(done) && last.usage == LatestUsage(done) && last.model == LatestModel(done, model)
    && HoldsPartial(last.output, frames, done, order)
  }

  lemma {:induction false} OutputsAt(body: seq<Frame>, events: seq<Canonical>, order: seq<nat>, status: Status, i: nat)
    requires Within(order, body, events) && i < |order|
    ensures |Outputs(body, events, order, status)| == |order|
    ensures Outputs(body, events, order, status)[i] == FinalItem(body, events, order[i], status)
    decreases |order|
  {
    hide FinalItem, Items, Added;
    var n := |order| - 1;
    OutputsLength(body, events, order[..n], status);
    if i < n {
      OutputsAt(body, events, order[..n], status, i);
    }
  }

  lemma {:induction false} OutputsLength(body: seq<Frame>, events: seq<Canonical>, order: seq<nat>, status: Status)
    requires Within(order, body, events)
    ensures |Outputs(body, events, order, status)| == |order|
  {
    hide FinalItem, Items, Added;
    if order != [] {
      OutputsLength(body, events, order[..|order| - 1], status);
    }
  }

  /** A final item keeps the identifier it was added with. */
  lemma {:induction false} FinalIsItem(body: seq<Frame>, events: seq<Canonical>, p: nat, status: Status)
    requires Carries(body, events) && p < |Items(body)| == |Added(events)|
    ensures IsItem(FinalItem(body, events, p, status), events, p, Items(body)[p].id, status)
    ensures FinalItem(body, events, p, status).id == Items(body)[p].id
  {
    hide Items, Added, CallIdOf, FirstName, FullName, TextOf, ArgsOf;
    assert AddedAs(Items(body)[p], events, Added(events)[p]);
  }

  /**
   The last frame of a failed run: the first problem, or that there was no finish reason; and all that the events
   before it, `done`, have added, with the text and arguments it has got so far.
   */
  lemma {:induction false} FailedFrame(events: seq<Canonical>, model: string, frames: seq<Frame>)
    returns (n: nat, order: seq<nat>)
    requires Translates(frames, events, model) && frames != [] && frames[|frames| - 1].ResponseFailed?
    ensures n <= |events| && Sound(events[..n])
    ensures ReportsFailure(frames[|frames| - 1], frames, events[..n], NextOf(events, n), order, model)
  {
    hide GoodBody, Reasoned, Completes, Translates, Items, Added, Carries, EndOrder, Sound, TextOf, ProblemOf;
    hide LatestModel, LatestUsage, AllDone, Outputs, FinalItem, IsItem;
    var body;
    n, body, order := PartsOf(events, model, frames);
    var done, last := events[..n], frames[|frames| - 1];
    OutputsLength(body, done, order, Cut);
    forall i {:trigger last.output[i]} | 0 <= i < |last.output|
      ensures IsPartial(last.output[i], frames, done, order[i])
    {
      OutputsAt(body, done, order, Cut, i);
      SameCount(body, done);
      FinalIsItem(body, done, order[i], Cut);
      var j := AddingFrame(body, order[i]);
      assert frames[j] == body[j];
    }
  }

  /** A run completes exactly when nothing is wrong with any event and some event gives a finish reason. */
  lemma CompletesIff(events: seq<Canonical>, n: nat, body: seq<Frame>, order: seq<nat>, model: string)
    requires Ran(events, n, body, order, model)
    ensures Reasoned(events[..n], NextOf(events, n)).None?
       <==> Sound(events) && exists i :: 0 <= i < |events| && events[i].Completed?
    ensures Sound(events) <==> n == |events|
  {
    hide GoodBody, Carries, EndOrder, Within, ProblemOf, LatestReason;
    assert events[..|events|] == events;
    ReasonGiven(events);
    if Sound(events) && n < |events| {
      SoundAt(events, n);
    }
  }

  /** In a sound stream no event is a problem after the ones before it. */
  lemma {:induction false} SoundAt(events: seq<Canonical>, n: nat)
    requires Sound(events) && n < |events|
    ensures ProblemOf(events[..n], events[n]).None?
    decreases |events|
  {
    hide ProblemOf;
    var before := events[..|events| - 1];
    if n < |before| {
      SoundAt(before, n);
      assert before[..n] == events[..n];
    }
  }

  lemma {:induction false} ReasonGiven(events: seq<Canonical>)
    ensures LatestReason(events).Some? <==> exists i :: 0 <= i < |events| && events[i].Completed?
  {
    if events != [] {
      var before := events[..|events| - 1];
      ReasonGiven(before);
      assert forall i :: 0 <= i < |before| ==> before[i] == events[i];
    }
  }

  /** No call without a name is ever held, so the error for one is never raised. */
  lemma {:induction false} CallsHaveNames(events: seq<Canonical>, k: nat)
    requires Sound(events) && CallKey(k) in Added(events)
    ensures FullName(events, k) != "" && FirstName(events, k) <= FullName(events, k) && CallIdOf(events, k) != ""
  {
    var before := events[..|events| - 1];
    StartedIsAdded(before, k);
    if CallKey(k) in Added(before) {
      CallsHaveNames(before, k);
    }
  }

  /** From the Chat chunks on: the items of a completed run hold all their text, and each call all its arguments. */
  lemma {:induction false} ChatContentArrives(chat: seq<ChatEvent>, events: seq<Canonical>, item: Item, p: nat, id: nat)
    requires events == CanonicalOf(chat) && IsFinal(item, events, p, id)
    ensures match Added(events)[p]
            case TextKey => item.MessageItem? && item.text == AllText(chat)
            case CallKey(k) => item.CallItem? && item.arguments == Fragments(AllToolCalls(chat), k)
  {
    hide CanonicalOf, Added, AllText, AllToolCalls, Fragments, TextOf, ArgsOf;
    match Added(events)[p]
    case TextKey => ContentPassesThrough(chat, 0);
    case CallKey(k) => ContentPassesThrough(chat, k);
  }
}
