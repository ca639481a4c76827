/** How a Responses stream ends, told from the canonical events: its status, usage and model, or its error. */
module ResponsesEndings {
  import opened Wrappers
  import opened ChatEvents
  import opened CanonicalEvents
  import opened ResponsesStream

  // ---------------------------------------------------------------- what has been said last

  /** Event `i` is the last that gives a reason to end. */
  predicate LastReason(events: seq<Canonical>, i: nat) {
    i < |events| && events[i].Completed? && forall j :: i < j < |events| ==> !events[j].Completed?
  }

  /** Event `i` is the last that reports tokens. */
  predicate LastUsage(events: seq<Canonical>, i: nat) {
    i < |events| && events[i].UsageUpdated? && forall j :: i < j < |events| ==> !events[j].UsageUpdated?
  }

  predicate NamesModel(e: Canonical) {
    e.Started? && e.model.Some?
  }

  /** Event `i` is the last that names a model. */
  predicate LastModel(events: seq<Canonical>, i: nat) {
    i < |events| && NamesModel(events[i]) && forall j :: i < j < |events| ==> !NamesModel(events[j])
  }

  lemma {:induction false} ReasonIsLatest(events: seq<Canonical>, i: nat)
    requires LastReason(events, i)
    ensures LatestReason(events) == Some(events[i].reason)
    decreases |events|
  {
    var n := |events| - 1;
    if i < n {
      ReasonIsLatest(events[..n], i);
    }
  }

  lemma {:induction false} UsageIsLatest(events: seq<Canonical>)
    ensures (forall j :: 0 <= j < |events| ==> !events[j].UsageUpdated?) ==> LatestUsage(events) == Usage(0, 0, 0)
    ensures forall i: nat :: LastUsage(events, i) ==>
              LatestUsage(events)
              == Usage(CountOf(events[i].input), CountOf(events[i].output), CountOf(events[i].total))
  {
    if events != [] {
      var n := |events| - 1;
      UsageIsLatest(events[..n]);
      forall i: nat | LastUsage(events, i)
        ensures LatestUsage(events)
             == Usage(CountOf(events[i].input), CountOf(events[i].output), CountOf(events[i].total))
      {
        if i < n {
          assert LastUsage(events[..n], i) && events[..n][i] == events[i];
        }
      }
    }
  }

  function CountOf(tokens: Option<nat>): nat {
    match tokens
    case Some(n) => n
    case None => 0
  }

  lemma {:induction false} ModelIsLatest(events: seq<Canonical>, model: string)
    ensures (forall j :: 0 <= j < |events| ==> !NamesModel(events[j])) ==> LatestModel(events, model) == model
    ensures forall i: nat :: LastModel(events, i) ==> LatestModel(events, model) == events[i].model.value
  {
    if events != [] {
      var n := |events| - 1;
      ModelIsLatest(events[..n], model);
      forall i: nat | LastModel(events, i) ensures LatestModel(events, model) == events[i].model.value {
        if i < n {
          assert LastModel(events[..n], i) && events[..n][i] == events[i];
        }
      }
    }
  }

  /**
   A completed run ends with the usage and the model reported last, and it is cut exactly when the last reason given
   is the token limit.
   */
  lemma {:induction false} EndOfCompleted(events: seq<Canonical>, model: string, frames: seq<Frame>, i: nat)
    requires Translates(frames, events, model) && Completes(events) && LastReason(events, i)
    ensures frames != [] && frames[|frames| - 1].ResponseCompleted?
    ensures var last := frames[|frames| - 1];
            last.status == (if events[i].reason == MaxTokens then Cut else Whole)
            && (forall j: nat :: LastUsage(events, j) ==>
                  last.usage == Usage(CountOf(events[j].input), CountOf(events[j].output), CountOf(events[j].total)))
            && ((forall j :: 0 <= j < |events| ==> !events[j].UsageUpdated?) ==> last.usage == Usage(0, 0, 0))
            && (forall j: nat :: LastModel(events, j) ==> last.model == events[j].model.value)
            && ((forall j :: 0 <= j < |events| ==> !NamesModel(events[j])) ==> last.model == model)
  {
    hide Translates, Completes, LatestUsage, LatestModel, LatestReason, DoneItems, DoneIndices, EndOrder, Added;
    hide LastUsage, LastModel, NamesModel;
    OneTerminalLast(events, model, frames);
    CompletedFrame(events, model, frames);
    ReasonIsLatest(events, i);
    UsageIsLatest(events);
    ModelIsLatest(events, model);
  }

  // ---------------------------------------------------------------- what is wrong

  /** A call has been started with this index. */
  predicate Begun(before: seq<Canonical>, k: nat) {
    exists j :: 0 <= j < |before| && before[j].ToolStarted? && before[j].index == k
  }

  /** The id that call `k` was first started with. */
  predicate BegunWith(before: seq<Canonical>, k: nat, callId: string) {
    exists j :: 0 <= j < |before| && before[j].ToolStarted? && before[j].index == k && before[j].callId == callId
                && forall i :: 0 <= i < j ==> !(before[i].ToolStarted? && before[i].index == k)
  }

  /** The event is wrong after those before it, and this error says so. */
  ghost predicate Wrong(before: seq<Canonical>, e: Canonical, error: Error) {
    match e
    case Failed(kind, message) => error == Error(kind, message)
    case ToolArgs(k, _) =>
      !Begun(before, k) && error == Error("invalid_upstream_stream", "Initial tool-call chunk is missing call id")
    case ToolStarted(k, "", name) =>
      !Begun(before, k) && error == Error("invalid_upstream_stream", "Initial tool-call chunk is missing call id")
    case ToolStarted(k, callId, name) =>
      if !Begun(before, k) then
        name == "" && error == Error("invalid_upstream_stream", "Initial tool-call chunk is missing function name")
      else
        !BegunWith(before, k, callId)
        && error == Error("invalid_upstream_stream", "Tool-call identity changed during streaming")
    case _ => false
  }

  lemma {:induction false} FirstStartAt(before: seq<Canonical>, k: nat) returns (j: nat)
    requires Begun(before, k)
    ensures j < |before| && before[j].ToolStarted? && before[j].index == k && FirstStart(before, k) == Some(before[j])
    ensures forall i :: 0 <= i < j ==> !(before[i].ToolStarted? && before[i].index == k)
  {
    var n := |before| - 1;
    if Begun(before[..n], k) {
      j := FirstStartAt(before[..n], k);
      assert forall i :: 0 <= i <= j ==> before[..n][i] == before[i];
    } else {
      j := n;
      assert forall i :: 0 <= i < n ==> before[..n][i] == before[i];
      NoStart(before[..n], k);
    }
  }

  lemma {:induction false} NoStart(before: seq<Canonical>, k: nat)
    requires !Begun(before, k)
    ensures FirstStart(before, k) == None && CallKey(k) !in Added(before)
  {
    if before != [] {
      var n := |before| - 1;
      assert forall i :: 0 <= i < n ==> before[..n][i] == before[i];
      NoStart(before[..n], k);
    }
  }

  lemma {:induction false} AddedIffBegun(before: seq<Canonical>, k: nat)
    ensures CallKey(k) in Added(before) <==> Begun(before, k)
    ensures Begun(before, k) ==> forall callId :: BegunWith(before, k, callId) <==> CallIdOf(before, k) == callId
  {
    hide FirstStart, Added;
    StartedIsAdded(before, k);
    if Begun(before, k) {
      var j := FirstStartAt(before, k);
    } else {
      NoStart(before, k);
    }
  }

  lemma {:induction false} ProblemIffWrong(before: seq<Canonical>, e: Canonical, error: Error)
    ensures ProblemOf(before, e) == Some(error) <==> Wrong(before, e, error)
  {
    hide Added, CallIdOf, Begun, BegunWith;
    match e
    case ToolStarted(k, _, _) => AddedIffBegun(before, k);
    case ToolArgs(k, _) => AddedIffBegun(before, k);
    case _ =>
  }

  /** Nothing is wrong with any of the events after those before it. */
  ghost predicate NothingWrong(events: seq<Canonical>) {
    forall n, error :: 0 <= n < |events| ==> !Wrong(events[..n], events[n], error)
  }

  lemma {:induction false} NothingWrongIffSound(events: seq<Canonical>)
    ensures NothingWrong(events) <==> Sound(events)
  {
    hide ProblemOf, Wrong;
    if Sound(events) {
      forall n, error | 0 <= n < |events| ensures !Wrong(events[..n], events[n], error) {
        SoundAt(events, n);
        ProblemIffWrong(events[..n], events[n], error);
      }
    }
    if NothingWrong(events) {
      SoundIfNothingWrong(events);
    }
  }

  lemma {:induction false} SoundIfNothingWrong(events: seq<Canonical>)
    requires NothingWrong(events)
    ensures Sound(events)
  {
    hide ProblemOf, Wrong;
    if events != [] {
      var m := |events| - 1;
      forall n, error | 0 <= n < m ensures !Wrong(events[..m][..n], events[..m][n], error) {
        assert events[..m][..n] == events[..n] && events[..m][n] == events[n];
      }
      SoundIfNothingWrong(events[..m]);
      var problem := ProblemOf(events[..m], events[m]);
      if problem.Some? {
        ProblemIffWrong(events[..m], events[m], problem.value);
      }
    }
  }

  /** The first event that is wrong ends the run with its error; */
  lemma {:induction false} EndOfWrong(events: seq<Canonical>, model: string, frames: seq<Frame>, n: nat, error: Error)
    requires Translates(frames, events, model)
    requires n < |events| && NothingWrong(events[..n]) && Wrong(events[..n], events[n], error)
    ensures frames != [] && frames[|frames| - 1].ResponseFailed? && frames[|frames| - 1].error == error
  {
    hide Translates, Completes, Carries, GoodBody, EndOrder, Within, Sound, ProblemOf, NothingWrong, Wrong;
    hide Items, Added, Outputs, LatestModel, LatestUsage, TextOf, Closing, Terminal;
    var m, body, order := PartsOf(events, model, frames);
    NothingWrongIffSound(events[..n]);
    ProblemIffWrong(events[..n], events[n], error);
    if m < n { SoundBefore(events, m, n); }
    if n < m { SoundBefore(events, n, m); }
  }

  lemma SoundBefore(events: seq<Canonical>, m: nat, n: nat)
    requires m < n <= |events| && Sound(events[..n])
    ensures ProblemOf(events[..m], events[m]).None?
  {
    hide Sound, ProblemOf;
    SoundAt(events[..n], m);
    assert events[..n][..m] == events[..m] && events[..n][m] == events[m];
  }

  /** with nothing wrong the run fails exactly when no reason to end is given. */
  lemma {:induction false} EndOfRight(events: seq<Canonical>, model: string, frames: seq<Frame>)
    requires Translates(frames, events, model) && NothingWrong(events)
    ensures frames != []
    ensures (exists i :: 0 <= i < |events| && events[i].Completed?) ==> frames[|frames| - 1].ResponseCompleted?
    ensures (forall i :: 0 <= i < |events| ==> !events[i].Completed?) ==>
              frames[|frames| - 1].ResponseFailed?
              && frames[|frames| - 1].error
                 == Error("incomplete_upstream_stream", "Provider stream ended without a terminal finish reason")
  {
    hide Translates, Carries, GoodBody, EndOrder, Within, ProblemOf, NothingWrong, Wrong, Items, Added, Sound;
    hide Outputs, LatestModel, LatestUsage, TextOf, Closing, Terminal, LatestReason;
    var m, body, order := PartsOf(events, model, frames);
    OneTerminalLast(events, model, frames);
    NothingWrongIffSound(events);
    ReasonGiven(events);
    if m < |events| {
      SoundAt(events, m);
    }
    assert events[..|events|] == events;
  }
}
