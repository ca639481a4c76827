/** How an Anthropic stream ends, told from the Chat chunks: its stop reason, its token count, or its error. */
module AnthropicEndings {
  import opened Wrappers
  import opened ChatEvents
  import opened AnthropicStream

  /** The finish reason that chunk `i` gives. */
  predicate FinishesWith(events: seq<ChatEvent>, i: nat, finish: FinishReason) {
    i < |events| && events[i].Data? && events[i].chunk.choices != []
    && events[i].chunk.choices[0].finish == Some(finish)
  }

  /** The token count reported last. */
  predicate Reports(events: seq<ChatEvent>, j: nat, tokens: nat) {
    j < |events| && events[j].Data? && events[j].chunk.usage.Some?
    && events[j].chunk.usage.value.completionTokens == tokens
    && forall k :: j < k < |events| ==> events[k].Failure? || events[k].chunk.usage.None?
  }

  lemma {:induction false} TokensAreReported(events: seq<ChatEvent>)
    ensures forall j: nat, tokens: nat :: Reports(events, j, tokens) ==> Tokens(events) == tokens
    ensures (forall j :: 0 <= j < |events| ==> events[j].Failure? || events[j].chunk.usage.None?) ==>
              Tokens(events) == 0
  {
    if events != [] {
      var n := |events| - 1;
      var front := events[..n];
      TokensAreReported(front);
      forall j: nat, tokens: nat | Reports(events, j, tokens) ensures Tokens(events) == tokens {
        if j < n {
          assert Reports(front, j, tokens);
        }
      }
    }
  }

  /** In a stream without a problem the finish reason taken is the one that some chunk gives. */
  lemma {:induction false} FinishIsTaken(events: seq<ChatEvent>, i: nat, finish: FinishReason)
    requires Take(events).problem.None? && FinishesWith(events, i, finish)
    ensures Take(events).finish == Some(finish)
    decreases |events|
  {
    hide Acceptable, OrEmpty;
    var n := |events| - 1;
    if i < n {
      FinishIsTaken(events[..n], i, finish);
    }
  }

  // ---------------------------------------------------------------- when a stream completes

  /** It has an id and a name, neither of them empty. */
  predicate IsNamed(d: ToolCallDelta) {
    match (d.id, d.function_)
    case (Some(id), Some(FunctionDelta(Some(name), _))) => id != "" && name != ""
    case _ => false
  }

  /** Every delta that is the first of its call is named. */
  ghost predicate OpensNamed(ds: seq<ToolCallDelta>) {
    forall p {:trigger ds[p]} :: 0 <= p < |ds| ==> IsNamed(ds[p]) || Repeats(ds, p)
  }

  predicate Repeats(ds: seq<ToolCallDelta>, p: nat)
    requires p < |ds|
  {
    exists q :: 0 <= q < p && ds[q].index == ds[p].index
  }

  lemma {:induction false} SeenIffBefore(ds: seq<ToolCallDelta>, k: nat)
    ensures k in FirstSeen(ds) <==> exists q :: 0 <= q < |ds| && ds[q].index == k
  {
    if ds != [] {
      var n := |ds| - 1;
      SeenIffBefore(ds[..n], k);
      assert forall q :: 0 <= q < n ==> ds[..n][q] == ds[q];
    }
  }

  lemma {:induction false} OpensNamedIff(ds: seq<ToolCallDelta>)
    ensures AllOpenNamed(ds) <==> OpensNamed(ds)
  {
    forall p {:trigger ds[p]} | 0 <= p < |ds|
      ensures ds[p].index in FirstSeen(ds[..p]) || Named(ds[p]) <==> IsNamed(ds[p]) || Repeats(ds, p)
    {
      SeenIffBefore(ds[..p], ds[p].index);
      assert forall q :: 0 <= q < p ==> ds[..p][q] == ds[q];
    }
  }

  /** All chunks, nothing said after a finish reason, every call opened by its id and name. */
  ghost predicate Flawless(events: seq<ChatEvent>) {
    (forall i :: 0 <= i < |events| ==> events[i].Data?)
    && (forall i: nat, j, finish {:trigger FinishesWith(events, i, finish), events[j]} ::
          FinishesWith(events, i, finish) && i < j < |events| ==> events[j].chunk.choices == [])
    && OpensNamed(AllToolCalls(events))
  }

  lemma {:induction false} FlawlessIffNoProblem(events: seq<ChatEvent>)
    ensures NoProblem(events) <==> Flawless(events)
  {
    hide AllOpenNamed, OpensNamed, AllToolCalls;
    OpensNamedIff(AllToolCalls(events));
    if Flawless(events) {
      forall i, j | 0 <= i < j < |events| && Finishes(events[i]) ensures Quiet(events[j]) {
        assert FinishesWith(events, i, events[i].chunk.choices[0].finish.value);
      }
    }
    if NoProblem(events) {
      forall i: nat, j, finish {:trigger FinishesWith(events, i, finish), events[j]}
        | FinishesWith(events, i, finish) && i < j < |events|
        ensures events[j].chunk.choices == []
      {
        assert Finishes(events[i]) && Quiet(events[j]);
      }
    }
  }

  /** A run completes exactly when its chunks are flawless and one of them gives a finish reason. */
  lemma {:induction false} CompletesExactly(events: seq<ChatEvent>)
    ensures Completes(events) <==> Flawless(events) && exists i: nat, finish :: FinishesWith(events, i, finish)
  {
    hide Completes, NoProblem, Flawless;
    CompletesIff(events);
    FlawlessIffNoProblem(events);
    if HasFinish(events) {
      var i :| 0 <= i < |events| && Finishes(events[i]);
      assert FinishesWith(events, i, events[i].chunk.choices[0].finish.value);
    }
    if i: nat, finish :| FinishesWith(events, i, finish) {
      assert Finishes(events[i]);
    }
  }

  // ---------------------------------------------------------------- how it ends

  /** A completed run ends with its stop reason, the token count reported last, and the message stop. */
  lemma {:induction false} EndOfCompleted(events: seq<ChatEvent>, model: string, frames: seq<Frame>, i: nat,
                                          finish: FinishReason)
    requires Translates(frames, events, model) && Completes(events) && FinishesWith(events, i, finish)
    ensures |frames| >= 2 && frames[|frames| - 1] == MessageStop && frames[|frames| - 2].MessageDelta?
    ensures var last := frames[|frames| - 2];
            last.stopReason
            == (if finish == Length then "max_tokens" else if finish == ToolCalls then "tool_use" else "end_turn")
            && (forall j: nat, tokens: nat :: Reports(events, j, tokens) ==> last.outputTokens == tokens)
            && ((forall j :: 0 <= j < |events| ==> events[j].Failure? || events[j].chunk.usage.None?) ==>
                  last.outputTokens == 0)
  {
    hide Translates, Sent, GoodBody, Opened, Take, Tokens, FinishesWith, Reports;
    var body := BodyOf(events, model, frames);
    FinishIsTaken(events, i, finish);
    TokensAreReported(events);
    EndingFrames(events, Opened(body));
  }

  /** What is wrong with event `i`, after flawless ones, and the error that says so. */
  ghost predicate ProblemIs(events: seq<ChatEvent>, i: nat, kind: string, message: string)
    requires i < |events|
  {
    match events[i]
    case Failure(ErrorObject(k, m)) =>
      kind == (match k case Some(k') => k' case None => "api_error")
      && message == (match m case Some(m') => m' case None => "Upstream provider error")
    case Failure(ErrorValue(text)) => kind == "api_error" && message == text
    case Data(chunk) =>
      kind == "invalid_upstream_stream"
      && message == if exists j: nat, finish :: FinishesWith(events[..i], j, finish)
                    then "Provider emitted content after a terminal finish reason"
                    else "Initial tool-call chunk is missing id or function name"
  }

  lemma {:induction false} ProblemStays(events: seq<ChatEvent>, i: nat)
    requires i <= |events| && Take(events[..i]).problem.Some?
    ensures Take(events).problem == Take(events[..i]).problem
    decreases |events|
  {
    hide TakeOne;
    if i < |events| {
      assert events[..|events| - 1][..i] == events[..i];
      ProblemStays(events[..|events| - 1], i);
    } else {
      assert events[..i] == events;
    }
  }

  lemma {:induction false} ProblemOfOne(events: seq<ChatEvent>, i: nat)
    requires i < |events| && Flawless(events[..i]) && !Flawless(events[..i + 1])
    ensures var problem := Take(events).problem;
            problem.Some? && problem.value.ErrorFrame?
            && ProblemIs(events, i, problem.value.kind, problem.value.message)
  {
    hide Flawless, Acceptable, NoProblem, FinishesWith;
    var before := events[..i];
    FlawlessIffNoProblem(before);
    FlawlessIffNoProblem(events[..i + 1]);
    TakesAll(before);
    TakesAll(events[..i + 1]);
    assert events[..i + 1][..i] == before;
    FinishTaken(before);
    ProblemStays(events, i + 1);
  }

  lemma {:induction false} FinishTaken(events: seq<ChatEvent>)
    requires NoProblem(events)
    ensures Take(events).finish.Some? <==> exists i: nat, finish :: FinishesWith(events, i, finish)
  {
    hide NoProblem, Take;
    TakesAll(events);
    if HasFinish(events) {
      var i :| 0 <= i < |events| && Finishes(events[i]);
      assert FinishesWith(events, i, events[i].chunk.choices[0].finish.value);
    }
    if i: nat, finish :| FinishesWith(events, i, finish) {
      assert Finishes(events[i]);
    }
  }

  /** The first flaw ends the run with the error that says what it is, */
  lemma {:induction false} EndOfFlawed(events: seq<ChatEvent>, model: string, frames: seq<Frame>, i: nat)
    requires Translates(frames, events, model)
    requires i < |events| && Flawless(events[..i]) && !Flawless(events[..i + 1])
    ensures frames != [] && frames[|frames| - 1].ErrorFrame?
    ensures ProblemIs(events, i, frames[|frames| - 1].kind, frames[|frames| - 1].message)
  {
    hide Translates, Sent, GoodBody, Opened, Take, Flawless, ProblemIs;
    var body := BodyOf(events, model, frames);
    ProblemOfOne(events, i);
  }

  /** and so does a flawless stream that gives no finish reason. */
  lemma {:induction false} EndOfUnfinished(events: seq<ChatEvent>, model: string, frames: seq<Frame>)
    requires Translates(frames, events, model) && Flawless(events)
    requires !exists i: nat, finish :: FinishesWith(events, i, finish)
    ensures frames != []
    ensures frames[|frames| - 1]
         == ErrorFrame("incomplete_upstream_stream", "Provider stream ended without a terminal finish reason")
  {
    hide Translates, Sent, GoodBody, Opened, Take, Flawless;
    var body := BodyOf(events, model, frames);
    FlawlessIffNoProblem(events);
    TakesAll(events);
    FinishTaken(events);
  }

  /** The run begins with the first chunk's id and the model asked for, and opens the text block. */
  lemma {:induction false} BeginningOf(events: seq<ChatEvent>, model: string, frames: seq<Frame>)
    requires Translates(frames, events, model) && events != [] && events[0].Data?
    ensures |frames| >= 2 && frames[0] == MessageStart(events[0].chunk.id, model)
    ensures frames[1] == BlockStart(0, TextKind)
  {
    hide Translates, Carries, Take, Ending;
    var body := BodyOf(events, model, frames);
    SecondOpens(body);
  }

  lemma {:induction false} SecondOpens(body: seq<Frame>)
    requires GoodBody(body) && Opened(body) > 0
    ensures |body| >= 2 && body[1] == BlockStart(0, TextKind)
  {
    BodyFrames(body, 0);
    assert body[..|body|] == body && body[..0] == [] && body[..1] == [body[0]] && [body[0]][..0] == [];
    assert Opened([body[0]]) == 0;
    if |body| > 1 {
      BodyFrames(body, 1);
    }
  }
}
