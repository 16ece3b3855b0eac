/** The batch create of customer issues (internal/mobileapi/server.go): workers take line
    indices from an unbuffered channel, call the service, and write into a shared slice;
    the handler waits for them and splits the slice into created and failed lines.
    A run is any interleaving of the steps below. */
module WorkerPool {
  import Runs
  import opened Text

  const MAX_WORKERS: nat := 4

  /** What the service answers for a line; a record is opaque here. */
  datatype Outcome = Created(record: string) | InsufficientStock | OtherError
  datatype LineResult = LineResult(lineIndex: nat, error: string, errorCode: string, record: Option<string>)

  /** The element of a slice that nothing was written to. */
  const BLANK := LineResult(0, "", "", None)

  function ResultOf(index: nat, outcome: Outcome): LineResult {
    match outcome
    case Created(record) => LineResult(index, "", "", Some(record))
    case InsufficientStock => LineResult(index, "insufficient stock", "insufficient_stock", None)
    case OtherError => LineResult(index, "werka customer issue create failed", "", None)
  }

  datatype Worker = Idle | Busy(index: nat) | Exited

  /** A call that came back. */
  datatype Call = Call(index: nat, outcome: Outcome)

  /** `next` is the index the handler offers on the channel; `calls` is the history of
      the calls that came back. */
  datatype State = State(next: nat, closed: bool, returned: bool, workers: seq<Worker>, results: seq<LineResult>, calls: seq<Call>)

  datatype Step =
    | HandOff(worker: nat)
    | Finish(worker: nat, outcome: Outcome)
    | Close
    | Exit(worker: nat)
    | Return

  function Lines(s: State): nat { |s.results| }

  predicate Enabled(s: State, step: Step) {
    match step
    case HandOff(w) => s.next < Lines(s) && w < |s.workers| && s.workers[w].Idle?
    case Finish(w, _) => w < |s.workers| && s.workers[w].Busy? && s.workers[w].index < Lines(s)
    case Close => s.next >= Lines(s) && !s.closed
    case Exit(w) => s.closed && w < |s.workers| && s.workers[w].Idle?
    case Return => s.closed && !s.returned && forall w :: 0 <= w < |s.workers| ==> s.workers[w].Exited?
  }

  function Do(s: State, step: Step): State
    requires Enabled(s, step)
  {
    match step
    case HandOff(w) => s.(next := s.next + 1, workers := s.workers[w := Busy(s.next)])
    case Finish(w, outcome) =>
      var i := s.workers[w].index;
      s.(workers := s.workers[w := Idle], results := s.results[i := ResultOf(i, outcome)], calls := s.calls + [Call(i, outcome)])
    case Close => s.(closed := true)
    case Exit(w) => s.(workers := s.workers[w := Exited])
    case Return => s.(returned := true)
  }

  function Workers(lines: nat): nat {
    if lines > MAX_WORKERS then MAX_WORKERS else lines
  }

  function Start(lines: nat): State {
    State(0, false, false, seq(Workers(lines), _ => Idle), seq(lines, _ => BLANK), [])
  }

  function Take(s: State, step: Step): Option<State> {
    if Enabled(s, step) then Some(Do(s, step)) else None
  }

  /** The state a run ends in, None if some step could not happen. */
  function After(lines: nat, steps: seq<Step>): Option<State> {
    Runs.After(Take, Start(lines), steps)
  }

  // ----- what every step keeps -----

  predicate Logged(calls: seq<Call>, i: nat) {
    exists a :: 0 <= a < |calls| && calls[a].index == i
  }

  ghost predicate OneWorkerPerIndex(s: State) {
    && (forall w :: 0 <= w < |s.workers| && s.workers[w].Busy? ==> s.workers[w].index < s.next && !Logged(s.calls, s.workers[w].index))
    && (forall v, w :: 0 <= v < w < |s.workers| && s.workers[v].Busy? ==> s.workers[v] != s.workers[w])
  }

  ghost predicate NoIndexLost(s: State) {
    forall i: nat :: i < s.next ==> Logged(s.calls, i) || Busy(i) in s.workers
  }

  ghost predicate CalledOnce(s: State) {
    && (forall a :: 0 <= a < |s.calls| ==> s.calls[a].index < s.next)
    && (forall a, b :: 0 <= a < b < |s.calls| ==> s.calls[a].index != s.calls[b].index)
  }

  ghost predicate ResultsWritten(s: State) {
    forall a :: 0 <= a < |s.calls| ==>
      s.calls[a].index < Lines(s) && s.results[s.calls[a].index] == ResultOf(s.calls[a].index, s.calls[a].outcome)
  }

  ghost predicate Orderly(s: State) {
    && s.next <= Lines(s)
    && (s.closed ==> s.next == Lines(s))
    && (forall w :: 0 <= w < |s.workers| && s.workers[w].Exited? ==> s.closed)
    && (s.returned ==> s.closed && forall w :: 0 <= w < |s.workers| ==> s.workers[w].Exited?)
  }

  ghost predicate Inv(s: State) {
    Orderly(s) && OneWorkerPerIndex(s) && NoIndexLost(s) && CalledOnce(s) && ResultsWritten(s)
  }

  lemma StartInv(lines: nat)
    ensures Inv(Start(lines))
  {
  }

  lemma LoggedSnoc(calls: seq<Call>, c: Call, i: nat)
    ensures Logged(calls + [c], i) <==> Logged(calls, i) || c.index == i
  {
    if Logged(calls, i) {
      var a :| 0 <= a < |calls| && calls[a].index == i;
      assert (calls + [c])[a].index == i;
    }
    if c.index == i { assert (calls + [c])[|calls|].index == i; }
  }

  lemma HandOffKeepsInv(s: State, step: Step)
    requires Inv(s) && step.HandOff? && Enabled(s, step)
    ensures Inv(Do(s, step))
  {
    var t := Do(s, step);
    hide Logged;
    forall a | 0 <= a < |s.calls| ensures s.calls[a].index != s.next {
    }
    NotLogged(s.calls, s.next);
    assert NoIndexLost(t) by {
      assert t.workers[step.worker] == Busy(s.next);
      forall i: nat | i < s.next && !Logged(s.calls, i) ensures Busy(i) in t.workers {
        var w :| 0 <= w < |s.workers| && s.workers[w] == Busy(i);
        assert t.workers[w] == Busy(i);
      }
    }
  }

  lemma NotLogged(calls: seq<Call>, i: nat)
    requires forall a :: 0 <= a < |calls| ==> calls[a].index != i
    ensures !Logged(calls, i)
  {
  }

  lemma FinishKeepsInv(s: State, step: Step)
    requires Inv(s) && step.Finish? && Enabled(s, step)
    ensures Inv(Do(s, step))
  {
    var t := Do(s, step);
    var i := s.workers[step.worker].index;
    FinishKeepsHistory(s, t, Call(i, step.outcome));
    hide Logged, CalledOnce, ResultsWritten, ResultOf;
    forall j: nat ensures Logged(t.calls, j) <==> Logged(s.calls, j) || j == i {
      LoggedSnoc(s.calls, Call(i, step.outcome), j);
    }
    assert NoIndexLost(t) by {
      forall j: nat | j < s.next && !Logged(s.calls, j) && j != i ensures Busy(j) in t.workers {
        var w :| 0 <= w < |s.workers| && s.workers[w] == Busy(j);
        assert t.workers[w] == Busy(j);
      }
    }
  }

  lemma FinishKeepsHistory(s: State, t: State, call: Call)
    requires CalledOnce(s) && ResultsWritten(s)
    requires call.index < s.next == t.next && call.index < Lines(s) && !Logged(s.calls, call.index)
    requires t.calls == s.calls + [call] && t.results == s.results[call.index := ResultOf(call.index, call.outcome)]
    ensures CalledOnce(t) && ResultsWritten(t)
  {
    hide ResultOf;
    forall a | 0 <= a < |s.calls| ensures s.calls[a].index != call.index {
      hide CalledOnce, ResultsWritten;
    }
  }

  lemma OtherStepsKeepInv(s: State, step: Step)
    requires Inv(s) && !step.HandOff? && !step.Finish? && Enabled(s, step)
    ensures Inv(Do(s, step))
  {
    var t := Do(s, step);
    hide Logged, CalledOnce, ResultsWritten, ResultOf;
    assert t.calls == s.calls && t.results == s.results && t.next == s.next;
    assert CalledOnce(t) && ResultsWritten(t) by { SameHistory(s, t); }
    assert NoIndexLost(t) by {
      forall j: nat | j < s.next && !Logged(s.calls, j) ensures Busy(j) in t.workers {
        var w :| 0 <= w < |s.workers| && s.workers[w] == Busy(j);
        assert t.workers[w] == Busy(j);
      }
    }
  }

  lemma SameHistory(s: State, t: State)
    requires s.calls == t.calls && s.results == t.results && s.next == t.next
    requires CalledOnce(s) && ResultsWritten(s)
    ensures CalledOnce(t) && ResultsWritten(t)
  {
  }

  /** The steps still to come, whatever the schedule. */
  function Rank(s: State): int {
    2 * (Lines(s) - s.next) + Load(s.workers) + (if s.closed then 0 else 1) + (if s.returned then 0 else 1)
  }

  function Load(workers: seq<Worker>): nat {
    if |workers| == 0 then 0
    else (match workers[0] case Idle => 1 case Busy(_) => 2 case Exited => 0) + Load(workers[1..])
  }

  lemma {:induction false} LoadUpdate(workers: seq<Worker>, w: nat, to: Worker)
    requires w < |workers|
    ensures Load(workers[w := to]) == Load(workers) - Load([workers[w]]) + Load([to])
  {
    if w == 0 {
      assert workers[w := to][1..] == workers[1..];
    } else {
      LoadUpdate(workers[1..], w - 1, to);
      assert workers[w := to][1..] == workers[1..][w - 1 := to];
    }
  }

  lemma EveryStepCounts(s: State, step: Step)
    requires Enabled(s, step)
    ensures Rank(Do(s, step)) == Rank(s) - 1
  {
    hide ResultOf;
    match step
    case HandOff(w) => LoadUpdate(s.workers, w, Busy(s.next));
    case Finish(w, _) => LoadUpdate(s.workers, w, Idle);
    case Close =>
    case Exit(w) => LoadUpdate(s.workers, w, Exited);
    case Return =>
  }

  lemma {:induction false} LoadOfIdle(workers: seq<Worker>)
    requires forall w :: 0 <= w < |workers| ==> workers[w] == Idle
    ensures Load(workers) == |workers|
  {
    if |workers| > 0 { LoadOfIdle(workers[1..]); }
  }

  lemma {:induction false} LoadOfExited(workers: seq<Worker>)
    requires forall w :: 0 <= w < |workers| ==> workers[w].Exited?
    ensures Load(workers) == 0
  {
    if |workers| > 0 { LoadOfExited(workers[1..]); }
  }

  // ----- runs -----

  lemma {:induction false} RunInv(lines: nat, steps: seq<Step>)
    requires After(lines, steps).Some?
    ensures var s := After(lines, steps).value;
      Inv(s) && Lines(s) == lines && |s.workers| == Workers(lines) && Rank(s) + |steps| == 2 * lines + Workers(lines) + 2
  {
    hide Inv, Rank, ResultOf;
    if |steps| == 0 {
      StartInv(lines);
      StartRank(lines);
    } else {
      var before := steps[..|steps| - 1];
      var step := steps[|steps| - 1];
      RunInv(lines, before);
      var s := After(lines, before).value;
      EveryStepCounts(s, step);
      match step
      case HandOff(_) => HandOffKeepsInv(s, step);
      case Finish(_, _) => FinishKeepsInv(s, step);
      case Close => OtherStepsKeepInv(s, step);
      case Exit(_) => OtherStepsKeepInv(s, step);
      case Return => OtherStepsKeepInv(s, step);
    }
  }

  lemma StartRank(lines: nat)
    ensures Rank(Start(lines)) == 2 * lines + Workers(lines) + 2
  {
    LoadOfIdle(Start(lines).workers);
  }

  /** In any interleaving at any moment, no index is in two hands or called twice. */
  lemma {:induction false} NeverTwice(lines: nat, steps: seq<Step>)
    requires After(lines, steps).Some?
    ensures var s := After(lines, steps).value;
      OneWorkerPerIndex(s) && CalledOnce(s) && ResultsWritten(s)
  {
    RunInv(lines, steps);
  }

  /** When the wait is over every line was called exactly once and its result is the one
      that call left. */
  lemma WaitMeansDone(lines: nat, steps: seq<Step>)
    requires After(lines, steps).Some? && After(lines, steps).value.returned
    requires lines > 0
    ensures var s := After(lines, steps).value;
      && |s.results| == lines
      && (forall i: nat :: i < lines ==> Logged(s.calls, i))
      && (forall a, b :: 0 <= a < b < |s.calls| ==> s.calls[a].index != s.calls[b].index)
      && (forall a :: 0 <= a < |s.calls| ==>
            s.calls[a].index < lines && s.results[s.calls[a].index] == ResultOf(s.calls[a].index, s.calls[a].outcome))
  {
    hide After, ResultOf, Logged;
    RunInv(lines, steps);
  }

  /** As long as the handler has not returned some step can happen. */
  lemma NoDeadlock(lines: nat, steps: seq<Step>) returns (step: Step)
    requires After(lines, steps).Some? && !After(lines, steps).value.returned
    requires lines > 0
    ensures Enabled(After(lines, steps).value, step)
  {
    hide After, ResultOf, Logged;
    RunInv(lines, steps);
    var s := After(lines, steps).value;
    if w: nat :| w < |s.workers| && s.workers[w].Busy? {
      step := Finish(w, OtherError);
    } else if w: nat :| w < |s.workers| && s.workers[w].Idle? {
      step := if s.next < Lines(s) then HandOff(w) else if !s.closed then Close else Exit(w);
    } else {
      assert s.workers[0].Exited?;
      step := Return;
    }
  }

  /** There is a worker for each line, four at most. No run is longer than two steps per
      line, one per worker and two of the handler, and every run that returned has exactly
      that length. */
  lemma RunsAreBounded(lines: nat, steps: seq<Step>)
    requires After(lines, steps).Some?
    ensures |After(lines, steps).value.workers| == if lines < 4 then lines else 4
    ensures |steps| <= 2 * lines + (if lines < 4 then lines else 4) + 2
    ensures After(lines, steps).value.returned ==> |steps| == 2 * lines + (if lines < 4 then lines else 4) + 2
  {
    hide After, ResultOf, Logged;
    RunInv(lines, steps);
    var s := After(lines, steps).value;
    if s.returned { LoadOfExited(s.workers); }
  }

  // ----- the handler -----

  /** The created lines, or the failed ones, in slice order. */
  function Select(results: seq<LineResult>, created: bool): seq<LineResult> {
    if |results| == 0 then []
    else
      var last := results[|results| - 1];
      Select(results[..|results| - 1], created) + if last.record.Some? == created then [last] else []
  }

  predicate Increasing(lines: seq<LineResult>) {
    forall i, j :: 0 <= i < j < |lines| ==> lines[i].lineIndex < lines[j].lineIndex
  }

  /** Each line is in exactly one of the two lists, both in increasing order. */
  lemma {:induction false} SelectPartitions(results: seq<LineResult>, created: bool)
    requires forall i :: 0 <= i < |results| ==> results[i].lineIndex == i
    ensures Increasing(Select(results, created))
    ensures forall r :: r in Select(results, created) <==> r in results && r.record.Some? == created
    ensures forall r :: r in Select(results, created) ==> r.lineIndex < |results| && results[r.lineIndex] == r
  {
    if |results| > 0 {
      var before := results[..|results| - 1];
      var last := results[|results| - 1];
      SelectPartitions(before, created);
      assert results == before + [last];
      var selected := Select(before, created);
      forall i | 0 <= i < |selected| ensures selected[i].lineIndex < last.lineIndex {
        assert selected[i] in selected;
      }
    }
  }

  function CreatedLine(index: nat, record: string): LineResult { LineResult(index, "", "", Some(record)) }

  function ShortLine(index: nat): LineResult { LineResult(index, "insufficient stock", "insufficient_stock", None) }

  function FailedLine(index: nat): LineResult { LineResult(index, "werka customer issue create failed", "", None) }

  /** How the two lists report one call: a created line carries the record the call returned
      and no error, a failed one the error of its kind and no record. */
  ghost predicate Reports(created: seq<LineResult>, failed: seq<LineResult>, call: Call) {
    && (forall record :: CreatedLine(call.index, record) in created <==> call.outcome == Created(record))
    && (ShortLine(call.index) in failed <==> call.outcome == InsufficientStock)
    && (FailedLine(call.index) in failed <==> call.outcome == OtherError)
  }

  /** After any complete run each line stands in one of the two lists, in line order, and
      every call is reported by what it answered. */
  lemma BatchReport(lines: nat, steps: seq<Step>)
    requires lines > 0 && After(lines, steps).Some? && After(lines, steps).value.returned
    ensures var s := After(lines, steps).value;
      var created, failed := Select(s.results, true), Select(s.results, false);
      && Increasing(created) && Increasing(failed)
      && |created| + |failed| == lines
      && (forall i: nat :: i < lines ==> Logged(s.calls, i))
      && (forall call :: call in s.calls ==> call.index < lines && Reports(created, failed, call))
      && (forall r :: r in created || r in failed ==> exists call :: call in s.calls && call.index == r.lineIndex)
  {
    hide After, Logged, Increasing, ResultOf, Reports;
    var s := After(lines, steps).value;
    WaitMeansDone(lines, steps);
    ResultsKeepIndex();
    forall i: nat | i < lines ensures s.results[i].lineIndex == i && exists c :: c in s.calls && c.index == i && Logged(s.calls, i) {
      IsLogged(s.calls, i);
      var a :| 0 <= a < |s.calls| && s.calls[a].index == i;
      assert s.calls[a] in s.calls;
    }
    SelectPartitions(s.results, true);
    SelectPartitions(s.results, false);
    SelectCounts(s.results);
    forall call | call in s.calls ensures call.index < lines && Reports(Select(s.results, true), Select(s.results, false), call) {
      var a :| 0 <= a < |s.calls| && s.calls[a] == call;
      OneReport(s.results, call);
    }
  }

  lemma OneReport(results: seq<LineResult>, call: Call)
    requires forall i :: 0 <= i < |results| ==> results[i].lineIndex == i
    requires call.index < |results| && results[call.index] == ResultOf(call.index, call.outcome)
    ensures Reports(Select(results, true), Select(results, false), call)
  {
    hide Select, ResultOf, CreatedLine, ShortLine, FailedLine;
    LineKinds(call.index);
    AnswersDiffer(call.index, call.outcome);
    forall record ensures CreatedLine(call.index, record) in Select(results, true) <==> call.outcome == Created(record) {
      Selected(results, CreatedLine(call.index, record), true);
    }
    Selected(results, ShortLine(call.index), false);
    Selected(results, FailedLine(call.index), false);
  }

  lemma Selected(results: seq<LineResult>, r: LineResult, created: bool)
    requires (forall i :: 0 <= i < |results| ==> results[i].lineIndex == i) && r.lineIndex < |results| && r.record.Some? == created
    ensures r in Select(results, created) <==> results[r.lineIndex] == r
  {
    hide Select, Increasing;
    SelectPartitions(results, created);
    assert results[r.lineIndex] in results;
  }

  lemma LineKinds(i: nat)
    ensures forall record :: CreatedLine(i, record).lineIndex == i && CreatedLine(i, record).record.Some?
    ensures ShortLine(i).lineIndex == i && ShortLine(i).record.None? && FailedLine(i).lineIndex == i && FailedLine(i).record.None?
  {
  }

  lemma AnswersDiffer(i: nat, outcome: Outcome)
    ensures forall record :: ResultOf(i, outcome) == CreatedLine(i, record) <==> outcome == Created(record)
    ensures ResultOf(i, outcome) == ShortLine(i) <==> outcome == InsufficientStock
    ensures ResultOf(i, outcome) == FailedLine(i) <==> outcome == OtherError
  {
    assert |"insufficient_stock"| > |""|;
  }

  lemma ResultsKeepIndex()
    ensures forall i, outcome :: ResultOf(i, outcome).lineIndex == i && (ResultOf(i, outcome).record.Some? <==> outcome.Created?)
  {
  }

  lemma IsLogged(calls: seq<Call>, i: nat)
    requires Logged(calls, i)
    ensures exists a :: 0 <= a < |calls| && calls[a].index == i
  {
  }

  lemma {:induction false} SelectCounts(results: seq<LineResult>)
    ensures |Select(results, true)| + |Select(results, false)| == |results|
  {
    if |results| > 0 { SelectCounts(results[..|results| - 1]); }
  }

  /** The handler under a given schedule: workers write into the shared slice. */
  method CreateBatch(lines: nat, schedule: seq<Step>) returns (created: seq<LineResult>, failed: seq<LineResult>)
    requires lines > 0 && After(lines, schedule).Some? && After(lines, schedule).value.returned
    ensures created == Select(After(lines, schedule).value.results, true)
    ensures failed == Select(After(lines, schedule).value.results, false)
  {
    hide Runs.After, Select, ResultOf;
    var results := new LineResult[lines](_ => BLANK);
    var workers := new Worker[Workers(lines)](_ => Idle);
    var next, closed, returned := 0, false, false;
    ghost var calls: seq<Call> := [];
    assert After(lines, schedule[..0]) == Some(State(next, closed, returned, workers[..], results[..], calls)) by {
      Runs.AtStart(Take, Start(lines));
      assert workers[..] == Start(lines).workers && results[..] == Start(lines).results;
    }
    for k := 0 to |schedule|
      invariant After(lines, schedule[..k]) == Some(State(next, closed, returned, workers[..], results[..], calls))
    {
      Runs.OneStepFurther(Take, Start(lines), schedule, k);
      ghost var s := State(next, closed, returned, workers[..], results[..], calls);
      match schedule[k]
      case HandOff(w) =>
        workers[w] := Busy(next);
        next := next + 1;
      case Finish(w, outcome) =>
        var index := workers[w].index;
        results[index] := ResultOf(index, outcome);
        workers[w] := Idle;
        calls := calls + [Call(index, outcome)];
      case Close => closed := true;
      case Exit(w) => workers[w] := Exited;
      case Return => returned := true;
      assert Do(s, schedule[k]) == State(next, closed, returned, workers[..], results[..], calls);
    }
    assert schedule[..|schedule|] == schedule;
    created, failed := Partition(results[..]);
  }

  method Partition(results: seq<LineResult>) returns (created: seq<LineResult>, failed: seq<LineResult>)
    ensures created == Select(results, true) && failed == Select(results, false)
  {
    created, failed := [], [];
    for i := 0 to |results|
      invariant created == Select(results[..i], true) && failed == Select(results[..i], false)
    {
      assert results[..i + 1][..i] == results[..i];
      if results[i].record.Some? {
        created := created + [results[i]];
        continue;
      }
      failed := failed + [results[i]];
    }
    assert results[..|results|] == results;
  }
}
