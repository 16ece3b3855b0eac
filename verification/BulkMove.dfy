/** The bulk move of items to a group (internal/core/admin_suppliers.go): one goroutine
    per code, at most eight at a time by a semaphore, answers over a buffered channel.
    A run is any interleaving of the steps below. */
module BulkMove {
  import Runs
  import opened Text

  const CONCURRENCY: nat := 8

  /** What a goroutine sends: the code it moved and whether ERP accepted. */
  datatype Answer = Answer(code: string, ok: bool)

  /** The goroutine of a code: not started, calling ERP, past its send, past its release. */
  datatype Mover = Waiting | Calling | Answered(ok: bool) | Gone(ok: bool)

  /** `tokens` is the fill of the semaphore, `channel` the queued answers, `taken` the
      history of the answers received. */
  datatype State = State(
    movers: seq<Mover>, spawned: nat, tokens: nat, channel: seq<Answer>,
    taken: seq<Answer>, updated: seq<string>, failed: seq<string>)

  datatype Step =
    | Spawn
    | Send(mover: nat, ok: bool)
    | Release(mover: nat)
    | Receive

  predicate Enabled(codes: seq<string>, s: State, step: Step) {
    && |s.movers| == |codes|
    && match step
       case Spawn => s.spawned < |codes| && s.tokens < CONCURRENCY
       case Send(g, _) => g < |codes| && s.movers[g].Calling? && |s.channel| < |codes|
       case Release(g) => g < |codes| && s.movers[g].Answered? && s.tokens > 0
       case Receive => s.spawned >= |codes| && |s.taken| < |codes| && |s.channel| > 0
  }

  function Do(codes: seq<string>, s: State, step: Step): State
    requires Enabled(codes, s, step)
  {
    match step
    case Spawn => s.(movers := s.movers[s.spawned := Calling], spawned := s.spawned + 1, tokens := s.tokens + 1)
    case Send(g, ok) => s.(movers := s.movers[g := Answered(ok)], channel := s.channel + [Answer(codes[g], ok)])
    case Release(g) => s.(movers := s.movers[g := Gone(s.movers[g].ok)], tokens := s.tokens - 1)
    case Receive =>
      var a := s.channel[0];
      var t := s.(channel := s.channel[1..], taken := s.taken + [a]);
      if a.ok then t.(updated := t.updated + [a.code]) else t.(failed := t.failed + [a.code])
  }

  function Start(codes: seq<string>): State {
    State(seq(|codes|, _ => Waiting), 0, 0, [], [], [], [])
  }

  function Take(codes: seq<string>): (State, Step) -> Option<State> {
    (s, step) => if Enabled(codes, s, step) then Some(Do(codes, s, step)) else None
  }

  function After(codes: seq<string>, steps: seq<Step>): Option<State> {
    Runs.After(Take(codes), Start(codes), steps)
  }

  /** The call returns once it received as many answers as there are codes. */
  predicate Returned(codes: seq<string>, s: State) { |s.taken| == |codes| }

  // ----- counting goroutines -----

  /** Goroutines that hold a semaphore token. */
  function Holding(movers: seq<Mover>): nat {
    if |movers| == 0 then 0
    else (if movers[0].Calling? || movers[0].Answered? then 1 else 0) + Holding(movers[1..])
  }

  /** Calls to ERP in flight. */
  function InFlight(movers: seq<Mover>): nat {
    if |movers| == 0 then 0
    else (if movers[0].Calling? then 1 else 0) + InFlight(movers[1..])
  }

  /** The answers of the goroutines that sent one. */
  function Answers(codes: seq<string>, movers: seq<Mover>): multiset<Answer>
    requires |movers| == |codes|
  {
    if |movers| == 0 then multiset{}
    else Given(codes[0], movers[0]) + Answers(codes[1..], movers[1..])
  }

  function Given(code: string, m: Mover): multiset<Answer> {
    if m.Answered? || m.Gone? then multiset{Answer(code, m.ok)} else multiset{}
  }

  /** The steps that goroutines have yet to take. */
  function Ahead(movers: seq<Mover>): nat {
    if |movers| == 0 then 0
    else (match movers[0] case Waiting => 3 case Calling => 2 case Answered(_) => 1 case Gone(_) => 0) + Ahead(movers[1..])
  }

  lemma {:induction false} CountsUpdate(movers: seq<Mover>, g: nat, to: Mover)
    requires g < |movers|
    ensures Holding(movers[g := to]) == Holding(movers) - Holding([movers[g]]) + Holding([to])
    ensures Ahead(movers[g := to]) == Ahead(movers) - Ahead([movers[g]]) + Ahead([to])
  {
    if g == 0 {
      assert movers[g := to][1..] == movers[1..];
    } else {
      CountsUpdate(movers[1..], g - 1, to);
      assert movers[g := to][1..] == movers[1..][g - 1 := to];
    }
  }

  lemma {:induction false} AnswersUpdate(codes: seq<string>, movers: seq<Mover>, g: nat, to: Mover)
    requires |movers| == |codes| && g < |movers|
    ensures Answers(codes, movers[g := to]) + Given(codes[g], movers[g]) == Answers(codes, movers) + Given(codes[g], to)
  {
    hide Given;
    var rest := Answers(codes[1..], movers[1..]);
    assert Answers(codes, movers) == Given(codes[0], movers[0]) + rest;
    if g == 0 {
      assert movers[g := to][1..] == movers[1..];
      assert Answers(codes, movers[g := to]) == Given(codes[0], to) + rest;
    } else {
      AnswersUpdate(codes[1..], movers[1..], g - 1, to);
      assert movers[g := to][1..] == movers[1..][g - 1 := to];
      assert Answers(codes, movers[g := to]) == Given(codes[0], movers[0]) + Answers(codes[1..], movers[1..][g - 1 := to]);
      SameFirst(Given(codes[0], movers[0]), Answers(codes[1..], movers[1..][g - 1 := to]), Given(codes[g], movers[g]), rest, Given(codes[g], to));
    }
  }

  lemma SameFirst<T>(first: multiset<T>, a: multiset<T>, x: multiset<T>, b: multiset<T>, y: multiset<T>)
    requires a + x == b + y
    ensures (first + a) + x == (first + b) + y
  {
    assert (first + a) + x == first + (a + x);
  }

  lemma {:induction false} InFlightHold(movers: seq<Mover>)
    ensures InFlight(movers) <= Holding(movers)
  {
    if |movers| > 0 { InFlightHold(movers[1..]); }
  }

  lemma {:induction false} AnswersAtMost(codes: seq<string>, movers: seq<Mover>)
    requires |movers| == |codes|
    ensures |Answers(codes, movers)| <= |codes|
    ensures |Answers(codes, movers)| == |codes| <==> forall g :: 0 <= g < |movers| ==> movers[g].Answered? || movers[g].Gone?
  {
    if |movers| > 0 { AnswersAtMost(codes[1..], movers[1..]); }
  }

  lemma {:induction false} AllWaiting(codes: seq<string>, movers: seq<Mover>)
    requires |movers| == |codes| && forall g :: 0 <= g < |movers| ==> movers[g].Waiting?
    ensures Holding(movers) == 0 && Answers(codes, movers) == multiset{} && Ahead(movers) == 3 * |movers|
  {
    if |movers| > 0 { AllWaiting(codes[1..], movers[1..]); }
  }

  // ----- what every step keeps -----

  function Codes(answers: seq<Answer>, ok: bool): seq<string> {
    if |answers| == 0 then []
    else
      var last := answers[|answers| - 1];
      Codes(answers[..|answers| - 1], ok) + if last.ok == ok then [last.code] else []
  }

  ghost predicate Inv(codes: seq<string>, s: State) {
    && |s.movers| == |codes| && s.spawned <= |codes|
    && (forall g :: 0 <= g < |codes| ==> (s.movers[g].Waiting? <==> g >= s.spawned))
    && s.tokens == Holding(s.movers) <= CONCURRENCY
    && multiset(s.taken) + multiset(s.channel) == Answers(codes, s.movers)
    && s.updated == Codes(s.taken, true) && s.failed == Codes(s.taken, false)
  }

  function Rank(s: State): int { Ahead(s.movers) + |s.movers| - |s.taken| }

  lemma SpawnKeepsInv(codes: seq<string>, s: State)
    requires Inv(codes, s) && Enabled(codes, s, Spawn)
    ensures Inv(codes, Do(codes, s, Spawn)) && Rank(Do(codes, s, Spawn)) == Rank(s) - 1
  {
    hide Codes, Holding, Ahead, Answers;
    CountsUpdate(s.movers, s.spawned, Calling);
    AnswersUpdate(codes, s.movers, s.spawned, Calling);
    OneMover(Waiting);
    OneMover(Calling);
    SameBoth(Answers(codes, s.movers[s.spawned := Calling]), Answers(codes, s.movers), multiset{});
  }

  lemma SendKeepsInv(codes: seq<string>, s: State, g: nat, ok: bool)
    requires Inv(codes, s) && Enabled(codes, s, Send(g, ok))
    ensures Inv(codes, Do(codes, s, Send(g, ok))) && Rank(Do(codes, s, Send(g, ok))) == Rank(s) - 1
  {
    hide Codes, Holding, Ahead, Answers;
    CountsUpdate(s.movers, g, Answered(ok));
    AnswersUpdate(codes, s.movers, g, Answered(ok));
    OneMover(Calling);
    OneMover(Answered(ok));
    assert Answers(codes, s.movers[g := Answered(ok)]) == Answers(codes, s.movers) + multiset{Answer(codes[g], ok)};
    assert multiset(s.channel + [Answer(codes[g], ok)]) == multiset(s.channel) + multiset{Answer(codes[g], ok)};
  }

  lemma ReleaseKeepsInv(codes: seq<string>, s: State, g: nat)
    requires Inv(codes, s) && Enabled(codes, s, Release(g))
    ensures Inv(codes, Do(codes, s, Release(g))) && Rank(Do(codes, s, Release(g))) == Rank(s) - 1
  {
    hide Codes, Holding, Ahead, Answers;
    var to := Gone(s.movers[g].ok);
    CountsUpdate(s.movers, g, to);
    AnswersUpdate(codes, s.movers, g, to);
    OneMover(s.movers[g]);
    OneMover(to);
    SameBoth(Answers(codes, s.movers[g := to]), Answers(codes, s.movers), Given(codes[g], to));
  }

  lemma SameBoth<T>(a: multiset<T>, b: multiset<T>, c: multiset<T>)
    requires a + c == b + c
    ensures a == b
  {
    forall x ensures a[x] == b[x] {
      assert (a + c)[x] == (b + c)[x];
    }
  }

  lemma ReceiveKeepsInv(codes: seq<string>, s: State)
    requires Inv(codes, s) && Enabled(codes, s, Receive)
    ensures Inv(codes, Do(codes, s, Receive)) && Rank(Do(codes, s, Receive)) == Rank(s) - 1
  {
    hide Codes, Holding, Ahead, Answers;
    var a := s.channel[0];
    assert s.channel == [a] + s.channel[1..];
    assert multiset(s.taken + [a]) + multiset(s.channel[1..]) == multiset(s.taken) + multiset(s.channel);
    CodesSnoc(s.taken, a, true);
    CodesSnoc(s.taken, a, false);
  }

  lemma StepKeepsInv(codes: seq<string>, s: State, step: Step)
    requires Inv(codes, s) && Enabled(codes, s, step)
    ensures Inv(codes, Do(codes, s, step)) && Rank(Do(codes, s, step)) == Rank(s) - 1
  {
    hide Inv, Rank, Do;
    match step
    case Spawn => SpawnKeepsInv(codes, s);
    case Send(g, ok) => SendKeepsInv(codes, s, g, ok);
    case Release(g) => ReleaseKeepsInv(codes, s, g);
    case Receive => ReceiveKeepsInv(codes, s);
  }

  lemma OneMover(m: Mover)
    ensures Holding([m]) == if m.Calling? || m.Answered? then 1 else 0
    ensures Ahead([m]) == match m case Waiting => 3 case Calling => 2 case Answered(_) => 1 case Gone(_) => 0
  {
  }

  lemma CodesSnoc(answers: seq<Answer>, a: Answer, ok: bool)
    ensures Codes(answers + [a], ok) == if a.ok == ok then Codes(answers, ok) + [a.code] else Codes(answers, ok)
  {
    assert (answers + [a])[..|answers|] == answers;
  }

  lemma {:induction false} RunInv(codes: seq<string>, steps: seq<Step>)
    requires After(codes, steps).Some?
    ensures Inv(codes, After(codes, steps).value)
    ensures Rank(After(codes, steps).value) + |steps| == 4 * |codes|
  {
    if |steps| == 0 {
      AllWaiting(codes, Start(codes).movers);
    } else {
      hide Inv, Rank;
      RunInv(codes, steps[..|steps| - 1]);
      StepKeepsInv(codes, After(codes, steps[..|steps| - 1]).value, steps[|steps| - 1]);
    }
  }

  // ----- runs -----

  /** At any moment of any interleaving at most eight calls are in flight, and a
      goroutine that has its answer can send it. */
  lemma AtMostEightInFlight(codes: seq<string>, steps: seq<Step>)
    requires After(codes, steps).Some?
    ensures var s := After(codes, steps).value;
      && InFlight(s.movers) <= 8
      && forall g: nat, ok :: g < |codes| && s.movers[g].Calling? ==> Enabled(codes, s, Send(g, ok))
  {
    hide After, Codes, Holding, InFlight, Answers;
    RunInv(codes, steps);
    var s := After(codes, steps).value;
    InFlightHold(s.movers);
    AnswersAtMost(codes, s.movers);
    assert |s.taken| + |s.channel| == |multiset(s.taken) + multiset(s.channel)|;
  }

  function Spawns(k: nat): (steps: seq<Step>)
    ensures |steps| == k && forall i :: 0 <= i < k ==> steps[i] == Spawn
  {
    seq(k, _ => Spawn)
  }

  /** The first k goroutines calling, the others waiting. */
  function CallingFirst(n: nat, k: nat): (movers: seq<Mover>)
    ensures |movers| == n && forall i :: 0 <= i < n ==> movers[i] == if i < k then Calling else Waiting
  {
    seq(n, i => if i < k then Calling else Waiting)
  }

  lemma {:induction false} Spawned(codes: seq<string>, k: nat)
    requires k <= 8 && k <= |codes|
    ensures After(codes, Spawns(k)) == Some(State(CallingFirst(|codes|, k), k, k, [], [], [], []))
  {
    if k == 0 {
      assert CallingFirst(|codes|, 0) == Start(codes).movers;
    } else {
      Spawned(codes, k - 1);
      assert Spawns(k)[..k - 1] == Spawns(k - 1);
      assert CallingFirst(|codes|, k - 1)[k - 1 := Calling] == CallingFirst(|codes|, k);
    }
  }

  lemma {:induction false} InFlightFirst(n: nat, k: nat)
    requires k <= n
    ensures InFlight(CallingFirst(n, k)) == k
  {
    if n > 0 {
      var less := if k > 0 then k - 1 else 0;
      assert CallingFirst(n, k)[1..] == CallingFirst(n - 1, less);
      InFlightFirst(n - 1, less);
    }
  }

  /** And with eight codes or more eight calls can be in flight. */
  lemma EightAreReached(codes: seq<string>) returns (steps: seq<Step>)
    requires |codes| >= 8
    ensures After(codes, steps).Some? && InFlight(After(codes, steps).value.movers) == 8
  {
    steps := Spawns(8);
    Spawned(codes, 8);
    InFlightFirst(|codes|, 8);
  }

  lemma NoDeadlock(codes: seq<string>, steps: seq<Step>) returns (step: Step)
    requires After(codes, steps).Some? && !Returned(codes, After(codes, steps).value)
    ensures Enabled(codes, After(codes, steps).value, step)
  {
    hide After, Codes, Holding, InFlight, Answers, Ahead;
    RunInv(codes, steps);
    AtMostEightInFlight(codes, steps);
    var s := After(codes, steps).value;
    AnswersAtMost(codes, s.movers);
    assert |s.taken| + |s.channel| == |multiset(s.taken) + multiset(s.channel)|;
    if g: nat :| g < |codes| && s.movers[g].Calling? {
      step := Send(g, true);
    } else if g: nat :| g < |codes| && s.movers[g].Answered? {
      HolderHolds(s.movers, g);
      step := Release(g);
    } else {
      NoneHolds(s.movers);
      step := if s.spawned < |codes| then Spawn else Receive;
    }
  }

  lemma {:induction false} HolderHolds(movers: seq<Mover>, g: nat)
    requires g < |movers| && movers[g].Answered?
    ensures Holding(movers) > 0
  {
    if g > 0 { HolderHolds(movers[1..], g - 1); }
  }

  lemma {:induction false} NoneHolds(movers: seq<Mover>)
    requires forall g :: 0 <= g < |movers| ==> !movers[g].Calling? && !movers[g].Answered?
    ensures Holding(movers) == 0
  {
    if |movers| > 0 { NoneHolds(movers[1..]); }
  }

  /** Every run ends: it has at most four steps per code. */
  lemma RunsAreBounded(codes: seq<string>, steps: seq<Step>)
    requires After(codes, steps).Some?
    ensures |steps| <= 4 * |codes|
  {
    hide After;
    RunInv(codes, steps);
    var s := After(codes, steps).value;
    AnswersAtMost(codes, s.movers);
    assert |s.taken| + |s.channel| == |multiset(s.taken) + multiset(s.channel)|;
  }

  lemma CountSnoc<T>(s: seq<T>, last: T, x: T)
    ensures multiset(s + [last])[x] == multiset(s)[x] + if last == x then 1 else 0
  {
  }

  lemma CountCons<T>(first: T, s: seq<T>, x: T)
    ensures multiset([first] + s)[x] == multiset(s)[x] + if first == x then 1 else 0
  {
  }

  lemma {:induction false} CodesCount(answers: seq<Answer>, ok: bool, code: string)
    ensures multiset(Codes(answers, ok))[code] == multiset(answers)[Answer(code, ok)]
  {
    if |answers| > 0 {
      hide Codes;
      var before, last := answers[..|answers| - 1], answers[|answers| - 1];
      CodesCount(before, ok, code);
      assert answers == before + [last];
      CodesSnoc(before, last, ok);
      CountSnoc(before, last, Answer(code, ok));
      CountSnoc(Codes(before, ok), last.code, code);
    }
  }

  lemma GivenCount(own: string, m: Mover, code: string)
    requires m.Answered? || m.Gone?
    ensures Given(own, m)[Answer(code, true)] + Given(own, m)[Answer(code, false)] == if own == code then 1 else 0
  {
  }

  lemma {:induction false} AnswersCount(codes: seq<string>, movers: seq<Mover>, code: string)
    requires |movers| == |codes| && forall g :: 0 <= g < |movers| ==> movers[g].Answered? || movers[g].Gone?
    ensures Answers(codes, movers)[Answer(code, true)] + Answers(codes, movers)[Answer(code, false)] == multiset(codes)[code]
  {
    if |codes| > 0 {
      hide Given;
      AnswersCount(codes[1..], movers[1..], code);
      assert codes == [codes[0]] + codes[1..];
      CountCons(codes[0], codes[1..], code);
      GivenCount(codes[0], movers[0], code);
    }
  }

  /** However the goroutines interleave, the updated and the failed codes together are
      exactly the requested ones, and each is reported as its own call answered. */
  lemma {:induction false} EveryCodeIsReported(codes: seq<string>, steps: seq<Step>)
    requires After(codes, steps).Some? && Returned(codes, After(codes, steps).value)
    ensures var s := After(codes, steps).value;
      && multiset(s.updated) + multiset(s.failed) == multiset(codes)
      && forall code :: multiset(s.updated)[code] == Answers(codes, s.movers)[Answer(code, true)]
                    && multiset(s.failed)[code] == Answers(codes, s.movers)[Answer(code, false)]
  {
    hide After, Codes, Answers, Holding;
    RunInv(codes, steps);
    var s := After(codes, steps).value;
    AnswersAtMost(codes, s.movers);
    assert |s.taken| + |s.channel| == |multiset(s.taken) + multiset(s.channel)|;
    assert s.channel == [];
    forall code
      ensures multiset(s.updated)[code] == Answers(codes, s.movers)[Answer(code, true)]
      ensures multiset(s.failed)[code] == Answers(codes, s.movers)[Answer(code, false)]
      ensures multiset(s.updated)[code] + multiset(s.failed)[code] == multiset(codes)[code]
    {
      CodesCount(s.taken, true, code);
      CodesCount(s.taken, false, code);
      AnswersCount(codes, s.movers, code);
    }
  }

  // ----- the request -----

  /** The trimmed codes that are not blank, each at its first place. */
  function Normalized(itemCodes: seq<string>): seq<string> {
    if |itemCodes| == 0 then []
    else
      var before := Normalized(itemCodes[..|itemCodes| - 1]);
      var code := TrimSpace(itemCodes[|itemCodes| - 1]);
      if code == "" || code in before then before else before + [code]
  }

  predicate Named(itemCodes: seq<string>, code: string) {
    exists k :: 0 <= k < |itemCodes| && TrimSpace(itemCodes[k]) == code
  }

  lemma NamedSnoc(itemCodes: seq<string>, last: string, code: string)
    ensures Named(itemCodes + [last], code) <==> Named(itemCodes, code) || TrimSpace(last) == code
  {
    hide TrimSpace;
    var all := itemCodes + [last];
    if Named(itemCodes, code) {
      var k :| 0 <= k < |itemCodes| && TrimSpace(itemCodes[k]) == code;
      assert all[k] == itemCodes[k];
    }
    assert all[|itemCodes|] == last;
  }

  ghost predicate Distinct(codes: seq<string>) {
    forall i, j :: 0 <= i < j < |codes| ==> codes[i] != codes[j]
  }

  /** Requested codes are distinct and are exactly the non-blank names, trimmed. */
  lemma {:induction false} NormalizedCodes(itemCodes: seq<string>)
    ensures Distinct(Normalized(itemCodes))
    ensures forall c :: c in Normalized(itemCodes) <==> c != "" && Named(itemCodes, c)
  {
    hide TrimSpace;
    if |itemCodes| == 0 {
    } else {
      var before := itemCodes[..|itemCodes| - 1];
      var last := itemCodes[|itemCodes| - 1];
      NormalizedCodes(before);
      assert itemCodes == before + [last];
      forall c ensures c in Normalized(itemCodes) <==> c != "" && Named(itemCodes, c) {
        NamedSnoc(before, last, c);
        assert c in Normalized(before) <==> c != "" && Named(before, c);
      }
    }
  }

  method NormalizeItemCodes(itemCodes: seq<string>) returns (normalized: seq<string>)
    ensures normalized == Normalized(itemCodes)
  {
    hide TrimSpace;
    normalized := [];
    var seen: set<string> := {};
    for i := 0 to |itemCodes|
      invariant normalized == Normalized(itemCodes[..i])
      invariant forall c :: c in seen <==> c in normalized
    {
      assert itemCodes[..i + 1][..i] == itemCodes[..i];
      var trimmed := TrimSpace(itemCodes[i]);
      if trimmed == "" {
        continue;
      }
      if trimmed in seen {
        continue;
      }
      seen := seen + {trimmed};
      normalized := normalized + [trimmed];
    }
    assert itemCodes[..|itemCodes|] == itemCodes;
  }

  datatype Result =
    | CodesRequired
    | GroupRequired
    | Moved(itemGroup: string, requested: nat, updated: seq<string>, failed: seq<string>)

  /** The call under a given schedule of its goroutines. */
  method AdminMoveItemsToGroup(itemCodes: seq<string>, itemGroup: string, schedule: seq<Step>) returns (r: Result)
    requires After(Normalized(itemCodes), schedule).Some?
    requires Returned(Normalized(itemCodes), After(Normalized(itemCodes), schedule).value)
    ensures r.CodesRequired? <==> Normalized(itemCodes) == []
    ensures r.GroupRequired? <==> Normalized(itemCodes) != [] && TrimSpace(itemGroup) == ""
    ensures r.Moved? ==>
      var s := After(Normalized(itemCodes), schedule).value;
      r == Moved(TrimSpace(itemGroup), |Normalized(itemCodes)|, s.updated, s.failed)
  {
    hide TrimSpace, Normalized, After;
    var codes := NormalizeItemCodes(itemCodes);
    if |codes| == 0 {
      return CodesRequired;
    }
    var group := TrimSpace(itemGroup);
    if group == "" {
      return GroupRequired;
    }
    var updated, failed := RunMovers(codes, schedule);
    r := Moved(group, |codes|, updated, failed);
  }

  method RunMovers(codes: seq<string>, schedule: seq<Step>) returns (updated: seq<string>, failed: seq<string>)
    requires After(codes, schedule).Some?
    ensures updated == After(codes, schedule).value.updated && failed == After(codes, schedule).value.failed
  {
    hide Runs.After;
    var movers := new Mover[|codes|](_ => Waiting);
    var spawned: nat, sem: nat := 0, 0;
    var results: seq<Answer> := [];
    ghost var taken: seq<Answer> := [];
    updated, failed := [], [];
    Runs.AtStart(Take(codes), Start(codes));
    assert movers[..] == Start(codes).movers;
    for k := 0 to |schedule|
      invariant After(codes, schedule[..k]) == Some(State(movers[..], spawned, sem, results, taken, updated, failed))
    {
      Runs.OneStepFurther(Take(codes), Start(codes), schedule, k);
      ghost var s := State(movers[..], spawned, sem, results, taken, updated, failed);
      match schedule[k] {
        case Spawn =>
          sem := sem + 1;
          movers[spawned] := Calling;
          spawned := spawned + 1;
        case Send(g, ok) =>
          results := results + [Answer(codes[g], ok)];
          movers[g] := Answered(ok);
        case Release(g) =>
          movers[g] := Gone(movers[g].ok);
          sem := sem - 1;
        case Receive =>
          var result := results[0];
          results := results[1..];
          taken := taken + [result];
          if !result.ok {
            failed := failed + [result.code];
          } else {
            updated := updated + [result.code];
          }
      }
      assert Do(codes, s, schedule[k]) == State(movers[..], spawned, sem, results, taken, updated, failed);
    }
    assert schedule[..|schedule|] == schedule;
  }
}
