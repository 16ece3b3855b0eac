/** The limit on access-code regeneration (internal/core/admin_suppliers.go): three per
    window of a minute, then a cooldown to the end of the window. Times are nanoseconds. */
module CodeRegen {
  import opened Clock
  import opened Text

  const WINDOW: int := 60 * SECOND
  const MAX_PER_WINDOW: int := 3

  datatype State = State(startedAt: int, count: int, cooldownUntil: int)

  const FRESH := State(ZERO_TIME, 0, ZERO_TIME)

  predicate IsCodeLocked(s: State, now: int) {
    s.cooldownUntil != ZERO_TIME && now < s.cooldownUntil
  }

  function RetryAfterSeconds(s: State, now: int): int {
    if !IsCodeLocked(s, now) then 0
    else
      var seconds := (s.cooldownUntil - now) / SECOND;
      if seconds < 1 then 1 else seconds
  }

  /** Whether a regeneration at this time opens a window of its own. */
  predicate Opens(s: State, now: int) {
    s.startedAt == ZERO_TIME || now - s.startedAt >= WINDOW
  }

  /** The state after a regeneration, None when it is refused. */
  function Bumped(s: State, now: int): Option<State> {
    if IsCodeLocked(s, now) then None
    else
      var base := if Opens(s, now) then State(now, 0, ZERO_TIME) else s;
      var count := base.count + 1;
      Some(State(base.startedAt, count, if count >= MAX_PER_WINDOW then base.startedAt + WINDOW else base.cooldownUntil))
  }

  method BumpCodeRegenState(s: State, now: int) returns (next: State, refused: bool)
    ensures refused <==> IsCodeLocked(s, now)
    ensures Bumped(s, now) == if refused then None else Some(next)
    ensures refused ==> next == s
  {
    next := s;
    if IsCodeLocked(s, now) {
      return next, true;
    }
    if next.startedAt == ZERO_TIME || now - next.startedAt >= WINDOW {
      next := next.(startedAt := now);
      next := next.(count := 0);
      next := next.(cooldownUntil := ZERO_TIME);
    }
    next := next.(count := next.count + 1);
    if next.count >= MAX_PER_WINDOW {
      next := next.(cooldownUntil := next.startedAt + WINDOW);
    }
    refused := false;
  }

  // ----- runs -----

  const MINUTE: int := 60_000_000_000

  /** A regeneration that went through, with the start of the window it fell in. */
  datatype Grant = Grant(at: int, window: int)

  /** The state after requests at these times, one after the other. */
  function After(times: seq<int>): State {
    if |times| == 0 then FRESH
    else
      var n := |times| - 1;
      match Bumped(After(times[..n]), times[n]) case None => After(times[..n]) case Some(next) => next
  }

  function Grants(times: seq<int>): seq<Grant> {
    if |times| == 0 then []
    else
      var n := |times| - 1;
      match Bumped(After(times[..n]), times[n])
      case None => Grants(times[..n])
      case Some(next) => Grants(times[..n]) + [Grant(times[n], next.startedAt)]
  }

  /** Requests reach the server at non-decreasing times. */
  predicate InOrder(times: seq<int>) {
    && (forall i :: 0 <= i < |times| ==> times[i] >= 0)
    && (forall i, j :: 0 <= i < j < |times| ==> times[i] <= times[j])
  }

  ghost predicate InsideWindows(g: seq<Grant>) {
    forall i :: 0 <= i < |g| ==> g[i].window <= g[i].at < g[i].window + MINUTE
  }

  ghost predicate Rising(g: seq<Grant>) {
    forall i, j :: 0 <= i < j < |g| ==> g[i].at <= g[j].at
  }

  ghost predicate WindowsApart(g: seq<Grant>) {
    forall i, j :: 0 <= i < j < |g| ==> g[i].window == g[j].window || g[i].window + MINUTE <= g[j].window
  }

  ghost predicate OpenedByGrant(g: seq<Grant>) {
    && (|g| > 0 ==> g[0].at == g[0].window)
    && (forall i, j :: 0 <= i && j == i + 1 < |g| && g[i].window != g[j].window ==> g[j].at == g[j].window)
  }

  ghost predicate ThreePerWindow(g: seq<Grant>) {
    forall i, j :: 0 <= i && j == i + 3 < |g| ==> g[i].window != g[j].window
  }

  /** Grants fall inside their windows, windows are a minute apart, a window starts
      with a grant and holds at most three. */
  ghost predicate Windowed(g: seq<Grant>) {
    InsideWindows(g) && Rising(g) && WindowsApart(g) && OpenedByGrant(g) && ThreePerWindow(g)
  }

  /** How the state stands for the grants so far. */
  ghost predicate Stands(s: State, g: seq<Grant>, now: int) {
    && Windowed(g)
    && (forall i :: 0 <= i < |g| ==> g[i].at <= now)
    && (if |g| == 0 then s == FRESH
        else
          && s.startedAt == g[|g| - 1].window
          && 1 <= s.count <= 3 && s.count <= |g|
          && (forall i :: 0 <= i < |g| ==> (g[i].window == s.startedAt <==> i >= |g| - s.count))
          && s.startedAt >= 0
          && s.cooldownUntil == if s.count == 3 then s.startedAt + MINUTE else ZERO_TIME)
  }

  lemma WindowsApartSnoc(g: seq<Grant>, x: Grant)
    requires WindowsApart(g) && forall i :: 0 <= i < |g| ==> g[i].window == x.window || g[i].window + MINUTE <= x.window
    ensures WindowsApart(g + [x])
  {
  }

  lemma OpenedByGrantSnoc(g: seq<Grant>, x: Grant)
    requires OpenedByGrant(g) && (|g| == 0 || g[|g| - 1].window != x.window ==> x.at == x.window)
    ensures OpenedByGrant(g + [x])
  {
  }

  lemma ThreePerWindowSnoc(g: seq<Grant>, x: Grant)
    requires ThreePerWindow(g) && (|g| >= 3 ==> g[|g| - 3].window != x.window)
    ensures ThreePerWindow(g + [x])
  {
  }

  /** A grant keeps the windows if it opens a window a minute past the last one, or
      falls in the last one as its second or third. */
  lemma {:induction false} WindowedSnoc(g: seq<Grant>, x: Grant)
    requires Windowed(g) && forall i :: 0 <= i < |g| ==> g[i].at <= x.at
    requires x.window <= x.at < x.window + MINUTE
    requires |g| == 0 || g[|g| - 1].window + MINUTE <= x.window ==> x.at == x.window
    requires |g| > 0 ==> g[|g| - 1].window + MINUTE <= x.window || g[|g| - 1].window == x.window
    requires |g| >= 3 ==> g[|g| - 3].window != x.window
    ensures Windowed(g + [x])
  {
    assert InsideWindows(g + [x]) && Rising(g + [x]) by { hide WindowsApart, OpenedByGrant, ThreePerWindow; }
    forall i | 0 <= i < |g| ensures g[i].window == x.window || g[i].window + MINUTE <= x.window {
      hide OpenedByGrant, ThreePerWindow, Rising, InsideWindows;
      if i < |g| - 1 { assert g[i].window <= g[|g| - 1].window; }
    }
    hide InsideWindows, Rising, WindowsApart, OpenedByGrant, ThreePerWindow;
    WindowsApartSnoc(g, x);
    OpenedByGrantSnoc(g, x);
    ThreePerWindowSnoc(g, x);
  }

  lemma LastWindowIsLast(g: seq<Grant>)
    requires InsideWindows(g) && WindowsApart(g) && |g| > 0
    ensures forall i :: 0 <= i < |g| ==> g[i].window <= g[|g| - 1].window
    ensures g[|g| - 1].window <= g[|g| - 1].at
  {
  }

  lemma {:induction false} BumpStands(s: State, g: seq<Grant>, before: int, now: int)
    requires Stands(s, g, before) && before <= now && now >= 0
    ensures Bumped(s, now).None? ==> Stands(s, g, now)
    ensures Bumped(s, now).Some? ==> Stands(Bumped(s, now).value, g + [Grant(now, Bumped(s, now).value.startedAt)], now)
  {
    hide InsideWindows, Rising, WindowsApart, OpenedByGrant, ThreePerWindow;
    if |g| > 0 { LastWindowIsLast(g); }
    if Bumped(s, now).Some? {
      WindowedSnoc(g, Grant(now, Bumped(s, now).value.startedAt));
    }
  }

  lemma {:induction false} RunStands(times: seq<int>)
    requires InOrder(times)
    ensures Stands(After(times), Grants(times), if |times| == 0 then 0 else times[|times| - 1])
  {
    hide Stands, Bumped;
    if |times| == 0 {
      NothingStands();
    } else {
      var n := |times| - 1;
      RunStands(times[..n]);
      BumpStands(After(times[..n]), Grants(times[..n]), if n == 0 then 0 else times[n - 1], times[n]);
    }
  }

  lemma NothingStands()
    ensures Stands(FRESH, [], 0)
  {
  }

  /** Any run of requests keeps to the windows. */
  lemma AtMostThreePerWindow(times: seq<int>)
    requires InOrder(times)
    ensures Windowed(Grants(times))
  {
    RunStands(times);
  }

  /** Six grants in a row span a minute or more. */
  lemma SixSpanAWindow(g: seq<Grant>, i: nat)
    requires Windowed(g) && i + 5 < |g|
    ensures g[i + 5].at - g[i].at >= MINUTE
  {
    assert g[i].window != g[i + 3].window && g[i + 2].window != g[i + 5].window;
    if i > 0 {
      var before := i - 1;
      assert g[before].window != g[before + 3].window;
      assert g[before].window != g[i].window ==> g[i].at == g[i].window;
    }
  }

  function CountFrom(g: seq<Grant>, from: int): nat {
    if |g| == 0 then 0
    else (if from <= g[0].at < from + MINUTE then 1 else 0) + CountFrom(g[1..], from)
  }

  lemma {:induction false} CountAtMost(g: seq<Grant>, from: int, k: nat)
    requires forall i :: k <= i < |g| ==> g[i].at >= from + MINUTE
    ensures CountFrom(g, from) <= k
    decreases |g|
  {
    if |g| > 0 { CountAtMost(g[1..], from, if k == 0 then 0 else k - 1); }
  }

  lemma {:induction false} SpacedCount(g: seq<Grant>, from: int)
    requires forall i, j :: 0 <= i < j < |g| ==> g[i].at <= g[j].at
    requires forall i, j :: 0 <= i && j == i + 5 < |g| ==> g[j].at - g[i].at >= MINUTE
    ensures CountFrom(g, from) <= 5
    decreases |g|
  {
    if |g| > 0 {
      if g[0].at >= from {
        forall i | 5 <= i < |g| ensures g[i].at >= from + MINUTE {
          assert g[5].at - g[0].at >= MINUTE;
        }
        CountAtMost(g, from, 5);
      } else {
        SpacedCount(g[1..], from);
      }
    }
  }

  /** At most five regenerations go through in any minute. */
  lemma AtMostFivePerMinute(times: seq<int>, from: int)
    requires InOrder(times)
    ensures CountFrom(Grants(times), from) <= 5
  {
    var g := Grants(times);
    AtMostThreePerWindow(times);
    forall i, j | 0 <= i && j == i + 5 < |g| ensures g[j].at - g[i].at >= MINUTE {
      SixSpanAWindow(g, i);
    }
    SpacedCount(g, from);
  }

  lemma OneMore(times: seq<int>, now: int)
    ensures After(times + [now]) == match Bumped(After(times), now) case None => After(times) case Some(next) => next
    ensures Bumped(After(times), now).Some? ==>
      Grants(times + [now]) == Grants(times) + [Grant(now, Bumped(After(times), now).value.startedAt)]
  {
    assert (times + [now])[..|times|] == times;
  }

  /** Five is reached: two late in one window, three at the start of the next. */
  lemma FiveIsReached()
    ensures var times := [0, 59 * 1_000_000_000, 59 * 1_000_000_000, MINUTE, MINUTE, MINUTE];
      InOrder(times) && CountFrom(Grants(times), 59 * 1_000_000_000) == 5
  {
    hide After, Grants, CountFrom;
    var late := 59 * 1_000_000_000;
    NothingYet();
    OneMore([], 0);
    assert [] + [0] == [0];
    OneMore([0], late);
    assert [0] + [late] == [0, late];
    OneMore([0, late], late);
    assert [0, late] + [late] == [0, late, late];
    OneMore([0, late, late], MINUTE);
    assert [0, late, late] + [MINUTE] == [0, late, late, MINUTE];
    OneMore([0, late, late, MINUTE], MINUTE);
    assert [0, late, late, MINUTE] + [MINUTE] == [0, late, late, MINUTE, MINUTE];
    OneMore([0, late, late, MINUTE, MINUTE], MINUTE);
    assert [0, late, late, MINUTE, MINUTE] + [MINUTE] == [0, late, late, MINUTE, MINUTE, MINUTE];
    assert Grants([0, late, late, MINUTE, MINUTE, MINUTE])
      == [Grant(0, 0), Grant(late, 0), Grant(late, 0), Grant(MINUTE, MINUTE), Grant(MINUTE, MINUTE), Grant(MINUTE, MINUTE)];
    FiveCount(Grant(0, 0), Grant(late, 0), Grant(MINUTE, MINUTE), late);
  }

  lemma NothingYet()
    ensures After([]) == FRESH && Grants([]) == []
  {
  }

  lemma CountCons(x: Grant, rest: seq<Grant>, from: int)
    ensures CountFrom([x] + rest, from) == (if from <= x.at < from + MINUTE then 1 else 0) + CountFrom(rest, from)
  {
    assert ([x] + rest)[1..] == rest;
  }

  lemma TwoCount(x: Grant, rest: seq<Grant>, from: int)
    requires from <= x.at < from + MINUTE
    ensures CountFrom([x, x] + rest, from) == 2 + CountFrom(rest, from)
  {
    hide CountFrom;
    CountCons(x, rest, from);
    CountCons(x, [x] + rest, from);
    assert [x] + ([x] + rest) == [x, x] + rest;
  }

  lemma FiveCount(a: Grant, b: Grant, c: Grant, from: int)
    requires a.at < from <= b.at <= c.at < from + MINUTE
    ensures CountFrom([a, b, b, c, c, c], from) == 5
  {
    assert CountFrom([], from) == 0;
    hide CountFrom;
    CountCons(c, [], from);
    TwoCount(c, [c] + [], from);
    TwoCount(b, [c, c] + ([c] + []), from);
    CountCons(a, [b, b] + ([c, c] + ([c] + [])), from);
    assert [a] + ([b, b] + ([c, c] + ([c] + []))) == [a, b, b, c, c, c];
  }

  // ----- the advertised retry time -----

  /** A lock never lasts longer than a window. */
  lemma LockIsShort(times: seq<int>, now: int)
    requires InOrder(times) && now >= 0 && (|times| > 0 ==> times[|times| - 1] <= now)
    ensures IsCodeLocked(After(times), now) ==> After(times).cooldownUntil - now <= MINUTE
  {
    hide After, Grants, InsideWindows, Rising, WindowsApart, OpenedByGrant, ThreePerWindow;
    RunStands(times);
    if |Grants(times)| > 0 { LastWindowIsLast(Grants(times)); }
  }

  lemma RetryTime(s: State, now: int)
    requires IsCodeLocked(s, now) ==> s.cooldownUntil - now <= MINUTE
    ensures var retry := RetryAfterSeconds(s, now);
      && (retry == 0 <==> Bumped(s, now).Some?)
      && 0 <= retry <= 60
      && Bumped(s, now + (retry + 1) * 1_000_000_000).Some?
  {
  }

  /** The retry time: none when unlocked, the whole seconds that are left, and one when less
      than a second is. */
  lemma RetryIs(s: State, now: int)
    ensures var left := s.cooldownUntil - now; var retry := RetryAfterSeconds(s, now);
      && (s.cooldownUntil == ZERO_TIME || left <= 0 ==> retry == 0)
      && (s.cooldownUntil != ZERO_TIME && 0 < left < 1_000_000_000 ==> retry == 1)
      && (s.cooldownUntil != ZERO_TIME && left >= 1_000_000_000 ==> retry >= 1 && retry * 1_000_000_000 <= left < (retry + 1) * 1_000_000_000)
  {
  }

  /** After any run the retry time is zero exactly when the next request goes through,
      otherwise at most a minute; a second more than advertised always unlocks. */
  lemma RetryIsSound(times: seq<int>, now: int)
    requires InOrder(times + [now])
    ensures var s := After(times); var retry := RetryAfterSeconds(s, now);
      && (retry == 0 <==> Bumped(s, now).Some?)
      && 0 <= retry <= 60
      && Bumped(s, now + (retry + 1) * 1_000_000_000).Some?
  {
    hide After, RetryAfterSeconds, Bumped, IsCodeLocked;
    PrefixInOrder(times, now);
    LockIsShort(times, now);
    RetryTime(After(times), now);
  }

  lemma PrefixInOrder(times: seq<int>, now: int)
    requires InOrder(times + [now])
    ensures InOrder(times) && now >= 0 && (|times| > 0 ==> times[|times| - 1] <= now)
  {
    var all := times + [now];
    assert all[|times|] == now && forall i :: 0 <= i < |times| ==> all[i] == times[i];
  }

  /** The advertised time alone is enough exactly when the time left is under a second
      or whole seconds. */
  lemma RetryIsEnoughIff(s: State, now: int)
    requires IsCodeLocked(s, now)
    ensures Bumped(s, now + RetryAfterSeconds(s, now) * 1_000_000_000).Some?
      <==> s.cooldownUntil - now < 1_000_000_000 || (s.cooldownUntil - now) % 1_000_000_000 == 0
  {
  }
}
