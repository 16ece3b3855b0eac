/** The session manager (internal/core/service.go): tokens in a map that a file keeps
    across restarts, each with a lifetime that runs from its last write. The history of
    effective calls is what the answers are measured against. Times are nanoseconds. */
module Sessions {
  import opened Clock
  import opened Text

  type Principal = string

  datatype Record = Record(principal: Principal, createdAt: int, updatedAt: int, expiresAt: int)

  /** A call that took effect; Restarted is a new process over the same file. */
  datatype Op =
    | Created(token: string, principal: Principal, at: int)
    | Updated(token: string, principal: Principal, at: int)
    | Deleted(token: string)
    | Restarted

  /** A token's latest principal and the time it was written. */
  datatype Standing = Standing(principal: Principal, at: int)

  /** How a token stands after a history; `kept` says that there is a file. */
  function StandingOf(history: seq<Op>, token: string, kept: bool): Option<Standing> {
    if |history| == 0 then None
    else
      var before := StandingOf(history[..|history| - 1], token, kept);
      match history[|history| - 1]
      case Created(t, p, at) => if t == token then Some(Standing(p, at)) else before
      case Updated(t, p, at) => if t == token then Some(Standing(p, at)) else before
      case Deleted(t) => if t == token then None else before
      case Restarted => if kept then before else None
  }

  predicate Live(s: Standing, ttl: int, now: int) { ttl <= 0 || now <= s.at + ttl }

  /** What a request with this token gets. */
  function Answer(history: seq<Op>, token: string, kept: bool, ttl: int, now: int): Option<Principal> {
    match StandingOf(history, token, kept)
    case None => None
    case Some(s) => if Live(s, ttl, now) then Some(s.principal) else None
  }

  predicate Writes(op: Op, token: string) { (op.Created? || op.Updated?) && op.token == token }

  predicate Ends(op: Op, token: string, kept: bool) {
    match op case Deleted(t) => t == token case Restarted => !kept case _ => false
  }

  /** The i-th call wrote this principal for the token, and no later call concerns it. */
  predicate LastWrites(history: seq<Op>, token: string, kept: bool, i: nat, p: Principal) {
    && i < |history| && Writes(history[i], token) && history[i].principal == p
    && forall j :: i < j < |history| ==> !Writes(history[j], token) && !Ends(history[j], token, kept)
  }

  /** A token is accepted with a principal exactly when some write of that principal is
      the last call that concerns the token, and its lifetime has not passed. */
  lemma AcceptedIff(history: seq<Op>, token: string, kept: bool, ttl: int, now: int, p: Principal)
    ensures Answer(history, token, kept, ttl, now) == Some(p) <==>
      exists i: nat :: LastWrites(history, token, kept, i, p) && (ttl <= 0 || now <= history[i].at + ttl)
  {
    hide Ends, StandingOf;
    if Answer(history, token, kept, ttl, now) == Some(p) {
      var i := LastWrite(history, token, kept);
      assert LastWrites(history, token, kept, i, p);
    }
    if i: nat :| LastWrites(history, token, kept, i, p) && (ttl <= 0 || now <= history[i].at + ttl) {
      WriteStands(history, token, kept, i);
    }
  }

  lemma {:induction false} LastWrite(history: seq<Op>, token: string, kept: bool) returns (i: nat)
    requires StandingOf(history, token, kept).Some?
    ensures i < |history| && Writes(history[i], token)
    ensures StandingOf(history, token, kept) == Some(Standing(history[i].principal, history[i].at))
    ensures forall j :: i < j < |history| ==> !Writes(history[j], token) && !Ends(history[j], token, kept)
  {
    i := |history| - 1;
    if !Writes(history[i], token) {
      i := LastWrite(history[..i], token, kept);
    }
  }

  lemma {:induction false} WriteStands(history: seq<Op>, token: string, kept: bool, i: nat)
    requires i < |history| && Writes(history[i], token)
    requires forall j :: i < j < |history| ==> !Writes(history[j], token) && !Ends(history[j], token, kept)
    ensures StandingOf(history, token, kept) == Some(Standing(history[i].principal, history[i].at))
    decreases |history|
  {
    var n := |history| - 1;
    if i < n {
      WriteStands(history[..n], token, kept, i);
      assert !Writes(history[n], token) && !Ends(history[n], token, kept);
    }
  }

  /** With a file, restarts change no answer. */
  lemma RestartsChangeNothing(history: seq<Op>, token: string, ttl: int, now: int)
    ensures Answer(history, token, true, ttl, now) == Answer(WithoutRestarts(history), token, true, ttl, now)
  {
    StandingWithoutRestarts(history, token);
  }

  function WithoutRestarts(history: seq<Op>): seq<Op> {
    if |history| == 0 then []
    else
      var last := history[|history| - 1];
      WithoutRestarts(history[..|history| - 1]) + if last.Restarted? then [] else [last]
  }

  lemma {:induction false} StandingWithoutRestarts(history: seq<Op>, token: string)
    ensures StandingOf(history, token, true) == StandingOf(WithoutRestarts(history), token, true)
  {
    hide StandingOf;
    if |history| > 0 {
      var n := |history| - 1;
      StandingWithoutRestarts(history[..n], token);
      StandingSnoc(WithoutRestarts(history[..n]), history[n], token, true);
      StandingSnoc(history[..n], history[n], token, true);
      assert history == history[..n] + [history[n]];
      assert WithoutRestarts(history)
        == if history[n].Restarted? then WithoutRestarts(history[..n]) else WithoutRestarts(history[..n]) + [history[n]];
    }
  }

  lemma StandingSnoc(history: seq<Op>, op: Op, token: string, kept: bool)
    ensures Writes(op, token) ==> StandingOf(history + [op], token, kept) == Some(Standing(op.principal, op.at))
    ensures Ends(op, token, kept) ==> StandingOf(history + [op], token, kept) == None
    ensures !Writes(op, token) && !Ends(op, token, kept) ==>
      StandingOf(history + [op], token, kept) == StandingOf(history, token, kept)
  {
    assert (history + [op])[..|history|] == history;
  }

  // ----- records and standings -----

  predicate IsExpired(r: Record, now: int) {
    r.expiresAt != ZERO_TIME && now > r.expiresAt
  }

  predicate Matches(r: Record, s: Option<Standing>, ttl: int) {
    s.Some? && r.principal == s.value.principal && r.expiresAt == if ttl > 0 then s.value.at + ttl else ZERO_TIME
  }

  ghost predicate Dated(history: seq<Op>, kept: bool) {
    forall t :: StandingOf(history, t, kept).Some? ==> StandingOf(history, t, kept).value.at >= 0
  }

  predicate Over(s: Option<Standing>, ttl: int, now: int) {
    s.Some? ==> !Live(s.value, ttl, now)
  }

  /** Memory holds how the tokens stand, short of some that expired. */
  ghost predicate InMemory(m: map<string, Record>, history: seq<Op>, kept: bool, ttl: int, now: int) {
    && (forall t :: t in m ==> Matches(m[t], StandingOf(history, t, kept), ttl))
    && (forall t :: t !in m ==> Over(StandingOf(history, t, kept), ttl, now))
  }

  /** The file may also hold expired records of tokens that are gone. */
  ghost predicate InFile(m: map<string, Record>, history: seq<Op>, kept: bool, ttl: int, now: int) {
    && (forall t :: t in m ==>
          || Matches(m[t], StandingOf(history, t, kept), ttl)
          || (IsExpired(m[t], now) && Over(StandingOf(history, t, kept), ttl, now)))
    && (forall t :: t !in m ==> Over(StandingOf(history, t, kept), ttl, now))
  }

  lemma MemoryFitsFile(m: map<string, Record>, history: seq<Op>, kept: bool, ttl: int, now: int)
    requires InMemory(m, history, kept, ttl, now)
    ensures InFile(m, history, kept, ttl, now)
  {
    hide StandingOf;
  }

  lemma TimePasses(m: map<string, Record>, history: seq<Op>, kept: bool, ttl: int, before: int, now: int)
    requires before <= now
    ensures InMemory(m, history, kept, ttl, before) ==> InMemory(m, history, kept, ttl, now)
    ensures InFile(m, history, kept, ttl, before) ==> InFile(m, history, kept, ttl, now)
  {
    hide StandingOf;
  }

  function Unexpired(m: map<string, Record>, now: int): map<string, Record> {
    map t | t in m && !IsExpired(m[t], now) :: m[t]
  }

  lemma FileLoads(m: map<string, Record>, history: seq<Op>, kept: bool, ttl: int, now: int)
    requires InFile(m, history, kept, ttl, now) && Dated(history, kept)
    ensures InMemory(Unexpired(m, now), history, kept, ttl, now)
  {
    hide StandingOf;
  }

  lemma WriteFits(m: map<string, Record>, history: seq<Op>, kept: bool, ttl: int, now: int, op: Op, r: Record)
    requires InMemory(m, history, kept, ttl, now) && Dated(history, kept)
    requires (op.Created? || op.Updated?) && op.at == now >= 0 && Matches(r, Some(Standing(op.principal, op.at)), ttl)
    ensures InMemory(m[op.token := r], history + [op], kept, ttl, now) && Dated(history + [op], kept)
  {
    hide StandingOf;
    forall t ensures StandingOf(history + [op], t, kept)
      == if t == op.token then Some(Standing(op.principal, op.at)) else StandingOf(history, t, kept) {
      StandingSnoc(history, op, t, kept);
    }
  }

  lemma DeleteFits(m: map<string, Record>, file: map<string, Record>, history: seq<Op>, kept: bool, ttl: int, now: int, token: string)
    requires InMemory(m, history, kept, ttl, now) && Dated(history, kept)
    ensures InMemory(m - {token}, history + [Deleted(token)], kept, ttl, now) && Dated(history + [Deleted(token)], kept)
    ensures token !in m && InFile(file, history, kept, ttl, now) ==> InFile(file, history + [Deleted(token)], kept, ttl, now)
  {
    hide StandingOf;
    forall t ensures StandingOf(history + [Deleted(token)], t, kept) == if t == token then None else StandingOf(history, t, kept) {
      StandingSnoc(history, Deleted(token), t, kept);
    }
  }

  lemma DropExpiredFits(m: map<string, Record>, history: seq<Op>, kept: bool, ttl: int, now: int, token: string)
    requires InMemory(m, history, kept, ttl, now) && token in m && IsExpired(m[token], now)
    ensures InMemory(m - {token}, history, kept, ttl, now)
  {
    hide StandingOf;
  }

  lemma RestartFits(file: map<string, Record>, history: seq<Op>, kept: bool, ttl: int, now: int)
    requires Dated(history, kept)
    ensures Dated(history + [Restarted], kept)
    ensures kept && InFile(file, history, kept, ttl, now) ==> InFile(file, history + [Restarted], kept, ttl, now)
    ensures !kept ==> InMemory(map[], history + [Restarted], kept, ttl, now)
  {
    hide StandingOf;
    forall t ensures StandingOf(history + [Restarted], t, kept) == if kept then StandingOf(history, t, kept) else None {
      StandingSnoc(history, Restarted, t, kept);
    }
  }

  lemma SeenAnswers(m: map<string, Record>, history: seq<Op>, kept: bool, ttl: int, now: int, token: string)
    requires InMemory(m, history, kept, ttl, now) && Dated(history, kept)
    ensures Answer(history, token, kept, ttl, now)
      == if token in m && !IsExpired(m[token], now) then Some(m[token].principal) else None
    ensures StandingOf(history, token, kept).None? ==> token !in m
  {
    hide StandingOf;
  }

  // ----- the manager -----

  class SessionManager {
    const path: string
    const ttl: int
    var sessions: map<string, Record>
    var loaded: bool
    /** The file: None while it does not exist. */
    var file: Option<map<string, Record>>
    ghost var history: seq<Op>
    /** The latest clock reading. */
    ghost var clock: int

    predicate Kept() { path != "" }

    function OnFile(): map<string, Record>
      reads this
    {
      match file case None => map[] case Some(m) => m
    }

    /** The tokens a call sees: those in memory, or those of the file that have not expired. */
    function Seen(now: int): map<string, Record>
      reads this
    {
      if loaded then sessions else if Kept() then Unexpired(OnFile(), now) else map[]
    }

    ghost predicate Valid()
      reads this
    {
      && clock >= 0 && Dated(history, Kept())
      && (loaded ==> InMemory(sessions, history, Kept(), ttl, clock))
      && (Kept() ==> InFile(OnFile(), history, Kept(), ttl, clock))
      && (!Kept() && !loaded ==> InMemory(map[], history, Kept(), ttl, clock))
    }

    constructor (path: string, ttl: int)
      ensures this.path == TrimSpace(path) && this.ttl == ttl
      ensures Valid() && history == [] && clock == 0
    {
      this.path := TrimSpace(path);
      this.ttl := ttl;
      sessions := map[];
      loaded := false;
      file := None;
      history := [];
      clock := 0;
    }

    function NewSessionRecord(principal: Principal, now: int, createdAt: int): Record {
      Record(principal, if createdAt == ZERO_TIME then now else createdAt, now, if ttl > 0 then now + ttl else ZERO_TIME)
    }

    method LoadAll(now: int) returns (all: map<string, Record>)
      requires Valid() && now >= clock
      modifies this
      ensures Valid() && loaded && clock == now && history == old(history)
      ensures all == sessions == old(Seen(now)) && file == old(file)
    {
      hide InMemory, InFile, Dated, Unexpired;
      TimePasses(OnFile(), history, Kept(), ttl, clock, now);
      TimePasses(sessions, history, Kept(), ttl, clock, now);
      TimePasses(map[], history, Kept(), ttl, clock, now);
      if Kept() { FileLoads(OnFile(), history, Kept(), ttl, now); }
      all := Seen(now);
      sessions := all;
      loaded := true;
      clock := now;
    }

    method WriteAll(all: map<string, Record>)
      modifies this`sessions, this`loaded, this`file
      ensures loaded && sessions == all && file == if Kept() then Some(all) else old(file)
    {
      sessions := all;
      loaded := true;
      if path == "" {
        return;
      }
      file := Some(all);
    }

    method Create(token: string, principal: Principal, now: int)
      requires Valid() && now >= clock
      modifies this
      ensures Valid() && clock == now
      ensures history == old(history) + [Created(token, principal, now)]
      ensures sessions == old(Seen(now))[token := Record(principal, now, now, if ttl > 0 then now + ttl else ZERO_TIME)]
      ensures file == if Kept() then Some(sessions) else old(file)
    {
      hide InMemory, InFile, Dated;
      var all := LoadAll(now);
      var record := NewSessionRecord(principal, now, ZERO_TIME);
      ghost var op := Created(token, principal, now);
      WriteFits(all, history, Kept(), ttl, now, op, record);
      all := all[token := record];
      history := history + [op];
      MemoryFitsFile(all, history, Kept(), ttl, now);
      WriteAll(all);
    }

    method Get(token: string, now: int) returns (r: Option<Principal>)
      requires Valid() && now >= clock
      modifies this
      ensures Valid() && clock == now && history == old(history)
      ensures r == Answer(history, token, Kept(), ttl, now)
    {
      hide InMemory, InFile, Dated, Answer;
      var all := LoadAll(now);
      SeenAnswers(all, history, Kept(), ttl, now, token);
      if token !in all {
        return None;
      }
      var record := all[token];
      if IsExpired(record, now) {
        DropExpiredFits(all, history, Kept(), ttl, now, token);
        all := all - {token};
        MemoryFitsFile(all, history, Kept(), ttl, now);
        WriteAll(all);
        return None;
      }
      r := Some(record.principal);
    }

    method Delete(token: string, now: int)
      requires Valid() && now >= clock
      modifies this
      ensures Valid() && clock == now
      ensures history == old(history) + [Deleted(token)]
    {
      hide InMemory, InFile, Dated;
      var all := LoadAll(now);
      DeleteFits(all, OnFile(), history, Kept(), ttl, now, token);
      history := history + [Deleted(token)];
      if token !in all {
        assert all - {token} == all;
        return;
      }
      all := all - {token};
      MemoryFitsFile(all, history, Kept(), ttl, now);
      WriteAll(all);
    }

    /** Updates a token that is seen; that is every live one, none that is gone, and an
        expired one that no call has removed yet. */
    method Update(token: string, principal: Principal, now: int)
      requires Valid() && now >= clock
      modifies this
      ensures Valid() && clock == now
      ensures history == if token in old(Seen(now)) then old(history) + [Updated(token, principal, now)] else old(history)
      ensures old(Answer(history, token, Kept(), ttl, now)).Some? ==> token in old(Seen(now))
      ensures old(StandingOf(history, token, Kept())).None? ==> token !in old(Seen(now))
      ensures token in old(Seen(now)) ==>
        var created := old(Seen(now))[token].createdAt;
        sessions == old(Seen(now))[token := Record(principal, if created == ZERO_TIME then now else created, now,
                                                   if ttl > 0 then now + ttl else ZERO_TIME)]
    {
      hide InMemory, InFile, Dated, Answer, StandingOf;
      var all := LoadAll(now);
      SeenAnswers(all, history, Kept(), ttl, now, token);
      if token !in all {
        return;
      }
      var record := NewSessionRecord(principal, now, all[token].createdAt);
      ghost var op := Updated(token, principal, now);
      WriteFits(all, history, Kept(), ttl, now, op, record);
      all := all[token := record];
      history := history + [op];
      MemoryFitsFile(all, history, Kept(), ttl, now);
      WriteAll(all);
    }

    /** A new process: memory is gone, the file stays. */
    method Restart()
      requires Valid()
      modifies this
      ensures Valid() && clock == old(clock) && file == old(file)
      ensures history == old(history) + [Restarted]
    {
      hide InMemory, InFile, Dated;
      RestartFits(OnFile(), history, Kept(), ttl, clock);
      history := history + [Restarted];
      sessions := map[];
      loaded := false;
    }
  }
}
