/** The push-token store (internal/core/push_token_store.go): device tokens in lists by
    user key, written to a file after each change. */
module PushTokens {
  import opened Text

  datatype Record = Record(token: string, platform: string, updatedAt: int)

  type Store = map<string, seq<Record>>

  /** The list under a key; a missing key reads as an empty list. */
  function At(all: Store, key: string): seq<Record> {
    if key in all then all[key] else []
  }

  function Without(records: seq<Record>, token: string): seq<Record> {
    if |records| == 0 then []
    else
      var last := records[|records| - 1];
      Without(records[..|records| - 1], token) + if TrimSpace(last.token) == token then [] else [last]
  }

  /** The store without a token, and without lists that become empty. */
  function Cleared(all: Store, token: string): Store {
    map k | k in all && Without(all[k], token) != [] :: Without(all[k], token)
  }

  function Placed(all: Store, key: string, r: Record): Store {
    all[key := Without(At(all, key), r.token) + [r]]
  }

  function Moved(all: Store, key: string, r: Record): Store {
    var cleared := Cleared(all, r.token);
    cleared[key := At(cleared, key) + [r]]
  }

  function Deleted(all: Store, key: string, token: string): Store {
    if Without(At(all, key), token) == [] then all - {key} else all[key := Without(At(all, key), token)]
  }

  // ----- filtering -----

  lemma {:induction false} WithoutMembers(records: seq<Record>, token: string)
    ensures forall r :: r in Without(records, token) <==> r in records && TrimSpace(r.token) != token
  {
    hide TrimSpace;
    if |records| > 0 {
      var before := records[..|records| - 1];
      WithoutMembers(before, token);
      assert records == before + [records[|records| - 1]];
    }
  }

  lemma {:induction false} WithoutTwice(records: seq<Record>, token: string)
    requires forall i :: 0 <= i < |records| ==> TrimSpace(records[i].token) != token
    ensures Without(records, token) == records
  {
    hide TrimSpace;
    if |records| > 0 {
      var n := |records| - 1;
      WithoutTwice(records[..n], token);
      assert records == records[..n] + [records[n]];
      assert TrimSpace(records[n].token) != token;
    }
  }

  lemma WithoutIdempotent(records: seq<Record>, token: string)
    ensures Without(Without(records, token), token) == Without(records, token)
  {
    hide TrimSpace, Without;
    WithoutMembers(records, token);
    var kept := Without(records, token);
    forall i | 0 <= i < |kept| ensures TrimSpace(kept[i].token) != token {
      assert kept[i] in kept;
    }
    WithoutTwice(kept, token);
  }

  ghost predicate DistinctTokens(records: seq<Record>) {
    forall i, j :: 0 <= i < j < |records| ==> records[i].token != records[j].token
  }

  lemma {:induction false} WithoutKeepsDistinct(records: seq<Record>, token: string)
    requires DistinctTokens(records)
    ensures DistinctTokens(Without(records, token))
  {
    hide TrimSpace;
    if |records| > 0 {
      var n := |records| - 1;
      WithoutKeepsDistinct(records[..n], token);
      WithoutMembers(records[..n], token);
      var kept := Without(records[..n], token);
      forall i | 0 <= i < |kept| ensures kept[i].token != records[n].token {
        assert kept[i] in kept;
      }
    }
  }

  lemma WithoutSnoc(records: seq<Record>, r: Record, token: string)
    ensures Without(records + [r], token) == if TrimSpace(r.token) == token then Without(records, token) else Without(records, token) + [r]
  {
    hide TrimSpace;
    assert (records + [r])[..|records|] == records;
  }

  // ----- one home per token -----

  predicate Holds(all: Store, key: string, token: string) {
    exists r :: r in At(all, key) && r.token == token
  }

  /** No list is empty, tokens are trimmed, and each sits under one key, once. */
  ghost predicate OneHome(all: Store) {
    && (forall k :: k in all ==> all[k] != [] && DistinctTokens(all[k]))
    && (forall k, r :: k in all && r in all[k] ==> TrimSpace(r.token) == r.token)
    && (forall k, l, r, s :: k in all && l in all && r in all[k] && s in all[l] && r.token == s.token ==> k == l)
  }

  lemma ClearedMembers(all: Store, key: string, token: string)
    ensures At(Cleared(all, token), key) == Without(At(all, key), token)
    ensures key in Cleared(all, token) <==> Without(At(all, key), token) != []
    ensures key in Cleared(all, token) ==> key in all
  {
  }

  lemma {:induction false} ClearedKeepsOneHome(all: Store, token: string)
    requires OneHome(all)
    ensures OneHome(Cleared(all, token))
    ensures forall k, r :: k in Cleared(all, token) && r in Cleared(all, token)[k] ==> r.token != token
  {
    hide TrimSpace, Without, DistinctTokens;
    forall k | k in all
      ensures DistinctTokens(Without(all[k], token))
      ensures forall r :: r in Without(all[k], token) <==> r in all[k] && TrimSpace(r.token) != token
    {
      WithoutKeepsDistinct(all[k], token);
      WithoutMembers(all[k], token);
    }
  }

  /** What the move leaves under each key. */
  lemma MovedLists(all: Store, key: string, r: Record, k: string)
    requires TrimSpace(r.token) == r.token
    ensures var moved := Moved(all, key, r); var kept := Without(At(all, k), r.token);
      && At(moved, k) == (if k == key then kept + [r] else kept)
      && (k in moved <==> k == key || kept != [])
      && Without(At(moved, k), r.token) == kept
  {
    hide TrimSpace, Without, Cleared;
    ClearedMembers(all, k, r.token);
    WithoutIdempotent(At(all, k), r.token);
    WithoutSnoc(Without(At(all, k), r.token), r, r.token);
  }

  /** Appending a token that no list holds keeps one home per token. */
  lemma AppendKeepsOneHome(cleared: Store, key: string, r: Record)
    requires OneHome(cleared) && TrimSpace(r.token) == r.token
    requires forall k, s :: k in cleared && s in cleared[k] ==> s.token != r.token
    ensures OneHome(cleared[key := At(cleared, key) + [r]])
    ensures var moved := cleared[key := At(cleared, key) + [r]]; forall k :: Holds(moved, k, r.token) <==> k == key
  {
    hide TrimSpace, DistinctTokens;
    var moved := cleared[key := At(cleared, key) + [r]];
    SnocKeepsDistinct(At(cleared, key), r);
    NoneIsDistinct();
    assert r in At(moved, key);
  }

  /** A moved token sits under its new key only, at the end; the others stay as they were. */
  lemma {:induction false} MovedKeepsOneHome(all: Store, key: string, r: Record)
    requires OneHome(all) && TrimSpace(r.token) == r.token
    ensures OneHome(Moved(all, key, r))
    ensures forall k :: Holds(Moved(all, key, r), k, r.token) <==> k == key
    ensures forall k :: Without(At(Moved(all, key, r), k), r.token) == Without(At(all, k), r.token)
  {
    hide TrimSpace, Without, Cleared, OneHome, Holds, At;
    ClearedKeepsOneHome(all, r.token);
    AppendKeepsOneHome(Cleared(all, r.token), key, r);
    forall k ensures Without(At(Moved(all, key, r), k), r.token) == Without(At(all, k), r.token) {
      MovedLists(all, key, r, k);
    }
  }

  lemma NoneIsDistinct()
    ensures DistinctTokens([])
  {
  }

  lemma SnocKeepsDistinct(records: seq<Record>, r: Record)
    requires forall s :: s in records ==> s.token != r.token
    ensures DistinctTokens(records) ==> DistinctTokens(records + [r])
  {
    forall i | 0 <= i < |records| ensures records[i].token != r.token {
      assert records[i] in records;
    }
  }

  /** A deleted token leaves its key; everything else stays as it was. */
  lemma {:induction false} DeletedKeepsOneHome(all: Store, key: string, token: string)
    requires OneHome(all)
    ensures OneHome(Deleted(all, key, token))
    ensures forall t :: TrimSpace(t) == t ==> (Holds(Deleted(all, key, token), key, t) <==> Holds(all, key, t) && t != token)
    ensures forall k :: k != key ==> At(Deleted(all, key, token), k) == At(all, k)
    ensures Without(At(Deleted(all, key, token), key), token) == Without(At(all, key), token)
  {
    hide TrimSpace, Without, DistinctTokens;
    WithoutMembers(At(all, key), token);
    WithoutIdempotent(At(all, key), token);
    NoneIsDistinct();
    WithoutKeepsDistinct(At(all, key), token);
    var after := Deleted(all, key, token);
    assert At(after, key) == Without(At(all, key), token);
    forall t | TrimSpace(t) == t ensures Holds(after, key, t) <==> Holds(all, key, t) && t != token {
      if r :| r in At(all, key) && r.token == t && t != token { assert r in At(after, key); }
    }
  }

  // ----- runs -----

  datatype Op =
    | Move(key: string, token: string, platform: string, now: int)
    | Delete(key: string, token: string)

  function RecordOf(token: string, platform: string, now: int): Record {
    Record(TrimSpace(token), TrimSpace(platform), now)
  }

  function Step(all: Store, op: Op): Store {
    match op
    case Move(key, token, platform, now) => Moved(all, TrimSpace(key), RecordOf(token, platform, now))
    case Delete(key, token) => Deleted(all, key, TrimSpace(token))
  }

  function Run(ops: seq<Op>): Store {
    if |ops| == 0 then map[] else Step(Run(ops[..|ops| - 1]), ops[|ops| - 1])
  }

  /** Where a token should be: the key of its last move, unless deleted from it since. */
  function Home(ops: seq<Op>, token: string): Option<string> {
    if |ops| == 0 then None
    else
      var before := Home(ops[..|ops| - 1], token);
      match ops[|ops| - 1]
      case Move(key, t, _, _) => if TrimSpace(t) == token then Some(TrimSpace(key)) else before
      case Delete(key, t) => if TrimSpace(t) == token && before == Some(key) then None else before
  }

  /** After any run of moves and deletes each token sits once, under its home key only. */
  lemma {:induction false} EveryTokenIsHome(ops: seq<Op>)
    ensures OneHome(Run(ops))
    ensures forall k, t :: TrimSpace(t) == t ==> (Holds(Run(ops), k, t) <==> Home(ops, t) == Some(k))
  {
    hide TrimSpace, OneHome, Holds, Moved, Deleted;
    if |ops| == 0 {
      EmptyIsHome();
    } else {
      var before := Run(ops[..|ops| - 1]);
      EveryTokenIsHome(ops[..|ops| - 1]);
      match ops[|ops| - 1]
      case Move(key, token, platform, now) =>
        MoveMoves(before, TrimSpace(key), RecordOf(token, platform, now), token);
      case Delete(key, token) =>
        DeleteDeletes(before, key, TrimSpace(token));
    }
  }

  lemma EmptyIsHome()
    ensures OneHome(map[])
    ensures forall k, t :: !Holds(map[], k, t)
  {
  }

  lemma MoveMoves(all: Store, key: string, r: Record, token: string)
    requires OneHome(all) && r.token == TrimSpace(token)
    ensures OneHome(Moved(all, key, r))
    ensures forall k, t :: TrimSpace(t) == t ==>
      (Holds(Moved(all, key, r), k, t) <==> if t == r.token then k == key else Holds(all, k, t))
  {
    hide TrimSpace, OneHome, Moved, Without;
    TrimIdempotent(token);
    MovedKeepsOneHome(all, key, r);
    forall k, t | TrimSpace(t) == t && t != r.token ensures Holds(Moved(all, key, r), k, t) <==> Holds(all, k, t) {
      HoldsOther(all, Moved(all, key, r), k, t, r.token);
    }
  }

  /** What the filter by one token keeps tells where the other tokens are. */
  lemma HoldsOther(all: Store, after: Store, k: string, t: string, token: string)
    requires Without(At(after, k), token) == Without(At(all, k), token)
    requires TrimSpace(t) == t != token
    ensures Holds(after, k, t) <==> Holds(all, k, t)
  {
    hide TrimSpace, Without;
    WithoutMembers(At(after, k), token);
    WithoutMembers(At(all, k), token);
    if r :| r in At(after, k) && r.token == t { assert r in Without(At(after, k), token); }
    if r :| r in At(all, k) && r.token == t { assert r in Without(At(all, k), token); }
  }

  lemma {:induction false} DeleteDeletes(all: Store, key: string, token: string)
    requires OneHome(all)
    ensures OneHome(Deleted(all, key, token))
    ensures forall k, t :: TrimSpace(t) == t ==>
      (Holds(Deleted(all, key, token), k, t) <==> Holds(all, k, t) && !(k == key && t == token))
  {
    hide TrimSpace, OneHome, Deleted, Without;
    DeletedKeepsOneHome(all, key, token);
  }

  // ----- runs with puts -----

  /** A put may place a token under a second key, but any list stays non-empty and holds a
      token once. */
  ghost predicate OncePerKey(all: Store) {
    forall k :: k in all ==> all[k] != [] && DistinctTokens(all[k])
  }

  datatype Call = Other(op: Op) | Put(key: string, token: string, platform: string, now: int)

  function CallStep(all: Store, c: Call): Store {
    match c
    case Other(op) => Step(all, op)
    case Put(key, token, platform, now) => Placed(all, key, RecordOf(token, platform, now))
  }

  function RunCalls(calls: seq<Call>): Store {
    if |calls| == 0 then map[] else CallStep(RunCalls(calls[..|calls| - 1]), calls[|calls| - 1])
  }

  /** A list without a token, and that token appended. */
  lemma WithoutThenLast(records: seq<Record>, r: Record)
    requires DistinctTokens(records) && TrimSpace(r.token) == r.token
    ensures DistinctTokens(Without(records, r.token) + [r])
  {
    hide TrimSpace, Without, DistinctTokens;
    WithoutKeepsDistinct(records, r.token);
    WithoutMembers(records, r.token);
    SnocKeepsDistinct(Without(records, r.token), r);
  }

  /** A put token is last under its key; the other lists stay. */
  lemma PlacedKeepsOnce(all: Store, key: string, r: Record)
    requires OncePerKey(all) && TrimSpace(r.token) == r.token
    ensures OncePerKey(Placed(all, key, r)) && Holds(Placed(all, key, r), key, r.token)
    ensures forall k :: k != key ==> At(Placed(all, key, r), k) == At(all, k)
  {
    hide TrimSpace, Without, DistinctTokens;
    NoneIsDistinct();
    WithoutThenLast(At(all, key), r);
    assert r in At(Placed(all, key, r), key);
  }

  lemma MovedKeepsOnce(all: Store, key: string, r: Record)
    requires OncePerKey(all) && TrimSpace(r.token) == r.token
    ensures OncePerKey(Moved(all, key, r))
  {
    hide TrimSpace, Without, DistinctTokens, Moved;
    NoneIsDistinct();
    var moved := Moved(all, key, r);
    forall k | k in moved ensures moved[k] != [] && DistinctTokens(moved[k]) {
      MovedLists(all, key, r, k);
      WithoutThenLast(At(all, k), r);
      WithoutKeepsDistinct(At(all, k), r.token);
    }
  }

  lemma DeletedKeepsOnce(all: Store, key: string, token: string)
    requires OncePerKey(all)
    ensures OncePerKey(Deleted(all, key, token))
  {
    hide TrimSpace, Without, DistinctTokens;
    NoneIsDistinct();
    WithoutKeepsDistinct(At(all, key), token);
  }

  /** After any run of puts, moves and deletes no list is empty or holds a token twice. */
  lemma {:induction false} EveryListHoldsATokenOnce(calls: seq<Call>)
    ensures OncePerKey(RunCalls(calls))
  {
    hide TrimSpace, OncePerKey, Placed, Moved, Deleted;
    if |calls| == 0 {
      NoLists();
    } else {
      var before := RunCalls(calls[..|calls| - 1]);
      EveryListHoldsATokenOnce(calls[..|calls| - 1]);
      match calls[|calls| - 1]
      case Other(Move(key, token, platform, now)) =>
        TrimIdempotent(token);
        MovedKeepsOnce(before, TrimSpace(key), RecordOf(token, platform, now));
      case Other(Delete(key, token)) =>
        DeletedKeepsOnce(before, key, TrimSpace(token));
      case Put(key, token, platform, now) =>
        TrimIdempotent(token);
        PlacedKeepsOnce(before, key, RecordOf(token, platform, now));
    }
  }

  lemma NoLists()
    ensures OncePerKey(map[])
  {
  }

  // ----- the store -----

  class PushTokenStore {
    var loaded: bool
    var cache: Store
    /** The file: None while it does not exist. */
    var file: Option<Store>

    function Contents(): Store
      reads this
    {
      match file case None => map[] case Some(all) => all
    }

    ghost predicate Valid()
      reads this
    {
      loaded ==> cache == Contents()
    }

    constructor ()
      ensures Valid() && Contents() == map[]
    {
      loaded := false;
      cache := map[];
      file := None;
    }

    method LoadAll() returns (all: Store)
      requires Valid()
      modifies this`loaded, this`cache
      ensures Valid() && all == Contents()
    {
      if loaded {
        return cache;
      }
      cache := Contents();
      loaded := true;
      all := cache;
    }

    method WriteAll(all: Store)
      modifies this
      ensures Valid() && Contents() == all
    {
      file := Some(all);
      cache := all;
      loaded := true;
    }

    method Put(key: string, token: string, platform: string, now: int)
      requires Valid()
      modifies this
      ensures Valid()
      ensures Contents() == CallStep(old(Contents()), Call.Put(key, token, platform, now))
    {
      hide TrimSpace, Without;
      var all := LoadAll();
      var filtered := Filter(At(all, key), TrimSpace(token));
      filtered := filtered + [Record(TrimSpace(token), TrimSpace(platform), now)];
      all := all[key := filtered];
      WriteAll(all);
    }

    method Delete(key: string, token: string)
      requires Valid()
      modifies this
      ensures Valid()
      ensures Contents() == Step(old(Contents()), Op.Delete(key, token))
    {
      hide TrimSpace, Without;
      var all := LoadAll();
      var filtered := Filter(At(all, key), TrimSpace(token));
      if |filtered| == 0 {
        all := all - {key};
      } else {
        all := all[key := filtered];
      }
      WriteAll(all);
    }

    method MoveTokenToKey(targetKey: string, token: string, platform: string, now: int)
      requires Valid()
      modifies this
      ensures Valid()
      ensures Contents() == Step(old(Contents()), Op.Move(targetKey, token, platform, now))
    {
      hide TrimSpace, Without;
      var all := LoadAll();
      var trimmedToken := TrimSpace(token);
      all := ClearToken(all, trimmedToken);
      var trimmedKey := TrimSpace(targetKey);
      ClearedMembers(old(Contents()), trimmedKey, trimmedToken);
      WithoutIdempotent(At(old(Contents()), trimmedKey), trimmedToken);
      var filteredTarget := Filter(At(all, trimmedKey), trimmedToken);
      filteredTarget := filteredTarget + [Record(trimmedToken, TrimSpace(platform), now)];
      all := all[trimmedKey := filteredTarget];
      WriteAll(all);
    }

    method List(key: string) returns (records: seq<Record>)
      requires Valid()
      modifies this`loaded, this`cache
      ensures Valid() && records == At(Contents(), key)
    {
      var all := LoadAll();
      records := At(all, key);
    }
  }

  method Filter(records: seq<Record>, token: string) returns (filtered: seq<Record>)
    ensures filtered == Without(records, token)
  {
    hide TrimSpace;
    filtered := [];
    for i := 0 to |records|
      invariant filtered == Without(records[..i], token)
    {
      assert records[..i + 1][..i] == records[..i];
      if TrimSpace(records[i].token) == token {
        continue;
      }
      filtered := filtered + [records[i]];
    }
    assert records[..|records|] == records;
  }

  /** Keys are visited in any order and deleted while the map is ranged over. */
  method ClearToken(store: Store, token: string) returns (all: Store)
    ensures all == Cleared(store, token)
  {
    hide Without, Cleared;
    all := store;
    var remaining := store.Keys;
    ghost var cleared := Cleared(store, token);
    forall k ensures k in cleared ==> k in store {
      ClearedMembers(store, k, token);
    }
    while remaining != {}
      invariant remaining <= store.Keys
      invariant forall k :: k in all <==> k in remaining || k in cleared
      invariant forall k :: k in all ==> all[k] == if k in remaining then store[k] else cleared[k]
      decreases |remaining|
    {
      var key :| key in remaining;
      remaining := remaining - {key};
      var filtered := Filter(store[key], token);
      ClearedMembers(store, key, token);
      if |filtered| == 0 {
        all := all - {key};
      } else {
        all := all[key := filtered];
      }
    }
    assert all.Keys == cleared.Keys;
  }
}
