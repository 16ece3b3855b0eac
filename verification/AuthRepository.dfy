/** Supplier credentials in a sorted file (internal/suplier/auth_file_repository.go,
    internal/suplier/auth_codec.go): records are encoded with times in whole seconds,
    kept sorted by phone, and found by binary search. Times are nanoseconds since 1970. */
module AuthRepository {
  import opened Clock
  import opened Sorting
  import opened Text

  const INT32_SIZE: int := 0x1_0000_0000
  const INT32_MAX: int := 0x7FFF_FFFF
  type int32 = n: int | -INT32_MAX - 1 <= n <= INT32_MAX

  datatype Auth = Auth(
    phone: string, passwordHash: string, registeredAt: int, lastLoginAt: int,
    failedAttempts: int, lockedUntil: int, telegramUserId: int)

  /** A record of the file: times as Unix seconds, attempts as a 32-bit integer. */
  datatype Stored = Stored(
    phone: string, passwordHash: string, registeredUnix: int, lastLoginUnix: int,
    failedAttempts: int32, lockedUnix: int, telegramUserId: int)

  // ----- the codec -----

  /** time.Time.Unix */
  function Unix(t: int): int { t / SECOND }

  function FromUnix(u: int): int {
    if u > 0 then u * SECOND else ZERO_TIME
  }

  /** int32(n) */
  function Int32(n: int): int32 {
    var low := n % INT32_SIZE;
    if low > INT32_MAX then low - INT32_SIZE else low
  }

  function Encode(a: Auth): Stored {
    Stored(a.phone, a.passwordHash, Unix(a.registeredAt), Unix(a.lastLoginAt), Int32(a.failedAttempts), Unix(a.lockedUntil), a.telegramUserId)
  }

  function Decode(s: Stored): Auth {
    Auth(s.phone, s.passwordHash, FromUnix(s.registeredUnix), FromUnix(s.lastLoginUnix), s.failedAttempts, FromUnix(s.lockedUnix), s.telegramUserId)
  }

  /** What a record is after it was written and read. */
  function Kept(a: Auth): Auth { Decode(Encode(a)) }

  /** A zero time stays zero, a time from 1970-01-01T00:00:01 on keeps its second, and
      writing again changes nothing more. */
  lemma KeptTime(t: int)
    ensures t == ZERO_TIME ==> FromUnix(Unix(t)) == ZERO_TIME
    ensures t >= 1_000_000_000 ==> FromUnix(Unix(t)) <= t < FromUnix(Unix(t)) + 1_000_000_000 && FromUnix(Unix(t)) % 1_000_000_000 == 0
    ensures t < 1_000_000_000 ==> FromUnix(Unix(t)) == ZERO_TIME
    ensures FromUnix(Unix(FromUnix(Unix(t)))) == FromUnix(Unix(t))
  {
  }

  lemma DecodedIsKept(s: Stored)
    ensures Kept(Decode(s)) == Decode(s)
  {
  }

  function EncodeAll(items: seq<Auth>): (r: seq<Stored>)
    ensures |r| == |items|
  {
    seq(|items|, i requires 0 <= i < |items| => Encode(items[i]))
  }

  function DecodeAll(items: seq<Stored>): (r: seq<Auth>)
    ensures |r| == |items|
  {
    seq(|items|, i requires 0 <= i < |items| => Decode(items[i]))
  }

  method EncodeSupplierAuths(items: seq<Auth>) returns (records: seq<Stored>)
    ensures records == EncodeAll(items)
  {
    records := [];
    for i := 0 to |items|
      invariant records == EncodeAll(items)[..i]
    {
      records := records + [Encode(items[i])];
    }
  }

  method DecodeSupplierAuths(records: seq<Stored>) returns (items: seq<Auth>)
    ensures items == DecodeAll(records)
  {
    items := [];
    for i := 0 to |records|
      invariant items == DecodeAll(records)[..i]
    {
      var item := Auth(records[i].phone, records[i].passwordHash, ZERO_TIME, ZERO_TIME, records[i].failedAttempts, ZERO_TIME, records[i].telegramUserId);
      if records[i].registeredUnix > 0 {
        item := item.(registeredAt := records[i].registeredUnix * SECOND);
      }
      if records[i].lastLoginUnix > 0 {
        item := item.(lastLoginAt := records[i].lastLoginUnix * SECOND);
      }
      if records[i].lockedUnix > 0 {
        item := item.(lockedUntil := records[i].lockedUnix * SECOND);
      }
      items := items + [item];
    }
  }

  // ----- order of phones -----

  predicate ByPhone(a: Auth, b: Auth) { Less(a.phone, b.phone) }

  ghost predicate Sorted(items: seq<Auth>) {
    forall i, j :: 0 <= i < j < |items| ==> Less(items[i].phone, items[j].phone)
  }

  predicate DistinctPhones(items: seq<Auth>) {
    forall i, j :: 0 <= i < j < |items| ==> items[i].phone != items[j].phone
  }

  lemma ByPhoneIsOrder()
    ensures IsOrder(ByPhone)
  {
    hide Less;
    forall a: Auth, b: Auth | ByPhone(a, b) ensures !ByPhone(b, a) {
      LessTotal(a.phone, b.phone);
    }
    forall a: Auth, b: Auth, c: Auth | !ByPhone(b, a) && !ByPhone(c, b) ensures !ByPhone(c, a) {
      NotLessTransitive(a.phone, b.phone, c.phone);
    }
  }

  method SortByPhone(items: seq<Auth>) returns (sorted: seq<Auth>)
    ensures multiset(sorted) == multiset(items) && Ordered(sorted, ByPhone)
  {
    ByPhoneIsOrder();
    sorted := SortSlice(items, ByPhone);
  }

  lemma OrderedDistinctIsSorted(items: seq<Auth>)
    requires Ordered(items, ByPhone) && DistinctPhones(items)
    ensures Sorted(items)
  {
    forall i, j | 0 <= i < j < |items| ensures Less(items[i].phone, items[j].phone) {
      LessTotal(items[i].phone, items[j].phone);
    }
  }

  lemma SortedIsDistinct(items: seq<Auth>)
    requires Sorted(items)
    ensures DistinctPhones(items)
  {
    forall i, j | 0 <= i < j < |items| ensures items[i].phone != items[j].phone {
      LessTotal(items[i].phone, items[j].phone);
    }
  }

  // ----- binary search -----

  /** sort.Search for the first phone that is not below the one sought. */
  method SearchPhone(items: seq<Auth>, phone: string) returns (index: nat)
    ensures index <= |items|
    ensures index > 0 ==> Less(items[index - 1].phone, phone)
    ensures index < |items| ==> !Less(items[index].phone, phone)
  {
    var i, j := 0, |items|;
    while i < j
      invariant 0 <= i <= j <= |items|
      invariant i > 0 ==> Less(items[i - 1].phone, phone)
      invariant j < |items| ==> !Less(items[j].phone, phone)
    {
      var h := (i + j) / 2;
      if Less(items[h].phone, phone) {
        i := h + 1;
      } else {
        j := h;
      }
    }
    index := i;
  }

  /** In a sorted list the place found holds the phone exactly when the list does. */
  lemma SearchFinds(items: seq<Auth>, phone: string, index: nat)
    requires Sorted(items) && index <= |items|
    requires index > 0 ==> Less(items[index - 1].phone, phone)
    requires index < |items| ==> !Less(items[index].phone, phone)
    ensures (exists k :: 0 <= k < |items| && items[k].phone == phone) <==> index < |items| && items[index].phone == phone
    ensures forall k :: 0 <= k < |items| && items[k].phone == phone ==> k == index
  {
    hide Less;
    LessTotal(phone, phone);
    forall k | 0 <= k < index ensures items[k].phone != phone {
      if k < index - 1 { LessTransitive(items[k].phone, items[index - 1].phone, phone); }
    }
  }

  // ----- the list as a map -----

  function Book(items: seq<Auth>): map<string, Auth> {
    if |items| == 0 then map[]
    else
      var last := items[|items| - 1];
      Book(items[..|items| - 1])[last.phone := last]
  }

  lemma {:induction false} BookAt(items: seq<Auth>, k: nat)
    requires DistinctPhones(items) && k < |items|
    ensures items[k].phone in Book(items) && Book(items)[items[k].phone] == items[k]
  {
    var front := items[..|items| - 1];
    if k < |front| {
      assert front[k] == items[k];
      BookAt(front, k);
    }
  }

  lemma {:induction false} BookIndex(items: seq<Auth>, p: string) returns (k: nat)
    requires DistinctPhones(items) && p in Book(items)
    ensures k < |items| && items[k].phone == p && Book(items)[p] == items[k]
  {
    k := |items| - 1;
    if p != items[k].phone {
      var front := items[..k];
      k := BookIndex(front, p);
      assert items[k] == front[k];
    }
  }

  lemma BookHas(items: seq<Auth>)
    requires DistinctPhones(items)
    ensures forall k :: 0 <= k < |items| ==> items[k].phone in Book(items) && Book(items)[items[k].phone] == items[k]
    ensures forall p :: p in Book(items) ==> exists k :: 0 <= k < |items| && items[k].phone == p
  {
    hide Book, DistinctPhones;
    forall k | 0 <= k < |items| ensures items[k].phone in Book(items) && Book(items)[items[k].phone] == items[k] {
      BookAt(items, k);
    }
    forall p | p in Book(items) ensures exists k :: 0 <= k < |items| && items[k].phone == p {
      var k := BookIndex(items, p);
    }
  }

  lemma BookWithin(a: seq<Auth>, b: seq<Auth>, p: string)
    requires DistinctPhones(a) && DistinctPhones(b) && (forall x :: x in a ==> x in b) && p in Book(a)
    ensures p in Book(b) && Book(b)[p] == Book(a)[p]
  {
    hide Book, DistinctPhones;
    var k := BookIndex(a, p);
    assert a[k] in b;
    var j :| 0 <= j < |b| && b[j] == a[k];
    BookAt(b, j);
  }

  /** Two lists of distinct phones with the same members are the same map. */
  lemma SameMembersSameBook(a: seq<Auth>, b: seq<Auth>)
    requires DistinctPhones(a) && DistinctPhones(b) && forall x :: x in a <==> x in b
    ensures Book(a) == Book(b)
  {
    hide Book, DistinctPhones;
    forall p | p in Book(a) ensures p in Book(b) && Book(b)[p] == Book(a)[p] {
      BookWithin(a, b, p);
    }
    forall p | p in Book(b) ensures p in Book(a) {
      BookWithin(b, a, p);
    }
  }

  /** A sorted list is determined by the map it holds. */
  lemma {:induction false} SortedListIsUnique(a: seq<Auth>, b: seq<Auth>)
    requires Sorted(a) && Sorted(b) && forall x :: x in a <==> x in b
    ensures a == b
  {
    assert |b| > 0 ==> b[0] in b;
    if |a| > 0 {
      assert a[0] in b;
      assert |b| > 0 && b[0] in a;
      HeadIsLeast(a, b[0]);
      HeadIsLeast(b, a[0]);
      LessTotal(a[0].phone, b[0].phone);
      assert a[0] == b[0];
      forall x ensures x in a[1..] <==> x in b[1..] {
        TailMembers(a, x);
        TailMembers(b, x);
      }
      SortedListIsUnique(a[1..], b[1..]);
      assert a == [a[0]] + a[1..] && b == [b[0]] + b[1..];
    }
  }

  lemma HeadIsLeast(a: seq<Auth>, x: Auth)
    requires Sorted(a) && x in a
    ensures x == a[0] || Less(a[0].phone, x.phone)
  {
  }

  lemma TailMembers(a: seq<Auth>, x: Auth)
    requires Sorted(a) && |a| > 0
    ensures x in a[1..] <==> x in a && x != a[0]
  {
    LessTotal(a[0].phone, a[0].phone);
    assert a == [a[0]] + a[1..];
    assert forall k :: 0 <= k < |a| - 1 ==> a[1..][k] == a[k + 1];
  }

  // ----- permutations -----

  lemma {:induction false} CountTwo(s: seq<Auth>, x: Auth)
    requires multiset(s)[x] >= 2
    ensures exists i, j :: 0 <= i < j < |s| && s[i] == x && s[j] == x
  {
    var n := |s| - 1;
    assert s == s[..n] + [s[n]];
    if s[n] == x {
      assert multiset(s[..n])[x] >= 1;
      assert x in s[..n];
      var i :| 0 <= i < n && s[..n][i] == x;
      assert s[i] == x;
    } else {
      CountTwo(s[..n], x);
      var i, j :| 0 <= i < j < n && s[..n][i] == x && s[..n][j] == x;
      assert s[i] == x && s[j] == x;
    }
  }

  lemma PermutationKeepsDistinct(a: seq<Auth>, b: seq<Auth>)
    requires multiset(a) == multiset(b) && DistinctPhones(a)
    ensures DistinctPhones(b)
  {
    forall i, j | 0 <= i < j < |b| ensures b[i].phone != b[j].phone {
      var x, y := b[i], b[j];
      assert x in multiset(b) && y in multiset(b);
      if x == y {
        assert b == b[..j] + b[j..];
        assert b[..j][i] == x && b[j..][0] == x;
        assert multiset(b)[x] >= 2;
        CountTwo(a, x);
      } else {
        assert x in a && y in a;
      }
    }
  }

  lemma PermutationMembers(a: seq<Auth>, b: seq<Auth>)
    requires multiset(a) == multiset(b)
    ensures forall x :: x in a <==> x in b
  {
    forall x ensures x in a <==> x in b {
      assert x in a <==> x in multiset(a);
      assert x in b <==> x in multiset(b);
    }
  }

  // ----- one upsert on the list -----

  function Changed(items: seq<Auth>, index: nat, auth: Auth): seq<Auth> {
    if index < |items| && items[index].phone == auth.phone then items[index := auth] else items + [auth]
  }

  lemma ReplacedBook(items: seq<Auth>, index: nat, auth: Auth)
    requires DistinctPhones(items) && index < |items| && items[index].phone == auth.phone
    ensures DistinctPhones(items[index := auth])
    ensures Book(items[index := auth]) == Book(items)[auth.phone := auth]
  {
    hide Book;
    var changed := items[index := auth];
    assert forall k :: 0 <= k < |items| ==> changed[k].phone == items[k].phone;
    BookAt(changed, index);
    BookAt(items, index);
    forall p | p in Book(changed) ensures p in Book(items) && Book(items)[auth.phone := auth][p] == Book(changed)[p] {
      var k := BookIndex(changed, p);
      BookAt(items, k);
    }
    forall p | p in Book(items) ensures p in Book(changed) {
      var k := BookIndex(items, p);
      BookAt(changed, k);
    }
  }

  lemma {:induction false} ChangedBook(items: seq<Auth>, index: nat, auth: Auth)
    requires DistinctPhones(items) && index <= |items|
    requires forall k :: 0 <= k < |items| && items[k].phone == auth.phone ==> k == index
    ensures DistinctPhones(Changed(items, index, auth))
    ensures Book(Changed(items, index, auth)) == Book(items)[auth.phone := auth]
    ensures auth in Changed(items, index, auth)
    ensures forall x :: x in Changed(items, index, auth) ==> x == auth || x in items
  {
    var changed := Changed(items, index, auth);
    if index < |items| && items[index].phone == auth.phone {
      ReplacedBook(items, index, auth);
      assert changed[index] == auth;
    } else {
      assert changed[..|changed| - 1] == items;
      assert changed[|items|] == auth;
    }
  }

  function KeptAll(items: seq<Auth>): (r: seq<Auth>)
    ensures |r| == |items|
  {
    seq(|items|, i requires 0 <= i < |items| => Kept(items[i]))
  }

  lemma KeptKeepsSorted(items: seq<Auth>)
    requires Sorted(items)
    ensures Sorted(KeptAll(items)) && DecodeAll(EncodeAll(items)) == KeptAll(items)
  {
    hide Less, Kept, Encode, Decode;
    forall k | 0 <= k < |items| ensures KeptAll(items)[k].phone == items[k].phone { KeptPhone(items[k]); }
    forall k | 0 <= k < |items| ensures DecodeAll(EncodeAll(items))[k] == KeptAll(items)[k] { KeptPhone(items[k]); }
  }

  lemma KeptPhone(a: Auth)
    ensures Kept(a).phone == a.phone && Kept(a) == Decode(Encode(a))
  {
  }

  /** Writing a list in which only one record is new changes only that record. */
  lemma KeptBook(items: seq<Auth>, auth: Auth)
    requires DistinctPhones(items) && auth in items
    requires forall x :: x in items && x != auth ==> Kept(x) == x
    ensures Book(KeptAll(items)) == Book(items)[auth.phone := Kept(auth)]
  {
    hide Kept, Book;
    var kept := KeptAll(items);
    forall k | 0 <= k < |items| ensures kept[k].phone == items[k].phone { KeptPhone(items[k]); }
    var a :| 0 <= a < |items| && items[a] == auth;
    BookAt(items, a);
    BookAt(kept, a);
    forall p | p in Book(kept) ensures p in Book(items) && Book(kept)[p] == Book(items)[auth.phone := Kept(auth)][p] {
      var k := BookIndex(kept, p);
      BookAt(items, k);
    }
    forall p | p in Book(items) ensures p in Book(kept) {
      var k := BookIndex(items, p);
      BookAt(kept, k);
    }
  }

  // ----- the repository -----

  class AuthFileRepository {
    /** The records of the file, or None while there is no file. */
    var file: Option<seq<Stored>>

    ghost function List(): seq<Auth>
      reads this
    {
      match file case None => [] case Some(records) => DecodeAll(records)
    }

    /** The list as a map from phones. */
    ghost function Contents(): map<string, Auth>
      reads this
    {
      Book(List())
    }

    ghost predicate Valid()
      reads this
    {
      Sorted(List())
    }

    constructor ()
      ensures Valid() && List() == []
    {
      file := None;
    }

    method ReadAll() returns (items: seq<Auth>)
      ensures items == List()
    {
      if file.None? {
        return [];
      }
      items := DecodeSupplierAuths(file.value);
    }

    method WriteAll(items: seq<Auth>) returns (ghost sorted: seq<Auth>)
      modifies this
      ensures multiset(sorted) == multiset(items) && Ordered(sorted, ByPhone) && file == Some(EncodeAll(sorted))
    {
      var inOrder := SortByPhone(items);
      sorted := inOrder;
      var records := EncodeSupplierAuths(inOrder);
      file := Some(records);
    }

    method FindByPhone(phone: string) returns (found: Option<Auth>)
      requires Valid()
      ensures found == if phone in Contents() then Some(Contents()[phone]) else None
    {
      var items := ReadAll();
      var index := SearchPhone(items, phone);
      SearchFinds(items, phone, index);
      SortedIsDistinct(items);
      BookHas(items);
      if index < |items| && items[index].phone == phone {
        return Some(items[index]);
      }
      found := None;
    }

    method Upsert(auth: Auth)
      requires Valid()
      modifies this
      ensures Valid()
      ensures Contents() == old(Contents())[auth.phone := Kept(auth)]
    {
      hide Less, Kept, Sorted, DistinctPhones, Book, Ordered;
      var items := ReadAll();
      forall k | 0 <= k < |items| ensures Kept(items[k]) == items[k] {
        DecodedIsKept(file.value[k]);
      }
      var index := SearchPhone(items, auth.phone);
      SearchFinds(items, auth.phone, index);
      SortedIsDistinct(items);
      ChangedBook(items, index, auth);
      ghost var changed := Changed(items, index, auth);
      if index < |items| && items[index].phone == auth.phone {
        items := items[index := auth];
      } else {
        items := items + [auth];
      }
      ghost var sorted := WriteAll(items);
      PermutationKeepsDistinct(changed, sorted);
      PermutationMembers(changed, sorted);
      SameMembersSameBook(changed, sorted);
      OrderedDistinctIsSorted(sorted);
      KeptKeepsSorted(sorted);
      KeptBook(sorted, auth);
    }
  }

  // ----- any run of upserts -----

  function Writes(book: map<string, Auth>, writes: seq<Auth>): map<string, Auth>
    decreases |writes|
  {
    if |writes| == 0 then book else Writes(book[writes[0].phone := Kept(writes[0])], writes[1..])
  }

  /** The last write to a phone, if any. */
  function LastWrite(writes: seq<Auth>, phone: string): Option<Auth> {
    if |writes| == 0 then None
    else
      match LastWrite(writes[1..], phone)
      case Some(a) => Some(a)
      case None => if writes[0].phone == phone then Some(writes[0]) else None
  }

  lemma {:induction false} WritesAreLastWrites(book: map<string, Auth>, writes: seq<Auth>, phone: string)
    ensures phone in Writes(book, writes) <==> phone in book || LastWrite(writes, phone).Some?
    ensures phone in Writes(book, writes) ==>
      Writes(book, writes)[phone] == match LastWrite(writes, phone) case Some(a) => Kept(a) case None => book[phone]
    decreases |writes|
  {
    hide Kept;
    if |writes| > 0 {
      WritesAreLastWrites(book[writes[0].phone := Kept(writes[0])], writes[1..], phone);
    }
  }

  /** From an empty file, after any upserts, a lookup returns the last write of that
      phone as the file keeps it, and nothing for a phone never written. */
  method UpsertAll(writes: seq<Auth>, phone: string) returns (found: Option<Auth>)
    ensures found == match LastWrite(writes, phone) case Some(a) => Some(Kept(a)) case None => None
  {
    var repository := new AuthFileRepository();
    ghost var book := repository.Contents();
    for i := 0 to |writes|
      invariant fresh(repository) && repository.Valid()
      invariant Writes(repository.Contents(), writes[i..]) == Writes(book, writes)
    {
      assert writes[i..][1..] == writes[i + 1..];
      repository.Upsert(writes[i]);
    }
    WritesAreLastWrites(book, writes, phone);
    found := repository.FindByPhone(phone);
  }
}
