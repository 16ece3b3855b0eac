/** Go's order on strings, and sort.Slice: some permutation in which nothing is out of
    order. */
module Sorting {

  /** Go's < on strings. */
  predicate Less(a: string, b: string) {
    if b == "" then false
    else if a == "" then true
    else a[0] < b[0] || (a[0] == b[0] && Less(a[1..], b[1..]))
  }

  lemma {:induction false} LessTotal(a: string, b: string)
    ensures Less(a, b) || Less(b, a) || a == b
    ensures !(Less(a, b) && Less(b, a))
    ensures !Less(a, a)
  {
    if a != "" && b != "" {
      LessTotal(a[1..], b[1..]);
      assert a == [a[0]] + a[1..] && b == [b[0]] + b[1..];
    }
    if a != "" { LessTotal(a[1..], a[1..]); }
  }

  lemma {:induction false} LessTransitive(a: string, b: string, c: string)
    requires Less(a, b) && Less(b, c)
    ensures Less(a, c)
  {
    if a != "" && a[0] == b[0] == c[0] { LessTransitive(a[1..], b[1..], c[1..]); }
  }

  lemma NotLessTransitive(a: string, b: string, c: string)
    requires !Less(b, a) && !Less(c, b)
    ensures !Less(c, a)
  {
    hide Less;
    LessTotal(a, b);
    LessTotal(b, c);
    LessTotal(a, c);
    if Less(a, b) && Less(b, c) { LessTransitive(a, b, c); }
  }

  // ----- sort.Slice -----

  /** What sort.Slice asks of its comparison. */
  ghost predicate IsOrder<T(!new)>(less: (T, T) -> bool) {
    && (forall a, b :: less(a, b) ==> !less(b, a))
    && (forall a, b, c :: !less(b, a) && !less(c, b) ==> !less(c, a))
  }

  predicate Ordered<T>(items: seq<T>, less: (T, T) -> bool) {
    forall i, j :: 0 <= i < j < |items| ==> !less(items[j], items[i])
  }

  method SortSlice<T(!new)>(items: seq<T>, less: (T, T) -> bool) returns (sorted: seq<T>)
    requires IsOrder(less)
    ensures multiset(sorted) == multiset(items) && Ordered(sorted, less)
  {
    hide IsOrder, Ordered;
    sorted := [];
    NothingToOrder(less);
    for i := 0 to |items|
      invariant multiset(sorted) == multiset(items[..i]) && Ordered(sorted, less)
    {
      var k := |sorted|;
      while k > 0 && less(items[i], sorted[k - 1])
        invariant 0 <= k <= |sorted|
        invariant forall j :: k <= j < |sorted| ==> less(items[i], sorted[j])
      {
        k := k - 1;
      }
      assert items[..i + 1] == items[..i] + [items[i]];
      InsertKeepsOrder(sorted, k, items[i], less);
      InsertedMembers(sorted, k, items[i]);
      sorted := sorted[..k] + [items[i]] + sorted[k..];
    }
    assert items[..|items|] == items;
  }

  lemma NothingToOrder<T>(less: (T, T) -> bool)
    ensures Ordered([], less)
  {
  }

  lemma InsertedMembers<T>(items: seq<T>, k: nat, item: T)
    requires k <= |items|
    ensures multiset(items[..k] + [item] + items[k..]) == multiset(items) + multiset{item}
  {
    assert items == items[..k] + items[k..];
  }

  lemma InsertKeepsOrder<T(!new)>(sorted: seq<T>, k: nat, item: T, less: (T, T) -> bool)
    requires IsOrder(less) && k <= |sorted| && Ordered(sorted, less)
    requires forall j :: k <= j < |sorted| ==> less(item, sorted[j])
    requires k > 0 ==> !less(item, sorted[k - 1])
    ensures Ordered(sorted[..k] + [item] + sorted[k..], less)
  {
    forall j | 0 <= j < k ensures !less(item, sorted[j]) {
      if j < k - 1 { assert !less(sorted[k - 1], sorted[j]) && !less(item, sorted[k - 1]); }
    }
    forall j | k <= j < |sorted| ensures !less(sorted[j], item) {
      assert less(item, sorted[j]);
    }
    hide IsOrder;
    OrderedParts(sorted[..k], item, sorted[k..], less);
  }

  lemma OrderedParts<T>(left: seq<T>, item: T, right: seq<T>, less: (T, T) -> bool)
    requires Ordered(left + right, less)
    requires forall j :: 0 <= j < |left| ==> !less(item, left[j])
    requires forall j :: 0 <= j < |right| ==> !less(right[j], item)
    ensures Ordered(left + [item] + right, less)
  {
    var all, both := left + [item] + right, left + right;
    forall i, j | 0 <= i < j < |all| ensures !less(all[j], all[i]) {
      var p := if i < |left| then i else i - 1;
      var q := if j < |left| then j else j - 1;
      if i != |left| && j != |left| { assert all[i] == both[p] && all[j] == both[q]; }
    }
  }

  // ----- permutations -----

  lemma SameMembers<T>(a: seq<T>, b: seq<T>)
    requires multiset(a) == multiset(b)
    ensures forall x :: x in a <==> x in b
  {
    forall x ensures x in a <==> x in b {
      assert x in a <==> x in multiset(a);
      assert x in b <==> x in multiset(b);
    }
  }

  lemma Dropped<T>(s: seq<T>, k: nat)
    requires k < |s|
    ensures multiset(s) == multiset(s[..k] + s[k + 1..]) + multiset{s[k]}
  {
    assert s == s[..k] + [s[k]] + s[k + 1..];
  }

  /** The last of one list is somewhere in the other; without it they are permutations still. */
  lemma TakeOut<T>(a: seq<T>, b: seq<T>) returns (k: nat)
    requires multiset(a) == multiset(b) && |a| > 0
    ensures k < |b| && b[k] == a[|a| - 1]
    ensures multiset(a[..|a| - 1]) == multiset(b[..k] + b[k + 1..])
  {
    var n := |a| - 1;
    SameMembers(a, b);
    assert a[n] in b;
    k :| 0 <= k < |b| && b[k] == a[n];
    Dropped(b, k);
    Dropped(a, n);
    assert a[..n] + a[n + 1..] == a[..n];
    SameRest(multiset(a[..n]), multiset(b[..k] + b[k + 1..]), a[n]);
  }

  lemma SameRest<T>(a: multiset<T>, b: multiset<T>, x: T)
    requires a + multiset{x} == b + multiset{x}
    ensures a == b
  {
    forall y ensures a[y] == b[y] {
      assert (a + multiset{x})[y] == (b + multiset{x})[y];
    }
  }

  lemma EmptyPermutation<T>(a: seq<T>, b: seq<T>)
    requires multiset(a) == multiset(b) && |a| == 0
    ensures b == []
  {
    assert |multiset(a)| == |a| && |multiset(b)| == |b|;
  }
}
