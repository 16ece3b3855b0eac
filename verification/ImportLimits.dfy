/** Where the import falls short: an item that ERP hides stops it half way, and a full page
    of customers stops a second import. Each is a family of inputs and one of its members. */
module ImportLimits {
  import opened Text
  import opened ImportRows
  import opened Importer

  // ----- two entries -----

  /** Two rows that are entries as they stand. */
  ghost predicate TwoItems(fold: Lowering, a: Row, b: Row) {
    !Blank(a) && !Blank(b) && First(a) == a && First(b) == b && Key(fold, a.name) != Key(fold, b.name)
  }

  lemma OneEntry(fold: Lowering, a: Row, more: seq<Row>)
    requires !Blank(a) && First(a) == a
    ensures ([a] + more)[..1] == [a] && Entries(fold, [a]) == Some([a])
  {
    hide TrimSpace, Key, Blank, First;
    assert [a][..0] == [];
    assert Entries(fold, []) == Some([]);
    assert [] + [a] == [a];
  }

  lemma SecondEntry(fold: Lowering, a: Row, b: Row)
    requires TwoItems(fold, a, b)
    ensures Added(fold, [a], b) == Some([a, b])
  {
    hide TrimSpace, Key, Blank, First;
    assert [a] + [b] == [a, b];
  }

  lemma TwoEntries(fold: Lowering, a: Row, b: Row)
    requires TwoItems(fold, a, b)
    ensures Entries(fold, [a, b]) == Some([a, b])
  {
    hide TrimSpace, Key, Blank, First, Entries, Added;
    OneEntry(fold, a, [b]);
    SecondEntry(fold, a, b);
    assert [a] + [b] == [a, b] && [a, b][..2] == [a, b];
    OneRow(fold, [a, b], 1);
  }

  lemma TwoEnsured(fold: Lowering, policy: Policy, customers: seq<Customer>, a: Row, b: Row)
    ensures Ensure(fold, policy, customers, [a, b])
      == EnsureOne(fold, policy, EnsureOne(fold, policy, Ensured(KeysOf(fold, Listed(customers)), customers, [], false), a.agent), b.agent)
  {
    hide EnsureOne, KeysOf, Listed;
    assert [a, b][..1] == [a] && [a][..0] == [];
    assert Ensure(fold, policy, customers, [a]) == EnsureOne(fold, policy, Ensure(fold, policy, customers, []), a.agent);
  }

  // ----- a hidden item -----

  /** A new item, then one that ERP holds but does not list: the first is imported, the
      second refused, whoever it is linked to. */
  lemma HalfImported(fold: Lowering, policy: Policy, erp: Erp, a: Row, b: Row, group: string)
    requires TwoItems(fold, a, b) && !Ensure(fold, policy, erp.customers, [a, b]).refused
    requires Key(fold, a.name) !in erp.items && Hidden(fold, erp.items, b)
    ensures Import(fold, policy, erp, [a, b], group).0 == ItemRefused
    ensures Key(fold, a.name) in Import(fold, policy, erp, [a, b], group).1.items
  {
    hide TrimSpace, Key, Blank, First, Entries, Ensure, Apply, HasKeys;
    var es := [a, b];
    TwoEntries(fold, a, b);
    EnsureCovers(fold, policy, erp.customers, es);
    assert es[1] == b && !Hidden(fold, erp.items, es[0]);
    FirstIsSecond(fold, erp.items, es);
    AllOrNothing(fold, policy, erp, es, group);
  }

  lemma FirstIsSecond(fold: Lowering, items: map<string, Item>, es: seq<Row>)
    requires |es| == 2 && !Hidden(fold, items, es[0]) && Hidden(fold, items, es[1])
    ensures FirstHidden(fold, items, es) == 1
  {
    hide Hidden;
  }

  function Same(c: char): char { c }

  lemma KeyOfWord(s: string)
    requires s != "" && Trimmed(s)
    ensures TrimSpace(s) == s && Key(Same, s) == s
  {
    hide TrimSpace;
    TrimmedIsFixed(s);
    LowerFixed(Same, s);
  }

  lemma HalfImportedExample(policy: Policy) returns (erp: Erp, rows: seq<Row>)
    ensures OneCustomerEach(erp.items) && IdsPresent(erp.customers)
    ensures "a" !in erp.items && "b" in erp.items && erp.items["b"].links == ["y"]
    ensures Import(Same, policy, erp, rows, "g").0 == ItemRefused && "a" in Import(Same, policy, erp, rows, "g").1.items
  {
    hide TrimSpace, ToLower;
    KeyOfWord("a");
    KeyOfWord("b");
    KeyOfWord("x");
    KeyOfWord("y");
    var x := Customer("x", "x");
    erp := Erp([x], map["b" := Item("b", "g", false, ["y"], 0.0, [])]);
    var a, b := Row("x", "a", 1.0, "a"), Row("x", "b", 1.0, "b");
    rows := [a, b];
    TwoEnsured(Same, policy, erp.customers, a, b);
    assert [x][..0] == [];
    assert "x" in KeysOf(Same, [x]);
    HalfImported(Same, policy, erp, a, b, "g");
  }

  // ----- a full page -----

  lemma {:induction false} NoKeyNobody(fold: Lowering, customers: seq<Customer>, key: string)
    requires forall i :: 0 <= i < |customers| ==> !Answers(fold, customers[i], key)
    ensures key !in KeysOf(fold, customers)
  {
    if key in KeysOf(fold, customers) { KeysAnswer(fold, customers, key); }
  }

  lemma LastHasKey(fold: Lowering, customers: seq<Customer>)
    requires |customers| > 0 && TrimSpace(customers[|customers| - 1].name) != ""
    ensures Key(fold, customers[|customers| - 1].name) in KeysOf(fold, customers)
  {
    hide TrimSpace, Key;
  }

  /** A page full of customers of which only the last is called like the first agent, and
      nobody like the second. */
  ghost predicate FullPage(fold: Lowering, customers: seq<Customer>, a: Row, b: Row) {
    && |customers| == 500 && IdsPresent(customers)
    && TrimSpace(customers[499].name) != "" && Key(fold, customers[499].name) == Key(fold, a.agent)
    && (forall i :: 0 <= i < 499 ==> !Answers(fold, customers[i], Key(fold, a.agent)))
    && (forall i :: 0 <= i < 500 ==> !Answers(fold, customers[i], Key(fold, b.agent)))
  }

  /** The first import creates the second agent's customer, which pushes the last one off
      the page. The next import of the same file is refused if the client's search or ERP
      finds that one, and otherwise creates it a second time. */
  lemma PushedOff(fold: Lowering, policy: Policy, customers: seq<Customer>, a: Row, b: Row, group: string)
    requires TwoItems(fold, a, b) && FullPage(fold, customers, a, b) && !Refuses(fold, policy, customers, b.agent)
    ensures var (outcome, after) := Import(fold, policy, Erp(customers, map[]), [a, b], group);
      && outcome == Done && after.customers == [Customer(b.agent, b.agent)] + customers
      && (if Refuses(fold, policy, after.customers, a.agent)
          then Import(fold, policy, after, [a, b], group) == (CustomerRefused, after)
          else |Import(fold, policy, after, [a, b], group).1.customers| > |after.customers|)
  {
    hide TrimSpace, Key, Blank, Entries, KeysOf, Apply, Refuses;
    var es, erp := [a, b], Erp(customers, map[]);
    TwoEntries(fold, a, b);
    FullPageEnsured(fold, policy, customers, a, b);
    EnsureCovers(fold, policy, customers, es);
    assert NoneHidden(fold, erp.items, es);
    var after := Import(fold, policy, erp, es, group).1;
    NobodyAdded(fold, policy, after.customers, es);
    EnsureCovers(fold, policy, after.customers, es);
    OffThePage(fold, customers, a, b);
    assert es[0] == a && FirstMissing(fold, KeysOf(fold, Listed(after.customers)), es) == 0;
  }

  lemma FullPageEnsured(fold: Lowering, policy: Policy, customers: seq<Customer>, a: Row, b: Row)
    requires FullPage(fold, customers, a, b) && First(b) == b && !Refuses(fold, policy, customers, b.agent)
    ensures var s := Ensure(fold, policy, customers, [a, b]);
      !s.refused && s.customers == [Customer(b.agent, b.agent)] + customers
  {
    hide TrimSpace, Key, KeysOf, Refuses;
    TwoEnsured(fold, policy, customers, a, b);
    LastHasKey(fold, customers);
    NoKeyNobody(fold, customers, Key(fold, b.agent));
  }

  lemma OffThePage(fold: Lowering, customers: seq<Customer>, a: Row, b: Row)
    requires FullPage(fold, customers, a, b)
    ensures Key(fold, a.agent) !in KeysOf(fold, Listed([Customer(b.agent, b.agent)] + customers))
  {
    hide TrimSpace, Key, KeysOf;
    var listed := Listed([Customer(b.agent, b.agent)] + customers);
    assert !Answers(fold, customers[499], Key(fold, b.agent));
    forall i | 0 <= i < |listed| ensures !Answers(fold, listed[i], Key(fold, a.agent)) {
      if i > 0 { assert listed[i] == customers[i - 1]; }
    }
    NoKeyNobody(fold, listed, Key(fold, a.agent));
  }

  function Mark(n: nat): string { seq(n + 1, _ => 'c') }

  /** A search that finds everybody. */
  function FindsAll(): Policy { Policy((customers, name) => customers, (customers, name) => false) }

  /** Such a page exists. */
  lemma PushedOffExample() returns (erp: Erp, rows: seq<Row>)
    ensures OneCustomerEach(erp.items) && IdsPresent(erp.customers)
    ensures var (outcome, after) := Import(Same, FindsAll(), erp, rows, "g");
      outcome == Done && Import(Same, FindsAll(), after, rows, "g") == (CustomerRefused, after)
  {
    hide TrimSpace, ToLower, Mark, Import;
    var customers := seq(500, (i: nat) => Customer(Mark(i), Mark(i)));
    forall i: nat ensures TrimSpace(Mark(i)) == Mark(i) != "" && Key(Same, Mark(i)) == Mark(i) && |Mark(i)| == i + 1 && Mark(i)[0] == 'c' {
      MarkIsWord(i);
    }
    KeyOfWord("a");
    KeyOfWord("b");
    var a, b := Row(Mark(499), "a", 1.0, "a"), Row("a", "b", 1.0, "b");
    erp, rows := Erp(customers, map[]), [a, b];
    PushedOff(Same, FindsAll(), customers, a, b, "g");
    var after := Import(Same, FindsAll(), erp, rows, "g").1;
    assert after.customers[500] == customers[499];
  }

  // ----- twenty rows -----

  /** The client's search: customers whose id or name contains the text, twenty at most. */
  predicate Matches(c: Customer, name: string) {
    Contains(Key(Same, c.id), Key(Same, name)) || Contains(Key(Same, c.name), Key(Same, name))
  }

  function Matching(customers: seq<Customer>, name: string): seq<Customer> {
    if |customers| == 0 then []
    else (if Matches(customers[0], name) then [customers[0]] else []) + Matching(customers[1..], name)
  }

  function Twenty(): Policy {
    Policy((customers, name) => var rows := Matching(customers, name); if |rows| > 20 then rows[..20] else rows,
           (customers, name) => false)
  }

  lemma {:induction false} AllMatch(customers: seq<Customer>, name: string)
    requires forall i :: 0 <= i < |customers| ==> Matches(customers[i], name)
    ensures Matching(customers, name) == customers
  {
    hide Matches;
    if |customers| > 0 { AllMatch(customers[1..], name); }
  }

  lemma {:induction false} NoneMatches(customers: seq<Customer>, name: string)
    requires forall i :: 0 <= i < |customers| ==> !Matches(customers[i], name)
    ensures Matching(customers, name) == []
  {
    hide Matches;
    if |customers| > 0 { NoneMatches(customers[1..], name); }
  }

  /** The longest name first: the last is c, and all the others contain it. */
  function Marks(): (customers: seq<Customer>)
    ensures |customers| == 500
    ensures forall i :: 0 <= i < 500 ==> customers[i] == Customer(Mark(500 - 1 - i), Mark(500 - 1 - i))
  {
    seq(500, i requires 0 <= i < 500 => Customer(Mark(500 - 1 - i), Mark(500 - 1 - i)))
  }

  lemma HoldsRune(s: string, c: char)
    ensures Contains(s, [c]) <==> c in s
  {
    if c in s {
      var i :| 0 <= i < |s| && s[i] == c;
      assert HasPrefix(s[i..], [c]);
    } else {
      forall i | 0 <= i <= |s| ensures !HasPrefix(s[i..], [c]) {
        assert i < |s| ==> s[i..][..1][0] == s[i];
      }
    }
  }

  lemma MarkMatches(n: nat)
    ensures var c := Customer(Mark(n), Mark(n)); Matches(c, "c") && !Matches(c, "a")
    ensures !Matches(Customer("a", "a"), "c")
  {
    hide TrimSpace, ToLower, Contains;
    KeyOfWord("a");
    KeyOfWord("c");
    KeyOfWord(Mark(n));
    assert Mark(n)[0] == 'c' && "a" == ['a'] && "c" == ['c'];
    HoldsRune(Mark(n), 'c');
    HoldsRune(Mark(n), 'a');
    HoldsRune("a", 'c');
  }

  lemma MarksContain()
    ensures Matching(Marks(), "c") == Marks() && Matching(Marks(), "a") == []
  {
    hide Mark, Matches, Marks, Matching;
    forall i | 0 <= i < 500 ensures Matches(Marks()[i], "c") && !Matches(Marks()[i], "a") {
      MarkMatches(500 - 1 - i);
    }
    AllMatch(Marks(), "c");
    NoneMatches(Marks(), "a");
  }

  lemma OneAway(c: Customer, customers: seq<Customer>, name: string)
    requires !Matches(c, name)
    ensures Matching([c] + customers, name) == Matching(customers, name)
  {
    hide Matches;
    assert ([c] + customers)[1..] == customers;
    assert [] + Matching(customers, name) == Matching(customers, name);
  }

  lemma TwentyMeans(customers: seq<Customer>, name: string)
    requires TrimSpace(name) == name
    ensures Refuses(Same, Twenty(), customers, name)
      <==> var rows := Matching(customers, name); SameName(Same, if |rows| > 20 then rows[..20] else rows, name)
  {
    hide SameName, Matching, TrimSpace;
  }

  lemma NoRows(name: string)
    ensures !SameName(Same, [], name)
  {
  }

  lemma TwentyOthers()
    ensures !SameName(Same, Marks()[..20], "c")
  {
    hide TrimSpace, Key, Mark, Marks;
    KeyOfWord("c");
    forall i | 0 <= i < 20 ensures Key(Same, Marks()[i].name) != "c" {
      MarkIsWord(500 - 1 - i);
    }
  }

  lemma ShortestMark()
    ensures Mark(0) == "c" && TrimSpace("c") == "c" && TrimSpace("a") == "a"
  {
    assert |Mark(0)| == 1 && Mark(0)[0] == 'c';
    TrimmedIsFixed("c");
    TrimmedIsFixed("a");
  }

  lemma MarksMatch()
    ensures !Refuses(Same, Twenty(), Marks(), "a")
    ensures !Refuses(Same, Twenty(), [Customer("a", "a")] + Marks(), Mark(0))
  {
    hide TrimSpace, Mark, Marks, Matching, Twenty, Refuses, SameName, Matches;
    ShortestMark();
    MarksContain();
    MarkMatches(0);
    OneAway(Customer("a", "a"), Marks(), "c");
    TwentyMeans(Marks(), "a");
    TwentyMeans([Customer("a", "a")] + Marks(), "c");
    NoRows("a");
    TwentyOthers();
  }

  lemma MarksFillPage(a: Row, b: Row)
    requires a.agent == Mark(0) && b.agent == "a"
    ensures FullPage(Same, Marks(), a, b)
  {
    hide TrimSpace, Key, Mark, Marks;
    KeyOfWord("a");
    MarkIsWord(0);
    forall i | 0 <= i < 500
      ensures var c := Marks()[i];
        c.id == c.name == TrimSpace(c.name) == Key(Same, c.name) && |c.name| == 500 - i && c.name[0] == 'c'
    {
      MarkIsWord(500 - 1 - i);
    }
  }

  /** A page on which twenty others have the sought name in theirs: the second import
      creates the first agent's customer again. */
  lemma CreatedTwice() returns (erp: Erp, rows: seq<Row>)
    ensures OneCustomerEach(erp.items) && IdsPresent(erp.customers)
    ensures var (outcome, after) := Import(Same, Twenty(), erp, rows, "g");
      outcome == Done && |Import(Same, Twenty(), after, rows, "g").1.customers| > |after.customers|
  {
    hide TrimSpace, Mark, Marks, Import, Twenty, Refuses, Key;
    var a, b := Row(Mark(0), "a", 1.0, "a"), Row("a", "b", 1.0, "b");
    erp, rows := Erp(Marks(), map[]), [a, b];
    ShortestMark();
    KeyOfWord("a");
    KeyOfWord("b");
    MarksFillPage(a, b);
    MarksMatch();
    PushedOff(Same, Twenty(), Marks(), a, b, "g");
  }

  lemma MarkIsWord(n: nat)
    ensures TrimSpace(Mark(n)) == Mark(n) != "" && Key(Same, Mark(n)) == Mark(n) && |Mark(n)| == n + 1 && Mark(n)[0] == 'c'
  {
    KeyOfWord(Mark(n));
  }
}
