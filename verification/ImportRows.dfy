/** The rows of the item import (internal/importacp/importacp.go, normalizeRows): one
    entry per item name, whatever its case, each with one agent. */
module ImportRows {
  import opened Text

  datatype Row = Row(agent: string, name: string, price: real, barcode: string)

  predicate Blank(r: Row) { TrimSpace(r.agent) == "" || TrimSpace(r.name) == "" }

  function First(r: Row): Row { Row(TrimSpace(r.agent), TrimSpace(r.name), r.price, TrimSpace(r.barcode)) }

  /** An entry after a further row of the same item: what it lacked is filled in. */
  function Merged(e: Row, r: Row): Row {
    e.(price := if e.price == 0.0 && r.price != 0.0 then r.price else e.price,
       barcode := if e.barcode == "" && TrimSpace(r.barcode) != "" then TrimSpace(r.barcode) else e.barcode)
  }

  function IndexOf(fold: Lowering, entries: seq<Row>, key: string): (k: nat)
    ensures k <= |entries|
    ensures k < |entries| ==> Key(fold, entries[k].name) == key
    ensures forall i :: 0 <= i < k ==> Key(fold, entries[i].name) != key
  {
    if |entries| == 0 || Key(fold, entries[0].name) == key then 0 else 1 + IndexOf(fold, entries[1..], key)
  }

  /** The entries of a file, None when an item has two agents. */
  function Entries(fold: Lowering, rows: seq<Row>): Option<seq<Row>> {
    if |rows| == 0 then Some([])
    else
      var es :- Entries(fold, rows[..|rows| - 1]);
      Added(fold, es, rows[|rows| - 1])
  }

  function Added(fold: Lowering, es: seq<Row>, r: Row): Option<seq<Row>> {
    if Blank(r) then Some(es)
    else
      var k := IndexOf(fold, es, Key(fold, r.name));
      if k == |es| then Some(es + [First(r)])
      else if Key(fold, es[k].agent) != Key(fold, r.agent) then None
      else Some(es[k := Merged(es[k], r)])
  }

  // ----- what the entries are -----

  ghost predicate Clean(fold: Lowering, es: seq<Row>) {
    && (forall k :: 0 <= k < |es| ==> TrimSpace(es[k].agent) == es[k].agent != "" && TrimSpace(es[k].name) == es[k].name != "")
    && (forall k, l :: 0 <= k < l < |es| ==> Key(fold, es[k].name) != Key(fold, es[l].name))
    && (forall k :: 0 <= k < |es| ==> TrimSpace(es[k].barcode) == es[k].barcode)
  }

  predicate Covers(fold: Lowering, es: seq<Row>, r: Row) {
    exists k :: 0 <= k < |es| && Key(fold, es[k].name) == Key(fold, r.name) && Key(fold, es[k].agent) == Key(fold, r.agent)
  }

  predicate Clash(fold: Lowering, a: Row, b: Row) {
    !Blank(a) && !Blank(b) && Key(fold, a.name) == Key(fold, b.name) && Key(fold, a.agent) != Key(fold, b.agent)
  }

  lemma FirstKeeps(fold: Lowering, r: Row)
    ensures Key(fold, First(r).name) == Key(fold, r.name) && Key(fold, First(r).agent) == Key(fold, r.agent)
    ensures !Blank(r) ==> Clean(fold, [First(r)])
  {
    hide TrimSpace;
    TrimIdempotent(r.agent);
    TrimIdempotent(r.name);
    TrimIdempotent(r.barcode);
  }

  lemma {:induction false} AddedIsClean(fold: Lowering, es: seq<Row>, r: Row)
    requires Clean(fold, es) && Added(fold, es, r).Some?
    ensures Clean(fold, Added(fold, es, r).value)
  {
    hide TrimSpace, Key;
    FirstKeeps(fold, r);
    TrimIdempotent(r.barcode);
    if !Blank(r) { assert Clean(fold, [First(r)]) && [First(r)][0] == First(r); }
  }

  lemma AddedCovers(fold: Lowering, es: seq<Row>, r: Row, other: Row)
    requires Added(fold, es, r).Some?
    ensures Covers(fold, es, other) ==> Covers(fold, Added(fold, es, r).value, other)
    ensures !Blank(r) ==> Covers(fold, Added(fold, es, r).value, r)
  {
    hide TrimSpace, Key, Blank;
    FirstKeeps(fold, r);
    var after := Added(fold, es, r).value;
    if k :| 0 <= k < |es| && Key(fold, es[k].name) == Key(fold, other.name) && Key(fold, es[k].agent) == Key(fold, other.agent) {
      assert after[k].name == es[k].name && after[k].agent == es[k].agent;
    }
    if !Blank(r) {
      var k := IndexOf(fold, es, Key(fold, r.name));
      assert Key(fold, after[k].name) == Key(fold, r.name) && Key(fold, after[k].agent) == Key(fold, r.agent);
    }
  }

  predicate Comes(fold: Lowering, r: Row, e: Row) {
    !Blank(r) && Key(fold, r.name) == Key(fold, e.name) && Key(fold, r.agent) == Key(fold, e.agent)
  }

  predicate FromRows(fold: Lowering, rows: seq<Row>, e: Row) {
    exists i :: 0 <= i < |rows| && Comes(fold, rows[i], e)
  }

  /** Every entry comes from some row. */
  ghost predicate Sourced(fold: Lowering, es: seq<Row>, rows: seq<Row>) {
    forall k :: 0 <= k < |es| ==> FromRows(fold, rows, es[k])
  }

  lemma AddedIsSourced(fold: Lowering, es: seq<Row>, rows: seq<Row>, r: Row)
    requires Sourced(fold, es, rows) && Added(fold, es, r).Some?
    ensures Sourced(fold, Added(fold, es, r).value, rows + [r])
  {
    hide TrimSpace, Key, Blank;
    FirstKeeps(fold, r);
    var after := Added(fold, es, r).value;
    var all := rows + [r];
    hide Comes;
    forall k | 0 <= k < |after| ensures FromRows(fold, all, after[k]) {
      if k < |es| {
        assert FromRows(fold, rows, es[k]);
        var i :| 0 <= i < |rows| && Comes(fold, rows[i], es[k]);
        assert all[i] == rows[i];
        SameComes(fold, rows[i], es[k], after[k]);
      } else {
        assert all[|rows|] == r;
        ComesFirst(fold, r);
      }
    }
  }

  lemma SameComes(fold: Lowering, r: Row, e: Row, f: Row)
    requires Comes(fold, r, e) && f.name == e.name && f.agent == e.agent
    ensures Comes(fold, r, f)
  {
  }

  lemma ComesFirst(fold: Lowering, r: Row)
    requires !Blank(r)
    ensures Comes(fold, r, First(r))
  {
    hide TrimSpace;
    FirstKeeps(fold, r);
  }

  /** The file is refused exactly when two of its rows give one item two agents; otherwise
      the entries have distinct names and stand for the non-blank rows, no more, no less. */
  lemma {:induction false} EntriesIff(fold: Lowering, rows: seq<Row>)
    ensures Entries(fold, rows).None? <==> exists i, j :: 0 <= i < j < |rows| && Clash(fold, rows[i], rows[j])
    ensures Entries(fold, rows).Some? ==>
      var es := Entries(fold, rows).value;
      Clean(fold, es) && Sourced(fold, es, rows) && forall i :: 0 <= i < |rows| && !Blank(rows[i]) ==> Covers(fold, es, rows[i])
  {
    hide TrimSpace, Key, Covers, Clean, Sourced, Blank, Added, Clash;
    if |rows| == 0 {
      NothingIsClean(fold);
    } else {
      var n := |rows| - 1;
      var r := rows[n];
      EntriesIff(fold, rows[..n]);
      assert rows == rows[..n] + [r];
      if Entries(fold, rows[..n]).None? {
        var i, j :| 0 <= i < j < n && Clash(fold, rows[..n][i], rows[..n][j]);
        assert Clash(fold, rows[i], rows[j]);
      } else {
        var es := Entries(fold, rows[..n]).value;
        forall i, j | 0 <= i < j < n ensures !Clash(fold, rows[i], rows[j]) {
          assert !Clash(fold, rows[..n][i], rows[..n][j]);
        }
        forall i | 0 <= i < n && !Blank(rows[i]) ensures Covers(fold, es, rows[i]) {
          assert Covers(fold, es, rows[..n][i]);
        }
        RefusedIff(fold, es, rows, r);
        if Added(fold, es, r).Some? {
          AddedIsClean(fold, es, r);
          AddedIsSourced(fold, es, rows[..n], r);
          forall i | 0 <= i < |rows| && !Blank(rows[i]) ensures Covers(fold, Added(fold, es, r).value, rows[i]) {
            AddedCovers(fold, es, r, rows[i]);
          }
        }
      }
    }
  }

  predicate Names(fold: Lowering, r: Row, key: string) { !Blank(r) && Key(fold, r.name) == key }

  /** The i-th row is the first of its item with a price. */
  predicate FirstPriced(fold: Lowering, rows: seq<Row>, key: string, i: nat, price: real) {
    && i < |rows| && Names(fold, rows[i], key) && rows[i].price == price
    && forall j :: 0 <= j < i && Names(fold, rows[j], key) ==> rows[j].price == 0.0
  }

  /** An entry's price is the first non-zero price among the rows of its item. */
  ghost predicate PricedAs(fold: Lowering, rows: seq<Row>, key: string, price: real) {
    if price == 0.0 then forall j :: 0 <= j < |rows| && Names(fold, rows[j], key) ==> rows[j].price == 0.0
    else exists i: nat :: FirstPriced(fold, rows, key, i, price)
  }

  lemma PricedSnoc(fold: Lowering, rows: seq<Row>, r: Row, key: string, price: real)
    requires PricedAs(fold, rows, key, price)
    ensures PricedAs(fold, rows + [r], key, if price == 0.0 && Names(fold, r, key) then r.price else price)
  {
    hide Names;
    var all := rows + [r];
    assert all[|rows|] == r && forall j :: 0 <= j < |rows| ==> all[j] == rows[j];
    if price != 0.0 {
      var i: nat :| FirstPriced(fold, rows, key, i, price);
      assert FirstPriced(fold, all, key, i, price);
    } else if Names(fold, r, key) && r.price != 0.0 {
      assert FirstPriced(fold, all, key, |rows|, r.price);
    }
  }

  lemma {:induction false} EntryPrice(fold: Lowering, rows: seq<Row>, k: nat)
    requires Entries(fold, rows).Some? && k < |Entries(fold, rows).value|
    ensures var e := Entries(fold, rows).value[k]; PricedAs(fold, rows, Key(fold, e.name), e.price)
  {
    hide TrimSpace, Key, PricedAs, Clean, Sourced, Covers, Blank;
    var n := |rows| - 1;
    var es := Entries(fold, rows[..n]).value;
    var r := rows[n];
    assert rows == rows[..n] + [r];
    EntriesIff(fold, rows[..n]);
    FirstKeeps(fold, r);
    if k < |es| {
      EntryPrice(fold, rows[..n], k);
      PricedSnoc(fold, rows[..n], r, Key(fold, es[k].name), es[k].price);
      OneEntryEach(fold, es, k, Key(fold, r.name));
    } else {
      NewEntryPriced(fold, rows[..n], es, Key(fold, r.name));
      PricedSnoc(fold, rows[..n], r, Key(fold, r.name), 0.0);
    }
  }

  lemma OneEntryEach(fold: Lowering, es: seq<Row>, k: nat, key: string)
    requires Clean(fold, es) && k < |es|
    ensures Key(fold, es[k].name) == key <==> IndexOf(fold, es, key) == k
  {
    hide TrimSpace, Key;
  }

  lemma NewEntryPriced(fold: Lowering, rows: seq<Row>, es: seq<Row>, key: string)
    requires IndexOf(fold, es, key) == |es|
    requires forall i :: 0 <= i < |rows| && !Blank(rows[i]) ==> Covers(fold, es, rows[i])
    ensures PricedAs(fold, rows, key, 0.0)
  {
    hide TrimSpace, Key, Blank, Covers, Names;
    forall j | 0 <= j < |rows| ensures !Names(fold, rows[j], key) {
      NotNamed(fold, es, rows[j], key);
    }
  }

  lemma NotNamed(fold: Lowering, es: seq<Row>, r: Row, key: string)
    requires IndexOf(fold, es, key) == |es| && (!Blank(r) ==> Covers(fold, es, r))
    ensures !Names(fold, r, key)
  {
    hide TrimSpace, Key, Blank;
    if !Blank(r) {
      var k :| 0 <= k < |es| && Key(fold, es[k].name) == Key(fold, r.name);
      assert Key(fold, es[k].name) != key;
    }
  }

  lemma NothingIsClean(fold: Lowering)
    ensures Clean(fold, []) && Sourced(fold, [], [])
  {
  }

  lemma RefusedIff(fold: Lowering, es: seq<Row>, rows: seq<Row>, r: Row)
    requires |rows| > 0 && rows[|rows| - 1] == r
    requires Clean(fold, es) && Sourced(fold, es, rows[..|rows| - 1])
    requires forall i :: 0 <= i < |rows| - 1 && !Blank(rows[i]) ==> Covers(fold, es, rows[i])
    ensures Added(fold, es, r).None? <==> exists i :: 0 <= i < |rows| - 1 && Clash(fold, rows[i], r)
  {
    hide TrimSpace, Key, Blank;
    if Added(fold, es, r).None? {
      var k := IndexOf(fold, es, Key(fold, r.name));
      var before := rows[..|rows| - 1];
      assert FromRows(fold, before, es[k]);
      var i :| 0 <= i < |before| && Comes(fold, before[i], es[k]);
      assert Clash(fold, rows[i], r);
    }
    if i :| 0 <= i < |rows| - 1 && Clash(fold, rows[i], r) {
      assert Covers(fold, es, rows[i]);
      var k :| 0 <= k < |es| && Key(fold, es[k].name) == Key(fold, rows[i].name) && Key(fold, es[k].agent) == Key(fold, rows[i].agent);
      var l := IndexOf(fold, es, Key(fold, r.name));
      assert l == k;
    }
  }

  // ----- the code -----

  datatype Normalized = Rows(entries: seq<Row>, rowsRead: nat) | TwoAgents(rowsRead: nat) | NoRows(rowsRead: nat)

  function RowsRead(rows: seq<Row>): nat {
    if |rows| == 0 then 0 else RowsRead(rows[..|rows| - 1]) + if Blank(rows[|rows| - 1]) then 0 else 1
  }

  /** Entries live in a map by key; a list keeps their order. */
  ghost predicate Tracks(fold: Lowering, byName: map<string, Row>, order: seq<string>, es: seq<Row>) {
    && |order| == |es|
    && (forall k :: 0 <= k < |es| ==> order[k] == Key(fold, es[k].name) && order[k] in byName && byName[order[k]] == es[k])
    && (forall key :: key in byName ==> key in order)
  }

  lemma TracksIndex(fold: Lowering, byName: map<string, Row>, order: seq<string>, es: seq<Row>, key: string)
    requires Tracks(fold, byName, order, es) && Clean(fold, es)
    ensures key in byName <==> IndexOf(fold, es, key) < |es|
    ensures key in byName ==> byName[key] == es[IndexOf(fold, es, key)]
  {
    hide TrimSpace, Key;
    var k := IndexOf(fold, es, key);
    if key in byName {
      var l :| 0 <= l < |order| && order[l] == key;
      assert Key(fold, es[l].name) == key;
    }
    if k < |es| { assert order[k] == key; }
  }

  lemma {:induction false} TracksMerge(fold: Lowering, byName: map<string, Row>, order: seq<string>, es: seq<Row>, k: nat, e: Row)
    requires Tracks(fold, byName, order, es) && Clean(fold, es) && k < |es| && e.name == es[k].name
    ensures Tracks(fold, byName[Key(fold, e.name) := e], order, es[k := e])
  {
    hide TrimSpace, Key;
    forall l | 0 <= l < |es| && l != k ensures Key(fold, es[l].name) != Key(fold, es[k].name) {
    }
  }

  lemma TracksAdd(fold: Lowering, byName: map<string, Row>, order: seq<string>, es: seq<Row>, e: Row)
    requires Tracks(fold, byName, order, es) && Key(fold, e.name) !in byName
    ensures Tracks(fold, byName[Key(fold, e.name) := e], order + [Key(fold, e.name)], es + [e])
  {
    hide TrimSpace, Key;
  }

  lemma TracksNone(fold: Lowering, byName: map<string, Row>, order: seq<string>, es: seq<Row>)
    requires Tracks(fold, byName, order, es)
    ensures |byName| == 0 <==> es == []
  {
    if es != [] { assert order[0] in byName; }
    if |byName| != 0 {
      var key :| key in byName;
      assert key in order;
    }
  }

  lemma {:induction false} OneRow(fold: Lowering, rows: seq<Row>, i: nat)
    requires i < |rows| && Entries(fold, rows[..i]).Some?
    ensures Entries(fold, rows[..i + 1]) == Added(fold, Entries(fold, rows[..i]).value, rows[i])
    ensures RowsRead(rows[..i + 1]) == RowsRead(rows[..i]) + if Blank(rows[i]) then 0 else 1
    ensures Clean(fold, Entries(fold, rows[..i]).value)
  {
    hide Added, Clean;
    assert rows[..i + 1][..i] == rows[..i];
    EntriesIff(fold, rows[..i]);
  }

  method NormalizeRows(fold: Lowering, rows: seq<Row>) returns (r: Normalized)
    ensures r.TwoAgents? <==> Entries(fold, rows).None?
    ensures r.NoRows? <==> Entries(fold, rows) == Some([])
    ensures r.Rows? ==> Entries(fold, rows) == Some(r.entries) && r.rowsRead == RowsRead(rows)
  {
    hide TrimSpace, Key, Clean, Entries, Tracks, RowsRead;
    var rowsRead := 0;
    var entriesByName: map<string, Row> := map[];
    var order: seq<string> := [];
    ghost var es: seq<Row> := [];
    NoneTracked(fold);
    assert rows[..0] == [];
    for i := 0 to |rows|
      invariant Entries(fold, rows[..i]) == Some(es) && Tracks(fold, entriesByName, order, es)
      invariant rowsRead == RowsRead(rows[..i])
    {
      var row := rows[i];
      OneRow(fold, rows, i);
      if TrimSpace(row.agent) == "" || TrimSpace(row.name) == "" {
        continue;
      }
      rowsRead := rowsRead + 1;
      var key := Key(fold, row.name);
      ghost var k := IndexOf(fold, es, key);
      TracksIndex(fold, entriesByName, order, es, key);
      if key in entriesByName {
        var existing := entriesByName[key];
        if Key(fold, existing.agent) != Key(fold, row.agent) {
          StaysRefused(fold, rows, i + 1);
          return TwoAgents(rowsRead);
        }
        if existing.price == 0.0 && row.price != 0.0 {
          existing := existing.(price := row.price);
        }
        if existing.barcode == "" && TrimSpace(row.barcode) != "" {
          existing := existing.(barcode := TrimSpace(row.barcode));
        }
        TracksMerge(fold, entriesByName, order, es, k, existing);
        entriesByName := entriesByName[key := existing];
        es := es[k := existing];
        continue;
      }
      FirstKeeps(fold, row);
      TracksAdd(fold, entriesByName, order, es, First(row));
      entriesByName := entriesByName[key := Row(TrimSpace(row.agent), TrimSpace(row.name), row.price, TrimSpace(row.barcode))];
      order := order + [key];
      es := es + [First(row)];
    }
    assert rows[..|rows|] == rows;
    TracksNone(fold, entriesByName, order, es);
    if |entriesByName| == 0 {
      return NoRows(rowsRead);
    }
    var result := InOrder(fold, entriesByName, order, es);
    r := Rows(result, rowsRead);
  }

  lemma NoneTracked(fold: Lowering)
    ensures Entries(fold, []) == Some([]) && Tracks(fold, map[], [], []) && RowsRead([]) == 0
  {
  }

  method InOrder(fold: Lowering, byName: map<string, Row>, order: seq<string>, ghost es: seq<Row>) returns (result: seq<Row>)
    requires Tracks(fold, byName, order, es)
    ensures result == es
  {
    hide TrimSpace, Key;
    result := [];
    for k := 0 to |order|
      invariant result == es[..k]
    {
      result := result + [byName[order[k]]];
    }
  }

  lemma {:induction false} StaysRefused(fold: Lowering, rows: seq<Row>, n: nat)
    requires n <= |rows| && Entries(fold, rows[..n]).None?
    ensures Entries(fold, rows).None?
    decreases |rows|
  {
    hide Added;
    if n < |rows| {
      assert rows[..|rows| - 1][..n] == rows[..n];
      StaysRefused(fold, rows[..|rows| - 1], n);
    } else {
      assert rows[..n] == rows;
    }
  }
}
