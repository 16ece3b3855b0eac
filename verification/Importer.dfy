/** The item import (internal/importacp/importacp.go): one item, one customer. ERP is the
    state its calls read and write; items are filed by their code whatever its case. */
module Importer {
  import opened Text
  import opened ImportRows

  /** The page ERP returns for a customer search, however many are asked for. */
  const PAGE: nat := 500

  datatype Customer = Customer(id: string, name: string)

  /** An item is listed when it is enabled and kept in stock; a search finds no other. */
  datatype Item = Item(code: string, itemGroup: string, listed: bool, links: seq<string>, rate: real, barcodes: seq<string>)

  /** Customers are listed from the last modified to the first. */
  datatype Erp = Erp(customers: seq<Customer>, items: map<string, Item>)

  type Keys = map<string, Customer>

  // ----- customers -----

  function Listed(customers: seq<Customer>): seq<Customer> {
    if |customers| > PAGE then customers[..PAGE] else customers
  }

  function WithKey(fold: Lowering, keys: Keys, text: string, c: Customer): Keys {
    if TrimSpace(text) == "" then keys else keys[Key(fold, text) := c]
  }

  /** Customers by id and by name; a later one takes a key over. */
  function KeysOf(fold: Lowering, customers: seq<Customer>): Keys {
    if |customers| == 0 then map[]
    else
      var c := customers[|customers| - 1];
      WithKey(fold, WithKey(fold, KeysOf(fold, customers[..|customers| - 1]), c.id, c), c.name, c)
  }

  /** How a customer is refused: the client searches for the name and looks among the rows
      it gets for one of that name; otherwise ERP is asked and may reject it too. */
  datatype Policy = Policy(search: (seq<Customer>, string) -> seq<Customer>, rejects: (seq<Customer>, string) -> bool)

  predicate Refuses(fold: Lowering, policy: Policy, customers: seq<Customer>, name: string) {
    SameName(fold, policy.search(customers, TrimSpace(name)), name) || policy.rejects(customers, TrimSpace(name))
  }

  predicate SameName(fold: Lowering, rows: seq<Customer>, name: string) {
    exists i :: 0 <= i < |rows| && Key(fold, rows[i].name) == Key(fold, name)
  }

  /** Some customer answers to the name. */
  predicate NameTaken(fold: Lowering, customers: seq<Customer>, name: string) {
    exists i :: 0 <= i < |customers| && (Key(fold, customers[i].name) == Key(fold, name) || Key(fold, customers[i].id) == Key(fold, name))
  }

  datatype Ensured = Ensured(keys: Keys, customers: seq<Customer>, created: seq<string>, refused: bool)

  function EnsureOne(fold: Lowering, policy: Policy, s: Ensured, agent: string): Ensured {
    var key := Key(fold, agent);
    if s.refused || key in s.keys then s
    else if Refuses(fold, policy, s.customers, agent) then s.(refused := true)
    else
      var c := Customer(TrimSpace(agent), TrimSpace(agent));
      Ensured(s.keys[key := c], [c] + s.customers, s.created + [c.id], false)
  }

  function Ensure(fold: Lowering, policy: Policy, customers: seq<Customer>, es: seq<Row>): Ensured {
    if |es| == 0 then Ensured(KeysOf(fold, Listed(customers)), customers, [], false)
    else EnsureOne(fold, policy, Ensure(fold, policy, customers, es[..|es| - 1]), es[|es| - 1].agent)
  }

  // ----- items -----

  predicate Linked(fold: Lowering, links: seq<string>, id: string) {
    exists i :: 0 <= i < |links| && Key(fold, links[i]) == Key(fold, id)
  }

  predicate LinkedElsewhere(fold: Lowering, links: seq<string>, id: string) {
    exists i :: 0 <= i < |links| && TrimSpace(links[i]) != "" && Key(fold, links[i]) != Key(fold, id)
  }

  /** Linked to this customer and to nobody else. */
  predicate LinkedOnlyTo(fold: Lowering, links: seq<string>, id: string) {
    Linked(fold, links, id) && !LinkedElsewhere(fold, links, id)
  }

  /** ERP keeps a barcode on one item only. */
  predicate BarcodeTaken(fold: Lowering, items: map<string, Item>, barcode: string) {
    exists k :: k in items && HasBarcode(fold, items[k].barcodes, barcode)
  }

  predicate HasBarcode(fold: Lowering, barcodes: seq<string>, barcode: string) {
    exists i :: 0 <= i < |barcodes| && Key(fold, barcodes[i]) == Key(fold, barcode)
  }

  function Found(fold: Lowering, items: map<string, Item>, e: Row, group: string): Item {
    if Key(fold, e.name) in items then items[Key(fold, e.name)] else Item(TrimSpace(e.name), group, true, [], 0.0, [])
  }

  /** An item after its entry: linked, priced, barcoded. */
  function Imported(fold: Lowering, items: map<string, Item>, e: Row, c: Customer, group: string): Item {
    var item := Found(fold, items, e, group);
    item.(
      links := if Linked(fold, item.links, c.id) then item.links else item.links + [TrimSpace(c.id)],
      rate := e.price,
      barcodes := if e.barcode == "" || BarcodeTaken(fold, items, e.barcode) then item.barcodes else item.barcodes + [e.barcode])
  }

  predicate HasKeys(fold: Lowering, keys: Keys, es: seq<Row>) {
    forall i :: 0 <= i < |es| ==> Key(fold, es[i].agent) in keys
  }

  function Apply(fold: Lowering, items: map<string, Item>, keys: Keys, es: seq<Row>, group: string): map<string, Item>
    requires HasKeys(fold, keys, es)
  {
    if |es| == 0 then items
    else
      var e := es[|es| - 1];
      var before := Apply(fold, items, keys, es[..|es| - 1], group);
      before[Key(fold, e.name) := Imported(fold, before, e, keys[Key(fold, e.agent)], group)]
  }

  /** A search finds the entry's item. */
  predicate Seen(fold: Lowering, items: map<string, Item>, e: Row) {
    Key(fold, e.name) in items && items[Key(fold, e.name)].listed
  }

  /** ERP holds the entry's item although no search finds it. */
  predicate Hidden(fold: Lowering, items: map<string, Item>, e: Row) {
    Key(fold, e.name) in items && !items[Key(fold, e.name)].listed
  }

  function FirstHidden(fold: Lowering, items: map<string, Item>, es: seq<Row>): (j: nat)
    ensures j <= |es| && forall i :: 0 <= i < j ==> !Hidden(fold, items, es[i])
    ensures j < |es| ==> Hidden(fold, items, es[j])
  {
    if |es| == 0 || Hidden(fold, items, es[0]) then 0
    else
      var j := 1 + FirstHidden(fold, items, es[1..]);
      assert forall i :: 0 < i < j ==> es[i] == es[1..][i - 1];
      j
  }

  predicate Conflict(fold: Lowering, items: map<string, Item>, e: Row, c: Customer) {
    Seen(fold, items, e) && LinkedElsewhere(fold, items[Key(fold, e.name)].links, c.id)
  }

  // ----- the import -----

  datatype Outcome = TwoAgentsForItem | NoEntries | CustomerRefused | LinkConflict | ItemRefused | Done

  /** What the import does once the customers are there: nothing on a conflict, otherwise
      entry after entry up to the first whose item ERP refuses to create again. */
  function ImportEntries(fold: Lowering, items: map<string, Item>, keys: Keys, es: seq<Row>, group: string): (Outcome, map<string, Item>)
    requires HasKeys(fold, keys, es)
  {
    if exists i :: 0 <= i < |es| && Conflict(fold, items, es[i], keys[Key(fold, es[i].agent)]) then (LinkConflict, items)
    else
      var j := FirstHidden(fold, items, es);
      (if j < |es| then ItemRefused else Done, Apply(fold, items, keys, es[..j], group))
  }

  function Import(fold: Lowering, policy: Policy, erp: Erp, rows: seq<Row>, group: string): (Outcome, Erp) {
    match Entries(fold, rows)
    case None => (TwoAgentsForItem, erp)
    case Some(es) =>
      if es == [] then (NoEntries, erp)
      else
        var s := Ensure(fold, policy, erp.customers, es);
        if s.refused then (CustomerRefused, Erp(s.customers, erp.items))
        else
          EnsureCovers(fold, policy, erp.customers, es);
          var (outcome, items) := ImportEntries(fold, erp.items, s.keys, es, group);
          (outcome, Erp(s.customers, items))
  }

  lemma {:induction false} EnsureCovers(fold: Lowering, policy: Policy, customers: seq<Customer>, es: seq<Row>)
    ensures !Ensure(fold, policy, customers, es).refused ==> HasKeys(fold, Ensure(fold, policy, customers, es).keys, es)
  {
    hide Key, Refuses;
    if |es| > 0 {
      var n := |es| - 1;
      EnsureCovers(fold, policy, customers, es[..n]);
      forall i | 0 <= i < n && !Ensure(fold, policy, customers, es).refused
        ensures Key(fold, es[i].agent) in Ensure(fold, policy, customers, es).keys {
        assert es[..n][i] == es[i];
      }
    }
  }

  // ----- which customer an agent gets -----

  predicate Answers(fold: Lowering, c: Customer, key: string) {
    Key(fold, c.id) == key || Key(fold, c.name) == key
  }

  lemma {:induction false} KeysAnswer(fold: Lowering, customers: seq<Customer>, key: string)
    requires key in KeysOf(fold, customers)
    ensures KeysOf(fold, customers)[key] in customers && Answers(fold, KeysOf(fold, customers)[key], key)
  {
    hide Key, TrimSpace;
    var n := |customers| - 1;
    assert customers == customers[..n] + [customers[n]];
    if key in KeysOf(fold, customers[..n]) { KeysAnswer(fold, customers[..n], key); }
  }

  /** The customer an entry is linked to exists and answers to the entry's agent. */
  lemma {:induction false} TargetIsAgent(fold: Lowering, policy: Policy, customers: seq<Customer>, es: seq<Row>, key: string)
    requires forall i :: 0 <= i < |es| ==> TrimSpace(es[i].agent) == es[i].agent
    ensures var s := Ensure(fold, policy, customers, es);
      key in s.keys ==> s.keys[key] in s.customers && Answers(fold, s.keys[key], key)
  {
    hide TrimSpace, Refuses;
    if |es| == 0 {
      if key in KeysOf(fold, Listed(customers)) { KeysAnswer(fold, Listed(customers), key); }
    } else {
      var n := |es| - 1;
      var before := Ensure(fold, policy, customers, es[..n]);
      TargetIsAgent(fold, policy, customers, es[..n], key);
      TrimIdempotent(es[n].agent);
    }
  }

  lemma WithKeyCommutes(fold: Lowering, keys: Keys, text: string, d: Customer, k: string, c: Customer)
    requires k !in WithKey(fold, keys, text, d)
    ensures k !in keys && WithKey(fold, keys[k := c], text, d) == WithKey(fold, keys, text, d)[k := c]
  {
    hide Key, TrimSpace;
  }

  lemma {:induction false} KeysOfCons(fold: Lowering, c: Customer, customers: seq<Customer>)
    requires c.id == c.name && TrimSpace(c.id) != "" && Key(fold, c.id) !in KeysOf(fold, customers)
    ensures KeysOf(fold, [c] + customers) == KeysOf(fold, customers)[Key(fold, c.id) := c]
  {
    hide Key, TrimSpace;
    if |customers| == 0 {
      assert [c] + customers == [c] && [c][..0] == [];
    } else {
      var n := |customers| - 1;
      var d := customers[n];
      var rest := KeysOf(fold, customers[..n]);
      hide WithKey;
      assert ([c] + customers)[..n + 1] == [c] + customers[..n];
      WithKeyCommutes(fold, WithKey(fold, rest, d.id, d), d.name, d, Key(fold, c.id), c);
      WithKeyCommutes(fold, rest, d.id, d, Key(fold, c.id), c);
      KeysOfCons(fold, c, customers[..n]);
    }
  }

  /** As long as all customers fit the page, the keys in hand are those of ERP. */
  lemma {:induction false} KeysAreCurrent(fold: Lowering, policy: Policy, customers: seq<Customer>, es: seq<Row>)
    requires |Ensure(fold, policy, customers, es).customers| <= PAGE
    requires forall i :: 0 <= i < |es| ==> TrimSpace(es[i].agent) == es[i].agent != ""
    ensures Ensure(fold, policy, customers, es).keys == KeysOf(fold, Ensure(fold, policy, customers, es).customers)
  {
    hide TrimSpace, Refuses, KeysOf;
    if |es| > 0 {
      var n := |es| - 1;
      KeysAreCurrent(fold, policy, customers, es[..n]);
      var before := Ensure(fold, policy, customers, es[..n]);
      var c := Customer(es[n].agent, es[n].agent);
      if Key(fold, es[n].agent) !in before.keys { KeysOfCons(fold, c, before.customers); }
    }
  }

  // ----- what the entries do to items -----

  ghost predicate Apart(fold: Lowering, es: seq<Row>) {
    forall i, j :: 0 <= i < j < |es| ==> Key(fold, es[i].name) != Key(fold, es[j].name)
  }

  /** Items that no entry names stay as they are. */
  lemma {:induction false} OthersKept(fold: Lowering, items: map<string, Item>, keys: Keys, es: seq<Row>, group: string, k: string)
    requires HasKeys(fold, keys, es) && forall i :: 0 <= i < |es| ==> Key(fold, es[i].name) != k
    ensures k in Apply(fold, items, keys, es, group) <==> k in items
    ensures k in items ==> Apply(fold, items, keys, es, group)[k] == items[k]
  {
    hide Key, Imported;
    if |es| > 0 { OthersKept(fold, items, keys, es[..|es| - 1], group, k); }
  }

  /** An entry's item is linked as it was found, and priced, whatever the other entries do. */
  lemma {:induction false} EntryApplied(fold: Lowering, items: map<string, Item>, keys: Keys, es: seq<Row>, group: string, i: nat)
    requires HasKeys(fold, keys, es) && Apart(fold, es) && i < |es|
    ensures var after := Apply(fold, items, keys, es, group); var k := Key(fold, es[i].name); var id := keys[Key(fold, es[i].agent)].id;
      && k in after
      && after[k].rate == es[i].price
      && var found := Found(fold, items, es[i], group);
         && after[k].code == found.code && after[k].itemGroup == found.itemGroup && found.barcodes <= after[k].barcodes
         && after[k].listed == found.listed && after[k].links == if Linked(fold, found.links, id) then found.links else found.links + [TrimSpace(id)]
  {
    hide Key, Linked, BarcodeTaken, TrimSpace;
    var n := |es| - 1;
    if i < n {
      EntryApplied(fold, items, keys, es[..n], group, i);
    } else {
      OthersKept(fold, items, keys, es[..n], group, Key(fold, es[n].name));
    }
  }

  lemma {:induction false} BarcodesStay(fold: Lowering, items: map<string, Item>, keys: Keys, es: seq<Row>, group: string, barcode: string)
    requires HasKeys(fold, keys, es)
    ensures BarcodeTaken(fold, items, barcode) ==> BarcodeTaken(fold, Apply(fold, items, keys, es, group), barcode)
    ensures forall i :: 0 <= i < |es| && es[i].barcode == barcode != "" ==> BarcodeTaken(fold, Apply(fold, items, keys, es, group), barcode)
  {
    hide Key, BarcodeTaken, Linked, TrimSpace, Imported;
    if |es| > 0 {
      var n := |es| - 1;
      BarcodesStay(fold, items, keys, es[..n], group, barcode);
      OneBarcode(fold, Apply(fold, items, keys, es[..n], group), es[n], keys[Key(fold, es[n].agent)], group, barcode);
    }
  }

  lemma OneBarcode(fold: Lowering, items: map<string, Item>, e: Row, c: Customer, group: string, barcode: string)
    ensures var after := items[Key(fold, e.name) := Imported(fold, items, e, c, group)];
      && (BarcodeTaken(fold, items, barcode) ==> BarcodeTaken(fold, after, barcode))
      && (e.barcode == barcode != "" ==> BarcodeTaken(fold, after, barcode))
  {
    hide Key, Linked, TrimSpace;
    var k := Key(fold, e.name);
    var after := items[k := Imported(fold, items, e, c, group)];
    if BarcodeTaken(fold, items, barcode) {
      var h :| h in items && HasBarcode(fold, items[h].barcodes, barcode);
      var i :| 0 <= i < |items[h].barcodes| && Key(fold, items[h].barcodes[i]) == Key(fold, barcode);
      assert after[h].barcodes[i] == items[h].barcodes[i];
      assert HasBarcode(fold, after[h].barcodes, barcode);
    } else if e.barcode == barcode != "" {
      var bs := after[k].barcodes;
      assert bs[|bs| - 1] == barcode;
      assert HasBarcode(fold, bs, barcode);
    }
  }

  /** An entry that changes nothing any more. */
  predicate Settled(fold: Lowering, items: map<string, Item>, e: Row, c: Customer) {
    && Key(fold, e.name) in items
    && Linked(fold, items[Key(fold, e.name)].links, c.id)
    && items[Key(fold, e.name)].rate == e.price
    && (e.barcode == "" || BarcodeTaken(fold, items, e.barcode))
  }

  lemma {:induction false} SettledStays(fold: Lowering, items: map<string, Item>, keys: Keys, es: seq<Row>, group: string)
    requires HasKeys(fold, keys, es)
    requires forall i :: 0 <= i < |es| ==> Settled(fold, items, es[i], keys[Key(fold, es[i].agent)])
    ensures Apply(fold, items, keys, es, group) == items
  {
    hide Key, Linked, BarcodeTaken, TrimSpace;
    if |es| > 0 {
      var n := |es| - 1;
      SettledStays(fold, items, keys, es[..n], group);
      assert Settled(fold, items, es[n], keys[Key(fold, es[n].agent)]);
    }
  }

  // ----- whole imports -----

  /** Links are the trimmed ids ERP stores; each item has at most one. */
  ghost predicate OneCustomerEach(items: map<string, Item>) {
    forall k :: k in items ==> |items[k].links| <= 1 && forall l :: l in items[k].links ==> TrimSpace(l) != ""
  }

  lemma OneLinkAfter(fold: Lowering, links: seq<string>, id: string)
    requires !LinkedElsewhere(fold, links, id)
    ensures var after := if Linked(fold, links, id) then links else links + [TrimSpace(id)];
      && LinkedOnlyTo(fold, after, id)
      && (|links| <= 1 && (forall l :: l in links ==> TrimSpace(l) != "") ==> |after| == 1)
  {
    hide TrimSpace;
    TrimIdempotent(id);
    var after := if Linked(fold, links, id) then links else links + [TrimSpace(id)];
    if !Linked(fold, links, id) {
      assert after[|links|] == TrimSpace(id);
      if |links| == 1 { assert links[0] in links; }
    }
  }

  /** Every customer of ERP has an id. */
  ghost predicate IdsPresent(customers: seq<Customer>) {
    forall i :: 0 <= i < |customers| ==> TrimSpace(customers[i].id) != ""
  }

  ghost predicate NoneHidden(fold: Lowering, items: map<string, Item>, es: seq<Row>) {
    forall i :: 0 <= i < |es| ==> !Hidden(fold, items, es[i])
  }

  /** What a finished import found, and how its parts fit together. */
  lemma DoneMeans(fold: Lowering, policy: Policy, erp: Erp, rows: seq<Row>, group: string)
    requires Import(fold, policy, erp, rows, group).0 == Done
    ensures Entries(fold, rows).Some?
    ensures var es := Entries(fold, rows).value; var s := Ensure(fold, policy, erp.customers, es);
      && es != [] && Clean(fold, es) && !s.refused && HasKeys(fold, s.keys, es) && NoneHidden(fold, erp.items, es)
      && (forall i :: 0 <= i < |es| ==> !Conflict(fold, erp.items, es[i], s.keys[Key(fold, es[i].agent)]))
      && Import(fold, policy, erp, rows, group).1 == Erp(s.customers, Apply(fold, erp.items, s.keys, es, group))
  {
    hide TrimSpace, Key, Ensure, Apply, Linked, Entries, Conflict, Hidden, Clean;
    EntriesIff(fold, rows);
    var es := Entries(fold, rows).value;
    EnsureCovers(fold, policy, erp.customers, es);
    assert es[..|es|] == es;
  }

  /** An entry's item after a finished import: linked to the entry's customer and to nobody
      else, at the entry's price, and found by a search. */
  lemma EntryDone(fold: Lowering, items: map<string, Item>, keys: Keys, es: seq<Row>, group: string, i: nat)
    requires HasKeys(fold, keys, es) && Apart(fold, es) && i < |es| && !Hidden(fold, items, es[i])
    requires !Conflict(fold, items, es[i], keys[Key(fold, es[i].agent)])
    ensures var after := Apply(fold, items, keys, es, group); var id := keys[Key(fold, es[i].agent)].id;
      && Seen(fold, after, es[i])
      && var item := after[Key(fold, es[i].name)];
         item.rate == es[i].price && LinkedOnlyTo(fold, item.links, id) && (OneCustomerEach(items) ==> |item.links| == 1)
  {
    hide TrimSpace, Key, Apply, Linked, LinkedElsewhere, LinkedOnlyTo;
    var id := keys[Key(fold, es[i].agent)].id;
    EntryApplied(fold, items, keys, es, group, i);
    NothingElsewhere(fold, id);
    OneLinkAfter(fold, Found(fold, items, es[i], group).links, id);
  }

  lemma NothingElsewhere(fold: Lowering, id: string)
    ensures !LinkedElsewhere(fold, [], id)
  {
  }

  /** A finished import leaves every named item linked to a customer that answers to its
      agent, to nobody else, and at its price; the link is the only one if items had at
      most one. */
  lemma {:induction false} ImportLinks(fold: Lowering, policy: Policy, erp: Erp, rows: seq<Row>, group: string, i: nat)
    ensures Import(fold, policy, erp, rows, group).0 == Done && Entries(fold, rows).Some? && i < |Entries(fold, rows).value| ==>
      var after := Import(fold, policy, erp, rows, group).1; var e := Entries(fold, rows).value[i]; var k := Key(fold, e.name);
      && k in after.items && after.items[k].rate == e.price
      && (exists c :: c in after.customers && Answers(fold, c, Key(fold, e.agent)) && LinkedOnlyTo(fold, after.items[k].links, c.id))
      && (OneCustomerEach(erp.items) ==> |after.items[k].links| == 1)
      && (k in erp.items ==>
            var was := erp.items[k];
            after.items[k].code == was.code && after.items[k].itemGroup == was.itemGroup && was.barcodes <= after.items[k].barcodes)
      && (k !in erp.items ==> after.items[k].code == TrimSpace(e.name) && after.items[k].itemGroup == group && after.items[k].listed)
      && (e.barcode != "" ==> BarcodeTaken(fold, after.items, e.barcode))
  {
    hide TrimSpace, Key, Ensure, Apply, Entries, Answers, Conflict, Import, Hidden, LinkedOnlyTo, OneCustomerEach;
    if Import(fold, policy, erp, rows, group).0 == Done && Entries(fold, rows).Some? && i < |Entries(fold, rows).value| {
      DoneMeans(fold, policy, erp, rows, group);
      var es := Entries(fold, rows).value;
      var keys := Ensure(fold, policy, erp.customers, es).keys;
      TargetIsAgent(fold, policy, erp.customers, es, Key(fold, es[i].agent));
      EntryDone(fold, erp.items, keys, es, group, i);
      EntryApplied(fold, erp.items, keys, es, group, i);
      BarcodesStay(fold, erp.items, keys, es, group, es[i].barcode);
    }
  }

  predicate NotNamed(fold: Lowering, es: seq<Row>, k: string) {
    forall i :: 0 <= i < |es| ==> Key(fold, es[i].name) != k
  }

  /** However an import ends, items that no entry names are untouched. */
  lemma {:induction false} ImportKeepsOthers(fold: Lowering, policy: Policy, erp: Erp, rows: seq<Row>, group: string, k: string)
    ensures Entries(fold, rows).None? || NotNamed(fold, Entries(fold, rows).value, k) ==>
      var after := Import(fold, policy, erp, rows, group).1.items;
      (k in after <==> k in erp.items) && (k in erp.items ==> after[k] == erp.items[k])
  {
    hide TrimSpace, Key, Ensure, Apply, Entries, Conflict, Hidden;
    if Entries(fold, rows).Some? && NotNamed(fold, Entries(fold, rows).value, k) {
      var es := Entries(fold, rows).value;
      var s := Ensure(fold, policy, erp.customers, es);
      EnsureCovers(fold, policy, erp.customers, es);
      if !s.refused {
        var j := FirstHidden(fold, erp.items, es);
        OthersKept(fold, erp.items, s.keys, es[..j], group, k);
      }
    }
  }

  /** All links of the found items agree with the file. */
  ghost predicate LinksAgree(fold: Lowering, items: map<string, Item>, es: seq<Row>, keys: Keys)
    requires HasKeys(fold, keys, es)
  {
    forall i :: 0 <= i < |es| && Seen(fold, items, es[i]) ==>
      forall l :: l in items[Key(fold, es[i].name)].links && TrimSpace(l) != "" ==>
        Key(fold, l) == Key(fold, keys[Key(fold, es[i].agent)].id)
  }

  /** Once the customers are there: a link that disagrees stops the import before anything
      is created, linked or priced; if the links agree the import finishes exactly when ERP
      hides no named item, and otherwise stops at the first hidden one, with the entries
      before it done. */
  lemma {:induction false} ConflictStops(fold: Lowering, items: map<string, Item>, keys: Keys, es: seq<Row>, group: string)
    requires HasKeys(fold, keys, es)
    ensures var (outcome, after) := ImportEntries(fold, items, keys, es, group);
      && (outcome == LinkConflict <==> !LinksAgree(fold, items, es, keys))
      && (outcome == LinkConflict ==> after == items)
      && (LinksAgree(fold, items, es, keys) ==>
            && (outcome == Done <==> NoneHidden(fold, items, es))
            && (outcome == Done ==> after == Apply(fold, items, keys, es, group))
            && (outcome != Done ==> after == Apply(fold, items, keys, es[..FirstHidden(fold, items, es)], group)))
  {
    hide TrimSpace, Key, Apply, Hidden;
    assert es[..|es|] == es;
    if !LinksAgree(fold, items, es, keys) {
      var i, l :| 0 <= i < |es| && Seen(fold, items, es[i]) && l in items[Key(fold, es[i].name)].links && TrimSpace(l) != ""
        && Key(fold, l) != Key(fold, keys[Key(fold, es[i].agent)].id);
      assert Conflict(fold, items, es[i], keys[Key(fold, es[i].agent)]);
    }
  }

  lemma HiddenStops(fold: Lowering, items: map<string, Item>, keys: Keys, es: seq<Row>, group: string)
    requires HasKeys(fold, keys, es) && Apart(fold, es)
    ensures var (outcome, after) := ImportEntries(fold, items, keys, es, group); var j := FirstHidden(fold, items, es);
      && outcome in {LinkConflict, ItemRefused, Done}
      && (outcome == LinkConflict ==> after == items)
      && (outcome == ItemRefused ==>
            j < |es| && (j == 0 ==> after == items) && forall i :: 0 <= i < j ==> Key(fold, es[i].name) in after)
  {
    hide TrimSpace, Key, Apply, Conflict, Hidden;
    var j := FirstHidden(fold, items, es);
    NothingApplied(fold, items, keys, group);
    assert j == 0 ==> es[..j] == [];
    forall i | 0 <= i < j ensures Key(fold, es[i].name) in Apply(fold, items, keys, es[..j], group) {
      EntryApplied(fold, items, keys, es[..j], group, i);
    }
  }

  /** So an import that does not finish leaves the items alone, unless ERP hides a named
      item behind an entry that comes first. */
  lemma {:induction false} AllOrNothing(fold: Lowering, policy: Policy, erp: Erp, rows: seq<Row>, group: string)
    ensures var (outcome, after) := Import(fold, policy, erp, rows, group);
      && (outcome != Done && outcome != ItemRefused ==> after.items == erp.items)
      && (outcome == ItemRefused ==> Entries(fold, rows).Some?)
    ensures var (outcome, after) := Import(fold, policy, erp, rows, group);
      outcome == ItemRefused ==>
        var es := Entries(fold, rows).value; var j := FirstHidden(fold, erp.items, es);
        && j < |es| && Hidden(fold, erp.items, es[j]) && (j == 0 ==> after.items == erp.items)
        && forall i :: 0 <= i < j ==> Key(fold, es[i].name) in after.items
  {
    hide TrimSpace, Key, Ensure, Entries, Hidden, ImportEntries, FirstHidden, Clean, HasKeys;
    EntriesIff(fold, rows);
    if Entries(fold, rows).Some? {
      var es := Entries(fold, rows).value;
      var s := Ensure(fold, policy, erp.customers, es);
      EnsureCovers(fold, policy, erp.customers, es);
      CleanIsApart(fold, es);
      if !s.refused { HiddenStops(fold, erp.items, s.keys, es, group); }
    }
  }

  lemma CleanIsApart(fold: Lowering, es: seq<Row>)
    requires Clean(fold, es)
    ensures Apart(fold, es)
  {
    hide TrimSpace, Key;
  }

  lemma NothingApplied(fold: Lowering, items: map<string, Item>, keys: Keys, group: string)
    ensures Apply(fold, items, keys, [], group) == items
  {
  }

  // ----- importing again -----

  lemma {:induction false} EnsureKeepsIds(fold: Lowering, policy: Policy, customers: seq<Customer>, es: seq<Row>)
    requires IdsPresent(customers) && forall i :: 0 <= i < |es| ==> TrimSpace(es[i].agent) == es[i].agent != ""
    ensures IdsPresent(Ensure(fold, policy, customers, es).customers)
  {
    hide TrimSpace, Refuses, KeysOf, Key;
    if |es| > 0 {
      var n := |es| - 1;
      EnsureKeepsIds(fold, policy, customers, es[..n]);
      TrimIdempotent(es[n].agent);
    }
  }

  /** The first entry whose agent is not among the keys. */
  function FirstMissing(fold: Lowering, keys: Keys, es: seq<Row>): (j: nat)
    ensures j <= |es| && forall i :: 0 <= i < j ==> Key(fold, es[i].agent) in keys
    ensures j < |es| ==> Key(fold, es[j].agent) !in keys
  {
    if |es| == 0 then 0
    else
      var n := |es| - 1;
      var j := FirstMissing(fold, keys, es[..n]);
      assert forall i :: 0 <= i < n ==> es[..n][i] == es[i];
      if j < n || Key(fold, es[n].agent) !in keys then j else n + 1
  }

  /** Every agent is found, or the first that is not is refused. */
  predicate NobodyNew(fold: Lowering, policy: Policy, customers: seq<Customer>, es: seq<Row>) {
    var j := FirstMissing(fold, KeysOf(fold, Listed(customers)), es);
    j < |es| ==> Refuses(fold, policy, customers, es[j].agent)
  }

  lemma {:induction false} NobodyAdded(fold: Lowering, policy: Policy, customers: seq<Customer>, es: seq<Row>)
    ensures var s := Ensure(fold, policy, customers, es); var keys := KeysOf(fold, Listed(customers)); var j := FirstMissing(fold, keys, es);
      && (j == |es| ==> s.customers == customers && s.keys == keys && !s.refused)
      && (j < |es| && Refuses(fold, policy, customers, es[j].agent) ==> s.customers == customers && s.refused)
      && (j < |es| && !Refuses(fold, policy, customers, es[j].agent) ==> |s.customers| > |customers|)
  {
    hide TrimSpace, Refuses, KeysOf, Key, Listed;
    if |es| > 0 {
      var n := |es| - 1;
      NobodyAdded(fold, policy, customers, es[..n]);
      assert FirstMissing(fold, KeysOf(fold, Listed(customers)), es[..n]) <= n;
    }
  }

  lemma AnswererTakes(fold: Lowering, customers: seq<Customer>, c: Customer, agent: string)
    requires c in customers && Answers(fold, c, Key(fold, agent))
    ensures NameTaken(fold, customers, agent)
  {
    hide Key;
  }

  ghost predicate LinkedToOne(fold: Lowering, links: seq<string>) {
    exists id :: TrimSpace(id) != "" && LinkedOnlyTo(fold, links, id)
  }

  /** What a finished import leaves for the next one: every agent is answered, and every
      item found by a search, linked to one customer, with its price and its barcode. */
  ghost predicate Imprinted(fold: Lowering, erp: Erp, es: seq<Row>) {
    forall i :: 0 <= i < |es| ==>
      && NameTaken(fold, erp.customers, es[i].agent)
      && Seen(fold, erp.items, es[i])
      && var item := erp.items[Key(fold, es[i].name)];
         LinkedToOne(fold, item.links) && item.rate == es[i].price
         && (es[i].barcode == "" || BarcodeTaken(fold, erp.items, es[i].barcode))
  }

  lemma {:induction false} DoneImprints(fold: Lowering, policy: Policy, erp: Erp, rows: seq<Row>, group: string)
    requires IdsPresent(erp.customers)
    ensures Import(fold, policy, erp, rows, group).0 == Done ==>
      Imprinted(fold, Import(fold, policy, erp, rows, group).1, Entries(fold, rows).value)
  {
    hide TrimSpace, Key, Ensure, Apply, Entries, Answers, Conflict, Import, Hidden, NameTaken, BarcodeTaken, Seen, LinkedOnlyTo;
    if Import(fold, policy, erp, rows, group).0 == Done {
      DoneMeans(fold, policy, erp, rows, group);
      var es := Entries(fold, rows).value;
      var s := Ensure(fold, policy, erp.customers, es);
      var after := Apply(fold, erp.items, s.keys, es, group);
      EnsureKeepsIds(fold, policy, erp.customers, es);
      forall i | 0 <= i < |es|
        ensures NameTaken(fold, s.customers, es[i].agent)
        ensures Seen(fold, after, es[i]) && Key(fold, es[i].name) in after
        ensures var item := after[Key(fold, es[i].name)];
          LinkedToOne(fold, item.links) && item.rate == es[i].price
        ensures es[i].barcode == "" || BarcodeTaken(fold, after, es[i].barcode)
      {
        TargetIsAgent(fold, policy, erp.customers, es, Key(fold, es[i].agent));
        AnswererTakes(fold, s.customers, s.keys[Key(fold, es[i].agent)], es[i].agent);
        EntryDone(fold, erp.items, s.keys, es, group, i);
        SeenIsHeld(fold, after, es[i]);
        BarcodesStay(fold, erp.items, s.keys, es, group, es[i].barcode);
      }
    }
  }

  lemma SeenIsHeld(fold: Lowering, items: map<string, Item>, e: Row)
    requires Seen(fold, items, e)
    ensures Key(fold, e.name) in items
  {
  }

  /** Importing into an ERP that carries the imprint of the file. */
  lemma {:induction false} ImprintedStays(fold: Lowering, policy: Policy, erp: Erp, rows: seq<Row>, group: string)
    requires Entries(fold, rows).Some? && Entries(fold, rows).value != [] && Imprinted(fold, erp, Entries(fold, rows).value)
    ensures var es := Entries(fold, rows).value; var keys := KeysOf(fold, Listed(erp.customers));
      && (Import(fold, policy, erp, rows, group).1 == erp <==> NobodyNew(fold, policy, erp.customers, es))
      && (FoundAgain(fold, erp, es, keys) ==> Import(fold, policy, erp, rows, group).0 == Done)
      && (NobodyNew(fold, policy, erp.customers, es) && Import(fold, policy, erp, rows, group).0 == Done ==> FoundAgain(fold, erp, es, keys))
  {
    hide TrimSpace, Key, Ensure, Apply, Entries, Linked, KeysOf, BarcodeTaken, Refuses, NameTaken, Listed, LinkedElsewhere;
    var es := Entries(fold, rows).value;
    var keys := KeysOf(fold, Listed(erp.customers));
    NobodyAdded(fold, policy, erp.customers, es);
    if FirstMissing(fold, keys, es) == |es| {
      assert HasKeys(fold, keys, es);
      forall i | 0 <= i < |es|
        ensures !Hidden(fold, erp.items, es[i])
        ensures !Conflict(fold, erp.items, es[i], keys[Key(fold, es[i].agent)])
          <==> LinkedOnlyTo(fold, erp.items[Key(fold, es[i].name)].links, keys[Key(fold, es[i].agent)].id)
        ensures !Conflict(fold, erp.items, es[i], keys[Key(fold, es[i].agent)]) ==>
          Settled(fold, erp.items, es[i], keys[Key(fold, es[i].agent)])
      {
        OneLinkSettles(fold, erp.items[Key(fold, es[i].name)].links, keys[Key(fold, es[i].agent)].id);
      }
      assert es[..|es|] == es;
      if forall i :: 0 <= i < |es| ==> !Conflict(fold, erp.items, es[i], keys[Key(fold, es[i].agent)]) {
        SettledStays(fold, erp.items, keys, es, group);
      }
    }
  }

  /** Every agent is found among the keys, as the customer its item is linked to. */
  ghost predicate FoundAgain(fold: Lowering, erp: Erp, es: seq<Row>, keys: Keys) {
    forall i :: 0 <= i < |es| ==>
      && Key(fold, es[i].agent) in keys
      && Key(fold, es[i].name) in erp.items
      && LinkedOnlyTo(fold, erp.items[Key(fold, es[i].name)].links, keys[Key(fold, es[i].agent)].id)
  }

  /** Where there is one customer, not to be linked to others is to be linked to that one. */
  lemma OneLinkSettles(fold: Lowering, links: seq<string>, id: string)
    requires LinkedToOne(fold, links)
    ensures !LinkedElsewhere(fold, links, id) <==> LinkedOnlyTo(fold, links, id)
  {
    hide TrimSpace, Key;
    var one :| TrimSpace(one) != "" && LinkedOnlyTo(fold, links, one);
    var i :| 0 <= i < |links| && Key(fold, links[i]) == Key(fold, one);
    SamePresent(fold, links[i], one);
  }

  lemma SamePresent(fold: Lowering, a: string, b: string)
    requires Key(fold, a) == Key(fold, b)
    ensures TrimSpace(a) == "" <==> TrimSpace(b) == ""
  {
    hide TrimSpace;
  }

  /** A second import of the same file changes nothing in ERP, however it ends, exactly when
      every agent is found on the page a search returns or the first that is not is refused. */
  lemma {:induction false} SecondImportIff(fold: Lowering, policy: Policy, erp: Erp, rows: seq<Row>, group: string)
    requires IdsPresent(erp.customers)
    ensures Import(fold, policy, erp, rows, group).0 == Done ==>
      var after := Import(fold, policy, erp, rows, group).1;
      Import(fold, policy, after, rows, group).1 == after <==> NobodyNew(fold, policy, after.customers, Entries(fold, rows).value)
  {
    hide TrimSpace, Import, Imprinted, Entries, Clean, HasKeys, Apply, Ensure, NobodyNew, FoundAgain;
    if Import(fold, policy, erp, rows, group).0 == Done {
      DoneMeans(fold, policy, erp, rows, group);
      DoneImprints(fold, policy, erp, rows, group);
      ImprintedStays(fold, policy, Import(fold, policy, erp, rows, group).1, rows, group);
    }
  }

  /** Nobody is created under a name some customer answers to. */
  ghost predicate RefusesAnswered(fold: Lowering, policy: Policy) {
    forall customers, name :: NameTaken(fold, customers, name) ==> Refuses(fold, policy, customers, name)
  }

  lemma AnsweredAreRefused(fold: Lowering, policy: Policy, erp: Erp, es: seq<Row>)
    requires RefusesAnswered(fold, policy) && Imprinted(fold, erp, es)
    ensures NobodyNew(fold, policy, erp.customers, es)
  {
    hide TrimSpace, Key, NameTaken, Refuses, KeysOf, Listed, Seen, BarcodeTaken, LinkedToOne;
  }

  /** So it changes nothing if nobody is created under a name some customer answers to. */
  lemma {:induction false} SecondImportChangesNothing(fold: Lowering, policy: Policy, erp: Erp, rows: seq<Row>, group: string)
    requires IdsPresent(erp.customers) && RefusesAnswered(fold, policy)
    ensures Import(fold, policy, erp, rows, group).0 == Done ==>
      var after := Import(fold, policy, erp, rows, group).1; Import(fold, policy, after, rows, group).1 == after
  {
    hide TrimSpace, Import, Imprinted, Entries, Clean, HasKeys, Apply, Ensure, NobodyNew, RefusesAnswered;
    if Import(fold, policy, erp, rows, group).0 == Done {
      DoneMeans(fold, policy, erp, rows, group);
      DoneImprints(fold, policy, erp, rows, group);
      AnsweredAreRefused(fold, policy, Import(fold, policy, erp, rows, group).1, Entries(fold, rows).value);
      SecondImportIff(fold, policy, erp, rows, group);
    }
  }

  /** It finishes again without changing anything exactly when every agent is found on the
      page a search returns, as the customer its item is linked to. */
  lemma {:induction false} DoneAgainIff(fold: Lowering, policy: Policy, erp: Erp, rows: seq<Row>, group: string)
    requires IdsPresent(erp.customers)
    ensures Import(fold, policy, erp, rows, group).0 == Done ==>
      var after := Import(fold, policy, erp, rows, group).1;
      var again := Import(fold, policy, after, rows, group);
      again == (Done, after) <==> FoundAgain(fold, after, Entries(fold, rows).value, KeysOf(fold, Listed(after.customers)))
  {
    hide TrimSpace, Import, Entries, Clean, HasKeys, Apply, Ensure, Imprinted, Key, LinkedOnlyTo, Refuses, KeysOf, Listed;
    if Import(fold, policy, erp, rows, group).0 == Done {
      DoneMeans(fold, policy, erp, rows, group);
      DoneImprints(fold, policy, erp, rows, group);
      ImprintedStays(fold, policy, Import(fold, policy, erp, rows, group).1, rows, group);
    }
  }

  /** In particular when all customers fit the page. */
  lemma {:induction false} DoneAgainOnOnePage(fold: Lowering, policy: Policy, erp: Erp, rows: seq<Row>, group: string)
    requires IdsPresent(erp.customers)
    ensures Import(fold, policy, erp, rows, group).0 == Done && |Import(fold, policy, erp, rows, group).1.customers| <= 500 ==>
      Import(fold, policy, Import(fold, policy, erp, rows, group).1, rows, group) == (Done, Import(fold, policy, erp, rows, group).1)
  {
    hide TrimSpace, Import, Entries, Apply, Ensure, Key, KeysOf, NameTaken, BarcodeTaken, Conflict, Hidden;
    if Import(fold, policy, erp, rows, group).0 == Done && |Import(fold, policy, erp, rows, group).1.customers| <= PAGE {
      DoneMeans(fold, policy, erp, rows, group);
      DoneAgainIff(fold, policy, erp, rows, group);
      var es := Entries(fold, rows).value;
      var s := Ensure(fold, policy, erp.customers, es);
      KeysAreCurrent(fold, policy, erp.customers, es);
      forall i | 0 <= i < |es|
        ensures var after := Apply(fold, erp.items, s.keys, es, group);
          && Key(fold, es[i].name) in after
          && LinkedOnlyTo(fold, after[Key(fold, es[i].name)].links, s.keys[Key(fold, es[i].agent)].id)
      {
        EntryDone(fold, erp.items, s.keys, es, group, i);
      }
    }
  }

  // ----- the code -----

  /** The ERP calls the import makes. */
  class ErpServer {
    var customers: seq<Customer>
    var items: map<string, Item>
    const fold: Lowering
    const policy: Policy

    ghost function Snapshot(): Erp
      reads this
    {
      Erp(customers, items)
    }

    constructor (fold: Lowering, policy: Policy)
      ensures this.fold == fold && this.policy == policy && Snapshot() == Erp([], map[])
    {
      this.fold := fold;
      this.policy := policy;
      customers := [];
      items := map[];
    }

    method SearchCustomers(limit: nat) returns (found: seq<Customer>)
      requires limit >= 500
      ensures found == Listed(customers)
    {
      found := if |customers| > PAGE then customers[..PAGE] else customers;
    }

    method EnsureCustomer(name: string) returns (c: Option<Customer>)
      modifies this`customers
      ensures c.None? <==> Refuses(fold, policy, old(customers), name)
      ensures c.None? ==> customers == old(customers)
      ensures c.Some? ==> c.value == Customer(TrimSpace(name), TrimSpace(name)) && customers == [c.value] + old(customers)
    {
      hide TrimSpace, Key;
      var existing := policy.search(customers, TrimSpace(name));
      for i := 0 to |existing|
        invariant forall j :: 0 <= j < i ==> Key(fold, existing[j].name) != Key(fold, name)
      {
        if Key(fold, existing[i].name) == Key(fold, name) {
          return None;
        }
      }
      if policy.rejects(customers, TrimSpace(name)) {
        return None;
      }
      c := Some(Customer(TrimSpace(name), TrimSpace(name)));
      customers := [c.value] + customers;
    }

    /** The enabled stock items among the given codes, filed by their keys. */
    method GetItemsByCodes(codes: seq<string>) returns (found: map<string, Item>)
      ensures forall k :: k in found <==> k in items && items[k].listed && exists i :: 0 <= i < |codes| && Key(fold, codes[i]) == k
      ensures forall k :: k in found ==> found[k] == items[k]
    {
      hide Key;
      found := map[];
      for n := 0 to |codes|
        invariant forall k :: k in found <==> k in items && items[k].listed && exists i :: 0 <= i < n && Key(fold, codes[i]) == k
        invariant forall k :: k in found ==> found[k] == items[k]
      {
        var key := Key(fold, codes[n]);
        if key in items && items[key].listed {
          found := found[key := items[key]];
        }
      }
    }

    /** ERP refuses to create an item it holds, listed or not. */
    method CreateItem(itemCode: string, itemGroup: string) returns (created: bool)
      modifies this`items
      ensures created <==> Key(fold, itemCode) !in old(items)
      ensures !created ==> items == old(items)
      ensures created ==> items == old(items)[Key(fold, itemCode) := Item(TrimSpace(itemCode), itemGroup, true, [], 0.0, [])]
    {
      hide TrimSpace, Key;
      if Key(fold, itemCode) in items {
        return false;
      }
      items := items[Key(fold, itemCode) := Item(TrimSpace(itemCode), itemGroup, true, [], 0.0, [])];
      created := true;
    }

    method AssignCustomerToItem(itemCode: string, id: string)
      requires Key(fold, itemCode) in items
      modifies this`items
      ensures var k := Key(fold, itemCode); var item := old(items)[k];
        items == old(items)[k := item.(links := if Linked(fold, item.links, id) then item.links else item.links + [TrimSpace(id)])]
    {
      hide TrimSpace, Key;
      var k := Key(fold, itemCode);
      if !Linked(fold, items[k].links, id) {
        items := items[k := items[k].(links := items[k].links + [TrimSpace(id)])];
      }
    }

    method UpsertItemBarcode(itemCode: string, barcode: string)
      requires Key(fold, itemCode) in items && TrimSpace(barcode) == barcode
      modifies this`items
      ensures var k := Key(fold, itemCode); var item := old(items)[k];
        items == old(items)[k := item.(
          barcodes := if barcode == "" || BarcodeTaken(fold, old(items), barcode) then item.barcodes else item.barcodes + [barcode])]
    {
      hide TrimSpace, Key, HasBarcode;
      var k := Key(fold, itemCode);
      if TrimSpace(barcode) == "" {
        return;
      }
      if HasBarcode(fold, items[k].barcodes, barcode) {
        return;
      }
      if BarcodeTaken(fold, items, barcode) {
        return;
      }
      items := items[k := items[k].(barcodes := items[k].barcodes + [TrimSpace(barcode)])];
    }
  }

  lemma EnsureStep(fold: Lowering, policy: Policy, customers: seq<Customer>, es: seq<Row>, i: nat)
    requires i < |es|
    ensures Ensure(fold, policy, customers, es[..i + 1]) == EnsureOne(fold, policy, Ensure(fold, policy, customers, es[..i]), es[i].agent)
  {
    hide EnsureOne, KeysOf;
    assert es[..i + 1][..i] == es[..i];
  }

  lemma EnsureStart(fold: Lowering, policy: Policy, customers: seq<Customer>)
    ensures Ensure(fold, policy, customers, []) == Ensured(KeysOf(fold, Listed(customers)), customers, [], false)
  {
    hide KeysOf, Listed;
  }

  method EnsureCustomers(erp: ErpServer, es: seq<Row>) returns (byAgent: map<string, Customer>, created: seq<string>, refused: bool)
    modifies erp`customers
    ensures var s := Ensure(erp.fold, erp.policy, old(erp.customers), es);
      && erp.customers == s.customers && refused == s.refused
      && (!refused ==> created == s.created && forall i :: 0 <= i < |es| ==>
            Key(erp.fold, es[i].agent) in s.keys && es[i].agent in byAgent && byAgent[es[i].agent] == s.keys[Key(erp.fold, es[i].agent)])
  {
    hide TrimSpace, Key, Refuses, Ensure, KeysOf, Listed;
    EnsureStart(erp.fold, erp.policy, erp.customers);
    assert es[..0] == [];
    var existing := erp.SearchCustomers(1000);
    var customerByKey := CustomerKeys(erp.fold, existing);
    byAgent, created, refused := map[], [], false;
    ghost var s := Ensure(erp.fold, erp.policy, erp.customers, es[..0]);
    for i := 0 to |es|
      invariant s == Ensure(erp.fold, erp.policy, old(erp.customers), es[..i])
      invariant !s.refused && s.keys == customerByKey && s.customers == erp.customers && s.created == created
      invariant forall a :: a in byAgent ==> Key(erp.fold, a) in customerByKey && byAgent[a] == customerByKey[Key(erp.fold, a)]
      invariant forall j :: 0 <= j < i ==> es[j].agent in byAgent
    {
      var agent := es[i].agent;
      EnsureStep(erp.fold, erp.policy, old(erp.customers), es, i);
      s := Ensure(erp.fold, erp.policy, old(erp.customers), es[..i + 1]);
      if agent in byAgent {
        continue;
      }
      if Key(erp.fold, agent) in customerByKey {
        byAgent := byAgent[agent := customerByKey[Key(erp.fold, agent)]];
        continue;
      }
      var c := erp.EnsureCustomer(agent);
      if c.None? {
        EnsureStaysRefused(erp.fold, erp.policy, old(erp.customers), es, i + 1);
        return byAgent, created, true;
      }
      customerByKey := customerByKey[Key(erp.fold, agent) := c.value];
      byAgent := byAgent[agent := c.value];
      created := created + [c.value.id];
    }
    assert es[..|es|] == es;
  }

  lemma {:induction false} EnsureStaysRefused(fold: Lowering, policy: Policy, customers: seq<Customer>, es: seq<Row>, n: nat)
    requires n <= |es| && Ensure(fold, policy, customers, es[..n]).refused
    ensures Ensure(fold, policy, customers, es) == Ensure(fold, policy, customers, es[..n])
    decreases |es|
  {
    hide Refuses, Key, TrimSpace, KeysOf;
    if n < |es| {
      assert es[..|es| - 1][..n] == es[..n];
      EnsureStaysRefused(fold, policy, customers, es[..|es| - 1], n);
    } else {
      assert es[..n] == es;
    }
  }

  method CustomerKeys(fold: Lowering, customers: seq<Customer>) returns (byKey: map<string, Customer>)
    ensures byKey == KeysOf(fold, customers)
  {
    hide TrimSpace, Key;
    byKey := map[];
    for i := 0 to |customers|
      invariant byKey == KeysOf(fold, customers[..i])
    {
      assert customers[..i + 1][..i] == customers[..i];
      var c := customers[i];
      if TrimSpace(c.id) != "" {
        byKey := byKey[Key(fold, c.id) := c];
      }
      if TrimSpace(c.name) != "" {
        byKey := byKey[Key(fold, c.name) := c];
      }
    }
    assert customers[..|customers|] == customers;
  }

  /** Codes are asked for a hundred at a time. */
  method ResolveExistingItems(erp: ErpServer, es: seq<Row>) returns (existing: map<string, Item>)
    ensures forall i :: 0 <= i < |es| ==> (Key(erp.fold, es[i].name) in existing <==> Seen(erp.fold, erp.items, es[i]))
  {
    hide TrimSpace, Key;
    existing := map[];
    var start := 0;
    while start < |es|
      invariant 0 <= start
      invariant forall k :: k in existing ==> k in erp.items && erp.items[k].listed
      invariant forall i :: 0 <= i < |es| && i < start && Seen(erp.fold, erp.items, es[i]) ==> Key(erp.fold, es[i].name) in existing
    {
      var end := if start + 100 > |es| then |es| else start + 100;
      var codes := seq(end - start, i requires 0 <= i < end - start => es[start + i].name);
      var found := erp.GetItemsByCodes(codes);
      forall i | start <= i < end && Seen(erp.fold, erp.items, es[i]) ensures Key(erp.fold, es[i].name) in found {
        assert codes[i - start] == es[i].name;
      }
      existing := existing + found;
      start := start + 100;
    }
  }

  method PreflightConflicts(erp: ErpServer, es: seq<Row>, byAgent: map<string, Customer>, existing: map<string, Item>) returns (conflict: bool)
    requires forall i :: 0 <= i < |es| ==> es[i].agent in byAgent
    requires forall i :: 0 <= i < |es| ==> (Key(erp.fold, es[i].name) in existing <==> Seen(erp.fold, erp.items, es[i]))
    ensures conflict <==> exists i :: 0 <= i < |es| && Conflict(erp.fold, erp.items, es[i], byAgent[es[i].agent])
  {
    hide TrimSpace, Key;
    for i := 0 to |es|
      invariant forall j :: 0 <= j < i ==> !Conflict(erp.fold, erp.items, es[j], byAgent[es[j].agent])
    {
      if Key(erp.fold, es[i].name) !in existing {
        continue;
      }
      var target := byAgent[es[i].agent].id;
      var links := erp.items[Key(erp.fold, es[i].name)].links;
      var conflicts: seq<string> := [];
      for l := 0 to |links|
        invariant conflicts == [] <==> forall j :: 0 <= j < l ==> TrimSpace(links[j]) == "" || Key(erp.fold, links[j]) == Key(erp.fold, target)
      {
        if TrimSpace(links[l]) == "" || Key(erp.fold, links[l]) == Key(erp.fold, target) {
          continue;
        }
        conflicts := conflicts + [TrimSpace(links[l])];
      }
      if |conflicts| > 0 {
        return true;
      }
    }
    conflict := false;
  }

  /** The import of these entries, with every customer there. */
  lemma ImportIs(fold: Lowering, policy: Policy, erp: Erp, rows: seq<Row>, group: string)
    requires Entries(fold, rows).Some? && Entries(fold, rows).value != []
    ensures var es := Entries(fold, rows).value; var s := Ensure(fold, policy, erp.customers, es);
      if s.refused then Import(fold, policy, erp, rows, group) == (CustomerRefused, Erp(s.customers, erp.items))
      else
        && HasKeys(fold, s.keys, es) && Clean(fold, es)
        && Import(fold, policy, erp, rows, group)
           == (ImportEntries(fold, erp.items, s.keys, es, group).0, Erp(s.customers, ImportEntries(fold, erp.items, s.keys, es, group).1))
  {
    hide Ensure, Entries, HasKeys, ImportEntries, Clean;
    EntriesIff(fold, rows);
    EnsureCovers(fold, policy, erp.customers, Entries(fold, rows).value);
  }

  method Run(erp: ErpServer, rows: seq<Row>, itemGroup: string) returns (outcome: Outcome)
    modifies erp
    ensures (outcome, erp.Snapshot()) == Import(erp.fold, erp.policy, old(erp.Snapshot()), rows, itemGroup)
  {
    hide TrimSpace, Key, Ensure, Entries, Apply, Conflict, Seen, FirstHidden, Clean;
    var normalized := NormalizeRows(erp.fold, rows);
    if normalized.TwoAgents? {
      return TwoAgentsForItem;
    }
    if normalized.NoRows? {
      return NoEntries;
    }
    hide Import;
    ImportIs(erp.fold, erp.policy, erp.Snapshot(), rows, itemGroup);
    var es := normalized.entries;
    var byAgent, created, refused := EnsureCustomers(erp, es);
    if refused {
      return CustomerRefused;
    }
    var existing := ResolveExistingItems(erp, es);
    var conflict := PreflightConflicts(erp, es, byAgent, existing);
    if conflict {
      return LinkConflict;
    }
    ghost var keys := Ensure(erp.fold, erp.policy, old(erp.customers), es).keys;
    var finished := ImportItems(erp, es, byAgent, existing, itemGroup, keys);
    outcome := if finished then Done else ItemRefused;
  }

  method ImportItems(erp: ErpServer, es: seq<Row>, byAgent: map<string, Customer>, existing: map<string, Item>, itemGroup: string,
                     ghost keys: Keys) returns (finished: bool)
    requires Clean(erp.fold, es) && HasKeys(erp.fold, keys, es)
    requires forall i :: 0 <= i < |es| ==> es[i].agent in byAgent && byAgent[es[i].agent] == keys[Key(erp.fold, es[i].agent)]
    requires forall i :: 0 <= i < |es| ==> (Key(erp.fold, es[i].name) in existing <==> Seen(erp.fold, erp.items, es[i]))
    modifies erp`items
    ensures var j := FirstHidden(erp.fold, old(erp.items), es);
      && (finished <==> j == |es|)
      && erp.items == Apply(erp.fold, old(erp.items), keys, es[..j], itemGroup)
  {
    hide TrimSpace, Key, Linked, BarcodeTaken, Imported, FirstHidden;
    ghost var j := FirstHidden(erp.fold, old(erp.items), es);
    for i := 0 to |es|
      invariant i <= j && erp.items == Apply(erp.fold, old(erp.items), keys, es[..i], itemGroup)
    {
      assert es[..i + 1][..i] == es[..i];
      OthersKept(erp.fold, old(erp.items), keys, es[..i], itemGroup, Key(erp.fold, es[i].name));
      var known := Key(erp.fold, es[i].name) in existing;
      assert known || Key(erp.fold, es[i].name) !in erp.items <==> !Hidden(erp.fold, old(erp.items), es[i]);
      var done := ImportItem(erp, es[i], byAgent[es[i].agent], known, itemGroup);
      if !done {
        return false;
      }
    }
    assert es[..|es|] == es;
    finished := true;
  }

  method ImportItem(erp: ErpServer, row: Row, customer: Customer, known: bool, itemGroup: string) returns (done: bool)
    requires known ==> Key(erp.fold, row.name) in erp.items
    requires TrimSpace(row.barcode) == row.barcode
    modifies erp`items
    ensures done <==> known || Key(erp.fold, row.name) !in old(erp.items)
    ensures !done ==> erp.items == old(erp.items)
    ensures done ==> erp.items == old(erp.items)[Key(erp.fold, row.name) := Imported(erp.fold, old(erp.items), row, customer, itemGroup)]
  {
    hide TrimSpace, Key, Linked, HasBarcode, BarcodeTaken;
    var k := Key(erp.fold, row.name);
    if !known {
      var created := erp.CreateItem(row.name, itemGroup);
      if !created {
        return false;
      }
    }
    erp.AssignCustomerToItem(row.name, customer.id);
    erp.items := erp.items[k := erp.items[k].(rate := row.price)];
    assert BarcodeTaken(erp.fold, erp.items, row.barcode) <==> BarcodeTaken(erp.fold, old(erp.items), row.barcode) by {
      SameBarcodes(erp.fold, erp.items, old(erp.items), k, row.barcode);
    }
    erp.UpsertItemBarcode(row.name, row.barcode);
    done := true;
  }

  lemma SameBarcodes(fold: Lowering, items: map<string, Item>, before: map<string, Item>, k: string, barcode: string)
    requires k in items && items.Keys == before.Keys + {k}
    requires items[k].barcodes == if k in before then before[k].barcodes else []
    requires forall h :: h in before && h != k ==> items[h] == before[h]
    ensures BarcodeTaken(fold, items, barcode) <==> BarcodeTaken(fold, before, barcode)
  {
    hide Key;
  }
}
