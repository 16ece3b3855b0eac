/** The warehouse worker's home screen (internal/core/service.go): counters, groups by
    supplier and a list of details, each computed by its own pass over the same records. */
module Werka {
  import opened Sorting
  import opened Text
  import opened Quantity

  import Delivery
  import DeliveryModes

  datatype Status = Draft | Pending | Accepted | Partial | Rejected | Cancelled

  datatype Record = Record(
    supplierRef: string, supplierName: string, uom: string, sent: real, accepted: Float, status: Status, createdLabel: string)

  /** A purchase receipt as it maps to a record: stale drafts are hidden, and those the
      worker added unannounced carry an event. */
  datatype Receipt = Receipt(hidden: bool, event: bool, record: Record)

  datatype Shipment = Shipment(note: Delivery.Note, customerName: string, createdLabel: string)

  datatype Kind = PendingKind | ConfirmedKind | ReturnedKind | OtherKind

  datatype Summary = Summary(pending: nat, confirmed: nat, returned: nat)

  datatype Entry = Entry(
    supplierRef: string, supplierName: string, uom: string, count: nat, sent: Float, accepted: Float, returned: Float)

  // ----- the records all three see -----

  /** customerDeliveryVisible */
  predicate Visible(n: Delivery.Note) {
    n.docStatus == 1 && Delivery.ParseAccordInt(n.flowState, Delivery.FLOW_NONE) == Delivery.FLOW_SUBMITTED
  }

  function StatusOf(n: Delivery.Note): Status {
    match Delivery.StatusOf(n)
    case Draft => Draft
    case Pending => Pending
    case Accepted => Accepted
    case Partial => Partial
    case Rejected => Rejected
  }

  /** mapDeliveryNoteToDispatchRecord */
  function RecordOf(parse: ParseFloat, s: Shipment): Record {
    Record(s.note.customer, s.customerName, s.note.uom, s.note.qty,
      Delivery.DecisionQuantities(parse, s.note, Delivery.StatusOf(s.note)).0, StatusOf(s.note), s.createdLabel)
  }

  /** A note that a customer responded to is listed with the outcome and the accepted
      quantity of the response, within the rounding of four decimals. */
  lemma {:induction false} ResponseIsListed(parse: ParseFloat, e: Delivery.Erp, ref: string, req: Delivery.Request, name: string, created: string)
    requires ReadsPrinted(parse) && Delivery.Respond(e, ref, req).Ok? && Delivery.QuietResponse(parse, e, ref, req) && e.note.returnedQty == 0.0
    ensures var s := Shipment(Delivery.After(e, ref, req).note, name, created); var r := RecordOf(parse, s); var qty := e.note.qty;
      && Visible(s.note)
      && r.supplierRef == e.note.customer && r.supplierName == name && r.uom == e.note.uom && r.sent == qty && r.createdLabel == created
      && (DeliveryModes.AcceptsAll(req) ==> r.status == Accepted && DeliveryModes.Near(r.accepted, qty, 0.00005))
      && (DeliveryModes.RejectsAll(req) ==> r.status == Rejected && DeliveryModes.Near(r.accepted, 0.0, 0.0))
      && (DeliveryModes.AcceptsPart(req) ==>
            r.status == Partial && DeliveryModes.Near(r.accepted, DeliveryModes.AcceptedPart(req, qty), 0.0002))
  {
    hide Delivery.StatusOf, Delivery.Decide, Delivery.DecisionQuantities, Delivery.Reported, Delivery.UpdateOf, TrimSpace, Delivery.Recorded;
    var d := Delivery.Respond(e, ref, req).value;
    Delivery.DecisionIsSound(req, e.note);
    DeliveryModes.ShownEffect(parse, e, ref, req);
    DeliveryModes.DecisionOf(req, e.note);
    DeliveryModes.RecordedMeans(e, d);
    DeliveryModes.RecordedIsStamped(e, req, d);
    DeliveryModes.StatusMeans(Delivery.After(e, ref, req).note);
  }

  function Received(receipts: seq<Receipt>): seq<Record> {
    if |receipts| == 0 then []
    else
      var before := Received(receipts[..|receipts| - 1]);
      var r := receipts[|receipts| - 1];
      if r.hidden || r.event then before else before + [r.record]
  }

  function Delivered(parse: ParseFloat, shipments: seq<Shipment>): seq<Record> {
    if |shipments| == 0 then []
    else
      var before := Delivered(parse, shipments[..|shipments| - 1]);
      var s := shipments[|shipments| - 1];
      if Visible(s.note) then before + [RecordOf(parse, s)] else before
  }

  /** A visible note is submitted, so it is never shown as a draft. */
  lemma {:induction false} DeliveredIsNoDraft(parse: ParseFloat, shipments: seq<Shipment>)
    ensures forall r :: r in Delivered(parse, shipments) ==> r.status != Draft && r.status != Cancelled
  {
    hide Delivery.ParseAccordInt, Delivery.DecisionQuantities;
    if |shipments| > 0 { DeliveredIsNoDraft(parse, shipments[..|shipments| - 1]); }
  }

  /** recordMatchesWerkaBreakdown */
  predicate Matches(r: Record, kind: Kind) {
    match kind
    case PendingKind => r.status == Pending || r.status == Draft
    case ConfirmedKind => r.status == Accepted
    case ReturnedKind => r.status == Partial || r.status == Rejected || r.status == Cancelled
    case OtherKind => false
  }

  function Matching(records: seq<Record>, kind: Kind): seq<Record> {
    if |records| == 0 then []
    else
      var before := Matching(records[..|records| - 1], kind);
      var r := records[|records| - 1];
      if Matches(r, kind) then before + [r] else before
  }

  predicate IsFrom(r: Record, supplier: string, lower: Lowering) {
    TrimSpace(supplier) == "" || Key(lower, r.supplierRef) == Key(lower, supplier)
  }

  /** The records of a supplier; of all suppliers when none is named. */
  function OfSupplier(records: seq<Record>, supplier: string, lower: Lowering): seq<Record> {
    if |records| == 0 then []
    else
      var before := OfSupplier(records[..|records| - 1], supplier, lower);
      var r := records[|records| - 1];
      if IsFrom(r, supplier, lower) then before + [r] else before
  }

  lemma OfSupplierSnoc(records: seq<Record>, r: Record, supplier: string, lower: Lowering)
    ensures OfSupplier(records + [r], supplier, lower)
      == if IsFrom(r, supplier, lower) then OfSupplier(records, supplier, lower) + [r] else OfSupplier(records, supplier, lower)
  {
    assert (records + [r])[..|records|] == records;
  }

  lemma {:induction false} OfEverySupplier(records: seq<Record>, supplier: string, lower: Lowering)
    requires TrimSpace(supplier) == ""
    ensures OfSupplier(records, supplier, lower) == records
  {
    if |records| > 0 { OfEverySupplier(records[..|records| - 1], supplier, lower); }
  }

  function Counter(s: Summary, kind: Kind): nat {
    match kind case PendingKind => s.pending case ConfirmedKind => s.confirmed case ReturnedKind => s.returned case OtherKind => 0
  }

  function SummaryOf(records: seq<Record>): Summary {
    Summary(|Matching(records, PendingKind)|, |Matching(records, ConfirmedKind)|, |Matching(records, ReturnedKind)|)
  }

  lemma MatchingSnoc(records: seq<Record>, r: Record, kind: Kind)
    ensures Matching(records + [r], kind) == if Matches(r, kind) then Matching(records, kind) + [r] else Matching(records, kind)
  {
    assert (records + [r])[..|records|] == records;
  }

  // ----- summary -----

  method WerkaSummary(parse: ParseFloat, receipts: seq<Receipt>, shipments: seq<Shipment>) returns (summary: Summary)
    ensures summary == SummaryOf(Received(receipts) + Delivered(parse, shipments))
  {
    hide Visible, RecordOf, Matching;
    var pending, confirmed, returned := 0, 0, 0;
    NoneMatch();
    for i := 0 to |receipts|
      invariant Summary(pending, confirmed, returned) == SummaryOf(Received(receipts[..i]))
    {
      assert receipts[..i + 1][..i] == receipts[..i];
      var item := receipts[i];
      if item.hidden {
        continue;
      }
      if item.event {
        continue;
      }
      Counted(Received(receipts[..i]), item.record);
      match item.record.status
      case Pending => pending := pending + 1;
      case Draft => pending := pending + 1;
      case Accepted => confirmed := confirmed + 1;
      case _ => returned := returned + 1;
    }
    assert receipts[..|receipts|] == receipts;
    ghost var before := Received(receipts);
    assert before + Delivered(parse, shipments[..0]) == before;
    for i := 0 to |shipments|
      invariant Summary(pending, confirmed, returned) == SummaryOf(before + Delivered(parse, shipments[..i]))
    {
      assert shipments[..i + 1][..i] == shipments[..i];
      if !Visible(shipments[i].note) {
        continue;
      }
      var record := RecordOf(parse, shipments[i]);
      assert before + (Delivered(parse, shipments[..i]) + [record]) == (before + Delivered(parse, shipments[..i])) + [record];
      Counted(before + Delivered(parse, shipments[..i]), record);
      DeliveredIsNoDraft(parse, shipments[..i + 1]);
      match record.status
      case Pending => pending := pending + 1;
      case Accepted => confirmed := confirmed + 1;
      case Rejected => returned := returned + 1;
      case Cancelled => returned := returned + 1;
      case Partial => returned := returned + 1;
      case Draft => {}
    }
    assert shipments[..|shipments|] == shipments;
    summary := Summary(pending, confirmed, returned);
  }

  lemma NoneMatch()
    ensures SummaryOf([]) == Summary(0, 0, 0)
  {
  }

  lemma Counted(records: seq<Record>, r: Record)
    ensures SummaryOf(records + [r]) ==
      match r.status
      case Pending => SummaryOf(records).(pending := SummaryOf(records).pending + 1)
      case Draft => SummaryOf(records).(pending := SummaryOf(records).pending + 1)
      case Accepted => SummaryOf(records).(confirmed := SummaryOf(records).confirmed + 1)
      case _ => SummaryOf(records).(returned := SummaryOf(records).returned + 1)
  {
    hide Matching;
    MatchingSnoc(records, r, PendingKind);
    MatchingSnoc(records, r, ConfirmedKind);
    MatchingSnoc(records, r, ReturnedKind);
  }

  // ----- details -----

  /** The records a request for details selects, in the order of the passes. */
  function Selected(records: seq<Record>, kind: Kind, supplier: string, lower: Lowering): seq<Record> {
    Matching(OfSupplier(records, supplier, lower), kind)
  }

  lemma SelectedSnoc(records: seq<Record>, r: Record, kind: Kind, supplier: string, lower: Lowering)
    ensures Selected(records + [r], kind, supplier, lower)
      == if IsFrom(r, supplier, lower) && Matches(r, kind) then Selected(records, kind, supplier, lower) + [r]
         else Selected(records, kind, supplier, lower)
  {
    hide IsFrom, Matches;
    OfSupplierSnoc(records, r, supplier, lower);
    MatchingSnoc(OfSupplier(records, supplier, lower), r, kind);
  }

  /** The newest first. */
  predicate ByDate(a: Record, b: Record) { Less(b.createdLabel, a.createdLabel) }

  lemma ByDateIsOrder()
    ensures IsOrder(ByDate)
  {
    hide Less;
    forall a: Record, b: Record | ByDate(a, b) ensures !ByDate(b, a) {
      LessTotal(a.createdLabel, b.createdLabel);
    }
    forall a: Record, b: Record, c: Record | !ByDate(b, a) && !ByDate(c, b) ensures !ByDate(c, a) {
      NotLessTransitive(c.createdLabel, b.createdLabel, a.createdLabel);
    }
  }

  method WerkaStatusDetails(parse: ParseFloat, receipts: seq<Receipt>, shipments: seq<Shipment>, kind: Kind, supplier: string, lower: Lowering)
    returns (result: seq<Record>)
    ensures multiset(result) == multiset(Selected(Received(receipts) + Delivered(parse, shipments), kind, supplier, lower))
    ensures Ordered(result, ByDate)
  {
    hide Visible, RecordOf, Selected, Matches, Key;
    var selected: seq<Record> := [];
    NoneSelected(kind, supplier, lower);
    for i := 0 to |receipts|
      invariant selected == Selected(Received(receipts[..i]), kind, supplier, lower)
    {
      assert receipts[..i + 1][..i] == receipts[..i];
      var item := receipts[i];
      if item.hidden || item.event {
        continue;
      }
      SelectedSnoc(Received(receipts[..i]), item.record, kind, supplier, lower);
      if TrimSpace(supplier) != "" && Key(lower, item.record.supplierRef) != Key(lower, supplier) {
        continue;
      }
      if !Matches(item.record, kind) {
        continue;
      }
      selected := selected + [item.record];
    }
    assert receipts[..|receipts|] == receipts;
    ghost var before := Received(receipts);
    assert before + Delivered(parse, shipments[..0]) == before;
    for i := 0 to |shipments|
      invariant selected == Selected(before + Delivered(parse, shipments[..i]), kind, supplier, lower)
    {
      assert shipments[..i + 1][..i] == shipments[..i];
      if !Visible(shipments[i].note) {
        continue;
      }
      var record := RecordOf(parse, shipments[i]);
      assert before + (Delivered(parse, shipments[..i]) + [record]) == (before + Delivered(parse, shipments[..i])) + [record];
      SelectedSnoc(before + Delivered(parse, shipments[..i]), record, kind, supplier, lower);
      if TrimSpace(supplier) != "" && Key(lower, record.supplierRef) != Key(lower, supplier) {
        continue;
      }
      if !Matches(record, kind) {
        continue;
      }
      selected := selected + [record];
    }
    assert shipments[..|shipments|] == shipments;
    ByDateIsOrder();
    result := SortSlice(selected, ByDate);
  }

  lemma NoneSelected(kind: Kind, supplier: string, lower: Lowering)
    ensures Selected([], kind, supplier, lower) == []
  {
  }

  lemma NoneMatchKind(kind: Kind)
    ensures Matching([], kind) == []
  {
  }

  // ----- groups -----

  function GroupKey(r: Record): string {
    if TrimSpace(r.supplierRef) == "" then TrimSpace(r.supplierName) else TrimSpace(r.supplierRef)
  }

  /** Records are grouped by their supplier, by the name where there is no reference. */
  lemma GroupedBySupplier(a: Record, b: Record)
    ensures TrimSpace(a.supplierRef) != "" ==> GroupKey(a) == TrimSpace(a.supplierRef)
    ensures TrimSpace(a.supplierRef) == "" ==> GroupKey(a) == TrimSpace(a.supplierName)
    ensures TrimSpace(a.supplierRef) != "" && TrimSpace(b.supplierRef) != "" ==>
      (GroupKey(a) == GroupKey(b) <==> TrimSpace(a.supplierRef) == TrimSpace(b.supplierRef))
  {
    hide TrimSpace;
  }

  function OfKey(records: seq<Record>, key: string): seq<Record> {
    if |records| == 0 then []
    else
      var r := records[|records| - 1];
      OfKey(records[..|records| - 1], key) + if GroupKey(r) == key then [r] else []
  }

  function Sum(records: seq<Record>, f: Record -> Float): Float {
    if |records| == 0 then ZERO else Plus(Sum(records[..|records| - 1], f), f(records[|records| - 1]))
  }

  function Sent(r: Record): Float { Finite(r.sent) }

  function AcceptedQty(r: Record): Float { r.accepted }

  function Returned(r: Record): Float { OrZero(Minus(Finite(r.sent), r.accepted)) }

  function One(r: Record): Float { Finite(1.0) }

  predicate FirstUnit(group: seq<Record>, i: nat, uom: string) {
    i < |group| && group[i].uom == uom && forall j :: 0 <= j < i ==> group[j].uom == ""
  }

  /** A group's unit is the first that any of its records names. */
  ghost predicate ShowsUnit(uom: string, group: seq<Record>) {
    if uom == "" then forall j :: 0 <= j < |group| ==> group[j].uom == "" else exists i: nat :: FirstUnit(group, i, uom)
  }

  lemma UnitSnoc(uom: string, group: seq<Record>, r: Record)
    requires ShowsUnit(uom, group)
    ensures ShowsUnit(if uom == "" then r.uom else uom, group + [r])
  {
    var longer := group + [r];
    assert longer[|group|] == r && forall j :: 0 <= j < |group| ==> longer[j] == group[j];
    if uom != "" {
      var i: nat :| FirstUnit(group, i, uom);
      assert FirstUnit(longer, i, uom);
    } else if r.uom != "" {
      assert FirstUnit(longer, |group|, r.uom);
    }
  }

  /** A group shows its first record's names, its unit and its records' totals. */
  ghost predicate Shows(e: Entry, group: seq<Record>) {
    && |group| > 0 && e.count == |group|
    && e.supplierRef == group[0].supplierRef && e.supplierName == group[0].supplierName && ShowsUnit(e.uom, group)
    && e.sent == Sum(group, Sent) && e.accepted == Sum(group, AcceptedQty) && e.returned == Sum(group, Returned)
  }

  /** One entry per key, in any order, each showing the records of its key. */
  ghost predicate IsBreakdown(entries: seq<Entry>, keys: seq<string>, records: seq<Record>) {
    && |keys| == |entries|
    && (forall i, j :: 0 <= i < j < |keys| ==> keys[i] != keys[j])
    && (forall i :: 0 <= i < |keys| ==> Shows(entries[i], OfKey(records, keys[i])))
    && (forall r :: r in records ==> GroupKey(r) in keys)
  }

  /** The map of groups after some records. */
  ghost predicate Grouped(grouped: map<string, Entry>, records: seq<Record>) {
    && (forall k :: k in grouped ==> Shows(grouped[k], OfKey(records, k)))
    && (forall k :: k !in grouped ==> OfKey(records, k) == [])
    && (forall r :: r in records ==> GroupKey(r) in grouped)
  }

  lemma OfKeySnoc(records: seq<Record>, r: Record, key: string)
    ensures OfKey(records + [r], key) == if GroupKey(r) == key then OfKey(records, key) + [r] else OfKey(records, key)
  {
    assert (records + [r])[..|records|] == records;
  }

  lemma SumSnoc(records: seq<Record>, r: Record, f: Record -> Float)
    ensures Sum(records + [r], f) == Plus(Sum(records, f), f(r))
  {
    assert (records + [r])[..|records|] == records;
  }

  /** What an entry shows after one more record. */
  lemma ShowsMore(before: Option<Entry>, e: Entry, group: seq<Record>, r: Record)
    requires before.Some? ==> Shows(before.value, group)
    requires before.None? ==> group == []
    requires var b := if before.Some? then before.value else Entry(r.supplierRef, r.supplierName, r.uom, 0, ZERO, ZERO, ZERO);
      e == Entry(b.supplierRef, b.supplierName, if b.uom == "" then r.uom else b.uom,
        b.count + 1, Plus(b.sent, Sent(r)), Plus(b.accepted, r.accepted), Plus(b.returned, Returned(r)))
    ensures Shows(e, group + [r])
  {
    hide ShowsUnit, Sum, Plus, Minus, OrZero, Returned;
    SumSnoc(group, r, Sent);
    SumSnoc(group, r, AcceptedQty);
    SumSnoc(group, r, Returned);
    NoSums();
    NoUnit();
    UnitSnoc(if before.Some? then before.value.uom else "", group, r);
  }

  method Accumulate(grouped: map<string, Entry>, record: Record, ghost records: seq<Record>) returns (after: map<string, Entry>)
    requires Grouped(grouped, records)
    ensures Grouped(after, records + [record])
  {
    hide GroupKey, OfKey, Shows, Plus, Minus, OrZero, Returned;
    var key := GroupKey(record);
    var entry := if key in grouped then grouped[key]
      else Entry(record.supplierRef, record.supplierName, record.uom, 0, ZERO, ZERO, ZERO);
    entry := entry.(count := entry.count + 1, sent := Plus(entry.sent, Sent(record)),
                    accepted := Plus(entry.accepted, record.accepted), returned := Plus(entry.returned, Returned(record)));
    if entry.uom == "" {
      entry := entry.(uom := record.uom);
    }
    ShowsMore(if key in grouped then Some(grouped[key]) else None, entry, OfKey(records, key), record);
    after := grouped[key := entry];
    forall k ensures OfKey(records + [record], k) == if k == key then OfKey(records, k) + [record] else OfKey(records, k) {
      OfKeySnoc(records, record, k);
    }
  }

  lemma NoUnit()
    ensures ShowsUnit("", [])
  {
  }

  lemma NoSums()
    ensures Sum([], Sent) == ZERO && Sum([], AcceptedQty) == ZERO && Sum([], Returned) == ZERO
  {
  }

  /** The largest group first, then by name, whatever its case. */
  predicate IsBefore(a: Entry, b: Entry, lower: Lowering) {
    if a.count != b.count then a.count > b.count else Less(ToLower(lower, a.supplierName), ToLower(lower, b.supplierName))
  }

  function ByCount(lower: Lowering): (Entry, Entry) -> bool { (a, b) => IsBefore(a, b, lower) }

  /** The same for entries that carry their key along. */
  function Keyed(lower: Lowering): ((string, Entry), (string, Entry)) -> bool {
    (a: (string, Entry), b: (string, Entry)) => IsBefore(a.1, b.1, lower)
  }

  lemma KeyedIsOrder(lower: Lowering)
    ensures IsOrder(Keyed(lower))
  {
    hide Less, ToLower;
    forall a: (string, Entry), b: (string, Entry) | Keyed(lower)(a, b) ensures !Keyed(lower)(b, a) {
      LessTotal(ToLower(lower, a.1.supplierName), ToLower(lower, b.1.supplierName));
    }
    forall a: (string, Entry), b: (string, Entry), c: (string, Entry) | !Keyed(lower)(b, a) && !Keyed(lower)(c, b)
      ensures !Keyed(lower)(c, a)
    {
      if a.1.count == b.1.count == c.1.count {
        NotLessTransitive(ToLower(lower, a.1.supplierName), ToLower(lower, b.1.supplierName), ToLower(lower, c.1.supplierName));
      }
    }
  }

  method WerkaStatusBreakdown(parse: ParseFloat, receipts: seq<Receipt>, shipments: seq<Shipment>, kind: Kind, lower: Lowering) returns (result: seq<Entry>)
    ensures exists keys :: IsBreakdown(result, keys, Matching(Received(receipts) + Delivered(parse, shipments), kind))
    ensures Ordered(result, ByCount(lower))
  {
    hide GroupKey, Grouped, Shows, Visible, RecordOf, Matching, Matches;
    var grouped: map<string, Entry> := map[];
    NothingGrouped();
    NoneMatchKind(kind);
    for i := 0 to |receipts|
      invariant Grouped(grouped, Matching(Received(receipts[..i]), kind))
    {
      assert receipts[..i + 1][..i] == receipts[..i];
      var item := receipts[i];
      if item.hidden || item.event {
        continue;
      }
      MatchingSnoc(Received(receipts[..i]), item.record, kind);
      if !Matches(item.record, kind) {
        continue;
      }
      grouped := Accumulate(grouped, item.record, Matching(Received(receipts[..i]), kind));
    }
    assert receipts[..|receipts|] == receipts;
    ghost var before := Received(receipts);
    assert before + Delivered(parse, shipments[..0]) == before;
    for i := 0 to |shipments|
      invariant Grouped(grouped, Matching(before + Delivered(parse, shipments[..i]), kind))
    {
      assert shipments[..i + 1][..i] == shipments[..i];
      if !Visible(shipments[i].note) {
        continue;
      }
      var record := RecordOf(parse, shipments[i]);
      assert before + (Delivered(parse, shipments[..i]) + [record]) == (before + Delivered(parse, shipments[..i])) + [record];
      MatchingSnoc(before + Delivered(parse, shipments[..i]), record, kind);
      if !Matches(record, kind) {
        continue;
      }
      grouped := Accumulate(grouped, record, Matching(before + Delivered(parse, shipments[..i]), kind));
    }
    assert shipments[..|shipments|] == shipments;
    ghost var records := Matching(before + Delivered(parse, shipments), kind);
    var listed := Listed(grouped, records);
    KeyedIsOrder(lower);
    var sorted := SortSlice(listed, Keyed(lower));
    SortedGroups(listed, sorted, records, lower);
    result := Entries(sorted);
    assert IsBreakdown(result, KeysOf(sorted), records);
  }

  function KeysOf(groups: seq<(string, Entry)>): (keys: seq<string>)
    ensures |keys| == |groups|
  {
    seq(|groups|, i requires 0 <= i < |groups| => groups[i].0)
  }

  function Entries(groups: seq<(string, Entry)>): (entries: seq<Entry>)
    ensures |entries| == |groups|
  {
    seq(|groups|, i requires 0 <= i < |groups| => groups[i].1)
  }

  /** Groups under distinct keys, each as it stands for its records, and all of them. */
  ghost predicate Complete(groups: seq<(string, Entry)>, records: seq<Record>) {
    && (forall i, j :: 0 <= i < j < |groups| ==> groups[i].0 != groups[j].0)
    && (forall g :: g in groups ==> Shows(g.1, OfKey(records, g.0)))
    && (forall r :: r in records ==> exists g :: g in groups && g.0 == GroupKey(r))
  }

  lemma SortedGroups(listed: seq<(string, Entry)>, sorted: seq<(string, Entry)>, records: seq<Record>, lower: Lowering)
    requires Complete(listed, records) && multiset(sorted) == multiset(listed) && Ordered(sorted, Keyed(lower))
    ensures IsBreakdown(Entries(sorted), KeysOf(sorted), records) && Ordered(Entries(sorted), ByCount(lower))
  {
    hide Shows, OfKey, GroupKey, IsBefore;
    SameMembers(listed, sorted);
    DistinctStays(listed, sorted);
    var keys := KeysOf(sorted);
    forall r | r in records ensures GroupKey(r) in keys {
      var g :| g in listed && g.0 == GroupKey(r);
      var i :| 0 <= i < |sorted| && sorted[i] == g;
      assert keys[i] == g.0;
    }
    forall i | 0 <= i < |keys| ensures Shows(Entries(sorted)[i], OfKey(records, keys[i])) {
      assert sorted[i] in sorted;
    }
    forall i, j | 0 <= i < j < |sorted| ensures !ByCount(lower)(Entries(sorted)[j], Entries(sorted)[i]) {
      assert !Keyed(lower)(sorted[j], sorted[i]);
    }
  }

  /** How many groups carry a key. */
  function CountKey(groups: seq<(string, Entry)>, key: string): nat {
    if |groups| == 0 then 0 else CountKey(groups[..|groups| - 1], key) + if groups[|groups| - 1].0 == key then 1 else 0
  }

  lemma {:induction false} CountKeyOf(groups: seq<(string, Entry)>, key: string, i: nat, j: nat)
    requires i < |groups| && groups[i].0 == key
    ensures CountKey(groups, key) >= 1
    ensures i < j < |groups| && groups[j].0 == key ==> CountKey(groups, key) >= 2
    decreases |groups|
  {
    var n := |groups| - 1;
    if i < n { CountKeyOf(groups[..n], key, i, if j < n then j else i); }
  }

  lemma {:induction false} DistinctCount(groups: seq<(string, Entry)>, key: string)
    requires forall i, j :: 0 <= i < j < |groups| ==> groups[i].0 != groups[j].0
    ensures CountKey(groups, key) <= 1
    ensures (forall i :: 0 <= i < |groups| ==> groups[i].0 != key) ==> CountKey(groups, key) == 0
  {
    if |groups| > 0 { DistinctCount(groups[..|groups| - 1], key); }
  }

  lemma {:induction false} SameCount(a: seq<(string, Entry)>, b: seq<(string, Entry)>, key: string)
    requires multiset(a) == multiset(b)
    ensures CountKey(a, key) == CountKey(b, key)
    decreases |a|
  {
    if |a| == 0 {
      EmptyPermutation(a, b);
    } else {
      var k := TakeOut(a, b);
      SameCount(a[..|a| - 1], b[..k] + b[k + 1..], key);
      CountKeyDrop(b, k, key);
    }
  }

  lemma {:induction false} CountKeyDrop(groups: seq<(string, Entry)>, k: nat, key: string)
    requires k < |groups|
    ensures CountKey(groups, key) == CountKey(groups[..k] + groups[k + 1..], key) + if groups[k].0 == key then 1 else 0
    decreases |groups|
  {
    var n := |groups| - 1;
    var rest := groups[..k] + groups[k + 1..];
    if k < n {
      assert rest[..|rest| - 1] == groups[..n][..k] + groups[..n][k + 1..];
      CountKeyDrop(groups[..n], k, key);
    } else {
      assert rest == groups[..n];
    }
  }

  lemma DistinctStays(a: seq<(string, Entry)>, b: seq<(string, Entry)>)
    requires multiset(a) == multiset(b) && forall i, j :: 0 <= i < j < |a| ==> a[i].0 != a[j].0
    ensures forall i, j :: 0 <= i < j < |b| ==> b[i].0 != b[j].0
  {
    forall i, j | 0 <= i < j < |b| ensures b[i].0 != b[j].0 {
      SameCount(a, b, b[i].0);
      DistinctCount(a, b[i].0);
      CountKeyOf(b, b[i].0, i, j);
    }
  }

  lemma NothingGrouped()
    ensures Grouped(map[], [])
  {
  }

  method Listed(grouped: map<string, Entry>, ghost records: seq<Record>) returns (result: seq<(string, Entry)>)
    requires Grouped(grouped, records)
    ensures Complete(result, records)
  {
    hide GroupKey, OfKey, Shows;
    result := [];
    var remaining := grouped.Keys;
    while remaining != {}
      invariant remaining <= grouped.Keys
      invariant forall k :: k in grouped && k !in remaining ==> (k, grouped[k]) in result
      invariant forall g :: g in result ==> g.0 in grouped && g.0 !in remaining && g.1 == grouped[g.0]
      invariant forall i, j :: 0 <= i < j < |result| ==> result[i].0 != result[j].0
      decreases |remaining|
    {
      var key :| key in remaining;
      remaining := remaining - {key};
      NewKey(result, key);
      result := result + [(key, grouped[key])];
    }
    forall r | r in records ensures exists g :: g in result && g.0 == GroupKey(r) {
      assert (GroupKey(r), grouped[GroupKey(r)]) in result;
    }
  }

  lemma NewKey(groups: seq<(string, Entry)>, key: string)
    requires forall g :: g in groups ==> g.0 != key
    ensures forall i :: 0 <= i < |groups| ==> groups[i].0 != key
  {
    forall i | 0 <= i < |groups| ensures groups[i].0 != key {
      assert groups[i] in groups;
    }
  }

  // ----- agreement -----

  /** The sum of a measure over the groups of some keys. */
  function GroupSum(keys: seq<string>, records: seq<Record>, f: Record -> Float): Float {
    if |keys| == 0 then ZERO else Plus(GroupSum(keys[..|keys| - 1], records, f), Sum(OfKey(records, keys[|keys| - 1]), f))
  }

  lemma {:induction false} OneMoreRecord(keys: seq<string>, records: seq<Record>, r: Record, f: Record -> Float)
    requires forall i, j :: 0 <= i < j < |keys| ==> keys[i] != keys[j]
    ensures GroupSum(keys, records + [r], f) == Plus(GroupSum(keys, records, f), if GroupKey(r) in keys then f(r) else ZERO)
  {
    hide GroupKey, OfKey, Sum, Plus;
    PlusRegroups(ZERO, ZERO, ZERO);
    if |keys| > 0 {
      var n := |keys| - 1;
      OneMoreRecord(keys[..n], records, r, f);
      OfKeySnoc(records, r, keys[n]);
      SumSnoc(OfKey(records, keys[n]), r, f);
      var front, own := GroupSum(keys[..n], records, f), Sum(OfKey(records, keys[n]), f);
      PlusRegroups(front, own, f(r));
      PlusRegroups(front, f(r), own);
      PlusRegroups(own, f(r), ZERO);
      PlusRegroups(front, own, ZERO);
      PlusRegroups(Plus(front, own), ZERO, ZERO);
      assert keys == keys[..n] + [keys[n]];
      assert GroupKey(r) == keys[n] ==> GroupKey(r) !in keys[..n];
    }
  }

  lemma {:induction false} NoRecords(keys: seq<string>, f: Record -> Float)
    ensures GroupSum(keys, [], f) == ZERO
  {
    if |keys| > 0 { NoRecords(keys[..|keys| - 1], f); }
  }

  /** Groups of distinct keys that cover the records add up to the records. */
  lemma {:induction false} GroupsAddUp(keys: seq<string>, records: seq<Record>, f: Record -> Float)
    requires forall i, j :: 0 <= i < j < |keys| ==> keys[i] != keys[j]
    requires forall r :: r in records ==> GroupKey(r) in keys
    ensures GroupSum(keys, records, f) == Sum(records, f)
    decreases |records|
  {
    hide GroupKey, OfKey, GroupSum;
    if |records| == 0 {
      NoRecords(keys, f);
    } else {
      var n := |records| - 1;
      assert records == records[..n] + [records[n]];
      GroupsAddUp(keys, records[..n], f);
      OneMoreRecord(keys, records[..n], records[n], f);
    }
  }

  function Counts(entries: seq<Entry>): nat {
    if |entries| == 0 then 0 else Counts(entries[..|entries| - 1]) + entries[|entries| - 1].count
  }

  function SentTotal(entries: seq<Entry>): Float {
    if |entries| == 0 then ZERO else Plus(SentTotal(entries[..|entries| - 1]), entries[|entries| - 1].sent)
  }

  function AcceptedTotal(entries: seq<Entry>): Float {
    if |entries| == 0 then ZERO else Plus(AcceptedTotal(entries[..|entries| - 1]), entries[|entries| - 1].accepted)
  }

  lemma {:induction false} OnesCount(records: seq<Record>)
    ensures Sum(records, One) == Finite(|records| as real)
  {
    if |records| > 0 { OnesCount(records[..|records| - 1]); }
  }

  lemma {:induction false} TotalsAreGroupSums(entries: seq<Entry>, keys: seq<string>, records: seq<Record>)
    requires |keys| == |entries| && forall i :: 0 <= i < |keys| ==> Shows(entries[i], OfKey(records, keys[i]))
    ensures Finite(Counts(entries) as real) == GroupSum(keys, records, One)
    ensures SentTotal(entries) == GroupSum(keys, records, Sent)
    ensures AcceptedTotal(entries) == GroupSum(keys, records, AcceptedQty)
  {
    hide OfKey, GroupKey, Shows, Plus;
    if |entries| > 0 {
      var n := |entries| - 1;
      TotalsAreGroupSums(entries[..n], keys[..n], records);
      ShowsTotals(entries[n], OfKey(records, keys[n]));
      OneMoreCount(Counts(entries[..n]), entries[n].count);
    }
  }

  lemma ShowsTotals(e: Entry, group: seq<Record>)
    requires Shows(e, group)
    ensures e.sent == Sum(group, Sent) && e.accepted == Sum(group, AcceptedQty) && Finite(e.count as real) == Sum(group, One)
  {
    OnesCount(group);
  }

  lemma OneMoreCount(a: nat, b: nat)
    ensures Plus(Finite(a as real), Finite(b as real)) == Finite((a + b) as real)
  {
  }

  lemma {:induction false} SumDrop(records: seq<Record>, k: nat, f: Record -> Float)
    requires k < |records|
    ensures Sum(records, f) == Plus(Sum(records[..k] + records[k + 1..], f), f(records[k]))
    decreases |records|
  {
    var n := |records| - 1;
    var rest := records[..k] + records[k + 1..];
    if k < n {
      assert rest[..|rest| - 1] == records[..n][..k] + records[..n][k + 1..];
      SumDrop(records[..n], k, f);
      var others := Sum(records[..n][..k] + records[..n][k + 1..], f);
      PlusRegroups(others, f(records[k]), f(records[n]));
      PlusRegroups(others, f(records[n]), f(records[k]));
      PlusRegroups(f(records[k]), f(records[n]), ZERO);
    } else {
      assert rest == records[..n];
    }
  }

  /** A sum does not depend on the order. */
  lemma {:induction false} SumReordered(a: seq<Record>, b: seq<Record>, f: Record -> Float)
    requires multiset(a) == multiset(b)
    ensures Sum(a, f) == Sum(b, f)
    decreases |a|
  {
    if |a| == 0 {
      EmptyPermutation(a, b);
    } else {
      var k := TakeOut(a, b);
      SumReordered(a[..|a| - 1], b[..k] + b[k + 1..], f);
      SumDrop(b, k, f);
    }
  }

  /** For every kind the counter, the groups' counts and the length of the details of no
      particular supplier are one number, and the groups' totals are those of the details. */
  lemma {:induction false} AllThreeAgree(parse: ParseFloat, receipts: seq<Receipt>, shipments: seq<Shipment>, kind: Kind, lower: Lowering,
                                         groups: seq<Entry>, keys: seq<string>, details: seq<Record>)
    requires IsBreakdown(groups, keys, Matching(Received(receipts) + Delivered(parse, shipments), kind))
    requires multiset(details) == multiset(Selected(Received(receipts) + Delivered(parse, shipments), kind, "", lower))
    ensures Counts(groups) == |details|
    ensures kind != OtherKind ==> Counter(SummaryOf(Received(receipts) + Delivered(parse, shipments)), kind) == |details|
    ensures SentTotal(groups) == Sum(details, Sent) && AcceptedTotal(groups) == Sum(details, AcceptedQty)
  {
    hide OfKey, GroupKey, Received, Delivered, Matching, Shows, OfSupplier, Sum;
    var all := Received(receipts) + Delivered(parse, shipments);
    var matching := Matching(all, kind);
    BlankIsBlank();
    OfEverySupplier(all, "", lower);
    TotalsAreGroupSums(groups, keys, matching);
    GroupsAddUp(keys, matching, One);
    GroupsAddUp(keys, matching, Sent);
    GroupsAddUp(keys, matching, AcceptedQty);
    OnesCount(matching);
    SumReordered(details, matching, Sent);
    SumReordered(details, matching, AcceptedQty);
    assert |details| == |multiset(details)| == |multiset(matching)| == |matching|;
  }

  lemma BlankIsBlank()
    ensures TrimSpace("") == ""
  {
  }
}
