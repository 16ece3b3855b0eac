/** The remarks field as shared storage: three families of marked lines
    (internal/erpnext/delivery_note.go:629-717, internal/erpnext/purchase_receipt.go:905-1073)
    replace their own lines in one text and are read back from it. */
module Remarks {
  import opened Text
  import opened Lines
  import opened Quantity

  // ----- markers -----

  const DECISION: string := "AC:"
  const REASON: string := "AR:"
  const ACCEPTED: string := "AQ:"
  const RETURNED: string := "AT:"
  const COMMENT: string := "AX:"
  const ACCORD_ACCEPTED: string := "Accord Qabul:"
  const ACCORD_RETURNED: string := "Accord Qaytarildi:"
  const ACCORD_REASON: string := "Accord Sabab:"
  const ACCORD_COMMENT: string := "Accord Izoh:"
  const ACCORD_ACK: string := "Accord Supplier Tasdiq:"
  const UNANNOUNCED: string := "Accord Werka Aytilmagan:"
  const UNANNOUNCED_REASON: string := "Accord Werka Aytilmagan Sabab:"

  datatype Family = Customer | Accord | Unannounced

  /** Whether a trimmed line carries one of a family's markers. */
  predicate InFamily(line: string, f: Family) {
    match f
    case Customer =>
      || HasPrefix(line, DECISION) || HasPrefix(line, REASON) || HasPrefix(line, ACCEPTED)
      || HasPrefix(line, RETURNED) || HasPrefix(line, COMMENT)
    case Accord =>
      || HasPrefix(line, ACCORD_ACCEPTED) || HasPrefix(line, ACCORD_RETURNED) || HasPrefix(line, ACCORD_REASON)
      || HasPrefix(line, ACCORD_COMMENT) || HasPrefix(line, ACCORD_ACK)
    case Unannounced =>
      HasPrefix(line, UNANNOUNCED) || HasPrefix(line, UNANNOUNCED_REASON)
  }

  /** What tells the families apart, by position. */
  lemma FamilyRunes(line: string, f: Family)
    requires InFamily(line, f)
    ensures |line| > 2
    ensures f == Customer ==> line[2] == ':'
    ensures f != Customer ==> line[2] == 'c' && |line| > 7
    ensures f == Accord ==> line[7] != 'W'
    ensures f == Unannounced ==> line[7] == 'W'
  {
  }

  /** No line belongs to two families. */
  lemma FamiliesAreDisjoint(line: string, f: Family, g: Family)
    requires InFamily(line, f) && InFamily(line, g)
    ensures f == g
  {
    hide InFamily;
    FamilyRunes(line, f);
    FamilyRunes(line, g);
  }

  // ----- filtering lines -----

  function Only(lines: seq<string>, f: Family): seq<string> {
    if |lines| == 0 then []
    else if InFamily(lines[0], f) then [lines[0]] + Only(lines[1..], f)
    else Only(lines[1..], f)
  }

  function Without(lines: seq<string>, f: Family): seq<string> {
    if |lines| == 0 then []
    else if InFamily(lines[0], f) then Without(lines[1..], f)
    else [lines[0]] + Without(lines[1..], f)
  }

  /** Lines no family owns. */
  function Foreign(lines: seq<string>): seq<string> {
    Without(Without(Without(lines, Customer), Accord), Unannounced)
  }

  predicate AllIn(lines: seq<string>, f: Family) {
    forall i :: 0 <= i < |lines| ==> InFamily(lines[i], f)
  }

  lemma {:induction false} OnlyConcat(a: seq<string>, b: seq<string>, f: Family)
    ensures Only(a + b, f) == Only(a, f) + Only(b, f)
  {
    hide InFamily;
    if |a| == 0 {
      assert a + b == b;
    } else {
      OnlyConcat(a[1..], b, f);
      assert (a + b)[1..] == a[1..] + b;
      Regroup([a[0]], Only(a[1..], f), Only(b, f));
    }
  }

  lemma {:induction false} WithoutConcat(a: seq<string>, b: seq<string>, f: Family)
    ensures Without(a + b, f) == Without(a, f) + Without(b, f)
  {
    hide InFamily;
    if |a| == 0 {
      assert a + b == b;
    } else {
      WithoutConcat(a[1..], b, f);
      assert (a + b)[1..] == a[1..] + b;
      Regroup([a[0]], Without(a[1..], f), Without(b, f));
    }
  }

  lemma {:induction false} FilterOwn(lines: seq<string>, f: Family)
    requires AllIn(lines, f)
    ensures Only(lines, f) == lines && Without(lines, f) == []
  {
    hide InFamily;
    if |lines| > 0 { FilterOwn(lines[1..], f); }
  }

  lemma {:induction false} FilterOther(lines: seq<string>, f: Family, g: Family)
    requires AllIn(lines, f) && f != g
    ensures Only(lines, g) == [] && Without(lines, g) == lines
  {
    hide InFamily;
    if |lines| > 0 {
      FilterOther(lines[1..], f, g);
      if InFamily(lines[0], g) { FamiliesAreDisjoint(lines[0], f, g); }
    }
  }

  lemma {:induction false} OnlyWithoutOther(lines: seq<string>, f: Family, g: Family)
    requires f != g
    ensures Only(Without(lines, f), g) == Only(lines, g)
  {
    hide InFamily;
    if |lines| > 0 {
      OnlyWithoutOther(lines[1..], f, g);
      if InFamily(lines[0], f) && InFamily(lines[0], g) { FamiliesAreDisjoint(lines[0], f, g); }
    }
  }

  lemma {:induction false} OnlyWithoutOwn(lines: seq<string>, f: Family)
    ensures Only(Without(lines, f), f) == []
  {
    hide InFamily;
    if |lines| > 0 {
      OnlyWithoutOwn(lines[1..], f);
    }
  }

  lemma {:induction false} WithoutCommutes(lines: seq<string>, f: Family, g: Family)
    ensures Without(Without(lines, f), g) == Without(Without(lines, g), f)
  {
    hide InFamily;
    if |lines| > 0 {
      WithoutCommutes(lines[1..], f, g);
    }
  }

  lemma {:induction false} WithoutTwice(lines: seq<string>, f: Family)
    ensures Without(Without(lines, f), f) == Without(lines, f)
  {
    hide InFamily;
    if |lines| > 0 {
      WithoutTwice(lines[1..], f);
    }
  }

  lemma {:induction false} WithoutKeepsClean(lines: seq<string>, f: Family)
    requires CleanLines(lines)
    ensures CleanLines(Without(lines, f))
  {
    hide InFamily;
    if |lines| > 0 { WithoutKeepsClean(lines[1..], f); }
  }

  // ----- one upsert -----

  /** Replaces a family's lines: the others stay, trimmed, and the new ones follow. */
  function Upserted(existing: string, f: Family, added: seq<string>): string {
    Join(Without(LinesOf(existing), f) + added, "\n")
  }

  lemma UpsertedLines(existing: string, f: Family, added: seq<string>)
    requires SingleLines(added)
    ensures LinesOf(Upserted(existing, f, added)) == Without(LinesOf(existing), f) + Clean(added)
  {
    hide LinesOf;
    var kept := Without(LinesOf(existing), f);
    LinesAreClean(existing);
    WithoutKeepsClean(LinesOf(existing), f);
    assert SingleLines(kept);
    JoinedLines(kept + added);
    CleanConcat(kept, added);
    CleanIsFixed(kept);
  }

  /** After an upsert a family reads its new lines, every other family and every
      foreign line reads as before, in the same order. */
  lemma UpsertEffect(existing: string, f: Family, added: seq<string>)
    requires SingleLines(added) && AllIn(Clean(added), f)
    ensures var after := LinesOf(Upserted(existing, f, added));
      && Only(after, f) == Clean(added)
      && (forall g | g != f :: Only(after, g) == Only(LinesOf(existing), g))
      && Foreign(after) == Foreign(LinesOf(existing))
  {
    hide LinesOf, InFamily, Clean, Upserted;
    var before, own := LinesOf(existing), Clean(added);
    var kept := Without(before, f);
    UpsertedLines(existing, f, added);
    FilterOwn(own, f);
    OnlyConcat(kept, own, f);
    OnlyWithoutOwn(before, f);
    forall g | g != f ensures Only(kept + own, g) == Only(before, g) {
      OnlyConcat(kept, own, g);
      FilterOther(own, f, g);
      OnlyWithoutOther(before, f, g);
    }
    ForeignAfter(before, f, own);
  }

  lemma {:induction false} ForeignAfter(before: seq<string>, f: Family, own: seq<string>)
    requires AllIn(own, f)
    ensures Foreign(Without(before, f) + own) == Foreign(before)
  {
    ForeignConcat(Without(before, f), own);
    ForeignOfOwn(own, f);
    ForeignWithout(before, f);
  }

  lemma ForeignConcat(a: seq<string>, b: seq<string>)
    ensures Foreign(a + b) == Foreign(a) + Foreign(b)
  {
    WithoutConcat(a, b, Customer);
    WithoutConcat(Without(a, Customer), Without(b, Customer), Accord);
    WithoutConcat(Without(Without(a, Customer), Accord), Without(Without(b, Customer), Accord), Unannounced);
  }

  lemma ForeignOfOwn(own: seq<string>, f: Family)
    requires AllIn(own, f)
    ensures Foreign(own) == []
  {
    FilterOwn(own, f);
    forall g | g != f ensures Without(own, g) == own { FilterOther(own, f, g); }
  }

  lemma {:induction false} ForeignWithout(lines: seq<string>, f: Family)
    ensures Foreign(Without(lines, f)) == Foreign(lines)
  {
    WithoutTwice(lines, f);
    WithoutCommutes(lines, f, Customer);
    WithoutCommutes(Without(lines, Customer), f, Accord);
    WithoutCommutes(lines, f, Accord);
    WithoutCommutes(Without(Without(lines, Customer), Accord), f, Unannounced);
    match f
    case Customer =>
    case Accord => WithoutTwice(Without(lines, Customer), Accord);
    case Unannounced => WithoutTwice(Without(Without(lines, Customer), Accord), Unannounced);
  }

  /** Repeating an upsert changes nothing, not even the text. */
  lemma {:induction false} UpsertIdempotent(existing: string, f: Family, added: seq<string>)
    requires SingleLines(added) && AllIn(Clean(added), f)
    ensures Upserted(Upserted(existing, f, added), f, added) == Upserted(existing, f, added)
  {
    hide LinesOf, InFamily, Clean;
    UpsertedLines(existing, f, added);
    WithoutConcat(Without(LinesOf(existing), f), Clean(added), f);
    WithoutTwice(LinesOf(existing), f);
    FilterOwn(Clean(added), f);
    assert Without(LinesOf(existing), f) + [] == Without(LinesOf(existing), f);
  }
}
