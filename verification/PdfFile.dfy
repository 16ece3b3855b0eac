/** The file around the objects (internal/mobileapi/server.go:1487-1505): header,
    numbered objects, cross-reference table and trailer, as in ISO 32000-1,
    section 7.5. Nothing here depends on what the objects hold. */
module PdfFile {
  import opened Text
  import opened PdfText
  import opened PdfObjects

  const HEADER: string := "%PDF-1.4\n"
  const OBJ: string := " 0 obj\n"
  const END_OBJ: string := "\nendobj\n"
  const XREF: string := "xref\n0 "
  const FREE_ENTRY: string := "0000000000 65535 f \n"
  const IN_USE: string := " 00000 n \n"
  const TRAILER: string := "trailer\n<< /Size "
  const ROOT: string := " /Root "
  const TRAILER_END: string := " >>\n"
  const START_XREF: string := "startxref\n"
  const EOF: string := "\n%%EOF\n"
  const OFFSET_WIDTH: nat := 10
  const ENTRY_WIDTH: nat := 20

  // ----- the writer -----

  function ObjectText(id: nat, body: string): string {
    Decimal(id) + OBJ + body + END_OBJ
  }

  /** Objects 1 to k, one after the other; object `id` has the body at index id - 1. */
  function ObjectsText(bodies: seq<string>, k: nat): string
    requires k <= |bodies|
  {
    if k == 0 then "" else ObjectsText(bodies, k - 1) + ObjectText(k, bodies[k - 1])
  }

  /** Where object `id` begins. */
  function Offset(bodies: seq<string>, id: nat): nat
    requires 1 <= id <= |bodies|
  {
    |HEADER| + |ObjectsText(bodies, id - 1)|
  }

  function Offsets(bodies: seq<string>, k: nat): (offsets: seq<nat>)
    requires k <= |bodies|
    ensures |offsets| == k
  {
    seq(k, i requires 0 <= i < k => Offset(bodies, i + 1))
  }

  function XrefEntry(offset: nat): string {
    ZeroPad(Decimal(offset), OFFSET_WIDTH) + IN_USE
  }

  function XrefEntries(offsets: seq<nat>): string {
    if |offsets| == 0 then "" else XrefEntry(offsets[0]) + XrefEntries(offsets[1..])
  }

  function BodyText(bodies: seq<string>): string {
    HEADER + ObjectsText(bodies, |bodies|)
  }

  function XrefTable(offsets: seq<nat>): string {
    XREF + Decimal(|offsets| + 1) + "\n" + FREE_ENTRY + XrefEntries(offsets)
  }

  function Trailer(objectCount: nat, xrefOffset: nat): string {
    TRAILER + Decimal(objectCount + 1) + ROOT + Ref(1) + TRAILER_END + START_XREF + Decimal(xrefOffset) + EOF
  }

  /** The cross-reference table and the trailer. */
  function Tail(bodies: seq<string>): string {
    XrefTable(Offsets(bodies, |bodies|)) + Trailer(|bodies|, |BodyText(bodies)|)
  }

  function FileText(bodies: seq<string>): string {
    BodyText(bodies) + Tail(bodies)
  }

  lemma {:induction false} XrefSnoc(offsets: seq<nat>, offset: nat)
    ensures XrefEntries(offsets + [offset]) == XrefEntries(offsets) + XrefEntry(offset)
  {
    if |offsets| == 0 {
      assert (offsets + [offset])[1..] == [];
      assert XrefEntry(offset) + "" == XrefEntry(offset);
    } else {
      assert (offsets + [offset])[1..] == offsets[1..] + [offset];
      XrefSnoc(offsets[1..], offset);
      Regroup(XrefEntry(offsets[0]), XrefEntries(offsets[1..]), XrefEntry(offset));
    }
  }

  /** `objects[id]` for id from 1; slot 0 is unused, as in the source. */
  method WriteObjects(objects: seq<string>) returns (out: string, offsets: array<nat>)
    requires |objects| > 0
    ensures out == BodyText(objects[1..])
    ensures fresh(offsets) && offsets.Length == |objects|
    ensures offsets[1..] == Offsets(objects[1..], |objects| - 1)
  {
    hide ObjectText;
    ghost var bodies := objects[1..];
    out := HEADER;
    offsets := new nat[|objects|](_ => 0);
    for id := 1 to |objects|
      invariant out == HEADER + ObjectsText(bodies, id - 1)
      invariant forall j :: 1 <= j < id ==> offsets[j] == Offset(bodies, j)
    {
      offsets[id] := |out|;
      var text := ObjectText(id, objects[id]);
      Regroup(HEADER, ObjectsText(bodies, id - 1), text);
      out := out + text;
    }
  }

  method WriteXref(offsets: array<nat>) returns (table: string)
    requires offsets.Length > 0
    ensures table == XrefTable(offsets[1..])
  {
    var head := XREF + Decimal(offsets.Length) + "\n" + FREE_ENTRY;
    table := head;
    for id := 1 to offsets.Length
      invariant table == head + XrefEntries(offsets[1..id])
    {
      var entry := XrefEntry(offsets[id]);
      assert offsets[1..id + 1] == offsets[1..id] + [offsets[id]];
      XrefSnoc(offsets[1..id], offsets[id]);
      Regroup(head, XrefEntries(offsets[1..id]), entry);
      table := table + entry;
    }
    assert offsets[1..offsets.Length] == offsets[1..];
  }

  method WriteFile(objects: seq<string>) returns (out: string)
    requires |objects| > 0
    ensures out == FileText(objects[1..])
  {
    var body, offsets := WriteObjects(objects);
    var xrefOffset := |body|;
    var table := WriteXref(offsets);
    out := body + (table + Trailer(|objects| - 1, xrefOffset));
  }

  // ----- the reader -----

  /** The number between `startxref` and the end-of-file marker. */
  function ReadStartXref(file: string): Option<nat> {
    if !HasSuffix(file, EOF) then None
    else
      var t := file[..|file| - |EOF|];
      var k := DigitTail(t);
      if k == 0 || !HasSuffix(t[..|t| - k], START_XREF) then None else Some(NatOf(t[|t| - k..]))
  }

  function ReadEntries(s: string, count: nat): Option<(seq<nat>, string)>
    decreases count
  {
    if count == 0 then Some(([], s))
    else if |s| < ENTRY_WIDTH || !AllDigits(s[..OFFSET_WIDTH]) || s[OFFSET_WIDTH..ENTRY_WIDTH] != IN_USE then None
    else
      var (offsets, rest) :- ReadEntries(s[ENTRY_WIDTH..], count - 1);
      Some(([NatOf(s[..OFFSET_WIDTH])] + offsets, rest))
  }

  /** The table and trailer at the place `startxref` names: object offsets and the root's id. */
  function ReadXref(file: string): Option<(seq<nat>, nat)> {
    var at :- ReadStartXref(file);
    if at > |file| then None
    else
      var a :- Expect(file[at..], XREF);
      var (size, b) :- ReadNat(a);
      var c :- Expect(b, "\n");
      var d :- Expect(c, FREE_ENTRY);
      if size == 0 then None
      else
        var (offsets, e) :- ReadEntries(d, size - 1);
        var root :- ReadTrailer(e, size);
        Some((offsets, root))
  }

  function ReadTrailer(s: string, size: nat): Option<nat> {
    var a :- Expect(s, TRAILER);
    var (count, b) :- ReadNat(a);
    var c :- Expect(b, ROOT);
    var (root, d) :- ReadRef(c);
    var e :- Expect(d, TRAILER_END);
    if count == size then Some(root) else None
  }

  /** What follows `id 0 obj` at the offset the table gives for `id`. */
  function ReadObject(file: string, offsets: seq<nat>, id: nat): Option<string> {
    if id == 0 || id > |offsets| || offsets[id - 1] > |file| then None
    else
      var (n, a) :- ReadNat(file[offsets[id - 1]..]);
      var b :- Expect(a, OBJ);
      if n == id then Some(b) else None
  }

  // ----- reading undoes writing -----

  /** An entry is 20 bytes, as section 7.5.4 requires, exactly when its offset has ten digits or fewer. */
  lemma XrefEntryWidth(offset: nat)
    ensures |XrefEntry(offset)| == ENTRY_WIDTH <==> offset < Pow10(OFFSET_WIDTH)
  {
    DecimalWidth(offset, OFFSET_WIDTH);
  }

  lemma ReadOneEntry(offset: nat, rest: string)
    requires offset < Pow10(OFFSET_WIDTH)
    ensures var s := XrefEntry(offset) + rest;
      && |s| >= ENTRY_WIDTH && s[ENTRY_WIDTH..] == rest
      && AllDigits(s[..OFFSET_WIDTH]) && s[OFFSET_WIDTH..ENTRY_WIDTH] == IN_USE
      && NatOf(s[..OFFSET_WIDTH]) == offset
  {
    XrefEntryWidth(offset);
    var digits := ZeroPad(Decimal(offset), OFFSET_WIDTH);
    var s := XrefEntry(offset) + rest;
    assert s[..OFFSET_WIDTH] == digits;
    assert s[OFFSET_WIDTH..ENTRY_WIDTH] == IN_USE;
    assert s[ENTRY_WIDTH..] == rest;
    ZeroPadDenotes(offset, OFFSET_WIDTH);
  }

  lemma {:induction false} EntriesRoundTrip(offsets: seq<nat>, rest: string)
    requires forall i :: 0 <= i < |offsets| ==> offsets[i] < Pow10(OFFSET_WIDTH)
    ensures ReadEntries(XrefEntries(offsets) + rest, |offsets|) == Some((offsets, rest))
  {
    hide NatOf, AllDigits, XrefEntry;
    if |offsets| == 0 {
      assert XrefEntries(offsets) + rest == rest;
    } else {
      var tail := XrefEntries(offsets[1..]) + rest;
      Regroup(XrefEntry(offsets[0]), XrefEntries(offsets[1..]), rest);
      ReadOneEntry(offsets[0], tail);
      EntriesRoundTrip(offsets[1..], rest);
      assert offsets == [offsets[0]] + offsets[1..];
    }
  }

  lemma StartXrefRoundTrip(front: string, n: nat)
    ensures ReadStartXref(front + START_XREF + Decimal(n) + EOF) == Some(n)
  {
    var head := front + START_XREF;
    var t := head + Decimal(n);
    var file := t + EOF;
    assert file[|file| - |EOF|..] == EOF && file[..|file| - |EOF|] == t;
    assert head[|head| - |START_XREF|..] == START_XREF;
    assert head[|head| - 1] == START_XREF[|START_XREF| - 1] == '\n';
    DigitTailOf(head, Decimal(n));
    assert t[..|t| - |Decimal(n)|] == head && t[|t| - |Decimal(n)|..] == Decimal(n);
    DecimalDenotes(n);
  }

  lemma {:induction false} TrailerRoundTrip(objectCount: nat, xrefOffset: nat)
    ensures ReadTrailer(Trailer(objectCount, xrefOffset), objectCount + 1) == Some(1)
  {
    var rest := START_XREF + Decimal(xrefOffset) + EOF;
    var d := TRAILER_END + rest;
    var c := Ref(1) + d;
    var b := ROOT + c;
    Regroup3(TRAILER + Decimal(objectCount + 1) + ROOT + Ref(1) + TRAILER_END, START_XREF, Decimal(xrefOffset), EOF);
    Regroup3(START_XREF, Decimal(xrefOffset), EOF, "");
    assert Trailer(objectCount, xrefOffset) == TRAILER + Decimal(objectCount + 1) + ROOT + Ref(1) + TRAILER_END + rest;
    Regroup5(TRAILER, Decimal(objectCount + 1), ROOT, Ref(1), TRAILER_END, rest);
    ExpectToken(TRAILER, Decimal(objectCount + 1) + b);
    ReadDecimal(objectCount + 1, b);
    ExpectToken(ROOT, c);
    ReadReference(1, d);
    ExpectToken(TRAILER_END, rest);
  }

  /** The objects that follow the first k. */
  function LaterObjects(bodies: seq<string>, k: nat): string
    requires k <= |bodies|
    decreases |bodies| - k
  {
    if k == |bodies| then "" else ObjectText(k + 1, bodies[k]) + LaterObjects(bodies, k + 1)
  }

  lemma {:induction false} SplitObjects(bodies: seq<string>, k: nat)
    requires k <= |bodies|
    ensures ObjectsText(bodies, |bodies|) == ObjectsText(bodies, k) + LaterObjects(bodies, k)
    decreases |bodies| - k
  {
    if k < |bodies| {
      SplitObjects(bodies, k + 1);
      Regroup(ObjectsText(bodies, k), ObjectText(k + 1, bodies[k]), LaterObjects(bodies, k + 1));
    }
  }

  /** The text that begins where object `id` does. */
  function FromObject(bodies: seq<string>, id: nat): string
    requires 1 <= id <= |bodies|
  {
    ObjectText(id, bodies[id - 1]) + LaterObjects(bodies, id) + Tail(bodies)
  }

  lemma DropFront(a: string, b: string, c: string, d: string)
    ensures (a + (b + c) + d)[|a| + |b|..] == c + d
  {
  }

  /** The offset recorded for an object is exactly where `id 0 obj` and its body begin. */
  lemma OffsetIsExact(bodies: seq<string>, id: nat)
    requires 1 <= id <= |bodies|
    ensures Offset(bodies, id) <= |FileText(bodies)|
    ensures FileText(bodies)[Offset(bodies, id)..] == FromObject(bodies, id)
  {
    hide Tail, ObjectText;
    var before, here := ObjectsText(bodies, id - 1), LaterObjects(bodies, id - 1);
    assert here == ObjectText(id, bodies[id - 1]) + LaterObjects(bodies, id);
    SplitObjects(bodies, id - 1);
    DropFront(HEADER, before, here, Tail(bodies));
  }

  predicate FitsOffsets(bodies: seq<string>) {
    |FileText(bodies)| <= Pow10(OFFSET_WIDTH)
  }

  /** In a file of at most 10^10 bytes every offset has ten digits. */
  lemma OffsetsFit(bodies: seq<string>)
    requires FitsOffsets(bodies)
    ensures forall id :: 1 <= id <= |bodies| ==> Offset(bodies, id) < Pow10(OFFSET_WIDTH)
  {
    forall id | 1 <= id <= |bodies| ensures Offset(bodies, id) < Pow10(OFFSET_WIDTH) {
      OffsetIsExact(bodies, id);
      assert |FromObject(bodies, id)| > 0;
    }
  }

  lemma {:induction false} TableRoundTrip(offsets: seq<nat>, rest: string)
    requires forall i :: 0 <= i < |offsets| ==> offsets[i] < Pow10(OFFSET_WIDTH)
    ensures var a := Expect(XrefTable(offsets) + rest, XREF);
      a.Some? && var b := ReadNat(a.value);
      b.Some? && b.value.0 == |offsets| + 1 && var c := Expect(b.value.1, "\n");
      c.Some? && var d := Expect(c.value, FREE_ENTRY);
      d.Some? && ReadEntries(d.value, |offsets|) == Some((offsets, rest))
  {
    hide Expect, ReadNat, ReadEntries, XrefEntries, Decimal;
    var d := XrefEntries(offsets) + rest;
    var c := FREE_ENTRY + d;
    var b := "\n" + c;
    Regroup5(XREF, Decimal(|offsets| + 1), "\n", FREE_ENTRY, XrefEntries(offsets), rest);
    ExpectToken(XREF, Decimal(|offsets| + 1) + b);
    ReadDecimal(|offsets| + 1, b);
    ExpectToken("\n", c);
    ExpectToken(FREE_ENTRY, d);
    EntriesRoundTrip(offsets, rest);
  }

  /** `startxref` holds the offset of `xref`. */
  lemma StartXrefIsExact(bodies: seq<string>)
    ensures ReadStartXref(FileText(bodies)) == Some(|BodyText(bodies)|)
    ensures FileText(bodies)[|BodyText(bodies)|..] == Tail(bodies)
  {
    var at := |BodyText(bodies)|;
    var table := XrefTable(Offsets(bodies, |bodies|));
    var t := TRAILER + Decimal(|bodies| + 1) + ROOT + Ref(1) + TRAILER_END;
    StartXrefRoundTrip(BodyText(bodies) + table + t, at);
    Regroup4(BodyText(bodies) + table, t, START_XREF, Decimal(at), EOF);
    Regroup(BodyText(bodies), table, Trailer(|bodies|, at));
    PrefixOfConcat(BodyText(bodies), Tail(bodies));
  }

  /** The table `startxref` leads to lists every object's offset. */
  lemma {:induction false} XrefRoundTrip(bodies: seq<string>)
    requires FitsOffsets(bodies)
    ensures ReadXref(FileText(bodies)) == Some((Offsets(bodies, |bodies|), 1))
  {
    hide Decimal, XrefTable, Trailer, ReadEntries, ReadTrailer, Expect, ReadNat, Offset;
    OffsetsFit(bodies);
    StartXrefIsExact(bodies);
    TableRoundTrip(Offsets(bodies, |bodies|), Trailer(|bodies|, |BodyText(bodies)|));
    TrailerRoundTrip(|bodies|, |BodyText(bodies)|);
  }

  lemma Regroup4(a: string, b: string, c: string, d: string, e: string)
    ensures a + (b + c + d + e) == a + b + c + d + e
  {
    Regroup(a, b + c + d, e);
    Regroup(a, b + c, d);
    Regroup(a, b, c);
  }

  /** Following the table to an object yields that object's body. */
  lemma ObjectRoundTrip(bodies: seq<string>, id: nat) returns (rest: string)
    requires 1 <= id <= |bodies|
    ensures ReadObject(FileText(bodies), Offsets(bodies, |bodies|), id) == Some(bodies[id - 1] + (END_OBJ + rest))
  {
    hide Decimal, Tail, LaterObjects, FileText, ReadNat, Expect, Offset;
    OffsetIsExact(bodies, id);
    rest := LaterObjects(bodies, id) + Tail(bodies);
    var b := bodies[id - 1] + (END_OBJ + rest);
    var a := OBJ + b;
    Regroup(ObjectText(id, bodies[id - 1]), LaterObjects(bodies, id), Tail(bodies));
    Regroup(Decimal(id) + OBJ + bodies[id - 1], END_OBJ, rest);
    Regroup3(Decimal(id), OBJ, bodies[id - 1], END_OBJ + rest);
    ReadDecimal(id, a);
    ExpectToken(OBJ, b);
  }
}
