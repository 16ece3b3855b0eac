/** The five kinds of indirect object the archive report holds
    (internal/mobileapi/server.go, buildArchivePDF), printed as the writer prints
    them and read back. */
module PdfObjects {
  import opened Text
  import opened PdfText

  const CATALOG_HEAD: string := "<< /Type /Catalog /Pages "
  const PAGES_HEAD: string := "<< /Type /Pages /Kids ["
  const PAGES_COUNT: string := "] /Count "
  const FONT_TYPE: string := "<< /Type /Font /Subtype"
  const FONT_NAME: string := " /Type1 /BaseFont"
  const FONT_BASE: string := " /Courier >>"
  const FONT_BODY: string := FONT_TYPE + FONT_NAME + FONT_BASE
  const PAGE_HEAD: string := "<< /Type /Page /Parent "
  const MEDIA_BOX: string := " /MediaBox [0 0 842 595]"
  const RESOURCES: string := " /Resources << /Font << /F1 "
  const PAGE_FONT: string := MEDIA_BOX + RESOURCES
  const PAGE_CONTENTS: string := " >> >> /Contents "
  const DICT_END: string := " >>"
  const LENGTH_HEAD: string := "<< /Length "
  const STREAM_OPEN: string := " >>\nstream\n"
  const STREAM_CLOSE: string := "\nendstream"

  /** An indirect reference, `n 0 R`. */
  function Ref(id: nat): string {
    Decimal(id) + " 0 R"
  }

  function Refs(ids: seq<nat>): (r: seq<string>)
    ensures |r| == |ids|
  {
    seq(|ids|, i requires 0 <= i < |ids| => Ref(ids[i]))
  }

  function CatalogBody(pages: nat): string {
    CATALOG_HEAD + Ref(pages) + DICT_END
  }

  function PagesBody(kids: seq<nat>): string {
    PAGES_HEAD + Join(Refs(kids), " ") + PAGES_COUNT + Decimal(|kids|) + DICT_END
  }

  function PageBody(parent: nat, font: nat, contents: nat): string {
    PAGE_HEAD + Ref(parent) + PAGE_FONT + Ref(font) + PAGE_CONTENTS + Ref(contents) + DICT_END
  }

  function StreamBody(stream: string): string {
    LENGTH_HEAD + Decimal(|stream|) + STREAM_OPEN + stream + STREAM_CLOSE
  }

  // ----- readers, one for each kind -----

  function ReadNat(s: string): (r: Option<(nat, string)>)
    ensures r.Some? ==> |r.value.1| < |s|
  {
    var k := DigitRun(s);
    if k == 0 then None else Some((NatOf(s[..k]), s[k..]))
  }

  function ReadRef(s: string): (r: Option<(nat, string)>)
    ensures r.Some? ==> |r.value.1| < |s|
  {
    var (id, rest) :- ReadNat(s);
    var next :- Expect(rest, " 0 R");
    Some((id, next))
  }

  /** One or more references separated by single spaces. */
  function ReadRefs(s: string): Option<(seq<nat>, string)>
    decreases |s|
  {
    var (id, rest) :- ReadRef(s);
    if rest != "" && rest[0] == ' ' then
      var (ids, next) :- ReadRefs(rest[1..]);
      Some(([id] + ids, next))
    else Some(([id], rest))
  }

  function ReadCatalog(s: string): Option<(nat, string)> {
    var a :- Expect(s, CATALOG_HEAD);
    var (pages, b) :- ReadRef(a);
    var c :- Expect(b, DICT_END);
    Some((pages, c))
  }

  /** The page tree node: its kids, and a count that must be their number. */
  function ReadPages(s: string): Option<(seq<nat>, string)> {
    var a :- Expect(s, PAGES_HEAD);
    var (kids, b) :- ReadRefs(a);
    var c :- Expect(b, PAGES_COUNT);
    var (count, d) :- ReadNat(c);
    var e :- Expect(d, DICT_END);
    if count == |kids| then Some((kids, e)) else None
  }

  function ReadPage(s: string): Option<((nat, nat, nat), string)> {
    var a :- Expect(s, PAGE_HEAD);
    var (parent, b) :- ReadRef(a);
    var c :- Expect(b, PAGE_FONT);
    var (font, d) :- ReadRef(c);
    var e :- Expect(d, PAGE_CONTENTS);
    var (contents, f) :- ReadRef(e);
    var g :- Expect(f, DICT_END);
    Some(((parent, font, contents), g))
  }

  /** A stream object: exactly /Length characters, then `endstream`. */
  function ReadStream(s: string): Option<(string, string)> {
    var a :- Expect(s, LENGTH_HEAD);
    var (length, b) :- ReadNat(a);
    var c :- Expect(b, STREAM_OPEN);
    if length > |c| then None
    else
      var d :- Expect(c[length..], STREAM_CLOSE);
      Some((c[..length], d))
  }

  // ----- reading undoes printing -----

  predicate NoDigitFirst(s: string) { s == "" || !IsDigit(s[0]) }

  lemma ReadDecimal(n: nat, rest: string)
    requires NoDigitFirst(rest)
    ensures ReadNat(Decimal(n) + rest) == Some((n, rest))
  {
    var s := Decimal(n) + rest;
    DigitRunOf(Decimal(n), rest);
    assert s[..|Decimal(n)|] == Decimal(n);
    assert s[|Decimal(n)|..] == rest;
    DecimalDenotes(n);
  }

  lemma ReadReference(id: nat, rest: string)
    ensures ReadRef(Ref(id) + rest) == Some((id, rest))
  {
    Regroup(Decimal(id), " 0 R", rest);
    ReadDecimal(id, " 0 R" + rest);
    ExpectToken(" 0 R", rest);
  }

  lemma ReadLastReference(id: nat, rest: string)
    requires rest == "" || rest[0] != ' '
    ensures ReadRefs(Ref(id) + rest) == Some(([id], rest))
  {
    ReadReference(id, rest);
  }

  lemma {:induction false} ReadFirstReference(id: nat, tail: string, ids: seq<nat>, rest: string)
    requires ReadRefs(tail) == Some((ids, rest))
    ensures ReadRefs(Ref(id) + (" " + tail)) == Some(([id] + ids, rest))
  {
    ReadReference(id, " " + tail);
    assert (" " + tail)[1..] == tail;
  }

  lemma JoinRefs(ids: seq<nat>)
    requires |ids| > 1
    ensures Join(Refs(ids), " ") == Ref(ids[0]) + " " + Join(Refs(ids[1..]), " ")
  {
    assert Refs(ids)[1..] == Refs(ids[1..]);
  }

  lemma JoinOneRef(ids: seq<nat>)
    requires |ids| == 1
    ensures Join(Refs(ids), " ") == Ref(ids[0])
  {
  }

  lemma {:induction false} ReadReferences(ids: seq<nat>, rest: string)
    requires |ids| > 0 && (rest == "" || rest[0] != ' ')
    ensures ReadRefs(Join(Refs(ids), " ") + rest) == Some((ids, rest))
    decreases |ids|
  {
    var first, others := ids[0], ids[1..];
    assert ids == [first] + others;
    if |ids| == 1 {
      JoinOneRef(ids);
      ReadLastReference(first, rest);
      assert ids == [first];
    } else {
      var more := Join(Refs(others), " ");
      ReadReferences(others, rest);
      ReadFirstReference(first, more + rest, others, rest);
      JoinRefs(ids);
      Regroup3(Ref(first), " ", more, rest);
    }
  }

  lemma Regroup3(a: string, b: string, c: string, rest: string)
    ensures a + b + c + rest == a + (b + (c + rest))
  {
  }

  lemma Regroup5(a: string, b: string, c: string, d: string, e: string, rest: string)
    ensures a + b + c + d + e + rest == a + (b + (c + (d + (e + rest))))
  {
    Regroup3(a + b + c, d, e, rest);
    Regroup3(a, b, c, d + (e + rest));
  }

  lemma Regroup7(a: string, b: string, c: string, d: string, e: string, f: string, g: string, rest: string)
    ensures a + b + c + d + e + f + g + rest == a + (b + (c + (d + (e + (f + (g + rest))))))
  {
    Regroup3(a + b + c + d + e, f, g, rest);
    Regroup5(a, b, c, d, e, f + (g + rest));
  }

  lemma CatalogRoundTrip(pages: nat, rest: string)
    ensures ReadCatalog(CatalogBody(pages) + rest) == Some((pages, rest))
  {
    var c := DICT_END + rest;
    var b := Ref(pages) + c;
    Regroup3(CATALOG_HEAD, Ref(pages), DICT_END, rest);
    ExpectToken(CATALOG_HEAD, b);
    ReadReference(pages, c);
    ExpectToken(DICT_END, rest);
  }

  lemma PagesRoundTrip(kids: seq<nat>, rest: string)
    requires |kids| > 0
    ensures ReadPages(PagesBody(kids) + rest) == Some((kids, rest))
  {
    var list := Join(Refs(kids), " ");
    var d := DICT_END + rest;
    var c := Decimal(|kids|) + d;
    var b := PAGES_COUNT + c;
    Regroup5(PAGES_HEAD, list, PAGES_COUNT, Decimal(|kids|), DICT_END, rest);
    ExpectToken(PAGES_HEAD, list + b);
    ReadReferences(kids, b);
    ExpectToken(PAGES_COUNT, c);
    ReadDecimal(|kids|, d);
    ExpectToken(DICT_END, rest);
  }

  lemma PageRoundTrip(parent: nat, font: nat, contents: nat, rest: string)
    ensures ReadPage(PageBody(parent, font, contents) + rest) == Some(((parent, font, contents), rest))
  {
    var f := DICT_END + rest;
    var e := Ref(contents) + f;
    var d := PAGE_CONTENTS + e;
    var c := Ref(font) + d;
    var b := PAGE_FONT + c;
    var a := Ref(parent) + b;
    Regroup7(PAGE_HEAD, Ref(parent), PAGE_FONT, Ref(font), PAGE_CONTENTS, Ref(contents), DICT_END, rest);
    ExpectToken(PAGE_HEAD, a);
    ReadReference(parent, b);
    ExpectToken(PAGE_FONT, c);
    ReadReference(font, d);
    ExpectToken(PAGE_CONTENTS, e);
    ReadReference(contents, f);
    ExpectToken(DICT_END, rest);
  }

  lemma StreamRoundTrip(stream: string, rest: string)
    ensures ReadStream(StreamBody(stream) + rest) == Some((stream, rest))
  {
    var d := STREAM_CLOSE + rest;
    var c := stream + d;
    var b := STREAM_OPEN + c;
    var a := Decimal(|stream|) + b;
    Regroup5(LENGTH_HEAD, Decimal(|stream|), STREAM_OPEN, stream, STREAM_CLOSE, rest);
    ExpectToken(LENGTH_HEAD, a);
    ReadDecimal(|stream|, b);
    ExpectToken(STREAM_OPEN, c);
    assert c[..|stream|] == stream && c[|stream|..] == d;
    ExpectToken(STREAM_CLOSE, rest);
  }
}
