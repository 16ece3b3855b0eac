/** The archive report of internal/mobileapi/server.go (buildArchivePDF): report
    lines are cut into pages, each page becomes a page object and a content stream,
    and a reader that follows the file from `startxref` gets the lines back. */
module Pdf {
  import opened Text
  import opened PdfText
  import opened PdfObjects
  import opened PdfFile

  const LINES_PER_PAGE: nat := 46

  // ----- pages -----

  function PageCount(lines: seq<string>): (n: nat)
    ensures n > 0
    ensures n * LINES_PER_PAGE >= |lines|
  {
    if |lines| == 0 then 1 else (|lines| + LINES_PER_PAGE - 1) / LINES_PER_PAGE
  }

  function PageLines(lines: seq<string>, page: nat): (r: seq<string>)
    requires page < PageCount(lines)
    ensures |r| <= LINES_PER_PAGE
  {
    var start := page * LINES_PER_PAGE;
    var end := start + LINES_PER_PAGE;
    lines[start..if end > |lines| then |lines| else end]
  }

  function PageId(page: nat): nat { 4 + page * 2 }

  function PageIds(pages: nat): (ids: seq<nat>)
    ensures |ids| == pages
  {
    seq(pages, (p: nat) => PageId(p))
  }

  function ObjectCount(lines: seq<string>): nat {
    3 + PageCount(lines) * 2
  }

  function ContentBody(lines: seq<string>, page: nat): string
    requires page < PageCount(lines)
  {
    StreamBody(ContentStream(PageLines(lines, page)))
  }

  /** The bodies of the page and stream objects of the first pages. */
  function PageObjects(lines: seq<string>, pages: nat): (bodies: seq<string>)
    requires pages <= PageCount(lines)
    ensures |bodies| == pages * 2
  {
    if pages == 0 then []
    else PageObjects(lines, pages - 1) + [PageBody(2, 3, PageId(pages - 1) + 1), ContentBody(lines, pages - 1)]
  }

  /** The bodies of all objects, object 1 first. */
  function Bodies(lines: seq<string>): (bodies: seq<string>)
    ensures |bodies| == ObjectCount(lines)
  {
    [CatalogBody(2), PagesBody(PageIds(PageCount(lines))), FONT_BODY] + PageObjects(lines, PageCount(lines))
  }

  function PdfOf(lines: seq<string>): string {
    FileText(Bodies(lines))
  }

  lemma FixedBodies(lines: seq<string>)
    ensures Bodies(lines)[0] == CatalogBody(2)
    ensures Bodies(lines)[1] == PagesBody(PageIds(PageCount(lines)))
    ensures Bodies(lines)[2] == FONT_BODY
  {
  }

  lemma {:induction false} PageObjectsPrefix(lines: seq<string>, pages: nat, page: nat)
    requires page <= pages <= PageCount(lines)
    ensures PageObjects(lines, page) <= PageObjects(lines, pages)
  {
    hide ContentBody, PageBody;
    if page < pages {
      PageObjectsPrefix(lines, pages - 1, page);
    }
  }

  lemma PairComesLast(before: seq<string>, first: string, second: string, all: seq<string>)
    requires before + [first, second] <= all
    ensures all[|before|] == first && all[|before| + 1] == second
  {
    assert (before + [first, second])[|before|] == first;
    assert (before + [first, second])[|before| + 1] == second;
  }

  /** Page `page` and its stream are objects 4 + 2 * page and 5 + 2 * page. */
  lemma PageBodies(lines: seq<string>, page: nat)
    requires page < PageCount(lines)
    ensures Bodies(lines)[PageId(page) - 1] == PageBody(2, 3, PageId(page) + 1)
    ensures Bodies(lines)[PageId(page)] == ContentBody(lines, page)
  {
    var all := PageObjects(lines, PageCount(lines));
    PageObjectsPrefix(lines, PageCount(lines), page + 1);
    PairComesLast(PageObjects(lines, page), PageBody(2, 3, PageId(page) + 1), ContentBody(lines, page), all);
    assert Bodies(lines)[3..] == all;
  }

  method BuildContent(lines: seq<string>, page: nat) returns (body: string)
    requires page < PageCount(lines)
    ensures body == ContentBody(lines, page)
  {
    var start := page * LINES_PER_PAGE;
    var end := start + LINES_PER_PAGE;
    if end > |lines| {
      end := |lines|;
    }
    var stream := BuildPDFTextStream(lines[start..end]);
    body := StreamBody(stream);
  }

  /** Stores one page object and, after it, its stream. */
  method FillPage(lines: seq<string>, page: nat, objects: array<string>, ghost head: seq<string>)
    requires page < PageCount(lines) && objects.Length == ObjectCount(lines) + 1 && |head| == 4
    requires objects[..PageId(page)] == head + PageObjects(lines, page)
    modifies objects
    ensures objects[..PageId(page + 1)] == head + PageObjects(lines, page + 1)
  {
    hide ContentBody, PageBody;
    var pageId := 4 + page * 2;
    var contentId := pageId + 1;
    var stream := BuildContent(lines, page);
    var pageBody := PageBody(2, 3, contentId);
    Regroup(head, PageObjects(lines, page), [pageBody, stream]);
    ghost var before := objects[..pageId];
    objects[pageId] := pageBody;
    objects[contentId] := stream;
    assert objects[..contentId + 1] == before + [pageBody, stream];
  }

  /** Stores every page, and collects the ids for `/Kids`. */
  method FillPages(lines: seq<string>, objects: array<string>) returns (kids: seq<nat>)
    requires objects.Length == ObjectCount(lines) + 1
    modifies objects
    ensures objects[..] == old(objects[..4]) + PageObjects(lines, PageCount(lines))
    ensures kids == PageIds(PageCount(lines))
  {
    hide ContentBody, PageBody, PageObjects;
    kids := [];
    NoPages(lines);
    for page := 0 to PageCount(lines)
      invariant objects[..PageId(page)] == old(objects[..4]) + PageObjects(lines, page)
      invariant |kids| == page && forall p :: 0 <= p < page ==> kids[p] == PageId(p)
    {
      FillPage(lines, page, objects, old(objects[..4]));
      kids := kids + [4 + page * 2];
    }
    assert objects[..objects.Length] == objects[..];
  }

  lemma NoPages(lines: seq<string>)
    ensures PageObjects(lines, 0) == []
  {
  }

  /** The object table: slot 0 is unused, as in the source. */
  method BuildObjects(lines: seq<string>) returns (objects: array<string>)
    ensures fresh(objects) && objects.Length > 0 && objects[1..] == Bodies(lines)
  {
    hide ContentBody, PageBody, PageObjects, CatalogBody, PagesBody;
    var pageCount := (|lines| + LINES_PER_PAGE - 1) / LINES_PER_PAGE;
    if pageCount == 0 {
      pageCount := 1;
    }
    var objectCount := 3 + pageCount * 2;
    objects := new string[objectCount + 1](_ => "");
    objects[1] := CatalogBody(2);
    objects[3] := FONT_BODY;
    ghost var head := objects[..4];
    var kids := FillPages(lines, objects);
    assert objects[..] == head + PageObjects(lines, pageCount);
    objects[2] := PagesBody(kids);
    ObjectsAreBodies(objects[..], head, lines);
  }

  lemma ObjectsAreBodies(objects: seq<string>, head: seq<string>, lines: seq<string>)
    requires |head| == 4 && head[1] == CatalogBody(2) && head[3] == FONT_BODY
    requires objects == (head + PageObjects(lines, PageCount(lines)))[2 := PagesBody(PageIds(PageCount(lines)))]
    ensures objects[1..] == Bodies(lines)
  {
    hide PageObjects, CatalogBody, PagesBody;
  }

  method WritePdf(lines: seq<string>) returns (out: string)
    ensures out == PdfOf(lines)
  {
    var objects := BuildObjects(lines);
    out := WriteFile(objects[..]);
  }

  // ----- the reader -----

  /** One page: its parent must be the page tree, its font the font object, and its
      contents a stream of show operators. */
  function ReadPageLines(file: string, offsets: seq<nat>, id: nat, parent: nat): Option<seq<string>> {
    var pageText :- ReadObject(file, offsets, id);
    var ((up, font, contents), pageEnd) :- ReadPage(pageText);
    var _ :- Expect(pageEnd, END_OBJ);
    var fontText :- ReadObject(file, offsets, font);
    var fontEnd :- Expect(fontText, FONT_BODY);
    var _ :- Expect(fontEnd, END_OBJ);
    var streamText :- ReadObject(file, offsets, contents);
    var (stream, streamEnd) :- ReadStream(streamText);
    var _ :- Expect(streamEnd, END_OBJ);
    if up == parent then ReadContent(stream) else None
  }

  function ReadKids(file: string, offsets: seq<nat>, kids: seq<nat>, parent: nat): Option<seq<seq<string>>>
    decreases |kids|
  {
    if |kids| == 0 then Some([])
    else
      var page :- ReadPageLines(file, offsets, kids[0], parent);
      var pages :- ReadKids(file, offsets, kids[1..], parent);
      Some([page] + pages)
  }

  /** Follows `startxref`, the trailer's root, the catalog and the page tree, and
      reads every page in the order of `/Kids`. */
  function ReadPdf(file: string): Option<seq<seq<string>>> {
    var (offsets, root) :- ReadXref(file);
    var catalogText :- ReadObject(file, offsets, root);
    var (pages, catalogEnd) :- ReadCatalog(catalogText);
    var _ :- Expect(catalogEnd, END_OBJ);
    var pagesText :- ReadObject(file, offsets, pages);
    var (kids, pagesEnd) :- ReadPages(pagesText);
    var _ :- Expect(pagesEnd, END_OBJ);
    ReadKids(file, offsets, kids, pages)
  }

  // ----- reading undoes writing -----

  /** The text of every page, in order. */
  function PageTexts(lines: seq<string>, page: nat): seq<seq<string>>
    requires page <= PageCount(lines)
    decreases PageCount(lines) - page
  {
    if page == PageCount(lines) then []
    else [SanitisedLines(PageLines(lines, page))] + PageTexts(lines, page + 1)
  }

  lemma {:induction false} ReadBody(lines: seq<string>, id: nat, body: string) returns (rest: string)
    requires 1 <= id <= ObjectCount(lines) && body == Bodies(lines)[id - 1]
    ensures ReadObject(PdfOf(lines), Offsets(Bodies(lines), ObjectCount(lines)), id) == Some(body + (END_OBJ + rest))
  {
    rest := ObjectRoundTrip(Bodies(lines), id);
  }

  lemma {:induction false} ReadsFont(lines: seq<string>) returns (rest: string)
    ensures ReadObject(PdfOf(lines), Offsets(Bodies(lines), ObjectCount(lines)), 3) == Some(FONT_BODY + (END_OBJ + rest))
    ensures Expect(FONT_BODY + (END_OBJ + rest), FONT_BODY) == Some(END_OBJ + rest)
  {
    FixedBodies(lines);
    rest := ReadBody(lines, 3, FONT_BODY);
    ExpectToken(FONT_BODY, END_OBJ + rest);
  }

  lemma {:induction false} ReadsPage(lines: seq<string>, page: nat) returns (text: string, rest: string)
    requires page < PageCount(lines)
    ensures ReadObject(PdfOf(lines), Offsets(Bodies(lines), ObjectCount(lines)), PageId(page)) == Some(text)
    ensures ReadPage(text) == Some(((2, 3, PageId(page) + 1), END_OBJ + rest))
  {
    hide PdfOf, ReadObject, ReadPage, PageBody, Offsets, Bodies, PageLines, ContentStream, StreamBody, PageCount;
    PageBodies(lines, page);
    rest := ReadBody(lines, PageId(page), PageBody(2, 3, PageId(page) + 1));
    text := PageBody(2, 3, PageId(page) + 1) + (END_OBJ + rest);
    PageRoundTrip(2, 3, PageId(page) + 1, END_OBJ + rest);
  }

  lemma {:induction false} ReadsContents(lines: seq<string>, page: nat) returns (text: string, rest: string)
    requires page < PageCount(lines)
    ensures ReadObject(PdfOf(lines), Offsets(Bodies(lines), ObjectCount(lines)), PageId(page) + 1) == Some(text)
    ensures ReadStream(text) == Some((ContentStream(PageLines(lines, page)), END_OBJ + rest))
  {
    hide PdfOf, ReadObject, ReadStream, StreamBody, ContentStream, Offsets;
    var stream := ContentStream(PageLines(lines, page));
    PageBodies(lines, page);
    rest := ReadBody(lines, PageId(page) + 1, StreamBody(stream));
    text := StreamBody(stream) + (END_OBJ + rest);
    StreamRoundTrip(stream, END_OBJ + rest);
  }

  lemma {:induction false} OnePageRoundTrip(lines: seq<string>, page: nat)
    requires page < PageCount(lines)
    ensures ReadPageLines(PdfOf(lines), Offsets(Bodies(lines), ObjectCount(lines)), PageId(page), 2)
            == Some(SanitisedLines(PageLines(lines, page)))
  {
    var pageText, pageRest := ReadsPage(lines, page);
    ExpectToken(END_OBJ, pageRest);
    var fontRest := ReadsFont(lines);
    ExpectToken(END_OBJ, fontRest);
    var streamText, streamRest := ReadsContents(lines, page);
    ExpectToken(END_OBJ, streamRest);
    ContentRoundTrip(PageLines(lines, page));
  }

  lemma {:induction false} KidsRoundTrip(lines: seq<string>, page: nat)
    requires page <= PageCount(lines)
    ensures ReadKids(PdfOf(lines), Offsets(Bodies(lines), ObjectCount(lines)), PageIds(PageCount(lines))[page..], 2)
            == Some(PageTexts(lines, page))
    decreases PageCount(lines) - page
  {
    if page < PageCount(lines) {
      var kids := PageIds(PageCount(lines))[page..];
      assert kids[1..] == PageIds(PageCount(lines))[page + 1..];
      OnePageRoundTrip(lines, page);
      KidsRoundTrip(lines, page + 1);
    }
  }

  function Concat(pages: seq<seq<string>>): seq<string> {
    if |pages| == 0 then [] else pages[0] + Concat(pages[1..])
  }

  /** The lines from page `page` on. */
  function LinesFrom(lines: seq<string>, page: nat): seq<string> {
    if page * LINES_PER_PAGE <= |lines| then lines[page * LINES_PER_PAGE..] else []
  }

  lemma LinesFromSplit(lines: seq<string>, page: nat)
    requires page < PageCount(lines)
    ensures LinesFrom(lines, page) == PageLines(lines, page) + LinesFrom(lines, page + 1)
  {
    assert page * LINES_PER_PAGE <= |lines|;
  }

  /** Every page but the last has 46 lines, and the last has one to 46 unless there are no
      lines at all. */
  predicate FullPages(pages: seq<seq<string>>, none: bool) {
    && (forall p :: 0 <= p < |pages| - 1 ==> |pages[p]| == 46)
    && (|pages| > 0 ==> |pages[|pages| - 1]| <= 46 && (|pages[|pages| - 1]| > 0 || none))
  }

  lemma {:induction false} PageSizes(lines: seq<string>, page: nat)
    requires page <= PageCount(lines)
    ensures |PageTexts(lines, page)| == PageCount(lines) - page
    ensures FullPages(PageTexts(lines, page), lines == [])
    decreases PageCount(lines) - page
  {
    hide Sanitised;
    if page < PageCount(lines) {
      PageSizes(lines, page + 1);
      PageIsFull(lines, page);
      var pages := PageTexts(lines, page);
      assert forall p :: 0 < p < |pages| ==> pages[p] == PageTexts(lines, page + 1)[p - 1];
    }
  }

  lemma PageIsFull(lines: seq<string>, page: nat)
    requires page < PageCount(lines)
    ensures page + 1 < PageCount(lines) ==> |PageLines(lines, page)| == 46
    ensures page + 1 == PageCount(lines) ==> |PageLines(lines, page)| <= 46 && (|PageLines(lines, page)| > 0 || lines == [])
  {
    var n := |lines|;
    if n > 0 {
      var q := (n + 45) / 46;
      assert 46 * q <= n + 45 && n + 45 < 46 * q + 46;
      assert PageCount(lines) == q;
    }
  }

  lemma {:induction false} PagesPartition(lines: seq<string>, page: nat)
    requires page <= PageCount(lines)
    ensures Concat(PageTexts(lines, page)) == SanitisedLines(LinesFrom(lines, page))
    decreases PageCount(lines) - page
  {
    hide Sanitised, PageLines, PageCount;
    if page < PageCount(lines) {
      PagesPartition(lines, page + 1);
      LinesFromSplit(lines, page);
      SanitisedSplit(PageLines(lines, page), LinesFrom(lines, page + 1));
      ConcatFirst(SanitisedLines(PageLines(lines, page)), PageTexts(lines, page + 1));
    } else {
      assert LinesFrom(lines, page) == [];
    }
  }

  lemma ConcatFirst(first: seq<string>, rest: seq<seq<string>>)
    ensures Concat([first] + rest) == first + Concat(rest)
  {
    assert ([first] + rest)[1..] == rest;
  }

  lemma SanitisedSplit(front: seq<string>, back: seq<string>)
    ensures SanitisedLines(front + back) == SanitisedLines(front) + SanitisedLines(back)
  {
  }

  /** The report round trip: whatever the lines, a file of at most 10^10 bytes reads
      back as pages of at most 46 lines whose concatenation is every line once, in
      order, in its sanitised form. */
  lemma {:induction false} PdfRoundTrip(lines: seq<string>)
    requires |PdfOf(lines)| <= Pow10(OFFSET_WIDTH)
    ensures ReadPdf(PdfOf(lines)) == Some(PageTexts(lines, 0))
    ensures Concat(PageTexts(lines, 0)) == SanitisedLines(lines)
    ensures FullPages(PageTexts(lines, 0), lines == [])
  {
    hide FileText, ReadXref, ReadObject, ReadKids, ReadCatalog, ReadPages, CatalogBody, PagesBody, Offsets, PageTexts, Pow10, Expect, Sanitised;
    var bodies := Bodies(lines);
    XrefRoundTrip(bodies);
    FixedBodies(lines);
    var catalogRest := ReadBody(lines, 1, CatalogBody(2));
    CatalogRoundTrip(2, END_OBJ + catalogRest);
    ExpectToken(END_OBJ, catalogRest);
    var pagesRest := ReadBody(lines, 2, PagesBody(PageIds(PageCount(lines))));
    PagesRoundTrip(PageIds(PageCount(lines)), END_OBJ + pagesRest);
    ExpectToken(END_OBJ, pagesRest);
    assert PageIds(PageCount(lines))[0..] == PageIds(PageCount(lines));
    KidsRoundTrip(lines, 0);
    PagesPartition(lines, 0);
    PageSizes(lines, 0);
    assert lines[0..] == lines;
  }

  // ----- every byte is ASCII -----

  predicate Ascii(s: string) {
    forall c :: c in s ==> c < 128 as char
  }

  lemma AsciiConcat(a: string, b: string)
    ensures Ascii(a) && Ascii(b) ==> Ascii(a + b)
  {
  }

  lemma {:induction false} AsciiJoin(parts: seq<string>, sep: string)
    requires Ascii(sep) && forall i :: 0 <= i < |parts| ==> Ascii(parts[i])
    ensures Ascii(Join(parts, sep))
  {
    if |parts| > 1 {
      AsciiJoin(parts[1..], sep);
      AsciiConcat(parts[0], sep);
      AsciiConcat(parts[0] + sep, Join(parts[1..], sep));
    }
  }

  lemma AsciiCatalogTokens()
    ensures Ascii(CATALOG_HEAD) && Ascii(DICT_END) && Ascii(" 0 R")
  {
  }

  lemma AsciiPagesTokens()
    ensures Ascii(PAGES_HEAD) && Ascii(PAGES_COUNT)
  {
  }

  lemma AsciiPageTokens()
    ensures Ascii(PAGE_HEAD) && Ascii(PAGE_CONTENTS)
  {
  }

  lemma AsciiFontTokens()
    ensures Ascii(FONT_NAME) && Ascii(FONT_BASE)
  {
  }

  lemma AsciiFontType()
    ensures Ascii(FONT_TYPE)
  {
  }

  lemma AsciiFont()
    ensures Ascii(FONT_BODY)
  {
    hide Ascii;
    AsciiFontType();
    AsciiFontTokens();
    Ascii3(FONT_TYPE, FONT_NAME, FONT_BASE);
  }

  lemma AsciiMediaBox()
    ensures Ascii(MEDIA_BOX)
  {
  }

  lemma AsciiResources()
    ensures Ascii(RESOURCES)
  {
  }

  lemma AsciiPageFont()
    ensures Ascii(PAGE_FONT)
  {
    hide Ascii;
    AsciiMediaBox();
    AsciiResources();
    AsciiConcat(MEDIA_BOX, RESOURCES);
  }

  lemma AsciiStreamHead()
    ensures Ascii(STREAM_HEAD)
  {
  }

  lemma AsciiShowTokens()
    ensures Ascii(SHOW_END) && Ascii(STREAM_END)
  {
  }

  lemma AsciiStreamTokens()
    ensures Ascii(LENGTH_HEAD) && Ascii(STREAM_OPEN) && Ascii(STREAM_CLOSE)
  {
  }

  lemma AsciiFileTokens()
    ensures Ascii(HEADER) && Ascii(OBJ) && Ascii(END_OBJ) && Ascii(XREF) && Ascii(IN_USE) && Ascii(EOF)
  {
  }

  lemma AsciiFreeEntry()
    ensures Ascii(FREE_ENTRY)
  {
  }

  lemma AsciiTrailerTokens()
    ensures Ascii(TRAILER) && Ascii(ROOT) && Ascii(TRAILER_END) && Ascii(START_XREF)
  {
  }

  lemma Ascii3(a: string, b: string, c: string)
    requires Ascii(a) && Ascii(b) && Ascii(c)
    ensures Ascii(a + b + c)
  {
    AsciiConcat(a, b);
    AsciiConcat(a + b, c);
  }

  lemma AsciiRef(id: nat)
    ensures Ascii(Ref(id))
  {
    AsciiCatalogTokens();
    AsciiConcat(Decimal(id), " 0 R");
  }

  lemma {:induction false} AsciiEscaped(s: string)
    ensures Ascii(EscapeRunes(s))
  {
    if s != "" {
      AsciiEscaped(s[1..]);
      AsciiConcat(EscapeRune(s[0]), EscapeRunes(s[1..]));
    }
  }

  lemma {:induction false} AsciiShows(lines: seq<string>)
    ensures Ascii(ShowLines(lines))
  {
    if |lines| > 0 {
      AsciiShowTokens();
      AsciiEscaped(FirstRunes(TrimSpace(lines[0])));
      Ascii3("(", EscapedLine(lines[0]), ")");
      AsciiConcat("(" + EscapedLine(lines[0]) + ")", SHOW_END);
      AsciiShows(lines[1..]);
      AsciiConcat(ShowLine(lines[0]), ShowLines(lines[1..]));
    }
  }

  lemma {:induction false} AsciiContent(lines: seq<string>)
    ensures Ascii(StreamBody(ContentStream(lines)))
  {
    AsciiStreamTokens();
    AsciiStreamHead();
    AsciiShowTokens();
    AsciiShows(lines);
    var stream := ContentStream(lines);
    Ascii3(STREAM_HEAD, ShowLines(lines), STREAM_END);
    Ascii3(LENGTH_HEAD, Decimal(|stream|), STREAM_OPEN);
    Ascii3(LENGTH_HEAD + Decimal(|stream|) + STREAM_OPEN, stream, STREAM_CLOSE);
  }

  lemma {:induction false} AsciiPage(contents: nat)
    ensures Ascii(PageBody(2, 3, contents))
  {
    AsciiCatalogTokens();
    AsciiPageTokens();
    AsciiPageFont();
    AsciiRef(2);
    AsciiRef(3);
    AsciiRef(contents);
    Ascii3(PAGE_HEAD, Ref(2), PAGE_FONT);
    Ascii3(PAGE_HEAD + Ref(2) + PAGE_FONT, Ref(3), PAGE_CONTENTS);
    Ascii3(PAGE_HEAD + Ref(2) + PAGE_FONT + Ref(3) + PAGE_CONTENTS, Ref(contents), DICT_END);
  }

  lemma {:induction false} AsciiTree(kids: seq<nat>)
    ensures Ascii(CatalogBody(2)) && Ascii(PagesBody(kids))
  {
    AsciiCatalogTokens();
    AsciiPagesTokens();
    AsciiRef(2);
    Ascii3(CATALOG_HEAD, Ref(2), DICT_END);
    forall i | 0 <= i < |kids| ensures Ascii(Refs(kids)[i]) { AsciiRef(kids[i]); }
    AsciiJoin(Refs(kids), " ");
    Ascii3(PAGES_HEAD, Join(Refs(kids), " "), PAGES_COUNT);
    Ascii3(PAGES_HEAD + Join(Refs(kids), " ") + PAGES_COUNT, Decimal(|kids|), DICT_END);
  }

  predicate AllAscii(parts: seq<string>) {
    forall i :: 0 <= i < |parts| ==> Ascii(parts[i])
  }

  lemma {:induction false} AsciiPages(lines: seq<string>, pages: nat)
    requires pages <= PageCount(lines)
    ensures AllAscii(PageObjects(lines, pages))
  {
    hide PageBody, ContentStream, PageLines;
    if pages > 0 {
      AsciiPages(lines, pages - 1);
      AsciiPage(PageId(pages - 1) + 1);
      AsciiContent(PageLines(lines, pages - 1));
    }
  }

  lemma {:induction false} AsciiObjects(bodies: seq<string>, k: nat)
    requires k <= |bodies| && AllAscii(bodies)
    ensures Ascii(ObjectsText(bodies, k))
  {
    if k > 0 {
      AsciiFileTokens();
      AsciiObjects(bodies, k - 1);
      Ascii3(Decimal(k), OBJ, bodies[k - 1]);
      AsciiConcat(Decimal(k) + OBJ + bodies[k - 1], END_OBJ);
      AsciiConcat(ObjectsText(bodies, k - 1), ObjectText(k, bodies[k - 1]));
    }
  }

  lemma {:induction false} AsciiEntries(offsets: seq<nat>)
    ensures Ascii(XrefEntries(offsets))
  {
    if |offsets| > 0 {
      AsciiFileTokens();
      AsciiEntries(offsets[1..]);
      var digits := ZeroPad(Decimal(offsets[0]), OFFSET_WIDTH);
      assert AllDigits(digits);
      AsciiConcat(digits, IN_USE);
      AsciiConcat(XrefEntry(offsets[0]), XrefEntries(offsets[1..]));
    }
  }

  lemma AsciiTail(bodies: seq<string>)
    ensures Ascii(Tail(bodies))
  {
    AsciiFileTokens();
    AsciiFreeEntry();
    AsciiTrailerTokens();
    AsciiRef(1);
    var offsets := Offsets(bodies, |bodies|);
    AsciiEntries(offsets);
    Ascii3(XREF, Decimal(|offsets| + 1), "\n");
    Ascii3(XREF + Decimal(|offsets| + 1) + "\n", FREE_ENTRY, XrefEntries(offsets));
    var t := TRAILER + Decimal(|bodies| + 1) + ROOT;
    Ascii3(TRAILER, Decimal(|bodies| + 1), ROOT);
    Ascii3(t, Ref(1), TRAILER_END);
    Ascii3(t + Ref(1) + TRAILER_END, START_XREF, Decimal(|BodyText(bodies)|));
    AsciiConcat(t + Ref(1) + TRAILER_END + START_XREF + Decimal(|BodyText(bodies)|), EOF);
    AsciiConcat(XrefTable(offsets), Trailer(|bodies|, |BodyText(bodies)|));
  }

  /** Whatever the lines hold, every rune of the file is ASCII, so every count of
      runes in the file is a count of bytes. */
  lemma {:induction false} FileIsAscii(lines: seq<string>)
    ensures Ascii(PdfOf(lines))
  {
    var bodies := Bodies(lines);
    AsciiFileTokens();
    AsciiTree(PageIds(PageCount(lines)));
    AsciiFont();
    AsciiPages(lines, PageCount(lines));
    AsciiObjects(bodies, |bodies|);
    AsciiConcat(HEADER, ObjectsText(bodies, |bodies|));
    AsciiTail(bodies);
    AsciiConcat(BodyText(bodies), Tail(bodies));
  }
}
