/** What a remarks text reads as after any sequence of updates. */
module RemarksReadBack {
  import opened Text
  import opened Lines
  import opened Quantity
  import opened Remarks
  import opened RemarksCodec

  // ----- marked lines -----

  /** A line a writer may append: a marker and a text. */
  datatype Entry = Entry(present: bool, marker: string, text: string)

  function ShownLines(es: seq<Entry>): seq<string> {
    if |es| == 0 then [] else LineIf(es[0].present, es[0].marker + es[0].text) + ShownLines(es[1..])
  }

  /** The same lines as reading yields them. */
  function ReadLines(es: seq<Entry>): seq<string> {
    if |es| == 0 then [] else LineIf(es[0].present, es[0].marker + TrimRight(es[0].text)) + ReadLines(es[1..])
  }

  predicate IsMarker(m: string) {
    m != "" && Trimmed(m)
  }

  predicate MarkersOk(es: seq<Entry>) {
    forall i :: 0 <= i < |es| ==> IsMarker(es[i].marker)
  }

  lemma {:induction false} TrimRightAfter(s: string, x: string)
    requires s == "" || !IsSpace(s[|s| - 1])
    ensures TrimRight(s + x) == s + TrimRight(x)
  {
    if x == "" {
      assert s + x == s;
      assert s + "" == s;
    } else if IsSpace(x[|x| - 1]) {
      TrimRightAfter(s, x[..|x| - 1]);
      assert (s + x)[..|s + x| - 1] == s + x[..|x| - 1];
    }
  }

  /** Trimming a marked line touches only the end of its text, and the text after the
      marker trims to the text that was written. */
  lemma {:induction false} MarkedLine(m: string, x: string)
    requires IsMarker(m)
    ensures TrimSpace(m + x) == m + TrimRight(x)
    ensures HasPrefix(m + TrimRight(x), m) && (m + TrimRight(x))[|m|..] == TrimRight(x)
    ensures TrimSpace(TrimRight(x)) == TrimSpace(x)
  {
    hide TrimRight;
    assert (m + x)[0] == m[0];
    TrimRightAfter(m, x);
    PrefixOfConcat(m, TrimRight(x));
    TrimOfTrimRight(x);
  }

  lemma TrimOfTrimRight(x: string)
    ensures TrimSpace(TrimRight(x)) == TrimSpace(x)
  {
    hide TrimSpace, TrimRight;
    var k := TrimRightDecomposes(x);
    assert x == TrimRight(x) + x[k..];
    TrimDropsRight(TrimRight(x), x[k..]);
  }

  lemma {:induction false} CleanShown(es: seq<Entry>)
    requires MarkersOk(es)
    ensures Clean(ShownLines(es)) == ReadLines(es)
  {
    if |es| > 0 {
      CleanShown(es[1..]);
      MarkedLine(es[0].marker, es[0].text);
      CleanConcat(LineIf(es[0].present, es[0].marker + es[0].text), ShownLines(es[1..]));
    }
  }

  /** Neither marker begins with the other, so no line carries both. */
  predicate Apart(m: string, n: string) {
    !HasPrefix(m, n) && !HasPrefix(n, m)
  }

  lemma ApartLines(m: string, n: string, x: string)
    requires Apart(m, n)
    ensures !HasPrefix(m + x, n)
  {
    if |n| <= |m| {
      assert (m + x)[..|n|] == m[..|n|];
    } else if |n| <= |m + x| {
      assert (m + x)[..|n|][..|m|] == m;
    }
  }

  lemma ReadFirst(parse: ParseFloat, present: bool, line: string, rest: seq<string>, m: string, q: Float)
    ensures FirstValue(LineIf(present, line) + rest, m)
            == if present && HasPrefix(line, m) then TrimSpace(line[|m|..]) else FirstValue(rest, m)
    ensures LastQty(parse, LineIf(present, line) + rest, m, q) == LastQty(parse, rest, m, if present then QtyStep(parse, q, line, m) else q)
  {
    if present {
      assert ([line] + rest)[1..] == rest;
    } else {
      assert [] + rest == rest;
    }
  }

  predicate AllApart(es: seq<Entry>, m: string) {
    forall i :: 0 <= i < |es| ==> Apart(es[i].marker, m)
  }

  lemma {:induction false} NoEntry(parse: ParseFloat, es: seq<Entry>, m: string, q: Float)
    requires AllApart(es, m)
    ensures FirstValue(ReadLines(es), m) == ""
    ensures LastQty(parse, ReadLines(es), m, q) == q
  {
    hide TrimRight, QtyStep, Apart;
    if |es| > 0 {
      NoEntry(parse, es[1..], m, q);
      assert Apart(es[0].marker, m);
      ApartLines(es[0].marker, m, TrimRight(es[0].text));
      StepOther(parse, q, es[0].marker + TrimRight(es[0].text), m);
      ReadFirst(parse, es[0].present, es[0].marker + TrimRight(es[0].text), ReadLines(es[1..]), m, q);
    }
  }

  lemma StepOther(parse: ParseFloat, q: Float, line: string, m: string)
    requires !HasPrefix(line, m)
    ensures QtyStep(parse, q, line, m) == q
  {
  }

  predicate ApartExcept(es: seq<Entry>, k: nat) {
    k < |es| && forall i :: 0 <= i < |es| && i != k ==> Apart(es[i].marker, es[k].marker)
  }

  /** What the only entry with a marker reads as. */
  lemma {:induction false} OneEntry(parse: ParseFloat, es: seq<Entry>, k: nat, q: Float)
    requires ApartExcept(es, k) && MarkersOk(es)
    ensures FirstValue(ReadLines(es), es[k].marker) == if es[k].present then TrimSpace(es[k].text) else ""
    ensures LastQty(parse, ReadLines(es), es[k].marker, q)
            == if es[k].present then QtyStep(parse, q, es[k].marker + TrimRight(es[k].text), es[k].marker) else q
  {
    hide TrimRight, QtyStep, Apart, TrimSpace;
    var m := es[k].marker;
    ReadFirst(parse, es[0].present, es[0].marker + TrimRight(es[0].text), ReadLines(es[1..]), m, q);
    if k == 0 {
      MarkedLine(m, es[0].text);
      NoEntry(parse, es[1..], m, QtyStep(parse, q, m + TrimRight(es[0].text), m));
      NoEntry(parse, es[1..], m, q);
    } else {
      assert Apart(es[0].marker, m);
      ApartLines(es[0].marker, m, TrimRight(es[0].text));
      StepOther(parse, q, es[0].marker + TrimRight(es[0].text), m);
      OneEntry(parse, es[1..], k - 1, q);
    }
  }

  // ----- quantities in a line -----

  predicate NoSpace(s: string) {
    forall i :: 0 <= i < |s| ==> !IsSpace(s[i])
  }

  lemma WordRunOf(word: string, rest: string)
    requires NoSpace(word) && (rest == "" || IsSpace(rest[0]))
    ensures WordRun(word + rest) == |word|
  {
    var s := word + rest;
    assert forall i :: 0 <= i < |word| ==> s[i] == word[i];
    assert rest != "" ==> s[|word|] == rest[0];
  }

  lemma FieldsStart(s: string)
    requires s != "" && !IsSpace(s[0])
    ensures Fields(s) != [] && Fields(s)[0] == s[..WordRun(s)]
  {
  }

  lemma FirstWord(ws: string, word: string, rest: string)
    requires AllSpace(ws) && word != "" && NoSpace(word) && (rest == "" || IsSpace(rest[0]))
    ensures FirstField(TrimSpace(ws + word + rest)) == word
  {
    Regroup(ws, word, rest);
    TrimDropsLeft(ws, word + rest);
    assert (word + rest)[0] == word[0];
    TrimRightAfter(word, rest);
    var k := TrimRightDecomposes(rest);
    var t := word + rest[..k];
    assert TrimSpace(ws + word + rest) == t;
    assert t[0] == word[0];
    WordRunOf(word, rest[..k]);
    assert t[..|word|] == word;
    assert Fields(t)[0] == t[..WordRun(t)] by { hide Fields; FieldsStart(t); }
  }

  lemma DigitsAreWord(w: string, f: string)
    requires AllDigits(w) && AllDigits(f)
    ensures NoSpace(w + "." + f) && SingleLine(w + "." + f)
    ensures NoSpace("-" + (w + "." + f)) && SingleLine("-" + (w + "." + f))
  {
  }

  lemma FormattedIsWord(q: real)
    ensures FormatQty(q) != "" && NoSpace(FormatQty(q)) && SingleLine(FormatQty(q))
  {
    hide RoundHalfEven;
    var n := if q < 0.0 then TenThousandths(-q) else TenThousandths(q);
    DigitsAreWord(Decimal(n / 10000), ZeroPad(Decimal(n % 10000), 4));
  }

  /** A quantity written after a marker reads back rounded to four decimals. */
  lemma QtyReadsBack(parse: ParseFloat, m: string, ws: string, q: real, uom: string, before: Float)
    requires ReadsPrinted(parse) && IsMarker(m) && AllSpace(ws)
    ensures QtyStep(parse, before, m + TrimRight(ws + FormatQty(q) + " " + uom), m) == Finite(Rounded(q))
  {
    hide FormatQty, TrimRight, FirstField, TrimSpace, Rounded;
    var x := ws + FormatQty(q) + " " + uom;
    MarkedLine(m, x);
    FormattedIsWord(q);
    Regroup(ws + FormatQty(q), " ", uom);
    FirstWord(ws, FormatQty(q), " " + uom);
    QtyRoundTrip(parse, q);
  }

  // ----- the entries of each update -----

  function Entries(u: Update): seq<Entry> {
    match u
    case CustomerDecision(state, reason, accepted, returned, uom, comment) =>
      [Entry(NormalizeCustomerState(state) != "", DECISION, NormalizeCustomerState(state)),
       Entry(TrimSpace(reason) != "", REASON, TrimSpace(reason)),
       Entry(accepted > 0.0, ACCEPTED, FormatQty(accepted) + " " + TrimSpace(uom)),
       Entry(returned > 0.0, RETURNED, FormatQty(returned) + " " + TrimSpace(uom)),
       Entry(TrimSpace(comment) != "", COMMENT, TrimSpace(comment))]
    case AccordDecision(_, accepted, _, uom, reason, comment) =>
      var noted := ImpliedReturn(u) > 0.0;
      [Entry(noted, ACCORD_ACCEPTED, " " + FormatQty(accepted) + " " + uom),
       Entry(noted, ACCORD_RETURNED, " " + FormatQty(NotedReturn(u)) + " " + uom),
       Entry(noted && TrimSpace(reason) != "", ACCORD_REASON, " " + TrimSpace(reason)),
       Entry(noted && TrimSpace(comment) != "", ACCORD_COMMENT, " " + TrimSpace(comment))]
    case WerkaUnannounced(state, reason) =>
      [Entry(TrimSpace(state) != "", UNANNOUNCED, " " + TrimSpace(state)),
       Entry(TrimSpace(reason) != "", UNANNOUNCED_REASON, " " + TrimSpace(reason))]
  }

  lemma MarkersAreMarkers()
    ensures IsMarker(DECISION) && IsMarker(REASON) && IsMarker(ACCEPTED) && IsMarker(RETURNED) && IsMarker(COMMENT)
    ensures IsMarker(ACCORD_ACCEPTED) && IsMarker(ACCORD_RETURNED) && IsMarker(ACCORD_REASON) && IsMarker(ACCORD_COMMENT)
    ensures IsMarker(UNANNOUNCED) && IsMarker(UNANNOUNCED_REASON)
  {
  }

  lemma EntriesMarked(u: Update)
    ensures MarkersOk(Entries(u))
  {
    hide IsMarker, TrimSpace, FormatQty, NormalizeCustomerState;
    MarkersAreMarkers();
  }

  lemma CustomerMarkersApart()
    ensures var ms := [DECISION, REASON, ACCEPTED, RETURNED, COMMENT];
      forall m, n :: m in ms && n in ms && m != n ==> Apart(m, n)
  {
    assert DECISION[1] == 'C' && REASON[1] == 'R' && ACCEPTED[1] == 'Q' && RETURNED[1] == 'T' && COMMENT[1] == 'X';
  }

  lemma AccordMarkersApart()
    ensures var ms := [ACCORD_ACCEPTED, ACCORD_RETURNED, ACCORD_REASON, ACCORD_COMMENT];
      forall m, n :: m in ms && n in ms && m != n ==> Apart(m, n)
  {
    assert ACCORD_ACCEPTED[7] == 'Q' && ACCORD_RETURNED[7] == 'Q' && ACCORD_REASON[7] == 'S' && ACCORD_COMMENT[7] == 'I';
    assert ACCORD_ACCEPTED[9] == 'b' && ACCORD_RETURNED[9] == 'y';
  }

  lemma UnannouncedMarkersApart()
    ensures Apart(UNANNOUNCED, UNANNOUNCED_REASON) && Apart(UNANNOUNCED_REASON, UNANNOUNCED)
  {
    assert UNANNOUNCED[23] == ':' && UNANNOUNCED_REASON[23] == ' ';
  }

  lemma EntriesApart(u: Update, k: nat)
    requires k < |Entries(u)|
    ensures ApartExcept(Entries(u), k)
  {
    hide Apart, TrimSpace, FormatQty, NormalizeCustomerState;
    match u
    case CustomerDecision(_, _, _, _, _, _) => CustomerMarkersApart();
    case AccordDecision(_, _, _, _, _, _) => AccordMarkersApart();
    case WerkaUnannounced(_, _) => UnannouncedMarkersApart();
  }

  // ----- what an update's lines read as -----

  predicate EntriesSingle(es: seq<Entry>) {
    forall i :: 0 <= i < |es| ==> SingleLine(es[i].marker) && SingleLine(es[i].text)
  }

  lemma {:induction false} ShownSingle(es: seq<Entry>)
    requires EntriesSingle(es)
    ensures SingleLines(ShownLines(es))
  {
    if |es| > 0 { ShownSingle(es[1..]); }
  }

  lemma MarkersAreSingle()
    ensures SingleLine(DECISION) && SingleLine(REASON) && SingleLine(ACCEPTED) && SingleLine(RETURNED) && SingleLine(COMMENT)
    ensures SingleLine(ACCORD_ACCEPTED) && SingleLine(ACCORD_RETURNED) && SingleLine(ACCORD_REASON) && SingleLine(ACCORD_COMMENT)
    ensures SingleLine(UNANNOUNCED) && SingleLine(UNANNOUNCED_REASON)
  {
  }

  lemma StateIsSingle(state: string)
    ensures SingleLine(NormalizeCustomerState(state))
  {
    assert SingleLine("pending") && SingleLine("confirmed") && SingleLine("partial") && SingleLine("rejected");
  }

  lemma JoinSingles(a: string, b: string)
    ensures SingleLine(a) && SingleLine(b) ==> SingleLine(a + b)
  {
  }

  lemma QtyTextSingle(ws: string, q: real, uom: string)
    requires SingleLine(ws) && SingleLine(uom)
    ensures SingleLine(ws + FormatQty(q) + " " + uom)
  {
    hide FormatQty;
    FormattedIsWord(q);
    JoinSingles(ws, FormatQty(q));
    JoinSingles(ws + FormatQty(q), " ");
    JoinSingles(ws + FormatQty(q) + " ", uom);
  }

  lemma {:induction false} EntriesAreSingle(u: Update)
    requires u.IsSingleLine()
    ensures EntriesSingle(Entries(u))
  {
    hide FormatQty, TrimSpace, NormalizeCustomerState, NotedReturn, SingleLine;
    MarkersAreSingle();
    assert SingleLine(" ") && SingleLine("") by { MarkersAreSingle(); SpaceIsSingle(); }
    match u
    case CustomerDecision(state, reason, accepted, returned, uom, comment) =>
      StateIsSingle(state);
      TrimmedIsSingle(reason);
      TrimmedIsSingle(uom);
      TrimmedIsSingle(comment);
      QtyTextSingle("", accepted, TrimSpace(uom));
      QtyTextSingle("", returned, TrimSpace(uom));
      assert "" + FormatQty(accepted) == FormatQty(accepted) && "" + FormatQty(returned) == FormatQty(returned);
    case AccordDecision(_, accepted, _, uom, reason, comment) =>
      QtyTextSingle(" ", accepted, uom);
      QtyTextSingle(" ", NotedReturn(u), uom);
      TrimmedIsSingle(reason);
      TrimmedIsSingle(comment);
      JoinSingles(" ", TrimSpace(reason));
      JoinSingles(" ", TrimSpace(comment));
    case WerkaUnannounced(state, reason) =>
      TrimmedIsSingle(state);
      TrimmedIsSingle(reason);
      JoinSingles(" ", TrimSpace(state));
      JoinSingles(" ", TrimSpace(reason));
  }

  lemma SpaceIsSingle()
    ensures SingleLine(" ") && SingleLine("")
  {
  }

  lemma ShownFirst(a: Entry, rest: seq<Entry>)
    ensures ShownLines([a] + rest) == LineIf(a.present, a.marker + a.text) + ShownLines(rest)
  {
    assert ([a] + rest)[1..] == rest;
  }

  lemma ShownTwo(a: Entry, b: Entry)
    ensures ShownLines([a, b]) == LineIf(a.present, a.marker + a.text) + LineIf(b.present, b.marker + b.text)
  {
    hide LineIf;
    assert [a, b] == [a] + [b];
    assert [b] == [b] + [];
    ShownFirst(a, [b]);
    ShownFirst(b, []);
    assert LineIf(b.present, b.marker + b.text) + [] == LineIf(b.present, b.marker + b.text);
  }

  lemma ShownFour(a: Entry, b: Entry, c: Entry, d: Entry)
    ensures ShownLines([a, b, c, d]) == LineIf(a.present, a.marker + a.text) + LineIf(b.present, b.marker + b.text)
      + LineIf(c.present, c.marker + c.text) + LineIf(d.present, d.marker + d.text)
  {
    hide LineIf;
    assert [a, b, c, d][1..] == [b, c, d];
    assert [b, c, d][1..] == [c, d];
    ShownTwo(c, d);
    var la, lb := LineIf(a.present, a.marker + a.text), LineIf(b.present, b.marker + b.text);
    var lc, ld := LineIf(c.present, c.marker + c.text), LineIf(d.present, d.marker + d.text);
    Regroup(la, lb, lc + ld);
    Regroup(la + lb, lc, ld);
  }

  lemma ShownFive(a: Entry, b: Entry, c: Entry, d: Entry, e: Entry)
    ensures ShownLines([a, b, c, d, e]) == LineIf(a.present, a.marker + a.text) + LineIf(b.present, b.marker + b.text)
      + LineIf(c.present, c.marker + c.text) + LineIf(d.present, d.marker + d.text) + LineIf(e.present, e.marker + e.text)
  {
    hide LineIf;
    assert [a, b, c, d, e][1..] == [b, c, d, e];
    ShownFour(b, c, d, e);
    var la, lb := LineIf(a.present, a.marker + a.text), LineIf(b.present, b.marker + b.text);
    var lc, ld, le := LineIf(c.present, c.marker + c.text), LineIf(d.present, d.marker + d.text), LineIf(e.present, e.marker + e.text);
    Regroup(la, lb + lc + ld, le);
    Regroup(la, lb + lc, ld);
    Regroup(la, lb, lc);
  }

  lemma RegroupText(m: string, ws: string, q: string, uom: string)
    ensures m + q + " " + uom == m + (q + " " + uom)
    ensures m + ws + q + " " + uom == m + (ws + q + " " + uom)
  {
    Regroup(m, q, " ");
    Regroup(m, q + " ", uom);
    Regroup(m, ws, q);
    Regroup(m, ws + q, " ");
    Regroup(m, ws + q + " ", uom);
  }

  lemma CustomerShown(u: Update)
    requires u.CustomerDecision?
    ensures CustomerLines(u) == ShownLines(Entries(u))
  {
    hide LineIf, FormatQty, TrimSpace, NormalizeCustomerState, ShownLines;
    var es := Entries(u);
    RegroupText(ACCEPTED, " ", FormatQty(u.accepted), TrimSpace(u.uom));
    RegroupText(RETURNED, " ", FormatQty(u.returned), TrimSpace(u.uom));
    ShownFive(es[0], es[1], es[2], es[3], es[4]);
    assert es == [es[0], es[1], es[2], es[3], es[4]];
  }

  lemma AccordShown(u: Update)
    requires u.AccordDecision? && ImpliedReturn(u) > 0.0
    ensures AccordNoteLines(u) == ShownLines(Entries(u))
  {
    hide FormatQty, TrimSpace, ShownLines, NotedReturn, ImpliedReturn;
    var es := Entries(u);
    RegroupText(ACCORD_ACCEPTED, " ", FormatQty(u.accepted), u.uom);
    RegroupText(ACCORD_RETURNED, " ", FormatQty(NotedReturn(u)), u.uom);
    Regroup(ACCORD_REASON, " ", TrimSpace(u.reason));
    Regroup(ACCORD_COMMENT, " ", TrimSpace(u.comment));
    ShownFour(es[0], es[1], es[2], es[3]);
    assert es == [es[0], es[1], es[2], es[3]];
  }

  lemma UnannouncedShown(u: Update)
    requires u.WerkaUnannounced?
    ensures UnannouncedLines(u) == ShownLines(Entries(u))
  {
    hide TrimSpace, ShownLines;
    var es := Entries(u);
    Regroup(UNANNOUNCED, " ", TrimSpace(u.state));
    Regroup(UNANNOUNCED_REASON, " ", TrimSpace(u.reason));
    ShownTwo(es[0], es[1]);
    assert es == [es[0], es[1]];
  }

  /** The lines an update appends are single lines, and read as its entries. */
  lemma {:induction false} AddedReads(u: Update)
    requires u.IsSingleLine() && AddedLines(u).Some?
    ensures SingleLines(AddedLines(u).value)
    ensures Clean(AddedLines(u).value) == ReadLines(Entries(u))
  {
    hide LineIf, FormatQty, TrimSpace, NormalizeCustomerState, ShownLines, ReadLines, Clean, Entries, NotedReturn, MarkersOk, EntriesSingle;
    EntriesMarked(u);
    EntriesAreSingle(u);
    ShownSingle(Entries(u));
    CleanShown(Entries(u));
    match u
    case CustomerDecision(_, _, _, _, _, _) => CustomerShown(u);
    case AccordDecision(_, _, _, _, _, _) => AccordReads(u);
    case WerkaUnannounced(_, _) => UnannouncedShown(u);
  }

  lemma {:induction false} NoneRead(es: seq<Entry>)
    requires forall i :: 0 <= i < |es| ==> !es[i].present
    ensures ReadLines(es) == []
  {
    if |es| > 0 { NoneRead(es[1..]); }
  }

  lemma NothingNoted(u: Update)
    requires u.AccordDecision? && ImpliedReturn(u) <= 0.0
    ensures ReadLines(Entries(u)) == []
  {
    hide FormatQty, TrimSpace, NotedReturn, ImpliedReturn, TrimRight;
    var es := Entries(u);
    assert forall i :: 0 <= i < |es| ==> !es[i].present;
    NoneRead(es);
  }

  lemma {:induction false} AccordReads(u: Update)
    requires u.AccordDecision? && AccordNote(u).Some?
    requires SingleLines(ShownLines(Entries(u))) && Clean(ShownLines(Entries(u))) == ReadLines(Entries(u))
    ensures SingleLines(AddedLines(u).value)
    ensures Clean(AddedLines(u).value) == ReadLines(Entries(u))
  {
    hide FormatQty, TrimSpace, ShownLines, ReadLines, Clean, Entries, NotedReturn, SplitLines, LineIf, Join;
    var note := AccordNote(u).value;
    SplitIsSingleLines(TrimSpace(note));
    LinesOfTrimmed(note);
    BlankHasNoLines();
    if ImpliedReturn(u) <= 0.0 {
      NothingNoted(u);
    } else {
      AccordShown(u);
      SplitJoined(AccordNoteLines(u));
    }
  }

  lemma BlankHasNoLines()
    ensures Clean(SplitLines("")) == [] && TrimSpace("") == "" && Clean([]) == []
  {
    assert SplitLines("") == [""];
  }

  lemma MarkersOfFamilies(m: string)
    ensures m in [DECISION, REASON, ACCEPTED, RETURNED, COMMENT] ==> MarkerOf(m, Customer)
    ensures m in [ACCORD_ACCEPTED, ACCORD_RETURNED, ACCORD_REASON, ACCORD_COMMENT] ==> MarkerOf(m, Accord)
    ensures m in [UNANNOUNCED, UNANNOUNCED_REASON] ==> MarkerOf(m, Unannounced)
  {
    hide HasPrefix;
  }

  /** Every line with the marker belongs to the family. */
  ghost predicate MarkerOf(m: string, f: Family) {
    forall line :: HasPrefix(line, m) ==> InFamily(line, f)
  }

  lemma EntryMarkers(u: Update)
    ensures forall i :: 0 <= i < |Entries(u)| ==> MarkerOf(Entries(u)[i].marker, u.Family())
  {
    hide MarkerOf, TrimSpace, FormatQty, NormalizeCustomerState, NotedReturn, ImpliedReturn;
    forall i | 0 <= i < |Entries(u)| ensures MarkerOf(Entries(u)[i].marker, u.Family()) {
      MarkersOfFamilies(Entries(u)[i].marker);
    }
  }

  lemma {:induction false} ReadLinesIn(es: seq<Entry>, f: Family)
    requires MarkersOk(es) && forall i :: 0 <= i < |es| ==> MarkerOf(es[i].marker, f)
    ensures AllIn(ReadLines(es), f)
  {
    hide TrimRight, InFamily;
    if |es| > 0 {
      ReadLinesIn(es[1..], f);
      MarkedLine(es[0].marker, es[0].text);
      assert HasPrefix(es[0].marker + TrimRight(es[0].text), es[0].marker);
    }
  }

  lemma UpdateReadsInFamily(u: Update)
    ensures AllIn(ReadLines(Entries(u)), u.Family())
  {
    hide MarkerOf, Entries, ReadLines, AllIn;
    EntriesMarked(u);
    EntryMarkers(u);
    ReadLinesIn(Entries(u), u.Family());
  }

  // ----- any sequence of updates -----

  function Run(text: string, updates: seq<Update>): string
    decreases |updates|
  {
    if |updates| == 0 then text else Run(Apply(text, updates[0]), updates[1..])
  }

  predicate AllSingleLine(updates: seq<Update>) {
    forall i :: 0 <= i < |updates| ==> updates[i].IsSingleLine()
  }

  /** The last update that wrote lines of a family; one whose note is refused writes none. */
  function LastOf(updates: seq<Update>, f: Family): Option<Update> {
    if |updates| == 0 then None
    else
      match LastOf(updates[1..], f)
      case Some(u) => Some(u)
      case None => if updates[0].Family() == f && AddedLines(updates[0]).Some? then Some(updates[0]) else None
  }

  /** What a family's lines are after a run that began with the given ones. */
  function FamilyLines(start: seq<string>, last: Option<Update>): seq<string> {
    match last case None => start case Some(u) => ReadLines(Entries(u))
  }

  /** A family's lines after one update. */
  function OnlyAfter(text: string, u: Update, f: Family): seq<string> {
    if f == u.Family() && AddedLines(u).Some? then ReadLines(Entries(u)) else Only(LinesOf(text), f)
  }

  lemma {:induction false} ApplyEffect(text: string, u: Update)
    requires u.IsSingleLine()
    ensures Foreign(LinesOf(Apply(text, u))) == Foreign(LinesOf(text))
    ensures forall f :: Only(LinesOf(Apply(text, u)), f) == OnlyAfter(text, u, f)
  {
    hide LinesOf, Foreign, Only, Entries, ReadLines, AddedLines, Upserted, AllIn;
    if AddedLines(u).Some? {
      AddedReads(u);
      UpdateReadsInFamily(u);
      UpsertEffect(text, u.Family(), AddedLines(u).value);
    }
  }

  /** After any sequence of single-line updates every family holds exactly the lines
      of its own last update, and the foreign lines are those of the first text, in
      their order. */
  lemma {:induction false} RunEffect(text: string, updates: seq<Update>, f: Family)
    requires AllSingleLine(updates)
    ensures Only(LinesOf(Run(text, updates)), f) == FamilyLines(Only(LinesOf(text), f), LastOf(updates, f))
    ensures Foreign(LinesOf(Run(text, updates))) == Foreign(LinesOf(text))
    decreases |updates|
  {
    hide LinesOf, Foreign, Only, Entries, ReadLines, AddedLines, Apply;
    if |updates| > 0 {
      ApplyEffect(text, updates[0]);
      RunEffect(Apply(text, updates[0]), updates[1..], f);
    }
  }

  /** Applying an update again changes nothing. */
  lemma {:induction false} ApplyIdempotent(text: string, u: Update)
    requires u.IsSingleLine()
    ensures Apply(Apply(text, u), u) == Apply(text, u)
  {
    hide LinesOf, Entries, ReadLines, AddedLines, Upserted, AllIn;
    if AddedLines(u).Some? {
      AddedReads(u);
      UpdateReadsInFamily(u);
      UpsertIdempotent(text, u.Family(), AddedLines(u).value);
    }
  }

  // ----- what the readers return -----

  lemma {:induction false} ReadOnly(parse: ParseFloat, lines: seq<string>, m: string, f: Family, q: Float)
    requires MarkerOf(m, f)
    ensures FirstValue(Only(lines, f), m) == FirstValue(lines, m)
    ensures LastQty(parse, Only(lines, f), m, q) == LastQty(parse, lines, m, q)
  {
    hide InFamily, QtyStep, TrimSpace;
    if |lines| > 0 {
      var next := QtyStep(parse, q, lines[0], m);
      ReadOnly(parse, lines[1..], m, f, q);
      ReadOnly(parse, lines[1..], m, f, next);
      if InFamily(lines[0], f) {
        assert ([lines[0]] + Only(lines[1..], f))[1..] == Only(lines[1..], f);
      } else {
        assert !HasPrefix(lines[0], m);
        StepOther(parse, q, lines[0], m);
      }
    }
  }

  /** The k-th entry of the last update is what its reader returns. */
  lemma {:induction false} EntryReadsBack(parse: ParseFloat, text: string, u: Update, k: nat)
    requires k < |Entries(u)| && Only(LinesOf(text), u.Family()) == ReadLines(Entries(u))
    ensures var e := Entries(u)[k];
      && FirstValue(LinesOf(text), e.marker) == (if e.present then TrimSpace(e.text) else "")
      && LastQty(parse, LinesOf(text), e.marker, ZERO) == (if e.present then QtyStep(parse, ZERO, e.marker + TrimRight(e.text), e.marker) else ZERO)
  {
    hide LinesOf, Entries, ReadLines, TrimSpace, QtyStep, TrimRight, Only, MarkerOf, ApartExcept;
    EntryMarkers(u);
    EntriesMarked(u);
    EntriesApart(u, k);
    ReadOnly(parse, LinesOf(text), Entries(u)[k].marker, u.Family(), ZERO);
    OneEntry(parse, Entries(u), k, ZERO);
  }

  /** The same for what is no quantity. */
  lemma EntryValue(text: string, u: Update, k: nat)
    requires k < |Entries(u)| && Only(LinesOf(text), u.Family()) == ReadLines(Entries(u))
    ensures var e := Entries(u)[k]; FirstValue(LinesOf(text), e.marker) == if e.present then TrimSpace(e.text) else ""
  {
    hide LinesOf, Entries, ReadLines, TrimSpace, Only;
    EntryReadsBack(_ => ZERO, text, u, k);
  }

  lemma LowerWords()
    ensures ToLower(LowerToAscii, "pending") == "pending" && ToLower(LowerToAscii, "confirmed") == "confirmed"
    ensures ToLower(LowerToAscii, "partial") == "partial" && ToLower(LowerToAscii, "rejected") == "rejected"
    ensures ToLower(LowerToAscii, "") == ""
  {
    hide ToLower;
    LowerFixed(LowerToAscii, "pending");
    LowerFixed(LowerToAscii, "confirmed");
    LowerFixed(LowerToAscii, "partial");
    LowerFixed(LowerToAscii, "rejected");
    LowerFixed(LowerToAscii, "");
  }

  lemma StateWords(state: string)
    ensures NormalizeCustomerState(state) in ["pending", "confirmed", "partial", "rejected", ""]
    ensures Trimmed(NormalizeCustomerState(state))
  {
    hide ToLower, TrimSpace;
  }

  lemma NormalizedStateIsFixed(state: string)
    ensures NormalizeCustomerState(TrimSpace(NormalizeCustomerState(state))) == NormalizeCustomerState(state)
    ensures TrimSpace(NormalizeCustomerState(state)) == NormalizeCustomerState(state)
  {
    hide ToLower, TrimSpace;
    var s := NormalizeCustomerState(state);
    StateWords(state);
    TrimmedIsFixed(s);
    LowerWords();
  }

  /** unicode.ToLower agrees with the part of it used here wherever either is ASCII. */
  ghost predicate AgreesOnAscii(lower: Lowering) {
    forall c :: lower(c) < '\U{0080}' || LowerToAscii(c) < '\U{0080}' ==> lower(c) == LowerToAscii(c)
  }

  /** So comparing with an ASCII word gives the same answer under either. */
  lemma SameWord(lower: Lowering, s: string, word: string)
    requires AgreesOnAscii(lower) && forall i :: 0 <= i < |word| ==> word[i] < '\U{0080}'
    ensures ToLower(lower, s) == word <==> ToLower(LowerToAscii, s) == word
  {
    hide LowerToAscii;
    var a, b := ToLower(lower, s), ToLower(LowerToAscii, s);
    if a == word {
      forall i | 0 <= i < |s| ensures b[i] == word[i] { assert a[i] == word[i]; }
    }
    if b == word {
      forall i | 0 <= i < |s| ensures a[i] == word[i] { assert b[i] == word[i]; }
    }
  }

  /** The state read does not depend on how other runes are lowered. */
  lemma {:induction false} StateUnderAnyLowering(lower: Lowering, state: string)
    requires AgreesOnAscii(lower)
    ensures StateNamed(ToLower(lower, TrimSpace(state))) == NormalizeCustomerState(state)
  {
    hide AgreesOnAscii, ToLower, TrimSpace;
    var s := TrimSpace(state);
    SameWord(lower, s, "pending");
    SameWord(lower, s, "pd");
    SameWord(lower, s, "confirmed");
    SameWord(lower, s, "accepted");
    SameWord(lower, s, "cf");
    SameWord(lower, s, "partial");
    SameWord(lower, s, "pt");
    SameWord(lower, s, "rejected");
    SameWord(lower, s, "rj");
  }

  /** The customer decision readers after a run return the last customer decision. */
  lemma {:induction false} CustomerReadsBack(parse: ParseFloat, text: string, updates: seq<Update>, u: Update)
    requires ReadsPrinted(parse) && AllSingleLine(updates) && LastOf(updates, Customer) == Some(u) && u.CustomerDecision?
    ensures var after := Run(text, updates);
      && CustomerState(after) == NormalizeCustomerState(u.state)
      && CustomerReason(after) == TrimSpace(u.reason)
      && CustomerComment(after) == TrimSpace(u.comment)
      && CustomerQuantities(parse, after) == (if u.accepted > 0.0 then Finite(Rounded(u.accepted)) else ZERO,
                                              if u.returned > 0.0 then Finite(Rounded(u.returned)) else ZERO)
  {
    hide LinesOf, ReadLines, TrimSpace, QtyStep, TrimRight, Only, LastOf, Run, FirstValue, LastQty, NormalizeCustomerState, FormatQty, Rounded;
    var after := Run(text, updates);
    RunEffect(text, updates, Customer);
    EntryReadsBack(parse, after, u, 0);
    EntryReadsBack(parse, after, u, 1);
    EntryReadsBack(parse, after, u, 2);
    EntryReadsBack(parse, after, u, 3);
    EntryReadsBack(parse, after, u, 4);
    NormalizedStateIsFixed(u.state);
    TrimIdempotent(u.reason);
    TrimIdempotent(u.comment);
    MarkersAreMarkers();
    QtyReadsBack(parse, ACCEPTED, "", u.accepted, TrimSpace(u.uom), ZERO);
    QtyReadsBack(parse, RETURNED, "", u.returned, TrimSpace(u.uom), ZERO);
    assert "" + FormatQty(u.accepted) == FormatQty(u.accepted) && "" + FormatQty(u.returned) == FormatQty(u.returned);
  }

  /** An accord note is refused exactly when something is missing and the returned quantity is
      negative or more than 0.0001 above what is missing; nothing is noted when nothing is
      missing. */
  lemma AccordNoteIff(u: Update)
    requires u.AccordDecision?
    ensures AddedLines(u).None? <==>
      u.accepted < u.sent && (u.returned < 0.0 || u.returned - (u.sent - u.accepted) > 0.0001)
    ensures u.accepted >= u.sent ==> AddedLines(u) == Some([])
    ensures u.accepted < u.sent && AddedLines(u).Some? ==>
      AccordNote(u) == Some(Join(AccordNoteLines(u), "\n"))
      && NotedReturn(u) == if u.returned == 0.0 then u.sent - u.accepted else u.returned
  {
    hide AccordNoteLines, TrimSpace, SplitLines, Join;
    BlankHasNoLines();
  }

  /** Which words name which state of a decision, once trimmed and lowered. */
  lemma StateIff(state: string)
    ensures var word, read := ToLower(LowerToAscii, TrimSpace(state)), NormalizeCustomerState(state);
      && (read == "pending" <==> word in ["pending", "pd"])
      && (read == "confirmed" <==> word in ["confirmed", "accepted", "cf"])
      && (read == "partial" <==> word in ["partial", "pt"])
      && (read == "rejected" <==> word in ["rejected", "rj"])
      && (read == "" <==> word !in ["pending", "pd", "confirmed", "accepted", "cf", "partial", "pt", "rejected", "rj"])
  {
    hide ToLower, TrimSpace;
    WordsDiffer();
  }

  lemma WordsDiffer()
    ensures var words := ["pending", "confirmed", "partial", "rejected", "accepted", "pd", "cf", "pt", "rj", ""];
      forall i, j :: 0 <= i < j < 10 ==> words[i] != words[j]
  {
    assert |"pending"| == |"partial"| == 7 && "pending"[1] == 'e' && "partial"[1] == 'a';
    assert |"rejected"| == |"accepted"| == 8 && "rejected"[0] == 'r' && "accepted"[0] == 'a' && |"confirmed"| == 9;
    assert "pd" == ['p', 'd'] && "cf" == ['c', 'f'] && "pt" == ['p', 't'] && "rj" == ['r', 'j'];
  }

  /** The accord readers after a run return the last noted quantities. */
  lemma {:induction false} AccordReadsBack(parse: ParseFloat, text: string, updates: seq<Update>, u: Update)
    requires ReadsPrinted(parse) && AllSingleLine(updates) && LastOf(updates, Accord) == Some(u) && u.AccordDecision?
    ensures AccordQuantities(parse, Run(text, updates))
      == if u.accepted >= u.sent then (ZERO, ZERO)
         else (Finite(Rounded(u.accepted)), Finite(Rounded(if u.returned == 0.0 then u.sent - u.accepted else u.returned)))
  {
    hide LinesOf, ReadLines, TrimSpace, QtyStep, TrimRight, Only, LastOf, Run, LastQty, FormatQty, Rounded;
    var after := Run(text, updates);
    RunEffect(text, updates, Accord);
    EntryReadsBack(parse, after, u, 0);
    EntryReadsBack(parse, after, u, 1);
    MarkersAreMarkers();
    QtyReadsBack(parse, ACCORD_ACCEPTED, " ", u.accepted, u.uom, ZERO);
    QtyReadsBack(parse, ACCORD_RETURNED, " ", NotedReturn(u), u.uom, ZERO);
  }

  /** The unannounced readers after a run return the last state and reason. */
  lemma {:induction false} UnannouncedReadsBack(text: string, updates: seq<Update>, u: Update, lower: Lowering)
    requires AllSingleLine(updates) && LastOf(updates, Unannounced) == Some(u) && u.WerkaUnannounced?
    ensures UnannouncedState(lower, Run(text, updates)) == ToLower(lower, TrimSpace(u.state))
    ensures UnannouncedReason(Run(text, updates)) == TrimSpace(u.reason)
  {
    hide LinesOf, ReadLines, TrimSpace, QtyStep, TrimRight, Only, LastOf, Run, FirstValue, ToLower;
    var after := Run(text, updates);
    RunEffect(text, updates, Unannounced);
    EntryValue(after, u, 0);
    EntryValue(after, u, 1);
    TrimDropsLeft(" ", TrimSpace(u.state));
    TrimDropsLeft(" ", TrimSpace(u.reason));
    TrimIdempotent(u.state);
    TrimIdempotent(u.reason);
  }
}
