/** Updates whose texts have several lines: the later lines of a text stand on their own in
    the remarks, and a reader may take one for its own. */
module RemarksTexts {
  import opened Text
  import opened Lines
  import opened Quantity
  import opened Remarks
  import opened RemarksCodec
  import opened RemarksReadBack

  // ----- splitting what was joined -----

  function AllLines(parts: seq<string>): seq<string> {
    if |parts| == 0 then [] else SplitLines(parts[0]) + AllLines(parts[1..])
  }

  function Prepended(c: char, lines: seq<string>): seq<string>
    requires |lines| > 0
  {
    if c == '\n' then [""] + lines else [[c] + lines[0]] + lines[1..]
  }

  lemma SplitStep(c: char, s: string)
    ensures SplitLines([c] + s) == Prepended(c, SplitLines(s))
  {
    assert ([c] + s)[1..] == s;
  }

  lemma PrependedConcat(c: char, a: seq<string>, b: seq<string>)
    requires |a| > 0
    ensures Prepended(c, a + b) == Prepended(c, a) + b
  {
    assert (a + b)[1..] == a[1..] + b;
  }

  lemma {:induction false} SplitTwo(a: string, b: string)
    ensures SplitLines(a + "\n" + b) == SplitLines(a) + SplitLines(b)
  {
    hide SplitLines, Prepended;
    if a == "" {
      assert a + "\n" + b == ['\n'] + b;
      SplitStep('\n', b);
      EmptyLines(SplitLines(b));
    } else {
      assert a == [a[0]] + a[1..];
      Regroup([a[0]], a[1..], "\n");
      Regroup([a[0]], a[1..] + "\n", b);
      SplitTwo(a[1..], b);
      SplitStep(a[0], a[1..] + "\n" + b);
      SplitStep(a[0], a[1..]);
      PrependedConcat(a[0], SplitLines(a[1..]), SplitLines(b));
    }
  }

  lemma EmptyLines(lines: seq<string>)
    requires |lines| > 0
    ensures Prepended('\n', lines) == SplitLines("") + lines
  {
  }

  lemma {:induction false} SplitJoin(parts: seq<string>)
    requires |parts| > 0
    ensures SplitLines(Join(parts, "\n")) == AllLines(parts)
  {
    if |parts| == 1 {
      assert AllLines(parts[1..]) == [];
      assert SplitLines(parts[0]) + [] == SplitLines(parts[0]);
    } else {
      SplitJoin(parts[1..]);
      SplitTwo(parts[0], Join(parts[1..], "\n"));
    }
  }

  lemma {:induction false} AllSingle(lines: seq<string>, more: seq<string>)
    requires SingleLines(lines)
    ensures AllLines(lines + more) == lines + AllLines(more)
  {
    if |lines| == 0 {
      assert lines + more == more;
    } else {
      assert (lines + more)[1..] == lines[1..] + more;
      SplitSingle(lines[0]);
      AllSingle(lines[1..], more);
      assert lines == [lines[0]] + lines[1..];
      Regroup([lines[0]], lines[1..], AllLines(more));
    }
  }

  /** The lines after an upsert, whatever is added. */
  lemma {:induction false} AnyUpsertedLines(existing: string, f: Family, added: seq<string>)
    ensures LinesOf(Upserted(existing, f, added)) == Without(LinesOf(existing), f) + Clean(AllLines(added))
  {
    hide LinesOf, CleanLine, InFamily;
    var kept := Without(LinesOf(existing), f);
    LinesAreClean(existing);
    WithoutKeepsClean(LinesOf(existing), f);
    CarriageReturnsDoNotMatter(Join(kept + added, "\n"));
    AllSingle(kept, added);
    CleanConcat(kept, AllLines(added));
    CleanIsFixed(kept);
    if |kept + added| > 0 {
      SplitJoin(kept + added);
    } else {
      assert kept == [] && added == [];
      NoText();
    }
  }

  lemma NoText()
    ensures Clean(SplitLines(Join([], "\n"))) == [] && Clean(AllLines([])) == []
  {
    assert SplitLines("") == [""];
    assert CleanLine("") == [];
    assert [""][1..] == [];
  }

  // ----- a text behind a marker -----

  function FirstLine(text: string): string { SplitLines(text)[0] }

  /** The lines of a text after its first, which is glued to a marker. */
  function LaterLines(text: string): seq<string> { Clean(SplitLines(text)[1..]) }

  /** The same of a text that is trimmed before it is written. */
  function Later(text: string): seq<string> { LaterLines(TrimSpace(text)) }

  lemma {:induction false} SplitBehind(p: string, x: string)
    requires SingleLine(p)
    ensures SplitLines(p + x) == [p + SplitLines(x)[0]] + SplitLines(x)[1..]
  {
    if p == "" {
      assert p + x == x;
      assert "" + SplitLines(x)[0] == SplitLines(x)[0];
    } else {
      assert (p + x)[1..] == p[1..] + x;
      SplitBehind(p[1..], x);
      assert [p[0]] + (p[1..] + SplitLines(x)[0]) == p + SplitLines(x)[0];
    }
  }

  lemma BehindLines(p: string, x: string)
    requires SingleLine(p)
    ensures FirstLine(p + x) == p + FirstLine(x) && LaterLines(p + x) == LaterLines(x)
  {
    hide SplitLines, SingleLine, Clean;
    SplitBehind(p, x);
    assert ([p + SplitLines(x)[0]] + SplitLines(x)[1..])[1..] == SplitLines(x)[1..];
  }

  lemma MarkedText(m: string, x: string)
    requires IsMarker(m) && SingleLine(m)
    ensures Clean(SplitLines(m + x)) == [m + TrimRight(FirstLine(x))] + LaterLines(x)
  {
    hide TrimSpace, TrimRight, SplitLines;
    SplitBehind(m, x);
    MarkedLine(m, FirstLine(x));
    var all := [m + FirstLine(x)] + SplitLines(x)[1..];
    assert all[0] == m + FirstLine(x) && all[1..] == SplitLines(x)[1..];
  }

  lemma SingleHasNoLater(text: string)
    requires SingleLine(text)
    ensures FirstLine(text) == text && LaterLines(text) == []
  {
    SplitSingle(text);
    assert [text][1..] == [];
  }

  lemma NoLaterLine(text: string)
    requires SingleLine(text)
    ensures Later(text) == []
  {
    hide TrimSpace, SplitLines;
    TrimmedIsSingle(text);
    SingleHasNoLater(TrimSpace(text));
  }

  // ----- the lines of any update -----

  /** A present entry as it is read: its marked line, and the later lines of its text. */
  function Said(e: Entry): seq<string> {
    if e.present then [e.marker + TrimRight(FirstLine(e.text))] + LaterLines(e.text) else []
  }

  /** Its lines without a marker of their own. */
  function Free(e: Entry): seq<string> {
    if e.present then LaterLines(e.text) else []
  }

  function SaidLines(es: seq<Entry>): seq<string> {
    if |es| == 0 then [] else Said(es[0]) + SaidLines(es[1..])
  }

  function FreeLines(es: seq<Entry>): seq<string> {
    if |es| == 0 then [] else Free(es[0]) + FreeLines(es[1..])
  }

  predicate SingleMarkers(es: seq<Entry>) {
    forall i :: 0 <= i < |es| ==> SingleLine(es[i].marker)
  }

  lemma EntriesSingleMarkers(u: Update)
    ensures SingleMarkers(Entries(u))
  {
    hide SingleLine, TrimSpace, FormatQty, NormalizeCustomerState;
    MarkersAreSingle();
  }

  lemma {:induction false} ShownAreSaid(es: seq<Entry>)
    requires MarkersOk(es) && SingleMarkers(es)
    ensures Clean(AllLines(ShownLines(es))) == SaidLines(es)
  {
    hide SplitLines, TrimRight, IsMarker, SingleLine, CleanLine;
    if |es| > 0 {
      ShownAreSaid(es[1..]);
      var line, rest := es[0].marker + es[0].text, ShownLines(es[1..]);
      if es[0].present {
        MarkedText(es[0].marker, es[0].text);
        assert ([line] + rest)[1..] == rest;
        CleanConcat(SplitLines(line), AllLines(rest));
      } else {
        assert [] + rest == rest;
        assert [] + SaidLines(es[1..]) == SaidLines(es[1..]);
      }
    }
  }

  lemma {:induction false} NoneSaid(es: seq<Entry>)
    requires forall i :: 0 <= i < |es| ==> !es[i].present
    ensures SaidLines(es) == []
  {
    if |es| > 0 { NoneSaid(es[1..]); }
  }

  lemma AccordSaid(u: Update)
    requires u.AccordDecision? && AccordNote(u).Some?
    ensures Clean(AllLines(AddedLines(u).value)) == SaidLines(Entries(u))
  {
    hide FormatQty, TrimSpace, ShownLines, SaidLines, Clean, Entries, NotedReturn, SplitLines, LineIf, Join, AllLines, SingleMarkers, MarkersOk;
    var es, note := Entries(u), AccordNote(u).value;
    NoText();
    if ImpliedReturn(u) <= 0.0 {
      NothingSaid(u);
      TrimBlank();
    } else {
      AccordShown(u);
      EntriesMarked(u);
      EntriesSingleMarkers(u);
      ShownAreSaid(es);
      SplitJoin(AccordNoteLines(u));
      LinesOfTrimmed(note);
      CarriageReturnsDoNotMatter(note);
      CarriageReturnsDoNotMatter(TrimSpace(note));
      SplitAgain(TrimSpace(note));
    }
  }

  lemma TrimBlank()
    ensures TrimSpace("") == ""
  {
  }

  lemma SplitAgain(text: string)
    ensures AllLines(SplitLines(text)) == SplitLines(text)
    ensures text == "" ==> Clean(SplitLines(text)) == []
  {
    SplitIsSingleLines(text);
    AllSingle(SplitLines(text), []);
    assert SplitLines(text) + [] == SplitLines(text);
    NoText();
  }

  lemma NothingSaid(u: Update)
    requires u.AccordDecision? && ImpliedReturn(u) <= 0.0
    ensures SaidLines(Entries(u)) == []
  {
    hide FormatQty, TrimSpace, NotedReturn, ImpliedReturn;
    NoneSaid(Entries(u));
  }

  lemma {:induction false} AddedAreSaid(u: Update)
    requires AddedLines(u).Some?
    ensures Clean(AllLines(AddedLines(u).value)) == SaidLines(Entries(u))
  {
    hide LineIf, FormatQty, TrimSpace, NormalizeCustomerState, ShownLines, SaidLines, Clean, Entries, AllLines, SingleMarkers, MarkersOk;
    EntriesMarked(u);
    EntriesSingleMarkers(u);
    ShownAreSaid(Entries(u));
    match u
    case CustomerDecision(_, _, _, _, _, _) => CustomerShown(u);
    case AccordDecision(_, _, _, _, _, _) => AccordSaid(u);
    case WerkaUnannounced(_, _) => UnannouncedShown(u);
  }

  /** The lines of a text after any update. */
  lemma {:induction false} AppliedLines(text: string, u: Update)
    ensures LinesOf(Apply(text, u))
      == if AddedLines(u).Some? then Without(LinesOf(text), u.Family()) + SaidLines(Entries(u)) else LinesOf(text)
  {
    hide LinesOf, SaidLines, Entries, AddedLines, Upserted, Without, AllLines, Clean;
    if AddedLines(u).Some? {
      AddedAreSaid(u);
      AnyUpsertedLines(text, u.Family(), AddedLines(u).value);
    }
  }

  // ----- what a reader finds -----

  lemma {:induction false} SaidConcat(a: seq<Entry>, b: seq<Entry>)
    ensures SaidLines(a + b) == SaidLines(a) + SaidLines(b) && FreeLines(a + b) == FreeLines(a) + FreeLines(b)
  {
    hide Said, Free;
    if |a| == 0 {
      assert a + b == b;
    } else {
      SaidConcat(a[1..], b);
      assert (a + b)[1..] == a[1..] + b;
      Regroup(Said(a[0]), SaidLines(a[1..]), SaidLines(b));
      Regroup(Free(a[0]), FreeLines(a[1..]), FreeLines(b));
    }
  }

  /** Two lists of lines a reader cannot tell apart. */
  ghost predicate ReadAlike(parse: ParseFloat, a: seq<string>, b: seq<string>, m: string) {
    FirstValue(a, m) == FirstValue(b, m) && forall q :: LastQty(parse, a, m, q) == LastQty(parse, b, m, q)
  }

  lemma LineAway(parse: ParseFloat, line: string, rest: seq<string>, m: string)
    requires !HasPrefix(line, m)
    ensures ReadAlike(parse, [line] + rest, rest, m)
  {
    hide HasPrefix;
    assert ([line] + rest)[1..] == rest;
    forall q ensures LastQty(parse, [line] + rest, m, q) == LastQty(parse, rest, m, q) {
      StepOther(parse, q, line, m);
    }
  }

  lemma AlikeBehind(parse: ParseFloat, lines: seq<string>, a: seq<string>, b: seq<string>, m: string)
    requires ReadAlike(parse, a, b, m)
    ensures ReadAlike(parse, lines + a, lines + b, m)
  {
    hide FirstValue, LastQty, HasPrefix;
    FirstValueConcat(lines, a, m);
    FirstValueConcat(lines, b, m);
    forall q ensures LastQty(parse, lines + a, m, q) == LastQty(parse, lines + b, m, q) {
      LastQtyConcat(parse, lines, a, m, q);
      LastQtyConcat(parse, lines, b, m, q);
    }
  }

  /** Of an entry with another marker a reader sees the free lines only. */
  lemma EntryAway(parse: ParseFloat, e: Entry, rest: seq<string>, m: string)
    requires Apart(e.marker, m)
    ensures ReadAlike(parse, Said(e) + rest, Free(e) + rest, m)
  {
    hide FirstValue, LastQty, HasPrefix, TrimRight, FirstLine, LaterLines, Apart;
    if e.present {
      var line := e.marker + TrimRight(FirstLine(e.text));
      ApartLines(e.marker, m, TrimRight(FirstLine(e.text)));
      Regroup([line], LaterLines(e.text), rest);
      LineAway(parse, line, LaterLines(e.text) + rest, m);
    }
  }

  lemma {:induction false} EntriesAway(parse: ParseFloat, es: seq<Entry>, rest: seq<string>, m: string)
    requires AllApart(es, m)
    ensures ReadAlike(parse, SaidLines(es) + rest, FreeLines(es) + rest, m)
  {
    hide FirstValue, LastQty, Said, Free, Apart;
    if |es| > 0 {
      EntriesAway(parse, es[1..], rest, m);
      AlikeBehind(parse, Free(es[0]), SaidLines(es[1..]) + rest, FreeLines(es[1..]) + rest, m);
      EntryAway(parse, es[0], SaidLines(es[1..]) + rest, m);
      Regroup(Said(es[0]), SaidLines(es[1..]), rest);
      Regroup(Free(es[0]), FreeLines(es[1..]), rest);
    }
  }

  /** The lines on which the reader of the k-th entry can find its marker. */
  function Sayable(es: seq<Entry>, k: nat): seq<string>
    requires k < |es|
  {
    FreeLines(es[..k]) + (Said(es[k]) + FreeLines(es[k + 1..]))
  }

  lemma {:induction false} SaidAreSayable(parse: ParseFloat, es: seq<Entry>, k: nat)
    requires ApartExcept(es, k)
    ensures ReadAlike(parse, SaidLines(es), Sayable(es, k), es[k].marker)
  {
    hide FirstValue, LastQty, Said, FreeLines, Apart, SaidLines;
    var m, front, back := es[k].marker, es[..k], es[k + 1..];
    assert es == front + ([es[k]] + back);
    SaidConcat(front, [es[k]] + back);
    SaidConcat([es[k]], back);
    OneSaid(es[k]);
    EntriesAway(parse, back, [], m);
    NothingBehind(SaidLines(back), FreeLines(back));
    AlikeBehind(parse, Said(es[k]), SaidLines(back), FreeLines(back), m);
    EntriesAway(parse, front, Said(es[k]) + SaidLines(back), m);
    AlikeBehind(parse, FreeLines(front), Said(es[k]) + SaidLines(back), Said(es[k]) + FreeLines(back), m);
  }

  lemma OneSaid(e: Entry)
    ensures SaidLines([e]) == Said(e) && FreeLines([e]) == Free(e)
  {
    hide Said, Free;
    assert [e][1..] == [];
    NothingBehind(Said(e), Free(e));
  }

  lemma NothingBehind(a: seq<string>, b: seq<string>)
    ensures a + [] == a && b + [] == b
  {
  }

  lemma {:induction false} KeptIsMute(parse: ParseFloat, lines: seq<string>, rest: seq<string>, m: string, f: Family)
    requires MarkerOf(m, f)
    ensures ReadAlike(parse, Without(lines, f) + rest, rest, m)
  {
    hide InFamily, FirstValue, LastQty;
    if |lines| == 0 {
      assert Without(lines, f) + rest == rest;
    } else {
      KeptIsMute(parse, lines[1..], rest, m, f);
      if !InFamily(lines[0], f) {
        Regroup([lines[0]], Without(lines[1..], f), rest);
        LineAway(parse, lines[0], Without(lines[1..], f) + rest, m);
      }
    }
  }

  /** What any reader finds after any update of its family. */
  lemma {:induction false} AnyReads(parse: ParseFloat, text: string, u: Update, k: nat)
    requires AddedLines(u).Some? && k < |Entries(u)|
    ensures ReadAlike(parse, LinesOf(Apply(text, u)), Sayable(Entries(u), k), Entries(u)[k].marker)
  {
    hide LinesOf, Apply, Entries, AddedLines, Without, SaidLines, Sayable, MarkerOf, ApartExcept, FirstValue, LastQty;
    AppliedLines(text, u);
    EntryMarkers(u);
    EntriesApart(u, k);
    KeptIsMute(parse, LinesOf(text), SaidLines(Entries(u)), Entries(u)[k].marker, u.Family());
    SaidAreSayable(parse, Entries(u), k);
  }

  // ----- values -----

  predicate Marked(lines: seq<string>, m: string) {
    exists i :: 0 <= i < |lines| && HasPrefix(lines[i], m)
  }

  /** Some line says something behind the marker, and none before it carries the marker. */
  predicate Speaks(lines: seq<string>, m: string) {
    exists i :: 0 <= i < |lines| && SpeaksAt(lines, m, i)
  }

  predicate SpeaksAt(lines: seq<string>, m: string, i: nat)
    requires i < |lines|
  {
    && HasPrefix(lines[i], m) && TrimSpace(lines[i][|m|..]) != ""
    && forall j :: 0 <= j < i ==> !HasPrefix(lines[j], m)
  }

  lemma SpeaksTail(lines: seq<string>, m: string)
    requires |lines| > 0 && !HasPrefix(lines[0], m)
    ensures Speaks(lines, m) <==> Speaks(lines[1..], m)
  {
    hide HasPrefix, TrimSpace;
    var rest := lines[1..];
    if Speaks(rest, m) {
      var i :| 0 <= i < |rest| && SpeaksAt(rest, m, i);
      forall j | 0 <= j < i + 1 ensures !HasPrefix(lines[j], m) {
        if j > 0 { assert lines[j] == rest[j - 1]; }
      }
      assert SpeaksAt(lines, m, i + 1);
    }
    if Speaks(lines, m) {
      var i :| 0 <= i < |lines| && SpeaksAt(lines, m, i);
      forall j | 0 <= j < i - 1 ensures !HasPrefix(rest[j], m) {
        assert rest[j] == lines[j + 1];
      }
      assert SpeaksAt(rest, m, i - 1);
    }
  }

  lemma {:induction false} SpeaksIff(lines: seq<string>, m: string)
    ensures FirstValue(lines, m) != "" <==> Speaks(lines, m)
  {
    hide HasPrefix, TrimSpace;
    if |lines| > 0 {
      if !HasPrefix(lines[0], m) {
        SpeaksIff(lines[1..], m);
        SpeaksTail(lines, m);
      } else if FirstValue(lines, m) != "" {
        assert SpeaksAt(lines, m, 0);
      }
    }
  }

  /** The value the reader of the k-th entry returns. */
  function ValueOf(es: seq<Entry>, k: nat): string
    requires k < |es|
  {
    var before, e := FreeLines(es[..k]), es[k];
    if Marked(before, e.marker) then FirstValue(before, e.marker)
    else if e.present then TrimSpace(FirstLine(e.text))
    else FirstValue(FreeLines(es[k + 1..]), e.marker)
  }

  lemma {:induction false} AnyValue(text: string, u: Update, k: nat)
    requires AddedLines(u).Some? && k < |Entries(u)|
    ensures FirstValue(LinesOf(Apply(text, u)), Entries(u)[k].marker) == ValueOf(Entries(u), k)
  {
    hide LinesOf, Apply, Entries, AddedLines, FirstValue, LastQty, TrimSpace, TrimRight, FreeLines, FirstLine, LaterLines, HasPrefix;
    AnyReads(_ => ZERO, text, u, k);
    EntriesMarked(u);
    var es := Entries(u);
    var before, e, after := FreeLines(es[..k]), es[k], FreeLines(es[k + 1..]);
    FirstValueConcat(before, Said(e) + after, e.marker);
    if e.present {
      MarkedLine(e.marker, FirstLine(e.text));
      Regroup([e.marker + TrimRight(FirstLine(e.text))], LaterLines(e.text), after);
      FirstIsRead(e.marker, TrimRight(FirstLine(e.text)), LaterLines(e.text) + after);
    } else {
      assert [] + after == after;
    }
  }

  lemma FirstIsRead(m: string, x: string, rest: seq<string>)
    ensures FirstValue([m + x] + rest, m) == TrimSpace(x)
  {
    hide TrimSpace;
    PrefixOfConcat(m, x);
    assert (m + x)[|m|..] == x;
  }

  /** A trimmed text, white space before it or not, starts with itself exactly when it is
      one line. */
  lemma FirstLineIff(ws: string, t: string)
    requires AllSpace(ws) && SingleLine(ws) && Trimmed(t)
    ensures TrimSpace(FirstLine(ws + t)) == t <==> SingleLine(t)
  {
    hide TrimSpace, SplitLines, IsSpace;
    BehindLines(ws, t);
    TrimDropsLeft(ws, FirstLine(t));
    if SingleLine(t) {
      SingleHasNoLater(t);
      TrimmedIsFixed(t);
    } else {
      SplitIsSingleLines(t);
      TrimmedIsSingle(FirstLine(t));
    }
  }

}
