/** What each reader of the remarks answers after any update, whatever its texts, and exactly
    when that is what was written. */
module RemarksAnswers {
  import opened Text
  import opened Lines
  import opened Quantity
  import opened Remarks
  import opened RemarksCodec
  import opened RemarksReadBack
  import opened RemarksTexts

  // ----- the later lines of a decision -----

  function LaterIf(present: bool, text: string): seq<string> { if present then Later(text) else [] }

  lemma BlankHasNoLater(text: string)
    requires TrimSpace(text) == ""
    ensures Later(text) == []
  {
    hide TrimSpace;
    SingleHasNoLater("");
  }

  lemma UnitFree(ws: string, amount: real, uom: string)
    requires SingleLine(ws)
    ensures LaterLines(ws + FormatQty(amount) + " " + uom) == LaterLines(uom)
    ensures FirstLine(ws + FormatQty(amount) + " " + uom) == ws + FormatQty(amount) + " " + FirstLine(uom)
  {
    hide FormatQty, SingleLine, FirstLine, LaterLines;
    FormattedIsWord(amount);
    SpaceIsSingle();
    JoinSingles(ws, FormatQty(amount));
    JoinSingles(ws + FormatQty(amount), " ");
    BehindLines(ws + FormatQty(amount) + " ", uom);
  }

  lemma CustomerFree(u: Update)
    requires u.CustomerDecision?
    ensures var es := Entries(u);
      && |es| == 5
      && Free(es[0]) == [] && Free(es[1]) == Later(u.reason) && Free(es[4]) == Later(u.comment)
      && Free(es[2]) == LaterIf(u.accepted > 0.0, u.uom) && Free(es[3]) == LaterIf(u.returned > 0.0, u.uom)
  {
    hide TrimSpace, FormatQty, NormalizeCustomerState, LaterLines, FirstLine, SingleLine;
    SpaceIsSingle();
    StateIsSingle(u.state);
    SingleHasNoLater(NormalizeCustomerState(u.state));
    assert "" + FormatQty(u.accepted) == FormatQty(u.accepted) && "" + FormatQty(u.returned) == FormatQty(u.returned);
    UnitFree("", u.accepted, TrimSpace(u.uom));
    UnitFree("", u.returned, TrimSpace(u.uom));
    if TrimSpace(u.reason) == "" { BlankHasNoLater(u.reason); }
    if TrimSpace(u.comment) == "" { BlankHasNoLater(u.comment); }
  }

  lemma CustomerEntries(u: Update)
    requires u.CustomerDecision?
    ensures AddedLines(u).Some?
    ensures var es := Entries(u);
      && |es| == 5
      && es[0] == Entry(NormalizeCustomerState(u.state) != "", DECISION, NormalizeCustomerState(u.state))
      && es[1] == Entry(TrimSpace(u.reason) != "", REASON, "" + TrimSpace(u.reason))
      && es[2] == Entry(u.accepted > 0.0, ACCEPTED, "" + FormatQty(u.accepted) + " " + TrimSpace(u.uom))
      && es[3] == Entry(u.returned > 0.0, RETURNED, "" + FormatQty(u.returned) + " " + TrimSpace(u.uom))
      && es[4] == Entry(TrimSpace(u.comment) != "", COMMENT, "" + TrimSpace(u.comment))
  {
    hide TrimSpace, FormatQty, NormalizeCustomerState;
    assert "" + FormatQty(u.accepted) == FormatQty(u.accepted) && "" + FormatQty(u.returned) == FormatQty(u.returned);
    assert "" + TrimSpace(u.reason) == TrimSpace(u.reason) && "" + TrimSpace(u.comment) == TrimSpace(u.comment);
  }

  lemma NoWhiteSpace()
    ensures AllSpace("") && SingleLine("")
  {
  }

  lemma FreeFive(es: seq<Entry>)
    requires |es| == 5
    ensures var f0, f1, f2, f3, f4 := Free(es[0]), Free(es[1]), Free(es[2]), Free(es[3]), Free(es[4]);
      && FreeLines(es[..0]) == [] && FreeLines(es[1..]) == f1 + (f2 + (f3 + f4))
      && FreeLines(es[..1]) == f0 && FreeLines(es[2..]) == f2 + (f3 + f4)
      && FreeLines(es[..2]) == f0 + f1 && FreeLines(es[3..]) == f3 + f4
      && FreeLines(es[..3]) == f0 + (f1 + f2) && FreeLines(es[4..]) == f4
      && FreeLines(es[..4]) == f0 + (f1 + (f2 + f3)) && FreeLines(es[5..]) == []
  {
    hide Free, FreeLines;
    Unrolled(es, 0, 0);
    Unrolled(es, 0, 1);
    Unrolled(es, 0, 2);
    Unrolled(es, 0, 3);
    Unrolled(es, 0, 4);
    Unrolled(es, 1, 5);
    Unrolled(es, 2, 5);
    Unrolled(es, 3, 5);
    Unrolled(es, 4, 5);
    Unrolled(es, 5, 5);
    Slices(es);
  }

  lemma Slices(es: seq<Entry>)
    requires |es| == 5
    ensures es[0..0] == es[..0] && es[0..1] == es[..1] && es[0..2] == es[..2] && es[0..3] == es[..3] && es[0..4] == es[..4]
    ensures es[1..5] == es[1..] && es[2..5] == es[2..] && es[3..5] == es[3..] && es[4..5] == es[4..] && es[5..5] == es[5..]
  {
  }

  /** The free lines of up to four neighbours. */
  lemma Unrolled(es: seq<Entry>, a: nat, b: nat)
    requires a <= b <= |es| && b <= a + 4
    ensures FreeLines(es[a..b]) ==
      if a == b then [] else if a + 1 == b then Free(es[a]) else if a + 2 == b then Free(es[a]) + Free(es[a + 1])
      else if a + 3 == b then Free(es[a]) + (Free(es[a + 1]) + Free(es[a + 2]))
      else Free(es[a]) + (Free(es[a + 1]) + (Free(es[a + 2]) + Free(es[a + 3])))
  {
    hide Free, FreeLines;
    FreeFrom(es, a, b);
    if a < b {
      FreeFrom(es, a + 1, b);
      NothingBehind(Free(es[b - 1]), []);
      if a + 1 < b {
        FreeFrom(es, a + 2, b);
        if a + 2 < b {
          FreeFrom(es, a + 3, b);
          if a + 3 < b { FreeFrom(es, a + 4, b); }
        }
      }
    }
  }

  lemma FreeFrom(es: seq<Entry>, a: nat, b: nat)
    requires a <= b <= |es|
    ensures FreeLines(es[a..b]) == if a < b then Free(es[a]) + FreeLines(es[a + 1..b]) else []
  {
    if a < b { assert es[a..b][1..] == es[a + 1..b]; }
  }

  // ----- reason, comment and state -----

  /** The free lines that are read after the reason, or with none written. */
  function AfterReason(u: Update): seq<string>
    requires u.CustomerDecision?
  {
    LaterIf(u.accepted > 0.0, u.uom) + (LaterIf(u.returned > 0.0, u.uom) + Later(u.comment))
  }

  function BeforeComment(u: Update): seq<string>
    requires u.CustomerDecision?
  {
    Later(u.reason) + (LaterIf(u.accepted > 0.0, u.uom) + LaterIf(u.returned > 0.0, u.uom))
  }

  lemma TextReadsBackIff(text: string, u: Update, k: nat, ws: string, t: string)
    requires AddedLines(u).Some? && k < |Entries(u)| && AllSpace(ws) && SingleLine(ws)
    requires var e := Entries(u)[k]; e.text == ws + TrimSpace(t) && (e.present <==> TrimSpace(t) != "")
    ensures var es := Entries(u); var m := es[k].marker; var before, after := FreeLines(es[..k]), FreeLines(es[k + 1..]);
      FirstValue(LinesOf(Apply(text, u)), m) == TrimSpace(t) <==>
        if Marked(before, m) then FirstValue(before, m) == TrimSpace(t)
        else if TrimSpace(t) != "" then SingleLine(TrimSpace(t)) else !Speaks(after, m)
  {
    hide LinesOf, Apply, Entries, AddedLines, FirstValue, TrimSpace, FreeLines, FirstLine, Marked, Speaks, IsSpace;
    AnyValue(text, u, k);
    var l, r := TrimSpaceDecomposes(t);
    FirstLineIff(ws, TrimSpace(t));
    SpeaksIff(FreeLines(Entries(u)[k + 1..]), Entries(u)[k].marker);
  }

  lemma NoneMarked(m: string)
    ensures !Marked([], m) && !Speaks([], m)
  {
  }

  /** A reason that is not blank reads back exactly when it is one line once trimmed; a
      blank one exactly when no later line of the unit or the comment speaks for it. */
  lemma {:induction false} ReasonReadsBackIff(text: string, u: Update)
    requires u.CustomerDecision?
    ensures CustomerReason(Apply(text, u)) == TrimSpace(u.reason) <==>
      if TrimSpace(u.reason) != "" then SingleLine(TrimSpace(u.reason)) else !Speaks(AfterReason(u), REASON)
  {
    hide LinesOf, Apply, FirstValue, TrimSpace, Entries, AddedLines, Free, FreeLines, Later, Speaks, Marked, LaterIf, SingleLine;
    CustomerEntries(u);
    NoWhiteSpace();
    TextReadsBackIff(text, u, 1, "", u.reason);
    CustomerFree(u);
    FreeFive(Entries(u));
    NoneMarked(REASON);
  }

  /** A comment reads back exactly when it is one line once trimmed and no later line of
      the reason or the unit carries its marker, or the first that does says the same. */
  lemma {:induction false} CommentReadsBackIff(text: string, u: Update)
    requires u.CustomerDecision?
    ensures CustomerComment(Apply(text, u)) == TrimSpace(u.comment) <==>
      if Marked(BeforeComment(u), COMMENT) then FirstValue(BeforeComment(u), COMMENT) == TrimSpace(u.comment)
      else SingleLine(TrimSpace(u.comment))
  {
    hide LinesOf, Apply, FirstValue, TrimSpace, Entries, AddedLines, Free, FreeLines, Later, Speaks, Marked, LaterIf, SingleLine;
    CustomerEntries(u);
    NoWhiteSpace();
    TextReadsBackIff(text, u, 4, "", u.comment);
    CustomerFree(u);
    FreeFive(Entries(u));
    NoneMarked(COMMENT);
    NothingBefore(BeforeComment(u));
  }

  lemma NothingBefore(lines: seq<string>)
    ensures [] + lines == lines
  {
  }

  /** A state reads back, unless it is none of the known ones and a later line of the texts
      speaks for one. */
  lemma {:induction false} StateReadsBackIff(text: string, u: Update)
    requires u.CustomerDecision?
    ensures CustomerState(Apply(text, u)) == NormalizeCustomerState(u.state) <==>
      NormalizeCustomerState(u.state) != ""
      || NormalizeCustomerState(FirstValue(Later(u.reason) + AfterReason(u), DECISION)) == ""
  {
    hide LinesOf, Apply, FirstValue, TrimSpace, Entries, AddedLines, Free, FreeLines, Later, Speaks, Marked, LaterIf, SingleLine,
      NormalizeCustomerState, FirstLine;
    CustomerEntries(u);
    AnyValue(text, u, 0);
    CustomerFree(u);
    FreeFive(Entries(u));
    StateIsSingle(u.state);
    NormalizedStateIsFixed(u.state);
    SingleHasNoLater(NormalizeCustomerState(u.state));
    NoneMarked(DECISION);
  }

  // ----- quantities -----

  /** What the reader of a quantity returns: what was written, changed only by the free
      lines after it. */
  lemma {:induction false} AnyQuantity(parse: ParseFloat, text: string, u: Update, k: nat, ws: string, amount: real, uom: string)
    requires ReadsPrinted(parse) && AddedLines(u).Some? && k < |Entries(u)| && AllSpace(ws) && SingleLine(ws)
    requires Entries(u)[k].text == ws + FormatQty(amount) + " " + uom
    ensures var es := Entries(u); var e := es[k];
      LastQty(parse, LinesOf(Apply(text, u)), e.marker, ZERO)
      == if e.present then LastQty(parse, Free(e) + FreeLines(es[k + 1..]), e.marker, Finite(Rounded(amount)))
         else LastQty(parse, FreeLines(es[..k]) + FreeLines(es[k + 1..]), e.marker, ZERO)
  {
    hide LinesOf, Apply, Entries, AddedLines, FirstValue, LastQty, TrimSpace, TrimRight, FreeLines, FirstLine, LaterLines,
      FormatQty, Rounded, QtyStep, SingleLine, AllSpace, IsMarker;
    AnyReads(parse, text, u, k);
    EntriesMarked(u);
    var es := Entries(u);
    var before, e, after := FreeLines(es[..k]), es[k], FreeLines(es[k + 1..]);
    if e.present {
      UnitFree(ws, amount, uom);
      var line := e.marker + TrimRight(FirstLine(e.text));
      LastQtyConcat(parse, before, Said(e) + after, e.marker, ZERO);
      Regroup([line], LaterLines(e.text), after);
      var q := LastQty(parse, before, e.marker, ZERO);
      QtyReadsBack(parse, e.marker, ws, amount, FirstLine(uom), q);
      OneThenMore(parse, line, LaterLines(e.text) + after, e.marker, q);
    } else {
      NothingBefore(after);
    }
  }

  lemma OneThenMore(parse: ParseFloat, line: string, rest: seq<string>, m: string, q: Float)
    ensures LastQty(parse, [line] + rest, m, q) == LastQty(parse, rest, m, QtyStep(parse, q, line, m))
  {
    hide QtyStep;
    assert ([line] + rest)[1..] == rest;
  }

  /** What a decision means to write. */
  function Written(u: Update): (Float, Float)
    requires u.CustomerDecision?
  {
    (if u.accepted > 0.0 then Finite(Rounded(u.accepted)) else ZERO, if u.returned > 0.0 then Finite(Rounded(u.returned)) else ZERO)
  }

  /** The free lines that are read after the accepted quantity, or with none written. */
  function AfterAccepted(u: Update): seq<string>
    requires u.CustomerDecision?
  {
    (if u.accepted > 0.0 then Later(u.uom) else Later(u.reason)) + (LaterIf(u.returned > 0.0, u.uom) + Later(u.comment))
  }

  function AfterReturned(u: Update): seq<string>
    requires u.CustomerDecision?
  {
    (if u.returned > 0.0 then Later(u.uom) else Later(u.reason) + LaterIf(u.accepted > 0.0, u.uom)) + Later(u.comment)
  }

  /** What the readers of the two quantities return, for any texts at all. */
  lemma {:induction false} AnyQuantities(parse: ParseFloat, text: string, u: Update)
    requires ReadsPrinted(parse) && u.CustomerDecision?
    ensures CustomerQuantities(parse, Apply(text, u))
      == (LastQty(parse, AfterAccepted(u), ACCEPTED, Written(u).0), LastQty(parse, AfterReturned(u), RETURNED, Written(u).1))
  {
    hide LinesOf, Apply, LastQty, TrimSpace, Entries, AddedLines, Free, FreeLines, Later, SingleLine, AllSpace, FormatQty, Rounded;
    CustomerEntries(u);
    NoWhiteSpace();
    AnyQuantity(parse, text, u, 2, "", u.accepted, TrimSpace(u.uom));
    AnyQuantity(parse, text, u, 3, "", u.returned, TrimSpace(u.uom));
    CustomerFree(u);
    FreeFive(Entries(u));
    var reason, unit := Later(u.reason), LaterIf(u.accepted > 0.0, u.uom);
    NothingBefore(reason);
    NothingBefore(reason + unit);
  }

  /** No free line changes a quantity after it was written. */
  predicate Quiet(parse: ParseFloat, u: Update)
    requires u.CustomerDecision?
  {
    && LastQty(parse, AfterAccepted(u), ACCEPTED, Written(u).0) == Written(u).0
    && LastQty(parse, AfterReturned(u), RETURNED, Written(u).1) == Written(u).1
  }

  /** For any decision, the quantities read back as written exactly when no later line of
      its reason, unit or comment changes them. */
  lemma {:induction false} QuantitiesReadBackIff(parse: ParseFloat, text: string, u: Update)
    requires ReadsPrinted(parse) && u.CustomerDecision?
    ensures CustomerQuantities(parse, Apply(text, u)) == Written(u) <==> Quiet(parse, u)
  {
    hide LastQty, AfterAccepted, AfterReturned, Written, Apply, CustomerQuantities, ReadsPrinted;
    AnyQuantities(parse, text, u);
  }

  // ----- accord quantities -----

  /** The free lines of an accord note that are read after its accepted quantity. */
  function AfterAccord(u: Update): seq<string>
    requires u.AccordDecision?
  {
    LaterLines(u.uom) + (LaterLines(u.uom) + (Later(u.reason) + Later(u.comment)))
  }

  function AfterAccordReturned(u: Update): seq<string>
    requires u.AccordDecision?
  {
    LaterLines(u.uom) + (Later(u.reason) + Later(u.comment))
  }

  lemma AccordEntries(u: Update)
    requires u.AccordDecision? && ImpliedReturn(u) > 0.0
    ensures var es := Entries(u);
      && |es| == 4
      && es[0] == Entry(true, ACCORD_ACCEPTED, " " + FormatQty(u.accepted) + " " + u.uom)
      && es[1] == Entry(true, ACCORD_RETURNED, " " + FormatQty(NotedReturn(u)) + " " + u.uom)
      && es[2].text == " " + TrimSpace(u.reason) && (es[2].present <==> TrimSpace(u.reason) != "")
      && es[3].text == " " + TrimSpace(u.comment) && (es[3].present <==> TrimSpace(u.comment) != "")
  {
    hide TrimSpace, FormatQty, ImpliedReturn, NotedReturn;
  }

  lemma AccordFree(u: Update)
    requires u.AccordDecision? && ImpliedReturn(u) > 0.0
    ensures var es := Entries(u);
      && FreeLines(es[..0]) == [] && Free(es[0]) == Free(es[1]) == LaterLines(u.uom)
      && FreeLines(es[2..]) == Later(u.reason) + Later(u.comment)
      && FreeLines(es[1..]) == LaterLines(u.uom) + (Later(u.reason) + Later(u.comment))
  {
    hide TrimSpace, FormatQty, LaterLines, FirstLine, SingleLine, Entries, FreeLines, ImpliedReturn, NotedReturn;
    AccordEntries(u);
    SpaceIsSingle();
    UnitFree(" ", u.accepted, u.uom);
    UnitFree(" ", NotedReturn(u), u.uom);
    BehindLines(" ", TrimSpace(u.reason));
    BehindLines(" ", TrimSpace(u.comment));
    if TrimSpace(u.reason) == "" { BlankHasNoLater(u.reason); }
    if TrimSpace(u.comment) == "" { BlankHasNoLater(u.comment); }
    Unrolled(Entries(u), 0, 0);
    Unrolled(Entries(u), 1, 4);
    Unrolled(Entries(u), 2, 4);
    var es := Entries(u);
    assert es[..0] == es[0..0] && es[1..] == es[1..4] && es[2..] == es[2..4];
  }

  lemma OneSpace()
    ensures AllSpace(" ") && SingleLine(" ")
  {
  }

  lemma {:induction false} AnyAccordQuantities(parse: ParseFloat, text: string, u: Update)
    requires ReadsPrinted(parse) && u.AccordDecision? && AddedLines(u).Some? && ImpliedReturn(u) > 0.0
    ensures AccordQuantities(parse, Apply(text, u))
      == (LastQty(parse, AfterAccord(u), ACCORD_ACCEPTED, Finite(Rounded(u.accepted))),
          LastQty(parse, AfterAccordReturned(u), ACCORD_RETURNED, Finite(Rounded(NotedReturn(u)))))
  {
    hide LinesOf, Apply, LastQty, TrimSpace, Entries, AddedLines, Free, FreeLines, LaterLines, SingleLine, AllSpace, FormatQty, Rounded,
      ImpliedReturn, NotedReturn;
    AccordEntries(u);
    OneSpace();
    AnyQuantity(parse, text, u, 0, " ", u.accepted, u.uom);
    AnyQuantity(parse, text, u, 1, " ", NotedReturn(u), u.uom);
    AccordFree(u);
  }

  /** What an accord note means to write. */
  function Noted(u: Update): (Float, Float)
    requires u.AccordDecision?
  {
    (Finite(Rounded(u.accepted)), Finite(Rounded(if u.returned == 0.0 then u.sent - u.accepted else u.returned)))
  }

  predicate QuietNote(parse: ParseFloat, u: Update)
    requires u.AccordDecision?
  {
    && LastQty(parse, AfterAccord(u), ACCORD_ACCEPTED, Noted(u).0) == Noted(u).0
    && LastQty(parse, AfterAccordReturned(u), ACCORD_RETURNED, Noted(u).1) == Noted(u).1
  }

  /** The noted quantities read back exactly when no later line of the note's unit, reason
      or comment changes them. */
  lemma {:induction false} AccordQuantitiesReadBackIff(parse: ParseFloat, text: string, u: Update)
    requires ReadsPrinted(parse) && u.AccordDecision? && AddedLines(u).Some? && u.accepted < u.sent
    ensures AccordQuantities(parse, Apply(text, u)) == Noted(u) <==> QuietNote(parse, u)
  {
    hide LastQty, AfterAccord, AfterAccordReturned, Apply, AccordQuantities, ReadsPrinted, Rounded, AddedLines;
    AnyAccordQuantities(parse, text, u);
  }

  // ----- quiet texts -----

  /** No line of the text after its first starts with a quantity marker. */
  predicate QuietText(text: string) {
    Mute(Later(text))
  }

  predicate Mute(lines: seq<string>) {
    !Marked(lines, ACCEPTED) && !Marked(lines, RETURNED)
  }

  lemma MuteConcat(a: seq<string>, b: seq<string>)
    requires Mute(a) && Mute(b)
    ensures Mute(a + b)
  {
    hide HasPrefix;
    var both := a + b;
    forall i | 0 <= i < |both| ensures !HasPrefix(both[i], ACCEPTED) && !HasPrefix(both[i], RETURNED) {
      if i < |a| { assert both[i] == a[i]; } else { assert both[i] == b[i - |a|]; }
    }
  }

  lemma {:induction false} UnmarkedQty(parse: ParseFloat, lines: seq<string>, m: string, q: Float)
    requires !Marked(lines, m)
    ensures LastQty(parse, lines, m, q) == q
  {
    hide HasPrefix, QtyStep;
    if |lines| > 0 {
      assert !HasPrefix(lines[0], m);
      StepOther(parse, q, lines[0], m);
      forall i | 0 <= i < |lines[1..]| ensures !HasPrefix(lines[1..][i], m) {
        assert lines[1..][i] == lines[i + 1];
      }
      UnmarkedQty(parse, lines[1..], m, q);
    }
  }

  lemma QuietTexts(parse: ParseFloat, u: Update)
    requires u.CustomerDecision? && QuietText(u.reason) && QuietText(u.uom) && QuietText(u.comment)
    ensures Quiet(parse, u)
  {
    hide Marked, LastQty, Later, Written, Mute;
    NothingIsMute();
    MuteConcat(LaterIf(u.returned > 0.0, u.uom), Later(u.comment));
    MuteConcat(if u.accepted > 0.0 then Later(u.uom) else Later(u.reason), LaterIf(u.returned > 0.0, u.uom) + Later(u.comment));
    MuteConcat(Later(u.reason), LaterIf(u.accepted > 0.0, u.uom));
    MuteConcat(if u.returned > 0.0 then Later(u.uom) else Later(u.reason) + LaterIf(u.accepted > 0.0, u.uom), Later(u.comment));
    MuteMeans(AfterAccepted(u));
    MuteMeans(AfterReturned(u));
    UnmarkedQty(parse, AfterAccepted(u), ACCEPTED, Written(u).0);
    UnmarkedQty(parse, AfterReturned(u), RETURNED, Written(u).1);
  }

  lemma NothingIsMute()
    ensures Mute([])
  {
  }

  lemma MuteMeans(lines: seq<string>)
    requires Mute(lines)
    ensures !Marked(lines, ACCEPTED) && !Marked(lines, RETURNED)
  {
  }

  lemma TrimmedIsQuiet(text: string)
    requires QuietText(text)
    ensures QuietText(TrimSpace(text))
  {
    hide TrimSpace, LaterLines, Mute;
    TrimIdempotent(text);
  }

  // ----- lines that speak -----

  /** A text whose second line is the given one. */
  function WithSecond(line: string): string { "x\n" + line }

  lemma SecondLine(line: string)
    requires line != "" && Trimmed(line) && SingleLine(line)
    ensures Later(WithSecond(line)) == [line]
    ensures TrimSpace(WithSecond(line)) == WithSecond(line)
  {
    hide TrimSpace, IsSpace;
    var text := WithSecond(line);
    assert text[|text| - 1] == line[|line| - 1];
    XIsVisible();
    TrimmedIsFixed(text);
    TrimmedIsFixed(line);
    assert "x" + "\n" + line == text;
    SplitSingle("x");
    SplitSingle(line);
    SplitTwo("x", line);
    assert SplitLines(text) == ["x"] + [line] && (["x"] + [line])[1..] == [line];
    CleanOne(line);
  }

  lemma CleanOne(line: string)
    requires line != "" && TrimSpace(line) == line
    ensures Clean([line]) == [line]
  {
    hide TrimSpace;
    assert [line][1..] == [];
  }

  lemma XIsVisible()
    ensures !IsSpace('x')
  {
  }

  /** A comment that speaks for the reason: with a blank reason and a unit of one line, its
      second line is read as the reason. */
  lemma {:induction false} CommentSpeaksReason(text: string, u: Update)
    requires u.CustomerDecision? && TrimSpace(u.reason) == "" && SingleLine(u.uom) && u.comment == WithSecond("AR:z")
    ensures CustomerReason(Apply(text, u)) == "z"
  {
    hide LinesOf, Apply, FirstValue, TrimSpace, Entries, AddedLines, Free, FreeLines, Later, Marked, SingleLine;
    CustomerEntries(u);
    AnyValue(text, u, 1);
    CustomerFree(u);
    FreeFive(Entries(u));
    NoneMarked(REASON);
    NoLaterLine(u.uom);
    SpokenReason();
    assert [] + ([] + ["AR:z"]) == ["AR:z"];
  }

  lemma SpokenReason()
    ensures Later(WithSecond("AR:z")) == ["AR:z"] && FirstValue(["AR:z"], REASON) == "z"
  {
    hide TrimSpace;
    assert SingleLine("AR:z") && Trimmed("AR:z");
    SecondLine("AR:z");
    assert "AR:z" == REASON + "z" && "AR:z"[3..] == "z";
    TrimmedIsFixed("z");
  }

  /** One word, of visible runes. */
  predicate IsWord(word: string) {
    word != "" && NoSpace(word)
  }

  function SpeakingComment(word: string): string { WithSecond(ACCEPTED + word) }

  lemma SpokenWord(parse: ParseFloat, word: string, q: Float)
    requires IsWord(word)
    ensures Later(SpeakingComment(word)) == [ACCEPTED + word]
    ensures LastQty(parse, [ACCEPTED + word], ACCEPTED, q) == parse(word)
    ensures LastQty(parse, [ACCEPTED + word], RETURNED, q) == q
  {
    hide TrimSpace, QtyStep, IsWord, Later, WithSecond;
    SpokenIsLine(word);
    SecondLine(ACCEPTED + word);
    SpokenStep(parse, word, q);
    assert [ACCEPTED + word][1..] == [];
  }

  lemma SpokenStep(parse: ParseFloat, word: string, q: Float)
    requires IsWord(word)
    ensures QtyStep(parse, q, ACCEPTED + word, ACCEPTED) == parse(word)
    ensures QtyStep(parse, q, ACCEPTED + word, RETURNED) == q
  {
    hide TrimSpace, FirstField, NoSpace, Apart, HasPrefix;
    CustomerMarkersApart();
    ApartLines(ACCEPTED, RETURNED, word);
    PrefixOfConcat(ACCEPTED, word);
    assert (ACCEPTED + word)[|ACCEPTED|..] == word;
    assert "" + word + "" == word;
    FirstWord("", word, "");
  }

  lemma SpokenIsLine(word: string)
    requires IsWord(word)
    ensures SingleLine(ACCEPTED + word) && Trimmed(ACCEPTED + word)
  {
    assert IsSpace('\n');
  }

  lemma SpokenIsTrimmed(word: string)
    requires IsWord(word)
    ensures TrimSpace(SpeakingComment(word)) == SpeakingComment(word) && |SpeakingComment(word)| >= 3
  {
    hide TrimSpace;
    SpokenIsLine(word);
    SecondLine(ACCEPTED + word);
  }

  /** A comment that speaks for the accepted quantity: whatever was accepted, its second
      line is read, as ParseFloat reads it. */
  lemma {:induction false} CommentSpeaks(parse: ParseFloat, text: string, u: Update, word: string)
    requires ReadsPrinted(parse) && u.CustomerDecision? && IsWord(word) && u.comment == SpeakingComment(word)
    ensures CustomerQuantities(parse, Apply(text, u)).0 == parse(word)
    ensures parse(word) != Written(u).0 ==> !Quiet(parse, u)
    ensures SingleLine(u.uom) && u.returned > 0.0 ==> CustomerQuantities(parse, Apply(text, u)).1 == Written(u).1
  {
    hide LastQty, Apply, CustomerQuantities, Later, Rounded, SpeakingComment, IsWord, SingleLine, LaterIf, ReadsPrinted;
    AnyQuantities(parse, text, u);
    var first := if u.accepted > 0.0 then Later(u.uom) else Later(u.reason);
    var unit, spoken := LaterIf(u.returned > 0.0, u.uom), [ACCEPTED + word];
    LastQtyConcat(parse, first, unit + spoken, ACCEPTED, Written(u).0);
    LastQtyConcat(parse, unit, spoken, ACCEPTED, LastQty(parse, first, ACCEPTED, Written(u).0));
    SpokenWord(parse, word, LastQty(parse, unit, ACCEPTED, LastQty(parse, first, ACCEPTED, Written(u).0)));
    SpokenWord(parse, word, Written(u).1);
    if SingleLine(u.uom) {
      NoLaterLine(u.uom);
      NothingBefore(spoken);
    }
  }
}
