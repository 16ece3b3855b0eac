/** Any sequence of updates, whatever their texts: which lines each family holds, and exactly
    when those are the lines of its own last update. */
module RemarksRuns {
  import opened Text
  import opened Lines
  import opened Quantity
  import opened Remarks
  import opened RemarksCodec
  import opened RemarksReadBack
  import opened RemarksTexts
  import opened RemarksAnswers

  /** All the lines an update adds, as they are read; none when its note is refused. */
  function Spoken(u: Update): seq<string> {
    if AddedLines(u).Some? then SaidLines(Entries(u)) else []
  }

  /** Whether an update takes the place of its family's lines. */
  predicate Replaces(u: Update, f: Family) {
    u.Family() == f && AddedLines(u).Some?
  }

  /** The lines of a family that other updates added since its own last one. */
  function SpokenSince(updates: seq<Update>, f: Family): seq<string> {
    if |updates| == 0 then []
    else if LastOf(updates[1..], f).Some? || Replaces(updates[0], f) then SpokenSince(updates[1..], f)
    else Only(Spoken(updates[0]), f) + SpokenSince(updates[1..], f)
  }

  /** A family's lines after a run that began with the given ones. */
  function Held(start: seq<string>, updates: seq<Update>, f: Family): seq<string> {
    (match LastOf(updates, f) case None => start case Some(u) => Only(Spoken(u), f)) + SpokenSince(updates, f)
  }

  /** The lines of no family that a run added. */
  function Strays(updates: seq<Update>): seq<string> {
    if |updates| == 0 then [] else Foreign(Spoken(updates[0])) + Strays(updates[1..])
  }

  lemma StepHolds(text: string, u: Update, f: Family)
    ensures Only(LinesOf(Apply(text, u)), f) == (if Replaces(u, f) then [] else Only(LinesOf(text), f)) + Only(Spoken(u), f)
    ensures Foreign(LinesOf(Apply(text, u))) == Foreign(LinesOf(text)) + Foreign(Spoken(u))
  {
    hide LinesOf, Apply, Entries, AddedLines, SaidLines, InFamily;
    AppliedLines(text, u);
    var before, own := LinesOf(text), Spoken(u);
    if AddedLines(u).Some? {
      OnlyConcat(Without(before, u.Family()), own, f);
      ForeignConcat(Without(before, u.Family()), own);
      ForeignWithout(before, u.Family());
      if u.Family() == f {
        OnlyWithoutOwn(before, f);
      } else {
        OnlyWithoutOther(before, u.Family(), f);
      }
    } else {
      NothingBehind(Only(before, f), Foreign(before));
      NoLinesAtAll(f);
    }
  }

  lemma NoLinesAtAll(f: Family)
    ensures Only([], f) == [] && Foreign([]) == []
  {
  }

  /** After any run each family holds the lines of its own last update that are its own,
      and those that later updates of other families added; lines of no family are only
      ever added. */
  lemma {:induction false} RunHolds(text: string, updates: seq<Update>, f: Family)
    ensures Only(LinesOf(Run(text, updates)), f) == Held(Only(LinesOf(text), f), updates, f)
    ensures Foreign(LinesOf(Run(text, updates))) == Foreign(LinesOf(text)) + Strays(updates)
    decreases |updates|
  {
    hide LinesOf, Apply, Entries, AddedLines, SaidLines, Only, Foreign, Spoken;
    if |updates| == 0 {
      NothingBehind(Only(LinesOf(text), f), Foreign(LinesOf(text)));
    } else {
      var u, rest := updates[0], updates[1..];
      StepHolds(text, u, f);
      RunHolds(Apply(text, u), rest, f);
      Regroup(Only(LinesOf(text), f), Only(Spoken(u), f), SpokenSince(rest, f));
      Regroup(Foreign(LinesOf(text)), Foreign(Spoken(u)), Strays(rest));
      NothingBefore(Only(Spoken(u), f));
    }
  }

  // ----- when a family holds what was written -----

  lemma {:induction false} OnlyIsSome(lines: seq<string>, f: Family)
    ensures |Only(lines, f)| + |Without(lines, f)| == |lines|
    ensures AllIn(Only(lines, f), f)
    ensures Without(lines, f) == [] <==> AllIn(lines, f)
    ensures Only(lines, f) == lines <==> AllIn(lines, f)
  {
    hide InFamily;
    if |lines| > 0 {
      OnlyIsSome(lines[1..], f);
      AllInCons(lines, f);
    }
  }

  lemma AllInCons(lines: seq<string>, f: Family)
    requires |lines| > 0
    ensures AllIn(lines, f) <==> InFamily(lines[0], f) && AllIn(lines[1..], f)
  {
    hide InFamily;
    if InFamily(lines[0], f) && AllIn(lines[1..], f) {
      forall i | 0 <= i < |lines| ensures InFamily(lines[i], f) {
        if i > 0 { assert lines[i] == lines[1..][i - 1]; }
      }
    }
  }

  lemma {:induction false} SaidIn(es: seq<Entry>, f: Family)
    requires MarkersOk(es) && forall i :: 0 <= i < |es| ==> MarkerOf(es[i].marker, f)
    ensures AllIn(SaidLines(es), f) <==> AllIn(FreeLines(es), f)
  {
    hide TrimRight, InFamily, FirstLine, LaterLines, AllIn, IsMarker;
    if |es| > 0 {
      SaidIn(es[1..], f);
      AllInConcat(Said(es[0]), SaidLines(es[1..]), f);
      AllInConcat(Free(es[0]), FreeLines(es[1..]), f);
      if es[0].present {
        var line := es[0].marker + TrimRight(FirstLine(es[0].text));
        MarkedLine(es[0].marker, FirstLine(es[0].text));
        var lines := [line] + LaterLines(es[0].text);
        AllInCons(lines, f);
        assert lines[1..] == LaterLines(es[0].text);
      }
    }
  }

  lemma AllInConcat(a: seq<string>, b: seq<string>, f: Family)
    ensures AllIn(a + b, f) <==> AllIn(a, f) && AllIn(b, f)
  {
    hide InFamily;
    var both := a + b;
    if AllIn(both, f) {
      forall i | 0 <= i < |a| ensures InFamily(a[i], f) { assert a[i] == both[i]; }
      forall i | 0 <= i < |b| ensures InFamily(b[i], f) { assert b[i] == both[|a| + i]; }
    }
  }

  /** The texts of an update keep to its family: each of their later lines carries one of
      its markers. Texts of one line do. */
  predicate KeepsToFamily(u: Update) {
    AddedLines(u).Some? ==> AllIn(FreeLines(Entries(u)), u.Family())
  }

  lemma KeepsMeans(u: Update)
    ensures KeepsToFamily(u) <==> AllIn(Spoken(u), u.Family())
  {
    hide Entries, AddedLines, SaidLines, FreeLines, MarkersOk, MarkerOf, InFamily;
    EntriesMarked(u);
    EntryMarkers(u);
    SaidIn(Entries(u), u.Family());
  }

  lemma {:induction false} LastReplaces(updates: seq<Update>, f: Family)
    ensures LastOf(updates, f).Some? ==> Replaces(LastOf(updates, f).value, f)
  {
    hide AddedLines;
    if |updates| > 0 { LastReplaces(updates[1..], f); }
  }

  lemma OthersAreShorter(own: seq<string>, since: seq<string>, f: Family)
    requires AllIn(since, f)
    ensures Only(own, f) + since == own <==> AllIn(own, f) && since == []
  {
    hide InFamily;
    OnlyIsSome(own, f);
    if Only(own, f) + since == own {
      AllInConcat(Only(own, f), since, f);
    }
    NothingBehind(Only(own, f), []);
  }

  lemma {:induction false} SinceIsOwn(updates: seq<Update>, f: Family)
    ensures AllIn(SpokenSince(updates, f), f)
  {
    hide InFamily, Spoken, Replaces, Only;
    if |updates| > 0 {
      SinceIsOwn(updates[1..], f);
      OnlyIsSome(Spoken(updates[0]), f);
      AllInConcat(Only(Spoken(updates[0]), f), SpokenSince(updates[1..], f), f);
    }
  }

  /** After any run a family reads as the lines of its own last update exactly when that
      update keeps to its family and no later one of another family speaks for it; without
      an update of its own, it is as at the start exactly when none speaks for it. */
  lemma {:induction false} RunEffectIff(text: string, updates: seq<Update>, f: Family)
    ensures var after := Only(LinesOf(Run(text, updates)), f);
      match LastOf(updates, f)
      case Some(u) => after == Spoken(u) <==> KeepsToFamily(u) && SpokenSince(updates, f) == []
      case None => after == Only(LinesOf(text), f) <==> SpokenSince(updates, f) == []
  {
    hide LinesOf, Run, Spoken, SpokenSince, Only, InFamily, KeepsToFamily, AddedLines, LastOf;
    RunHolds(text, updates, f);
    SinceIsOwn(updates, f);
    LastReplaces(updates, f);
    match LastOf(updates, f)
    case Some(u) =>
      KeepsMeans(u);
      OthersAreShorter(Spoken(u), SpokenSince(updates, f), f);
    case None =>
      SameLength(Only(LinesOf(text), f), SpokenSince(updates, f));
  }

  lemma SameLength(a: seq<string>, b: seq<string>)
    ensures a + b == a <==> b == []
  {
  }

  /** The lines of no family are as at the start exactly when no update has a stray one. */
  lemma {:induction false} ForeignStaysIff(text: string, updates: seq<Update>)
    ensures Foreign(LinesOf(Run(text, updates))) == Foreign(LinesOf(text)) <==> Strays(updates) == []
  {
    hide LinesOf, Run, Strays, Foreign;
    RunHolds(text, updates, Customer);
    SameLength(Foreign(LinesOf(text)), Strays(updates));
  }

  /** Applying an update again changes nothing exactly when its texts keep to its family. */
  lemma {:induction false} ApplyIdempotentIff(text: string, u: Update)
    ensures Apply(Apply(text, u), u) == Apply(text, u) <==> KeepsToFamily(u)
  {
    hide LinesOf, Entries, SaidLines, AddedLines, FreeLines, InFamily, Without;
    if AddedLines(u).Some? {
      var f, own := u.Family(), Spoken(u);
      var once := Apply(text, u);
      var kept := Without(LinesOf(text), f);
      AppliedLines(text, u);
      AppliedLines(once, u);
      KeepsMeans(u);
      WithoutConcat(kept, own, f);
      WithoutTwice(LinesOf(text), f);
      OnlyIsSome(own, f);
      assert Without(LinesOf(once), f) == kept + Without(own, f);
      NothingBehind(kept, []);
      SameMiddle(kept, Without(own, f), own);
    }
  }

  lemma SameMiddle(a: seq<string>, b: seq<string>, c: seq<string>)
    ensures a + b + c == a + c <==> b == []
  {
    if a + b + c == a + c { assert |a + b + c| == |a + c|; }
    NothingBehind(a, c);
  }

  // ----- only later lines stray -----

  lemma {:induction false} SaidElsewhere(es: seq<Entry>, f: Family, g: Family)
    requires MarkersOk(es) && (forall i :: 0 <= i < |es| ==> MarkerOf(es[i].marker, f)) && f != g
    ensures Only(SaidLines(es), g) == Only(FreeLines(es), g)
    ensures Foreign(SaidLines(es)) == Foreign(FreeLines(es))
  {
    hide TrimRight, InFamily, FirstLine, LaterLines, IsMarker, Foreign, Only;
    if |es| > 0 {
      SaidElsewhere(es[1..], f, g);
      OnlyConcat(Said(es[0]), SaidLines(es[1..]), g);
      OnlyConcat(Free(es[0]), FreeLines(es[1..]), g);
      ForeignConcat(Said(es[0]), SaidLines(es[1..]));
      ForeignConcat(Free(es[0]), FreeLines(es[1..]));
      if es[0].present {
        var line := es[0].marker + TrimRight(FirstLine(es[0].text));
        MarkedLine(es[0].marker, FirstLine(es[0].text));
        OwnLineElsewhere(line, LaterLines(es[0].text), f, g);
      }
    }
  }

  lemma OwnLineElsewhere(line: string, rest: seq<string>, f: Family, g: Family)
    requires InFamily(line, f) && f != g
    ensures Only([line] + rest, g) == Only(rest, g) && Foreign([line] + rest) == Foreign(rest)
  {
    hide InFamily, Only, Foreign;
    OnlyConcat([line], rest, g);
    ForeignConcat([line], rest);
    FilterOther([line], f, g);
    ForeignOfOwn([line], f);
    NothingBefore(Only(rest, g));
    NothingBefore(Foreign(rest));
  }

  /** What an update adds to other families, or to none, are later lines of its texts. */
  lemma StraysAreFree(u: Update, g: Family)
    requires AddedLines(u).Some? && g != u.Family()
    ensures Only(Spoken(u), g) == Only(FreeLines(Entries(u)), g)
    ensures Foreign(Spoken(u)) == Foreign(FreeLines(Entries(u)))
  {
    hide Entries, AddedLines, SaidLines, FreeLines, MarkersOk, MarkerOf, InFamily, Only, Foreign;
    EntriesMarked(u);
    EntryMarkers(u);
    SaidElsewhere(Entries(u), u.Family(), g);
  }

  /** Updates of one line a text keep to their family. */
  lemma SingleKeeps(u: Update)
    requires u.IsSingleLine()
    ensures KeepsToFamily(u)
  {
    hide Entries, AddedLines, EntriesSingle, LaterLines, InFamily;
    EntriesAreSingle(u);
    SingleHasNoFree(Entries(u));
  }

  lemma {:induction false} SingleHasNoFree(es: seq<Entry>)
    requires EntriesSingle(es)
    ensures FreeLines(es) == []
  {
    hide LaterLines, SingleLine;
    if |es| > 0 {
      SingleHasNoLater(es[0].text);
      SingleHasNoFree(es[1..]);
    }
  }

  // ----- comments that stray -----

  /** A customer's decision whose one free line is the second line of its comment. */
  predicate SecondLineOnly(u: Update, line: string) {
    && u.CustomerDecision? && SingleLine(u.reason) && SingleLine(u.uom)
    && line != "" && Trimmed(line) && SingleLine(line) && u.comment == WithSecond(line)
  }

  lemma SecondLineIsFree(u: Update, line: string)
    requires SecondLineOnly(u, line)
    ensures u.CustomerDecision? && AddedLines(u).Some? && FreeLines(Entries(u)) == [line]
  {
    hide TrimSpace, Entries, AddedLines, Free, Later, SingleLine, WithSecond;
    CustomerEntries(u);
    CustomerFree(u);
    FreeFive(Entries(u));
    NoLaterLine(u.reason);
    NoLaterLine(u.uom);
    SecondLine(line);
    var es := Entries(u);
    assert FreeLines(es) == Free(es[0]) + FreeLines(es[1..]);
    NothingBefore([line]);
  }

  /** If that line carries no marker, it stays behind when the decision is written again. */
  lemma {:induction false} SecondLineIsLeft(text: string, u: Update, line: string)
    requires SecondLineOnly(u, line) && (forall f :: !InFamily(line, f))
    ensures Foreign(LinesOf(Apply(text, u))) == Foreign(LinesOf(text)) + [line]
    ensures Apply(Apply(text, u), u) != Apply(text, u)
  {
    hide LinesOf, Entries, FreeLines, AddedLines, InFamily, Spoken, Apply, SecondLineOnly, Only, Replaces;
    SecondLineIsFree(u, line);
    StepHolds(text, u, Customer);
    ApplyIdempotentIff(text, u);
    StraysAreFree(u, Accord);
    ForeignOfOne(line);
    OneIsNotIn(line, Customer);
  }

  lemma ForeignOfOne(line: string)
    requires forall f :: !InFamily(line, f)
    ensures Foreign([line]) == [line]
  {
    hide Without;
    KeepsOne(line, Customer);
    KeepsOne(line, Accord);
    KeepsOne(line, Unannounced);
  }

  lemma KeepsOne(line: string, f: Family)
    requires !InFamily(line, f)
    ensures Without([line], f) == [line]
  {
    hide InFamily;
    assert [line][1..] == [];
    NothingBehind([line], []);
  }

  lemma OneIsNotIn(line: string, f: Family)
    requires !InFamily(line, f)
    ensures !AllIn([line], f)
  {
    assert [line][0] == line;
  }

  const UNANNOUNCED_LINE: string := "Accord Werka Aytilmagan: y"

  /** If it carries a marker of the unannounced family, a text without such lines reads as
      unannounced. */
  lemma {:induction false} CommentSpeaksUnannounced(text: string, u: Update, lower: Lowering)
    requires SecondLineOnly(u, UNANNOUNCED_LINE) && Only(LinesOf(text), Unannounced) == []
    ensures UnannouncedState(lower, Apply(text, u)) == ToLower(lower, "y")
  {
    hide LinesOf, Entries, FreeLines, AddedLines, InFamily, Spoken, Apply, SecondLineOnly, Only, FirstValue, ToLower, HasPrefix;
    SecondLineIsFree(u, UNANNOUNCED_LINE);
    StepHolds(text, u, Unannounced);
    StraysAreFree(u, Unannounced);
    UnannouncedLineReads();
    MarkersOfFamilies(UNANNOUNCED);
    ReadOnly(_ => ZERO, LinesOf(Apply(text, u)), UNANNOUNCED, Unannounced, ZERO);
    NothingBefore([UNANNOUNCED_LINE]);
  }

  lemma UnannouncedLineReads()
    ensures Only([UNANNOUNCED_LINE], Unannounced) == [UNANNOUNCED_LINE]
    ensures FirstValue([UNANNOUNCED_LINE], UNANNOUNCED) == "y"
  {
    hide TrimSpace;
    assert UNANNOUNCED_LINE == UNANNOUNCED + " y";
    PrefixOfConcat(UNANNOUNCED, " y");
    FirstIsRead(UNANNOUNCED, " y", []);
    NothingBehind([UNANNOUNCED_LINE], []);
    TrimmedIsFixed("y");
    assert " y" == " " + "y" && AllSpace(" ");
    TrimDropsLeft(" ", "y");
    FilterOwn([UNANNOUNCED_LINE], Unannounced);
  }
}
