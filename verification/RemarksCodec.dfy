/** Writing decisions into a remarks text and reading them back
    (internal/erpnext/delivery_note.go:629-717, internal/erpnext/purchase_receipt.go:914-1073). */
module RemarksCodec {
  import opened Text
  import opened Lines
  import opened Quantity
  import opened Remarks

  // ----- what each writer adds -----

  /** Lower case, for the runes whose small letter is ASCII; the other runes cannot
      make one of the words compared with. */
  function LowerToAscii(c: char): char {
    if c == '\U{0130}' then 'i' else if c == '\U{212A}' then 'k' else LowerAscii(c)
  }

  function NormalizeCustomerState(state: string): string { StateNamed(ToLower(LowerToAscii, TrimSpace(state))) }

  function StateNamed(s: string): string {
    if s == "pending" || s == "pd" then "pending"
    else if s == "confirmed" || s == "accepted" || s == "cf" then "confirmed"
    else if s == "partial" || s == "pt" then "partial"
    else if s == "rejected" || s == "rj" then "rejected"
    else ""
  }

  datatype Update =
    | CustomerDecision(state: string, reason: string, accepted: real, returned: real, uom: string, comment: string)
    | AccordDecision(sent: real, accepted: real, returned: real, uom: string, reason: string, comment: string)
    | WerkaUnannounced(state: string, reason: string)
  {
    function Family(): Family {
      match this
      case CustomerDecision(_, _, _, _, _, _) => Customer
      case AccordDecision(_, _, _, _, _, _) => Accord
      case WerkaUnannounced(_, _) => Unannounced
    }

    predicate IsSingleLine() {
      match this
      case CustomerDecision(_, reason, _, _, uom, comment) => SingleLine(reason) && SingleLine(uom) && SingleLine(comment)
      case AccordDecision(_, _, _, uom, reason, comment) => SingleLine(uom) && SingleLine(reason) && SingleLine(comment)
      case WerkaUnannounced(state, reason) => SingleLine(state) && SingleLine(reason)
    }
  }

  /** A line, unless its condition fails. */
  function LineIf(present: bool, line: string): seq<string> {
    if present then [line] else []
  }

  function CustomerLines(u: Update): seq<string>
    requires u.CustomerDecision?
  {
    LineIf(NormalizeCustomerState(u.state) != "", DECISION + NormalizeCustomerState(u.state))
    + LineIf(TrimSpace(u.reason) != "", REASON + TrimSpace(u.reason))
    + LineIf(u.accepted > 0.0, ACCEPTED + FormatQty(u.accepted) + " " + TrimSpace(u.uom))
    + LineIf(u.returned > 0.0, RETURNED + FormatQty(u.returned) + " " + TrimSpace(u.uom))
    + LineIf(TrimSpace(u.comment) != "", COMMENT + TrimSpace(u.comment))
  }

  const TOLERANCE: real := 0.0001

  function ImpliedReturn(u: Update): real
    requires u.AccordDecision?
  {
    if u.sent - u.accepted < 0.0 then 0.0 else u.sent - u.accepted
  }

  function NotedReturn(u: Update): real
    requires u.AccordDecision?
  {
    if u.returned == 0.0 then ImpliedReturn(u) else u.returned
  }

  /** buildAccordDecisionNote: nothing is returned and the note is empty, or the
      quantities are refused, or the note has a line for each of its parts. */
  function AccordNote(u: Update): Option<string>
    requires u.AccordDecision?
  {
    if ImpliedReturn(u) <= 0.0 then Some("")
    else if u.returned < 0.0 || NotedReturn(u) - ImpliedReturn(u) > TOLERANCE then None
    else Some(Join(AccordNoteLines(u), "\n"))
  }

  function AccordNoteLines(u: Update): seq<string>
    requires u.AccordDecision?
  {
    [ACCORD_ACCEPTED + " " + FormatQty(u.accepted) + " " + u.uom,
     ACCORD_RETURNED + " " + FormatQty(NotedReturn(u)) + " " + u.uom]
    + LineIf(TrimSpace(u.reason) != "", ACCORD_REASON + " " + TrimSpace(u.reason))
    + LineIf(TrimSpace(u.comment) != "", ACCORD_COMMENT + " " + TrimSpace(u.comment))
  }

  function UnannouncedLines(u: Update): seq<string>
    requires u.WerkaUnannounced?
  {
    LineIf(TrimSpace(u.state) != "", UNANNOUNCED + " " + TrimSpace(u.state))
    + LineIf(TrimSpace(u.reason) != "", UNANNOUNCED_REASON + " " + TrimSpace(u.reason))
  }

  /** The lines an update appends; none when its note is refused. */
  function AddedLines(u: Update): Option<seq<string>> {
    match u
    case CustomerDecision(_, _, _, _, _, _) => Some(CustomerLines(u))
    case AccordDecision(_, _, _, _, _, _) =>
      (match AccordNote(u)
       case None => None
       case Some(note) => Some(if TrimSpace(note) == "" then [] else SplitLines(TrimSpace(note))))
    case WerkaUnannounced(_, _) => Some(UnannouncedLines(u))
  }

  function Apply(text: string, u: Update): string {
    match AddedLines(u)
    case None => text
    case Some(added) => Upserted(text, u.Family(), added)
  }

  // ----- the writers, as loops over lines -----

  method KeepForeign(existing: string, f: Family) returns (filtered: seq<string>)
    ensures filtered == Without(LinesOf(existing), f)
  {
    hide InFamily;
    var lines := RawLines(existing);
    filtered := [];
    for i := 0 to |lines|
      invariant filtered == Without(Clean(lines[..i]), f)
    {
      assert lines[..i + 1] == lines[..i] + [lines[i]];
      CleanSnoc(lines[..i], lines[i]);
      WithoutConcat(Clean(lines[..i]), CleanLine(lines[i]), f);
      var trimmed := TrimSpace(lines[i]);
      if trimmed == "" || InFamily(trimmed, f) {
        continue;
      }
      filtered := filtered + [trimmed];
    }
    assert lines[..|lines|] == lines;
  }

  method UpsertCustomerDecisionPayloadInRemarks(existing: string, u: Update) returns (text: string)
    requires u.CustomerDecision?
    ensures text == Apply(existing, u)
  {
    hide FormatQty, TrimSpace, NormalizeCustomerState, LinesOf, Without;
    var filtered := KeepForeign(existing, Customer);
    var added: seq<string> := [];
    var normalized := NormalizeCustomerState(u.state);
    if normalized != "" {
      added := added + [DECISION + normalized];
    }
    ghost var a1 := LineIf(normalized != "", DECISION + normalized);
    assert added == a1;
    if TrimSpace(u.reason) != "" {
      added := added + [REASON + TrimSpace(u.reason)];
    }
    ghost var a2 := a1 + LineIf(TrimSpace(u.reason) != "", REASON + TrimSpace(u.reason));
    assert added == a2;
    if u.accepted > 0.0 {
      added := added + [ACCEPTED + FormatQty(u.accepted) + " " + TrimSpace(u.uom)];
    }
    ghost var a3 := a2 + LineIf(u.accepted > 0.0, ACCEPTED + FormatQty(u.accepted) + " " + TrimSpace(u.uom));
    assert added == a3;
    if u.returned > 0.0 {
      added := added + [RETURNED + FormatQty(u.returned) + " " + TrimSpace(u.uom)];
    }
    ghost var a4 := a3 + LineIf(u.returned > 0.0, RETURNED + FormatQty(u.returned) + " " + TrimSpace(u.uom));
    assert added == a4;
    if TrimSpace(u.comment) != "" {
      added := added + [COMMENT + TrimSpace(u.comment)];
    }
    assert added == a4 + LineIf(TrimSpace(u.comment) != "", COMMENT + TrimSpace(u.comment));
    assert added == CustomerLines(u);
    text := Join(filtered + added, "\n");
  }

  method UpsertAccordDecisionInRemarks(existing: string, u: Update) returns (text: string)
    requires u.AccordDecision? && AccordNote(u).Some?
    ensures text == Apply(existing, u)
  {
    hide AccordNote, TrimSpace, LinesOf, Without;
    var decision := AccordNote(u).value;
    var filtered := KeepForeign(existing, Accord);
    if TrimSpace(decision) != "" {
      filtered := filtered + SplitLines(TrimSpace(decision));
    } else {
      assert filtered + [] == filtered;
    }
    text := Join(filtered, "\n");
  }

  method UpsertWerkaUnannouncedInRemarks(existing: string, u: Update) returns (text: string)
    requires u.WerkaUnannounced?
    ensures text == Apply(existing, u)
  {
    hide TrimSpace, LinesOf, Without;
    var filtered := KeepForeign(existing, Unannounced);
    var added: seq<string> := [];
    if TrimSpace(u.state) != "" {
      added := added + [UNANNOUNCED + " " + TrimSpace(u.state)];
    }
    assert added == LineIf(TrimSpace(u.state) != "", UNANNOUNCED + " " + TrimSpace(u.state));
    if TrimSpace(u.reason) != "" {
      added := added + [UNANNOUNCED_REASON + " " + TrimSpace(u.reason)];
    }
    assert added == UnannouncedLines(u);
    text := Join(filtered + added, "\n");
  }

  // ----- the readers -----

  /** The text after a marker, on the first line that carries it. */
  function FirstValue(lines: seq<string>, marker: string): string {
    if |lines| == 0 then ""
    else if HasPrefix(lines[0], marker) then TrimSpace(lines[0][|marker|..])
    else FirstValue(lines[1..], marker)
  }

  /** The first of strings.Fields, or nothing. */
  function FirstField(s: string): string {
    if Fields(s) == [] then "" else Fields(s)[0]
  }

  function QtyStep(parse: ParseFloat, q: Float, line: string, marker: string): Float {
    if !HasPrefix(line, marker) then q
    else
      var field := FirstField(TrimSpace(line[|marker|..]));
      if field == "" then q else parse(field)
  }

  /** The quantity after a marker, on the last line that carries one. */
  function LastQty(parse: ParseFloat, lines: seq<string>, marker: string, q: Float): Float {
    if |lines| == 0 then q else LastQty(parse, lines[1..], marker, QtyStep(parse, q, lines[0], marker))
  }

  function CustomerState(text: string): string { NormalizeCustomerState(FirstValue(LinesOf(text), DECISION)) }
  function CustomerReason(text: string): string { FirstValue(LinesOf(text), REASON) }
  function CustomerComment(text: string): string { FirstValue(LinesOf(text), COMMENT) }
  function CustomerQuantities(parse: ParseFloat, text: string): (Float, Float) {
    (LastQty(parse, LinesOf(text), ACCEPTED, ZERO), LastQty(parse, LinesOf(text), RETURNED, ZERO))
  }
  function AccordQuantities(parse: ParseFloat, text: string): (Float, Float) {
    (LastQty(parse, LinesOf(text), ACCORD_ACCEPTED, ZERO), LastQty(parse, LinesOf(text), ACCORD_RETURNED, ZERO))
  }
  function UnannouncedState(lower: Lowering, text: string): string { ToLower(lower, FirstValue(LinesOf(text), UNANNOUNCED)) }
  function UnannouncedReason(text: string): string { FirstValue(LinesOf(text), UNANNOUNCED_REASON) }

  // ----- the readers, as loops over lines -----

  lemma {:induction false} FirstValueConcat(a: seq<string>, b: seq<string>, marker: string)
    ensures (exists i :: 0 <= i < |a| && HasPrefix(a[i], marker)) ==> FirstValue(a + b, marker) == FirstValue(a, marker)
    ensures !(exists i :: 0 <= i < |a| && HasPrefix(a[i], marker)) ==> FirstValue(a + b, marker) == FirstValue(b, marker)
  {
    hide HasPrefix, TrimSpace;
    if |a| == 0 {
      assert a + b == b;
    } else {
      FirstValueConcat(a[1..], b, marker);
      assert (a + b)[1..] == a[1..] + b;
      if !HasPrefix(a[0], marker) && exists i :: 0 <= i < |a| && HasPrefix(a[i], marker) {
        var i :| 0 <= i < |a| && HasPrefix(a[i], marker);
        assert HasPrefix(a[1..][i - 1], marker);
      }
    }
  }

  lemma {:induction false} LastQtyConcat(parse: ParseFloat, a: seq<string>, b: seq<string>, marker: string, q: Float)
    ensures LastQty(parse, a + b, marker, q) == LastQty(parse, b, marker, LastQty(parse, a, marker, q))
  {
    hide QtyStep;
    if |a| == 0 {
      assert a + b == b;
    } else {
      LastQtyConcat(parse, a[1..], b, marker, QtyStep(parse, q, a[0], marker));
      assert (a + b)[1..] == a[1..] + b;
    }
  }

  /** ExtractCustomerDecisionReason, ...Comment, ExtractWerkaUnannouncedReason and the
      state readers share this loop. */
  method ExtractValue(remarks: string, marker: string) returns (value: string)
    requires marker != ""
    ensures value == FirstValue(LinesOf(remarks), marker)
  {
    var lines := RawLines(remarks);
    for i := 0 to |lines|
      invariant forall j :: 0 <= j < |Clean(lines[..i])| ==> !HasPrefix(Clean(lines[..i])[j], marker)
    {
      var trimmed := TrimSpace(lines[i]);
      assert lines == lines[..i] + ([lines[i]] + lines[i + 1..]);
      CleanConcat(lines[..i], [lines[i]] + lines[i + 1..]);
      FirstValueConcat(Clean(lines[..i]), Clean([lines[i]] + lines[i + 1..]), marker);
      if HasPrefix(trimmed, marker) {
        return TrimSpace(trimmed[|marker|..]);
      }
      assert lines[..i + 1] == lines[..i] + [lines[i]];
      CleanSnoc(lines[..i], lines[i]);
    }
    assert lines[..|lines|] == lines;
    FirstValueConcat(Clean(lines), [], marker);
    assert Clean(lines) + [] == Clean(lines);
    value := "";
  }

  lemma OneMoreLine(parse: ParseFloat, lines: seq<string>, i: nat, marker: string)
    requires i < |lines| && marker != ""
    ensures LastQty(parse, Clean(lines[..i + 1]), marker, ZERO)
      == QtyStep(parse, LastQty(parse, Clean(lines[..i]), marker, ZERO), TrimSpace(lines[i]), marker)
  {
    hide FirstField, TrimSpace, Clean;
    assert lines[..i + 1] == lines[..i] + [lines[i]];
    CleanSnoc(lines[..i], lines[i]);
    LastQtyConcat(parse, Clean(lines[..i]), CleanLine(lines[i]), marker, ZERO);
  }

  lemma NoLines(parse: ParseFloat, marker: string)
    ensures LastQty(parse, Clean([]), marker, ZERO) == ZERO
  {
  }

  /** ExtractCustomerDecisionQuantities and ExtractAccordDecisionQuantities share this loop. */
  method ExtractQuantities(parse: ParseFloat, remarks: string, acceptedMarker: string, returnedMarker: string)
    returns (accepted: Float, returned: Float)
    requires acceptedMarker != "" && returnedMarker != ""
    requires forall line :: !(HasPrefix(line, acceptedMarker) && HasPrefix(line, returnedMarker))
    ensures accepted == LastQty(parse, LinesOf(remarks), acceptedMarker, ZERO)
    ensures returned == LastQty(parse, LinesOf(remarks), returnedMarker, ZERO)
  {
    hide FirstField, TrimSpace, LastQty, Clean;
    var lines := RawLines(remarks);
    accepted, returned := ZERO, ZERO;
    NoLines(parse, acceptedMarker);
    NoLines(parse, returnedMarker);
    assert lines[..0] == [];
    for i := 0 to |lines|
      invariant accepted == LastQty(parse, Clean(lines[..i]), acceptedMarker, ZERO)
      invariant returned == LastQty(parse, Clean(lines[..i]), returnedMarker, ZERO)
    {
      OneMoreLine(parse, lines, i, acceptedMarker);
      OneMoreLine(parse, lines, i, returnedMarker);
      var trimmed := TrimSpace(lines[i]);
      if HasPrefix(trimmed, acceptedMarker) {
        var field := FirstField(TrimSpace(trimmed[|acceptedMarker|..]));
        if field != "" {
          accepted := parse(field);
        }
      } else if HasPrefix(trimmed, returnedMarker) {
        var field := FirstField(TrimSpace(trimmed[|returnedMarker|..]));
        if field != "" {
          returned := parse(field);
        }
      }
    }
    assert lines[..|lines|] == lines;
  }
}
