/** What each mode of a customer's response does (internal/core/service.go:1943-2036,
    2123-2293): when it is taken, and what the note, its returns and the shown quantities
    are afterwards, in terms of the request and the note before. */
module DeliveryModes {
  import opened Text
  import opened Lines
  import opened Quantity
  import opened Remarks
  import opened RemarksCodec
  import opened RemarksReadBack
  import opened RemarksAnswers
  import opened Delivery

  // ----- what a request asks for -----

  predicate AcceptsAll(req: Request) {
    TrimSpace(req.mode) == "accept_all" || (TrimSpace(req.mode) == "" && req.approve == Some(true))
  }

  predicate RejectsAll(req: Request) {
    TrimSpace(req.mode) == "reject_all" || (TrimSpace(req.mode) == "" && req.approve == Some(false))
  }

  predicate AcceptsPart(req: Request) {
    TrimSpace(req.mode) == "accept_partial"
  }

  predicate Claims(req: Request) {
    TrimSpace(req.mode) == "claim_after_accept"
  }

  /** A reason or a comment of three runes or more. */
  predicate GivesReason(req: Request) {
    |TrimSpace(req.reason)| >= 3 || |TrimSpace(req.comment)| >= 3
  }

  /** Two parts of the quantity sent, of which one may be left out. */
  predicate PartsFit(req: Request, sent: real) {
    || (req.accepted > 0.0 && req.returned > 0.0 && -0.0001 <= req.accepted + req.returned - sent <= 0.0001)
    || (0.0 < req.accepted < sent && req.returned <= 0.0)
    || (req.accepted <= 0.0 && 0.0 < req.returned < sent)
  }

  /** The accepted part of a partial acceptance. */
  function AcceptedPart(req: Request, sent: real): real {
    if req.accepted > 0.0 then req.accepted else sent - req.returned
  }

  function ReturnedPart(req: Request, sent: real): real {
    if req.returned > 0.0 then req.returned else sent - req.accepted
  }

  predicate AboutAll(returned: real, sent: real) {
    -0.0001 <= returned - sent <= 0.0001
  }

  /** The customer's own note, of a positive quantity. */
  predicate Own(e: Erp, ref: string) {
    TrimSpace(e.note.customer) == TrimSpace(ref) && e.note.qty > 0.0
  }

  // ----- statuses -----

  /** A status in terms of the document and the two numbers stored with it, a blank or
      unreadable number counting as zero and one. */
  lemma StatusMeans(n: Note)
    ensures StatusOf(n) == Draft <==> n.docStatus != 1
    ensures var flow, state := ParseAccordInt(n.flowState, 0), ParseAccordInt(n.customerState, 1);
      && (StatusOf(n) == Accepted <==> n.docStatus == 1 && flow == 1 && state == 3)
      && (StatusOf(n) == Partial <==> n.docStatus == 1 && flow == 1 && state == 4)
      && (StatusOf(n) == Rejected <==> n.docStatus == 1 && flow == 1 && state == 2)
      && (StatusOf(n) == Pending <==> n.docStatus == 1 && (flow != 1 || state !in {2, 3, 4}))
  {
    hide ParseAccordInt;
  }

  /** A stored number: blank or no numeral in 64 bits, which counts as the fallback, or the
      value of its digits with its sign. */
  lemma StoredNumber(raw: string, fallback: int)
    ensures TrimSpace(raw) == "" ==> ParseAccordInt(raw, fallback) == fallback
    ensures forall digits: string :: digits != "" && AllDigits(digits) ==>
      && (TrimSpace(raw) == digits && NatOf(digits) < 0x8000_0000_0000_0000 ==> ParseAccordInt(raw, fallback) == NatOf(digits))
      && (TrimSpace(raw) == "+" + digits && NatOf(digits) < 0x8000_0000_0000_0000 ==> ParseAccordInt(raw, fallback) == NatOf(digits))
      && (TrimSpace(raw) == "-" + digits && NatOf(digits) <= 0x8000_0000_0000_0000 ==> ParseAccordInt(raw, fallback) == -(NatOf(digits) as int))
      && (TrimSpace(raw) == digits && NatOf(digits) >= 0x8000_0000_0000_0000 ==> ParseAccordInt(raw, fallback) == fallback)
      && (TrimSpace(raw) == "-" + digits && NatOf(digits) > 0x8000_0000_0000_0000 ==> ParseAccordInt(raw, fallback) == fallback)
    ensures (forall digits: string :: digits != "" && AllDigits(digits) ==> TrimSpace(raw) !in [digits, "+" + digits, "-" + digits]) ==>
      ParseAccordInt(raw, fallback) == fallback
  {
    hide TrimSpace, NatOf;
    var value := TrimSpace(raw);
    forall digits: string | digits != "" && AllDigits(digits)
      ensures !(digits[0] == '-' || digits[0] == '+') && ("+" + digits)[1..] == digits && ("-" + digits)[1..] == digits
    {
      assert IsDigit(digits[0]);
    }
    if value != "" {
      var rest := value[1..];
      assert value == [value[0]] + rest;
      assert "+" == ['+'] && "-" == ['-'];
    }
  }

  // ----- when a response is taken -----

  /** Each mode with its status, its reason and its quantities. */
  predicate IsTaken(req: Request, n: Note) {
    || (AcceptsAll(req) && StatusOf(n) == Pending)
    || (RejectsAll(req) && StatusOf(n) == Pending && GivesReason(req))
    || (AcceptsPart(req) && StatusOf(n) == Pending && GivesReason(req) && PartsFit(req, n.qty))
    || (Claims(req) && StatusOf(n) == Accepted && GivesReason(req) && 0.0 < req.returned <= n.qty + 0.0001)
  }

  /** For each mode, exactly when it is taken. */
  lemma {:induction false} TakenIff(e: Erp, ref: string, req: Request)
    ensures Respond(e, ref, req).Ok? <==> Own(e, ref) && IsTaken(req, e.note)
  {
    hide StatusOf, TrimSpace;
    TrimIdempotent(req.reason);
    TrimIdempotent(req.comment);
    ModesDiffer();
  }

  lemma ModesDiffer()
    ensures var modes := ["accept_all", "reject_all", "accept_partial", "claim_after_accept", ""];
      forall i, j :: 0 <= i < j < 5 ==> modes[i] != modes[j]
  {
    assert "accept_all"[0] == 'a' && "reject_all"[0] == 'r' && |"accept_all"| == |"reject_all"| == 10;
  }

  // ----- what a response leaves -----

  /** The fields of a recorded response: the customer's state, the reason and the comment in
      one text, who acted, and what the user interface shows. */
  predicate Stamped(n: Note, state: string, shown: string, req: Request) {
    var reason, comment := TrimSpace(req.reason), TrimSpace(req.comment);
    && n.flowState == "1" && n.customerState == state && n.deliveryActor == "1" && n.uiStatus == shown
    && (comment == "" ==> n.customerReason == reason) && (reason == "" ==> n.customerReason == comment)
    && (reason != "" && comment != "" ==> n.customerReason == reason + ". " + comment)
  }

  /** What stays: all that a response does not write. */
  predicate SameNote(before: Note, after: Note) {
    && after.customer == before.customer && after.docStatus == before.docStatus
    && after.qty == before.qty && after.uom == before.uom
  }

  lemma DigitTexts()
    ensures Decimal(1) == "1" && Decimal(2) == "2" && Decimal(3) == "3" && Decimal(4) == "4"
  {
  }

  lemma JoinedIsTrimmed(r: string, c: string)
    requires Trimmed(r) && Trimmed(c) && r != "" && c != ""
    ensures TrimSpace(r + ". " + c) == r + ". " + c
  {
    hide IsSpace;
    var t := r + ". " + c;
    assert t[0] == r[0] && t[|t| - 1] == c[|c| - 1];
    TrimmedIsFixed(t);
  }

  lemma ReasonText(reason: string, comment: string)
    requires Trimmed(reason) && Trimmed(comment)
    ensures TrimSpace(CombinedReason(reason, comment))
      == if reason == "" then comment else if comment == "" then reason else reason + ". " + comment
  {
    hide TrimSpace, IsSpace;
    TrimmedIsFixed(reason);
    TrimmedIsFixed(comment);
    if reason != "" && comment != "" { JoinedIsTrimmed(reason, comment); }
  }

  lemma TrimmedTexts(req: Request)
    ensures Trimmed(TrimSpace(req.reason)) && Trimmed(TrimSpace(req.comment))
  {
    hide TrimSpace, IsSpace;
    var l, r := TrimSpaceDecomposes(req.reason);
    l, r := TrimSpaceDecomposes(req.comment);
  }

  lemma RecordedIsStamped(e: Erp, req: Request, d: Decision)
    requires d.reason == TrimSpace(req.reason) && d.comment == TrimSpace(req.comment) && 1 <= d.state <= 4
    ensures var after := Recorded(e, d).note;
      && SameNote(e.note, after)
      && Stamped(after, if d.state == 3 then "3" else if d.state == 2 then "2" else if d.state == 4 then "4" else "1",
                 if d.state == 3 then "confirm" else if d.state == 2 then "rejected" else if d.state == 4 then "partial" else "pending", req)
  {
    hide TrimSpace, Apply, Decimal, CombinedReason, UpdateOf, Trimmed;
    DigitTexts();
    TrimmedTexts(req);
    ReasonText(d.reason, d.comment);
  }

  // ----- the four modes -----

  /** Accepting all: accepted, no return, the whole quantity shown as accepted. */
  lemma {:induction false} AcceptAllEffect(e: Erp, ref: string, req: Request)
    requires Own(e, ref) && AcceptsAll(req) && StatusOf(e.note) == Pending
    ensures Respond(e, ref, req).Ok?
    ensures var after := After(e, ref, req);
      && StatusOf(after.note) == Accepted
      && after.returnNotes == e.returnNotes && after.note.returnedQty == e.note.returnedQty
      && Stamped(after.note, "3", "confirm", req) && SameNote(e.note, after.note)
  {
    hide StatusOf, TrimSpace, Recorded, Stamped;
    ModesDiffer();
    var d := Decision(3, e.note.qty, 0.0, TrimSpace(req.reason), TrimSpace(req.comment));
    assert Decide(req, e.note) == Ok(d);
    RecordedIsStamped(e, req, d);
    RecordedMeans(e, d);
    DecisionIsSound(req, e.note);
  }

  /** What recording a decision does to returns and status. */
  lemma RecordedMeans(e: Erp, d: Decision)
    requires 1 <= d.state <= 4
    ensures var after := Recorded(e, d);
      && (e.note.docStatus == 1 ==>
            StatusOf(after.note) == if d.state == 2 then Rejected else if d.state == 3 then Accepted else if d.state == 4 then Partial else Pending)
      && (d.returned <= 0.0 ==> after.returnNotes == e.returnNotes && after.note.returnedQty == e.note.returnedQty)
      && (d.returned > 0.0 ==>
            var taken := if AboutAll(d.returned, e.note.qty) then e.note.qty else d.returned;
            after.returnNotes == e.returnNotes + [taken] && after.note.returnedQty == e.note.returnedQty + taken)
  {
    hide StatusOf, TrimSpace, Apply, CombinedReason, UpdateOf;
    if e.note.docStatus == 1 {
      RecordedStatus(WithRemarks(WithReturn(e, d.returned).note, Apply(e.note.remarks, UpdateOf(d, e.note.uom))), d);
    }
  }

  /** Rejecting all: rejected, one return of the whole quantity. */
  lemma {:induction false} RejectAllEffect(e: Erp, ref: string, req: Request)
    requires Own(e, ref) && RejectsAll(req) && StatusOf(e.note) == Pending && GivesReason(req)
    ensures Respond(e, ref, req).Ok?
    ensures var after := After(e, ref, req);
      && StatusOf(after.note) == Rejected
      && after.returnNotes == e.returnNotes + [e.note.qty] && after.note.returnedQty == e.note.returnedQty + e.note.qty
      && Stamped(after.note, "2", "rejected", req) && SameNote(e.note, after.note)
  {
    hide StatusOf, TrimSpace, Recorded, Stamped;
    ModesDiffer();
    TrimIdempotent(req.reason);
    TrimIdempotent(req.comment);
    var d := Decision(2, 0.0, e.note.qty, TrimSpace(req.reason), TrimSpace(req.comment));
    assert Decide(req, e.note) == Ok(d);
    RecordedIsStamped(e, req, d);
    RecordedMeans(e, d);
    DecisionIsSound(req, e.note);
  }

  /** Accepting a part: partial, one return of the other part. */
  lemma {:induction false} AcceptPartEffect(e: Erp, ref: string, req: Request)
    requires Own(e, ref) && AcceptsPart(req) && StatusOf(e.note) == Pending && GivesReason(req) && PartsFit(req, e.note.qty)
    ensures Respond(e, ref, req).Ok?
    ensures var after := After(e, ref, req);
      var taken := if AboutAll(ReturnedPart(req, e.note.qty), e.note.qty) then e.note.qty else ReturnedPart(req, e.note.qty);
      && StatusOf(after.note) == Partial
      && after.returnNotes == e.returnNotes + [taken] && after.note.returnedQty == e.note.returnedQty + taken
      && Stamped(after.note, "4", "partial", req) && SameNote(e.note, after.note)
  {
    hide StatusOf, TrimSpace, Recorded, Stamped;
    ModesDiffer();
    TrimIdempotent(req.reason);
    TrimIdempotent(req.comment);
    var d := Decision(4, AcceptedPart(req, e.note.qty), ReturnedPart(req, e.note.qty), TrimSpace(req.reason), TrimSpace(req.comment));
    assert Decide(req, e.note) == Ok(d);
    RecordedIsStamped(e, req, d);
    RecordedMeans(e, d);
    DecisionIsSound(req, e.note);
  }

  /** Claiming after an acceptance: a claim of all rejects the note, any other makes it
      partial, each with one return. */
  lemma {:induction false} ClaimEffect(e: Erp, ref: string, req: Request)
    requires Own(e, ref) && Claims(req) && StatusOf(e.note) == Accepted && GivesReason(req)
    requires 0.0 < req.returned <= e.note.qty + 0.0001
    ensures Respond(e, ref, req).Ok?
    ensures var after := After(e, ref, req); var all := AboutAll(req.returned, e.note.qty);
      var taken := if all then e.note.qty else req.returned;
      && StatusOf(after.note) == (if all then Rejected else Partial)
      && after.returnNotes == e.returnNotes + [taken] && after.note.returnedQty == e.note.returnedQty + taken
      && Stamped(after.note, if all then "2" else "4", if all then "rejected" else "partial", req) && SameNote(e.note, after.note)
  {
    hide StatusOf, TrimSpace, Recorded, Stamped;
    ModesDiffer();
    TrimIdempotent(req.reason);
    TrimIdempotent(req.comment);
    var all, qty := AboutAll(req.returned, e.note.qty), e.note.qty;
    var d := Decision(if all then 2 else 4, if all then 0.0 else qty - req.returned, if all then qty else req.returned,
                      TrimSpace(req.reason), TrimSpace(req.comment));
    assert Decide(req, e.note) == Ok(d);
    RecordedIsStamped(e, req, d);
    RecordedMeans(e, d);
    DecisionIsSound(req, e.note);
  }

  // ----- the quantities shown afterwards -----

  predicate Near(shown: Float, quantity: real, bound: real) {
    shown.Finite? && -bound <= shown.value - quantity <= bound
  }

  /** The two quantities, each within the bound. */
  predicate NearBoth(shown: (Float, Float), accepted: real, returned: real, bound: real) {
    Near(shown.0, accepted, bound) && Near(shown.1, returned, bound)
  }

  /** What is shown for any note, from the two numbers read in its remarks: a number that is
      missing or not positive gives way to what ERP or the quantity sent implies. */
  lemma ShownMeans(parse: ParseFloat, n: Note)
    ensures var (accepted, noted) := CustomerQuantities(parse, n.remarks); var shown := Shown(parse, n);
      && (StatusOf(n) == Accepted && Positive(accepted) ==> shown == (accepted, Finite(0.0)))
      && (StatusOf(n) == Accepted && AtMostZero(accepted) ==> shown == (Finite(n.qty), Finite(0.0)))
      && (StatusOf(n) == Accepted && accepted == Finite(0.0) ==> shown == (Finite(n.qty), Finite(0.0)))
      && (StatusOf(n) == Rejected ==> shown == (Finite(0.0), Finite(n.qty)))
      && (StatusOf(n) == Partial && noted == Finite(0.0) && n.returnedQty > 0.0 ==> shown.1 == Finite(n.returnedQty))
      && (StatusOf(n) == Partial && Positive(accepted) && Positive(noted) ==> shown == (accepted, noted))
      && (StatusOf(n) == Partial && accepted.Finite? && accepted.value > 0.0 && AtMostZero(noted) && n.returnedQty <= 0.0 ==>
            shown == (accepted, Finite(if n.qty - accepted.value > 0.0 then n.qty - accepted.value else 0.0)))
      && (StatusOf(n) == Partial && noted.Finite? && noted.value > 0.0 && AtMostZero(accepted) && noted.value < n.qty ==>
            shown == (Finite(n.qty - noted.value), noted))
      && (StatusOf(n) == Partial && Positive(accepted) && AtMostZero(noted) && n.returnedQty > 0.0 ==> shown == (accepted, Finite(n.returnedQty)))
      && (StatusOf(n) in {Draft, Pending} && (Positive(noted) || n.returnedQty <= 0.0) ==> shown == (accepted, noted))
      && (StatusOf(n) in {Draft, Pending} && AtMostZero(noted) && n.returnedQty > 0.0 ==> shown == (accepted, Finite(n.returnedQty)))
  {
    hide StatusOf, CustomerQuantities;
  }

  /** What is shown for a note that holds a decision as it was written, without an earlier
      ERP returned quantity. */
  lemma ShownDecision(parse: ParseFloat, n: Note, d: Decision)
    requires SoundDecision(d, n) && CustomerQuantities(parse, n.remarks) == Written(UpdateOf(d, n.uom))
    requires n.returnedQty == 0.0 || (d.state != STATE_CONFIRMED && n.returnedQty == Taken(d.returned, n.qty))
    ensures var shown := DecisionQuantities(parse, n, StatusOfState(d.state));
      && (d.state == 3 ==> NearBoth(shown, n.qty, 0.0, 0.00005))
      && (d.state == 2 ==> shown == (Finite(0.0), Finite(n.qty)))
      && (d.state == 4 ==> NearBoth(shown, d.accepted, d.returned, 0.0002))
  {
    hide CustomerQuantities, Rounded;
    RoundedError(d.accepted);
    RoundedError(d.returned);
  }

  /** The note as reported and as stored both hold the decision as it was written. */
  lemma BothHold(parse: ParseFloat, e: Erp, d: Decision)
    requires ReadsPrinted(parse) && SoundDecision(d, e.note) && e.note.docStatus == 1 && e.note.returnedQty == 0.0
    requires Quiet(parse, UpdateOf(d, e.note.uom))
    ensures var n := Reported(e, d);
      && n.qty == e.note.qty && n.uom == e.note.uom && n.returnedQty == 0.0 && StatusOf(n) == StatusOfState(d.state)
      && CustomerQuantities(parse, n.remarks) == Written(UpdateOf(d, e.note.uom))
    ensures var n := Recorded(e, d).note;
      && n.qty == e.note.qty && n.uom == e.note.uom && StatusOf(n) == StatusOfState(d.state)
      && (n.returnedQty == 0.0 || (d.state != STATE_CONFIRMED && n.returnedQty == Taken(d.returned, n.qty)))
      && CustomerQuantities(parse, n.remarks) == Written(UpdateOf(d, e.note.uom))
  {
    hide StatusOf, TrimSpace, Apply, CombinedReason, Written, Quiet, StateLabel, LinesOf, ReadsPrinted, CustomerQuantities, WithRemarks;
    var u := UpdateOf(d, e.note.uom);
    var text := Apply(e.note.remarks, u);
    QuantitiesReadBackIff(parse, e.note.remarks, u);
    RecordedStatus(e.note.(remarks := text), d);
    var taken := WithReturn(e, d.returned).note;
    SameQuantities(parse, taken, text);
    SameBut(taken, text);
    RecordedStatus(WithRemarks(taken, text), d);
  }

  lemma SameBut(n: Note, text: string)
    ensures WithRemarks(n, text) == n.(remarks := WithRemarks(n, text).remarks)
  {
  }

  /** Shown for the stored note and reported by the response itself. */
  ghost predicate ShownAs(parse: ParseFloat, e: Erp, d: Decision, accepted: real, returned: real, bound: real) {
    && NearBoth(Shown(parse, Recorded(e, d).note), accepted, returned, bound)
    && NearBoth(Shown(parse, Reported(e, d)), accepted, returned, bound)
  }

  lemma {:induction false} ShownAfter(parse: ParseFloat, e: Erp, d: Decision)
    requires ReadsPrinted(parse) && SoundDecision(d, e.note) && e.note.docStatus == 1 && e.note.returnedQty == 0.0
    requires Quiet(parse, UpdateOf(d, e.note.uom))
    ensures d.state == 3 ==> ShownAs(parse, e, d, e.note.qty, 0.0, 0.00005)
    ensures d.state == 2 ==> ShownAs(parse, e, d, 0.0, e.note.qty, 0.0)
    ensures d.state == 4 ==> ShownAs(parse, e, d, d.accepted, d.returned, 0.0002)
  {
    hide StatusOf, Recorded, Reported, UpdateOf, Written, Quiet, CustomerQuantities, DecisionQuantities, ReadsPrinted;
    BothHold(parse, e, d);
    SameUpdate(e.note, Reported(e, d), d);
    SameUpdate(e.note, Recorded(e, d).note, d);
    ShownDecision(parse, Reported(e, d), d);
    ShownDecision(parse, Recorded(e, d).note, d);
  }

  lemma SameUpdate(n: Note, m: Note, d: Decision)
    requires n.uom == m.uom && n.qty == m.qty
    ensures UpdateOf(d, n.uom) == UpdateOf(d, m.uom) && (SoundDecision(d, n) <==> SoundDecision(d, m))
  {
  }

  /** After a response none of whose later lines changes a quantity, to a note with no
      earlier ERP returned quantity, both the stored and the reported quantities are those
      asked for, within the rounding of four decimals. */
  lemma {:induction false} ShownEffect(parse: ParseFloat, e: Erp, ref: string, req: Request)
    requires ReadsPrinted(parse) && Respond(e, ref, req).Ok? && QuietResponse(parse, e, ref, req) && e.note.returnedQty == 0.0
    ensures var d := Respond(e, ref, req).value; var qty := e.note.qty;
      && (AcceptsAll(req) ==> ShownAs(parse, e, d, qty, 0.0, 0.00005))
      && (RejectsAll(req) ==> ShownAs(parse, e, d, 0.0, qty, 0.0))
      && (AcceptsPart(req) ==> ShownAs(parse, e, d, AcceptedPart(req, qty), ReturnedPart(req, qty), 0.0002))
      && (Claims(req) && AboutAll(req.returned, qty) ==> ShownAs(parse, e, d, 0.0, qty, 0.0))
      && (Claims(req) && !AboutAll(req.returned, qty) ==> ShownAs(parse, e, d, qty - req.returned, req.returned, 0.0002))
  {
    hide StatusOf, TrimSpace, ShownAs, Quiet, UpdateOf, ReadsPrinted;
    var d := Respond(e, ref, req).value;
    DecisionIsSound(req, e.note);
    ShownAfter(parse, e, d);
    DecisionOf(req, e.note);
  }

  /** The decision itself, mode by mode. */
  lemma DecisionOf(req: Request, n: Note)
    requires Decide(req, n).Ok?
    ensures var d := Decide(req, n).value;
      && (AcceptsAll(req) ==> d.state == 3 && d.accepted == n.qty && d.returned == 0.0)
      && (RejectsAll(req) ==> d.state == 2 && d.accepted == 0.0 && d.returned == n.qty)
      && (AcceptsPart(req) ==> d.state == 4 && d.accepted == AcceptedPart(req, n.qty) && d.returned == ReturnedPart(req, n.qty))
      && (Claims(req) && AboutAll(req.returned, n.qty) ==> d.state == 2 && d.accepted == 0.0 && d.returned == n.qty)
      && (Claims(req) && !AboutAll(req.returned, n.qty) ==> d.state == 4 && d.accepted == n.qty - req.returned && d.returned == req.returned)
  {
    hide StatusOf, TrimSpace;
    ModesDiffer();
  }

  /** What the remarks say afterwards, for any texts: the state in words. */
  lemma {:induction false} StateIsWritten(e: Erp, ref: string, req: Request)
    requires Respond(e, ref, req).Ok?
    ensures CustomerState(After(e, ref, req).note.remarks)
      == match StatusOf(After(e, ref, req).note) case Accepted => "confirmed" case Partial => "partial" case _ => "rejected"
  {
    hide StatusOf, TrimSpace, Apply, CombinedReason, LinesOf, FirstValue, NormalizeCustomerState, Decide, WithRemarks;
    var d := Respond(e, ref, req).value;
    DecisionIsSound(req, e.note);
    var u := UpdateOf(d, e.note.uom);
    var text := Apply(e.note.remarks, u);
    var taken := WithReturn(e, d.returned).note;
    LabelStays(d.state);
    StateReadsBackIff(e.note.remarks, u);
    StoredLines(taken, text);
    RecordedMeans(e, d);
  }

  lemma LabelStays(state: int)
    requires state in {STATE_CONFIRMED, STATE_PARTIAL, STATE_REJECTED}
    ensures NormalizeCustomerState(StateLabel(state)) != ""
    ensures NormalizeCustomerState(StateLabel(state)) == if state == 3 then "confirmed" else if state == 4 then "partial" else "rejected"
  {
    hide TrimSpace, ToLower;
    LowerWords();
    TrimmedIsFixed("confirmed");
    TrimmedIsFixed("partial");
    TrimmedIsFixed("rejected");
  }
}
