/** The customer's response to a delivery note
    (internal/core/service.go:1943-2036, 2123-2293, 2973-2997): a decision is checked,
    a return is created, the decision is stored in the remarks and in the state
    fields, and later read back as the accepted and returned quantities. */
module Delivery {
  import opened Text
  import opened Lines
  import opened Quantity
  import opened Remarks
  import opened RemarksCodec
  import opened RemarksReadBack
  import opened RemarksTexts
  import opened RemarksAnswers

  // ----- the note -----

  /** The fields of a delivery note the workflow reads and writes. */
  datatype Note = Note(
    customer: string, docStatus: int, remarks: string,
    flowState: string, customerState: string, customerReason: string, deliveryActor: string, uiStatus: string,
    qty: real, returnedQty: real, uom: string)

  const FLOW_NONE: int := 0
  const FLOW_SUBMITTED: int := 1
  const STATE_PENDING: int := 1
  const STATE_REJECTED: int := 2
  const STATE_CONFIRMED: int := 3
  const STATE_PARTIAL: int := 4
  const ACTOR_WERKA: int := 1
  const MIN_REASON_RUNES: nat := 3
  const INT_MAX: int := 0x7FFF_FFFF_FFFF_FFFF

  /** strconv.Atoi */
  function Atoi(s: string): Option<int> {
    var negative := s != "" && s[0] == '-';
    var digits := if s != "" && (s[0] == '-' || s[0] == '+') then s[1..] else s;
    if digits == "" || !AllDigits(digits) then None
    else
      var n: int := if negative then -(NatOf(digits) as int) else NatOf(digits);
      if -INT_MAX - 1 <= n <= INT_MAX then Some(n) else None
  }

  function ParseAccordInt(raw: string, fallback: int): int {
    var value := TrimSpace(raw);
    if value == "" then fallback
    else match Atoi(value) case None => fallback case Some(n) => n
  }

  datatype Status = Draft | Pending | Accepted | Partial | Rejected

  /** customerDeliveryStatus */
  function StatusOf(n: Note): Status {
    if n.docStatus != 1 then Draft
    else if ParseAccordInt(n.flowState, FLOW_NONE) != FLOW_SUBMITTED then Pending
    else
      var state := ParseAccordInt(n.customerState, STATE_PENDING);
      if state == STATE_REJECTED then Rejected
      else if state == STATE_CONFIRMED then Accepted
      else if state == STATE_PARTIAL then Partial
      else Pending
  }

  // ----- requests and decisions -----

  datatype Request = Request(mode: string, approve: Option<bool>, accepted: real, returned: real, reason: string, comment: string)

  datatype Error = Unauthorized | InvalidInput | NotPending | CannotClaim(status: Status)

  datatype Decision = Decision(state: int, accepted: real, returned: real, reason: string, comment: string)

  const ACCEPT_ALL: string := "accept_all"
  const ACCEPT_PARTIAL: string := "accept_partial"
  const REJECT_ALL: string := "reject_all"
  const CLAIM: string := "claim_after_accept"

  function ModeOf(req: Request): string {
    var mode := TrimSpace(req.mode);
    if mode == "" && req.approve.Some? then
      if req.approve.value then ACCEPT_ALL else REJECT_ALL
    else mode
  }

  function Abs(x: real): real { if x < 0.0 then -x else x }

  predicate NearlyEqual(a: real, b: real) {
    Abs(a - b) <= TOLERANCE
  }

  predicate MeaningfulReason(reason: string, comment: string) {
    |TrimSpace(reason)| >= MIN_REASON_RUNES || |TrimSpace(comment)| >= MIN_REASON_RUNES
  }

  /** normalizePartialQuantities */
  function PartialQuantities(sent: real, accepted: real, returned: real): Result<(real, real), Error> {
    if accepted <= 0.0 && returned <= 0.0 then Err(InvalidInput)
    else
      var r := if accepted > 0.0 && returned <= 0.0 then sent - accepted else returned;
      var a := if accepted <= 0.0 then sent - returned else accepted;
      if a <= 0.0 || r <= 0.0 || Abs(a + r - sent) > TOLERANCE then Err(InvalidInput) else Ok((a, r))
  }

  /** normalizeCustomerDeliveryDecision */
  function Decide(req: Request, n: Note): Result<Decision, Error> {
    var mode := ModeOf(req);
    var reason, comment := TrimSpace(req.reason), TrimSpace(req.comment);
    if n.qty <= 0.0 then Err(InvalidInput)
    else if mode == ACCEPT_ALL then
      if StatusOf(n) != Pending then Err(NotPending)
      else Ok(Decision(STATE_CONFIRMED, n.qty, 0.0, reason, comment))
    else if mode == REJECT_ALL then
      if StatusOf(n) != Pending then Err(NotPending)
      else if !MeaningfulReason(reason, comment) then Err(InvalidInput)
      else Ok(Decision(STATE_REJECTED, 0.0, n.qty, reason, comment))
    else if mode == ACCEPT_PARTIAL then
      if StatusOf(n) != Pending then Err(NotPending)
      else if !MeaningfulReason(reason, comment) then Err(InvalidInput)
      else
        match PartialQuantities(n.qty, req.accepted, req.returned)
        case Err(e) => Err(e)
        case Ok((a, r)) => Ok(Decision(STATE_PARTIAL, a, r, reason, comment))
    else if mode == CLAIM then
      if StatusOf(n) != Accepted then Err(CannotClaim(StatusOf(n)))
      else if !MeaningfulReason(reason, comment) then Err(InvalidInput)
      else if req.returned <= 0.0 || req.returned > n.qty + TOLERANCE then Err(InvalidInput)
      else if NearlyEqual(req.returned, n.qty) then Ok(Decision(STATE_REJECTED, 0.0, n.qty, reason, comment))
      else Ok(Decision(STATE_PARTIAL, n.qty - req.returned, req.returned, reason, comment))
    else Err(InvalidInput)
  }

  function StateLabel(state: int): string {
    if state == STATE_CONFIRMED then "confirmed"
    else if state == STATE_REJECTED then "rejected"
    else if state == STATE_PARTIAL then "partial"
    else "pending"
  }

  function UIStatus(flow: int, state: int): string {
    if flow != FLOW_SUBMITTED then "pending"
    else if state == STATE_CONFIRMED then "confirm"
    else if state == STATE_PARTIAL then "partial"
    else if state == STATE_REJECTED then "rejected"
    else "pending"
  }

  function CombinedReason(reason: string, comment: string): string {
    var r, c := TrimSpace(reason), TrimSpace(comment);
    if r == "" then c else if c == "" then r else r + ". " + c
  }

  function UpdateOf(d: Decision, uom: string): Update {
    CustomerDecision(StateLabel(d.state), d.reason, d.accepted, d.returned, uom, d.comment)
  }

  // ----- the ERP: one note and the returns made against it -----

  datatype Erp = Erp(note: Note, returnNotes: seq<real>)

  /** The quantity the ERP takes back: a full return takes the note's quantity, and
      the note's returned quantity grows by what was taken. */
  function WithReturn(e: Erp, returned: real): Erp {
    if returned <= 0.0 then e
    else
      var taken := if NearlyEqual(returned, e.note.qty) then e.note.qty else returned;
      Erp(e.note.(returnedQty := e.note.returnedQty + taken), e.returnNotes + [taken])
  }

  function WithRemarks(n: Note, remarks: string): Note {
    if remarks != TrimSpace(n.remarks) then n.(remarks := TrimSpace(remarks)) else n
  }

  function WithState(n: Note, d: Decision): Note {
    n.(flowState := Decimal(FLOW_SUBMITTED),
       customerState := Decimal(if d.state < 0 then 0 else d.state),
       customerReason := TrimSpace(CombinedReason(d.reason, d.comment)),
       deliveryActor := Decimal(ACTOR_WERKA),
       uiStatus := UIStatus(FLOW_SUBMITTED, d.state))
  }

  /** What an accepted response leaves in the ERP. */
  function Recorded(e: Erp, d: Decision): Erp {
    var taken := WithReturn(e, d.returned);
    taken.(note := WithState(WithRemarks(taken.note, Apply(e.note.remarks, UpdateOf(d, e.note.uom))), d))
  }

  /** customerDecisionQuantities */
  function DecisionQuantities(parse: ParseFloat, n: Note, status: Status): (Float, Float) {
    var (accepted, noted) := CustomerQuantities(parse, n.remarks);
    var returned := if AtMostZero(noted) && n.returnedQty > 0.0 then Finite(n.returnedQty) else noted;
    match status
    case Accepted => (if AtMostZero(accepted) then Finite(n.qty) else accepted, ZERO)
    case Partial =>
      var a := if AtMostZero(accepted) && Positive(returned) then OrZero(Minus(Finite(n.qty), returned)) else accepted;
      var r := if AtMostZero(returned) && Positive(a) then OrZero(Minus(Finite(n.qty), a)) else returned;
      (a, r)
    case Rejected => (ZERO, Finite(n.qty))
    case _ => (accepted, returned)
  }

  /** The quantities a user is shown for a note. */
  function Shown(parse: ParseFloat, n: Note): (Float, Float) {
    DecisionQuantities(parse, n, StatusOf(n))
  }

  /** What the response itself reports: the note as read, with the new remarks and
      state but the returned quantity of before. */
  function Reported(e: Erp, d: Decision): Note {
    WithState(e.note, d).(remarks := Apply(e.note.remarks, UpdateOf(d, e.note.uom)))
  }

  function Respond(e: Erp, ref: string, req: Request): Result<Decision, Error> {
    if TrimSpace(e.note.customer) != TrimSpace(ref) then Err(Unauthorized) else Decide(req, e.note)
  }

  function After(e: Erp, ref: string, req: Request): Erp {
    match Respond(e, ref, req)
    case Err(_) => e
    case Ok(d) => Recorded(e, d)
  }

  /** The response as the source runs it: reads, return, remarks, state, in that order. */
  class DeliveryDesk {
    var erp: Erp

    constructor (e: Erp)
      ensures erp == e
    {
      erp := e;
    }

    method CreateReturn(returned: real)
      modifies this
      ensures erp == WithReturn(old(erp), returned)
    {
      if returned > 0.0 {
        var taken := returned;
        if NearlyEqual(returned, erp.note.qty) {
          taken := erp.note.qty;
        }
        erp := Erp(erp.note.(returnedQty := erp.note.returnedQty + taken), erp.returnNotes + [taken]);
      }
    }

    method CustomerRespondDelivery(parse: ParseFloat, ref: string, req: Request) returns (outcome: Result<(Status, Float, Float), Error>)
      modifies this
      ensures erp == After(old(erp), ref, req)
      ensures Respond(old(erp), ref, req).Err? ==> outcome == Err(Respond(old(erp), ref, req).error)
      ensures Respond(old(erp), ref, req).Ok? ==>
        var draft := Reported(old(erp), Respond(old(erp), ref, req).value);
        outcome == Ok((StatusOf(draft), Shown(parse, draft).0, Shown(parse, draft).1))
    {
      var draft := erp.note;
      if TrimSpace(draft.customer) != TrimSpace(ref) {
        return Err(Unauthorized);
      }
      var decided := Decide(req, draft);
      if decided.Err? {
        return Err(decided.error);
      }
      var d := decided.value;
      CreateReturn(d.returned);
      var u := CustomerDecision(StateLabel(d.state), d.reason, d.accepted, d.returned, draft.uom, d.comment);
      var remarks := UpsertCustomerDecisionPayloadInRemarks(draft.remarks, u);
      if remarks != TrimSpace(draft.remarks) {
        erp := erp.(note := erp.note.(remarks := TrimSpace(remarks)));
      }
      erp := erp.(note := WithState(erp.note, d));
      draft := WithState(draft, d).(remarks := remarks);
      outcome := Ok((StatusOf(draft), Shown(parse, draft).0, Shown(parse, draft).1));
    }
  }

  // ----- one response -----

  lemma StateTextRoundTrip(n: nat, fallback: int)
    requires n <= INT_MAX
    ensures ParseAccordInt(Decimal(n), fallback) == n
  {
    var s := Decimal(n);
    assert IsDigit(s[0]) && IsDigit(s[|s| - 1]);
    assert Trimmed(s);
    TrimmedIsFixed(s);
    DecimalDenotes(n);
  }

  function StatusOfState(state: int): Status {
    if state == STATE_REJECTED then Rejected else if state == STATE_CONFIRMED then Accepted
    else if state == STATE_PARTIAL then Partial else Pending
  }

  lemma RecordedStatus(n: Note, d: Decision)
    requires n.docStatus == 1 && 0 <= d.state <= INT_MAX
    ensures StatusOf(WithState(n, d)) == StatusOfState(d.state)
  {
    hide ParseAccordInt, CombinedReason, Decimal;
    StateTextRoundTrip(FLOW_SUBMITTED, FLOW_NONE);
    StateTextRoundTrip(d.state, STATE_PENDING);
  }

  /** Who may follow whom: pending is decided once, an accepted note may be claimed
      once, and partial and rejected notes are final. */
  predicate Follows(before: Status, after: Status) {
    || (before == Pending && after in {Accepted, Partial, Rejected})
    || (before == Accepted && after in {Partial, Rejected})
  }

  /** What a decision may hold. */
  predicate SoundDecision(d: Decision, n: Note) {
    && n.qty > 0.0
    && d.state in {STATE_CONFIRMED, STATE_PARTIAL, STATE_REJECTED}
    && (d.state == STATE_CONFIRMED ==> d.accepted == n.qty && d.returned == 0.0)
    && (d.state == STATE_REJECTED ==> d.accepted == 0.0 && d.returned == n.qty)
    && (d.state == STATE_PARTIAL ==> d.accepted > 0.0 && d.returned > 0.0 && Abs(d.accepted + d.returned - n.qty) <= TOLERANCE)
  }

  lemma DecisionIsSound(req: Request, n: Note)
    requires Decide(req, n).Ok?
    ensures SoundDecision(Decide(req, n).value, n)
    ensures Follows(StatusOf(n), StatusOfState(Decide(req, n).value.state))
    ensures Decide(req, n).value.reason == TrimSpace(req.reason) && Decide(req, n).value.comment == TrimSpace(req.comment)
    ensures n.docStatus == 1
  {
    hide ParseAccordInt, TrimSpace, ModeOf;
  }

  /** The quantity taken back is positive and never above the quantity sent, although
      the request is only checked to the tolerance. */
  lemma TakenQuantity(e: Erp, d: Decision)
    requires SoundDecision(d, e.note)
    ensures d.state == STATE_CONFIRMED ==> WithReturn(e, d.returned) == e
    ensures d.state != STATE_CONFIRMED ==>
      var after := WithReturn(e, d.returned);
      && |after.returnNotes| == |e.returnNotes| + 1 && after.returnNotes[..|e.returnNotes|] == e.returnNotes
      && 0.0 < after.returnNotes[|e.returnNotes|] <= e.note.qty
      && after.note == e.note.(returnedQty := e.note.returnedQty + after.returnNotes[|e.returnNotes|])
  {
  }

  /** One response: refused and nothing changes, or recorded, with a return exactly
      when something comes back. */
  lemma {:induction false} StepEffect(e: Erp, ref: string, req: Request)
    ensures Respond(e, ref, req).Err? ==> After(e, ref, req) == e
    ensures Respond(e, ref, req).Ok? ==>
      var after := After(e, ref, req);
      && Follows(StatusOf(e.note), StatusOf(after.note))
      && after.note.qty == e.note.qty
      && (if StatusOf(after.note) == Accepted
          then after.returnNotes == e.returnNotes && after.note.returnedQty == e.note.returnedQty
          else && |after.returnNotes| == |e.returnNotes| + 1
               && after.returnNotes[..|e.returnNotes|] == e.returnNotes
               && 0.0 < after.returnNotes[|e.returnNotes|] <= e.note.qty
               && after.note.returnedQty == e.note.returnedQty + after.returnNotes[|e.returnNotes|])
  {
    hide Decide, StatusOf, WithReturn, TrimSpace, Apply, CombinedReason;
    if Respond(e, ref, req).Ok? {
      var d := Respond(e, ref, req).value;
      DecisionIsSound(req, e.note);
      TakenQuantity(e, d);
      RecordedStatus(WithRemarks(WithReturn(e, d.returned).note, Apply(e.note.remarks, UpdateOf(d, e.note.uom))), d);
    }
  }

  // ----- any run of responses -----

  /** Requests of any customer, in any order. */
  function RunAll(e: Erp, calls: seq<(string, Request)>): Erp
    decreases |calls|
  {
    if |calls| == 0 then e else RunAll(After(e, calls[0].0, calls[0].1), calls[1..])
  }

  /** What every reachable state satisfies: one return at most, present exactly when
      the note is partial or rejected, positive and at most the quantity sent. */
  predicate Conserved(e: Erp) {
    && |e.returnNotes| <= 1
    && (|e.returnNotes| == 1 <==> StatusOf(e.note) in {Partial, Rejected})
    && (forall i :: 0 <= i < |e.returnNotes| ==> 0.0 < e.returnNotes[i] <= e.note.qty)
  }

  predicate Fresh(e: Erp) {
    e.returnNotes == [] && StatusOf(e.note) !in {Partial, Rejected}
  }

  lemma {:induction false} RunConserves(e: Erp, calls: seq<(string, Request)>)
    requires Conserved(e)
    ensures Conserved(RunAll(e, calls)) && RunAll(e, calls).note.qty == e.note.qty
    ensures e.returnNotes <= RunAll(e, calls).returnNotes
    ensures StatusOf(RunAll(e, calls).note) == StatusOf(e.note) || Follows(StatusOf(e.note), StatusOf(RunAll(e, calls).note))
    decreases |calls|
  {
    hide StatusOf, After, Respond;
    if |calls| > 0 {
      var (ref, req) := calls[0];
      StepEffect(e, ref, req);
      RunConserves(After(e, ref, req), calls[1..]);
    }
  }

  /** In any sequence of responses to a note without returns, at most one return is
      made and it never exceeds what was sent. */
  lemma {:induction false} AtMostOneReturn(e: Erp, calls: seq<(string, Request)>)
    requires Fresh(e)
    ensures var after := RunAll(e, calls);
      && |after.returnNotes| <= 1
      && (forall i :: 0 <= i < |after.returnNotes| ==> 0.0 < after.returnNotes[i] <= e.note.qty)
      && (|after.returnNotes| == 1 <==> StatusOf(after.note) in {Partial, Rejected})
  {
    hide StatusOf;
    RunConserves(e, calls);
  }

  /** Partial and rejected notes are final: no later run changes anything. */
  lemma {:induction false} FinalIsFinal(e: Erp, calls: seq<(string, Request)>)
    requires StatusOf(e.note) in {Partial, Rejected}
    ensures RunAll(e, calls) == e
    decreases |calls|
  {
    hide StatusOf, Respond;
    if |calls| > 0 {
      StepEffect(e, calls[0].0, calls[0].1);
      FinalIsFinal(e, calls[1..]);
    }
  }

  // ----- what a user reads afterwards -----

  /** No free line of what an accepted response writes changes a quantity after it. */
  predicate QuietResponse(parse: ParseFloat, e: Erp, ref: string, req: Request) {
    match Respond(e, ref, req)
    case Err(_) => true
    case Ok(d) => Quiet(parse, UpdateOf(d, e.note.uom))
  }

  lemma StoredLines(n: Note, remarks: string)
    ensures LinesOf(WithRemarks(n, remarks).remarks) == LinesOf(remarks)
  {
    hide LinesOf, TrimSpace;
    LinesOfTrimmed(remarks);
    LinesOfTrimmed(n.remarks);
  }

  /** Two numbers that add up to the quantity sent, nearly. */
  predicate AddsUp(shown: (Float, Float), qty: real) {
    shown.0.Finite? && shown.1.Finite? && Abs(shown.0.value + shown.1.value - qty) <= 0.0002
  }

  /** What the ERP takes back for a returned quantity. */
  function Taken(returned: real, qty: real): real {
    if NearlyEqual(returned, qty) then qty else returned
  }

  /** The arithmetic of reading back, including quantities that print as 0.0000: with
      no ERP returned quantity, or with the one this decision caused. */
  lemma ReadBackBound(parse: ParseFloat, n: Note, d: Decision)
    requires SoundDecision(d, n)
    requires CustomerQuantities(parse, n.remarks) == Written(UpdateOf(d, n.uom))
    requires n.returnedQty <= 0.0 || (d.state != STATE_CONFIRMED && n.returnedQty == Taken(d.returned, n.qty))
    ensures AddsUp(DecisionQuantities(parse, n, StatusOfState(d.state)), n.qty)
  {
    hide CustomerQuantities, Rounded;
    RoundedError(d.accepted);
    RoundedError(d.returned);
    if 0.0 <= d.accepted <= 2.0 / SCALE { RoundedAtMost(d.accepted, 2); }
  }

  /** After any accepted response with quiet texts, to a note with no earlier ERP
      returned quantity, the quantities the response reports and the quantities read
      from the stored note both add up to the quantity sent, within 0.0002. */
  lemma {:induction false} ResponseReadsBack(parse: ParseFloat, e: Erp, ref: string, req: Request)
    requires ReadsPrinted(parse) && Respond(e, ref, req).Ok? && QuietResponse(parse, e, ref, req) && e.note.returnedQty == 0.0
    ensures var draft := Reported(e, Respond(e, ref, req).value);
      AddsUp(Shown(parse, draft), e.note.qty)
    ensures var stored := After(e, ref, req).note;
      AddsUp(Shown(parse, stored), e.note.qty)
  {
    hide Decide, StatusOf, TrimSpace, Apply, CombinedReason, CustomerQuantities, DecisionQuantities, Written, Quiet, StateLabel, WithRemarks, LinesOf;
    var d := Respond(e, ref, req).value;
    DecisionIsSound(req, e.note);
    QuantitiesReadBackIff(parse, e.note.remarks, UpdateOf(d, e.note.uom));
    var draft := Reported(e, d);
    RecordedStatus(e.note.(remarks := draft.remarks), d);
    ReadBackBound(parse, draft, d);
    StoredReadsBack(parse, e, d);
  }

  lemma {:induction false} StoredReadsBack(parse: ParseFloat, e: Erp, d: Decision)
    requires SoundDecision(d, e.note) && e.note.docStatus == 1 && e.note.returnedQty == 0.0
    requires CustomerQuantities(parse, Apply(e.note.remarks, UpdateOf(d, e.note.uom))) == Written(UpdateOf(d, e.note.uom))
    ensures var stored := Recorded(e, d).note;
      AddsUp(Shown(parse, stored), e.note.qty)
  {
    hide StatusOf, TrimSpace, Apply, CombinedReason, DecisionQuantities, Rounded, StateLabel, LinesOf;
    var text := Apply(e.note.remarks, UpdateOf(d, e.note.uom));
    var taken := WithReturn(e, d.returned).note;
    StoredLines(taken, text);
    var stored := Recorded(e, d).note;
    assert CustomerQuantities(parse, stored.remarks) == CustomerQuantities(parse, text);
    RecordedStatus(WithRemarks(taken, text), d);
    ReadBackBound(parse, stored, d);
  }

  predicate Balanced(parse: ParseFloat, n: Note) {
    AddsUp(Shown(parse, n), n.qty)
  }

  predicate QuietRun(parse: ParseFloat, e: Erp, calls: seq<(string, Request)>)
    decreases |calls|
  {
    |calls| > 0 ==> QuietResponse(parse, e, calls[0].0, calls[0].1) && QuietRun(parse, After(e, calls[0].0, calls[0].1), calls[1..])
  }

  /** Over any run of quiet responses to a note without earlier returns: until one
      is accepted the note is untouched, and from then on the shown accepted and
      returned quantities always add up to the quantity sent, within 0.0002. */
  lemma {:induction false} RunReadsBack(parse: ParseFloat, e: Erp, calls: seq<(string, Request)>)
    requires ReadsPrinted(parse) && QuietRun(parse, e, calls)
    requires StatusOf(e.note) in {Partial, Rejected} || e.note.returnedQty == 0.0
    requires StatusOf(e.note) in {Draft, Pending} || Balanced(parse, e.note)
    ensures RunAll(e, calls) == e || Balanced(parse, RunAll(e, calls).note)
    decreases |calls|
  {
    hide StatusOf, Respond, After, Balanced, Shown, Reported, QuietResponse;
    if |calls| > 0 {
      var (ref, req) := calls[0];
      StepEffect(e, ref, req);
      var after := After(e, ref, req);
      if Respond(e, ref, req).Ok? {
        ResponseBalances(parse, e, ref, req);
      } else {
        assert after == e;
      }
      RunReadsBack(parse, after, calls[1..]);
    }
  }

  lemma {:induction false} ResponseBalances(parse: ParseFloat, e: Erp, ref: string, req: Request)
    requires ReadsPrinted(parse) && Respond(e, ref, req).Ok? && QuietResponse(parse, e, ref, req)
    requires StatusOf(e.note) in {Partial, Rejected} || e.note.returnedQty == 0.0
    ensures Balanced(parse, After(e, ref, req).note)
    ensures e.note.returnedQty == 0.0
  {
    hide StatusOf, Decide, Shown, Apply, TrimSpace, CombinedReason, Quiet;
    StepEffect(e, ref, req);
    ResponseReadsBack(parse, e, ref, req);
  }

  // ----- which texts are quiet -----

  predicate QuietCalls(calls: seq<(string, Request)>) {
    forall i :: 0 <= i < |calls| ==> QuietText(calls[i].1.reason) && QuietText(calls[i].1.comment)
  }

  /** Reasons, comments and a unit none of whose later lines starts with a quantity
      marker, whatever else those lines say, make a quiet run. */
  lemma {:induction false} QuietTextsRun(parse: ParseFloat, e: Erp, calls: seq<(string, Request)>)
    requires QuietCalls(calls) && QuietText(e.note.uom)
    ensures QuietRun(parse, e, calls)
    decreases |calls|
  {
    hide Decide, QuietText, Quiet, StatusOf, TrimSpace, Apply, CombinedReason;
    if |calls| > 0 {
      var (ref, req) := calls[0];
      if Respond(e, ref, req).Ok? {
        var d := Respond(e, ref, req).value;
        DecisionIsSound(req, e.note);
        TrimmedIsQuiet(req.reason);
        TrimmedIsQuiet(req.comment);
        QuietTexts(parse, UpdateOf(d, e.note.uom));
      }
      QuietTextsRun(parse, After(e, ref, req), calls[1..]);
    }
  }

  /** Four taken, six returned, and a comment whose second line names another number. */
  function SpeakingRequest(word: string): Request {
    Request(ACCEPT_PARTIAL, None, 4.0, 6.0, "", SpeakingComment(word))
  }

  lemma SpeakingDecision(n: Note, word: string)
    requires n.qty == 10.0 && StatusOf(n) == Pending && IsWord(word)
    ensures Decide(SpeakingRequest(word), n) == Ok(Decision(STATE_PARTIAL, 4.0, 6.0, "", SpeakingComment(word)))
  {
    hide TrimSpace, StatusOf;
    TrimmedIsFixed(ACCEPT_PARTIAL);
    SpokenIsTrimmed(word);
    TrimmedIsFixed("");
  }

  /** A response that is not quiet: whatever number the second line names, it is shown as
      accepted out of ten, besides the six returned. */
  lemma {:induction false} SpeakingCommentUnbalances(parse: ParseFloat, e: Erp, word: string)
    requires ReadsPrinted(parse) && IsWord(word) && !AtMostZero(parse(word))
    requires e.note.qty == 10.0 && SingleLine(e.note.uom) && StatusOf(e.note) == Pending
    ensures Respond(e, e.note.customer, SpeakingRequest(word)).Ok?
    ensures Shown(parse, After(e, e.note.customer, SpeakingRequest(word)).note) == (parse(word), Finite(6.0))
  {
    hide StatusOf, Decide, Apply, TrimSpace, CombinedReason, CustomerQuantities, LinesOf, SingleLine, IsWord, SpeakingComment, ReadsPrinted, Rounded;
    SpeakingDecision(e.note, word);
    var d := Decision(STATE_PARTIAL, 4.0, 6.0, "", SpeakingComment(word));
    DecisionIsSound(SpeakingRequest(word), e.note);
    var text := Apply(e.note.remarks, UpdateOf(d, e.note.uom));
    CommentSpeaks(parse, e.note.remarks, UpdateOf(d, e.note.uom), word);
    RoundedSix();
    SameQuantities(parse, WithReturn(e, d.returned).note, text);
    RecordedStatus(WithRemarks(WithReturn(e, d.returned).note, text), d);
  }

  lemma RoundedSix()
    ensures Rounded(6.0) == 6.0
  {
    assert 6.0 * SCALE == 60000.0;
    assert RoundHalfEven(60000.0) == 60000;
  }

  lemma SameQuantities(parse: ParseFloat, n: Note, text: string)
    ensures CustomerQuantities(parse, WithRemarks(n, text).remarks) == CustomerQuantities(parse, text)
  {
    hide LinesOf, WithRemarks;
    StoredLines(n, text);
  }
}
