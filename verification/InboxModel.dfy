/**
 * The operator inbox as a reducer: what each operation of `OperationalInbox`
 * answers and what it leaves behind, for every state and every input.
 */
module InboxModel {
  import opened Prelude
  import opened Unicode

  const MAX_TEXT_BYTES: nat := 512

  datatype Risk = Low | Medium | High | Critical

  datatype Action =
    | Approve | Reject | Pause | Resume | Redirect | Cancel | RetryAfterReconcile | Compare | RequestReview

  datatype Status =
    | NeedsDecision
    | AwaitingAuthorization
    | AwaitingConfirmation
    | ReadyToDispatch
    | AwaitingReceipt
    | Applied
    | Rejected
    | FailedClosed

  datatype Item = Item(
    sessionId: string, target: string, summary: string, risk: Risk, blocked: bool, approvalRequired: bool,
    interactive: bool, sequence: nat, status: Status, intentId: Option<string>, receiptId: Option<string>,
    evidenceRefs: seq<string>)

  datatype Intent = Intent(
    intentId: string, sessionId: string, target: string, action: Action, explicitlyIdempotent: bool,
    idempotencyKey: string, policyRevision: nat)

  datatype Authorization = Authorization(
    intentId: string, decisionId: string, actor: string, target: string, policyRevision: nat, approved: bool)

  datatype DispatchRequest = DispatchRequest(intent: Intent, decisionId: string)

  datatype Event =
    | Attention(
        eventId: string, sessionId: string, target: string, summary: string, risk: Risk, blocked: bool,
        approvalRequired: bool, interactive: bool, sequence: nat, evidenceRefs: seq<string>)
    | Authorized(eventId: string, authorization: Authorization)
    | Receipt(
        eventId: string, intentId: string, decisionId: string, receiptId: string, target: string,
        policyRevision: nat, applied: bool)

  datatype Outcome = Accepted | Duplicate

  datatype Error =
    | InvalidField(name: string)
    | StaleEvent
    | UnknownIntent
    | ForgedAuthorization
    | ConfirmationRequired
    | ForgedReceipt

  datatype Decision = Decision(intent: Intent, authorization: Option<Authorization>, confirmed: bool, dispatched: bool)

  datatype State = State(items: map<string, Item>, decisions: map<string, Decision>, seen: map<string, Event>)

  const EMPTY := State(map[], map[], map[])

  // ----- validation -----

  predicate Token(value: string) {
    && value != [] && Utf8Len(value) <= MAX_TEXT_BYTES
    && forall i :: 0 <= i < |value| ==> !AsciiControl(value[i])
  }

  function Validate(name: string, value: string): Result<(), Error> {
    if Token(value) then Ok(()) else Err(InvalidField(name))
  }

  function ValidateAll(name: string, values: seq<string>): Result<(), Error> {
    if values == [] then Ok(())
    else
      var _ :- Validate(name, values[0]);
      ValidateAll(name, values[1..])
  }

  function ValidateIntent(intent: Intent): Result<(), Error> {
    var _ :- Validate("intent_id", intent.intentId);
    var _ :- Validate("session_id", intent.sessionId);
    var _ :- Validate("target", intent.target);
    Validate("idempotency_key", intent.idempotencyKey)
  }

  function ValidateAuthorization(a: Authorization): Result<(), Error> {
    var _ :- Validate("intent_id", a.intentId);
    var _ :- Validate("decision_id", a.decisionId);
    var _ :- Validate("actor", a.actor);
    Validate("target", a.target)
  }

  predicate NeedsConfirmation(risk: Risk, action: Action) {
    risk.High? || risk.Critical? || action.Cancel? || action.Redirect?
  }

  // ----- the reducer -----

  /** `clean` stands for the removal of controls and secrets from a summary. */
  type Cleaner = string -> string

  function ApplyAttention(clean: Cleaner, s: State, e: Event): Result<State, Error>
    requires e.Attention?
  {
    var _ :- Validate("session_id", e.sessionId);
    var _ :- Validate("target", e.target);
    if Utf8Len(e.summary) > MAX_TEXT_BYTES then Err(InvalidField("summary"))
    else
      var _ :- ValidateAll("evidence_ref", e.evidenceRefs);
      if e.evidenceRefs == [] then Err(InvalidField("evidence_refs"))
      else if e.sessionId in s.items && e.sequence <= s.items[e.sessionId].sequence then Err(StaleEvent)
      else
        var item := Item(e.sessionId, e.target, clean(e.summary), e.risk, e.blocked, e.approvalRequired,
                         e.interactive, e.sequence, NeedsDecision, None, None, e.evidenceRefs);
        Ok(s.(items := s.items[e.sessionId := item]))
  }

  function ApplyAuthorization(s: State, a: Authorization): Result<State, Error> {
    var _ :- ValidateAuthorization(a);
    if a.intentId !in s.decisions then Err(UnknownIntent)
    else
      var d := s.decisions[a.intentId];
      if a.target != d.intent.target || a.policyRevision != d.intent.policyRevision then Err(ForgedAuthorization)
      else if d.intent.sessionId !in s.items then Err(UnknownIntent)
      else
        var item := s.items[d.intent.sessionId];
        if item.intentId != Some(a.intentId) || d.authorization.Some? then Err(StaleEvent)
        else
          var status := if !a.approved then Rejected
                        else if NeedsConfirmation(item.risk, d.intent.action) then AwaitingConfirmation
                        else ReadyToDispatch;
          Ok(s.(items := s.items[d.intent.sessionId := item.(status := status)],
                decisions := s.decisions[a.intentId := d.(authorization := Some(a))]))
  }

  function ApplyReceipt(s: State, e: Event): Result<State, Error>
    requires e.Receipt?
  {
    var _ :- Validate("receipt_id", e.receiptId);
    if e.intentId !in s.decisions then Err(UnknownIntent)
    else
      var d := s.decisions[e.intentId];
      if d.authorization.None? then Err(ForgedReceipt)
      else if !d.dispatched || d.authorization.value.decisionId != e.decisionId
              || d.intent.target != e.target || d.intent.policyRevision != e.policyRevision then Err(ForgedReceipt)
      else if d.intent.sessionId !in s.items then Err(UnknownIntent)
      else
        var item := s.items[d.intent.sessionId];
        if item.intentId != Some(e.intentId) || item.receiptId.Some? then Err(StaleEvent)
        else
          var status := if e.applied then Applied else FailedClosed;
          Ok(s.(items := s.items[d.intent.sessionId := item.(receiptId := Some(e.receiptId), status := status)]))
  }

  /** The effect of an event that was not seen before. */
  function ApplyNew(clean: Cleaner, s: State, e: Event): Result<State, Error> {
    match e
    case Attention(_, _, _, _, _, _, _, _, _, _) => ApplyAttention(clean, s, e)
    case Authorized(_, a) => ApplyAuthorization(s, a)
    case Receipt(_, _, _, _, _, _, _) => ApplyReceipt(s, e)
  }

  function Apply(clean: Cleaner, s: State, e: Event): (State, Result<Outcome, Error>) {
    if !Token(e.eventId) then (s, Err(InvalidField("event_id")))
    else if e.eventId in s.seen then
      (s, if s.seen[e.eventId] == e then Ok(Duplicate) else Err(StaleEvent))
    else
      match ApplyNew(clean, s, e)
      case Err(error) => (s, Err(error))
      case Ok(t) => (t.(seen := t.seen[e.eventId := e]), Ok(Accepted))
  }

  function RecordIntent(s: State, intent: Intent): (State, Result<(), Error>) {
    match ValidateIntent(intent)
    case Err(error) => (s, Err(error))
    case Ok(_) =>
      if intent.intentId in s.decisions then (s, Err(StaleEvent))
      else if intent.sessionId !in s.items then (s, Err(UnknownIntent))
      else
        var item := s.items[intent.sessionId];
        if item.target != intent.target || item.status != NeedsDecision then (s, Err(StaleEvent))
        else
          (s.(items := s.items[intent.sessionId := item.(intentId := Some(intent.intentId), status := AwaitingAuthorization)],
              decisions := s.decisions[intent.intentId := Decision(intent, None, false, false)]), Ok(()))
  }

  predicate Approved(d: Decision) {
    d.authorization.Some? && d.authorization.value.approved
  }

  /** The decision is marked before the item is looked up, as in the source. */
  function Confirm(s: State, intentId: string): (State, Result<(), Error>) {
    if intentId !in s.decisions then (s, Err(UnknownIntent))
    else
      var d := s.decisions[intentId];
      if !Approved(d) then (s, Err(ForgedAuthorization))
      else
        var marked := s.(decisions := s.decisions[intentId := d.(confirmed := true)]);
        if d.intent.sessionId !in s.items then (marked, Err(UnknownIntent))
        else
          var item := s.items[d.intent.sessionId];
          (marked.(items := s.items[d.intent.sessionId := item.(status := ReadyToDispatch)]), Ok(()))
  }

  function TakeDispatch(s: State, intentId: string): (State, Result<DispatchRequest, Error>) {
    if intentId !in s.decisions then (s, Err(UnknownIntent))
    else
      var d := s.decisions[intentId];
      if !Approved(d) then (s, Err(ForgedAuthorization))
      else if d.intent.sessionId !in s.items then (s, Err(UnknownIntent))
      else
        var item := s.items[d.intent.sessionId];
        if NeedsConfirmation(item.risk, d.intent.action) && !d.confirmed then (s, Err(ConfirmationRequired))
        else if d.dispatched || item.status != ReadyToDispatch then (s, Err(StaleEvent))
        else
          (s.(items := s.items[d.intent.sessionId := item.(status := AwaitingReceipt)],
              decisions := s.decisions[intentId := d.(dispatched := true)]),
           Ok(DispatchRequest(d.intent, d.authorization.value.decisionId)))
  }

  // ----- runs -----

  datatype Op = DoApply(event: Event) | DoRecord(intent: Intent) | DoConfirm(intentId: string) | DoDispatch(intentId: string)

  datatype Reply =
    | Took
    | Ignored
    | Dispatched(request: DispatchRequest)
    | Refused(error: Error)

  function Step(clean: Cleaner, s: State, op: Op): (State, Reply) {
    match op
    case DoApply(e) =>
      var (t, r) := Apply(clean, s, e);
      (t, match r case Ok(Accepted) => Took case Ok(Duplicate) => Ignored case Err(error) => Refused(error))
    case DoRecord(intent) =>
      var (t, r) := RecordIntent(s, intent);
      (t, if r.Ok? then Took else Refused(r.error))
    case DoConfirm(id) =>
      var (t, r) := Confirm(s, id);
      (t, if r.Ok? then Took else Refused(r.error))
    case DoDispatch(id) =>
      var (t, r) := TakeDispatch(s, id);
      (t, if r.Ok? then Dispatched(r.value) else Refused(r.error))
  }

  function Run(clean: Cleaner, s: State, ops: seq<Op>): State
    decreases |ops|
  {
    if ops == [] then s else Run(clean, Step(clean, s, ops[0]).0, ops[1..])
  }

  /** The state a fresh inbox is in before operation `k` of a run. */
  function Before(clean: Cleaner, ops: seq<Op>, k: nat): State
    requires k <= |ops|
  {
    Run(clean, EMPTY, ops[..k])
  }

  function ReplyAt(clean: Cleaner, ops: seq<Op>, k: nat): Reply
    requires k < |ops|
  {
    Step(clean, Before(clean, ops, k), ops[k]).1
  }
}
