/**
 * `AgentHostCoordinator` against a host that may answer anything, fail, or
 * come back as another instance.  What the host does is an input of each
 * operation; what reaches it, and what it settles, is recorded as signals.
 */
module CoordinatorModel {
  import opened Prelude
  import opened Unicode

  datatype Phase = Disconnected | Ready | Running | AwaitingApproval | Cancelled | Completed | EffectUnknown | Terminal

  datatype Capabilities = Capabilities(profile: string, names: set<string>, hostInstance: string)

  datatype Identity = Identity(
    workspaceId: string, sessionId: string, turnId: string, attemptId: string, idempotencyKey: string,
    runId: string, stageId: string, fence: string, policyRevision: nat)

  datatype Error =
    | InvalidCausalIdentity(field: string)
    | TurnAlreadyActive
    | InvalidTurnRequest
    | InvalidCoordinatorState(phase: Phase)
    | ProtocolMismatch
    | CapabilityMismatch
    | InvalidResponse
    | HostFailure

  datatype State = State(profile: string, capabilities: Capabilities, phase: Phase, cursor: nat, active: Option<string>)

  // ----- what the host may do -----

  datatype Status = Reached(capabilities: Capabilities) | Unreachable

  datatype TurnResult = TurnResult(completed: bool, failed: bool, interrupted: bool, error: Option<string>)

  datatype TurnReply = Lost | Answered(result: TurnResult)

  datatype CancelOutcome = WasCancelled | StillRunning | WasTerminal | NotFound

  datatype CancelReply = CancelLost | CancelAnswered(outcome: CancelOutcome)

  datatype ReplayReply = ReplayLost | ReplayPage(nextCursor: nat)

  /** A turn was handed to the host, or the host settled it by a result or by a cancel answer. */
  datatype Signal = Sent(turn: string) | Finished(turn: string) | Stopped(turn: string, outcome: CancelOutcome)

  // ----- validation -----

  predicate IdentityField(value: string) {
    !Blank(value) && Utf8Len(value) <= 256 && forall i :: 0 <= i < |value| ==> !Control(value[i]) && !Whitespace(value[i])
  }

  function FirstBadField(fields: seq<(string, string)>): Option<string> {
    if fields == [] then None
    else if IdentityField(fields[0].1) then FirstBadField(fields[1..])
    else Some(fields[0].0)
  }

  function ValidateIdentity(id: Identity): Result<(), Error> {
    match FirstBadField([("workspace_id", id.workspaceId), ("session_id", id.sessionId), ("turn_id", id.turnId),
                         ("attempt_id", id.attemptId), ("idempotency_key", id.idempotencyKey), ("run_id", id.runId),
                         ("stage_id", id.stageId), ("fence", id.fence)])
    case Some(field) => Err(InvalidCausalIdentity(field))
    case None => if id.turnId != id.idempotencyKey then Err(InvalidCausalIdentity("turn_id")) else Ok(())
  }

  /** A request is built from a valid identity, so only these two fields can still be blank. */
  predicate ValidRequest(profile: string, message: string) {
    !Blank(profile) && !Blank(message)
  }

  function TrueCount(flags: seq<bool>): nat {
    if flags == [] then 0 else (if flags[0] then 1 else 0) + TrueCount(flags[1..])
  }

  /** `parse_turn_result`: exactly one terminal state, and no error beside a completion. */
  function ParseTurn(reply: TurnReply): Result<TurnResult, Error> {
    match reply
    case Lost => Err(HostFailure)
    case Answered(r) =>
      if TrueCount([r.completed, r.failed, r.interrupted]) != 1 then Err(InvalidResponse)
      else if r.completed && r.error.Some? then Err(InvalidResponse)
      else Ok(r)
  }

  // ----- the operations -----

  function FromClient(profile: string, capabilities: Capabilities): Result<State, Error> {
    if capabilities.profile != profile then Err(ProtocolMismatch)
    else Ok(State(profile, capabilities, Ready, 0, None))
  }

  function EnsureReady(s: State, status: Status): (State, Result<(), Error>) {
    match status
    case Unreachable => (s.(phase := Disconnected), Err(HostFailure))
    case Reached(found) =>
      var t := s.(capabilities := found);
      if found.profile != s.capabilities.profile then (t, Err(ProtocolMismatch))
      else if s.capabilities != found && s.active.Some? then (t.(phase := EffectUnknown), Ok(()))
      else if s.phase.Disconnected? then (t.(phase := Ready), Ok(()))
      else (t, Ok(()))
  }

  function Verdict(r: TurnResult): Phase {
    if r.completed then Completed else if r.interrupted then Cancelled else Terminal
  }

  /** The part of `start_turn` that runs once the turn may begin. */
  function BeginTurn(s: State, turn: string, message: string, reply: TurnReply): (State, Result<TurnResult, Error>, seq<Signal>) {
    var begun := s.(active := Some(turn), phase := Running);
    if !ValidRequest(s.profile, message) then (begun, Err(InvalidTurnRequest), [])
    else
      match ParseTurn(reply)
      case Err(e) => (begun.(phase := EffectUnknown), Err(e), [Sent(turn)])
      case Ok(r) => (begun.(phase := Verdict(r), active := None), Ok(r), [Sent(turn), Finished(turn)])
  }

  function StartTurn(s: State, id: Identity, message: string, status: Status, reply: TurnReply)
    : (State, Result<TurnResult, Error>, seq<Signal>)
  {
    match ValidateIdentity(id)
    case Err(e) => (s, Err(e), [])
    case Ok(_) =>
      if s.active.Some? || s.phase.Running? || s.phase.AwaitingApproval? then (s, Err(TurnAlreadyActive), [])
      else if s.phase.Disconnected? then
        var (t, ready) := EnsureReady(s, status);
        match ready
        case Err(e) => (t, Err(e), [])
        case Ok(_) => BeginTurn(t, id.turnId, message, reply)
      else BeginTurn(s, id.turnId, message, reply)
  }

  function CancelTurn(s: State, turn: string, reply: CancelReply): (State, Result<CancelOutcome, Error>, seq<Signal>) {
    if s.active != Some(turn) then (s, Err(InvalidCoordinatorState(s.phase)), [])
    else if Blank(turn) then (s, Err(InvalidTurnRequest), [])
    else if "turn.cancel" !in s.capabilities.names then (s, Err(CapabilityMismatch), [])
    else
      match reply
      case CancelLost => (s, Err(HostFailure), [])
      case CancelAnswered(outcome) =>
        match outcome
        case StillRunning => (s.(phase := Running), Ok(outcome), [])
        case WasCancelled => (s.(phase := Cancelled, active := None), Ok(outcome), [Stopped(turn, outcome)])
        case WasTerminal => (s.(phase := Terminal, active := None), Ok(outcome), [Stopped(turn, outcome)])
        case NotFound => (s.(phase := EffectUnknown, active := None), Ok(outcome), [Stopped(turn, outcome)])
  }

  function Reconnect(s: State, status: Status): (State, Result<(), Error>) {
    match status
    case Unreachable => (s.(phase := Disconnected), Err(HostFailure))
    case Reached(found) =>
      var t := if s.capabilities != found then
                 s.(capabilities := found, cursor := 0, phase := if s.active.Some? then EffectUnknown else s.phase)
               else s;
      (if t.phase.Disconnected? then t.(phase := Ready) else t, Ok(()))
  }

  function Replay(s: State, reply: ReplayReply): (State, Result<(), Error>) {
    match reply
    case ReplayLost => (s, Err(HostFailure))
    case ReplayPage(next) => (s.(cursor := next), Ok(()))
  }

  // ----- runs -----

  datatype Op =
    | DoEnsureReady(status: Status)
    | DoStart(id: Identity, message: string, status: Status, reply: TurnReply)
    | DoCancel(turn: string, cancel: CancelReply)
    | DoReconnect(status: Status)
    | DoReplay(page: ReplayReply)

  function Step(s: State, op: Op): (State, seq<Signal>) {
    match op
    case DoEnsureReady(status) => (EnsureReady(s, status).0, [])
    case DoStart(id, message, status, reply) =>
      var (t, _, signals) := StartTurn(s, id, message, status, reply);
      (t, signals)
    case DoCancel(turn, reply) =>
      var (t, _, signals) := CancelTurn(s, turn, reply);
      (t, signals)
    case DoReconnect(status) => (Reconnect(s, status).0, [])
    case DoReplay(reply) => (Replay(s, reply).0, [])
  }

  /** The state after the operations, and all signals so far. */
  function Run(s: State, signals: seq<Signal>, ops: seq<Op>): (State, seq<Signal>)
    decreases |ops|
  {
    if ops == [] then (s, signals)
    else
      var (t, more) := Step(s, ops[0]);
      Run(t, signals + more, ops[1..])
  }
}
