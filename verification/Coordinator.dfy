/** `AgentHostCoordinator`, with the host's answers as arguments of its operations. */
module Coordinator {
  import opened Prelude
  import opened CoordinatorModel
  import Unicode

  class AgentHostCoordinator {
    const profile: string
    var capabilities: Capabilities
    var phase: Phase
    var cursor: nat
    var activeTurnId: Option<string>

    function Contents(): State
      reads this
    {
      State(profile, capabilities, phase, cursor, activeTurnId)
    }

    constructor (profile: string, capabilities: Capabilities)
      requires FromClient(profile, capabilities).Ok?
      ensures Contents() == FromClient(profile, capabilities).value
    {
      this.profile := profile;
      this.capabilities := capabilities;
      phase, cursor, activeTurnId := Ready, 0, None;
    }

    method EnsureReady(status: Status) returns (r: Result<(), Error>)
      modifies this
      ensures (Contents(), r) == CoordinatorModel.EnsureReady(old(Contents()), status)
    {
      var expected, before := capabilities.profile, capabilities;
      if status.Unreachable? {
        phase := Disconnected;
        return Err(HostFailure);
      }
      capabilities := status.capabilities;
      if capabilities.profile != expected {
        return Err(ProtocolMismatch);
      }
      var changed := before != capabilities;
      if changed && activeTurnId.Some? {
        phase := EffectUnknown;
      } else if phase.Disconnected? {
        phase := Ready;
      }
      return Ok(());
    }

    /** Submits at most one turn; `signals` is what the host saw and settled. */
    method StartTurn(id: Identity, message: string, status: Status, reply: TurnReply)
      returns (r: Result<TurnResult, Error>, signals: seq<Signal>)
      modifies this
      ensures (Contents(), r, signals) == CoordinatorModel.StartTurn(old(Contents()), id, message, status, reply)
    {
      hide ValidateIdentity, ParseTurn, ValidRequest, CoordinatorModel.EnsureReady;
      var valid := ValidateIdentity(id);
      if valid.Err? {
        return Err(valid.error), [];
      }
      if activeTurnId.Some? || phase.Running? || phase.AwaitingApproval? {
        return Err(TurnAlreadyActive), [];
      }
      if phase.Disconnected? {
        var ready := EnsureReady(status);
        if ready.Err? {
          return Err(ready.error), [];
        }
      }
      activeTurnId := Some(id.turnId);
      phase := Running;
      if !ValidRequest(profile, message) {
        return Err(InvalidTurnRequest), [];
      }
      var result := ParseTurn(reply);
      if result.Err? {
        phase := EffectUnknown;
        return Err(result.error), [Sent(id.turnId)];
      }
      phase := Verdict(result.value);
      activeTurnId := None;
      return Ok(result.value), [Sent(id.turnId), Finished(id.turnId)];
    }

    method CancelTurn(turn: string, reply: CancelReply) returns (r: Result<CancelOutcome, Error>, signals: seq<Signal>)
      modifies this
      ensures (Contents(), r, signals) == CoordinatorModel.CancelTurn(old(Contents()), turn, reply)
    {
      hide Unicode.Blank;
      if activeTurnId != Some(turn) {
        return Err(InvalidCoordinatorState(phase)), [];
      }
      if Unicode.Blank(turn) {
        return Err(InvalidTurnRequest), [];
      }
      if "turn.cancel" !in capabilities.names {
        return Err(CapabilityMismatch), [];
      }
      if reply.CancelLost? {
        return Err(HostFailure), [];
      }
      match reply.outcome {
        case WasCancelled => phase := Cancelled;
        case StillRunning => phase := Running;
        case WasTerminal => phase := Terminal;
        case NotFound => phase := EffectUnknown;
      }
      signals := [];
      if !reply.outcome.StillRunning? {
        activeTurnId := None;
        signals := [Stopped(turn, reply.outcome)];
      }
      return Ok(reply.outcome), signals;
    }

    method Reconnect(status: Status) returns (r: Result<(), Error>)
      modifies this
      ensures (Contents(), r) == CoordinatorModel.Reconnect(old(Contents()), status)
    {
      var before := capabilities;
      if status.Unreachable? {
        phase := Disconnected;
        return Err(HostFailure);
      }
      capabilities := status.capabilities;
      if before != capabilities {
        cursor := 0;
        if activeTurnId.Some? {
          phase := EffectUnknown;
        }
      }
      if phase.Disconnected? {
        phase := Ready;
      }
      return Ok(());
    }
  }
}
