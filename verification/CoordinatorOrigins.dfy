/**
 * What the coordinator shows, traced to the host's answers: where its phase and
 * its cursor come from, and what each refusal says.
 */
module CoordinatorOrigins {
  import opened Prelude
  import opened CoordinatorModel
  import opened CoordinatorTheorems
  import Unicode

  // ----- the phase -----

  /** The operation hands its turn to the host. */
  predicate HandsOver(s: State, op: Op) {
    op.DoStart? && Sent(op.id.turnId) in Step(s, op).1
  }

  /** The host answers the start with one terminal result. */
  predicate AnswersStart(s: State, op: Op, completed: bool, failed: bool, interrupted: bool) {
    && HandsOver(s, op) && op.reply.Answered?
    && op.reply.result.completed == completed && op.reply.result.failed == failed
    && op.reply.result.interrupted == interrupted && !(completed && op.reply.result.error.Some?)
  }

  /** The host answers a cancel of the active turn. */
  predicate AnswersCancel(s: State, op: Op, outcome: CancelOutcome) {
    && op.DoCancel? && s.active == Some(op.turn) && !Unicode.Blank(op.turn) && "turn.cancel" in s.capabilities.names
    && op.cancel == CancelAnswered(outcome)
  }

  /** The operation asks for the host and is answered by one that is not the one known. */
  predicate FindsOther(s: State, op: Op) {
    && (op.DoEnsureReady? || op.DoReconnect?) && op.status.Reached? && op.status.capabilities != s.capabilities
    && (op.DoEnsureReady? ==> op.status.capabilities.profile == s.capabilities.profile)
  }

  /** A well-formed result says exactly one of completed, failed and interrupted. */
  predicate Malformed(reply: TurnReply) {
    || reply.Lost?
    || (reply.result.completed && (reply.result.failed || reply.result.interrupted || reply.result.error.Some?))
    || (reply.result.failed && reply.result.interrupted)
    || !(reply.result.completed || reply.result.failed || reply.result.interrupted)
  }

  /** What an operation must be, and be answered, for the coordinator to enter a phase. */
  predicate Explains(s: State, op: Op, phase: Phase) {
    match phase
    case Completed => AnswersStart(s, op, true, false, false)
    case Cancelled => AnswersStart(s, op, false, false, true) || AnswersCancel(s, op, WasCancelled)
    case Terminal => AnswersStart(s, op, false, true, false) || AnswersCancel(s, op, WasTerminal)
    case EffectUnknown =>
      || (HandsOver(s, op) && Malformed(op.reply))
      || AnswersCancel(s, op, NotFound)
      || (s.active.Some? && FindsOther(s, op))
    case Running =>
      || (op.DoStart? && s.active.None? && (Unicode.Blank(s.profile) || Unicode.Blank(op.message)))
      || AnswersCancel(s, op, StillRunning)
    case Disconnected => (op.DoEnsureReady? || op.DoReconnect?) && op.status.Unreachable?
    case Ready => s.phase.Disconnected? && (op.DoEnsureReady? || op.DoReconnect?) && op.status.Reached?
    case AwaitingApproval => false
  }

  lemma {:induction false} ParsedIff(reply: TurnReply)
    ensures ParseTurn(reply).Err? <==> Malformed(reply)
    ensures ParseTurn(reply).Ok? ==> reply.Answered? && ParseTurn(reply).value == reply.result
  {
    if reply.Answered? {
      ParsedVerdict(reply.result);
    }
  }

  lemma {:induction false} BeginExplained(s: State, turn: string, message: string, reply: TurnReply)
    ensures var (t, _, signals) := BeginTurn(s, turn, message, reply);
            if Unicode.Blank(s.profile) || Unicode.Blank(message) then t.phase.Running? && signals == []
            else
              && Sent(turn) in signals
              && t.phase == if Malformed(reply) then EffectUnknown
                            else if reply.result.completed then Completed
                            else if reply.result.interrupted then Cancelled
                            else Terminal
  {
    hide ParseTurn, Unicode.Blank;
    ParsedIff(reply);
    assert Sent(turn) in [Sent(turn)] && Sent(turn) in [Sent(turn), Finished(turn)];
  }

  lemma {:induction false} StartExplained(s: State, op: Op)
    requires op.DoStart? && Step(s, op).0.phase != s.phase
    ensures Explains(s, op, Step(s, op).0.phase)
  {
    hide ValidateIdentity, BeginTurn, Unicode.Blank;
    BeginExplained(s, op.id.turnId, op.message, op.reply);
    BeginExplained(EnsureReady(s, op.status).0, op.id.turnId, op.message, op.reply);
  }

  lemma {:induction false} PhaseStep(s: State, op: Op)
    ensures Step(s, op).0.phase == s.phase || Explains(s, op, Step(s, op).0.phase)
  {
    if op.DoStart? {
      hide Step, Explains;
      if Step(s, op).0.phase != s.phase {
        StartExplained(s, op);
      }
    } else {
      hide Unicode.Blank;
    }
  }

  /**
   * Behind the phase of every run stands the operation that last set it, with an
   * answer of the host that explains it; only Ready may be the phase the run started in.
   */
  lemma {:induction false} PhaseOrigin(profile: string, capabilities: Capabilities, ops: seq<Op>, n: nat) returns (k: nat)
    requires FromClient(profile, capabilities).Ok? && n <= |ops|
    requires !Before(FromClient(profile, capabilities).value, ops, n).0.phase.Ready?
    ensures var start := FromClient(profile, capabilities).value;
            var phase := Before(start, ops, n).0.phase;
            && k < n && Explains(Before(start, ops, k).0, ops[k], phase)
            && forall j | k < j <= n :: Before(start, ops, j).0.phase == phase
    decreases n
  {
    hide Step, Run, Explains;
    var start := FromClient(profile, capabilities).value;
    FirstIsStart(start, ops);
    var s := Before(start, ops, n - 1).0;
    BeforeNext(start, ops, n - 1);
    PhaseStep(s, ops[n - 1]);
    if Explains(s, ops[n - 1], Before(start, ops, n).0.phase) {
      k := n - 1;
    } else {
      k := PhaseOrigin(profile, capabilities, ops, n - 1);
    }
  }

  /** In every run, right after an answered cancel, the phase and the active turn are the ones its answer names. */
  lemma {:induction false} CancelNamesPhase(start: State, ops: seq<Op>, k: nat, outcome: CancelOutcome)
    requires k < |ops| && AnswersCancel(Before(start, ops, k).0, ops[k], outcome)
    ensures var (s, t) := (Before(start, ops, k).0, Before(start, ops, k + 1).0);
            match outcome
            case WasCancelled => t == s.(phase := Cancelled, active := None)
            case StillRunning => t == s.(phase := Running)
            case WasTerminal => t == s.(phase := Terminal, active := None)
            case NotFound => t == s.(phase := EffectUnknown, active := None)
  {
    hide Run, Unicode.Blank;
    BeforeNext(start, ops, k);
  }

  /** And right after a start that was handed over, by its reply. */
  lemma {:induction false} StartNamesPhase(start: State, ops: seq<Op>, k: nat)
    requires k < |ops| && HandsOver(Before(start, ops, k).0, ops[k])
    ensures var (s, t, op) := (Before(start, ops, k).0, Before(start, ops, k + 1).0, ops[k]);
            if Malformed(op.reply) then t.phase.EffectUnknown? && t.active == Some(op.id.turnId)
            else
              && t.active.None?
              && t.phase == if op.reply.result.completed then Completed
                            else if op.reply.result.interrupted then Cancelled
                            else Terminal
  {
    hide Run, ValidateIdentity, ParseTurn, Unicode.Blank;
    BeforeNext(start, ops, k);
    ParsedIff(ops[k].reply);
  }

  /** And right after a refresh, by whether the host was reached and is still the same. */
  lemma {:induction false} RefreshNamesPhase(start: State, ops: seq<Op>, k: nat)
    requires k < |ops| && (ops[k].DoEnsureReady? || ops[k].DoReconnect?)
    ensures var (s, t, op) := (Before(start, ops, k).0, Before(start, ops, k + 1).0, ops[k]);
            var refused := op.DoEnsureReady? && op.status.Reached? && op.status.capabilities.profile != s.capabilities.profile;
            && t.active == s.active
            && t.phase == if op.status.Unreachable? then Disconnected
                          else if refused then s.phase
                          else if s.active.Some? && op.status.capabilities != s.capabilities then EffectUnknown
                          else if s.phase.Disconnected? then Ready
                          else s.phase
  {
    hide Run;
    BeforeNext(start, ops, k);
  }

  // ----- the cursor -----

  /** A page was received, or a reconnect found a host that is not the one known. */
  predicate MovesCursor(s: State, op: Op) {
    || (op.DoReplay? && op.page.ReplayPage?)
    || (op.DoReconnect? && op.status.Reached? && op.status.capabilities != s.capabilities)
  }

  lemma {:induction false} CursorStep(s: State, op: Op)
    ensures Step(s, op).0.cursor ==
      if !MovesCursor(s, op) then s.cursor else if op.DoReplay? then op.page.nextCursor else 0
  {
    hide ValidateIdentity, ValidRequest, ParseTurn, Verdict, Unicode.Blank;
  }

  /**
   * In every run the cursor is the next one of the last page received, unless a
   * reconnect since then, or no page at all, put it at the beginning.
   */
  lemma {:induction false} CursorOrigin(profile: string, capabilities: Capabilities, ops: seq<Op>, n: nat)
    returns (last: Option<nat>)
    requires FromClient(profile, capabilities).Ok? && n <= |ops|
    ensures var start := FromClient(profile, capabilities).value;
            var cursor := Before(start, ops, n).0.cursor;
            match last
            case None => cursor == 0 && forall j | 0 <= j < n :: !MovesCursor(Before(start, ops, j).0, ops[j])
            case Some(k) =>
              && k < n && MovesCursor(Before(start, ops, k).0, ops[k])
              && (forall j | k < j < n :: !MovesCursor(Before(start, ops, j).0, ops[j]))
              && cursor == if ops[k].DoReplay? then ops[k].page.nextCursor else 0
    decreases n
  {
    hide Step, Run, MovesCursor;
    var start := FromClient(profile, capabilities).value;
    if n == 0 {
      FirstIsStart(start, ops);
      last := None;
    } else {
      BeforeNext(start, ops, n - 1);
      CursorStep(Before(start, ops, n - 1).0, ops[n - 1]);
      if MovesCursor(Before(start, ops, n - 1).0, ops[n - 1]) {
        last := Some(n - 1);
        MoversAre(Before(start, ops, n - 1).0, ops[n - 1]);
      } else {
        last := CursorOrigin(profile, capabilities, ops, n - 1);
      }
    }
  }

  lemma {:induction false} MoversAre(s: State, op: Op)
    requires MovesCursor(s, op)
    ensures op.DoReplay? ==> op.page.ReplayPage?
  {
  }

  // ----- what a refusal says -----

  /** The first field that is not fit, if any, is the one named. */
  lemma {:induction false} FirstBadMeans(fields: seq<(string, string)>) returns (i: nat)
    ensures match FirstBadField(fields)
            case None => forall field | field in fields :: IdentityField(field.1)
            case Some(name) =>
              && i < |fields| && fields[i].0 == name && !IdentityField(fields[i].1)
              && forall field | field in fields[..i] :: IdentityField(field.1)
    decreases |fields|
  {
    hide IdentityField;
    i := 0;
    if fields != [] && IdentityField(fields[0].1) {
      var k := FirstBadMeans(fields[1..]);
      assert fields == [fields[0]] + fields[1..];
      i := k + 1;
      if FirstBadField(fields).Some? {
        assert fields[..i] == [fields[0]] + fields[1..][..k];
      }
    }
  }

  /** A field is fit if it has at most 256 bytes and a character, and none is a control or whitespace. */
  predicate Fit(value: string) {
    value != "" && Unicode.Utf8Len(value) <= 256 && forall c | c in value :: !Unicode.Control(c) && !Unicode.Whitespace(c)
  }

  lemma {:induction false} FitMeans(value: string)
    ensures IdentityField(value) <==> Fit(value)
  {
    hide Unicode.Control, Unicode.Whitespace;
    if value != "" {
      assert value[0] in value;
    }
    if forall i :: 0 <= i < |value| ==> !Unicode.Control(value[i]) && !Unicode.Whitespace(value[i]) {
      forall c | c in value
        ensures !Unicode.Control(c) && !Unicode.Whitespace(c)
      {
        var i :| 0 <= i < |value| && value[i] == c;
      }
    }
    assert forall i :: 0 <= i < |value| ==> value[i] in value;
  }

  /** The named field is unfit, or the turn is not its own idempotency key. */
  predicate NamesFault(id: Identity, name: string) {
    || (name == "workspace_id" && !Fit(id.workspaceId)) || (name == "session_id" && !Fit(id.sessionId))
    || (name == "turn_id" && (!Fit(id.turnId) || id.turnId != id.idempotencyKey))
    || (name == "attempt_id" && !Fit(id.attemptId)) || (name == "idempotency_key" && !Fit(id.idempotencyKey))
    || (name == "run_id" && !Fit(id.runId)) || (name == "stage_id" && !Fit(id.stageId))
    || (name == "fence" && !Fit(id.fence))
  }

  /** An identity is accepted exactly if its eight fields are fit and the turn is its own idempotency key. */
  lemma {:induction false} IdentityValidIff(id: Identity)
    ensures ValidateIdentity(id).Ok? <==>
      && Fit(id.workspaceId) && Fit(id.sessionId) && Fit(id.turnId) && Fit(id.attemptId) && Fit(id.idempotencyKey)
      && Fit(id.runId) && Fit(id.stageId) && Fit(id.fence) && id.turnId == id.idempotencyKey
    ensures ValidateIdentity(id).Err? ==>
      exists name :: ValidateIdentity(id) == Err(InvalidCausalIdentity(name)) && NamesFault(id, name)
  {
    hide IdentityField, FirstBadField, Fit;
    FitMeans(id.workspaceId);
    FitMeans(id.sessionId);
    FitMeans(id.turnId);
    FitMeans(id.attemptId);
    FitMeans(id.idempotencyKey);
    FitMeans(id.runId);
    FitMeans(id.stageId);
    FitMeans(id.fence);
    var fields := [("workspace_id", id.workspaceId), ("session_id", id.sessionId), ("turn_id", id.turnId),
                   ("attempt_id", id.attemptId), ("idempotency_key", id.idempotencyKey), ("run_id", id.runId),
                   ("stage_id", id.stageId), ("fence", id.fence)];
    var i := FirstBadMeans(fields);
    if FirstBadField(fields).None? {
      assert fields[0] in fields && fields[1] in fields && fields[2] in fields && fields[3] in fields;
      assert fields[4] in fields && fields[5] in fields && fields[6] in fields && fields[7] in fields;
      assert NamesFault(id, "turn_id") || id.turnId == id.idempotencyKey;
    } else {
      assert NamesFault(id, FirstBadField(fields).value);
    }
  }

  /** A coordinator starts ready, at the beginning and idle, exactly for a host of its own profile. */
  lemma {:induction false} ConnectsIff(profile: string, capabilities: Capabilities)
    ensures FromClient(profile, capabilities).Ok? <==> capabilities.profile == profile
    ensures match FromClient(profile, capabilities)
            case Ok(s) => s.phase.Ready? && s.cursor == 0 && s.active.None? && s.profile == profile && s.capabilities == capabilities
            case Err(e) => e == ProtocolMismatch
  {
  }

  /** What the error of a start says. */
  lemma {:induction false} StartRefusals(s: State, id: Identity, message: string, status: Status, reply: TurnReply)
    ensures var answer := StartTurn(s, id, message, status, reply).1;
            var free := s.active.None? && !s.phase.Running? && !s.phase.AwaitingApproval?;
            && (answer == Err(TurnAlreadyActive) <==> ValidateIdentity(id).Ok? && !free)
            && (answer == Err(ProtocolMismatch) <==>
                  && ValidateIdentity(id).Ok? && free && s.phase.Disconnected? && status.Reached?
                  && status.capabilities.profile != s.capabilities.profile)
            && (answer == Err(InvalidTurnRequest) ==> Unicode.Blank(s.profile) || Unicode.Blank(message))
            && (answer == Err(InvalidResponse) ==> reply.Answered? && Malformed(reply))
            && (answer == Err(HostFailure) ==> reply.Lost? || (s.phase.Disconnected? && status.Unreachable?))
            && (answer.Err? && answer.error.InvalidCausalIdentity? <==> ValidateIdentity(id).Err?)
            && (answer.Ok? ==> !Malformed(reply) && answer.value == reply.result)
  {
    hide FirstBadField, Unicode.Blank, TrueCount;
    ParsedIff(reply);
  }

  /** What the error of a cancel says. */
  lemma {:induction false} CancelRefusals(s: State, turn: string, reply: CancelReply)
    ensures var answer := CancelTurn(s, turn, reply).1;
            && (answer == Err(InvalidCoordinatorState(s.phase)) <==> s.active != Some(turn))
            && (answer == Err(InvalidTurnRequest) <==> s.active == Some(turn) && Unicode.Blank(turn))
            && (answer == Err(CapabilityMismatch) <==>
                  s.active == Some(turn) && !Unicode.Blank(turn) && "turn.cancel" !in s.capabilities.names)
            && (answer == Err(HostFailure) <==>
                  && s.active == Some(turn) && !Unicode.Blank(turn) && "turn.cancel" in s.capabilities.names
                  && reply.CancelLost?)
            && (answer.Ok? <==> AnswersCancel(s, DoCancel(turn, reply), if reply.CancelAnswered? then reply.outcome else NotFound))
            && (answer.Ok? ==> answer.value == reply.outcome)
            && (answer.Err? ==> CancelTurn(s, turn, reply).0 == s)
  {
    hide Unicode.Blank;
  }
}
