/** What holds over every run of the coordinator, whatever the host does. */
module CoordinatorTheorems {
  import opened Prelude
  import opened CoordinatorModel
  import Unicode

  /** The turns that were sent and not yet settled. */
  function Outstanding(signals: seq<Signal>): set<string> {
    if signals == [] then {}
    else
      var before := Outstanding(signals[..|signals| - 1]);
      match signals[|signals| - 1]
      case Sent(turn) => before + {turn}
      case Finished(turn) => before - {turn}
      case Stopped(turn, _) => before - {turn}
  }

  /** Every turn is sent only when none is outstanding. */
  predicate Serial(signals: seq<Signal>) {
    forall k :: 0 <= k < |signals| && signals[k].Sent? ==> Outstanding(signals[..k]) == {}
  }

  predicate Inv(s: State, signals: seq<Signal>) {
    && (s.phase.Running? ==> s.active.Some?)
    && (s.phase.Completed? || s.phase.Cancelled? || s.phase.Terminal? ==> s.active.None?)
    && !s.phase.AwaitingApproval?
    && Outstanding(signals) <= (if s.active.Some? then {s.active.value} else {})
    && Serial(signals)
  }

  lemma {:induction false} OutstandingAppend(signals: seq<Signal>, signal: Signal)
    ensures Outstanding(signals + [signal])
         == match signal
            case Sent(turn) => Outstanding(signals) + {turn}
            case Finished(turn) => Outstanding(signals) - {turn}
            case Stopped(turn, _) => Outstanding(signals) - {turn}
  {
    var all := signals + [signal];
    assert all[..|all| - 1] == signals;
  }

  lemma {:induction false} SerialAppend(signals: seq<Signal>, signal: Signal)
    requires Serial(signals) && (signal.Sent? ==> Outstanding(signals) == {})
    ensures Serial(signals + [signal])
  {
    var all := signals + [signal];
    forall k | 0 <= k < |all| && all[k].Sent?
      ensures Outstanding(all[..k]) == {}
    {
      if k < |signals| {
        assert all[..k] == signals[..k];
      } else {
        assert all[..k] == signals;
      }
    }
  }

  lemma {:induction false} BeginKeepsInv(s: State, signals: seq<Signal>, turn: string, message: string, reply: TurnReply)
    requires Inv(s, signals) && s.active.None?
    ensures Inv(BeginTurn(s, turn, message, reply).0, signals + BeginTurn(s, turn, message, reply).2)
  {
    hide ParseTurn, ValidRequest, Outstanding, Serial;
    OutstandingAppend(signals, Sent(turn));
    SerialAppend(signals, Sent(turn));
    OutstandingAppend(signals + [Sent(turn)], Finished(turn));
    SerialAppend(signals + [Sent(turn)], Finished(turn));
    assert signals + [] == signals;
    assert signals + [Sent(turn), Finished(turn)] == signals + [Sent(turn)] + [Finished(turn)];
  }

  lemma {:induction false} ReadyKeepsInv(s: State, signals: seq<Signal>, status: Status)
    requires Inv(s, signals)
    ensures Inv(EnsureReady(s, status).0, signals) && EnsureReady(s, status).0.active == s.active
    ensures Inv(Reconnect(s, status).0, signals) && Reconnect(s, status).0.active == s.active
  {
    hide Outstanding, Serial;
  }

  lemma {:induction false} StartKeepsInv(
    s: State, signals: seq<Signal>, id: Identity, message: string, status: Status, reply: TurnReply)
    requires Inv(s, signals)
    ensures Inv(StartTurn(s, id, message, status, reply).0, signals + StartTurn(s, id, message, status, reply).2)
  {
    hide ValidateIdentity, BeginTurn, EnsureReady, Inv;
    assert signals + [] == signals;
    if s.active.None? {
      BeginKeepsInv(s, signals, id.turnId, message, reply);
      ReadyKeepsInv(s, signals, status);
      BeginKeepsInv(EnsureReady(s, status).0, signals, id.turnId, message, reply);
    }
  }

  lemma {:induction false} CancelKeepsInv(s: State, signals: seq<Signal>, turn: string, reply: CancelReply)
    requires Inv(s, signals)
    ensures Inv(CancelTurn(s, turn, reply).0, signals + CancelTurn(s, turn, reply).2)
  {
    hide Outstanding, Serial;
    assert signals + [] == signals;
    if reply.CancelAnswered? {
      OutstandingAppend(signals, Stopped(turn, reply.outcome));
      SerialAppend(signals, Stopped(turn, reply.outcome));
    }
  }

  lemma {:induction false} StepKeepsInv(s: State, signals: seq<Signal>, op: Op)
    requires Inv(s, signals)
    ensures Inv(Step(s, op).0, signals + Step(s, op).1)
  {
    hide EnsureReady, StartTurn, CancelTurn, Reconnect;
    assert signals + [] == signals;
    match op
    case DoEnsureReady(status) => ReadyKeepsInv(s, signals, status);
    case DoStart(id, message, status, reply) => StartKeepsInv(s, signals, id, message, status, reply);
    case DoCancel(turn, reply) => CancelKeepsInv(s, signals, turn, reply);
    case DoReconnect(status) => ReadyKeepsInv(s, signals, status);
    case DoReplay(reply) =>
  }

  lemma {:induction false} RunKeepsInv(s: State, signals: seq<Signal>, ops: seq<Op>)
    requires Inv(s, signals)
    ensures Inv(Run(s, signals, ops).0, Run(s, signals, ops).1)
    decreases |ops|
  {
    hide Inv, Step;
    if ops != [] {
      StepKeepsInv(s, signals, ops[0]);
      RunKeepsInv(Step(s, ops[0]).0, signals + Step(s, ops[0]).1, ops[1..]);
    }
  }

  /**
   * Whatever the host does, at most one turn is sent and unsettled, and it is
   * the active one; a turn is sent only when every earlier one was settled by a
   * terminal result or a cancel answer other than "running"; the phase agrees
   * with whether a turn is active; and no run awaits approval.
   */
  lemma {:induction false} TurnsAreSerialized(profile: string, capabilities: Capabilities, ops: seq<Op>)
    requires FromClient(profile, capabilities).Ok?
    ensures var (s, signals) := Run(FromClient(profile, capabilities).value, [], ops); Inv(s, signals)
  {
    RunKeepsInv(FromClient(profile, capabilities).value, [], ops);
  }

  // ----- positions in a run -----

  /** The state and the signals before operation `k` of a run that starts in `s`. */
  function Before(s: State, ops: seq<Op>, k: nat): (State, seq<Signal>)
    requires k <= |ops|
  {
    Run(s, [], ops[..k])
  }

  lemma {:induction false} RunSplits(s: State, signals: seq<Signal>, first: seq<Op>, second: seq<Op>)
    ensures Run(s, signals, first + second) == Run(Run(s, signals, first).0, Run(s, signals, first).1, second)
    decreases |first|
  {
    hide Step;
    if first == [] {
      assert first + second == second;
    } else {
      assert (first + second)[1..] == first[1..] + second;
      RunSplits(Step(s, first[0]).0, signals + Step(s, first[0]).1, first[1..], second);
    }
  }

  lemma {:induction false} BeforeNext(s: State, ops: seq<Op>, k: nat)
    requires k < |ops|
    ensures var (t, signals) := Before(s, ops, k);
            Before(s, ops, k + 1) == (Step(t, ops[k]).0, signals + Step(t, ops[k]).1)
  {
    hide Step;
    assert ops[..k + 1] == ops[..k] + [ops[k]];
    RunSplits(s, [], ops[..k], [ops[k]]);
    assert [ops[k]][1..] == [];
  }

  lemma {:induction false} BeforeKeepsInv(s: State, ops: seq<Op>, k: nat)
    requires Inv(s, []) && k <= |ops|
    ensures Inv(Before(s, ops, k).0, Before(s, ops, k).1)
  {
    RunKeepsInv(s, [], ops[..k]);
  }

  lemma {:induction false} StepKeepsProfile(s: State, op: Op)
    ensures Step(s, op).0.profile == s.profile
  {
    hide ValidateIdentity, ValidRequest, ParseTurn, Verdict;
  }

  lemma {:induction false} ProfileIsFixed(s: State, ops: seq<Op>, k: nat)
    requires k <= |ops|
    ensures Before(s, ops, k).0.profile == s.profile
    decreases k
  {
    hide Step, Run;
    if k == 0 {
      FirstIsStart(s, ops);
    } else {
      ProfileIsFixed(s, ops, k - 1);
      BeforeNext(s, ops, k - 1);
      StepKeepsProfile(Before(s, ops, k - 1).0, ops[k - 1]);
    }
  }

  lemma {:induction false} FirstIsStart(s: State, ops: seq<Op>)
    ensures Before(s, ops, 0) == (s, [])
  {
  }

  // ----- the active turn -----

  /** The host answered a cancel of `turn` with anything but "running". */
  predicate Settles(op: Op, turn: string) {
    op.DoCancel? && op.turn == turn && op.cancel.CancelAnswered? && !op.cancel.outcome.StillRunning?
  }

  lemma {:induction false} ActiveStep(s: State, op: Op)
    requires s.active.Some?
    ensures (Step(s, op).0.active == s.active && Step(s, op).1 == [])
         || (Settles(op, s.active.value) && Step(s, op).0.active.None?)
  {
    hide ValidateIdentity, BeginTurn;
  }

  /**
   * Over every continuation of a state with an active turn, until the host
   * settles a cancel of it, the turn stays active and nothing at all is sent.
   */
  lemma {:induction false} ActiveUntilSettled(s: State, signals: seq<Signal>, ops: seq<Op>)
    requires s.active.Some? && forall op | op in ops :: !Settles(op, s.active.value)
    ensures Run(s, signals, ops).0.active == s.active && Run(s, signals, ops).1 == signals
    decreases |ops|
  {
    hide Step, Settles;
    if ops != [] {
      assert ops[0] in ops;
      ActiveStep(s, ops[0]);
      assert signals + [] == signals;
      ActiveUntilSettled(Step(s, ops[0]).0, signals, ops[1..]);
    }
  }

  /**
   * A start with a blank message wedges the coordinator: the turn becomes active,
   * and whatever follows short of settling a cancel of it, no turn is ever sent.
   */
  lemma {:induction false} BlankMessageWedges(
    profile: string, capabilities: Capabilities, start: Op, ops: seq<Op>)
    requires FromClient(profile, capabilities).Ok?
    requires start.DoStart? && ValidateIdentity(start.id).Ok? && Unicode.Blank(start.message)
    requires forall op | op in ops :: !Settles(op, start.id.turnId)
    ensures var (s, signals) := Run(FromClient(profile, capabilities).value, [], [start] + ops);
            s.active == Some(start.id.turnId) && signals == []
  {
    hide ValidateIdentity, ParseTurn, Settles;
    var s := FromClient(profile, capabilities).value;
    var wedged := s.(phase := Running, active := Some(start.id.turnId));
    assert Step(s, start) == (wedged, []);
    assert ([start] + ops)[1..] == ops;
    assert [] + Step(s, start).1 == [];
    ActiveUntilSettled(wedged, [], ops);
  }

  lemma {:induction false} StartStep(s: State, signals: seq<Signal>, op: Op)
    requires Inv(s, signals) && s.active.None? && Step(s, op).0.active.Some?
    ensures op.DoStart? && Step(s, op).0.active == Some(op.id.turnId)
    ensures Outstanding(signals + Step(s, op).1) == if ValidRequest(s.profile, op.message) then {op.id.turnId} else {}
  {
    hide ValidateIdentity, ValidRequest, ParseTurn, Verdict, Outstanding, Serial;
    assert signals + [] == signals;
    if op.DoStart? {
      OutstandingAppend(signals, Sent(op.id.turnId));
    }
  }

  /**
   * Behind an active turn of any run stands the one start that made it active,
   * and the turn is with the host exactly if that start's request was valid.
   */
  lemma {:induction false} ActiveIsOutstandingIff(profile: string, capabilities: Capabilities, ops: seq<Op>, n: nat)
    returns (k: nat)
    requires FromClient(profile, capabilities).Ok? && n <= |ops|
    requires Before(FromClient(profile, capabilities).value, ops, n).0.active.Some?
    ensures var start := FromClient(profile, capabilities).value;
            var (s, signals) := Before(start, ops, n);
            && k < n && ops[k].DoStart? && Before(start, ops, k).0.active.None?
            && (forall j | k < j <= n :: Before(start, ops, j).0.active == Some(ops[k].id.turnId))
            && Outstanding(signals) == if ValidRequest(profile, ops[k].message) then {s.active.value} else {}
    decreases n
  {
    hide Step, Run, ValidRequest, Outstanding, Serial, Settles;
    var start := FromClient(profile, capabilities).value;
    FirstIsStart(start, ops);
    var (s, signals) := Before(start, ops, n - 1);
    BeforeNext(start, ops, n - 1);
    BeforeKeepsInv(start, ops, n - 1) by {
      StartIsFine(profile, capabilities);
    }
    if s.active.Some? {
      k := ActiveIsOutstandingIff(profile, capabilities, ops, n - 1);
      ActiveStep(s, ops[n - 1]);
      assert signals + [] == signals;
    } else {
      k := n - 1;
      ProfileIsFixed(start, ops, n - 1);
      StartStep(s, signals, ops[n - 1]);
    }
  }

  lemma {:induction false} StartIsFine(profile: string, capabilities: Capabilities)
    requires FromClient(profile, capabilities).Ok?
    ensures Inv(FromClient(profile, capabilities).value, [])
  {
  }

  /** Every start of the run would be sent. */
  predicate StartsAreValid(profile: string, ops: seq<Op>) {
    forall op | op in ops && op.DoStart? :: ValidRequest(profile, op.message)
  }

  /** If no start is blank, the turns with the host are exactly the active one, and nothing is wedged. */
  lemma {:induction false} OutstandingIsActive(profile: string, capabilities: Capabilities, ops: seq<Op>)
    requires FromClient(profile, capabilities).Ok? && StartsAreValid(profile, ops)
    ensures var (s, signals) := Run(FromClient(profile, capabilities).value, [], ops);
            Outstanding(signals) == if s.active.Some? then {s.active.value} else {}
  {
    hide Run, Outstanding, ValidRequest, Serial;
    var start := FromClient(profile, capabilities).value;
    TurnsAreSerialized(profile, capabilities, ops);
    assert ops[..|ops|] == ops;
    if Run(start, [], ops).0.active.Some? {
      var k := ActiveIsOutstandingIff(profile, capabilities, ops, |ops|);
      assert ops[k] in ops;
    }
  }

  // ----- a turn hidden behind Ready -----

  /** Ready is shown although a turn is still active. */
  predicate Masked(s: State) {
    s.phase.Ready? && s.active.Some?
  }

  /** A refresh that finds the host as it was before it was lost. */
  predicate Masks(s: State, op: Op) {
    s.active.Some? && s.phase.Disconnected? && (op.DoEnsureReady? || op.DoReconnect?) && op.status == Reached(s.capabilities)
  }

  /**
   * A refresh that loses the host, or finds it changed though its profile is the
   * same (a reconnect does not look at the profile), or a cancel the host answers.
   */
  predicate Unmasks(s: State, op: Op) {
    match op
    case DoEnsureReady(status) =>
      status.Unreachable? || (status.capabilities != s.capabilities && status.capabilities.profile == s.capabilities.profile)
    case DoReconnect(status) => status.Unreachable? || status.capabilities != s.capabilities
    case DoCancel(turn, reply) =>
      s.active == Some(turn) && !Unicode.Blank(turn) && "turn.cancel" in s.capabilities.names && reply.CancelAnswered?
    case DoStart(_, _, _, _) => false
    case DoReplay(_) => false
  }

  lemma {:induction false} MaskStep(s: State, op: Op)
    ensures Masked(Step(s, op).0) <==> if Masked(s) then !Unmasks(s, op) else Masks(s, op)
  {
    hide ValidateIdentity, ValidRequest, ParseTurn, Unicode.Blank;
  }

  /** Operation `k` masked the active turn and nothing since has shown it again. */
  predicate MaskedSince(start: State, ops: seq<Op>, k: nat, n: nat)
    requires k < n <= |ops|
  {
    && Masks(Before(start, ops, k).0, ops[k])
    && forall j | k < j < n :: !Unmasks(Before(start, ops, j).0, ops[j])
  }

  /**
   * In every run, Ready is shown with a turn active exactly if some refresh found
   * a lost host unchanged while the turn was active, and since then the host was
   * neither lost nor changed nor answered a cancel.
   */
  lemma {:induction false} ReadyHidesTurnIff(profile: string, capabilities: Capabilities, ops: seq<Op>, n: nat)
    requires FromClient(profile, capabilities).Ok? && n <= |ops|
    ensures var start := FromClient(profile, capabilities).value;
            Masked(Before(start, ops, n).0) <==> exists k :: 0 <= k < n && MaskedSince(start, ops, k, n)
    decreases n
  {
    hide Step, Run, Masks, Unmasks;
    var start := FromClient(profile, capabilities).value;
    if n == 0 {
      FirstIsStart(start, ops);
    } else {
      var s := Before(start, ops, n - 1).0;
      ReadyHidesTurnIff(profile, capabilities, ops, n - 1);
      BeforeNext(start, ops, n - 1);
      MaskStep(s, ops[n - 1]);
      MaskedSinceGrows(start, ops, n);
      if Masks(s, ops[n - 1]) {
        MasksOnlyLost(s, ops[n - 1]);
        assert MaskedSince(start, ops, n - 1, n);
      }
      if Masked(s) && !Unmasks(s, ops[n - 1]) {
        var k :| 0 <= k < n - 1 && MaskedSince(start, ops, k, n - 1);
        assert MaskedSince(start, ops, k, n);
      }
      if k :| 0 <= k < n && MaskedSince(start, ops, k, n) {
        assert k < n - 1 ==> MaskedSince(start, ops, k, n - 1);
      }
    }
  }

  lemma {:induction false} MaskedSinceGrows(start: State, ops: seq<Op>, n: nat)
    requires 0 < n <= |ops|
    ensures forall k | 0 <= k < n - 1 ::
      MaskedSince(start, ops, k, n) <==> MaskedSince(start, ops, k, n - 1) && !Unmasks(Before(start, ops, n - 1).0, ops[n - 1])
  {
    hide Masks, Unmasks, Before;
  }

  lemma {:induction false} MasksOnlyLost(s: State, op: Op)
    requires Masks(s, op)
    ensures !Masked(s)
  {
  }

  /** Such a run: a reply is lost, then the host, and the same host is back with the turn still outstanding. */
  lemma {:induction false} ReconnectHidesUnknownEffect(profile: string, capabilities: Capabilities, id: Identity, message: string)
    returns (ops: seq<Op>)
    requires FromClient(profile, capabilities).Ok? && ValidateIdentity(id).Ok? && ValidRequest(profile, message)
    ensures var (s, signals) := Run(FromClient(profile, capabilities).value, [], ops);
            Masked(s) && s.active == Some(id.turnId) && Outstanding(signals) == {id.turnId}
  {
    hide ValidateIdentity, ValidRequest, Outstanding;
    var s0 := FromClient(profile, capabilities).value;
    var op0 := DoStart(id, message, Unreachable, Lost);
    var op1, op2 := DoReconnect(Unreachable), DoReconnect(Reached(capabilities));
    ops := [op0, op1, op2];
    var s1 := s0.(phase := EffectUnknown, active := Some(id.turnId));
    assert Step(s0, op0) == (s1, [Sent(id.turnId)]);
    var s2 := s1.(phase := Disconnected);
    var sent := [Sent(id.turnId)];
    assert ops[1..] == [op1, op2] && [op1, op2][1..] == [op2] && [op2][1..] == [];
    assert [] + sent == sent && sent + [] == sent;
    assert Run(s0, [], ops) == Run(s1, sent, [op1, op2]);
    assert Run(s1, sent, [op1, op2]) == Run(s2, sent, [op2]);
    assert Run(s2, sent, [op2]) == Run(s2.(phase := Ready), sent, []);
    OutstandingAppend([], Sent(id.turnId));
    assert Outstanding([]) == {} by {
      NothingOutstanding();
    }
  }

  lemma {:induction false} NothingOutstanding()
    ensures Outstanding([]) == {}
  {
  }

  // ----- the host a turn goes to -----

  /** The host an operation learns of, if it asks and is answered. */
  function Learns(s: State, op: Op): Option<Capabilities> {
    var status := match op
      case DoEnsureReady(status) => status
      case DoReconnect(status) => status
      case DoStart(id, _, status, _) =>
        if ValidateIdentity(id).Ok? && s.active.None? && s.phase.Disconnected? then status else Unreachable
      case DoCancel(_, _) => Unreachable
      case DoReplay(_) => Unreachable;
    if status.Reached? then Some(status.capabilities) else None
  }

  lemma {:induction false} LearnStep(s: State, op: Op)
    ensures Step(s, op).0.capabilities == if Learns(s, op).Some? then Learns(s, op).value else s.capabilities
  {
    hide ValidateIdentity, ValidRequest, ParseTurn, Verdict;
  }

  /** The profile of the host learned of last among the first `n` operations, or the coordinator's own. */
  function LastProfile(start: State, ops: seq<Op>, n: nat): string
    requires n <= |ops|
  {
    if n == 0 then start.capabilities.profile
    else
      var learned := Learns(Before(start, ops, n - 1).0, ops[n - 1]);
      if learned.Some? then learned.value.profile else LastProfile(start, ops, n - 1)
  }

  /** Before every operation the host is the one learned of last, whether or not it was refused for its profile. */
  lemma {:induction false} HostIsLastLearned(start: State, ops: seq<Op>, n: nat)
    requires n <= |ops|
    ensures Before(start, ops, n).0.capabilities.profile == LastProfile(start, ops, n)
    decreases n
  {
    hide Step, Run, Learns;
    if n == 0 {
      FirstIsStart(start, ops);
    } else {
      HostIsLastLearned(start, ops, n - 1);
      BeforeNext(start, ops, n - 1);
      LearnStep(Before(start, ops, n - 1).0, ops[n - 1]);
    }
  }

  /** Operation `k` hands a turn to the host. */
  predicate Sends(start: State, ops: seq<Op>, k: nat)
    requires k < |ops|
  {
    exists signal | signal in Step(Before(start, ops, k).0, ops[k]).1 :: signal.Sent?
  }

  lemma {:induction false} SendStep(s: State, op: Op)
    requires exists signal | signal in Step(s, op).1 :: signal.Sent?
    ensures op.DoStart? && s.active.None? && (s.phase.Disconnected? ==> op.status.Reached?)
    ensures s.phase.Disconnected? ==> op.status.capabilities.profile == s.capabilities.profile
    ensures Step(s, op).0.capabilities.profile == s.capabilities.profile
  {
    hide ValidateIdentity, ValidRequest, ParseTurn, Verdict;
  }

  /**
   * A turn goes to a host of the coordinator's own profile exactly if the host
   * learned of last before it had that profile.
   */
  lemma {:induction false} SentToOwnProfileIff(profile: string, capabilities: Capabilities, ops: seq<Op>, k: nat)
    requires FromClient(profile, capabilities).Ok? && k < |ops|
    requires Sends(FromClient(profile, capabilities).value, ops, k)
    ensures var start := FromClient(profile, capabilities).value;
            Before(start, ops, k + 1).0.capabilities.profile == profile <==> LastProfile(start, ops, k) == profile
  {
    hide Step, Run;
    var start := FromClient(profile, capabilities).value;
    BeforeNext(start, ops, k);
    HostIsLastLearned(start, ops, k);
    SendStep(Before(start, ops, k).0, ops[k]);
  }

  /** A host refused for its profile is sent the next turn all the same. */
  lemma {:induction false} RefusedHostIsSentATurn(
    profile: string, capabilities: Capabilities, other: Capabilities, id: Identity, message: string, reply: TurnReply)
    requires FromClient(profile, capabilities).Ok? && other.profile != profile
    requires ValidateIdentity(id).Ok? && ValidRequest(profile, message)
    ensures var s := FromClient(profile, capabilities).value;
            var (t, answer) := EnsureReady(s, Reached(other));
            var (u, _, signals) := StartTurn(t, id, message, Unreachable, reply);
            && answer == Err(ProtocolMismatch)
            && Sent(id.turnId) in signals && u.capabilities == other && u.profile == profile
            && EnsureReady(t, Reached(other)) == (t, Ok(()))
  {
    hide ValidateIdentity, ValidRequest, ParseTurn, Verdict;
    assert Sent(id.turnId) in [Sent(id.turnId)] && Sent(id.turnId) in [Sent(id.turnId), Finished(id.turnId)];
  }

  lemma {:induction false} GoodFieldsPass(fields: seq<(string, string)>)
    requires forall field | field in fields :: IdentityField(field.1)
    ensures FirstBadField(fields).None?
    decreases |fields|
  {
    hide IdentityField;
    if fields != [] {
      assert fields[0] in fields;
      GoodFieldsPass(fields[1..]);
    }
  }

  /** The identities and messages these runs ask for exist. */
  lemma {:induction false} PlainIdentityIsValid()
    ensures ValidateIdentity(Identity("x", "x", "x", "x", "x", "x", "x", "x", 0)).Ok? && ValidRequest("x", "x")
  {
    assert "x"[0] == 'x' && |"x"| == 1;
    assert !Unicode.Blank("x") by {
      assert !Unicode.Whitespace("x"[0]);
    }
    assert Unicode.Utf8Len("x") <= 256 by {
      assert "x"[1..] == "";
    }
    assert IdentityField("x");
    GoodFieldsPass([("workspace_id", "x"), ("session_id", "x"), ("turn_id", "x"), ("attempt_id", "x"),
                    ("idempotency_key", "x"), ("run_id", "x"), ("stage_id", "x"), ("fence", "x")]);
  }

  /** The accepted results are exactly those with one terminal flag, and the phase names it. */
  lemma {:induction false} ParsedVerdict(r: TurnResult)
    ensures ParseTurn(Answered(r)).Ok?
       <==> && (r.completed || r.failed || r.interrupted) && !(r.completed && r.failed)
            && !(r.completed && r.interrupted) && !(r.failed && r.interrupted)
            && !(r.completed && r.error.Some?)
    ensures ParseTurn(Answered(r)).Ok?
        ==> && (Verdict(r).Completed? <==> r.completed) && (Verdict(r).Cancelled? <==> r.interrupted)
            && (Verdict(r).Terminal? <==> r.failed)
  {
    var flags := [r.completed, r.failed, r.interrupted];
    assert flags[1..] == [r.failed, r.interrupted] && flags[1..][1..] == [r.interrupted] && flags[1..][1..][1..] == [];
    assert TrueCount([r.interrupted]) == if r.interrupted then 1 else 0;
    assert TrueCount(flags[1..]) == (if r.failed then 1 else 0) + TrueCount([r.interrupted]);
    assert TrueCount(flags) == (if r.completed then 1 else 0) + TrueCount(flags[1..]);
  }
}
