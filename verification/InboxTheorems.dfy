/**
 * What holds over every run of the inbox from its empty state: one dispatch and
 * one receipt per intent, no dispatch without its authorization and
 * confirmation, refusals without effect, and redelivery without effect.
 */
module InboxTheorems {
  import opened Prelude
  import opened InboxModel

  // ----- the invariant every operation keeps -----

  predicate ItemOk(s: State, key: string)
    requires key in s.items
  {
    var item := s.items[key];
    && item.sessionId == key
    && (item.intentId.Some? ==>
          && item.intentId.value in s.decisions
          && s.decisions[item.intentId.value].intent.sessionId == key
          && s.decisions[item.intentId.value].intent.target == item.target)
    && (item.receiptId.Some? ==> item.intentId.Some? && s.decisions[item.intentId.value].dispatched)
    && (item.status.NeedsDecision? ==> item.intentId.None? && item.receiptId.None?)
  }

  predicate DecisionOk(s: State, id: string)
    requires id in s.decisions
  {
    var d := s.decisions[id];
    && d.intent.intentId == id && d.intent.sessionId in s.items
    && (d.authorization.Some? ==>
          && d.authorization.value.intentId == id
          && d.authorization.value.target == d.intent.target
          && d.authorization.value.policyRevision == d.intent.policyRevision)
    && (d.confirmed || d.dispatched ==> Approved(d))
  }

  predicate Inv(s: State) {
    && (forall key :: key in s.items ==> ItemOk(s, key))
    && (forall id :: id in s.decisions ==> DecisionOk(s, id))
    && (forall id :: id in s.seen ==> s.seen[id].eventId == id)
  }

  lemma {:induction false} AttentionKeepsInv(clean: Cleaner, s: State, e: Event)
    requires Inv(s) && e.Attention? && ApplyAttention(clean, s, e).Ok?
    ensures Inv(ApplyAttention(clean, s, e).value)
  {
    hide ValidateAll, Validate;
    var t := ApplyAttention(clean, s, e).value;
    forall key | key in t.items
      ensures ItemOk(t, key)
    {
      assert key in s.items ==> ItemOk(s, key);
    }
    forall id | id in t.decisions
      ensures DecisionOk(t, id)
    {
      assert DecisionOk(s, id);
    }
  }

  lemma {:induction false} AuthorizationKeepsInv(s: State, a: Authorization)
    requires Inv(s) && ApplyAuthorization(s, a).Ok?
    ensures Inv(ApplyAuthorization(s, a).value)
  {
    hide ValidateAuthorization, NeedsConfirmation;
    var t := ApplyAuthorization(s, a).value;
    forall key | key in t.items
      ensures ItemOk(t, key)
    {
      assert ItemOk(s, key);
    }
    forall id | id in t.decisions
      ensures DecisionOk(t, id)
    {
      assert DecisionOk(s, id);
    }
  }

  lemma {:induction false} ReceiptKeepsInv(s: State, e: Event)
    requires Inv(s) && e.Receipt? && ApplyReceipt(s, e).Ok?
    ensures Inv(ApplyReceipt(s, e).value)
  {
    hide Validate;
    var t := ApplyReceipt(s, e).value;
    assert DecisionOk(s, e.intentId) && ItemOk(s, s.decisions[e.intentId].intent.sessionId);
    assert forall key :: key in s.items ==> ItemOk(s, key) && t.items[key].intentId == s.items[key].intentId;
    assert forall id :: id in s.decisions ==> DecisionOk(s, id);
  }

  lemma {:induction false} SeenKeepsInv(s: State, e: Event)
    requires Inv(s)
    ensures Inv(s.(seen := s.seen[e.eventId := e]))
  {
    var t := s.(seen := s.seen[e.eventId := e]);
    assert forall key :: key in s.items ==> ItemOk(s, key) && ItemOk(t, key);
    assert forall id :: id in s.decisions ==> DecisionOk(s, id) && DecisionOk(t, id);
  }

  lemma {:induction false} ApplyKeepsInv(clean: Cleaner, s: State, e: Event)
    requires Inv(s)
    ensures Inv(Apply(clean, s, e).0)
  {
    hide Token, Inv, ApplyAttention, ApplyAuthorization, ApplyReceipt;
    if ApplyNew(clean, s, e).Ok? {
      match e {
        case Attention(_, _, _, _, _, _, _, _, _, _) => AttentionKeepsInv(clean, s, e);
        case Authorized(_, a) => AuthorizationKeepsInv(s, a);
        case Receipt(_, _, _, _, _, _, _) => ReceiptKeepsInv(s, e);
      }
      SeenKeepsInv(ApplyNew(clean, s, e).value, e);
    }
  }

  lemma {:induction false} RecordKeepsInv(s: State, intent: Intent)
    requires Inv(s)
    ensures Inv(RecordIntent(s, intent).0)
  {
    hide ValidateIntent;
    var t := RecordIntent(s, intent).0;
    assert forall key :: key in s.items ==> ItemOk(s, key);
    assert forall id :: id in s.decisions ==> DecisionOk(s, id);
  }

  lemma {:induction false} ConfirmKeepsInv(s: State, id: string)
    requires Inv(s)
    ensures Inv(Confirm(s, id).0)
  {
    assert forall key :: key in s.items ==> ItemOk(s, key);
    assert forall other :: other in s.decisions ==> DecisionOk(s, other);
  }

  lemma {:induction false} DispatchKeepsInv(s: State, id: string)
    requires Inv(s)
    ensures Inv(TakeDispatch(s, id).0)
  {
    hide NeedsConfirmation;
    assert forall key :: key in s.items ==> ItemOk(s, key);
    assert forall other :: other in s.decisions ==> DecisionOk(s, other);
  }

  lemma {:induction false} StepKeepsInv(clean: Cleaner, s: State, op: Op)
    requires Inv(s)
    ensures Inv(Step(clean, s, op).0)
  {
    hide Inv, Apply, RecordIntent, Confirm, TakeDispatch;
    match op
    case DoApply(e) => ApplyKeepsInv(clean, s, e);
    case DoRecord(intent) => RecordKeepsInv(s, intent);
    case DoConfirm(id) => ConfirmKeepsInv(s, id);
    case DoDispatch(id) => DispatchKeepsInv(s, id);
  }

  lemma {:induction false} RunKeepsInv(clean: Cleaner, s: State, ops: seq<Op>)
    requires Inv(s)
    ensures Inv(Run(clean, s, ops))
    decreases |ops|
  {
    hide Inv, Step;
    if ops != [] {
      StepKeepsInv(clean, s, ops[0]);
      RunKeepsInv(clean, Step(clean, s, ops[0]).0, ops[1..]);
    }
  }

  lemma {:induction false} RunSplits(clean: Cleaner, s: State, first: seq<Op>, second: seq<Op>)
    ensures Run(clean, s, first + second) == Run(clean, Run(clean, s, first), second)
    decreases |first|
  {
    hide Step;
    if first == [] {
      assert first + second == second;
    } else {
      assert (first + second)[1..] == first[1..] + second;
      RunSplits(clean, Step(clean, s, first[0]).0, first[1..], second);
    }
  }

  lemma {:induction false} BeforeNext(clean: Cleaner, ops: seq<Op>, k: nat)
    requires k < |ops|
    ensures Before(clean, ops, k + 1) == Step(clean, Before(clean, ops, k), ops[k]).0
  {
    hide Step;
    assert ops[..k + 1] == ops[..k] + [ops[k]];
    RunSplits(clean, EMPTY, ops[..k], [ops[k]]);
    assert [ops[k]][1..] == [];
  }

  /** The invariant holds before every operation of every run. */
  lemma {:induction false} EveryStateIsValid(clean: Cleaner, ops: seq<Op>, k: nat)
    requires k <= |ops|
    ensures Inv(Before(clean, ops, k))
  {
    RunKeepsInv(clean, EMPTY, ops[..k]);
  }

  /** A stored receipt belongs to a dispatched intent of that session and target. */
  lemma {:induction false} ReceiptsAreEarned(clean: Cleaner, ops: seq<Op>, session: string)
    requires session in Run(clean, EMPTY, ops).items
    requires Run(clean, EMPTY, ops).items[session].receiptId.Some?
    ensures var s := Run(clean, EMPTY, ops);
            var item := s.items[session];
            && item.intentId.Some? && item.intentId.value in s.decisions
            && var d := s.decisions[item.intentId.value];
            && d.dispatched && Approved(d) && d.intent.sessionId == session && d.intent.target == item.target
  {
    hide Run;
    RunKeepsInv(clean, EMPTY, ops);
    var s := Run(clean, EMPTY, ops);
    assert ItemOk(s, session);
    assert DecisionOk(s, s.items[session].intentId.value);
  }

  // ----- refusals change nothing -----

  /** The one refusal that does leave a mark, on a state no run reaches. */
  predicate LeavesMark(s: State, op: Op) {
    && op.DoConfirm? && op.intentId in s.decisions && Approved(s.decisions[op.intentId])
    && s.decisions[op.intentId].intent.sessionId !in s.items && !s.decisions[op.intentId].confirmed
  }

  lemma {:induction false} RefusalKeepsStateIff(clean: Cleaner, s: State, op: Op)
    requires Step(clean, s, op).1.Refused?
    ensures Step(clean, s, op).0 == s <==> !LeavesMark(s, op)
  {
    hide Token, ValidateIntent, ApplyNew, NeedsConfirmation;
    if op.DoConfirm? && op.intentId in s.decisions && Approved(s.decisions[op.intentId]) {
      var d := s.decisions[op.intentId];
      var marked := s.decisions[op.intentId := d.(confirmed := true)];
      assert marked[op.intentId].confirmed;
      if d.confirmed {
        assert d.(confirmed := true) == d;
        assert marked == s.decisions;
      }
    }
  }

  lemma {:induction false} InvLeavesNoMark(s: State, op: Op)
    requires Inv(s)
    ensures !LeavesMark(s, op)
  {
    if op.DoConfirm? && op.intentId in s.decisions {
      assert DecisionOk(s, op.intentId);
    }
  }

  /** In every run, an operation that is refused leaves the whole state unchanged. */
  lemma {:induction false} RefusalsHaveNoEffect(clean: Cleaner, ops: seq<Op>, k: nat)
    requires k < |ops| && ReplyAt(clean, ops, k).Refused?
    ensures Before(clean, ops, k + 1) == Before(clean, ops, k)
  {
    hide Step, Run, Inv, LeavesMark;
    EveryStateIsValid(clean, ops, k);
    BeforeNext(clean, ops, k);
    InvLeavesNoMark(Before(clean, ops, k), ops[k]);
    RefusalKeepsStateIff(clean, Before(clean, ops, k), ops[k]);
  }

  /** A state with an orphaned decision shows why the invariant is needed. */
  lemma {:induction false} OrphanConfirmLeavesMark(clean: Cleaner, d: Decision)
    requires Approved(d) && !d.confirmed
    ensures var s := State(map[], map[d.intent.intentId := d], map[]);
            && Step(clean, s, DoConfirm(d.intent.intentId)).1 == Refused(UnknownIntent)
            && Step(clean, s, DoConfirm(d.intent.intentId)).0 != s
  {
    var s := State(map[], map[d.intent.intentId := d], map[]);
    RefusalKeepsStateIff(clean, s, DoConfirm(d.intent.intentId));
  }

  // ----- nothing decided is ever undone -----

  predicate Keeps(d: Decision, e: Decision) {
    && e.intent == d.intent && (d.authorization.Some? ==> e.authorization == d.authorization)
    && (d.confirmed ==> e.confirmed) && (d.dispatched ==> e.dispatched)
  }

  predicate Grows(s: State, t: State) {
    && (forall id :: id in s.decisions ==> id in t.decisions && Keeps(s.decisions[id], t.decisions[id]))
    && (forall id :: id in s.seen ==> id in t.seen && t.seen[id] == s.seen[id])
  }

  lemma {:induction false} ApplyGrows(clean: Cleaner, s: State, e: Event)
    ensures Grows(s, Apply(clean, s, e).0)
  {
    hide Token, Validate, ValidateAll, ValidateAuthorization, NeedsConfirmation;
  }

  lemma {:induction false} StepGrows(clean: Cleaner, s: State, op: Op)
    ensures Grows(s, Step(clean, s, op).0)
  {
    hide Apply, ValidateIntent, NeedsConfirmation;
    if op.DoApply? {
      ApplyGrows(clean, s, op.event);
    }
  }

  lemma {:induction false} GrowsTransitive(s: State, t: State, u: State)
    requires Grows(s, t) && Grows(t, u)
    ensures Grows(s, u)
  {
  }

  lemma {:induction false} BeforeGrows(clean: Cleaner, ops: seq<Op>, j: nat, k: nat)
    requires j <= k <= |ops|
    ensures Grows(Before(clean, ops, j), Before(clean, ops, k))
    decreases k - j
  {
    hide Step, Run, Grows;
    if j == k {
      GrowsReflexive(Before(clean, ops, j));
    } else {
      BeforeGrows(clean, ops, j, k - 1);
      BeforeNext(clean, ops, k - 1);
      StepGrows(clean, Before(clean, ops, k - 1), ops[k - 1]);
      GrowsTransitive(Before(clean, ops, j), Before(clean, ops, k - 1), Before(clean, ops, k));
    }
  }

  lemma {:induction false} GrowsReflexive(s: State)
    ensures Grows(s, s)
  {
  }

  // ----- one dispatch per intent -----

  lemma {:induction false} DispatchMarks(clean: Cleaner, s: State, op: Op)
    requires Inv(s) && Step(clean, s, op).1.Dispatched?
    ensures op.DoDispatch? && Step(clean, s, op).1.request.intent.intentId == op.intentId
    ensures op.intentId in s.decisions && !s.decisions[op.intentId].dispatched
    ensures op.intentId in Step(clean, s, op).0.decisions && Step(clean, s, op).0.decisions[op.intentId].dispatched
  {
    hide Apply, RecordIntent, Confirm, NeedsConfirmation;
    assert op.DoDispatch?;
    assert DecisionOk(s, op.intentId);
  }

  /** No run hands out two dispatch requests for the same intent. */
  lemma {:induction false} DispatchedAtMostOnce(clean: Cleaner, ops: seq<Op>, j: nat, k: nat)
    requires j < k < |ops| && ReplyAt(clean, ops, j).Dispatched? && ReplyAt(clean, ops, k).Dispatched?
    ensures ReplyAt(clean, ops, j).request.intent.intentId != ReplyAt(clean, ops, k).request.intent.intentId
  {
    hide Step, Run, Inv;
    EveryStateIsValid(clean, ops, j);
    EveryStateIsValid(clean, ops, k);
    DispatchMarks(clean, Before(clean, ops, j), ops[j]);
    DispatchMarks(clean, Before(clean, ops, k), ops[k]);
    BeforeNext(clean, ops, j);
    BeforeGrows(clean, ops, j + 1, k);
  }

  // ----- one accepted receipt per intent -----

  /** The intent is known, and wherever it is current its receipt is in. */
  predicate Settled(s: State, id: string) {
    id in s.decisions && forall key :: key in s.items && s.items[key].intentId == Some(id) ==> s.items[key].receiptId.Some?
  }

  lemma {:induction false} ApplyKeepsSettled(clean: Cleaner, s: State, e: Event, id: string)
    requires Settled(s, id)
    ensures Settled(Apply(clean, s, e).0, id)
  {
    hide Token, Validate, ValidateAll, ValidateAuthorization, NeedsConfirmation;
    var t := Apply(clean, s, e).0;
    if e.Authorized? && e.authorization.intentId in s.decisions {
      assert s.decisions[e.authorization.intentId].intent.sessionId in s.items || t == s;
    }
  }

  lemma {:induction false} StepKeepsSettled(clean: Cleaner, s: State, op: Op, id: string)
    requires Settled(s, id)
    ensures Settled(Step(clean, s, op).0, id)
  {
    hide Apply, ValidateIntent, NeedsConfirmation;
    if op.DoApply? {
      ApplyKeepsSettled(clean, s, op.event, id);
    }
  }

  lemma {:induction false} SettledStays(clean: Cleaner, ops: seq<Op>, j: nat, k: nat, id: string)
    requires j <= k <= |ops| && Settled(Before(clean, ops, j), id)
    ensures Settled(Before(clean, ops, k), id)
    decreases k - j
  {
    hide Step, Run, Settled;
    if j < k {
      SettledStays(clean, ops, j, k - 1, id);
      BeforeNext(clean, ops, k - 1);
      StepKeepsSettled(clean, Before(clean, ops, k - 1), ops[k - 1], id);
    }
  }

  predicate TakesReceipt(clean: Cleaner, ops: seq<Op>, k: nat)
    requires k < |ops|
  {
    ops[k].DoApply? && ops[k].event.Receipt? && ReplyAt(clean, ops, k) == Took
  }

  lemma {:induction false} ReceiptSettles(clean: Cleaner, s: State, e: Event)
    requires Inv(s) && e.Receipt? && Apply(clean, s, e).1 == Ok(Accepted)
    ensures e.intentId in s.decisions && s.decisions[e.intentId].dispatched
    ensures !Settled(s, e.intentId) && Settled(Apply(clean, s, e).0, e.intentId)
  {
    hide Token, Validate, ApplyAttention, ApplyAuthorization;
    var session := s.decisions[e.intentId].intent.sessionId;
    assert s.items[session].intentId == Some(e.intentId) && s.items[session].receiptId.None?;
    forall key | key in s.items && s.items[key].intentId == Some(e.intentId)
      ensures key == session
    {
      assert ItemOk(s, key);
    }
  }

  /** No run accepts two receipts for the same intent. */
  lemma {:induction false} ReceiptedAtMostOnce(clean: Cleaner, ops: seq<Op>, j: nat, k: nat)
    requires j < k < |ops| && TakesReceipt(clean, ops, j) && TakesReceipt(clean, ops, k)
    ensures ops[j].event.intentId != ops[k].event.intentId
  {
    hide Run, Inv, Apply, Settled;
    EveryStateIsValid(clean, ops, j);
    EveryStateIsValid(clean, ops, k);
    BeforeNext(clean, ops, j);
    ReceiptSettles(clean, Before(clean, ops, j), ops[j].event);
    ReceiptSettles(clean, Before(clean, ops, k), ops[k].event);
    if ops[j].event.intentId == ops[k].event.intentId {
      SettledStays(clean, ops, j + 1, k, ops[j].event.intentId);
    }
  }

  // ----- every dispatch was recorded, authorized and confirmed -----

  /** `t` has the decisions of `s`, at most with other authorizations, and the same events seen. */
  ghost predicate KeepsDecisions(s: State, t: State) {
    && t.decisions.Keys == s.decisions.Keys && t.seen == s.seen
    && forall id | id in s.decisions :: t.decisions[id] == s.decisions[id].(authorization := t.decisions[id].authorization)
  }

  lemma {:induction false} AttentionFrame(clean: Cleaner, s: State, e: Event)
    requires e.Attention? && ApplyAttention(clean, s, e).Ok?
    ensures KeepsDecisions(s, ApplyAttention(clean, s, e).value)
  {
    hide Validate, ValidateAll;
  }

  lemma {:induction false} AuthorizationFrame(s: State, a: Authorization)
    requires ApplyAuthorization(s, a).Ok?
    ensures KeepsDecisions(s, ApplyAuthorization(s, a).value)
  {
    hide ValidateAuthorization, NeedsConfirmation;
  }

  lemma {:induction false} ReceiptFrame(s: State, e: Event)
    requires e.Receipt? && ApplyReceipt(s, e).Ok?
    ensures KeepsDecisions(s, ApplyReceipt(s, e).value)
  {
    hide Validate;
  }

  /** An event changes a decision in nothing but its authorization, and is remembered if it is accepted. */
  lemma {:induction false} ApplyFrame(clean: Cleaner, s: State, e: Event)
    ensures var t := Apply(clean, s, e).0;
            && t.decisions.Keys == s.decisions.Keys
            && (forall id | id in s.decisions :: t.decisions[id] == s.decisions[id].(authorization := t.decisions[id].authorization))
            && (t.seen == s.seen || (Apply(clean, s, e).1 == Ok(Accepted) && t.seen == s.seen[e.eventId := e]))
  {
    hide Token, ApplyAttention, ApplyAuthorization, ApplyReceipt;
    if ApplyNew(clean, s, e).Ok? {
      match e
      case Attention(_, _, _, _, _, _, _, _, _, _) => AttentionFrame(clean, s, e);
      case Authorized(_, a) => AuthorizationFrame(s, a);
      case Receipt(_, _, _, _, _, _, _) => ReceiptFrame(s, e);
    }
  }

  lemma {:induction false} NewDecision(clean: Cleaner, s: State, op: Op, id: string)
    requires id !in s.decisions && id in Step(clean, s, op).0.decisions
    ensures op == DoRecord(Step(clean, s, op).0.decisions[id].intent) && Step(clean, s, op).1 == Took
  {
    hide Apply, ValidateIntent, NeedsConfirmation;
    if op.DoApply? {
      ApplyFrame(clean, s, op.event);
    }
  }

  lemma {:induction false} NewAuthorization(clean: Cleaner, s: State, op: Op, id: string)
    requires id in s.decisions && s.decisions[id].authorization.None?
    requires id in Step(clean, s, op).0.decisions && Step(clean, s, op).0.decisions[id].authorization.Some?
    ensures op.DoApply? && op.event.Authorized? && Step(clean, s, op).1 == Took
    ensures op.event.authorization == Step(clean, s, op).0.decisions[id].authorization.value
  {
    hide Token, Validate, ValidateAll, ValidateAuthorization, ValidateIntent, NeedsConfirmation;
  }

  lemma {:induction false} NewConfirmation(clean: Cleaner, s: State, op: Op, id: string)
    requires Inv(s) && id in s.decisions && !s.decisions[id].confirmed
    requires id in Step(clean, s, op).0.decisions && Step(clean, s, op).0.decisions[id].confirmed
    ensures op == DoConfirm(id) && Step(clean, s, op).1 == Took && Approved(s.decisions[id])
  {
    hide Apply, ValidateIntent, NeedsConfirmation;
    if op.DoApply? {
      ApplyFrame(clean, s, op.event);
    }
    assert DecisionOk(s, id);
  }

  lemma {:induction false} FreshIsPlain(clean: Cleaner, s: State, op: Op, id: string)
    requires id !in s.decisions && id in Step(clean, s, op).0.decisions
    ensures Step(clean, s, op).0.decisions[id].authorization.None? && !Step(clean, s, op).0.decisions[id].confirmed
  {
    hide Apply, ValidateIntent, NeedsConfirmation;
    if op.DoApply? {
      ApplyFrame(clean, s, op.event);
    }
  }

  lemma {:induction false} RecordOrigin(clean: Cleaner, ops: seq<Op>, k: nat, id: string) returns (r: nat)
    requires k <= |ops| && id in Before(clean, ops, k).decisions
    ensures r < k && ops[r] == DoRecord(Before(clean, ops, k).decisions[id].intent) && ReplyAt(clean, ops, r) == Took
  {
    hide Step;
    if k > 0 {
      BeforeNext(clean, ops, k - 1);
      BeforeGrows(clean, ops, k - 1, k);
      if id in Before(clean, ops, k - 1).decisions {
        r := RecordOrigin(clean, ops, k - 1, id);
      } else {
        NewDecision(clean, Before(clean, ops, k - 1), ops[k - 1], id);
        r := k - 1;
      }
    }
  }

  lemma {:induction false} AuthorizationOrigin(clean: Cleaner, ops: seq<Op>, k: nat, id: string) returns (a: nat)
    requires k <= |ops| && id in Before(clean, ops, k).decisions
    requires Before(clean, ops, k).decisions[id].authorization.Some?
    ensures a < k && ops[a].DoApply? && ops[a].event.Authorized? && ReplyAt(clean, ops, a) == Took
    ensures ops[a].event.authorization == Before(clean, ops, k).decisions[id].authorization.value
    ensures id in Before(clean, ops, a).decisions
  {
    hide Step;
    if k > 0 {
      var s := Before(clean, ops, k - 1);
      BeforeNext(clean, ops, k - 1);
      BeforeGrows(clean, ops, k - 1, k);
      if id !in s.decisions {
        FreshIsPlain(clean, s, ops[k - 1], id);
      } else if s.decisions[id].authorization.Some? {
        a := AuthorizationOrigin(clean, ops, k - 1, id);
      } else {
        NewAuthorization(clean, s, ops[k - 1], id);
        a := k - 1;
      }
    }
  }

  lemma {:induction false} ConfirmationOrigin(clean: Cleaner, ops: seq<Op>, k: nat, id: string) returns (c: nat)
    requires k <= |ops| && id in Before(clean, ops, k).decisions && Before(clean, ops, k).decisions[id].confirmed
    ensures c < k && ops[c] == DoConfirm(id) && ReplyAt(clean, ops, c) == Took
    ensures id in Before(clean, ops, c).decisions && Approved(Before(clean, ops, c).decisions[id])
  {
    hide Step, Inv;
    if k > 0 {
      var s := Before(clean, ops, k - 1);
      BeforeNext(clean, ops, k - 1);
      BeforeGrows(clean, ops, k - 1, k);
      if id !in s.decisions {
        FreshIsPlain(clean, s, ops[k - 1], id);
      } else if s.decisions[id].confirmed {
        c := ConfirmationOrigin(clean, ops, k - 1, id);
      } else {
        EveryStateIsValid(clean, ops, k - 1);
        NewConfirmation(clean, s, ops[k - 1], id);
        c := k - 1;
      }
    }
  }

  /** The risk of the item a dispatch is for, at the moment it is dispatched. */
  function RiskAt(clean: Cleaner, ops: seq<Op>, k: nat, session: string): Risk
    requires k <= |ops| && session in Before(clean, ops, k).items
  {
    Before(clean, ops, k).items[session].risk
  }

  lemma {:induction false} DispatchChecks(clean: Cleaner, s: State, id: string)
    requires TakeDispatch(s, id).1.Ok?
    ensures id in s.decisions && Approved(s.decisions[id]) && s.decisions[id].intent.sessionId in s.items
    ensures TakeDispatch(s, id).1.value
         == DispatchRequest(s.decisions[id].intent, s.decisions[id].authorization.value.decisionId)
    ensures NeedsConfirmation(s.items[s.decisions[id].intent.sessionId].risk, s.decisions[id].intent.action)
        ==> s.decisions[id].confirmed
  {
  }

  /**
   * Behind every dispatch of every run stand, in this order, the record of that
   * very intent, an accepted approval that matches it, and, where the item's
   * risk or the action demands one, the operator's confirmation.
   */
  lemma {:induction false} DispatchIsAuthorized(clean: Cleaner, ops: seq<Op>, k: nat)
    returns (record: nat, approval: nat, confirmation: nat)
    requires k < |ops| && ReplyAt(clean, ops, k).Dispatched?
    ensures var request := ReplyAt(clean, ops, k).request;
            && ops[k] == DoDispatch(request.intent.intentId)
            && record < approval < k && ops[record] == DoRecord(request.intent)
            && ops[approval].DoApply? && ops[approval].event.Authorized? && ReplyAt(clean, ops, approval) == Took
            && var a := ops[approval].event.authorization;
            && a.approved && a.intentId == request.intent.intentId && a.decisionId == request.decisionId
            && a.target == request.intent.target && a.policyRevision == request.intent.policyRevision
            && request.intent.sessionId in Before(clean, ops, k).items
            && (NeedsConfirmation(RiskAt(clean, ops, k, request.intent.sessionId), request.intent.action)
                ==> approval < confirmation < k && ops[confirmation] == DoConfirm(request.intent.intentId)
                    && ReplyAt(clean, ops, confirmation) == Took)
  {
    hide Run, Inv, Apply, RecordIntent, Confirm, TakeDispatch, NeedsConfirmation;
    var s := Before(clean, ops, k);
    EveryStateIsValid(clean, ops, k);
    DispatchMarks(clean, s, ops[k]);
    var id := ops[k].intentId;
    DispatchChecks(clean, s, id);
    InvGivesDecisionOk(s, id);
    confirmation := k;
    if s.decisions[id].confirmed {
      confirmation := ConfirmationOrigin(clean, ops, k, id);
      BeforeGrows(clean, ops, confirmation, k);
    }
    approval := AuthorizationOrigin(clean, ops, confirmation, id);
    record := RecordOrigin(clean, ops, approval, id);
    BeforeGrows(clean, ops, approval, k);
  }

  lemma {:induction false} InvGivesDecisionOk(s: State, id: string)
    requires Inv(s) && id in s.decisions
    ensures DecisionOk(s, id)
  {
  }

  lemma {:induction false} NewDispatch(clean: Cleaner, s: State, op: Op, id: string)
    requires id in Step(clean, s, op).0.decisions && Step(clean, s, op).0.decisions[id].dispatched
    requires id !in s.decisions || !s.decisions[id].dispatched
    ensures op == DoDispatch(id) && Step(clean, s, op).1.Dispatched?
  {
    hide Apply, ValidateIntent, NeedsConfirmation;
    if op.DoApply? {
      ApplyFrame(clean, s, op.event);
    }
  }

  lemma {:induction false} DispatchOrigin(clean: Cleaner, ops: seq<Op>, k: nat, id: string) returns (d: nat)
    requires k <= |ops| && id in Before(clean, ops, k).decisions && Before(clean, ops, k).decisions[id].dispatched
    ensures d < k && ops[d] == DoDispatch(id) && ReplyAt(clean, ops, d).Dispatched?
  {
    hide Step;
    if k > 0 {
      var s := Before(clean, ops, k - 1);
      BeforeNext(clean, ops, k - 1);
      if id in s.decisions && s.decisions[id].dispatched {
        d := DispatchOrigin(clean, ops, k - 1, id);
      } else {
        NewDispatch(clean, s, ops[k - 1], id);
        d := k - 1;
      }
    }
  }

  /** Every accepted receipt comes after a dispatch of its intent. */
  lemma {:induction false} ReceiptFollowsDispatch(clean: Cleaner, ops: seq<Op>, k: nat) returns (d: nat)
    requires k < |ops| && TakesReceipt(clean, ops, k)
    ensures d < k && ops[d] == DoDispatch(ops[k].event.intentId) && ReplyAt(clean, ops, d).Dispatched?
  {
    hide Run, Inv, Apply, Settled;
    EveryStateIsValid(clean, ops, k);
    ReceiptSettles(clean, Before(clean, ops, k), ops[k].event);
    d := DispatchOrigin(clean, ops, k, ops[k].event.intentId);
  }

  // ----- redelivery -----

  lemma {:induction false} AcceptedIsSeen(clean: Cleaner, s: State, e: Event)
    requires Apply(clean, s, e).1 == Ok(Accepted)
    ensures Token(e.eventId) && e.eventId in Apply(clean, s, e).0.seen && Apply(clean, s, e).0.seen[e.eventId] == e
  {
    hide ApplyNew, Token;
  }

  /** An event that was ever accepted is a no-op whenever it is delivered again. */
  lemma {:induction false} RedeliveryIsIgnored(clean: Cleaner, ops: seq<Op>, j: nat, k: nat)
    requires j < k <= |ops| && ops[j].DoApply? && ReplyAt(clean, ops, j) == Took
    ensures Step(clean, Before(clean, ops, k), ops[j]) == (Before(clean, ops, k), Ignored)
  {
    hide Run, ApplyNew, Token;
    AcceptedIsSeen(clean, Before(clean, ops, j), ops[j].event);
    BeforeNext(clean, ops, j);
    BeforeGrows(clean, ops, j + 1, k);
  }

  lemma {:induction false} NewSeen(clean: Cleaner, s: State, op: Op, id: string)
    requires Inv(s) && id !in s.seen && id in Step(clean, s, op).0.seen
    ensures op == DoApply(Step(clean, s, op).0.seen[id]) && Step(clean, s, op).1 == Took
  {
    hide Apply, ValidateIntent, NeedsConfirmation;
    if op.DoApply? {
      ApplyFrame(clean, s, op.event);
    }
  }

  lemma {:induction false} SeenOrigin(clean: Cleaner, ops: seq<Op>, k: nat, id: string) returns (j: nat)
    requires k <= |ops| && id in Before(clean, ops, k).seen
    ensures j < k && ops[j] == DoApply(Before(clean, ops, k).seen[id]) && ReplyAt(clean, ops, j) == Took
  {
    hide Step, Inv;
    if k > 0 {
      BeforeNext(clean, ops, k - 1);
      BeforeGrows(clean, ops, k - 1, k);
      if id in Before(clean, ops, k - 1).seen {
        j := SeenOrigin(clean, ops, k - 1, id);
      } else {
        EveryStateIsValid(clean, ops, k - 1);
        NewSeen(clean, Before(clean, ops, k - 1), ops[k - 1], id);
        j := k - 1;
      }
    }
  }

  /** A delivery is answered as a duplicate exactly if the same event was accepted before. */
  lemma {:induction false} IgnoredIffRedelivered(clean: Cleaner, ops: seq<Op>, k: nat)
    requires k < |ops|
    ensures ReplyAt(clean, ops, k) == Ignored
       <==> ops[k].DoApply? && exists j :: 0 <= j < k && ops[j] == ops[k] && ReplyAt(clean, ops, j) == Took
  {
    hide Run, ApplyNew, Token, RecordIntent, Confirm, TakeDispatch;
    if ReplyAt(clean, ops, k) == Ignored {
      var j := SeenOrigin(clean, ops, k, ops[k].event.eventId);
    }
    if ops[k].DoApply? && exists j :: 0 <= j < k && ops[j] == ops[k] && ReplyAt(clean, ops, j) == Took {
      var j :| 0 <= j < k && ops[j] == ops[k] && ReplyAt(clean, ops, j) == Took;
      RedeliveryIsIgnored(clean, ops, j, k);
    }
  }

  /** The run with every delivery that is answered as a duplicate taken out. */
  function Deduplicated(clean: Cleaner, s: State, ops: seq<Op>): seq<Op>
    decreases |ops|
  {
    if ops == [] then []
    else (if Step(clean, s, ops[0]).1 == Ignored then [] else [ops[0]])
         + Deduplicated(clean, Step(clean, s, ops[0]).0, ops[1..])
  }

  lemma {:induction false} IgnoredKeepsState(clean: Cleaner, s: State, op: Op)
    requires Step(clean, s, op).1 == Ignored
    ensures Step(clean, s, op).0 == s
  {
    hide ApplyNew, Token;
  }

  /** Leaving out redeliveries gives the same final state. */
  lemma {:induction false} DuplicatesDoNotMatter(clean: Cleaner, s: State, ops: seq<Op>)
    ensures Run(clean, s, Deduplicated(clean, s, ops)) == Run(clean, s, ops)
    decreases |ops|
  {
    hide Step;
    if ops != [] {
      var (t, reply) := Step(clean, s, ops[0]);
      DuplicatesDoNotMatter(clean, t, ops[1..]);
      if reply == Ignored {
        IgnoredKeepsState(clean, s, ops[0]);
        assert [] + Deduplicated(clean, t, ops[1..]) == Deduplicated(clean, t, ops[1..]);
      } else {
        assert ([ops[0]] + Deduplicated(clean, t, ops[1..]))[1..] == Deduplicated(clean, t, ops[1..]);
      }
    }
  }
}
