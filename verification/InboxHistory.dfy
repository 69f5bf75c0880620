/**
 * How an intent and an item's status fare over a run: when an intent is
 * superseded, and when a status falls back.
 */
module InboxHistory {
  import opened Prelude
  import opened InboxModel
  import opened InboxTheorems
  import Unicode

  // ----- superseded intents -----

  /** The item of the intent's session still carries that intent. */
  predicate Current(s: State, intent: Intent) {
    intent.sessionId in s.items && s.items[intent.sessionId].intentId == Some(intent.intentId)
  }

  /** An event id the inbox can take: well formed, and not seen before. */
  predicate Unseen(s: State, e: Event) {
    Token(e.eventId) && e.eventId !in s.seen
  }

  /** The operation brings news for the session that the inbox will take. */
  predicate News(s: State, op: Op, session: string) {
    && op.DoApply? && op.event.Attention? && op.event.sessionId == session && Unseen(s, op.event)
    && Token(session) && Token(op.event.target) && Unicode.Utf8Len(op.event.summary) <= MAX_TEXT_BYTES
    && op.event.evidenceRefs != [] && (forall value | value in op.event.evidenceRefs :: Token(value))
    && (session in s.items ==> op.event.sequence > s.items[session].sequence)
  }

  /** Operation `k` of a run is such news. */
  predicate NewsAt(clean: Cleaner, ops: seq<Op>, k: nat, session: string)
    requires k < |ops|
  {
    News(Before(clean, ops, k), ops[k], session)
  }

  lemma {:induction false} ValidateAllMeans(name: string, values: seq<string>)
    ensures ValidateAll(name, values).Ok? <==> forall value | value in values :: Token(value)
  {
    hide Token;
    if values != [] {
      ValidateAllMeans(name, values[1..]);
      assert values == [values[0]] + values[1..];
    }
  }

  /** The guard says exactly which news is taken. */
  lemma {:induction false} NewsIsTaken(clean: Cleaner, s: State, op: Op, session: string)
    ensures News(s, op, session)
       <==> op.DoApply? && op.event.Attention? && op.event.sessionId == session && Step(clean, s, op).1 == Took
  {
    hide Token, ValidateAll;
    if op.DoApply? && op.event.Attention? {
      ValidateAllMeans("evidence_ref", op.event.evidenceRefs);
    }
  }

  lemma {:induction false} AttentionStep(clean: Cleaner, s: State, op: Op, session: string)
    requires op.DoApply? && op.event.Attention? && session in s.items
    ensures var t := Step(clean, s, op).0;
            session in t.items && if News(s, op, session)
              then t.items[session].intentId.None? && t.items[session].status.NeedsDecision?
              else t.items[session] == s.items[session]
  {
    hide Token, ValidateAll, News;
    NewsIsTaken(clean, s, op, session);
  }

  /** `t` has the items of `s`, at most with another status and receipt. */
  ghost predicate KeepsItems(s: State, t: State) {
    && t.items.Keys == s.items.Keys
    && forall session | session in s.items ::
         t.items[session] == s.items[session].(status := t.items[session].status, receiptId := t.items[session].receiptId)
  }

  lemma {:induction false} AuthorizationKeepsItems(s: State, a: Authorization)
    requires ApplyAuthorization(s, a).Ok?
    ensures KeepsItems(s, ApplyAuthorization(s, a).value)
  {
    hide ValidateAuthorization, NeedsConfirmation;
  }

  lemma {:induction false} ReceiptKeepsItems(s: State, e: Event)
    requires e.Receipt? && ApplyReceipt(s, e).Ok?
    ensures KeepsItems(s, ApplyReceipt(s, e).value)
  {
    hide Validate;
  }

  /** An event that is no attention leaves of every item all but its status and receipt. */
  lemma {:induction false} ItemsFrame(clean: Cleaner, s: State, e: Event)
    requires !e.Attention?
    ensures KeepsItems(s, Apply(clean, s, e).0)
  {
    hide Token, ApplyAuthorization, ApplyReceipt;
    if ApplyNew(clean, s, e).Ok? {
      if e.Authorized? {
        AuthorizationKeepsItems(s, e.authorization);
      } else {
        ReceiptKeepsItems(s, e);
      }
    }
  }

  /** Apart from news, only recording an intent changes which intent an item carries. */
  lemma {:induction false} IntentStep(clean: Cleaner, s: State, op: Op, session: string)
    requires session in s.items && !(op.DoApply? && op.event.Attention?)
    ensures session in Step(clean, s, op).0.items
    ensures Step(clean, s, op).0.items[session].intentId == s.items[session].intentId
         || (op.DoRecord? && s.items[session].status.NeedsDecision?)
  {
    hide Apply, ValidateIntent, NeedsConfirmation;
    if op.DoApply? {
      ItemsFrame(clean, s, op.event);
    }
  }

  lemma {:induction false} CurrentStep(clean: Cleaner, s: State, op: Op, intent: Intent)
    requires Inv(s) && Current(s, intent)
    ensures Current(Step(clean, s, op).0, intent) <==> !News(s, op, intent.sessionId)
  {
    hide Step, News, DecisionOk;
    assert ItemOk(s, intent.sessionId);
    if op.DoApply? && op.event.Attention? {
      AttentionStep(clean, s, op, intent.sessionId);
    } else {
      IntentStep(clean, s, op, intent.sessionId);
      NewsIsTaken(clean, s, op, intent.sessionId);
    }
  }

  lemma {:induction false} SupersededStep(clean: Cleaner, s: State, op: Op, intent: Intent)
    requires intent.intentId in s.decisions && !Current(s, intent)
    ensures !Current(Step(clean, s, op).0, intent)
  {
    hide Token, Validate, ValidateAll, ValidateAuthorization, ValidateIntent, NeedsConfirmation;
  }

  lemma {:induction false} RecordedIsCurrent(clean: Cleaner, s: State, intent: Intent)
    requires Step(clean, s, DoRecord(intent)).1 == Took
    ensures var t := Step(clean, s, DoRecord(intent)).0;
            Current(t, intent) && intent.intentId in t.decisions && t.decisions[intent.intentId].intent == intent
  {
    hide ValidateIntent;
  }

  /**
   * An intent recorded at `r` is current before `k` exactly if no news for its
   * session was taken in between.
   */
  lemma {:induction false} CurrentIff(clean: Cleaner, ops: seq<Op>, r: nat, k: nat, intent: Intent)
    requires r < k <= |ops| && ops[r] == DoRecord(intent) && ReplyAt(clean, ops, r) == Took
    ensures intent.intentId in Before(clean, ops, k).decisions
    ensures Before(clean, ops, k).decisions[intent.intentId].intent == intent
    ensures Current(Before(clean, ops, k), intent)
       <==> forall j | r < j < k :: !NewsAt(clean, ops, j, intent.sessionId)
    decreases k
  {
    hide Step, Run, Inv, Current, News;
    BeforeNext(clean, ops, k - 1);
    var s := Before(clean, ops, k - 1);
    if k - 1 == r {
      RecordedIsCurrent(clean, s, intent);
    } else {
      CurrentIff(clean, ops, r, k - 1, intent);
      EveryStateIsValid(clean, ops, k - 1);
      StepGrows(clean, s, ops[k - 1]);
      assert NewsAt(clean, ops, k - 1, intent.sessionId) == News(s, ops[k - 1], intent.sessionId);
      if Current(s, intent) {
        CurrentStep(clean, s, ops[k - 1], intent);
      } else {
        SupersededStep(clean, s, ops[k - 1], intent);
      }
    }
  }

  /**
   * Every dispatch is of an intent recorded earlier, and that intent is still the
   * item's exactly if no news for its session was taken since.
   */
  lemma {:induction false} DispatchIsCurrentIff(clean: Cleaner, ops: seq<Op>, k: nat) returns (r: nat)
    requires k < |ops| && ReplyAt(clean, ops, k).Dispatched?
    ensures var intent := ReplyAt(clean, ops, k).request.intent;
            && r < k && ops[r] == DoRecord(intent) && ReplyAt(clean, ops, r) == Took
            && (Current(Before(clean, ops, k), intent)
                <==> forall j | r < j < k :: !NewsAt(clean, ops, j, intent.sessionId))
  {
    hide Step, Run, Current, NewsAt, NeedsConfirmation;
    var intent := ReplyAt(clean, ops, k).request.intent;
    DispatchedIsKnown(clean, Before(clean, ops, k), ops[k]);
    r := RecordOrigin(clean, ops, k, ops[k].intentId);
    CurrentIff(clean, ops, r, k, intent);
  }

  lemma {:induction false} DispatchedIsKnown(clean: Cleaner, s: State, op: Op)
    requires Step(clean, s, op).1.Dispatched?
    ensures var intent := Step(clean, s, op).1.request.intent;
            op.DoDispatch? && op.intentId in s.decisions && s.decisions[op.intentId].intent == intent
  {
    hide NeedsConfirmation, Token, ValidateIntent, ApplyNew;
  }

  // ----- the risk a confirmation was given for -----

  lemma {:induction false} RiskStep(clean: Cleaner, s: State, op: Op, session: string)
    requires session in s.items && !News(s, op, session)
    ensures session in Step(clean, s, op).0.items && Step(clean, s, op).0.items[session].risk == s.items[session].risk
  {
    hide News;
    if op.DoApply? && op.event.Attention? {
      hide Step;
      AttentionStep(clean, s, op, session);
    } else {
      hide Apply, ValidateIntent, NeedsConfirmation;
      if op.DoApply? {
        ItemsFrame(clean, s, op.event);
      }
    }
  }

  lemma {:induction false} RiskStays(clean: Cleaner, ops: seq<Op>, j: nat, k: nat, session: string)
    requires j <= k <= |ops| && session in Before(clean, ops, j).items
    requires forall i | j <= i < k :: !NewsAt(clean, ops, i, session)
    ensures session in Before(clean, ops, k).items
    ensures RiskAt(clean, ops, k, session) == RiskAt(clean, ops, j, session)
    decreases k - j
  {
    hide Step, Run, News;
    if j < k {
      RiskStays(clean, ops, j, k - 1, session);
      BeforeNext(clean, ops, k - 1);
      assert !NewsAt(clean, ops, k - 1, session);
      RiskStep(clean, Before(clean, ops, k - 1), ops[k - 1], session);
    }
  }

  /**
   * For an intent that is still current when it is dispatched, the risk of its
   * item at every moment since it was recorded, its confirmation included, is the
   * risk at the dispatch.
   */
  lemma {:induction false} CurrentRiskIsConstant(clean: Cleaner, ops: seq<Op>, r: nat, c: nat, k: nat, intent: Intent)
    requires r < c <= k <= |ops| && ops[r] == DoRecord(intent) && ReplyAt(clean, ops, r) == Took
    requires Current(Before(clean, ops, k), intent)
    ensures intent.sessionId in Before(clean, ops, c).items && intent.sessionId in Before(clean, ops, k).items
    ensures RiskAt(clean, ops, c, intent.sessionId) == RiskAt(clean, ops, k, intent.sessionId)
  {
    hide Step, Run, NewsAt;
    CurrentIff(clean, ops, r, k, intent);
    CurrentIff(clean, ops, r, c, intent);
    RiskStays(clean, ops, c, k, intent.sessionId);
  }

  // ----- falling statuses -----

  /** How far along an item is; the three final statuses come last together. */
  function Rank(status: Status): nat {
    match status
    case NeedsDecision => 0
    case AwaitingAuthorization => 1
    case AwaitingConfirmation => 2
    case ReadyToDispatch => 3
    case AwaitingReceipt => 4
    case Applied => 5
    case Rejected => 5
    case FailedClosed => 5
  }

  function RankOf(s: State, session: string): nat
    requires session in s.items
  {
    Rank(s.items[session].status)
  }

  /** The intent is known, of this session and approved, and the item is past being ready. */
  predicate ConfirmsTooLate(s: State, op: Op, session: string)
    requires session in s.items
  {
    && op.DoConfirm? && op.intentId in s.decisions && Approved(s.decisions[op.intentId])
    && s.decisions[op.intentId].intent.sessionId == session && RankOf(s, session) > 3
  }

  /** The inbox will take this authorization: it matches an intent that is current and not yet decided. */
  predicate Decides(s: State, e: Event) {
    && e.Authorized? && Unseen(s, e)
    && var a := e.authorization;
    && Token(a.intentId) && Token(a.decisionId) && Token(a.actor) && Token(a.target) && a.intentId in s.decisions
    && var d := s.decisions[a.intentId];
    && a.target == d.intent.target && a.policyRevision == d.intent.policyRevision
    && Current(s, d.intent.(intentId := a.intentId)) && d.authorization.None?
  }

  /** An approval that will be taken for an item that another intent's confirmation or dispatch moved on already. */
  predicate ApprovesTooLate(s: State, op: Op, session: string)
    requires session in s.items
  {
    && op.DoApply? && Decides(s, op.event) && op.event.authorization.approved
    && var intent := s.decisions[op.event.authorization.intentId].intent;
    && intent.sessionId == session
    && RankOf(s, session) > if NeedsConfirmation(s.items[session].risk, intent.action) then 2 else 3
  }

  /** News for the session, a confirmation once the item is past ready, or a late approval. */
  predicate Falls(s: State, op: Op, session: string)
    requires session in s.items
  {
    || (News(s, op, session) && RankOf(s, session) > 0)
    || ConfirmsTooLate(s, op, session)
    || ApprovesTooLate(s, op, session)
  }

  /** The guard says exactly which authorizations are taken. */
  lemma {:induction false} DecidesIsTaken(clean: Cleaner, s: State, e: Event)
    requires e.Authorized?
    ensures Decides(s, e) <==> Step(clean, s, DoApply(e)).1 == Took
  {
    hide Token, NeedsConfirmation;
  }

  lemma {:induction false} FallOnAttention(clean: Cleaner, s: State, e: Event, session: string)
    requires session in s.items && e.Attention?
    ensures session in Step(clean, s, DoApply(e)).0.items
    ensures RankOf(Step(clean, s, DoApply(e)).0, session) < RankOf(s, session) <==> Falls(s, DoApply(e), session)
  {
    hide Step, News;
    AttentionStep(clean, s, DoApply(e), session);
  }

  lemma {:induction false} FallOnAuthorization(clean: Cleaner, s: State, e: Event, session: string)
    requires session in s.items && e.Authorized?
    ensures session in Step(clean, s, DoApply(e)).0.items
    ensures RankOf(Step(clean, s, DoApply(e)).0, session) < RankOf(s, session) <==> Falls(s, DoApply(e), session)
  {
    hide Token, NeedsConfirmation, Decides;
    DecidesIsTaken(clean, s, e);
  }

  lemma {:induction false} FallOnReceipt(clean: Cleaner, s: State, e: Event, session: string)
    requires session in s.items && e.Receipt?
    ensures session in Step(clean, s, DoApply(e)).0.items
    ensures RankOf(Step(clean, s, DoApply(e)).0, session) >= RankOf(s, session)
  {
    hide Token;
  }

  lemma {:induction false} FallOnRecord(clean: Cleaner, s: State, intent: Intent, session: string)
    requires session in s.items
    ensures session in Step(clean, s, DoRecord(intent)).0.items
    ensures RankOf(Step(clean, s, DoRecord(intent)).0, session) >= RankOf(s, session)
  {
    hide ValidateIntent;
  }

  lemma {:induction false} FallOnConfirm(clean: Cleaner, s: State, id: string, session: string)
    requires session in s.items
    ensures session in Step(clean, s, DoConfirm(id)).0.items
    ensures RankOf(Step(clean, s, DoConfirm(id)).0, session) < RankOf(s, session) <==> ConfirmsTooLate(s, DoConfirm(id), session)
  {
  }

  lemma {:induction false} FallOnDispatch(clean: Cleaner, s: State, id: string, session: string)
    requires session in s.items
    ensures session in Step(clean, s, DoDispatch(id)).0.items
    ensures RankOf(Step(clean, s, DoDispatch(id)).0, session) >= RankOf(s, session)
  {
    hide NeedsConfirmation;
  }

  lemma {:induction false} FallStep(clean: Cleaner, s: State, op: Op, session: string)
    requires session in s.items
    ensures session in Step(clean, s, op).0.items
    ensures RankOf(Step(clean, s, op).0, session) < RankOf(s, session) <==> Falls(s, op, session)
  {
    hide Step, RankOf;
    match op
    case DoApply(e) =>
      match e {
        case Attention(_, _, _, _, _, _, _, _, _, _) => FallOnAttention(clean, s, e, session);
        case Authorized(_, _) => FallOnAuthorization(clean, s, e, session);
        case Receipt(_, _, _, _, _, _, _) => FallOnReceipt(clean, s, e, session);
      }
    case DoRecord(intent) => FallOnRecord(clean, s, intent, session);
    case DoConfirm(id) => FallOnConfirm(clean, s, id, session);
    case DoDispatch(id) => FallOnDispatch(clean, s, id, session);
  }

  /**
   * In every run an item's status falls exactly on news for its session, on a
   * confirmation once it is past ready, or on a late approval, each told by the
   * state and the operation before it.
   */
  lemma {:induction false} StatusFallsIff(clean: Cleaner, ops: seq<Op>, k: nat, session: string)
    requires k < |ops| && session in Before(clean, ops, k).items
    ensures session in Before(clean, ops, k + 1).items
    ensures var s := Before(clean, ops, k);
            RankOf(Before(clean, ops, k + 1), session) < RankOf(s, session) <==> Falls(s, ops[k], session)
  {
    hide Step, Run, RankOf, Falls;
    BeforeNext(clean, ops, k);
    FallStep(clean, Before(clean, ops, k), ops[k], session);
  }
}
