/**
 * What the inbox shows, traced to the operations behind it: where an item and
 * its final status come from, which operations are taken, and what each refusal
 * says, all in terms of the events and the state before them.
 */
module InboxOrigins {
  import opened Prelude
  import opened InboxModel
  import opened InboxTheorems
  import opened InboxHistory
  import Unicode

  // ----- the item and the news it shows -----

  /** The item shows what the event brought. */
  predicate Shows(clean: Cleaner, item: Item, e: Event) {
    && e.Attention?
    && item.sessionId == e.sessionId && item.target == e.target && item.summary == clean(e.summary) && item.risk == e.risk
    && item.blocked == e.blocked && item.approvalRequired == e.approvalRequired && item.interactive == e.interactive
    && item.sequence == e.sequence && item.evidenceRefs == e.evidenceRefs
  }

  /** Two states of one item: all but status, intent and receipt agree. */
  predicate SameSubject(a: Item, b: Item) {
    b == a.(status := b.status, intentId := b.intentId, receiptId := b.receiptId)
  }

  lemma {:induction false} NewsShows(clean: Cleaner, s: State, op: Op, session: string)
    requires News(s, op, session)
    ensures session in Step(clean, s, op).0.items && Shows(clean, Step(clean, s, op).0.items[session], op.event)
  {
    hide Token, ValidateAll, News;
    NewsIsTaken(clean, s, op, session);
  }

  lemma {:induction false} SubjectStep(clean: Cleaner, s: State, op: Op, session: string)
    requires session in Step(clean, s, op).0.items && !News(s, op, session)
    ensures session in s.items && SameSubject(s.items[session], Step(clean, s, op).0.items[session])
  {
    hide News;
    if op.DoApply? && op.event.Attention? {
      hide Token, ValidateAll;
      NewsIsTaken(clean, s, op, session);
    } else if op.DoApply? {
      hide Apply;
      ItemsFrame(clean, s, op.event);
    } else {
      hide ValidateIntent, NeedsConfirmation;
    }
  }

  /** In every run an item shows, field by field, the last news taken for its session. */
  lemma {:induction false} ItemOrigin(clean: Cleaner, ops: seq<Op>, k: nat, session: string) returns (j: nat)
    requires k <= |ops| && session in Before(clean, ops, k).items
    ensures j < k && NewsAt(clean, ops, j, session) && forall i | j < i < k :: !NewsAt(clean, ops, i, session)
    ensures ops[j].DoApply? && Shows(clean, Before(clean, ops, k).items[session], ops[j].event)
    decreases k
  {
    hide Step, News, Shows;
    if k > 0 {
      var s := Before(clean, ops, k - 1);
      BeforeNext(clean, ops, k - 1);
      if News(s, ops[k - 1], session) {
        j := k - 1;
        NewsShows(clean, s, ops[k - 1], session);
        NewsIsTaken(clean, s, ops[k - 1], session);
      } else {
        SubjectStep(clean, s, ops[k - 1], session);
        j := ItemOrigin(clean, ops, k - 1, session);
        assert !NewsAt(clean, ops, k - 1, session);
        ShowsStill(clean, s.items[session], Before(clean, ops, k).items[session], ops[j].event);
      }
    }
  }

  lemma {:induction false} ShowsStill(clean: Cleaner, a: Item, b: Item, e: Event)
    requires Shows(clean, a, e) && SameSubject(a, b)
    ensures Shows(clean, b, e)
  {
  }

  // ----- final statuses -----

  predicate Final(status: Status) {
    status.Applied? || status.FailedClosed? || status.Rejected?
  }

  /** The event, once taken, gives its item this status. */
  predicate Settles(op: Op, item: Item) {
    && op.DoApply?
    && match item.status
       case Applied =>
         && op.event.Receipt? && op.event.applied
         && item.intentId == Some(op.event.intentId) && item.receiptId == Some(op.event.receiptId)
       case FailedClosed =>
         && op.event.Receipt? && !op.event.applied
         && item.intentId == Some(op.event.intentId) && item.receiptId == Some(op.event.receiptId)
       case Rejected =>
         op.event.Authorized? && !op.event.authorization.approved && item.intentId == Some(op.event.authorization.intentId)
       case _ => false
  }

  /** The status, the intent and the receipt of an item are as they were. */
  predicate SameEnd(a: Item, b: Item) {
    a.status == b.status && a.intentId == b.intentId && a.receiptId == b.receiptId
  }

  lemma {:induction false} ReceiptSettles(clean: Cleaner, s: State, e: Event, session: string)
    requires e.Receipt? && session in Step(clean, s, DoApply(e)).0.items
    requires Final(Step(clean, s, DoApply(e)).0.items[session].status)
    ensures var (t, reply) := Step(clean, s, DoApply(e));
            || (session in s.items && SameEnd(s.items[session], t.items[session]))
            || (reply == Took && Settles(DoApply(e), t.items[session]))
  {
    hide Token;
  }

  lemma {:induction false} AuthorizationSettles(clean: Cleaner, s: State, e: Event, session: string)
    requires e.Authorized? && session in Step(clean, s, DoApply(e)).0.items
    requires Final(Step(clean, s, DoApply(e)).0.items[session].status)
    ensures var (t, reply) := Step(clean, s, DoApply(e));
            || (session in s.items && SameEnd(s.items[session], t.items[session]))
            || (reply == Took && Settles(DoApply(e), t.items[session]))
  {
    hide Token;
  }

  lemma {:induction false} OthersDoNotSettle(clean: Cleaner, s: State, op: Op, session: string)
    requires !(op.DoApply? && !op.event.Attention?) && session in Step(clean, s, op).0.items
    requires Final(Step(clean, s, op).0.items[session].status)
    ensures session in s.items && SameEnd(s.items[session], Step(clean, s, op).0.items[session])
  {
    hide Token, ValidateAll, ValidateIntent, NeedsConfirmation;
  }

  lemma {:induction false} FinalStep(clean: Cleaner, s: State, op: Op, session: string)
    requires session in Step(clean, s, op).0.items && Final(Step(clean, s, op).0.items[session].status)
    ensures var (t, reply) := Step(clean, s, op);
            || (session in s.items && SameEnd(s.items[session], t.items[session]))
            || (reply == Took && Settles(op, t.items[session]))
  {
    hide Step, Settles, Final;
    if op.DoApply? && op.event.Receipt? {
      ReceiptSettles(clean, s, op.event, session);
    } else if op.DoApply? && op.event.Authorized? {
      AuthorizationSettles(clean, s, op.event, session);
    } else {
      OthersDoNotSettle(clean, s, op, session);
    }
  }

  /**
   * In every run an item is applied or failed only by an accepted receipt for its
   * intent that says so and whose id it stores, and rejected only by an accepted
   * authorization for its intent that does not approve.
   */
  lemma {:induction false} FinalStatusOrigin(clean: Cleaner, ops: seq<Op>, k: nat, session: string) returns (j: nat)
    requires k <= |ops| && session in Before(clean, ops, k).items && Final(Before(clean, ops, k).items[session].status)
    ensures j < k && ReplyAt(clean, ops, j) == Took && Settles(ops[j], Before(clean, ops, k).items[session])
    decreases k
  {
    hide Step, Settles, Final;
    if k > 0 {
      var s := Before(clean, ops, k - 1);
      BeforeNext(clean, ops, k - 1);
      FinalStep(clean, s, ops[k - 1], session);
      if ReplyAt(clean, ops, k - 1) == Took && Settles(ops[k - 1], Before(clean, ops, k).items[session]) {
        j := k - 1;
      } else {
        j := FinalStatusOrigin(clean, ops, k - 1, session);
        SettlesStill(ops[j], s.items[session], Before(clean, ops, k).items[session]);
      }
    }
  }

  lemma {:induction false} SettlesStill(op: Op, a: Item, b: Item)
    requires Settles(op, a) && SameEnd(a, b)
    ensures Settles(op, b)
  {
  }

  /** Right after an accepted receipt its item has the status that the receipt names, and its id. */
  lemma {:induction false} ReceiptNamesStatus(clean: Cleaner, ops: seq<Op>, k: nat)
    requires k < |ops| && TakesReceipt(clean, ops, k)
    ensures var (t, e) := (Before(clean, ops, k + 1), ops[k].event);
            && e.intentId in t.decisions && t.decisions[e.intentId].intent.sessionId in t.items
            && var item := t.items[t.decisions[e.intentId].intent.sessionId];
            && item.intentId == Some(e.intentId) && item.receiptId == Some(e.receiptId)
            && item.status == if e.applied then Applied else FailedClosed
  {
    hide Token, Run;
    BeforeNext(clean, ops, k);
  }

  /** And right after an accepted authorization, the one its verdict, the risk and the action name. */
  lemma {:induction false} AuthorizationNamesStatus(clean: Cleaner, ops: seq<Op>, k: nat)
    requires k < |ops| && ops[k].DoApply? && ops[k].event.Authorized? && ReplyAt(clean, ops, k) == Took
    ensures var (t, a) := (Before(clean, ops, k + 1), ops[k].event.authorization);
            && a.intentId in t.decisions && t.decisions[a.intentId].authorization == Some(a)
            && t.decisions[a.intentId].intent.sessionId in t.items
            && var item, action := t.items[t.decisions[a.intentId].intent.sessionId], t.decisions[a.intentId].intent.action;
            && item.intentId == Some(a.intentId)
            && item.status == if !a.approved then Rejected
                              else if item.risk.High? || item.risk.Critical? || action.Cancel? || action.Redirect?
                                then AwaitingConfirmation else ReadyToDispatch
  {
    hide Token, Run;
    BeforeNext(clean, ops, k);
  }

  // ----- which operations are taken -----

  /** An intent is recorded exactly if it is well formed and new, and its item of the same target awaits a decision. */
  lemma {:induction false} RecordIsTaken(clean: Cleaner, s: State, intent: Intent)
    ensures Step(clean, s, DoRecord(intent)).1 == Took <==>
      && Token(intent.intentId) && Token(intent.sessionId) && Token(intent.target) && Token(intent.idempotencyKey)
      && intent.intentId !in s.decisions && intent.sessionId in s.items
      && s.items[intent.sessionId].target == intent.target && s.items[intent.sessionId].status.NeedsDecision?
  {
    hide Token;
  }

  /** A receipt is taken exactly if its id is unseen and it matches a dispatched intent that is current and has none. */
  lemma {:induction false} ReceiptIsTaken(clean: Cleaner, s: State, e: Event)
    requires e.Receipt?
    ensures Step(clean, s, DoApply(e)).1 == Took <==>
      && Token(e.eventId) && e.eventId !in s.seen && Token(e.receiptId) && e.intentId in s.decisions
      && var d := s.decisions[e.intentId];
      && d.dispatched && d.authorization.Some? && d.authorization.value.decisionId == e.decisionId
      && d.intent.target == e.target && d.intent.policyRevision == e.policyRevision && d.intent.sessionId in s.items
      && s.items[d.intent.sessionId].intentId == Some(e.intentId) && s.items[d.intent.sessionId].receiptId.None?
  {
    hide Token;
  }

  /** A confirmation is taken exactly if the intent is known, approved, and its session has an item. */
  lemma {:induction false} ConfirmIsTaken(clean: Cleaner, s: State, id: string)
    ensures Step(clean, s, DoConfirm(id)).1 == Took <==>
      && id in s.decisions && s.decisions[id].authorization.Some? && s.decisions[id].authorization.value.approved
      && s.decisions[id].intent.sessionId in s.items
  {
  }

  /** The operator must confirm this intent before it goes out. */
  predicate MustConfirm(s: State, id: string)
    requires id in s.decisions && s.decisions[id].intent.sessionId in s.items
  {
    var risk, action := s.items[s.decisions[id].intent.sessionId].risk, s.decisions[id].intent.action;
    risk.High? || risk.Critical? || action.Cancel? || action.Redirect?
  }

  /**
   * An intent goes out exactly if it is approved and not out yet, confirmed where
   * the item's risk is high or critical or the action cancels or redirects, and
   * its item is ready; and what goes out is that intent with its decision's id.
   */
  lemma {:induction false} DispatchIsTaken(clean: Cleaner, s: State, id: string)
    ensures Step(clean, s, DoDispatch(id)).1.Dispatched? <==>
      && id in s.decisions && s.decisions[id].authorization.Some? && s.decisions[id].authorization.value.approved
      && s.decisions[id].intent.sessionId in s.items && !s.decisions[id].dispatched
      && (MustConfirm(s, id) ==> s.decisions[id].confirmed)
      && s.items[s.decisions[id].intent.sessionId].status.ReadyToDispatch?
    ensures Step(clean, s, DoDispatch(id)).1.Dispatched? ==>
      Step(clean, s, DoDispatch(id)).1.request == DispatchRequest(s.decisions[id].intent, s.decisions[id].authorization.value.decisionId)
  {
  }

  // ----- what a refusal says -----

  /** A token has a character, at most 512 bytes, and no ASCII control. */
  lemma {:induction false} TokenMeans(value: string)
    ensures Token(value) <==>
      value != "" && Unicode.Utf8Len(value) <= 512 && forall c | c in value :: 0x20 <= c as int != 0x7F
  {
    if forall i :: 0 <= i < |value| ==> !Unicode.AsciiControl(value[i]) {
      forall c | c in value
        ensures 0x20 <= c as int != 0x7F
      {
        var i :| 0 <= i < |value| && value[i] == c;
      }
    }
    assert forall i :: 0 <= i < |value| ==> value[i] in value;
  }

  /** An event without a proper id, or with the id of another, is refused for that. */
  lemma {:induction false} DeliveryRefusals(clean: Cleaner, s: State, e: Event)
    ensures !Token(e.eventId) ==> Step(clean, s, DoApply(e)).1 == Refused(InvalidField("event_id"))
    ensures Token(e.eventId) && e.eventId in s.seen && s.seen[e.eventId] != e ==>
      Step(clean, s, DoApply(e)).1 == Refused(StaleEvent)
  {
    hide Token, ApplyNew;
  }

  lemma {:induction false} AttentionRefusals(clean: Cleaner, s: State, e: Event)
    requires e.Attention? && Token(e.eventId) && e.eventId !in s.seen && Step(clean, s, DoApply(e)).1.Refused?
    ensures match Step(clean, s, DoApply(e)).1.error
            case InvalidField(name) =>
              || (name == "session_id" && !Token(e.sessionId)) || (name == "target" && !Token(e.target))
              || (name == "summary" && Unicode.Utf8Len(e.summary) > 512)
              || (name == "evidence_ref" && exists value | value in e.evidenceRefs :: !Token(value))
              || (name == "evidence_refs" && e.evidenceRefs == [])
            case StaleEvent => e.sessionId in s.items && e.sequence <= s.items[e.sessionId].sequence
            case _ => false
  {
    hide Token, ValidateAll;
    ValidateAllMeans("evidence_ref", e.evidenceRefs);
    ValidateAllNames("evidence_ref", e.evidenceRefs);
  }

  lemma {:induction false} ValidateAllNames(name: string, values: seq<string>)
    ensures ValidateAll(name, values).Err? ==> ValidateAll(name, values).error == InvalidField(name)
    decreases |values|
  {
    hide Token;
    if values != [] {
      ValidateAllNames(name, values[1..]);
    }
  }

  /** The intent is unknown, or its session has no item. */
  predicate Unknown(s: State, id: string) {
    id !in s.decisions || s.decisions[id].intent.sessionId !in s.items
  }

  lemma {:induction false} DecisionRefusals(clean: Cleaner, s: State, id: string)
    ensures var reply := Step(clean, s, DoConfirm(id)).1;
            && (reply == Refused(UnknownIntent) ==> Unknown(s, id))
            && (reply == Refused(ForgedAuthorization) <==> id in s.decisions && !Approved(s.decisions[id]))
            && (reply.Refused? ==> reply.error.UnknownIntent? || reply.error.ForgedAuthorization?)
    ensures var reply := Step(clean, s, DoDispatch(id)).1;
            && (reply == Refused(UnknownIntent) ==> Unknown(s, id))
            && (reply == Refused(ForgedAuthorization) <==> id in s.decisions && !Approved(s.decisions[id]))
            && (reply == Refused(ConfirmationRequired) <==>
                  !Unknown(s, id) && Approved(s.decisions[id]) && MustConfirm(s, id) && !s.decisions[id].confirmed)
            && (reply == Refused(StaleEvent) ==>
                  !Unknown(s, id) && (s.decisions[id].dispatched || !s.items[s.decisions[id].intent.sessionId].status.ReadyToDispatch?))
            && (reply.Refused? ==> !reply.error.InvalidField? && !reply.error.ForgedReceipt?)
  {
  }

  lemma {:induction false} RecordRefusals(clean: Cleaner, s: State, intent: Intent)
    requires Step(clean, s, DoRecord(intent)).1.Refused?
    ensures match Step(clean, s, DoRecord(intent)).1.error
            case InvalidField(name) =>
              || (name == "intent_id" && !Token(intent.intentId)) || (name == "session_id" && !Token(intent.sessionId))
              || (name == "target" && !Token(intent.target)) || (name == "idempotency_key" && !Token(intent.idempotencyKey))
            case UnknownIntent => intent.sessionId !in s.items
            case StaleEvent =>
              || intent.intentId in s.decisions
              || (intent.sessionId in s.items
                  && (s.items[intent.sessionId].target != intent.target || !s.items[intent.sessionId].status.NeedsDecision?))
            case _ => false
  {
    hide Token;
  }

  lemma {:induction false} AuthorizationRefusals(clean: Cleaner, s: State, e: Event)
    requires e.Authorized? && Token(e.eventId) && e.eventId !in s.seen && Step(clean, s, DoApply(e)).1.Refused?
    ensures var a := e.authorization;
            match Step(clean, s, DoApply(e)).1.error
            case InvalidField(name) =>
              || (name == "intent_id" && !Token(a.intentId)) || (name == "decision_id" && !Token(a.decisionId))
              || (name == "actor" && !Token(a.actor)) || (name == "target" && !Token(a.target))
            case UnknownIntent => Unknown(s, a.intentId)
            case ForgedAuthorization =>
              && a.intentId in s.decisions
              && (s.decisions[a.intentId].intent.target != a.target || s.decisions[a.intentId].intent.policyRevision != a.policyRevision)
            case StaleEvent =>
              && !Unknown(s, a.intentId)
              && (s.items[s.decisions[a.intentId].intent.sessionId].intentId != Some(a.intentId) || s.decisions[a.intentId].authorization.Some?)
            case _ => false
  {
    hide Token;
  }

  lemma {:induction false} ReceiptRefusals(clean: Cleaner, s: State, e: Event)
    requires e.Receipt? && Token(e.eventId) && e.eventId !in s.seen && Step(clean, s, DoApply(e)).1.Refused?
    ensures match Step(clean, s, DoApply(e)).1.error
            case InvalidField(name) => name == "receipt_id" && !Token(e.receiptId)
            case UnknownIntent => Unknown(s, e.intentId)
            case ForgedReceipt =>
              && e.intentId in s.decisions
              && var d := s.decisions[e.intentId];
              (d.authorization.None? || !d.dispatched || d.authorization.value.decisionId != e.decisionId
               || d.intent.target != e.target || d.intent.policyRevision != e.policyRevision)
            case StaleEvent =>
              && !Unknown(s, e.intentId)
              && (s.items[s.decisions[e.intentId].intent.sessionId].intentId != Some(e.intentId)
                  || s.items[s.decisions[e.intentId].intent.sessionId].receiptId.Some?)
            case _ => false
  {
    hide Token;
  }
}
