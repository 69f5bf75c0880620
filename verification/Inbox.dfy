/** `OperationalInbox`: three maps, updated in place by its operations. */
module Inbox {
  import opened Prelude
  import opened InboxModel
  import Unicode

  class OperationalInbox {
    var items: map<string, Item>
    var decisions: map<string, Decision>
    var seenEvents: map<string, Event>
    const clean: Cleaner

    function Contents(): State
      reads this
    {
      State(items, decisions, seenEvents)
    }

    constructor (clean: Cleaner)
      ensures Contents() == EMPTY && this.clean == clean
    {
      this.clean := clean;
      items, decisions, seenEvents := map[], map[], map[];
    }

    /** `apply` for an event that the inbox has not seen. */
    method ApplyUnseen(event: Event) returns (r: Result<(), Error>)
      modifies this
      ensures r.Ok? ==> ApplyNew(clean, old(Contents()), event) == Ok(Contents())
      ensures r.Err? ==> ApplyNew(clean, old(Contents()), event) == Err(r.error) && Contents() == old(Contents())
    {
      hide Token, NeedsConfirmation;
      match event
      case Attention(_, sessionId, target, summary, risk, blocked, approvalRequired, interactive, sequence, refs) =>
        var _ :- Validate("session_id", sessionId);
        var _ :- Validate("target", target);
        if Unicode.Utf8Len(summary) > MAX_TEXT_BYTES {
          return Err(InvalidField("summary"));
        }
        var i := 0;
        assert refs[0..] == refs;
        while i < |refs|
          invariant 0 <= i <= |refs|
          invariant ValidateAll("evidence_ref", refs) == ValidateAll("evidence_ref", refs[i..])
        {
          assert refs[i..][1..] == refs[i + 1..];
          var _ :- Validate("evidence_ref", refs[i]);
          i := i + 1;
        }
        if refs == [] {
          return Err(InvalidField("evidence_refs"));
        }
        if sessionId in items && sequence <= items[sessionId].sequence {
          return Err(StaleEvent);
        }
        items := items[sessionId := Item(sessionId, target, clean(summary), risk, blocked, approvalRequired,
                                         interactive, sequence, NeedsDecision, None, None, refs)];
        return Ok(());
      case Authorized(_, a) =>
        var _ :- ValidateAuthorization(a);
        if a.intentId !in decisions {
          return Err(UnknownIntent);
        }
        var d := decisions[a.intentId];
        if a.target != d.intent.target || a.policyRevision != d.intent.policyRevision {
          return Err(ForgedAuthorization);
        }
        if d.intent.sessionId !in items {
          return Err(UnknownIntent);
        }
        var item := items[d.intent.sessionId];
        if item.intentId != Some(a.intentId) {
          return Err(StaleEvent);
        }
        if d.authorization.Some? {
          return Err(StaleEvent);
        }
        decisions := decisions[a.intentId := d.(authorization := Some(a))];
        var status := if !a.approved then Rejected
                      else if NeedsConfirmation(item.risk, d.intent.action) then AwaitingConfirmation
                      else ReadyToDispatch;
        items := items[d.intent.sessionId := item.(status := status)];
        return Ok(());
      case Receipt(_, intentId, decisionId, receiptId, target, policyRevision, applied) =>
        var _ :- Validate("receipt_id", receiptId);
        if intentId !in decisions {
          return Err(UnknownIntent);
        }
        var d := decisions[intentId];
        if d.authorization.None? {
          return Err(ForgedReceipt);
        }
        if !d.dispatched || d.authorization.value.decisionId != decisionId
           || d.intent.target != target || d.intent.policyRevision != policyRevision {
          return Err(ForgedReceipt);
        }
        if d.intent.sessionId !in items {
          return Err(UnknownIntent);
        }
        var item := items[d.intent.sessionId];
        if item.intentId != Some(intentId) || item.receiptId.Some? {
          return Err(StaleEvent);
        }
        items := items[d.intent.sessionId :=
                       item.(receiptId := Some(receiptId), status := if applied then Applied else FailedClosed)];
        return Ok(());
    }

    method Apply(event: Event) returns (r: Result<Outcome, Error>)
      modifies this
      ensures (Contents(), r) == InboxModel.Apply(clean, old(Contents()), event)
    {
      hide ApplyNew, Token;
      if !Token(event.eventId) {
        return Err(InvalidField("event_id"));
      }
      if event.eventId in seenEvents {
        return if seenEvents[event.eventId] == event then Ok(Duplicate) else Err(StaleEvent);
      }
      var effect := ApplyUnseen(event);
      if effect.Err? {
        return Err(effect.error);
      }
      seenEvents := seenEvents[event.eventId := event];
      return Ok(Accepted);
    }

    method RecordIntent(intent: Intent) returns (r: Result<(), Error>)
      modifies this
      ensures (Contents(), r) == InboxModel.RecordIntent(old(Contents()), intent)
    {
      hide ValidateIntent;
      var _ :- ValidateIntent(intent);
      if intent.intentId in decisions {
        return Err(StaleEvent);
      }
      if intent.sessionId !in items {
        return Err(UnknownIntent);
      }
      var item := items[intent.sessionId];
      if item.target != intent.target || item.status != NeedsDecision {
        return Err(StaleEvent);
      }
      items := items[intent.sessionId := item.(intentId := Some(intent.intentId), status := AwaitingAuthorization)];
      decisions := decisions[intent.intentId := Decision(intent, None, false, false)];
      return Ok(());
    }

    method Confirm(intentId: string) returns (r: Result<(), Error>)
      modifies this
      ensures (Contents(), r) == InboxModel.Confirm(old(Contents()), intentId)
    {
      if intentId !in decisions {
        return Err(UnknownIntent);
      }
      var d := decisions[intentId];
      if !Approved(d) {
        return Err(ForgedAuthorization);
      }
      decisions := decisions[intentId := d.(confirmed := true)];
      if d.intent.sessionId !in items {
        return Err(UnknownIntent);
      }
      items := items[d.intent.sessionId := items[d.intent.sessionId].(status := ReadyToDispatch)];
      return Ok(());
    }

    method TakeDispatch(intentId: string) returns (r: Result<DispatchRequest, Error>)
      modifies this
      ensures (Contents(), r) == InboxModel.TakeDispatch(old(Contents()), intentId)
    {
      hide NeedsConfirmation;
      if intentId !in decisions {
        return Err(UnknownIntent);
      }
      var d := decisions[intentId];
      if !Approved(d) {
        return Err(ForgedAuthorization);
      }
      if d.intent.sessionId !in items {
        return Err(UnknownIntent);
      }
      var item := items[d.intent.sessionId];
      if NeedsConfirmation(item.risk, d.intent.action) && !d.confirmed {
        return Err(ConfirmationRequired);
      }
      if d.dispatched || item.status != ReadyToDispatch {
        return Err(StaleEvent);
      }
      decisions := decisions[intentId := d.(dispatched := true)];
      items := items[d.intent.sessionId := item.(status := AwaitingReceipt)];
      return Ok(DispatchRequest(d.intent, d.authorization.value.decisionId));
    }
  }
}
