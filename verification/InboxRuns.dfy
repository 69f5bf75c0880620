/** Runs of the inbox that show what its rules do not exclude. */
module InboxRuns {
  import opened Prelude
  import opened InboxModel
  import opened InboxTheorems
  import opened InboxHistory
  import Unicode

  // ----- one session, step by step -----

  lemma {:induction false} LetterIsToken(c: char)
    requires 'A' <= c <= 'z'
    ensures Token([c])
  {
    assert Unicode.Utf8Len([c]) <= 4 by {
      assert [c][1..] == "";
    }
  }

  function NewsOf(id: string, sequence: nat, risk: Risk): Op {
    DoApply(Attention(id, "s", "t", "", risk, false, false, false, sequence, ["e"]))
  }

  function IntentOf(id: string): Intent {
    Intent(id, "s", "t", Approve, false, "k", 0)
  }

  function ApprovalOf(event: string, id: string): Op {
    DoApply(Authorized(event, Authorization(id, "d", "o", "t", 0, true)))
  }

  function ItemOf(clean: Cleaner, sequence: nat, risk: Risk, status: Status, intent: Option<string>): Item {
    Item("s", "t", clean(""), risk, false, false, false, sequence, status, intent, None, ["e"])
  }

  function ApprovedStatus(risk: Risk): Status {
    if NeedsConfirmation(risk, Approve) then AwaitingConfirmation else ReadyToDispatch
  }

  lemma {:induction false} NewsTaken(clean: Cleaner, s: State, id: string, sequence: nat, risk: Risk)
    requires Token(id) && id !in s.seen && ("s" in s.items ==> s.items["s"].sequence < sequence)
    ensures Step(clean, s, NewsOf(id, sequence, risk))
         == (s.(items := s.items["s" := ItemOf(clean, sequence, risk, NeedsDecision, None)], seen := s.seen[id := NewsOf(id, sequence, risk).event]), Took)
  {
    LetterIsToken('s');
    LetterIsToken('t');
    LetterIsToken('e');
    hide Token;
    assert ["e"][1..] == [];
    assert Unicode.Utf8Len("") == 0;
  }

  lemma {:induction false} RecordTaken(clean: Cleaner, s: State, id: string, sequence: nat, risk: Risk)
    requires Token(id) && id !in s.decisions
    requires "s" in s.items && s.items["s"] == ItemOf(clean, sequence, risk, NeedsDecision, None)
    ensures Step(clean, s, DoRecord(IntentOf(id)))
         == (s.(items := s.items["s" := ItemOf(clean, sequence, risk, AwaitingAuthorization, Some(id))],
                decisions := s.decisions[id := Decision(IntentOf(id), None, false, false)]), Took)
  {
    LetterIsToken('s');
    LetterIsToken('t');
    LetterIsToken('k');
    hide Token;
  }

  lemma {:induction false} ApprovalTaken(clean: Cleaner, s: State, event: string, id: string, sequence: nat, risk: Risk)
    requires Token(event) && event !in s.seen && Token(id)
    requires id in s.decisions && s.decisions[id] == Decision(IntentOf(id), None, false, false)
    requires "s" in s.items && s.items["s"] == ItemOf(clean, sequence, risk, AwaitingAuthorization, Some(id))
    ensures var op := ApprovalOf(event, id);
            Step(clean, s, op)
              == (s.(items := s.items["s" := ItemOf(clean, sequence, risk, ApprovedStatus(risk), Some(id))],
                     decisions := s.decisions[id := Decision(IntentOf(id), Some(op.event.authorization), false, false)],
                     seen := s.seen[event := op.event]), Took)
  {
    LetterIsToken('d');
    LetterIsToken('o');
    LetterIsToken('t');
    hide Token;
  }

  /** One session through news, a recorded intent and its approval. */
  function Round(event: string, id: string, approval: string, sequence: nat, risk: Risk): seq<Op> {
    [NewsOf(event, sequence, risk), DoRecord(IntentOf(id)), ApprovalOf(approval, id)]
  }

  lemma {:induction false} RoundTaken(clean: Cleaner, s: State, event: string, id: string, approval: string, sequence: nat, risk: Risk)
    requires Token(event) && Token(id) && Token(approval) && event != approval
    requires event !in s.seen && approval !in s.seen && id !in s.decisions
    requires "s" in s.items ==> s.items["s"].sequence < sequence
    ensures var t := Run(clean, s, Round(event, id, approval, sequence, risk));
            && t.items == s.items["s" := ItemOf(clean, sequence, risk, ApprovedStatus(risk), Some(id))]
            && t.decisions == s.decisions[id := Decision(IntentOf(id), Some(ApprovalOf(approval, id).event.authorization), false, false)]
            && t.seen.Keys == s.seen.Keys + {event, approval}
  {
    hide Token, Step;
    var ops := Round(event, id, approval, sequence, risk);
    NewsTaken(clean, s, event, sequence, risk);
    var t := Step(clean, s, ops[0]).0;
    RecordTaken(clean, t, id, sequence, risk);
    var u := Step(clean, t, ops[1]).0;
    ApprovalTaken(clean, u, approval, id, sequence, risk);
    assert ops[1..] == [ops[1], ops[2]] && ops[1..][1..] == [ops[2]] && ops[1..][1..][1..] == [];
    assert Run(clean, s, ops) == Run(clean, t, ops[1..]) == Run(clean, u, [ops[2]]) == Step(clean, u, ops[2]).0;
  }

  /** Any approved intent of the session goes out once the item is ready, for whichever intent that is. */
  lemma {:induction false} ReadyGoesOut(clean: Cleaner, s: State, id: string, sequence: nat, risk: Risk, other: string)
    requires id in s.decisions && Approved(s.decisions[id]) && !s.decisions[id].dispatched
    requires s.decisions[id].intent == IntentOf(id) && (NeedsConfirmation(risk, Approve) ==> s.decisions[id].confirmed)
    requires "s" in s.items && s.items["s"] == ItemOf(clean, sequence, risk, ReadyToDispatch, Some(other))
    ensures Step(clean, s, DoDispatch(id)).1.Dispatched?
    ensures Step(clean, s, DoDispatch(id)).1.request.intent == IntentOf(id)
    ensures Step(clean, s, DoDispatch(id)).0.items == s.items["s" := ItemOf(clean, sequence, risk, AwaitingReceipt, Some(other))]
    ensures Step(clean, s, DoDispatch(id)).0.decisions == s.decisions[id := s.decisions[id].(dispatched := true)]
  {
  }

  /**
   * Two rounds, then the first intent: it is no longer current, was never
   * confirmed, and is dispatched all the same.
   */
  lemma {:induction false} SupersededIsDispatched(clean: Cleaner) returns (ops: seq<Op>)
    ensures |ops| == 7 && ReplyAt(clean, ops, 6).Dispatched?
    ensures ReplyAt(clean, ops, 6).request.intent == IntentOf("A")
    ensures !Current(Before(clean, ops, 6), IntentOf("A")) && forall op | op in ops :: !op.DoConfirm?
  {
    hide Run, Token, Step;
    var first, second := Round("a", "A", "b", 1, Low), Round("c", "B", "d", 2, Low);
    ops := first + second + [DoDispatch("A")];
    LetterIsToken('a');
    LetterIsToken('A');
    LetterIsToken('b');
    LetterIsToken('c');
    LetterIsToken('B');
    LetterIsToken('d');
    RoundTaken(clean, EMPTY, "a", "A", "b", 1, Low);
    RoundTaken(clean, Run(clean, EMPTY, first), "c", "B", "d", 2, Low);
    RunSplits(clean, EMPTY, first, second);
    assert ops[..6] == first + second;
    ReadyGoesOut(clean, Before(clean, ops, 6), "A", 2, Low, "B");
    assert forall op | op in first + second :: !op.DoConfirm?;
  }

  lemma {:induction false} ConfirmTaken(clean: Cleaner, s: State, id: string)
    requires id in s.decisions && Approved(s.decisions[id]) && s.decisions[id].intent == IntentOf(id) && "s" in s.items
    ensures Step(clean, s, DoConfirm(id)).1 == Took
    ensures Step(clean, s, DoConfirm(id)).0.items == s.items["s" := s.items["s"].(status := ReadyToDispatch)]
    ensures Step(clean, s, DoConfirm(id)).0.decisions == s.decisions[id := s.decisions[id].(confirmed := true)]
    ensures Step(clean, s, DoConfirm(id)).0.seen == s.seen
  {
  }

  /** A confirmation after the dispatch takes an item back from awaiting its receipt to ready. */
  lemma {:induction false} ConfirmationMovesBack(clean: Cleaner) returns (ops: seq<Op>)
    ensures |ops| == 5 && ReplyAt(clean, ops, 4) == Took
    ensures "s" in Before(clean, ops, 4).items && Before(clean, ops, 4).items["s"].status == AwaitingReceipt
    ensures "s" in Before(clean, ops, 5).items && Before(clean, ops, 5).items["s"].status == ReadyToDispatch
  {
    hide Run, Token, Step;
    var round := Round("a", "A", "b", 1, Low);
    ops := round + [DoDispatch("A"), DoConfirm("A")];
    LetterIsToken('a');
    LetterIsToken('A');
    LetterIsToken('b');
    RoundTaken(clean, EMPTY, "a", "A", "b", 1, Low);
    assert ops[..3] == round;
    ReadyGoesOut(clean, Before(clean, ops, 3), "A", 1, Low, "A");
    BeforeNext(clean, ops, 3);
    ConfirmTaken(clean, Before(clean, ops, 4), "A");
    BeforeNext(clean, ops, 4);
  }

  lemma {:induction false} RunThen(clean: Cleaner, s: State, ops: seq<Op>, op: Op)
    ensures Run(clean, s, ops + [op]) == Step(clean, Run(clean, s, ops), op).0
  {
    hide Step;
    RunSplits(clean, s, ops, [op]);
    assert [op][1..] == [];
  }

  /**
   * A confirmation given at low risk serves for a dispatch at critical risk: the
   * intent is confirmed, critical news supersedes it, the newer intent is
   * approved and confirmed, and then the older one goes out.
   */
  lemma {:induction false} OldConfirmationServes(clean: Cleaner) returns (ops: seq<Op>)
    ensures |ops| == 9 && ops[3] == DoConfirm("A") && ReplyAt(clean, ops, 3) == Took
    ensures ReplyAt(clean, ops, 8).Dispatched? && ReplyAt(clean, ops, 8).request.intent == IntentOf("A")
    ensures "s" in Before(clean, ops, 3).items && RiskAt(clean, ops, 3, "s").Low?
    ensures "s" in Before(clean, ops, 8).items && RiskAt(clean, ops, 8, "s").Critical?
    ensures forall j | 3 < j < 8 :: ops[j] != DoConfirm("A")
  {
    hide Run, Token, Step;
    var first, second := Round("a", "A", "b", 1, Low), Round("c", "B", "d", 2, Critical);
    var confirmed := first + [DoConfirm("A")];
    var superseded := confirmed + second;
    ops := superseded + [DoConfirm("B"), DoDispatch("A")];
    LetterIsToken('a');
    LetterIsToken('A');
    LetterIsToken('b');
    LetterIsToken('c');
    LetterIsToken('B');
    LetterIsToken('d');
    RoundTaken(clean, EMPTY, "a", "A", "b", 1, Low);
    var s3 := Run(clean, EMPTY, first);
    assert ops[..3] == first;
    ConfirmTaken(clean, s3, "A");
    RunThen(clean, EMPTY, first, DoConfirm("A"));
    var s4 := Run(clean, EMPTY, confirmed);
    RoundTaken(clean, s4, "c", "B", "d", 2, Critical);
    RunSplits(clean, EMPTY, confirmed, second);
    var s7 := Run(clean, EMPTY, superseded);
    ConfirmTaken(clean, s7, "B");
    RunThen(clean, EMPTY, superseded, DoConfirm("B"));
    assert ops[..8] == superseded + [DoConfirm("B")];
    ReadyGoesOut(clean, Before(clean, ops, 8), "A", 2, Critical, "B");
  }
}
