/** What holds of the slots over every run of promotions, rollbacks and failures. */
module PromotionTheorems {
  import opened Prelude
  import opened PromotionModel

  // ----- what a slot holds -----

  /** Every component file that is present is the one its manifest names. */
  ghost predicate Faithful(h: Sha256, b: Bundle) {
    forall c | c in b.manifest && c.name in b.files :: h(b.files[c.name]) == c.digest
  }

  /** Every component is present too. */
  ghost predicate Whole(h: Sha256, b: Bundle) {
    forall c | c in b.manifest :: c.name in b.files && h(b.files[c.name]) == c.digest
  }

  ghost predicate Held(s: Slots, b: Bundle) {
    s.active == Some(b) || s.previous == Some(b) || s.aside == Some(b)
  }

  ghost predicate AllFaithful(h: Sha256, s: Slots) {
    forall b | Held(s, b) :: Faithful(h, b)
  }

  ghost predicate AllWhole(h: Sha256, s: Slots) {
    forall b | Held(s, b) :: Whole(h, b)
  }

  // ----- staging -----

  lemma {:induction false} RecheckMeans(h: Sha256, components: Manifest, files: Files)
    ensures Recheck(h, components, files).None? <==> Whole(h, Bundle(components, files))
  {
    if components != [] {
      RecheckMeans(h, components[1..], files);
      assert components == [components[0]] + components[1..];
    }
  }

  function Names(components: Manifest): set<string> {
    set c | c in components :: c.name
  }

  /** A component passes staging when both reads of it have the manifest's digest. */
  ghost predicate Sound(h: Sha256, r: Request, c: Component) {
    c.name in r.first && h(r.first[c.name]) == c.digest && c.name in r.second && h(r.second[c.name]) == c.digest
  }

  lemma {:induction false} StageMeans(h: Sha256, components: Manifest, r: Request, staged: Files)
    ensures StageAll(h, components, r, staged).Ok? <==> forall c | c in components :: Sound(h, r, c)
    ensures StageAll(h, components, r, staged).Ok? ==>
      var files := StageAll(h, components, r, staged).value;
      && files.Keys == staged.Keys + Names(components)
      && Names(components) <= r.second.Keys
      && forall name | name in files :: files[name] == if name in Names(components) then r.second[name] else staged[name]
  {
    if components != [] {
      var c := components[0];
      assert components == [c] + components[1..];
      if Sound(h, r, c) {
        var next := staged[c.name := r.second[c.name]];
        StageMeans(h, components[1..], r, next);
        assert Names(components) == {c.name} + Names(components[1..]);
      } else {
        assert c in components;
      }
    }
  }

  /** The artifacts of the manifest's components, and the manifest. */
  function Staged(r: Request): Files
  {
    (map name | name in Names(r.manifest) && name in r.second :: r.second[name])["manifest.json" := r.rendered]
  }

  /**
   * Staging succeeds exactly when every component's two reads have its digest,
   * and the canary passes on exactly those files and the manifest and leaves
   * every component as it was promised.
   */
  lemma {:induction false} PrepareMeans(h: Sha256, r: Request)
    ensures Prepare(h, r).Ok? <==>
      && (forall c | c in r.manifest :: Sound(h, r, c))
      && r.canary(Staged(r)).passed
      && Whole(h, Bundle(r.manifest, r.canary(Staged(r)).after))
    ensures Prepare(h, r).Ok? ==> Prepare(h, r).value == r.canary(Staged(r)).after
  {
    hide StageAll, Recheck;
    StageMeans(h, r.manifest, r, map[]);
    if StageAll(h, r.manifest, r, map[]).Ok? {
      assert StageAll(h, r.manifest, r, map[]).value[MANIFEST_FILE := r.rendered] == Staged(r);
      RecheckMeans(h, r.manifest, r.canary(Staged(r)).after);
    }
  }

  lemma {:induction false} PreparedIsWhole(h: Sha256, r: Request)
    requires Prepare(h, r).Ok?
    ensures Whole(h, Bundle(r.manifest, Prepare(h, r).value))
  {
    hide Prepare, Whole;
    PrepareMeans(h, r);
  }

  // ----- one promotion -----

  /** A promotion ends in `Promoted` exactly when nothing stands in its way. */
  lemma {:induction false} PromoteSucceedsIff(h: Sha256, s: Slots, r: Request, f: PromoteFate)
    ensures Promote(h, s, r, f).1.Promoted? <==>
      && r.valid && !s.locked && Prepare(h, r).Ok?
      && f.early.Undisturbed? && !f.unlockFails
      && (s.previous.Some? ==> f.removal.Removed?) && (s.active.Some? ==> f.retire.Done?) && f.activate.Done?
  {
    hide Prepare;
  }

  /**
   * A completed promotion activates the verified stage whole, keeps the bundle
   * it displaced as the one to go back to, and says truly whether there is one.
   */
  lemma {:induction false} PromotedMeans(h: Sha256, s: Slots, r: Request, f: PromoteFate)
    requires Promote(h, s, r, f).1.Promoted?
    ensures Prepare(h, r).Ok?
    ensures var b := Bundle(r.manifest, Prepare(h, r).value);
      && Whole(h, b)
      && Promote(h, s, r, f) == (Slots(Some(b), s.active, s.aside, false), Promoted(s.active.Some?))
  {
    hide Prepare, Whole;
    PreparedIsWhole(h, r);
  }

  /** A rejection, of either operation, leaves everything as it was, the lock included. */
  lemma {:induction false} RejectionTouchesNothing(h: Sha256, s: Slots, op: Op)
    requires Step(h, s, op).1.Rejected?
    ensures Step(h, s, op).0 == s
  {
    hide Prepare;
  }

  /** Until the removal of the previous bundle starts, no error or death touches a slot. */
  lemma {:induction false} NothingChangesBeforeTheSwap(h: Sha256, s: Slots, r: Request, f: PromoteFate)
    requires !f.early.Undisturbed? || Prepare(h, r).Err?
    ensures Promote(h, s, r, f).0 == s.(locked := Promote(h, s, r, f).0.locked)
  {
    hide Prepare;
  }

  /** Every bundle in a slot after a promotion was there before, is what is left of one, or is the new one. */
  lemma {:induction false} PromotionSources(h: Sha256, s: Slots, r: Request, f: PromoteFate, b: Bundle)
    requires Held(Promote(h, s, r, f).0, b)
    ensures
      || Held(s, b)
      || (f.removal.Stopped? && s.previous.Some? && b == Trim(s.previous.value, f.removal.left))
      || (Prepare(h, r).Ok? && b == Bundle(r.manifest, Prepare(h, r).value))
  {
    hide Prepare, Trim;
  }

  // ----- conservation -----

  function Contents(s: Slots): multiset<Option<Bundle>> {
    multiset{s.active, s.previous, s.aside}
  }

  /** Whatever happens to it, a rollback only moves bundles between the three directories. */
  lemma {:induction false} RollbackConserves(s: Slots, f: RollbackFate)
    ensures Contents(Rollback(s, f).0) == Contents(s)
    ensures Rollback(s, f).0.locked == s.locked
  {
    RollbackArrangements(s, f);
    hide Rollback;
    var t := Rollback(s, f).0;
    if t != s {
      assert multiset{s.active, s.previous, None} == multiset{None, s.previous, s.active};
      assert multiset{s.active, s.previous, None} == multiset{s.previous, None, s.active};
      assert multiset{s.active, s.previous, None} == multiset{s.previous, s.active, None};
    }
  }

  /** A rollback ends as it started, exchanged, or stuck with the active bundle parked. */
  lemma {:induction false} RollbackArrangements(s: Slots, f: RollbackFate)
    ensures var t := Rollback(s, f).0;
      || t == s
      || (s.aside.None? && t == s.(active := None, aside := s.active))
      || (s.aside.None? && t == s.(active := s.previous, previous := None, aside := s.active))
      || (s.aside.None? && t == s.(active := s.previous, previous := s.active))
  {
  }

  /** The bundle active when an operation starts is in some slot when it ends, however it ends. */
  lemma {:induction false} ActiveSurvives(h: Sha256, s: Slots, op: Op)
    requires s.active.Some?
    ensures Held(Step(h, s, op).0, s.active.value)
  {
    hide Prepare, Trim;
  }

  /** A completed rollback exchanges the two slots, and a second one restores them. */
  lemma {:induction false} TwoRollbacksAreIdentity(s: Slots, f: RollbackFate, g: RollbackFate)
    requires Rollback(s, f).1.RolledBack?
    ensures Rollback(s, f).0 == s.(active := s.previous, previous := s.active)
    ensures Rollback(Rollback(s, f).0, g).1.RolledBack? ==> Rollback(Rollback(s, f).0, g).0 == s
  {
  }

  /** Rolling back a completed promotion restores the active bundle and keeps the new one. */
  lemma {:induction false} RollbackUndoesPromotion(h: Sha256, s: Slots, r: Request, f: PromoteFate, g: RollbackFate)
    requires Promote(h, s, r, f).1.Promoted?
    requires Rollback(Promote(h, s, r, f).0, g).1.RolledBack?
    ensures s.active.Some? && Rollback(Promote(h, s, r, f).0, g).0.active == s.active
    ensures Rollback(Promote(h, s, r, f).0, g).0.previous == Promote(h, s, r, f).0.active
  {
    hide Prepare, Promote, Whole, Rollback;
    PromotedMeans(h, s, r, f);
    TwoRollbacksAreIdentity(Promote(h, s, r, f).0, g, g);
    RollbackNeeds(Promote(h, s, r, f).0, g);
  }

  lemma {:induction false} RollbackNeeds(s: Slots, f: RollbackFate)
    ensures Rollback(s, f).1.RolledBack? <==>
      && s.active.Some? && s.previous.Some? && s.aside.None?
      && f.park.Done? && f.restore.Done? && f.retire.Done? && !f.receiptFails
  {
  }

  // ----- every run -----

  lemma {:induction false} RollbackHeld(s: Slots, f: RollbackFate, b: Bundle)
    ensures Held(Rollback(s, f).0, b) <==> Held(s, b)
  {
  }

  lemma {:induction false} TrimIsFaithful(h: Sha256, b: Bundle, left: set<string>)
    requires Faithful(h, b)
    ensures Faithful(h, Trim(b, left))
  {
  }

  lemma {:induction false} StepIsFaithful(h: Sha256, s: Slots, op: Op)
    requires AllFaithful(h, s)
    ensures AllFaithful(h, Step(h, s, op).0)
  {
    hide Promote, Prepare, Rollback, Trim;
    forall b | Held(Step(h, s, op).0, b)
      ensures Faithful(h, b)
    {
      match op
      case PromoteOp(r, f) =>
        PromotionSources(h, s, r, f, b);
        if f.removal.Stopped? && s.previous.Some? {
          assert Held(s, s.previous.value);
          TrimIsFaithful(h, s.previous.value, f.removal.left);
        }
        if Prepare(h, r).Ok? {
          PreparedIsWhole(h, r);
        }
      case RollbackOp(f) => RollbackHeld(s, f, b);
      case ClearLock => assert Held(s, b);
    }
  }

  /**
   * Over every run, whatever failed where, every component file in the active
   * slot, and in the others, has the digest the manifest promoted into it names.
   */
  lemma {:induction false} EveryRunIsFaithful(h: Sha256, s: Slots, ops: seq<Op>)
    requires AllFaithful(h, s)
    ensures AllFaithful(h, Run(h, s, ops))
    decreases |ops|
  {
    hide Step, AllFaithful;
    if |ops| > 0 {
      StepIsFaithful(h, s, ops[0]);
      EveryRunIsFaithful(h, Step(h, s, ops[0]).0, ops[1..]);
    }
  }

  /** The promotion gets as far as removing the previous bundle, and stops there with the directory left. */
  predicate StopsRemoving(h: Sha256, s: Slots, r: Request, f: PromoteFate) {
    && r.valid && f.early.Undisturbed? && !s.locked && Prepare(h, r).Ok?
    && s.previous.Some? && f.removal.Stopped? && !f.removal.gone
  }

  /** The removal stops when some component is gone and the directory is not. */
  ghost predicate Cuts(h: Sha256, s: Slots, op: Op) {
    && op.PromoteOp? && StopsRemoving(h, s, op.request, op.fate)
    && exists c | c in s.previous.value.manifest :: c.name !in op.fate.removal.left
  }

  lemma {:induction false} TrimIsWholeIff(h: Sha256, b: Bundle, left: set<string>)
    requires Whole(h, b)
    ensures Whole(h, Trim(b, left)) <==> forall c | c in b.manifest :: c.name in left
  {
    if Whole(h, Trim(b, left)) {
      forall c | c in b.manifest
        ensures c.name in left
      {
        assert c in Trim(b, left).manifest;
      }
    }
  }

  /** A removal that stops leaves the trimmed bundle in the previous slot. */
  lemma {:induction false} StoppedRemoval(h: Sha256, s: Slots, r: Request, f: PromoteFate)
    requires StopsRemoving(h, s, r, f)
    ensures Promote(h, s, r, f).0.previous == Some(Trim(s.previous.value, f.removal.left))
  {
    hide Prepare, Trim;
  }

  /** Otherwise every bundle was there before or is the verified new one. */
  lemma {:induction false} UncutSources(h: Sha256, s: Slots, r: Request, f: PromoteFate, b: Bundle)
    requires Held(Promote(h, s, r, f).0, b)
    requires !StopsRemoving(h, s, r, f)
    ensures Held(s, b) || (Prepare(h, r).Ok? && b == Bundle(r.manifest, Prepare(h, r).value))
  {
    hide Prepare, Trim;
  }

  lemma {:induction false} PromotionIsWholeIff(h: Sha256, s: Slots, op: Op)
    requires AllWhole(h, s) && op.PromoteOp?
    ensures AllWhole(h, Step(h, s, op).0) <==> !Cuts(h, s, op)
  {
    hide Promote, Prepare, Trim, Whole;
    var r, f, after := op.request, op.fate, Step(h, s, op).0;
    if StopsRemoving(h, s, r, f) {
      var older := s.previous.value;
      assert Held(s, older);
      StoppedRemoval(h, s, r, f);
      TrimIsWholeIff(h, older, f.removal.left);
      assert Held(after, Trim(older, f.removal.left));
    }
    if !Cuts(h, s, op) {
      forall b | Held(after, b)
        ensures Whole(h, b)
      {
        PromotionSources(h, s, r, f, b);
        if !Held(s, b) && Prepare(h, r).Ok? {
          PreparedIsWhole(h, r);
        }
        if !StopsRemoving(h, s, r, f) {
          UncutSources(h, s, r, f, b);
        }
      }
    }
  }

  lemma {:induction false} StepIsWholeIff(h: Sha256, s: Slots, op: Op)
    requires AllWhole(h, s)
    ensures AllWhole(h, Step(h, s, op).0) <==> !Cuts(h, s, op)
  {
    hide Promote, Rollback, Prepare, Whole;
    match op
    case PromoteOp(_, _) => PromotionIsWholeIff(h, s, op);
    case RollbackOp(f) =>
      forall b | Held(Rollback(s, f).0, b)
        ensures Whole(h, b)
      {
        RollbackHeld(s, f, b);
      }
    case ClearLock =>
      assert forall b :: Held(s.(locked := false), b) ==> Held(s, b);
  }

  ghost predicate AlwaysWhole(h: Sha256, s: Slots, ops: seq<Op>)
    decreases |ops|
  {
    AllWhole(h, s) && (|ops| == 0 || AlwaysWhole(h, Step(h, s, ops[0]).0, ops[1..]))
  }

  ghost predicate NeverCuts(h: Sha256, s: Slots, ops: seq<Op>)
    decreases |ops|
  {
    |ops| == 0 || (!Cuts(h, s, ops[0]) && NeverCuts(h, Step(h, s, ops[0]).0, ops[1..]))
  }

  /**
   * Every bundle in every slot has all its components throughout a run exactly
   * if no removal of a previous bundle is cut off between its components.
   */
  lemma {:induction false} AlwaysWholeIff(h: Sha256, s: Slots, ops: seq<Op>)
    requires AllWhole(h, s)
    ensures AlwaysWhole(h, s, ops) <==> NeverCuts(h, s, ops)
    decreases |ops|
  {
    hide Step, AllWhole, Cuts;
    if |ops| > 0 {
      StepIsWholeIff(h, s, ops[0]);
      if !Cuts(h, s, ops[0]) {
        AlwaysWholeIff(h, Step(h, s, ops[0]).0, ops[1..]);
      } else {
        assert !AlwaysWhole(h, Step(h, s, ops[0]).0, ops[1..]);
      }
    }
  }

  /**
   * Such a cut can reach the active slot: followed by a rollback it activates
   * the bundle without the component, for every pair of bundles whose older one
   * is whole and has a component.
   */
  lemma {:induction false} StoppedRemovalIsActivated(h: Sha256, active: Bundle, older: Bundle, r: Request, c: Component)
    requires Whole(h, older) && c in older.manifest
    requires r.valid && Prepare(h, r).Ok?
    ensures
      var s := Slots(Some(active), Some(older), None, false);
      var f := SMOOTH_PROMOTION.(removal := Stopped(false, older.files.Keys - {c.name}, false));
      var end := Run(h, s, [PromoteOp(r, f), RollbackOp(SMOOTH_ROLLBACK)]);
      && end.active.Some? && end.active.value.manifest == older.manifest
      && c.name !in end.active.value.files && !Whole(h, end.active.value)
  {
    hide Prepare;
    var s := Slots(Some(active), Some(older), None, false);
    var f := SMOOTH_PROMOTION.(removal := Stopped(false, older.files.Keys - {c.name}, false));
    var ops := [PromoteOp(r, f), RollbackOp(SMOOTH_ROLLBACK)];
    var after := Step(h, s, ops[0]).0;
    assert after == Slots(Some(active), Some(Trim(older, older.files.Keys - {c.name})), None, false);
    assert ops[1..] == [RollbackOp(SMOOTH_ROLLBACK)];
    var end := Step(h, after, ops[1]).0;
    assert Run(h, after, ops[1..]) == end by {
      assert ops[1..][1..] == [];
    }
    assert c in end.active.value.manifest;
  }

  // ----- the last bundle that was active -----

  /** The bundle most recently seen in the active slot. */
  function LastActive(h: Sha256, s: Slots, ops: seq<Op>, seen: Option<Bundle>): Option<Bundle>
    decreases |ops|
  {
    var now := if s.active.Some? then s.active else seen;
    if |ops| == 0 then now else LastActive(h, Step(h, s, ops[0]).0, ops[1..], now)
  }

  /** No promotion starts while the active slot is empty. */
  predicate PromotesOverActive(h: Sha256, s: Slots, ops: seq<Op>)
    decreases |ops|
  {
    |ops| == 0 || ((ops[0].PromoteOp? ==> s.active.Some?) && PromotesOverActive(h, Step(h, s, ops[0]).0, ops[1..]))
  }

  /** Over every such run the bundle most recently active is always still in some slot. */
  lemma {:induction false} LastActiveSurvives(h: Sha256, s: Slots, ops: seq<Op>, seen: Option<Bundle>)
    requires PromotesOverActive(h, s, ops)
    requires s.active.None? && seen.Some? ==> Held(s, seen.value)
    ensures LastActive(h, s, ops, seen).Some? ==> Held(Run(h, s, ops), LastActive(h, s, ops, seen).value)
    decreases |ops|
  {
    hide Promote, Rollback, Held;
    if |ops| == 0 {
      assert s.active.Some? ==> Held(s, s.active.value) by {
        ActiveIsHeld(s);
      }
    } else {
      var now := if s.active.Some? then s.active else seen;
      var next := Step(h, s, ops[0]).0;
      if s.active.Some? {
        ActiveSurvives(h, s, ops[0]);
      } else if now.Some? {
        IdleKeeps(h, s, ops[0], now.value);
      }
      LastActiveSurvives(h, next, ops[1..], now);
    }
  }

  lemma {:induction false} ActiveIsHeld(s: Slots)
    ensures s.active.Some? ==> Held(s, s.active.value)
  {
  }

  lemma {:induction false} IdleKeeps(h: Sha256, s: Slots, op: Op, b: Bundle)
    requires s.active.None? && !op.PromoteOp? && Held(s, b)
    ensures Held(Step(h, s, op).0, b)
  {
    hide Promote;
  }

  ghost predicate SafeFromPromotion(h: Sha256, s: Slots, b: Bundle) {
    forall r, f :: Held(Promote(h, s, r, f).0, b)
  }

  /**
   * A bundle outlives every promotion that could be tried exactly when the lock
   * is taken or the bundle is active or parked: one that only the previous slot
   * holds can be lost, even when the promotion then fails.
   */
  lemma {:induction false} SafeFromPromotionIff(h: Sha256, s: Slots, b: Bundle)
    requires Held(s, b)
    ensures SafeFromPromotion(h, s, b) <==> s.locked || s.active == Some(b) || s.aside == Some(b)
  {
    hide Prepare, Trim;
    if s.locked || s.active == Some(b) || s.aside == Some(b) {
      forall r, f
        ensures Held(Promote(h, s, r, f).0, b)
      {
        if s.active == Some(b) {
          ActiveSurvives(h, s, PromoteOp(r, f));
        }
      }
    } else {
      var r := Request([], true, [], map[], map[], files => Verdict(true, files));
      var f := SMOOTH_PROMOTION.(activate := Refused);
      EmptyPrepares(h, r);
      assert !Held(Promote(h, s, r, f).0, b);
    }
  }

  lemma {:induction false} EmptyPrepares(h: Sha256, r: Request)
    requires r.manifest == [] && forall files :: r.canary(files).passed
    ensures Prepare(h, r).Ok?
  {
  }

  /** The promotion gets as far as removing the previous bundle. */
  predicate StartsRemoving(h: Sha256, s: Slots, r: Request, f: PromoteFate) {
    r.valid && f.early.Undisturbed? && !s.locked && Prepare(h, r).Ok? && s.previous.Some?
  }

  /** The new bundle reaches the active slot. */
  predicate Installs(s: Slots, f: PromoteFate) {
    f.removal.Removed? && (s.active.Some? ==> f.retire.Done?) && Happened(f.activate)
  }

  /**
   * Only the previous slot holds the bundle, a promotion deletes some of it, and
   * does not happen to install the very same bundle again.
   */
  ghost predicate Drops(h: Sha256, s: Slots, op: Op, b: Bundle) {
    && op.PromoteOp? && StartsRemoving(h, s, op.request, op.fate)
    && s.previous == Some(b) && s.active != Some(b) && s.aside != Some(b)
    && (op.fate.removal.Stopped? && !op.fate.removal.gone ==> Trim(b, op.fate.removal.left) != b)
    && !(Installs(s, op.fate) && b == Bundle(op.request.manifest, Prepare(h, op.request).value))
  }

  lemma {:induction false} StepDropsIff(h: Sha256, s: Slots, op: Op, b: Bundle)
    requires Held(s, b)
    ensures Held(Step(h, s, op).0, b) <==> !Drops(h, s, op, b)
  {
    hide Prepare, Trim, Rollback;
    if op.RollbackOp? {
      RollbackHeld(s, op.undo, b);
    }
  }

  ghost predicate AlwaysHeld(h: Sha256, s: Slots, ops: seq<Op>, b: Bundle)
    decreases |ops|
  {
    Held(s, b) && (|ops| == 0 || AlwaysHeld(h, Step(h, s, ops[0]).0, ops[1..], b))
  }

  ghost predicate NeverDrops(h: Sha256, s: Slots, ops: seq<Op>, b: Bundle)
    decreases |ops|
  {
    |ops| == 0 || (!Drops(h, s, ops[0], b) && NeverDrops(h, Step(h, s, ops[0]).0, ops[1..], b))
  }

  /** A bundle stays in some slot throughout a run exactly if no promotion drops it from the previous slot. */
  lemma {:induction false} AlwaysHeldIff(h: Sha256, s: Slots, ops: seq<Op>, b: Bundle)
    requires Held(s, b)
    ensures AlwaysHeld(h, s, ops, b) <==> NeverDrops(h, s, ops, b)
    decreases |ops|
  {
    hide Step, Held, Drops;
    if |ops| > 0 {
      StepDropsIff(h, s, ops[0], b);
      if !Drops(h, s, ops[0], b) {
        AlwaysHeldIff(h, Step(h, s, ops[0]).0, ops[1..], b);
      } else {
        assert !AlwaysHeld(h, Step(h, s, ops[0]).0, ops[1..], b);
      }
    }
  }

  /**
   * Hence a run may lose everything: after a swap whose recovery is refused, a
   * second promotion deletes the only bundle left and then fails itself.
   */
  lemma {:induction false} TwoFailuresLoseEverything(h: Sha256, only: Bundle, r: Request)
    requires r.valid && Prepare(h, r).Ok?
    ensures
      var f := SMOOTH_PROMOTION.(activate := Refused, recover := Refused);
      Run(h, EMPTY_SLOTS.(active := Some(only)), [PromoteOp(r, f), PromoteOp(r, f)]) == EMPTY_SLOTS
  {
    hide Prepare;
    var f := SMOOTH_PROMOTION.(activate := Refused, recover := Refused);
    var op := PromoteOp(r, f);
    var s := EMPTY_SLOTS.(active := Some(only));
    var stranded := Slots(None, Some(only), None, false);
    assert Step(h, s, op).0 == stranded;
    assert Step(h, stranded, op).0 == EMPTY_SLOTS;
    assert [op, op][1..] == [op] && [op][1..] == [];
    assert Run(h, stranded, [op]) == EMPTY_SLOTS;
  }

  // ----- the lock -----

  /** The swap is cut off by the death of the process, at the removal, a rename or the recovery. */
  predicate DiesSwapping(s: Slots, f: PromoteFate) {
    if s.previous.Some? && f.removal.Stopped? then f.removal.died
    else if s.active.Some? && !f.retire.Done? then Died(f.retire)
    else Died(f.activate) || (f.activate.Refused? && s.active.Some? && Died(f.recover))
  }

  /** The promotion takes the lock, and then its process dies. */
  predicate Dies(h: Sha256, s: Slots, r: Request, f: PromoteFate) {
    && r.valid && !f.early.BeforeLock? && !s.locked
    && (f.early.DiedEarly? || (f.early.Undisturbed? && Prepare(h, r).Ok? && DiesSwapping(s, f)))
  }

  lemma {:induction false} CrashedIff(h: Sha256, s: Slots, r: Request, f: PromoteFate)
    ensures Promote(h, s, r, f).1.Crashed? <==> Dies(h, s, r, f)
  {
    hide Prepare, Trim;
  }

  /**
   * The lock is there after a promotion exactly if it was before, or the process
   * died holding it, or the promotion took it and could not remove it.
   */
  lemma {:induction false} LockRemainsIff(h: Sha256, s: Slots, r: Request, f: PromoteFate)
    ensures Promote(h, s, r, f).0.locked <==>
      s.locked || Dies(h, s, r, f) || (r.valid && !f.early.BeforeLock? && f.unlockFails)
  {
    hide Prepare, Trim, Dies;
    CrashedIff(h, s, r, f);
  }

  /** While a lock is left behind, no run without an operator promotes anything: it only moves bundles. */
  lemma {:induction false} StaleLockBlocksPromotion(h: Sha256, s: Slots, ops: seq<Op>)
    requires s.locked && forall op | op in ops :: !op.ClearLock?
    ensures Run(h, s, ops).locked && Contents(Run(h, s, ops)) == Contents(s)
    decreases |ops|
  {
    hide Rollback, Prepare, Contents;
    if |ops| > 0 {
      assert ops[0] in ops;
      if ops[0].RollbackOp? {
        RollbackConserves(s, ops[0].undo);
      }
      StaleLockBlocksPromotion(h, Step(h, s, ops[0]).0, ops[1..]);
    }
  }
}
