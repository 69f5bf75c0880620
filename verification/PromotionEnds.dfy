/**
 * Where a promotion and a rollback leave the slots, for every way in which their
 * steps may go, and what a rejection says.
 */
module PromotionEnds {
  import opened Prelude
  import opened PromotionModel
  import opened PromotionTheorems

  // ----- promotion -----

  /** The promotion gets as far as retiring the active bundle, or would if there were one. */
  predicate GetsToRetiring(h: Sha256, s: Slots, r: Request, f: PromoteFate) {
    && r.valid && f.early.Undisturbed? && !s.locked && Prepare(h, r).Ok?
    && (s.previous.Some? ==> f.removal.Removed?)
  }

  /** The stage is renamed to the active slot, whether or not the promotion then goes on. */
  predicate Activates(f: PromoteFate) {
    f.activate.Done? || f.activate.Interrupted? || f.activate.DiedAfter?
  }

  /**
   * The active bundle is retired and nothing takes its place: the process stops
   * right after, or the stage is not renamed and the retired bundle is not renamed back.
   */
  predicate LeavesEmpty(f: PromoteFate) {
    || f.retire.Interrupted?
    || f.retire.DiedAfter?
    || (f.retire.Done? && f.activate.DiedBefore?)
    || (f.retire.Done? && f.activate.Refused? && (f.recover.Refused? || f.recover.DiedBefore?))
  }

  /** A promotion over an active bundle leaves the active slot empty exactly in these cases. */
  lemma {:induction false} PromotionEmptiesIff(h: Sha256, s: Slots, r: Request, f: PromoteFate)
    requires s.active.Some?
    ensures Promote(h, s, r, f).0.active.None? <==> GetsToRetiring(h, s, r, f) && LeavesEmpty(f)
  {
    hide Prepare, Trim;
  }

  /**
   * It leaves the new bundle there if the stage was renamed, and in every case in
   * which it leaves neither that nor an empty slot, the bundle that was active.
   */
  lemma {:induction false} PromotionActive(h: Sha256, s: Slots, r: Request, f: PromoteFate)
    ensures var t := Promote(h, s, r, f).0;
            var installs := GetsToRetiring(h, s, r, f) && (s.active.Some? ==> f.retire.Done?) && Activates(f);
            && (installs ==> t.active == Some(Bundle(r.manifest, Prepare(h, r).value)))
            && (!installs && t.active.Some? ==> t.active == s.active)
    ensures Promote(h, s, r, f).0.aside == s.aside
  {
    hide Prepare, Trim;
  }

  /** And the previous slot then holds the bundle it displaced, or what is left of the one before. */
  lemma {:induction false} PromotionPrevious(h: Sha256, s: Slots, r: Request, f: PromoteFate)
    ensures var t := Promote(h, s, r, f).0;
            if GetsToRetiring(h, s, r, f) then
              t.previous == if LeavesEmpty(f) || (f.retire.Done? && Activates(f)) then s.active else None
            else if StopsRemoving(h, s, r, f) then
              t.previous == Some(Trim(s.previous.value, f.removal.left))
            else
              t.previous == if StartsRemoving(h, s, r, f) then None else s.previous
  {
    hide Prepare, Trim;
  }

  /** Whatever lock is left behind, once the operator removes it an undisturbed promotion of a sound stage goes through. */
  lemma {:induction false} ClearingUnblocks(h: Sha256, s: Slots, r: Request)
    requires r.valid && Prepare(h, r).Ok?
    ensures Run(h, s, [ClearLock, PromoteOp(r, SMOOTH_PROMOTION)])
         == Slots(Some(Bundle(r.manifest, Prepare(h, r).value)), s.active, s.aside, false)
  {
    hide Prepare;
    var ops := [ClearLock, PromoteOp(r, SMOOTH_PROMOTION)];
    var cleared := Step(h, s, ClearLock).0;
    assert ops[1..] == [PromoteOp(r, SMOOTH_PROMOTION)] && ops[1..][1..] == [];
    assert Run(h, s, ops) == Run(h, cleared, ops[1..]);
    assert Run(h, cleared, ops[1..]) == Run(h, Step(h, cleared, ops[1]).0, []);
  }

  // ----- rollback -----

  /** The active bundle stays parked: the rollback stops there, or restores neither the previous bundle nor it. */
  predicate StaysParked(f: RollbackFate) {
    || f.park.Interrupted?
    || f.park.DiedAfter?
    || (f.park.Done? && f.restore.DiedBefore?)
    || (f.park.Done? && f.restore.Refused? && (f.recover.Refused? || f.recover.DiedBefore?))
  }

  /** The previous bundle is active and the other still parked, so that the next rollback is refused. */
  predicate StopsHalfway(f: RollbackFate) {
    && f.park.Done?
    && (f.restore.Interrupted? || f.restore.DiedAfter? || (f.restore.Done? && (f.retire.Refused? || f.retire.DiedBefore?)))
  }

  /** Both renames after the parking happen. */
  predicate Exchanges(f: RollbackFate) {
    f.park.Done? && f.restore.Done? && (f.retire.Done? || f.retire.Interrupted? || f.retire.DiedAfter?)
  }

  /** Which of the four arrangements a rollback ends in, for every fate of its renames. */
  lemma {:induction false} RollbackEnds(s: Slots, f: RollbackFate)
    requires s.active.Some? && s.previous.Some? && s.aside.None?
    ensures Rollback(s, f).0 ==
      if StaysParked(f) then s.(active := None, aside := s.active)
      else if StopsHalfway(f) then s.(active := s.previous, previous := None, aside := s.active)
      else if Exchanges(f) then s.(active := s.previous, previous := s.active)
      else s
    ensures Rollback(s, f).0.active.None? <==> StaysParked(f)
    ensures Rollback(s, f).0.previous.None? <==> StopsHalfway(f)
    ensures Rollback(s, f).0.aside.Some? <==> StaysParked(f) || StopsHalfway(f)
  {
  }

  /** When a rollback's process dies, and when it refuses to start. */
  lemma {:induction false} RollbackOutcome(s: Slots, f: RollbackFate)
    ensures Rollback(s, f).1 == Rejected(NoSlots) <==> s.active.None? || s.previous.None?
    ensures Rollback(s, f).1 == Rejected(StaleRollback) <==> s.active.Some? && s.previous.Some? && s.aside.Some?
    ensures Rollback(s, f).1.Crashed? <==>
      && s.active.Some? && s.previous.Some? && s.aside.None?
      && (|| f.park.DiedBefore? || f.park.DiedAfter?
          || (f.park.Done? && (f.restore.DiedBefore? || f.restore.DiedAfter?))
          || (f.park.Done? && f.restore.Refused? && (f.recover.DiedBefore? || f.recover.DiedAfter?))
          || (f.park.Done? && f.restore.Done? && (f.retire.DiedBefore? || f.retire.DiedAfter?)))
    ensures Rollback(s, f).1.Rejected? || Rollback(s, f).1.Crashed? || Rollback(s, f).1.RolledBack? || Rollback(s, f).1.Failed?
  {
  }

  // ----- rejections -----

  /** Which rejection a promotion ends in, if any. */
  lemma {:induction false} PromotionRejections(h: Sha256, s: Slots, r: Request, f: PromoteFate, reason: Reason)
    ensures Promote(h, s, r, f).1 == Rejected(reason) <==>
      || (!r.valid && reason.InvalidManifest?)
      || (r.valid && !f.early.BeforeLock? && s.locked && reason.Busy?)
      || (&& r.valid && f.early.Undisturbed? && !s.locked && !f.unlockFails
          && Prepare(h, r) == Err(reason) && !reason.Unreadable?)
  {
    hide StageAll, Recheck, Trim;
    PrepareReasons(h, r);
  }

  lemma {:induction false} PrepareReasons(h: Sha256, r: Request)
    ensures Prepare(h, r).Err? ==> !Prepare(h, r).error.InvalidManifest? && !Prepare(h, r).error.Busy?
  {
    hide StageAll, Recheck;
    StageFails(h, r.manifest, r, map[]);
    if StageAll(h, r.manifest, r, map[]).Ok? {
      RecheckFails(h, r.manifest, r.canary(StageAll(h, r.manifest, r, map[]).value[MANIFEST_FILE := r.rendered]).after);
    }
  }

  /** Component `i` is the first that does not pass, and fails as the reason says. */
  ghost predicate FailsAt(h: Sha256, components: Manifest, r: Request, i: nat, reason: Reason) {
    && i < |components| && (forall c | c in components[..i] :: Sound(h, r, c))
    && var c := components[i];
    match reason
    case ArtifactMissing(name) => name == c.name && name !in r.first
    case ArtifactMismatch(name) => name == c.name && name in r.first && h(r.first[name]) != c.digest
    case Unreadable => c.name in r.first && h(r.first[c.name]) == c.digest && c.name !in r.second
    case StagedMismatch(name) =>
      && name == c.name && name in r.first && h(r.first[name]) == c.digest
      && name in r.second && h(r.second[name]) != c.digest
    case _ => false
  }

  ghost predicate FailsSomewhere(h: Sha256, components: Manifest, r: Request, reason: Reason) {
    exists i: nat :: FailsAt(h, components, r, i, reason)
  }

  lemma {:induction false} FailsNext(h: Sha256, components: Manifest, r: Request, i: nat, reason: Reason)
    requires components != [] && Sound(h, r, components[0]) && FailsAt(h, components[1..], r, i, reason)
    ensures FailsAt(h, components, r, i + 1, reason)
  {
    assert components[..i + 1] == [components[0]] + components[1..][..i];
  }

  lemma {:induction false} StageFails(h: Sha256, components: Manifest, r: Request, staged: Files)
    ensures StageAll(h, components, r, staged).Err? ==>
      FailsSomewhere(h, components, r, StageAll(h, components, r, staged).error)
    decreases |components|
  {
    if components != [] && StageAll(h, components, r, staged).Err? {
      var reason, c := StageAll(h, components, r, staged).error, components[0];
      if Sound(h, r, c) {
        StageFails(h, components[1..], r, staged[c.name := r.second[c.name]]);
        var i: nat :| FailsAt(h, components[1..], r, i, reason);
        FailsNext(h, components, r, i, reason);
      } else {
        assert FailsAt(h, components, r, 0, reason);
      }
    }
  }

  /** Component `i` is the first the canary lost, or changed. */
  ghost predicate SpoiledAt(h: Sha256, components: Manifest, files: Files, i: nat, reason: Reason) {
    && i < |components| && Whole(h, Bundle(components[..i], files))
    && var c := components[i];
    match reason
    case Unreadable => c.name !in files
    case CanaryModified(name) => name == c.name && name in files && h(files[name]) != c.digest
    case _ => false
  }

  ghost predicate SpoiledSomewhere(h: Sha256, components: Manifest, files: Files, reason: Reason) {
    exists i: nat :: SpoiledAt(h, components, files, i, reason)
  }

  lemma {:induction false} RecheckFails(h: Sha256, components: Manifest, files: Files)
    ensures Recheck(h, components, files).Some? ==>
      SpoiledSomewhere(h, components, files, Recheck(h, components, files).value)
    decreases |components|
  {
    if components != [] && Recheck(h, components, files).Some? {
      var reason, c := Recheck(h, components, files).value, components[0];
      if c.name in files && h(files[c.name]) == c.digest {
        RecheckFails(h, components[1..], files);
        var i: nat :| SpoiledAt(h, components[1..], files, i, reason);
        assert components[..i + 1] == [c] + components[1..][..i];
        assert SpoiledAt(h, components, files, i + 1, reason);
      } else {
        assert SpoiledAt(h, components, files, 0, reason);
      }
    }
  }

  /** Why staging fails: at the first bad component, at the canary, or at the first component the canary spoiled. */
  lemma {:induction false} PrepareErrorMeans(h: Sha256, r: Request)
    requires Prepare(h, r).Err?
    ensures
      || FailsSomewhere(h, r.manifest, r, Prepare(h, r).error)
      || (&& (forall c | c in r.manifest :: Sound(h, r, c))
          && if r.canary(Staged(r)).passed then SpoiledSomewhere(h, r.manifest, r.canary(Staged(r)).after, Prepare(h, r).error)
             else Prepare(h, r).error.CanaryFailed?)
  {
    hide StageAll, Recheck, FailsSomewhere, SpoiledSomewhere;
    StageMeans(h, r.manifest, r, map[]);
    StageFails(h, r.manifest, r, map[]);
    if StageAll(h, r.manifest, r, map[]).Ok? {
      assert StageAll(h, r.manifest, r, map[]).value[MANIFEST_FILE := r.rendered] == Staged(r);
      RecheckFails(h, r.manifest, r.canary(Staged(r)).after);
    }
  }
}
