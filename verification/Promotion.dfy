/** `promote` and `rollback` as they run on the slots' directories. */
module Promotion {
  import opened Prelude
  import opened PromotionModel

  method Stage(h: Sha256, r: Request) returns (staged: Result<Files, Reason>)
    ensures staged == StageAll(h, r.manifest, r, map[])
  {
    var files: Files := map[];
    for i := 0 to |r.manifest|
      invariant StageAll(h, r.manifest, r, map[]) == StageAll(h, r.manifest[i..], r, files)
    {
      var c := r.manifest[i];
      if c.name !in r.first {
        return Err(ArtifactMissing(c.name));
      }
      if h(r.first[c.name]) != c.digest {
        return Err(ArtifactMismatch(c.name));
      }
      if c.name !in r.second {
        return Err(Unreadable);
      }
      files := files[c.name := r.second[c.name]];
      if h(files[c.name]) != c.digest {
        return Err(StagedMismatch(c.name));
      }
      assert r.manifest[i..][1..] == r.manifest[i + 1..];
    }
    return Ok(files);
  }

  method CheckAgain(h: Sha256, components: Manifest, files: Files) returns (found: Option<Reason>)
    ensures found == Recheck(h, components, files)
  {
    for i := 0 to |components|
      invariant Recheck(h, components, files) == Recheck(h, components[i..], files)
    {
      var c := components[i];
      if c.name !in files {
        return Some(Unreadable);
      }
      if h(files[c.name]) != c.digest {
        return Some(CanaryModified(c.name));
      }
      assert components[i..][1..] == components[i + 1..];
    }
    return None;
  }

  class SlotDirectory {
    var active: Option<Bundle>
    var previous: Option<Bundle>
    var aside: Option<Bundle>
    var locked: bool

    function Now(): Slots
      reads this
    {
      Slots(active, previous, aside, locked)
    }

    constructor ()
      ensures Now() == EMPTY_SLOTS
    {
      active, previous, aside, locked := None, None, None, false;
    }

    /** The `finally` of a promotion: drop the lock, unless that fails in turn. */
    method Finish(outcome: Outcome, f: PromoteFate) returns (end: Outcome)
      modifies this`locked
      ensures (Now(), end) == Release(old(Now()), outcome, f)
    {
      if f.unlockFails {
        return Failed;
      }
      locked := false;
      return outcome;
    }

    method Promote(h: Sha256, r: Request, f: PromoteFate) returns (end: Outcome)
      modifies this
      ensures (Now(), end) == PromotionModel.Promote(h, old(Now()), r, f)
    {
      hide StageAll, Recheck;
      if !r.valid {
        return Rejected(InvalidManifest);
      }
      if f.early.BeforeLock? {
        return Failed;
      }
      if locked {
        return Rejected(Busy);
      }
      locked := true;
      if f.early.DiedEarly? {
        return Crashed;
      }
      if f.early.Raised? {
        end := Finish(Failed, f);
        return;
      }
      var staged := Stage(h, r);
      if staged.Err? {
        end := Finish(if staged.error.Unreadable? then Failed else Rejected(staged.error), f);
        return;
      }
      var verdict := r.canary(staged.value[MANIFEST_FILE := r.rendered]);
      if !verdict.passed {
        end := Finish(Rejected(CanaryFailed), f);
        return;
      }
      var changed := CheckAgain(h, r.manifest, verdict.after);
      if changed.Some? {
        end := Finish(if changed.value.Unreadable? then Failed else Rejected(changed.value), f);
        return;
      }
      end := SwapIn(Bundle(r.manifest, verdict.after), f);
    }

    method SwapIn(b: Bundle, f: PromoteFate) returns (end: Outcome)
      modifies this
      ensures (Now(), end) == Swap(old(Now()), b, f)
    {
      if previous.Some? {
        if f.removal.Stopped? {
          previous := if f.removal.gone then None else Some(Trim(previous.value, f.removal.left));
          if f.removal.died {
            return Crashed;
          }
          end := Finish(Failed, f);
          return;
        }
        previous := None;
      }
      if active.Some? {
        if Happened(f.retire) {
          active, previous := None, active;
        }
        if Died(f.retire) {
          return Crashed;
        }
        if !f.retire.Done? {
          end := Finish(Failed, f);
          return;
        }
      }
      if Happened(f.activate) {
        active := Some(b);
      }
      if f.activate.Done? {
        end := Finish(Promoted(previous.Some?), f);
        return;
      }
      if Died(f.activate) {
        return Crashed;
      }
      if previous.Some? && active.None? {
        if Happened(f.recover) {
          active, previous := previous, None;
        }
        if Died(f.recover) {
          return Crashed;
        }
      }
      end := Finish(Failed, f);
    }

    method Rollback(f: RollbackFate) returns (end: Outcome)
      modifies this
      ensures (Now(), end) == PromotionModel.Rollback(old(Now()), f)
    {
      if active.None? || previous.None? {
        return Rejected(NoSlots);
      }
      if aside.Some? {
        return Rejected(StaleRollback);
      }
      if Happened(f.park) {
        active, aside := None, active;
      }
      if !f.park.Done? {
        return if Died(f.park) then Crashed else Failed;
      }
      var stopped := f.restore;
      if Happened(f.restore) {
        active, previous := previous, None;
      }
      if f.restore.Done? {
        stopped := f.retire;
        if Happened(f.retire) {
          previous, aside := aside, None;
        }
      }
      if stopped.Done? {
        return if f.receiptFails then Failed else RolledBack;
      }
      if Died(stopped) {
        return Crashed;
      }
      if aside.Some? && active.None? {
        if Happened(f.recover) {
          active, aside := aside, None;
        }
        if Died(f.recover) {
          return Crashed;
        }
      }
      return Failed;
    }
  }
}
