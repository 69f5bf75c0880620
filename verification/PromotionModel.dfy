/**
 * The active and previous slots of a component bundle, and the promotion and
 * rollback that rename directories between them, any of which may fail.
 */
module PromotionModel {
  import opened Prelude

  const MANIFEST_FILE := "manifest.json"

  type Files = map<string, Bytes>

  datatype Component = Component(name: string, digest: Digest)

  type Manifest = seq<Component>

  /** A slot's directory, and the manifest that was promoted into it. */
  datatype Bundle = Bundle(manifest: Manifest, files: Files)

  /** `aside` is the directory a rollback parks the active bundle in. */
  datatype Slots = Slots(active: Option<Bundle>, previous: Option<Bundle>, aside: Option<Bundle>, locked: bool)

  const EMPTY_SLOTS := Slots(None, None, None, false)

  /** The canary's verdict on a stage, and what it leaves there. */
  datatype Verdict = Verdict(passed: bool, after: Files)

  /**
   * One promotion as its caller and surroundings make it.  An artifact may change
   * between its check (`first`) and its copy (`second`).
   */
  datatype Request = Request(
    manifest: Manifest, valid: bool, rendered: Bytes, first: Files, second: Files, canary: Files -> Verdict)

  datatype Reason =
    | InvalidManifest
    | Busy
    | ArtifactMissing(name: string)
    | ArtifactMismatch(name: string)
    | StagedMismatch(name: string)
    | CanaryFailed
    | CanaryModified(name: string)
    | Unreadable
    | NoSlots
    | StaleRollback

  datatype Outcome =
    | Promoted(rollbackAvailable: bool)
    | RolledBack
    | Cleared
    | Rejected(reason: Reason)
    | Failed
    | Crashed

  // ----- what may befall a step -----

  /** A rename is done, refused without effect, done but interrupted, or cut off by the process dying. */
  datatype Turn = Done | Refused | Interrupted | DiedBefore | DiedAfter

  predicate Happened(t: Turn) {
    t.Done? || t.Interrupted? || t.DiedAfter?
  }

  predicate Died(t: Turn) {
    t.DiedBefore? || t.DiedAfter?
  }

  /** Removing a directory may stop with only the files in `left` remaining, or with all gone. */
  datatype Removal = Removed | Stopped(gone: bool, left: set<string>, died: bool)

  /** An error or a death before the swap: its place does not matter, since nothing but the lock has changed. */
  datatype Early = Undisturbed | BeforeLock | Raised | DiedEarly

  datatype PromoteFate = PromoteFate(
    early: Early, removal: Removal, retire: Turn, activate: Turn, recover: Turn, unlockFails: bool)

  datatype RollbackFate = RollbackFate(park: Turn, restore: Turn, retire: Turn, recover: Turn, receiptFails: bool)

  const SMOOTH_PROMOTION := PromoteFate(Undisturbed, Removed, Done, Done, Done, false)

  const SMOOTH_ROLLBACK := RollbackFate(Done, Done, Done, Done, false)

  // ----- staging -----

  function StageAll(h: Sha256, components: Manifest, r: Request, staged: Files): Result<Files, Reason>
    decreases |components|
  {
    if components == [] then Ok(staged)
    else
      var c := components[0];
      if c.name !in r.first then Err(ArtifactMissing(c.name))
      else if h(r.first[c.name]) != c.digest then Err(ArtifactMismatch(c.name))
      else if c.name !in r.second then Err(Unreadable)
      else if h(r.second[c.name]) != c.digest then Err(StagedMismatch(c.name))
      else StageAll(h, components[1..], r, staged[c.name := r.second[c.name]])
  }

  /** The first component the canary lost or changed, if any. */
  function Recheck(h: Sha256, components: Manifest, files: Files): Option<Reason>
    decreases |components|
  {
    if components == [] then None
    else
      var c := components[0];
      if c.name !in files then Some(Unreadable)
      else if h(files[c.name]) != c.digest then Some(CanaryModified(c.name))
      else Recheck(h, components[1..], files)
  }

  function Prepare(h: Sha256, r: Request): Result<Files, Reason> {
    match StageAll(h, r.manifest, r, map[])
    case Err(e) => Err(e)
    case Ok(staged) =>
      var verdict := r.canary(staged[MANIFEST_FILE := r.rendered]);
      if !verdict.passed then Err(CanaryFailed)
      else
        match Recheck(h, r.manifest, verdict.after)
        case Some(e) => Err(e)
        case None => Ok(verdict.after)
  }

  // ----- the swap -----

  function Release(s: Slots, outcome: Outcome, f: PromoteFate): (Slots, Outcome) {
    if f.unlockFails then (s, Failed) else (s.(locked := false), outcome)
  }

  function Trim(b: Bundle, left: set<string>): Bundle {
    b.(files := map name | name in b.files && name in left :: b.files[name])
  }

  function Activate(s: Slots, b: Bundle, f: PromoteFate): (Slots, Outcome) {
    var moved := if Happened(f.activate) then s.(active := Some(b)) else s;
    if f.activate.Done? then Release(moved, Promoted(moved.previous.Some?), f)
    else if Died(f.activate) then (moved, Crashed)
    else if moved.previous.Some? && moved.active.None? then
      var back := if Happened(f.recover) then moved.(active := moved.previous, previous := None) else moved;
      if Died(f.recover) then (back, Crashed) else Release(back, Failed, f)
    else Release(moved, Failed, f)
  }

  function Retire(s: Slots, b: Bundle, f: PromoteFate): (Slots, Outcome) {
    if s.active.None? then Activate(s, b, f)
    else
      var moved := if Happened(f.retire) then s.(active := None, previous := s.active) else s;
      if f.retire.Done? then Activate(moved, b, f)
      else if Died(f.retire) then (moved, Crashed)
      else Release(moved, Failed, f)
  }

  function Swap(s: Slots, b: Bundle, f: PromoteFate): (Slots, Outcome) {
    if s.previous.Some? && f.removal.Stopped? then
      var rest := s.(previous := if f.removal.gone then None else Some(Trim(s.previous.value, f.removal.left)));
      if f.removal.died then (rest, Crashed) else Release(rest, Failed, f)
    else Retire(s.(previous := None), b, f)
  }

  function Promote(h: Sha256, s: Slots, r: Request, f: PromoteFate): (Slots, Outcome) {
    if !r.valid then (s, Rejected(InvalidManifest))
    else if f.early.BeforeLock? then (s, Failed)
    else if s.locked then (s, Rejected(Busy))
    else
      var held := s.(locked := true);
      if f.early.DiedEarly? then (held, Crashed)
      else if f.early.Raised? then Release(held, Failed, f)
      else
        match Prepare(h, r)
        case Err(e) => Release(held, if e.Unreadable? then Failed else Rejected(e), f)
        case Ok(files) => Swap(held, Bundle(r.manifest, files), f)
  }

  // ----- rollback -----

  function Undo(s: Slots, t: Turn, f: RollbackFate): (Slots, Outcome) {
    if Died(t) then (s, Crashed)
    else if s.aside.Some? && s.active.None? then
      (if Happened(f.recover) then s.(active := s.aside, aside := None) else s, if Died(f.recover) then Crashed else Failed)
    else (s, Failed)
  }

  function Rollback(s: Slots, f: RollbackFate): (Slots, Outcome) {
    if s.active.None? || s.previous.None? then (s, Rejected(NoSlots))
    else if s.aside.Some? then (s, Rejected(StaleRollback))
    else
      var parked := if Happened(f.park) then s.(active := None, aside := s.active) else s;
      if !f.park.Done? then (parked, if Died(f.park) then Crashed else Failed)
      else
        var restored := if Happened(f.restore) then parked.(active := parked.previous, previous := None) else parked;
        if !f.restore.Done? then Undo(restored, f.restore, f)
        else
          var retired := if Happened(f.retire) then restored.(previous := restored.aside, aside := None) else restored;
          if !f.retire.Done? then Undo(retired, f.retire, f)
          else (retired, if f.receiptFails then Failed else RolledBack)
  }

  // ----- runs -----

  /** `ClearLock` is the operator removing the lock a dead promotion left. */
  datatype Op = PromoteOp(request: Request, fate: PromoteFate) | RollbackOp(undo: RollbackFate) | ClearLock

  function Step(h: Sha256, s: Slots, op: Op): (Slots, Outcome) {
    match op
    case PromoteOp(r, f) => Promote(h, s, r, f)
    case RollbackOp(f) => Rollback(s, f)
    case ClearLock => (s.(locked := false), Cleared)
  }

  function Run(h: Sha256, s: Slots, ops: seq<Op>): Slots
    decreases |ops|
  {
    if ops == [] then s else Run(h, Step(h, s, ops[0]).0, ops[1..])
  }
}
