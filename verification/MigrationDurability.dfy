/**
 * What a loss of power leaves of a migration.  A rename is seen at once and lasts
 * only when its directory is synced; until then either entry may come back.
 */
module MigrationDurability {
  import opened Prelude
  import opened MigrationModel
  import opened MigrationTheorems

  /** The directory of each name; a temporary lies beside the file it is for. */
  type Layout = string -> string

  datatype Disk = Disk(visible: Files, durable: Files)

  /** Syncing a directory makes its entries, as they are seen, last. */
  function Sync(parent: Layout, d: Disk, dir: string): Disk {
    d.(durable :=
      map p | p in d.visible.Keys + d.durable.Keys && (if parent(p.name) == dir then p in d.visible else p in d.durable)
        :: if parent(p.name) == dir then d.visible[p] else d.durable[p])
  }

  /** Of what was not synced, the power loss keeps the paths in `kept` as they were seen. */
  function LosePower(d: Disk, kept: set<Path>): Files {
    map p | p in d.visible.Keys + d.durable.Keys && (if p in kept then p in d.visible else p in d.durable)
      :: if p in kept then d.visible[p] else d.durable[p]
  }

  /** The publication, whose last stage syncs the directory. */
  function PublishOn(parent: Layout, d: Disk, name: string, bytes: Bytes, temp: Path, fate: Fate): (Disk, End) {
    var (after, end) := Publish(d.visible, Plain(name), bytes, temp, fate);
    var seen := d.(visible := after);
    (if end.Published? then Sync(parent, seen, parent(name)) else seen, end)
  }

  /** The attempt gets past its checks to publishing something. */
  predicate Publishes(files: Files, plan: Plan, a: Attempt) {
    var legacy, target, backup := Plain(plan.legacy), Plain(plan.target), Plain(plan.backup);
    && legacy in files && !a.legacyUnreadable && |files[legacy]| <= MAX_LEGACY && plan.encode(files[legacy]).Some?
    && !plan.dryRun && target !in files
    && (backup in files ==> !a.backupUnreadable && files[backup] == files[legacy])
  }

  /** The disk once the backup is there, if it is not already, and how that went. */
  function SaveBackup(parent: Layout, d: Disk, plan: Plan, a: Attempt): (Disk, End)
    requires Publishes(d.visible, plan, a)
  {
    if Plain(plan.backup) in d.visible then (d, Published)
    else PublishOn(parent, d, plan.backup, d.visible[Plain(plan.legacy)], a.backupTemp, a.backupFate)
  }

  /** The migration on such a disk. */
  function MigrateOn(parent: Layout, d: Disk, plan: Plan, a: Attempt): Disk {
    if !Publishes(d.visible, plan, a) then d
    else
      var converted := plan.encode(d.visible[Plain(plan.legacy)]).value;
      var (saved, end) := SaveBackup(parent, d, plan, a);
      if end.Published? then PublishOn(parent, saved, plan.target, converted, a.targetTemp, a.targetFate).0 else saved
  }

  /** What is seen is what the migration without a durable side leaves. */
  lemma {:induction false} SeesTheMigration(parent: Layout, d: Disk, plan: Plan, a: Attempt)
    ensures MigrateOn(parent, d, plan, a).visible == Migrate(d.visible, plan, a).0
  {
    hide Publish;
  }

  function AfterAll(parent: Layout, d: Disk, plan: Plan, attempts: seq<Attempt>): Disk
    decreases |attempts|
  {
    if |attempts| == 0 then d else AfterAll(parent, MigrateOn(parent, d, plan, attempts[0]), plan, attempts[1..])
  }

  // ----- which syncs reach target and backup -----

  /** The attempt publishes the target, and its directory sync succeeds. */
  predicate SyncsTarget(parent: Layout, d: Disk, plan: Plan, a: Attempt) {
    && Publishes(d.visible, plan, a)
    && var (saved, end) := SaveBackup(parent, d, plan, a);
    && end.Published?
    && PublishOn(parent, saved, plan.target, plan.encode(d.visible[Plain(plan.legacy)]).value, a.targetTemp, a.targetFate).1.Published?
  }

  /** The attempt publishes the backup and syncs it, or syncs the target in the directory both lie in. */
  predicate SyncsBackup(parent: Layout, d: Disk, plan: Plan, a: Attempt) {
    || (Publishes(d.visible, plan, a) && Plain(plan.backup) !in d.visible && SaveBackup(parent, d, plan, a).1.Published?)
    || (parent(plan.target) == parent(plan.backup) && SyncsTarget(parent, d, plan, a))
  }

  /** A disk on which the migration of `source` is under way. */
  ghost predicate UnderWay(d: Disk, plan: Plan, source: Bytes) {
    var legacy, target, backup := Plain(plan.legacy), Plain(plan.target), Plain(plan.backup);
    && legacy in d.visible && d.visible[legacy] == source
    && (backup in d.visible ==> d.visible[backup] == source)
    && (target in d.visible ==> backup in d.visible)
    && (backup in d.durable ==> backup in d.visible && d.durable[backup] == source)
    && (target in d.durable ==> target in d.visible && d.durable[target] == d.visible[target])
  }

  lemma {:induction false} SyncMeans(parent: Layout, d: Disk, dir: string, p: Path)
    ensures var after := Sync(parent, d, dir);
            && after.visible == d.visible
            && Same(after.durable, if parent(p.name) == dir then d.visible else d.durable, p)
  {
  }

  /** What a publication does to one caller's path: to what is seen of it, and to what lasts. */
  lemma {:induction false} PublishOnMeans(
    parent: Layout, d: Disk, name: string, bytes: Bytes, temp: Path, fate: Fate, p: Path)
    requires temp.Temp? && p.Plain?
    ensures var (after, end) := PublishOn(parent, d, name, bytes, temp, fate);
            && (p != Plain(name) ==> Same(d.visible, after.visible, p))
            && (Same(d.visible, after.visible, Plain(name)) || (Plain(name) in after.visible && after.visible[Plain(name)] == bytes))
            && (end.Published? ==> Plain(name) in after.visible && after.visible[Plain(name)] == bytes)
            && Same(after.durable, if end.Published? && parent(p.name) == parent(name) then after.visible else d.durable, p)
  {
    hide Publish, Sync;
    PublishIsAtomic(d.visible, name, bytes, temp, fate);
    var (after, end) := Publish(d.visible, Plain(name), bytes, temp, fate);
    SyncMeans(parent, d.(visible := after), parent(name), p);
  }

  lemma {:induction false} BackupStep(parent: Layout, d: Disk, plan: Plan, a: Attempt, source: Bytes)
    requires UnderWay(d, plan, source) && TempsAreTemps(a) && plan.target != plan.backup && Publishes(d.visible, plan, a)
    ensures var (saved, end) := SaveBackup(parent, d, plan, a);
            && UnderWay(saved, plan, source) && Plain(plan.target) !in saved.visible
            && (end.Published? ==> Plain(plan.backup) in saved.visible)
            && (Plain(plan.backup) in saved.durable
                <==> Plain(plan.backup) in d.durable || (Plain(plan.backup) !in d.visible && end.Published?))
  {
    hide PublishOn;
    if Plain(plan.backup) !in d.visible {
      PublishOnMeans(parent, d, plan.backup, source, a.backupTemp, a.backupFate, Plain(plan.legacy));
      PublishOnMeans(parent, d, plan.backup, source, a.backupTemp, a.backupFate, Plain(plan.backup));
      PublishOnMeans(parent, d, plan.backup, source, a.backupTemp, a.backupFate, Plain(plan.target));
    }
  }

  lemma {:induction false} TargetStep(
    parent: Layout, d: Disk, plan: Plan, converted: Bytes, temp: Path, fate: Fate, source: Bytes)
    requires UnderWay(d, plan, source) && temp.Temp? && plan.target != plan.backup
    requires Plain(plan.target) !in d.visible && Plain(plan.backup) in d.visible
    ensures var (after, end) := PublishOn(parent, d, plan.target, converted, temp, fate);
            && UnderWay(after, plan, source)
            && (Plain(plan.target) in after.durable <==> end.Published?)
            && (Plain(plan.backup) in after.durable
                <==> Plain(plan.backup) in d.durable || (end.Published? && parent(plan.target) == parent(plan.backup)))
  {
    hide PublishOn;
    PublishOnMeans(parent, d, plan.target, converted, temp, fate, Plain(plan.legacy));
    PublishOnMeans(parent, d, plan.target, converted, temp, fate, Plain(plan.backup));
    PublishOnMeans(parent, d, plan.target, converted, temp, fate, Plain(plan.target));
  }

  /** An attempt makes the backup or the target last exactly if one of its syncs reaches it. */
  lemma {:induction false} AttemptStep(parent: Layout, d: Disk, plan: Plan, a: Attempt, source: Bytes)
    requires UnderWay(d, plan, source) && TempsAreTemps(a) && plan.target != plan.backup
    ensures var after := MigrateOn(parent, d, plan, a);
            && UnderWay(after, plan, source)
            && (Plain(plan.backup) in after.durable <==> Plain(plan.backup) in d.durable || SyncsBackup(parent, d, plan, a))
            && (Plain(plan.target) in after.durable <==> Plain(plan.target) in d.durable || SyncsTarget(parent, d, plan, a))
  {
    hide PublishOn, SaveBackup;
    if Publishes(d.visible, plan, a) {
      BackupStep(parent, d, plan, a, source);
      SavedBackupIsAsBefore(parent, d, plan, a);
      var (saved, end) := SaveBackup(parent, d, plan, a);
      if end.Published? {
        TargetStep(parent, saved, plan, plan.encode(source).value, a.targetTemp, a.targetFate, source);
      }
    }
  }

  lemma {:induction false} SavedBackupIsAsBefore(parent: Layout, d: Disk, plan: Plan, a: Attempt)
    requires Publishes(d.visible, plan, a) && TempsAreTemps(a) && plan.target != plan.backup
    requires Plain(plan.target) in d.durable ==> Plain(plan.target) in d.visible
    ensures Plain(plan.target) !in SaveBackup(parent, d, plan, a).0.durable
  {
    hide PublishOn;
    if Plain(plan.backup) !in d.visible {
      PublishOnMeans(parent, d, plan.backup, d.visible[Plain(plan.legacy)], a.backupTemp, a.backupFate, Plain(plan.target));
    }
  }

  // ----- any number of attempts, then the power goes -----

  ghost predicate EverSynced(
    parent: Layout, d: Disk, plan: Plan, attempts: seq<Attempt>, syncs: (Layout, Disk, Plan, Attempt) -> bool)
    decreases |attempts|
  {
    |attempts| > 0 &&
    (syncs(parent, d, plan, attempts[0]) || EverSynced(parent, MigrateOn(parent, d, plan, attempts[0]), plan, attempts[1..], syncs))
  }

  /** Over any attempts, interrupted anywhere, target and backup last exactly if some attempt's sync reached them. */
  lemma {:induction false} LastsIffSynced(parent: Layout, d: Disk, plan: Plan, attempts: seq<Attempt>, source: Bytes)
    requires UnderWay(d, plan, source) && plan.target != plan.backup && forall a | a in attempts :: TempsAreTemps(a)
    ensures var after := AfterAll(parent, d, plan, attempts);
            && UnderWay(after, plan, source)
            && (Plain(plan.backup) in after.durable
                <==> Plain(plan.backup) in d.durable || EverSynced(parent, d, plan, attempts, SyncsBackup))
            && (Plain(plan.target) in after.durable
                <==> Plain(plan.target) in d.durable || EverSynced(parent, d, plan, attempts, SyncsTarget))
    decreases |attempts|
  {
    hide MigrateOn, SyncsBackup, SyncsTarget, UnderWay;
    if |attempts| > 0 {
      assert attempts[0] in attempts;
      AttemptStep(parent, d, plan, attempts[0], source);
      LastsIffSynced(parent, MigrateOn(parent, d, plan, attempts[0]), plan, attempts[1..], source);
    }
  }

  /** Whatever part of the unsynced entries the power loss keeps, a target it leaves has its backup. */
  ghost predicate SafeFromPowerLoss(d: Disk, plan: Plan, source: Bytes) {
    forall kept :: var left := LosePower(d, kept);
      Plain(plan.target) in left ==> Plain(plan.backup) in left && left[Plain(plan.backup)] == source
  }

  lemma {:induction false} SafeIff(d: Disk, plan: Plan, source: Bytes)
    requires UnderWay(d, plan, source) && plan.target != plan.backup
    ensures SafeFromPowerLoss(d, plan, source) <==> Plain(plan.target) !in d.visible || Plain(plan.backup) in d.durable
  {
    var target, backup := Plain(plan.target), Plain(plan.backup);
    if SafeFromPowerLoss(d, plan, source) && target in d.visible {
      var left := LosePower(d, {target});
      assert target in left;
      assert backup in left;
    }
  }

  /**
   * From a settled disk without target and backup, after any attempts: a power
   * loss can keep the target and lose its backup, unless the target was never
   * renamed into place or some attempt's sync reached the backup; and exactly so.
   */
  lemma {:induction false} TargetKeepsBackupIff(parent: Layout, files: Files, plan: Plan, attempts: seq<Attempt>, source: Bytes)
    requires plan.target != plan.backup && forall a | a in attempts :: TempsAreTemps(a)
    requires Plain(plan.legacy) in files && files[Plain(plan.legacy)] == source
    requires Plain(plan.target) !in files && Plain(plan.backup) !in files
    ensures var start := Disk(files, files);
            var after := AfterAll(parent, start, plan, attempts);
            SafeFromPowerLoss(after, plan, source) <==>
              Plain(plan.target) !in after.visible || EverSynced(parent, start, plan, attempts, SyncsBackup)
  {
    hide AfterAll, SafeFromPowerLoss, EverSynced;
    var start := Disk(files, files);
    LastsIffSynced(parent, start, plan, attempts, source);
    SafeIff(AfterAll(parent, start, plan, attempts), plan, source);
  }

  /** A target once acknowledged is there after every power loss exactly if some attempt synced it. */
  lemma {:induction false} AcknowledgedTargetLastsIff(
    parent: Layout, files: Files, plan: Plan, attempts: seq<Attempt>, source: Bytes)
    requires plan.target != plan.backup && forall a | a in attempts :: TempsAreTemps(a)
    requires Plain(plan.legacy) in files && files[Plain(plan.legacy)] == source
    requires Plain(plan.target) !in files && Plain(plan.backup) !in files
    ensures var start := Disk(files, files);
            var after := AfterAll(parent, start, plan, attempts);
            (forall kept :: Plain(plan.target) in LosePower(after, kept)) <==> EverSynced(parent, start, plan, attempts, SyncsTarget)
  {
    hide AfterAll, EverSynced;
    var start, target := Disk(files, files), Plain(plan.target);
    var after := AfterAll(parent, start, plan, attempts);
    LastsIffSynced(parent, start, plan, attempts, source);
    if forall kept :: target in LosePower(after, kept) {
      assert target in LosePower(after, {});
    }
  }

  // ----- the two runs -----

  const UNSYNCED := NO_FAULT.(stop := Some(SyncDirectory))

  function AttemptWith(plan: Plan, nonce: nat, backup: Fate, target: Fate): Attempt {
    Attempt(false, false, false, Temp(plan.backup, 0, nonce), backup, Temp(plan.target, 0, nonce), target)
  }

  /** A plan and a disk on which nothing is in its way. */
  ghost predicate Clear(files: Files, plan: Plan) {
    && plan.target != plan.backup && plan.legacy != plan.backup && plan.legacy != plan.target && !plan.dryRun
    && Plain(plan.legacy) in files && |files[Plain(plan.legacy)]| <= MAX_LEGACY && plan.encode(files[Plain(plan.legacy)]).Some?
    && forall p: Path | p in files :: p.Plain? && p != Plain(plan.target) && p != Plain(plan.backup)
  }

  /**
   * The backup's directory sync fails once; the retry finds the backup, does not
   * sync it, and publishes the target in another directory.  The power loss then
   * leaves the target without its backup.
   */
  lemma {:induction false} RetryLosesBackup(parent: Layout, files: Files, plan: Plan) returns (attempts: seq<Attempt>)
    requires Clear(files, plan) && parent(plan.target) != parent(plan.backup)
    ensures |attempts| == 2 && Migrate(Migrate(files, plan, attempts[0]).0, plan, attempts[1]).1 == Success(Outcome(false, true, true))
    ensures var left := LosePower(AfterAll(parent, Disk(files, files), plan, attempts), {});
            Plain(plan.target) in left && Plain(plan.backup) !in left
  {
    hide Sync;
    var first, second := AttemptWith(plan, 0, UNSYNCED, NO_FAULT), AttemptWith(plan, 1, NO_FAULT, NO_FAULT);
    attempts := [first, second];
    var source := files[Plain(plan.legacy)];
    var d := Disk(files, files);
    var d1 := MigrateOn(parent, d, plan, first);
    assert d1 == Disk(files[Plain(plan.backup) := source], files);
    var d2 := MigrateOn(parent, d1, plan, second);
    var seen := d1.(visible := d1.visible[Plain(plan.target) := plan.encode(source).value]);
    assert d2 == Sync(parent, seen, parent(plan.target));
    SyncMeans(parent, seen, parent(plan.target), Plain(plan.target));
    SyncMeans(parent, seen, parent(plan.target), Plain(plan.backup));
    assert attempts[1..] == [second] && [second][1..] == [];
    assert AfterAll(parent, d, plan, attempts) == AfterAll(parent, d1, plan, [second]) == d2;
  }

  /** The target's directory sync fails once; the retry acknowledges the target it finds, and the power loss takes it. */
  lemma {:induction false} AcknowledgedTargetIsLost(parent: Layout, files: Files, plan: Plan) returns (attempts: seq<Attempt>)
    requires Clear(files, plan)
    ensures |attempts| == 2 && Migrate(Migrate(files, plan, attempts[0]).0, plan, attempts[1]).1 == Success(Outcome(false, false, true))
    ensures Plain(plan.target) !in LosePower(AfterAll(parent, Disk(files, files), plan, attempts), {})
  {
    hide Sync;
    var first, second := AttemptWith(plan, 0, NO_FAULT, UNSYNCED), AttemptWith(plan, 1, NO_FAULT, NO_FAULT);
    attempts := [first, second];
    var source := files[Plain(plan.legacy)];
    var d := Disk(files, files);
    var seen := d.(visible := files[Plain(plan.backup) := source]);
    var saved := Sync(parent, seen, parent(plan.backup));
    var d1 := MigrateOn(parent, d, plan, first);
    SyncMeans(parent, seen, parent(plan.backup), Plain(plan.target));
    assert d1 == saved.(visible := saved.visible[Plain(plan.target) := plan.encode(source).value]);
    assert MigrateOn(parent, d1, plan, second) == d1;
    assert attempts[1..] == [second] && [second][1..] == [];
    assert AfterAll(parent, d, plan, attempts) == AfterAll(parent, d1, plan, [second]) == d1;
  }
}
