/**
 * Publishing a file by temporary file and rename, and the migration built on
 * it, over a file system that may fail or stop at any step.
 */
module MigrationModel {
  import opened Prelude

  const MAX_LEGACY: nat := 0x400_0000

  /** A caller's path, or the hidden temporary beside it that one process made for one publication. */
  datatype Path = Plain(name: string) | Temp(name: string, pid: nat, nonce: nat)

  type Files = map<Path, Bytes>

  datatype Stage = MakeDirectory | CreateTemp | WriteTemp | SyncTemp | RenameTemp | SyncDirectory

  /**
   * What befalls one publication: it may stop at a stage, as an error or as a
   * crash; `written` bytes reach a write that stops, and `cleaned` says whether
   * removing the temporary after an error succeeds.  What a loss of power
   * undoes later is the subject of `MigrationDurability`.
   */
  datatype Fate = Fate(stop: Option<Stage>, crash: bool, written: nat, cleaned: bool)

  const NO_FAULT := Fate(None, false, 0, true)

  datatype End = Published | Failed | Crashed

  function Abandon(files: Files, temp: Path, fate: Fate): (Files, End) {
    if fate.crash then (files, Crashed)
    else if fate.cleaned then (files - {temp}, Failed)
    else (files, Failed)
  }

  /** `write_atomically`, stage by stage. */
  function Publish(files: Files, path: Path, bytes: Bytes, temp: Path, fate: Fate): (Files, End) {
    if fate.stop == Some(MakeDirectory) then (files, if fate.crash then Crashed else Failed)
    else if fate.stop == Some(CreateTemp) then Abandon(files, temp, fate)
    else if temp in files then Abandon(files, temp, fate.(crash := false))
    else if fate.stop == Some(WriteTemp) then
      Abandon(files[temp := if fate.written < |bytes| then bytes[..fate.written] else bytes], temp, fate)
    else if fate.stop == Some(SyncTemp) || fate.stop == Some(RenameTemp) then Abandon(files[temp := bytes], temp, fate)
    else if fate.stop == Some(SyncDirectory) then Abandon(files[path := bytes], temp, fate)
    else (files[path := bytes], Published)
  }

  // ----- the migration -----

  datatype Plan = Plan(legacy: string, target: string, backup: string, dryRun: bool, encode: Bytes -> Option<Bytes>)

  /** What befalls one attempt: reads that fail, and the two publications. */
  datatype Attempt = Attempt(
    legacyUnreadable: bool, targetUnreadable: bool, backupUnreadable: bool,
    backupTemp: Path, backupFate: Fate, targetTemp: Path, targetFate: Fate)

  datatype Outcome = Outcome(dryRun: bool, migrated: bool, backup: bool)

  datatype Answer =
    | Success(outcome: Outcome)
    | IoError
    | TooLarge
    | EncodeError
    | TargetDiffers
    | BackupDiffers
    | Stopped

  function AfterEnd(end: End): Answer
    requires !end.Published?
  {
    if end.Crashed? then Stopped else IoError
  }

  /** Publishes the target last, when the backup is known to be the source. */
  function PublishTarget(files: Files, plan: Plan, converted: Bytes, a: Attempt): (Files, Answer) {
    var (after, end) := Publish(files, Plain(plan.target), converted, a.targetTemp, a.targetFate);
    if end.Published? then (after, Success(Outcome(false, true, true))) else (after, AfterEnd(end))
  }

  function Migrate(files: Files, plan: Plan, a: Attempt): (Files, Answer) {
    var legacy, target, backup := Plain(plan.legacy), Plain(plan.target), Plain(plan.backup);
    if legacy !in files || a.legacyUnreadable then (files, IoError)
    else if |files[legacy]| > MAX_LEGACY then (files, TooLarge)
    else
      var source := files[legacy];
      match plan.encode(source)
      case None => (files, EncodeError)
      case Some(converted) =>
        if plan.dryRun then (files, Success(Outcome(true, false, false)))
        else if target in files then
          if a.targetUnreadable then (files, IoError)
          else if files[target] == converted then (files, Success(Outcome(false, false, backup in files)))
          else (files, TargetDiffers)
        else if backup in files then
          if a.backupUnreadable then (files, IoError)
          else if files[backup] != source then (files, BackupDiffers)
          else PublishTarget(files, plan, converted, a)
        else
          var (saved, end) := Publish(files, backup, source, a.backupTemp, a.backupFate);
          if end.Published? then PublishTarget(saved, plan, converted, a) else (saved, AfterEnd(end))
  }

  /** A history of attempts, each starting from what the one before left on disk. */
  function AfterAttempts(files: Files, plan: Plan, attempts: seq<Attempt>): Files
    decreases |attempts|
  {
    if attempts == [] then files else AfterAttempts(Migrate(files, plan, attempts[0]).0, plan, attempts[1..])
  }
}
