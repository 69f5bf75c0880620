/** `write_atomically` and `migrate_bytes_atomically` as they run on a disk. */
module Migration {
  import opened Prelude
  import opened MigrationModel

  /** The disk as one process sees it, with the process-wide nonce of its temporaries. */
  class Disk {
    var files: Files
    var nonce: nat
    const pid: nat

    constructor (files: Files, pid: nat)
      ensures this.files == files && nonce == 0 && this.pid == pid
    {
      this.files, this.nonce, this.pid := files, 0, pid;
    }

    /** Stops here if fated to: a crash leaves the disk as it is, an error removes the temporary if it can. */
    method Abort(temp: Path, fate: Fate) returns (end: End)
      modifies this`files
      ensures (files, end) == Abandon(old(files), temp, fate)
    {
      if fate.crash {
        return Crashed;
      }
      if fate.cleaned {
        files := files - {temp};
      }
      return Failed;
    }

    method WriteAtomically(name: string, bytes: Bytes, fate: Fate) returns (end: End)
      modifies this
      ensures (files, end) == Publish(old(files), Plain(name), bytes, Temp(name, pid, old(nonce)), fate)
      ensures nonce == old(nonce) + if fate.stop == Some(MakeDirectory) then 0 else 1
    {
      if fate.stop == Some(MakeDirectory) {
        return if fate.crash then Crashed else Failed;
      }
      var temp := Temp(name, pid, nonce);
      nonce := nonce + 1;
      if fate.stop == Some(CreateTemp) {
        end := Abort(temp, fate);
        return;
      }
      if temp in files {
        end := Abort(temp, fate.(crash := false));
        return;
      }
      ghost var before := files;
      files := files[temp := []];
      if fate.stop == Some(WriteTemp) {
        files := files[temp := if fate.written < |bytes| then bytes[..fate.written] else bytes];
        assert files == before[temp := files[temp]];
        end := Abort(temp, fate);
        return;
      }
      files := files[temp := bytes];
      assert files == before[temp := bytes];
      if fate.stop == Some(SyncTemp) {
        end := Abort(temp, fate);
        return;
      }
      if fate.stop == Some(RenameTemp) {
        end := Abort(temp, fate);
        return;
      }
      files := (files - {temp})[Plain(name) := bytes];
      assert files == before[Plain(name) := bytes];
      if fate.stop == Some(SyncDirectory) {
        end := Abort(temp, fate);
        return;
      }
      return Published;
    }

    /** The temporaries a run of `Migrate` picks, given which publications it reaches. */
    ghost predicate Picks(plan: Plan, a: Attempt, start: nat, backupFirst: bool)
      reads this
    {
      && a.backupTemp == Temp(plan.backup, pid, start)
      && a.targetTemp == Temp(plan.target, pid, if backupFirst then start + 1 else start)
    }

    method Migrate(plan: Plan, a: Attempt) returns (answer: Answer)
      requires Picks(plan, a, nonce, Plain(plan.backup) !in files)
      modifies this
      ensures (files, answer) == MigrationModel.Migrate(old(files), plan, a)
    {
      hide Publish;
      var legacy, target, backup := Plain(plan.legacy), Plain(plan.target), Plain(plan.backup);
      if legacy !in files || a.legacyUnreadable {
        return IoError;
      }
      var source := files[legacy];
      if |source| > MAX_LEGACY {
        return TooLarge;
      }
      var encoded := plan.encode(source);
      if encoded.None? {
        return EncodeError;
      }
      var converted := encoded.value;
      if plan.dryRun {
        return Success(Outcome(true, false, false));
      }
      if target in files {
        if a.targetUnreadable {
          return IoError;
        }
        return if files[target] == converted then Success(Outcome(false, false, backup in files)) else TargetDiffers;
      }
      if backup in files {
        if a.backupUnreadable {
          return IoError;
        }
        if files[backup] != source {
          return BackupDiffers;
        }
      } else {
        var saved := WriteAtomically(plan.backup, source, a.backupFate);
        if !saved.Published? {
          return AfterEnd(saved);
        }
        PublishedReachedTheEnd(old(files), backup, source, a.backupTemp, a.backupFate);
      }
      var end := WriteAtomically(plan.target, converted, a.targetFate);
      if !end.Published? {
        return AfterEnd(end);
      }
      return Success(Outcome(false, true, true));
    }
  }

  lemma {:induction false} PublishedReachedTheEnd(files: Files, path: Path, bytes: Bytes, temp: Path, fate: Fate)
    requires Publish(files, path, bytes, temp, fate).1.Published?
    ensures fate.stop != Some(MakeDirectory)
  {
  }
}
