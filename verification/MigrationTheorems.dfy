/** What survives every interruption of a migration, however often it is retried. */
module MigrationTheorems {
  import opened Prelude
  import opened MigrationModel

  /** A caller's path keeps its content, or stays absent. */
  predicate Same(before: Files, after: Files, path: Path) {
    (path in before <==> path in after) && (path in before ==> after[path] == before[path])
  }

  predicate TempsAreTemps(a: Attempt) {
    a.backupTemp.Temp? && a.targetTemp.Temp?
  }

  // ----- one publication -----

  /**
   * Readers of any caller's path see the previous file or the new one, complete;
   * an error or a crash may come after the rename, but success means published.
   */
  lemma {:induction false} PublishIsAtomic(files: Files, name: string, bytes: Bytes, temp: Path, fate: Fate)
    requires temp.Temp?
    ensures var (after, end) := Publish(files, Plain(name), bytes, temp, fate);
            && (forall p: Path :: p.Plain? && p != Plain(name) ==> Same(files, after, p))
            && (Same(files, after, Plain(name)) || (Plain(name) in after && after[Plain(name)] == bytes))
            && (end.Published? ==> Plain(name) in after && after[Plain(name)] == bytes)
  {
  }

  /** An unsuccessful publication has published all the same exactly if it got as far as syncing the directory. */
  lemma {:induction false} UnsuccessfulYetPublishedIff(files: Files, name: string, bytes: Bytes, temp: Path, fate: Fate)
    requires temp.Temp? && !Publish(files, Plain(name), bytes, temp, fate).1.Published?
    requires Plain(name) in files ==> files[Plain(name)] != bytes
    ensures var after := Publish(files, Plain(name), bytes, temp, fate).0;
      !Same(files, after, Plain(name)) <==> fate.stop == Some(SyncDirectory) && temp !in files
  {
  }

  /**
   * How a publication ends: it succeeds exactly if nothing stops it and its
   * temporary name is free, and its path holds the new bytes exactly if it got
   * past the rename; a crash leaves in the temporary what was written by then.
   */
  lemma {:induction false} PublishEnds(files: Files, name: string, bytes: Bytes, temp: Path, fate: Fate)
    requires temp.Temp?
    ensures var (after, end) := Publish(files, Plain(name), bytes, temp, fate);
            var early := fate.stop == Some(MakeDirectory) || fate.stop == Some(CreateTemp);
            && (end.Published? <==> fate.stop.None? && temp !in files)
            && (end.Crashed? <==> fate.crash && fate.stop.Some? && (early || temp !in files))
            && (temp !in files && (fate.stop.None? || fate.stop == Some(SyncDirectory)) ==>
                  Plain(name) in after && after[Plain(name)] == bytes && temp !in after)
            && (temp in files || (fate.stop.Some? && fate.stop != Some(SyncDirectory)) ==> Same(files, after, Plain(name)))
            && (temp !in files && (fate.crash || !fate.cleaned) && fate.stop == Some(WriteTemp) ==>
                  temp in after && after[temp] <= bytes && |after[temp]| == if fate.written < |bytes| then fate.written else |bytes|)
            && (temp !in files && (fate.crash || !fate.cleaned)
                && (fate.stop == Some(SyncTemp) || fate.stop == Some(RenameTemp)) ==>
                  temp in after && after[temp] == bytes)
            && (temp !in files && early ==> after == files)
  {
    assert temp !in files ==> files - {temp} == files;
    if fate.stop.Some? {
      match fate.stop.value
      case MakeDirectory =>
      case CreateTemp =>
      case WriteTemp =>
      case SyncTemp =>
      case RenameTemp =>
      case SyncDirectory =>
    }
  }

  /** Without a fault, publication succeeds exactly if its temporary name is free, and leaves no temporary. */
  lemma {:induction false} PublishSucceedsIff(files: Files, name: string, bytes: Bytes, temp: Path)
    requires temp.Temp?
    ensures Publish(files, Plain(name), bytes, temp, NO_FAULT)
         == if temp in files then (files - {temp}, Failed) else (files[Plain(name) := bytes], Published)
  {
  }

  /** After an error whose clean-up worked, or a success, the temporary is gone. */
  lemma {:induction false} NoTempLeaks(files: Files, name: string, bytes: Bytes, temp: Path, fate: Fate)
    requires temp.Temp? && fate.cleaned && !fate.crash && fate.stop != Some(MakeDirectory)
    ensures temp !in Publish(files, Plain(name), bytes, temp, fate).0
  {
  }

  // ----- one attempt -----

  /**
   * A publication changes no existing file but its own path, except that it
   * deletes one that bears the name of its temporary, exactly if it gets as far
   * as creating that and its clean-up runs and works.
   */
  lemma {:induction false} PublishKeepsIff(files: Files, name: string, bytes: Bytes, temp: Path, fate: Fate, p: Path)
    requires temp.Temp? && p in files && p != Plain(name)
    ensures Same(files, Publish(files, Plain(name), bytes, temp, fate).0, p)
       <==> !(p == temp && fate.stop != Some(MakeDirectory) && fate.cleaned && !(fate.stop == Some(CreateTemp) && fate.crash))
  {
  }

  /**
   * Whatever the plan and the interruption, every existing file stays as it is,
   * the legacy file, the target and the backup included, unless it bears the name
   * of one of the attempt's temporaries.
   */
  lemma {:induction false} ExistingFilesAreKept(files: Files, plan: Plan, a: Attempt, p: Path)
    requires TempsAreTemps(a) && p in files && p != a.backupTemp && p != a.targetTemp
    ensures Same(files, Migrate(files, plan, a).0, p)
  {
    hide Publish;
    var legacy, target, backup := Plain(plan.legacy), Plain(plan.target), Plain(plan.backup);
    if legacy in files && plan.encode(files[legacy]).Some? && target !in files {
      var source, converted := files[legacy], plan.encode(files[legacy]).value;
      PublishKeepsIff(files, plan.target, converted, a.targetTemp, a.targetFate, p);
      if backup !in files {
        var saved := Publish(files, backup, source, a.backupTemp, a.backupFate).0;
        PublishKeepsIff(files, plan.backup, source, a.backupTemp, a.backupFate, p);
        PublishKeepsIff(saved, plan.target, converted, a.targetTemp, a.targetFate, p);
      }
    }
  }

  lemma {:induction false} PublicationsOfAttempt(files: Files, plan: Plan, a: Attempt)
    requires TempsAreTemps(a)
    ensures var legacy := Plain(plan.legacy);
            legacy in files && plan.encode(files[legacy]).Some? ==>
              var source, converted := files[legacy], plan.encode(files[legacy]).value;
              var (saved, end) := Publish(files, Plain(plan.backup), source, a.backupTemp, a.backupFate);
              && Keeps(files, saved, Plain(plan.backup), source)
              && (end.Published? ==> Plain(plan.backup) in saved && saved[Plain(plan.backup)] == source)
              && Keeps(files, Publish(files, Plain(plan.target), converted, a.targetTemp, a.targetFate).0, Plain(plan.target), converted)
              && Keeps(saved, Publish(saved, Plain(plan.target), converted, a.targetTemp, a.targetFate).0, Plain(plan.target), converted)
  {
    hide Publish;
    var legacy := Plain(plan.legacy);
    if legacy in files && plan.encode(files[legacy]).Some? {
      var source, converted := files[legacy], plan.encode(files[legacy]).value;
      PublishIsAtomic(files, plan.backup, source, a.backupTemp, a.backupFate);
      PublishIsAtomic(files, plan.target, converted, a.targetTemp, a.targetFate);
      var saved := Publish(files, Plain(plan.backup), source, a.backupTemp, a.backupFate).0;
      PublishIsAtomic(saved, plan.target, converted, a.targetTemp, a.targetFate);
    }
  }

  /** Of the callers' paths only `path` may have changed, and only to `bytes`. */
  ghost predicate Keeps(before: Files, after: Files, path: Path, bytes: Bytes) {
    && (forall p: Path :: p.Plain? && p != path ==> Same(before, after, p))
    && (Same(before, after, path) || (path in after && after[path] == bytes))
  }

  /**
   * What any number of attempts may have done to the callers' files: nothing to
   * what was there, the source into the backup, and its conversion into the
   * target, the latter only with the backup in place.
   */
  ghost predicate Harmless(before: Files, after: Files, plan: Plan) {
    var legacy, target, backup := Plain(plan.legacy), Plain(plan.target), Plain(plan.backup);
    && (forall p: Path :: p.Plain? && (p in before || (p != target && p != backup)) ==> Same(before, after, p))
    && (backup in after && backup !in before ==> legacy in before && after[backup] == before[legacy])
    && (target in after && target !in before ==>
          && legacy in before && plan.encode(before[legacy]) == Some(after[target])
          && backup in after && after[backup] == before[legacy])
  }

  lemma {:induction false} AttemptIsHarmless(files: Files, plan: Plan, a: Attempt)
    requires TempsAreTemps(a) && plan.target != plan.backup
    ensures Harmless(files, Migrate(files, plan, a).0, plan)
  {
    hide Publish;
    PublicationsOfAttempt(files, plan, a);
    var legacy, target, backup := Plain(plan.legacy), Plain(plan.target), Plain(plan.backup);
    if legacy in files && plan.encode(files[legacy]).Some? {
      var source, converted := files[legacy], plan.encode(files[legacy]).value;
      var saved := Publish(files, backup, source, a.backupTemp, a.backupFate).0;
      var after := Publish(saved, target, converted, a.targetTemp, a.targetFate).0;
      assert forall p: Path :: p.Plain? && p != target && p != backup ==> Same(files, saved, p) && Same(saved, after, p);
    }
  }

  lemma {:induction false} HarmlessTransitive(first: Files, second: Files, third: Files, plan: Plan)
    requires Harmless(first, second, plan) && Harmless(second, third, plan)
    ensures Harmless(first, third, plan)
  {
    var legacy, target, backup := Plain(plan.legacy), Plain(plan.target), Plain(plan.backup);
    assert forall p: Path :: p.Plain? && (p in first || (p != target && p != backup)) ==> Same(first, second, p);
    assert forall p: Path :: p.Plain? && p in second ==> Same(second, third, p);
  }

  /** However often a migration is interrupted, at whatever steps, it has done no harm. */
  lemma {:induction false} InterruptionsAreHarmless(files: Files, plan: Plan, attempts: seq<Attempt>)
    requires plan.target != plan.backup && forall a :: a in attempts ==> TempsAreTemps(a)
    ensures Harmless(files, AfterAttempts(files, plan, attempts), plan)
    decreases |attempts|
  {
    hide Migrate, Harmless;
    if attempts == [] {
      NothingIsHarmless(files, plan);
    } else {
      assert attempts[0] in attempts && forall a :: a in attempts[1..] ==> a in attempts;
      var next := Migrate(files, plan, attempts[0]).0;
      AttemptIsHarmless(files, plan, attempts[0]);
      InterruptionsAreHarmless(next, plan, attempts[1..]);
      HarmlessTransitive(files, next, AfterAttempts(files, plan, attempts), plan);
    }
  }

  lemma {:induction false} NothingIsHarmless(files: Files, plan: Plan)
    ensures Harmless(files, files, plan)
  {
  }

  // ----- finishing after interruptions -----

  /** Nothing on disk contradicts the migration of `source` to `converted`. */
  predicate Feasible(files: Files, plan: Plan, source: Bytes, converted: Bytes) {
    var legacy, target, backup := Plain(plan.legacy), Plain(plan.target), Plain(plan.backup);
    && legacy in files && files[legacy] == source && |source| <= MAX_LEGACY && plan.encode(source) == Some(converted)
    && (target in files ==> files[target] == converted)
    && (target !in files && backup in files ==> files[backup] == source)
  }

  lemma {:induction false} HarmlessKeepsFeasible(before: Files, after: Files, plan: Plan, source: Bytes, converted: Bytes)
    requires Harmless(before, after, plan) && Feasible(before, plan, source, converted)
    ensures Feasible(after, plan, source, converted)
  {
    assert Same(before, after, Plain(plan.legacy));
    assert Plain(plan.target) in before ==> Same(before, after, Plain(plan.target));
    assert Plain(plan.backup) in before ==> Same(before, after, Plain(plan.backup));
  }

  /** The attempt meets no fault and its temporary names are unused. */
  predicate Undisturbed(files: Files, a: Attempt) {
    && !a.legacyUnreadable && !a.targetUnreadable && !a.backupUnreadable && TempsAreTemps(a)
    && a.backupFate == NO_FAULT && a.targetFate == NO_FAULT && a.backupTemp !in files && a.targetTemp !in files
  }

  lemma {:induction false} UndisturbedFinishesIff(files: Files, plan: Plan, a: Attempt, source: Bytes, converted: Bytes)
    requires Undisturbed(files, a) && plan.target != plan.backup && !plan.dryRun
    requires Plain(plan.legacy) in files && files[Plain(plan.legacy)] == source
    requires |source| <= MAX_LEGACY && plan.encode(source) == Some(converted)
    ensures Migrate(files, plan, a).1.Success? <==> Feasible(files, plan, source, converted)
    ensures Feasible(files, plan, source, converted) ==>
              var after := Migrate(files, plan, a).0;
              && Plain(plan.target) in after && after[Plain(plan.target)] == converted
              && (Plain(plan.target) !in files ==> Plain(plan.backup) in after && after[Plain(plan.backup)] == source)
  {
    hide Publish;
    PublishSucceedsIff(files, plan.backup, source, a.backupTemp);
    PublishSucceedsIff(files, plan.target, converted, a.targetTemp);
    PublishSucceedsIff(files[Plain(plan.backup) := source], plan.target, converted, a.targetTemp);
  }

  lemma {:induction false} FinishedIsIdempotent(files: Files, plan: Plan, a: Attempt, source: Bytes, converted: Bytes)
    requires Feasible(files, plan, source, converted) && Plain(plan.target) in files && !plan.dryRun
    requires !a.legacyUnreadable && !a.targetUnreadable
    ensures Migrate(files, plan, a) == (files, Success(Outcome(false, false, Plain(plan.backup) in files)))
  {
    hide Publish;
  }

  /**
   * Start from any disk the migration does not contradict, interrupt it any
   * number of times at any steps, then let one attempt through: the target
   * holds the conversion, the legacy file is untouched, and any further attempt
   * that can read its files changes nothing and says so.
   */
  lemma {:induction false} MigrationSurvivesInterruptions(
    files: Files, plan: Plan, attempts: seq<Attempt>, final: Attempt, later: Attempt, source: Bytes, converted: Bytes)
    requires plan.target != plan.backup && !plan.dryRun && forall a :: a in attempts ==> TempsAreTemps(a)
    requires Feasible(files, plan, source, converted)
    requires Undisturbed(AfterAttempts(files, plan, attempts), final)
    requires !later.legacyUnreadable && !later.targetUnreadable
    ensures var (done, answer) := Migrate(AfterAttempts(files, plan, attempts), plan, final);
            && answer.Success? && Plain(plan.target) in done && done[Plain(plan.target)] == converted
            && Same(files, done, Plain(plan.legacy))
            && (Plain(plan.target) !in files ==> Plain(plan.backup) in done && done[Plain(plan.backup)] == source)
            && Migrate(done, plan, later) == (done, Success(Outcome(false, false, Plain(plan.backup) in done)))
  {
    hide Migrate, AfterAttempts, Harmless;
    var last := AfterAttempts(files, plan, attempts);
    InterruptionsAreHarmless(files, plan, attempts);
    HarmlessKeepsFeasible(files, last, plan, source, converted);
    UndisturbedFinishesIff(last, plan, final, source, converted);
    var done := Migrate(last, plan, final).0;
    AttemptIsHarmless(last, plan, final);
    HarmlessTransitive(files, last, done, plan);
    HarmlessKeepsFeasible(files, done, plan, source, converted);
    FinishedIsIdempotent(done, plan, later, source, converted);
    HarmlessOutcome(files, done, plan, source);
  }

  lemma {:induction false} HarmlessOutcome(before: Files, after: Files, plan: Plan, source: Bytes)
    requires Harmless(before, after, plan)
    requires Plain(plan.legacy) in before && before[Plain(plan.legacy)] == source && Plain(plan.target) in after
    ensures Same(before, after, Plain(plan.legacy))
    ensures Plain(plan.target) !in before ==> Plain(plan.backup) in after && after[Plain(plan.backup)] == source
  {
  }

  /** If target and backup are one path, an undisturbed migration overwrites the only copy of the source it made. */
  lemma {:induction false} SharedPathLosesBackup(files: Files, plan: Plan, a: Attempt, source: Bytes, converted: Bytes)
    requires plan.target == plan.backup && !plan.dryRun && Undisturbed(files, a) && Plain(plan.target) !in files
    requires Feasible(files, plan, source, converted)
    ensures var (after, answer) := Migrate(files, plan, a);
            && answer == Success(Outcome(false, true, true)) && after[Plain(plan.backup)] == converted
            && (after[Plain(plan.backup)] == source <==> converted == source)
  {
    hide Publish;
    PublishSucceedsIff(files, plan.backup, source, a.backupTemp);
    PublishSucceedsIff(files[Plain(plan.backup) := source], plan.target, converted, a.targetTemp);
  }

  // ----- what the answers say -----

  /** The source can be read and encoded: it is there, at most 64 MiB long, and has an encoding. */
  predicate Convertible(files: Files, plan: Plan, a: Attempt) {
    && Plain(plan.legacy) in files && !a.legacyUnreadable && |files[Plain(plan.legacy)]| <= 67_108_864
    && plan.encode(files[Plain(plan.legacy)]).Some?
  }

  /** A dry run writes nothing, and answers that it migrated nothing exactly if the source can be converted. */
  lemma {:induction false} DryRunAnswers(files: Files, plan: Plan, a: Attempt)
    requires plan.dryRun
    ensures Migrate(files, plan, a).0 == files
    ensures Migrate(files, plan, a).1 == Success(Outcome(true, false, false)) <==> Convertible(files, plan, a)
    ensures Migrate(files, plan, a).1.Success? ==> Migrate(files, plan, a).1.outcome == Outcome(true, false, false)
  {
    hide Publish;
  }

  /** Which files each refusal speaks of, and when a target that is there already is accepted. */
  lemma {:induction false} AnswersMean(files: Files, plan: Plan, a: Attempt)
    ensures var (answer, legacy, target, backup) :=
              (Migrate(files, plan, a).1, Plain(plan.legacy), Plain(plan.target), Plain(plan.backup));
            var started := Convertible(files, plan, a) && !plan.dryRun;
            && (answer.TooLarge? <==> legacy in files && !a.legacyUnreadable && |files[legacy]| > 67_108_864)
            && (answer.EncodeError? <==>
                  && legacy in files && !a.legacyUnreadable && |files[legacy]| <= 67_108_864
                  && plan.encode(files[legacy]).None?)
            && (answer.TargetDiffers? <==>
                  started && target in files && !a.targetUnreadable && Some(files[target]) != plan.encode(files[legacy]))
            && (answer.BackupDiffers? <==>
                  && started && target !in files && backup in files && !a.backupUnreadable
                  && files[backup] != files[legacy])
            && (answer.Success? && !answer.outcome.dryRun && !answer.outcome.migrated <==>
                  started && target in files && !a.targetUnreadable && Some(files[target]) == plan.encode(files[legacy]))
            && (answer.Success? && !answer.outcome.dryRun ==>
                  answer.outcome.backup == (answer.outcome.migrated || backup in files))
            && (answer.Success? && answer.outcome.dryRun ==> plan.dryRun)
  {
  }

  /** The attempt gets as far as publishing the backup. */
  predicate PublishesBackup(files: Files, plan: Plan, a: Attempt) {
    Convertible(files, plan, a) && !plan.dryRun && Plain(plan.target) !in files && Plain(plan.backup) !in files
  }

  /** It starts from an equal backup, or has published one, and gets as far as publishing the target. */
  predicate PublishesTarget(files: Files, plan: Plan, a: Attempt) {
    && Convertible(files, plan, a) && !plan.dryRun && Plain(plan.target) !in files
    && if Plain(plan.backup) in files then !a.backupUnreadable && files[Plain(plan.backup)] == files[Plain(plan.legacy)]
       else Publish(files, Plain(plan.backup), files[Plain(plan.legacy)], a.backupTemp, a.backupFate).1.Published?
  }

  /** The disk when the publication of the target starts. */
  function AtTarget(files: Files, plan: Plan, a: Attempt): Files
    requires PublishesTarget(files, plan, a)
  {
    if Plain(plan.backup) in files then files
    else Publish(files, Plain(plan.backup), files[Plain(plan.legacy)], a.backupTemp, a.backupFate).0
  }

  /** The attempt migrates exactly if it gets to the target's publication and that succeeds, and is cut off exactly by a crash. */
  lemma {:induction false} MigratedIff(files: Files, plan: Plan, a: Attempt)
    ensures var answer := Migrate(files, plan, a).1;
            var target := if PublishesTarget(files, plan, a)
              then Some(Publish(AtTarget(files, plan, a), Plain(plan.target), plan.encode(files[Plain(plan.legacy)]).value,
                                a.targetTemp, a.targetFate).1)
              else None;
            && (answer.Success? && answer.outcome.migrated <==> target == Some(Published))
            && (answer.Stopped? <==>
                  || target == Some(Crashed)
                  || (&& PublishesBackup(files, plan, a)
                      && Publish(files, Plain(plan.backup), files[Plain(plan.legacy)], a.backupTemp, a.backupFate).1.Crashed?))
  {
    hide Publish;
  }
}
