/**
 * The step sequencing of `main`: compress the data folder, prune old remote
 * backups, upload the archive, then remove the local archive. Each step
 * starts only when the previous one returned nil; an error makes `main` print
 * it and return, a panic ends the process, and an upload that keeps retrying
 * never lets `main` go on.
 */
module Orchestrator {
  import Archive
  import Clock
  import Config
  import Cleanup
  import Http
  import Int64
  import Upload

  datatype Phase = Compress | Prune | Send | RemoveLocal

  /** The steps of `main`, in order. */
  const Phases: seq<Phase> := [Compress, Prune, Send, RemoveLocal]

  /** How one step ended, as seen by `main`. `StepPending` is a step that
      has not returned (the upload still retrying). */
  datatype StepResult = StepOk | StepErr | StepCrash | StepPending

  /** How `main` ends. */
  datatype Exit = Completed | ReturnedOnError(phase: Phase) | Crashed(phase: Phase) | Blocked(phase: Phase)

  /** The steps `main` started, in order, and how it ended. */
  datatype MainRun = MainRun(started: seq<Phase>, exit: Exit)

  /** The exit a step causes when it does not return nil. */
  function ExitAfter(phase: Phase, result: StepResult): Exit
  {
    match result
    case StepOk => Completed
    case StepErr => ReturnedOnError(phase)
    case StepCrash => Crashed(phase)
    case StepPending => Blocked(phase)
  }

  predicate AllOk(outcome: Phase -> StepResult)
  {
    forall k | 0 <= k < |Phases| :: outcome(Phases[k]) == StepOk
  }

  /** `main` run against the result each step would have if started. */
  method RunMain(outcome: Phase -> StepResult) returns (run: MainRun)
    // the steps start in order, none skipped, none repeated
    ensures 1 <= |run.started| && run.started <= Phases
    // a step starts only after every earlier one returned nil
    ensures forall i | 0 <= i < |run.started| - 1 :: outcome(run.started[i]) == StepOk
    // and a step starts exactly when every earlier one returned nil
    ensures forall k | 0 <= k < |Phases| ::
      Phases[k] in run.started <==> forall m | 0 <= m < k :: outcome(Phases[m]) == StepOk
    // main completes exactly when every step returned nil
    ensures run.exit == Completed <==> AllOk(outcome)
    ensures run.exit == Completed ==> run.started == Phases
    // otherwise it stops at the last step started, in the way that step ended
    ensures run.exit != Completed ==>
      var last := run.started[|run.started| - 1];
      outcome(last) != StepOk && run.exit == ExitAfter(last, outcome(last))
  {
    var started: seq<Phase> := [];
    var i := 0;
    while i < |Phases|
      invariant 0 <= i <= |Phases|
      invariant started == Phases[..i]
      invariant forall k | 0 <= k < i :: outcome(Phases[k]) == StepOk
    {
      var phase := Phases[i];
      started := started + [phase];
      var result := outcome(phase);
      if result != StepOk {
        return MainRun(started, ExitAfter(phase, result));
      }
      i := i + 1;
    }
    return MainRun(started, Completed);
  }

  function ZipStep(zip: Archive.ZipRun): StepResult
  {
    match zip.outcome
    case ZipOk => StepOk
    case ZipErr => StepErr
    case ZipPanic => StepCrash
  }

  function PruneStep(clean: Cleanup.CleanRun): StepResult
  {
    match clean.result
    case CleanNil => StepOk
    case CleanErr => StepErr
    case Panicked => StepCrash
  }

  function SendStep(upload: Upload.UploadResult): StepResult
  {
    match upload
    case UploadNil(_) => StepOk
    case UploadErr(_) => StepErr
    case UploadPending => StepPending
  }

  function RemoveStep(removed: bool): StepResult
  {
    if removed then StepOk else StepErr
  }

  /** One run of `main`, given what each step produced. */
  method Backup(zip: Archive.ZipRun, clean: Cleanup.CleanRun, upload: Upload.UploadResult, removed: bool)
    returns (run: MainRun)
    ensures Prune in run.started <==> zip.outcome == Archive.ZipOk
    // the upload runs only when compressing and pruning both returned nil
    ensures Send in run.started <==> zip.outcome == Archive.ZipOk && clean.result == Cleanup.CleanNil
    // the local archive is removed only after the upload returned nil
    ensures RemoveLocal in run.started <==>
      zip.outcome == Archive.ZipOk && clean.result == Cleanup.CleanNil && upload.UploadNil?
    ensures run.exit == Completed <==>
      zip.outcome == Archive.ZipOk && clean.result == Cleanup.CleanNil && upload.UploadNil? && removed
    // only compressing and pruning can panic, and each does when its step panicked
    ensures run.exit.Crashed? ==> run.exit.phase == Compress || run.exit.phase == Prune
    ensures run.exit == Crashed(Compress) <==> zip.outcome == Archive.ZipPanic
    ensures run.exit == Crashed(Prune) <==> zip.outcome == Archive.ZipOk && clean.result == Cleanup.Panicked
    // an upload that never returns leaves main waiting in it
    ensures zip.outcome == Archive.ZipOk && clean.result == Cleanup.CleanNil && upload.UploadPending? ==>
      run.exit == Blocked(Send)
  {
    var outcome := (p: Phase) =>
      match p
      case Compress => ZipStep(zip)
      case Prune => PruneStep(clean)
      case Send => SendStep(upload)
      case RemoveLocal => RemoveStep(removed);
    run := RunMain(outcome);
    assert Phases[1] == Prune && Phases[2] == Send && Phases[3] == RemoveLocal;
    assert outcome(Phases[0]) == ZipStep(zip);
    assert outcome(Phases[1]) == PruneStep(clean);
    assert outcome(Phases[2]) == SendStep(upload);
    assert outcome(Phases[3]) == RemoveStep(removed);
    if run.exit != Completed {
      var n := |run.started|;
      assert run.started[n - 1] == Phases[n - 1];
    }
  }

  /** `main` with its pruning step run on the cap read from `MAX_BACKUPS`,
      and only once compressing returned nil. That cap is at least 1, so
      pruning never takes the negative-cap panic path of `CleanOldBackups`:
      apart from the token-reply panic, which is not modelled, `main` ends in
      a panic only from compressing. */
  method ConfiguredBackup(maxEnv: string, zip: Archive.ZipRun, parse: Clock.Parser, listing: Cleanup.Listing,
              answer: nat -> Http.DeleteCall, upload: Upload.UploadResult, removed: bool)
    returns (clean: Cleanup.CleanRun, run: MainRun)
    requires listing.Listed? ==> |listing.items| <= Int64.MaxInt
    ensures clean.result != Cleanup.Panicked
    ensures !run.exit.Crashed? || run.exit == Crashed(Compress)
    // pruning, and so every delete, waits for compressing to return nil
    ensures zip.outcome != Archive.ZipOk ==> clean.attempts == []
    // the deletes are those of a run with the configured cap
    ensures zip.outcome == Archive.ZipOk && listing.Listed? && |listing.items| > Config.MaxBackups(maxEnv) ==>
      |clean.attempts| == |listing.items| - Config.MaxBackups(maxEnv)
    ensures Send in run.started <==> zip.outcome == Archive.ZipOk && clean.result == Cleanup.CleanNil
    ensures RemoveLocal in run.started ==> upload.UploadNil?
  {
    if zip.outcome == Archive.ZipOk {
      var cap := Config.MaxBackups(maxEnv);
      clean := Cleanup.CleanOldBackups(parse, listing, cap, answer);
    } else {
      // `main` returns (or has crashed) before `CleanOldBackups` is called
      clean := Cleanup.CleanRun(Cleanup.CleanNil, [], []);
    }
    run := Backup(zip, clean, upload, removed);
  }
}
