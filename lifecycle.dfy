/**
 * One run of the runner seen end to end: replaying the updates it issued
 * through `update_task` (back-end/storage.py) yields the record the runner
 * leaves (back-end/server.py), and the download gate then answers
 * accordingly.
 */
module Lifecycle {
  import opened Wrappers
  import opened Models
  import opened Storage
  import opened Server

  /** The only fields the runner ever writes. */
  predicate RunnerKeys(u: Update)
  {
    forall k :: k in u ==> k == "status" || k == "progress" || k == "error_message"
  }

  /** Every update a run issues passes validation and names only status, progress and error message. */
  lemma IssuedWellFormed(processingSteps: int, finishTick: nat, vanish: Option<nat>, outcome: CallOutcome)
    ensures var r := Issued(true, processingSteps, finishTick, vanish, outcome);
      forall j :: 0 <= j < |r| ==> ValidUpdate(r[j]) && RunnerKeys(r[j])
  {
    IssuedSplit(processingSteps, finishTick, vanish, outcome);
    var r := Issued(true, processingSteps, finishTick, vanish, outcome);
    var k := Written(processingSteps, finishTick, vanish);
    var tail := Tail(true, processingSteps, finishTick, vanish, outcome);
    forall j | 0 <= j < |r|
      ensures ValidUpdate(r[j]) && RunnerKeys(r[j])
    {
      if k < j {
        assert r[j] == tail[j - k - 1];
      }
    }
  }

  /** A last update in stored form overlays the record it is applied to. */
  lemma LastOverlay(tasks: map<string, TaskData>, taskId: string, us: seq<Update>, u: Update)
    requires taskId in tasks && CanonicalUpdate(u)
    ensures ApplyAll(tasks, taskId, us + [u])[taskId] == Overlay(ApplyAll(tasks, taskId, us)[taskId], u)
  {
    LastStep(tasks, taskId, us, u);
    CanonicalMerge(ApplyAll(tasks, taskId, us)[taskId], u);
  }

  /**
   * Progress writes over a record at progress 0 leave it at the progress of
   * the last tick written, and change nothing else.
   */
  lemma {:induction false} AfterProgress(tasks: map<string, TaskData>, taskId: string, k: nat, n: nat)
    requires taskId in tasks && n >= 1 && tasks[taskId].progress == 0
    ensures ApplyAll(tasks, taskId, ProgressUpdates(k, n))[taskId] == tasks[taskId].(progress := Progress(k, n))
    decreases k
  {
    if k == 0 {
      ProgressBounds(0, 0, n);
    } else {
      AfterProgress(tasks, taskId, k - 1, n);
      var t := ApplyAll(tasks, taskId, ProgressUpdates(k - 1, n))[taskId];
      ProgressOverlay(t, Progress(k, n));
      LastOverlay(tasks, taskId, ProgressUpdates(k - 1, n), ProgressUpdate(Progress(k, n)));
    }
  }

  /** Start and `k` progress writes leave the record "processing" at the progress of tick `k`. */
  lemma AfterLoop(tasks: map<string, TaskData>, taskId: string, k: nat, n: nat)
    requires taskId in tasks && n >= 1
    ensures ApplyAll(tasks, taskId, [StartUpdate] + ProgressUpdates(k, n))[taskId]
      == tasks[taskId].(status := "processing", progress := Progress(k, n))
  {
    ApplyAllFirst(tasks, taskId, StartUpdate, ProgressUpdates(k, n));
    StartOverlay(tasks[taskId]);
    CanonicalMerge(tasks[taskId], StartUpdate);
    AfterProgress(UpdateSpec(tasks, taskId, StartUpdate).0, taskId, k, n);
  }

  /** Replaying a successful run's updates leaves the record complete. */
  lemma ReplaySucceeded(tasks: map<string, TaskData>, taskId: string, processingSteps: int, finishTick: nat, vanish: Option<nat>)
    requires taskId in tasks && !VanishesInLoop(processingSteps, finishTick, vanish)
    ensures ApplyAll(tasks, taskId, Issued(true, processingSteps, finishTick, vanish, Succeeded))[taskId]
      == FinalRecord(tasks[taskId], processingSteps, finishTick, Succeeded)
  {
    var n := Ticks(processingSteps);
    var k := Reached(n, finishTick);
    var prefix := [StartUpdate] + ProgressUpdates(k, n);
    assert Issued(true, processingSteps, finishTick, vanish, Succeeded) == prefix + [CompleteUpdate];
    AfterLoop(tasks, taskId, k, n);
    CompleteOverlay(ApplyAll(tasks, taskId, prefix)[taskId]);
    LastOverlay(tasks, taskId, prefix, CompleteUpdate);
  }

  /** Replaying the updates of a run whose call raised leaves the record in error. */
  lemma ReplayRaised(tasks: map<string, TaskData>, taskId: string, processingSteps: int, finishTick: nat, vanish: Option<nat>, message: string)
    requires taskId in tasks && !VanishesInLoop(processingSteps, finishTick, vanish)
    ensures ApplyAll(tasks, taskId, Issued(true, processingSteps, finishTick, vanish, Raised(message)))[taskId]
      == FinalRecord(tasks[taskId], processingSteps, finishTick, Raised(message))
  {
    var n := Ticks(processingSteps);
    var k := Reached(n, finishTick);
    var prefix := [StartUpdate] + ProgressUpdates(k, n);
    var u := ErrorUpdate(message, Progress(k, n));
    assert Issued(true, processingSteps, finishTick, vanish, Raised(message)) == prefix + [u];
    AfterLoop(tasks, taskId, k, n);
    ErrorOverlay(ApplyAll(tasks, taskId, prefix)[taskId], message, Progress(k, n));
    LastOverlay(tasks, taskId, prefix, u);
  }

  /** Replaying the updates of a run whose call reported failure leaves the record processing. */
  lemma ReplayFailed(tasks: map<string, TaskData>, taskId: string, processingSteps: int, finishTick: nat, vanish: Option<nat>)
    requires taskId in tasks && !VanishesInLoop(processingSteps, finishTick, vanish)
    ensures ApplyAll(tasks, taskId, Issued(true, processingSteps, finishTick, vanish, Failed))[taskId]
      == FinalRecord(tasks[taskId], processingSteps, finishTick, Failed)
  {
    var n := Ticks(processingSteps);
    var k := Reached(n, finishTick);
    assert Issued(true, processingSteps, finishTick, vanish, Failed) == [StartUpdate] + ProgressUpdates(k, n);
    AfterLoop(tasks, taskId, k, n);
  }

  /**
   * The log and the state agree: replaying, through `update_task`, the
   * updates a run issued on a record that stays gives exactly the store the
   * run leaves.
   */
  lemma ReplayIssued(tasks: map<string, TaskData>, taskId: string, processingSteps: int, finishTick: nat,
                     vanish: Option<nat>, outcome: CallOutcome)
    requires taskId in tasks && !VanishesInLoop(processingSteps, finishTick, vanish)
    ensures ApplyAll(tasks, taskId, Issued(true, processingSteps, finishTick, vanish, outcome))
      == tasks[taskId := FinalRecord(tasks[taskId], processingSteps, finishTick, outcome)]
  {
    match outcome {
      case Succeeded => ReplaySucceeded(tasks, taskId, processingSteps, finishTick, vanish);
      case Failed => ReplayFailed(tasks, taskId, processingSteps, finishTick, vanish);
      case Raised(m) => ReplayRaised(tasks, taskId, processingSteps, finishTick, vanish, m);
    }
    ApplyAllOnly(tasks, taskId, Issued(true, processingSteps, finishTick, vanish, outcome),
      FinalRecord(tasks[taskId], processingSteps, finishTick, outcome));
  }

  /** With the deployed stub as the call, every run on a record that stays completes it. */
  lemma StubbedRunCompletes(tasks: map<string, TaskData>, taskId: string, processingSteps: int, finishTick: nat, vanish: Option<nat>)
    requires taskId in tasks && !VanishesInLoop(processingSteps, finishTick, vanish)
    ensures var after := ApplyAll(tasks, taskId, Issued(true, processingSteps, finishTick, vanish, ExternalServiceStub()));
      taskId in after && after[taskId].status == "complete" && after[taskId].progress == 100
  {
    ReplaySucceeded(tasks, taskId, processingSteps, finishTick, vanish);
  }

  /**
   * After a run on a record that stays, the download serves the uploaded
   * file under its original name exactly when the call succeeded and the
   * stored location is non-empty and exists; after a failed or raising run
   * it refuses with 400 and the status the run left.
   */
  lemma DownloadAfterRun(tasks: map<string, TaskData>, taskId: string, processingSteps: int, finishTick: nat,
                         outcome: CallOutcome, existing: set<string>)
    requires taskId in tasks
    ensures var t := tasks[taskId];
      var d := DownloadDecision(Lookup(tasks[taskId := FinalRecord(t, processingSteps, finishTick, outcome)], taskId), existing);
      && (d.FileResponse? <==> outcome.Succeeded? && t.fileLocation != "" && t.fileLocation in existing)
      && (d.FileResponse? ==> d == FileResponse(t.fileLocation, t.originalFilename))
      && (outcome.Failed? ==> d == HttpError(400, "Task not complete. Status: processing"))
      && (outcome.Raised? ==> d == HttpError(400, "Task not complete. Status: error"))
  {
  }

  /** A record deleted during the run is gone for the download gate: 404. */
  lemma DownloadAfterVanish(tasks: map<string, TaskData>, taskId: string, existing: set<string>)
    ensures DownloadDecision(Lookup(tasks - {taskId}, taskId), existing) == HttpError(404, "Task not found")
  {
  }
}
