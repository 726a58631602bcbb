/**
 * The task lifecycle runner (`process_file_async`), the stubbed external
 * call, and the download and health decisions of back-end/server.py.
 *
 * The runner is modelled on its sequential skeleton. What the event loop
 * decides is an input:
 *  - `finishTick`: the first tick whose done-check sees the external call
 *    finished (a value >= the tick count means never during the loop);
 *  - `vanish`: the tick during whose sleep another request deletes the task
 *    record, if any;
 *  - `outcome`: how the call ends when it is awaited.
 */
module Server {
  import opened Wrappers
  import opened Models
  import opened Storage

  /** What awaiting the external call yields. */
  datatype CallOutcome =
    | Succeeded               // `(True, data)`
    | Failed                  // `(False, None)`
    | Raised(message: string) // the call raised; `message` is `str(e)`

  /** `call_external_service` as deployed: a stub that always reports success. */
  function ExternalServiceStub(): CallOutcome
  {
    Succeeded
  }

  /** `max(1, processing_steps)`. */
  function Ticks(processingSteps: int): (n: nat)
    ensures n >= 1 && n >= processingSteps
    ensures processingSteps >= 1 ==> n == processingSteps
    ensures processingSteps < 1 ==> n == 1
  {
    if processingSteps < 1 then 1 else processingSteps
  }

  /**
   * The progress computed once `t` of the `n` ticks have run: the loop's
   * `int((i + 1) / n * 99)` at index `i = t - 1`, in integer arithmetic.
   */
  function Progress(t: nat, n: nat): int
    requires n >= 1
  {
    t * 99 / n
  }

  /** Progress starts at 0, lies in 0..99, reaches 99 after the last tick and never decreases. */
  lemma ProgressBounds(s: nat, t: nat, n: nat)
    requires s <= t <= n && n >= 1
    ensures 0 <= Progress(s, n) <= Progress(t, n) <= 99
    ensures Progress(0, n) == 0 && Progress(n, n) == 99
  {
    MulLe(s, t, 99);
    MulLe(t, n, 99);
    DivMonotone(s * 99, t * 99, n);
    DivMonotone(t * 99, n * 99, n);
    MulDiv(99, n);
  }

  lemma {:induction false} MulLe(x: int, y: int, k: nat)
    requires x <= y
    ensures x * k <= y * k
    decreases k
  {
    if k > 0 {
      MulLe(x, y, k - 1);
      assert x * k == x * (k - 1) + x && y * k == y * (k - 1) + y;
    }
  }

  lemma DivMonotone(a: nat, b: nat, n: nat)
    requires a <= b && n >= 1
    ensures a / n <= b / n
  {
    var qa, qb := a / n, b / n;
    assert (qb + 1) * n == qb * n + n;
    assert a >= qa * n && b < qb * n + n;
    if qa > qb {
      MulLe(qb + 1, qa, n);
    }
  }

  lemma MulDiv(k: nat, n: nat)
    requires n >= 1
    ensures k * n / n == k
  {
    var q, r := k * n / n, k * n % n;
    assert k * n == q * n + r && 0 <= r < n;
    assert (q + 1) * n == q * n + n && (k + 1) * n == k * n + n;
    if q < k {
      MulLe(q + 1, k, n);
    } else if q > k {
      MulLe(k + 1, q, n);
    }
  }

  const StartUpdate: Update := map["status" := Str("processing"), "progress" := Int(0)]

  function ProgressUpdate(progress: int): Update
  {
    map["progress" := Int(progress)]
  }

  const CompleteUpdate: Update := map["status" := Str("complete"), "progress" := Int(100), "error_message" := Null]

  function ErrorUpdate(message: string, progress: int): Update
  {
    map["status" := Str("error"), "error_message" := Str(message), "progress" := Int(progress)]
  }

  /** An update that only writes a progress value. */
  predicate IsProgressWrite(u: Update)
  {
    u.Keys == {"progress"} && u["progress"].Int?
  }

  /** The progress writes of the first `k` ticks, in order. */
  function ProgressUpdates(k: nat, n: nat): (r: seq<Update>)
    requires n >= 1
    ensures |r| == k
  {
    if k == 0 then [] else ProgressUpdates(k - 1, n) + [ProgressUpdate(Progress(k, n))]
  }

  /** The `i`-th progress write carries the progress of tick `i`. */
  lemma {:induction false} ProgressUpdatesAt(k: nat, n: nat)
    requires n >= 1
    ensures forall i :: 0 <= i < k ==> ProgressUpdates(k, n)[i] == ProgressUpdate(Progress(i + 1, n))
  {
    if k > 0 {
      ProgressUpdatesAt(k - 1, n);
      assert ProgressUpdates(k, n) == ProgressUpdates(k - 1, n) + [ProgressUpdate(Progress(k, n))];
    }
  }

  /** The number of ticks that get past the done-check when nothing vanishes. */
  function Reached(n: nat, finishTick: nat): nat
  {
    if finishTick < n then finishTick else n
  }

  /** The record is deleted during a tick the loop actually reaches. */
  predicate VanishesInLoop(processingSteps: int, finishTick: nat, vanish: Option<nat>)
  {
    vanish.Some? && vanish.value < Reached(Ticks(processingSteps), finishTick)
  }

  /** What the runner writes after the loop, given the last computed progress. */
  function FinalUpdates(outcome: CallOutcome, lastProgress: int): seq<Update>
  {
    match outcome
    case Succeeded => [CompleteUpdate]
    case Failed => []
    case Raised(m) => [ErrorUpdate(m, lastProgress)]
  }

  /**
   * The record a run leaves behind when the record stays: "complete" at 100
   * with no error message after success; "processing" at the last progress
   * written after a reported failure; "error" with the exception's text and
   * the last progress computed after an exception. Id, location, filename
   * and creation time are the ones the run started with.
   */
  function FinalRecord(t: TaskData, processingSteps: int, finishTick: nat, outcome: CallOutcome): (r: TaskData)
    ensures r.taskId == t.taskId && r.fileLocation == t.fileLocation
      && r.originalFilename == t.originalFilename && r.createdAt == t.createdAt
    ensures r.progress == 100 <==> outcome.Succeeded?
    ensures 0 <= r.progress <= 100
    ensures r.status == "complete" <==> outcome.Succeeded?
    ensures outcome.Succeeded? ==> r.errorMessage.None?
    ensures outcome.Raised? ==> r.status == "error" && r.errorMessage == Some(outcome.message)
    ensures outcome.Failed? ==> r.status == "processing" && r.errorMessage == t.errorMessage
  {
    var n := Ticks(processingSteps);
    ProgressBounds(Reached(n, finishTick), Reached(n, finishTick), n);
    var last := Progress(Reached(n, finishTick), n);
    match outcome
    case Succeeded => t.(status := "complete", progress := 100, errorMessage := None)
    case Failed => t.(status := "processing", progress := last)
    case Raised(m) => t.(status := "error", progress := last, errorMessage := Some(m))
  }

  lemma StartOverlay(t: TaskData)
    ensures CanonicalUpdate(StartUpdate)
    ensures Overlay(t, StartUpdate) == t.(status := "processing", progress := 0)
  {
  }

  lemma ProgressOverlay(t: TaskData, progress: int)
    ensures CanonicalUpdate(ProgressUpdate(progress))
    ensures Overlay(t, ProgressUpdate(progress)) == t.(progress := progress)
  {
  }

  lemma CompleteOverlay(t: TaskData)
    ensures CanonicalUpdate(CompleteUpdate)
    ensures Overlay(t, CompleteUpdate) == t.(status := "complete", progress := 100, errorMessage := None)
  {
  }

  lemma ErrorOverlay(t: TaskData, message: string, progress: int)
    ensures CanonicalUpdate(ErrorUpdate(message, progress))
    ensures Overlay(t, ErrorUpdate(message, progress)) == t.(status := "error", progress := progress, errorMessage := Some(message))
  {
  }

  /**
   * The store updates one run of the runner issues, in order. `present` says
   * whether the task is in the store when the run starts.
   */
  function Issued(present: bool, processingSteps: int, finishTick: nat, vanish: Option<nat>, outcome: CallOutcome): (r: seq<Update>)
    ensures present <==> |r| > 0
    ensures present ==> r[0] == StartUpdate
  {
    if !present then []
    else
      var n := Ticks(processingSteps);
      var reached := Reached(n, finishTick);
      if vanish.Some? && vanish.value < reached then
        var v := vanish.value;
        [StartUpdate] + ProgressUpdates(v, n)
          + (if finishTick <= v + 1 && outcome.Raised? then [ErrorUpdate(outcome.message, Progress(v + 1, n))] else [])
      else
        [StartUpdate] + ProgressUpdates(reached, n)
          + FinalUpdates(outcome, Progress(reached, n))
  }

  /** The updates after the progress writes: at most one, and never a progress write. */
  function Tail(present: bool, processingSteps: int, finishTick: nat, vanish: Option<nat>, outcome: CallOutcome): (r: seq<Update>)
    requires present
  {
    var n := Ticks(processingSteps);
    var reached := Reached(n, finishTick);
    if vanish.Some? && vanish.value < reached then
      var v := vanish.value;
      if finishTick <= v + 1 && outcome.Raised? then [ErrorUpdate(outcome.message, Progress(v + 1, n))] else []
    else FinalUpdates(outcome, Progress(reached, n))
  }

  /** The number of progress writes in a run. */
  function Written(processingSteps: int, finishTick: nat, vanish: Option<nat>): nat
  {
    var reached := Reached(Ticks(processingSteps), finishTick);
    if vanish.Some? && vanish.value < reached then vanish.value else reached
  }

  lemma IssuedSplit(processingSteps: int, finishTick: nat, vanish: Option<nat>, outcome: CallOutcome)
    ensures Issued(true, processingSteps, finishTick, vanish, outcome)
      == [StartUpdate] + ProgressUpdates(Written(processingSteps, finishTick, vanish), Ticks(processingSteps))
         + Tail(true, processingSteps, finishTick, vanish, outcome)
    ensures Written(processingSteps, finishTick, vanish) <= Ticks(processingSteps)
    ensures |Tail(true, processingSteps, finishTick, vanish, outcome)| <= 1
    ensures forall j :: 0 <= j < |Tail(true, processingSteps, finishTick, vanish, outcome)| ==>
      var u := Tail(true, processingSteps, finishTick, vanish, outcome)[j];
      u == CompleteUpdate || (outcome.Raised? && u == ErrorUpdate(outcome.message, u["progress"].i))
    ensures forall j :: 1 <= j <= Written(processingSteps, finishTick, vanish) ==>
      Issued(true, processingSteps, finishTick, vanish, outcome)[j] == ProgressUpdate(Progress(j, Ticks(processingSteps)))
  {
    ProgressUpdatesAt(Written(processingSteps, finishTick, vanish), Ticks(processingSteps));
  }

  /**
   * Progress writes: at most one per tick, so at most `max(1, processing_steps)`;
   * the `j`-th one carries the progress after `j` ticks, in 0..99, and later
   * writes never carry less.
   */
  lemma RunnerProgress(present: bool, processingSteps: int, finishTick: nat, vanish: Option<nat>, outcome: CallOutcome)
    ensures var r := Issued(present, processingSteps, finishTick, vanish, outcome);
      forall j :: 1 <= j < |r| && IsProgressWrite(r[j]) ==>
        j <= Ticks(processingSteps) && r[j] == ProgressUpdate(Progress(j, Ticks(processingSteps)))
        && 0 <= r[j]["progress"].i <= 99
    ensures var r := Issued(present, processingSteps, finishTick, vanish, outcome);
      forall i, j :: 1 <= i < j < |r| && IsProgressWrite(r[i]) && IsProgressWrite(r[j]) ==>
        r[i]["progress"].i <= r[j]["progress"].i
  {
    if present {
      IssuedSplit(processingSteps, finishTick, vanish, outcome);
      var r := Issued(present, processingSteps, finishTick, vanish, outcome);
      var n := Ticks(processingSteps);
      var k := Written(processingSteps, finishTick, vanish);
      var tail := Tail(true, processingSteps, finishTick, vanish, outcome);
      forall j | k < j < |r|
        ensures !IsProgressWrite(r[j])
      {
        assert r[j] == tail[j - k - 1];
        assert "status" in r[j];
      }
      forall j | 1 <= j <= k
        ensures r[j] == ProgressUpdate(Progress(j, n)) && 0 <= Progress(j, n) <= 99
      {
        ProgressBounds(j, j, n);
      }
      forall i, j | 1 <= i < j <= k
        ensures r[i]["progress"].i <= r[j]["progress"].i
      {
        ProgressBounds(i, j, n);
      }
    }
  }

  /**
   * Only the first update and the last one set a status: "processing" first,
   * then, if anything, "complete" or "error".
   */
  lemma RunnerStatusWrites(present: bool, processingSteps: int, finishTick: nat, vanish: Option<nat>, outcome: CallOutcome)
    ensures var r := Issued(present, processingSteps, finishTick, vanish, outcome);
      forall j :: 0 < j < |r| ==>
        ("status" in r[j] <==> j == |r| - 1 && !IsProgressWrite(r[j]))
        && ("status" in r[j] ==> r[j]["status"] == Str("complete") || r[j]["status"] == Str("error"))
  {
    if present {
      IssuedSplit(processingSteps, finishTick, vanish, outcome);
      var r := Issued(present, processingSteps, finishTick, vanish, outcome);
      var k := Written(processingSteps, finishTick, vanish);
      var tail := Tail(true, processingSteps, finishTick, vanish, outcome);
      forall j | k < j < |r|
        ensures r[j] == tail[j - k - 1]
      {
      }
    }
  }

  /**
   * A run ends with the "complete" update exactly when the task was there,
   * the call succeeded and the record did not vanish during the loop; no
   * other update is a "complete" one.
   */
  lemma RunnerCompletes(present: bool, processingSteps: int, finishTick: nat, vanish: Option<nat>, outcome: CallOutcome)
    ensures var r := Issued(present, processingSteps, finishTick, vanish, outcome);
      (|r| > 0 && r[|r| - 1] == CompleteUpdate) <==> present && outcome.Succeeded? && !VanishesInLoop(processingSteps, finishTick, vanish)
    ensures var r := Issued(present, processingSteps, finishTick, vanish, outcome);
      forall j :: 0 <= j < |r| - 1 ==> r[j] != CompleteUpdate
  {
    if present {
      IssuedSplit(processingSteps, finishTick, vanish, outcome);
      var r := Issued(present, processingSteps, finishTick, vanish, outcome);
      var k := Written(processingSteps, finishTick, vanish);
      assert StartUpdate["status"] != CompleteUpdate["status"];
      forall j | 1 <= j <= k
        ensures r[j] != CompleteUpdate
      {
        assert "status" !in r[j];
      }
      if |r| > 0 && r[|r| - 1] == CompleteUpdate {
        assert |r| == k + 2;
      }
    }
  }

  /**
   * When the record vanishes at tick `v`, the run stops there: besides the
   * start and the `v` earlier progress writes it issues at most one update,
   * and only when the call had already raised: an "error" update carrying the
   * progress computed at tick `v`, which was never written.
   */
  lemma RunnerVanishes(processingSteps: int, finishTick: nat, vanish: Option<nat>, outcome: CallOutcome)
    requires VanishesInLoop(processingSteps, finishTick, vanish)
    ensures var r := Issued(true, processingSteps, finishTick, vanish, outcome);
      |r| <= vanish.value + 2 && CompleteUpdate !in r
    ensures var r := Issued(true, processingSteps, finishTick, vanish, outcome);
      |r| == vanish.value + 2 <==> outcome.Raised? && finishTick == vanish.value + 1
    ensures var r := Issued(true, processingSteps, finishTick, vanish, outcome);
      |r| == vanish.value + 2 ==> r[|r| - 1] == ErrorUpdate(outcome.message, Progress(vanish.value + 1, Ticks(processingSteps)))
  {
    RunnerCompletes(true, processingSteps, finishTick, vanish, outcome);
    var r := Issued(true, processingSteps, finishTick, vanish, outcome);
    if |r| > 0 && r[|r| - 1] == CompleteUpdate {
      assert false;
    }
  }

  /**
   * When the call raises and the record is still there, the last update is
   * "error" with the call's message, and its progress is the last one written
   * before it (the start's 0 if no tick wrote one).
   */
  lemma RunnerRaises(processingSteps: int, finishTick: nat, vanish: Option<nat>, message: string)
    requires !VanishesInLoop(processingSteps, finishTick, vanish)
    ensures var r := Issued(true, processingSteps, finishTick, vanish, Raised(message));
      |r| >= 2 && r[|r| - 1] == ErrorUpdate(message, r[|r| - 2]["progress"].i)
  {
    var n := Ticks(processingSteps);
    var reached := Reached(n, finishTick);
    var r := Issued(true, processingSteps, finishTick, vanish, Raised(message));
    assert r == [StartUpdate] + ProgressUpdates(reached, n) + [ErrorUpdate(message, Progress(reached, n))];
    if reached > 0 {
      ProgressUpdatesAt(reached, n);
      assert r[|r| - 2] == ProgressUpdates(reached, n)[reached - 1];
    }
  }

  /** When the call reports failure the runner writes nothing after its progress writes. */
  lemma RunnerFails(present: bool, processingSteps: int, finishTick: nat, vanish: Option<nat>)
    ensures var r := Issued(present, processingSteps, finishTick, vanish, Failed);
      forall j :: 0 < j < |r| ==> IsProgressWrite(r[j])
  {
    if present {
      IssuedSplit(processingSteps, finishTick, vanish, Failed);
      var r := Issued(present, processingSteps, finishTick, vanish, Failed);
      forall j | 0 < j < |r|
        ensures IsProgressWrite(r[j])
      {
        assert r[j] == ProgressUpdates(Written(processingSteps, finishTick, vanish), Ticks(processingSteps))[j - 1];
      }
    }
  }

  /**
   * `process_file_async` over the store. Returns the updates it issued, in
   * order. A task that is not there is left alone; one deleted during the
   * loop stays deleted, every other entry untouched; otherwise the record
   * ends as `FinalRecord` says and no other entry changes.
   */
  method ProcessFile(store: InMemoryTaskStorage, taskId: string, processingSteps: int,
                     finishTick: nat, vanish: Option<nat>, outcome: CallOutcome)
    returns (issued: seq<Update>)
    modifies store
    ensures issued == Issued(taskId in old(store.tasks), processingSteps, finishTick, vanish, outcome)
    ensures taskId !in old(store.tasks) ==> store.tasks == old(store.tasks)
    ensures taskId in old(store.tasks) && VanishesInLoop(processingSteps, finishTick, vanish) ==>
      store.tasks == old(store.tasks) - {taskId}
    ensures taskId in old(store.tasks) && !VanishesInLoop(processingSteps, finishTick, vanish) ==>
      store.tasks == old(store.tasks)[taskId := FinalRecord(old(store.tasks)[taskId], processingSteps, finishTick, outcome)]
  {
    issued := [];
    var taskEntry := store.GetTask(taskId);
    if taskEntry.None? {
      return;
    }
    ghost var t := taskEntry.value;
    StartOverlay(t);
    Apply(store, taskId, StartUpdate);
    var n := Ticks(processingSteps);
    ghost var started := t.(status := "processing", progress := 0);
    var written, currentProgress, abandoned := PollTicks(store, taskId, n, finishTick, vanish);
    issued := [StartUpdate] + written;
    if abandoned {
      // the call was cancelled; one that had already raised re-raises when
      // awaited, and the handler records the error on the vanished id
      RemoveUpdated(old(store.tasks), taskId, started);
      IssuedVanished(processingSteps, finishTick, vanish, outcome, vanish.value);
      if finishTick <= vanish.value + 1 && outcome.Raised? {
        var u := ErrorUpdate(outcome.message, currentProgress);
        IssueAbsent(store, taskId, u);
        issued := issued + [u];
      }
      return;
    }
    IssuedAfterLoop(processingSteps, finishTick, vanish, outcome, Reached(n, finishTick));
    UpdateTwice(old(store.tasks), taskId, started, started.(progress := currentProgress));
    var last := FinalUpdates(outcome, currentProgress);
    if last != [] {
      var r := store.tasks[taskId];
      if outcome.Succeeded? {
        CompleteOverlay(r);
      } else {
        ErrorOverlay(r, outcome.message, currentProgress);
      }
      Apply(store, taskId, last[0]);
      UpdateTwice(old(store.tasks), taskId, r, store.tasks[taskId]);
      assert last == [last[0]];
      issued := issued + [last[0]];
    }
  }

  /**
   * The polling loop of `process_file_async`, entered after the start update:
   * one progress write per tick until the call is seen done or the ticks run
   * out, or until the record is found gone, which abandons the run. Returns
   * the progress writes issued and the last progress computed.
   */
  method PollTicks(store: InMemoryTaskStorage, taskId: string, n: nat, finishTick: nat, vanish: Option<nat>)
    returns (written: seq<Update>, currentProgress: int, abandoned: bool)
    modifies store
    requires n >= 1 && taskId in store.tasks && store.tasks[taskId].progress == 0
    ensures abandoned <==> vanish.Some? && vanish.value < Reached(n, finishTick)
    ensures abandoned ==>
      && written == ProgressUpdates(vanish.value, n)
      && currentProgress == Progress(vanish.value + 1, n)
      && store.tasks == old(store.tasks) - {taskId}
    ensures !abandoned ==>
      && written == ProgressUpdates(Reached(n, finishTick), n)
      && currentProgress == Progress(Reached(n, finishTick), n)
      && store.tasks == old(store.tasks)[taskId := old(store.tasks)[taskId].(progress := currentProgress)]
  {
    written := [];
    ProgressBounds(0, 0, n);
    currentProgress := 0;
    abandoned := false;
    ghost var t := store.tasks[taskId];
    assert store.tasks == old(store.tasks)[taskId := t.(progress := 0)];
    var i := 0;
    while i < n
      invariant 0 <= i <= n && i <= finishTick
      invariant vanish.Some? ==> vanish.value >= i
      invariant written == ProgressUpdates(i, n)
      invariant currentProgress == Progress(i, n)
      invariant store.tasks == old(store.tasks)[taskId := t.(progress := currentProgress)]
    {
      if finishTick <= i {
        break;
      }
      var gone;
      gone, currentProgress := Tick(store, taskId, n, i, vanish);
      if gone {
        RemoveUpdated(old(store.tasks), taskId, t.(progress := Progress(i, n)));
        abandoned := true;
        return;
      }
      written := written + [ProgressUpdate(currentProgress)];
      i := i + 1;
    }
  }

  /**
   * One tick of the polling loop after the done-check: sleep (during which the
   * record may be deleted), compute the progress after `i + 1` ticks, look the
   * record up again and, if it is still there, write that progress.
   */
  method Tick(store: InMemoryTaskStorage, taskId: string, n: nat, i: nat, vanish: Option<nat>)
    returns (gone: bool, currentProgress: int)
    modifies store
    requires i < n && taskId in store.tasks
    ensures currentProgress == Progress(i + 1, n)
    ensures gone <==> vanish.Some? && vanish.value == i
    ensures gone ==> store.tasks == old(store.tasks) - {taskId}
    ensures !gone ==> store.tasks == old(store.tasks)[taskId := old(store.tasks)[taskId].(progress := currentProgress)]
  {
    // the sleep: another request may delete the record meanwhile
    if vanish.Some? && vanish.value == i {
      store.tasks := store.tasks - {taskId};
    }
    currentProgress := Progress(i + 1, n);
    var taskStillExists := store.GetTask(taskId);
    if taskStillExists.None? {
      return true, currentProgress;
    }
    gone := false;
    ProgressOverlay(store.tasks[taskId], currentProgress);
    Apply(store, taskId, ProgressUpdate(currentProgress));
  }

  lemma IssuedAfterLoop(processingSteps: int, finishTick: nat, vanish: Option<nat>, outcome: CallOutcome, i: nat)
    requires i == Reached(Ticks(processingSteps), finishTick)
    requires vanish.Some? ==> vanish.value >= i
    ensures !VanishesInLoop(processingSteps, finishTick, vanish)
    ensures Issued(true, processingSteps, finishTick, vanish, outcome)
      == [StartUpdate] + ProgressUpdates(i, Ticks(processingSteps))
         + FinalUpdates(outcome, Progress(i, Ticks(processingSteps)))
  {
  }

  lemma IssuedVanished(processingSteps: int, finishTick: nat, vanish: Option<nat>, outcome: CallOutcome, i: nat)
    requires vanish.Some? && vanish.value == i && i < Reached(Ticks(processingSteps), finishTick)
    ensures VanishesInLoop(processingSteps, finishTick, vanish)
    ensures Issued(true, processingSteps, finishTick, vanish, outcome)
      == [StartUpdate] + ProgressUpdates(i, Ticks(processingSteps))
         + (if finishTick <= i + 1 && outcome.Raised? then [ErrorUpdate(outcome.message, Progress(i + 1, Ticks(processingSteps)))] else [])
  {
  }

  /** `update_task` with an update in stored form on a present record: the record becomes its overlay. */
  method Apply(store: InMemoryTaskStorage, taskId: string, u: Update)
    modifies store
    requires taskId in store.tasks && CanonicalUpdate(u)
    ensures store.tasks == old(store.tasks)[taskId := Overlay(old(store.tasks)[taskId], u)]
  {
    CanonicalMerge(store.tasks[taskId], u);
    var _ := store.UpdateTask(taskId, u);
  }

  /** `update_task` on an id that is not there changes nothing. */
  method IssueAbsent(store: InMemoryTaskStorage, taskId: string, u: Update)
    modifies store
    requires taskId !in store.tasks
    ensures store.tasks == old(store.tasks)
  {
    var _ := store.UpdateTask(taskId, u);
  }

  lemma UpdateTwice(tasks: map<string, TaskData>, taskId: string, t: TaskData, u: TaskData)
    ensures tasks[taskId := t][taskId := u] == tasks[taskId := u]
  {
  }

  lemma RemoveUpdated(tasks: map<string, TaskData>, taskId: string, t: TaskData)
    ensures tasks[taskId := t] - {taskId} == tasks - {taskId}
  {
  }

  /** What the download endpoint answers: the file, or an HTTP error. */
  datatype Response =
    | FileResponse(path: string, filename: string)
    | HttpError(statusCode: int, detail: string)

  /**
   * `download_processed_file` after the lookup: `task` is what `get_task`
   * returned and `existing` the paths `os.path.exists` accepts. The file is
   * served only for a complete task whose non-empty location exists; a
   * missing task and a missing file are 404, an unfinished task is 400.
   */
  function DownloadDecision(task: Option<TaskData>, existing: set<string>): (r: Response)
    ensures r.FileResponse? <==>
      task.Some? && task.value.status == "complete" && task.value.fileLocation != "" && task.value.fileLocation in existing
    ensures r.FileResponse? ==> r.path == task.value.fileLocation && r.filename == task.value.originalFilename
    ensures r.HttpError? ==> (r.statusCode == 400 <==> task.Some? && task.value.status != "complete")
    ensures r.HttpError? ==> (r.statusCode == 404 <==> task.None? || task.value.status == "complete")
    ensures task.None? ==> r == HttpError(404, "Task not found")
    ensures r.HttpError? && r.statusCode == 400 ==> r.detail == "Task not complete. Status: " + task.value.status
  {
    if task.None? then HttpError(404, "Task not found")
    else if task.value.status != "complete" then HttpError(400, "Task not complete. Status: " + task.value.status)
    else if task.value.fileLocation == "" || task.value.fileLocation !in existing then HttpError(404, "Processed file not found.")
    else FileResponse(task.value.fileLocation, task.value.originalFilename)
  }

  /**
   * `health_check`: `ready` says whether the application state holds a task
   * manager. Both answers carry a message; only the starting one carries a
   * status, only the running one the storage type.
   */
  function HealthCheck(ready: bool): (r: map<string, string>)
    ensures "message" in r && |r.Keys| == 2
    ensures "status" in r <==> !ready
    ensures "storage_type" in r <==> ready
    ensures !ready ==> r["status"] == "initializing"
    ensures ready ==> r["storage_type"] == "in_memory"
  {
    if !ready then map["message" := "Service starting...", "status" := "initializing"]
    else map["message" := "Service running.", "storage_type" := "in_memory"]
  }
}
