/**
 * The in-memory task store (back-end/storage.py): a dictionary from task id to
 * `TaskData`, updated in place by `initialize`, `create_task` and
 * `update_task`. An update merges the given fields into the dump of the
 * stored record, builds a new record from the result and swaps it in; if the
 * build fails, the old record stays.
 */
module Storage {
  import opened Wrappers
  import opened Models

  /** A partial update: the fields to change and their new values. */
  type Update = map<string, Value>

  /** `dict.get`: the stored record, if any. */
  function Lookup(tasks: map<string, TaskData>, taskId: string): (r: Option<TaskData>)
    ensures r.Some? <==> taskId in tasks
    ensures r.Some? ==> r.value == tasks[taskId]
  {
    if taskId in tasks then Some(tasks[taskId]) else None
  }

  /**
   * The record `update_task` builds: the old record's dump overlaid with the
   * update. Every field is present in the merged dictionary, so the default
   * factories are never consulted; the old id and time stand in for them.
   */
  function Merge(t: TaskData, updates: Update): Result<TaskData, ValidationError>
  {
    FromFields(ToFields(t) + updates, Generated(t.taskId, t.createdAt))
  }

  /** Every field named in the update has a value of an acceptable type (other keys are ignored). */
  predicate ValidUpdate(updates: Update)
  {
    forall name :: name in updates && IsField(name) ==> Validate(KindOf(name).value, updates[name]).Some?
  }

  /** The value a field takes after merging `updates` into `t`. */
  function MergedField(t: TaskData, updates: Update, name: string): Value
    requires IsField(name)
    requires name in updates ==> Validate(KindOf(name).value, updates[name]).Some?
  {
    if name in updates then Validate(KindOf(name).value, updates[name]).value else ToFields(t)[name]
  }

  /**
   * Merging succeeds exactly when the update is valid; then every field named
   * in the update takes its new (validated) value and every other field keeps
   * the old one.
   */
  lemma MergeMeaning(t: TaskData, updates: Update)
    ensures Merge(t, updates).Ok? <==> ValidUpdate(updates)
    ensures Merge(t, updates).Ok? ==>
      forall name :: IsField(name) ==> ToFields(Merge(t, updates).value)[name] == MergedField(t, updates, name)
  {
    var f := ToFields(t) + updates;
    var gen := Generated(t.taskId, t.createdAt);
    FromFieldsMeaning(f, gen);
    assert Acceptable(f) <==> ValidUpdate(updates) by {
      forall name | name in f && IsField(name) && name !in updates
        ensures Validate(KindOf(name).value, f[name]).Some?
      {
        assert f[name] == ToFields(t)[name];
      }
      if Acceptable(f) {
        forall name | name in updates && IsField(name)
          ensures Validate(KindOf(name).value, updates[name]).Some?
        {
          assert f[name] == updates[name];
        }
      }
    }
    if Merge(t, updates).Ok? {
      forall name | IsField(name)
        ensures ToFields(Merge(t, updates).value)[name] == MergedField(t, updates, name)
      {
        assert name in f;
        if name !in updates {
          assert f[name] == ToFields(t)[name];
        }
      }
    }
  }

  /** An update naming only fields, each with a value already in the form the field stores. */
  predicate CanonicalUpdate(updates: Update)
  {
    forall name :: name in updates ==> IsField(name) && Canonical(KindOf(name).value, updates[name])
  }

  /** The record with every field the update names replaced by the update's value. */
  function Overlay(t: TaskData, updates: Update): TaskData
    requires CanonicalUpdate(updates)
  {
    assert IsField("task_id") && IsField("status") && IsField("progress") && IsField("file_location")
      && IsField("original_filename") && IsField("created_at") && IsField("error_message");
    TaskData(
      if "task_id" in updates then updates["task_id"].s else t.taskId,
      if "status" in updates then updates["status"].s else t.status,
      if "progress" in updates then updates["progress"].i else t.progress,
      if "file_location" in updates then updates["file_location"].s else t.fileLocation,
      if "original_filename" in updates then updates["original_filename"].s else t.originalFilename,
      if "created_at" in updates then updates["created_at"].f else t.createdAt,
      if "error_message" in updates then (if updates["error_message"].Null? then None else Some(updates["error_message"].s))
      else t.errorMessage)
  }

  /** An update already in stored form is taken as given: the merge is the overlay. */
  lemma CanonicalMerge(t: TaskData, updates: Update)
    requires CanonicalUpdate(updates)
    ensures Merge(t, updates) == Ok(Overlay(t, updates))
  {
    MergeField(t, updates, "task_id");
    MergeField(t, updates, "status");
    MergeField(t, updates, "progress");
    MergeField(t, updates, "file_location");
    MergeField(t, updates, "original_filename");
    MergeField(t, updates, "created_at");
    MergeField(t, updates, "error_message");
    OverlayFields(t, updates, Merge(t, updates).value);
  }

  /** A record holding, field by field, the update's value where it names one and the old value elsewhere is the overlay. */
  lemma OverlayFields(t: TaskData, updates: Update, r: TaskData)
    requires CanonicalUpdate(updates)
    requires
      && ToFields(r)["task_id"] == (if "task_id" in updates then updates["task_id"] else ToFields(t)["task_id"])
      && ToFields(r)["status"] == (if "status" in updates then updates["status"] else ToFields(t)["status"])
      && ToFields(r)["progress"] == (if "progress" in updates then updates["progress"] else ToFields(t)["progress"])
      && ToFields(r)["file_location"] == (if "file_location" in updates then updates["file_location"] else ToFields(t)["file_location"])
      && ToFields(r)["original_filename"] == (if "original_filename" in updates then updates["original_filename"] else ToFields(t)["original_filename"])
      && ToFields(r)["created_at"] == (if "created_at" in updates then updates["created_at"] else ToFields(t)["created_at"])
      && ToFields(r)["error_message"] == (if "error_message" in updates then updates["error_message"] else ToFields(t)["error_message"])
    ensures r == Overlay(t, updates)
  {
    OverlayHead(t, updates, r);
    OverlayRest(t, updates, r);
  }

  lemma OverlayHead(t: TaskData, updates: Update, r: TaskData)
    requires CanonicalUpdate(updates)
    requires
      && ToFields(r)["task_id"] == (if "task_id" in updates then updates["task_id"] else ToFields(t)["task_id"])
      && ToFields(r)["status"] == (if "status" in updates then updates["status"] else ToFields(t)["status"])
      && ToFields(r)["progress"] == (if "progress" in updates then updates["progress"] else ToFields(t)["progress"])
    ensures r.taskId == Overlay(t, updates).taskId && r.status == Overlay(t, updates).status
      && r.progress == Overlay(t, updates).progress
  {
  }

  lemma OverlayRest(t: TaskData, updates: Update, r: TaskData)
    requires CanonicalUpdate(updates)
    requires
      && ToFields(r)["file_location"] == (if "file_location" in updates then updates["file_location"] else ToFields(t)["file_location"])
      && ToFields(r)["original_filename"] == (if "original_filename" in updates then updates["original_filename"] else ToFields(t)["original_filename"])
      && ToFields(r)["created_at"] == (if "created_at" in updates then updates["created_at"] else ToFields(t)["created_at"])
      && ToFields(r)["error_message"] == (if "error_message" in updates then updates["error_message"] else ToFields(t)["error_message"])
    ensures r.fileLocation == Overlay(t, updates).fileLocation && r.originalFilename == Overlay(t, updates).originalFilename
      && r.createdAt == Overlay(t, updates).createdAt && r.errorMessage == Overlay(t, updates).errorMessage
  {
  }

  /** Each field after such a merge holds the update's value if it names the field, else the old one. */
  lemma MergeField(t: TaskData, updates: Update, name: string)
    requires CanonicalUpdate(updates) && IsField(name)
    ensures Merge(t, updates).Ok?
    ensures ToFields(Merge(t, updates).value)[name] == if name in updates then updates[name] else ToFields(t)[name]
  {
    MergeMeaning(t, updates);
  }

  /**
   * `update_task` as a function of the stored map: the new map and the result.
   * Unknown ids change nothing and give `None`; otherwise only the entry under
   * `taskId` may change, and the result is what is stored there afterwards.
   */
  function UpdateSpec(tasks: map<string, TaskData>, taskId: string, updates: Update): (r: (map<string, TaskData>, Option<TaskData>))
    ensures r.0.Keys == tasks.Keys
    ensures forall k :: k in tasks && k != taskId ==> r.0[k] == tasks[k]
    ensures r.1.Some? <==> taskId in tasks
    ensures taskId !in tasks ==> r.0 == tasks
    ensures taskId in tasks ==> r.0[taskId] == r.1.value
  {
    if taskId !in tasks then (tasks, None)
    else
      match Merge(tasks[taskId], updates)
      case Ok(m) => (tasks[taskId := m], Some(m))
      case Err(_) => (tasks, Some(tasks[taskId]))
  }

  /**
   * On a known id: a valid update sets exactly the named fields and keeps the
   * rest; an invalid one leaves the map as it was and returns the old record.
   */
  lemma UpdateMeaning(tasks: map<string, TaskData>, taskId: string, updates: Update)
    requires taskId in tasks
    ensures ValidUpdate(updates) ==>
      forall name :: IsField(name) ==>
        ToFields(UpdateSpec(tasks, taskId, updates).0[taskId])[name] == MergedField(tasks[taskId], updates, name)
    ensures !ValidUpdate(updates) ==> UpdateSpec(tasks, taskId, updates) == (tasks, Some(tasks[taskId]))
  {
    MergeMeaning(tasks[taskId], updates);
  }

  /**
   * The record stays under the key it was stored under even when the update
   * gives it another `task_id`: no entry appears under the new id.
   */
  lemma StoredUnderOriginalKey(tasks: map<string, TaskData>, taskId: string, updates: Update, newId: string)
    requires taskId in tasks && newId !in tasks
    requires ValidUpdate(updates) && "task_id" in updates && updates["task_id"] == Str(newId)
    ensures newId !in UpdateSpec(tasks, taskId, updates).0
    ensures UpdateSpec(tasks, taskId, updates).0[taskId].taskId == newId
  {
    UpdateMeaning(tasks, taskId, updates);
    assert IsField("task_id");
  }

  /** The store after a sequence of `update_task` calls on one id, the first applied first. */
  function ApplyAll(tasks: map<string, TaskData>, taskId: string, us: seq<Update>): (r: map<string, TaskData>)
    ensures r.Keys == tasks.Keys
    ensures forall k :: k in tasks && k != taskId ==> r[k] == tasks[k]
    decreases |us|
  {
    if us == [] then tasks
    else ApplyAll(UpdateSpec(tasks, taskId, us[0]).0, taskId, us[1..])
  }

  /** Updates that never name a field leave that field of the record as it was. */
  lemma {:induction false} ApplyAllKeepsField(tasks: map<string, TaskData>, taskId: string, us: seq<Update>, name: string)
    requires taskId in tasks && IsField(name)
    requires forall j :: 0 <= j < |us| ==> name !in us[j]
    ensures ToFields(ApplyAll(tasks, taskId, us)[taskId])[name] == ToFields(tasks[taskId])[name]
    decreases |us|
  {
    if us != [] {
      var next := UpdateSpec(tasks, taskId, us[0]).0;
      UpdateMeaning(tasks, taskId, us[0]);
      assert ToFields(next[taskId])[name] == ToFields(tasks[taskId])[name];
      ApplyAllKeepsField(next, taskId, us[1..], name);
    }
  }

  /** Updates on one id change at most the entry under it. */
  lemma ApplyAllOnly(tasks: map<string, TaskData>, taskId: string, us: seq<Update>, t: TaskData)
    requires taskId in tasks && ApplyAll(tasks, taskId, us)[taskId] == t
    ensures ApplyAll(tasks, taskId, us) == tasks[taskId := t]
  {
  }

  /** Applying a sequence and then one more update is applying the extended sequence. */
  lemma {:induction false} LastStep(tasks: map<string, TaskData>, taskId: string, us: seq<Update>, u: Update)
    ensures ApplyAll(tasks, taskId, us + [u]) == UpdateSpec(ApplyAll(tasks, taskId, us), taskId, u).0
    decreases |us|
  {
    if us != [] {
      LastStep(UpdateSpec(tasks, taskId, us[0]).0, taskId, us[1..], u);
      assert (us + [u])[1..] == us[1..] + [u];
    }
  }

  /** Applying a first update and then the rest is applying them all. */
  lemma ApplyAllFirst(tasks: map<string, TaskData>, taskId: string, u: Update, us: seq<Update>)
    ensures ApplyAll(tasks, taskId, [u] + us) == ApplyAll(UpdateSpec(tasks, taskId, u).0, taskId, us)
  {
    assert ([u] + us)[1..] == us;
  }

  class InMemoryTaskStorage {
    /** `_tasks`: task id to record. */
    var tasks: map<string, TaskData>

    constructor ()
      ensures tasks == map[]
    {
      tasks := map[];
    }

    /** Resets the store to empty. */
    method Initialize()
      modifies this
      ensures tasks == map[]
    {
      tasks := map[];
    }

    /** Nothing to release. */
    method Close()
      ensures unchanged(this)
    {
    }

    /**
     * Builds a record from the location and filename alone and stores it under
     * its (generated) id, replacing nothing else.
     */
    method CreateTask(fileLocation: string, originalFilename: string, gen: Generated) returns (t: TaskData)
      modifies this
      ensures t == TaskData(gen.id, "pending", 0, fileLocation, originalFilename, gen.now, None)
      ensures tasks == old(tasks)[t.taskId := t]
    {
      FreshRecordDefaults(fileLocation, originalFilename, gen);
      var built := FromFields(RequiredOnly(fileLocation, originalFilename), gen);
      t := built.value;
      tasks := tasks[t.taskId := t];
    }

    method GetTask(taskId: string) returns (r: Option<TaskData>)
      ensures r.Some? <==> taskId in tasks
      ensures r.Some? ==> r.value == tasks[taskId]
    {
      r := Lookup(tasks, taskId);
    }

    /** Merges `updates` into a copy of the record, validates it and swaps it in. */
    method UpdateTask(taskId: string, updates: Update) returns (r: Option<TaskData>)
      modifies this
      ensures (tasks, r) == UpdateSpec(old(tasks), taskId, updates)
    {
      var task := Lookup(tasks, taskId);
      if task.Some? {
        var updatedData := ToFields(task.value) + updates;
        var built := FromFields(updatedData, Generated(task.value.taskId, task.value.createdAt));
        if built.Ok? {
          tasks := tasks[taskId := built.value];
          return Some(built.value);
        }
        return task;
      }
      return None;
    }
  }
}
