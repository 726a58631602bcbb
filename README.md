# File-processing service: task store, lifecycle runner and upload paths

This project models the core of a small file-processing back-end. A client
uploads a file and the service stores it under a collision-free, timestamped
path. A task record is created for the upload, and a background runner drives
that record through `pending → processing → complete | error` while it waits
for an external processing service. The client can poll the record and,
once it is complete, download the file.

The model has six modules:

- `Wrappers` (wrappers.dfy): `Option` and `Result`.
- `Models` (models.dfy): the `TaskData` record and the validation that
  building it from a field dictionary performs. Present fields are checked
  and coerced, absent fields take their defaults, and keys that are not
  fields are ignored. The uuid and clock default factories are an input,
  `Generated`.
- `Storage` (storage.dfy): the in-memory task store as a class whose
  `tasks` map its methods update in place. `UpdateSpec` and `ApplyAll`
  describe one update call and a sequence of them as functions of the map.
- `Server` (server.dfy) holds four parts:
  - the lifecycle runner `process_file_async`, as the method
    `ProcessFile` over the store, with its polling loop (`PollTicks`) and
    one tick of it (`Tick`);
  - the log of updates a run issues (`Issued`) and the record it leaves
    (`FinalRecord`);
  - the stubbed external call;
  - the download and health endpoint decisions.
- `Utils` (utils.dfy): `get_timestamped_filepath` as a method with its
  probing loop, over POSIX `os.path.splitext` and `os.path.join`.
- `Lifecycle` (lifecycle.dfy) ties the runner to the store. When the record
  is not deleted during the loop, replaying the issued updates through
  `update_task` gives exactly the store `ProcessFile` leaves. The download
  decision that follows is stated from that store.

The runner's concurrency becomes three inputs. `finishTick` is the first
loop tick whose done-check sees the external call finished. `vanish` is the
tick during whose sleep another request deletes the record, if any.
`outcome` is what awaiting the call yields: success, a reported failure, or
an exception with its message. The progress after `t` of `n` ticks is
`t * 99 / n` in integer arithmetic.

## Model

| member | source | states |
|---|---|---|
| Models.KindOf | back-end/models.py:10-16 | the declared type of each of the seven fields, and none for any other key; what each type accepts is stated by `Models.Validate`, and that the dump holds a value of each field's type by `Models.ToFields` |
| Models.Validate | back-end/models.py:9-16 | a value is accepted for a field exactly when it has the field's type, or is an integral float for the int field, or an int for the float field; the stored value denotes the same number or string |
| Models.Default | back-end/models.py:10-16 | exactly `file_location` and `original_filename` have no default; every other default is already of its field's type |
| Models.FieldValue | back-end/models.py:9-16 | a field that validates, given or defaulted, holds a value of its declared type |
| Models.ValidateFields | back-end/models.py:9-16 | validation of a list of fields succeeds iff each one succeeds, and then yields exactly those fields with their validated values |
| Models.ToFields | back-end/models.py:9-16 | a record's dump has exactly the seven fields, each of its declared type |
| Models.FromFields | back-end/models.py:9-16 | `TaskData(**fields)`: builds the record or reports the first field that fails; its meaning is stated by `Models.FromFieldsMeaning`, `Models.DumpRoundTrip` and `Models.UnknownKeysIgnored` |
| Models.FromFieldsMeaning | back-end/models.py:9-16 | building a record from a dictionary succeeds iff both required fields are present and every field given validates; each field is then the validated given value or, when absent, its default |
| Models.DumpRoundTrip | back-end/storage.py:48-51 | dumping a record and building it again gives back the same record, whatever the factories would produce |
| Models.DumpInjective | back-end/models.py:9-16 | two records with the same dump are equal |
| Models.UnknownKeysIgnored | back-end/models.py:9-16 | adding a key that is not a field does not change the build result |
| Models.FreshRecordDefaults | back-end/models.py:10-16 | a record built from location and filename alone has the generated id and time, status "pending", progress 0 and no error message |
| Storage.Lookup | back-end/storage.py:40-41 | the result is present iff the id is stored, and is then the stored record |
| Storage.Merge | back-end/storage.py:48-51 | dump, overlay with the update, rebuild; its meaning is stated by `Storage.MergeMeaning` and `Storage.CanonicalMerge` |
| Storage.MergeMeaning | back-end/storage.py:48-51 | merging an update succeeds iff every field it names validates; fields named take the validated new value, all others keep the old one |
| Storage.CanonicalMerge | back-end/storage.py:48-51 | an update whose values already have their fields' types yields the old record with exactly those fields replaced |
| Storage.UpdateSpec | back-end/storage.py:43-57 | an update never adds or removes keys and changes no entry but the one updated; an unknown id changes nothing and yields `None`; otherwise the result is what is stored afterwards |
| Storage.UpdateMeaning | back-end/storage.py:43-57 | on a stored id, a valid update sets exactly the named fields; an invalid one leaves the map unchanged and returns the old record |
| Storage.StoredUnderOriginalKey | back-end/storage.py:52 | an update that changes `task_id` keeps the record under its old key and creates no entry under the new id |
| Storage.ApplyAll | back-end/storage.py:43-57 | a sequence of updates on one id keeps the key set and every other entry |
| Storage.ApplyAllKeepsField | back-end/storage.py:43-57 | updates that never name a field leave that field as it was |
| Storage.InMemoryTaskStorage.constructor | back-end/storage.py:20-21 | a new store is empty |
| Storage.InMemoryTaskStorage.Initialize | back-end/storage.py:23-25 | initializing empties the store |
| Storage.InMemoryTaskStorage.Close | back-end/storage.py:27-29 | closing changes nothing |
| Storage.InMemoryTaskStorage.CreateTask | back-end/storage.py:31-38 | the new record has the generated id and time, status "pending", progress 0, no error message and the given location and filename; it is stored under its id and nothing else changes |
| Storage.InMemoryTaskStorage.GetTask | back-end/storage.py:40-41 | the result is present iff the id is stored, and is then the stored record |
| Storage.InMemoryTaskStorage.UpdateTask | back-end/storage.py:43-57 | the new map and the result are those `UpdateSpec` describes: validated merge swapped in, or old record kept when the merge fails, or `None` for an unknown id |
| Utils.SplitExt | back-end/utils.py:33 | base and extension concatenate to the path; a non-empty extension starts with its only dot and holds no '/'; there is one iff the final component has a dot after a non-dot character |
| Utils.Join | back-end/utils.py:35 | POSIX `os.path.join` of a directory and one name; what a caller can observe of it is stated by `Utils.JoinShape` and `Utils.JoinInjective` |
| Utils.JoinShape | back-end/utils.py:35 | an absolute name is the whole result; a relative name ends the result, which starts with the directory and adds at most one character between them, and the name follows a '/' whenever the directory is not empty |
| Utils.JoinInjective | back-end/utils.py:35 | joining one directory with two different relative names gives different paths |
| Utils.CandidateName | back-end/utils.py:34-38 | every candidate name starts with the timestamp and ends with the extension |
| Utils.CandidatesDistinct | back-end/utils.py:36-40 | different counters give different candidate paths, so the probe never retries a path |
| Utils.TriedGrows | back-end/utils.py:36-40 | each probe adds a new path to those already tried |
| Utils.CandidateShape | back-end/utils.py:31-41 | every candidate lies under the directory and ends with the original extension |
| Utils.GetTimestampedFilepath | back-end/utils.py:31-41 | the path returned does not exist; it is candidate `n` for some `n` no larger than the number of existing paths, and candidates `0 .. n-1` all exist |
| Utils.SplitExtOf | back-end/utils.py:33 | a path made of a base starting with a non-dot character and an extension of one dot and no other dot, with no '/', splits into exactly that base and extension |
| Utils.SplitExtMyfile | back-end/tests/test_utils.py:73-74 | "myfile.txt" splits into "myfile" and ".txt" |
| Utils.SplitExtReport | back-end/tests/test_utils.py:87-89 | "report.docx" splits into "report" and ".docx" |
| Utils.SplitExtData | back-end/tests/test_utils.py:112-115 | "data.csv" splits into "data" and ".csv" |
| Utils.SplitExtDotfile | back-end/utils.py:33 | a name with only a leading dot has no extension |
| Utils.MyfileName | back-end/tests/test_utils.py:73-74 | the first candidate for "myfile.txt" at 1678886400 is "1678886400_myfile.txt" |
| Utils.ReportName | back-end/tests/test_utils.py:92 | candidate 1 for "report.docx" at 1678886400 is "1678886400_report_1.docx" |
| Utils.DataName | back-end/tests/test_utils.py:117 | candidate 2 for "data.csv" at 1678886400 is "1678886400_data_2.csv" |
| Utils.NoCollisionScenario | back-end/tests/test_utils.py:66-79 | with nothing existing, the plain timestamped name is chosen |
| Utils.OneCollisionScenario | back-end/tests/test_utils.py:82-104 | at 1678886400, when the plain name exists, the path chosen is the directory joined with "1678886400_report_1.docx" |
| Utils.TwoCollisionsScenario | back-end/tests/test_utils.py:107-128 | at 1678886400, when the plain name and counter 1 exist, the path chosen is the directory joined with "1678886400_data_2.csv" |
| Server.ExternalServiceStub | back-end/server.py:98-121 | the deployed call always reports success; its consequence for a run is stated by `Lifecycle.StubbedRunCompletes` |
| Server.Ticks | back-end/server.py:176 | the loop runs exactly `processing_steps` times when that is positive and exactly once otherwise |
| Server.Progress | back-end/server.py:191 | the progress after `t` of `n` ticks, `t * 99 / n`; its bounds and monotonicity are stated by `Server.ProgressBounds` |
| Server.ProgressBounds | back-end/server.py:191 | progress is 0 before any tick, 99 after the last one, always in 0..99 and never decreasing |
| Server.ProgressUpdates | back-end/server.py:185-201 | `k` ticks issue exactly `k` progress writes |
| Server.ProgressUpdatesAt | back-end/server.py:191-201 | the `i`-th progress write carries the progress after `i + 1` ticks |
| Server.FinalRecord | back-end/server.py:204-224 | a run keeps id, location, filename and creation time; the record is "complete" at 100 with no error message iff the call succeeded; a raising call leaves "error" with its message, a reported failure leaves "processing" with the error message as it was; progress is always in 0..100 |
| Server.Issued | back-end/server.py:152-224 | a run issues updates iff the task exists at its start, and the first is the "processing"/0 start update |
| Server.IssuedSplit | back-end/server.py:185-224 | a run's updates are the start update, at most one progress write per tick, then at most one "complete" or "error" update |
| Server.RunnerProgress | back-end/server.py:185-201 | there are at most `max(1, processing_steps)` progress writes; the `j`-th carries the progress after `j` ticks, lies in 0..99, and later writes never carry less |
| Server.RunnerStatusWrites | back-end/server.py:163-224 | after the start update only the last update may set a status, and then it sets "complete" or "error" |
| Server.RunnerCompletes | back-end/server.py:204-216 | a run ends with the "complete" update iff the task existed, the call succeeded and the record did not vanish during the loop; no earlier update is "complete" |
| Server.RunnerVanishes | back-end/server.py:192-200 | when the record vanishes at tick `v`, nothing is "complete"; one update follows the progress writes iff the call raised just before that tick, and it is "error" with the progress computed at tick `v` |
| Server.RunnerRaises | back-end/server.py:218-224 | when the call raises and the record stays, the last update is "error" with the exception's text and the last progress written before it |
| Server.RunnerFails | back-end/server.py:210-212 | when the call reports failure, nothing but progress writes follows the start update |
| Server.ProcessFile | back-end/server.py:152-224 | the updates returned are exactly `Issued`; an unknown task is left alone; a task deleted during the loop stays deleted with everything else unchanged; otherwise the record becomes `FinalRecord` and no other entry changes |
| Server.PollTicks | back-end/server.py:185-202 | the loop is abandoned iff the record vanishes at a tick it reaches; it issues one progress write per completed tick and leaves the record at the last progress, or deleted when abandoned |
| Server.Tick | back-end/server.py:188-201 | one tick computes the progress after `i + 1` ticks; the record is gone iff it was deleted during that sleep, otherwise only its progress changes |
| Server.IssueAbsent | back-end/server.py:220-224 | the error handler's update on a deleted id changes nothing |
| Server.DownloadDecision | back-end/server.py:270-281 | the file is served, under its original name, iff the task exists, is "complete" and its non-empty location exists; a missing task or file is 404 and an unfinished task 400 with its status |
| Server.HealthCheck | back-end/server.py:283-288 | both answers carry a message; "status": "initializing" appears iff no task manager is ready, "storage_type": "in_memory" iff one is |
| Lifecycle.IssuedWellFormed | back-end/server.py:152-224 | every update a run issues passes validation and names only status, progress and error message |
| Lifecycle.AfterProgress | back-end/server.py:185-201 | progress writes over a record at 0 leave it at the progress of the last tick written and change nothing else |
| Lifecycle.AfterLoop | back-end/server.py:163-201 | the start update and `k` progress writes leave the record "processing" at the progress after `k` ticks |
| Lifecycle.ReplaySucceeded | back-end/server.py:204-216 | replaying a successful run leaves the record "complete" at 100 with no error message, other fields unchanged |
| Lifecycle.ReplayRaised | back-end/server.py:218-224 | replaying a run whose call raised leaves the record "error" with the message and the last progress |
| Lifecycle.ReplayFailed | back-end/server.py:210-212 | replaying a run whose call reported failure leaves the record "processing" at the last progress written |
| Lifecycle.ReplayIssued | back-end/server.py:152-224 | when the record is not deleted during the loop, replaying through `update_task` the updates a run issued gives exactly the store the run leaves |
| Lifecycle.StubbedRunCompletes | back-end/server.py:98-121 | with the deployed stub as the external call, every run on a record that stays ends "complete" at 100 |
| Lifecycle.DownloadAfterRun | back-end/server.py:270-281 | after a run, the download serves the file iff the call succeeded and the stored location is non-empty and exists; after a failed or raising run it answers 400 with the status left |
| Lifecycle.DownloadAfterVanish | back-end/server.py:273-275 | after the record is deleted, the download answers 404 "Task not found" |

## Left out

- Concurrency: the event loop, `asyncio.create_task`, `sleep` and cancellation are not modelled. Three inputs decide what they would: when the call is seen done, when the record is deleted, and how the call ends.
- Deleting a task: the store has no delete operation. A deletion by another request during a tick's sleep is modelled by `Tick` removing the entry.
- The final await's cancellation branch (back-end/server.py:206-208) is not modelled. Nothing but the runner itself cancels the call, and the runner returns right after doing so.
- Server.Progress: the float expression `int(((i + 1) / n) * 99)` is modelled as exact integer division `(i + 1) * 99 / n`. The two can differ by one: with 11 ticks, tick 3 gives 26 in IEEE doubles and 27 here. The 0..99 bounds and the never-decreasing order hold for both.
- Server.ExternalServiceStub: the payload, the 0.1-second delay, the canned response data and the log lines are left out. The commented-out real HTTP call, with its own error write, is not part of this model, so a reported failure (`Failed`) issues no update.
- Pydantic's lax coercions: numeric strings, booleans and other types accepted by int, float and str fields are not modelled. Only int, integral float, float, str and None values exist.
- The uuid and clock calls are inputs (`Generated`, `timestamp`). The file system is a set of existing paths (`existing`).
- The FastAPI layer is not part of this model: routing, CORS, the upload and status endpoints, file copying, `get_task_manager` and its 503, and JSON responses.
- The configuration and CLI loaders, the settings object, constants.py, the Beanie `Task` document and every `print` are not part of this model.
- Server.HealthCheck follows the code: the running answer carries `storage_type`, not a status of "running".
- Server.RunnerRaises: the error message is `str(e)`, which may be empty, so a non-empty message is not promised.
- Server.ProcessFile: a deletion is modelled only during a tick's sleep. A deletion while the runner waits at the final await (back-end/server.py:205), after the loop, is not modelled. In that run the code issues its "complete" or "error" update on the missing id, which changes nothing, and the record stays deleted; the model instead ends with `FinalRecord` whenever the record survives the loop.
- A reported failure leaves the task "processing" at its last progress (`FinalRecord`). The code writes no terminal status in that case.
- Utils.SplitExt models POSIX paths only ('/' as the sole separator). Windows drive letters and '\\' are not modelled.
