# retask task service, modelled in Dafny

This project models the task service of the retask back end
(`TaskService.java`). In retask a user owns tasks. Each task spans the days
`startDate` to `endDate`. The user marks a task complete on a given day,
and that completion is stored as a `TaskStatus` row. The service runs over
four repositories:

- tasks;
- task statuses (one row per completion and day);
- user-task links, which record who owns a task;
- uploads, which are attached to a task by the owner type `"task"` and the
  task's id.

The model is built from these modules:

- `Seqs` (`seqs.dfy`) holds the generic sequence operations the tables are
  built from: order-preserving `Filter`, `RemoveFirst`, `Concat` and `Sum`.
- `Entities` (`entities.dfy`) holds the rows and the request/response
  records. Dates are whole day numbers.
- `Repositories` (`repositories.dfy`) holds the repository queries the
  service issues, written over in-memory tables kept in store order. It
  also defines the table invariant `TablesValid`.
- `TaskSpec` (`task_spec.dfy`) and `ChangeSpec` (`change_spec.dfy`) hold
  specification functions. These say what each query returns, and what
  each changing operation answers and leaves in the tables. The properties
  the service promises are proved about them as lemmas.
- `Service` (`task_service.dfy`) holds the class `TaskService`. Its fields
  are the four tables plus the next id the store hands out. Its methods
  follow the Java code loop by loop. Each method is proved to compute
  exactly its specification function, and the changing methods are proved
  to keep `Valid()`.

A missing task is dereferenced in the original, which fails there. The
model makes it an explicit error, `Failure(TaskNotFound)`, and changes
nothing.

## Model

All source paths are under `src/main/java/com/retask/game/services/`.

| member | source | states |
|---|---|---|
| Repositories.FindTaskById | src/main/java/com/retask/game/services/TaskService.java:55 | The task found for an id is a table row with that id. Nothing is found exactly when no row has that id. |
| Repositories.FindTaskByUserDate | src/main/java/com/retask/game/services/TaskService.java:251 | Exactly the rows of the user whose days `[startDate, endDate]` meet the range. |
| Repositories.FindTaskStatusByTaskId | src/main/java/com/retask/game/services/TaskService.java:61-62 | Exactly the completions of the task that fall on a day of the range. |
| Repositories.FindStatusesByTaskId | src/main/java/com/retask/game/services/TaskService.java:467 | Exactly the completions of the task, on any day. |
| Repositories.FindUserTasksByTaskId | src/main/java/com/retask/game/services/TaskService.java:475 | Exactly the ownership links of the task. |
| Repositories.FindUserTasksByUsername | src/main/java/com/retask/game/services/TaskService.java:144 | Exactly the ownership links of the user. |
| Repositories.FindBySourceTypeAndId | src/main/java/com/retask/game/services/TaskService.java:261 | Exactly the uploads attached to the given owner type and id. |
| ChangeSpec.OwnerChecked | src/main/java/com/retask/game/services/TaskService.java:86-90 | Both complete and uncomplete answer `true` exactly when the task exists and is the caller's. They fail exactly when the task is missing. Otherwise the status table is unchanged. This mirrors the owner check of unCompleteTask at lines 55-59. |
| ChangeSpec.CompleteMarksDay | src/main/java/com/retask/game/services/TaskService.java:92-110 | After the owner completes the task, it has exactly one completion that day. The table keeps no duplicates and gains that one row, unless the row was already there. |
| ChangeSpec.UnCompleteClearsDay | src/main/java/com/retask/game/services/TaskService.java:61-71 | After the owner uncompletes the task, it has no completion that day. Exactly that row is removed. |
| ChangeSpec.CompleteIdempotent | src/main/java/com/retask/game/services/TaskService.java:92-98 | A second complete gives the same answer and leaves the table as the first one did. |
| ChangeSpec.UnCompleteIdempotent | src/main/java/com/retask/game/services/TaskService.java:61-67 | A second uncomplete gives the same answer and leaves the table as the first one did, given a table without duplicate rows. |
| ChangeSpec.CompleteThenUnComplete | src/main/java/com/retask/game/services/TaskService.java:51-111 | Uncompleting a task just completed on a day when it was open restores the status table exactly. |
| ChangeSpec.CompleteKeepsValid | src/main/java/com/retask/game/services/TaskService.java:82-111 | Completing preserves the table invariant. |
| ChangeSpec.UnCompleteKeepsValid | src/main/java/com/retask/game/services/TaskService.java:51-72 | Uncompleting preserves the table invariant. |
| ChangeSpec.DeleteCascades | src/main/java/com/retask/game/services/TaskService.java:459-486 | When the owner deletes a task, the answer is `true`. No task row, completion or link of that id is left. Every other id finds the same task, completions and links as before. |
| ChangeSpec.DeleteKeepsValid | src/main/java/com/retask/game/services/TaskService.java:459-486 | Deleting preserves the table invariant. |
| TaskSpec.QueryTasks | src/main/java/com/retask/game/services/TaskService.java:251-283 | getTasks lists, in store order, exactly the overlapping tasks that are open (or completed) over the range. |
| TaskSpec.TasksQueryStep | src/main/java/com/retask/game/services/TaskService.java:261-282 | One loop step of getTasks adds the task's response exactly when the task's completion state is the one asked for. That response carries the uploads, the completions in the range, the due day and the completed flag. |
| TaskSpec.WantedResponsesSnoc | src/main/java/com/retask/game/services/TaskService.java:258-283 | One more listed task adds its response exactly when its completion state matches the one asked for. |
| TaskSpec.OpenCompletePartition | src/main/java/com/retask/game/services/TaskService.java:273-282 | The open and completed results of one range split the overlapping tasks. Nothing is lost and nothing is in both. A task is open exactly when it has no completion in the range. |
| TaskSpec.TasksQueryResponses | src/main/java/com/retask/game/services/TaskService.java:261-282 | Every getTasks response is due on the range's first day. It carries the task's uploads and its completions in the range. It is marked completed exactly when it comes from the completed query. Its completion list is empty exactly for open results. |
| TaskSpec.ByDateIsOpenPlusCompleted | src/main/java/com/retask/game/services/TaskService.java:303-320 | getTasksbyUsernamebydate lists all overlapping tasks in store order. Each is due on the first day, carries its uploads and has no completion data. As a multiset this is the open result plus the completed result. |
| TaskSpec.DateRangePerDay | src/main/java/com/retask/game/services/TaskService.java:187-201 | The date-range result runs one single-day query for each day from start to end, both included, and none for an empty range. |
| TaskSpec.PerDayMembers | src/main/java/com/retask/game/services/TaskService.java:192-201 | A response is in the concatenation of the first `n` days exactly when it is in one of those days' results. |
| TaskSpec.DateRangeMembers | src/main/java/com/retask/game/services/TaskService.java:192-201 | A response is in the date-range result exactly when some day of the range lists it. |
| TaskSpec.PerDayTasks | src/main/java/com/retask/game/services/TaskService.java:192-201 | The tasks of the first `n` days' results are those days' wanted tasks, concatenated day by day. |
| TaskSpec.DayTasksCount | src/main/java/com/retask/game/services/TaskService.java:251-283 | A single-day result holds a task as often as the table does when the task qualifies that day, and never otherwise. |
| TaskSpec.ConcatDayTasksCount | src/main/java/com/retask/game/services/TaskService.java:192-201 | Across `n` days, a task of a duplicate-free table is listed once per day it qualifies. |
| TaskSpec.DateRangeTasks | src/main/java/com/retask/game/services/TaskService.java:192-201 | The tasks of the date-range result are the single-day tasks of each day of the range, in day order. |
| TaskSpec.DateRangeCount | src/main/java/com/retask/game/services/TaskService.java:187-201 | Completion is judged day by day. So a table task appears in the date-range result once per day of the range on which it qualifies, and any other task never appears. |
| TaskSpec.LinkedResponsesStep | src/main/java/com/retask/game/services/TaskService.java:150-160 | Each further link adds its task's response when that task is found. |
| TaskSpec.LinkedResponsesAllFound | src/main/java/com/retask/game/services/TaskService.java:150-160 | When every link's task is found, there is one response per link, in link order, about that link's task. |
| TaskSpec.LinkedResponsesOwned | src/main/java/com/retask/game/services/TaskService.java:150-160 | When the links point at the user's own tasks, the i-th response is the user's task of the i-th link and carries that id's uploads. |
| TaskSpec.ByUsernameOwned | src/main/java/com/retask/game/services/TaskService.java:142-163 | Under the link invariant, getTasksbyUsername answers once per link of the user, in link order. Each task it returns is a table row owned by the user. |
| TaskSpec.CreatedUploadIds | src/main/java/com/retask/game/services/TaskService.java:363-373 | Every created upload has owner type `"task"` and one of the new ids. |
| TaskSpec.CreatedUploadsOf | src/main/java/com/retask/game/services/TaskService.java:363-373 | Among the created uploads, those attached to the i-th new id are exactly the i-th request's uploads, in order. |
| TaskSpec.CreateIgnoresRequestIds | src/main/java/com/retask/game/services/TaskService.java:349 | Requests that differ only in the id the client supplied create identical rows, so a supplied id is never used. |
| TaskSpec.CreateOneKeepsValid | src/main/java/com/retask/game/services/TaskService.java:344-373 | Saving one task under the next id, with its link and uploads, preserves the table invariant. |
| TaskSpec.AfterCreateSnoc | src/main/java/com/retask/game/services/TaskService.java:338-374 | Creating a list of tasks is creating all but the last and then the last one. |
| TaskSpec.CreateKeepsValid | src/main/java/com/retask/game/services/TaskService.java:338-377 | Creating any list of tasks preserves the table invariant, with the next id advanced by the number of requests. |
| TaskSpec.CreatedTaskFound | src/main/java/com/retask/game/services/TaskService.java:344-373 | Each new id was unused before. Afterwards it finds the task built from its request and owned by the user, exactly one ownership link and exactly that request's uploads. |
| TaskSpec.CreatedTaskRow | src/main/java/com/retask/game/services/TaskService.java:344-351 | The i-th new id finds the task built from the i-th request. |
| TaskSpec.CreatedUniqueIds | src/main/java/com/retask/game/services/TaskService.java:349-351 | Ids remain unique after creation. |
| TaskSpec.CreatedNoStatus | src/main/java/com/retask/game/services/TaskService.java:349-351 | An id not yet handed out has no completion. |
| TaskSpec.CreatedLinkFound | src/main/java/com/retask/game/services/TaskService.java:354-360 | The i-th new id has exactly one ownership link, the creating user's. |
| TaskSpec.CreatedUploadsFound | src/main/java/com/retask/game/services/TaskService.java:363-373 | The i-th new id finds exactly the i-th request's uploads, re-attached to it. |
| Service.TaskService.constructor | src/main/java/com/retask/game/services/TaskService.java:30-41 | A service over empty repositories satisfies the table invariant. |
| Service.TaskService.UnCompleteTask | src/main/java/com/retask/game/services/TaskService.java:51-72 | The answer and the new status table are those of `UnComplete`, and nothing else changes. On `true`, the task has no completion that day. The invariant is kept. |
| Service.TaskService.CompleteTask | src/main/java/com/retask/game/services/TaskService.java:82-111 | The answer and the new status table are those of `Complete`, and nothing else changes. On `true`, the task has exactly one completion that day. The invariant is kept. |
| Service.TaskService.CreateTasksForUsername | src/main/java/com/retask/game/services/TaskService.java:332-377 | The method answers `true`. The task, link and upload tables become `AfterCreate` of the old ones, the next id advances by the number of requests, and statuses are untouched. The invariant is kept. |
| Service.TaskService.SaveUploads | src/main/java/com/retask/game/services/TaskService.java:363-373 | Saving a request's uploads one by one appends exactly those uploads, in order, each re-attached as `"task"` to the new id. Nothing else changes. |
| Service.TaskService.DeleteTask | src/main/java/com/retask/game/services/TaskService.java:459-486 | The answer and the new task, status and link tables are those of `Delete`. Uploads and the next id are untouched. The invariant is kept. |
| Service.TaskService.DeleteStatusesOf | src/main/java/com/retask/game/services/TaskService.java:467-473 | Deleting the found completions one by one leaves exactly the completions of other tasks, and nothing else changes. |
| Service.TaskService.DeleteLinksOf | src/main/java/com/retask/game/services/TaskService.java:475-481 | Deleting the found links one by one leaves exactly the links of other tasks, and nothing else changes. |
| Service.TaskService.GetTasks | src/main/java/com/retask/game/services/TaskService.java:243-286 | The loop's result is `TasksQuery` of the current tables. |
| Service.TaskService.GetCompleteTasks | src/main/java/com/retask/game/services/TaskService.java:213-218 | The result is the completed-task query. |
| Service.TaskService.GetOpenTasks | src/main/java/com/retask/game/services/TaskService.java:227-231 | The result is the open-task query. |
| Service.TaskService.GetTasksByDateRange | src/main/java/com/retask/game/services/TaskService.java:174-204 | The loop of single-day getTasks calls computes `TasksByDateRange`. |
| Service.TaskService.GetTasksByUsernameByDate | src/main/java/com/retask/game/services/TaskService.java:295-323 | The loop's result is `TasksByUsernameByDate`. |
| Service.TaskService.GetTasksByUsername | src/main/java/com/retask/game/services/TaskService.java:142-163 | The loop's result is `TasksByUsername`. |

## Left out

- **Date parsing and formatting.** `SimpleDateFormat`, time zones and `LocalDate` arithmetic are not modelled; dates are day numbers. A malformed date string raises a parse error in the original, and that path is not modelled.
- **Timestamps and logging.** Create and update timestamps (`setCreateDateTime`, `setUpdateDateTime`) and the `System.out.println` calls are left out, because they do not affect any answer.
- **`toolsService.daysBetweenDates`.** `ToolsService` is not part of this model. `DaysBetween` assumes it is the plain difference `e - s`, which is what makes the range loop cover start to end inclusive.
- **Row order.** Each repository is assumed to return rows in table (insertion) order. The stores in the original give no order guarantee.
- **`gettask` (lines 119-133)** is left out. It returns the task whatever the owner check finds, and the response it builds is discarded.
- **Both `updateTasksForUsername` overloads (lines 386-457)** are left out of this model.
- **Transactions, concurrency and partial failure.** A store error in the middle of `createTasksForUsername` or `deleteTask` would leave earlier steps committed. The model has no store errors.
- **The missing-task dereference.** Where the original dereferences a missing task, the model returns `Failure(TaskNotFound)` and changes nothing.
- **Upload handling.** The original mutates the request's own `Upload` objects and gives them store ids. The model appends re-attached copies and does not model upload ids.
- **Uploads on delete.** `deleteTask` leaves a deleted task's uploads in the upload table, and so does the model.
- **The Java `int` counter.** Overflow of the `int` loop counter against the `long` day count in `getTasksByDateRange` is not modelled; integers are unbounded.
- **The task behind a link.** getTasksbyUsername reads `userTask.getTask()`, an entity relation. The model looks the id up with `FindTaskById` and skips a link whose task is missing. Under the table invariant that never happens (`TaskSpec.ByUsernameOwned`).
- TaskSpec.CreatedTaskFound: does not itself restate that a new id has no completion; `TaskSpec.CreatedNoStatus` states that fact separately.
