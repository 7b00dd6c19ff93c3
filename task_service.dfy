/** The task service itself: an object over the four repository tables whose
    operations read and change them step by step, each proved to compute
    what the specification functions of `TaskSpec` and `ChangeSpec` say. */
module Service {
  import opened Seqs
  import opened Entities
  import opened Repositories
  import opened TaskSpec
  import opened ChangeSpec

  class TaskService {
    /** The task, task status, user-task link and upload repositories. */
    var tasks: seq<Task>
    var statuses: seq<TaskStatus>
    var userTasks: seq<UserTask>
    var uploads: seq<Upload>
    /** The id the task store hands out on its next insert. */
    var nextId: int

    ghost predicate Valid()
      reads this
    {
      TablesValid(tasks, statuses, userTasks, uploads, nextId)
    }

    /** A service over empty repositories. */
    constructor ()
      ensures Valid()
      ensures tasks == [] && statuses == [] && userTasks == [] && uploads == []
    {
      tasks := [];
      statuses := [];
      userTasks := [];
      uploads := [];
      nextId := 1;
    }

    // -------------------------------------------------------------------
    // Operations that change the tables
    // -------------------------------------------------------------------

    /** `unCompleteTask`: deletes the first completion of the caller's task on
        `day`, if there is one. */
    method UnCompleteTask(username: string, taskId: int, day: Day) returns (r: Result<bool>)
      requires Valid()
      modifies this
      ensures (r, statuses) == UnComplete(old(tasks), old(statuses), username, taskId, day)
      ensures tasks == old(tasks) && userTasks == old(userTasks) && uploads == old(uploads) && nextId == old(nextId)
      ensures r == Success(true) ==> FindTaskStatusByTaskId(statuses, taskId, day, day) == []
      ensures Valid()
    {
      ghost var after := UnComplete(tasks, statuses, username, taskId, day);
      assert TablesValid(tasks, after.1, userTasks, uploads, nextId) by {
        UnCompleteKeepsValid(tasks, statuses, userTasks, uploads, nextId, username, taskId, day);
      }
      assert after.0 == Success(true) ==> FindTaskStatusByTaskId(after.1, taskId, day, day) == [] by {
        if OwnedBy(tasks, taskId, username) {
          UnCompleteClearsDay(tasks, statuses, username, taskId, day);
        }
      }
      var task := FindTaskById(tasks, taskId);
      if task.None? {
        return Failure(TaskNotFound);
      }
      if task.value.username != username {
        return Success(false);
      }
      var found := FindTaskStatusByTaskId(statuses, taskId, day, day);
      if found == [] {
        return Success(true);
      }
      statuses := RemoveFirst(statuses, found[0]);
      return Success(true);
    }

    /** `completeTask`: records that the caller's task was done on `day`,
        unless that is already recorded. */
    method CompleteTask(username: string, taskId: int, day: Day) returns (r: Result<bool>)
      requires Valid()
      modifies this
      ensures (r, statuses) == Complete(old(tasks), old(statuses), username, taskId, day)
      ensures tasks == old(tasks) && userTasks == old(userTasks) && uploads == old(uploads) && nextId == old(nextId)
      ensures r == Success(true) ==> FindTaskStatusByTaskId(statuses, taskId, day, day) == [TaskStatus(taskId, day)]
      ensures Valid()
    {
      ghost var after := Complete(tasks, statuses, username, taskId, day);
      assert TablesValid(tasks, after.1, userTasks, uploads, nextId) by {
        CompleteKeepsValid(tasks, statuses, userTasks, uploads, nextId, username, taskId, day);
      }
      assert after.0 == Success(true) ==> FindTaskStatusByTaskId(after.1, taskId, day, day) == [TaskStatus(taskId, day)] by {
        if OwnedBy(tasks, taskId, username) {
          CompleteMarksDay(tasks, statuses, username, taskId, day);
        }
      }
      var task := FindTaskById(tasks, taskId);
      if task.None? {
        return Failure(TaskNotFound);
      }
      if task.value.username != username {
        return Success(false);
      }
      var found := FindTaskStatusByTaskId(statuses, taskId, day, day);
      if found != [] {
        return Success(true);
      }
      statuses := statuses + [TaskStatus(taskId, day)];
      return Success(true);
    }

    /** `createTasksForUsername`: saves one task per request under a fresh id,
        owned by `username`, links it to the user and re-attaches the request's
        uploads to it. */
    method CreateTasksForUsername(requests: seq<TaskRequest>, username: string) returns (r: bool)
      requires Valid()
      modifies this
      ensures r
      ensures var after := AfterCreate(old(tasks), old(userTasks), old(uploads), old(nextId), requests, username);
              tasks == after.0 && userTasks == after.1 && uploads == after.2
      ensures statuses == old(statuses) && nextId == old(nextId) + |requests|
      ensures Valid()
    {
      CreateKeepsValid(tasks, statuses, userTasks, uploads, nextId, requests, username);
      var i := 0;
      while i < |requests|
        invariant 0 <= i <= |requests|
        invariant var after := AfterCreate(old(tasks), old(userTasks), old(uploads), old(nextId), requests[..i], username);
                  tasks == after.0 && userTasks == after.1 && uploads == after.2
        invariant statuses == old(statuses) && nextId == old(nextId) + i
      {
        var request := requests[i];
        // whatever id the request carries, the store assigns the next one
        var id := nextId;
        tasks := tasks + [NewTask(request, id, username)];
        nextId := nextId + 1;
        userTasks := userTasks + [UserTask(username, id)];
        SaveUploads(request.uploads, id);
        assert requests[..i + 1][..i] == requests[..i];
        AfterCreateSnoc(old(tasks), old(userTasks), old(uploads), old(nextId), requests[..i + 1], username);
        i := i + 1;
      }
      assert requests[..i] == requests;
      return true;
    }

    /** Saves the uploads of one request, in order, each re-attached to task `id`. */
    method SaveUploads(requestUploads: seq<Upload>, id: int)
      modifies this
      ensures uploads == old(uploads) + Attach(requestUploads, id)
      ensures tasks == old(tasks) && statuses == old(statuses) && userTasks == old(userTasks) && nextId == old(nextId)
    {
      var j := 0;
      while j < |requestUploads|
        invariant 0 <= j <= |requestUploads|
        invariant uploads == old(uploads) + Attach(requestUploads[..j], id)
        invariant tasks == old(tasks) && statuses == old(statuses) && userTasks == old(userTasks) && nextId == old(nextId)
      {
        AttachSnoc(requestUploads[..j], requestUploads[j], id);
        assert requestUploads[..j + 1] == requestUploads[..j] + [requestUploads[j]];
        uploads := uploads + [requestUploads[j].(uploadableType := TASK_TYPE, uploadableId := id)];
        j := j + 1;
      }
      assert requestUploads[..j] == requestUploads;
    }

    /** `deleteTask`: deletes the caller's task together with every completion
        and every ownership link of its id. */
    method DeleteTask(username: string, taskId: int) returns (r: Result<bool>)
      requires Valid()
      modifies this
      ensures (r, tasks, statuses, userTasks) == Delete(old(tasks), old(statuses), old(userTasks), username, taskId)
      ensures uploads == old(uploads) && nextId == old(nextId)
      ensures Valid()
    {
      DeleteKeepsValid(tasks, statuses, userTasks, uploads, nextId, username, taskId);
      var task := FindTaskById(tasks, taskId);
      if task.None? {
        return Failure(TaskNotFound);
      }
      if task.value.username != username {
        return Success(false);
      }
      DeleteStatusesOf(taskId);
      DeleteLinksOf(taskId);
      DeleteTaskRow(tasks, task.value);
      tasks := RemoveFirst(tasks, task.value);
      return Success(true);
    }

    /** Deletes, one by one, every completion of task `taskId`. */
    method DeleteStatusesOf(taskId: int)
      modifies this
      ensures statuses == Filter(old(statuses), StatusNotOf(taskId))
      ensures tasks == old(tasks) && userTasks == old(userTasks) && uploads == old(uploads) && nextId == old(nextId)
    {
      var taskStatuses := FindStatusesByTaskId(statuses, taskId);
      var k := 0;
      while k < |taskStatuses|
        invariant 0 <= k <= |taskStatuses|
        invariant Filter(statuses, StatusOf(taskId)) == taskStatuses[k..]
        invariant Filter(statuses, StatusNotOf(taskId)) == Filter(old(statuses), StatusNotOf(taskId))
        invariant tasks == old(tasks) && userTasks == old(userTasks) && uploads == old(uploads) && nextId == old(nextId)
      {
        RemoveFirstSelected(statuses, taskStatuses[k], StatusOf(taskId), StatusNotOf(taskId));
        statuses := RemoveFirst(statuses, taskStatuses[k]);
        k := k + 1;
      }
      ComplementKeepsAll(statuses, StatusOf(taskId), StatusNotOf(taskId));
    }

    /** Deletes, one by one, every ownership link of task `taskId`. */
    method DeleteLinksOf(taskId: int)
      modifies this
      ensures userTasks == Filter(old(userTasks), LinkNotOf(taskId))
      ensures tasks == old(tasks) && statuses == old(statuses) && uploads == old(uploads) && nextId == old(nextId)
    {
      var links := FindUserTasksByTaskId(userTasks, taskId);
      var k := 0;
      while k < |links|
        invariant 0 <= k <= |links|
        invariant Filter(userTasks, LinkOf(taskId)) == links[k..]
        invariant Filter(userTasks, LinkNotOf(taskId)) == Filter(old(userTasks), LinkNotOf(taskId))
        invariant tasks == old(tasks) && statuses == old(statuses) && uploads == old(uploads) && nextId == old(nextId)
      {
        RemoveFirstSelected(userTasks, links[k], LinkOf(taskId), LinkNotOf(taskId));
        userTasks := RemoveFirst(userTasks, links[k]);
        k := k + 1;
      }
      ComplementKeepsAll(userTasks, LinkOf(taskId), LinkNotOf(taskId));
    }

    // -------------------------------------------------------------------
    // Queries
    // -------------------------------------------------------------------

    /** `getTasks(open, username, [s, e])`. */
    method GetTasks(open: bool, username: string, s: Day, e: Day) returns (r: seq<TaskResponse>)
      ensures r == TasksQuery(open, tasks, statuses, uploads, username, s, e)
    {
      var taskList := FindTaskByUserDate(tasks, username, s, e);
      r := [];
      var k := 0;
      while k < |taskList|
        invariant 0 <= k <= |taskList|
        invariant r == DayResponses(Filter(taskList[..k], Wanted(open, statuses, s, e)), statuses, uploads, s, e, !open)
      {
        var task := taskList[k];
        var taskUploads := FindBySourceTypeAndId(uploads, TASK_TYPE, task.id);
        var taskStatus := FindTaskStatusByTaskId(statuses, task.id, s, e);
        var response := TaskResponse(task, taskUploads, Some(taskStatus), Some(s), None);
        assert taskList[..k + 1] == taskList[..k] + [task];
        TasksQueryStep(taskList[..k], taskList[..k + 1], task, open, statuses, uploads, s, e);
        if taskStatus == [] && open {
          r := r + [response.(completed := Some(false))];
        }
        if taskStatus != [] && !open {
          r := r + [response.(completed := Some(true))];
        }
        k := k + 1;
      }
      assert taskList[..k] == taskList;
    }

    /** `getCompleteTasks(username, [s, e])`. */
    method GetCompleteTasks(username: string, s: Day, e: Day) returns (r: seq<TaskResponse>)
      ensures r == TasksQuery(false, tasks, statuses, uploads, username, s, e)
    {
      r := GetTasks(false, username, s, e);
    }

    /** `getOpenTasks(username, [s, e])`. */
    method GetOpenTasks(username: string, s: Day, e: Day) returns (r: seq<TaskResponse>)
      ensures r == TasksQuery(true, tasks, statuses, uploads, username, s, e)
    {
      r := GetTasks(true, username, s, e);
    }

    /** `getTasksByDateRange(open, username, [s, e])`: `getTasks` once per day. */
    method GetTasksByDateRange(open: bool, username: string, s: Day, e: Day) returns (r: seq<TaskResponse>)
      ensures r == TasksByDateRange(open, tasks, statuses, uploads, username, s, e)
    {
      var days := DaysBetween(s, e) + 1;
      r := [];
      var i := 0;
      while i < days
        invariant 0 <= i <= RangeLength(s, e)
        invariant r == PerDay(open, tasks, statuses, uploads, username, s, i)
      {
        var day := s + i;
        var dayResponses := GetTasks(open, username, day, day);
        r := r + dayResponses;
        i := i + 1;
      }
      DateRangePerDay(open, tasks, statuses, uploads, username, s, e);
    }

    /** `getTasksbyUsernamebydate(username, [s, e])`. */
    method GetTasksByUsernameByDate(username: string, s: Day, e: Day) returns (r: seq<TaskResponse>)
      ensures r == TasksByUsernameByDate(tasks, uploads, username, s, e)
    {
      var taskList := FindTaskByUserDate(tasks, username, s, e);
      r := [];
      var k := 0;
      while k < |taskList|
        invariant 0 <= k <= |taskList|
        invariant r == DatedResponses(taskList[..k], uploads, s)
      {
        var task := taskList[k];
        var taskUploads := FindBySourceTypeAndId(uploads, TASK_TYPE, task.id);
        r := r + [TaskResponse(task, taskUploads, None, Some(s), None)];
        assert taskList[..k + 1] == taskList[..k] + [task];
        DatedResponsesSnoc(taskList[..k], task, uploads, s);
        k := k + 1;
      }
      assert taskList[..k] == taskList;
    }

    /** `getTasksbyUsername(username)`: the tasks of the user's links. */
    method GetTasksByUsername(username: string) returns (r: seq<TaskResponse>)
      ensures r == TasksByUsername(userTasks, tasks, uploads, username)
    {
      var links := FindUserTasksByUsername(userTasks, username);
      r := [];
      var k := 0;
      while k < |links|
        invariant 0 <= k <= |links|
        invariant r == LinkedResponses(links[..k], tasks, uploads)
      {
        var link := links[k];
        LinkedResponsesStep(links, tasks, uploads, k);
        var task := FindTaskById(tasks, link.taskId);
        if task.Some? {
          var taskUploads := FindBySourceTypeAndId(uploads, TASK_TYPE, link.taskId);
          r := r + [TaskResponse(task.value, taskUploads, None, None, None)];
        }
        k := k + 1;
      }
      assert links[..k] == links;
    }
  }
}
