/** The four repositories the task service talks to, as in-memory tables
    (sequences of rows, in the order the store returns them) and the queries
    the service issues against them. */
module Repositories {
  import opened Seqs
  import opened Entities

  /** `findTaskById`: the task row with id `id`, if there is one. */
  function FindTaskById(tasks: seq<Task>, id: int): (r: Option<Task>)
    ensures r.Some? ==> r.value in tasks && r.value.id == id
    ensures r.None? <==> forall t :: t in tasks ==> t.id != id
  {
    if tasks == [] then None
    else if tasks[0].id == id then Some(tasks[0])
    else FindTaskById(tasks[1..], id)
  }

  /** Task `t` belongs to `username` and its days `[startDate, endDate]`
      meet the days `[s, e]`. */
  predicate Overlaps(t: Task, username: string, s: Day, e: Day) {
    t.username == username && t.startDate <= e && s <= t.endDate
  }

  function OverlapsFor(username: string, s: Day, e: Day): Task -> bool {
    t => Overlaps(t, username, s, e)
  }

  /** `findTaskByUserDate`: the tasks of `username` that overlap `[s, e]`. */
  function FindTaskByUserDate(tasks: seq<Task>, username: string, s: Day, e: Day): (r: seq<Task>)
    ensures forall t {:trigger t in r} :: t in r <==> t in tasks && Overlaps(t, username, s, e)
  {
    Filter(tasks, OverlapsFor(username, s, e))
  }

  function InRange(id: int, s: Day, e: Day): TaskStatus -> bool {
    (st: TaskStatus) => st.taskId == id && s <= st.completeDate <= e
  }

  function OutOfRange(id: int, s: Day, e: Day): TaskStatus -> bool {
    (st: TaskStatus) => !(st.taskId == id && s <= st.completeDate <= e)
  }

  /** `findTaskStatusByTaskId(id, s, e)`: the completions of task `id` on days
      `s` to `e`. */
  function FindTaskStatusByTaskId(statuses: seq<TaskStatus>, id: int, s: Day, e: Day): (r: seq<TaskStatus>)
    ensures forall st {:trigger st in r} :: st in r <==> st in statuses && st.taskId == id && s <= st.completeDate <= e
  {
    Filter(statuses, InRange(id, s, e))
  }

  function StatusOf(id: int): TaskStatus -> bool { (st: TaskStatus) => st.taskId == id }

  function StatusNotOf(id: int): TaskStatus -> bool { (st: TaskStatus) => st.taskId != id }

  /** `TaskStatusRepository.findByTaskId`: every completion of task `id`. */
  function FindStatusesByTaskId(statuses: seq<TaskStatus>, id: int): (r: seq<TaskStatus>)
    ensures forall st {:trigger st in r} :: st in r <==> st in statuses && st.taskId == id
  {
    Filter(statuses, StatusOf(id))
  }

  function LinkOf(id: int): UserTask -> bool { (l: UserTask) => l.taskId == id }

  function LinkNotOf(id: int): UserTask -> bool { (l: UserTask) => l.taskId != id }

  function LinkFor(username: string): UserTask -> bool { (l: UserTask) => l.username == username }

  /** `UserTaskRepository.findByTaskId`: every ownership link of task `id`. */
  function FindUserTasksByTaskId(links: seq<UserTask>, id: int): (r: seq<UserTask>)
    ensures forall l {:trigger l in r} :: l in r <==> l in links && l.taskId == id
  {
    Filter(links, LinkOf(id))
  }

  /** `UserTaskRepository.findByUsername`: every ownership link of `username`. */
  function FindUserTasksByUsername(links: seq<UserTask>, username: string): (r: seq<UserTask>)
    ensures forall l {:trigger l in r} :: l in r <==> l in links && l.username == username
  {
    Filter(links, LinkFor(username))
  }

  function UploadOf(uploadableType: string, id: int): Upload -> bool {
    (u: Upload) => u.uploadableType == uploadableType && u.uploadableId == id
  }

  /** `findBySourceTypeAndId`: the uploads attached to entity (`uploadableType`, `id`). */
  function FindBySourceTypeAndId(uploads: seq<Upload>, uploadableType: string, id: int): (r: seq<Upload>)
    ensures forall u {:trigger u in r} :: u in r <==> u in uploads && u.uploadableType == uploadableType && u.uploadableId == id
  {
    Filter(uploads, UploadOf(uploadableType, id))
  }

  function TaskNotOf(id: int): Task -> bool { (t: Task) => t.id != id }

  /** Task ids identify rows: no row twice and no two rows with one id. */
  ghost predicate UniqueIds(tasks: seq<Task>) {
    && NoDuplicates(tasks)
    && forall t1, t2 :: t1 in tasks && t2 in tasks && t1.id == t2.id ==> t1 == t2
  }

  ghost predicate HasTask(tasks: seq<Task>, id: int) {
    exists t :: t in tasks && t.id == id
  }

  ghost predicate HasTaskOwnedBy(tasks: seq<Task>, id: int, username: string) {
    exists t :: t in tasks && t.id == id && t.username == username
  }

  /** What the service's operations keep true of the four tables, with
      `nextId` the id the store will hand out next: ids are unique and already
      used, every completion and every link points at an existing task (a link
      at a task of the linked user), a task is completed at most once per
      day, and no upload is yet attached to an id not handed out. */
  ghost predicate TablesValid(tasks: seq<Task>, statuses: seq<TaskStatus>, links: seq<UserTask>, uploads: seq<Upload>, nextId: int) {
    && UniqueIds(tasks)
    && (forall t :: t in tasks ==> t.id < nextId)
    && NoDuplicates(statuses)
    && (forall st :: st in statuses ==> HasTask(tasks, st.taskId))
    && (forall l :: l in links ==> HasTaskOwnedBy(tasks, l.taskId, l.username))
    && (forall u :: u in uploads && u.uploadableType == TASK_TYPE ==> u.uploadableId < nextId)
  }

  /** In a table with unique ids, the row found by id is the row owned by
      whoever owns that id. */
  lemma FindOwnedTask(tasks: seq<Task>, id: int, username: string)
    requires UniqueIds(tasks) && HasTaskOwnedBy(tasks, id, username)
    ensures FindTaskById(tasks, id).Some? && FindTaskById(tasks, id).value.username == username
  {
    var owner :| owner in tasks && owner.id == id && owner.username == username;
    assert FindTaskById(tasks, id).Some?;
  }

  /** In a table with unique ids, looking up a row's id finds that row. */
  lemma FindUniqueTask(tasks: seq<Task>, t: Task)
    requires UniqueIds(tasks) && t in tasks
    ensures FindTaskById(tasks, t.id) == Some(t)
  {
  }

  /** Deleting the row found by id from a table with unique ids removes
      exactly the rows with that id. */
  lemma {:induction false} DeleteTaskRow(tasks: seq<Task>, t: Task)
    requires UniqueIds(tasks) && t in tasks
    ensures RemoveFirst(tasks, t) == Filter(tasks, TaskNotOf(t.id))
  {
    assert tasks == [tasks[0]] + tasks[1..];
    var rest := tasks[1..];
    assert multiset(tasks) == multiset{tasks[0]} + multiset(rest);
    if tasks[0] == t {
      assert multiset(tasks)[t] <= 1;
      assert multiset(rest)[t] == 0;
      forall x | x in rest ensures TaskNotOf(t.id)(x) {
        assert x != t;
      }
      FilterKeepsAll(rest, TaskNotOf(t.id));
    } else {
      assert tasks[0].id != t.id;
      assert UniqueIds(rest) by {
        forall x ensures multiset(rest)[x] <= 1 {
          assert multiset(rest)[x] <= multiset(tasks)[x];
        }
      }
      DeleteTaskRow(rest, t);
    }
  }
}
