/** The persisted rows and the request/response records of the task service.
    Calendar dates are whole day numbers; timestamps are not modelled. */
module Entities {

  /** A calendar day, counted in days from an arbitrary epoch. */
  type Day = int

  datatype Option<T> = None | Some(value: T)

  /** Why a service call could not run to its boolean answer. */
  datatype Error = TaskNotFound

  datatype Result<T> = Success(value: T) | Failure(error: Error)

  /** The polymorphic owner type with which an upload is attached to a task. */
  const TASK_TYPE: string := "task"

  /** A task row: a unit of work for the user `username` over the days
      `startDate` to `endDate`. */
  datatype Task = Task(id: int, name: string, username: string, startDate: Day, endDate: Day)

  /** "Task `taskId` was completed on day `completeDate`." */
  datatype TaskStatus = TaskStatus(taskId: int, completeDate: Day)

  /** The link between a username and a task it owns. */
  datatype UserTask = UserTask(username: string, taskId: int)

  /** An attachment owned by the entity (`uploadableType`, `uploadableId`);
      `file` stands for the attachment's own data, which the service never reads. */
  datatype Upload = Upload(uploadableType: string, uploadableId: int, file: string)

  /** A request to create a task; `id` is whatever id the client sent. */
  datatype TaskRequest = TaskRequest(id: Option<int>, name: string, startDate: Day, endDate: Day, uploads: seq<Upload>)

  /** A task as the service returns it. Each query fills in only some of the
      optional parts (`None` is a part the query leaves unset). */
  datatype TaskResponse = TaskResponse(
    task: Task,
    uploads: seq<Upload>,
    taskStatus: Option<seq<TaskStatus>>,
    dueDate: Option<Day>,
    completed: Option<bool>)
}
