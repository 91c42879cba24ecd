/** An audit entry of a task (TaskHistory): an immutable fact, what happened, when and by whom. */
module TaskHistories {
  import opened Common

  /** Every field is set once, by the constructor; a datatype value cannot be changed afterwards. */
  datatype TaskHistory = TaskHistory(
    id: Guid,
    description: string,
    timestamp: DateTime,
    taskId: Guid,
    userId: Option<Guid>)

  /** The public constructor. The id and the timestamp come from `stamp` (a new Guid and the clock);
      without an actor the entry is a system entry. */
  function NewTaskHistory(description: string, taskId: Guid, stamp: Stamp, userId: Option<Guid> := None): (h: TaskHistory)
    ensures h.id == stamp.id && h.timestamp == stamp.now
    ensures h.description == description && h.taskId == taskId && h.userId == userId
  {
    TaskHistory(stamp.id, description, stamp.now, taskId, userId)
  }

  function HistoryId(h: TaskHistory): Guid
  {
    h.id
  }

  /** The owner a history row points at (its TaskId foreign key). */
  function HistoryTask(h: TaskHistory): Guid
  {
    h.taskId
  }
}
