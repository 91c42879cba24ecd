/** A user-authored note on a task (Comment): immutable once built. */
module Comments {
  import opened Common

  /** Every field is set once, by the constructor. */
  datatype Comment = Comment(
    id: Guid,
    content: string,
    createdAt: DateTime,
    userId: Guid,
    taskId: Guid)

  /** The public constructor. The id and the creation time come from `stamp` (a new Guid and the clock). */
  function NewComment(content: string, userId: Guid, taskId: Guid, stamp: Stamp): (c: Comment)
    ensures c.id == stamp.id && c.createdAt == stamp.now
    ensures c.content == content && c.userId == userId && c.taskId == taskId
  {
    Comment(stamp.id, content, stamp.now, userId, taskId)
  }

  function CommentId(c: Comment): Guid
  {
    c.id
  }

  /** The owner a comment row points at (its TaskId foreign key). */
  function CommentTask(c: Comment): Guid
  {
    c.taskId
  }
}
