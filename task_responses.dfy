/** The API's read models of a task: field copies of the entities, with every child list mapped
    element by element. */
module TaskResponses {
  import opened Common
  import opened TaskHistories
  import opened Comments
  import opened Tasks

  /** A comment as the API returns it: everything but the owning task. */
  datatype CommentResponse = CommentResponse(id: Guid, content: string, createdAt: DateTime, userId: Guid)

  /** An audit entry as the API returns it: everything but the owning task; a system entry keeps
      its absent actor. */
  datatype TaskHistoryResponse = TaskHistoryResponse(id: Guid, description: string, timestamp: DateTime, userId: Option<Guid>)

  datatype TaskResponse = TaskResponse(
    id: Guid,
    title: string,
    description: string,
    dueDate: DateTime,
    status: TaskStatus,
    priority: TaskPriority,
    createdAt: DateTime,
    comments: seq<CommentResponse>,
    history: seq<TaskHistoryResponse>)

  /** The response copies the comment's id, content, creation time and author; the task is not exposed. */
  function FromComment(c: Comment): (r: CommentResponse)
    ensures r.id == c.id && r.content == c.content && r.createdAt == c.createdAt && r.userId == c.userId
  {
    CommentResponse(c.id, c.content, c.createdAt, c.userId)
  }

  /** The response copies the entry's id, description, timestamp and actor (an absent actor stays absent). */
  function FromTaskHistory(h: TaskHistory): (r: TaskHistoryResponse)
    ensures r.id == h.id && r.description == h.description && r.timestamp == h.timestamp && r.userId == h.userId
  {
    TaskHistoryResponse(h.id, h.description, h.timestamp, h.userId)
  }

  function FromComments(cs: seq<Comment>): (rs: seq<CommentResponse>)
    ensures |rs| == |cs| && forall i | 0 <= i < |cs| :: rs[i] == FromComment(cs[i])
  {
    seq(|cs|, i requires 0 <= i < |cs| => FromComment(cs[i]))
  }

  function FromHistory(hs: seq<TaskHistory>): (rs: seq<TaskHistoryResponse>)
    ensures |rs| == |hs| && forall i | 0 <= i < |hs| :: rs[i] == FromTaskHistory(hs[i])
  {
    seq(|hs|, i requires 0 <= i < |hs| => FromTaskHistory(hs[i]))
  }

  /** The object initializer never sets CreatedAt, so it keeps default(DateTime). Both child lists
      keep their length, so a task obeying its invariant shows a non-empty history. */
  function FromTask(t: TaskState): (r: TaskResponse)
    ensures r.id == t.record.id && r.status == t.record.status && r.createdAt == DefaultDateTime
    ensures |r.comments| == |t.comments| && |r.history| == |t.history|
    ensures t.Valid() ==> |r.history| > 0
  {
    TaskResponse(t.record.id, t.record.title, t.record.description, t.record.dueDate,
                 t.record.status, t.record.priority, DefaultDateTime,
                 FromComments(t.comments), FromHistory(t.history))
  }

  /** Two comments give the same response exactly when they differ at most in their task. */
  lemma FromCommentForgetsOnlyTask(a: Comment, b: Comment)
    ensures FromComment(a) == FromComment(b) <==> a.(taskId := b.taskId) == b
  {
  }

  /** Two audit entries give the same response exactly when they differ at most in their task. */
  lemma FromTaskHistoryForgetsOnlyTask(a: TaskHistory, b: TaskHistory)
    ensures FromTaskHistory(a) == FromTaskHistory(b) <==> a.(taskId := b.taskId) == b
  {
  }

  /** FromTask copies the scalar fields, leaves CreatedAt at its default, and maps both child lists
      keeping their length and order; a task obeying its invariant shows a non-empty history. */
  lemma FromTaskShape(t: TaskState)
    ensures var r := FromTask(t);
      && r.id == t.record.id && r.title == t.record.title && r.description == t.record.description
      && r.dueDate == t.record.dueDate && r.status == t.record.status && r.priority == t.record.priority
      && r.createdAt == DefaultDateTime
      && |r.comments| == |t.comments| && |r.history| == |t.history|
      && (forall i | 0 <= i < |t.comments| :: r.comments[i].id == t.comments[i].id && r.comments[i].content == t.comments[i].content)
      && (forall i | 0 <= i < |t.history| :: r.history[i].id == t.history[i].id && r.history[i].userId == t.history[i].userId)
      && (t.Valid() ==> |r.history| > 0)
  {
  }

  /** The response of a new task: Pending, no comments, and one system entry "Task created". */
  lemma NewTaskResponse(title: string, description: string, dueDate: DateTime, priority: TaskPriority,
                        projectId: Guid, id: Guid, entry: Stamp)
    ensures var r := FromTask(NewTask(title, description, dueDate, priority, projectId, id, entry));
      && r.status == Pending && r.comments == [] && r.title == title && r.id == id
      && r.history == [TaskHistoryResponse(entry.id, CreationDescription, entry.now, None)]
  {
    var t := NewTask(title, description, dueDate, priority, projectId, id, entry);
    assert FromHistory(t.history)[0] == FromTaskHistory(t.history[0]);
  }

  /** Mapping distributes over appending: after AddComment the response lists are the old ones
      with the new comment's and the new entry's responses at the end. */
  lemma {:induction false} CommentAddedResponse(t: TaskState, content: string, userId: Guid, comment: Stamp, entry: Stamp)
    ensures var u := CommentAdded(t, content, userId, comment, entry);
      && FromTask(u).comments == FromTask(t).comments + [CommentResponse(comment.id, content, comment.now, userId)]
      && FromTask(u).history == FromTask(t).history + [TaskHistoryResponse(entry.id, CommentDescription(content), entry.now, Some(userId))]
  {
    var u := CommentAdded(t, content, userId, comment, entry);
    assert u.comments == t.comments + [NewComment(content, userId, t.record.id, comment)];
    assert u.history == t.history + [NewTaskHistory(CommentDescription(content), t.record.id, entry, Some(userId))];
  }
}
