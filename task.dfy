/** The Task aggregate: a status that any operation may set, and two owned, append-only
    collections (the audit history and the comments). */
module Tasks {
  import opened Common
  import opened TaskHistories
  import opened Comments

  datatype TaskStatus = Pending | InProgress | Completed

  datatype TaskPriority = Low | Medium | High

  /** The text C# string interpolation produces for a status. */
  function StatusName(s: TaskStatus): string
  {
    match s
    case Pending => "Pending"
    case InProgress => "InProgress"
    case Completed => "Completed"
  }

  const CreationDescription: string := "Task created"

  function StatusChangeDescription(s: TaskStatus): string
  {
    "Status changed to " + StatusName(s)
  }

  function CommentDescription(content: string): string
  {
    "Comment added: " + content
  }

  /** A task's own fields, without its owned collections: the row the Tasks table holds,
      and what a project's task list holds when a project is loaded. */
  datatype TaskRecord = TaskRecord(
    id: Guid,
    title: string,
    description: string,
    dueDate: DateTime,
    status: TaskStatus,
    priority: TaskPriority,
    projectId: Guid)

  function RecordId(r: TaskRecord): Guid
  {
    r.id
  }

  /** The whole aggregate as a value: the task's fields and its two child collections, in order. */
  datatype TaskState = TaskState(record: TaskRecord, history: seq<TaskHistory>, comments: seq<Comment>)
  {
    /** The aggregate invariant: the creation entry is always there,
        and every child points back at this task. */
    predicate Valid()
    {
      && |history| > 0
      && (forall h | h in history :: h.taskId == record.id)
      && (forall c | c in comments :: c.taskId == record.id)
    }
  }

  /** `u` is `t` after mutations only: the same task (every field but the status unchanged),
      whose history and comments have only grown at the end. */
  predicate Evolves(t: TaskState, u: TaskState)
  {
    && u.record == t.record.(status := u.record.status)
    && t.history <= u.history
    && t.comments <= u.comments
  }

  lemma EvolvesTransitive(t: TaskState, u: TaskState, v: TaskState)
    requires Evolves(t, u) && Evolves(u, v)
    ensures Evolves(t, v)
  {
    assert t.history == u.history[..|t.history|] == v.history[..|u.history|][..|t.history|];
    assert t.comments == u.comments[..|t.comments|] == v.comments[..|u.comments|][..|t.comments|];
  }

  /** What the public constructor builds. */
  function NewTask(title: string, description: string, dueDate: DateTime, priority: TaskPriority,
                   projectId: Guid, id: Guid, entry: Stamp): (t: TaskState)
    ensures t.Valid() && t.comments == []
    ensures t.record == TaskRecord(id, title, description, dueDate, Pending, priority, projectId)
    ensures |t.history| == 1
    ensures t.history[0].description == CreationDescription && t.history[0].userId == None
    ensures t.history[0].id == entry.id && t.history[0].timestamp == entry.now
  {
    TaskState(TaskRecord(id, title, description, dueDate, Pending, priority, projectId),
              [NewTaskHistory(CreationDescription, id, entry)], [])
  }

  /** What UpdateStatus makes of a task. There is no transition graph: every status is reachable
      from every other in one call, and asking for the current status changes nothing. */
  function StatusUpdated(t: TaskState, newStatus: TaskStatus, userId: Guid, entry: Stamp): (u: TaskState)
    ensures Evolves(t, u) && u.record.status == newStatus && u.comments == t.comments
    ensures t.Valid() ==> u.Valid()
    ensures newStatus == t.record.status ==> u == t
    ensures newStatus != t.record.status ==>
      && |u.history| == |t.history| + 1
      && u.history[|t.history|].description == StatusChangeDescription(newStatus)
      && u.history[|t.history|].userId == Some(userId)
      && u.history[|t.history|].taskId == t.record.id
      && u.history[|t.history|].id == entry.id
      && u.history[|t.history|].timestamp == entry.now
  {
    if t.record.status == newStatus then t
    else
      t.(record := t.record.(status := newStatus),
         history := t.history + [NewTaskHistory(StatusChangeDescription(newStatus), t.record.id, entry, Some(userId))])
  }

  /** What AddComment makes of a task: one more comment and one more history entry, both by the user. */
  function CommentAdded(t: TaskState, content: string, userId: Guid, comment: Stamp, entry: Stamp): (u: TaskState)
    ensures Evolves(t, u) && u.record == t.record
    ensures t.Valid() ==> u.Valid()
    ensures |u.comments| == |t.comments| + 1 && |u.history| == |t.history| + 1
    ensures u.comments[|t.comments|].content == content
    ensures u.comments[|t.comments|].userId == userId && u.comments[|t.comments|].taskId == t.record.id
    ensures u.comments[|t.comments|].id == comment.id && u.comments[|t.comments|].createdAt == comment.now
    ensures u.history[|t.history|].description == CommentDescription(content)
    ensures u.history[|t.history|].userId == Some(userId) && u.history[|t.history|].taskId == t.record.id
    ensures u.history[|t.history|].id == entry.id && u.history[|t.history|].timestamp == entry.now
  {
    t.(comments := t.comments + [NewComment(content, userId, t.record.id, comment)],
       history := t.history + [NewTaskHistory(CommentDescription(content), t.record.id, entry, Some(userId))])
  }

  /** The public mutators of a task, as data. */
  datatype Operation =
    | ChangeStatus(status: TaskStatus, userId: Guid, entry: Stamp)
    | AddNote(content: string, userId: Guid, comment: Stamp, entry: Stamp)

  function Apply(t: TaskState, op: Operation): TaskState
  {
    match op
    case ChangeStatus(s, u, e) => StatusUpdated(t, s, u, e)
    case AddNote(c, u, ce, e) => CommentAdded(t, c, u, ce, e)
  }

  function ApplyAll(t: TaskState, ops: seq<Operation>): TaskState
    decreases |ops|
  {
    if ops == [] then t else ApplyAll(Apply(t, ops[0]), ops[1..])
  }

  /** Whatever sequence of operations runs on a task, its identity and fields other than the
      status stay as built, its history and comments are only appended to, and the history
      is never empty. */
  lemma {:induction false} OperationsOnlyAppend(t: TaskState, ops: seq<Operation>)
    requires t.Valid()
    ensures Evolves(t, ApplyAll(t, ops)) && ApplyAll(t, ops).Valid()
    decreases |ops|
  {
    if ops != [] {
      var t1 := Apply(t, ops[0]);
      OperationsOnlyAppend(t1, ops[1..]);
      EvolvesTransitive(t, t1, ApplyAll(t1, ops[1..]));
    }
  }

  /** Creating a task and setting InProgress twice leaves two history entries:
      the creation record and one transition; the second call is a no-op. */
  lemma RepeatedStatusIsLoggedOnce(title: string, description: string, dueDate: DateTime, projectId: Guid,
                                   id: Guid, created: Stamp, userId: Guid, first: Stamp, second: Stamp)
    ensures var t := ApplyAll(NewTask(title, description, dueDate, High, projectId, id, created),
                              [ChangeStatus(InProgress, userId, first), ChangeStatus(InProgress, userId, second)]);
            |t.history| == 2 && t.record.status == InProgress && t.record.priority == High
  {
    var t0 := NewTask(title, description, dueDate, High, projectId, id, created);
    var ops := [ChangeStatus(InProgress, userId, first), ChangeStatus(InProgress, userId, second)];
    var t1 := StatusUpdated(t0, InProgress, userId, first);
    assert ApplyAll(t0, ops) == ApplyAll(t1, ops[1..]);
    assert ops[1..][1..] == [];
    assert ApplyAll(t1, ops[1..]) == StatusUpdated(t1, InProgress, userId, second);
  }

  /** The in-memory Task object. Fields with private setters that no method assigns are constants. */
  class Task {
    const id: Guid
    const title: string
    const description: string
    const dueDate: DateTime
    var status: TaskStatus
    const priority: TaskPriority
    const projectId: Guid
    var history: seq<TaskHistory>
    var comments: seq<Comment>

    function Record(): TaskRecord
      reads this
    {
      TaskRecord(id, title, description, dueDate, status, priority, projectId)
    }

    function Value(): TaskState
      reads this
    {
      TaskState(Record(), history, comments)
    }

    ghost predicate Valid()
      reads this
    {
      Value().Valid()
    }

    /** The public constructor: a new id, status Pending, and the "Task created" entry with no actor. */
    constructor (title: string, description: string, dueDate: DateTime, priority: TaskPriority,
                 projectId: Guid, id: Guid, entry: Stamp)
      ensures Valid()
      ensures Value() == NewTask(title, description, dueDate, priority, projectId, id, entry)
    {
      this.id := id;
      this.title := title;
      this.description := description;
      this.dueDate := dueDate;
      this.status := Pending;
      this.priority := priority;
      this.projectId := projectId;
      this.history := [];
      this.comments := [];
      new;
      AddHistory(CreationDescription, entry);
    }

    /** How the store materialises a stored task: the private constructor, then every property set. */
    constructor Materialize(s: TaskState)
      ensures Value() == s
    {
      id := s.record.id;
      title := s.record.title;
      description := s.record.description;
      dueDate := s.record.dueDate;
      status := s.record.status;
      priority := s.record.priority;
      projectId := s.record.projectId;
      history := s.history;
      comments := s.comments;
    }

    method UpdateStatus(newStatus: TaskStatus, userId: Guid, entry: Stamp)
      requires Valid()
      modifies this`status, this`history
      ensures Valid()
      ensures Value() == StatusUpdated(old(Value()), newStatus, userId, entry)
    {
      if status != newStatus {
        status := newStatus;
        AddHistory(StatusChangeDescription(newStatus), entry, Some(userId));
      }
    }

    method AddComment(content: string, userId: Guid, comment: Stamp, entry: Stamp)
      requires Valid()
      modifies this`comments, this`history
      ensures Valid()
      ensures Value() == CommentAdded(old(Value()), content, userId, comment, entry)
    {
      var c := NewComment(content, userId, id, comment);
      comments := comments + [c];
      AddHistory(CommentDescription(content), entry, Some(userId));
    }

    /** The private helper every mutator goes through: one entry appended, for this task. */
    method AddHistory(description: string, entry: Stamp, userId: Option<Guid> := None)
      modifies this`history
      ensures history == old(history) + [NewTaskHistory(description, id, entry, userId)]
    {
      history := history + [NewTaskHistory(description, id, entry, userId)];
    }
  }
}
