/** The relational store behind both repositories: four tables keyed by id, the foreign keys and
    cascades of the schema, and what one SaveChanges commits. A commit is atomic: when it would
    break a key or a foreign key, or update a row that is not there, it fails and writes nothing
    (None). */
module Database {
  import opened Common
  import opened TaskHistories
  import opened Comments
  import opened Tasks
  import opened Projects
  import opened ChildTables

  /** A Projects row: a project's own fields, without its task list. */
  datatype ProjectRecord = ProjectRecord(
    id: Guid,
    name: string,
    description: string,
    userId: Guid,
    createdAt: DateTime)

  function ProjectId(p: ProjectRecord): Guid
  {
    p.id
  }

  function RecordProject(r: TaskRecord): Guid
  {
    r.projectId
  }

  function ProjectUser(p: ProjectRecord): Guid
  {
    p.userId
  }

  function ProjectRecordOf(p: Project): ProjectRecord
  {
    ProjectRecord(p.id, p.name, p.description, p.userId, p.createdAt)
  }

  datatype Db = Db(
    projects: map<Guid, ProjectRecord>,
    tasks: map<Guid, TaskRecord>,
    histories: map<Guid, TaskHistory>,
    comments: map<Guid, Comment>)

  /** The ids of the history rows whose TaskId is `taskId`. */
  function HistoryIdsOf(db: Db, taskId: Guid): set<Guid>
  {
    Owned(db.histories, HistoryTask, taskId)
  }

  /** The ids of the comment rows whose TaskId is `taskId`. */
  function CommentIdsOf(db: Db, taskId: Guid): set<Guid>
  {
    Owned(db.comments, CommentTask, taskId)
  }

  /** The ids of the task rows whose ProjectId is `projectId`. */
  function ProjectTaskIds(db: Db, projectId: Guid): set<Guid>
  {
    Owned(db.tasks, RecordProject, projectId)
  }

  /** The ids of the project rows whose UserId is `userId`. */
  function UserProjectIds(db: Db, userId: Guid): set<Guid>
  {
    Owned(db.projects, ProjectUser, userId)
  }

  /** Every row is stored under its own id. */
  predicate Keyed(db: Db)
  {
    && KeyedBy(db.projects, ProjectId)
    && KeyedBy(db.tasks, RecordId)
    && KeyedBy(db.histories, HistoryId)
    && KeyedBy(db.comments, CommentId)
  }

  /** Every foreign key names a stored row. */
  predicate Linked(db: Db)
  {
    && PointInto(db.tasks, RecordProject, db.projects.Keys)
    && PointInto(db.histories, HistoryTask, db.tasks.Keys)
    && PointInto(db.comments, CommentTask, db.tasks.Keys)
  }

  /** Every stored task still has an audit entry (its creation record at least). */
  predicate Documented(db: Db)
  {
    forall k | k in db.tasks :: HistoryIdsOf(db, k) != {}
  }

  predicate Valid(db: Db)
  {
    Keyed(db) && Linked(db) && Documented(db)
  }

  const Empty: Db := Db(map[], map[], map[], map[])

  /** The commit of a task graph (its record, then the history and comment rows `hs` and `cs`)
      violates no key of the child tables and no foreign key. */
  predicate Admits(db: Db, r: TaskRecord, hs: seq<TaskHistory>, cs: seq<Comment>)
  {
    && r.projectId in db.projects
    && Insertable(db.histories, hs, HistoryId)
    && Insertable(db.comments, cs, CommentId)
    && OwnedBy(hs, HistoryTask, db.tasks.Keys + {r.id})
    && OwnedBy(cs, CommentTask, db.tasks.Keys + {r.id})
  }

  /** The tables once the task row `r` is written and the child rows are inserted. */
  function Written(db: Db, r: TaskRecord, hs: seq<TaskHistory>, cs: seq<Comment>): Db
  {
    db.(tasks := db.tasks[r.id := r],
        histories := db.histories + Rows(hs, HistoryId),
        comments := db.comments + Rows(cs, CommentId))
  }

  /** Tasks.Add(task) and SaveChanges: the row and every child of the graph are inserted. */
  function AddTask(db: Db, t: TaskState): (r: Option<Db>)
    ensures t.record.id in db.tasks || t.record.projectId !in db.projects ==> r.None?
    ensures r.Some? ==>
      && r.value.tasks == db.tasks[t.record.id := t.record] && r.value.projects == db.projects
      && db.histories.Keys <= r.value.histories.Keys && db.comments.Keys <= r.value.comments.Keys
  {
    if t.record.id !in db.tasks && Admits(db, t.record, t.history, t.comments)
    then Some(Written(db, t.record, t.history, t.comments))
    else None
  }

  /** Tasks.Remove(task) and SaveChanges: the row goes, and its children with it (cascade). */
  function RemoveTask(db: Db, id: Guid): (r: Option<Db>)
    ensures r.None? <==> id !in db.tasks
    ensures r.Some? ==>
      && r.value.tasks.Keys == db.tasks.Keys - {id} && r.value.projects == db.projects
      && (forall k | k in r.value.histories :: r.value.histories[k].taskId != id)
      && (forall k | k in r.value.comments :: r.value.comments[k].taskId != id)
  {
    if id !in db.tasks then None
    else
      Some(Db(db.projects,
              db.tasks - {id},
              map k | k in db.histories && db.histories[k].taskId != id :: db.histories[k],
              map k | k in db.comments && db.comments[k].taskId != id :: db.comments[k]))
  }

  /** Projects.Add(project) and SaveChanges, for a project with no tasks. */
  function AddProject(db: Db, p: ProjectRecord): (r: Option<Db>)
    ensures r.None? <==> p.id in db.projects
    ensures r.Some? ==>
      && r.value.projects.Keys == db.projects.Keys + {p.id} && r.value.projects[p.id] == p
      && r.value.(projects := db.projects) == db
  {
    if p.id in db.projects then None
    else Some(db.(projects := db.projects[p.id := p]))
  }

  /** Projects.Remove(project) and SaveChanges: the project goes, its tasks with it, and their
      children with them (two cascades). */
  function RemoveProject(db: Db, id: Guid): (r: Option<Db>)
    ensures r.None? <==> id !in db.projects
    ensures r.Some? ==>
      && r.value.projects.Keys == db.projects.Keys - {id}
      && (forall k | k in r.value.tasks :: r.value.tasks[k].projectId != id)
      && (forall k | k in r.value.histories :: r.value.histories[k].taskId in r.value.tasks)
      && (forall k | k in r.value.comments :: r.value.comments[k].taskId in r.value.tasks)
  {
    if id !in db.projects then None
    else
      var tasks := map k | k in db.tasks && db.tasks[k].projectId != id :: db.tasks[k];
      Some(Db(db.projects - {id},
              tasks,
              map k | k in db.histories && db.histories[k].taskId in tasks :: db.histories[k],
              map k | k in db.comments && db.comments[k].taskId in tasks :: db.comments[k]))
  }

  /** `s` is what loading task `s.record.id` with its History and Comments included returns. */
  predicate LoadedTask(db: Db, s: TaskState)
  {
    && s.record.id in db.tasks
    && db.tasks[s.record.id] == s.record
    && Lists(s.history, db.histories, HistoryIdsOf(db, s.record.id), HistoryId)
    && Lists(s.comments, db.comments, CommentIdsOf(db, s.record.id), CommentId)
  }

  /** `p` is what loading project `p.id` with its Tasks included returns. */
  predicate LoadedProject(db: Db, p: Project)
  {
    && p.id in db.projects
    && db.projects[p.id] == ProjectRecordOf(p)
    && Lists(p.tasks, db.tasks, ProjectTaskIds(db, p.id), RecordId)
  }

  /** Every stored task of the project is Completed. */
  predicate AllTasksCompleted(db: Db, projectId: Guid)
  {
    forall k | k in ProjectTaskIds(db, projectId) :: db.tasks[k].status == Completed
  }

  /** On a loaded project, the deletion guard is a statement about the stored tasks. */
  lemma LoadedProjectDeletable(db: Db, p: Project)
    requires LoadedProject(db, p)
    ensures p.CanBeDeleted() <==> AllTasksCompleted(db, p.id)
  {
    if p.CanBeDeleted() {
      forall k | k in ProjectTaskIds(db, p.id)
        ensures db.tasks[k].status == Completed
      {
        assert k in IdsOf(p.tasks, RecordId);
        var t :| t in p.tasks && RecordId(t) == k;
      }
    }
    if AllTasksCompleted(db, p.id) {
      forall t | t in p.tasks
        ensures t.status == Completed
      {
        assert RecordId(t) in IdsOf(p.tasks, RecordId);
      }
    }
  }

  /** Every row of the old table not owned by task `id` is still in the new one, unchanged. */
  predicate KeepsOthers<C(==)>(old_: map<Guid, C>, new_: map<Guid, C>, ownerOf: C -> Guid, id: Guid)
  {
    forall k | k in old_ && ownerOf(old_[k]) != id :: k in new_ && new_[k] == old_[k]
  }

  /** A task loaded from a valid store obeys the aggregate invariant: it has its creation entry
      and all its children point back at it. */
  lemma LoadedTaskValid(db: Db, s: TaskState)
    requires Valid(db) && LoadedTask(db, s)
    ensures s.Valid()
  {
    var id := s.record.id;
    var j :| j in HistoryIdsOf(db, id);
    assert j in IdsOf(s.history, HistoryId);
    forall h | h in s.history
      ensures h.taskId == id
    {
      assert h.id in IdsOf(s.history, HistoryId);
    }
    forall c | c in s.comments
      ensures c.taskId == id
    {
      assert c.id in IdsOf(s.comments, CommentId);
    }
  }

  /** A loaded project lists as many tasks as the store holds for it, so its capacity guard is
      a guard on the stored count. */
  lemma LoadedProjectCount(db: Db, p: Project)
    requires LoadedProject(db, p)
    ensures |p.tasks| == |ProjectTaskIds(db, p.id)|
    ensures p.CanAddTask() <==> |ProjectTaskIds(db, p.id)| < MaxTasks
  {
    ListsCount(p.tasks, db.tasks, ProjectTaskIds(db, p.id), RecordId);
  }

  /** The children of task `r.id` once the graph is written: the old ones and those of `hs`
      and `cs`; the children of every other task are as they were. */
  lemma WrittenChildren(db: Db, r: TaskRecord, hs: seq<TaskHistory>, cs: seq<Comment>)
    requires Admits(db, r, hs, cs)
    requires OwnedBy(hs, HistoryTask, {r.id}) && OwnedBy(cs, CommentTask, {r.id})
    ensures HistoryIdsOf(Written(db, r, hs, cs), r.id) == HistoryIdsOf(db, r.id) + IdsOf(hs, HistoryId)
    ensures CommentIdsOf(Written(db, r, hs, cs), r.id) == CommentIdsOf(db, r.id) + IdsOf(cs, CommentId)
    ensures forall k | k != r.id :: HistoryIdsOf(Written(db, r, hs, cs), k) == HistoryIdsOf(db, k)
    ensures forall k | k != r.id :: CommentIdsOf(Written(db, r, hs, cs), k) == CommentIdsOf(db, k)
  {
    OwnedAfterInsert(db.histories, hs, HistoryId, HistoryTask, r.id);
    OwnedAfterInsert(db.comments, cs, CommentId, CommentTask, r.id);
  }
  /** Writing a graph the commit admits keeps the store valid, provided a new task brings an
      audit entry of its own. */
  lemma WrittenValid(db: Db, r: TaskRecord, hs: seq<TaskHistory>, cs: seq<Comment>)
    requires Valid(db) && Admits(db, r, hs, cs)
    requires OwnedBy(hs, HistoryTask, {r.id}) && OwnedBy(cs, CommentTask, {r.id})
    requires r.id !in db.tasks ==> hs != []
    ensures Valid(Written(db, r, hs, cs))
  {
    WrittenKeyedLinked(db, r, hs, cs);
    WrittenDocumented(db, r, hs, cs);
  }

  lemma WrittenKeyedLinked(db: Db, r: TaskRecord, hs: seq<TaskHistory>, cs: seq<Comment>)
    requires Keyed(db) && Linked(db) && Admits(db, r, hs, cs)
    ensures Keyed(Written(db, r, hs, cs)) && Linked(Written(db, r, hs, cs))
  {
    var w := Written(db, r, hs, cs);
    InsertKeepsKeys(db.histories, hs, HistoryId);
    InsertKeepsKeys(db.comments, cs, CommentId);
    InsertKeepsLinks(db.histories, hs, HistoryId, HistoryTask, db.tasks.Keys, w.tasks.Keys);
    InsertKeepsLinks(db.comments, cs, CommentId, CommentTask, db.tasks.Keys, w.tasks.Keys);
  }

  lemma WrittenDocumented(db: Db, r: TaskRecord, hs: seq<TaskHistory>, cs: seq<Comment>)
    requires Documented(db) && Admits(db, r, hs, cs)
    requires OwnedBy(hs, HistoryTask, {r.id}) && OwnedBy(cs, CommentTask, {r.id})
    requires r.id !in db.tasks ==> hs != []
    ensures Documented(Written(db, r, hs, cs))
  {
    var w := Written(db, r, hs, cs);
    WrittenChildren(db, r, hs, cs);
    forall k | k in w.tasks
      ensures HistoryIdsOf(w, k) != {}
    {
      if k == r.id && r.id !in db.tasks {
        assert HistoryId(hs[0]) in IdsOf(hs, HistoryId);
      } else {
        assert HistoryIdsOf(db, k) != {} && HistoryIdsOf(db, k) <= HistoryIdsOf(w, k);
      }
    }
  }

  /** A task that is not stored owns no child rows. */
  lemma NoChildrenOfAbsent(db: Db, id: Guid)
    requires Linked(db) && id !in db.tasks
    ensures HistoryIdsOf(db, id) == {} && CommentIdsOf(db, id) == {}
  {
    forall j | j in db.histories
      ensures db.histories[j].taskId != id
    {
      assert HistoryTask(db.histories[j]) in db.tasks;
    }
    forall j | j in db.comments
      ensures db.comments[j].taskId != id
    {
      assert CommentTask(db.comments[j]) in db.tasks;
    }
  }

  /** Creating a task stores exactly its graph: a load of the new id returns the same record and
      the same children, and nothing stored before changes. */
  lemma AddTaskStores(db: Db, t: TaskState)
    requires Valid(db) && t.Valid()
    requires AddTask(db, t).Some?
    ensures Valid(AddTask(db, t).value)
    ensures LoadedTask(AddTask(db, t).value, t)
  {
    var id := t.record.id;
    assert OwnedBy(t.history, HistoryTask, {id}) && OwnedBy(t.comments, CommentTask, {id});
    WrittenValid(db, t.record, t.history, t.comments);
    NoChildrenOfAbsent(db, id);
    InsertedListed(db.histories, t.history, HistoryId, HistoryTask, id);
    InsertedListed(db.comments, t.comments, CommentId, CommentTask, id);
  }

  /** Creating a task adds exactly that task to its project's tasks, so their number grows by one,
      and leaves the tasks of every other project as they were. */
  lemma {:induction false} AddTaskCounts(db: Db, t: TaskState)
    requires AddTask(db, t).Some?
    ensures ProjectTaskIds(AddTask(db, t).value, t.record.projectId) == ProjectTaskIds(db, t.record.projectId) + {t.record.id}
    ensures |ProjectTaskIds(AddTask(db, t).value, t.record.projectId)| == |ProjectTaskIds(db, t.record.projectId)| + 1
    ensures forall p | p != t.record.projectId :: ProjectTaskIds(AddTask(db, t).value, p) == ProjectTaskIds(db, p)
  {
    var r := t.record;
    var d := AddTask(db, t).value;
    assert d.tasks == db.tasks[r.id := r];
    OwnedAfterPut(db.tasks, r.id, r, RecordProject, r.projectId);
    assert ProjectTaskIds(d, r.projectId) == Owned(db.tasks[r.id := r], RecordProject, r.projectId);
    assert r.id !in ProjectTaskIds(db, r.projectId);
    forall p | p != r.projectId
      ensures ProjectTaskIds(d, p) == ProjectTaskIds(db, p)
    {
      assert ProjectTaskIds(d, p) == Owned(db.tasks[r.id := r], RecordProject, p);
    }
  }

  /** A task as its constructor builds it commits whenever its project is stored and its id and
      its creation entry's id are new. */
  lemma NewTaskAccepted(db: Db, title: string, description: string, dueDate: DateTime, priority: TaskPriority,
                        projectId: Guid, id: Guid, entry: Stamp)
    requires projectId in db.projects && id !in db.tasks && entry.id !in db.histories
    ensures AddTask(db, NewTask(title, description, dueDate, priority, projectId, id, entry)).Some?
  {
    var t := NewTask(title, description, dueDate, priority, projectId, id, entry);
    assert t.history == [t.history[0]];
    assert Insertable(db.histories, t.history, HistoryId);
  }

  /** Creating a task changes no stored task and removes no stored child. */
  lemma AddTaskKeepsRows(db: Db, t: TaskState)
    requires AddTask(db, t).Some?
    ensures forall k | k in db.tasks :: k in AddTask(db, t).value.tasks && AddTask(db, t).value.tasks[k] == db.tasks[k]
    ensures db.histories.Keys <= AddTask(db, t).value.histories.Keys && db.comments.Keys <= AddTask(db, t).value.comments.Keys
    ensures AddTask(db, t).value.projects == db.projects
  {
  }

  /** Deleting a task deletes it and all its children, and nothing else. */
  lemma RemoveTaskCascades(db: Db, id: Guid)
    requires Valid(db) && RemoveTask(db, id).Some?
    ensures Valid(RemoveTask(db, id).value)
    ensures id !in RemoveTask(db, id).value.tasks
    ensures HistoryIdsOf(RemoveTask(db, id).value, id) == {} && CommentIdsOf(RemoveTask(db, id).value, id) == {}
    ensures forall k | k in db.tasks && k != id :: k in RemoveTask(db, id).value.tasks && RemoveTask(db, id).value.tasks[k] == db.tasks[k]
    ensures KeepsOthers(db.histories, RemoveTask(db, id).value.histories, HistoryTask, id)
    ensures KeepsOthers(db.comments, RemoveTask(db, id).value.comments, CommentTask, id)
    ensures RemoveTask(db, id).value.projects == db.projects
  {
    var d := RemoveTask(db, id).value;
    forall k | k in d.tasks
      ensures HistoryIdsOf(d, k) != {}
    {
      var j :| j in HistoryIdsOf(db, k);
      assert j in HistoryIdsOf(d, k);
    }
  }

  /** Creating a project stores it with no tasks, and changes nothing else. */
  lemma AddProjectStores(db: Db, p: ProjectRecord)
    requires Valid(db) && AddProject(db, p).Some?
    ensures Valid(AddProject(db, p).value)
    ensures LoadedProject(AddProject(db, p).value, Project(p.id, p.name, p.description, p.userId, p.createdAt, []))
    ensures AddProject(db, p).value.(projects := db.projects) == db
  {
    var d := AddProject(db, p).value;
    forall k | k in d.tasks
      ensures d.tasks[k].projectId != p.id
    {
      assert RecordProject(db.tasks[k]) in db.projects;
    }
    forall k | k in d.tasks
      ensures HistoryIdsOf(d, k) != {}
    {
      assert HistoryIdsOf(d, k) == HistoryIdsOf(db, k);
    }
  }

  /** Deleting a project deletes it, its tasks and their children, and nothing else. */
  lemma RemoveProjectCascades(db: Db, id: Guid)
    requires Valid(db) && RemoveProject(db, id).Some?
    ensures Valid(RemoveProject(db, id).value)
    ensures id !in RemoveProject(db, id).value.projects && ProjectTaskIds(RemoveProject(db, id).value, id) == {}
    ensures forall k | k in db.tasks && db.tasks[k].projectId != id ::
      k in RemoveProject(db, id).value.tasks && RemoveProject(db, id).value.tasks[k] == db.tasks[k]
      && HistoryIdsOf(RemoveProject(db, id).value, k) == HistoryIdsOf(db, k)
      && CommentIdsOf(RemoveProject(db, id).value, k) == CommentIdsOf(db, k)
    ensures forall k | k in db.tasks && db.tasks[k].projectId == id :: k !in RemoveProject(db, id).value.tasks
    ensures RemoveProject(db, id).value.projects == db.projects - {id}
    ensures forall k | k in db.histories && db.histories[k].taskId in RemoveProject(db, id).value.tasks ::
      k in RemoveProject(db, id).value.histories && RemoveProject(db, id).value.histories[k] == db.histories[k]
    ensures forall k | k in db.comments && db.comments[k].taskId in RemoveProject(db, id).value.tasks ::
      k in RemoveProject(db, id).value.comments && RemoveProject(db, id).value.comments[k] == db.comments[k]
    ensures forall k | k in db.histories && db.histories[k].taskId !in RemoveProject(db, id).value.tasks ::
      k !in RemoveProject(db, id).value.histories
    ensures forall k | k in db.comments && db.comments[k].taskId !in RemoveProject(db, id).value.tasks ::
      k !in RemoveProject(db, id).value.comments
  {
    var d := RemoveProject(db, id).value;
    forall k | k in db.tasks && db.tasks[k].projectId != id
      ensures HistoryIdsOf(d, k) == HistoryIdsOf(db, k) && CommentIdsOf(d, k) == CommentIdsOf(db, k)
    {
      assert k in d.tasks;
    }
  }
}
