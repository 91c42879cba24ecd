/** The reconciling update (TaskRepository.UpdateAsync) as a function of the tables: the task
    row is overwritten, and of each child collection only the entries whose ids the store does
    not hold for the task yet are inserted, all in one commit. */
module Reconciliation {
  import opened Common
  import opened TaskHistories
  import opened Comments
  import opened Tasks
  import opened ChildTables
  import opened Database

  /** The in-memory history entries whose ids are not among the stored history ids of the task. */
  function NewHistories(db: Db, t: TaskState): seq<TaskHistory>
  {
    Unsaved(t.history, HistoryIdsOf(db, t.record.id), HistoryId)
  }

  /** The in-memory comments whose ids are not among the stored comment ids of the task. */
  function NewComments(db: Db, t: TaskState): seq<Comment>
  {
    Unsaved(t.comments, CommentIdsOf(db, t.record.id), CommentId)
  }

  /** The tables after UpdateAsync(t), or None when the commit fails: the task row is missing,
      or an inserted child would break a key or a foreign key. */
  function Reconcile(db: Db, t: TaskState): (r: Option<Db>)
    ensures t.record.id !in db.tasks || t.record.projectId !in db.projects ==> r.None?
    ensures r.Some? ==> r.value.tasks == db.tasks[t.record.id := t.record] && r.value.projects == db.projects
  {
    var hs := NewHistories(db, t);
    var cs := NewComments(db, t);
    if t.record.id in db.tasks && Admits(db, t.record, hs, cs)
    then Some(Written(db, t.record, hs, cs))
    else None
  }

  /** The children a valid aggregate hands to the commit all belong to it. */
  lemma NewChildrenOwned(db: Db, t: TaskState)
    requires t.Valid()
    ensures OwnedBy(NewHistories(db, t), HistoryTask, {t.record.id})
    ensures OwnedBy(NewComments(db, t), CommentTask, {t.record.id})
  {
  }

  /** The update keeps the store valid. */
  lemma ReconcileValid(db: Db, t: TaskState)
    requires Valid(db) && t.Valid() && Reconcile(db, t).Some?
    ensures Valid(Reconcile(db, t).value)
  {
    NewChildrenOwned(db, t);
    WrittenValid(db, t.record, NewHistories(db, t), NewComments(db, t));
  }

  /** Insert-only: no stored child row is rewritten or deleted, whatever the in-memory lists hold
      (children missing from them stay stored); only the task's own row is overwritten. */
  lemma ReconcileKeepsStored(db: Db, t: TaskState)
    requires Reconcile(db, t).Some?
    ensures forall k | k in db.histories :: k in Reconcile(db, t).value.histories && Reconcile(db, t).value.histories[k] == db.histories[k]
    ensures forall k | k in db.comments :: k in Reconcile(db, t).value.comments && Reconcile(db, t).value.comments[k] == db.comments[k]
    ensures Reconcile(db, t).value.tasks == db.tasks[t.record.id := t.record]
    ensures Reconcile(db, t).value.tasks.Keys == db.tasks.Keys
    ensures Reconcile(db, t).value.projects == db.projects
  {
    var hs, cs := NewHistories(db, t), NewComments(db, t);
    forall j | j in Rows(hs, HistoryId)
      ensures j !in db.histories
    {
      assert Rows(hs, HistoryId)[j] in hs;
    }
    forall j | j in Rows(cs, CommentId)
      ensures j !in db.comments
    {
      assert Rows(cs, CommentId)[j] in cs;
    }
  }

  /** Completeness: the stored children of the task are the old stored ones together with every
      in-memory one; the children of every other task are as they were. */
  lemma ReconcileComplete(db: Db, t: TaskState)
    requires t.Valid() && Reconcile(db, t).Some?
    ensures HistoryIdsOf(Reconcile(db, t).value, t.record.id) == HistoryIdsOf(db, t.record.id) + IdsOf(t.history, HistoryId)
    ensures CommentIdsOf(Reconcile(db, t).value, t.record.id) == CommentIdsOf(db, t.record.id) + IdsOf(t.comments, CommentId)
    ensures forall k | k != t.record.id :: HistoryIdsOf(Reconcile(db, t).value, k) == HistoryIdsOf(db, k)
    ensures forall k | k != t.record.id :: CommentIdsOf(Reconcile(db, t).value, k) == CommentIdsOf(db, k)
  {
    NewChildrenOwned(db, t);
    WrittenChildren(db, t.record, NewHistories(db, t), NewComments(db, t));
    UnsavedIds(t.history, HistoryIdsOf(db, t.record.id), HistoryId);
    UnsavedIds(t.comments, CommentIdsOf(db, t.record.id), CommentId);
  }

  /** Idempotence: a second update with no mutation in between inserts nothing and changes
      nothing. */
  lemma ReconcileIdempotent(db: Db, t: TaskState)
    requires t.Valid() && Reconcile(db, t).Some?
    ensures Reconcile(Reconcile(db, t).value, t) == Reconcile(db, t)
  {
    var d := Reconcile(db, t).value;
    var r := t.record;
    assert d == Written(db, r, NewHistories(db, t), NewComments(db, t));
    assert r.id in d.tasks && d.tasks[r.id] == r && r.projectId in d.projects;
    assert NewHistories(d, t) == [] && NewComments(d, t) == [] by {
      ReconcileComplete(db, t);
      UnsavedOfStored(t.history, HistoryIdsOf(d, r.id), HistoryId);
      UnsavedOfStored(t.comments, CommentIdsOf(d, r.id), CommentId);
    }
    assert Admits(d, r, [], []);
    WrittenNothing(d, r);
    assert Reconcile(d, t) == Some(Written(d, r, [], []));
  }

  /** Writing a task's unchanged row and no children changes nothing. */
  lemma WrittenNothing(d: Db, r: TaskRecord)
    requires r.id in d.tasks && d.tasks[r.id] == r
    ensures Written(d, r, [], []) == d
  {
    SameRow(d.tasks, r);
    InsertNone(d.histories, HistoryId);
    InsertNone(d.comments, CommentId);
  }

  /** Overwriting a row with itself changes nothing. */
  lemma SameRow(tasks: map<Guid, TaskRecord>, r: TaskRecord)
    requires r.id in tasks && tasks[r.id] == r
    ensures tasks[r.id := r] == tasks
  {
  }

  /** The update commits whenever the task row exists, its project exists, the in-memory lists
      repeat no id, and every child id is either stored for this task or not stored at all. */
  lemma ReconcileSucceeds(db: Db, t: TaskState)
    requires t.Valid()
    requires t.record.id in db.tasks && t.record.projectId in db.projects
    requires DistinctIds(t.history, HistoryId) && DistinctIds(t.comments, CommentId)
    requires forall h | h in t.history :: h.id in HistoryIdsOf(db, t.record.id) || h.id !in db.histories
    requires forall c | c in t.comments :: c.id in CommentIdsOf(db, t.record.id) || c.id !in db.comments
    ensures Reconcile(db, t).Some?
  {
    NewChildrenOwned(db, t);
    UnsavedDistinct(t.history, HistoryIdsOf(db, t.record.id), HistoryId);
    UnsavedDistinct(t.comments, CommentIdsOf(db, t.record.id), CommentId);
  }

  /** Load, mutate, update, load again: when a loaded task only grew (Evolves) by children with
      new ids, the update commits and a fresh load returns the mutated aggregate. */
  lemma {:induction false} ReconcileStoresAggregate(db: Db, s: TaskState, t: TaskState)
    requires Valid(db) && LoadedTask(db, s)
    requires Evolves(s, t) && t.Valid()
    requires DistinctIds(t.history, HistoryId) && DistinctIds(t.comments, CommentId)
    requires forall h | h in t.history :: h in s.history || h.id !in db.histories
    requires forall c | c in t.comments :: c in s.comments || c.id !in db.comments
    ensures Reconcile(db, t).Some?
    ensures Valid(Reconcile(db, t).value) && LoadedTask(Reconcile(db, t).value, t)
  {
    var id := t.record.id;
    assert s.record.id == id;
    assert t.record.projectId in db.projects by {
      assert RecordProject(db.tasks[id]) in db.projects;
    }
    forall h | h in t.history
      ensures h.id in HistoryIdsOf(db, id) || h.id !in db.histories
    {
      if h in s.history {
        assert h.id in IdsOf(s.history, HistoryId);
      }
    }
    forall c | c in t.comments
      ensures c.id in CommentIdsOf(db, id) || c.id !in db.comments
    {
      if c in s.comments {
        assert c.id in IdsOf(s.comments, CommentId);
      }
    }
    ReconcileSucceeds(db, t);
    ReconcileValid(db, t);
    ReconcileStoresChildren(db, s, t);
  }

  /** The history and comment halves of ReconcileStoresAggregate. */
  lemma ReconcileStoresChildren(db: Db, s: TaskState, t: TaskState)
    requires LoadedTask(db, s) && Evolves(s, t) && t.Valid()
    requires DistinctIds(t.history, HistoryId) && DistinctIds(t.comments, CommentId)
    requires forall h | h in t.history :: h in s.history || h.id !in db.histories
    requires forall c | c in t.comments :: c in s.comments || c.id !in db.comments
    requires Reconcile(db, t).Some?
    ensures LoadedTask(Reconcile(db, t).value, t)
  {
    var id := t.record.id;
    assert s.record.id == id;
    UpdatedListed(db.histories, s.history, t.history, HistoryId, HistoryTask, id);
    UpdatedListed(db.comments, s.comments, t.comments, CommentId, CommentTask, id);
  }

  /** The tables once a loaded task's status is set and the task is written back: the new status
      in its row and, when it changed, one new history entry. */
  function StatusChangeStored(db: Db, id: Guid, status: TaskStatus, userId: Guid, entry: Stamp): Db
    requires id in db.tasks
  {
    if db.tasks[id].status == status then db
    else
      db.(tasks := db.tasks[id := db.tasks[id].(status := status)],
          histories := db.histories[entry.id := NewTaskHistory(StatusChangeDescription(status), id, entry, Some(userId))])
  }

  /** The tables once a comment is added to a loaded task and the task is written back: one new
      comment and one new history entry. */
  function CommentStored(db: Db, id: Guid, content: string, userId: Guid, comment: Stamp, entry: Stamp): Db
  {
    db.(histories := db.histories[entry.id := NewTaskHistory(CommentDescription(content), id, entry, Some(userId))],
        comments := db.comments[comment.id := NewComment(content, userId, id, comment)])
  }

  /** The commit Reconcile makes once the two id-diffs are known. */
  lemma ReconcileWith(db: Db, t: TaskState, hs: seq<TaskHistory>, cs: seq<Comment>)
    requires t.record.id in db.tasks && NewHistories(db, t) == hs && NewComments(db, t) == cs
    requires Admits(db, t.record, hs, cs)
    ensures Reconcile(db, t) == Some(Written(db, t.record, hs, cs))
  {
  }

  /** Load, UpdateStatus, UpdateAsync: the update commits just the new status and, when it
      changed (and so the entry, with a new id, was made), the one new entry. */
  lemma StatusUpdateReconciled(db: Db, s: TaskState, status: TaskStatus, userId: Guid, entry: Stamp)
    requires Linked(db) && LoadedTask(db, s)
    requires s.record.status != status ==> entry.id !in db.histories
    ensures Reconcile(db, StatusUpdated(s, status, userId, entry)) == Some(StatusChangeStored(db, s.record.id, status, userId, entry))
  {
    var id := s.record.id;
    var t := StatusUpdated(s, status, userId, entry);
    UnsavedOfStored(s.history, HistoryIdsOf(db, id), HistoryId);
    UnsavedOfStored(s.comments, CommentIdsOf(db, id), CommentId);
    assert s.record.projectId in db.projects by {
      assert RecordProject(db.tasks[id]) in db.projects;
    }
    if s.record.status == status {
      ReconcileWith(db, t, [], []);
      WrittenNothing(db, s.record);
    } else {
      var e := NewTaskHistory(StatusChangeDescription(status), id, entry, Some(userId));
      assert t.history == s.history + [e];
      UnsavedSnoc(s.history, e, HistoryIdsOf(db, id), HistoryId);
      ReconcileWith(db, t, [e], []);
      InsertOne(db.histories, e, HistoryId);
      InsertNone(db.comments, CommentId);
    }
  }

  /** Load, AddComment, UpdateAsync: with new ids for the comment and the entry, the update
      commits just those two rows. */
  lemma CommentReconciled(db: Db, s: TaskState, content: string, userId: Guid, comment: Stamp, entry: Stamp)
    requires Linked(db) && LoadedTask(db, s)
    requires entry.id !in db.histories && comment.id !in db.comments
    ensures Reconcile(db, CommentAdded(s, content, userId, comment, entry)) == Some(CommentStored(db, s.record.id, content, userId, comment, entry))
  {
    var id := s.record.id;
    var t := CommentAdded(s, content, userId, comment, entry);
    var e := NewTaskHistory(CommentDescription(content), id, entry, Some(userId));
    var c := NewComment(content, userId, id, comment);
    UnsavedOfStored(s.history, HistoryIdsOf(db, id), HistoryId);
    UnsavedOfStored(s.comments, CommentIdsOf(db, id), CommentId);
    assert s.record.projectId in db.projects by {
      assert RecordProject(db.tasks[id]) in db.projects;
    }
    assert t.history == s.history + [e] && t.comments == s.comments + [c];
    UnsavedSnoc(s.history, e, HistoryIdsOf(db, id), HistoryId);
    UnsavedSnoc(s.comments, c, CommentIdsOf(db, id), CommentId);
    ReconcileWith(db, t, [e], [c]);
    InsertOne(db.histories, e, HistoryId);
    InsertOne(db.comments, c, CommentId);
    SameRow(db.tasks, s.record);
  }

  /** Load a task, add one comment, change its status, update: a fresh load shows the original
      children plus the new ones (two more history entries, one more comment), none lost and none
      duplicated; a second update changes nothing. */
  lemma CommentAndStatusScenario(db: Db, s: TaskState, content: string, userId: Guid, status: TaskStatus,
                                 comment: Stamp, first: Stamp, second: Stamp)
    requires Valid(db) && LoadedTask(db, s) && status != s.record.status
    requires comment.id !in db.comments && first.id !in db.histories && second.id !in db.histories
    requires first.id != second.id
    ensures var t := StatusUpdated(CommentAdded(s, content, userId, comment, first), status, userId, second);
            && Reconcile(db, t).Some?
            && |HistoryIdsOf(Reconcile(db, t).value, s.record.id)| == |HistoryIdsOf(db, s.record.id)| + 2
            && |CommentIdsOf(Reconcile(db, t).value, s.record.id)| == |CommentIdsOf(db, s.record.id)| + 1
            && Reconcile(Reconcile(db, t).value, t) == Reconcile(db, t)
  {
    var id := s.record.id;
    var u := CommentAdded(s, content, userId, comment, first);
    var t := StatusUpdated(u, status, userId, second);
    LoadedTaskValid(db, s);
    EvolvesTransitive(s, u, t);
    var h1, h2, c := u.history[|s.history|], t.history[|u.history|], u.comments[|s.comments|];
    assert t.history == s.history + [h1] + [h2];
    assert t.comments == s.comments + [c];
    assert h1.id !in IdsOf(s.history, HistoryId) && c.id !in IdsOf(s.comments, CommentId);
    DistinctSnoc(s.history, h1, HistoryId);
    IdsOfSnoc(s.history, h1, HistoryId);
    DistinctSnoc(s.history + [h1], h2, HistoryId);
    DistinctSnoc(s.comments, c, CommentId);
    ReconcileStoresAggregate(db, s, t);
    var d := Reconcile(db, t).value;
    ListsCount(s.history, db.histories, HistoryIdsOf(db, id), HistoryId);
    ListsCount(s.comments, db.comments, CommentIdsOf(db, id), CommentId);
    ListsCount(t.history, d.histories, HistoryIdsOf(d, id), HistoryId);
    ListsCount(t.comments, d.comments, CommentIdsOf(d, id), CommentId);
    ReconcileIdempotent(db, t);
  }

  /** A loaded task with one history entry, given a new status and written back: the store
      holds the new status and two history entries for the task. */
  lemma SingleEntryThenStatus(d: Db, s: TaskState, status: TaskStatus, userId: Guid, entry: Stamp)
    requires Linked(d) && LoadedTask(d, s) && |s.history| == 1
    requires s.record.status != status && entry.id !in d.histories
    ensures Reconcile(d, StatusUpdated(s, status, userId, entry)).Some?
    ensures Reconcile(d, StatusUpdated(s, status, userId, entry)).value.tasks[s.record.id].status == status
    ensures |HistoryIdsOf(Reconcile(d, StatusUpdated(s, status, userId, entry)).value, s.record.id)| == 2
  {
    var id := s.record.id;
    StatusUpdateReconciled(d, s, status, userId, entry);
    var e := NewTaskHistory(StatusChangeDescription(status), id, entry, Some(userId));
    var r := StatusChangeStored(d, id, status, userId, entry);
    assert r.histories == d.histories[entry.id := e];
    OwnedAfterPut(d.histories, entry.id, e, HistoryTask, id);
    var h0 := s.history[0];
    assert HistoryIdsOf(d, id) == {h0.id} by {
      assert s.history == [h0];
      forall x | x in IdsOf(s.history, HistoryId) ensures x == h0.id {}
      assert h0 in s.history && HistoryId(h0) == h0.id;
      assert IdsOf(s.history, HistoryId) == {h0.id};
    }
    assert h0.id in d.histories;
    assert HistoryIdsOf(r, id) == {h0.id, entry.id};
  }

  /** Create a task, load it, set a new status, update: the store holds the new status and two
      history entries for the task, the creation record and the transition. */
  lemma CreateThenStatusScenario(db: Db, t0: TaskState, status: TaskStatus, userId: Guid, entry: Stamp)
    requires Valid(db) && t0.Valid() && |t0.history| == 1 && t0.record.status == Pending && status != Pending
    requires AddTask(db, t0).Some? && entry.id !in AddTask(db, t0).value.histories
    ensures var r := Reconcile(AddTask(db, t0).value, StatusUpdated(t0, status, userId, entry));
            && r.Some?
            && r.value.tasks[t0.record.id].status == status
            && |HistoryIdsOf(r.value, t0.record.id)| == 2
  {
    AddTaskStores(db, t0);
    SingleEntryThenStatus(AddTask(db, t0).value, t0, status, userId, entry);
  }
}
