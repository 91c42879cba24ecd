/** The completion count (TaskRepository.GetCompletedTasksCountInLastDaysAsync): the Completed
    tasks having at least one audit entry by the user at or after a cutoff, each counted once. */
module CompletionQuery {
  import opened Common
  import opened TaskHistories
  import opened Tasks
  import opened Database

  /** `DateTime.UtcNow.AddDays(-days)` on the tick clock (whole days are exact). */
  function Cutoff(now: DateTime, days: int): (c: DateTime)
    ensures c + days * TicksPerDay == now
    ensures days >= 0 ==> c <= now
  {
    now - days * TicksPerDay
  }

  /** The entry is one of task `taskId`'s, by `userId`, no earlier than `cutoff`. Any entry
      qualifies: creation, status change or comment alike. */
  predicate Recent(h: TaskHistory, taskId: Guid, userId: Guid, cutoff: DateTime)
  {
    h.taskId == taskId && h.userId == Some(userId) && h.timestamp >= cutoff
  }

  /** The ids of the Completed tasks. */
  function CompletedIds(db: Db): set<Guid>
  {
    set k | k in db.tasks && db.tasks[k].status == Completed
  }

  /** The ids of the Completed tasks that have a recent entry by `userId`. */
  function CompletedByUser(db: Db, userId: Guid, cutoff: DateTime): set<Guid>
  {
    set k | k in db.tasks && db.tasks[k].status == Completed
            && exists j | j in db.histories :: Recent(db.histories[j], k, userId, cutoff)
  }

  lemma {:induction false} SubsetCard(a: set<Guid>, b: set<Guid>)
    requires a <= b
    ensures |a| <= |b|
    decreases |a|
  {
    if a != {} {
      var x :| x in a;
      SubsetCard(a - {x}, b - {x});
    }
  }

  /** What the query returns. Each qualifying task counts once however many entries qualify it,
      and only Completed tasks count. */
  function CompletedCount(db: Db, userId: Guid, cutoff: DateTime): (n: nat)
    ensures n <= |CompletedIds(db)|
  {
    SubsetCard(CompletedByUser(db, userId, cutoff), CompletedIds(db));
    |CompletedByUser(db, userId, cutoff)|
  }

  /** The query as written over a task loaded with its History: the task counts exactly when it
      is Completed and `t.History.Any(h => h.UserId == userId && h.Timestamp >= cutoff)`. */
  lemma CountedTasks(db: Db, s: TaskState, userId: Guid, cutoff: DateTime)
    requires LoadedTask(db, s)
    ensures s.record.id in CompletedByUser(db, userId, cutoff) <==>
      s.record.status == Completed
      && exists i | 0 <= i < |s.history| :: s.history[i].userId == Some(userId) && s.history[i].timestamp >= cutoff
  {
    var k := s.record.id;
    if k in CompletedByUser(db, userId, cutoff) {
      var j :| j in db.histories && Recent(db.histories[j], k, userId, cutoff);
      assert j in HistoryIdsOf(db, k);
      assert j in IdsOf(s.history, HistoryId);
      var h :| h in s.history && HistoryId(h) == j;
      var i :| 0 <= i < |s.history| && s.history[i] == h;
      assert s.history[i].userId == Some(userId) && s.history[i].timestamp >= cutoff;
    }
    if s.record.status == Completed
       && exists i | 0 <= i < |s.history| :: s.history[i].userId == Some(userId) && s.history[i].timestamp >= cutoff {
      var i :| 0 <= i < |s.history| && s.history[i].userId == Some(userId) && s.history[i].timestamp >= cutoff;
      var h := s.history[i];
      assert h in s.history;
      assert HistoryId(h) in IdsOf(s.history, HistoryId);
      var j := HistoryId(h);
      assert j in db.histories && db.histories[j] == h;
      assert j in HistoryIdsOf(db, k);
      assert Recent(db.histories[j], k, userId, cutoff);
    }
  }

  /** A further qualifying entry for a task already counted does not change the count. */
  lemma CountedOnce(db: Db, userId: Guid, cutoff: DateTime, j: Guid, h: TaskHistory)
    requires h.taskId in CompletedByUser(db, userId, cutoff) && Recent(h, h.taskId, userId, cutoff)
    ensures CompletedCount(db.(histories := db.histories[j := h]), userId, cutoff) == CompletedCount(db, userId, cutoff)
      || j in db.histories
  {
    if j !in db.histories {
      var d := db.(histories := db.histories[j := h]);
      forall k | k in CompletedByUser(db, userId, cutoff)
        ensures k in CompletedByUser(d, userId, cutoff)
      {
        var i :| i in db.histories && Recent(db.histories[i], k, userId, cutoff);
        assert d.histories[i] == db.histories[i];
      }
      forall k | k in CompletedByUser(d, userId, cutoff)
        ensures k in CompletedByUser(db, userId, cutoff)
      {
        var i :| i in d.histories && Recent(d.histories[i], k, userId, cutoff);
        if i != j {
          assert db.histories[i] == d.histories[i];
        }
      }
      assert CompletedByUser(d, userId, cutoff) == CompletedByUser(db, userId, cutoff);
    }
  }

  /** Looking further back never counts fewer tasks. */
  lemma CountMonotone(db: Db, userId: Guid, earlier: DateTime, later: DateTime)
    requires earlier <= later
    ensures CompletedCount(db, userId, later) <= CompletedCount(db, userId, earlier)
  {
    forall k | k in CompletedByUser(db, userId, later)
      ensures k in CompletedByUser(db, userId, earlier)
    {
      var i :| i in db.histories && Recent(db.histories[i], k, userId, later);
      assert Recent(db.histories[i], k, userId, earlier);
    }
    SubsetCard(CompletedByUser(db, userId, later), CompletedByUser(db, userId, earlier));
  }

  /** The count does not look at what an entry says: a Completed task whose only recent entry by
      the user is a comment counts. */
  lemma CommentEntryCounts(userId: Guid, p: Guid, t: TaskRecord, entry: Stamp, content: string, cutoff: DateTime)
    requires t.status == Completed && entry.now >= cutoff
    ensures CompletedCount(Db(map[], map[t.id := t],
                              map[entry.id := NewTaskHistory(CommentDescription(content), t.id, entry, Some(userId))],
                              map[]), userId, cutoff) == 1
  {
    var h := NewTaskHistory(CommentDescription(content), t.id, entry, Some(userId));
    var db := Db(map[], map[t.id := t], map[entry.id := h], map[]);
    assert Recent(db.histories[entry.id], t.id, userId, cutoff);
    assert CompletedByUser(db, userId, cutoff) == {t.id};
  }
}
