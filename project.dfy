/** The Project aggregate: a named owner of tasks that admits a new one only while it has fewer
    than twenty, and is deletable once all are done. Both guards are advisory: the aggregate
    itself never refuses a task. */
module Projects {
  import opened Common
  import opened Tasks

  /** The capacity CanAddTask checks against. */
  const MaxTasks: nat := 20

  datatype Project = Project(
    id: Guid,
    name: string,
    description: string,
    userId: Guid,
    createdAt: DateTime,
    tasks: seq<TaskRecord>)
  {
    /** No task is in a status other than Completed (vacuously so for no tasks). */
    predicate CanBeDeleted(): (r: bool)
      ensures r <==> forall i | 0 <= i < |tasks| :: tasks[i].status == Completed
    {
      !exists t | t in tasks :: t.status != Completed
    }

    /** The project has room for one more task: adding it keeps the project within capacity. */
    predicate CanAddTask(): (r: bool)
      ensures r <==> |tasks| + 1 <= MaxTasks
    {
      |tasks| < MaxTasks
    }
  }

  /** The public constructor: a new id, the clock's time, and no tasks. */
  function NewProject(name: string, description: string, userId: Guid, stamp: Stamp): (p: Project)
    ensures p.tasks == [] && p.CanBeDeleted() && p.CanAddTask()
    ensures p.id == stamp.id && p.createdAt == stamp.now
    ensures p.name == name && p.description == description && p.userId == userId
  {
    Project(stamp.id, name, description, userId, stamp.now, [])
  }

  /** project.Tasks.Add(task) */
  function WithTask(p: Project, t: TaskRecord): (q: Project)
    ensures q.tasks == p.tasks + [t] && q.(tasks := p.tasks) == p
  {
    p.(tasks := p.tasks + [t])
  }

  /** project.Tasks[i].UpdateStatus(Completed, ...) seen from the project's task list. */
  function CompleteTask(p: Project, i: nat): (q: Project)
    requires i < |p.tasks|
    ensures |q.tasks| == |p.tasks| && q.tasks[i].status == Completed
    ensures forall j | 0 <= j < |p.tasks| && j != i :: q.tasks[j] == p.tasks[j]
  {
    p.(tasks := p.tasks[i := p.tasks[i].(status := Completed)])
  }

  function AddAll(p: Project, ts: seq<TaskRecord>): (q: Project)
    decreases |ts|
  {
    if ts == [] then p else AddAll(WithTask(p, ts[0]), ts[1..])
  }

  /** Adding tasks one by one appends them, in order, and changes nothing else. */
  lemma {:induction false} AddAllAppends(p: Project, ts: seq<TaskRecord>)
    ensures AddAll(p, ts) == p.(tasks := p.tasks + ts)
    decreases |ts|
  {
    if ts != [] {
      AddAllAppends(WithTask(p, ts[0]), ts[1..]);
      assert p.tasks + [ts[0]] + ts[1..] == p.tasks + ts;
    }
  }

  /** One task that is not Completed blocks deletion, whatever the others are. */
  lemma OpenTaskBlocksDeletion(p: Project, i: nat)
    requires i < |p.tasks| && p.tasks[i].status != Completed
    ensures !p.CanBeDeleted()
  {
    assert p.tasks[i] in p.tasks;
  }

  /** A fresh project with n newly built (Pending) tasks added: there is room for more exactly
      while n < 20, and it cannot be deleted as soon as n >= 1. */
  lemma FreshTasksScenario(p: Project, ts: seq<TaskRecord>)
    requires p.tasks == []
    requires forall t | t in ts :: t.status == Pending
    ensures AddAll(p, ts).CanAddTask() <==> |ts| < MaxTasks
    ensures |ts| >= 1 ==> !AddAll(p, ts).CanBeDeleted()
  {
    AddAllAppends(p, ts);
    if |ts| >= 1 {
      OpenTaskBlocksDeletion(AddAll(p, ts), 0);
    }
  }

  /** A project with 19 Completed tasks admits a 20th, is then full, cannot be deleted while the
      20th is open, and can be deleted once it is completed too. */
  lemma CapacityAndDeletionScenario(p: Project, t: TaskRecord)
    requires |p.tasks| == 19 && forall u | u in p.tasks :: u.status == Completed
    requires t.status == Pending
    ensures p.CanAddTask() && !WithTask(p, t).CanAddTask()
    ensures !WithTask(p, t).CanBeDeleted()
    ensures CompleteTask(WithTask(p, t), 19).CanBeDeleted()
  {
    var q := WithTask(p, t);
    OpenTaskBlocksDeletion(q, 19);
    var r := CompleteTask(q, 19);
    forall i | 0 <= i < |r.tasks|
      ensures r.tasks[i].status == Completed
    {
      if i < 19 {
        assert r.tasks[i] == p.tasks[i] && p.tasks[i] in p.tasks;
      }
    }
  }
}
