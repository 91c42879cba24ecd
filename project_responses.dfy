/** The API's read model of a project: its fields and two counts over its task list. */
module ProjectResponses {
  import opened Common
  import opened Tasks
  import opened Projects

  datatype ProjectResponse = ProjectResponse(
    id: Guid,
    name: string,
    description: string,
    createdAt: DateTime,
    taskCount: nat,
    completedTaskCount: nat)

  /** `tasks.Count(t => t.Status == Completed)`: the number of Completed tasks of the list. */
  function CountCompleted(tasks: seq<TaskRecord>): (n: nat)
    ensures n <= |tasks|
    ensures n == |tasks| <==> forall t | t in tasks :: t.status == Completed
    decreases |tasks|
  {
    if tasks == [] then 0
    else
      assert forall t | t in tasks :: t == tasks[0] || t in tasks[1..];
      (if tasks[0].status == Completed then 1 else 0) + CountCompleted(tasks[1..])
  }

  /** The response's two counts: all tasks, and the Completed ones among them, which are never more
      and are as many exactly when the project may be deleted. */
  function FromProject(p: Project): (r: ProjectResponse)
    ensures r.id == p.id && r.taskCount == |p.tasks| && r.completedTaskCount <= r.taskCount
    ensures r.completedTaskCount == r.taskCount <==> p.CanBeDeleted()
  {
    ProjectResponse(p.id, p.name, p.description, p.createdAt, |p.tasks|, CountCompleted(p.tasks))
  }

  /** FromProject copies the fields, counts all tasks and the Completed ones, never more
      completed than tasks; the two counts agree exactly when the project may be deleted. */
  lemma FromProjectCounts(p: Project)
    ensures var r := FromProject(p);
      && r.id == p.id && r.name == p.name && r.description == p.description && r.createdAt == p.createdAt
      && r.taskCount == |p.tasks|
      && r.completedTaskCount <= r.taskCount
      && (r.completedTaskCount == r.taskCount <==> p.CanBeDeleted())
      && (p.tasks == [] ==> r.taskCount == 0 && r.completedTaskCount == 0)
  {
  }

  /** Appending a task adds one to the task count, and one to the completed count exactly when the
      task is Completed. */
  lemma {:induction false} CountCompletedSnoc(tasks: seq<TaskRecord>, t: TaskRecord)
    ensures CountCompleted(tasks + [t]) == CountCompleted(tasks) + (if t.status == Completed then 1 else 0)
    decreases |tasks|
  {
    if tasks == [] {
      assert ([] + [t])[1..] == [];
    } else {
      assert (tasks + [t])[1..] == tasks[1..] + [t];
      CountCompletedSnoc(tasks[1..], t);
    }
  }

  /** The response of a new project: its fields, and no tasks of either kind. */
  lemma NewProjectResponse(name: string, description: string, userId: Guid, stamp: Stamp)
    ensures FromProject(NewProject(name, description, userId, stamp)) == ProjectResponse(stamp.id, name, description, stamp.now, 0, 0)
  {
  }
}
