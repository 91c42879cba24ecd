/** The task endpoints: each action loads what it needs, calls at most one repository write, and
    maps the outcome to a reply. A write the database refuses surfaces as ServerError. */
module TasksApi {
  import opened Common
  import opened Tasks
  import opened Projects
  import opened Database
  import opened Reconciliation
  import opened CompletionQuery
  import opened Repositories
  import opened TaskResponses

  const ProjectNotFound: string := "Project not found"

  const ProjectFull: string := "Project has reached the maximum number of tasks (20)"

  /** The window of the completion report, in days. */
  const ReportDays: int := 30

  /** The completion report, without its floating-point average. */
  datatype CompletionReport = CompletionReport(userId: Guid, completedTasksLast30Days: nat)

  function FromTasks(ts: seq<TaskState>): (rs: seq<TaskResponse>)
    ensures |rs| == |ts| && forall i | 0 <= i < |ts| :: rs[i] == FromTask(ts[i])
  {
    seq(|ts|, i requires 0 <= i < |ts| => FromTask(ts[i]))
  }

  class TasksController {
    /** The one database context both repositories of the controller share. */
    const store: Store

    constructor (store: Store)
      ensures this.store == store
    {
      this.store := store;
    }

    /** GET project/{projectId}: the project's stored tasks, mapped, in the order they load. */
    method GetProjectTasks(projectId: Guid) returns (r: ActionResult<seq<TaskResponse>>)
      requires store.Valid()
      ensures r.Ok? && exists ts | ProjectTasksListed(store.Tables(), projectId, ts) :: r.value == FromTasks(ts)
    {
      var ts := store.GetProjectTasks(projectId);
      r := Ok(FromTasks(ts));
    }

    /** POST: a new task in an existing project that has room for it. `id` and `entry` are what
        Guid.NewGuid() and the clock give the task and its creation entry. */
    method Create(title: string, description: string, dueDate: DateTime, priority: TaskPriority,
                  projectId: Guid, id: Guid, entry: Stamp) returns (r: ActionResult<TaskResponse>)
      requires store.Valid()
      modifies store
      ensures store.Valid()
      ensures projectId !in old(store.projects) ==>
        r == NotFound(Some(ProjectNotFound)) && store.Tables() == old(store.Tables()) && store.log == old(store.log)
      ensures projectId in old(store.projects) && |ProjectTaskIds(old(store.Tables()), projectId)| >= MaxTasks ==>
        r == BadRequest(ProjectFull) && store.Tables() == old(store.Tables()) && store.log == old(store.log)
      ensures projectId in old(store.projects) && |ProjectTaskIds(old(store.Tables()), projectId)| < MaxTasks ==>
        var t := NewTask(title, description, dueDate, priority, projectId, id, entry);
        && store.log == old(store.log) + [CreateTaskCall(id)]
        && (r == Created(FromTask(t)) || r == ServerError)
        && (r.Created? <==> AddTask(old(store.Tables()), t).Some?)
        && (r.Created? ==> store.Tables() == AddTask(old(store.Tables()), t).value && LoadedTask(store.Tables(), t))
        && (r.ServerError? ==> store.Tables() == old(store.Tables()))
        && (id !in old(store.tasks) && entry.id !in old(store.histories) ==> r.Created?)
      /** The capacity guard: no call takes a project beyond twenty stored tasks. */
      ensures |ProjectTaskIds(old(store.Tables()), projectId)| <= MaxTasks ==>
        |ProjectTaskIds(store.Tables(), projectId)| <= MaxTasks
    {
      var project := store.GetProjectById(projectId);
      if project.None? {
        return NotFound(Some(ProjectNotFound));
      }
      LoadedProjectCount(store.Tables(), project.value);
      if !project.value.CanAddTask() {
        return BadRequest(ProjectFull);
      }
      ghost var before := store.Tables();
      var task := new Task(title, description, dueDate, priority, projectId, id, entry);
      var ok := store.Create(task);
      if id !in before.tasks && entry.id !in before.histories {
        NewTaskAccepted(before, title, description, dueDate, priority, projectId, id, entry);
      }
      if ok {
        AddTaskStores(before, task.Value());
        AddTaskCounts(before, task.Value());
        r := Created(FromTask(task.Value()));
      } else {
        r := ServerError;
      }
    }

    /** PUT {id}/status: load, set the status on behalf of `userId`, write back. `entry` is the
        id and time the status-change entry would get. */
    method UpdateStatus(id: Guid, status: TaskStatus, userId: Guid, entry: Stamp) returns (r: ActionResult<()>)
      requires store.Valid()
      modifies store
      ensures store.Valid()
      ensures id !in old(store.tasks) ==>
        r == NotFound(None) && store.Tables() == old(store.Tables()) && store.log == old(store.log)
      ensures id in old(store.tasks) ==>
        && store.log == old(store.log) + [UpdateTaskCall(id)]
        && (r == NoContent || r == ServerError)
        && (r.ServerError? ==> store.Tables() == old(store.Tables()))
        && (old(store.tasks)[id].status == status ==> r == NoContent && store.Tables() == old(store.Tables()))
        && (entry.id !in old(store.histories) ==>
              r == NoContent && store.Tables() == StatusChangeStored(old(store.Tables()), id, status, userId, entry))
    {
      var task := store.GetById(id);
      if task == null {
        return NotFound(None);
      }
      ghost var before := store.Tables();
      ghost var loaded := task.Value();
      task.UpdateStatus(status, userId, entry);
      var ok := store.Update(task);
      if loaded.record.status == status || entry.id !in before.histories {
        StatusUpdateReconciled(before, loaded, status, userId, entry);
      }
      if ok {
        ReconcileValid(before, task.Value());
        r := NoContent;
      } else {
        r := ServerError;
      }
    }

    /** POST {id}/comments: load, add the comment on behalf of `userId`, write back, and reply with
        the comment just added. `comment` and `entry` are the ids and times the new comment and its
        history entry would get. */
    method AddComment(id: Guid, content: string, userId: Guid, comment: Stamp, entry: Stamp)
      returns (r: ActionResult<CommentResponse>)
      requires store.Valid()
      modifies store
      ensures store.Valid()
      ensures id !in old(store.tasks) ==>
        r == NotFound(None) && store.Tables() == old(store.Tables()) && store.log == old(store.log)
      ensures id in old(store.tasks) ==>
        && store.log == old(store.log) + [UpdateTaskCall(id)]
        && (r == Ok(CommentResponse(comment.id, content, comment.now, userId)) || r == ServerError)
        && (r.ServerError? ==> store.Tables() == old(store.Tables()))
        && (entry.id !in old(store.histories) && comment.id !in old(store.comments) ==>
              r.Ok? && store.Tables() == CommentStored(old(store.Tables()), id, content, userId, comment, entry))
    {
      var task := store.GetById(id);
      if task == null {
        return NotFound(None);
      }
      ghost var before := store.Tables();
      ghost var loaded := task.Value();
      task.AddComment(content, userId, comment, entry);
      var ok := store.Update(task);
      if entry.id !in before.histories && comment.id !in before.comments {
        CommentReconciled(before, loaded, content, userId, comment, entry);
      }
      if ok {
        ReconcileValid(before, task.Value());
        var added := task.comments[|task.comments| - 1];
        r := Ok(FromComment(added));
      } else {
        r := ServerError;
      }
    }

    /** DELETE {id}: the task goes, with its history and comments. */
    method Delete(id: Guid) returns (r: ActionResult<()>)
      requires store.Valid()
      modifies store
      ensures store.Valid()
      ensures id !in old(store.tasks) ==>
        r == NotFound(None) && store.Tables() == old(store.Tables()) && store.log == old(store.log)
      ensures id in old(store.tasks) ==>
        && r == NoContent
        && store.Tables() == RemoveTask(old(store.Tables()), id).value
        && store.log == old(store.log) + [DeleteTaskCall(id)]
    {
      var task := store.GetById(id);
      if task == null {
        return NotFound(None);
      }
      ghost var before := store.Tables();
      var ok := store.Delete(task);
      RemoveTaskCascades(before, id);
      r := if ok then NoContent else ServerError;
    }

    /** GET reports/completion: managers only; the user's completed tasks over the last 30 days,
        with the clock reading `now`. */
    method GetCompletionReport(userId: Guid, isManager: bool, now: DateTime) returns (r: ActionResult<CompletionReport>)
      ensures !isManager ==> r == Unauthorized
      ensures isManager ==> r == Ok(CompletionReport(userId, CompletedCount(store.Tables(), userId, Cutoff(now, ReportDays))))
    {
      if !isManager {
        return Unauthorized;
      }
      var completedTasksCount := store.GetCompletedTasksCountInLastDays(userId, ReportDays, now);
      r := Ok(CompletionReport(userId, completedTasksCount));
    }
  }
}
