/** The repositories over one shared database context: TaskRepository in full, and the
    project lookups and writes of ProjectRepository as plain table operations. Every write ends
    in one SaveChanges, so it either commits as a whole or leaves the tables as they were. */
module Repositories {
  import opened Common
  import opened TaskHistories
  import opened Comments
  import opened Tasks
  import opened Projects
  import opened ChildTables
  import opened Database
  import opened Reconciliation
  import opened CompletionQuery

  /** The repository writes, as a test double records them. */
  datatype StoreCall =
    | CreateTaskCall(taskId: Guid)
    | UpdateTaskCall(taskId: Guid)
    | DeleteTaskCall(taskId: Guid)
    | CreateProjectCall(projectId: Guid)
    | DeleteProjectCall(projectId: Guid)

  function StateId(s: TaskState): Guid
  {
    s.record.id
  }

  function ProjectIdOf(p: Project): Guid
  {
    p.id
  }

  /** `ts` is what GetProjectTasksAsync(projectId) returns: every stored task of the project,
      once each, fully loaded. */
  predicate ProjectTasksListed(db: Db, projectId: Guid, ts: seq<TaskState>)
  {
    && IdsOf(ts, StateId) == ProjectTaskIds(db, projectId)
    && DistinctIds(ts, StateId)
    && forall s | s in ts :: LoadedTask(db, s)
  }

  /** `ps` is what GetUserProjectsAsync(userId) returns: every stored project of the user, once
      each, with its tasks. */
  predicate UserProjectsListed(db: Db, userId: Guid, ps: seq<Project>)
  {
    && IdsOf(ps, ProjectIdOf) == UserProjectIds(db, userId)
    && DistinctIds(ps, ProjectIdOf)
    && forall p | p in ps :: LoadedProject(db, p)
  }

  class Store {
    var projects: map<Guid, ProjectRecord>
    var tasks: map<Guid, TaskRecord>
    var histories: map<Guid, TaskHistory>
    var comments: map<Guid, Comment>
    /** Every repository write made so far, in order. */
    ghost var log: seq<StoreCall>

    function Tables(): Db
      reads this
    {
      Db(projects, tasks, histories, comments)
    }

    ghost predicate Valid()
      reads this
    {
      Database.Valid(Tables())
    }

    constructor ()
      ensures Tables() == Empty && log == [] && Valid()
    {
      projects, tasks, histories, comments := map[], map[], map[], map[];
      log := [];
    }

    /** Puts a committed state in place. */
    method Commit(d: Db)
      modifies this`projects, this`tasks, this`histories, this`comments
      ensures Tables() == d
    {
      projects, tasks, histories, comments := d.projects, d.tasks, d.histories, d.comments;
    }

    /** One task with its History and Comments included, in the order the store lists them. */
    method LoadTask(id: Guid) returns (s: TaskState)
      requires id in tasks && Keyed(Tables())
      ensures LoadedTask(Tables(), s) && s.record.id == id
    {
      var hs := ListRows(histories, Owned(histories, HistoryTask, id), HistoryId);
      var cs := ListRows(comments, Owned(comments, CommentTask, id), CommentId);
      s := TaskState(tasks[id], hs, cs);
    }

    /** GetByIdAsync: the stored task as a fresh in-memory aggregate, or null. */
    method GetById(id: Guid) returns (t: Task?)
      requires Valid()
      ensures t == null <==> id !in tasks
      ensures t != null ==> fresh(t) && t.Valid() && t.id == id && LoadedTask(Tables(), t.Value())
    {
      if id in tasks {
        var s := LoadTask(id);
        LoadedTaskValid(Tables(), s);
        t := new Task.Materialize(s);
      } else {
        t := null;
      }
    }

    /** GetProjectTasksAsync: exactly the stored tasks whose ProjectId is `projectId`. */
    method GetProjectTasks(projectId: Guid) returns (ts: seq<TaskState>)
      requires Valid()
      ensures ProjectTasksListed(Tables(), projectId, ts)
    {
      ghost var db := Tables();
      var ks := Enumerate(Owned(tasks, RecordProject, projectId));
      ts := [];
      for i := 0 to |ks|
        invariant |ts| == i
        invariant forall j | 0 <= j < i :: StateId(ts[j]) == ks[j]
        invariant forall s | s in ts :: LoadedTask(db, s)
      {
        assert ks[i] in ks;
        var s := LoadTask(ks[i]);
        ts := ts + [s];
      }
      EnumeratedIds(ts, ks, ProjectTaskIds(db, projectId), StateId);
    }

    /** CreateAsync: Tasks.Add(task) and SaveChanges. */
    method Create(task: Task) returns (ok: bool)
      modifies this
      ensures ok == AddTask(old(Tables()), task.Value()).Some?
      ensures Tables() == if ok then AddTask(old(Tables()), task.Value()).value else old(Tables())
      ensures log == old(log) + [CreateTaskCall(task.id)]
    {
      var d := AddTask(Tables(), task.Value());
      ok := d.Some?;
      if ok {
        Commit(d.value);
      }
      log := log + [CreateTaskCall(task.id)];
    }

    /** UpdateAsync: the task row is marked modified; the stored history ids and comment ids of
        the task are read, the in-memory children with other ids are marked added, and one
        SaveChanges commits it all. */
    method Update(task: Task) returns (ok: bool)
      modifies this
      ensures ok == Reconcile(old(Tables()), task.Value()).Some?
      ensures Tables() == if ok then Reconcile(old(Tables()), task.Value()).value else old(Tables())
      ensures log == old(log) + [UpdateTaskCall(task.id)]
    {
      var id := task.id;
      var newHistories := CollectUnsaved(task.history, Owned(histories, HistoryTask, id), HistoryId);
      var newComments := CollectUnsaved(task.comments, Owned(comments, CommentTask, id), CommentId);
      var addedHistories := CollectRows(newHistories, HistoryId);
      var addedComments := CollectRows(newComments, CommentId);
      var record := task.Record();
      ok := id in tasks && Admits(Tables(), record, newHistories, newComments);
      if ok {
        tasks := tasks[id := record];
        histories := histories + addedHistories;
        comments := comments + addedComments;
      }
      log := log + [UpdateTaskCall(id)];
    }

    /** DeleteAsync: Tasks.Remove(task) and SaveChanges; the children go with the task. */
    method Delete(task: Task) returns (ok: bool)
      modifies this
      ensures ok == RemoveTask(old(Tables()), task.id).Some?
      ensures Tables() == if ok then RemoveTask(old(Tables()), task.id).value else old(Tables())
      ensures log == old(log) + [DeleteTaskCall(task.id)]
    {
      var d := RemoveTask(Tables(), task.id);
      ok := d.Some?;
      if ok {
        Commit(d.value);
      }
      log := log + [DeleteTaskCall(task.id)];
    }

    /** GetCompletedTasksCountInLastDaysAsync, with the clock reading `now`. */
    method GetCompletedTasksCountInLastDays(userId: Guid, days: int, now: DateTime) returns (n: nat)
      ensures n == CompletedCount(Tables(), userId, Cutoff(now, days))
    {
      var cutoffDate := Cutoff(now, days);
      n := CompletedCount(Tables(), userId, cutoffDate);
    }

    /** ProjectRepository.GetByIdAsync: the project with its Tasks included, or nothing. */
    method GetProjectById(id: Guid) returns (p: Option<Project>)
      requires Valid()
      ensures p.None? <==> id !in projects
      ensures p.Some? ==> p.value.id == id && LoadedProject(Tables(), p.value)
    {
      if id in projects {
        var r := projects[id];
        var ts := ListRows(tasks, Owned(tasks, RecordProject, id), RecordId);
        p := Some(Project(r.id, r.name, r.description, r.userId, r.createdAt, ts));
      } else {
        p := None;
      }
    }

    /** ProjectRepository.GetUserProjectsAsync: the user's projects with their Tasks included. */
    method GetUserProjects(userId: Guid) returns (ps: seq<Project>)
      requires Valid()
      ensures UserProjectsListed(Tables(), userId, ps)
    {
      var ks := Enumerate(Owned(projects, ProjectUser, userId));
      ps := [];
      for i := 0 to |ks|
        invariant |ps| == i
        invariant forall j | 0 <= j < i :: ProjectIdOf(ps[j]) == ks[j] && LoadedProject(Tables(), ps[j])
      {
        assert ks[i] in ks;
        var p := GetProjectById(ks[i]);
        ps := ps + [p.value];
      }
      EnumeratedIds(ps, ks, UserProjectIds(Tables(), userId), ProjectIdOf);
    }

    /** ProjectRepository.CreateAsync, for a project as its constructor builds it. */
    method CreateProject(p: Project) returns (ok: bool)
      modifies this
      ensures ok == AddProject(old(Tables()), ProjectRecordOf(p)).Some?
      ensures Tables() == if ok then AddProject(old(Tables()), ProjectRecordOf(p)).value else old(Tables())
      ensures log == old(log) + [CreateProjectCall(p.id)]
    {
      var d := AddProject(Tables(), ProjectRecordOf(p));
      ok := d.Some?;
      if ok {
        Commit(d.value);
      }
      log := log + [CreateProjectCall(p.id)];
    }

    /** ProjectRepository.DeleteAsync: the project goes, with its tasks and their children. */
    method DeleteProject(p: Project) returns (ok: bool)
      modifies this
      ensures ok == RemoveProject(old(Tables()), p.id).Some?
      ensures Tables() == if ok then RemoveProject(old(Tables()), p.id).value else old(Tables())
      ensures log == old(log) + [DeleteProjectCall(p.id)]
    {
      var d := RemoveProject(Tables(), p.id);
      ok := d.Some?;
      if ok {
        Commit(d.value);
      }
      log := log + [DeleteProjectCall(p.id)];
    }
  }
}
