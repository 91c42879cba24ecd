/** The project endpoints: listing a user's projects, creating one, and deleting one once every
    task in it is done. */
module ProjectsApi {
  import opened Common
  import opened Projects
  import opened Database
  import opened Repositories
  import opened ProjectResponses

  const PendingTasks: string := "Cannot delete project with pending tasks. Please complete or remove all tasks first."

  function FromProjects(ps: seq<Project>): (rs: seq<ProjectResponse>)
    ensures |rs| == |ps| && forall i | 0 <= i < |ps| :: rs[i] == FromProject(ps[i])
  {
    seq(|ps|, i requires 0 <= i < |ps| => FromProject(ps[i]))
  }

  class ProjectsController {
    const store: Store

    constructor (store: Store)
      ensures this.store == store
    {
      this.store := store;
    }

    /** GET user/{userId}: the user's projects, each with its task counts. */
    method GetUserProjects(userId: Guid) returns (r: ActionResult<seq<ProjectResponse>>)
      requires store.Valid()
      ensures r.Ok? && exists ps | UserProjectsListed(store.Tables(), userId, ps) :: r.value == FromProjects(ps)
    {
      var ps := store.GetUserProjects(userId);
      r := Ok(FromProjects(ps));
    }

    /** POST: a new, empty project. `stamp` is what Guid.NewGuid() and the clock give it. */
    method Create(name: string, description: string, userId: Guid, stamp: Stamp) returns (r: ActionResult<ProjectResponse>)
      requires store.Valid()
      modifies store
      ensures store.Valid()
      ensures var p := NewProject(name, description, userId, stamp);
        && store.log == old(store.log) + [CreateProjectCall(stamp.id)]
        && (r == Created(ProjectResponse(stamp.id, name, description, stamp.now, 0, 0)) || r == ServerError)
        && (r.Created? <==> stamp.id !in old(store.projects))
        && (r.Created? ==> store.Tables() == AddProject(old(store.Tables()), ProjectRecordOf(p)).value
                           && LoadedProject(store.Tables(), p))
        && (r.ServerError? ==> store.Tables() == old(store.Tables()))
    {
      var project := NewProject(name, description, userId, stamp);
      ghost var before := store.Tables();
      var ok := store.CreateProject(project);
      if ok {
        AddProjectStores(before, ProjectRecordOf(project));
        NewProjectResponse(name, description, userId, stamp);
        r := Created(FromProject(project));
      } else {
        r := ServerError;
      }
    }

    /** DELETE {id}: refused while any of the project's tasks is not Completed; otherwise the
        project goes, with its tasks and their children. */
    method Delete(id: Guid) returns (r: ActionResult<()>)
      requires store.Valid()
      modifies store
      ensures store.Valid()
      ensures id !in old(store.projects) ==>
        r == NotFound(None) && store.Tables() == old(store.Tables()) && store.log == old(store.log)
      ensures id in old(store.projects) && !AllTasksCompleted(old(store.Tables()), id) ==>
        r == BadRequest(PendingTasks) && store.Tables() == old(store.Tables()) && store.log == old(store.log)
      ensures id in old(store.projects) && AllTasksCompleted(old(store.Tables()), id) ==>
        && r == NoContent
        && store.Tables() == RemoveProject(old(store.Tables()), id).value
        && store.log == old(store.log) + [DeleteProjectCall(id)]
    {
      var project := store.GetProjectById(id);
      if project.None? {
        return NotFound(None);
      }
      LoadedProjectDeletable(store.Tables(), project.value);
      if !project.value.CanBeDeleted() {
        return BadRequest(PendingTasks);
      }
      ghost var before := store.Tables();
      var ok := store.DeleteProject(project.value);
      RemoveProjectCascades(before, id);
      r := if ok then NoContent else ServerError;
    }
  }
}
