# TaskZ core in Dafny

A model of the domain core of TaskZ, a small project and task tracker, with proofs about it.

- **Task aggregate.** A task has a status (Pending, InProgress, Completed) and two append-only owned lists: the audit history and the comments. Every mutation appends an audit entry. Setting the current status again changes nothing. There is no transition graph.
- **Project aggregate.** A project admits a new task only while it has fewer than twenty. The guard is advisory: the aggregate and the repository accept any task, and the task controller consults the guard before it creates one. A project may be deleted once every task is Completed.
- **Reconciling update.** `TaskRepository.UpdateAsync` writes back a task that was loaded and then mutated in memory.
  - The task row is overwritten.
  - The store reads the history ids and comment ids it already holds for the task. Only in-memory children with other ids are inserted.
  - Everything commits in one save.
- **Other repository operations:** create, delete, the loaders and the completion-count query.
- **Controllers:** the check-then-act sequences of the two controllers.
- **Response mappers:** the functions that build the API's response objects.

Layout, one module per file:

| file | module | what it holds |
|---|---|---|
| `common.dfy` | `Common` | ids, tick-clock time, `Option`, `Stamp`, id sets, controller results |
| `task_history.dfy`, `comment.dfy` | `TaskHistories`, `Comments` | the two immutable child values |
| `task.dfy` | `Tasks` | the `Task` class and the value-level functions that specify its methods |
| `project.dfy` | `Projects` | the `Project` value and its two guards |
| `child_tables.dfy` | `ChildTables` | generic id-keyed tables: the id-diff, inserts, listings and the loops over them |
| `database.dfy` | `Database` | the four tables, their integrity invariant, and each commit as a function |
| `reconciliation.dfy` | `Reconciliation` | the reconciling update as a function, and its properties |
| `completion_query.dfy` | `CompletionQuery` | the completion count |
| `task_repository.dfy` | `Repositories` | the `Store` class: the shared database context behind both repositories |
| `task_responses.dfy`, `project_responses.dfy` | `TaskResponses`, `ProjectResponses` | the response mappers |
| `tasks_controller.dfy`, `projects_controller.dfy` | `TasksApi`, `ProjectsApi` | the two controllers as classes over a `Store` |

How the model works:

- **Ids and the clock.** A Guid is a `nat` and a DateTime is an `int` count of ticks. A `Stamp(id, now)` parameter stands for each `Guid.NewGuid()` / `DateTime.UtcNow` pair. An id is fresh only when a contract assumes it is.
- **The database.** It is four maps from id to row: `Db`. A `SaveChanges` is one atomic commit. A commit that would break a key or a foreign key is refused, and then nothing is written (an `Option<Db>` that is `None`).
- **Methods and their specifications.** Each `Store` method is proved against the function that specifies its commit (`AddTask`, `Reconcile`, `RemoveTask`, `AddProject`, `RemoveProject`). The properties are then proved about those functions.
- **Validity.** `Database.Valid` says every row is stored under its own id, every foreign key names a stored row, and every stored task has at least one audit entry. Every commit of an aggregate that satisfies `TaskState.Valid` preserves it, and every controller action keeps `store.Valid()`.
- **Loaders.** They list rows in an order the store chooses (`ChildTables.Enumerate`).
- **Write log.** A ghost `log` in the `Store` records each repository write. It stands in for the mocks' "called once" and "never called" checks.

A task row loaded with its children, or a project loaded with its tasks, is related to the tables by `LoadedTask` and `LoadedProject`. Each says the lists hold exactly the stored rows of that owner, each once.

Two consequences of the code worth knowing:

- **Completion report.** The count includes a Completed task for any history entry by the user at or after the cutoff, comment entries included (`TaskRepository.cs:91-99`; `CompletionQuery.CommentEntryCounts`).
- **A comment plus a status change** adds one comment and two history entries (`Reconciliation.CommentAndStatusScenario`).

## Model

| member | source | states |
|---|---|---|
| TaskHistories.NewTaskHistory | src/TaskZ.Core/Entities/TaskHistory.cs:13-20 | the entry stores the given description, task id and actor (absent by default), takes a fresh id and the clock's time, and cannot change afterwards |
| Comments.NewComment | src/TaskZ.Core/Entities/Comment.cs:13-20 | the comment stores the given content, author and task id, with a fresh id and the clock's creation time, and cannot change afterwards |
| Tasks.NewTask | src/TaskZ.Core/Entities/Task.cs:19-30 | a new task is Pending, copies title, description, due date, priority and project id, has no comments and exactly one history entry: "Task created", with no actor, for this task; the aggregate invariant holds |
| Tasks.StatusUpdated | src/TaskZ.Core/Entities/Task.cs:32-39 | asking for the current status changes nothing; any other status is set in one call, and exactly one entry "Status changed to S" by the user for this task is appended; comments and every other field are untouched; the invariant is kept |
| Tasks.CommentAdded | src/TaskZ.Core/Entities/Task.cs:41-46 | one comment (content, author, this task) and one entry "Comment added: C" by the user are appended; the task's fields are untouched; the invariant is kept |
| Tasks.EvolvesTransitive | src/TaskZ.Core/Entities/Task.cs:14-15 | growth of the two lists at the end composes across steps |
| Tasks.OperationsOnlyAppend | src/TaskZ.Core/Entities/Task.cs:32-51 | after any sequence of UpdateStatus/AddComment calls the fields other than the status are as built, the old history and comments are prefixes of the new ones, and the history stays non-empty |
| Tasks.RepeatedStatusIsLoggedOnce | src/TaskZ.Core/Entities/Task.cs:34-38 | creating a task and setting InProgress twice leaves exactly two history entries |
| Tasks.Task.constructor | src/TaskZ.Core/Entities/Task.cs:19-30 | the object built is `NewTask` of its arguments |
| Tasks.Task.Materialize | src/TaskZ.Core/Entities/Task.cs:17 | the parameterless constructor plus property setting, as the store materialises a row: the object is exactly the stored aggregate |
| Tasks.Task.UpdateStatus | src/TaskZ.Core/Entities/Task.cs:32-39 | the object's new state is `StatusUpdated` of its old state, and only status and history may change |
| Tasks.Task.AddComment | src/TaskZ.Core/Entities/Task.cs:41-46 | the object's new state is `CommentAdded` of its old state, and only comments and history may change |
| Tasks.Task.AddHistory | src/TaskZ.Core/Entities/Task.cs:48-51 | exactly one entry for this task is appended to the history |
| Projects.NewProject | src/TaskZ.Core/Entities/Project.cs:14-21 | a new project keeps name, description and user, takes a fresh id and the clock's time, has no tasks, and so may take a task and may be deleted |
| Projects.Project.CanBeDeleted | src/TaskZ.Core/Entities/Project.cs:23-26 | holds exactly when every task in the list is Completed, so an empty list is deletable |
| Projects.Project.CanAddTask | src/TaskZ.Core/Entities/Project.cs:28-31 | holds exactly when one more task would still keep the project within its capacity of twenty |
| Projects.OpenTaskBlocksDeletion | src/TaskZ.Core/Entities/Project.cs:25 | one task that is not Completed makes CanBeDeleted false |
| Projects.FreshTasksScenario | src/TaskZ.Core/Entities/Project.cs:23-31 | after n new (Pending) tasks are added to an empty project, CanAddTask holds exactly when n < 20, and CanBeDeleted fails once n >= 1 |
| Projects.CapacityAndDeletionScenario | src/TaskZ.Core/Entities/Project.cs:23-31 | with 19 Completed tasks a 20th may be added, after which the project is full; it cannot be deleted while the 20th is open, and can be once it is Completed |
| ChildTables.Unsaved | src/TaskZ.Infrastructure/Repositories/TaskRepository.cs:59-61 | the id-diff keeps exactly the in-memory children whose ids are not stored, and no others |
| ChildTables.UnsavedOfStored | src/TaskZ.Infrastructure/Repositories/TaskRepository.cs:59-61 | when every in-memory id is stored, nothing is new |
| ChildTables.UnsavedIds | src/TaskZ.Infrastructure/Repositories/TaskRepository.cs:59-61 | the stored ids together with the new ones are the stored ids together with all in-memory ones |
| ChildTables.UnsavedDistinct | src/TaskZ.Infrastructure/Repositories/TaskRepository.cs:59-61 | the new children repeat no id when the in-memory list repeats none |
| ChildTables.CollectUnsaved | src/TaskZ.Infrastructure/Repositories/TaskRepository.cs:59-61 | the filtering loop computes the id-diff |
| ChildTables.CollectRows | src/TaskZ.Infrastructure/Repositories/TaskRepository.cs:63-66 | the loop that marks each new child added computes the rows they become |
| ChildTables.Rows | src/TaskZ.Infrastructure/Repositories/TaskRepository.cs:63-66 | the rows inserted are keyed by exactly the children's ids, each row a child stored under its own id |
| ChildTables.OwnedAfterInsert | src/TaskZ.Infrastructure/Repositories/TaskRepository.cs:54-57 | inserting new-keyed rows of one task adds exactly their ids to that task's stored ids, and changes no other task's |
| ChildTables.UpdatedListed | src/TaskZ.Infrastructure/Repositories/TaskRepository.cs:54-80 | if the loaded list listed the stored rows and the in-memory list only grew at the end with new ids, then after inserting the id-diff the in-memory list lists the stored rows |
| ChildTables.Enumerate | src/TaskZ.Infrastructure/Repositories/TaskRepository.cs:20-24 | a query returns every matching key once, in some order |
| ChildTables.ListRows | src/TaskZ.Infrastructure/Repositories/TaskRepository.cs:29-31 | an `Include` loads exactly the owned rows, each once |
| ChildTables.ListsCount | src/TaskZ.Infrastructure/Repositories/ProjectRepository.cs:29 | a listing has as many elements as there are matching rows |
| Database.LoadedTaskValid | src/TaskZ.Infrastructure/Repositories/TaskRepository.cs:27-33 | a task loaded from a valid store has its creation entry, and all its children point back at it |
| Database.LoadedProjectCount | src/TaskZ.Infrastructure/Repositories/ProjectRepository.cs:26-31 | a loaded project lists all its stored tasks, so CanAddTask holds exactly when it has fewer than 20 stored tasks |
| Database.LoadedProjectDeletable | src/TaskZ.Infrastructure/Repositories/ProjectRepository.cs:26-31 | on a loaded project, CanBeDeleted holds exactly when every stored task of the project is Completed |
| Database.AddTask | src/TaskZ.Infrastructure/Repositories/TaskRepository.cs:35-40 | the create commit: refused when the task id is taken or the project is not stored; when it commits, the task row is stored under its id, no other task row or project changes, and no stored child is lost |
| Database.RemoveTask | src/TaskZ.Infrastructure/Repositories/TaskRepository.cs:85-89 | the delete commit: refused exactly when the task is not stored; otherwise its row is gone, no child of it remains, and projects are untouched |
| Database.AddProject | src/TaskZ.Infrastructure/Repositories/ProjectRepository.cs:33-38 | the project create commit: refused exactly when the id is taken; otherwise the project is stored under its id and nothing else changes |
| Database.RemoveProject | src/TaskZ.Infrastructure/Repositories/ProjectRepository.cs:46-50 | the project delete commit: refused exactly when the project is not stored; otherwise it is gone, no remaining task belongs to it, and every remaining child belongs to a remaining task |
| Database.AddTaskCounts | src/TaskZ.Infrastructure/Repositories/TaskRepository.cs:35-40 | a create adds exactly the new task to its project's stored tasks, so their number grows by one; other projects' tasks are unchanged |
| Database.NewTaskAccepted | src/TaskZ.Infrastructure/Repositories/TaskRepository.cs:35-40 | a newly built task commits whenever its project is stored and its ids are new |
| Database.AddTaskStores | src/TaskZ.Infrastructure/Repositories/TaskRepository.cs:35-40 | creating a task keeps the store valid, and a load of its id returns exactly its record, history and comments |
| Database.AddTaskKeepsRows | src/TaskZ.Infrastructure/Repositories/TaskRepository.cs:35-40 | creating a task changes no stored task and removes no stored child or project |
| Database.RemoveTaskCascades | src/TaskZ.Infrastructure/Repositories/TaskRepository.cs:85-89 | deleting a task removes it and all its history and comments, keeps every other row as it was, and keeps the store valid |
| Database.AddProjectStores | src/TaskZ.Infrastructure/Repositories/ProjectRepository.cs:33-38 | creating a project stores it with no tasks, changes nothing else, and keeps the store valid |
| Database.RemoveProjectCascades | src/TaskZ.Infrastructure/Repositories/ProjectRepository.cs:46-50 | deleting a project removes it and its tasks (with their children, by the second cascade); every other project row, task row, and child row of a surviving task is kept unchanged; the store stays valid |
| Reconciliation.Reconcile | src/TaskZ.Infrastructure/Repositories/TaskRepository.cs:42-83 | the update commit: refused when the task or its project is not stored (or a child would break a key or foreign key); when it commits, the task row is overwritten with the in-memory fields and no other task row or project changes |
| Reconciliation.ReconcileValid | src/TaskZ.Infrastructure/Repositories/TaskRepository.cs:42-83 | the update keeps the store valid |
| Reconciliation.ReconcileKeepsStored | src/TaskZ.Infrastructure/Repositories/TaskRepository.cs:54-80 | no stored history entry or comment is rewritten or deleted, even if missing from memory; only the task row is overwritten; projects are untouched |
| Reconciliation.ReconcileComplete | src/TaskZ.Infrastructure/Repositories/TaskRepository.cs:54-80 | afterwards the task's stored history ids (and, independently, comment ids) are the old ones together with all in-memory ones; every other task's are unchanged |
| Reconciliation.ReconcileIdempotent | src/TaskZ.Infrastructure/Repositories/TaskRepository.cs:54-80 | a second update with no mutation in between inserts nothing and changes nothing |
| Reconciliation.ReconcileSucceeds | src/TaskZ.Infrastructure/Repositories/TaskRepository.cs:42-83 | the single commit goes through whenever the task and its project are stored and no child id clashes with another task's row |
| Reconciliation.ReconcileStoresAggregate | src/TaskZ.Infrastructure/Repositories/TaskRepository.cs:42-83 | load, grow by new-id children, update: the commit goes through, and a fresh load returns the mutated aggregate |
| Reconciliation.StatusUpdateReconciled | src/TaskZ.Infrastructure/Repositories/TaskRepository.cs:54-66 | load, UpdateStatus, update commits exactly the new status and, when it changed, the one new entry |
| Reconciliation.CommentReconciled | src/TaskZ.Infrastructure/Repositories/TaskRepository.cs:54-80 | load, AddComment, update commits exactly the new comment and its entry |
| Reconciliation.CommentAndStatusScenario | src/TaskZ.Infrastructure/Repositories/TaskRepository.cs:42-83 | load, one comment, one status change, update: the stored history grows by 2 and the comments by 1, and a repeated update changes nothing |
| Reconciliation.SingleEntryThenStatus | src/TaskZ.Infrastructure/Repositories/TaskRepository.cs:42-83 | a loaded task with one entry, given a new status and updated, is stored with that status and two entries |
| Reconciliation.CreateThenStatusScenario | src/TaskZ.Infrastructure/Repositories/TaskRepository.cs:42-83 | create, set a new status, update: the stored task has the new status and two history entries |
| CompletionQuery.CompletedCount | src/TaskZ.Infrastructure/Repositories/TaskRepository.cs:91-99 | the count never exceeds the number of Completed tasks |
| CompletionQuery.Cutoff | src/TaskZ.Infrastructure/Repositories/TaskRepository.cs:93 | the cutoff lies exactly `days` whole days before the clock's reading, so never after it for a non-negative window |
| CompletionQuery.CountedTasks | src/TaskZ.Infrastructure/Repositories/TaskRepository.cs:94-98 | for a task loaded with its history: it counts exactly when it is Completed and some entry of its own history is by the user at or after the cutoff, the `History.Any` of the query |
| CompletionQuery.CountedOnce | src/TaskZ.Infrastructure/Repositories/TaskRepository.cs:97 | a further qualifying entry for an already counted task leaves the count unchanged |
| CompletionQuery.CountMonotone | src/TaskZ.Infrastructure/Repositories/TaskRepository.cs:93-97 | an earlier cutoff never counts fewer tasks |
| CompletionQuery.CommentEntryCounts | src/TaskZ.Infrastructure/Repositories/TaskRepository.cs:97 | a Completed task whose only recent entry by the user is a comment entry counts |
| Repositories.Store.LoadTask | src/TaskZ.Infrastructure/Repositories/TaskRepository.cs:29-32 | the task is returned with exactly its stored history and comments |
| Repositories.Store.GetById | src/TaskZ.Infrastructure/Repositories/TaskRepository.cs:27-33 | null exactly when no row has the id; otherwise a fresh valid object holding the loaded aggregate |
| Repositories.Store.GetProjectTasks | src/TaskZ.Infrastructure/Repositories/TaskRepository.cs:18-25 | exactly the stored tasks of the project, each once and fully loaded |
| Repositories.Store.Create | src/TaskZ.Infrastructure/Repositories/TaskRepository.cs:35-40 | the tables become `AddTask` of the old tables when it commits, and stay as they were otherwise; one create is logged |
| Repositories.Store.Update | src/TaskZ.Infrastructure/Repositories/TaskRepository.cs:42-83 | the two filtering loops and the two marking loops, then one commit: the tables become `Reconcile` of the old tables and the in-memory task when it commits, and stay as they were otherwise; one update is logged |
| Repositories.Store.Delete | src/TaskZ.Infrastructure/Repositories/TaskRepository.cs:85-89 | the tables become `RemoveTask` of the old tables; one delete is logged |
| Repositories.Store.GetCompletedTasksCountInLastDays | src/TaskZ.Infrastructure/Repositories/TaskRepository.cs:91-99 | the result is the completion count with the cutoff `days` days before `now` |
| Repositories.Store.GetProjectById | src/TaskZ.Infrastructure/Repositories/ProjectRepository.cs:26-31 | nothing exactly when no project has the id; otherwise the project with exactly its stored tasks |
| Repositories.Store.GetUserProjects | src/TaskZ.Infrastructure/Repositories/ProjectRepository.cs:18-24 | exactly the user's stored projects, each once, each with its tasks |
| Repositories.Store.CreateProject | src/TaskZ.Infrastructure/Repositories/ProjectRepository.cs:33-38 | the tables become `AddProject` of the old tables when it commits; one create is logged |
| Repositories.Store.DeleteProject | src/TaskZ.Infrastructure/Repositories/ProjectRepository.cs:46-50 | the tables become `RemoveProject` of the old tables; one delete is logged |
| TaskResponses.FromComments | src/TaskZ.API/Models/Tasks/TaskResponse.cs:26 | the comment responses keep the length and order of the comments, element by element |
| TaskResponses.FromHistory | src/TaskZ.API/Models/Tasks/TaskResponse.cs:27 | the history responses keep the length and order of the history, element by element |
| TaskResponses.FromComment | src/TaskZ.API/Models/Tasks/CommentResponse.cs:12-21 | the response carries the comment's id, content, creation time and author; the task is not exposed |
| TaskResponses.FromTaskHistory | src/TaskZ.API/Models/Tasks/TaskHistoryResponse.cs:12-21 | the response carries the entry's id, description, timestamp and actor, an absent actor included |
| TaskResponses.FromTask | src/TaskZ.API/Models/Tasks/TaskResponse.cs:16-29 | id and status are copied, CreatedAt keeps its default, both child lists keep their length, and a valid task shows a non-empty history |
| TaskResponses.FromCommentForgetsOnlyTask | src/TaskZ.API/Models/Tasks/CommentResponse.cs:12-21 | id, content, creation time and author are copied: two comments map alike exactly when they differ at most in the task |
| TaskResponses.FromTaskHistoryForgetsOnlyTask | src/TaskZ.API/Models/Tasks/TaskHistoryResponse.cs:12-21 | id, description, timestamp and actor (absent included) are copied: two entries map alike exactly when they differ at most in the task |
| TaskResponses.FromTaskShape | src/TaskZ.API/Models/Tasks/TaskResponse.cs:16-29 | the scalar fields are copied, CreatedAt stays at its default, both lists keep length and order, and a valid task shows a non-empty history |
| TaskResponses.NewTaskResponse | src/TaskZ.API/Models/Tasks/TaskResponse.cs:16-29 | a new task's response is Pending, has no comments and one "Task created" entry without actor |
| TaskResponses.CommentAddedResponse | src/TaskZ.API/Models/Tasks/TaskResponse.cs:26-27 | after AddComment both response lists are the old ones with the new comment and entry at the end |
| ProjectResponses.CountCompleted | src/TaskZ.API/Models/Projects/ProjectResponse.cs:23 | the completed count is at most the task count, and equal to it exactly when all tasks are Completed |
| ProjectResponses.CountCompletedSnoc | src/TaskZ.API/Models/Projects/ProjectResponse.cs:23 | one more task adds one to the completed count exactly when it is Completed |
| ProjectResponses.FromProject | src/TaskZ.API/Models/Projects/ProjectResponse.cs:14-25 | TaskCount is the number of tasks; CompletedTaskCount never exceeds it, and equals it exactly when the project may be deleted |
| ProjectResponses.FromProjectCounts | src/TaskZ.API/Models/Projects/ProjectResponse.cs:14-25 | the fields are copied, TaskCount is the number of tasks, CompletedTaskCount <= TaskCount with equality exactly when the project may be deleted, and both are 0 without tasks |
| ProjectResponses.NewProjectResponse | src/TaskZ.API/Models/Projects/ProjectResponse.cs:14-25 | a new project's response carries its fields and two zero counts |
| TasksApi.FromTasks | src/TaskZ.API/Controllers/TasksController.cs:25 | one response per task, in order |
| TasksApi.TasksController.GetProjectTasks | src/TaskZ.API/Controllers/TasksController.cs:21-26 | Ok with the responses of exactly the project's stored tasks |
| TasksApi.TasksController.Create | src/TaskZ.API/Controllers/TasksController.cs:28-51 | unknown project: NotFound("Project not found"), nothing written or logged; 20 or more stored tasks: BadRequest with the fixed message, no create call; otherwise one create call, and Created with the new Pending task's response exactly when it commits, which it does for fresh ids; a project with at most twenty stored tasks still has at most twenty afterwards |
| TasksApi.TasksController.UpdateStatus | src/TaskZ.API/Controllers/TasksController.cs:53-63 | missing task: NotFound and no update call; otherwise exactly one update call even when the status is unchanged; an unchanged status returns NoContent and changes nothing; with a fresh entry id it returns NoContent, and the store holds the new status and the one new entry |
| TasksApi.TasksController.AddComment | src/TaskZ.API/Controllers/TasksController.cs:65-77 | missing task: NotFound and no update call; otherwise one update call and a reply carrying the comment just added (its content, author, id and time); with fresh ids that reply is Ok and the store holds the comment and its entry |
| TasksApi.TasksController.Delete | src/TaskZ.API/Controllers/TasksController.cs:79-88 | missing task: NotFound and no delete call; otherwise one delete call, NoContent, and the task and its children are gone |
| TasksApi.TasksController.GetCompletionReport | src/TaskZ.API/Controllers/TasksController.cs:90-105 | not a manager: Unauthorized; otherwise Ok with the user's completion count over the last 30 days |
| ProjectsApi.FromProjects | src/TaskZ.API/Controllers/ProjectsController.cs:23 | one response per project, in order |
| ProjectsApi.ProjectsController.GetUserProjects | src/TaskZ.API/Controllers/ProjectsController.cs:20-24 | Ok with the responses of exactly the user's stored projects, in the order they load |
| ProjectsApi.ProjectsController.Create | src/TaskZ.API/Controllers/ProjectsController.cs:26-35 | one create call; Created with (id, name, description, time, 0, 0) exactly when the new id is free, and then the store holds the project with no tasks |
| ProjectsApi.ProjectsController.Delete | src/TaskZ.API/Controllers/ProjectsController.cs:37-49 | unknown project: NotFound and no delete call; a stored task not Completed: BadRequest with the fixed message and nothing deleted; otherwise one delete call, NoContent, and the project with its tasks and their children is gone (an empty project included) |

## Left out

- `AverageTasksPerDay` (`TasksController.cs:101`) is floating point and is not modelled. The report holds the user and the count only.
- **Hosting.** `Program.cs` (hosting, dependency injection, retries, migrations) is not part of this model.
- **Users.** The user repository and `UsersController` are not part of this model.
- **Enums.** The `TaskStatus` and `TaskPriority` enum file is not part of this model. Their values are the ones the entities and tests use.
- **`ProjectRepository.UpdateAsync`** (`ProjectRepository.cs:40-44`) is not modelled: none of the modelled actions calls it.
- **Column length limits** (`ApplicationDbContext.cs:26-27, 40-41, 64, 72`) are not modelled as rejections. As a result, the model does not show that "Comment added: " plus a long comment can exceed the 500-character history column while a comment may have 1000 characters.
- **Storage of enums as strings** (`ApplicationDbContext.cs:42-47`) is not modelled: the mapping is one-to-one.
- **The change tracker.** Entity Framework's change-tracker states (Detached, Modified, Added) and async/await are replaced by maps and one atomic commit. A failed commit is reported as `ServerError`, where the code lets the exception escape.
- **Foreign keys.** The in-memory test provider does not enforce foreign keys; the model follows a relational store that does. So an update of a task whose project is not stored fails in the model (as the repository test's task would).
- **Concurrency.** Two concurrent updates of one task are not modelled.
- **Query order.** Loaders return rows in an order the store chooses; the model does not fix that order.
- **Clock arithmetic.** `DateTime.AddDays` overflow and the 32-bit range of the count are not modelled: ticks and counts are unbounded.
- **Routes.** `CreatedAtAction`'s route values are not modelled; only the status and the response body are.
- Repositories.Store.CreateProject: inserts the project row only. A project built by its public constructor has no tasks; inserting a project that carries tasks is not modelled.
- TasksApi.TasksController.Create: success, and the stored task, are stated for fresh ids (task id and creation-entry id); with clashing ids the contract only says the commit fails and nothing is written.
- TasksApi.TasksController.UpdateStatus: the resulting tables are stated for an unchanged status or a fresh entry id. Otherwise the contract says only that the store stays valid, or that nothing changes on ServerError.
- TasksApi.TasksController.AddComment: the resulting tables are stated for fresh comment and entry ids only.
- TasksApi.TasksController.GetCompletionReport: "the store is not queried" when the caller is not a manager is not stated, because the log records writes only. The method writes nothing in any case.
- **Read-only guards.** `CanBeDeleted` and `CanAddTask` change no state. That holds by construction: they are predicates on a value.
