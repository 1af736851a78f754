// The response DTOs and audit snapshots the services build from rows
// (`convertToResponseDto`, `convertToDetailResponseDto`,
// `convertToTaskSummaryDto`, `createTaskPayload`, `createDeveloperPayload`,
// `createProjectPayload`). Once creation and update timestamps and
// `isOverdue` are left out, a response DTO and the matching audit snapshot
// carry the same fields, so each is one datatype here.
module Views {
  import opened Common
  import opened Domain
  import opened Ordering

  datatype TaskView = TaskView(
    id: Id,
    title: string,
    description: Option<string>,
    status: TaskStatus,
    dueDate: Option<Time>,
    projectId: Id,
    projectName: string,
    developerId: Option<Id>,
    developerName: Option<string>)

  function ViewTask(id: Id, t: Task, projects: map<Id, Project>, developers: map<Id, Developer>): TaskView
    requires t.projectId in projects
    requires t.developerId.Some? ==> t.developerId.value in developers
  {
    TaskView(id, t.title, t.description, t.status, t.dueDate, t.projectId, projects[t.projectId].name,
             t.developerId, if t.developerId.Some? then Some(developers[t.developerId.value].name) else None)
  }

  datatype DeveloperView = DeveloperView(id: Id, name: string, email: string, skills: set<string>, taskCount: nat)

  function ViewDeveloper(id: Id, d: Developer, tasks: map<Id, Task>): DeveloperView
  {
    DeveloperView(id, d.name, d.email, d.skills, TaskCountOf(tasks, id))
  }

  /** `DeveloperSummaryDto`. */
  datatype DeveloperSummary = DeveloperSummary(id: Id, name: string, email: string, taskCount: nat)

  function SummarizeDeveloper(id: Id, d: Developer, tasks: map<Id, Task>): DeveloperSummary
  {
    DeveloperSummary(id, d.name, d.email, TaskCountOf(tasks, id))
  }

  datatype ProjectView = ProjectView(
    id: Id,
    name: string,
    description: Option<string>,
    deadline: Time,
    status: ProjectStatus,
    taskCount: nat)

  function ViewProject(id: Id, p: Project, tasks: map<Id, Task>): ProjectView
  {
    ProjectView(id, p.name, p.description, p.deadline, p.status, ProjectTaskCount(tasks, id))
  }

  /** `TaskSummaryDto`; the status is the enum constant's name. */
  datatype TaskSummary = TaskSummary(id: Id, title: string, status: string, dueDate: Option<Time>, developerName: Option<string>)

  function SummarizeTask(id: Id, t: Task, developers: map<Id, Developer>): TaskSummary
    requires t.developerId.Some? ==> t.developerId.value in developers
  {
    TaskSummary(id, t.title, TaskStatusName(t.status), t.dueDate,
                if t.developerId.Some? then Some(developers[t.developerId.value].name) else None)
  }

  /** One summary per listed task, in the order of `ids`. */
  function SummarizeTasks(ids: seq<Id>, tasks: map<Id, Task>, developers: map<Id, Developer>): (r: seq<TaskSummary>)
    requires forall i :: 0 <= i < |ids| ==> ids[i] in tasks
    requires DevelopersReferenced(tasks, developers)
    ensures |r| == |ids|
    ensures forall i :: 0 <= i < |ids| ==> r[i].id == ids[i]
  {
    seq(|ids|, i requires 0 <= i < |ids| => SummarizeTask(ids[i], tasks[ids[i]], developers))
  }

  datatype ProjectDetail = ProjectDetail(
    id: Id,
    name: string,
    description: Option<string>,
    deadline: Time,
    status: ProjectStatus,
    tasks: seq<TaskSummary>)

  /** The tasks of a project in ascending id order. */
  function ProjectTaskIds(tasks: map<Id, Task>, projectId: Id, bound: nat): seq<Id>
  {
    IdsBelow(Select(tasks, InProject(projectId)), bound)
  }

  function DeveloperTaskIds(tasks: map<Id, Task>, developerId: Id, bound: nat): seq<Id>
  {
    IdsBelow(Select(tasks, AssignedTo(developerId)), bound)
  }

  function ProjectDetailOf(id: Id, p: Project, tasks: map<Id, Task>, developers: map<Id, Developer>, bound: nat): ProjectDetail
    requires DevelopersReferenced(tasks, developers)
  {
    var ids := ProjectTaskIds(tasks, id, bound);
    ProjectDetail(id, p.name, p.description, p.deadline, p.status, SummarizeTasks(ids, tasks, developers))
  }

  datatype DeveloperDetail = DeveloperDetail(
    id: Id,
    name: string,
    email: string,
    skills: set<string>,
    assignedTasks: seq<TaskSummary>)

  function DeveloperDetailOf(id: Id, d: Developer, tasks: map<Id, Task>, developers: map<Id, Developer>, bound: nat): DeveloperDetail
    requires DevelopersReferenced(tasks, developers)
  {
    var ids := DeveloperTaskIds(tasks, id, bound);
    DeveloperDetail(id, d.name, d.email, d.skills, SummarizeTasks(ids, tasks, developers))
  }

  /** The task count of a project's response equals the length of its detail list. */
  lemma ProjectCountMatchesDetail(id: Id, p: Project, tasks: map<Id, Task>, developers: map<Id, Developer>, bound: nat)
    requires DevelopersReferenced(tasks, developers)
    requires forall k :: k in tasks ==> k < bound
    ensures ViewProject(id, p, tasks).taskCount == |ProjectDetailOf(id, p, tasks, developers, bound).tasks|
  {
    ListsEveryKeyOnce(Select(tasks, InProject(id)), bound);
  }

  /** The task count of a developer's response equals the length of its detail list. */
  lemma DeveloperCountMatchesDetail(id: Id, d: Developer, tasks: map<Id, Task>, developers: map<Id, Developer>, bound: nat)
    requires DevelopersReferenced(tasks, developers)
    requires forall k :: k in tasks ==> k < bound
    ensures ViewDeveloper(id, d, tasks).taskCount == |DeveloperDetailOf(id, d, tasks, developers, bound).assignedTasks|
  {
    ListsEveryKeyOnce(Select(tasks, AssignedTo(id)), bound);
  }

  /** `UserResponseDto` without the creation time and the derived full name. */
  datatype UserView = UserView(
    id: Id,
    username: string,
    email: string,
    firstName: string,
    lastName: string,
    enabled: bool,
    provider: AuthProvider,
    lastLogin: Option<Time>,
    roles: set<string>)

  function ViewUser(id: Id, u: User): UserView
  {
    UserView(id, u.username, u.email, u.firstName, u.lastName, u.enabled, u.provider, u.lastLogin, u.roles)
  }

  /** `createUserAuditPayload` without the derived full name. */
  datatype UserAudit = UserAudit(
    id: Id,
    username: string,
    email: string,
    enabled: bool,
    provider: AuthProvider,
    roles: set<string>)

  function AuditUser(id: Id, u: User): UserAudit
  {
    UserAudit(id, u.username, u.email, u.enabled, u.provider, u.roles)
  }
}
