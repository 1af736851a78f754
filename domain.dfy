// The persistent entities of the project tracker as table rows. A row does
// not hold its own id: each table is a map from id to row. The one-to-many
// collections of the JPA entities (a project's tasks, a developer's
// assigned tasks, a role's users) are derived from the foreign keys.
module Domain {
  import opened Common
  import Text

  datatype TaskStatus = Todo | InProgress | InReview | Completed | Blocked

  /** `TaskStatus.values()` in declaration order. */
  const AllTaskStatuses: seq<TaskStatus> := [Todo, TaskStatus.InProgress, InReview, TaskStatus.Completed, Blocked]

  function TaskStatusName(s: TaskStatus): string
  {
    match s
    case Todo => "TODO"
    case InProgress => "IN_PROGRESS"
    case InReview => "IN_REVIEW"
    case Completed => "COMPLETED"
    case Blocked => "BLOCKED"
  }

  datatype ProjectStatus = Planning | InProgress | OnHold | Completed | Cancelled

  /** `ProjectStatus.values()` in declaration order. */
  const AllProjectStatuses: seq<ProjectStatus> :=
    [Planning, ProjectStatus.InProgress, OnHold, ProjectStatus.Completed, Cancelled]

  datatype AuthProvider = Local | Google | Github

  /** `AuthProvider.values()` in declaration order. */
  const AllProviders: seq<AuthProvider> := [Local, Google, Github]

  /** The four roles of RoleType. */
  datatype RoleType = RoleAdmin | RoleManager | RoleDeveloper | RoleContractor

  /** `RoleType.values()` in declaration order. */
  const AllRoleTypes: seq<RoleType> := [RoleAdmin, RoleManager, RoleDeveloper, RoleContractor]

  function RoleName(r: RoleType): string
  {
    match r
    case RoleAdmin => "ROLE_ADMIN"
    case RoleManager => "ROLE_MANAGER"
    case RoleDeveloper => "ROLE_DEVELOPER"
    case RoleContractor => "ROLE_CONTRACTOR"
  }

  function RoleDescription(r: RoleType): string
  {
    match r
    case RoleAdmin => "System administrator with full access"
    case RoleManager => "Project manager who can create and manage projects"
    case RoleDeveloper => "Developer who can update assigned tasks"
    case RoleContractor => "External contractor with read-only access"
  }

  /** Role types have pairwise different names. */
  lemma RoleNamesDistinct(a: RoleType, b: RoleType)
    ensures RoleName(a) == RoleName(b) ==> a == b
  {
    if a != b {
      assert RoleName(a)[5] != RoleName(b)[5] || |RoleName(a)| != |RoleName(b)|;
    }
  }

  const AdminRoleName: string := "ROLE_ADMIN"

  datatype Task = Task(
    title: string,
    description: Option<string>,
    status: TaskStatus,
    dueDate: Option<Time>,
    projectId: Id,
    developerId: Option<Id>)

  datatype Developer = Developer(name: string, email: string, skills: set<string>)

  datatype Project = Project(
    name: string,
    description: Option<string>,
    deadline: Time,
    status: ProjectStatus)

  datatype User = User(
    username: string,
    email: string,
    password: string,
    firstName: string,
    lastName: string,
    provider: AuthProvider,
    providerId: Option<string>,
    enabled: bool,
    roles: set<string>,
    lastLogin: Option<Time>)

  datatype Role = Role(name: string, description: string)

  // Predicates over rows, each a named value so that every query built on
  // it denotes the same function.

  function AssignedTo(developerId: Id): Task -> bool
  {
    (t: Task) => t.developerId == Some(developerId)
  }

  function InProject(projectId: Id): Task -> bool
  {
    (t: Task) => t.projectId == projectId
  }

  /** Every task belongs to a stored project. */
  ghost predicate ProjectsReferenced(tasks: map<Id, Task>, projects: map<Id, Project>)
  {
    forall id :: id in tasks ==> tasks[id].projectId in projects
  }

  /** Every assigned task is assigned to a stored developer. */
  ghost predicate DevelopersReferenced(tasks: map<Id, Task>, developers: map<Id, Developer>)
  {
    forall id :: id in tasks && tasks[id].developerId.Some? ==> tasks[id].developerId.value in developers
  }

  /** The number of tasks assigned to a developer: `getTaskCount`. */
  function TaskCountOf(tasks: map<Id, Task>, developerId: Id): nat
  {
    |Select(tasks, AssignedTo(developerId))|
  }

  /** The number of tasks of a project: `project.getTasks().size()`. */
  function ProjectTaskCount(tasks: map<Id, Task>, projectId: Id): nat
  {
    |Select(tasks, InProject(projectId))|
  }

  /** Case-insensitive string equality (`equalsIgnoreCase`, `LOWER(a) = LOWER(b)`). */
  predicate EqualsIgnoreCase(a: string, b: string)
  {
    Text.ToLower(a) == Text.ToLower(b)
  }

  /** `user.hasRole(name)`. */
  predicate HasRole(u: User, name: string)
  {
    name in u.roles
  }
}
