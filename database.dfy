// The relational store behind the JPA repositories: one table per entity,
// identity counters, and the integrity the schema enforces (foreign keys,
// unique columns). `save` of a new row takes the next identity value; the
// bulk UPDATE statements are methods returning the number of rows touched.
module Store {
  import opened Common
  import opened Domain
  import Skills
  import TaskRepository
  import DeveloperRepository
  import UserRepository

  ghost predicate KeysBelow<V>(m: map<Id, V>, bound: nat)
  {
    forall k :: k in m ==> k < bound
  }

  /** Every stored skill is in the normal form the services write. */
  ghost predicate NormalSkills(developers: map<Id, Developer>)
  {
    forall k, s :: k in developers && s in developers[k].skills ==> Skills.IsNormal(s)
  }

  /** Every role a user holds is a stored role (the user_roles foreign key). */
  ghost predicate RolesReferenced(users: map<Id, User>, roles: map<Id, Role>)
  {
    forall u, n :: u in users && n in users[u].roles ==> UserRepository.ExistsRoleByName(roles, n)
  }

  class Database {
    var tasks: map<Id, Task>
    var developers: map<Id, Developer>
    var projects: map<Id, Project>
    var users: map<Id, User>
    var roles: map<Id, Role>
    var nextTaskId: nat
    var nextDeveloperId: nat
    var nextProjectId: nat
    var nextUserId: nat
    var nextRoleId: nat

    ghost predicate Valid()
      reads this
    {
      && KeysBelow(tasks, nextTaskId)
      && KeysBelow(developers, nextDeveloperId)
      && KeysBelow(projects, nextProjectId)
      && KeysBelow(users, nextUserId)
      && KeysBelow(roles, nextRoleId)
      && ProjectsReferenced(tasks, projects)
      && DevelopersReferenced(tasks, developers)
      && DeveloperRepository.UniqueEmails(developers)
      && NormalSkills(developers)
      && UserRepository.UniqueUsernames(users)
      && UserRepository.UniqueRoleNames(roles)
      && RolesReferenced(users, roles)
    }

    constructor()
      ensures Valid()
      ensures tasks == map[] && developers == map[] && projects == map[] && users == map[] && roles == map[]
    {
      tasks, developers, projects, users, roles := map[], map[], map[], map[], map[];
      nextTaskId, nextDeveloperId, nextProjectId, nextUserId, nextRoleId := 0, 0, 0, 0, 0;
    }

    /** `taskRepository.save` of a new task. */
    method InsertTask(t: Task) returns (id: Id)
      requires KeysBelow(tasks, nextTaskId)
      modifies this`tasks, this`nextTaskId
      ensures id == old(nextTaskId) && id !in old(tasks)
      ensures tasks == old(tasks)[id := t] && nextTaskId == id + 1
      ensures KeysBelow(tasks, nextTaskId)
    {
      id := nextTaskId;
      tasks := tasks[id := t];
      nextTaskId := nextTaskId + 1;
    }

    /** `developerRepository.save` of a new developer. */
    method InsertDeveloper(d: Developer) returns (id: Id)
      requires KeysBelow(developers, nextDeveloperId)
      modifies this`developers, this`nextDeveloperId
      ensures id == old(nextDeveloperId) && id !in old(developers)
      ensures developers == old(developers)[id := d] && nextDeveloperId == id + 1
      ensures KeysBelow(developers, nextDeveloperId)
    {
      id := nextDeveloperId;
      developers := developers[id := d];
      nextDeveloperId := nextDeveloperId + 1;
    }

    /** `projectRepository.save` of a new project. */
    method InsertProject(p: Project) returns (id: Id)
      requires KeysBelow(projects, nextProjectId)
      modifies this`projects, this`nextProjectId
      ensures id == old(nextProjectId) && id !in old(projects)
      ensures projects == old(projects)[id := p] && nextProjectId == id + 1
      ensures KeysBelow(projects, nextProjectId)
    {
      id := nextProjectId;
      projects := projects[id := p];
      nextProjectId := nextProjectId + 1;
    }

    /** `userRepository.save` of a new user. */
    method InsertUser(u: User) returns (id: Id)
      requires KeysBelow(users, nextUserId)
      modifies this`users, this`nextUserId
      ensures id == old(nextUserId) && id !in old(users)
      ensures users == old(users)[id := u] && nextUserId == id + 1
      ensures KeysBelow(users, nextUserId)
    {
      id := nextUserId;
      users := users[id := u];
      nextUserId := nextUserId + 1;
    }

    /** `roleRepository.save` of a new role. */
    method InsertRole(r: Role) returns (id: Id)
      requires KeysBelow(roles, nextRoleId)
      modifies this`roles, this`nextRoleId
      ensures id == old(nextRoleId) && id !in old(roles)
      ensures roles == old(roles)[id := r] && nextRoleId == id + 1
      ensures KeysBelow(roles, nextRoleId)
    {
      id := nextRoleId;
      roles := roles[id := r];
      nextRoleId := nextRoleId + 1;
    }

    /** `taskRepository.updateTaskStatusByProject`: the tasks of the project take the status. */
    method UpdateTaskStatusByProject(projectId: Id, status: TaskStatus) returns (count: nat)
      modifies this`tasks
      ensures tasks == TaskRepository.WithProjectStatus(old(tasks), projectId, status)
      ensures count == TaskRepository.CountByProjectId(old(tasks), projectId)
    {
      count := TaskRepository.CountByProjectId(tasks, projectId);
      tasks := TaskRepository.WithProjectStatus(tasks, projectId, status);
    }

    /** `taskRepository.bulkAssignTasks`: the listed stored tasks go to the developer. */
    method BulkAssignTasks(taskIds: seq<Id>, developerId: Id) returns (count: nat)
      modifies this`tasks
      ensures tasks == TaskRepository.WithDeveloper(old(tasks), taskIds, developerId)
      ensures count == |TaskRepository.MatchedIds(old(tasks), taskIds)|
    {
      count := |TaskRepository.MatchedIds(tasks, taskIds)|;
      tasks := TaskRepository.WithDeveloper(tasks, taskIds, developerId);
    }

    /** `userRepository.updateLastLogin`. */
    method UpdateLastLogin(userId: Id, t: Time) returns (count: nat)
      modifies this`users
      ensures (users, count) == UserRepository.WithLastLogin(old(users), userId, t)
    {
      var r := UserRepository.WithLastLogin(users, userId, t);
      users, count := r.0, r.1;
    }

    /** `userRepository.updateUserStatus`. */
    method UpdateUserStatus(userId: Id, enabled: bool) returns (count: nat)
      modifies this`users
      ensures (users, count) == UserRepository.WithStatus(old(users), userId, enabled)
    {
      var r := UserRepository.WithStatus(users, userId, enabled);
      users, count := r.0, r.1;
    }
  }

  /** Re-pointing tasks at a stored developer keeps the foreign keys valid. */
  lemma WithDeveloperKeepsReferences(tasks: map<Id, Task>, projects: map<Id, Project>, developers: map<Id, Developer>,
                                     taskIds: seq<Id>, developerId: Id)
    requires ProjectsReferenced(tasks, projects) && DevelopersReferenced(tasks, developers)
    requires developerId in developers
    ensures ProjectsReferenced(TaskRepository.WithDeveloper(tasks, taskIds, developerId), projects)
    ensures DevelopersReferenced(TaskRepository.WithDeveloper(tasks, taskIds, developerId), developers)
  {
  }

  /** A status change keeps every task under its key and the foreign keys valid. */
  lemma WithProjectStatusKeepsReferences(tasks: map<Id, Task>, bound: nat, projects: map<Id, Project>,
                                         developers: map<Id, Developer>, projectId: Id, status: TaskStatus)
    requires KeysBelow(tasks, bound)
    requires ProjectsReferenced(tasks, projects) && DevelopersReferenced(tasks, developers)
    ensures KeysBelow(TaskRepository.WithProjectStatus(tasks, projectId, status), bound)
    ensures ProjectsReferenced(TaskRepository.WithProjectStatus(tasks, projectId, status), projects)
    ensures DevelopersReferenced(TaskRepository.WithProjectStatus(tasks, projectId, status), developers)
  {
  }
}
