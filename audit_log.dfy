// The audit entry (`AuditLog`) kept in the document store, with its payload
// written as one record per kind of event instead of a string-keyed map.
module AuditModel {
  import opened Common
  import opened Domain
  import opened Views
  import opened Requests

  datatype ActionType = Create | Update | Delete

  /** User events are recorded under `Developer`, as the services do. */
  datatype EntityType = ProjectEntity | TaskEntity | DeveloperEntity

  function ActionName(a: ActionType): string
  {
    match a
    case Create => "CREATE"
    case Update => "UPDATE"
    case Delete => "DELETE"
  }

  function EntityName(e: EntityType): string
  {
    match e
    case ProjectEntity => "PROJECT"
    case TaskEntity => "TASK"
    case DeveloperEntity => "DEVELOPER"
  }

  /** The payload maps the services build, one constructor per shape. */
  datatype Payload =
    | TaskData(task: TaskView)
    | TaskChange(oldTask: TaskView, newTask: TaskView)
    | AssignTask(taskId: Id, oldDeveloperId: Option<Id>, newDeveloperId: Id)
    | UnassignTask(taskId: Id, oldDeveloperId: Option<Id>)
    | BulkAssignTasks(taskIds: seq<Id>, developerId: Id, updatedCount: nat)
    | BulkUpdateStatusByProject(projectId: Id, status: TaskStatus, updatedCount: nat)
    | BulkUpdateTasks(taskIds: seq<Id>, update: BulkTaskUpdate, updatedCount: nat)
    | DeveloperData(developer: DeveloperView)
    | DeveloperChange(oldDeveloper: DeveloperView, newDeveloper: DeveloperView)
    | AddSkill(skill: string, developerId: Id)
    | RemoveSkill(skill: string, developerId: Id)
    | UpdateSkills(oldSkills: set<string>, newSkills: set<string>, developerId: Id)
    | ProjectData(project: ProjectView)
    | ProjectChange(oldProject: ProjectView, newProject: ProjectView)
    | UserData(user: UserAudit)
    | UserChange(oldUser: UserAudit, newUser: UserAudit)
    | RoleUpdate(oldUser: UserAudit, newUser: UserAudit)
    | StatusToggle(enabled: bool, oldUser: UserAudit, newUser: UserAudit)
    | LoginSuccess(username: string, loginTime: Time, provider: AuthProvider)
    | LoginFailed(usernameOrEmail: string, reason: string, timestamp: Time)
    | PasswordChanged(userId: Id, timestamp: Time)

  /** The payload's "action" entry, for the payloads that carry one. */
  function PayloadAction(p: Payload): Option<string>
  {
    match p
    case AssignTask(_, _, _) => Some("ASSIGN_TASK")
    case UnassignTask(_, _) => Some("UNASSIGN_TASK")
    case BulkAssignTasks(_, _, _) => Some("BULK_ASSIGN_TASKS")
    case BulkUpdateStatusByProject(_, _, _) => Some("BULK_UPDATE_STATUS_BY_PROJECT")
    case BulkUpdateTasks(_, _, _) => Some("BULK_UPDATE_TASKS")
    case AddSkill(_, _) => Some("ADD_SKILL")
    case RemoveSkill(_, _) => Some("REMOVE_SKILL")
    case UpdateSkills(_, _, _) => Some("UPDATE_SKILLS")
    case RoleUpdate(_, _) => Some("ROLE_UPDATE")
    case StatusToggle(enabled, _, _) => Some(if enabled then "USER_ENABLED" else "USER_DISABLED")
    case LoginSuccess(_, _, _) => Some("LOGIN_SUCCESS")
    case LoginFailed(_, _, _) => Some("LOGIN_FAILED")
    case PasswordChanged(_, _) => Some("PASSWORD_CHANGED")
    case _ => None
  }

  /**
   * One audit entry. The id is the store's and is absent until the entry is
   * saved; the entity id is absent for bulk operations and failed logins.
   */
  datatype AuditLog = AuditLog(
    id: Option<nat>,
    actionType: ActionType,
    entityType: EntityType,
    entityId: Option<Id>,
    timestamp: Time,
    actorName: Option<string>,
    payload: Payload)

  /** The convenience constructor, reading the clock as `now`. */
  function NewAuditLog(actionType: ActionType, entityType: EntityType, entityId: Option<Id>,
                       actorName: Option<string>, payload: Payload, now: Time): (e: AuditLog)
    ensures e.id.None?
    ensures e.timestamp == now
    ensures e.actionType == actionType && e.entityType == entityType && e.entityId == entityId
    ensures e.actorName == actorName && e.payload == payload
  {
    AuditLog(None, actionType, entityType, entityId, now, actorName, payload)
  }

  /** `AuditLogSummaryDto`: an entry without its payload. */
  datatype AuditLogSummary = AuditLogSummary(
    id: Option<nat>,
    actionType: ActionType,
    entityType: EntityType,
    entityId: Option<Id>,
    timestamp: Time,
    actorName: Option<string>)

  function Summarize(e: AuditLog): AuditLogSummary
  {
    AuditLogSummary(e.id, e.actionType, e.entityType, e.entityId, e.timestamp, e.actorName)
  }
}
