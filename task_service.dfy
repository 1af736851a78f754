// `TaskServiceImpl`. Every public method runs in one transaction: on an
// exception nothing it wrote to the database persists, no audit entry is
// written and no cache key is evicted. The audit recorder never fails.
module TaskServices {
  import opened Common
  import opened Domain
  import opened Views
  import opened Requests
  import opened Ordering
  import opened Grouping
  import opened AuditModel
  import opened AuditService
  import opened Store
  import opened ReadCache
  import TaskRepository

  /** The row `createTask` saves for a request: a missing status is TODO. */
  function NewTask(req: TaskRequest): Task
  {
    Task(req.title, req.description, if req.status.Some? then req.status.value else Todo,
         req.dueDate, req.projectId, req.assignedDeveloperId)
  }

  /**
   * The row `updateTask` saves: title, description, due date, project and
   * developer are taken from the request, null ones included; the status
   * only when the request has one.
   */
  function UpdatedTask(t: Task, req: TaskRequest): Task
  {
    t.(title := req.title, description := req.description,
       status := if req.status.Some? then req.status.value else t.status,
       dueDate := req.dueDate, projectId := req.projectId, developerId := req.assignedDeveloperId)
  }

  /** Applying the same update request twice is the same as applying it once. */
  lemma UpdateIdempotent(t: Task, req: TaskRequest)
    ensures UpdatedTask(UpdatedTask(t, req), req) == UpdatedTask(t, req)
  {
  }

  /** Whether a bulk update sets any field at all. */
  predicate Touches(u: BulkTaskUpdate)
  {
    u.status.Some? || u.assignedDeveloperId.Some? || u.dueDate.Some?
  }

  /** One task after `bulkUpdateTasks`: exactly the non-null fields of the update are set. */
  function ApplyBulk(t: Task, u: BulkTaskUpdate): (r: Task)
    ensures r.title == t.title && r.description == t.description && r.projectId == t.projectId
    ensures r.status == (if u.status.Some? then u.status.value else t.status)
    ensures r.developerId == (if u.assignedDeveloperId.Some? then u.assignedDeveloperId else t.developerId)
    ensures r.dueDate == (if u.dueDate.Some? then u.dueDate else t.dueDate)
    ensures !Touches(u) ==> r == t
  {
    var t1 := if u.status.Some? then t.(status := u.status.value) else t;
    var t2 := if u.assignedDeveloperId.Some? then t1.(developerId := u.assignedDeveloperId) else t1;
    if u.dueDate.Some? then t2.(dueDate := u.dueDate) else t2
  }

  /** The table after `bulkUpdateTasks` over the found ids. */
  function BulkUpdated(tasks: map<Id, Task>, found: set<Id>, u: BulkTaskUpdate): (r: map<Id, Task>)
    ensures r.Keys == tasks.Keys
    ensures !Touches(u) ==> r == tasks
  {
    map k | k in tasks :: if k in found then ApplyBulk(tasks[k], u) else tasks[k]
  }

  /**
   * The keys of the statistics maps. The source keys them by strings;
   * `KeyName` gives that string, and since it is injective, a map keyed by
   * these values carries the same information.
   */
  datatype StatKey = StatusKey(status: TaskStatus) | Total | Unassigned | Overdue

  function KeyName(k: StatKey): string
  {
    match k
    case StatusKey(s) => TaskStatusName(s)
    case Total => "TOTAL"
    case Unassigned => "UNASSIGNED"
    case Overdue => "OVERDUE"
  }

  /** Different keys have different names. */
  lemma KeyNameInjective(a: StatKey, b: StatKey)
    ensures KeyName(a) == KeyName(b) ==> a == b
  {
  }

  /** The per-status loop of `getOverallTaskStatistics`. */
  method CountEveryStatus(tasks: map<Id, Task>) returns (stats: map<StatKey, nat>)
    ensures stats.Keys == set s | s in AllTaskStatuses :: StatusKey(s)
    ensures forall s :: StatusKey(s) in stats && stats[StatusKey(s)] == TaskRepository.CountByStatus(tasks, s)
  {
    stats := map[];
    TaskRepository.TaskStatusesDistinct();
    var i := 0;
    while i < |AllTaskStatuses|
      invariant 0 <= i <= |AllTaskStatuses|
      invariant stats.Keys == set j | 0 <= j < i :: StatusKey(AllTaskStatuses[j])
      invariant forall j :: 0 <= j < i ==>
        stats[StatusKey(AllTaskStatuses[j])] == TaskRepository.CountByStatus(tasks, AllTaskStatuses[j])
    {
      var s := AllTaskStatuses[i];
      stats := stats[StatusKey(s) := TaskRepository.CountByStatus(tasks, s)];
      i := i + 1;
    }
    forall s ensures StatusKey(s) in stats && stats[StatusKey(s)] == TaskRepository.CountByStatus(tasks, s) {
      assert s in AllTaskStatuses;
      var j :| 0 <= j < |AllTaskStatuses| && AllTaskStatuses[j] == s;
    }
  }

  /** What `getOverallTaskStatistics` returns for a table. */
  ghost predicate OverallStatistics(tasks: map<Id, Task>, now: Time, stats: map<StatKey, nat>)
  {
    && stats.Keys == (set s | s in AllTaskStatuses :: StatusKey(s)) + {Total, Unassigned, Overdue}
    && (forall s :: StatusKey(s) in stats && stats[StatusKey(s)] == TaskRepository.CountByStatus(tasks, s))
    && stats[Total] == |tasks|
    && stats[Unassigned] == |TaskRepository.FindByAssignedDeveloperIsNull(tasks)|
    && stats[Overdue] == |TaskRepository.FindOverdueTasks(tasks, now)|
  }

  /** The per-status counts followed by the three summary entries. */
  function WithSummaries(counts: map<StatKey, nat>, total: nat, unassigned: nat, overdue: nat): (r: map<StatKey, nat>)
    ensures r.Keys == counts.Keys + {Total, Unassigned, Overdue}
    ensures forall s :: StatusKey(s) in counts ==> r[StatusKey(s)] == counts[StatusKey(s)]
    ensures r[Total] == total && r[Unassigned] == unassigned && r[Overdue] == overdue
  {
    counts[Total := total][Unassigned := unassigned][Overdue := overdue]
  }

  method CountOverall(tasks: map<Id, Task>, now: Time) returns (stats: map<StatKey, nat>)
    ensures OverallStatistics(tasks, now, stats)
  {
    var counts := CountEveryStatus(tasks);
    var unassigned := TaskRepository.FindByAssignedDeveloperIsNull(tasks);
    var overdue := TaskRepository.FindOverdueTasks(tasks, now);
    stats := WithSummaries(counts, |tasks|, |unassigned|, |overdue|);
  }

  /** The status counts add up to TOTAL, and UNASSIGNED and OVERDUE are at most TOTAL. */
  lemma OverallStatisticsSum(tasks: map<Id, Task>, now: Time, stats: map<StatKey, nat>)
    requires OverallStatistics(tasks, now, stats)
    ensures stats[Total] == stats[StatusKey(Todo)] + stats[StatusKey(TaskStatus.InProgress)]
      + stats[StatusKey(InReview)] + stats[StatusKey(TaskStatus.Completed)] + stats[StatusKey(Blocked)]
    ensures stats[Unassigned] <= stats[Total] && stats[Overdue] <= stats[Total]
  {
    TaskRepository.CountByStatusSum(tasks);
    SubsetSize(TaskRepository.FindByAssignedDeveloperIsNull(tasks), tasks.Keys);
    SubsetSize(TaskRepository.FindOverdueTasks(tasks, now), tasks.Keys);
  }

  /**
   * The body of the loop of `bulkUpdateTasks` for one task: the non-null
   * fields are set in turn, the developer looked up when one is given, and
   * whether any field was set.
   */
  method BulkUpdateOne(t0: Task, u: BulkTaskUpdate, developers: map<Id, Developer>) returns (r: Result<(Task, bool)>)
    ensures r.Err? <==> (u.assignedDeveloperId.Some? && u.assignedDeveloperId.value !in developers)
    ensures r.Err? ==> r.error == NotFound
    ensures r.Ok? ==> r.value == (ApplyBulk(t0, u), Touches(u))
  {
    var t := t0;
    var isUpdated := false;
    if u.status.Some? {
      t := t.(status := u.status.value);
      isUpdated := true;
    }
    if u.assignedDeveloperId.Some? {
      if u.assignedDeveloperId.value !in developers {
        return Err(NotFound);
      }
      t := t.(developerId := u.assignedDeveloperId);
      isUpdated := true;
    }
    if u.dueDate.Some? {
      t := t.(dueDate := u.dueDate);
      isUpdated := true;
    }
    r := Ok((t, isUpdated));
  }

  /** The tasks listed in `done` carry the update; every other task is as it was. */
  ghost predicate Applied(before: map<Id, Task>, tasks: map<Id, Task>, done: seq<Id>, u: BulkTaskUpdate)
  {
    && tasks.Keys == before.Keys
    && forall k :: k in before ==> tasks[k] == if k in done then ApplyBulk(before[k], u) else before[k]
  }

  /** One more task carries the update; an update that sets nothing leaves the task as it is. */
  lemma AppliedStep(before: map<Id, Task>, tasks: map<Id, Task>, done: seq<Id>, k: Id, u: BulkTaskUpdate)
    requires Applied(before, tasks, done, u) && k in before && k !in done
    ensures Applied(before, tasks[k := ApplyBulk(before[k], u)], done + [k], u)
    ensures !Touches(u) ==> Applied(before, tasks, done + [k], u)
  {
  }

  /**
   * The loop of `bulkUpdateTasks` over the found tasks in the given order:
   * each takes the non-null fields of the update and is saved and returned
   * when some field was set; an unknown developer fails at the first task.
   */
  method BulkUpdateLoop(before: map<Id, Task>, order: seq<Id>, u: BulkTaskUpdate,
                        projects: map<Id, Project>, developers: map<Id, Developer>)
    returns (r: Result<(map<Id, Task>, seq<TaskView>)>)
    requires forall j :: 0 <= j < |order| ==> order[j] in before
    requires forall i, j :: 0 <= i < j < |order| ==> order[i] < order[j]
    requires ProjectsReferenced(before, projects) && DevelopersReferenced(before, developers)
    ensures r.Err? <==> (|order| > 0 && u.assignedDeveloperId.Some? && u.assignedDeveloperId.value !in developers)
    ensures r.Err? ==> r.error == NotFound
    ensures r.Ok? ==> Applied(before, r.value.0, order, u)
    ensures r.Ok? && !Touches(u) ==> r.value.1 == []
    ensures r.Ok? && Touches(u) ==> |r.value.1| == |order|
    ensures r.Ok? ==> forall j :: 0 <= j < |r.value.1| ==>
      r.value.1[j] == ViewTask(order[j], ApplyBulk(before[order[j]], u), projects, developers)
  {
    var tasks := before;
    var updated: seq<TaskView> := [];
    var i := 0;
    while i < |order|
      invariant 0 <= i <= |order|
      invariant Applied(before, tasks, order[..i], u)
      invariant u.assignedDeveloperId.Some? && i > 0 ==> u.assignedDeveloperId.value in developers
      invariant |updated| <= i
      invariant Touches(u) ==> |updated| == i
      invariant !Touches(u) ==> updated == []
      invariant forall j :: 0 <= j < |updated| ==>
        updated[j] == ViewTask(order[j], ApplyBulk(before[order[j]], u), projects, developers)
    {
      var k := order[i];
      assert k !in order[..i];
      var step := BulkUpdateOne(tasks[k], u, developers);
      if step.Err? {
        return Err(step.error);
      }
      var t, isUpdated := step.value.0, step.value.1;
      AppliedStep(before, tasks, order[..i], k, u);
      if isUpdated {
        tasks := tasks[k := t];
        updated := updated + [ViewTask(k, t, projects, developers)];
      }
      assert order[..i + 1] == order[..i] + [k];
      i := i + 1;
    }
    assert order[..|order|] == order;
    r := Ok((tasks, updated));
  }

  /**
   * `bulkUpdateTasks` before the transaction commits: the stored tasks among
   * the ids, in ascending id order, go through the loop.
   */
  method ApplyBulkUpdate(before: map<Id, Task>, taskIds: seq<Id>, bound: nat, u: BulkTaskUpdate,
                         projects: map<Id, Project>, developers: map<Id, Developer>)
    returns (r: Result<(map<Id, Task>, seq<TaskView>)>)
    requires KeysBelow(before, bound)
    requires ProjectsReferenced(before, projects) && DevelopersReferenced(before, developers)
    ensures r.Err? <==> (TaskRepository.MatchedIds(before, taskIds) != {}
      && u.assignedDeveloperId.Some? && u.assignedDeveloperId.value !in developers)
    ensures r.Err? ==> r.error == NotFound
    ensures r.Ok? ==> r.value.0 == BulkUpdated(before, TaskRepository.MatchedIds(before, taskIds), u)
    ensures r.Ok? && !Touches(u) ==> r.value.1 == []
    ensures r.Ok? && Touches(u) ==>
      var order := IdsBelow(TaskRepository.MatchedIds(before, taskIds), bound);
      |r.value.1| == |order| &&
      forall j :: 0 <= j < |order| ==>
        r.value.1[j] == ViewTask(order[j], ApplyBulk(before[order[j]], u), projects, developers)
  {
    var found := TaskRepository.MatchedIds(before, taskIds);
    var order := IdsBelow(found, bound);
    assert found != {} <==> |order| > 0 by {
      if found != {} {
        var k :| k in found;
        assert k in before && k < bound;
        assert k in order;
      }
      if |order| > 0 {
        assert order[0] in found;
      }
    }
    r := BulkUpdateLoop(before, order, u, projects, developers);
    if r.Ok? {
      BulkUpdatedPointwise(before, r.value.0, found, u);
    }
  }

  lemma BulkUpdatedPointwise(before: map<Id, Task>, after: map<Id, Task>, found: set<Id>, u: BulkTaskUpdate)
    requires after.Keys == before.Keys
    requires forall k :: k in before ==> after[k] == if k in found then ApplyBulk(before[k], u) else before[k]
    ensures after == BulkUpdated(before, found, u)
  {
  }

  /** A bulk update to a stored developer, or none, keeps every task under its key and every reference stored. */
  lemma BulkUpdatedKeepsReferences(before: map<Id, Task>, bound: nat, found: set<Id>, u: BulkTaskUpdate,
                                   projects: map<Id, Project>, developers: map<Id, Developer>)
    requires KeysBelow(before, bound)
    requires ProjectsReferenced(before, projects) && DevelopersReferenced(before, developers)
    requires found != {} && u.assignedDeveloperId.Some? ==> u.assignedDeveloperId.value in developers
    ensures KeysBelow(BulkUpdated(before, found, u), bound)
    ensures ProjectsReferenced(BulkUpdated(before, found, u), projects)
    ensures DevelopersReferenced(BulkUpdated(before, found, u), developers)
  {
  }

  class TaskService {
    const db: Database
    const audit: AuditLogService
    const cache: Cache

    constructor(db: Database, audit: AuditLogService, cache: Cache)
      ensures this.db == db && this.audit == audit && this.cache == cache
    {
      this.db := db;
      this.audit := audit;
      this.cache := cache;
    }

    ghost predicate Valid()
      reads db, audit.store
    {
      db.Valid() && audit.store.Valid()
    }

    /** Every cached task response is the response the current rows give. */
    ghost predicate CacheCoherent()
      reads db, cache
    {
      db.Valid() &&
      forall k :: k in cache.tasks ==>
        k in db.tasks && cache.tasks[k] == ViewTask(k, db.tasks[k], db.projects, db.developers)
    }

    /** `createTask`: the project, then the developer if one is given, must exist. */
    method CreateTask(req: TaskRequest, actor: string, now: Time) returns (r: Result<TaskView>)
      requires Valid()
      modifies db`tasks, db`nextTaskId, audit.store
      ensures Valid()
      ensures r.Err? <==> (req.projectId !in db.projects
        || (req.assignedDeveloperId.Some? && req.assignedDeveloperId.value !in db.developers))
      ensures r.Err? ==> r.error == NotFound && unchanged(db) && unchanged(audit.store)
      ensures r.Ok? ==> db.tasks == old(db.tasks)[old(db.nextTaskId) := NewTask(req)]
      ensures r.Ok? ==> r.value == ViewTask(old(db.nextTaskId), NewTask(req), db.projects, db.developers)
      ensures r.Ok? ==> r.value.status == (if req.status.Some? then req.status.value else Todo)
      ensures r.Ok? ==> LoggedOnce(audit.store,
        NewAuditLog(Create, TaskEntity, Some(r.value.id), Some(actor), TaskData(r.value), now))
      ensures old(CacheCoherent()) ==> CacheCoherent()
    {
      if req.projectId !in db.projects {
        return Err(NotFound);
      }
      if req.assignedDeveloperId.Some? && req.assignedDeveloperId.value !in db.developers {
        return Err(NotFound);
      }
      var t := NewTask(req);
      var id := db.InsertTask(t);
      var view := ViewTask(id, t, db.projects, db.developers);
      audit.LogAction(Create, TaskEntity, Some(id), Some(actor), TaskData(view), now);
      r := Ok(view);
    }

    /**
     * `updateTask`: the task must exist; a new project id must name a
     * project; a developer id other than the current one must name a
     * developer. The task's cache key is evicted on success.
     */
    method UpdateTask(taskId: Id, req: TaskRequest, actor: string, now: Time) returns (r: Result<TaskView>)
      requires Valid()
      modifies db`tasks, audit.store, cache`tasks
      ensures Valid()
      ensures r.Err? <==> (taskId !in old(db.tasks)
        || (old(db.tasks)[taskId].projectId != req.projectId && req.projectId !in db.projects)
        || (req.assignedDeveloperId.Some? && req.assignedDeveloperId != old(db.tasks)[taskId].developerId
            && req.assignedDeveloperId.value !in db.developers))
      ensures r.Err? ==> r.error == NotFound && unchanged(db) && unchanged(audit.store) && unchanged(cache)
      ensures r.Ok? ==> db.tasks == old(db.tasks)[taskId := UpdatedTask(old(db.tasks)[taskId], req)]
      ensures r.Ok? ==> r.value == ViewTask(taskId, db.tasks[taskId], db.projects, db.developers)
      ensures r.Ok? ==> cache.tasks == old(cache.tasks) - {taskId}
      ensures r.Ok? ==> LoggedOnce(audit.store,
        NewAuditLog(Update, TaskEntity, Some(taskId), Some(actor), TaskChange(ViewTask(taskId, old(db.tasks)[taskId], db.projects, db.developers), r.value), now))
      ensures old(CacheCoherent()) ==> CacheCoherent()
    {
      if taskId !in db.tasks {
        return Err(NotFound);
      }
      var t := db.tasks[taskId];
      var oldView := ViewTask(taskId, t, db.projects, db.developers);
      if t.projectId != req.projectId && req.projectId !in db.projects {
        return Err(NotFound);
      }
      if req.assignedDeveloperId.Some? {
        if t.developerId.None? || t.developerId.value != req.assignedDeveloperId.value {
          if req.assignedDeveloperId.value !in db.developers {
            return Err(NotFound);
          }
        }
      }
      var u := UpdatedTask(t, req);
      db.tasks := db.tasks[taskId := u];
      var view := ViewTask(taskId, u, db.projects, db.developers);
      audit.LogAction(Update, TaskEntity, Some(taskId), Some(actor), TaskChange(oldView, view), now);
      cache.tasks := cache.tasks - {taskId};
      r := Ok(view);
    }

    /** `deleteTask`: the task must exist; its cache key is evicted on success. */
    method DeleteTask(taskId: Id, actor: string, now: Time) returns (r: Result<()>)
      requires Valid()
      modifies db`tasks, audit.store, cache`tasks
      ensures Valid()
      ensures r.Err? <==> taskId !in old(db.tasks)
      ensures r.Err? ==> r.error == NotFound && unchanged(db) && unchanged(audit.store) && unchanged(cache)
      ensures r.Ok? ==> db.tasks == old(db.tasks) - {taskId}
      ensures r.Ok? ==> cache.tasks == old(cache.tasks) - {taskId}
      ensures r.Ok? ==> LoggedOnce(audit.store,
        NewAuditLog(Delete, TaskEntity, Some(taskId), Some(actor), TaskData(ViewTask(taskId, old(db.tasks)[taskId], db.projects, db.developers)), now))
      ensures old(CacheCoherent()) ==> CacheCoherent()
    {
      if taskId !in db.tasks {
        return Err(NotFound);
      }
      var view := ViewTask(taskId, db.tasks[taskId], db.projects, db.developers);
      db.tasks := db.tasks - {taskId};
      audit.LogAction(Delete, TaskEntity, Some(taskId), Some(actor), TaskData(view), now);
      cache.tasks := cache.tasks - {taskId};
      r := Ok(());
    }

    /**
     * `getTaskById`, cached under "tasks": a cached response is returned
     * as it is; otherwise the response is built and cached.
     */
    method GetTaskById(taskId: Id) returns (r: Result<TaskView>)
      requires db.Valid()
      modifies cache`tasks
      ensures taskId in old(cache.tasks) ==> r == Ok(old(cache.tasks)[taskId]) && unchanged(cache)
      ensures taskId !in old(cache.tasks) && taskId !in db.tasks ==> r == Err(NotFound) && unchanged(cache)
      ensures taskId !in old(cache.tasks) && taskId in db.tasks ==>
        r == Ok(ViewTask(taskId, db.tasks[taskId], db.projects, db.developers))
        && cache.tasks == old(cache.tasks)[taskId := r.value]
      ensures old(CacheCoherent()) ==> CacheCoherent()
      ensures old(CacheCoherent()) && taskId in db.tasks ==> r == Ok(ViewTask(taskId, db.tasks[taskId], db.projects, db.developers))
      ensures old(CacheCoherent()) && taskId !in db.tasks ==> r == Err(NotFound)
    {
      if taskId in cache.tasks {
        return Ok(cache.tasks[taskId]);
      }
      if taskId !in db.tasks {
        return Err(NotFound);
      }
      var view := ViewTask(taskId, db.tasks[taskId], db.projects, db.developers);
      cache.tasks := cache.tasks[taskId := view];
      r := Ok(view);
    }

    /** `assignTask`: the task, then the developer, must exist. */
    method AssignTask(taskId: Id, developerId: Id, actor: string, now: Time) returns (r: Result<TaskView>)
      requires Valid()
      modifies db`tasks, audit.store, cache`tasks
      ensures Valid()
      ensures r.Err? <==> taskId !in old(db.tasks) || developerId !in db.developers
      ensures r.Err? ==> r.error == NotFound && unchanged(db) && unchanged(audit.store) && unchanged(cache)
      ensures r.Ok? ==> db.tasks == old(db.tasks)[taskId := old(db.tasks)[taskId].(developerId := Some(developerId))]
      ensures r.Ok? ==> r.value == ViewTask(taskId, db.tasks[taskId], db.projects, db.developers)
      ensures r.Ok? ==> cache.tasks == old(cache.tasks) - {taskId}
      ensures r.Ok? ==> LoggedOnce(audit.store,
        NewAuditLog(Update, TaskEntity, Some(taskId), Some(actor), Payload.AssignTask(taskId, old(db.tasks)[taskId].developerId, developerId), now))
      ensures old(CacheCoherent()) ==> CacheCoherent()
    {
      if taskId !in db.tasks || developerId !in db.developers {
        return Err(NotFound);
      }
      var t := db.tasks[taskId];
      db.tasks := db.tasks[taskId := t.(developerId := Some(developerId))];
      audit.LogAction(Update, TaskEntity, Some(taskId), Some(actor), Payload.AssignTask(taskId, t.developerId, developerId), now);
      cache.tasks := cache.tasks - {taskId};
      r := Ok(ViewTask(taskId, db.tasks[taskId], db.projects, db.developers));
    }

    /** `unassignTask`: the task must exist; the payload records the previous developer. */
    method UnassignTask(taskId: Id, actor: string, now: Time) returns (r: Result<TaskView>)
      requires Valid()
      modifies db`tasks, audit.store, cache`tasks
      ensures Valid()
      ensures r.Err? <==> taskId !in old(db.tasks)
      ensures r.Err? ==> r.error == NotFound && unchanged(db) && unchanged(audit.store) && unchanged(cache)
      ensures r.Ok? ==> db.tasks == old(db.tasks)[taskId := old(db.tasks)[taskId].(developerId := None)]
      ensures r.Ok? ==> r.value == ViewTask(taskId, db.tasks[taskId], db.projects, db.developers)
      ensures r.Ok? ==> r.value.developerId.None?
      ensures r.Ok? ==> cache.tasks == old(cache.tasks) - {taskId}
      ensures r.Ok? ==> LoggedOnce(audit.store,
        NewAuditLog(Update, TaskEntity, Some(taskId), Some(actor), Payload.UnassignTask(taskId, old(db.tasks)[taskId].developerId), now))
      ensures old(CacheCoherent()) ==> CacheCoherent()
    {
      if taskId !in db.tasks {
        return Err(NotFound);
      }
      var t := db.tasks[taskId];
      db.tasks := db.tasks[taskId := t.(developerId := None)];
      audit.LogAction(Update, TaskEntity, Some(taskId), Some(actor), Payload.UnassignTask(taskId, t.developerId), now);
      cache.tasks := cache.tasks - {taskId};
      r := Ok(ViewTask(taskId, db.tasks[taskId], db.projects, db.developers));
    }

    /**
     * `bulkAssignTasks`: the developer must exist; one UPDATE statement
     * re-points the listed tasks. No cache key is evicted.
     */
    method BulkAssignTasks(taskIds: seq<Id>, developerId: Id, actor: string, now: Time) returns (r: Result<nat>)
      requires Valid()
      modifies db`tasks, audit.store
      ensures Valid()
      ensures r.Err? <==> developerId !in db.developers
      ensures r.Err? ==> r.error == NotFound && unchanged(db) && unchanged(audit.store)
      ensures r.Ok? ==> db.tasks == TaskRepository.WithDeveloper(old(db.tasks), taskIds, developerId)
      ensures r.Ok? ==> r.value == |TaskRepository.MatchedIds(old(db.tasks), taskIds)|
      ensures r.Ok? ==> LoggedOnce(audit.store,
        NewAuditLog(Update, TaskEntity, None, Some(actor), Payload.BulkAssignTasks(taskIds, developerId, r.value), now))
    {
      if developerId !in db.developers {
        return Err(NotFound);
      }
      var count := db.BulkAssignTasks(taskIds, developerId);
      audit.LogAction(Update, TaskEntity, None, Some(actor), Payload.BulkAssignTasks(taskIds, developerId, count), now);
      r := Ok(count);
    }

    /** `bulkUpdateTaskStatusByProject`: the project must exist; its tasks take the status. */
    method BulkUpdateTaskStatusByProject(projectId: Id, status: TaskStatus, actor: string, now: Time) returns (r: Result<nat>)
      requires Valid()
      modifies db`tasks, audit.store
      ensures Valid()
      ensures r.Err? <==> projectId !in db.projects
      ensures r.Err? ==> r.error == NotFound && unchanged(db) && unchanged(audit.store)
      ensures r.Ok? ==> db.tasks == TaskRepository.WithProjectStatus(old(db.tasks), projectId, status)
      ensures r.Ok? ==> r.value == TaskRepository.CountByProjectId(old(db.tasks), projectId)
      ensures r.Ok? ==> LoggedOnce(audit.store,
        NewAuditLog(Update, TaskEntity, None, Some(actor), Payload.BulkUpdateStatusByProject(projectId, status, r.value), now))
    {
      if projectId !in db.projects {
        return Err(NotFound);
      }
      WithProjectStatusKeepsReferences(db.tasks, db.nextTaskId, db.projects, db.developers, projectId, status);
      var count := db.UpdateTaskStatusByProject(projectId, status);
      audit.LogAction(Update, TaskEntity, None, Some(actor), Payload.BulkUpdateStatusByProject(projectId, status, count), now);
      r := Ok(count);
    }

    /**
     * `bulkUpdateTasks`: the stored tasks among the ids, in ascending id
     * order, take the non-null fields of the update; a task is saved and
     * returned only when some field was set. The developer is looked up for
     * every task, so an unknown developer fails the whole call once any task
     * is found.
     */
    method BulkUpdateTasks(taskIds: seq<Id>, u: BulkTaskUpdate, actor: string, now: Time) returns (r: Result<seq<TaskView>>)
      requires Valid()
      modifies db`tasks, audit.store
      ensures Valid()
      ensures r.Err? <==> (TaskRepository.MatchedIds(old(db.tasks), taskIds) != {}
        && u.assignedDeveloperId.Some? && u.assignedDeveloperId.value !in db.developers)
      ensures r.Err? ==> r.error == NotFound && unchanged(db) && unchanged(audit.store)
      ensures r.Ok? ==> db.tasks == BulkUpdated(old(db.tasks), TaskRepository.MatchedIds(old(db.tasks), taskIds), u)
      ensures r.Ok? && !Touches(u) ==> r.value == []
      ensures r.Ok? && Touches(u) ==>
        var order := IdsBelow(TaskRepository.MatchedIds(old(db.tasks), taskIds), old(db.nextTaskId));
        |r.value| == |order| &&
        forall i :: 0 <= i < |order| ==>
          r.value[i] == ViewTask(order[i], ApplyBulk(old(db.tasks)[order[i]], u), db.projects, db.developers)
      ensures r.Ok? ==> LoggedOnce(audit.store,
        NewAuditLog(Update, TaskEntity, None, Some(actor), Payload.BulkUpdateTasks(taskIds, u, |r.value|), now))
    {
      var result := ApplyBulkUpdate(db.tasks, taskIds, db.nextTaskId, u, db.projects, db.developers);
      if result.Err? {
        return Err(result.error);
      }
      var tasks, updated := result.value.0, result.value.1;
      BulkUpdatedKeepsReferences(db.tasks, db.nextTaskId, TaskRepository.MatchedIds(db.tasks, taskIds), u, db.projects, db.developers);
      db.tasks := tasks;
      audit.LogAction(Update, TaskEntity, None, Some(actor), Payload.BulkUpdateTasks(taskIds, u, |updated|), now);
      r := Ok(updated);
    }

    /** `getTasksDueWithin(days)`: open tasks due from now to `days` days ahead, both ends included. */
    function GetTasksDueWithin(days: int, now: Time): (r: set<Id>)
      reads db
      ensures forall k :: k in r <==> (k in db.tasks && db.tasks[k].dueDate.Some?
        && now <= db.tasks[k].dueDate.value <= now + days * DAY && db.tasks[k].status != TaskStatus.Completed)
      ensures days < 0 ==> r == {}
    {
      TaskRepository.FindTasksDueWithin(db.tasks, now, now + days * DAY)
    }

    /** `getTaskStatusStatisticsByProject`: the number of the project's tasks per status that occurs. */
    method GetTaskStatusStatisticsByProject(projectId: Id) returns (m: map<TaskStatus, nat>)
      ensures forall s :: s in m <==> TaskRepository.CountByProjectAndStatus(db.tasks, projectId, s) > 0
      ensures forall s :: s in m ==> m[s] == TaskRepository.CountByProjectAndStatus(db.tasks, projectId, s)
    {
      var rows := TaskRepository.StatisticsByProject(db.tasks, projectId);
      m := RowsToMap(rows);
      TaskRepository.TaskStatusesDistinct();
      forall s ensures s in m <==> TaskRepository.CountByProjectAndStatus(db.tasks, projectId, s) > 0
        ensures s in m ==> m[s] == TaskRepository.CountByProjectAndStatus(db.tasks, projectId, s)
      {
        assert s in AllTaskStatuses;
        GroupMap(db.tasks, InProject(projectId), TaskRepository.StatusOf(), AllTaskStatuses, m, s);
      }
    }

    /** `getTaskStatusStatisticsByDeveloper`: the number of the developer's tasks per status that occurs. */
    method GetTaskStatusStatisticsByDeveloper(developerId: Id) returns (m: map<TaskStatus, nat>)
      ensures forall s :: s in m <==> TaskRepository.CountByDeveloperAndStatus(db.tasks, developerId, s) > 0
      ensures forall s :: s in m ==> m[s] == TaskRepository.CountByDeveloperAndStatus(db.tasks, developerId, s)
    {
      var rows := TaskRepository.StatisticsByDeveloper(db.tasks, developerId);
      m := RowsToMap(rows);
      TaskRepository.TaskStatusesDistinct();
      forall s ensures s in m <==> TaskRepository.CountByDeveloperAndStatus(db.tasks, developerId, s) > 0
        ensures s in m ==> m[s] == TaskRepository.CountByDeveloperAndStatus(db.tasks, developerId, s)
      {
        assert s in AllTaskStatuses;
        GroupMap(db.tasks, AssignedTo(developerId), TaskRepository.StatusOf(), AllTaskStatuses, m, s);
      }
    }

    /**
     * `getOverallTaskStatistics`: the count of every status, then TOTAL,
     * UNASSIGNED and OVERDUE.
     */
    method GetOverallTaskStatistics(now: Time) returns (stats: map<StatKey, nat>)
      ensures OverallStatistics(db.tasks, now, stats)
    {
      stats := CountOverall(db.tasks, now);
    }
  }
}
