// The queries of `TaskRepository` over the task table. A finder without an
// ORDER BY returns a set of ids; the two @Modifying updates are functions
// giving the new table, which the database class applies.
module TaskRepository {
  import opened Common
  import opened Domain
  import opened Text
  import opened Grouping

  function Overdue(now: Time): Task -> bool
  {
    (t: Task) => t.dueDate.Some? && t.dueDate.value < now && t.status != TaskStatus.Completed
  }

  function DueWithin(start: Time, end: Time): Task -> bool
  {
    (t: Task) => t.dueDate.Some? && start <= t.dueDate.value <= end && t.status != TaskStatus.Completed
  }

  function HasStatus(s: TaskStatus): Task -> bool
  {
    (t: Task) => t.status == s
  }

  function Unassigned(): Task -> bool
  {
    (t: Task) => t.developerId.None?
  }

  function NoDueDate(): Task -> bool
  {
    (t: Task) => t.dueDate.None?
  }

  /** `findOverdueTasks`: a missing due date never compares, so such tasks are excluded. */
  function FindOverdueTasks(tasks: map<Id, Task>, now: Time): (r: set<Id>)
    ensures forall k :: k in r <==>
      k in tasks && tasks[k].dueDate.Some? && tasks[k].dueDate.value < now && tasks[k].status != TaskStatus.Completed
  {
    Select(tasks, Overdue(now))
  }

  /** `findTasksDueWithin`: BETWEEN is inclusive at both ends. */
  function FindTasksDueWithin(tasks: map<Id, Task>, start: Time, end: Time): (r: set<Id>)
    ensures forall k :: k in r <==>
      k in tasks && tasks[k].dueDate.Some? && start <= tasks[k].dueDate.value <= end && tasks[k].status != TaskStatus.Completed
  {
    Select(tasks, DueWithin(start, end))
  }

  function FindByProjectId(tasks: map<Id, Task>, projectId: Id): (r: set<Id>)
    ensures forall k :: k in r <==> k in tasks && tasks[k].projectId == projectId
  {
    Select(tasks, InProject(projectId))
  }

  function FindByAssignedDeveloperId(tasks: map<Id, Task>, developerId: Id): (r: set<Id>)
    ensures forall k :: k in r <==> k in tasks && tasks[k].developerId == Some(developerId)
  {
    Select(tasks, AssignedTo(developerId))
  }

  function FindByStatus(tasks: map<Id, Task>, s: TaskStatus): (r: set<Id>)
    ensures forall k :: k in r <==> k in tasks && tasks[k].status == s
  {
    Select(tasks, HasStatus(s))
  }

  function FindByAssignedDeveloperIsNull(tasks: map<Id, Task>): (r: set<Id>)
    ensures forall k :: k in r <==> k in tasks && tasks[k].developerId.None?
  {
    Select(tasks, Unassigned())
  }

  function FindByDueDateIsNull(tasks: map<Id, Task>): (r: set<Id>)
    ensures forall k :: k in r <==> k in tasks && tasks[k].dueDate.None?
  {
    Select(tasks, NoDueDate())
  }

  /** `findByProjectIdAndStatus`. */
  function FindByProjectIdAndStatus(tasks: map<Id, Task>, projectId: Id, s: TaskStatus): (r: set<Id>)
    ensures forall k :: k in r <==> k in tasks && tasks[k].projectId == projectId && tasks[k].status == s
  {
    Select(tasks, (t: Task) => t.projectId == projectId && t.status == s)
  }

  /** `findByAssignedDeveloperIdAndStatus`. */
  function FindByAssignedDeveloperIdAndStatus(tasks: map<Id, Task>, developerId: Id, s: TaskStatus): (r: set<Id>)
    ensures forall k :: k in r <==> k in tasks && tasks[k].developerId == Some(developerId) && tasks[k].status == s
  {
    Select(tasks, (t: Task) => t.developerId == Some(developerId) && t.status == s)
  }

  /** Assigned and unassigned tasks split the table. */
  lemma AssignedOrNot(tasks: map<Id, Task>)
    ensures FindByAssignedDeveloperIsNull(tasks) * Select(tasks, Not(Unassigned())) == {}
    ensures |FindByAssignedDeveloperIsNull(tasks)| + |Select(tasks, Not(Unassigned()))| == |tasks|
  {
    SelectPartition(tasks, Unassigned());
  }

  /**
   * The WHERE clause of `findTasksByCriteria`: a null criterion matches
   * every task, a developer criterion never matches an unassigned task, and
   * the title criterion is a case-insensitive substring test.
   */
  function Criteria(projectId: Option<Id>, developerId: Option<Id>, status: Option<TaskStatus>, title: Option<string>): Task -> bool
  {
    (t: Task) =>
      (projectId.None? || t.projectId == projectId.value) &&
      (developerId.None? || t.developerId == developerId) &&
      (status.None? || t.status == status.value) &&
      (title.None? || ContainsIgnoreCase(t.title, title.value))
  }

  function FindTasksByCriteria(tasks: map<Id, Task>, projectId: Option<Id>, developerId: Option<Id>,
                               status: Option<TaskStatus>, title: Option<string>): (r: set<Id>)
    ensures forall k :: k in r <==>
      (k in tasks &&
       (projectId.None? || tasks[k].projectId == projectId.value) &&
       (developerId.None? || tasks[k].developerId == developerId) &&
       (status.None? || tasks[k].status == status.value) &&
       (title.None? || ContainsIgnoreCase(tasks[k].title, title.value)))
  {
    Select(tasks, Criteria(projectId, developerId, status, title))
  }

  /** With no criterion at all, the search returns every task. */
  lemma CriteriaAllNull(tasks: map<Id, Task>)
    ensures FindTasksByCriteria(tasks, None, None, None, None) == tasks.Keys
  {
  }

  /** `findByTitleContainingIgnoreCase` is the criteria search on the title alone. */
  function FindByTitleContainingIgnoreCase(tasks: map<Id, Task>, title: string): (r: set<Id>)
    ensures r == FindTasksByCriteria(tasks, None, None, None, Some(title))
    ensures forall k :: k in r <==> k in tasks && ContainsIgnoreCase(tasks[k].title, title)
  {
    Select(tasks, (t: Task) => ContainsIgnoreCase(t.title, title))
  }

  function CountByStatus(tasks: map<Id, Task>, s: TaskStatus): nat
  {
    |FindByStatus(tasks, s)|
  }

  function CountByProjectId(tasks: map<Id, Task>, projectId: Id): nat
  {
    |FindByProjectId(tasks, projectId)|
  }

  function CountByAssignedDeveloperId(tasks: map<Id, Task>, developerId: Id): nat
  {
    |FindByAssignedDeveloperId(tasks, developerId)|
  }

  // ---------------------------------------------------------------------
  // GROUP BY t.status

  function StatusOf(): Task -> TaskStatus
  {
    (t: Task) => t.status
  }

  function AnyTask(): Task -> bool
  {
    (t: Task) => true
  }

  lemma TaskStatusesDistinct()
    ensures forall i, j :: 0 <= i < j < |AllTaskStatuses| ==> AllTaskStatuses[i] != AllTaskStatuses[j]
    ensures forall s: TaskStatus :: s in AllTaskStatuses
  {
    forall s: TaskStatus ensures s in AllTaskStatuses {
      match s
      case Todo => assert AllTaskStatuses[0] == s;
      case InProgress => assert AllTaskStatuses[1] == s;
      case InReview => assert AllTaskStatuses[2] == s;
      case Completed => assert AllTaskStatuses[3] == s;
      case Blocked => assert AllTaskStatuses[4] == s;
    }
  }

  /** `getTaskStatusStatisticsByProject`: one row per status occurring in the project. */
  function StatisticsByProject(tasks: map<Id, Task>, projectId: Id): seq<(TaskStatus, nat)>
  {
    GroupRows(tasks, InProject(projectId), StatusOf(), AllTaskStatuses)
  }

  /** `getTaskStatusStatisticsByDeveloper`: one row per status among the developer's tasks. */
  function StatisticsByDeveloper(tasks: map<Id, Task>, developerId: Id): seq<(TaskStatus, nat)>
  {
    GroupRows(tasks, AssignedTo(developerId), StatusOf(), AllTaskStatuses)
  }

  /** The number of the project's tasks with the status. */
  function CountByProjectAndStatus(tasks: map<Id, Task>, projectId: Id, s: TaskStatus): nat
  {
    |Select(tasks, WithKey(InProject(projectId), StatusOf(), s))|
  }

  /** The number of the developer's tasks with the status. */
  function CountByDeveloperAndStatus(tasks: map<Id, Task>, developerId: Id, s: TaskStatus): nat
  {
    |Select(tasks, WithKey(AssignedTo(developerId), StatusOf(), s))|
  }

  /**
   * The two-column finders are the intersections of the one-column ones, and
   * their sizes are the counts the status statistics report.
   */
  lemma {:induction false} AndStatusFinders(tasks: map<Id, Task>, projectId: Id, developerId: Id, s: TaskStatus)
    ensures FindByProjectIdAndStatus(tasks, projectId, s) == FindByProjectId(tasks, projectId) * FindByStatus(tasks, s)
    ensures FindByAssignedDeveloperIdAndStatus(tasks, developerId, s) ==
            FindByAssignedDeveloperId(tasks, developerId) * FindByStatus(tasks, s)
    ensures |FindByProjectIdAndStatus(tasks, projectId, s)| == CountByProjectAndStatus(tasks, projectId, s)
    ensures |FindByAssignedDeveloperIdAndStatus(tasks, developerId, s)| == CountByDeveloperAndStatus(tasks, developerId, s)
  {
    assert FindByProjectIdAndStatus(tasks, projectId, s) == Select(tasks, WithKey(InProject(projectId), StatusOf(), s));
    assert FindByAssignedDeveloperIdAndStatus(tasks, developerId, s) ==
           Select(tasks, WithKey(AssignedTo(developerId), StatusOf(), s));
  }

  /** The per-status counts of a project add up to `countByProjectId`. */
  lemma StatisticsByProjectSum(tasks: map<Id, Task>, projectId: Id)
    ensures RowSum(StatisticsByProject(tasks, projectId)) == CountByProjectId(tasks, projectId)
  {
    TaskStatusesDistinct();
    GroupRowsTotal(tasks, InProject(projectId), StatusOf(), AllTaskStatuses);
  }

  /** The per-status counts of a developer add up to `countByAssignedDeveloperId`. */
  lemma StatisticsByDeveloperSum(tasks: map<Id, Task>, developerId: Id)
    ensures RowSum(StatisticsByDeveloper(tasks, developerId)) == CountByAssignedDeveloperId(tasks, developerId)
  {
    TaskStatusesDistinct();
    GroupRowsTotal(tasks, AssignedTo(developerId), StatusOf(), AllTaskStatuses);
  }

  lemma CountByStatusIsGroup(tasks: map<Id, Task>, s: TaskStatus)
    ensures CountByStatus(tasks, s) == |Select(tasks, WithKey(AnyTask(), StatusOf(), s))|
  {
    assert FindByStatus(tasks, s) == Select(tasks, WithKey(AnyTask(), StatusOf(), s));
  }

  /** The counts per status over the whole table add up to its size. */
  lemma CountByStatusSum(tasks: map<Id, Task>)
    ensures CountByStatus(tasks, Todo) + CountByStatus(tasks, TaskStatus.InProgress) + CountByStatus(tasks, InReview)
      + CountByStatus(tasks, TaskStatus.Completed) + CountByStatus(tasks, Blocked) == |tasks|
  {
    var all := AnyTask();
    TaskStatusesDistinct();
    GroupSizeSumIsCount(tasks, all, StatusOf(), AllTaskStatuses);
    assert WithKeyIn(tasks, all, StatusOf(), AllTaskStatuses) == tasks.Keys;
    CountByStatusIsGroup(tasks, Todo);
    CountByStatusIsGroup(tasks, TaskStatus.InProgress);
    CountByStatusIsGroup(tasks, InReview);
    CountByStatusIsGroup(tasks, TaskStatus.Completed);
    CountByStatusIsGroup(tasks, Blocked);
    UnfoldFive(tasks, all);
  }

  lemma UnfoldFive(tasks: map<Id, Task>, p: Task -> bool)
    ensures GroupSizeSum(tasks, p, StatusOf(), AllTaskStatuses) ==
      |Select(tasks, WithKey(p, StatusOf(), Todo))| + |Select(tasks, WithKey(p, StatusOf(), TaskStatus.InProgress))|
      + |Select(tasks, WithKey(p, StatusOf(), InReview))| + |Select(tasks, WithKey(p, StatusOf(), TaskStatus.Completed))|
      + |Select(tasks, WithKey(p, StatusOf(), Blocked))|
  {
    var key := StatusOf();
    var s0 := AllTaskStatuses;
    var s1 := [TaskStatus.InProgress, InReview, TaskStatus.Completed, Blocked];
    var s2 := [InReview, TaskStatus.Completed, Blocked];
    var s3 := [TaskStatus.Completed, Blocked];
    var s4 := [Blocked];
    assert s0[1..] == s1 && s1[1..] == s2 && s2[1..] == s3 && s3[1..] == s4 && s4[1..] == [];
    assert GroupSizeSum(tasks, p, key, s4) == |Select(tasks, WithKey(p, key, Blocked))|;
    assert GroupSizeSum(tasks, p, key, s3) == |Select(tasks, WithKey(p, key, TaskStatus.Completed))| + GroupSizeSum(tasks, p, key, s4);
    assert GroupSizeSum(tasks, p, key, s2) == |Select(tasks, WithKey(p, key, InReview))| + GroupSizeSum(tasks, p, key, s3);
    assert GroupSizeSum(tasks, p, key, s1) == |Select(tasks, WithKey(p, key, TaskStatus.InProgress))| + GroupSizeSum(tasks, p, key, s2);
  }

  // ---------------------------------------------------------------------
  // @Modifying updates

  /** `UPDATE Task t SET t.status = :status WHERE t.project.id = :projectId`. */
  function WithProjectStatus(tasks: map<Id, Task>, projectId: Id, status: TaskStatus): (r: map<Id, Task>)
    ensures r.Keys == tasks.Keys
    ensures forall k :: k in tasks && tasks[k].projectId == projectId ==> r[k] == tasks[k].(status := status)
    ensures forall k :: k in tasks && tasks[k].projectId != projectId ==> r[k] == tasks[k]
  {
    map k | k in tasks :: if tasks[k].projectId == projectId then tasks[k].(status := status) else tasks[k]
  }

  /** `UPDATE Task t SET t.assignedDeveloper.id = :developerId WHERE t.id IN :taskIds`. */
  function WithDeveloper(tasks: map<Id, Task>, taskIds: seq<Id>, developerId: Id): (r: map<Id, Task>)
    ensures r.Keys == tasks.Keys
    ensures forall k :: k in tasks && k in taskIds ==> r[k] == tasks[k].(developerId := Some(developerId))
    ensures forall k :: k in tasks && k !in taskIds ==> r[k] == tasks[k]
  {
    map k | k in tasks :: if k in taskIds then tasks[k].(developerId := Some(developerId)) else tasks[k]
  }

  /** The rows an `IN :taskIds` clause matches: a repeated id matches its row once. */
  function MatchedIds(tasks: map<Id, Task>, taskIds: seq<Id>): (r: set<Id>)
    ensures forall k :: k in r <==> k in tasks && k in taskIds
    ensures |r| <= |tasks|
  {
    var r := set k | k in tasks && k in taskIds;
    assert r <= tasks.Keys;
    SubsetSize(r, tasks.Keys);
    r
  }

  /** Listing an id twice updates no more rows than listing it once. */
  lemma DuplicatesCountOnce(tasks: map<Id, Task>, taskIds: seq<Id>, k: Id)
    requires k in taskIds
    ensures MatchedIds(tasks, taskIds + [k]) == MatchedIds(tasks, taskIds)
  {
  }
}
