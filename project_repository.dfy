// The queries of `ProjectRepository`. Each list-returning finder yields the
// set of matching ids; the one ORDER BY query yields a sorted sequence.
module ProjectRepository {
  import opened Common
  import opened Domain
  import opened Text
  import opened Ordering
  import opened Grouping

  function HasStatus(s: ProjectStatus): Project -> bool
  {
    (p: Project) => p.status == s
  }

  function DeadlineBefore(t: Time): Project -> bool
  {
    (p: Project) => p.deadline < t
  }

  function DeadlineBetween(start: Time, end: Time): Project -> bool
  {
    (p: Project) => start <= p.deadline <= end
  }

  function NameIs(name: string): Project -> bool
  {
    (p: Project) => EqualsIgnoreCase(p.name, name)
  }

  /** `findByStatus`. */
  function FindByStatus(projects: map<Id, Project>, s: ProjectStatus): (r: set<Id>)
    ensures forall k :: k in r <==> k in projects && projects[k].status == s
  {
    Select(projects, HasStatus(s))
  }

  /** `findByDeadlineBefore`: strictly earlier deadlines. */
  function FindByDeadlineBefore(projects: map<Id, Project>, t: Time): (r: set<Id>)
    ensures forall k :: k in r <==> k in projects && projects[k].deadline < t
  {
    Select(projects, DeadlineBefore(t))
  }

  /** `findByDeadlineBetween`: SQL BETWEEN, both ends included. */
  function FindByDeadlineBetween(projects: map<Id, Project>, start: Time, end: Time): (r: set<Id>)
    ensures forall k :: k in r <==> k in projects && start <= projects[k].deadline <= end
    ensures start > end ==> r == {}
  {
    Select(projects, DeadlineBetween(start, end))
  }

  /** `findByNameContainingIgnoreCase`. */
  function FindByNameContainingIgnoreCase(projects: map<Id, Project>, name: string): (r: set<Id>)
    ensures forall k :: k in r <==> k in projects && ContainsIgnoreCase(projects[k].name, name)
  {
    set k | k in projects && ContainsIgnoreCase(projects[k].name, name)
  }

  /** `findProjectsWithoutTasks`: `p.tasks IS EMPTY`. */
  function FindProjectsWithoutTasks(projects: map<Id, Project>, tasks: map<Id, Task>): (r: set<Id>)
    ensures forall k :: k in r <==> k in projects && forall t :: t in tasks ==> tasks[t].projectId != k
  {
    set k | k in projects && forall t :: t in tasks ==> tasks[t].projectId != k
  }

  /** `findProjectsWithTaskCount(n)`: LEFT JOIN ... HAVING COUNT(t) = n. */
  function FindProjectsWithTaskCount(projects: map<Id, Project>, tasks: map<Id, Task>, n: int): (r: set<Id>)
    ensures forall k :: k in r <==> k in projects && ProjectTaskCount(tasks, k) == n
  {
    set k | k in projects && ProjectTaskCount(tasks, k) == n
  }

  /** A project without tasks is exactly one whose task count is zero. */
  lemma WithoutTasksIsCountZero(projects: map<Id, Project>, tasks: map<Id, Task>)
    ensures FindProjectsWithoutTasks(projects, tasks) == FindProjectsWithTaskCount(projects, tasks, 0)
  {
    forall k | k in projects
      ensures (forall t :: t in tasks ==> tasks[t].projectId != k) <==> ProjectTaskCount(tasks, k) == 0
    {
      if ProjectTaskCount(tasks, k) != 0 {
        var t :| t in Select(tasks, InProject(k));
      }
    }
  }

  /** `findOverdueProjects`: deadline passed and not COMPLETED. */
  function FindOverdueProjects(projects: map<Id, Project>, now: Time): (r: set<Id>)
    ensures forall k :: k in r <==> k in projects && projects[k].deadline < now && projects[k].status != ProjectStatus.Completed
    ensures r <= FindByDeadlineBefore(projects, now)
  {
    set k | k in projects && projects[k].deadline < now && projects[k].status != ProjectStatus.Completed
  }

  /** The overdue projects are the late ones minus the completed ones. */
  lemma OverdueIsLateAndOpen(projects: map<Id, Project>, now: Time)
    ensures FindOverdueProjects(projects, now)
      == FindByDeadlineBefore(projects, now) - FindByStatus(projects, ProjectStatus.Completed)
  {
  }

  function DeadlineOf(projects: map<Id, Project>, k: Id): Time
  {
    if k in projects then projects[k].deadline else 0
  }

  function EarlierDeadline(projects: map<Id, Project>): (Id, Id) -> bool
  {
    (a: Id, b: Id) => DeadlineOf(projects, a) <= DeadlineOf(projects, b)
  }

  /** `findByStatusOrderByDeadline`: the projects of a status, earliest deadline first. */
  function FindByStatusOrderByDeadline(projects: map<Id, Project>, s: ProjectStatus, bound: nat): (r: seq<Id>)
    ensures multiset(r) == multiset(IdsBelow(FindByStatus(projects, s), bound))
    ensures forall k :: k in r <==> k in projects && projects[k].status == s && k < bound
    ensures forall i, j :: 0 <= i < j < |r| ==> DeadlineOf(projects, r[i]) <= DeadlineOf(projects, r[j])
  {
    var ids := IdsBelow(FindByStatus(projects, s), bound);
    var le := EarlierDeadline(projects);
    var r := SortBy(ids, le);
    SameMembers(r, ids);
    forall i, j | 0 <= i < j < |r| ensures DeadlineOf(projects, r[i]) <= DeadlineOf(projects, r[j]) {
      SortedPairwise(r, le, i, j);
    }
    r
  }

  /** `existsByNameIgnoreCase`. */
  predicate ExistsByNameIgnoreCase(projects: map<Id, Project>, name: string)
  {
    exists k :: k in projects && EqualsIgnoreCase(projects[k].name, name)
  }

  /**
   * `findByNameIgnoreCase`: names are not unique ignoring case, so several
   * matches make the single-result finder fail.
   */
  function FindByNameIgnoreCase(projects: map<Id, Project>, name: string): (r: Result<Option<Id>>)
    ensures r.Ok? && r.value.Some? ==> r.value.value in projects && EqualsIgnoreCase(projects[r.value.value].name, name)
    ensures r == Ok(None) <==> !ExistsByNameIgnoreCase(projects, name)
    ensures r.Err? ==> r.error == NonUniqueResult
    ensures r.Err? <==> |Select(projects, NameIs(name))| > 1
    ensures r.Ok? && r.value.Some? ==>
      forall k :: k in projects && EqualsIgnoreCase(projects[k].name, name) ==> k == r.value.value
  {
    FindOne(Select(projects, NameIs(name)))
  }

  /** `countByStatus`. */
  function CountByStatus(projects: map<Id, Project>, s: ProjectStatus): nat
  {
    |FindByStatus(projects, s)|
  }

  // ---------------------------------------------------------------------
  // GROUP BY p.status

  function StatusOf(): Project -> ProjectStatus
  {
    (p: Project) => p.status
  }

  function AnyProject(): Project -> bool
  {
    (p: Project) => true
  }

  lemma ProjectStatusesDistinct()
    ensures forall i, j :: 0 <= i < j < |AllProjectStatuses| ==> AllProjectStatuses[i] != AllProjectStatuses[j]
    ensures forall s: ProjectStatus :: s in AllProjectStatuses
  {
    forall s: ProjectStatus ensures s in AllProjectStatuses {
      match s
      case Planning => assert AllProjectStatuses[0] == s;
      case InProgress => assert AllProjectStatuses[1] == s;
      case OnHold => assert AllProjectStatuses[2] == s;
      case Completed => assert AllProjectStatuses[3] == s;
      case Cancelled => assert AllProjectStatuses[4] == s;
    }
  }

  /**
   * `getProjectStatusStatistics`: one (status, count) row per status that
   * occurs, listed in declaration order.
   */
  function GetProjectStatusStatistics(projects: map<Id, Project>): (rows: seq<(ProjectStatus, nat)>)
    ensures forall i :: 0 <= i < |rows| ==> rows[i].1 > 0 && rows[i].1 == CountByStatus(projects, rows[i].0)
  {
    var rows := GroupRows(projects, AnyProject(), StatusOf(), AllProjectStatuses);
    forall i | 0 <= i < |rows| ensures rows[i].1 == CountByStatus(projects, rows[i].0) {
      assert FindByStatus(projects, rows[i].0) == Select(projects, WithKey(AnyProject(), StatusOf(), rows[i].0));
    }
    rows
  }

  /** The GROUP BY group of a status is the status finder's result. */
  lemma StatusGroupIsFindByStatus(projects: map<Id, Project>, s: ProjectStatus)
    ensures Select(projects, WithKey(AnyProject(), StatusOf(), s)) == FindByStatus(projects, s)
  {
  }

  /** Every status held by some project has its row. */
  lemma StatisticsCoverEveryStatus(projects: map<Id, Project>, s: ProjectStatus)
    requires CountByStatus(projects, s) > 0
    ensures exists i :: 0 <= i < |GetProjectStatusStatistics(projects)| && GetProjectStatusStatistics(projects)[i].0 == s
  {
    ProjectStatusesDistinct();
    assert s in AllProjectStatuses;
    assert FindByStatus(projects, s) == Select(projects, WithKey(AnyProject(), StatusOf(), s));
    assert GetProjectStatusStatistics(projects) == GroupRows(projects, AnyProject(), StatusOf(), AllProjectStatuses);
    GroupRowsComplete(projects, AnyProject(), StatusOf(), AllProjectStatuses, s);
  }

  /** The status counts add up to the number of projects. */
  lemma StatisticsSum(projects: map<Id, Project>)
    ensures RowSum(GetProjectStatusStatistics(projects)) == |projects|
  {
    ProjectStatusesDistinct();
    GroupRowsTotal(projects, AnyProject(), StatusOf(), AllProjectStatuses);
    assert Select(projects, AnyProject()) == projects.Keys;
  }
}
