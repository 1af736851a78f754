// `ProjectServiceImpl`. Every public method runs in one transaction: on an
// exception nothing it wrote persists, no audit entry is written and no
// cache key is evicted.
module ProjectServices {
  import opened Common
  import opened Domain
  import opened Views
  import opened Requests
  import opened Grouping
  import opened AuditModel
  import opened AuditService
  import opened Store
  import opened ReadCache
  import ProjectRepository

  /** The row `createProject` saves: a missing status is PLANNING. */
  function NewProject(req: ProjectRequest): Project
  {
    Project(req.name, req.description, req.deadline, if req.status.Some? then req.status.value else Planning)
  }

  /** The row `updateProject` saves: name, description and deadline replaced, the status only when given. */
  function UpdatedProject(p: Project, req: ProjectRequest): Project
  {
    p.(name := req.name, description := req.description, deadline := req.deadline,
       status := if req.status.Some? then req.status.value else p.status)
  }

  /** Applying the same update request twice is the same as applying it once. */
  lemma UpdateProjectIdempotent(p: Project, req: ProjectRequest)
    ensures UpdatedProject(UpdatedProject(p, req), req) == UpdatedProject(p, req)
  {
  }

  /** The task table after the cascade of deleting a project. */
  function WithoutProject(tasks: map<Id, Task>, projectId: Id): (r: map<Id, Task>)
    ensures forall k :: k in r <==> k in tasks && tasks[k].projectId != projectId
    ensures forall k :: k in r ==> r[k] == tasks[k]
  {
    map k | k in tasks && tasks[k].projectId != projectId :: tasks[k]
  }

  /**
   * The cascade removes exactly the project's tasks: the project has none
   * left, every other project keeps its tasks, and every reference that
   * remains is to a stored row.
   */
  lemma WithoutProjectEffect(tasks: map<Id, Task>, projects: map<Id, Project>, developers: map<Id, Developer>,
                             projectId: Id, other: Id)
    requires ProjectsReferenced(tasks, projects) && DevelopersReferenced(tasks, developers)
    requires other != projectId
    ensures WithoutProject(tasks, projectId).Keys == tasks.Keys - Select(tasks, InProject(projectId))
    ensures ProjectTaskCount(WithoutProject(tasks, projectId), projectId) == 0
    ensures Select(WithoutProject(tasks, projectId), InProject(other)) == Select(tasks, InProject(other))
    ensures ProjectsReferenced(WithoutProject(tasks, projectId), projects - {projectId})
    ensures DevelopersReferenced(WithoutProject(tasks, projectId), developers)
  {
    assert Select(WithoutProject(tasks, projectId), InProject(projectId)) == {};
  }

  /** The `put(status, count)` loop over the GROUP BY rows. */
  method StatusCounts(projects: map<Id, Project>) returns (m: map<ProjectStatus, nat>)
    ensures forall s :: s in m <==> ProjectRepository.CountByStatus(projects, s) > 0
    ensures forall s :: s in m ==> m[s] == ProjectRepository.CountByStatus(projects, s)
  {
    var rows := ProjectRepository.GetProjectStatusStatistics(projects);
    assert rows == GroupRows(projects, ProjectRepository.AnyProject(), ProjectRepository.StatusOf(), AllProjectStatuses);
    m := RowsToMap(rows);
    forall s ensures s in m <==> ProjectRepository.CountByStatus(projects, s) > 0
      ensures s in m ==> m[s] == ProjectRepository.CountByStatus(projects, s)
    {
      StatusCountAt(projects, m, s);
    }
  }

  lemma StatusCountAt(projects: map<Id, Project>, m: map<ProjectStatus, nat>, s: ProjectStatus)
    requires ConvertedFrom(m, GroupRows(projects, ProjectRepository.AnyProject(), ProjectRepository.StatusOf(), AllProjectStatuses))
    ensures s in m <==> ProjectRepository.CountByStatus(projects, s) > 0
    ensures s in m ==> m[s] == ProjectRepository.CountByStatus(projects, s)
  {
    ProjectRepository.ProjectStatusesDistinct();
    GroupMap(projects, ProjectRepository.AnyProject(), ProjectRepository.StatusOf(), AllProjectStatuses, m, s);
    ProjectRepository.StatusGroupIsFindByStatus(projects, s);
  }

  class ProjectService {
    const db: Database
    const audit: AuditLogService
    const cache: Cache

    constructor(db: Database, audit: AuditLogService, cache: Cache)
      ensures this.db == db && this.audit == audit && this.cache == cache
    {
      this.db := db;
      this.audit := audit;
      this.cache := cache;
    }

    ghost predicate Valid()
      reads db, audit.store
    {
      db.Valid() && audit.store.Valid()
    }

    /** Every cached project response is the response the current rows give. */
    ghost predicate CacheCoherent()
      reads db, cache
    {
      forall k :: k in cache.projects ==>
        k in db.projects && cache.projects[k] == ViewProject(k, db.projects[k], db.tasks)
    }

    /** `createProject`: no stored project may have the name, ignoring case. */
    method CreateProject(req: ProjectRequest, actor: string, now: Time) returns (r: Result<ProjectView>)
      requires Valid()
      modifies db`projects, db`nextProjectId, audit.store
      ensures Valid()
      ensures r.Err? <==> ProjectRepository.ExistsByNameIgnoreCase(old(db.projects), req.name)
      ensures r.Err? ==> r.error == DuplicateName && unchanged(db) && unchanged(audit.store)
      ensures r.Ok? ==> db.projects == old(db.projects)[old(db.nextProjectId) := NewProject(req)]
      ensures r.Ok? ==> r.value == ViewProject(old(db.nextProjectId), NewProject(req), db.tasks)
      ensures r.Ok? ==> r.value.taskCount == 0
      ensures r.Ok? ==> r.value.status == (if req.status.Some? then req.status.value else Planning)
      ensures r.Ok? ==> ProjectRepository.ExistsByNameIgnoreCase(db.projects, req.name)
      ensures r.Ok? ==> LoggedOnce(audit.store,
        NewAuditLog(Create, ProjectEntity, Some(r.value.id), Some(actor), ProjectData(r.value), now))
      ensures old(CacheCoherent()) ==> CacheCoherent()
    {
      if ProjectRepository.ExistsByNameIgnoreCase(db.projects, req.name) {
        return Err(DuplicateName);
      }
      var p := NewProject(req);
      var id := db.InsertProject(p);
      assert Select(db.tasks, InProject(id)) == {};
      assert EqualsIgnoreCase(db.projects[id].name, req.name);
      var view := ViewProject(id, p, db.tasks);
      audit.LogAction(Create, ProjectEntity, Some(id), Some(actor), ProjectData(view), now);
      r := Ok(view);
    }

    /**
     * `updateProject`: the project must exist; the new name is not checked
     * against the other projects. The "projects" key is evicted on success.
     */
    method UpdateProject(projectId: Id, req: ProjectRequest, actor: string, now: Time) returns (r: Result<ProjectView>)
      requires Valid()
      modifies db`projects, audit.store, cache`projects
      ensures Valid()
      ensures r.Err? <==> projectId !in old(db.projects)
      ensures r.Err? ==> r.error == NotFound && unchanged(db) && unchanged(audit.store) && unchanged(cache)
      ensures r.Ok? ==> db.projects == old(db.projects)[projectId := UpdatedProject(old(db.projects)[projectId], req)]
      ensures r.Ok? ==> r.value == ViewProject(projectId, db.projects[projectId], db.tasks)
      ensures r.Ok? ==> cache.projects == old(cache.projects) - {projectId}
      ensures r.Ok? ==> LoggedOnce(audit.store,
        NewAuditLog(Update, ProjectEntity, Some(projectId), Some(actor),
                    ProjectChange(ViewProject(projectId, old(db.projects)[projectId], db.tasks), r.value), now))
      ensures old(CacheCoherent()) ==> CacheCoherent()
    {
      if projectId !in db.projects {
        return Err(NotFound);
      }
      var p := db.projects[projectId];
      var oldView := ViewProject(projectId, p, db.tasks);
      var u := UpdatedProject(p, req);
      db.projects := db.projects[projectId := u];
      var view := ViewProject(projectId, u, db.tasks);
      audit.LogAction(Update, ProjectEntity, Some(projectId), Some(actor), ProjectChange(oldView, view), now);
      cache.projects := cache.projects - {projectId};
      r := Ok(view);
    }

    /**
     * `deleteProject`: the project must exist; its tasks go with it. The
     * "projects" key is evicted on success.
     */
    method DeleteProject(projectId: Id, actor: string, now: Time) returns (r: Result<()>)
      requires Valid()
      modifies db`projects, db`tasks, audit.store, cache`projects
      ensures Valid()
      ensures r.Err? <==> projectId !in old(db.projects)
      ensures r.Err? ==> r.error == NotFound && unchanged(db) && unchanged(audit.store) && unchanged(cache)
      ensures r.Ok? ==> db.projects == old(db.projects) - {projectId}
      ensures r.Ok? ==> db.tasks == WithoutProject(old(db.tasks), projectId)
      ensures r.Ok? ==> cache.projects == old(cache.projects) - {projectId}
      ensures r.Ok? ==> LoggedOnce(audit.store,
        NewAuditLog(Delete, ProjectEntity, Some(projectId), Some(actor),
                    ProjectData(ViewProject(projectId, old(db.projects)[projectId], old(db.tasks))), now))
      ensures old(CacheCoherent()) ==> CacheCoherent()
    {
      if projectId !in db.projects {
        return Err(NotFound);
      }
      var view := ViewProject(projectId, db.projects[projectId], db.tasks);
      ghost var oldTasks := db.tasks;
      forall k | k != projectId
        ensures ProjectTaskCount(WithoutProject(oldTasks, projectId), k) == ProjectTaskCount(oldTasks, k)
        ensures ProjectsReferenced(WithoutProject(oldTasks, projectId), db.projects - {projectId})
        ensures DevelopersReferenced(WithoutProject(oldTasks, projectId), db.developers)
      {
        WithoutProjectEffect(oldTasks, db.projects, db.developers, projectId, k);
      }
      db.tasks := WithoutProject(db.tasks, projectId);
      db.projects := db.projects - {projectId};
      audit.LogAction(Delete, ProjectEntity, Some(projectId), Some(actor), ProjectData(view), now);
      cache.projects := cache.projects - {projectId};
      r := Ok(());
    }

    /**
     * `getProjectById`, cached under "projects": a cached response is
     * returned as it is; otherwise the response is built and cached.
     */
    method GetProjectById(projectId: Id) returns (r: Result<ProjectView>)
      modifies cache`projects
      ensures projectId in old(cache.projects) ==> r == Ok(old(cache.projects)[projectId]) && unchanged(cache)
      ensures projectId !in old(cache.projects) && projectId !in db.projects ==> r == Err(NotFound) && unchanged(cache)
      ensures projectId !in old(cache.projects) && projectId in db.projects ==>
        r == Ok(ViewProject(projectId, db.projects[projectId], db.tasks))
        && cache.projects == old(cache.projects)[projectId := r.value]
      ensures old(CacheCoherent()) ==> CacheCoherent()
      ensures old(CacheCoherent()) ==>
        r == if projectId in db.projects then Ok(ViewProject(projectId, db.projects[projectId], db.tasks)) else Err(NotFound)
    {
      if projectId in cache.projects {
        return Ok(cache.projects[projectId]);
      }
      if projectId !in db.projects {
        return Err(NotFound);
      }
      var view := ViewProject(projectId, db.projects[projectId], db.tasks);
      cache.projects := cache.projects[projectId := view];
      r := Ok(view);
    }

    /**
     * `getProjectDetails`, cached under "projectDetails": the project with
     * its tasks in ascending id order.
     */
    method GetProjectDetails(projectId: Id) returns (r: Result<ProjectDetail>)
      requires db.Valid()
      modifies cache`projectDetails
      ensures projectId in old(cache.projectDetails) ==>
        r == Ok(old(cache.projectDetails)[projectId]) && unchanged(cache)
      ensures projectId !in old(cache.projectDetails) && projectId !in db.projects ==>
        r == Err(NotFound) && unchanged(cache)
      ensures projectId !in old(cache.projectDetails) && projectId in db.projects ==>
        r == Ok(ProjectDetailOf(projectId, db.projects[projectId], db.tasks, db.developers, db.nextTaskId))
        && cache.projectDetails == old(cache.projectDetails)[projectId := r.value]
      ensures projectId !in old(cache.projectDetails) && projectId in db.projects ==>
        |r.value.tasks| == ProjectTaskCount(db.tasks, projectId)
    {
      if projectId in cache.projectDetails {
        return Ok(cache.projectDetails[projectId]);
      }
      if projectId !in db.projects {
        return Err(NotFound);
      }
      var p := db.projects[projectId];
      var detail := ProjectDetailOf(projectId, p, db.tasks, db.developers, db.nextTaskId);
      ProjectCountMatchesDetail(projectId, p, db.tasks, db.developers, db.nextTaskId);
      cache.projectDetails := cache.projectDetails[projectId := detail];
      r := Ok(detail);
    }

    /** `getProjectStatusStatistics`: the number of projects per status that occurs. */
    method GetProjectStatusStatistics() returns (m: map<ProjectStatus, nat>)
      ensures forall s :: s in m <==> ProjectRepository.CountByStatus(db.projects, s) > 0
      ensures forall s :: s in m ==> m[s] == ProjectRepository.CountByStatus(db.projects, s)
    {
      m := StatusCounts(db.projects);
    }
  }
}
