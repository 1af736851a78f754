// `DeveloperServiceImpl`. Every public method runs in one transaction: on
// an exception nothing it wrote persists, no audit entry is written and no
// cache key is evicted.
module DeveloperServices {
  import opened Common
  import opened Domain
  import opened Views
  import opened Requests
  import opened Ordering
  import opened Text
  import opened AuditModel
  import opened AuditService
  import opened Store
  import opened ReadCache
  import Skills
  import DeveloperRepository

  /** The skills a request sets: the normalised request skills, or none when the request has none. */
  function RequestSkills(skills: Option<set<Option<string>>>, current: set<string>): (r: set<string>)
    ensures skills.None? ==> r == current
    ensures skills.Some? ==> forall x :: x in r ==> Skills.IsNormal(x)
  {
    if skills.Some? then Skills.NormalizeAll(skills.value) else current
  }

  /** The row `createDeveloper` saves. */
  function NewDeveloper(req: DeveloperRequest): Developer
  {
    Developer(req.name, req.email, RequestSkills(req.skills, {}))
  }

  /** The row `updateDeveloper` saves: name and e-mail replaced, skills only when given. */
  function UpdatedDeveloper(d: Developer, req: DeveloperRequest): Developer
  {
    d.(name := req.name, email := req.email, skills := RequestSkills(req.skills, d.skills))
  }

  /** The task table once a developer is unassigned from all of its tasks. */
  function WithoutDeveloper(tasks: map<Id, Task>, developerId: Id): (r: map<Id, Task>)
    ensures r.Keys == tasks.Keys
  {
    map k | k in tasks :: if tasks[k].developerId == Some(developerId) then tasks[k].(developerId := None) else tasks[k]
  }

  /**
   * Unassigning leaves the developer with no task, every other developer
   * with the same tasks, and no task pointing at the developer.
   */
  lemma WithoutDeveloperEffect(tasks: map<Id, Task>, developerId: Id, other: Id)
    requires other != developerId
    ensures TaskCountOf(WithoutDeveloper(tasks, developerId), developerId) == 0
    ensures Select(WithoutDeveloper(tasks, developerId), AssignedTo(other)) == Select(tasks, AssignedTo(other))
    ensures forall k :: k in tasks && tasks[k].developerId != Some(developerId) ==>
      WithoutDeveloper(tasks, developerId)[k] == tasks[k]
  {
    var r := WithoutDeveloper(tasks, developerId);
    assert Select(r, AssignedTo(developerId)) == {};
  }

  /**
   * After unassigning, the remaining table refers only to the remaining
   * developers, and the remaining developers keep distinct e-mails and
   * normal skills.
   */
  lemma WithoutDeveloperReferences(tasks: map<Id, Task>, projects: map<Id, Project>,
                                   developers: map<Id, Developer>, developerId: Id)
    requires ProjectsReferenced(tasks, projects) && DevelopersReferenced(tasks, developers)
    requires DeveloperRepository.UniqueEmails(developers) && NormalSkills(developers)
    ensures DeveloperRepository.UniqueEmails(developers - {developerId}) && NormalSkills(developers - {developerId})
    ensures ProjectsReferenced(WithoutDeveloper(tasks, developerId), projects)
    ensures DevelopersReferenced(WithoutDeveloper(tasks, developerId), developers - {developerId})
  {
  }

  /** A cache entry that matched the tables still matches once another developer is deleted. */
  lemma DeleteKeepsViews(cached: map<Id, DeveloperView>, developers: map<Id, Developer>,
                         tasks: map<Id, Task>, developerId: Id)
    requires forall k :: k in cached ==> k in developers && cached[k] == ViewDeveloper(k, developers[k], tasks)
    ensures forall k :: k in cached - {developerId} ==>
      (&& k in developers - {developerId}
       && (cached - {developerId})[k] == ViewDeveloper(k, (developers - {developerId})[k], WithoutDeveloper(tasks, developerId)))
  {
    forall k | k in cached - {developerId}
      ensures TaskCountOf(WithoutDeveloper(tasks, developerId), k) == TaskCountOf(tasks, k)
    {
      WithoutDeveloperEffect(tasks, developerId, k);
    }
  }

  /**
   * The loop of `deleteDeveloper` over `findByAssignedDeveloperId`: each
   * of the developer's tasks, in ascending id order, loses its developer.
   */
  method UnassignAll(tasks: map<Id, Task>, order: seq<Id>, developerId: Id) returns (r: map<Id, Task>)
    requires forall k :: k in order <==> k in Select(tasks, AssignedTo(developerId))
    ensures r == WithoutDeveloper(tasks, developerId)
  {
    r := tasks;
    var i := 0;
    while i < |order|
      invariant 0 <= i <= |order|
      invariant r.Keys == tasks.Keys
      invariant forall k :: k in tasks ==>
        r[k] == if k in order[..i] then tasks[k].(developerId := None) else tasks[k]
    {
      var k := order[i];
      assert k in Select(tasks, AssignedTo(developerId));
      r := r[k := r[k].(developerId := None)];
      assert order[..i + 1] == order[..i] + [k];
      i := i + 1;
    }
    assert order[..|order|] == order;
  }

  /** The developers holding a skill among the ids visited so far. */
  ghost function Holders(developers: map<Id, Developer>, done: set<Id>, skill: string): set<Id>
  {
    set k | k in done && k in developers && skill in developers[k].skills
  }

  /** What the skill-statistics loop keeps for the visited developers. */
  ghost predicate CountsHolders(m: map<string, nat>, developers: map<Id, Developer>, done: set<Id>)
  {
    forall s :: (s in m <==> |Holders(developers, done, s)| > 0)
             && (s in m ==> m[s] == |Holders(developers, done, s)|)
  }

  /** The inner loop of `getSkillStatistics`: `merge(skill, 1, Long::sum)` for each skill. */
  method MergeSkills(m: map<string, nat>, skills: set<string>) returns (r: map<string, nat>)
    ensures forall s :: s in r <==> (s in m || s in skills)
    ensures forall s :: s in r ==> r[s] == (if s in m then m[s] else 0) + (if s in skills then 1 else 0)
  {
    r := m;
    var rest := skills;
    while rest != {}
      invariant rest <= skills
      invariant forall s :: s in r <==> (s in m || s in skills - rest)
      invariant forall s :: s in r ==> r[s] == (if s in m then m[s] else 0) + (if s in skills - rest then 1 else 0)
      decreases |rest|
    {
      var s :| s in rest;
      r := r[s := if s in r then r[s] + 1 else 1];
      rest := rest - {s};
    }
  }

  /** Visiting one more developer adds it to the holders of each of its skills. */
  lemma HoldersStep(developers: map<Id, Developer>, done: set<Id>, k: Id, s: string)
    requires k in developers && k !in done
    ensures |Holders(developers, done + {k}, s)|
      == |Holders(developers, done, s)| + (if s in developers[k].skills then 1 else 0)
  {
    if s in developers[k].skills {
      assert Holders(developers, done + {k}, s) == Holders(developers, done, s) + {k};
    } else {
      assert Holders(developers, done + {k}, s) == Holders(developers, done, s);
    }
  }

  lemma MergeKeepsCounts(m: map<string, nat>, r: map<string, nat>, developers: map<Id, Developer>, done: set<Id>, k: Id)
    requires k in developers && k !in done
    requires CountsHolders(m, developers, done)
    requires forall s :: s in r <==> (s in m || s in developers[k].skills)
    requires forall s :: s in r ==>
      r[s] == (if s in m then m[s] else 0) + (if s in developers[k].skills then 1 else 0)
    ensures CountsHolders(r, developers, done + {k})
  {
    forall s ensures (s in r <==> |Holders(developers, done + {k}, s)| > 0)
                  && (s in r ==> r[s] == |Holders(developers, done + {k}, s)|)
    {
      HoldersStep(developers, done, k, s);
    }
  }

  /**
   * `getSkillStatistics`: over all developers and each of their skills,
   * the number of developers holding each skill that some developer holds.
   */
  method SkillStatistics(developers: map<Id, Developer>, order: seq<Id>) returns (m: map<string, nat>)
    requires forall k :: k in order <==> k in developers
    requires forall i, j :: 0 <= i < j < |order| ==> order[i] != order[j]
    ensures forall s :: s in m <==> DeveloperRepository.CountBySkill(developers, s) > 0
    ensures forall s :: s in m ==> m[s] == DeveloperRepository.CountBySkill(developers, s)
  {
    m := map[];
    ghost var done: set<Id> := {};
    var i := 0;
    while i < |order|
      invariant 0 <= i <= |order|
      invariant done == set j | 0 <= j < i :: order[j]
      invariant forall j :: i <= j < |order| ==> order[j] !in done
      invariant CountsHolders(m, developers, done)
    {
      var k := order[i];
      var next := MergeSkills(m, developers[k].skills);
      MergeKeepsCounts(m, next, developers, done, k);
      m := next;
      done := done + {k};
      i := i + 1;
    }
    assert done == developers.Keys by {
      forall k | k in developers ensures k in done {
        var j :| 0 <= j < |order| && order[j] == k;
      }
    }
    forall s ensures Holders(developers, done, s) == Select(developers, DeveloperRepository.HasSkill(s)) {
    }
  }

  /** Replacing one developer's skills by normal ones keeps the e-mails unique and the skills normal. */
  lemma SkillsChangeKeepsStore(developers: map<Id, Developer>, developerId: Id, skills: set<string>)
    requires developerId in developers
    requires DeveloperRepository.UniqueEmails(developers) && NormalSkills(developers)
    requires forall x :: x in skills ==> Skills.IsNormal(x)
    ensures DeveloperRepository.UniqueEmails(developers[developerId := developers[developerId].(skills := skills)])
    ensures NormalSkills(developers[developerId := developers[developerId].(skills := skills)])
  {
  }

  /**
   * A lookup lower-cases its argument but does not trim it, while storage
   * trims: a developer holding the stored form of an argument whose
   * lower-cased form differs from it is not found by that argument, as
   * " Java" against a stored "java" shows.
   */
  lemma LookupIsNotTrimmed(developers: map<Id, Developer>, k: Id, skill: string)
    ensures (&& k in developers
             && Skills.Normalize(skill) in developers[k].skills
             && ToLower(skill) !in developers[k].skills) ==>
      forall s :: (k, s) !in DeveloperRepository.FindBySkill(developers, ToLower(skill))
    ensures Skills.Normalize(" Java") == "java"
    ensures ToLower(" Java") != "java"
  {
    assert LeadingBlanks(" Java") == 1;
    assert " Java"[1..] == "Java";
    assert TrailingBlanks("Java") == 0;
    assert Trim(" Java") == "Java";
    assert ToLower("Java") == "java";
    assert ToLower(" Java")[0] == ' ';
  }

  /** A lookup finds a skill exactly as `addSkill` stores it whenever the argument is already trimmed. */
  lemma LookupMatchesStorage(skill: string)
    requires IsTrimmed(skill)
    ensures ToLower(skill) == Skills.Normalize(skill)
  {
    TrimTrimmed(skill);
  }

  class DeveloperService {
    const db: Database
    const audit: AuditLogService
    const cache: Cache

    constructor(db: Database, audit: AuditLogService, cache: Cache)
      ensures this.db == db && this.audit == audit && this.cache == cache
    {
      this.db := db;
      this.audit := audit;
      this.cache := cache;
    }

    ghost predicate Valid()
      reads db, audit.store
    {
      db.Valid() && audit.store.Valid()
    }

    /** Every cached developer response is the response the current rows give. */
    ghost predicate CacheCoherent()
      reads db, cache
    {
      forall k :: k in cache.developers ==>
        k in db.developers && cache.developers[k] == ViewDeveloper(k, db.developers[k], db.tasks)
    }

    /** `createDeveloper`: the e-mail must be new; the request skills are normalised. */
    method CreateDeveloper(req: DeveloperRequest, actor: string, now: Time) returns (r: Result<DeveloperView>)
      requires Valid()
      modifies db`developers, db`nextDeveloperId, audit.store
      ensures Valid()
      ensures r.Err? <==> DeveloperRepository.ExistsByEmail(old(db.developers), req.email)
      ensures r.Err? ==> r.error == DuplicateEmail && unchanged(db) && unchanged(audit.store)
      ensures r.Ok? ==> db.developers == old(db.developers)[old(db.nextDeveloperId) := NewDeveloper(req)]
      ensures r.Ok? ==> r.value == ViewDeveloper(old(db.nextDeveloperId), NewDeveloper(req), db.tasks)
      ensures r.Ok? ==> r.value.taskCount == 0
      ensures r.Ok? ==> LoggedOnce(audit.store,
        NewAuditLog(Create, DeveloperEntity, Some(r.value.id), Some(actor), DeveloperData(r.value), now))
      ensures old(CacheCoherent()) ==> CacheCoherent()
    {
      if DeveloperRepository.ExistsByEmail(db.developers, req.email) {
        return Err(DuplicateEmail);
      }
      var d := NewDeveloper(req);
      var id := db.InsertDeveloper(d);
      assert Select(db.tasks, AssignedTo(id)) == {};
      var view := ViewDeveloper(id, d, db.tasks);
      audit.LogAction(Create, DeveloperEntity, Some(id), Some(actor), DeveloperData(view), now);
      r := Ok(view);
    }

    /**
     * `updateDeveloper`: the developer must exist; a changed e-mail must be
     * new; the "developers" key is evicted on success.
     */
    method UpdateDeveloper(developerId: Id, req: DeveloperRequest, actor: string, now: Time) returns (r: Result<DeveloperView>)
      requires Valid()
      modifies db`developers, audit.store, cache`developers
      ensures Valid()
      ensures r.Err? <==> (developerId !in old(db.developers)
        || (old(db.developers)[developerId].email != req.email
            && DeveloperRepository.ExistsByEmail(old(db.developers), req.email)))
      ensures r.Err? && developerId !in old(db.developers) ==> r.error == NotFound
      ensures r.Err? && developerId in old(db.developers) ==> r.error == DuplicateEmail
      ensures r.Err? ==> unchanged(db) && unchanged(audit.store) && unchanged(cache)
      ensures r.Ok? ==> db.developers == old(db.developers)[developerId := UpdatedDeveloper(old(db.developers)[developerId], req)]
      ensures r.Ok? ==> r.value == ViewDeveloper(developerId, db.developers[developerId], db.tasks)
      ensures r.Ok? ==> cache.developers == old(cache.developers) - {developerId}
      ensures r.Ok? ==> LoggedOnce(audit.store,
        NewAuditLog(Update, DeveloperEntity, Some(developerId), Some(actor),
                    DeveloperChange(ViewDeveloper(developerId, old(db.developers)[developerId], db.tasks), r.value), now))
      ensures old(CacheCoherent()) ==> CacheCoherent()
    {
      if developerId !in db.developers {
        return Err(NotFound);
      }
      var d := db.developers[developerId];
      var oldView := ViewDeveloper(developerId, d, db.tasks);
      if d.email != req.email && DeveloperRepository.ExistsByEmail(db.developers, req.email) {
        return Err(DuplicateEmail);
      }
      var u := UpdatedDeveloper(d, req);
      db.developers := db.developers[developerId := u];
      var view := ViewDeveloper(developerId, u, db.tasks);
      audit.LogAction(Update, DeveloperEntity, Some(developerId), Some(actor), DeveloperChange(oldView, view), now);
      cache.developers := cache.developers - {developerId};
      r := Ok(view);
    }

    /**
     * `deleteDeveloper`: the developer must exist; its tasks are unassigned
     * first; the "developers" key is evicted on success.
     */
    method DeleteDeveloper(developerId: Id, actor: string, now: Time) returns (r: Result<()>)
      requires Valid()
      modifies db`tasks, db`developers, audit.store, cache`developers
      ensures Valid()
      ensures r.Err? <==> developerId !in old(db.developers)
      ensures r.Err? ==> r.error == NotFound && unchanged(db) && unchanged(audit.store) && unchanged(cache)
      ensures r.Ok? ==> db.developers == old(db.developers) - {developerId}
      ensures r.Ok? ==> db.tasks == WithoutDeveloper(old(db.tasks), developerId)
      ensures r.Ok? ==> cache.developers == old(cache.developers) - {developerId}
      ensures r.Ok? ==> LoggedOnce(audit.store,
        NewAuditLog(Delete, DeveloperEntity, Some(developerId), Some(actor),
                    DeveloperData(ViewDeveloper(developerId, old(db.developers)[developerId], old(db.tasks))), now))
      ensures old(CacheCoherent()) ==> CacheCoherent()
    {
      if developerId !in db.developers {
        return Err(NotFound);
      }
      var view := ViewDeveloper(developerId, db.developers[developerId], db.tasks);
      if CacheCoherent() {
        DeleteKeepsViews(cache.developers, db.developers, db.tasks, developerId);
      }
      RemoveDeveloperRows(developerId);
      audit.LogAction(Delete, DeveloperEntity, Some(developerId), Some(actor), DeveloperData(view), now);
      cache.developers := cache.developers - {developerId};
      r := Ok(());
    }

    /** The table changes of `deleteDeveloper`: its tasks lose the developer, then the row goes. */
    method RemoveDeveloperRows(developerId: Id)
      requires db.Valid() && developerId in db.developers
      modifies db`tasks, db`developers
      ensures db.Valid()
      ensures db.developers == old(db.developers) - {developerId}
      ensures db.tasks == WithoutDeveloper(old(db.tasks), developerId)
    {
      var order := IdsBelow(Select(db.tasks, AssignedTo(developerId)), db.nextTaskId);
      var tasks := UnassignAll(db.tasks, order, developerId);
      WithoutDeveloperReferences(db.tasks, db.projects, db.developers, developerId);
      db.tasks := tasks;
      db.developers := db.developers - {developerId};
    }

    /**
     * `getDeveloperById`, cached under "developers": a cached response is
     * returned as it is; otherwise the response is built and cached.
     */
    method GetDeveloperById(developerId: Id) returns (r: Result<DeveloperView>)
      modifies cache`developers
      ensures developerId in old(cache.developers) ==> r == Ok(old(cache.developers)[developerId]) && unchanged(cache)
      ensures developerId !in old(cache.developers) && developerId !in db.developers ==> r == Err(NotFound) && unchanged(cache)
      ensures developerId !in old(cache.developers) && developerId in db.developers ==>
        r == Ok(ViewDeveloper(developerId, db.developers[developerId], db.tasks))
        && cache.developers == old(cache.developers)[developerId := r.value]
      ensures old(CacheCoherent()) ==> CacheCoherent()
      ensures old(CacheCoherent()) ==>
        r == if developerId in db.developers then Ok(ViewDeveloper(developerId, db.developers[developerId], db.tasks)) else Err(NotFound)
    {
      if developerId in cache.developers {
        return Ok(cache.developers[developerId]);
      }
      if developerId !in db.developers {
        return Err(NotFound);
      }
      var view := ViewDeveloper(developerId, db.developers[developerId], db.tasks);
      cache.developers := cache.developers[developerId := view];
      r := Ok(view);
    }

    /**
     * `getDeveloperDetails`, cached under "developerDetails": the developer
     * with its assigned tasks in ascending id order.
     */
    method GetDeveloperDetails(developerId: Id) returns (r: Result<DeveloperDetail>)
      requires db.Valid()
      modifies cache`developerDetails
      ensures developerId in old(cache.developerDetails) ==>
        r == Ok(old(cache.developerDetails)[developerId]) && unchanged(cache)
      ensures developerId !in old(cache.developerDetails) && developerId !in db.developers ==>
        r == Err(NotFound) && unchanged(cache)
      ensures developerId !in old(cache.developerDetails) && developerId in db.developers ==>
        r == Ok(DeveloperDetailOf(developerId, db.developers[developerId], db.tasks, db.developers, db.nextTaskId))
        && cache.developerDetails == old(cache.developerDetails)[developerId := r.value]
      ensures developerId !in old(cache.developerDetails) && developerId in db.developers ==>
        |r.value.assignedTasks| == TaskCountOf(db.tasks, developerId)
    {
      if developerId in cache.developerDetails {
        return Ok(cache.developerDetails[developerId]);
      }
      if developerId !in db.developers {
        return Err(NotFound);
      }
      var d := db.developers[developerId];
      var detail := DeveloperDetailOf(developerId, d, db.tasks, db.developers, db.nextTaskId);
      DeveloperCountMatchesDetail(developerId, d, db.tasks, db.developers, db.nextTaskId);
      cache.developerDetails := cache.developerDetails[developerId := detail];
      r := Ok(detail);
    }

    /** `getDevelopersBySkill`: the skill is lower-cased, not trimmed, before the lookup. */
    function GetDevelopersBySkill(skill: string): (r: set<Id>)
      reads db
      ensures forall k :: k in r <==> k in db.developers && ToLower(skill) in db.developers[k].skills
    {
      var rows := DeveloperRepository.FindBySkill(db.developers, ToLower(skill));
      assert forall k :: k in db.developers && ToLower(skill) in db.developers[k].skills ==> (k, ToLower(skill)) in rows;
      set row | row in rows :: row.0
    }

    /** `getDevelopersBySkills`: each skill is lower-cased; a developer holding any of them matches. */
    function GetDevelopersBySkills(skills: seq<string>): (r: set<Id>)
      reads db
      ensures forall k :: k in r <==>
        k in db.developers && exists i :: 0 <= i < |skills| && ToLower(skills[i]) in db.developers[k].skills
    {
      var lowered := seq(|skills|, i requires 0 <= i < |skills| => ToLower(skills[i]));
      var r := DeveloperRepository.FindBySkillsIn(db.developers, lowered);
      forall k | k in db.developers
        ensures (exists s :: s in lowered && s in db.developers[k].skills)
          <==> (exists i :: 0 <= i < |skills| && ToLower(skills[i]) in db.developers[k].skills)
      {
        if exists s :: s in lowered && s in db.developers[k].skills {
          var s :| s in lowered && s in db.developers[k].skills;
          var i :| 0 <= i < |lowered| && lowered[i] == s;
          assert ToLower(skills[i]) in db.developers[k].skills;
        }
        if exists i :: 0 <= i < |skills| && ToLower(skills[i]) in db.developers[k].skills {
          var i :| 0 <= i < |skills| && ToLower(skills[i]) in db.developers[k].skills;
          assert lowered[i] in lowered;
        }
      }
      r
    }

    /**
     * `getTopDevelopersByTaskCount`: the repository's first page of `limit`
     * developers by task count; a page size below one is refused.
     */
    function GetTopDevelopersByTaskCount(limit: int): (r: Result<seq<Id>>)
      reads db
      ensures r.Err? <==> limit < 1
      ensures r.Ok? ==> forall i :: 0 <= i < |r.value| ==> r.value[i] in db.developers
      ensures r.Ok? ==> forall i, j :: 0 <= i < j < |r.value| ==>
        r.value[i] != r.value[j] && TaskCountOf(db.tasks, r.value[i]) >= TaskCountOf(db.tasks, r.value[j])
      ensures r.Ok? && db.Valid() ==> |r.value| == (if |db.developers| < limit then |db.developers| else limit)
      ensures r.Ok? && db.Valid() ==> forall k, i :: k in db.developers && k !in r.value && 0 <= i < |r.value| ==>
        TaskCountOf(db.tasks, k) <= TaskCountOf(db.tasks, r.value[i])
    {
      BelowAllKeys(db.developers.Keys, db.nextDeveloperId);
      DeveloperRepository.FindTopDevelopersByTaskCount(db.developers, db.tasks, db.nextDeveloperId, limit)
    }

    /** Saves new skills for a stored developer and evicts both of its cache keys. */
    method SaveSkills(developerId: Id, skills: set<string>)
      requires Valid() && developerId in db.developers
      requires forall x :: x in skills ==> Skills.IsNormal(x)
      modifies db`developers, cache`developers, cache`developerDetails
      ensures Valid()
      ensures db.developers == old(db.developers)[developerId := old(db.developers)[developerId].(skills := skills)]
      ensures cache.developers == old(cache.developers) - {developerId}
      ensures cache.developerDetails == old(cache.developerDetails) - {developerId}
      ensures old(CacheCoherent()) ==> CacheCoherent()
    {
      SkillsChangeKeepsStore(db.developers, developerId, skills);
      db.developers := db.developers[developerId := db.developers[developerId].(skills := skills)];
      cache.developers := cache.developers - {developerId};
      cache.developerDetails := cache.developerDetails - {developerId};
    }

    /**
     * `addSkillToDeveloper`: the developer must exist; a blank skill is
     * ignored by `addSkill`, and a null one fails when the payload
     * lower-cases it. Both developer caches are evicted on success.
     */
    method AddSkillToDeveloper(developerId: Id, skill: Option<string>, actor: string, now: Time) returns (r: Result<DeveloperView>)
      requires Valid()
      modifies db`developers, audit.store, cache`developers, cache`developerDetails
      ensures Valid()
      ensures r.Err? <==> (developerId !in old(db.developers) || skill.None?)
      ensures r.Err? && developerId !in old(db.developers) ==> r.error == NotFound
      ensures r.Err? && developerId in old(db.developers) ==> r.error == NullArgument
      ensures r.Err? ==> unchanged(db) && unchanged(audit.store) && unchanged(cache)
      ensures r.Ok? ==> db.developers == old(db.developers)[developerId :=
        old(db.developers)[developerId].(skills := Skills.AddSkill(old(db.developers)[developerId].skills, skill))]
      ensures r.Ok? ==> r.value == ViewDeveloper(developerId, db.developers[developerId], db.tasks)
      ensures r.Ok? ==> cache.developers == old(cache.developers) - {developerId}
      ensures r.Ok? ==> cache.developerDetails == old(cache.developerDetails) - {developerId}
      ensures r.Ok? ==> LoggedOnce(audit.store,
        NewAuditLog(Update, DeveloperEntity, Some(developerId), Some(actor), Payload.AddSkill(ToLower(skill.value), developerId), now))
      ensures old(CacheCoherent()) ==> CacheCoherent()
    {
      if developerId !in db.developers {
        return Err(NotFound);
      }
      if skill.None? {
        return Err(NullArgument);
      }
      var d := db.developers[developerId];
      var skills := Skills.AddSkill(d.skills, skill);
      Skills.AddSkillKeepsNormal(d.skills, skill);
      SaveSkills(developerId, skills);
      audit.LogAction(Update, DeveloperEntity, Some(developerId), Some(actor), Payload.AddSkill(ToLower(skill.value), developerId), now);
      r := Ok(ViewDeveloper(developerId, d.(skills := skills), db.tasks));
    }

    /**
     * `removeSkillFromDeveloper`: removes the normal form of the skill; a
     * null skill fails when the payload lower-cases it. Both developer
     * caches are evicted on success.
     */
    method RemoveSkillFromDeveloper(developerId: Id, skill: Option<string>, actor: string, now: Time) returns (r: Result<DeveloperView>)
      requires Valid()
      modifies db`developers, audit.store, cache`developers, cache`developerDetails
      ensures Valid()
      ensures r.Err? <==> (developerId !in old(db.developers) || skill.None?)
      ensures r.Err? && developerId !in old(db.developers) ==> r.error == NotFound
      ensures r.Err? && developerId in old(db.developers) ==> r.error == NullArgument
      ensures r.Err? ==> unchanged(db) && unchanged(audit.store) && unchanged(cache)
      ensures r.Ok? ==> db.developers == old(db.developers)[developerId :=
        old(db.developers)[developerId].(skills := old(db.developers)[developerId].skills - {Skills.Normalize(skill.value)})]
      ensures r.Ok? ==> r.value == ViewDeveloper(developerId, db.developers[developerId], db.tasks)
      ensures r.Ok? ==> cache.developers == old(cache.developers) - {developerId}
      ensures r.Ok? ==> cache.developerDetails == old(cache.developerDetails) - {developerId}
      ensures r.Ok? ==> LoggedOnce(audit.store,
        NewAuditLog(Update, DeveloperEntity, Some(developerId), Some(actor), Payload.RemoveSkill(ToLower(skill.value), developerId), now))
      ensures old(CacheCoherent()) ==> CacheCoherent()
    {
      if developerId !in db.developers {
        return Err(NotFound);
      }
      if skill.None? {
        return Err(NullArgument);
      }
      var d := db.developers[developerId];
      var skills := Skills.RemoveSkill(d.skills, skill);
      SaveSkills(developerId, skills);
      audit.LogAction(Update, DeveloperEntity, Some(developerId), Some(actor), Payload.RemoveSkill(ToLower(skill.value), developerId), now);
      r := Ok(ViewDeveloper(developerId, d.(skills := skills), db.tasks));
    }

    /**
     * `updateDeveloperSkills`: the skills are replaced by the normalised
     * argument; a null argument fails. Both developer caches are evicted on
     * success.
     */
    method UpdateDeveloperSkills(developerId: Id, skills: Option<set<Option<string>>>, actor: string, now: Time)
      returns (r: Result<DeveloperView>)
      requires Valid()
      modifies db`developers, audit.store, cache`developers, cache`developerDetails
      ensures Valid()
      ensures r.Err? <==> (developerId !in old(db.developers) || skills.None?)
      ensures r.Err? && developerId !in old(db.developers) ==> r.error == NotFound
      ensures r.Err? && developerId in old(db.developers) ==> r.error == NullArgument
      ensures r.Err? ==> unchanged(db) && unchanged(audit.store) && unchanged(cache)
      ensures r.Ok? ==> db.developers == old(db.developers)[developerId :=
        old(db.developers)[developerId].(skills := Skills.NormalizeAll(skills.value))]
      ensures r.Ok? ==> r.value == ViewDeveloper(developerId, db.developers[developerId], db.tasks)
      ensures r.Ok? ==> cache.developers == old(cache.developers) - {developerId}
      ensures r.Ok? ==> cache.developerDetails == old(cache.developerDetails) - {developerId}
      ensures r.Ok? ==> LoggedOnce(audit.store,
        NewAuditLog(Update, DeveloperEntity, Some(developerId), Some(actor),
                    UpdateSkills(old(db.developers)[developerId].skills, Skills.NormalizeAll(skills.value), developerId), now))
      ensures old(CacheCoherent()) ==> CacheCoherent()
    {
      if developerId !in db.developers {
        return Err(NotFound);
      }
      if skills.None? {
        return Err(NullArgument);
      }
      var d := db.developers[developerId];
      var normalized := Skills.NormalizeAll(skills.value);
      SaveSkills(developerId, normalized);
      audit.LogAction(Update, DeveloperEntity, Some(developerId), Some(actor), UpdateSkills(d.skills, normalized, developerId), now);
      r := Ok(ViewDeveloper(developerId, d.(skills := normalized), db.tasks));
    }

    /**
     * `getSkillStatistics`: how many developers hold each skill; the keys
     * are the skills some developer holds, and no count exceeds the number
     * of developers.
     */
    method GetSkillStatistics() returns (m: map<string, nat>)
      requires db.Valid()
      ensures forall s :: s in m <==> exists k :: k in db.developers && s in db.developers[k].skills
      ensures forall s :: s in m ==> m[s] == DeveloperRepository.CountBySkill(db.developers, s)
      ensures forall s :: s in m ==> m[s] <= |db.developers|
    {
      var order := IdsBelow(db.developers.Keys, db.nextDeveloperId);
      m := SkillStatistics(db.developers, order);
      forall s ensures DeveloperRepository.CountBySkill(db.developers, s) > 0 <==> exists k :: k in db.developers && s in db.developers[k].skills
        ensures DeveloperRepository.CountBySkill(db.developers, s) <= |db.developers|
      {
        DeveloperRepository.CountBySkillMeaning(db.developers, s);
      }
    }

    /** `getDeveloperTaskStatistics`: one row per developer with its task count, most tasks first. */
    function GetDeveloperTaskStatistics(): (r: seq<DeveloperRepository.DeveloperTaskRow>)
      requires db.Valid()
      reads db
      ensures forall k :: k in db.developers <==> k in DeveloperRepository.RowIds(r)
      ensures forall i :: 0 <= i < |r| ==> r[i].id in db.developers && r[i].taskCount == TaskCountOf(db.tasks, r[i].id)
      ensures forall i, j :: 0 <= i < j < |r| ==> r[i].id != r[j].id && r[i].taskCount >= r[j].taskCount
    {
      DeveloperRepository.GetDeveloperTaskStatistics(db.developers, db.tasks, db.nextDeveloperId)
    }
  }
}
