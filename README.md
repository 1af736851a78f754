# SecureProjectTracker service core in Dafny

This project models the service layer of SecureProjectTracker, a Spring
project-tracking API, and proves properties of the model. The API manages
projects, their tasks, the developers that tasks are assigned to, user
accounts with roles, and an audit trail of every change.

The model covers:

- **The primary store.** It is one `Database` object (`database.dfy`)
  holding one table per entity: a map from identity value to row, plus the
  next identity value. The one-to-many collections of the JPA entities are
  derived from the foreign keys, not stored twice: a project's tasks, a
  developer's assigned tasks, and a role's users.
- **The audit store.** It is an `AuditLogStore` object holding the entries
  in insertion order, the id counter of the document store, and whether
  writes currently succeed.
- **The read cache.** It is a `Cache` object with one map per cache name
  (`tasks`, `developers`, `developerDetails`, `projects`,
  `projectDetails`). Together these are the map keyed by (cache name, id)
  that Spring keeps. Entries are evicted exactly where the `@CacheEvict`
  annotations are, and only when the call succeeds.
- **The four services.** `TaskServiceImpl`, `DeveloperServiceImpl`,
  `ProjectServiceImpl` and `UserServiceImpl` are classes over those three
  objects. Each method:
  - checks its arguments in the Java's order;
  - changes the tables field by field;
  - appends the audit entry the Java writes.

  Every error path leaves the tables, the audit store and the cache as they
  were.
- **The repository queries.** The derived and `@Query` methods of
  `TaskRepository`, `DeveloperRepository`, `ProjectRepository`,
  `UserRepository`, `RoleRepository` and `AuditLogRepository` are
  functions over the tables. The two `@Modifying` updates of each mutable
  repository are methods of `Database`.
- **`AuthService` and `RoleInitializationService`.** AuthService
  registers users, logs them in, links OAuth2 accounts, generates unique
  usernames, finds or creates roles and changes passwords.
  RoleInitializationService seeds the roles and the default administrator,
  and seeding is idempotent.
- **`OAuth2UserService`.** It maps the provider's registration id to a
  provider, reads the user-info attributes and requires an e-mail.
- **Two methods of `JwtAuthenticationFilter`.** `parseJwt` takes the
  token out of a `Bearer ` header. `shouldNotFilter` is the public-path
  whitelist.
- **The entities with in-place helpers.** `Developer.addSkill`,
  `Developer.removeSkill` and `Developer.getTaskCount`; `Project.addTask`
  and `Project.removeTask`.
- **`AuditLog`.** Its convenience constructor reads the clock; here the
  time is a parameter.

The parts that change state in place are classes with fields, `modifies`
clauses and loops carrying invariants:

- the store;
- the audit store;
- the cache;
- the services;
- the entities;
- the bulk loops.

Each state-changing method states the new contents of every table, log
and cache it changes, connected to a specification function. The identity
counters are given exactly by the insert methods of `Store.Database` and
the audit store; above those, a method only keeps them consistent through
the store invariant. The properties from the source are lemmas about
those functions, or invariants that the methods preserve. Examples:

- partitions and counts of the statistics maps;
- idempotence of skill normalisation and of role seeding;
- the round trip of the `Bearer ` header;
- uniqueness of generated usernames.

The pure parts are datatypes and functions:

- query semantics;
- DTO conversions;
- provider mapping;
- string handling.

## Environment and oracles

- **Clock.** Time is an `int` count of seconds, passed in as `now`. A day is
  86400 seconds.
- **Password encoder.** It is a function parameter (`encode`, `matches`).
  The random OAuth2 password is an `encoded` string parameter.
- **`authenticationManager.authenticate`.** Its outcome is an `AuthOutcome`
  value handed in by the caller.
- **OAuth2 attributes.** The map that `super.loadUser` fetches from the
  provider is a parameter.
- **Audit store availability.** Whether writes to the audit store succeed is
  the store's `available` flag.
- **Actor name.** The actor is a plain string parameter: it comes from the
  controller's request header.
- **Strings.** They are `seq<char>`. `trim`, `toLowerCase` and the other
  `String` operations are modelled on ASCII (`text.dfy`).

## Where the model follows the code rather than the documentation

- **`bulkUpdateTasks` is atomic.** It looks up the developer inside its
  loop, so an unknown developer fails the call once any task is found. The
  class-level `@Transactional` then rolls the earlier saves back, so the
  modelled call changes nothing when it fails.
- **`findLogsByCriteria` is modelled literally.**
  - A null argument matches only entries where the field is missing or
    null.
  - Entity type and action type are always present.
  - So a null entity-type or action-type filter matches nothing: an unset
    filter does not mean "match everything".
- **`getActorStatistics` fails on a null actor.** The Java uses
  `Collectors.groupingBy` over the actor name, which throws on a null key.
  So the statistics are an error as soon as one entry has no actor.
- **The OAuth2 username base can fail.** `email.split("@")[0]` throws when
  the e-mail is non-empty and made only of `@` characters. The model
  returns `IndexOutOfBounds` there.
- **User events are audited under `DEVELOPER`.** Registration, login,
  password change and the user service all record their entries under the
  `DEVELOPER` entity type, as the code does.
- **The failed-login entry persists.** The audit store is a separate
  document store, so the entry written before `BadCredentialsException` is
  thrown stays. The primary store is unchanged.
- **`updateProject` allows a duplicate name.** Only `createProject` checks
  that a name is unused, ignoring case. `updateProject` does not, so an
  update can produce two projects whose names differ only in case.
- **Caches can go stale.** The model keeps exactly the evictions the code
  declares, so it reproduces every stale entry they leave behind:
  - No `@CacheEvict` is on the bulk task operations, nor on the other
    services' updates and deletes for the detail caches.
  - The cached task responses carry the project's and the developer's
    names. Updating or deleting a project or a developer never evicts the
    `tasks` cache, so a cached task can show an old name.
  - The cached project and developer responses carry a task count. Creating,
    deleting, assigning or unassigning a task, and the bulk task operations,
    never evict the `projects` or `developers` cache, so a cached count can
    be out of date.
  Each service's `CacheCoherent` therefore speaks only of its own cache,
  and only for the operations that keep it: `TaskService.CacheCoherent`
  covers `cache.tasks` against the task operations, and the project and
  developer predicates cover their own caches against their own services.
- **`changePassword` passes the actor through unchanged.** It is the one
  auditing call with no fallback name, so a missing actor is recorded as
  missing.
- **The OAuth2 id lookup handles a missing id.** `findByProviderAndProviderId`
  with a null provider id matches accounts without one (`IS NULL`). Both
  the id and the lookup argument are `Option` values.

## Model

| member | source | states |
|---|---|---|
| Text.Trim | src/main/java/com/buildmaster/projecttracker/service/impl/DeveloperServiceImpl.java:51 | The result has no character at or below U+0020 at either end, and it is the input with its leading and trailing runs of such characters cut off |
| Text.TrimIdempotent | src/main/java/com/buildmaster/projecttracker/service/impl/DeveloperServiceImpl.java:51 | Trimming an already trimmed string changes nothing |
| Text.ToLower | src/main/java/com/buildmaster/projecttracker/service/impl/DeveloperServiceImpl.java:51 | Lower-casing keeps the length and maps every ASCII capital to its small letter, leaving other characters alone |
| Text.LowerOfLower | src/main/java/com/buildmaster/projecttracker/service/impl/DeveloperServiceImpl.java:167 | A string with no capitals is its own lower case, so lower-casing twice is lower-casing once |
| Text.SplitFirstSpace | src/main/java/com/buildmaster/projecttracker/security/service/AuthService.java:199-201 | `split(" ", 2)`: the first name holds no space; there is a last name exactly when the name contains a space, and then the name is first name, one space, last name |
| Text.BeforeFirstAt | src/main/java/com/buildmaster/projecttracker/security/service/AuthService.java:204 | `split("@")[0]` throws IndexOutOfBounds exactly for a non-empty e-mail made only of '@'; otherwise it is the prefix of the e-mail up to its first '@' and holds no '@' |
| Text.NatToStringInjective | src/main/java/com/buildmaster/projecttracker/security/service/AuthService.java:233-236 | Different counters render as different decimal suffixes |
| Skills.Normalize | src/main/java/com/buildmaster/projecttracker/service/impl/DeveloperServiceImpl.java:51 | `skill.trim().toLowerCase()` is trimmed, lower case and as long as the trimmed skill |
| Skills.NormalizeIdempotent | src/main/java/com/buildmaster/projecttracker/service/impl/DeveloperServiceImpl.java:51 | Normalising a normalised skill changes nothing |
| Skills.NormalizeAll | src/main/java/com/buildmaster/projecttracker/service/impl/DeveloperServiceImpl.java:48-55 | The stored set holds exactly the non-empty normal forms of the non-null submitted skills, and every member is in normal form |
| Skills.NormalizeAllIdempotent | src/main/java/com/buildmaster/projecttracker/service/impl/DeveloperServiceImpl.java:48-55 | Running the normalisation pipeline on its own output gives the same set |
| Skills.RenormalizeKeeps | src/main/java/com/buildmaster/projecttracker/service/impl/DeveloperServiceImpl.java:264-268 | Normalising a set of stored skills loses none of them |
| Skills.RenormalizeAddsNothing | src/main/java/com/buildmaster/projecttracker/service/impl/DeveloperServiceImpl.java:264-268 | Normalising a set of stored skills adds none either, so the pipeline is the identity on stored skills |
| Skills.AddSkillEffect | src/main/java/com/buildmaster/projecttracker/model/Developer.java:62-66 | `addSkill` ignores a null or blank skill and otherwise adds exactly its normal form |
| Skills.AddSkillKeepsNormal | src/main/java/com/buildmaster/projecttracker/model/Developer.java:62-66 | A developer whose skills are all normal keeps that property after `addSkill` |
| Skills.AddThenRemove | src/main/java/com/buildmaster/projecttracker/model/Developer.java:62-72 | `removeSkill(s)` after `addSkill(s)` leaves the old skills minus the normal form of s |
| Skills.AddTwice | src/main/java/com/buildmaster/projecttracker/model/Developer.java:62-66 | Adding the same skill twice is the same as adding it once |
| Skills.RemoveUsesNormalForm | src/main/java/com/buildmaster/projecttracker/model/Developer.java:68-72 | Removing a skill removes exactly its normal form, so removing " JAVA " from {java, sql} leaves {sql}; a null skill changes nothing |
| Entities.ProjectEntity.constructor | src/main/java/com/buildmaster/projecttracker/model/Project.java:41-46 | A new project is PLANNING and holds no tasks |
| Entities.ProjectEntity.AddTask | src/main/java/com/buildmaster/projecttracker/model/Project.java:57-60 | `addTask` appends the task to the list and points the task at this project |
| Entities.ProjectEntity.RemoveTask | src/main/java/com/buildmaster/projecttracker/model/Project.java:62-65 | `removeTask` drops the first occurrence of the task from the list and clears the task's project |
| Entities.ProjectEntity.AddThenRemove | src/main/java/com/buildmaster/projecttracker/model/Project.java:57-65 | Adding a task the project did not hold and removing it restores the list and leaves the task detached |
| Entities.DeveloperEntity.constructor | src/main/java/com/buildmaster/projecttracker/model/Developer.java:41-47 | A new developer has no skills and an empty task list |
| Entities.DeveloperEntity.AddSkill | src/main/java/com/buildmaster/projecttracker/model/Developer.java:62-66 | The skill set after `addSkill` is the one described by Skills.AddSkillEffect |
| Entities.DeveloperEntity.RemoveSkill | src/main/java/com/buildmaster/projecttracker/model/Developer.java:68-72 | `removeSkill` removes the normal form of a non-null skill and ignores null |
| Entities.DeveloperEntity.TaskCount | src/main/java/com/buildmaster/projecttracker/model/Developer.java:74-76 | `getTaskCount` is the length of the task list, and 0 when the list is null |
| Domain.RoleNamesDistinct | src/main/java/com/buildmaster/projecttracker/model/role/RoleType.java:5-8 | The four role types have pairwise different names, so a role name identifies its type |
| Views.SummarizeTasks | src/main/java/com/buildmaster/projecttracker/service/impl/ProjectServiceImpl.java:231-236 | One task summary per listed task, in the list's order, each carrying its task's id |
| Views.ProjectCountMatchesDetail | src/main/java/com/buildmaster/projecttracker/service/impl/ProjectServiceImpl.java:207-239 | The task count in a project's response equals the number of task summaries in its detail response |
| Views.DeveloperCountMatchesDetail | src/main/java/com/buildmaster/projecttracker/service/impl/DeveloperServiceImpl.java:331-361 | The task count in a developer's response equals the number of task summaries in its detail response |
| AuditModel.NewAuditLog | src/main/java/com/buildmaster/projecttracker/model/AuditLog.java:33-41 | The convenience constructor keeps the five arguments, stamps the entry with the current time and leaves the id for the store to assign |
| AuditRepository.NewestFirstIsOrder | src/main/java/com/buildmaster/projecttracker/repository/AuditLogRepository.java:28 | `OrderByTimestampDesc` is a total, transitive order, so sorting by it is well defined |
| AuditRepository.KeepAtOrAfter | src/main/java/com/buildmaster/projecttracker/repository/AuditLogRepository.java:63 | One scan keeps exactly the entries at or after the cutoff, in their stored order |
| AuditRepository.RemovedCount | src/main/java/com/buildmaster/projecttracker/repository/AuditLogRepository.java:63 | The entries kept and the entries older than the cutoff add up to all entries |
| AuditRepository.AuditLogStore.Stamped | src/main/java/com/buildmaster/projecttracker/repository/AuditLogRepository.java:16 | The stored entry carries the assigned id and differs from the saved one in nothing else |
| AuditRepository.AuditLogStore.Save | src/main/java/com/buildmaster/projecttracker/repository/AuditLogRepository.java:16 | `save` appends the entry under a fresh id, distinct from every stored id, when the store accepts writes, and fails leaving the table unchanged otherwise |
| AuditRepository.AuditLogStore.DeleteByTimestampBefore | src/main/java/com/buildmaster/projecttracker/repository/AuditLogRepository.java:63 | The entries older than the cutoff go and the rest keep their order; the count returned is the number that went |
| AuditRepository.AuditLogStore.FindRecentLogs | src/main/java/com/buildmaster/projecttracker/repository/AuditLogRepository.java:40-41 | An entry is returned exactly when it is at or after the cutoff, the boundary included |
| AuditRepository.AuditLogStore.FindLogsByCriteria | src/main/java/com/buildmaster/projecttracker/repository/AuditLogRepository.java:53-60 | An entry is returned exactly when it matches the query as written: entity type and action type must equal the arguments (so a null one matches nothing), an entry without an actor matches any actor, and the time window always applies |
| AuditRepository.AuditLogStore.FindByEntityType | src/main/java/com/buildmaster/projecttracker/repository/AuditLogRepository.java:19 | An entry is returned exactly when it has the entity type |
| AuditRepository.AuditLogStore.FindByActionType | src/main/java/com/buildmaster/projecttracker/repository/AuditLogRepository.java:22 | An entry is returned exactly when it has the action type |
| AuditRepository.AuditLogStore.FindByActorName | src/main/java/com/buildmaster/projecttracker/repository/AuditLogRepository.java:25 | An entry is returned exactly when its actor is the one asked for |
| AuditRepository.AuditLogStore.FindByEntityTypeAndActionType | src/main/java/com/buildmaster/projecttracker/repository/AuditLogRepository.java:34 | An entry is returned exactly when it has both the entity type and the action type |
| AuditRepository.AuditLogStore.FindByActorNameAndEntityType | src/main/java/com/buildmaster/projecttracker/repository/AuditLogRepository.java:37 | An entry is returned exactly when it has both the actor and the entity type |
| AuditRepository.AuditLogStore.FindForEntityNewestFirst | src/main/java/com/buildmaster/projecttracker/repository/AuditLogRepository.java:28 | The entries of that entity, each as often as stored, newest first |
| AuditRepository.AuditLogStore.FindBetweenNewestFirst | src/main/java/com/buildmaster/projecttracker/repository/AuditLogRepository.java:31 | The entries with start <= timestamp <= end, each as often as stored, newest first |
| AuditRepository.AuditLogStore.FindById | src/main/java/com/buildmaster/projecttracker/service/impl/AuditLogServiceImpl.java:183-188 | The entry with that id when one exists, and nothing exactly when no entry has it |
| AuditService.Recorded | src/main/java/com/buildmaster/projecttracker/service/impl/AuditLogServiceImpl.java:32-44 | One `logAction` leaves the stamped entry when the store accepts writes and nothing when it throws |
| AuditService.AuditLogService.LogAction | src/main/java/com/buildmaster/projecttracker/service/impl/AuditLogServiceImpl.java:30-45 | The table gains exactly the entry built from the arguments and the current time, or nothing when the save throws; the id counter moves on exactly when an entry is saved; the caller is never failed |
| AuditService.SearchWindow | src/main/java/com/buildmaster/projecttracker/service/impl/AuditLogServiceImpl.java:110-113 | A missing end date is now, a missing start date is thirty days before now, and a given date is kept |
| AuditService.AuditLogService.SearchLogs | src/main/java/com/buildmaster/projecttracker/service/impl/AuditLogServiceImpl.java:104-118 | The summaries are those of the entries matching the criteria query over the defaulted window |
| AuditService.AuditLogService.GetRecentLogs | src/main/java/com/buildmaster/projecttracker/service/impl/AuditLogServiceImpl.java:94-101 | An entry is returned exactly when it is at most `days` days old |
| AuditService.AuditLogService.GetAuditStatistics | src/main/java/com/buildmaster/projecttracker/service/impl/AuditLogServiceImpl.java:121-130 | The three counts are the total and the 7- and 30-day windows, and the windows nest: 7-day <= 30-day <= total |
| AuditService.AuditLogService.GetEntityTypeStatistics | src/main/java/com/buildmaster/projecttracker/service/impl/AuditLogServiceImpl.java:133-142 | One count per entity type, each the repository count, adding up to the total |
| AuditService.AuditLogService.GetActionTypeStatistics | src/main/java/com/buildmaster/projecttracker/service/impl/AuditLogServiceImpl.java:145-154 | One count per action type, each the repository count, adding up to the total |
| AuditService.ActorCountsSum | src/main/java/com/buildmaster/projecttracker/service/impl/AuditLogServiceImpl.java:164-168 | The per-actor counts of the grouping collector add up to the number of entries |
| AuditService.ActorCountsMeaning | src/main/java/com/buildmaster/projecttracker/service/impl/AuditLogServiceImpl.java:164-168 | The grouping collector has a key for exactly the actors that occur, each mapped to its number of entries |
| AuditService.ActorCountIs | src/main/java/com/buildmaster/projecttracker/service/impl/AuditLogServiceImpl.java:164-168 | The collector's count for an actor is that actor's number of entries |
| AuditService.ActorKeys | src/main/java/com/buildmaster/projecttracker/service/impl/AuditLogServiceImpl.java:164-168 | The collector has a key for exactly the actors that occur |
| AuditService.ActorStatistics | src/main/java/com/buildmaster/projecttracker/service/impl/AuditLogServiceImpl.java:157-171 | A null actor anywhere makes `groupingBy` throw; otherwise the map counts every occurring actor's entries and adds up to the total |
| AuditService.AuditLogService.GetActorStatistics | src/main/java/com/buildmaster/projecttracker/service/impl/AuditLogServiceImpl.java:157-171 | As ActorStatistics on the stored entries, each count agreeing with `countByActorName` |
| AuditService.AuditLogService.CleanupOldLogs | src/main/java/com/buildmaster/projecttracker/service/impl/AuditLogServiceImpl.java:174-180 | The entries older than `retentionDays` days go, the rest stay in order, and the count returned is the number that went |
| AuditService.CleanupKeepsBoundary | src/main/java/com/buildmaster/projecttracker/service/impl/AuditLogServiceImpl.java:174-180 | An entry exactly `retentionDays` days old is kept |
| AuditService.AuditLogService.GetLogById | src/main/java/com/buildmaster/projecttracker/service/impl/AuditLogServiceImpl.java:183-188 | The entry with that id, or "not found" exactly when no entry has it |
| AuthServices.ActorOr | src/main/java/com/buildmaster/projecttracker/security/service/AuthService.java:84 | A given actor is kept and a null actor becomes the fallback |
| AuthServices.WithRole | src/main/java/com/buildmaster/projecttracker/security/service/AuthService.java:244-250 | Afterwards a role of the type exists; an existing one leaves the table alone, and a missing one is added under the next id with the type's name and description |
| AuthServices.RoleAddedKeepsStore | src/main/java/com/buildmaster/projecttracker/security/service/AuthService.java:244-250 | Saving a role under a new name and a fresh id keeps role names unique, keeps every user's roles resolvable and keeps every role name that existed |
| AuthServices.CandidateInjective | src/main/java/com/buildmaster/projecttracker/security/service/AuthService.java:233-236 | Different attempts of the username loop try different names |
| AuthServices.FirstFreeCandidateUnique | src/main/java/com/buildmaster/projecttracker/security/service/AuthService.java:229-239 | The first free username for a base is unique |
| AuthServices.CandidateStep | src/main/java/com/buildmaster/projecttracker/security/service/AuthService.java:233-236 | Each taken candidate moves the loop one step closer to termination: the untried usernames in use shrink |
| AuthServices.GenerateUniqueUsername | src/main/java/com/buildmaster/projecttracker/security/service/AuthService.java:229-239 | The result is the first of base, base1, base2, ... that no user holds, so it is free |
| AuthServices.FirstFree | src/main/java/com/buildmaster/projecttracker/security/service/AuthService.java:229-239 | Whatever the taken usernames, some candidate is the first free one, so the loop always ends |
| AuthServices.FreeCandidateFrom | src/main/java/com/buildmaster/projecttracker/security/service/AuthService.java:233-236 | The loop always finds a free username, because finitely many are taken |
| AuthServices.OAuth2Names | src/main/java/com/buildmaster/projecttracker/security/service/AuthService.java:199-201 | A null name is "Unknown User"; otherwise the first name holds no space, and with a space the name is first, space, last; without one the last name is empty |
| AuthServices.NewAccountsPromise | src/main/java/com/buildmaster/projecttracker/security/service/AuthService.java:59-73 | A registered account is local, enabled and holds only ROLE_DEVELOPER; an OAuth2 account is enabled, linked to the provider id and holds only ROLE_CONTRACTOR, never the admin role |
| AuthServices.UserAddedKeepsStore | src/main/java/com/buildmaster/projecttracker/security/service/AuthService.java:71-76 | Saving a user under a fresh id with a free username and existing roles keeps usernames unique and roles resolvable |
| AuthServices.LinkedKeepsStore | src/main/java/com/buildmaster/projecttracker/security/service/AuthService.java:171-175 | Relinking an account to a provider keeps usernames unique and roles resolvable |
| AuthServices.LastLoginKeepsStore | src/main/java/com/buildmaster/projecttracker/security/service/AuthService.java:185-187 | Setting a last login keeps usernames unique and roles resolvable |
| AuthServices.AuthService.GetOrCreateRole | src/main/java/com/buildmaster/projecttracker/security/service/AuthService.java:244-250 | The returned id holds a role of the type; an existing role changes nothing, and no role name is lost |
| AuthServices.AuthService.RegisterUser | src/main/java/com/buildmaster/projecttracker/security/service/AuthService.java:45-90 | Refused exactly when the username or the e-mail is taken, username checked first, changing nothing; otherwise the local account is saved under the next id with ROLE_DEVELOPER ensured, the response describes it, and one CREATE entry is written by the actor or "SYSTEM" |
| AuthServices.AuthService.SaveLocalUser | src/main/java/com/buildmaster/projecttracker/security/service/AuthService.java:71-76 | The developer role is ensured and the account saved under the next id |
| AuthServices.AuthService.LoginUser | src/main/java/com/buildmaster/projecttracker/security/service/AuthService.java:95-155 | Fails exactly when authentication fails, with bad credentials, no table change and one LOGIN_FAILED entry by the actor or "ANONYMOUS"; on success only the user's last login changes and one LOGIN_SUCCESS entry is written for that user |
| AuthServices.AuthService.CreateOAuth2User | src/main/java/com/buildmaster/projecttracker/security/service/AuthService.java:195-224 | Fails exactly where `split("@")[0]` throws; otherwise the new account has the first free username derived from the e-mail, holds ROLE_CONTRACTOR, which now exists, and links to the provider |
| AuthServices.OAuth2AccountEffect | src/main/java/com/buildmaster/projecttracker/security/service/AuthService.java:160-190 | Whatever the branch, the settled account is stored and is the only changed row; a new account holds a username nobody held and only ROLE_CONTRACTOR; a found account keeps its username; usernames stay unique |
| AuthServices.AuthService.GetOrCreateOAuth2User | src/main/java/com/buildmaster/projecttracker/security/service/AuthService.java:160-190 | The tables end as OAuth2Account says, with the settled account's last login set, or are unchanged when the lookup or the e-mail split fails |
| AuthServices.AuthService.SettleOAuth2Account | src/main/java/com/buildmaster/projecttracker/security/service/AuthService.java:164-183 | The tables after the lookups and the link or save are those of OAuth2Account |
| AuthServices.AuthService.LinkOAuth2Account | src/main/java/com/buildmaster/projecttracker/security/service/AuthService.java:171-175 | Only the found account changes: its provider and provider id are overwritten |
| AuthServices.AuthService.SaveNewOAuth2User | src/main/java/com/buildmaster/projecttracker/security/service/AuthService.java:176-182 | A new account built by `createOAuth2User` is saved under the next id, or nothing changes when the e-mail split fails |
| AuthServices.AuthService.ChangePassword | src/main/java/com/buildmaster/projecttracker/security/service/AuthService.java:255-290 | Refused exactly when the user is missing, the current password does not match or the confirmation differs, in that order, changing nothing; otherwise only the password changes, to the encoded new one, and one entry is written |
| RoleInitialization.SeedRolesEffect | src/main/java/com/buildmaster/projecttracker/security/service/RoleInitializationService.java:48-60 | After seeding, every seeded type's role exists, every role that existed is unchanged under its id, and new roles sit only under fresh ids |
| RoleInitialization.SeedRolesIdempotent | src/main/java/com/buildmaster/projecttracker/security/service/RoleInitializationService.java:51-59 | Seeding types whose roles all exist changes nothing |
| RoleInitialization.SeedRolesTwice | src/main/java/com/buildmaster/projecttracker/security/service/RoleInitializationService.java:37-60 | Running `initializeRoles` a second time creates nothing |
| RoleInitialization.DefaultAdmin | src/main/java/com/buildmaster/projecttracker/security/service/RoleInitializationService.java:67-83 | The default administrator has the configured username and e-mail, the encoded password, is local and enabled, and holds only ROLE_ADMIN |
| RoleInitialization.RoleInitializationService.constructor | src/main/java/com/buildmaster/projecttracker/security/service/RoleInitializationService.java:28-35 | The service keeps the configured administrator settings |
| RoleInitialization.RoleInitializationService.InitializeRoles | src/main/java/com/buildmaster/projecttracker/security/service/RoleInitializationService.java:48-60 | The role table afterwards is the result of seeding every role type in declaration order |
| RoleInitialization.RoleInitializationService.SeedRole | src/main/java/com/buildmaster/projecttracker/security/service/RoleInitializationService.java:52-58 | One round of the loop: the role is saved under the next id exactly when its name is missing |
| RoleInitialization.RoleInitializationService.InitializeDefaultAdmin | src/main/java/com/buildmaster/projecttracker/security/service/RoleInitializationService.java:62-96 | An existing administrator username changes nothing; a missing admin role is "Admin role not found" and changes nothing; otherwise exactly the default administrator is saved under the next id |
| RoleInitialization.RoleInitializationService.Run | src/main/java/com/buildmaster/projecttracker/security/service/RoleInitializationService.java:37-46 | Roles are seeded before the administrator, so `run` never fails, and the administrator is saved exactly when its username is free |
| OAuth2Users.CastString | src/main/java/com/buildmaster/projecttracker/security/service/OAuth2UserService.java:94-112 | `(String) attributes.get(key)` is null for a missing key, the string for a string value, and a cast failure for any other value |
| OAuth2Users.ValueOf | src/main/java/com/buildmaster/projecttracker/security/service/OAuth2UserService.java:124-126 | `String.valueOf` of a missing attribute is "null", and of a string the string itself |
| OAuth2Users.UserInfoKeys | src/main/java/com/buildmaster/projecttracker/security/service/OAuth2UserService.java:87-142 | Google's id is its "sub" attribute; GitHub's id is `String.valueOf` of "id" and always present; both read the name and e-mail from the same keys |
| OAuth2Users.GetAuthProvider | src/main/java/com/buildmaster/projecttracker/security/service/OAuth2UserService.java:59-65 | "google" and "github", in any case, name a provider other than LOCAL; everything else is an unsupported provider |
| OAuth2Users.GetOAuth2UserInfo | src/main/java/com/buildmaster/projecttracker/security/service/OAuth2UserService.java:76-84 | A supported registration id wraps the attribute map unchanged; any other is an unsupported provider |
| OAuth2Users.ProviderAndFactoryAgree | src/main/java/com/buildmaster/projecttracker/security/service/OAuth2UserService.java:59-84 | The provider switch and the user-info factory accept the same ids and agree on the provider each names |
| OAuth2Users.ProviderIgnoresCase | src/main/java/com/buildmaster/projecttracker/security/service/OAuth2UserService.java:59-65 | The registration id is matched after lower-casing, so its case does not matter |
| OAuth2Users.OAuth2RequestEffect | src/main/java/com/buildmaster/projecttracker/security/service/OAuth2UserService.java:34-57 | An unsupported provider is refused first; an accepted request carries a non-empty string e-mail taken from the "email" attribute; a missing or empty e-mail is refused, and a non-string one is a cast failure |
| OAuth2Users.OAuth2UserService.constructor | src/main/java/com/buildmaster/projecttracker/security/service/OAuth2UserService.java:17-19 | The service keeps the authentication service it delegates to |
| OAuth2Users.OAuth2UserService.ProcessOAuth2User | src/main/java/com/buildmaster/projecttracker/security/service/OAuth2UserService.java:34-57 | A refused request changes nothing; an accepted one is the account `getOrCreateOAuth2User` settles on, with the provider's attributes; the users map becomes the one that lookup, link or creation leaves, with that account's last login set, and the roles map the one it leaves |
| OAuth2Users.OAuth2UserService.LoadUser | src/main/java/com/buildmaster/projecttracker/security/service/OAuth2UserService.java:21-32 | Fails exactly when `processOAuth2User` fails, then as one OAuth2 authentication error with nothing changed; a success is the settled account, with the same new users and roles maps as `processOAuth2User` |
| JwtFilter.ParseJwt | src/main/java/com/buildmaster/projecttracker/security/filter/JwtAuthenticationFilter.java:71-79 | A token is found exactly when the header starts with "Bearer " (case-sensitive), and the header is then "Bearer " followed by the token |
| JwtFilter.ParseJwtRoundTrip | src/main/java/com/buildmaster/projecttracker/security/filter/JwtAuthenticationFilter.java:71-79 | "Bearer " followed by a token parses back to that token |
| JwtFilter.ParseJwtRefuses | src/main/java/com/buildmaster/projecttracker/security/filter/JwtAuthenticationFilter.java:71-79 | No header, a blank header, a lower-case scheme and a bare "Bearer" give no token |
| JwtFilter.ShouldNotFilter | src/main/java/com/buildmaster/projecttracker/security/filter/JwtAuthenticationFilter.java:83-95 | A path is skipped exactly when it starts with one of the public prefixes or equals one of the exact public paths |
| JwtFilter.SkippedPrefixesClosed | src/main/java/com/buildmaster/projecttracker/security/filter/JwtAuthenticationFilter.java:87-94 | Every path below a skipped prefix is skipped |
| JwtFilter.ExactPathsOnly | src/main/java/com/buildmaster/projecttracker/security/filter/JwtAuthenticationFilter.java:91-92 | The health and info endpoints are skipped only as exact paths; a sub-path goes through the filter |
| DeveloperRepository.FindByEmail | src/main/java/com/buildmaster/projecttracker/repository/DeveloperRepository.java:18 | With unique e-mails the lookup never fails, and it finds a developer exactly when `existsByEmail` holds, one with that e-mail |
| DeveloperRepository.AtMostOneWithEmail | src/main/java/com/buildmaster/projecttracker/repository/DeveloperRepository.java:18-21 | The unique e-mail column admits at most one developer per e-mail |
| DeveloperRepository.FindBySkill | src/main/java/com/buildmaster/projecttracker/repository/DeveloperRepository.java:27-28 | One row for each developer holding exactly that skill, compared case-sensitively |
| DeveloperRepository.CountBySkillMatchesFind | src/main/java/com/buildmaster/projecttracker/repository/DeveloperRepository.java:55-56 | `countBySkill` counts the same developers that `findBySkill` returns, since the join yields each developer once |
| DeveloperRepository.CountBySkillMeaning | src/main/java/com/buildmaster/projecttracker/repository/DeveloperRepository.java:55-56 | A skill's count is positive exactly when some developer holds it, and never exceeds the number of developers |
| DeveloperRepository.FindBySkillsIn | src/main/java/com/buildmaster/projecttracker/repository/DeveloperRepository.java:31-32 | A developer is returned, once, exactly when it holds at least one of the listed skills |
| DeveloperRepository.FindByNameContainingIgnoreCase | src/main/java/com/buildmaster/projecttracker/repository/DeveloperRepository.java:24 | A developer is returned exactly when its name contains the term, ignoring case |
| DeveloperRepository.FindByNameOrEmailContaining | src/main/java/com/buildmaster/projecttracker/repository/DeveloperRepository.java:51-52 | A developer is returned exactly when its name or its e-mail contains the term, ignoring case |
| DeveloperRepository.NameSearchWithinNameOrEmail | src/main/java/com/buildmaster/projecttracker/repository/DeveloperRepository.java:51-52 | Every name match is a name-or-e-mail match, and the extra matches are e-mail matches |
| DeveloperRepository.FindAvailableDevelopers | src/main/java/com/buildmaster/projecttracker/repository/DeveloperRepository.java:63-64 | A developer is returned exactly when it has fewer than `maxTasks` tasks |
| DeveloperRepository.FindDevelopersWithTaskCount | src/main/java/com/buildmaster/projecttracker/repository/DeveloperRepository.java:47-48 | A developer is returned exactly when it has exactly n tasks |
| DeveloperRepository.FindDevelopersWithTaskCountGreaterThan | src/main/java/com/buildmaster/projecttracker/repository/DeveloperRepository.java:43-44 | A developer is returned exactly when it has more than n tasks |
| DeveloperRepository.TaskCountPartition | src/main/java/com/buildmaster/projecttracker/repository/DeveloperRepository.java:43-64 | For any n, "fewer than", "exactly" and "more than" n tasks are disjoint and together cover every developer |
| DeveloperRepository.TaskCountPartitionSize | src/main/java/com/buildmaster/projecttracker/repository/DeveloperRepository.java:43-64 | The three groups together are as many as the developers |
| DeveloperRepository.FindDevelopersWithoutTasks | src/main/java/com/buildmaster/projecttracker/repository/DeveloperRepository.java:39-40 | A developer is returned exactly when no task is assigned to it |
| DeveloperRepository.WithoutTasksIsCountZero | src/main/java/com/buildmaster/projecttracker/repository/DeveloperRepository.java:39-48 | Developers without tasks are exactly the developers with a task count of zero |
| DeveloperRepository.RankByTaskCount | src/main/java/com/buildmaster/projecttracker/repository/DeveloperRepository.java:35 | Every developer exactly once, ordered by non-increasing task count |
| DeveloperRepository.FindTopDevelopersByTaskCount | src/main/java/com/buildmaster/projecttracker/repository/DeveloperRepository.java:35-36 | A page size below one is refused; otherwise the page holds min(`limit`, number of developers below the identity counter) distinct developers, by non-increasing task count, and every developer left off the page has no more tasks than any developer on it |
| DeveloperRepository.LeftOutRankLower | src/main/java/com/buildmaster/projecttracker/repository/DeveloperRepository.java:35-36 | A ranking lists every developer below the counter once, and a developer outside its first n entries has no more tasks than any of those entries |
| DeveloperRepository.GetDeveloperTaskStatistics | src/main/java/com/buildmaster/projecttracker/repository/DeveloperRepository.java:59-60 | One row per developer, each with its name, e-mail and number of assigned tasks, most tasks first |
| DeveloperServices.RequestSkills | src/main/java/com/buildmaster/projecttracker/service/impl/DeveloperServiceImpl.java:48-55 | A request without skills keeps the current ones; a request with skills stores only normal skills |
| DeveloperServices.WithoutDeveloper | src/main/java/com/buildmaster/projecttracker/service/impl/DeveloperServiceImpl.java:119-123 | Unassigning a developer from its tasks keeps every task under its key |
| DeveloperServices.WithoutDeveloperEffect | src/main/java/com/buildmaster/projecttracker/service/impl/DeveloperServiceImpl.java:119-123 | Afterwards the developer has no task, every other developer keeps exactly its tasks, and a task not assigned to it is unchanged |
| DeveloperServices.WithoutDeveloperReferences | src/main/java/com/buildmaster/projecttracker/service/impl/DeveloperServiceImpl.java:119-126 | After the unassignment the row can go: e-mails stay unique, skills normal, and every task still points at a stored project and, if assigned, a stored developer |
| DeveloperServices.DeleteKeepsViews | src/main/java/com/buildmaster/projecttracker/service/impl/DeveloperServiceImpl.java:109-110 | A cached response of another developer still matches the tables after the deletion |
| DeveloperServices.UnassignAll | src/main/java/com/buildmaster/projecttracker/service/impl/DeveloperServiceImpl.java:119-123 | The loop over the developer's tasks leaves the task table that WithoutDeveloper describes |
| DeveloperServices.MergeSkills | src/main/java/com/buildmaster/projecttracker/service/impl/DeveloperServiceImpl.java:317-319 | `merge(skill, 1, Long::sum)` over a skill set adds one to each of those skills and leaves every other count alone |
| DeveloperServices.MergeKeepsCounts | src/main/java/com/buildmaster/projecttracker/service/impl/DeveloperServiceImpl.java:316-320 | Visiting one more developer keeps each count equal to the number of visited developers holding the skill |
| DeveloperServices.SkillStatistics | src/main/java/com/buildmaster/projecttracker/service/impl/DeveloperServiceImpl.java:316-320 | After the nested loop, the keys are the skills held and each count is the number of developers holding the skill |
| DeveloperServices.SkillsChangeKeepsStore | src/main/java/com/buildmaster/projecttracker/service/impl/DeveloperServiceImpl.java:270-271 | Replacing a developer's skills by normal ones keeps e-mails unique and all skills normal |
| DeveloperServices.LookupIsNotTrimmed | src/main/java/com/buildmaster/projecttracker/service/impl/DeveloperServiceImpl.java:167 | A lookup lower-cases but does not trim: a developer holding the normal form of the argument but not its lower-cased form is not found, and " Java" against a stored "java" is such a case |
| DeveloperServices.LookupMatchesStorage | src/main/java/com/buildmaster/projecttracker/service/impl/DeveloperServiceImpl.java:51 | For a trimmed argument, the lookup key is exactly the stored form |
| DeveloperServices.DeveloperService.CreateDeveloper | src/main/java/com/buildmaster/projecttracker/service/impl/DeveloperServiceImpl.java:35-65 | Refused exactly when the e-mail exists, changing nothing; otherwise the developer is saved under the next id with normalised skills and no tasks, one CREATE entry is written, and the cache stays coherent |
| DeveloperServices.DeveloperService.UpdateDeveloper | src/main/java/com/buildmaster/projecttracker/service/impl/DeveloperServiceImpl.java:68-106 | Refused when the developer is missing or the e-mail changes to one in use, changing nothing; otherwise only that developer changes, its cached response is evicted, one UPDATE entry is written, and the cache stays coherent |
| DeveloperServices.DeveloperService.DeleteDeveloper | src/main/java/com/buildmaster/projecttracker/service/impl/DeveloperServiceImpl.java:109-132 | Refused exactly when the developer is missing; otherwise its tasks are unassigned, its row and cached response go, one DELETE entry is written, and the cache stays coherent |
| DeveloperServices.DeveloperService.RemoveDeveloperRows | src/main/java/com/buildmaster/projecttracker/service/impl/DeveloperServiceImpl.java:119-126 | The developer's tasks lose it and then its row goes, with every invariant of the tables kept |
| DeveloperServices.DeveloperService.GetDeveloperById | src/main/java/com/buildmaster/projecttracker/service/impl/DeveloperServiceImpl.java:135-141 | A cached response is returned as it is; otherwise the current response is built and cached; with a coherent cache the answer is always the current response or "not found" |
| DeveloperServices.DeveloperService.GetDeveloperDetails | src/main/java/com/buildmaster/projecttracker/service/impl/DeveloperServiceImpl.java:142-149 | A cached detail is returned as it is; otherwise the detail is built and cached, listing as many tasks as the developer has |
| DeveloperServices.DeveloperService.GetDevelopersBySkill | src/main/java/com/buildmaster/projecttracker/service/impl/DeveloperServiceImpl.java:165-171 | A developer is returned exactly when it holds the lower-cased argument |
| DeveloperServices.DeveloperService.GetDevelopersBySkills | src/main/java/com/buildmaster/projecttracker/service/impl/DeveloperServiceImpl.java:174-183 | A developer is returned exactly when it holds one of the lower-cased arguments |
| DeveloperServices.DeveloperService.GetTopDevelopersByTaskCount | src/main/java/com/buildmaster/projecttracker/service/impl/DeveloperServiceImpl.java:185-193 | A page size below one is refused; on a valid store the page holds min(`limit`, number of developers) distinct stored developers by non-increasing task count, and no developer left off has more tasks than one on the page |
| DeveloperServices.DeveloperService.SaveSkills | src/main/java/com/buildmaster/projecttracker/service/impl/DeveloperServiceImpl.java:213-214 | Only the developer's skills change, and its keys in both developer caches are evicted |
| DeveloperServices.DeveloperService.AddSkillToDeveloper | src/main/java/com/buildmaster/projecttracker/service/impl/DeveloperServiceImpl.java:213-231 | A missing developer or a null skill is refused with nothing changed; otherwise the skills are as `addSkill` leaves them, both cache keys are evicted and one UPDATE entry is written |
| DeveloperServices.DeveloperService.RemoveSkillFromDeveloper | src/main/java/com/buildmaster/projecttracker/service/impl/DeveloperServiceImpl.java:233-251 | A missing developer or a null skill is refused with nothing changed; otherwise the skills are as `removeSkill` leaves them, both cache keys are evicted and one UPDATE entry is written |
| DeveloperServices.DeveloperService.UpdateDeveloperSkills | src/main/java/com/buildmaster/projecttracker/service/impl/DeveloperServiceImpl.java:253-282 | A missing developer or a null set is refused with nothing changed; otherwise the skills become the normalised set, both cache keys are evicted and one UPDATE entry records the old and new skills |
| DeveloperServices.DeveloperService.GetSkillStatistics | src/main/java/com/buildmaster/projecttracker/service/impl/DeveloperServiceImpl.java:310-323 | The keys are exactly the skills some developer holds; each count is the number of developers holding it and never exceeds the number of developers |
| DeveloperServices.DeveloperService.GetDeveloperTaskStatistics | src/main/java/com/buildmaster/projecttracker/service/impl/DeveloperServiceImpl.java:284-303 | One row per developer, each with its number of assigned tasks, most tasks first and no developer twice |
| TaskRepository.FindOverdueTasks | src/main/java/com/buildmaster/projecttracker/repository/TaskRepository.java:36-37 | A task is overdue exactly when it has a due date strictly before the given instant and is not COMPLETED; a task without a due date never is |
| TaskRepository.FindTasksDueWithin | src/main/java/com/buildmaster/projecttracker/repository/TaskRepository.java:40-41 | A task is returned exactly when it has a due date within the window, both ends included, and is not COMPLETED |
| TaskRepository.FindByProjectId | src/main/java/com/buildmaster/projecttracker/repository/TaskRepository.java:21 | Exactly the tasks of that project |
| TaskRepository.FindByAssignedDeveloperId | src/main/java/com/buildmaster/projecttracker/repository/TaskRepository.java:25 | Exactly the tasks assigned to that developer |
| TaskRepository.FindByStatus | src/main/java/com/buildmaster/projecttracker/repository/TaskRepository.java:29 | Exactly the tasks with that status |
| TaskRepository.FindByAssignedDeveloperIsNull | src/main/java/com/buildmaster/projecttracker/repository/TaskRepository.java:33 | Exactly the tasks with no developer |
| TaskRepository.FindByDueDateIsNull | src/main/java/com/buildmaster/projecttracker/repository/TaskRepository.java:65 | Exactly the tasks with no due date |
| TaskRepository.FindByProjectIdAndStatus | src/main/java/com/buildmaster/projecttracker/repository/TaskRepository.java:44 | Exactly the tasks of that project with that status |
| TaskRepository.FindByAssignedDeveloperIdAndStatus | src/main/java/com/buildmaster/projecttracker/repository/TaskRepository.java:47 | Exactly the developer's tasks with that status |
| TaskRepository.AndStatusFinders | src/main/java/com/buildmaster/projecttracker/repository/TaskRepository.java:44-47 | Each two-column finder is the intersection of the two one-column finders, and its size is the count the per-status statistics report for that status |
| TaskRepository.AssignedOrNot | src/main/java/com/buildmaster/projecttracker/repository/TaskRepository.java:33 | Unassigned and assigned tasks are disjoint, and together they are all the tasks |
| TaskRepository.FindTasksByCriteria | src/main/java/com/buildmaster/projecttracker/repository/TaskRepository.java:86-94 | A task is returned exactly when it meets every given criterion (project, developer, status, title containing the term ignoring case); a null criterion is no restriction |
| TaskRepository.CriteriaAllNull | src/main/java/com/buildmaster/projecttracker/repository/TaskRepository.java:86-90 | With every criterion null the search returns the whole table |
| TaskRepository.FindByTitleContainingIgnoreCase | src/main/java/com/buildmaster/projecttracker/repository/TaskRepository.java:50 | The title search is the criteria search with the title alone, and returns exactly the tasks whose title contains the term ignoring case |
| TaskRepository.TaskStatusesDistinct | src/main/java/com/buildmaster/projecttracker/service/impl/TaskServiceImpl.java:371 | The enumeration of task statuses lists each status once and lists them all |
| TaskRepository.StatisticsByProjectSum | src/main/java/com/buildmaster/projecttracker/repository/TaskRepository.java:78-79 | The per-status counts of a project add up to `countByProjectId` |
| TaskRepository.StatisticsByDeveloperSum | src/main/java/com/buildmaster/projecttracker/repository/TaskRepository.java:82-83 | The per-status counts of a developer add up to `countByAssignedDeveloperId` |
| TaskRepository.CountByStatusIsGroup | src/main/java/com/buildmaster/projecttracker/repository/TaskRepository.java:53 | `countByStatus` is the size of the status group over the whole table |
| TaskRepository.CountByStatusSum | src/main/java/com/buildmaster/projecttracker/repository/TaskRepository.java:53 | The counts of the five statuses add up to the number of tasks |
| TaskRepository.WithProjectStatus | src/main/java/com/buildmaster/projecttracker/repository/TaskRepository.java:68-70 | The update keeps every task id; the project's tasks take the status with nothing else changed, and every other task is untouched |
| TaskRepository.WithDeveloper | src/main/java/com/buildmaster/projecttracker/repository/TaskRepository.java:73-75 | The update keeps every task id; the listed stored tasks take the developer with nothing else changed, and every other task is untouched |
| TaskRepository.MatchedIds | src/main/java/com/buildmaster/projecttracker/repository/TaskRepository.java:73-75 | The rows an `IN` list matches are the stored ids that occur in the list, so the update count never exceeds the table size |
| TaskRepository.DuplicatesCountOnce | src/main/java/com/buildmaster/projecttracker/repository/TaskRepository.java:73-75 | Repeating an id in the list matches no additional row |
| Grouping.GroupRows | src/main/java/com/buildmaster/projecttracker/repository/TaskRepository.java:78-83 | Each row of a GROUP BY result is a key value that occurs, with the size of its group as the count; empty groups yield no row |
| Grouping.GroupRowsComplete | src/main/java/com/buildmaster/projecttracker/repository/TaskRepository.java:78-83 | Every key value that occurs among the selected rows has its row in the result |
| Grouping.GroupRowsDistinct | src/main/java/com/buildmaster/projecttracker/repository/TaskRepository.java:78-83 | No key value has two rows |
| Grouping.GroupRowsSum | src/main/java/com/buildmaster/projecttracker/repository/TaskRepository.java:78-83 | Leaving out empty groups does not change the total of the counts |
| Grouping.GroupSizeSumIsCount | src/main/java/com/buildmaster/projecttracker/repository/TaskRepository.java:78-83 | Over distinct key values the group sizes add up to the number of selected rows whose key is among them |
| Grouping.GroupRowsTotal | src/main/java/com/buildmaster/projecttracker/repository/TaskRepository.java:78-83 | When every key value is enumerated, the counts of a GROUP BY result add up to the number of selected rows |
| Grouping.RowsToMap | src/main/java/com/buildmaster/projecttracker/service/impl/TaskServiceImpl.java:444-452 | The map has exactly the row keys, and each key maps to the count of its last row, as repeated `put` calls leave it |
| Grouping.LastRowOfKey | src/main/java/com/buildmaster/projecttracker/service/impl/TaskServiceImpl.java:446-450 | Every key in the rows has a last row, the one whose `put` survives |
| Grouping.ConvertedFromKeyed | src/main/java/com/buildmaster/projecttracker/service/impl/TaskServiceImpl.java:444-452 | When each row's count is a function of its key, the converted map gives that function's value at every key |
| Grouping.GroupMap | src/main/java/com/buildmaster/projecttracker/service/impl/TaskServiceImpl.java:353-364 | Converting a GROUP BY result yields a key exactly when its group is non-empty, mapped to the group's size |
| Ordering.IdsBelow | src/main/java/com/buildmaster/projecttracker/service/impl/TaskServiceImpl.java:303 | The listing of the stored ids is strictly ascending and holds exactly the ids below the bound, each once |
| Ordering.ListsEveryKeyOnce | src/main/java/com/buildmaster/projecttracker/service/impl/TaskServiceImpl.java:303 | When every key lies below the bound, the ascending listing has one entry per key |
| Ordering.Insert | src/main/java/com/buildmaster/projecttracker/repository/ProjectRepository.java:47-48 | Inserting into a sorted sequence gives a sorted sequence with exactly one more occurrence of the element |
| Ordering.SortBy | src/main/java/com/buildmaster/projecttracker/repository/ProjectRepository.java:47-48 | An ORDER BY result is sorted by the order and is a permutation of its input |
| Ordering.SortedPairwise | src/main/java/com/buildmaster/projecttracker/repository/ProjectRepository.java:47-48 | Under a transitive order, every earlier element of a sorted sequence is at most every later one |
| Ordering.LexTotal | src/main/java/com/buildmaster/projecttracker/repository/RoleRepository.java:25 | The character-code order on names relates any two names |
| Ordering.LexTransitive | src/main/java/com/buildmaster/projecttracker/repository/RoleRepository.java:25 | The character-code order is transitive |
| Ordering.LexAntisymmetric | src/main/java/com/buildmaster/projecttracker/repository/RoleRepository.java:25 | Two names each at most the other are equal |
| TaskServices.UpdateIdempotent | src/main/java/com/buildmaster/projecttracker/service/impl/TaskServiceImpl.java:83-99 | Applying the same update request twice leaves the task as applying it once |
| TaskServices.ApplyBulk | src/main/java/com/buildmaster/projecttracker/service/impl/TaskServiceImpl.java:309-322 | A bulk update sets exactly its non-null status, developer and due date and keeps every other column; one that sets nothing leaves the task as it was |
| TaskServices.BulkUpdated | src/main/java/com/buildmaster/projecttracker/service/impl/TaskServiceImpl.java:306-328 | The table keeps every task id, and an update that sets nothing leaves it unchanged |
| TaskServices.KeyNameInjective | src/main/java/com/buildmaster/projecttracker/service/impl/TaskServiceImpl.java:371-378 | The statistics keys (status names, TOTAL, UNASSIGNED, OVERDUE) are pairwise distinct, so no entry overwrites another |
| TaskServices.CountEveryStatus | src/main/java/com/buildmaster/projecttracker/service/impl/TaskServiceImpl.java:371-374 | The loop enters every status, and nothing else, with its `countByStatus` |
| TaskServices.WithSummaries | src/main/java/com/buildmaster/projecttracker/service/impl/TaskServiceImpl.java:376-379 | The status entries are kept, and TOTAL, UNASSIGNED and OVERDUE are added with the given values |
| TaskServices.CountOverall | src/main/java/com/buildmaster/projecttracker/service/impl/TaskServiceImpl.java:367-382 | The statistics hold every status's count, TOTAL as the table size, UNASSIGNED as the unassigned tasks and OVERDUE as the overdue ones |
| TaskServices.OverallStatisticsSum | src/main/java/com/buildmaster/projecttracker/service/impl/TaskServiceImpl.java:367-382 | The five status counts add up to TOTAL, and UNASSIGNED and OVERDUE never exceed it |
| TaskServices.BulkUpdateOne | src/main/java/com/buildmaster/projecttracker/service/impl/TaskServiceImpl.java:307-326 | One loop round fails exactly when the update names a developer that is not stored; otherwise it yields the updated task and whether any field was set |
| TaskServices.AppliedStep | src/main/java/com/buildmaster/projecttracker/service/impl/TaskServiceImpl.java:306-328 | One more round keeps the loop's invariant: the finished tasks carry the update and the others are as they were |
| TaskServices.BulkUpdateLoop | src/main/java/com/buildmaster/projecttracker/service/impl/TaskServiceImpl.java:306-328 | The loop fails exactly when some task is found and the developer is unknown; otherwise every found task carries the update, and the returned list has one response per task, in order, or none when the update sets nothing |
| TaskServices.ApplyBulkUpdate | src/main/java/com/buildmaster/projecttracker/service/impl/TaskServiceImpl.java:303-328 | Over the stored tasks among the ids, in ascending id order: the same failure condition, the new table is the bulk update of those tasks, and the responses are theirs in that order |
| TaskServices.BulkUpdatedPointwise | src/main/java/com/buildmaster/projecttracker/service/impl/TaskServiceImpl.java:306-328 | A table that agrees with the update task by task is the bulk-updated table |
| TaskServices.BulkUpdatedKeepsReferences | src/main/java/com/buildmaster/projecttracker/service/impl/TaskServiceImpl.java:306-328 | A bulk update to a stored developer, or to none, keeps every task id below the counter and every project and developer reference stored |
| TaskServices.TaskService.CreateTask | src/main/java/com/buildmaster/projecttracker/service/impl/TaskServiceImpl.java:38-65 | Fails with not-found exactly when the project, or a given developer, is not stored, and then changes nothing; otherwise saves the request under the next id with TODO as the default status, returns its response and records one CREATE entry |
| TaskServices.TaskService.UpdateTask | src/main/java/com/buildmaster/projecttracker/service/impl/TaskServiceImpl.java:68-111 | Fails exactly when the task is missing, a changed project is not stored or a different developer is not stored; otherwise overwrites the task from the request (keeping the status when none is given), evicts its cache key and records the old and new data |
| TaskServices.TaskService.DeleteTask | src/main/java/com/buildmaster/projecttracker/service/impl/TaskServiceImpl.java:114-130 | Fails exactly when the task is missing; otherwise removes it, evicts its cache key and records one DELETE entry |
| TaskServices.TaskService.GetTaskById | src/main/java/com/buildmaster/projecttracker/service/impl/TaskServiceImpl.java:133-138 | A cached response is returned as it is; on a miss the stored task's response is returned and cached, or not-found is returned; with a coherent cache the answer is always the current row's |
| TaskServices.TaskService.AssignTask | src/main/java/com/buildmaster/projecttracker/service/impl/TaskServiceImpl.java:212-235 | Fails exactly when the task or the developer is missing; otherwise sets only the developer, evicts the cache key and records the old and new developer |
| TaskServices.TaskService.UnassignTask | src/main/java/com/buildmaster/projecttracker/service/impl/TaskServiceImpl.java:237-257 | Fails exactly when the task is missing; otherwise clears only the developer, evicts the cache key and records the previous developer |
| TaskServices.TaskService.BulkAssignTasks | src/main/java/com/buildmaster/projecttracker/service/impl/TaskServiceImpl.java:260-277 | Fails exactly when the developer is missing; otherwise assigns every listed stored task to it and returns the number of distinct stored ids listed |
| TaskServices.TaskService.BulkUpdateTaskStatusByProject | src/main/java/com/buildmaster/projecttracker/service/impl/TaskServiceImpl.java:280-297 | Fails exactly when the project is missing; otherwise sets the status of every task of the project and returns how many there are |
| TaskServices.TaskService.BulkUpdateTasks | src/main/java/com/buildmaster/projecttracker/service/impl/TaskServiceImpl.java:300-341 | Fails, changing nothing, exactly when some listed task is stored and the update names an unknown developer; otherwise every found task takes the non-null fields, and the responses of the found tasks come back in ascending id order when some field was set |
| TaskServices.TaskService.GetTasksDueWithin | src/main/java/com/buildmaster/projecttracker/service/impl/TaskServiceImpl.java:192-200 | Exactly the open tasks due from now to the given number of days ahead, both ends included; a negative number of days gives none |
| TaskServices.TaskService.GetTaskStatusStatisticsByProject | src/main/java/com/buildmaster/projecttracker/service/impl/TaskServiceImpl.java:353-357 | A status is a key exactly when the project has a task with it, mapped to the number of such tasks |
| TaskServices.TaskService.GetTaskStatusStatisticsByDeveloper | src/main/java/com/buildmaster/projecttracker/service/impl/TaskServiceImpl.java:360-364 | A status is a key exactly when the developer has a task with it, mapped to the number of such tasks |
| TaskServices.TaskService.GetOverallTaskStatistics | src/main/java/com/buildmaster/projecttracker/service/impl/TaskServiceImpl.java:367-382 | The map `CountOverall` describes: every status's count plus TOTAL, UNASSIGNED and OVERDUE |
| ProjectRepository.FindByStatus | src/main/java/com/buildmaster/projecttracker/repository/ProjectRepository.java:23 | Exactly the projects with that status |
| ProjectRepository.FindByDeadlineBefore | src/main/java/com/buildmaster/projecttracker/repository/ProjectRepository.java:26 | Exactly the projects whose deadline is strictly earlier than the instant |
| ProjectRepository.FindByDeadlineBetween | src/main/java/com/buildmaster/projecttracker/repository/ProjectRepository.java:29 | Exactly the projects whose deadline lies within the range, both ends included; a reversed range gives none |
| ProjectRepository.FindByNameContainingIgnoreCase | src/main/java/com/buildmaster/projecttracker/repository/ProjectRepository.java:32 | Exactly the projects whose name contains the term, ignoring case |
| ProjectRepository.FindProjectsWithoutTasks | src/main/java/com/buildmaster/projecttracker/repository/ProjectRepository.java:35-36 | Exactly the projects that no task refers to |
| ProjectRepository.FindProjectsWithTaskCount | src/main/java/com/buildmaster/projecttracker/repository/ProjectRepository.java:39-40 | Exactly the projects with the given number of tasks, a left join counting zero for a project without tasks |
| ProjectRepository.WithoutTasksIsCountZero | src/main/java/com/buildmaster/projecttracker/repository/ProjectRepository.java:35-40 | `findProjectsWithoutTasks` and `findProjectsWithTaskCount(0)` return the same projects |
| ProjectRepository.FindOverdueProjects | src/main/java/com/buildmaster/projecttracker/repository/ProjectRepository.java:43-44 | Exactly the projects whose deadline has passed and that are not COMPLETED, a subset of the late ones |
| ProjectRepository.OverdueIsLateAndOpen | src/main/java/com/buildmaster/projecttracker/repository/ProjectRepository.java:26-44 | The overdue projects are the ones with a passed deadline minus the COMPLETED ones |
| ProjectRepository.FindByStatusOrderByDeadline | src/main/java/com/buildmaster/projecttracker/repository/ProjectRepository.java:47-48 | A permutation of the projects with that status, holding exactly those, and sorted by ascending deadline |
| ProjectRepository.FindByNameIgnoreCase | src/main/java/com/buildmaster/projecttracker/repository/ProjectRepository.java:57 | Finds a project whose name equals the name ignoring case, finds none exactly when `existsByNameIgnoreCase` is false, fails as a non-unique result exactly when more than one project matches, and a found project is the only match |
| ProjectRepository.ProjectStatusesDistinct | src/main/java/com/buildmaster/projecttracker/service/impl/ProjectServiceImpl.java:178-182 | The enumeration of project statuses lists each status once and lists them all |
| ProjectRepository.GetProjectStatusStatistics | src/main/java/com/buildmaster/projecttracker/repository/ProjectRepository.java:63-64 | Every row is a status with a positive count equal to `countByStatus` for it |
| ProjectRepository.StatusGroupIsFindByStatus | src/main/java/com/buildmaster/projecttracker/repository/ProjectRepository.java:63-64 | The GROUP BY group of a status is what `findByStatus` returns |
| ProjectRepository.StatisticsCoverEveryStatus | src/main/java/com/buildmaster/projecttracker/repository/ProjectRepository.java:60-64 | Every status held by some project has its row |
| ProjectRepository.StatisticsSum | src/main/java/com/buildmaster/projecttracker/repository/ProjectRepository.java:63-64 | The status counts add up to the number of projects |
| ProjectServices.UpdateProjectIdempotent | src/main/java/com/buildmaster/projecttracker/service/impl/ProjectServiceImpl.java:70-75 | Applying the same update request twice leaves the project as applying it once |
| ProjectServices.WithoutProject | src/main/java/com/buildmaster/projecttracker/service/impl/ProjectServiceImpl.java:99-100 | The cascade leaves exactly the tasks of other projects, each unchanged |
| ProjectServices.WithoutProjectEffect | src/main/java/com/buildmaster/projecttracker/service/impl/ProjectServiceImpl.java:99-100 | The cascade removes exactly the project's tasks; every other project keeps its tasks, and every remaining reference is to a stored row |
| ProjectServices.StatusCounts | src/main/java/com/buildmaster/projecttracker/service/impl/ProjectServiceImpl.java:173-185 | A status is a key exactly when some project has it, mapped to `countByStatus` |
| ProjectServices.StatusCountAt | src/main/java/com/buildmaster/projecttracker/service/impl/ProjectServiceImpl.java:178-182 | The map the loop builds from the GROUP BY rows gives every status's count, and only statuses that occur |
| ProjectServices.ProjectService.CreateProject | src/main/java/com/buildmaster/projecttracker/service/impl/ProjectServiceImpl.java:36-58 | Fails with a duplicate-name error exactly when a stored project has the name ignoring case, changing nothing; otherwise saves the request under the next id with PLANNING as the default status, returns a response with no tasks and records one CREATE entry |
| ProjectServices.ProjectService.UpdateProject | src/main/java/com/buildmaster/projecttracker/service/impl/ProjectServiceImpl.java:61-88 | Fails exactly when the project is missing; otherwise replaces name, description and deadline, keeps the status when none is given, does not check the new name, evicts the cache key and records the old and new data |
| ProjectServices.ProjectService.DeleteProject | src/main/java/com/buildmaster/projecttracker/service/impl/ProjectServiceImpl.java:90-107 | Fails exactly when the project is missing; otherwise removes it and its tasks, evicts the cache key and records one DELETE entry |
| ProjectServices.ProjectService.GetProjectById | src/main/java/com/buildmaster/projecttracker/service/impl/ProjectServiceImpl.java:109-115 | A cached response is returned as it is; on a miss the stored project's response is returned and cached, or not-found is returned; with a coherent cache the answer is always the current row's |
| ProjectServices.ProjectService.GetProjectDetails | src/main/java/com/buildmaster/projecttracker/service/impl/ProjectServiceImpl.java:117-123 | A cached detail is returned as it is; on a miss the project's detail, listing as many task summaries as the project has tasks, is returned and cached, or not-found is returned |
| ProjectServices.ProjectService.GetProjectStatusStatistics | src/main/java/com/buildmaster/projecttracker/service/impl/ProjectServiceImpl.java:173-185 | A status is a key exactly when some project has it, mapped to the number of projects with it |
| UserRepository.FindByUsername | src/main/java/com/buildmaster/projecttracker/repository/UserRepository.java:21-31 | With unique usernames the lookup never fails, and it finds a user exactly when `existsByUsername` holds, one with that username |
| UserRepository.AtMostOneWithUsername | src/main/java/com/buildmaster/projecttracker/repository/UserRepository.java:21 | The unique username column admits at most one user per username |
| UserRepository.FindByEmail | src/main/java/com/buildmaster/projecttracker/repository/UserRepository.java:24-34 | Finds none exactly when `existsByEmail` is false; a found user has that e-mail; the finder fails as a non-unique result exactly when more than one user has the e-mail, and a found user is the only one |
| UserRepository.FindByUsernameOrEmail | src/main/java/com/buildmaster/projecttracker/repository/UserRepository.java:27-28 | Finds none exactly when no user has the string as username or e-mail; a found user has it as one of them and is the only such user; the finder fails exactly when more than one user matches |
| UserRepository.FindByProvider | src/main/java/com/buildmaster/projecttracker/repository/UserRepository.java:37 | Exactly the users of that provider |
| UserRepository.FindByProviderAndProviderId | src/main/java/com/buildmaster/projecttracker/repository/UserRepository.java:40 | Finds none exactly when no user has both the provider and the provider id; a found user has both and is the only such user; the finder fails exactly when more than one user matches |
| UserRepository.FindByRoleName | src/main/java/com/buildmaster/projecttracker/repository/UserRepository.java:43-44 | Exactly the users holding a role of that name |
| UserRepository.FindByEnabledTrue | src/main/java/com/buildmaster/projecttracker/repository/UserRepository.java:51 | Exactly the enabled users |
| UserRepository.FindByEnabledFalse | src/main/java/com/buildmaster/projecttracker/repository/UserRepository.java:54 | Exactly the disabled users |
| UserRepository.EnabledPartition | src/main/java/com/buildmaster/projecttracker/repository/UserRepository.java:51-54 | Enabled and disabled users are disjoint and together are every user |
| UserRepository.SearchUsers | src/main/java/com/buildmaster/projecttracker/repository/UserRepository.java:57-62 | A user is returned exactly when the term occurs, ignoring case, in its first name, last name, e-mail or username |
| UserRepository.FindByLastLoginAfter | src/main/java/com/buildmaster/projecttracker/repository/UserRepository.java:68 | Exactly the users whose last login is strictly later than the instant; a user who never logged in is never among them |
| UserRepository.FindByLastLoginIsNull | src/main/java/com/buildmaster/projecttracker/repository/UserRepository.java:71 | Exactly the users who never logged in |
| UserRepository.FindUsersWithoutRoles | src/main/java/com/buildmaster/projecttracker/repository/UserRepository.java:95-96 | Exactly the users holding no role |
| UserRepository.ProvidersDistinct | src/main/java/com/buildmaster/projecttracker/repository/UserRepository.java:91-92 | The enumeration of providers lists each provider once and lists them all |
| UserRepository.GetUserProviderStatistics | src/main/java/com/buildmaster/projecttracker/repository/UserRepository.java:91-92 | Every row is a provider in use with its positive `countByProvider` |
| UserRepository.ProviderGroupIsFindByProvider | src/main/java/com/buildmaster/projecttracker/repository/UserRepository.java:91-92 | The GROUP BY group of a provider is what `findByProvider` returns |
| UserRepository.ProviderStatisticsSum | src/main/java/com/buildmaster/projecttracker/repository/UserRepository.java:91-92 | The provider counts add up to the number of users |
| UserRepository.ProviderCountsSum | src/main/java/com/buildmaster/projecttracker/repository/UserRepository.java:84 | The counts of the three providers add up to the number of users |
| UserRepository.WithLastLogin | src/main/java/com/buildmaster/projecttracker/repository/UserRepository.java:74-76 | Keeps every user id, sets the last login of that user alone, and reports one updated row when the user exists and none otherwise |
| UserRepository.WithStatus | src/main/java/com/buildmaster/projecttracker/repository/UserRepository.java:79-81 | Keeps every user id, sets the enabled flag of that user alone, and reports one updated row when the user exists and none otherwise |
| UserRepository.FindRoleByName | src/main/java/com/buildmaster/projecttracker/repository/RoleRepository.java:16-19 | With unique role names the lookup never fails, and it finds a role exactly when `existsByName` holds, one with that name |
| UserRepository.AtMostOneRoleNamed | src/main/java/com/buildmaster/projecttracker/repository/RoleRepository.java:16 | The unique name column admits at most one role per name |
| UserRepository.FindRolesByNameContainingIgnoreCase | src/main/java/com/buildmaster/projecttracker/repository/RoleRepository.java:22 | Exactly the roles whose name contains the term, ignoring case |
| UserRepository.ByRoleNameIsOrder | src/main/java/com/buildmaster/projecttracker/repository/RoleRepository.java:25 | Ordering roles by name is total and transitive |
| UserRepository.FindAllRolesByOrderByNameAsc | src/main/java/com/buildmaster/projecttracker/repository/RoleRepository.java:25 | Lists every role exactly once, sorted by name |
| UserRepository.RoleRows | src/main/java/com/buildmaster/projecttracker/repository/RoleRepository.java:28-29 | One row per listed role, holding its name and its number of users |
| UserRepository.GetRoleStatistics | src/main/java/com/buildmaster/projecttracker/repository/RoleRepository.java:28-29 | One row per role, each role's name with its number of users, the roles without users counting zero, sorted by name |
| UserRepository.RoleRowsNamed | src/main/java/com/buildmaster/projecttracker/repository/RoleRepository.java:28-29 | Rows built from stored roles in name order name stored roles and stay in name order |
| UserRepository.CountUsersByRoleNameAgrees | src/main/java/com/buildmaster/projecttracker/repository/RoleRepository.java:40-41 | Counting a role's users from the role side gives the same number as `countByRoleName`, at src/main/java/com/buildmaster/projecttracker/repository/UserRepository.java:87-88, from the user side |
| UserRepository.FindRolesWithUsers | src/main/java/com/buildmaster/projecttracker/repository/RoleRepository.java:32-33 | Exactly the roles some user holds |
| UserRepository.FindRolesWithoutUsers | src/main/java/com/buildmaster/projecttracker/repository/RoleRepository.java:36-37 | Exactly the roles no user holds |
| UserRepository.RolesWithOrWithoutUsers | src/main/java/com/buildmaster/projecttracker/repository/RoleRepository.java:32-37 | The roles with users and the roles without split the role table |
| UserRepository.WithoutUsersIsCountZero | src/main/java/com/buildmaster/projecttracker/repository/RoleRepository.java:36-41 | A role has no users exactly when its user count is zero |
| UserServices.GetCurrentUserEntity | src/main/java/com/buildmaster/projecttracker/service/impl/UserServiceImpl.java:47-54 | The principal is returned exactly when it is a user; no authentication or the anonymous user is IllegalStateException, any other principal a failing cast |
| UserServices.CanAccessUser | src/main/java/com/buildmaster/projecttracker/service/impl/UserServiceImpl.java:246-262 | Access is granted exactly when there is an authenticated user who holds ROLE_ADMIN or is the user asked for; any failure denies |
| UserServices.CanAccessOwnProfile | src/main/java/com/buildmaster/projecttracker/service/impl/UserServiceImpl.java:246-262 | An authenticated user may always access its own profile, an administrator every profile, and nobody else another's |
| UserServices.UpdatedProfileEffect | src/main/java/com/buildmaster/projecttracker/service/impl/UserServiceImpl.java:92-103 | Only first name, last name and e-mail can change; an empty update changes nothing; the update is idempotent; afterwards the e-mail no longer differs from the request's, and a given e-mail is the one stored |
| UserServices.ProviderCounts | src/main/java/com/buildmaster/projecttracker/service/impl/UserServiceImpl.java:213-218 | A provider is a key exactly when some user has it, mapped to `countByProvider` |
| UserServices.ProviderCountAt | src/main/java/com/buildmaster/projecttracker/service/impl/UserServiceImpl.java:215-217 | The map built from the GROUP BY rows gives every provider in use its count, and has no other key |
| UserServices.RoleCounts | src/main/java/com/buildmaster/projecttracker/service/impl/UserServiceImpl.java:221-226 | Every stored role's name is a key, and nothing else, mapped to its number of users |
| UserServices.RoleCountAt | src/main/java/com/buildmaster/projecttracker/service/impl/UserServiceImpl.java:223-225 | The map built from the role statistics rows names exactly the stored roles, each with its user count |
| UserServices.UserStatisticsOf | src/main/java/com/buildmaster/projecttracker/service/impl/UserServiceImpl.java:204-244 | Builds the statistics: total, per provider, per role, enabled, disabled, without roles, logged in within the last seven days, and never logged in |
| UserServices.UserStatisticsConsistent | src/main/java/com/buildmaster/projecttracker/service/impl/UserServiceImpl.java:204-244 | Enabled plus disabled users are the total, the provider counts add up to it, and recent plus never-logged-in users and users without roles never exceed it |
| UserServices.RecentOrNeverLoggedIn | src/main/java/com/buildmaster/projecttracker/repository/UserRepository.java:68-71 | Users who logged in after an instant and users who never logged in are disjoint, so together they are at most every user |
| UserServices.UserService.GetCurrentUser | src/main/java/com/buildmaster/projecttracker/service/impl/UserServiceImpl.java:41-44 | The principal's response exactly when `getCurrentUserEntity` succeeds, its error otherwise |
| UserServices.UserService.GetUserById | src/main/java/com/buildmaster/projecttracker/service/impl/UserServiceImpl.java:58-63 | The stored user's response exactly when the user exists, EntityNotFoundException otherwise |
| UserServices.UserService.UpdateUserProfile | src/main/java/com/buildmaster/projecttracker/service/impl/UserServiceImpl.java:82-117 | Fails, changing nothing, when the user is missing or a different e-mail is already in use; otherwise applies the given profile fields, returns the response and records the old and new data under the DEVELOPER entity type |
| UserServices.UserService.UpdateUserRole | src/main/java/com/buildmaster/projecttracker/service/impl/UserServiceImpl.java:120-147 | Fails, changing nothing, when the user or the role is missing; otherwise the user holds exactly that role, and the change is recorded |
| UserServices.UserService.ToggleUserStatus | src/main/java/com/buildmaster/projecttracker/service/impl/UserServiceImpl.java:150-172 | Fails when the user is missing; otherwise the enabled flag takes the argument with nothing else changed, and the change is recorded |
| UserServices.UserService.DeleteUser | src/main/java/com/buildmaster/projecttracker/service/impl/UserServiceImpl.java:175-191 | Fails when the user is missing; otherwise removes it and records one DELETE entry |
| UserServices.UserService.GetUserStatistics | src/main/java/com/buildmaster/projecttracker/service/impl/UserServiceImpl.java:204-244 | The statistics of the current user and role tables at the given instant |
| Store.Database.constructor | src/main/java/com/buildmaster/projecttracker/repository/TaskRepository.java:17 | An empty store: every table empty and the integrity invariant holding |
| Store.Database.InsertTask | src/main/java/com/buildmaster/projecttracker/service/impl/TaskServiceImpl.java:57 | Saving a new task stores it under the next identity value, which no row had, advances the counter and changes nothing else |
| Store.Database.InsertDeveloper | src/main/java/com/buildmaster/projecttracker/service/impl/DeveloperServiceImpl.java:57 | Saving a new developer stores it under the next identity value, which no row had, and advances the counter |
| Store.Database.InsertProject | src/main/java/com/buildmaster/projecttracker/service/impl/ProjectServiceImpl.java:50 | Saving a new project stores it under the next identity value, which no row had, and advances the counter |
| Store.Database.InsertUser | src/main/java/com/buildmaster/projecttracker/security/service/AuthService.java:76 | Saving a new user stores it under the next identity value, which no row had, and advances the counter |
| Store.Database.InsertRole | src/main/java/com/buildmaster/projecttracker/security/service/RoleInitializationService.java:54 | Saving a new role stores it under the next identity value, which no row had, and advances the counter |
| Store.Database.UpdateTaskStatusByProject | src/main/java/com/buildmaster/projecttracker/repository/TaskRepository.java:68-70 | The task table becomes the status update of the project's tasks, and the count is the number of those tasks |
| Store.Database.BulkAssignTasks | src/main/java/com/buildmaster/projecttracker/repository/TaskRepository.java:73-75 | The task table becomes the assignment of the listed stored tasks, and the count is the number of distinct stored ids listed |
| Store.Database.UpdateLastLogin | src/main/java/com/buildmaster/projecttracker/repository/UserRepository.java:74-76 | The user table and the count are those of the last-login update |
| Store.Database.UpdateUserStatus | src/main/java/com/buildmaster/projecttracker/repository/UserRepository.java:79-81 | The user table and the count are those of the status update |
| Store.WithDeveloperKeepsReferences | src/main/java/com/buildmaster/projecttracker/repository/TaskRepository.java:73-75 | Assigning tasks to a stored developer keeps every project and developer reference stored |
| Store.WithProjectStatusKeepsReferences | src/main/java/com/buildmaster/projecttracker/repository/TaskRepository.java:68-70 | A status update keeps every task id below the counter and every reference stored |
| ReadCache.Cache.constructor | src/main/java/com/buildmaster/projecttracker/service/impl/TaskServiceImpl.java:133 | Every cache name starts empty |

## Left out

- **Controllers, `@PreAuthorize` and the request pipeline.** The controllers, the method-security annotations and `JwtAuthenticationFilter.doFilterInternal` decide who may call a service. The services are modelled as if every call were authorised; `canAccessUser`, the predicate the annotations use, is modelled on its own.
- **Tokens.** `JwtUtil` and `JwtService` create and validate the JWTs, so the responses of `loginUser` carry no token. They are outside the core.
- **Oracles.** The password encoder, `AuthenticationManager.authenticate` and `super.loadUser` (a network call to the provider) are parameters, not models.
- **`UserDetailsServiceImpl`.** It adapts the user table to Spring Security and is outside the core.
- **Spring's transaction, cache and persistence machinery.** Their effect at the service boundary is modelled: rollback on an exception, and read-through caching with eviction after success. The proxies, flush order and lazy loading are not.
- **Pagination and sorting parameters.** `Pageable` arguments are dropped, and a paged finder returns all of its matching rows. The paged pass-throughs over `findAll` are `getAllTasks`, `getAllDevelopers`, `getAllProjects`, `getAllUsers` and `getAllLogs`. They add nothing beyond the finder.
- **Plain delegations.** Each of these is the finder it calls, mapped through the response conversion, so the finder's row covers it:
  - the per-filter listings of the task, project and audit services;
  - `searchDevelopers`, `searchUsers` and `getUsersByRole`;
  - `existsByEmail` and `existsByName`.
- **Creation and update timestamps.** `createdAt` and `updatedAt` are set by the persistence layer and never read by a branch. So they are not fields, and the finders over them are not modelled: `findByCreatedAtBetween` in the task, project and user repositories, `getTasksByCreationDateRange` and `getProjectsByCreationDateRange`.
- **Calendar arithmetic.** `LocalDateTime` is an integer number of seconds, and `plusDays` and `minusDays` add multiples of 86400. Time zones and calendar rules are not modelled.
- **Task, user and role row classes.** `Task.java`, `User.java`, `Role.java` and the status and provider enumerations are not part of this model's sources. Their fields are taken from the repository queries and the services' use of them. `Task.isOverdue` and `User.getFullName` are therefore not modelled: the `overdue` flag and the `fullName` field of the responses and audit snapshots are omitted.
- **Text.** Strings are sequences of characters with ASCII case mapping and ASCII whitespace. LIKE wildcards (`%`, `_`) inside a search term are taken literally, as plain characters.
- **Numeric width.** Java's `long` counts and ids are unbounded naturals, with no overflow.
- **Ordering without ORDER BY.** Identity order (ascending id) stands for the unspecified row order of an unordered finder and for `findAllById`.
- **Ties in ORDER BY.** In `findTopDevelopersByTaskCount`, `findByStatusOrderByDeadline` and the audit newest-first finders, rows that compare equal stay in ascending id or insertion order. The database guarantees no tie order.
- **Document ids.** The MongoDB `ObjectId` strings of audit entries are a natural counter, so `getLogById` takes a number.
- **Payloads.** The `Map<String, Object>` audit payloads and statistics maps are records with one field per key.
- **`Ordering.IdsBelow`.** The ascending listings are stated over the ids below the identity counter. Every stored id lies below the counter, by the store invariant.
- **`OAuth2UserInfo.getImageUrl`.** It is modelled, but no caller in the core reads it.
- **`RoleInitializationService.run`.** Its transaction rollback is not modelled. The rollback could only follow the "Admin role not found" error, and that error cannot arise after the roles are seeded, as `Run` proves.
- **AuthServices.GenerateUniqueUsername.** Java's `int` counter is not bounded here. After 2^31 attempts the Java counter would wrap around, which the model does not capture.
- **DeveloperServices.DeveloperService.GetDeveloperTaskStatistics.** The loop that copies each query row into a `HashMap` is modelled as a function returning the row records, because the copy changes no value. The surrounding `developerStatistics` map is dropped.
- **Logging.** SLF4J log lines have no effect on state.
- **Concurrency.** Every service call runs alone, one after another. Two effects of interleaved requests are therefore not captured: the uniqueness checks that test first and save after (`existsByEmail` or `existsByUsername` followed by `save`) can let two concurrent requests both pass, and `getAuditStatistics` reads the clock once per window where the model uses a single `now`.
