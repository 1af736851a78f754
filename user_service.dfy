// `UserServiceImpl`. Every public method runs in one transaction: on an
// exception nothing it wrote persists and no audit entry is written. User
// events are recorded under the DEVELOPER entity type, as the service does.
module UserServices {
  import opened Common
  import opened Domain
  import opened Views
  import opened Requests
  import opened Grouping
  import opened AuditModel
  import opened AuditService
  import opened Store
  import UserRepository

  /**
   * What the security context holds: nothing, the anonymous principal, a
   * principal that is not a `User`, or an authenticated user with its id.
   */
  datatype Authentication = NoAuthentication | AnonymousUser | OtherPrincipal | UserPrincipal(id: Id, user: User)

  /** `getCurrentUserEntity`: the principal, or IllegalStateException, or a failing cast. */
  function GetCurrentUserEntity(auth: Authentication): (r: Result<(Id, User)>)
    ensures r.Ok? <==> auth.UserPrincipal?
    ensures r.Ok? ==> r.value == (auth.id, auth.user)
    ensures auth.NoAuthentication? || auth.AnonymousUser? ==> r == Err(Unauthenticated)
    ensures auth.OtherPrincipal? ==> r == Err(ClassCast)
  {
    match auth
    case NoAuthentication => Err(Unauthenticated)
    case AnonymousUser => Err(Unauthenticated)
    case OtherPrincipal => Err(ClassCast)
    case UserPrincipal(id, u) => Ok((id, u))
  }

  /**
   * `canAccessUser`: an administrator may access any user, anyone else only
   * themselves; every failure to obtain the current user is caught and
   * denies access.
   */
  function CanAccessUser(auth: Authentication, userId: Id): (ok: bool)
    ensures ok <==> (GetCurrentUserEntity(auth).Ok? && (HasRole(auth.user, AdminRoleName) || auth.id == userId))
  {
    match GetCurrentUserEntity(auth)
    case Err(_) => false
    case Ok((id, u)) => HasRole(u, AdminRoleName) || id == userId
  }

  /** An authenticated user may always access their own profile, and an administrator every profile. */
  lemma CanAccessOwnProfile(auth: Authentication, userId: Id)
    requires auth.UserPrincipal?
    ensures CanAccessUser(auth, auth.id)
    ensures HasRole(auth.user, AdminRoleName) ==> CanAccessUser(auth, userId)
    ensures !HasRole(auth.user, AdminRoleName) && userId != auth.id ==> !CanAccessUser(auth, userId)
  {
  }

  // ---------------------------------------------------------------------
  // updateUserProfile

  /** The request replaces the stored e-mail: it is given and differs from it. */
  predicate EmailChanges(u: User, upd: UserUpdate)
  {
    upd.email.Some? && upd.email.value != u.email
  }

  /** The user after the profile fields of `upd` are applied. */
  function UpdatedProfile(u: User, upd: UserUpdate): User
  {
    u.(firstName := if upd.firstName.Some? then upd.firstName.value else u.firstName,
       lastName := if upd.lastName.Some? then upd.lastName.value else u.lastName,
       email := if EmailChanges(u, upd) then upd.email.value else u.email)
  }

  /**
   * A profile update touches the names and the e-mail only; an empty
   * request changes nothing; applying it twice is applying it once, and
   * after it the e-mail no longer "changes".
   */
  lemma UpdatedProfileEffect(u: User, upd: UserUpdate)
    ensures UpdatedProfile(u, upd).(firstName := u.firstName, lastName := u.lastName, email := u.email) == u
    ensures upd == UserUpdate(None, None, None) ==> UpdatedProfile(u, upd) == u
    ensures UpdatedProfile(UpdatedProfile(u, upd), upd) == UpdatedProfile(u, upd)
    ensures !EmailChanges(UpdatedProfile(u, upd), upd)
    ensures upd.email.Some? ==> UpdatedProfile(u, upd).email == upd.email.value
  {
  }

  // ---------------------------------------------------------------------
  // getUserStatistics

  /** The map `getUserStatistics` returns, one field per key. */
  datatype UserStatistics = UserStatistics(
    totalUsers: nat,
    usersByProvider: map<AuthProvider, nat>,
    usersByRole: map<string, nat>,
    enabledUsers: nat,
    disabledUsers: nat,
    usersWithoutRoles: nat,
    recentLogins: nat,
    neverLoggedIn: nat)

  /** The statistics of the user and role tables at time `now`. */
  ghost predicate IsUserStatistics(users: map<Id, User>, roles: map<Id, Role>, now: Time, st: UserStatistics)
  {
    && st.totalUsers == |users|
    && (forall p :: p in st.usersByProvider <==> UserRepository.CountByProvider(users, p) > 0)
    && (forall p :: p in st.usersByProvider ==> st.usersByProvider[p] == UserRepository.CountByProvider(users, p))
    && (forall n :: n in st.usersByRole <==> UserRepository.ExistsRoleByName(roles, n))
    && (forall n :: n in st.usersByRole ==> st.usersByRole[n] == UserRepository.CountUsersByRoleName(users, n))
    && st.enabledUsers == |UserRepository.FindByEnabledTrue(users)|
    && st.disabledUsers == |UserRepository.FindByEnabledFalse(users)|
    && st.usersWithoutRoles == |UserRepository.FindUsersWithoutRoles(users)|
    && st.recentLogins == |UserRepository.FindByLastLoginAfter(users, MinusDays(now, 7))|
    && st.neverLoggedIn == |UserRepository.FindByLastLoginIsNull(users)|
  }

  /** The provider map: one entry per provider in use. */
  method ProviderCounts(users: map<Id, User>) returns (m: map<AuthProvider, nat>)
    ensures forall p :: p in m <==> UserRepository.CountByProvider(users, p) > 0
    ensures forall p :: p in m ==> m[p] == UserRepository.CountByProvider(users, p)
  {
    var rows := UserRepository.GetUserProviderStatistics(users);
    assert rows == GroupRows(users, UserRepository.AnyUser(), UserRepository.ProviderOf(), AllProviders);
    m := RowsToMap(rows);
    forall p ensures p in m <==> UserRepository.CountByProvider(users, p) > 0
      ensures p in m ==> m[p] == UserRepository.CountByProvider(users, p)
    {
      ProviderCountAt(users, m, p);
    }
  }

  lemma ProviderCountAt(users: map<Id, User>, m: map<AuthProvider, nat>, p: AuthProvider)
    requires ConvertedFrom(m, GroupRows(users, UserRepository.AnyUser(), UserRepository.ProviderOf(), AllProviders))
    ensures p in m <==> UserRepository.CountByProvider(users, p) > 0
    ensures p in m ==> m[p] == UserRepository.CountByProvider(users, p)
  {
    UserRepository.ProvidersDistinct();
    GroupMap(users, UserRepository.AnyUser(), UserRepository.ProviderOf(), AllProviders, m, p);
    UserRepository.ProviderGroupIsFindByProvider(users, p);
  }

  /** The role map: one entry per stored role, with its number of users. */
  method RoleCounts(users: map<Id, User>, roles: map<Id, Role>, bound: nat) returns (m: map<string, nat>)
    requires KeysBelow(roles, bound)
    ensures forall n :: n in m <==> UserRepository.ExistsRoleByName(roles, n)
    ensures forall n :: n in m ==> m[n] == UserRepository.CountUsersByRoleName(users, n)
  {
    var rows := UserRepository.GetRoleStatistics(roles, users, bound);
    m := RowsToMap(rows);
    forall n ensures n in m <==> UserRepository.ExistsRoleByName(roles, n)
      ensures n in m ==> m[n] == UserRepository.CountUsersByRoleName(users, n)
    {
      RoleCountAt(users, roles, rows, m, n);
    }
  }

  lemma RoleCountAt(users: map<Id, User>, roles: map<Id, Role>, rows: seq<(string, nat)>, m: map<string, nat>, n: string)
    requires ConvertedFrom(m, rows)
    requires forall i :: 0 <= i < |rows| ==> rows[i].1 == UserRepository.CountUsersByRoleName(users, rows[i].0)
    requires forall i :: 0 <= i < |rows| ==> UserRepository.ExistsRoleByName(roles, rows[i].0)
    requires forall k :: k in roles ==> exists i :: 0 <= i < |rows| && rows[i].0 == roles[k].name
    ensures n in m <==> UserRepository.ExistsRoleByName(roles, n)
    ensures n in m ==> m[n] == UserRepository.CountUsersByRoleName(users, n)
  {
    if n in m {
      var i :| 0 <= i < |rows| && rows[i].0 == n;
      ConvertedFromKeyed(m, rows, (name: string) => UserRepository.CountUsersByRoleName(users, name), n);
    }
    if UserRepository.ExistsRoleByName(roles, n) {
      var k :| k in roles && roles[k].name == n;
      var i :| 0 <= i < |rows| && rows[i].0 == roles[k].name;
      assert rows[i].0 in m;
    }
  }

  /** `getUserStatistics` over the tables, with `now` for the seven-day login window. */
  method UserStatisticsOf(users: map<Id, User>, roles: map<Id, Role>, roleBound: nat, now: Time)
    returns (st: UserStatistics)
    requires KeysBelow(roles, roleBound)
    ensures IsUserStatistics(users, roles, now, st)
  {
    var byProvider := ProviderCounts(users);
    var byRole := RoleCounts(users, roles, roleBound);
    st := UserStatistics(
      |users|, byProvider, byRole,
      |UserRepository.FindByEnabledTrue(users)|,
      |UserRepository.FindByEnabledFalse(users)|,
      |UserRepository.FindUsersWithoutRoles(users)|,
      |UserRepository.FindByLastLoginAfter(users, MinusDays(now, 7))|,
      |UserRepository.FindByLastLoginIsNull(users)|);
  }

  /** The count of a provider in the statistics, zero when it has no entry. */
  function ProviderEntry(st: UserStatistics, p: AuthProvider): nat
  {
    if p in st.usersByProvider then st.usersByProvider[p] else 0
  }

  /**
   * The statistics are consistent: enabled and disabled users, and the
   * three providers, each add up to the total; recent and never-logged-in
   * users are disjoint; users without roles are among all users.
   */
  lemma UserStatisticsConsistent(users: map<Id, User>, roles: map<Id, Role>, now: Time, st: UserStatistics)
    requires IsUserStatistics(users, roles, now, st)
    ensures st.enabledUsers + st.disabledUsers == st.totalUsers
    ensures ProviderEntry(st, Local) + ProviderEntry(st, Google) + ProviderEntry(st, Github) == st.totalUsers
    ensures st.recentLogins + st.neverLoggedIn <= st.totalUsers
    ensures st.usersWithoutRoles <= st.totalUsers
  {
    UserRepository.EnabledPartition(users);
    UserRepository.ProviderCountsSum(users);
    RecentOrNeverLoggedIn(users, MinusDays(now, 7));
    SubsetSize(UserRepository.FindUsersWithoutRoles(users), users.Keys);
  }

  /** Users who logged in after `t` and users who never logged in are disjoint groups of users. */
  lemma RecentOrNeverLoggedIn(users: map<Id, User>, t: Time)
    ensures |UserRepository.FindByLastLoginAfter(users, t)| + |UserRepository.FindByLastLoginIsNull(users)| <= |users|
  {
    var recent := UserRepository.FindByLastLoginAfter(users, t);
    var never := UserRepository.FindByLastLoginIsNull(users);
    assert |recent + never| == |recent| + |never|;
    SubsetSize(recent + never, users.Keys);
  }

  class UserService {
    const db: Database
    const audit: AuditLogService

    constructor(db: Database, audit: AuditLogService)
      ensures this.db == db && this.audit == audit
    {
      this.db := db;
      this.audit := audit;
    }

    ghost predicate Valid()
      reads db, audit.store
    {
      db.Valid() && audit.store.Valid()
    }

    /** `getCurrentUser`: the response for the principal of the security context. */
    function GetCurrentUser(auth: Authentication): (r: Result<UserView>)
      ensures r.Ok? <==> GetCurrentUserEntity(auth).Ok?
      ensures r.Err? ==> r.error == GetCurrentUserEntity(auth).error
      ensures r.Ok? ==> r.value == ViewUser(auth.id, auth.user)
    {
      match GetCurrentUserEntity(auth)
      case Err(e) => Err(e)
      case Ok((id, u)) => Ok(ViewUser(id, u))
    }

    /** `getUserById`: the stored user's response, or EntityNotFoundException. */
    function GetUserById(userId: Id): (r: Result<UserView>)
      reads db
      ensures r.Ok? <==> userId in db.users
      ensures r.Err? ==> r.error == NotFound
      ensures r.Ok? ==> r.value == ViewUser(userId, db.users[userId])
    {
      if userId in db.users then Ok(ViewUser(userId, db.users[userId])) else Err(NotFound)
    }

    /**
     * `updateUserProfile`: the user must exist, and an e-mail that changes
     * must not be in use.
     */
    method UpdateUserProfile(userId: Id, upd: UserUpdate, actor: string, now: Time) returns (r: Result<UserView>)
      requires Valid()
      modifies db`users, audit.store
      ensures Valid()
      ensures r.Err? <==> (userId !in old(db.users) ||
        (EmailChanges(old(db.users)[userId], upd) && UserRepository.ExistsByEmail(old(db.users), upd.email.value)))
      ensures r.Err? ==> r.error == (if userId in old(db.users) then DuplicateEmail else NotFound)
      ensures r.Err? ==> unchanged(db) && unchanged(audit.store)
      ensures r.Ok? ==> db.users == old(db.users)[userId := UpdatedProfile(old(db.users)[userId], upd)]
      ensures r.Ok? ==> r.value == ViewUser(userId, db.users[userId])
      ensures r.Ok? ==> LoggedOnce(audit.store,
        NewAuditLog(Update, DeveloperEntity, Some(userId), Some(actor),
                    UserChange(AuditUser(userId, old(db.users)[userId]), AuditUser(userId, db.users[userId])), now))
    {
      if userId !in db.users {
        return Err(NotFound);
      }
      var u := db.users[userId];
      if EmailChanges(u, upd) && UserRepository.ExistsByEmail(db.users, upd.email.value) {
        return Err(DuplicateEmail);
      }
      var v := UpdatedProfile(u, upd);
      db.users := db.users[userId := v];
      audit.LogAction(Update, DeveloperEntity, Some(userId), Some(actor), UserChange(AuditUser(userId, u), AuditUser(userId, v)), now);
      r := Ok(ViewUser(userId, v));
    }

    /** `updateUserRole`: the user and the role must exist; the user then holds that role only. */
    method UpdateUserRole(userId: Id, roleName: string, actor: string, now: Time) returns (r: Result<UserView>)
      requires Valid()
      modifies db`users, audit.store
      ensures Valid()
      ensures r.Err? <==> userId !in old(db.users) || !UserRepository.ExistsRoleByName(old(db.roles), roleName)
      ensures r.Err? ==> r.error == NotFound && unchanged(db) && unchanged(audit.store)
      ensures r.Ok? ==> db.users == old(db.users)[userId := old(db.users)[userId].(roles := {roleName})]
      ensures r.Ok? ==> forall n :: HasRole(db.users[userId], n) <==> n == roleName
      ensures r.Ok? ==> r.value == ViewUser(userId, db.users[userId])
      ensures r.Ok? ==> LoggedOnce(audit.store,
        NewAuditLog(Update, DeveloperEntity, Some(userId), Some(actor),
                    RoleUpdate(AuditUser(userId, old(db.users)[userId]), AuditUser(userId, db.users[userId])), now))
    {
      if userId !in db.users {
        return Err(NotFound);
      }
      var found := UserRepository.FindRoleByName(db.roles, roleName);
      if found.value.None? {
        return Err(NotFound);
      }
      var u := db.users[userId];
      var v := u.(roles := {roleName});
      db.users := db.users[userId := v];
      audit.LogAction(Update, DeveloperEntity, Some(userId), Some(actor), RoleUpdate(AuditUser(userId, u), AuditUser(userId, v)), now);
      r := Ok(ViewUser(userId, v));
    }

    /** `toggleUserStatus`: the user must exist; its enabled flag takes the argument. */
    method ToggleUserStatus(userId: Id, enabled: bool, actor: string, now: Time) returns (r: Result<UserView>)
      requires Valid()
      modifies db`users, audit.store
      ensures Valid()
      ensures r.Err? <==> userId !in old(db.users)
      ensures r.Err? ==> r.error == NotFound && unchanged(db) && unchanged(audit.store)
      ensures r.Ok? ==> db.users == old(db.users)[userId := old(db.users)[userId].(enabled := enabled)]
      ensures r.Ok? ==> r.value == ViewUser(userId, db.users[userId]) && r.value.enabled == enabled
      ensures r.Ok? ==> LoggedOnce(audit.store,
        NewAuditLog(Update, DeveloperEntity, Some(userId), Some(actor),
                    StatusToggle(enabled, AuditUser(userId, old(db.users)[userId]), AuditUser(userId, db.users[userId])), now))
    {
      if userId !in db.users {
        return Err(NotFound);
      }
      var u := db.users[userId];
      var v := u.(enabled := enabled);
      db.users := db.users[userId := v];
      audit.LogAction(Update, DeveloperEntity, Some(userId), Some(actor), StatusToggle(enabled, AuditUser(userId, u), AuditUser(userId, v)), now);
      r := Ok(ViewUser(userId, v));
    }

    /** `deleteUser`: the user must exist; it is removed. */
    method DeleteUser(userId: Id, actor: string, now: Time) returns (r: Result<()>)
      requires Valid()
      modifies db`users, audit.store
      ensures Valid()
      ensures r.Err? <==> userId !in old(db.users)
      ensures r.Err? ==> r.error == NotFound && unchanged(db) && unchanged(audit.store)
      ensures r.Ok? ==> db.users == old(db.users) - {userId}
      ensures r.Ok? ==> LoggedOnce(audit.store,
        NewAuditLog(Delete, DeveloperEntity, Some(userId), Some(actor), UserData(AuditUser(userId, old(db.users)[userId])), now))
    {
      if userId !in db.users {
        return Err(NotFound);
      }
      var payload := UserData(AuditUser(userId, db.users[userId]));
      db.users := db.users - {userId};
      audit.LogAction(Delete, DeveloperEntity, Some(userId), Some(actor), payload, now);
      r := Ok(());
    }

    /** `getUserStatistics`, with `now` for the seven-day login window. */
    method GetUserStatistics(now: Time) returns (st: UserStatistics)
      requires db.Valid()
      ensures IsUserStatistics(db.users, db.roles, now, st)
    {
      st := UserStatisticsOf(db.users, db.roles, db.nextRoleId, now);
    }
  }
}
