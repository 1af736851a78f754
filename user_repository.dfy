// The queries of `UserRepository` and `RoleRepository`. A user row holds
// the names of its roles (the user_roles join table); role names are
// unique, so a name identifies a role.
module UserRepository {
  import opened Common
  import opened Domain
  import opened Text
  import opened Ordering
  import opened Grouping

  function UsernameIs(username: string): User -> bool
  {
    (u: User) => u.username == username
  }

  function EmailIs(email: string): User -> bool
  {
    (u: User) => u.email == email
  }

  function UsernameOrEmailIs(s: string): User -> bool
  {
    (u: User) => u.username == s || u.email == s
  }

  function ProviderIs(p: AuthProvider): User -> bool
  {
    (u: User) => u.provider == p
  }

  function ProviderAndIdIs(p: AuthProvider, providerId: Option<string>): User -> bool
  {
    (u: User) => u.provider == p && u.providerId == providerId
  }

  function InRole(roleName: string): User -> bool
  {
    (u: User) => roleName in u.roles
  }

  function IsEnabled(): User -> bool
  {
    (u: User) => u.enabled
  }

  /** The `unique = true` constraint on the username column. */
  ghost predicate UniqueUsernames(users: map<Id, User>)
  {
    forall a, b :: a in users && b in users && users[a].username == users[b].username ==> a == b
  }

  /** `existsByUsername`. */
  predicate ExistsByUsername(users: map<Id, User>, username: string)
  {
    exists k :: k in users && users[k].username == username
  }

  /** `existsByEmail`. */
  predicate ExistsByEmail(users: map<Id, User>, email: string)
  {
    exists k :: k in users && users[k].email == email
  }

  /** `findByUsername`: with unique usernames it never fails, and finds a user exactly when one exists. */
  function FindByUsername(users: map<Id, User>, username: string): (r: Result<Option<Id>>)
    requires UniqueUsernames(users)
    ensures r.Ok?
    ensures r.value.Some? <==> ExistsByUsername(users, username)
    ensures r.value.Some? ==> r.value.value in users && users[r.value.value].username == username
  {
    AtMostOneWithUsername(users, username);
    FindOne(Select(users, UsernameIs(username)))
  }

  lemma AtMostOneWithUsername(users: map<Id, User>, username: string)
    requires UniqueUsernames(users)
    ensures |Select(users, UsernameIs(username))| <= 1
  {
    var matches := Select(users, UsernameIs(username));
    if matches != {} {
      var a :| a in matches;
      assert matches == {a};
    }
  }

  /** `findByEmail`: e-mails of users are not unique, so two matches fail the finder. */
  function FindByEmail(users: map<Id, User>, email: string): (r: Result<Option<Id>>)
    ensures r == Ok(None) <==> !ExistsByEmail(users, email)
    ensures r.Ok? && r.value.Some? ==> r.value.value in users && users[r.value.value].email == email
    ensures r.Err? ==> r.error == NonUniqueResult
    ensures r.Err? <==> |Select(users, EmailIs(email))| > 1
    ensures r.Ok? && r.value.Some? ==> forall k :: k in users && users[k].email == email ==> k == r.value.value
  {
    FindOne(Select(users, EmailIs(email)))
  }

  /** `findByUsernameOrEmail`: one query matching either column. */
  function FindByUsernameOrEmail(users: map<Id, User>, s: string): (r: Result<Option<Id>>)
    ensures r == Ok(None) <==> !ExistsByUsername(users, s) && !ExistsByEmail(users, s)
    ensures r.Ok? && r.value.Some? ==>
      (r.value.value in users && (users[r.value.value].username == s || users[r.value.value].email == s))
    ensures r.Err? ==> r.error == NonUniqueResult
    ensures r.Err? <==> |Select(users, UsernameOrEmailIs(s))| > 1
    ensures r.Ok? && r.value.Some? ==>
      forall k :: k in users && (users[k].username == s || users[k].email == s) ==> k == r.value.value
  {
    var matches := Select(users, UsernameOrEmailIs(s));
    assert matches == {} ==> !ExistsByUsername(users, s) && !ExistsByEmail(users, s) by {
      if ExistsByUsername(users, s) {
        var k :| k in users && users[k].username == s;
        assert k in matches;
      }
      if ExistsByEmail(users, s) {
        var k :| k in users && users[k].email == s;
        assert k in matches;
      }
    }
    FindOne(matches)
  }

  /** `findByProvider`. */
  function FindByProvider(users: map<Id, User>, p: AuthProvider): (r: set<Id>)
    ensures forall k :: k in r <==> k in users && users[k].provider == p
  {
    Select(users, ProviderIs(p))
  }

  /** `findByProviderAndProviderId`. */
  function FindByProviderAndProviderId(users: map<Id, User>, p: AuthProvider, providerId: Option<string>): (r: Result<Option<Id>>)
    ensures r == Ok(None) <==> forall k :: k in users ==> !(users[k].provider == p && users[k].providerId == providerId)
    ensures r.Ok? && r.value.Some? ==>
      (r.value.value in users && users[r.value.value].provider == p && users[r.value.value].providerId == providerId)
    ensures r.Err? ==> r.error == NonUniqueResult
    ensures r.Err? <==> |Select(users, ProviderAndIdIs(p, providerId))| > 1
    ensures r.Ok? && r.value.Some? ==>
      forall k :: k in users && users[k].provider == p && users[k].providerId == providerId ==> k == r.value.value
  {
    FindOne(Select(users, ProviderAndIdIs(p, providerId)))
  }

  /** `findByRoleName`: users joined with a role of that name. */
  function FindByRoleName(users: map<Id, User>, roleName: string): (r: set<Id>)
    ensures forall k :: k in r <==> k in users && HasRole(users[k], roleName)
  {
    Select(users, InRole(roleName))
  }

  /** `findByEnabledTrue`. */
  function FindByEnabledTrue(users: map<Id, User>): (r: set<Id>)
    ensures forall k :: k in r <==> k in users && users[k].enabled
  {
    Select(users, IsEnabled())
  }

  /** `findByEnabledFalse`. */
  function FindByEnabledFalse(users: map<Id, User>): (r: set<Id>)
    ensures forall k :: k in r <==> k in users && !users[k].enabled
  {
    Select(users, Not(IsEnabled()))
  }

  /** Every user is either enabled or disabled. */
  lemma EnabledPartition(users: map<Id, User>)
    ensures FindByEnabledTrue(users) * FindByEnabledFalse(users) == {}
    ensures |FindByEnabledTrue(users)| + |FindByEnabledFalse(users)| == |users|
  {
    SelectPartition(users, IsEnabled());
  }

  /** `searchUsers`: the term within first name, last name, e-mail or username, ignoring case. */
  function SearchUsers(users: map<Id, User>, term: string): (r: set<Id>)
    ensures forall k :: k in r <==> (k in users &&
      (ContainsIgnoreCase(users[k].firstName, term) || ContainsIgnoreCase(users[k].lastName, term)
       || ContainsIgnoreCase(users[k].email, term) || ContainsIgnoreCase(users[k].username, term)))
  {
    set k | k in users &&
      (ContainsIgnoreCase(users[k].firstName, term) || ContainsIgnoreCase(users[k].lastName, term)
       || ContainsIgnoreCase(users[k].email, term) || ContainsIgnoreCase(users[k].username, term))
  }

  /** `findByLastLoginAfter`: strictly later logins; users who never logged in are not matched. */
  function FindByLastLoginAfter(users: map<Id, User>, t: Time): (r: set<Id>)
    ensures forall k :: k in r <==> k in users && users[k].lastLogin.Some? && users[k].lastLogin.value > t
    ensures r * FindByLastLoginIsNull(users) == {}
  {
    set k | k in users && users[k].lastLogin.Some? && users[k].lastLogin.value > t
  }

  /** `findByLastLoginIsNull`. */
  function FindByLastLoginIsNull(users: map<Id, User>): (r: set<Id>)
    ensures forall k :: k in r <==> k in users && users[k].lastLogin.None?
  {
    set k | k in users && users[k].lastLogin.None?
  }

  /** `countByProvider`. */
  function CountByProvider(users: map<Id, User>, p: AuthProvider): nat
  {
    |FindByProvider(users, p)|
  }

  /** `countByRoleName`. */
  function CountByRoleName(users: map<Id, User>, roleName: string): nat
  {
    |FindByRoleName(users, roleName)|
  }

  /** `findUsersWithoutRoles`: `u.roles IS EMPTY`. */
  function FindUsersWithoutRoles(users: map<Id, User>): (r: set<Id>)
    ensures forall k :: k in r <==> k in users && forall n :: !HasRole(users[k], n)
  {
    var r := set k | k in users && users[k].roles == {};
    assert forall k :: k in r <==> k in users && forall n :: !HasRole(users[k], n) by {
      forall k | k in users && users[k].roles != {} ensures exists n :: HasRole(users[k], n) {
        var n :| n in users[k].roles;
        assert HasRole(users[k], n);
      }
    }
    r
  }

  // ---------------------------------------------------------------------
  // GROUP BY u.provider

  function ProviderOf(): User -> AuthProvider
  {
    (u: User) => u.provider
  }

  function AnyUser(): User -> bool
  {
    (u: User) => true
  }

  lemma ProvidersDistinct()
    ensures forall i, j :: 0 <= i < j < |AllProviders| ==> AllProviders[i] != AllProviders[j]
    ensures forall p: AuthProvider :: p in AllProviders
  {
    forall p: AuthProvider ensures p in AllProviders {
      match p
      case Local => assert AllProviders[0] == p;
      case Google => assert AllProviders[1] == p;
      case Github => assert AllProviders[2] == p;
    }
  }

  /** `getUserProviderStatistics`: one (provider, count) row per provider in use. */
  function GetUserProviderStatistics(users: map<Id, User>): (rows: seq<(AuthProvider, nat)>)
    ensures forall i :: 0 <= i < |rows| ==> rows[i].1 > 0 && rows[i].1 == CountByProvider(users, rows[i].0)
  {
    var rows := GroupRows(users, AnyUser(), ProviderOf(), AllProviders);
    forall i | 0 <= i < |rows| ensures rows[i].1 == CountByProvider(users, rows[i].0) {
      assert FindByProvider(users, rows[i].0) == Select(users, WithKey(AnyUser(), ProviderOf(), rows[i].0));
    }
    rows
  }

  /** The GROUP BY group of a provider is the provider finder's result. */
  lemma ProviderGroupIsFindByProvider(users: map<Id, User>, p: AuthProvider)
    ensures Select(users, WithKey(AnyUser(), ProviderOf(), p)) == FindByProvider(users, p)
  {
  }

  /** The provider counts add up to the number of users. */
  lemma ProviderStatisticsSum(users: map<Id, User>)
    ensures RowSum(GetUserProviderStatistics(users)) == |users|
  {
    ProvidersDistinct();
    GroupRowsTotal(users, AnyUser(), ProviderOf(), AllProviders);
    assert Select(users, AnyUser()) == users.Keys;
  }

  /** The three per-provider counts add up to the number of users. */
  lemma ProviderCountsSum(users: map<Id, User>)
    ensures CountByProvider(users, Local) + CountByProvider(users, Google) + CountByProvider(users, Github) == |users|
  {
    var l, g, h := FindByProvider(users, Local), FindByProvider(users, Google), FindByProvider(users, Github);
    assert l + g + h == users.Keys;
    assert l * g == {} && (l + g) * h == {};
    assert |l + g| == |l| + |g|;
  }

  // ---------------------------------------------------------------------
  // @Modifying updates

  /** `updateLastLogin`: sets one user's last login; the result is the number of rows updated. */
  function WithLastLogin(users: map<Id, User>, userId: Id, t: Time): (r: (map<Id, User>, nat))
    ensures r.0.Keys == users.Keys
    ensures r.1 == (if userId in users then 1 else 0)
    ensures userId in users ==> r.0[userId] == users[userId].(lastLogin := Some(t))
    ensures forall k :: k in users && k != userId ==> r.0[k] == users[k]
  {
    if userId in users then (users[userId := users[userId].(lastLogin := Some(t))], 1) else (users, 0)
  }

  /** `updateUserStatus`: sets one user's enabled flag; the result is the number of rows updated. */
  function WithStatus(users: map<Id, User>, userId: Id, enabled: bool): (r: (map<Id, User>, nat))
    ensures r.0.Keys == users.Keys
    ensures r.1 == (if userId in users then 1 else 0)
    ensures userId in users ==> r.0[userId] == users[userId].(enabled := enabled)
    ensures forall k :: k in users && k != userId ==> r.0[k] == users[k]
  {
    if userId in users then (users[userId := users[userId].(enabled := enabled)], 1) else (users, 0)
  }

  // ---------------------------------------------------------------------
  // RoleRepository

  function RoleNameIs(name: string): Role -> bool
  {
    (r: Role) => r.name == name
  }

  /** The `unique = true` constraint on the role name column. */
  ghost predicate UniqueRoleNames(roles: map<Id, Role>)
  {
    forall a, b :: a in roles && b in roles && roles[a].name == roles[b].name ==> a == b
  }

  /** `existsByName`. */
  predicate ExistsRoleByName(roles: map<Id, Role>, name: string)
  {
    exists k :: k in roles && roles[k].name == name
  }

  /** `findByName` on roles: found exactly when `existsByName` holds. */
  function FindRoleByName(roles: map<Id, Role>, name: string): (r: Result<Option<Id>>)
    requires UniqueRoleNames(roles)
    ensures r.Ok?
    ensures r.value.Some? <==> ExistsRoleByName(roles, name)
    ensures r.value.Some? ==> r.value.value in roles && roles[r.value.value].name == name
  {
    AtMostOneRoleNamed(roles, name);
    FindOne(Select(roles, RoleNameIs(name)))
  }

  lemma AtMostOneRoleNamed(roles: map<Id, Role>, name: string)
    requires UniqueRoleNames(roles)
    ensures |Select(roles, RoleNameIs(name))| <= 1
  {
    var matches := Select(roles, RoleNameIs(name));
    if matches != {} {
      var a :| a in matches;
      assert matches == {a};
    }
  }

  /** `findByNameContainingIgnoreCase` on roles. */
  function FindRolesByNameContainingIgnoreCase(roles: map<Id, Role>, name: string): (r: set<Id>)
    ensures forall k :: k in r <==> k in roles && ContainsIgnoreCase(roles[k].name, name)
  {
    set k | k in roles && ContainsIgnoreCase(roles[k].name, name)
  }

  function RoleNameOf(roles: map<Id, Role>, k: Id): string
  {
    if k in roles then roles[k].name else []
  }

  function ByRoleName(roles: map<Id, Role>): (Id, Id) -> bool
  {
    (a: Id, b: Id) => LexLe(RoleNameOf(roles, a), RoleNameOf(roles, b))
  }

  lemma ByRoleNameIsOrder(roles: map<Id, Role>)
    ensures Total(ByRoleName(roles)) && Transitive(ByRoleName(roles))
  {
    var le := ByRoleName(roles);
    forall a, b ensures le(a, b) || le(b, a) {
      LexTotal(RoleNameOf(roles, a), RoleNameOf(roles, b));
    }
    forall a, b, c | le(a, b) && le(b, c) ensures le(a, c) {
      LexTransitive(RoleNameOf(roles, a), RoleNameOf(roles, b), RoleNameOf(roles, c));
    }
  }

  /** `findAllByOrderByNameAsc`: every role once, by name. */
  function FindAllRolesByOrderByNameAsc(roles: map<Id, Role>, bound: nat): (r: seq<Id>)
    requires forall k :: k in roles ==> k < bound
    ensures multiset(r) == multiset(IdsBelow(roles.Keys, bound))
    ensures |r| == |roles|
    ensures forall k :: k in r <==> k in roles
    ensures forall i, j :: 0 <= i < j < |r| ==> LexLe(RoleNameOf(roles, r[i]), RoleNameOf(roles, r[j]))
  {
    var ids := IdsBelow(roles.Keys, bound);
    ByRoleNameIsOrder(roles);
    var r := SortBy(ids, ByRoleName(roles));
    ListsEveryKeyOnce(roles.Keys, bound);
    assert |r| == |multiset(r)| == |multiset(ids)| == |ids|;
    forall k ensures k in r <==> k in roles {
      assert k in r <==> k in multiset(r);
      assert k in ids <==> k in multiset(ids);
    }
    forall i, j | 0 <= i < j < |r| ensures LexLe(RoleNameOf(roles, r[i]), RoleNameOf(roles, r[j])) {
      SortedPairwise(r, ByRoleName(roles), i, j);
    }
    r
  }

  /** One (name, user count) row per listed role. */
  function RoleRows(roles: map<Id, Role>, users: map<Id, User>, ids: seq<Id>): (rows: seq<(string, nat)>)
    requires forall i :: 0 <= i < |ids| ==> ids[i] in roles
    ensures |rows| == |ids|
    ensures forall i :: 0 <= i < |ids| ==> rows[i].0 == roles[ids[i]].name
    ensures forall i :: 0 <= i < |ids| ==> rows[i].1 == CountUsersByRoleName(users, rows[i].0)
    ensures forall k :: k in ids ==> exists i :: 0 <= i < |rows| && rows[i].0 == roles[k].name
  {
    seq(|ids|, i requires 0 <= i < |ids| => (roles[ids[i]].name, CountUsersByRoleName(users, roles[ids[i]].name)))
  }

  /** `getRoleStatistics`: each role's name with its number of users, ordered by name. */
  function GetRoleStatistics(roles: map<Id, Role>, users: map<Id, User>, bound: nat): (rows: seq<(string, nat)>)
    requires forall k :: k in roles ==> k < bound
    ensures |rows| == |roles|
    ensures forall i :: 0 <= i < |rows| ==> rows[i].1 == CountUsersByRoleName(users, rows[i].0)
    ensures forall i :: 0 <= i < |rows| ==> ExistsRoleByName(roles, rows[i].0)
    ensures forall k :: k in roles ==> exists i :: 0 <= i < |rows| && rows[i].0 == roles[k].name
    ensures forall i, j :: 0 <= i < j < |rows| ==> LexLe(rows[i].0, rows[j].0)
  {
    var ids := FindAllRolesByOrderByNameAsc(roles, bound);
    var rows := RoleRows(roles, users, ids);
    assert forall k :: k in roles ==> k in ids;
    RoleRowsNamed(roles, users, ids);
    rows
  }

  /** Rows listed from stored roles in name order name stored roles, in name order. */
  lemma RoleRowsNamed(roles: map<Id, Role>, users: map<Id, User>, ids: seq<Id>)
    requires forall i :: 0 <= i < |ids| ==> ids[i] in roles
    requires forall i, j :: 0 <= i < j < |ids| ==> LexLe(RoleNameOf(roles, ids[i]), RoleNameOf(roles, ids[j]))
    ensures forall i :: 0 <= i < |ids| ==> ExistsRoleByName(roles, RoleRows(roles, users, ids)[i].0)
    ensures forall i, j :: 0 <= i < j < |ids| ==> LexLe(RoleRows(roles, users, ids)[i].0, RoleRows(roles, users, ids)[j].0)
  {
    var rows := RoleRows(roles, users, ids);
    forall i | 0 <= i < |ids| ensures ExistsRoleByName(roles, rows[i].0) {
      assert roles[ids[i]].name == rows[i].0;
    }
    forall i, j | 0 <= i < j < |ids| ensures LexLe(rows[i].0, rows[j].0) {
      assert rows[i].0 == RoleNameOf(roles, ids[i]) && rows[j].0 == RoleNameOf(roles, ids[j]);
    }
  }

  /** `countUsersByRoleName`: users joined with the role of that name. */
  function CountUsersByRoleName(users: map<Id, User>, roleName: string): nat
  {
    |Select(users, InRole(roleName))|
  }

  /** Counting from the role side and from the user side agree. */
  lemma CountUsersByRoleNameAgrees(users: map<Id, User>, roleName: string)
    ensures CountUsersByRoleName(users, roleName) == CountByRoleName(users, roleName)
  {
  }

  /** `findRolesWithUsers`: roles some user holds. */
  function FindRolesWithUsers(roles: map<Id, Role>, users: map<Id, User>): (r: set<Id>)
    ensures forall k :: k in r <==> k in roles && exists u :: u in users && HasRole(users[u], roles[k].name)
  {
    set k | k in roles && exists u :: u in users && HasRole(users[u], roles[k].name)
  }

  /** `findRolesWithoutUsers`: roles no user holds. */
  function FindRolesWithoutUsers(roles: map<Id, Role>, users: map<Id, User>): (r: set<Id>)
    ensures forall k :: k in r <==> k in roles && forall u :: u in users ==> !HasRole(users[u], roles[k].name)
  {
    set k | k in roles && forall u :: u in users ==> !HasRole(users[u], roles[k].name)
  }

  /** The roles with and without users split the role table. */
  lemma RolesWithOrWithoutUsers(roles: map<Id, Role>, users: map<Id, User>)
    ensures FindRolesWithUsers(roles, users) * FindRolesWithoutUsers(roles, users) == {}
    ensures FindRolesWithUsers(roles, users) + FindRolesWithoutUsers(roles, users) == roles.Keys
  {
  }

  /** A role is without users exactly when its user count is zero. */
  lemma WithoutUsersIsCountZero(roles: map<Id, Role>, users: map<Id, User>, k: Id)
    requires k in roles
    ensures k in FindRolesWithoutUsers(roles, users) <==> CountUsersByRoleName(users, roles[k].name) == 0
  {
    if CountUsersByRoleName(users, roles[k].name) != 0 {
      var u :| u in Select(users, InRole(roles[k].name));
      assert u in users && HasRole(users[u], roles[k].name);
    }
  }
}
