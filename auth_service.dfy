// `AuthService`: registration, login, OAuth2 account linking, password
// change and the role lookup they share. The password encoder and the
// authentication manager are oracles: the encoder is a function parameter,
// the authentication outcome a value handed in by the caller.
module AuthServices {
  import opened Common
  import opened Domain
  import opened Views
  import opened Requests
  import opened Text
  import opened AuditModel
  import opened AuditService
  import opened Store
  import UserRepository

  /** `actorName != null ? actorName : fallback`. */
  function ActorOr(actor: Option<string>, fallback: string): (a: string)
    ensures actor.Some? ==> a == actor.value
    ensures actor.None? ==> a == fallback
  {
    if actor.Some? then actor.value else fallback
  }

  // ---------------------------------------------------------------------
  // getOrCreateRole

  /** The role table after making sure a role of the type exists. */
  function WithRole(roles: map<Id, Role>, nextId: nat, rt: RoleType): (r: map<Id, Role>)
    ensures UserRepository.ExistsRoleByName(r, RoleName(rt))
    ensures UserRepository.ExistsRoleByName(roles, RoleName(rt)) ==> r == roles
    ensures !UserRepository.ExistsRoleByName(roles, RoleName(rt)) ==>
      r == roles[nextId := Role(RoleName(rt), RoleDescription(rt))]
  {
    if UserRepository.ExistsRoleByName(roles, RoleName(rt)) then roles
    else
      var r := roles[nextId := Role(RoleName(rt), RoleDescription(rt))];
      assert r[nextId].name == RoleName(rt);
      r
  }

  /** Adding a role under a fresh id keeps every reference and every role that existed. */
  lemma RoleAddedKeepsStore(users: map<Id, User>, roles: map<Id, Role>, nextId: nat, r: Role)
    requires nextId !in roles
    requires UserRepository.UniqueRoleNames(roles) && RolesReferenced(users, roles)
    requires !UserRepository.ExistsRoleByName(roles, r.name)
    ensures UserRepository.UniqueRoleNames(roles[nextId := r])
    ensures RolesReferenced(users, roles[nextId := r])
    ensures forall n :: UserRepository.ExistsRoleByName(roles, n) ==> UserRepository.ExistsRoleByName(roles[nextId := r], n)
  {
    var rs := roles[nextId := r];
    forall n | UserRepository.ExistsRoleByName(roles, n) ensures UserRepository.ExistsRoleByName(rs, n) {
      var k :| k in roles && roles[k].name == n;
      assert rs[k].name == n;
    }
  }

  // ---------------------------------------------------------------------
  // generateUniqueUsername

  /** The `k`-th name tried: the base itself, then the base with 1, 2, ... appended. */
  function Candidate(base: string, k: nat): string
  {
    if k == 0 then base else base + NatToString(k)
  }

  /** Different attempts try different names. */
  lemma CandidateInjective(base: string, a: nat, b: nat)
    ensures Candidate(base, a) == Candidate(base, b) ==> a == b
  {
    if a != b && a != 0 && b != 0 {
      if NatToString(a) == NatToString(b) {
        NatToStringInjective(a, b);
      }
      assert Candidate(base, a)[|base|..] == NatToString(a);
      assert Candidate(base, b)[|base|..] == NatToString(b);
    } else if a != b {
      assert |Candidate(base, a)| != |Candidate(base, b)|;
    }
  }

  /** The usernames in use. */
  ghost function Usernames(users: map<Id, User>): set<string>
  {
    set k | k in users :: users[k].username
  }

  /** `u` is the first candidate for `base` that no user holds. */
  ghost predicate FirstFreeCandidate(users: map<Id, User>, base: string, u: string)
  {
    exists k: nat :: u == Candidate(base, k) && !UserRepository.ExistsByUsername(users, u) &&
      forall j: nat :: j < k ==> UserRepository.ExistsByUsername(users, Candidate(base, j))
  }

  /** There is only one first free candidate. */
  lemma FirstFreeCandidateUnique(users: map<Id, User>, base: string, u: string, v: string)
    requires FirstFreeCandidate(users, base, u) && FirstFreeCandidate(users, base, v)
    ensures u == v
  {
    var k: nat :| u == Candidate(base, k) && !UserRepository.ExistsByUsername(users, u) &&
      forall j: nat :: j < k ==> UserRepository.ExistsByUsername(users, Candidate(base, j));
    var l: nat :| v == Candidate(base, l) && !UserRepository.ExistsByUsername(users, v) &&
      forall j: nat :: j < l ==> UserRepository.ExistsByUsername(users, Candidate(base, j));
  }

  /** The names tried before attempt `i`. */
  ghost function CandidatesBelow(base: string, i: nat): set<string>
  {
    set j: nat | j < i :: Candidate(base, j)
  }

  /** Every name tried before attempt `i` is in use. */
  ghost predicate AllTaken(users: map<Id, User>, base: string, i: nat)
  {
    forall j: nat :: j < i ==> UserRepository.ExistsByUsername(users, Candidate(base, j))
  }

  /** One more taken name: the tried names grow by a name in use that was not tried yet. */
  lemma CandidateStep(users: map<Id, User>, base: string, i: nat)
    requires AllTaken(users, base, i) && CandidatesBelow(base, i) <= Usernames(users)
    requires UserRepository.ExistsByUsername(users, Candidate(base, i))
    ensures AllTaken(users, base, i + 1)
    ensures CandidatesBelow(base, i + 1) <= Usernames(users)
    ensures |Usernames(users) - CandidatesBelow(base, i + 1)| < |Usernames(users) - CandidatesBelow(base, i)|
  {
    var c := Candidate(base, i);
    assert CandidatesBelow(base, i + 1) == CandidatesBelow(base, i) + {c};
    var k :| k in users && users[k].username == c;
    assert c in Usernames(users);
    if c in CandidatesBelow(base, i) {
      var j: nat :| j < i && c == Candidate(base, j);
      CandidateInjective(base, j, i);
    }
    assert Usernames(users) - CandidatesBelow(base, i + 1) < Usernames(users) - CandidatesBelow(base, i);
  }

  /**
   * `generateUniqueUsername`: tries the base, then the base with a counter
   * from 1 upwards, until a name is free. Every name tried is a name in
   * use and no name is tried twice, so the loop ends within as many rounds
   * as there are users.
   */
  method GenerateUniqueUsername(users: map<Id, User>, base: string) returns (username: string)
    ensures FirstFreeCandidate(users, base, username)
    ensures !UserRepository.ExistsByUsername(users, username)
  {
    username := base;
    var counter: nat := 1;
    assert CandidatesBelow(base, 0) == {};
    while UserRepository.ExistsByUsername(users, username)
      invariant username == Candidate(base, counter - 1)
      invariant AllTaken(users, base, counter - 1)
      invariant CandidatesBelow(base, counter - 1) <= Usernames(users)
      decreases |Usernames(users) - CandidatesBelow(base, counter - 1)|
    {
      CandidateStep(users, base, counter - 1);
      username := base + NatToString(counter);
      counter := counter + 1;
    }
    assert AllTaken(users, base, counter - 1);
  }

  // ---------------------------------------------------------------------
  // createOAuth2User

  /** `name.split(" ", 2)` into first and last name; a missing name is "Unknown User". */
  function OAuth2Names(name: Option<string>): (r: (string, string))
    ensures name.None? ==> r == ("Unknown", "User")
    ensures name.Some? ==> ' ' !in r.0
    ensures name.Some? && ' ' in name.value ==> name.value == r.0 + " " + r.1
    ensures name.Some? && ' ' !in name.value ==> r == (name.value, "")
  {
    match name
    case None => ("Unknown", "User")
    case Some(n) =>
      var parts := SplitFirstSpace(n);
      (parts.0, if parts.1.Some? then parts.1.value else "")
  }

  /** A new OAuth2 account: enabled, linked to the provider, holding ROLE_CONTRACTOR. */
  function NewOAuth2User(username: string, email: string, name: Option<string>, providerId: Option<string>,
                         provider: AuthProvider, encoded: string): User
  {
    var names := OAuth2Names(name);
    User(username, email, encoded, names.0, names.1, provider, providerId, true, {RoleName(RoleContractor)}, None)
  }

  /** An existing account relinked to the provider. */
  function Linked(u: User, provider: AuthProvider, providerId: Option<string>): User
  {
    u.(provider := provider, providerId := providerId)
  }

  /** A new local account: enabled, holding ROLE_DEVELOPER. */
  function NewLocalUser(reg: Registration, encoded: string): User
  {
    User(reg.username, reg.email, encoded, reg.firstName, reg.lastName, Local, None, true, {RoleName(RoleDeveloper)}, None)
  }

  /** What the two kinds of new account promise: the provider, enabled, and exactly one role. */
  lemma NewAccountsPromise(reg: Registration, encoded: string, username: string, email: string, name: Option<string>,
                           providerId: Option<string>, provider: AuthProvider)
    ensures NewLocalUser(reg, encoded).provider == Local && NewLocalUser(reg, encoded).enabled
    ensures forall n :: HasRole(NewLocalUser(reg, encoded), n) <==> n == RoleName(RoleDeveloper)
    ensures NewOAuth2User(username, email, name, providerId, provider, encoded).provider == provider
    ensures NewOAuth2User(username, email, name, providerId, provider, encoded).providerId == providerId
    ensures NewOAuth2User(username, email, name, providerId, provider, encoded).enabled
    ensures forall n :: HasRole(NewOAuth2User(username, email, name, providerId, provider, encoded), n) <==> n == RoleName(RoleContractor)
    ensures forall n :: !HasRole(NewOAuth2User(username, email, name, providerId, provider, encoded), n) || n != AdminRoleName
  {
  }

  /** A user saved under a fresh id with a free username keeps usernames unique and references valid. */
  lemma UserAddedKeepsStore(users: map<Id, User>, roles: map<Id, Role>, id: Id, u: User)
    requires id !in users
    requires UserRepository.UniqueUsernames(users) && RolesReferenced(users, roles)
    requires !UserRepository.ExistsByUsername(users, u.username)
    requires forall n :: n in u.roles ==> UserRepository.ExistsRoleByName(roles, n)
    ensures UserRepository.UniqueUsernames(users[id := u])
    ensures RolesReferenced(users[id := u], roles)
  {
  }

  /** Relinking an account to a provider keeps usernames unique and references valid. */
  lemma LinkedKeepsStore(users: map<Id, User>, roles: map<Id, Role>, id: Id, provider: AuthProvider,
                         providerId: Option<string>)
    requires id in users
    requires UserRepository.UniqueUsernames(users) && RolesReferenced(users, roles)
    ensures UserRepository.UniqueUsernames(users[id := Linked(users[id], provider, providerId)])
    ensures RolesReferenced(users[id := Linked(users[id], provider, providerId)], roles)
  {
  }

  /** Setting a last login keeps usernames unique and references valid. */
  lemma LastLoginKeepsStore(users: map<Id, User>, roles: map<Id, Role>, id: Id, t: Time)
    requires UserRepository.UniqueUsernames(users) && RolesReferenced(users, roles)
    ensures UserRepository.UniqueUsernames(UserRepository.WithLastLogin(users, id, t).0)
    ensures RolesReferenced(UserRepository.WithLastLogin(users, id, t).0, roles)
  {
  }

  /** The outcome of `authenticationManager.authenticate`: the principal's id, or the failure's message. */
  datatype AuthOutcome = Authenticated(userId: Id) | AuthFailed(reason: string)

  class AuthService {
    const db: Database
    const audit: AuditLogService

    constructor(db: Database, audit: AuditLogService)
      ensures this.db == db && this.audit == audit
    {
      this.db := db;
      this.audit := audit;
    }

    ghost predicate Valid()
      reads db, audit.store
    {
      db.Valid() && audit.store.Valid()
    }

    /** `getOrCreateRole`: the role of that name, saved first if there is none. */
    method GetOrCreateRole(rt: RoleType) returns (id: Id)
      requires db.Valid()
      modifies db`roles, db`nextRoleId
      ensures db.Valid()
      ensures db.roles == WithRole(old(db.roles), old(db.nextRoleId), rt)
      ensures id in db.roles && db.roles[id].name == RoleName(rt)
      ensures UserRepository.ExistsRoleByName(old(db.roles), RoleName(rt)) ==> unchanged(db)
      ensures forall n :: UserRepository.ExistsRoleByName(old(db.roles), n) ==> UserRepository.ExistsRoleByName(db.roles, n)
    {
      var found := UserRepository.FindRoleByName(db.roles, RoleName(rt));
      if found.value.Some? {
        return found.value.value;
      }
      var role := Role(RoleName(rt), RoleDescription(rt));
      RoleAddedKeepsStore(db.users, db.roles, db.nextRoleId, role);
      id := db.InsertRole(role);
    }

    /** `registerUser`: username and e-mail must be free, checked in that order. */
    method RegisterUser(reg: Registration, actor: Option<string>, encode: string -> string, now: Time)
      returns (r: Result<UserView>)
      requires Valid()
      modifies db`users, db`nextUserId, db`roles, db`nextRoleId, audit.store
      ensures Valid()
      ensures r.Err? <==> (UserRepository.ExistsByUsername(old(db.users), reg.username) ||
                           UserRepository.ExistsByEmail(old(db.users), reg.email))
      ensures r.Err? ==> unchanged(db) && unchanged(audit.store)
      ensures r.Err? ==> (r.error ==
        if UserRepository.ExistsByUsername(old(db.users), reg.username) then DuplicateUsername else DuplicateEmail)
      ensures r.Ok? ==> db.users == old(db.users)[old(db.nextUserId) := NewLocalUser(reg, encode(reg.password))]
      ensures r.Ok? ==> db.roles == WithRole(old(db.roles), old(db.nextRoleId), RoleDeveloper)
      ensures r.Ok? ==> r.value == ViewUser(old(db.nextUserId), NewLocalUser(reg, encode(reg.password)))
      ensures r.Ok? ==> LoggedOnce(audit.store,
        NewAuditLog(Create, DeveloperEntity, Some(old(db.nextUserId)), Some(ActorOr(actor, "SYSTEM")),
                    UserData(AuditUser(old(db.nextUserId), NewLocalUser(reg, encode(reg.password)))), now))
    {
      if UserRepository.ExistsByUsername(db.users, reg.username) {
        return Err(DuplicateUsername);
      }
      if UserRepository.ExistsByEmail(db.users, reg.email) {
        return Err(DuplicateEmail);
      }
      var u := NewLocalUser(reg, encode(reg.password));
      var id := SaveLocalUser(u);
      audit.LogAction(Create, DeveloperEntity, Some(id), Some(ActorOr(actor, "SYSTEM")), UserData(AuditUser(id, u)), now);
      r := Ok(ViewUser(id, u));
    }

    /** The writes of `registerUser`: the developer role is made sure of, then the account saved. */
    method SaveLocalUser(u: User) returns (id: Id)
      requires db.Valid()
      requires !UserRepository.ExistsByUsername(db.users, u.username)
      requires forall n :: n in u.roles ==> n == RoleName(RoleDeveloper)
      modifies db`users, db`nextUserId, db`roles, db`nextRoleId
      ensures db.Valid()
      ensures id == old(db.nextUserId)
      ensures db.users == old(db.users)[id := u]
      ensures db.roles == WithRole(old(db.roles), old(db.nextRoleId), RoleDeveloper)
    {
      var roleId := GetOrCreateRole(RoleDeveloper);
      assert UserRepository.ExistsRoleByName(db.roles, RoleName(RoleDeveloper));
      UserAddedKeepsStore(db.users, db.roles, db.nextUserId, u);
      id := db.InsertUser(u);
    }

    /**
     * `loginUser`: on success the last login is set and a LOGIN_SUCCESS entry
     * is written; on failure a LOGIN_FAILED entry without entity id is
     * written before BadCredentialsException. The audit store is not part
     * of the transaction, so that entry stays. The token itself is not
     * modelled: the result is the id of the user it is issued for.
     */
    method LoginUser(usernameOrEmail: string, outcome: AuthOutcome, actor: Option<string>, now: Time)
      returns (r: Result<Id>)
      requires Valid()
      requires outcome.Authenticated? ==> outcome.userId in db.users
      modifies db`users, audit.store
      ensures Valid()
      ensures r.Err? <==> outcome.AuthFailed?
      ensures r.Err? ==> r.error == BadCredentials && unchanged(db)
      ensures r.Err? ==> LoggedOnce(audit.store,
        NewAuditLog(Update, DeveloperEntity, None, Some(ActorOr(actor, "ANONYMOUS")),
                    LoginFailed(usernameOrEmail, outcome.reason, now), now))
      ensures r.Ok? ==> r.value == outcome.userId
      ensures r.Ok? ==> db.users == old(db.users)[r.value := old(db.users)[r.value].(lastLogin := Some(now))]
      ensures r.Ok? ==> LoggedOnce(audit.store,
        NewAuditLog(Update, DeveloperEntity, Some(r.value), Some(ActorOr(actor, old(db.users)[r.value].username)),
                    LoginSuccess(old(db.users)[r.value].username, now, old(db.users)[r.value].provider), now))
    {
      if outcome.AuthFailed? {
        audit.LogAction(Update, DeveloperEntity, None, Some(ActorOr(actor, "ANONYMOUS")),
                        LoginFailed(usernameOrEmail, outcome.reason, now), now);
        return Err(BadCredentials);
      }
      var id := outcome.userId;
      var u := db.users[id];
      var count := db.UpdateLastLogin(id, now);
      audit.LogAction(Update, DeveloperEntity, Some(id), Some(ActorOr(actor, u.username)),
                      LoginSuccess(u.username, now, u.provider), now);
      r := Ok(id);
    }

    /**
     * `createOAuth2User`: the account for a provider login with no match.
     * Splitting the e-mail fails before anything is written.
     */
    method CreateOAuth2User(email: string, name: Option<string>, providerId: Option<string>, provider: AuthProvider,
                            encoded: string) returns (r: Result<User>)
      requires db.Valid()
      modifies db`roles, db`nextRoleId
      ensures db.Valid()
      ensures r.Err? <==> BeforeFirstAt(email).Err?
      ensures r.Err? ==> r.error == IndexOutOfBounds && unchanged(db)
      ensures r.Ok? ==> db.roles == WithRole(old(db.roles), old(db.nextRoleId), RoleContractor)
      ensures r.Ok? ==> FirstFreeCandidate(db.users, BeforeFirstAt(email).value, r.value.username)
      ensures r.Ok? ==> r.value == NewOAuth2User(r.value.username, email, name, providerId, provider, encoded)
      ensures r.Ok? ==> UserRepository.ExistsRoleByName(db.roles, RoleName(RoleContractor))
    {
      var base := BeforeFirstAt(email);
      if base.Err? {
        return Err(IndexOutOfBounds);
      }
      var username := GenerateUniqueUsername(db.users, base.value);
      var roleId := GetOrCreateRole(RoleContractor);
      r := Ok(NewOAuth2User(username, email, name, providerId, provider, encoded));
    }

    /**
     * `getOrCreateOAuth2User`: the account linked to (provider, providerId);
     * else the account with the e-mail, relinked to the provider; else a new
     * account. The account's last login is then set.
     */
    method GetOrCreateOAuth2User(email: string, name: Option<string>, providerId: Option<string>, provider: AuthProvider,
                                 encoded: string, now: Time) returns (r: Result<Id>)
      requires db.Valid()
      modifies db`users, db`nextUserId, db`roles, db`nextRoleId
      ensures db.Valid()
      ensures var res := OAuth2Account(old(db.users), old(db.roles), old(db.nextUserId), old(db.nextRoleId),
                                       email, name, providerId, provider, encoded);
        && (r.Err? <==> res.Err?)
        && (r.Err? ==> r.error == res.error && unchanged(db))
        && (r.Ok? ==> r.value == res.value.0 && db.roles == res.value.2 &&
                      db.users == res.value.1[r.value := res.value.1[r.value].(lastLogin := Some(now))])
    {
      r := SettleOAuth2Account(email, name, providerId, provider, encoded);
      if r.Ok? {
        LastLoginKeepsStore(db.users, db.roles, r.value, now);
        ghost var settled := db.users;
        var count := db.UpdateLastLogin(r.value, now);
        assert db.users == settled[r.value := settled[r.value].(lastLogin := Some(now))];
      }
    }

    /** The lookups and the link or save of `getOrCreateOAuth2User`, before the last login is set. */
    method SettleOAuth2Account(email: string, name: Option<string>, providerId: Option<string>, provider: AuthProvider,
                               encoded: string) returns (r: Result<Id>)
      requires db.Valid()
      modifies db`users, db`nextUserId, db`roles, db`nextRoleId
      ensures db.Valid()
      ensures var res := OAuth2Account(old(db.users), old(db.roles), old(db.nextUserId), old(db.nextRoleId),
                                       email, name, providerId, provider, encoded);
        && (r.Err? <==> res.Err?)
        && (r.Err? ==> r.error == res.error && unchanged(db))
        && (r.Ok? ==> r.value == res.value.0 && db.roles == res.value.2 && db.users == res.value.1)
    {
      ghost var acc := OAuth2Account(db.users, db.roles, db.nextUserId, db.nextRoleId,
                                     email, name, providerId, provider, encoded);
      var byProvider := UserRepository.FindByProviderAndProviderId(db.users, provider, providerId);
      if byProvider.Err? {
        assert acc == Err(byProvider.error);
        return Err(byProvider.error);
      }
      if byProvider.value.Some? {
        assert acc == Ok((byProvider.value.value, db.users, db.roles));
        return Ok(byProvider.value.value);
      }
      var byEmail := UserRepository.FindByEmail(db.users, email);
      if byEmail.Err? {
        assert acc == Err(byEmail.error);
        return Err(byEmail.error);
      }
      if byEmail.value.Some? {
        var id := byEmail.value.value;
        assert acc == Ok((id, db.users[id := Linked(db.users[id], provider, providerId)], db.roles));
        LinkOAuth2Account(id, provider, providerId);
        return Ok(id);
      }
      assert BeforeFirstAt(email).Err? ==> acc == Err(BeforeFirstAt(email).error);
      r := SaveNewOAuth2User(email, name, providerId, provider, encoded);
    }

    /** The e-mail branch: the account found by e-mail is relinked to the provider. */
    method LinkOAuth2Account(id: Id, provider: AuthProvider, providerId: Option<string>)
      requires db.Valid() && id in db.users
      modifies db`users
      ensures db.Valid()
      ensures db.users == old(db.users)[id := Linked(old(db.users)[id], provider, providerId)]
    {
      LinkedKeepsStore(db.users, db.roles, id, provider, providerId);
      db.users := db.users[id := Linked(db.users[id], provider, providerId)];
    }

    /** The new-account branch: `createOAuth2User`, then save. */
    method SaveNewOAuth2User(email: string, name: Option<string>, providerId: Option<string>, provider: AuthProvider,
                             encoded: string) returns (r: Result<Id>)
      requires db.Valid()
      modifies db`users, db`nextUserId, db`roles, db`nextRoleId
      ensures db.Valid()
      ensures r.Err? <==> BeforeFirstAt(email).Err?
      ensures r.Err? ==> r.error == IndexOutOfBounds && unchanged(db)
      ensures r.Ok? ==> r.value == old(db.nextUserId) && db.roles == WithRole(old(db.roles), old(db.nextRoleId), RoleContractor)
      ensures r.Ok? ==> db.users == old(db.users)[r.value :=
        NewOAuth2User(FirstFree(old(db.users), BeforeFirstAt(email).value), email, name, providerId, provider, encoded)]
    {
      var created := CreateOAuth2User(email, name, providerId, provider, encoded);
      if created.Err? {
        return Err(created.error);
      }
      ghost var base := BeforeFirstAt(email).value;
      FirstFreeCandidateUnique(db.users, base, created.value.username, FirstFree(db.users, base));
      UserAddedKeepsStore(db.users, db.roles, db.nextUserId, created.value);
      var id := db.InsertUser(created.value);
      r := Ok(id);
    }

    /**
     * `changePassword`: the user must exist, the current password must
     * match and the confirmation must equal the new password, checked in
     * that order.
     */
    method ChangePassword(userId: Id, pc: PasswordChange, matches: (string, string) -> bool, encode: string -> string,
                          actor: Option<string>, now: Time) returns (r: Result<()>)
      requires Valid()
      modifies db`users, audit.store
      ensures Valid()
      ensures r.Err? <==> (userId !in old(db.users) || !matches(pc.currentPassword, old(db.users)[userId].password) ||
                           pc.newPassword != pc.confirmPassword)
      ensures r.Err? ==> unchanged(db) && unchanged(audit.store)
      ensures r.Err? ==> (r.error ==
        if userId !in old(db.users) then NotFound
        else if !matches(pc.currentPassword, old(db.users)[userId].password) then BadCredentials
        else PasswordMismatch)
      ensures r.Ok? ==> db.users == old(db.users)[userId := old(db.users)[userId].(password := encode(pc.newPassword))]
      ensures r.Ok? ==> LoggedOnce(audit.store,
        NewAuditLog(Update, DeveloperEntity, Some(userId), actor, PasswordChanged(userId, now), now))
    {
      if userId !in db.users {
        return Err(NotFound);
      }
      var u := db.users[userId];
      if !matches(pc.currentPassword, u.password) {
        return Err(BadCredentials);
      }
      if pc.newPassword != pc.confirmPassword {
        return Err(PasswordMismatch);
      }
      db.users := db.users[userId := u.(password := encode(pc.newPassword))];
      audit.LogAction(Update, DeveloperEntity, Some(userId), actor, PasswordChanged(userId, now), now);
      r := Ok(());
    }
  }

  /**
   * The account `getOrCreateOAuth2User` settles on, with the user and role
   * tables before the last login is set: the account linked to (provider,
   * providerId); else the account with the e-mail, relinked; else a new
   * account under the next id with the first free username.
   */
  ghost function OAuth2Account(users: map<Id, User>, roles: map<Id, Role>, nextUserId: nat, nextRoleId: nat,
                               email: string, name: Option<string>, providerId: Option<string>, provider: AuthProvider,
                               encoded: string): Result<(Id, map<Id, User>, map<Id, Role>)>
  {
    match UserRepository.FindByProviderAndProviderId(users, provider, providerId)
    case Err(e) => Err(e)
    case Ok(Some(k)) => Ok((k, users, roles))
    case Ok(None) =>
      match UserRepository.FindByEmail(users, email)
      case Err(e) => Err(e)
      case Ok(Some(k)) => Ok((k, users[k := Linked(users[k], provider, providerId)], roles))
      case Ok(None) =>
        match BeforeFirstAt(email)
        case Err(e) => Err(e)
        case Ok(base) =>
          Ok((nextUserId, users[nextUserId := NewOAuth2User(FirstFree(users, base), email, name, providerId, provider, encoded)],
              WithRole(roles, nextRoleId, RoleContractor)))
  }

  /** The first free candidate, which the loop of `generateUniqueUsername` finds. */
  ghost function FirstFree(users: map<Id, User>, base: string): (u: string)
    ensures FirstFreeCandidate(users, base, u)
  {
    assert CandidatesBelow(base, 0) == {};
    FreeCandidateFrom(users, base, 0);
    var u :| FirstFreeCandidate(users, base, u); u
  }

  /** From any attempt on, a free name is found. */
  lemma {:induction false} FreeCandidateFrom(users: map<Id, User>, base: string, i: nat)
    requires AllTaken(users, base, i) && CandidatesBelow(base, i) <= Usernames(users)
    ensures exists u :: FirstFreeCandidate(users, base, u)
    decreases |Usernames(users) - CandidatesBelow(base, i)|
  {
    if UserRepository.ExistsByUsername(users, Candidate(base, i)) {
      CandidateStep(users, base, i);
      FreeCandidateFrom(users, base, i + 1);
    } else {
      assert FirstFreeCandidate(users, base, Candidate(base, i));
    }
  }

  /**
   * The settled account is stored and is the only row that changes; a new
   * account has a username no one else holds and holds only
   * ROLE_CONTRACTOR; an existing account keeps its username. Usernames stay
   * unique.
   */
  ghost predicate AccountSettled(users: map<Id, User>, res: (Id, map<Id, User>, map<Id, Role>))
  {
    && res.0 in res.1
    && res.1.Keys == users.Keys + {res.0}
    && (forall k :: k in users && k != res.0 ==> res.1[k] == users[k])
    && (res.0 !in users ==> forall n :: HasRole(res.1[res.0], n) <==> n == RoleName(RoleContractor))
    && (res.0 !in users ==> !UserRepository.ExistsByUsername(users, res.1[res.0].username))
    && (res.0 in users ==> res.1[res.0].username == users[res.0].username)
    && UserRepository.UniqueUsernames(res.1)
  }

  /** Whichever branch `getOrCreateOAuth2User` takes, the account is settled as `AccountSettled` says. */
  lemma OAuth2AccountEffect(users: map<Id, User>, roles: map<Id, Role>, nextUserId: nat, nextRoleId: nat,
                            email: string, name: Option<string>, providerId: Option<string>, provider: AuthProvider,
                            encoded: string)
    requires KeysBelow(users, nextUserId) && UserRepository.UniqueUsernames(users)
    requires OAuth2Account(users, roles, nextUserId, nextRoleId, email, name, providerId, provider, encoded).Ok?
    ensures AccountSettled(users, OAuth2Account(users, roles, nextUserId, nextRoleId, email, name, providerId, provider, encoded).value)
  {
    var res := OAuth2Account(users, roles, nextUserId, nextRoleId, email, name, providerId, provider, encoded).value;
    match UserRepository.FindByProviderAndProviderId(users, provider, providerId)
    case Ok(Some(k)) =>
      assert res == (k, users, roles);
      ExistingAccountSettled(users, roles, k);
    case Ok(None) =>
      match UserRepository.FindByEmail(users, email)
      case Ok(Some(k)) =>
        assert res == (k, users[k := Linked(users[k], provider, providerId)], roles);
        RelinkedAccountSettled(users, roles, k, provider, providerId);
      case Ok(None) =>
        var u := NewOAuth2User(FirstFree(users, BeforeFirstAt(email).value), email, name, providerId, provider, encoded);
        assert res == (nextUserId, users[nextUserId := u], WithRole(roles, nextRoleId, RoleContractor));
        NewAccountSettled(users, WithRole(roles, nextRoleId, RoleContractor), nextUserId, u);
  }

  lemma ExistingAccountSettled(users: map<Id, User>, roles: map<Id, Role>, k: Id)
    requires k in users && UserRepository.UniqueUsernames(users)
    ensures AccountSettled(users, (k, users, roles))
  {
  }

  lemma RelinkedAccountSettled(users: map<Id, User>, roles: map<Id, Role>, k: Id, provider: AuthProvider,
                               providerId: Option<string>)
    requires k in users && UserRepository.UniqueUsernames(users)
    ensures AccountSettled(users, (k, users[k := Linked(users[k], provider, providerId)], roles))
  {
  }

  lemma NewAccountSettled(users: map<Id, User>, roles: map<Id, Role>, id: Id, u: User)
    requires KeysBelow(users, id) && UserRepository.UniqueUsernames(users)
    requires !UserRepository.ExistsByUsername(users, u.username)
    requires forall n :: HasRole(u, n) <==> n == RoleName(RoleContractor)
    ensures AccountSettled(users, (id, users[id := u], roles))
  {
    assert id !in users;
  }

}
