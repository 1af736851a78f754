// `RoleInitializationService`: the start-up runner that seeds one role per
// role type and a default administrator. The password encoder is an oracle
// (a function parameter); the `@Value` settings are fields set by the
// constructor, with the configured defaults as constants.
module RoleInitialization {
  import opened Common
  import opened Domain
  import opened Store
  import UserRepository
  import AuthServices

  /** The defaults of `app.admin.username`, `app.admin.email` and `app.admin.password`. */
  const DefaultAdminUsername: string := "admin"
  const DefaultAdminEmail: string := "admin@projecttracker.com"
  const DefaultAdminPassword: string := "admin123"

  /** One round of `initializeRoles`: the role of the type is saved under the next id unless its name exists. */
  function SeedOne(st: (map<Id, Role>, nat), rt: RoleType): (map<Id, Role>, nat)
  {
    if UserRepository.ExistsRoleByName(st.0, RoleName(rt)) then st
    else (AuthServices.WithRole(st.0, st.1, rt), st.1 + 1)
  }

  /** The role table and next role id after seeding the given role types in order. */
  function SeedRoles(roles: map<Id, Role>, nextId: nat, rts: seq<RoleType>): (map<Id, Role>, nat)
    decreases |rts|
  {
    if rts == [] then (roles, nextId)
    else SeedOne(SeedRoles(roles, nextId, rts[..|rts| - 1]), rts[|rts| - 1])
  }

  /**
   * After seeding, every seeded type's name exists, every role that existed
   * is still there with the same name and description, and new roles sit
   * only under fresh ids.
   */
  lemma {:induction false} SeedRolesEffect(roles: map<Id, Role>, nextId: nat, rts: seq<RoleType>)
    requires KeysBelow(roles, nextId)
    ensures KeysBelow(SeedRoles(roles, nextId, rts).0, SeedRoles(roles, nextId, rts).1)
    ensures forall i :: 0 <= i < |rts| ==> UserRepository.ExistsRoleByName(SeedRoles(roles, nextId, rts).0, RoleName(rts[i]))
    ensures forall k :: k in roles ==> k in SeedRoles(roles, nextId, rts).0 && SeedRoles(roles, nextId, rts).0[k] == roles[k]
    ensures nextId <= SeedRoles(roles, nextId, rts).1
    decreases |rts|
  {
    if rts != [] {
      var init := rts[..|rts| - 1];
      SeedRolesEffect(roles, nextId, init);
      var st := SeedRoles(roles, nextId, init);
      var rt := rts[|rts| - 1];
      var res := SeedOne(st, rt);
      assert res == SeedRoles(roles, nextId, rts);
      forall i | 0 <= i < |rts|
        ensures UserRepository.ExistsRoleByName(res.0, RoleName(rts[i]))
      {
        if i < |rts| - 1 {
          assert rts[i] == init[i];
          var k :| k in st.0 && st.0[k].name == RoleName(rts[i]);
          assert res.0[k] == st.0[k];
        }
      }
    }
  }

  /** Seeding types whose names all exist changes nothing. */
  lemma {:induction false} SeedRolesIdempotent(roles: map<Id, Role>, nextId: nat, rts: seq<RoleType>)
    requires forall i :: 0 <= i < |rts| ==> UserRepository.ExistsRoleByName(roles, RoleName(rts[i]))
    ensures SeedRoles(roles, nextId, rts) == (roles, nextId)
    decreases |rts|
  {
    if rts != [] {
      SeedRolesIdempotent(roles, nextId, rts[..|rts| - 1]);
    }
  }

  /** A second `initializeRoles` creates nothing. */
  lemma SeedRolesTwice(roles: map<Id, Role>, nextId: nat, rts: seq<RoleType>)
    requires KeysBelow(roles, nextId)
    ensures SeedRoles(SeedRoles(roles, nextId, rts).0, SeedRoles(roles, nextId, rts).1, rts) == SeedRoles(roles, nextId, rts)
  {
    SeedRolesEffect(roles, nextId, rts);
    var st := SeedRoles(roles, nextId, rts);
    SeedRolesIdempotent(st.0, st.1, rts);
  }

  /** The administrator `initializeDefaultAdmin` saves. */
  function DefaultAdmin(username: string, email: string, encodedPassword: string): (u: User)
    ensures u.username == username && u.email == email && u.password == encodedPassword
    ensures u.provider == Local && u.enabled && u.lastLogin.None? && u.providerId.None?
    ensures forall n :: HasRole(u, n) <==> n == RoleName(RoleAdmin)
  {
    User(username, email, encodedPassword, "System", "Administrator", Local, None, true, {RoleName(RoleAdmin)}, None)
  }

  class RoleInitializationService {
    const db: Database
    const adminUsername: string
    const adminEmail: string
    const adminPassword: string

    constructor(db: Database, adminUsername: string, adminEmail: string, adminPassword: string)
      ensures this.db == db && this.adminUsername == adminUsername
      ensures this.adminEmail == adminEmail && this.adminPassword == adminPassword
    {
      this.db := db;
      this.adminUsername := adminUsername;
      this.adminEmail := adminEmail;
      this.adminPassword := adminPassword;
    }

    /** `initializeRoles`: one pass over `RoleType.values()`, saving each role whose name is missing. */
    method InitializeRoles()
      requires db.Valid()
      modifies db`roles, db`nextRoleId
      ensures db.Valid()
      ensures (db.roles, db.nextRoleId) == SeedRoles(old(db.roles), old(db.nextRoleId), AllRoleTypes)
    {
      ghost var roles0, next0 := db.roles, db.nextRoleId;
      var i := 0;
      while i < |AllRoleTypes|
        invariant 0 <= i <= |AllRoleTypes|
        invariant db.Valid()
        invariant (db.roles, db.nextRoleId) == SeedRoles(roles0, next0, AllRoleTypes[..i])
      {
        assert AllRoleTypes[..i + 1][..i] == AllRoleTypes[..i];
        SeedRole(AllRoleTypes[i]);
        i := i + 1;
      }
      assert AllRoleTypes[..i] == AllRoleTypes;
    }

    /** One round of the loop in `initializeRoles`. */
    method SeedRole(rt: RoleType)
      requires db.Valid()
      modifies db`roles, db`nextRoleId
      ensures db.Valid()
      ensures (db.roles, db.nextRoleId) == SeedOne((old(db.roles), old(db.nextRoleId)), rt)
    {
      if !UserRepository.ExistsRoleByName(db.roles, RoleName(rt)) {
        var role := Role(RoleName(rt), RoleDescription(rt));
        AuthServices.RoleAddedKeepsStore(db.users, db.roles, db.nextRoleId, role);
        var id := db.InsertRole(role);
      }
    }

    /**
     * `initializeDefaultAdmin`: when no user has the configured username, an
     * enabled local administrator holding the admin role is saved; a missing
     * admin role is "Admin role not found".
     */
    method InitializeDefaultAdmin(encode: string -> string) returns (r: Result<()>)
      requires db.Valid()
      modifies db`users, db`nextUserId
      ensures db.Valid()
      ensures UserRepository.ExistsByUsername(old(db.users), adminUsername) ==> r.Ok? && unchanged(db)
      ensures !UserRepository.ExistsByUsername(old(db.users), adminUsername) &&
              !UserRepository.ExistsRoleByName(db.roles, RoleName(RoleAdmin)) ==>
              r == Err(AdminRoleMissing) && unchanged(db)
      ensures !UserRepository.ExistsByUsername(old(db.users), adminUsername) &&
              UserRepository.ExistsRoleByName(db.roles, RoleName(RoleAdmin)) ==>
              r.Ok? && db.users == old(db.users)[old(db.nextUserId) := DefaultAdmin(adminUsername, adminEmail, encode(adminPassword))]
    {
      if UserRepository.ExistsByUsername(db.users, adminUsername) {
        return Ok(());
      }
      var found := UserRepository.FindRoleByName(db.roles, RoleName(RoleAdmin));
      if found.value.None? {
        return Err(AdminRoleMissing);
      }
      var admin := DefaultAdmin(adminUsername, adminEmail, encode(adminPassword));
      AuthServices.UserAddedKeepsStore(db.users, db.roles, db.nextUserId, admin);
      var id := db.InsertUser(admin);
      r := Ok(());
    }

    /** `run`: roles first, then the administrator, so the admin role is always found. */
    method Run(encode: string -> string) returns (r: Result<()>)
      requires db.Valid()
      modifies db`roles, db`nextRoleId, db`users, db`nextUserId
      ensures db.Valid()
      ensures r.Ok?
      ensures (db.roles, db.nextRoleId) == SeedRoles(old(db.roles), old(db.nextRoleId), AllRoleTypes)
      ensures UserRepository.ExistsByUsername(old(db.users), adminUsername) ==> db.users == old(db.users)
      ensures !UserRepository.ExistsByUsername(old(db.users), adminUsername) ==>
              db.users == old(db.users)[old(db.nextUserId) := DefaultAdmin(adminUsername, adminEmail, encode(adminPassword))]
    {
      InitializeRoles();
      SeedRolesEffect(old(db.roles), old(db.nextRoleId), AllRoleTypes);
      assert AllRoleTypes[0] == RoleAdmin;
      r := InitializeDefaultAdmin(encode);
    }
  }
}
