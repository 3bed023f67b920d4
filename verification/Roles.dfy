/**
 Role names, permissions, and the migration that renames the roles `reader` and
 `super_admin` in the assignment table. Letters outside ASCII have no lower case here.
 */
module Roles {
  import opened Wrappers
  import opened PythonText

  type Id = string
  type Permission = string

  // ---------- role names ----------

  function LowerChar(c: char): char { if 'A' <= c <= 'Z' then (c as int + 32) as char else c }

  function Lower(s: string): string { if s == "" then "" else [LowerChar(s[0])] + Lower(s[1..]) }

  /** Each letter becomes its lower-case one, and nothing else changes. */
  lemma {:induction false} LowerSpec(s: string)
    ensures |Lower(s)| == |s|
    ensures forall i | 0 <= i < |s| ::
              if 'A' <= s[i] <= 'Z' then 'a' <= Lower(s)[i] <= 'z' && Lower(s)[i] - 'a' == s[i] - 'A'
              else Lower(s)[i] == s[i]
  {
    if s != "" { LowerSpec(s[1..]); }
  }

  const ROLE_ALIASES: map<string, string> := map["reader" := "user", "super_admin" := "admin"]

  function Canonical(role: string): string {
    var normalized := Lower(Strip(role));
    if normalized in ROLE_ALIASES then ROLE_ALIASES[normalized] else normalized
  }

  // ---------- permissions ----------

  const SELF: set<Permission> := {"auth:login_self", "auth:refresh_self", "auth:logout_self"}

  const WORKSPACE: set<Permission> := {
    "documents:upload", "documents:read", "documents:delete", "documents:organization:basic", "collections:read",
    "collections:write", "queries:run", "providers:read", "providers:write", "providers:test", "providers:assign",
    "providers:oauth" }

  const ADMIN_ONLY: set<Permission> := {
    "documents:organization:admin", "deepspace:diagnostics", "admin:audit_logs:read", "admin:break_glass:write",
    "admin:data_deletions:write", "admin:data_deletions:approve", "admin:data_deletions:read", "admin:support:read",
    "admin:support:write", "admin:feedback:read", "admin:feedback:write", "admin:metrics:read", "admin:users:read",
    "admin:users:disable", "admin:users:reactivate", "admin:users:logout", "admin:users:delete", "mcp:catalog:manage" }

  function PermissionsByRole(role: string): set<Permission> {
    if role == "admin" || role == "super_admin" then SELF + WORKSPACE + ADMIN_ONLY + {"documents:organization:advanced"}
    else if role == "support_manager" || role == "feedback_manager" then SELF
    else if role == "collection_moderator" then SELF + {"collections:moderation:read", "collections:moderation:write"}
    else if role == "editor" then SELF + WORKSPACE + {"documents:organization:advanced"}
    else if role == "user" || role == "reader" || role == "member" then SELF + WORKSPACE
    else if role == "service" then {"documents:upload", "documents:read", "queries:run"}
    else {}
  }

  /** What a role gives, through the loop of `resolve_permissions`. */
  function RolePermissions(role: string): set<Permission> { PermissionsByRole(Canonical(role)) }

  function Resolved(roles: set<string>, direct: set<Permission>): set<Permission> {
    direct + set r, p | r in roles && p in RolePermissions(r) :: p
  }

  method ResolvePermissions(roles: set<string>, direct: Option<set<Permission>>) returns (permissions: set<Permission>)
    ensures permissions == Resolved(roles, if direct.Some? then direct.value else {})
  {
    permissions := {};
    var todo := roles;
    while todo != {}
      invariant todo <= roles && permissions == Resolved(roles - todo, {})
    {
      var role :| role in todo;
      OneMoreRole(roles - todo, role);
      assert roles - todo + {role} == roles - (todo - {role});
      permissions := permissions + RolePermissions(role);
      todo := todo - {role};
    }
    assert roles - {} == roles;
    if direct.Some? { permissions := permissions + direct.value; }
  }

  lemma OneMoreRole(roles: set<string>, role: string)
    ensures Resolved(roles + {role}, {}) == Resolved(roles, {}) + RolePermissions(role)
  {
  }

  // ---------- the tables ----------

  datatype Role = Role(name: string, description: string)

  datatype Assignment = Assignment(tenant: Id, user: Id, role: Id)

  /** Role names are unique, and every assignment refers to a role. */
  datatype Tables = Tables(roles: map<Id, Role>, assignments: set<Assignment>) {
    ghost predicate Valid() {
      && (forall a, b | a in roles && b in roles && roles[a].name == roles[b].name :: a == b)
      && (forall a | a in assignments :: a.role in roles)
    }

    predicate HasRole(name: string) { exists r | r in roles :: roles[r].name == name }

    /** Who holds which role, by name. */
    function HeldRoles(): set<Held> {
      set a | a in assignments && a.role in roles :: Held(a.tenant, a.user, roles[a.role].name)
    }
  }

  datatype Held = Held(tenant: Id, user: Id, name: string)

  function NamesOf(held: set<Held>, tenant: Id, user: Id): set<string> {
    set h | h in held && h.tenant == tenant && h.user == user :: h.name
  }

  function Effective(held: set<Held>, tenant: Id, user: Id, direct: set<Permission>): set<Permission> {
    Resolved(NamesOf(held, tenant, user), direct)
  }

  // ---------- the statements ----------

  /** INSERT of a role under a new identifier, unless the name is taken. */
  function WithRole(roles: map<Id, Role>, id: Id, role: Role, overwrite: bool): map<Id, Role> {
    if exists r | r in roles :: roles[r].name == role.name then
      if overwrite then map r | r in roles :: if roles[r].name == role.name then role else roles[r] else roles
    else roles[id := role]
  }

  function Described(roles: map<Id, Role>, texts: map<string, string>): map<Id, Role> {
    map r | r in roles :: if roles[r].name in texts then roles[r].(description := texts[roles[r].name]) else roles[r]
  }

  /** The assignments that give the holder of a role named in `renames` the role with the new name, if there is one. */
  function Mapped(db: Tables, renames: map<string, string>): set<Assignment> {
    set a, r | a in db.assignments && r in db.roles && a.role in db.roles && db.roles[a.role].name in renames
               && db.roles[r].name == renames[db.roles[a.role].name] :: Assignment(a.tenant, a.user, r)
  }

  function Without(db: Tables, names: set<string>): Tables {
    Tables(map r | r in db.roles && db.roles[r].name !in names :: db.roles[r],
           set a | a in db.assignments && (a.role in db.roles ==> db.roles[a.role].name !in names))
  }

  /** The four role names that the migration is about; the proofs only need that they differ. */
  datatype Names = Names(user: string, reader: string, admin: string, superAdmin: string) {
    predicate Distinct() {
      && user != reader && user != admin && user != superAdmin
      && reader != admin && reader != superAdmin && admin != superAdmin
    }

    function Up(): map<string, string> { map[reader := user, superAdmin := admin] }

    function Down(): map<string, string> { map[user := reader, admin := superAdmin] }
  }

  const NAMES := Names("user", "reader", "admin", "super_admin")

  /** Descriptions: of three roles after each migration, by name, and of the roles that are added. */
  datatype Texts = Texts(up: map<string, string>, down: map<string, string>, user: string, reader: string,
                         superAdmin: string)

  const TEXTS := Texts(
    map["admin" := "Platform admin with full administrative permissions.",
        "editor" := "Can upload documents, manage collections, and configure providers.",
        "service" := "Machine identity for scoped service operations."],
    map["admin" := "Tenant administrator with full permissions.",
        "editor" := "Can upload documents and run queries.",
        "service" := "Machine identity for scoped service operations."],
    "Standard user who can read documents and run queries.",
    "Can run read-only knowledge queries.",
    "Bootstrap platform owner with full control.")

  function AddMapped(db: Tables, renames: map<string, string>): Tables {
    db.(assignments := db.assignments + Mapped(db, renames))
  }

  /** Adds the renamed roles, then drops the assignments and the roles with the old names. */
  function RenameDrop(db: Tables, renames: map<string, string>, names: set<string>): Tables {
    Without(AddMapped(db, renames), names)
  }

  function UpPrepared(n: Names, x: Texts, db: Tables, id: Id): Tables {
    db.(roles := Described(WithRole(db.roles, id, Role(n.user, x.user), true), x.up))
  }

  function DownPrepared(n: Names, x: Texts, db: Tables, id: Id, id2: Id): Tables {
    var one := WithRole(db.roles, id, Role(n.reader, x.reader), false);
    db.(roles := WithRole(one, id2, Role(n.superAdmin, x.superAdmin), false))
  }

  function Upgrade(n: Names, x: Texts, db: Tables, id: Id): Tables {
    RenameDrop(UpPrepared(n, x, db, id), n.Up(), {n.reader, n.superAdmin})
  }

  function Downgrade(n: Names, x: Texts, db: Tables, id: Id, id2: Id): Tables {
    var done := RenameDrop(DownPrepared(n, x, db, id, id2), n.Down(), {n.user});
    done.(roles := Described(done.roles, x.down))
  }

  // ---------- what each statement does to who holds what ----------

  /** The same role names under the same identifiers, and maybe more roles. */
  ghost predicate SameNames(a: map<Id, Role>, b: map<Id, Role>) {
    forall r | r in a :: r in b && b[r].name == a[r].name
  }

  lemma WithRoleSpec(db: Tables, id: Id, role: Role, overwrite: bool)
    requires db.Valid() && id !in db.roles
    ensures var after := db.(roles := WithRole(db.roles, id, role, overwrite));
      && after.Valid() && after.HasRole(role.name) && SameNames(db.roles, after.roles)
      && after.roles.Keys <= db.roles.Keys + {id}
      && forall name :: name != role.name ==> (after.HasRole(name) <==> db.HasRole(name))
  {
    var after := db.(roles := WithRole(db.roles, id, role, overwrite));
    if r :| r in db.roles && db.roles[r].name == role.name {
      assert after.roles[r].name == role.name;
    } else {
      assert after.roles[id] == role;
    }
    forall name | name != role.name ensures after.HasRole(name) <==> db.HasRole(name) {
      if r :| r in db.roles && db.roles[r].name == name { assert after.roles[r].name == name; }
    }
  }

  lemma DescribedSpec(db: Tables, texts: map<string, string>)
    requires db.Valid()
    ensures var after := db.(roles := Described(db.roles, texts));
      && after.Valid() && SameNames(db.roles, after.roles) && after.roles.Keys == db.roles.Keys
      && forall name :: after.HasRole(name) <==> db.HasRole(name)
  {
    var after := db.(roles := Described(db.roles, texts));
    forall name ensures after.HasRole(name) <==> db.HasRole(name) {
      if r :| r in db.roles && db.roles[r].name == name { assert after.roles[r].name == name; }
    }
  }

  /** New rows in the role table, or other descriptions, change nobody's roles. */
  lemma SameHeld(db: Tables, roles: map<Id, Role>)
    requires db.Valid() && SameNames(db.roles, roles)
    ensures db.(roles := roles).HeldRoles() == db.HeldRoles()
  {
  }

  /** The renamed roles that the mapping statement adds: those whose new name exists. */
  function Renamed(held: set<Held>, renames: map<string, string>, there: set<string>): set<Held> {
    set h | h in held && h.name in renames && renames[h.name] in there :: Held(h.tenant, h.user, renames[h.name])
  }

  function RoleNames(db: Tables): set<string> { set r | r in db.roles :: db.roles[r].name }

  lemma AddMappedHeld(db: Tables, renames: map<string, string>)
    requires db.Valid()
    ensures AddMapped(db, renames).Valid()
    ensures AddMapped(db, renames).HeldRoles() == db.HeldRoles() + Renamed(db.HeldRoles(), renames, RoleNames(db))
  {
    var after := AddMapped(db, renames);
    forall h | h in Renamed(db.HeldRoles(), renames, RoleNames(db)) ensures h in after.HeldRoles() {
      var g :| g in db.HeldRoles() && g.name in renames && renames[g.name] in RoleNames(db)
               && h == Held(g.tenant, g.user, renames[g.name]);
      var a :| a in db.assignments && a.role in db.roles && g == Held(a.tenant, a.user, db.roles[a.role].name);
      var r :| r in db.roles && db.roles[r].name == renames[g.name];
      assert Assignment(a.tenant, a.user, r) in after.assignments;
    }
    forall h | h in after.HeldRoles() ensures h in db.HeldRoles() + Renamed(db.HeldRoles(), renames, RoleNames(db)) {
      var b :| b in after.assignments && b.role in db.roles && h == Held(b.tenant, b.user, db.roles[b.role].name);
      if b !in db.assignments {
        var a, r :| a in db.assignments && r in db.roles && a.role in db.roles && db.roles[a.role].name in renames
                    && db.roles[r].name == renames[db.roles[a.role].name] && b == Assignment(a.tenant, a.user, r);
        assert Held(a.tenant, a.user, db.roles[a.role].name) in db.HeldRoles();
        assert db.roles[r].name in RoleNames(db);
      }
    }
  }

  function Dropped(held: set<Held>, names: set<string>): set<Held> { set h | h in held && h.name !in names }

  lemma WithoutHeld(db: Tables, names: set<string>)
    requires db.Valid()
    ensures Without(db, names).Valid()
    ensures Without(db, names).HeldRoles() == Dropped(db.HeldRoles(), names)
    ensures RoleNames(Without(db, names)) == RoleNames(db) - names
  {
    var after := Without(db, names);
    forall h | h in Dropped(db.HeldRoles(), names) ensures h in after.HeldRoles() {
      var a :| a in db.assignments && a.role in db.roles && h == Held(a.tenant, a.user, db.roles[a.role].name);
      assert a in after.assignments && after.roles[a.role] == db.roles[a.role];
    }
    forall m | m in RoleNames(db) - names ensures m in RoleNames(after) {
      var r :| r in db.roles && db.roles[r].name == m;
      assert after.roles[r].name == m;
    }
  }

  lemma RoleNamesAre(db: Tables, name: string)
    ensures name in RoleNames(db) <==> db.HasRole(name)
  {
  }

  // ---------- the two migrations, by role names ----------

  /** The upgrade by names: two roles are renamed, where the new one exists. */
  function HeldUp(n: Names, held: set<Held>, there: set<string>): set<Held> {
    Dropped(held + Renamed(held, n.Up(), there), {n.reader, n.superAdmin})
  }

  /** The downgrade by names. */
  function HeldDown(n: Names, held: set<Held>, there: set<string>): set<Held> {
    Dropped(held + Renamed(held, n.Down(), there), {n.user})
  }

  lemma UpgradeHeld(n: Names, x: Texts, db: Tables, id: Id)
    requires db.Valid() && id !in db.roles && n.Distinct()
    ensures Upgrade(n, x, db, id).Valid()
    ensures Upgrade(n, x, db, id).HeldRoles() == HeldUp(n, db.HeldRoles(), RoleNames(db) + {n.user})
    ensures RoleNames(Upgrade(n, x, db, id)) == RoleNames(db) + {n.user} - {n.reader, n.superAdmin}
  {
    var role := Role(n.user, x.user);
    var added := db.(roles := WithRole(db.roles, id, role, true));
    WithRoleSpec(db, id, role, true);
    DescribedSpec(added, x.up);
    var prepared := UpPrepared(n, x, db, id);
    SameHeld(db, prepared.roles);
    forall m ensures m in RoleNames(prepared) <==> m in RoleNames(db) + {n.user} {
      RoleNamesAre(prepared, m);
      RoleNamesAre(added, m);
      RoleNamesAre(db, m);
    }
    assert RoleNames(prepared) == RoleNames(db) + {n.user};
    AddMappedHeld(prepared, n.Up());
    WithoutHeld(AddMapped(prepared, n.Up()), {n.reader, n.superAdmin});
    assert RoleNames(AddMapped(prepared, n.Up())) == RoleNames(prepared);
  }

  lemma DownPreparedHeld(n: Names, x: Texts, db: Tables, id: Id, id2: Id)
    requires db.Valid() && id !in db.roles && id2 !in db.roles && id != id2 && n.Distinct()
    ensures var prepared := DownPrepared(n, x, db, id, id2);
      && prepared.Valid() && prepared.HeldRoles() == db.HeldRoles()
      && RoleNames(prepared) == RoleNames(db) + {n.reader, n.superAdmin}
  {
    var reader, super := Role(n.reader, x.reader), Role(n.superAdmin, x.superAdmin);
    var one := db.(roles := WithRole(db.roles, id, reader, false));
    WithRoleSpec(db, id, reader, false);
    WithRoleSpec(one, id2, super, false);
    var prepared := DownPrepared(n, x, db, id, id2);
    SameHeld(db, prepared.roles);
    forall m ensures m in RoleNames(prepared) <==> m in RoleNames(db) + {n.reader, n.superAdmin} {
      RoleNamesAre(prepared, m);
      RoleNamesAre(one, m);
      RoleNamesAre(db, m);
    }
    assert RoleNames(prepared) == RoleNames(db) + {n.reader, n.superAdmin};
  }

  lemma DowngradeHeld(n: Names, x: Texts, db: Tables, id: Id, id2: Id)
    requires db.Valid() && id !in db.roles && id2 !in db.roles && id != id2 && n.Distinct()
    ensures Downgrade(n, x, db, id, id2).Valid()
    ensures Downgrade(n, x, db, id, id2).HeldRoles() ==
            HeldDown(n, db.HeldRoles(), RoleNames(db) + {n.reader, n.superAdmin})
    ensures RoleNames(Downgrade(n, x, db, id, id2)) == RoleNames(db) + {n.reader, n.superAdmin} - {n.user}
  {
    var prepared := DownPrepared(n, x, db, id, id2);
    DownPreparedHeld(n, x, db, id, id2);
    AddMappedHeld(prepared, n.Down());
    var added := AddMapped(prepared, n.Down());
    assert RoleNames(added) == RoleNames(prepared);
    WithoutHeld(added, {n.user});
    var done := Without(added, {n.user});
    DescribedSpec(done, x.down);
    SameHeld(done, Described(done.roles, x.down));
    var after := done.(roles := Described(done.roles, x.down));
    forall m ensures m in RoleNames(after) <==> m in RoleNames(done) { RoleNamesAre(after, m); RoleNamesAre(done, m); }
    assert RoleNames(after) == RoleNames(done);
  }

  lemma RenamedExactly(held: set<Held>, renames: map<string, string>, there: set<string>, h: Held)
    ensures h in Renamed(held, renames, there) <==>
            h.name in there && exists m :: m in renames && renames[m] == h.name && Held(h.tenant, h.user, m) in held
  {
    if m :| m in renames && renames[m] == h.name && Held(h.tenant, h.user, m) in held {
      if h.name in there { assert Held(h.tenant, h.user, renames[m]) in Renamed(held, renames, there); }
    }
  }

  /** The role of the same user with another name. */
  function Other(h: Held, name: string): Held { Held(h.tenant, h.user, name) }

  lemma HeldUpExactly(n: Names, held: set<Held>, there: set<string>, h: Held)
    requires n.Distinct() && n.user in there
    ensures h in HeldUp(n, held, there) <==>
      if h.name == n.user then h in held || Other(h, n.reader) in held
      else if h.name == n.admin then h in held || (Other(h, n.superAdmin) in held && n.admin in there)
      else h.name != n.reader && h.name != n.superAdmin && h in held
  {
    RenamedExactly(held, n.Up(), there, h);
    assert n.Up()[n.reader] == n.user && n.Up()[n.superAdmin] == n.admin;
  }

  lemma HeldDownExactly(n: Names, held: set<Held>, there: set<string>, h: Held)
    requires n.Distinct() && n.reader in there && n.superAdmin in there
    ensures h in HeldDown(n, held, there) <==>
      if h.name == n.reader then h in held || Other(h, n.user) in held
      else if h.name == n.superAdmin then h in held || Other(h, n.admin) in held
      else h.name != n.user && h in held
  {
    RenamedExactly(held, n.Down(), there, h);
    assert n.Down()[n.user] == n.reader && n.Down()[n.admin] == n.superAdmin;
  }

  /**
   Who holds what after the upgrade: user if the user or reader role was held, admin if the admin role was, or if
   super_admin was and there is an admin role, any other role as before, and never one of the two old ones.
   */
  lemma UpgradeHoldsExactly(n: Names, x: Texts, db: Tables, id: Id, h: Held)
    requires db.Valid() && id !in db.roles && n.Distinct()
    ensures var held := db.HeldRoles();
      h in Upgrade(n, x, db, id).HeldRoles() <==>
        if h.name == n.user then h in held || Other(h, n.reader) in held
        else if h.name == n.admin then h in held || (Other(h, n.superAdmin) in held && db.HasRole(n.admin))
        else h.name != n.reader && h.name != n.superAdmin && h in held
  {
    UpgradeHeld(n, x, db, id);
    RoleNamesAre(db, n.admin);
    HeldUpExactly(n, db.HeldRoles(), RoleNames(db) + {n.user}, h);
  }

  /**
   Who holds what after the downgrade: reader if the reader or user role was held, super_admin if it or admin was,
   any other role as before, and never user; in particular an admin stays one and becomes super_admin too.
   */
  lemma DowngradeHoldsExactly(n: Names, x: Texts, db: Tables, id: Id, id2: Id, h: Held)
    requires db.Valid() && id !in db.roles && id2 !in db.roles && id != id2 && n.Distinct()
    ensures var held := db.HeldRoles();
      h in Downgrade(n, x, db, id, id2).HeldRoles() <==>
        if h.name == n.reader then h in held || Other(h, n.user) in held
        else if h.name == n.superAdmin then h in held || Other(h, n.admin) in held
        else h.name != n.user && h in held
  {
    DowngradeHeld(n, x, db, id, id2);
    HeldDownExactly(n, db.HeldRoles(), RoleNames(db) + {n.reader, n.superAdmin}, h);
  }

  /**
   The roles after the upgrade are the old ones, with `user` and without the two that are renamed, newly described.
   */
  lemma UpgradeDescribes(n: Names, x: Texts, db: Tables, id: Id, r: Id)
    requires db.Valid() && id !in db.roles && n.Distinct() && r in Upgrade(n, x, db, id).roles
    ensures var role := Upgrade(n, x, db, id).roles[r];
      && (if role.name in x.up then role.description == x.up[role.name]
          else if role.name == n.user then role.description == x.user
          else r in db.roles && role == db.roles[r])
      && (r in db.roles ==> role.name == db.roles[r].name)
  {
  }

  /** Likewise after the downgrade; a role that was there already keeps its description when it is inserted again. */
  lemma DowngradeDescribes(n: Names, x: Texts, db: Tables, id: Id, id2: Id, r: Id)
    requires db.Valid() && id !in db.roles && id2 !in db.roles && id != id2 && n.Distinct()
    requires r in Downgrade(n, x, db, id, id2).roles
    ensures var role := Downgrade(n, x, db, id, id2).roles[r];
      if role.name in x.down then role.description == x.down[role.name]
      else if r in db.roles then role == db.roles[r]
      else role == Role(n.reader, x.reader) || role == Role(n.superAdmin, x.superAdmin)
  {
  }

  /** Whoever holds a role by name, the role exists. */
  lemma HeldRolesExist(db: Tables)
    ensures forall h | h in db.HeldRoles() :: h.name in RoleNames(db)
  {
  }

  /** Nobody holds an old role after the upgrade, and the roles are gone. */
  lemma UpgradeLeavesNoOldRole(n: Names, x: Texts, db: Tables, id: Id)
    requires db.Valid() && id !in db.roles && n.Distinct()
    ensures forall h | h in Upgrade(n, x, db, id).HeldRoles() :: h.name != n.reader && h.name != n.superAdmin
    ensures n.reader !in RoleNames(Upgrade(n, x, db, id)) && n.superAdmin !in RoleNames(Upgrade(n, x, db, id))
  {
    UpgradeHeld(n, x, db, id);
  }

  /** By names, up after down is the identity where nobody holds an old role. */
  lemma UpAfterDown(n: Names, held: set<Held>, there: set<string>)
    requires n.Distinct() && (forall h | h in held :: h.name in there && h.name != n.reader && h.name != n.superAdmin)
    ensures var down := HeldDown(n, held, there + {n.reader, n.superAdmin});
      HeldUp(n, down, there + {n.reader, n.superAdmin} - {n.user} + {n.user}) == held
  {
    var there1, there2 := there + {n.reader, n.superAdmin}, there + {n.reader, n.superAdmin} - {n.user} + {n.user};
    var down := HeldDown(n, held, there1);
    var up := HeldUp(n, down, there2);
    forall h | h in held ensures h in up {
      if h.name == n.user {
        assert Held(h.tenant, h.user, n.reader) in Renamed(held, n.Down(), there1);
        assert Held(h.tenant, h.user, n.reader) in down;
        assert h == Held(h.tenant, h.user, n.user) && h in Renamed(down, n.Up(), there2);
      } else {
        assert h in down;
      }
    }
    forall h | h in up ensures h in held {
      if h in Renamed(down, n.Up(), there2) {
        var g :| g in down && g.name in n.Up() && h == Held(g.tenant, g.user, n.Up()[g.name]);
        assert g in Renamed(held, n.Down(), there1);
        var f :| f in held && f.name in n.Down() && g == Held(f.tenant, f.user, n.Down()[f.name]);
        assert h == f;
      }
    }
  }

  /** Upgrading after a downgrade gives everybody exactly the roles they had, if nobody held one of the two old ones. */
  lemma UpgradeUndoesDowngrade(n: Names, x: Texts, db: Tables, id: Id, id2: Id, id3: Id)
    requires db.Valid() && id !in db.roles && id2 !in db.roles && id != id2 && n.Distinct()
    requires id3 !in Downgrade(n, x, db, id, id2).roles
    requires forall h | h in db.HeldRoles() :: h.name != n.reader && h.name != n.superAdmin
    ensures Upgrade(n, x, Downgrade(n, x, db, id, id2), id3).HeldRoles() == db.HeldRoles()
  {
    DowngradeHeld(n, x, db, id, id2);
    UpgradeHeld(n, x, Downgrade(n, x, db, id, id2), id3);
    HeldRolesExist(db);
    UpAfterDown(n, db.HeldRoles(), RoleNames(db));
  }

  // ---------- effective permissions, for any permission table ----------

  type Grants = string -> set<Permission>

  /** The effective permissions of a user when role `m` gives `grants(m)`. */
  function EffectiveBy(grants: Grants, held: set<Held>, tenant: Id, user: Id,
                       direct: set<Permission>): set<Permission> {
    direct + set m, p | m in NamesOf(held, tenant, user) && p in grants(m) :: p
  }

  lemma EffectiveIsBy(held: set<Held>, tenant: Id, user: Id, direct: set<Permission>)
    ensures Effective(held, tenant, user, direct) == EffectiveBy(RolePermissions, held, tenant, user, direct)
  {
  }

  /** The two pairs of names mean the same. */
  ghost predicate OldNamesAgree(n: Names, grants: Grants) {
    grants(n.reader) == grants(n.user) && grants(n.superAdmin) == grants(n.admin)
  }

  /** The user has a role among these that gives as much as `role`. */
  ghost predicate Covers(grants: Grants, role: string, held: set<Held>, tenant: Id, user: Id) {
    exists m :: Held(tenant, user, m) in held && grants(role) <= grants(m)
  }

  lemma NothingLost(grants: Grants, a: set<Held>, b: set<Held>, tenant: Id, user: Id, direct: set<Permission>)
    requires forall m | Held(tenant, user, m) in a :: Covers(grants, m, b, tenant, user)
    ensures EffectiveBy(grants, a, tenant, user, direct) <= EffectiveBy(grants, b, tenant, user, direct)
  {
    forall m, p | m in NamesOf(a, tenant, user) && p in grants(m)
      ensures p in EffectiveBy(grants, b, tenant, user, direct)
    {
      assert Held(tenant, user, m) in a;
      assert Covers(grants, m, b, tenant, user);
      var k :| Held(tenant, user, k) in b && grants(m) <= grants(k);
      assert k in NamesOf(b, tenant, user);
    }
  }

  lemma DownKeeps(n: Names, grants: Grants, held: set<Held>, there: set<string>, tenant: Id, user: Id,
                  direct: set<Permission>)
    requires n.Distinct() && OldNamesAgree(n, grants) && n.reader in there
    ensures EffectiveBy(grants, HeldDown(n, held, there), tenant, user, direct) ==
            EffectiveBy(grants, held, tenant, user, direct)
  {
    var down := HeldDown(n, held, there);
    forall m | Held(tenant, user, m) in held ensures Covers(grants, m, down, tenant, user) {
      var k := if m == n.user then n.reader else m;
      assert m == n.user ==> Held(tenant, user, k) in Renamed(held, n.Down(), there);
      assert Held(tenant, user, k) in down;
    }
    NothingLost(grants, held, down, tenant, user, direct);
    forall m | Held(tenant, user, m) in down ensures Covers(grants, m, held, tenant, user) {
      if Held(tenant, user, m) !in held {
        var g :| g in held && g.name in n.Down() && Held(tenant, user, m) == Held(g.tenant, g.user, n.Down()[g.name]);
        assert Held(tenant, user, g.name) in held && grants(m) <= grants(g.name);
      }
    }
    NothingLost(grants, down, held, tenant, user, direct);
  }

  /** The upgrade never gives anybody more. */
  lemma UpAddsNothing(n: Names, grants: Grants, held: set<Held>, there: set<string>, tenant: Id, user: Id,
                      direct: set<Permission>)
    requires n.Distinct() && OldNamesAgree(n, grants)
    ensures EffectiveBy(grants, HeldUp(n, held, there), tenant, user, direct) <=
            EffectiveBy(grants, held, tenant, user, direct)
  {
    var up := HeldUp(n, held, there);
    forall m | Held(tenant, user, m) in up ensures Covers(grants, m, held, tenant, user) {
      if Held(tenant, user, m) !in held {
        var g :| g in held && g.name in n.Up() && Held(tenant, user, m) == Held(g.tenant, g.user, n.Up()[g.name]);
        assert Held(tenant, user, g.name) in held && grants(m) <= grants(g.name);
      }
    }
    NothingLost(grants, up, held, tenant, user, direct);
  }

  /** The admin role is there, or the user, if a super_admin, has another lasting role that gives as much. */
  ghost predicate AdminCovered(n: Names, grants: Grants, held: set<Held>, there: set<string>, tenant: Id, user: Id) {
    || n.admin in there
    || Held(tenant, user, n.superAdmin) !in held
    || exists m | Held(tenant, user, m) in held && m != n.superAdmin && m != n.reader ::
         grants(n.superAdmin) <= grants(m)
  }

  lemma UpLosesNothing(n: Names, grants: Grants, held: set<Held>, there: set<string>, tenant: Id, user: Id,
                       direct: set<Permission>)
    requires n.Distinct() && OldNamesAgree(n, grants) && n.user in there
            && AdminCovered(n, grants, held, there, tenant, user)
    ensures EffectiveBy(grants, held, tenant, user, direct) <=
            EffectiveBy(grants, HeldUp(n, held, there), tenant, user, direct)
  {
    var up := HeldUp(n, held, there);
    forall m | Held(tenant, user, m) in held ensures Covers(grants, m, up, tenant, user) {
      var k := if m == n.reader then n.user else if m == n.superAdmin then n.admin else m;
      if m == n.superAdmin && n.admin !in there {
        k :| Held(tenant, user, k) in held && k != n.superAdmin && k != n.reader && grants(n.superAdmin) <= grants(k);
      } else if m != k {
        assert Held(tenant, user, k) in Renamed(held, n.Up(), there);
      }
      assert Held(tenant, user, k) in up;
    }
    NothingLost(grants, held, up, tenant, user, direct);
  }

  // ---------- effective permissions, for the permission table of the program ----------

  lemma ProgramNames()
    ensures NAMES.Distinct()
    ensures Canonical(NAMES.reader) == NAMES.user && Canonical(NAMES.user) == NAMES.user
    ensures Canonical(NAMES.superAdmin) == NAMES.admin && Canonical(NAMES.admin) == NAMES.admin
  {
    NamesDiffer();
    UserNames();
    AdminNames();
  }

  lemma NamesDiffer()
    ensures NAMES.Distinct()
  {
    assert |NAMES.user| == 4 && |NAMES.reader| == 6 && |NAMES.admin| == 5 && |NAMES.superAdmin| == 11;
  }

  lemma UserNames()
    ensures Canonical("reader") == "user" && Canonical("user") == "user"
  {
    NormalForm("reader");
    CanonicalOf("reader");
    NormalForm("user");
    CanonicalOf("user");
    assert |"user"| == 4 && |"reader"| == 6 && |"super_admin"| == 11;
  }

  lemma AdminNames()
    ensures Canonical("super_admin") == "admin" && Canonical("admin") == "admin"
  {
    NormalForm("super_admin");
    CanonicalOf("super_admin");
    NormalForm("admin");
    CanonicalOf("admin");
    assert |"admin"| == 5 && |"reader"| == 6 && |"super_admin"| == 11;
  }

  lemma CanonicalOf(role: string)
    requires Lower(Strip(role)) == role
    ensures Canonical(role) == if role == "super_admin" then "admin" else if role == "reader" then "user" else role
  {
  }

  predicate IsPlain(c: char) { 'a' <= c <= 'z' || c == '_' }

  /** Lower-case names without white space are their own normal form. */
  lemma NormalForm(s: string)
    requires s != "" && forall i | 0 <= i < |s| :: IsPlain(s[i])
    ensures Lower(Strip(s)) == s
  {
    assert IsPlain(s[0]) && IsPlain(s[|s| - 1]);
    LowerSame(s);
  }

  lemma {:induction false} LowerSame(s: string)
    requires forall i | 0 <= i < |s| :: IsPlain(s[i])
    ensures Lower(s) == s
  {
    if s != "" {
      assert IsPlain(s[0]) && forall i | 0 <= i < |s[1..]| :: IsPlain(s[1..][i]);
      LowerSame(s[1..]);
      assert [s[0]] + s[1..] == s;
    }
  }

  lemma ProgramGrants()
    ensures OldNamesAgree(NAMES, RolePermissions)
    ensures forall m :: Canonical(m) == NAMES.admin ==> RolePermissions(m) == RolePermissions(NAMES.superAdmin)
  {
    ProgramNames();
  }

  /** White space around a role name, and capitals, do not matter. */
  lemma NameInAnySpelling(role: string, other: string, front: string, back: string)
    requires AllSpace(front) && AllSpace(back) && Stripped(other) && Lower(other) == Lower(Strip(role))
    ensures Canonical(front + other + back) == Canonical(role)
  {
    StripInside(front, other, back);
  }

  /** Readers and members are users, and an editor has one permission more. */
  lemma UserPermissions()
    ensures PermissionsByRole("reader") == PermissionsByRole("user")
    ensures PermissionsByRole("member") == PermissionsByRole("user")
    ensures PermissionsByRole("editor") == PermissionsByRole("user") + {"documents:organization:advanced"}
  {
    assert |"user"| == 4 && |"reader"| == 6 && |"member"| == 6 && |"editor"| == 6;
    assert "reader"[0] == 'r' && "member"[0] == 'm' && "editor"[0] == 'e';
  }

  /** Who may ask questions. */
  lemma QueryHolders(role: string)
    ensures "queries:run" in PermissionsByRole(role) <==>
            role in {"admin", "super_admin", "editor", "user", "reader", "member", "service"}
  {
  }

  /** Who may use the advanced organisation of documents. */
  lemma AdvancedHolders(role: string)
    ensures "documents:organization:advanced" in PermissionsByRole(role) <==> role in {"admin", "super_admin", "editor"}
  {
  }

  /** Who may decide on reported collections: the moderator, and no admin. */
  lemma ModerationHolders(role: string)
    ensures "collections:moderation:write" in PermissionsByRole(role) <==> role == "collection_moderator"
  {
  }

  /** Only the admin role gives this permission: no canonical name is an alias. */
  lemma AdminPermission(role: string)
    ensures "admin:users:delete" in RolePermissions(role) <==> Canonical(role) == NAMES.admin
  {
  }

  /** The downgrade leaves everybody's effective permissions as they are. */
  lemma DowngradeKeepsPermissions(x: Texts, db: Tables, id: Id, id2: Id, tenant: Id, user: Id, direct: set<Permission>)
    requires db.Valid() && id !in db.roles && id2 !in db.roles && id != id2
    ensures Effective(Downgrade(NAMES, x, db, id, id2).HeldRoles(), tenant, user, direct) ==
            Effective(db.HeldRoles(), tenant, user, direct)
  {
    ProgramNames();
    ProgramGrants();
    DowngradeHeld(NAMES, x, db, id, id2);
    var there := RoleNames(db) + {NAMES.reader, NAMES.superAdmin};
    DownKeeps(NAMES, RolePermissions, db.HeldRoles(), there, tenant, user, direct);
    EffectiveIsBy(db.HeldRoles(), tenant, user, direct);
    EffectiveIsBy(Downgrade(NAMES, x, db, id, id2).HeldRoles(), tenant, user, direct);
  }

  /** The admin role is there, or the user, if a super_admin, has another role whose name means admin. */
  ghost predicate Covered(held: set<Held>, there: set<string>, tenant: Id, user: Id) {
    || NAMES.admin in there
    || Held(tenant, user, NAMES.superAdmin) !in held
    || exists m :: Held(tenant, user, m) in held && m != NAMES.superAdmin && Canonical(m) == NAMES.admin
  }

  lemma CoveredHere(held: set<Held>, there: set<string>, tenant: Id, user: Id)
    requires Covered(held, there, tenant, user)
    ensures AdminCovered(NAMES, RolePermissions, held, there + {NAMES.user}, tenant, user)
  {
    ProgramNames();
    ProgramGrants();
    if NAMES.admin !in there && Held(tenant, user, NAMES.superAdmin) in held {
      var m :| Held(tenant, user, m) in held && m != NAMES.superAdmin && Canonical(m) == NAMES.admin;
      assert m != NAMES.reader && RolePermissions(m) == RolePermissions(NAMES.superAdmin);
    }
  }

  lemma CoveredKeeps(held: set<Held>, there: set<string>, tenant: Id, user: Id, direct: set<Permission>)
    requires Covered(held, there, tenant, user)
    ensures Effective(HeldUp(NAMES, held, there + {NAMES.user}), tenant, user, direct) ==
            Effective(held, tenant, user, direct)
  {
    ProgramNames();
    ProgramGrants();
    CoveredHere(held, there, tenant, user);
    var up := HeldUp(NAMES, held, there + {NAMES.user});
    UpLosesNothing(NAMES, RolePermissions, held, there + {NAMES.user}, tenant, user, direct);
    UpAddsNothing(NAMES, RolePermissions, held, there + {NAMES.user}, tenant, user, direct);
    EffectiveIsBy(held, tenant, user, direct);
    EffectiveIsBy(up, tenant, user, direct);
  }

  /** Without an admin role, a permission that a user has only as super_admin is lost. */
  lemma UpLoses(n: Names, grants: Grants, held: set<Held>, there: set<string>, tenant: Id, user: Id, p: Permission)
    requires n.Distinct() && n.admin !in there && Held(tenant, user, n.superAdmin) in held
    requires p in grants(n.superAdmin) && p !in grants(n.user)
    requires forall m | Held(tenant, user, m) in held && m != n.superAdmin :: p !in grants(m)
    ensures p in EffectiveBy(grants, held, tenant, user, {})
    ensures p !in EffectiveBy(grants, HeldUp(n, held, there), tenant, user, {})
  {
    assert n.superAdmin in NamesOf(held, tenant, user);
    var up := HeldUp(n, held, there);
    forall m | m in NamesOf(up, tenant, user) ensures p !in grants(m) {
      assert Held(tenant, user, m) in up;
      assert Held(tenant, user, m) in held || m == n.user;
    }
  }

  /** A super_admin without another admin role is stripped when there is no admin role to map to. */
  lemma UncoveredLosesAdmin(held: set<Held>, there: set<string>, tenant: Id, user: Id)
    requires !Covered(held, there, tenant, user)
    ensures "admin:users:delete" in Effective(held, tenant, user, {})
    ensures "admin:users:delete" !in Effective(HeldUp(NAMES, held, there + {NAMES.user}), tenant, user, {})
  {
    ProgramNames();
    var p := "admin:users:delete";
    forall m ensures p in RolePermissions(m) <==> Canonical(m) == NAMES.admin { AdminPermission(m); }
    UpLoses(NAMES, RolePermissions, held, there + {NAMES.user}, tenant, user, p);
    EffectiveIsBy(held, tenant, user, {});
    EffectiveIsBy(HeldUp(NAMES, held, there + {NAMES.user}), tenant, user, {});
  }

  /** By names: the upgrade leaves a user's effective permissions as they are exactly when the user is covered. */
  lemma HeldUpKeepsExactly(held: set<Held>, there: set<string>, tenant: Id, user: Id)
    ensures var up := HeldUp(NAMES, held, there + {NAMES.user});
      (forall direct :: Effective(up, tenant, user, direct) == Effective(held, tenant, user, direct))
      <==> Covered(held, there, tenant, user)
  {
    var up := HeldUp(NAMES, held, there + {NAMES.user});
    if Covered(held, there, tenant, user) {
      forall direct ensures Effective(up, tenant, user, direct) == Effective(held, tenant, user, direct) {
        CoveredKeeps(held, there, tenant, user, direct);
      }
    } else {
      UncoveredLosesAdmin(held, there, tenant, user);
    }
  }

  /** The upgrade leaves a user's effective permissions as they are exactly when the user is covered. */
  lemma UpgradeKeepsPermissionsExactly(x: Texts, db: Tables, id: Id, tenant: Id, user: Id)
    requires db.Valid() && id !in db.roles
    ensures var before, after := db.HeldRoles(), Upgrade(NAMES, x, db, id).HeldRoles();
      (forall direct :: Effective(after, tenant, user, direct) == Effective(before, tenant, user, direct))
      <==> Covered(db.HeldRoles(), RoleNames(db), tenant, user)
  {
    NamesDiffer();
    UpgradeHeld(NAMES, x, db, id);
    HeldUpKeepsExactly(db.HeldRoles(), RoleNames(db), tenant, user);
  }

  /** It happens: without an admin role, a lone super_admin is not covered, and may no longer delete users. */
  lemma LoneSuperAdminIsStripped(x: Texts, tenant: Id, user: Id, description: string, role: Id, id: Id)
    requires id != role
    ensures var db := Tables(map[role := Role(NAMES.superAdmin, description)], {Assignment(tenant, user, role)});
      && db.Valid()
      && !Covered(db.HeldRoles(), RoleNames(db), tenant, user)
      && "admin:users:delete" in Effective(db.HeldRoles(), tenant, user, {})
      && "admin:users:delete" !in Effective(Upgrade(NAMES, x, db, id).HeldRoles(), tenant, user, {})
  {
    var db := Tables(map[role := Role(NAMES.superAdmin, description)], {Assignment(tenant, user, role)});
    NamesDiffer();
    LoneHeld(NAMES, tenant, user, description, role);
    UpgradeHeld(NAMES, x, db, id);
    UncoveredLosesAdmin(db.HeldRoles(), RoleNames(db), tenant, user);
  }

  lemma LoneHeld(n: Names, tenant: Id, user: Id, description: string, role: Id)
    requires n.Distinct()
    ensures var db := Tables(map[role := Role(n.superAdmin, description)], {Assignment(tenant, user, role)});
      db.Valid() && db.HeldRoles() == {Held(tenant, user, n.superAdmin)} && RoleNames(db) == {n.superAdmin}
  {
    var db := Tables(map[role := Role(n.superAdmin, description)], {Assignment(tenant, user, role)});
    assert db.roles[role].name == n.superAdmin && Assignment(tenant, user, role) in db.assignments;
  }

  // ---------- the statements run in order ----------

  class RoleTables {
    var roles: map<Id, Role>
    var assignments: set<Assignment>

    function View(): Tables
      reads this
    {
      Tables(roles, assignments)
    }

    /** INSERT, for each holder of an old role, of the role that takes its place. */
    method InsertMapped(renames: map<string, string>)
      modifies this`assignments
      ensures View() == AddMapped(old(View()), renames)
    {
      assignments := assignments + Mapped(View(), renames);
    }

    /** DELETE of the assignments of some roles, then of the roles. */
    method DeleteRoles(names: set<string>)
      modifies this
      ensures View() == Without(old(View()), names)
    {
      var doomed := set r | r in roles && roles[r].name in names;
      assignments := set a | a in assignments && a.role !in doomed;
      roles := map r | r in roles && roles[r].name !in names :: roles[r];
    }

    method RunUpgrade(n: Names, x: Texts, id: Id)
      modifies this
      ensures View() == Upgrade(n, x, old(View()), id)
    {
      roles := WithRole(roles, id, Role(n.user, x.user), true);
      roles := Described(roles, x.up);
      InsertMapped(n.Up());
      DeleteRoles({n.reader, n.superAdmin});
    }

    /** INSERT of the two old roles, where the names are free. */
    method InsertOldRoles(n: Names, x: Texts, id: Id, id2: Id)
      modifies this`roles
      ensures View() == DownPrepared(n, x, old(View()), id, id2)
    {
      roles := WithRole(roles, id, Role(n.reader, x.reader), false);
      roles := WithRole(roles, id2, Role(n.superAdmin, x.superAdmin), false);
    }

    method RunDowngrade(n: Names, x: Texts, id: Id, id2: Id)
      modifies this
      ensures View() == Downgrade(n, x, old(View()), id, id2)
    {
      InsertOldRoles(n, x, id, id2);
      InsertMapped(n.Down());
      DeleteRoles({n.user});
      roles := Described(roles, x.down);
    }

    /** The migration with the program's names and texts. */
    method UpgradeDatabase(id: Id)
      requires View().Valid() && id !in roles
      modifies this
      ensures View() == Upgrade(NAMES, TEXTS, old(View()), id) && View().Valid()
    {
      NamesDiffer();
      UpgradeHeld(NAMES, TEXTS, View(), id);
      RunUpgrade(NAMES, TEXTS, id);
    }

    method DowngradeDatabase(id: Id, id2: Id)
      requires View().Valid() && id !in roles && id2 !in roles && id != id2
      modifies this
      ensures View() == Downgrade(NAMES, TEXTS, old(View()), id, id2) && View().Valid()
    {
      NamesDiffer();
      DowngradeHeld(NAMES, TEXTS, View(), id, id2);
      RunDowngrade(NAMES, TEXTS, id, id2);
    }
  }
}
