/** What every reachable state of the RBAC tables satisfies, and how the migration establishes it. */
module RbacInvariant {
  import opened Seqs
  import opened Rbac
  import IdText

  predicate UniqueRoles(roles: map<nat, Role>) {
    forall i, j | i in roles && j in roles && roles[i] == roles[j] :: i == j
  }

  /** The role is a template or the row's tenant's own. */
  predicate RoleFits(db: Db, r: UserRole) {
    r.role in db.roles && (db.roles[r.role].tenant.None? || db.roles[r.role].tenant == Some(r.tenant))
  }

  predicate ProjectFits(db: Db, r: UserRole) {
    r.project.Some? ==> IsProjectInTenant(db, r.project.value, r.tenant)
  }

  predicate RowOk(db: Db, r: UserRole) {
    RoleFits(db, r) && ProjectFits(db, r) && r.user in db.users && r.tenant in db.tenants
  }

  ghost predicate Inv(db: Db) {
    && UniqueRoles(db.roles)
    && (forall r | r in db.userRoles :: RowOk(db, r))
    && Distinct(db.userRoles)
    && (forall g | g in db.grants :: g.0 in db.roles && g.1 in db.catalog)
    && (forall id | id in db.roles && db.roles[id].tenant.Some? :: db.roles[id].tenant.value in db.tenants)
    && (forall p | p in db.projects :: db.projects[p].tenant in db.tenants)
    && (forall m | m in db.members :: m.0 in db.users && m.1 in db.tenants)
    && (forall p, q | p in db.projects && q in db.projects && db.projects[p] == db.projects[q] :: p == q)
  }

  lemma FoundRole(roles: map<nat, Role>, id: nat)
    requires UniqueRoles(roles) && id in roles
    ensures FindRole(roles, roles[id]) == Some(id)
  {
  }

  lemma InsertKeepsInv(db: Db, row: UserRole)
    requires Inv(db) && RoleFits(db, row) && ProjectFits(db, row)
    requires InsertUserRole(db, row).Some?
    ensures Inv(InsertUserRole(db, row).value)
  {
  }

  lemma AssignKeepsInv(db: Db, s: Session, user: nat, name: string, tenant: nat, project: Option<nat>)
    requires Inv(db)
    requires project.Some? ==> IsProjectInTenant(db, project.value, tenant)
    requires AssignRoleToUser(db, s, user, name, tenant, project).Some?
    ensures Inv(AssignRoleToUser(db, s, user, name, tenant, project).value)
  {
    var role := GetRoleInTenant(View(db, s).roles, name, tenant);
    if role.Some? && Admits(s, Some(tenant)) {
      InsertKeepsInv(db, UserRole(user, role.value, tenant, project));
    }
  }

  lemma DropKeepsInv(db: Db, id: nat)
    requires Inv(db)
    ensures Inv(DropRole(db, id))
  {
    FilterDistinct((r: UserRole) => r.role != id, db.userRoles);
  }

  lemma DeleteUserKeepsInv(db: Db, user: string)
    requires Inv(db)
    ensures Inv(DeleteUser(db, user).db)
  {
    hide IdText.Parse;
    if IdText.Parse(user).Some? {
      FilterDistinct((r: UserRole) => r.user != IdText.Parse(user).value, db.userRoles);
    }
  }

  lemma UserKeepsInv(db: Db, user: nat, email: string)
    requires Inv(db)
    ensures Inv(db.(users := db.users[user := email]))
  {
  }

  lemma MemberKeepsInv(db: Db, m: (nat, nat))
    requires Inv(db) && m.0 in db.users && m.1 in db.tenants
    ensures Inv(db.(members := db.members + {m}))
  {
  }

  lemma RegisterKeepsInv(db: Db, s: Session, user: nat, email: string)
    requires Inv(db)
    ensures Inv(Register(db, s, user, email).db)
  {
    if email != "" && user !in db.users && email !in db.users.Values {
      var created := db.(users := db.users[user := email]);
      UserKeepsInv(db, user, email);
      var after := AssignRoleToUser(created, s, user, "user", DEFAULT_TENANT, None);
      if after.Some? && DEFAULT_TENANT in db.tenants {
        AssignKeepsInv(created, s, user, "user", DEFAULT_TENANT, None);
        hide Inv;
        MemberKeepsInv(after.value, (user, DEFAULT_TENANT));
      }
    }
  }

  lemma CreateTenantKeepsInv(db: Db, creator: nat, tenant: nat, slug: string, name: string)
    requires Inv(db)
    ensures Inv(CreateTenant(db, creator, tenant, slug, name).db)
  {
    if slug != "" && name != "" && tenant !in db.tenants && slug !in db.tenants.Values && creator in db.users {
      var created := db.(tenants := db.tenants[tenant := slug], members := db.members + {(creator, tenant)});
      var admin := FindRole(db.roles, Role("admin", None));
      if admin.Some? {
        InsertKeepsInv(created, UserRole(creator, admin.value, tenant, None));
      }
    }
  }

  lemma DeleteRowKeepsInv(db: Db, row: UserRole)
    requires Inv(db)
    ensures Inv(DeleteUserRole(db, row))
  {
    FilterDistinct(r => r != row, db.userRoles);
  }

  lemma RevokeKeepsInv(db: Db, tenant: nat, user: string, name: string, project: ProjectArg)
    requires Inv(db)
    ensures Inv(RevokeRole(db, tenant, user, name, project).db)
  {
    var id, role := IdText.Parse(user), NamedRole(View(db, Restricted(Some(tenant))).roles, name);
    if id.Some? && role.Some? {
      DeleteRowKeepsInv(db, UserRole(id.value, role.value, tenant, OptionalProject(project)));
    }
    hide IdText.Parse, Inv, DeleteUserRole, View, Ambiguous;
  }

  lemma AssignRoleKeepsInv(db: Db, t: nat, user: string, name: string, project: ProjectArg)
    requires Inv(db)
    ensures Inv(AssignRole(db, t, user, name, project).db)
  {
    hide IdText.Parse;
    var id := IdText.Parse(user);
    if id.Some? && ValidateAssign(db, t, name, project) == Done
      && AssignRoleToUser(db, Restricted(Some(t)), id.value, name, t, OptionalProject(project)).Some? {
      AssignKeepsInv(db, Restricted(Some(t)), id.value, name, t, OptionalProject(project));
    }
  }

  lemma RoleTablesKeepInv(db: Db, op: Op)
    requires Inv(db)
    requires op.OpCreateRole? || op.OpDeleteRole? || op.OpGrant? || op.OpRevokeGrant?
    ensures Inv(Step(db, op).db)
  {
    hide AddMember, AssignRole, CreateProject, CreateTenant, DeleteUser, Register, RemoveMember, RevokeRole;
    if op.OpDeleteRole? {
      var role := FindRole(db.roles, Role(op.name, Some(op.tenant)));
      if role.Some? {
        DropKeepsInv(db, role.value);
      }
    }
  }

  lemma StepKeepsInv(db: Db, op: Op)
    requires Inv(db)
    ensures Inv(Step(db, op).db)
  {
    hide IdText.Parse;
    hide AssignRole, CreateRole, CreateTenant, DeleteRole, DeleteUser;
    hide GrantPermission, Register, RevokePermission, RevokeRole;
    match op
    case OpAssign(t, user, name, project) => AssignRoleKeepsInv(db, t, user, name, project);
    case OpRevoke(t, user, name, project) => RevokeKeepsInv(db, t, user, name, project);
    case OpCreateProject(t, slug, name, id) =>
    case OpAddMember(t, email) =>
    case OpRemoveMember(t, user) =>
    case OpRegister(user, email) => RegisterKeepsInv(db, Bypass, user, email);
    case OpCreateTenant(creator, id, slug, name) => CreateTenantKeepsInv(db, creator, id, slug, name);
    case OpDeleteUser(user) => DeleteUserKeepsInv(db, user);
    case _ => RoleTablesKeepInv(db, op);
  }

  lemma {:induction false} RunKeepsInv(db: Db, ops: seq<Op>)
    requires Inv(db)
    ensures Inv(Run(db, ops))
    decreases |ops|
  {
    if ops != [] {
      StepKeepsInv(db, ops[0]);
      RunKeepsInv(Step(db, ops[0]).db, ops[1..]);
    }
  }

  // ── The multi-tenant migration ────────────────────────────

  /** The tables before the migration: global roles with unique names, one row per user and role. */
  datatype Legacy = Legacy(users: map<nat, string>, catalog: seq<string>, roles: map<nat, string>,
                           grants: set<(nat, string)>, userRoles: seq<(nat, nat)>)

  ghost predicate LegacyOk(l: Legacy) {
    && (forall i, j | i in l.roles && j in l.roles && l.roles[i] == l.roles[j] :: i == j)
    && (forall g | g in l.grants :: g.0 in l.roles && g.1 in l.catalog)
    && (forall r | r in l.userRoles :: r.0 in l.users && r.1 in l.roles)
    && Distinct(l.userRoles)
  }

  const DEFAULT_PROJECT := 2

  /** Built-in roles stay templates, every other role and every assignment moves to the default tenant. */
  function Migrate(l: Legacy): Db {
    Db(l.users,
       map[DEFAULT_TENANT := "default"],
       l.catalog,
       map id | id in l.roles :: Role(l.roles[id], if IsBuiltinRole(l.roles[id]) then None else Some(DEFAULT_TENANT)),
       l.grants,
       seq(|l.userRoles|, i requires 0 <= i < |l.userRoles| =>
         UserRole(l.userRoles[i].0, l.userRoles[i].1, DEFAULT_TENANT, None)),
       map[DEFAULT_PROJECT := Project(DEFAULT_TENANT, "default")],
       set u | u in l.users :: (u, DEFAULT_TENANT))
  }

  /** An assignment while its tenant column is still nullable. */
  datatype LegacyRow = LegacyRow(user: nat, role: nat, tenant: Option<nat>)

  /** The tables while the migration runs, with the new columns added and still empty. */
  class Migration {
    const legacy: Legacy
    var tenants: map<nat, string>
    var projects: map<nat, Project>
    var members: set<(nat, nat)>
    var roles: map<nat, Role>
    var userRoles: seq<LegacyRow>
    /** The tenant columns of the clients, API keys and refresh tokens, by row. */
    var owners: seq<Option<nat>>

    ghost predicate ColumnsAdded()
      reads this
    {
      && tenants == map[] && projects == map[] && members == {}
      && roles == (map id | id in legacy.roles :: Role(legacy.roles[id], None))
      && userRoles == seq(|legacy.userRoles|, i requires 0 <= i < |legacy.userRoles| =>
           LegacyRow(legacy.userRoles[i].0, legacy.userRoles[i].1, None))
      && owners == seq(|owners|, _ => None)
    }

    constructor (legacy: Legacy, rows: nat)
      ensures this.legacy == legacy && ColumnsAdded() && |owners| == rows
    {
      owners := seq(rows, _ => None);
      this.legacy := legacy;
      tenants, projects, members := map[], map[], {};
      roles := map id | id in legacy.roles :: Role(legacy.roles[id], None);
      userRoles := seq(|legacy.userRoles|, i requires 0 <= i < |legacy.userRoles| =>
        LegacyRow(legacy.userRoles[i].0, legacy.userRoles[i].1, None));
    }

    /** The backfill, statement by statement; afterwards the tenant column of assignments can be required. */
    method Backfill() returns (db: Db)
      requires ColumnsAdded()
      modifies this
      ensures db == Migrate(legacy) && db.roles == roles && db.members == members
      ensures forall r | r in userRoles :: r.tenant.Some?
      ensures owners == seq(old(|owners|), _ => Some(DEFAULT_TENANT))
    {
      tenants := tenants[DEFAULT_TENANT := "default"];
      projects := projects[DEFAULT_PROJECT := Project(DEFAULT_TENANT, "default")];
      members := members + set u | u in legacy.users :: (u, DEFAULT_TENANT);
      roles := map id | id in roles ::
        if !IsBuiltinRole(roles[id].name) && roles[id].tenant.None? then roles[id].(tenant := Some(DEFAULT_TENANT))
        else roles[id];
      userRoles := seq(|userRoles|, i requires 0 <= i < |userRoles| reads this =>
        if userRoles[i].tenant.None? then userRoles[i].(tenant := Some(DEFAULT_TENANT)) else userRoles[i]);
      owners := seq(|owners|, i requires 0 <= i < |owners| reads this =>
        if owners[i].None? then Some(DEFAULT_TENANT) else owners[i]);
      var rows := seq(|userRoles|, i requires 0 <= i < |userRoles| && userRoles[i].tenant.Some? reads this =>
        UserRole(userRoles[i].user, userRoles[i].role, userRoles[i].tenant.value, None));
      db := Db(legacy.users, tenants, legacy.catalog, roles, legacy.grants, rows, projects, members);
    }
  }

  /** A later migration seeds the `viewer` template, with every `:read` permission. */
  function SeedViewer(db: Db, id: nat): Db {
    db.(roles := db.roles[id := Role("viewer", None)],
        grants := db.grants + set q | q in db.catalog && |q| >= 5 && q[|q| - 5..] == ":read" :: (id, q))
  }

  lemma MigratedRows(l: Legacy)
    requires LegacyOk(l)
    ensures Distinct(Migrate(l).userRoles)
    ensures forall r | r in Migrate(l).userRoles ::
      RowOk(Migrate(l), r) && r.tenant == DEFAULT_TENANT && r.project == None
    ensures forall user: nat, role: nat ::
      (user, role) in l.userRoles <==> UserRole(user, role, DEFAULT_TENANT, None) in Migrate(l).userRoles
  {
    var rows := Migrate(l).userRoles;
    forall r | r in rows ensures RowOk(Migrate(l), r) && (r.user, r.role) in l.userRoles {
      var i :| 0 <= i < |rows| && rows[i] == r;
      assert l.userRoles[i] in l.userRoles;
    }
    forall user: nat, role: nat | (user, role) in l.userRoles
      ensures UserRole(user, role, DEFAULT_TENANT, None) in rows
    {
      var i :| 0 <= i < |l.userRoles| && l.userRoles[i] == (user, role);
      assert rows[i] == UserRole(user, role, DEFAULT_TENANT, None);
    }
  }

  /** Migration puts every assignment in the tenant of its role, and loses none of them. */
  lemma MigrationEstablishesInv(l: Legacy, viewer: nat)
    requires LegacyOk(l) && viewer !in l.roles
    ensures Inv(Migrate(l)) && Inv(SeedViewer(Migrate(l), viewer))
    ensures forall user: nat, role: nat ::
      (user, role) in l.userRoles <==> UserRole(user, role, DEFAULT_TENANT, None) in Migrate(l).userRoles
  {
    MigratedRows(l);
    assert Inv(Migrate(l));
    SeedKeepsInv(Migrate(l), viewer);
  }

  /** What the migration makes of the other tables: built-in roles become templates, all else the default tenant's. */
  lemma MigratedTables(l: Legacy)
    ensures var db := Migrate(l);
      && db.users == l.users && db.grants == l.grants && db.catalog == l.catalog
      && db.roles.Keys == l.roles.Keys
      && (forall id | id in l.roles :: db.roles[id].name == l.roles[id]
            && db.roles[id].tenant == if l.roles[id] == "admin" || l.roles[id] == "user" then None else Some(1))
      && db.tenants == map[1 := "default"] && db.projects == map[2 := Project(1, "default")]
      && (forall u, t :: (u, t) in db.members <==> u in l.users && t == 1)
  {
  }

  /** Everyone may do in the default tenant what they could do before, and nothing anywhere else. */
  lemma MigrationKeepsAccess(l: Legacy, user: nat, tenant: nat, project: Option<nat>, q: string)
    requires LegacyOk(l)
    ensures HoldsScoped(Migrate(l), user, tenant, project, q)
      <==> tenant == 1 && exists role: nat :: (user, role) in l.userRoles && (role, q) in l.grants
  {
    MigratedRows(l);
    var db := Migrate(l);
    if role: nat :| tenant == 1 && (user, role) in l.userRoles && (role, q) in l.grants {
      assert Applies(UserRole(user, role, 1, None), user, tenant, project);
    }
  }

  /** The viewer may do everything that reads and nothing else. */
  lemma ViewerOnlyReads(db: Db, viewer: nat)
    requires Inv(db) && viewer !in db.roles
    ensures var after := SeedViewer(db, viewer);
      && after.roles[viewer] == Role("viewer", None)
      && (forall p: string | p + ":read" in db.catalog :: (viewer, p + ":read") in after.grants)
      && (forall q | (viewer, q) in after.grants :: exists p: string :: q == p + ":read" && q in db.catalog)
      && (forall g | g in after.grants && g.0 != viewer :: g in db.grants)
  {
    var after := SeedViewer(db, viewer);
    forall p: string | p + ":read" in db.catalog ensures (viewer, p + ":read") in after.grants {
      var q := p + ":read";
      assert q[|q| - 5..] == ":read";
    }
    forall q | (viewer, q) in after.grants ensures exists p: string :: q == p + ":read" && q in db.catalog {
      assert (viewer, q) !in db.grants;
      assert q == q[..|q| - 5] + ":read";
    }
  }

  lemma SeedKeepsInv(db: Db, viewer: nat)
    requires Inv(db) && viewer !in db.roles
    requires FindRole(db.roles, Role("viewer", None)).None?
    ensures Inv(SeedViewer(db, viewer))
  {
    var added := db.(roles := db.roles[viewer := Role("viewer", None)]);
    assert Inv(added);
    var read := set q | q in db.catalog && |q| >= 5 && q[|q| - 5..] == ":read" :: (viewer, q);
    GrantsKeepInv(added, read);
  }

  lemma GrantsKeepInv(db: Db, more: set<(nat, string)>)
    requires Inv(db) && forall g | g in more :: g.0 in db.roles && g.1 in db.catalog
    ensures Inv(db.(grants := db.grants + more))
  {
  }
}
