/** Tenants do not interfere, and row-level security changes nothing a tenant may see. */
module RbacIsolation {
  import opened Seqs
  import opened Rbac
  import opened RbacInvariant
  import IdText

  /** What concerns tenant `b`: what the policy shows it, the grants of those roles, and its members. */
  function Seen(db: Db, b: nat): Db {
    var view := View(db, Restricted(Some(b)));
    view.(grants := (set g | g in db.grants && g.0 in view.roles),
          members := (set m | m in db.members && m.1 == b))
  }

  function InTenant(b: nat): UserRole -> bool {
    Admitted(Restricted(Some(b)))
  }

  // ── What the policy shows ─────────────────────────────────

  /**
   Fail-closed: with the setting unset no row of any tenant is visible; with a tenant set, exactly
   its rows and the templates.
   */
  lemma FailClosed(db: Db, setting: Option<nat>)
    ensures var view := View(db, Restricted(setting));
      && (forall id :: id in view.roles
            <==> id in db.roles && (db.roles[id].tenant.None? || db.roles[id].tenant == setting))
      && (forall r :: r in view.userRoles <==> r in db.userRoles && Some(r.tenant) == setting)
      && (forall p :: p in view.projects <==> p in db.projects && Some(db.projects[p].tenant) == setting)
      && (setting.None? ==> view.userRoles == [] && view.projects == map[])
      && view == db.(roles := view.roles, userRoles := view.userRoles, projects := view.projects)
      && (forall id | id in view.roles :: view.roles[id] == db.roles[id])
      && (forall p | p in view.projects :: view.projects[p] == db.projects[p])
      && View(db, Bypass).roles == db.roles && View(db, Bypass).projects == db.projects
  {
    var view := View(db, Restricted(setting));
    if setting.None? && view.userRoles != [] {
      assert view.userRoles[0] in view.userRoles;
    }
  }

  /**
   Under the policy no role, project, assignment or membership of another tenant than the
   setting's is inserted, and no role, assignment or membership of another is deleted; projects
   are never deleted. The policy has no check of its own for writes, so a row without a tenant
   passes it: a session may write a template, whatever its setting.
   */
  lemma WritesConfined(db: Db, setting: Option<nat>, id: nat, role: Role, p: Project,
                       user: nat, name: string, tenant: nat, project: Option<nat>)
    ensures role.tenant.Some? && role.tenant != setting ==> InsertRole(db, Restricted(setting), id, role).None?
    ensures role.tenant.None? ==> InsertRole(db, Restricted(setting), id, role) == InsertRole(db, Bypass, id, role)
    ensures Some(p.tenant) != setting ==> InsertProject(db, Restricted(setting), id, p).None?
    ensures Some(tenant) != setting ==> InsertMember(db, Restricted(setting), user, tenant).None?
    ensures Some(tenant) != setting ==> DeleteMember(db, Restricted(setting), user, tenant) == db
    ensures Some(tenant) != setting ==> DeleteRoleRow(db, Restricted(setting), name, tenant) == db
    ensures Some(tenant) != setting ==>
      var after := AssignRoleToUser(db, Restricted(setting), user, name, tenant, project);
      after.None? || after.value == db
    ensures Some(tenant) != setting ==>
      var after := RevokeRoleFromUser(db, Restricted(setting), user, name, tenant, project);
      after.None? || after.value == db
  {
  }

  // ── Reads depend on nothing else ──────────────────────────

  lemma {:induction false} NamesInView(roles: map<nat, Role>, view: map<nat, Role>, rows: seq<UserRole>)
    requires forall r | r in rows :: r.role in view
    requires forall id | id in view :: id in roles && roles[id] == view[id]
    ensures NamesOf(roles, rows) == NamesOf(view, rows)
  {
    if rows != [] {
      NamesInView(roles, view, rows[1..]);
    }
  }

  lemma {:induction false} NameCount(roles: map<nat, Role>, rows: seq<UserRole>)
    ensures |NamesOf(roles, rows)| <= |rows|
    ensures |NamesOf(roles, rows)| == |rows| <==> forall r | r in rows :: r.role in roles
  {
    if rows != [] {
      NameCount(roles, rows[1..]);
      assert forall r | r in rows :: r == rows[0] || r in rows[1..];
    }
  }

  lemma {:induction false} OrderKeepsCount(s: seq<string>)
    ensures |OrderByName(s)| == |s|
  {
    if s != [] {
      OrderKeepsCount(s[1..]);
      InsertGrows(s[0], OrderByName(s[1..]));
    }
  }

  lemma {:induction false} InsertGrows(name: string, s: seq<string>)
    ensures |InsertName(name, s)| == |s| + 1
  {
    if s != [] && !NameLe(name, s[0]) {
      InsertGrows(name, s[1..]);
    }
  }

  lemma ScopedRows(db: Db, user: nat, tenant: nat, project: Option<nat>)
    ensures var p := (r: UserRole) => Applies(r, user, tenant, project);
      Filter(p, View(db, Restricted(Some(tenant))).userRoles) == Filter(p, db.userRoles)
  {
    FilterHidden((r: UserRole) => Applies(r, user, tenant, project),
                 InTenant(tenant), db.userRoles);
  }

  /**
   The scoped roles a tenant reads under the policy are those the superuser reads, for every
   user and project, exactly when each assignment in the tenant has a role that fits it.
   */
  lemma RolesUnderPolicy(db: Db, tenant: nat)
    requires forall r | r in db.userRoles :: r.role in db.roles
    ensures (forall user, project :: GetUserRolesScoped(View(db, Restricted(Some(tenant))), user, tenant, project)
                                  == GetUserRolesScoped(db, user, tenant, project))
       <==> (forall r | r in db.userRoles && r.tenant == tenant :: RoleFits(db, r))
  {
    var view := View(db, Restricted(Some(tenant)));
    if forall r | r in db.userRoles && r.tenant == tenant :: RoleFits(db, r) {
      forall user, project
        ensures GetUserRolesScoped(view, user, tenant, project) == GetUserRolesScoped(db, user, tenant, project)
      {
        var rows := Filter((r: UserRole) => Applies(r, user, tenant, project), db.userRoles);
        ScopedRows(db, user, tenant, project);
        NamesInView(db.roles, view.roles, rows);
      }
    } else {
      var r :| r in db.userRoles && r.tenant == tenant && !RoleFits(db, r);
      MissingRole(db, r);
    }
  }

  lemma MissingRole(db: Db, r: UserRole)
    requires r in db.userRoles && !RoleFits(db, r)
    requires forall q | q in db.userRoles :: q.role in db.roles
    ensures GetUserRolesScoped(View(db, Restricted(Some(r.tenant))), r.user, r.tenant, r.project)
         != GetUserRolesScoped(db, r.user, r.tenant, r.project)
  {
    var view := View(db, Restricted(Some(r.tenant)));
    var rows := Filter((q: UserRole) => Applies(q, r.user, r.tenant, r.project), db.userRoles);
    ScopedRows(db, r.user, r.tenant, r.project);
    NameCount(db.roles, rows);
    NameCount(view.roles, rows);
    OrderKeepsCount(NamesOf(db.roles, rows));
    OrderKeepsCount(NamesOf(view.roles, rows));
    assert r in rows && r.role !in view.roles;
  }

  /** The scoped permissions never touch the roles table, so the policy cannot change them. */
  lemma PermissionsUnderPolicy(db: Db, user: nat, tenant: nat, project: Option<nat>)
    ensures GetUserPermissionsScoped(View(db, Restricted(Some(tenant))), user, tenant, project)
         == GetUserPermissionsScoped(db, user, tenant, project)
  {
    var view := View(db, Restricted(Some(tenant)));
    forall q | q in db.catalog
      ensures HoldsScoped(view, user, tenant, project, q) == HoldsScoped(db, user, tenant, project, q)
    {
    }
    FilterCongruent(q => HoldsScoped(view, user, tenant, project, q),
                    q => HoldsScoped(db, user, tenant, project, q), db.catalog);
  }

  /** In every reachable state both wrapped reads return the same list under the policy and under bypass. */
  lemma CutoverKeepsReads(db: Db, ops: seq<Op>, user: nat, tenant: nat, project: Option<nat>)
    requires Inv(db)
    ensures var s := Run(db, ops); var view := View(s, Restricted(Some(tenant)));
      && GetUserRolesScoped(view, user, tenant, project) == GetUserRolesScoped(s, user, tenant, project)
      && GetUserPermissionsScoped(view, user, tenant, project) == GetUserPermissionsScoped(s, user, tenant, project)
  {
    RunKeepsInv(db, ops);
    RolesUnderPolicy(Run(db, ops), tenant);
    PermissionsUnderPolicy(Run(db, ops), user, tenant, project);
  }

  lemma ReadsOfSeen(db: Db, user: nat, b: nat, project: Option<nat>)
    requires Inv(db)
    ensures GetUserRolesScoped(db, user, b, project) == GetUserRolesScoped(Seen(db, b), user, b, project)
    ensures GetUserPermissionsScoped(db, user, b, project) == GetUserPermissionsScoped(Seen(db, b), user, b, project)
  {
    var seen := Seen(db, b);
    RolesUnderPolicy(db, b);
    assert GetUserRolesScoped(seen, user, b, project)
        == GetUserRolesScoped(View(db, Restricted(Some(b))), user, b, project);
    forall q | q in db.catalog ensures HoldsScoped(seen, user, b, project, q) == HoldsScoped(db, user, b, project, q) {
      if r :| r in db.userRoles && Applies(r, user, b, project) && (r.role, q) in db.grants {
        assert RoleFits(db, r) && r in seen.userRoles;
      }
    }
    FilterCongruent(q => HoldsScoped(seen, user, b, project, q), q => HoldsScoped(db, user, b, project, q), db.catalog);
  }

  // ── An operation of another tenant changes nothing seen ───

  lemma SeenKeepsRoles(db: Db, b: nat, name: string, owner: Option<nat>)
    requires UniqueRoles(db.roles) && (owner.None? || owner == Some(b))
    ensures FindRole(Seen(db, b).roles, Role(name, owner)) == FindRole(db.roles, Role(name, owner))
  {
    var role := Role(name, owner);
    if id :| id in db.roles && db.roles[id] == role {
      FoundRole(db.roles, id);
      FoundRole(Seen(db, b).roles, id);
    }
  }

  lemma DropElsewhere(db: Db, id: nat, b: nat)
    requires Inv(db) && id in db.roles && db.roles[id].tenant.Some? && db.roles[id].tenant != Some(b)
    ensures Seen(DropRole(db, id), b) == Seen(db, b)
  {
    assert forall r | r in db.userRoles && r.tenant == b :: RoleFits(db, r);
    FilterHidden(InTenant(b), (r: UserRole) => r.role != id, db.userRoles);
    hide Inv;
    var d, e := Seen(DropRole(db, id), b), Seen(db, b);
    assert d.roles == e.roles;
    assert d.grants == e.grants;
    assert d.userRoles == e.userRoles;
  }

  lemma OthersDeleteRole(db: Db, op: Op, b: nat)
    requires Inv(db) && op.OpDeleteRole? && op.tenant != b
    ensures Seen(Step(db, op).db, b) == Seen(db, b)
  {
    var role := FindRole(db.roles, Role(op.name, Some(op.tenant)));
    if role.Some? {
      DropElsewhere(db, role.value, b);
    }
    hide Inv, Seen, DropRole;
  }

  lemma AddRoleElsewhere(db: Db, id: nat, role: Role, b: nat)
    requires id !in db.roles && role.tenant.Some? && role.tenant != Some(b)
    ensures Seen(db.(roles := db.roles[id := role]), b) == Seen(db, b)
  {
    var after := db.(roles := db.roles[id := role]);
    assert Seen(after, b).roles == Seen(db, b).roles;
    assert Seen(after, b).grants == Seen(db, b).grants;
  }

  lemma OthersCreateRole(db: Db, op: Op, b: nat)
    requires Inv(db) && op.OpCreateRole? && op.tenant != b
    ensures Seen(Step(db, op).db, b) == Seen(db, b)
  {
    if op.id !in db.roles {
      AddRoleElsewhere(db, op.id, Role(op.name, Some(op.tenant)), b);
    }
    hide Inv, Seen, FindRole;
  }

  lemma GrantElsewhere(db: Db, grants: set<(nat, string)>, b: nat)
    requires forall g: (nat, string) | g.0 in Seen(db, b).roles :: g in grants <==> g in db.grants
    ensures Seen(db.(grants := grants), b) == Seen(db, b)
  {
    assert Seen(db.(grants := grants), b).grants == Seen(db, b).grants;
  }

  lemma OthersGrant(db: Db, op: Op, b: nat)
    requires Inv(db) && (op.OpGrant? || op.OpRevokeGrant?) && op.tenant != b
    ensures Seen(Step(db, op).db, b) == Seen(db, b)
  {
    var role := FindRole(db.roles, Role(op.name, Some(op.tenant)));
    if role.Some? {
      var g := (role.value, op.permission);
      GrantElsewhere(db, db.grants + {g}, b);
      GrantElsewhere(db, db.grants - {g}, b);
    }
    hide Inv, Seen;
  }

  lemma InsertElsewhere(db: Db, row: UserRole, b: nat)
    requires row.tenant != b && InsertUserRole(db, row).Some?
    ensures Seen(InsertUserRole(db, row).value, b) == Seen(db, b)
  {
    FilterConcat(InTenant(b), db.userRoles, [row]);
  }

  lemma DeleteElsewhere(db: Db, row: UserRole, b: nat)
    requires row.tenant != b
    ensures Seen(DeleteUserRole(db, row), b) == Seen(db, b)
  {
    FilterHidden(InTenant(b), r => r != row, db.userRoles);
  }

  lemma AssignElsewhere(db: Db, t: nat, user: string, name: string, project: ProjectArg, b: nat)
    requires t != b
    ensures Seen(AssignRole(db, t, user, name, project).db, b) == Seen(db, b)
  {
    var id, role := IdText.Parse(user), GetRoleInTenant(View(db, Restricted(Some(t))).roles, name, t);
    if id.Some? && role.Some? {
      var row := UserRole(id.value, role.value, t, OptionalProject(project));
      if InsertUserRole(db, row).Some? {
        InsertElsewhere(db, row, b);
      }
    }
    hide IdText.Parse, Seen, InsertUserRole, View, ValidateAssign, GetRoleInTenant;
  }

  lemma RevocationElsewhere(db: Db, t: nat, user: nat, name: string, project: Option<nat>, b: nat)
    requires t != b
    ensures var after := RevokeRoleFromUser(db, Restricted(Some(t)), user, name, t, project);
      after.Some? ==> Seen(after.value, b) == Seen(db, b)
  {
    var role := NamedRole(View(db, Restricted(Some(t))).roles, name);
    if role.Some? {
      DeleteElsewhere(db, UserRole(user, role.value, t, project), b);
    }
    hide Seen, DeleteUserRole, View, Ambiguous, NamedRole;
  }

  lemma RevokeElsewhere(db: Db, t: nat, user: string, name: string, project: ProjectArg, b: nat)
    requires t != b
    ensures Seen(RevokeRole(db, t, user, name, project).db, b) == Seen(db, b)
  {
    hide IdText.Parse, Seen, RevokeRoleFromUser, NamedRole;
    if IdText.Parse(user).Some? {
      RevocationElsewhere(db, t, IdText.Parse(user).value, name, OptionalProject(project), b);
    }
  }

  lemma OthersAssign(db: Db, op: Op, b: nat)
    requires (op.OpAssign? || op.OpRevoke?) && op.tenant != b
    ensures Seen(Step(db, op).db, b) == Seen(db, b)
  {
    if op.OpAssign? {
      AssignElsewhere(db, op.tenant, op.user, op.name, op.project, b);
    } else {
      RevokeElsewhere(db, op.tenant, op.user, op.name, op.project, b);
    }
    hide Seen, AssignRole, RevokeRole;
  }

  lemma ProjectElsewhere(db: Db, t: nat, slug: string, name: string, id: nat, b: nat)
    requires t != b
    ensures Seen(CreateProject(db, t, slug, name, id).db, b) == Seen(db, b)
  {
    assert Seen(CreateProject(db, t, slug, name, id).db, b).projects == Seen(db, b).projects;
  }

  lemma MemberElsewhere(db: Db, t: nat, email: string, user: string, b: nat)
    requires t != b
    ensures Seen(AddMember(db, t, email).db, b) == Seen(db, b) && Seen(RemoveMember(db, t, user).db, b) == Seen(db, b)
  {
    var id, uid := GetUserByEmail(db.users, email), IdText.Parse(user);
    if id.Some? {
      MemberOnly(db, db.members + {(id.value, t)}, b);
    }
    if uid.Some? {
      MemberOnly(db, db.members - {(uid.value, t)}, b);
    }
    hide IdText.Parse, GetUserByEmail, Seen;
  }

  lemma MemberOnly(db: Db, members: set<(nat, nat)>, b: nat)
    requires forall m: (nat, nat) | m.1 == b :: m in members <==> m in db.members
    ensures Seen(db.(members := members), b) == Seen(db, b)
  {
    assert Seen(db.(members := members), b).members == Seen(db, b).members;
  }

  lemma OthersJoin(db: Db, op: Op, b: nat)
    requires (op.OpCreateProject? || op.OpAddMember? || op.OpRemoveMember?) && op.tenant != b
    ensures Seen(Step(db, op).db, b) == Seen(db, b)
  {
    if op.OpCreateProject? {
      ProjectElsewhere(db, op.tenant, op.slug, op.name, op.id, b);
    } else if op.OpAddMember? {
      MemberElsewhere(db, op.tenant, op.email, "", b);
    } else {
      MemberElsewhere(db, op.tenant, "", op.user, b);
    }
    hide Seen, CreateProject, AddMember, RemoveMember;
  }

  lemma OthersChangeNothing(db: Db, op: Op, b: nat)
    requires Inv(db) && ActsIn(op).Some? && ActsIn(op) != Some(b)
    ensures Seen(Step(db, op).db, b) == Seen(db, b)
  {
    hide Inv, Step, Seen;
    match op
    case OpDeleteRole(_, _) => OthersDeleteRole(db, op, b);
    case OpAssign(_, _, _, _) => OthersAssign(db, op, b);
    case OpRevoke(_, _, _, _) => OthersAssign(db, op, b);
    case OpCreateRole(_, _, _) => OthersCreateRole(db, op, b);
    case OpGrant(_, _, _) => OthersGrant(db, op, b);
    case OpRevokeGrant(_, _, _) => OthersGrant(db, op, b);
    case _ => OthersJoin(db, op, b);
  }

  // ── The other operations see nothing else ─────────────────

  lemma SeenTwice(db: Db, b: nat)
    ensures Seen(Seen(db, b), b) == Seen(db, b)
    ensures View(Seen(db, b), Restricted(Some(b))).roles == Seen(db, b).roles == View(db, Restricted(Some(b))).roles
  {
    FilterHidden(InTenant(b), InTenant(b), db.userRoles);
    FilterAll(InTenant(b), Seen(db, b).userRoles);
  }

  lemma SeenRows(db: Db, rows: seq<UserRole>, b: nat)
    ensures Seen(db.(userRoles := rows), b) == Seen(db, b).(userRoles := Filter(InTenant(b), rows))
  {
  }

  /** A step on the whole database and the same step on a tenant's part give that tenant the same. */
  ghost predicate Agree(whole: Option<Db>, part: Option<Db>, b: nat) {
    whole.Some? == part.Some? && (whole.Some? ==> Seen(whole.value, b) == Seen(part.value, b))
  }

  lemma InsertCommutes(db: Db, row: UserRole, b: nat)
    requires Inv(db)
    requires row.tenant == b ==> ProjectFits(db, row)
    requires row.tenant != b ==> row.project.None?
    ensures Agree(InsertUserRole(db, row), InsertUserRole(Seen(db, b), row), b)
  {
    var seen := Seen(db, b);
    SeenTwice(db, b);
    FilterConcat(InTenant(b), db.userRoles, [row]);
    FilterConcat(InTenant(b), seen.userRoles, [row]);
    FilterAll(InTenant(b), seen.userRoles);
    SeenRows(db, db.userRoles + [row], b);
    SeenRows(seen, seen.userRoles + [row], b);
    assert row.tenant == b ==> (row in db.userRoles <==> row in seen.userRoles);
    assert row in db.userRoles ==> RowOk(db, row);
  }

  lemma DeleteCommutes(db: Db, row: UserRole, b: nat)
    ensures Seen(DeleteUserRole(db, row), b) == Seen(DeleteUserRole(Seen(db, b), row), b)
  {
    var seen := Seen(db, b);
    SeenTwice(db, b);
    FilterCommutes(InTenant(b), r => r != row, db.userRoles);
    FilterCommutes(InTenant(b), r => r != row, seen.userRoles);
    FilterAll(InTenant(b), seen.userRoles);
    SeenRows(db, Filter(r => r != row, db.userRoles), b);
    SeenRows(seen, Filter(r => r != row, seen.userRoles), b);
  }

  lemma ResolveInPart(db: Db, name: string, b: nat)
    requires UniqueRoles(db.roles)
    ensures GetRoleInTenant(Seen(db, b).roles, name, b) == GetRoleInTenant(db.roles, name, b)
    ensures GetRoleInTenant(View(db, Restricted(Some(b))).roles, name, b) == GetRoleInTenant(db.roles, name, b)
  {
    SeenKeepsRoles(db, b, name, Some(b));
    SeenKeepsRoles(db, b, name, None);
  }

  lemma WriteCommutes(db: Db, user: nat, name: string, project: Option<nat>, b: nat)
    requires Inv(db) && (project.Some? ==> IsProjectInTenant(db, project.value, b))
    ensures Agree(AssignRoleToUser(db, Restricted(Some(b)), user, name, b, project),
                  AssignRoleToUser(Seen(db, b), Restricted(Some(b)), user, name, b, project), b)
  {
    ResolveInPart(db, name, b);
    SeenTwice(db, b);
    var role := GetRoleInTenant(db.roles, name, b);
    if role.Some? {
      InsertCommutes(db, UserRole(user, role.value, b, project), b);
    }
  }

  predicate Known(roles: map<nat, Role>, name: string) {
    exists id | id in roles :: roles[id].name == name
  }

  /** The lookup a revocation starts with, among all tenants' roles, finds something in both or in neither. */
  predicate KnownAlike(d: Db, e: Db, op: Op) {
    op.OpRevoke? && IdText.Parse(op.user).Some? ==> (Known(d.roles, op.name) <==> Known(e.roles, op.name))
  }

  /**
   A step on the whole and on the tenant's part leave that part the same, and reply the same
   exactly if the lookup agrees.
   */
  ghost predicate Commutes(db: Db, op: Op, b: nat) {
    var whole, part := Step(db, op), Step(Seen(db, b), op);
    && Seen(whole.db, b) == Seen(part.db, b)
    && (whole.reply == part.reply <==> KnownAlike(db, Seen(db, b), op))
  }

  /** The identifier a new role or project gets is unused. */
  predicate FreshIn(db: Db, op: Op) {
    && (op.OpCreateRole? ==> op.id !in db.roles)
    && (op.OpCreateProject? ==> op.id !in db.projects)
  }

  lemma AssignCommutes(db: Db, op: Op, b: nat)
    requires Inv(db) && op.OpAssign? && op.tenant == b
    ensures Commutes(db, op, b)
  {
    hide IdText.Parse;
    ResolveInPart(db, op.name, b);
    SeenTwice(db, b);
    assert ValidateAssign(Seen(db, b), b, op.name, op.project) == ValidateAssign(db, b, op.name, op.project);
    var id := IdText.Parse(op.user);
    if id.Some? && ValidateAssign(db, b, op.name, op.project) == Done {
      WriteCommutes(db, id.value, op.name, OptionalProject(op.project), b);
    }
  }

  lemma RevokeRoleCommutes(db: Db, user: string, name: string, project: ProjectArg, b: nat)
    ensures Seen(RevokeRole(db, b, user, name, project).db, b)
         == Seen(RevokeRole(Seen(db, b), b, user, name, project).db, b)
  {
    hide IdText.Parse;
    SeenTwice(db, b);
    var id := IdText.Parse(user);
    var role := NamedRole(Seen(db, b).roles, name);
    assert NamedRole(db.roles, name).None? ==> role.None?;
    if id.Some? && role.Some? {
      DeleteCommutes(db, UserRole(id.value, role.value, b, OptionalProject(project)), b);
    }
    hide Seen, DeleteUserRole;
  }

  /** A revocation's reply: the text, then the lookup among all roles, then the roles the tenant sees. */
  lemma RevokeReply(db: Db, user: string, name: string, project: ProjectArg, b: nat)
    ensures RevokeRole(db, b, user, name, project).reply ==
      if IdText.Parse(user).None? then InvalidArgument
      else if !Known(db.roles, name) then NotFound
      else if Ambiguous(View(db, Restricted(Some(b))).roles, name) then Internal
      else Done
  {
    hide IdText.Parse, View, Ambiguous, DeleteUserRole;
    assert NamedRole(db.roles, name).None? <==> !Known(db.roles, name);
  }

  /** Where a tenant sees the same roles, it gets the same reply to a revocation exactly if the lookup agrees. */
  lemma RevokeRepliesAgree(d: Db, e: Db, op: Op, b: nat)
    requires op.OpRevoke? && op.tenant == b
    requires View(d, Restricted(Some(b))).roles == View(e, Restricted(Some(b))).roles
    ensures Step(d, op).reply == Step(e, op).reply <==> KnownAlike(d, e, op)
  {
    RevokeReply(d, op.user, op.name, op.project, b);
    RevokeReply(e, op.user, op.name, op.project, b);
    hide IdText.Parse, RevokeRole, View, Ambiguous, Known;
  }

  lemma RevokeCommutes(db: Db, op: Op, b: nat)
    requires op.OpRevoke? && op.tenant == b
    ensures Commutes(db, op, b)
  {
    SeenTwice(db, b);
    RevokeRoleCommutes(db, op.user, op.name, op.project, b);
    RevokeRepliesAgree(db, Seen(db, b), op, b);
    hide Seen, RevokeRole, View, KnownAlike;
  }

  /**
   A revocation replies as it would if the tenant's own part were all there is, exactly if the
   user's text is no identifier, nobody has a role of that name, or the tenant sees one.
   */
  lemma RevokeReplyIsLocal(db: Db, user: string, name: string, project: ProjectArg, b: nat)
    ensures RevokeRole(db, b, user, name, project).reply == RevokeRole(Seen(db, b), b, user, name, project).reply
      <==> IdText.Parse(user).None? || !Known(db.roles, name) || Known(Seen(db, b).roles, name)
  {
    SeenTwice(db, b);
    RevokeReply(db, user, name, project, b);
    RevokeReply(Seen(db, b), user, name, project, b);
    assert Known(Seen(db, b).roles, name) ==> Known(db.roles, name);
    hide IdText.Parse, RevokeRole, View, Seen, Ambiguous, Known;
  }

  lemma SeenGrants(db: Db, g: (nat, string), b: nat)
    ensures g in Seen(db, b).grants <==> g in db.grants && g.0 in Seen(db, b).roles
  {
  }

  lemma AddedRole(db: Db, id: nat, role: Role, b: nat)
    requires id !in db.roles && role.tenant == Some(b)
    ensures Seen(db.(roles := db.roles[id := role]), b).roles == Seen(db, b).roles[id := role]
  {
  }

  lemma AddRoleCommutes(db: Db, id: nat, role: Role, b: nat)
    requires id !in db.roles && role.tenant == Some(b)
    requires forall g | g in db.grants :: g.0 in db.roles
    ensures Seen(db.(roles := db.roles[id := role]), b)
         == Seen(Seen(db, b).(roles := Seen(db, b).roles[id := role]), b)
  {
    SeenTwice(db, b);
    var d, e := db.(roles := db.roles[id := role]), Seen(db, b).(roles := Seen(db, b).roles[id := role]);
    AddedRole(db, id, role, b);
    AddedRole(Seen(db, b), id, role, b);
    forall g ensures g in Seen(d, b).grants <==> g in Seen(e, b).grants {
      SeenGrants(d, g, b);
      SeenGrants(e, g, b);
      SeenGrants(db, g, b);
    }
    assert Seen(d, b).grants == Seen(e, b).grants;
  }

  lemma NewRoleCommutes(db: Db, name: string, id: nat, b: nat)
    requires Inv(db) && id !in db.roles
    ensures var whole, part := CreateRole(db, b, name, id), CreateRole(Seen(db, b), b, name, id);
      Seen(whole.db, b) == Seen(part.db, b) && whole.reply == part.reply
  {
    SeenKeepsRoles(db, b, name, Some(b));
    SeenTwice(db, b);
    SeenPlatform(db, db.users, b);
    AddRoleCommutes(db, id, Role(name, Some(b)), b);
    assert id !in Seen(db, b).roles;
    hide Seen, Inv, FindRole;
  }

  lemma CreateRoleCommutes(db: Db, op: Op, b: nat)
    requires Inv(db) && FreshIn(db, op) && op.OpCreateRole? && op.tenant == b
    ensures Commutes(db, op, b)
  {
    NewRoleCommutes(db, op.name, op.id, b);
    hide Seen, CreateRole, Inv;
  }

  lemma OneGrantCommutes(db: Db, g: (nat, string), b: nat)
    ensures Seen(db.(grants := db.grants + {g}), b) == Seen(Seen(db, b).(grants := Seen(db, b).grants + {g}), b)
    ensures Seen(db.(grants := db.grants - {g}), b) == Seen(Seen(db, b).(grants := Seen(db, b).grants - {g}), b)
  {
    forall h: (nat, string) | h.0 in Seen(db, b).roles ensures h in Seen(db, b).grants <==> h in db.grants {
      SeenGrants(db, h, b);
    }
    hide Seen;
    GrantPart(db, db.grants + {g}, Seen(db, b).grants + {g}, b);
    GrantPart(db, db.grants - {g}, Seen(db, b).grants - {g}, b);
  }

  lemma GrantsCommute(db: Db, name: string, permission: string, b: nat)
    requires Inv(db)
    ensures var whole := GrantPermission(db, b, name, permission);
      var part := GrantPermission(Seen(db, b), b, name, permission);
      Seen(whole.db, b) == Seen(part.db, b) && whole.reply == part.reply
    ensures var whole := RevokePermission(db, b, name, permission);
      var part := RevokePermission(Seen(db, b), b, name, permission);
      Seen(whole.db, b) == Seen(part.db, b) && whole.reply == part.reply
  {
    SeenKeepsRoles(db, b, name, Some(b));
    SeenTwice(db, b);
    var role := FindRole(db.roles, Role(name, Some(b)));
    assert Seen(db, b).catalog == db.catalog;
    if role.Some? {
      OneGrantCommutes(db, (role.value, permission), b);
    }
    hide Inv, Seen, FindRole;
  }

  lemma GrantCommutes(db: Db, op: Op, b: nat)
    requires Inv(db) && (op.OpGrant? || op.OpRevokeGrant?) && op.tenant == b
    ensures Commutes(db, op, b)
  {
    GrantsCommute(db, op.name, op.permission, b);
    hide Inv, Seen, GrantPermission, RevokePermission;
  }

  lemma GrantPart(db: Db, grants: set<(nat, string)>, part: set<(nat, string)>, b: nat)
    requires forall g: (nat, string) | g.0 in Seen(db, b).roles :: g in grants <==> g in part
    ensures Seen(db.(grants := grants), b) == Seen(Seen(db, b).(grants := part), b)
  {
    SeenTwice(db, b);
    var d, e := db.(grants := grants), Seen(db, b).(grants := part);
    forall g ensures g in Seen(d, b).grants <==> g in Seen(e, b).grants {
      SeenGrants(d, g, b);
      SeenGrants(e, g, b);
    }
    assert Seen(d, b).grants == Seen(e, b).grants;
  }

  lemma DeleteRoleCommutes(db: Db, op: Op, b: nat)
    requires Inv(db) && op.OpDeleteRole? && op.tenant == b
    ensures Commutes(db, op, b)
  {
    SeenKeepsRoles(db, b, op.name, Some(b));
    var role := FindRole(db.roles, Role(op.name, Some(b)));
    SeenTwice(db, b);
    if role.Some? {
      DropCommutes(db, role.value, b);
    }
  }

  lemma DropRoles(db: Db, id: nat, b: nat)
    ensures Seen(DropRole(db, id), b).roles == Seen(db, b).roles - {id}
    ensures Seen(DropRole(Seen(db, b), id), b).roles == Seen(db, b).roles - {id}
  {
  }

  lemma DropGrants(db: Db, id: nat, b: nat)
    ensures Seen(DropRole(db, id), b).grants == Seen(DropRole(Seen(db, b), id), b).grants
  {
    DropRoles(db, id, b);
    var d, e := DropRole(db, id), DropRole(Seen(db, b), id);
    forall g ensures g in Seen(d, b).grants <==> g in Seen(e, b).grants {
      SeenGrants(d, g, b);
      SeenGrants(e, g, b);
      SeenGrants(db, g, b);
    }
  }

  lemma RowsCommute(db: Db, keep: UserRole -> bool, b: nat)
    ensures Filter(InTenant(b), Filter(keep, db.userRoles)) == Filter(InTenant(b), Filter(keep, Seen(db, b).userRoles))
  {
    FilterCommutes(InTenant(b), keep, db.userRoles);
    FilterCommutes(InTenant(b), keep, Seen(db, b).userRoles);
    FilterAll(InTenant(b), Seen(db, b).userRoles);
  }

  lemma DropCommutes(db: Db, id: nat, b: nat)
    ensures Seen(DropRole(db, id), b) == Seen(DropRole(Seen(db, b), id), b)
  {
    RowsCommute(db, (r: UserRole) => r.role != id, b);
    DropRoles(db, id, b);
    DropGrants(db, id, b);
    var d, e := Seen(DropRole(db, id), b), Seen(DropRole(Seen(db, b), id), b);
    assert d.userRoles == e.userRoles;
    assert d.projects == e.projects;
    assert d.members == e.members;
  }

  lemma SeenMembers(db: Db, m: (nat, nat), b: nat)
    ensures m in Seen(db, b).members <==> m in db.members && m.1 == b
  {
  }

  lemma DropUserCommutes(db: Db, user: nat, b: nat)
    ensures Seen(DropUser(db, user), b) == Seen(DropUser(Seen(db, b), user), b)
  {
    RowsCommute(db, (r: UserRole) => r.user != user, b);
    var whole, part := DropUser(db, user), DropUser(Seen(db, b), user);
    SeenTwice(db, b);
    forall m ensures m in Seen(whole, b).members <==> m in Seen(part, b).members {
      SeenMembers(whole, m, b);
      SeenMembers(part, m, b);
      SeenMembers(db, m, b);
    }
    var d, e := Seen(whole, b), Seen(part, b);
    assert d.userRoles == e.userRoles;
    assert d.roles == e.roles;
    assert d.grants == e.grants;
    assert d.projects == e.projects;
    assert d.members == e.members;
  }

  lemma DeleteUserCommutes(db: Db, op: Op, b: nat)
    requires op.OpDeleteUser?
    ensures Commutes(db, op, b)
  {
    hide IdText.Parse, Seen, DropUser;
    SeenTwice(db, b);
    if IdText.Parse(op.user).Some? {
      DropUserCommutes(db, IdText.Parse(op.user).value, b);
    }
  }

  lemma LeaveCommutes(db: Db, m: (nat, nat), b: nat)
    ensures Seen(db.(members := db.members - {m}), b)
         == Seen(Seen(db, b).(members := Seen(db, b).members - {m}), b)
  {
    var whole, part := db.(members := db.members - {m}), Seen(db, b).(members := Seen(db, b).members - {m});
    SeenTwice(db, b);
    forall n ensures n in Seen(whole, b).members <==> n in Seen(part, b).members {
      SeenMembers(whole, n, b);
      SeenMembers(part, n, b);
      SeenMembers(db, n, b);
    }
    OnlyMembers(db, whole.members, b);
    OnlyMembers(Seen(db, b), part.members, b);
    hide Seen;
    assert Seen(whole, b).members == Seen(part, b).members;
  }

  lemma OnlyMembers(db: Db, members: set<(nat, nat)>, b: nat)
    ensures Seen(db.(members := members), b)
         == Seen(db, b).(members := Seen(db.(members := members), b).members)
  {
  }

  lemma MembersCommute(db: Db, op: Op, b: nat)
    requires Inv(db) && (op.OpAddMember? || op.OpRemoveMember?) && op.tenant == b
    ensures Commutes(db, op, b)
  {
    hide IdText.Parse, GetUserByEmail, Inv, Seen;
    SeenTwice(db, b);
    SeenPlatform(db, db.users, b);
    if op.OpAddMember? {
      var user := GetUserByEmail(db.users, op.email);
      if user.Some? {
        JoinCommutes(db, Seen(db, b), (user.value, b), b);
      }
    } else if IdText.Parse(op.user).Some? {
      LeaveCommutes(db, (IdText.Parse(op.user).value, b), b);
    }
  }

  lemma SlugInPart(db: Db, slug: string, b: nat)
    ensures SlugTaken(Seen(db, b), b, slug) == SlugTaken(db, b, slug)
  {
    if p :| p in db.projects && db.projects[p] == Project(b, slug) {
      assert p in Seen(db, b).projects;
    }
  }

  lemma AddedProject(db: Db, id: nat, slug: string, b: nat)
    requires id !in db.projects
    ensures Seen(db.(projects := db.projects[id := Project(b, slug)]), b)
         == Seen(db, b).(projects := Seen(db, b).projects[id := Project(b, slug)])
  {
    assert Seen(db.(projects := db.projects[id := Project(b, slug)]), b).projects
        == Seen(db, b).projects[id := Project(b, slug)];
  }

  lemma CreateProjectCommutes(db: Db, slug: string, name: string, id: nat, b: nat)
    requires id !in db.projects
    ensures var whole, part := CreateProject(db, b, slug, name, id), CreateProject(Seen(db, b), b, slug, name, id);
      Seen(whole.db, b) == Seen(part.db, b) && whole.reply == part.reply
  {
    SeenTwice(db, b);
    SlugInPart(db, slug, b);
    assert id !in Seen(db, b).projects;
    AddedProject(db, id, slug, b);
    AddedProject(Seen(db, b), id, slug, b);
    SeenPlatform(db, db.users, b);
    hide Seen, SlugTaken;
  }

  lemma ProjectCommutes(db: Db, op: Op, b: nat)
    requires Inv(db) && FreshIn(db, op) && op.OpCreateProject? && op.tenant == b
    ensures Commutes(db, op, b)
  {
    CreateProjectCommutes(db, op.slug, op.name, op.id, b);
    hide Seen, CreateProject, Inv;
  }

  lemma SeenRowOk(db: Db, r: UserRole, b: nat)
    requires r in Seen(db, b).userRoles && RowOk(db, r)
    ensures RowOk(Seen(db, b), r)
  {
  }

  lemma SeenInv(db: Db, b: nat)
    requires Inv(db)
    ensures Inv(Seen(db, b))
  {
    var seen := Seen(db, b);
    FilterDistinct(InTenant(b), db.userRoles);
    forall r | r in seen.userRoles ensures RowOk(seen, r) {
      SeenRowOk(db, r, b);
    }
    hide RowOk;
  }

  lemma JoinCommutes(d: Db, e: Db, m: (nat, nat), b: nat)
    requires Seen(d, b) == Seen(e, b)
    ensures Seen(d.(members := d.members + {m}), b) == Seen(e.(members := e.members + {m}), b)
  {
    var d', e' := d.(members := d.members + {m}), e.(members := e.members + {m});
    forall n ensures n in Seen(d', b).members <==> n in Seen(e', b).members {
      SeenMembers(d', n, b);
      SeenMembers(e', n, b);
      SeenMembers(d, n, b);
      SeenMembers(e, n, b);
    }
    assert Seen(d', b) == Seen(d, b).(members := Seen(d', b).members);
    assert Seen(e', b) == Seen(e, b).(members := Seen(e', b).members);
    assert Seen(d', b).members == Seen(e', b).members;
  }

  function Inserted(db: Db, user: nat, role: Option<nat>): Option<Db> {
    if role.None? then Some(db) else InsertUserRole(db, UserRole(user, role.value, DEFAULT_TENANT, None))
  }

  lemma BypassInserts(db: Db, user: nat)
    ensures AssignRoleToUser(db, Bypass, user, "user", DEFAULT_TENANT, None)
         == Inserted(db, user, GetRoleInTenant(db.roles, "user", DEFAULT_TENANT))
  {
    assert View(db, Bypass).roles == db.roles;
    hide View, GetRoleInTenant, InsertUserRole;
  }

  lemma InsertedElsewhere(db: Db, user: nat, role: Option<nat>, b: nat)
    requires user in db.users && DEFAULT_TENANT in db.tenants && b != DEFAULT_TENANT
    ensures Inserted(db, user, role).Some? && Seen(Inserted(db, user, role).value, b) == Seen(db, b)
  {
    if role.Some? {
      InsertElsewhere(db, UserRole(user, role.value, DEFAULT_TENANT, None), b);
    }
    hide Seen;
  }

  /** The insert of a registration, seen from the default tenant and from any other. */
  lemma RegisterInsert(created: Db, user: nat, b: nat)
    requires Inv(created) && user in created.users && DEFAULT_TENANT in created.tenants
    ensures var whole := AssignRoleToUser(created, Bypass, user, "user", DEFAULT_TENANT, None);
      var part := AssignRoleToUser(Seen(created, b), Bypass, user, "user", DEFAULT_TENANT, None);
      whole.Some? && part.Some? && Seen(whole.value, b) == Seen(part.value, b)
  {
    var seen := Seen(created, b);
    SeenTwice(created, b);
    SeenPlatform(created, created.users, b);
    BypassInserts(created, user);
    BypassInserts(seen, user);
    var role := GetRoleInTenant(created.roles, "user", DEFAULT_TENANT);
    ResolveInPart(created, "user", b);
    if b == DEFAULT_TENANT && role.Some? {
      InsertCommutes(created, UserRole(user, role.value, b, None), b);
    }
    hide Seen, Inv, GetRoleInTenant, AssignRoleToUser;
    if b != DEFAULT_TENANT {
      InsertedElsewhere(created, user, role, b);
      InsertedElsewhere(seen, user, GetRoleInTenant(seen.roles, "user", DEFAULT_TENANT), b);
    }
  }

  /** What a tenant sees of the platform's own tables is all of them. */
  lemma SeenPlatform(db: Db, users: map<nat, string>, b: nat)
    ensures Seen(db, b).users == db.users && Seen(db, b).tenants == db.tenants
    ensures Seen(db.(users := users), b) == Seen(db, b).(users := users)
  {
  }

  lemma RegisterCommutes(db: Db, op: Op, b: nat)
    requires Inv(db) && op.OpRegister?
    ensures Commutes(db, op, b)
  {
    hide Seen, Inv, AssignRoleToUser;
    SeenTwice(db, b);
    var users := db.users[op.uid := op.email];
    SeenPlatform(db, users, b);
    if op.email != "" && op.uid !in db.users && op.email !in db.users.Values && DEFAULT_TENANT in db.tenants {
      var created, part := db.(users := users), Seen(db, b).(users := users);
      UserKeepsInv(db, op.uid, op.email);
      RegisterInsert(created, op.uid, b);
      JoinCommutes(AssignRoleToUser(created, Bypass, op.uid, "user", DEFAULT_TENANT, None).value,
                   AssignRoleToUser(part, Bypass, op.uid, "user", DEFAULT_TENANT, None).value,
                   (op.uid, DEFAULT_TENANT), b);
    }
  }

  lemma TenantKeepsInv(db: Db, m: (nat, nat), slug: string)
    requires Inv(db) && m.0 in db.users && m.1 !in db.tenants
    ensures Inv(db.(tenants := db.tenants[m.1 := slug], members := db.members + {m}))
  {
  }

  lemma NewTenantSeen(db: Db, tenant: nat, slug: string, b: nat)
    ensures Seen(db.(tenants := db.tenants[tenant := slug]), b)
         == Seen(db, b).(tenants := db.tenants[tenant := slug])
  {
  }

  lemma NewTenantRows(db: Db, m: (nat, nat), slug: string, b: nat)
    requires Inv(db) && m.0 in db.users && m.1 !in db.tenants
    ensures var whole := db.(tenants := db.tenants[m.1 := slug], members := db.members + {m});
      var part := Seen(db, b).(tenants := db.tenants[m.1 := slug], members := Seen(db, b).members + {m});
      Inv(whole) && Inv(part) && Seen(whole, b) == Seen(part, b)
  {
    SeenTwice(db, b);
    SeenInv(db, b);
    SeenPlatform(db, db.users, b);
    TenantKeepsInv(db, m, slug);
    TenantKeepsInv(Seen(db, b), m, slug);
    NewTenantSeen(db, m.1, slug, b);
    NewTenantSeen(Seen(db, b), m.1, slug, b);
    hide Inv, Seen;
    JoinCommutes(db.(tenants := db.tenants[m.1 := slug]), Seen(db, b).(tenants := db.tenants[m.1 := slug]), m, b);
  }

  /** The transaction of a new tenant up to its end, from its two first rows on. */
  function Founded(db: Db, m: (nat, nat), slug: string, admin: Option<nat>): Option<Db> {
    var created := db.(tenants := db.tenants[m.1 := slug], members := db.members + {m});
    if admin.None? then Some(created) else InsertUserRole(created, UserRole(m.0, admin.value, m.1, None))
  }

  lemma FoundedCommutes(db: Db, m: (nat, nat), slug: string, admin: Option<nat>, b: nat)
    requires Inv(db) && m.0 in db.users && m.1 !in db.tenants
    ensures Agree(Founded(db, m, slug, admin), Founded(Seen(db, b), m, slug, admin), b)
  {
    NewTenantRows(db, m, slug, b);
    SeenPlatform(db, db.users, b);
    hide Seen, InsertUserRole;
    var whole := db.(tenants := db.tenants[m.1 := slug], members := db.members + {m});
    var part := Seen(db, b).(tenants := db.tenants[m.1 := slug], members := Seen(db, b).members + {m});
    if admin.Some? {
      var row := UserRole(m.0, admin.value, m.1, None);
      InsertCommutes(whole, row, b);
      InsertCommutes(part, row, b);
    }
  }

  lemma CreateTenantCommutes(db: Db, creator: nat, tenant: nat, slug: string, name: string, b: nat)
    requires Inv(db)
    ensures var whole := CreateTenant(db, creator, tenant, slug, name);
      var part := CreateTenant(Seen(db, b), creator, tenant, slug, name);
      Seen(whole.db, b) == Seen(part.db, b) && whole.reply == part.reply
  {
    SeenKeepsRoles(db, b, "admin", None);
    hide Seen, Inv, InsertUserRole, FindRole;
    SeenTwice(db, b);
    SeenPlatform(db, db.users, b);
    if slug != "" && name != "" && tenant !in db.tenants && slug !in db.tenants.Values && creator in db.users {
      FoundedCommutes(db, (creator, tenant), slug, FindRole(db.roles, Role("admin", None)), b);
    }
  }

  lemma NewTenantCommutes(db: Db, op: Op, b: nat)
    requires Inv(db) && op.OpCreateTenant?
    ensures Commutes(db, op, b)
  {
    CreateTenantCommutes(db, op.creator, op.id, op.slug, op.name, b);
    hide Seen, CreateTenant, Inv;
  }

  /**
   For the tenant an operation acts in, or for any tenant if it acts on the platform, its part of
   the tables is all that counts.
   */
  lemma OwnPartDecides(db: Db, op: Op, b: nat)
    requires Inv(db) && FreshIn(db, op) && (ActsIn(op).None? || ActsIn(op) == Some(b))
    ensures Commutes(db, op, b)
  {
    hide Inv, FreshIn, Commutes;
    match op
    case OpCreateRole(_, _, _) => CreateRoleCommutes(db, op, b);
    case OpDeleteRole(_, _) => DeleteRoleCommutes(db, op, b);
    case OpAssign(_, _, _, _) => AssignCommutes(db, op, b);
    case OpRevoke(_, _, _, _) => RevokeCommutes(db, op, b);
    case OpCreateProject(_, _, _, _) => ProjectCommutes(db, op, b);
    case OpAddMember(_, _) => MembersCommute(db, op, b);
    case OpRemoveMember(_, _) => MembersCommute(db, op, b);
    case OpRegister(_, _) => RegisterCommutes(db, op, b);
    case OpCreateTenant(_, _, _, _) => NewTenantCommutes(db, op, b);
    case OpDeleteUser(_) => DeleteUserCommutes(db, op, b);
    case _ => GrantCommutes(db, op, b);
  }

  /**
   Registration writes the same rows whether the service bypasses the policy or runs under its
   default-tenant setting.
   */
  lemma RegisterUnderPolicy(db: Db, user: nat, email: string)
    requires Inv(db)
    ensures Register(db, Restricted(Some(DEFAULT_TENANT)), user, email) == Register(db, Bypass, user, email)
  {
    var created := db.(users := db.users[user := email]);
    ResolveInPart(created, "user", DEFAULT_TENANT);
    assert View(created, Bypass).roles == created.roles;
  }
}
