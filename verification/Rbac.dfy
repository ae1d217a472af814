/**
 The tenant-scoped RBAC tables, the row-level-security policy over them, the queries, and
 the handlers that change them. A handler is one transaction here.
 */
module Rbac {
  import opened Seqs
  import IdText

  datatype Role = Role(name: string, tenant: Option<nat>)
  datatype UserRole = UserRole(user: nat, role: nat, tenant: nat, project: Option<nat>)
  datatype Project = Project(tenant: nat, slug: string)

  /** `users` holds each user's e-mail, `tenants` each tenant's slug, `catalog` the permission names in order. */
  datatype Db = Db(
    users: map<nat, string>,
    tenants: map<nat, string>,
    catalog: seq<string>,
    roles: map<nat, Role>,
    grants: set<(nat, string)>,
    userRoles: seq<UserRole>,
    projects: map<nat, Project>,
    members: set<(nat, nat)>)

  const DEFAULT_TENANT := 1

  // ── Row-level security ────────────────────────────────────

  /** How a statement runs: as the superuser, or with `app.tenant_id` set or unset under the policy. */
  datatype Session = Bypass | Restricted(setting: Option<nat>)

  /** The fail-closed policy: a row without a tenant, or of the tenant the setting names. */
  predicate Admits(s: Session, owner: Option<nat>) {
    s.Bypass? || owner.None? || owner == s.setting
  }

  function Admitted(s: Session): UserRole -> bool {
    (r: UserRole) => Admits(s, Some(r.tenant))
  }

  /** The tables as the policy shows them to a session. */
  function View(db: Db, s: Session): Db {
    db.(roles := map id | id in db.roles && Admits(s, db.roles[id].tenant) :: db.roles[id],
        userRoles := Filter(Admitted(s), db.userRoles),
        projects := map p | p in db.projects && Admits(s, Some(db.projects[p].tenant)) :: db.projects[p])
  }

  // ── Reads ─────────────────────────────────────────────────

  /** Tenant-wide assignments always apply; project-scoped ones only to a token that names the project. */
  predicate Applies(r: UserRole, user: nat, tenant: nat, project: Option<nat>) {
    r.user == user && r.tenant == tenant && (r.project.None? || r.project == project)
  }

  function NamesOf(roles: map<nat, Role>, rows: seq<UserRole>): seq<string> {
    if rows == [] then []
    else (if rows[0].role in roles then [roles[rows[0].role].name] else []) + NamesOf(roles, rows[1..])
  }

  predicate NameLe(a: string, b: string) {
    a == "" || (b != "" && (a[0] < b[0] || (a[0] == b[0] && NameLe(a[1..], b[1..]))))
  }

  function InsertName(name: string, s: seq<string>): seq<string> {
    if s == [] || NameLe(name, s[0]) then [name] + s else [s[0]] + InsertName(name, s[1..])
  }

  function OrderByName(s: seq<string>): seq<string> {
    if s == [] then [] else InsertName(s[0], OrderByName(s[1..]))
  }

  function GetUserRolesScoped(db: Db, user: nat, tenant: nat, project: Option<nat>): seq<string> {
    OrderByName(NamesOf(db.roles, Filter((r: UserRole) => Applies(r, user, tenant, project), db.userRoles)))
  }

  predicate HoldsScoped(db: Db, user: nat, tenant: nat, project: Option<nat>, permission: string) {
    exists r | r in db.userRoles :: Applies(r, user, tenant, project) && (r.role, permission) in db.grants
  }

  function GetUserPermissionsScoped(db: Db, user: nat, tenant: nat, project: Option<nat>): seq<string> {
    Filter(q => HoldsScoped(db, user, tenant, project, q), db.catalog)
  }

  /** The view of a token without a tenant claim: every assignment counts. */
  function GetUserPermissions(db: Db, user: nat): seq<string> {
    Filter(q => exists r | r in db.userRoles :: r.user == user && (r.role, q) in db.grants, db.catalog)
  }

  ghost function FindRole(roles: map<nat, Role>, role: Role): Option<nat> {
    if exists id :: id in roles && roles[id] == role then
      var id :| id in roles && roles[id] == role; Some(id)
    else None
  }

  /** The tenant's own role of that name, else the template. */
  ghost function GetRoleInTenant(roles: map<nat, Role>, name: string, tenant: nat): Option<nat> {
    var own := FindRole(roles, Role(name, Some(tenant)));
    if own.Some? then own else FindRole(roles, Role(name, None))
  }

  /** E-mails are unique, so there is at most one such user. */
  ghost function GetUserByEmail(users: map<nat, string>, email: string): Option<nat> {
    if exists u :: u in users && users[u] == email then
      var u :| u in users && users[u] == email; Some(u)
    else None
  }

  predicate IsProjectInTenant(db: Db, project: nat, tenant: nat) {
    project in db.projects && db.projects[project].tenant == tenant
  }

  // ── Writes under the policy ───────────────────────────────

  /** `None` is a database error: the policy's check, a foreign key, or a unique index, which sees all rows. */
  ghost function InsertRole(db: Db, s: Session, id: nat, role: Role): Option<Db> {
    if !Admits(s, role.tenant) || FindRole(db.roles, role).Some? || id in db.roles
       || (role.tenant.Some? && role.tenant.value !in db.tenants) then None
    else Some(db.(roles := db.roles[id := role]))
  }

  function InsertProject(db: Db, s: Session, id: nat, project: Project): Option<Db> {
    if !Admits(s, Some(project.tenant)) || SlugTaken(db, project.tenant, project.slug)
       || project.tenant !in db.tenants || id in db.projects then None
    else Some(db.(projects := db.projects[id := project]))
  }

  predicate SlugTaken(db: Db, tenant: nat, slug: string) {
    exists p | p in db.projects :: db.projects[p] == Project(tenant, slug)
  }

  function InsertMember(db: Db, s: Session, user: nat, tenant: nat): Option<Db> {
    if !Admits(s, Some(tenant)) || user !in db.users || tenant !in db.tenants then None
    else Some(db.(members := db.members + {(user, tenant)}))
  }

  /** A delete passes over the rows the policy hides. */
  function DeleteMember(db: Db, s: Session, user: nat, tenant: nat): Db {
    if !Admits(s, Some(tenant)) then db else db.(members := db.members - {(user, tenant)})
  }

  ghost function DeleteRoleRow(db: Db, s: Session, name: string, tenant: nat): Db {
    var role := FindRole(db.roles, Role(name, Some(tenant)));
    if role.None? || !Admits(s, Some(tenant)) then db else DropRole(db, role.value)
  }

  /** The foreign keys cascade past the policy. */
  function DropRole(db: Db, id: nat): Db {
    db.(roles := db.roles - {id},
        grants := (set g | g in db.grants && g.0 != id),
        userRoles := Filter((r: UserRole) => r.role != id, db.userRoles))
  }

  // ── Statements on user_roles ──────────────────────────────

  /** `None` is a database error: the policy's check, or a foreign key. */
  ghost function AssignRoleToUser(db: Db, s: Session, user: nat, name: string, tenant: nat, project: Option<nat>)
    : Option<Db>
  {
    var role := GetRoleInTenant(View(db, s).roles, name, tenant);
    if role.None? then Some(db)
    else if !Admits(s, Some(tenant)) then None
    else InsertUserRole(db, UserRole(user, role.value, tenant, project))
  }

  function InsertUserRole(db: Db, row: UserRole): Option<Db> {
    if row in db.userRoles then Some(db)
    else if row.user !in db.users || row.tenant !in db.tenants then None
    else if row.project.Some? && row.project.value !in db.projects then None
    else Some(db.(userRoles := db.userRoles + [row]))
  }

  predicate Ambiguous(roles: map<nat, Role>, name: string) {
    exists i, j | i in roles && j in roles :: i != j && roles[i].name == name && roles[j].name == name
  }

  ghost function NamedRole(roles: map<nat, Role>, name: string): Option<nat> {
    if exists id :: id in roles && roles[id].name == name then
      var id :| id in roles && roles[id].name == name; Some(id)
    else None
  }

  /** The role id comes from a scalar subquery, which fails when the session sees two roles of that name. */
  ghost function RevokeRoleFromUser(db: Db, s: Session, user: nat, name: string, tenant: nat, project: Option<nat>)
    : Option<Db>
  {
    var roles := View(db, s).roles;
    if Ambiguous(roles, name) then None
    else
      var role := NamedRole(roles, name);
      if role.None? || !Admits(s, Some(tenant)) then Some(db)
      else Some(DeleteUserRole(db, UserRole(user, role.value, tenant, project)))
  }

  function DeleteUserRole(db: Db, row: UserRole): Db {
    db.(userRoles := Filter(r => r != row, db.userRoles))
  }

  // ── Handlers ──────────────────────────────────────────────

  datatype Reply = Done | InvalidArgument | FailedPrecondition | NotFound | AlreadyExists | Internal
  datatype Outcome = Outcome(db: Db, reply: Reply)

  /** The optional project of a request: absent, text that is no identifier, or an identifier. */
  datatype ProjectArg = Absent | Unparsable | Named(id: nat)

  function OptionalProject(arg: ProjectArg): Option<nat> {
    if arg.Named? then Some(arg.id) else None
  }

  predicate IsBuiltinRole(name: string) {
    name == "admin" || name == "user"
  }

  ghost function CreateRole(db: Db, tenant: nat, name: string, id: nat): Outcome {
    if name == "" then Outcome(db, InvalidArgument)
    else if IsBuiltinRole(name) then Outcome(db, FailedPrecondition)
    else
      var after := InsertRole(db, Restricted(Some(tenant)), id, Role(name, Some(tenant)));
      if after.None? then Outcome(db, AlreadyExists) else Outcome(after.value, Done)
  }

  ghost function DeleteRole(db: Db, tenant: nat, name: string): Outcome {
    if IsBuiltinRole(name) then Outcome(db, FailedPrecondition)
    else
      var role := FindRole(db.roles, Role(name, Some(tenant)));
      if role.None? then Outcome(db, NotFound)
      else Outcome(DeleteRoleRow(db, Restricted(Some(tenant)), name, tenant), Done)
  }

  ghost function GrantPermission(db: Db, tenant: nat, name: string, permission: string): Outcome {
    if IsBuiltinRole(name) then Outcome(db, FailedPrecondition)
    else
      var role := FindRole(db.roles, Role(name, Some(tenant)));
      if role.None? then Outcome(db, NotFound)
      else if permission !in db.catalog then Outcome(db, Done)
      else Outcome(db.(grants := db.grants + {(role.value, permission)}), Done)
  }

  ghost function RevokePermission(db: Db, tenant: nat, name: string, permission: string): Outcome {
    if IsBuiltinRole(name) then Outcome(db, FailedPrecondition)
    else
      var role := FindRole(db.roles, Role(name, Some(tenant)));
      if role.None? then Outcome(db, NotFound)
      else Outcome(db.(grants := db.grants - {(role.value, permission)}), Done)
  }

  ghost function ValidateAssign(db: Db, tenant: nat, name: string, project: ProjectArg): Reply {
    if GetRoleInTenant(db.roles, name, tenant).None? then NotFound
    else match project
      case Absent => Done
      case Unparsable => InvalidArgument
      case Named(p) => if IsProjectInTenant(db, p, tenant) then Done else InvalidArgument
  }

  /** The write of one assignment inside `withTenant`, on a user id given as text. */
  ghost function AssignOne(db: Db, tenant: nat, user: string, name: string, project: ProjectArg): Outcome {
    var id := IdText.Parse(user);
    if id.None? then Outcome(db, InvalidArgument)
    else
      var after := AssignRoleToUser(db, Restricted(Some(tenant)), id.value, name, tenant, OptionalProject(project));
      if after.None? then Outcome(db, Internal) else Outcome(after.value, Done)
  }

  ghost function AssignRole(db: Db, tenant: nat, user: string, name: string, project: ProjectArg): Outcome {
    if IdText.Parse(user).None? then Outcome(db, InvalidArgument)
    else if ValidateAssign(db, tenant, name, project) != Done then
      Outcome(db, ValidateAssign(db, tenant, name, project))
    else AssignOne(db, tenant, user, name, project)
  }

  ghost function RevokeRole(db: Db, tenant: nat, user: string, name: string, project: ProjectArg): Outcome {
    var id := IdText.Parse(user);
    if id.None? then Outcome(db, InvalidArgument)
    else if NamedRole(db.roles, name).None? then Outcome(db, NotFound)
    else
      var after := RevokeRoleFromUser(db, Restricted(Some(tenant)), id.value, name, tenant, OptionalProject(project));
      if after.None? then Outcome(db, Internal) else Outcome(after.value, Done)
  }

  function CreateProject(db: Db, tenant: nat, slug: string, name: string, id: nat): Outcome {
    if slug == "" || name == "" then Outcome(db, InvalidArgument)
    else
      var after := InsertProject(db, Restricted(Some(tenant)), id, Project(tenant, slug));
      if after.None? then Outcome(db, AlreadyExists) else Outcome(after.value, Done)
  }

  ghost function AddMember(db: Db, tenant: nat, email: string): Outcome {
    var user := GetUserByEmail(db.users, email);
    if user.None? then Outcome(db, NotFound)
    else
      var after := InsertMember(db, Restricted(Some(tenant)), user.value, tenant);
      if after.None? then Outcome(db, Internal) else Outcome(after.value, Done)
  }

  function RemoveMember(db: Db, tenant: nat, user: string): Outcome {
    var id := IdText.Parse(user);
    if id.None? then Outcome(db, InvalidArgument)
    else Outcome(DeleteMember(db, Restricted(Some(tenant)), id.value, tenant), Done)
  }

  /** Registration inserts under the default tenant's setting, whatever role the service connects as. */
  ghost function Register(db: Db, s: Session, user: nat, email: string): Outcome {
    if email == "" then Outcome(db, InvalidArgument)
    else if user in db.users || email in db.users.Values then Outcome(db, AlreadyExists)
    else
      var created := db.(users := db.users[user := email]);
      var after := AssignRoleToUser(created, s, user, "user", DEFAULT_TENANT, None);
      if after.None? || DEFAULT_TENANT !in db.tenants then Outcome(db, Internal)
      else Outcome(after.value.(members := after.value.members + {(user, DEFAULT_TENANT)}), Done)
  }

  ghost function CreateTenant(db: Db, creator: nat, tenant: nat, slug: string, name: string): Outcome {
    if slug == "" || name == "" then Outcome(db, InvalidArgument)
    else if tenant in db.tenants || slug in db.tenants.Values then Outcome(db, AlreadyExists)
    else if creator !in db.users then Outcome(db, Internal)
    else
      var created := db.(tenants := db.tenants[tenant := slug], members := db.members + {(creator, tenant)});
      var admin := FindRole(db.roles, Role("admin", None));
      var after := if admin.None? then Some(created)
                   else InsertUserRole(created, UserRole(creator, admin.value, tenant, None));
      if after.None? then Outcome(db, Internal) else Outcome(after.value, Done)
  }

  /** A hard delete drops the user with every row that refers to them, in all tenants. */
  function DropUser(db: Db, user: nat): Db {
    db.(users := db.users - {user},
        userRoles := Filter((r: UserRole) => r.user != user, db.userRoles),
        members := (set m | m in db.members && m.0 != user))
  }

  function DeleteUser(db: Db, user: string): Outcome {
    var id := IdText.Parse(user);
    if id.None? then Outcome(db, InvalidArgument) else Outcome(DropUser(db, id.value), Done)
  }

  datatype Op =
    | OpCreateRole(tenant: nat, name: string, id: nat)
    | OpDeleteRole(tenant: nat, name: string)
    | OpGrant(tenant: nat, name: string, permission: string)
    | OpRevokeGrant(tenant: nat, name: string, permission: string)
    | OpAssign(tenant: nat, user: string, name: string, project: ProjectArg)
    | OpRevoke(tenant: nat, user: string, name: string, project: ProjectArg)
    | OpCreateProject(tenant: nat, slug: string, name: string, id: nat)
    | OpAddMember(tenant: nat, email: string)
    | OpRemoveMember(tenant: nat, user: string)
    | OpRegister(uid: nat, email: string)
    | OpCreateTenant(creator: nat, id: nat, slug: string, name: string)
    | OpDeleteUser(user: string)

  /** The tenant an operation acts in; registration, new tenants and user deletion act on the platform. */
  function ActsIn(op: Op): Option<nat> {
    if op.OpRegister? || op.OpCreateTenant? || op.OpDeleteUser? then None else Some(op.tenant)
  }

  ghost function Step(db: Db, op: Op): Outcome {
    match op
    case OpCreateRole(t, name, id) => CreateRole(db, t, name, id)
    case OpDeleteRole(t, name) => DeleteRole(db, t, name)
    case OpGrant(t, name, q) => GrantPermission(db, t, name, q)
    case OpRevokeGrant(t, name, q) => RevokePermission(db, t, name, q)
    case OpAssign(t, user, name, project) => AssignRole(db, t, user, name, project)
    case OpRevoke(t, user, name, project) => RevokeRole(db, t, user, name, project)
    case OpCreateProject(t, slug, name, id) => CreateProject(db, t, slug, name, id)
    case OpAddMember(t, email) => AddMember(db, t, email)
    case OpRemoveMember(t, user) => RemoveMember(db, t, user)
    case OpRegister(user, email) => Register(db, Bypass, user, email)
    case OpCreateTenant(creator, id, slug, name) => CreateTenant(db, creator, id, slug, name)
    case OpDeleteUser(user) => DeleteUser(db, user)
  }

  ghost function Run(db: Db, ops: seq<Op>): Db
    decreases |ops|
  {
    if ops == [] then db else Run(Step(db, ops[0]).db, ops[1..])
  }
}
