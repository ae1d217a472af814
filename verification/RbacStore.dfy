/** The RBAC tables as the service changes them: one method per handler, statement by statement. */
module RbacStore {
  import opened Seqs
  import opened Rbac
  import opened RbacInvariant
  import opened RbacIsolation
  import opened RbacBulk
  import IdText

  predicate UniqueEmails(users: map<nat, string>) {
    forall u, v | u in users && v in users && users[u] == users[v] :: u == v
  }

  class Store {
    var users: map<nat, string>
    var tenants: map<nat, string>
    var catalog: seq<string>
    var roles: map<nat, Role>
    var grants: set<(nat, string)>
    var userRoles: seq<UserRole>
    var projects: map<nat, Project>
    var members: set<(nat, nat)>

    function Snapshot(): Db
      reads this
    {
      Db(users, tenants, catalog, roles, grants, userRoles, projects, members)
    }

    ghost predicate Valid()
      reads this
    {
      Inv(Snapshot()) && UniqueEmails(users)
    }

    lemma ValidIsUnique()
      requires Valid()
      ensures UniqueRoles(roles)
    {
    }

    constructor (users: map<nat, string>, tenants: map<nat, string>, catalog: seq<string>)
      requires UniqueEmails(users)
      ensures Valid() && Snapshot() == Db(users, tenants, catalog, map[], {}, [], map[], {})
    {
      this.users, this.tenants, this.catalog := users, tenants, catalog;
      roles, grants, userRoles, projects, members := map[], {}, [], map[], {};
    }

    // ── Queries ─────────────────────────────────────────────

    method RoleId(role: Role) returns (id: Option<nat>)
      requires UniqueRoles(roles)
      ensures id == FindRole(roles, role)
    {
      if i :| i in roles && roles[i] == role {
        FoundRole(roles, i);
        return Some(i);
      }
      return None;
    }

    method RoleInTenant(name: string, tenant: nat) returns (id: Option<nat>)
      requires UniqueRoles(roles)
      ensures id == GetRoleInTenant(roles, name, tenant)
    {
      id := RoleId(Role(name, Some(tenant)));
      if id.None? {
        id := RoleId(Role(name, None));
      }
    }

    method ValidAssignment(name: string, project: ProjectArg, tenant: nat) returns (reply: Reply)
      requires UniqueRoles(roles)
      ensures reply == ValidateAssign(Snapshot(), tenant, name, project)
    {
      var role := RoleInTenant(name, tenant);
      if role.None? {
        return NotFound;
      }
      if project.Unparsable? {
        return InvalidArgument;
      }
      if project.Named? && !(project.id in projects && projects[project.id].tenant == tenant) {
        return InvalidArgument;
      }
      return Done;
    }

    // ── Roles and their permissions ─────────────────────────

    method CreateRole(tenant: nat, name: string, id: nat) returns (reply: Reply)
      requires Valid()
      modifies this`roles
      ensures Outcome(Snapshot(), reply) == Rbac.CreateRole(old(Snapshot()), tenant, name, id)
      ensures Valid()
    {
      StepKeepsInv(Snapshot(), OpCreateRole(tenant, name, id));
      if name == "" {
        return InvalidArgument;
      }
      if IsBuiltinRole(name) {
        return FailedPrecondition;
      }
      var taken := RoleId(Role(name, Some(tenant)));
      if taken.Some? || tenant !in tenants || id in roles {
        return AlreadyExists;
      }
      roles := roles[id := Role(name, Some(tenant))];
      return Done;
    }

    /** Deletes the role, and with it, through the foreign keys, its grants and its assignments. */
    method DeleteRole(tenant: nat, name: string) returns (reply: Reply)
      requires Valid()
      modifies this`roles, this`grants, this`userRoles
      ensures Outcome(Snapshot(), reply) == Rbac.DeleteRole(old(Snapshot()), tenant, name)
      ensures Valid()
    {
      StepKeepsInv(Snapshot(), OpDeleteRole(tenant, name));
      if IsBuiltinRole(name) {
        return FailedPrecondition;
      }
      var role := RoleId(Role(name, Some(tenant)));
      if role.None? {
        return NotFound;
      }
      var id := role.value;
      roles := roles - {id};
      grants := set g | g in grants && g.0 != id;
      userRoles := Filter((r: UserRole) => r.role != id, userRoles);
      return Done;
    }

    method GrantPermission(tenant: nat, name: string, permission: string) returns (reply: Reply)
      requires Valid()
      modifies this`grants
      ensures Outcome(Snapshot(), reply) == Rbac.GrantPermission(old(Snapshot()), tenant, name, permission)
      ensures Valid()
    {
      StepKeepsInv(Snapshot(), OpGrant(tenant, name, permission));
      if IsBuiltinRole(name) {
        return FailedPrecondition;
      }
      var role := RoleId(Role(name, Some(tenant)));
      if role.None? {
        return NotFound;
      }
      if permission in catalog {
        grants := grants + {(role.value, permission)};
      }
      return Done;
    }

    method RevokePermission(tenant: nat, name: string, permission: string) returns (reply: Reply)
      requires Valid()
      modifies this`grants
      ensures Outcome(Snapshot(), reply) == Rbac.RevokePermission(old(Snapshot()), tenant, name, permission)
      ensures Valid()
    {
      StepKeepsInv(Snapshot(), OpRevokeGrant(tenant, name, permission));
      if IsBuiltinRole(name) {
        return FailedPrecondition;
      }
      var role := RoleId(Role(name, Some(tenant)));
      if role.None? {
        return NotFound;
      }
      grants := grants - {(role.value, permission)};
      return Done;
    }

    // ── Assignments ─────────────────────────────────────────

    /** One write under the policy with the tenant's setting; true on success. */
    method Assign(tenant: nat, user: nat, name: string, project: Option<nat>) returns (ok: bool)
      requires Valid()
      modifies this`userRoles
      ensures ok == AssignRoleToUser(old(Snapshot()), Restricted(Some(tenant)), user, name, tenant, project).Some?
      ensures Snapshot() == if ok
        then AssignRoleToUser(old(Snapshot()), Restricted(Some(tenant)), user, name, tenant, project).value
        else old(Snapshot())
      ensures (project.Some? ==> IsProjectInTenant(old(Snapshot()), project.value, tenant)) ==> Valid()
    {
      hide Inv, GetRoleInTenant;
      ValidIsUnique();
      ghost var before := Snapshot();
      if (project.Some? ==> IsProjectInTenant(before, project.value, tenant))
        && AssignRoleToUser(before, Restricted(Some(tenant)), user, name, tenant, project).Some? {
        AssignKeepsInv(before, Restricted(Some(tenant)), user, name, tenant, project);
      }
      ResolveInPart(before, name, tenant);
      var role := RoleInTenant(name, tenant);
      if role.None? {
        return true;
      }
      var row := UserRole(user, role.value, tenant, project);
      if row in userRoles {
        return true;
      }
      if user !in users || tenant !in tenants || (project.Some? && project.value !in projects) {
        return false;
      }
      userRoles := userRoles + [row];
      return true;
    }

    method AssignRole(tenant: nat, user: string, name: string, project: ProjectArg) returns (reply: Reply)
      requires Valid()
      modifies this`userRoles
      ensures Outcome(Snapshot(), reply) == Rbac.AssignRole(old(Snapshot()), tenant, user, name, project)
      ensures Valid()
    {
      AssignRoleKeepsInv(Snapshot(), tenant, user, name, project);
      var id := IdText.Parse(user);
      if id.None? {
        return InvalidArgument;
      }
      reply := ValidAssignment(name, project, tenant);
      if reply != Done {
        return;
      }
      var ok := Assign(tenant, id.value, name, OptionalProject(project));
      return if ok then Done else Internal;
    }

    /** One user of a list: counted, or added to the failed ones. */
    method AssignListed(tenant: nat, user: string, name: string, project: ProjectArg, done: nat, failed: seq<string>)
      returns (done': nat, failed': seq<string>)
      requires Valid() && ValidateAssign(Snapshot(), tenant, name, project) == Done
      modifies this`userRoles
      ensures Bulk(Snapshot(), done', failed')
           == BulkOne(Bulk(old(Snapshot()), done, failed), tenant, user, name, project)
      ensures Valid() && ValidateAssign(Snapshot(), tenant, name, project) == Done
    {
      hide Inv, ValidateAssign, AssignRoleToUser, IdText.Parse;
      BulkOneValid(Bulk(Snapshot(), done, failed), tenant, user, name, project);
      var id := IdText.Parse(user);
      if id.None? {
        return done, failed + [user];
      }
      var ok := Assign(tenant, id.value, name, OptionalProject(project));
      if !ok {
        return done, failed + [user];
      }
      return done + 1, failed;
    }

    /** Assigns one role to many users; a user that cannot be assigned is reported and skipped. */
    method AssignRoleBulk(tenant: nat, ids: seq<string>, name: string, project: ProjectArg)
      returns (reply: Reply, done: nat, failed: seq<string>)
      requires Valid()
      modifies this`userRoles
      ensures (Bulk(Snapshot(), done, failed), reply)
           == RbacBulk.AssignRoleBulk(old(Snapshot()), tenant, ids, name, project)
      ensures Valid()
    {
      done, failed := 0, [];
      hide Inv, BulkOne, ValidateAssign;
      ValidIsUnique();
      reply := ValidAssignment(name, project, tenant);
      if reply != Done {
        return;
      }
      ghost var start := Snapshot();
      var i := 0;
      assert ids[..0] == [] && BulkAll(Bulk(start, 0, []), tenant, [], name, project) == Bulk(start, 0, []);
      while i < |ids|
        invariant i <= |ids|
        invariant Valid() && ValidateAssign(Snapshot(), tenant, name, project) == Done
        invariant Bulk(Snapshot(), done, failed) == BulkAll(Bulk(start, 0, []), tenant, ids[..i], name, project)
      {
        NextUser(start, tenant, ids, i, name, project);
        done, failed := AssignListed(tenant, ids[i], name, project, done, failed);
        i := i + 1;
      }
      assert ids[..i] == ids;
    }

    /** One delete under the policy; the role id is a subquery over the roles the session sees. */
    method Revoke(tenant: nat, user: nat, name: string, project: Option<nat>) returns (ok: bool)
      modifies this`userRoles
      ensures ok == RevokeRoleFromUser(old(Snapshot()), Restricted(Some(tenant)), user, name, tenant, project).Some?
      ensures Snapshot() == if ok
        then RevokeRoleFromUser(old(Snapshot()), Restricted(Some(tenant)), user, name, tenant, project).value
        else old(Snapshot())
      ensures old(Valid()) ==> Valid()
    {
      hide Inv;
      var visible := map i | i in roles && Admits(Restricted(Some(tenant)), roles[i].tenant) :: roles[i];
      assert visible == View(Snapshot(), Restricted(Some(tenant))).roles;
      if i :| i in visible && visible[i].name == name {
        if j :| j in visible && j != i && visible[j].name == name {
          return false;
        }
        var row := UserRole(user, i, tenant, project);
        if Inv(Snapshot()) {
          DeleteRowKeepsInv(Snapshot(), row);
        }
        userRoles := Filter(r => r != row, userRoles);
      }
      return true;
    }

    method RevokeRole(tenant: nat, user: string, name: string, project: ProjectArg) returns (reply: Reply)
      requires Valid()
      modifies this`userRoles
      ensures Outcome(Snapshot(), reply) == Rbac.RevokeRole(old(Snapshot()), tenant, user, name, project)
      ensures Valid()
    {
      RevokeKeepsInv(Snapshot(), tenant, user, name, project);
      hide Inv, View;
      var id := IdText.Parse(user);
      if id.None? {
        return InvalidArgument;
      }
      if !exists i | i in roles :: roles[i].name == name {
        return NotFound;
      }
      var ok := Revoke(tenant, id.value, name, OptionalProject(project));
      return if ok then Done else Internal;
    }

    // ── Projects, members, users, tenants ───────────────────

    method CreateProject(tenant: nat, slug: string, name: string, id: nat) returns (reply: Reply)
      requires Valid()
      modifies this`projects
      ensures Outcome(Snapshot(), reply) == Rbac.CreateProject(old(Snapshot()), tenant, slug, name, id)
      ensures Valid()
    {
      StepKeepsInv(Snapshot(), OpCreateProject(tenant, slug, name, id));
      if slug == "" || name == "" {
        return InvalidArgument;
      }
      if (exists p | p in projects :: projects[p] == Project(tenant, slug)) || tenant !in tenants || id in projects {
        return AlreadyExists;
      }
      projects := projects[id := Project(tenant, slug)];
      return Done;
    }

    method UserByEmail(email: string) returns (id: Option<nat>)
      requires UniqueEmails(users)
      ensures id == GetUserByEmail(users, email)
    {
      if u :| u in users && users[u] == email {
        return Some(u);
      }
      return None;
    }

    method AddMember(tenant: nat, email: string) returns (reply: Reply)
      requires Valid()
      modifies this`members
      ensures Outcome(Snapshot(), reply) == Rbac.AddMember(old(Snapshot()), tenant, email)
      ensures Valid()
    {
      StepKeepsInv(Snapshot(), OpAddMember(tenant, email));
      var user := UserByEmail(email);
      if user.None? {
        return NotFound;
      }
      if tenant !in tenants {
        return Internal;
      }
      members := members + {(user.value, tenant)};
      return Done;
    }

    method RemoveMember(tenant: nat, user: string) returns (reply: Reply)
      requires Valid()
      modifies this`members
      ensures Outcome(Snapshot(), reply) == Rbac.RemoveMember(old(Snapshot()), tenant, user)
      ensures Valid()
    {
      StepKeepsInv(Snapshot(), OpRemoveMember(tenant, user));
      var id := IdText.Parse(user);
      if id.None? {
        return InvalidArgument;
      }
      members := members - {(id.value, tenant)};
      return Done;
    }

    /** Registration: the user, the default role and the membership commit together or not at all. */
    method Register(user: nat, email: string, password: string) returns (reply: Reply)
      requires Valid()
      modifies this`users, this`userRoles, this`members
      ensures Outcome(Snapshot(), reply) ==
        if password == "" then Outcome(old(Snapshot()), InvalidArgument)
        else Rbac.Register(old(Snapshot()), Restricted(Some(DEFAULT_TENANT)), user, email)
      ensures Valid()
    {
      hide Inv, GetRoleInTenant, Rbac.Register;
      ValidIsUnique();
      RegisterWrites(Snapshot(), user, email);
      RegisterKeepsInv(Snapshot(), Restricted(Some(DEFAULT_TENANT)), user, email);
      if email == "" || password == "" {
        return InvalidArgument;
      }
      if user in users || email in users.Values {
        return AlreadyExists;
      }
      var role := RoleInTenant("user", DEFAULT_TENANT);
      if DEFAULT_TENANT !in tenants {
        return Internal;
      }
      users := users[user := email];
      if role.Some? && UserRole(user, role.value, DEFAULT_TENANT, None) !in userRoles {
        userRoles := userRoles + [UserRole(user, role.value, DEFAULT_TENANT, None)];
      }
      members := members + {(user, DEFAULT_TENANT)};
      return Done;
    }

    /** A hard delete, with the rows the foreign keys cascade to in every tenant. */
    method DeleteUser(user: string) returns (reply: Reply)
      requires Valid()
      modifies this`users, this`userRoles, this`members
      ensures Outcome(Snapshot(), reply) == Rbac.DeleteUser(old(Snapshot()), user)
      ensures Valid()
    {
      DeleteUserKeepsInv(Snapshot(), user);
      var id := IdText.Parse(user);
      if id.None? {
        return InvalidArgument;
      }
      var gone := id.value;
      users := users - {gone};
      userRoles := Filter((r: UserRole) => r.user != gone, userRoles);
      members := set m | m in members && m.0 != gone;
      return Done;
    }
  }

  /** What registration does to the tables, in the default tenant's own session. */
  lemma RegisterWrites(db: Db, user: nat, email: string)
    requires UniqueRoles(db.roles)
    ensures var role := GetRoleInTenant(db.roles, "user", DEFAULT_TENANT);
      var rows := if role.None? || UserRole(user, role.value, DEFAULT_TENANT, None) in db.userRoles then []
                  else [UserRole(user, role.value, DEFAULT_TENANT, None)];
      Register(db, Restricted(Some(DEFAULT_TENANT)), user, email) ==
        if email == "" then Outcome(db, InvalidArgument)
        else if user in db.users || email in db.users.Values then Outcome(db, AlreadyExists)
        else if DEFAULT_TENANT !in db.tenants then Outcome(db, Internal)
        else Outcome(db.(users := db.users[user := email], userRoles := db.userRoles + rows,
                         members := db.members + {(user, DEFAULT_TENANT)}), Done)
  {
    var created := db.(users := db.users[user := email]);
    ResolveInPart(created, "user", DEFAULT_TENANT);
    hide View, GetRoleInTenant;
  }

  lemma NextUser(db: Db, tenant: nat, ids: seq<string>, i: nat, name: string, project: ProjectArg)
    requires i < |ids|
    ensures BulkAll(Bulk(db, 0, []), tenant, ids[..i + 1], name, project)
         == BulkOne(BulkAll(Bulk(db, 0, []), tenant, ids[..i], name, project), tenant, ids[i], name, project)
  {
    assert ids[..i + 1] == ids[..i] + [ids[i]];
    BulkAllConcat(Bulk(db, 0, []), tenant, ids[..i], [ids[i]], name, project);
  }

  lemma BulkOneValid(acc: Bulk, tenant: nat, user: string, name: string, project: ProjectArg)
    requires Inv(acc.db) && ValidateAssign(acc.db, tenant, name, project) == Done
    ensures Inv(BulkOne(acc, tenant, user, name, project).db)
    ensures ValidateAssign(BulkOne(acc, tenant, user, name, project).db, tenant, name, project) == Done
  {
    var after := AssignOne(acc.db, tenant, user, name, project).db;
    AssignRoleKeepsInv(acc.db, tenant, user, name, project);
    AssignTouchesRows(acc.db, tenant, user, name, project);
    assert ValidateAssign(after, tenant, name, project) == ValidateAssign(acc.db, tenant, name, project);
    hide Inv, AssignOne, ValidateAssign, IdText.Parse;
  }

  lemma AssignTouchesRows(db: Db, tenant: nat, user: string, name: string, project: ProjectArg)
    ensures var after := AssignOne(db, tenant, user, name, project).db; after == db.(userRoles := after.userRoles)
  {
    hide IdText.Parse, GetRoleInTenant, View;
  }
}
