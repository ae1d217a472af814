/** What the operations mean for access: who gains or loses which permission where, and nobody else. */
module RbacEffects {
  import opened Seqs
  import opened Rbac
  import opened RbacInvariant
  import opened RbacIsolation
  import IdText

  // ── The list of roles ─────────────────────────────────────

  predicate Ascending(s: seq<string>) {
    forall i, j | 0 <= i < j < |s| :: NameLe(s[i], s[j])
  }

  lemma {:induction false} NameLeTotal(a: string, b: string)
    ensures NameLe(a, b) || NameLe(b, a)
    ensures NameLe(a, a)
  {
    if a != "" && b != "" {
      NameLeTotal(a[1..], b[1..]);
    } else if a != "" {
      NameLeTotal(a[1..], "");
    }
  }

  lemma {:induction false} NameLeTransitive(a: string, b: string, c: string)
    requires NameLe(a, b) && NameLe(b, c)
    ensures NameLe(a, c)
  {
    if a != "" && b != "" && c != "" && a[0] == b[0] && b[0] == c[0] {
      NameLeTransitive(a[1..], b[1..], c[1..]);
    }
  }

  /** The names are the same up to `k`, where `a` ends or has the smaller character. */
  predicate DiffersAt(a: string, b: string, k: nat) {
    k <= |a| && k <= |b| && a[..k] == b[..k] && (k == |a| || (k < |b| && a[k] < b[k]))
  }

  /** The order of names goes by their first difference. */
  lemma {:induction false} NameLeMeans(a: string, b: string)
    ensures NameLe(a, b) <==> exists k: nat :: DiffersAt(a, b, k)
  {
    if a == "" || b == "" || a[0] != b[0] {
      assert a[..0] == b[..0];
      assert NameLe(a, b) ==> DiffersAt(a, b, 0);
      forall k: nat | 0 < k <= |a| && k <= |b| ensures a[..k] != b[..k] {
        assert a[..k][0] != b[..k][0];
      }
    } else {
      NameLeMeans(a[1..], b[1..]);
      if k: nat :| DiffersAt(a[1..], b[1..], k) {
        assert a[..k + 1] == [a[0]] + a[1..][..k] && b[..k + 1] == [b[0]] + b[1..][..k];
        assert DiffersAt(a, b, k + 1);
      }
      if k: nat :| DiffersAt(a, b, k) {
        assert a[1..][..k - 1] == a[..k][1..] && b[1..][..k - 1] == b[..k][1..];
        assert DiffersAt(a[1..], b[1..], k - 1);
      }
    }
  }

  lemma {:induction false} InsertOrders(name: string, s: seq<string>)
    requires Ascending(s)
    ensures var r := InsertName(name, s);
      Ascending(r) && multiset(r) == multiset{name} + multiset(s) && (s != [] ==> r[0] == name || r[0] == s[0])
    ensures InsertName(name, s) != []
  {
    if s == [] {
    } else if NameLe(name, s[0]) {
      assert s == [s[0]] + s[1..];
      forall j | 0 <= j < |s| ensures NameLe(name, s[j]) {
        if j > 0 {
          NameLeTransitive(name, s[0], s[j]);
        }
      }
    } else {
      var rest := InsertName(name, s[1..]);
      InsertOrders(name, s[1..]);
      NameLeTotal(name, s[0]);
      assert s == [s[0]] + s[1..];
      forall x | x in rest ensures NameLe(s[0], x) {
        assert x in multiset(rest);
        if x != name {
          assert x in s[1..];
        }
      }
      var r := [s[0]] + rest;
      forall i, j | 0 <= i < j < |r| ensures NameLe(r[i], r[j]) {
        assert r[j] == rest[j - 1] && rest[j - 1] in rest;
      }
    }
  }

  lemma {:induction false} OrderOrders(s: seq<string>)
    ensures Ascending(OrderByName(s)) && multiset(OrderByName(s)) == multiset(s)
  {
    if s != [] {
      OrderOrders(s[1..]);
      InsertOrders(s[0], OrderByName(s[1..]));
      assert s == [s[0]] + s[1..];
    }
  }

  lemma {:induction false} NamedByRow(roles: map<nat, Role>, rows: seq<UserRole>, name: string)
    ensures name in NamesOf(roles, rows) <==> exists r | r in rows :: r.role in roles && roles[r.role].name == name
  {
    if rows != [] {
      NamedByRow(roles, rows[1..], name);
      assert forall r :: r in rows <==> r == rows[0] || r in rows[1..];
      assert rows[0] in rows;
    }
  }

  /**
   The roles of a token are the names of the user's assignments in its tenant that are
   tenant-wide or for its project, one each, in ascending order.
   */
  lemma RolesListed(db: Db, user: nat, tenant: nat, project: Option<nat>, name: string)
    requires Inv(db)
    ensures var roles := GetUserRolesScoped(db, user, tenant, project);
      && Ascending(roles)
      && |roles| == |Filter((r: UserRole) => r.user == user && r.tenant == tenant
                                             && (r.project == None || r.project == project), db.userRoles)|
      && (name in roles <==> exists r | r in db.userRoles ::
            r.user == user && r.tenant == tenant && (r.project == None || r.project == project)
            && r.role in db.roles && db.roles[r.role].name == name)
  {
    var rows := Filter((r: UserRole) => Applies(r, user, tenant, project), db.userRoles);
    var names := NamesOf(db.roles, rows);
    assert forall r | r in db.userRoles :: RoleFits(db, r);
    FilterCongruent((r: UserRole) => Applies(r, user, tenant, project),
                    (r: UserRole) => r.user == user && r.tenant == tenant
                                     && (r.project == None || r.project == project), db.userRoles);
    OrderOrders(names);
    OrderKeepsCount(names);
    NameCount(db.roles, rows);
    NamedByRow(db.roles, rows, name);
    assert name in OrderByName(names) <==> name in multiset(OrderByName(names));
    assert name in names <==> name in multiset(names);
  }

  // ── Access ────────────────────────────────────────────────

  /**
   Access, on the rows: a token without a project has what the tenant-wide assignments carry, one
   with a project also what the assignments for that project carry, and nothing else counts.
   */
  lemma AccessMeans(db: Db, user: nat, tenant: nat, project: nat, q: string)
    ensures HoldsScoped(db, user, tenant, None, q)
      <==> exists r | r in db.userRoles ::
             r.user == user && r.tenant == tenant && r.project == None && (r.role, q) in db.grants
    ensures HoldsScoped(db, user, tenant, Some(project), q)
      <==> exists r | r in db.userRoles ::
             r.user == user && r.tenant == tenant && (r.project == None || r.project == Some(project))
             && (r.role, q) in db.grants
  {
  }

  lemma {:induction false} FilterAscends(keep: string -> bool, s: seq<string>)
    requires Ascending(s)
    ensures Ascending(Filter(keep, s))
  {
    if s != [] {
      FilterAscends(keep, s[1..]);
      forall x | x in s[1..] ensures NameLe(s[0], x) {
        var j :| 0 <= j < |s[1..]| && s[1..][j] == x;
        assert s[j + 1] == x;
      }
      var rest := Filter(keep, s[1..]);
      forall j | 0 <= j < |rest| ensures NameLe(s[0], rest[j]) {
        assert rest[j] in rest;
      }
    }
  }

  /** The permissions of a token: of the catalog exactly those it holds, each once, in ascending order. */
  lemma PermissionsListed(db: Db, user: nat, tenant: nat, project: Option<nat>, q: string)
    requires Ascending(db.catalog) && Distinct(db.catalog)
    ensures var scoped, all := GetUserPermissionsScoped(db, user, tenant, project), GetUserPermissions(db, user);
      && Ascending(scoped) && Distinct(scoped) && Ascending(all) && Distinct(all)
      && (q in scoped <==> q in db.catalog && HoldsScoped(db, user, tenant, project, q))
      && (q in all <==> q in db.catalog && exists r | r in db.userRoles :: r.user == user && (r.role, q) in db.grants)
  {
    var scoped := p => HoldsScoped(db, user, tenant, project, p);
    var all := p => exists r | r in db.userRoles :: r.user == user && (r.role, p) in db.grants;
    FilterAscends(scoped, db.catalog);
    FilterDistinct(scoped, db.catalog);
    FilterAscends(all, db.catalog);
    FilterDistinct(all, db.catalog);
  }

  predicate HasRole(db: Db, user: nat, tenant: nat, project: Option<nat>, role: nat) {
    exists r | r in db.userRoles :: Applies(r, user, tenant, project) && r.role == role
  }

  /** The permission is also held through some other role. */
  predicate HoldsOtherwise(db: Db, user: nat, tenant: nat, project: Option<nat>, permission: string, role: nat) {
    exists r | r in db.userRoles ::
      Applies(r, user, tenant, project) && r.role != role && (r.role, permission) in db.grants
  }

  /** A grant gives the permission to those who hold the role, in its tenant, and changes nothing else. */
  lemma GrantGives(db: Db, owner: nat, name: string, permission: string,
                   user: nat, tenant: nat, project: Option<nat>, q: string)
    requires Inv(db) && GrantPermission(db, owner, name, permission).reply == Done
    ensures var role := FindRole(db.roles, Role(name, Some(owner)));
      && role.Some? && !IsBuiltinRole(name)
      && (HoldsScoped(GrantPermission(db, owner, name, permission).db, user, tenant, project, q)
          <==> HoldsScoped(db, user, tenant, project, q)
               || (tenant == owner && q == permission && q in db.catalog
                   && HasRole(db, user, tenant, project, role.value)))
  {
    var role := FindRole(db.roles, Role(name, Some(owner))).value;
    assert forall r | r in db.userRoles :: RoleFits(db, r);
    hide Inv;
    var after := GrantPermission(db, owner, name, permission).db;
    assert after.userRoles == db.userRoles;
    if r :| r in db.userRoles && Applies(r, user, tenant, project)
            && (r.role, q) in after.grants && (r.role, q) !in db.grants {
      assert r.role == role && RoleFits(db, r);
    }
  }

  /** Taking a permission from a role takes it from exactly those who hold it through no other role. */
  lemma UngrantTakes(db: Db, owner: nat, name: string, permission: string,
                     user: nat, tenant: nat, project: Option<nat>, q: string)
    requires RevokePermission(db, owner, name, permission).reply == Done
    ensures var role := FindRole(db.roles, Role(name, Some(owner)));
      && role.Some? && !IsBuiltinRole(name)
      && (HoldsScoped(RevokePermission(db, owner, name, permission).db, user, tenant, project, q)
          <==> if q == permission then HoldsOtherwise(db, user, tenant, project, q, role.value)
               else HoldsScoped(db, user, tenant, project, q))
  {
    var after := RevokePermission(db, owner, name, permission).db;
    assert after.userRoles == db.userRoles;
  }

  /** Deleting a role leaves everyone exactly what they hold through other roles, and no assignment of it. */
  lemma DeletionTakes(db: Db, owner: nat, name: string, user: nat, tenant: nat, project: Option<nat>, q: string)
    requires Inv(db) && DeleteRole(db, owner, name).reply == Done
    ensures var role := FindRole(db.roles, Role(name, Some(owner))); var after := DeleteRole(db, owner, name).db;
      && role.Some? && !IsBuiltinRole(name)
      && !HasRole(after, user, tenant, project, role.value) && after.roles == db.roles - {role.value}
      && (forall r :: r in after.userRoles <==> r in db.userRoles && r.role != role.value)
      && (forall g :: g in after.grants <==> g in db.grants && g.0 != role.value)
      && (HoldsScoped(after, user, tenant, project, q) <==> HoldsOtherwise(db, user, tenant, project, q, role.value))
      && FindRole(after.roles, Role(name, Some(owner))).None?
      && GetRoleInTenant(after.roles, name, owner) == FindRole(db.roles, Role(name, None))
  {
    var role := FindRole(db.roles, Role(name, Some(owner))).value;
    var after := DeleteRole(db, owner, name).db;
    assert forall id | id in db.roles && db.roles[id] == Role(name, Some(owner)) :: id == role;
    if t :| t in db.roles && db.roles[t] == Role(name, None) {
      FoundRole(db.roles, t);
      assert t in after.roles;
      FoundRole(after.roles, t);
    }
  }

  /** A new role gives no one anything; its name now means it in its tenant, and what it meant elsewhere. */
  lemma CreationGivesNothing(db: Db, owner: nat, name: string, id: nat,
                             user: nat, tenant: nat, project: Option<nat>, q: string)
    requires Inv(db) && CreateRole(db, owner, name, id).reply == Done
    ensures var after := CreateRole(db, owner, name, id).db;
      && !IsBuiltinRole(name) && name != "" && after == db.(roles := db.roles[id := Role(name, Some(owner))])
      && (HoldsScoped(after, user, tenant, project, q) <==> HoldsScoped(db, user, tenant, project, q))
      && (forall p :: (id, p) !in after.grants)
      && GetRoleInTenant(after.roles, name, owner) == Some(id)
      && (tenant != owner || q != name ==>
            GetRoleInTenant(after.roles, q, tenant) == GetRoleInTenant(db.roles, q, tenant))
  {
    var after := CreateRole(db, owner, name, id).db;
    StepKeepsInv(db, OpCreateRole(owner, name, id));
    FoundRole(after.roles, id);
    assert forall g | g in db.grants :: g.0 in db.roles;
    if tenant != owner || q != name {
      SameRole(db.roles, id, Role(name, Some(owner)), Role(q, Some(tenant)));
      SameRole(db.roles, id, Role(name, Some(owner)), Role(q, None));
    }
  }

  lemma SameRole(roles: map<nat, Role>, id: nat, added: Role, role: Role)
    requires UniqueRoles(roles) && UniqueRoles(roles[id := added]) && id !in roles && role != added
    ensures FindRole(roles[id := added], role) == FindRole(roles, role)
  {
    var after := roles[id := added];
    if i :| i in after && after[i] == role {
      assert i in roles && roles[i] == role;
      FoundRole(roles, i);
      FoundRole(after, i);
    } else {
      assert forall i | i in roles :: after[i] == roles[i];
    }
  }

  /** An assignment succeeds exactly for a known user and an assignable role and project. */
  lemma AssignmentReply(db: Db, owner: nat, text: string, name: string, scope: ProjectArg)
    requires Inv(db) && owner in db.tenants
    ensures var done := AssignRole(db, owner, text, name, scope);
      && (done.reply == Done <==> IdText.Parse(text).Some? && IdText.Parse(text).value in db.users
                                  && ValidateAssign(db, owner, name, scope) == Done)
      && (done.reply != Done ==> done.db == db)
      && (done.reply == Done ==>
            var row := UserRole(IdText.Parse(text).value, GetRoleInTenant(db.roles, name, owner).value, owner,
                OptionalProject(scope));
            done.db == if row in db.userRoles then db else db.(userRoles := db.userRoles + [row]))
  {
    ResolveInPart(db, name, owner);
    assert forall r | r in db.userRoles :: r.user in db.users;
    hide Inv, GetRoleInTenant;
  }

  /** It adds what the role carries, for that user, in that tenant and project scope only. */
  lemma AssignmentGives(db: Db, owner: nat, text: string, name: string, scope: ProjectArg,
                        user: nat, tenant: nat, project: Option<nat>, q: string)
    requires Inv(db) && owner in db.tenants && AssignRole(db, owner, text, name, scope).reply == Done
    ensures var after := AssignRole(db, owner, text, name, scope).db;
      var row := UserRole(IdText.Parse(text).value, GetRoleInTenant(db.roles, name, owner).value, owner,
          OptionalProject(scope));
      HoldsScoped(after, user, tenant, project, q)
      <==> HoldsScoped(db, user, tenant, project, q)
           || (user == row.user && tenant == owner && (row.project == None || row.project == project)
               && (row.role, q) in db.grants)
  {
    AssignmentReply(db, owner, text, name, scope);
    hide Inv, AssignRole, GetRoleInTenant, ValidateAssign;
    var after := AssignRole(db, owner, text, name, scope).db;
    var row := UserRole(IdText.Parse(text).value, GetRoleInTenant(db.roles, name, owner).value, owner,
        OptionalProject(scope));
    assert row in after.userRoles && forall r :: r in after.userRoles <==> r in db.userRoles || r == row;
    assert after.grants == db.grants;
  }

  lemma RegistrationAddsRow(db: Db, user: nat, email: string)
    requires Inv(db) && Register(db, Bypass, user, email).reply == Done
    ensures var after := Register(db, Bypass, user, email).db;
      var role := GetRoleInTenant(db.roles, "user", DEFAULT_TENANT);
      && user !in db.users
      && after == db.(users := db.users[user := email], members := db.members + {(user, DEFAULT_TENANT)},
                      userRoles := db.userRoles
                        + if role.None? then [] else [UserRole(user, role.value, DEFAULT_TENANT, None)])
  {
    assert forall r | r in db.userRoles :: r.user in db.users;
    var created := db.(users := db.users[user := email]);
    assert View(created, Bypass).roles == created.roles;
    hide Inv, GetRoleInTenant;
  }

  /** A registered user holds what the `user` role carries in the default tenant, and nothing anywhere else. */
  lemma RegistrationGives(db: Db, s: Session, user: nat, email: string, tenant: nat, project: Option<nat>, q: string)
    requires Inv(db) && (s == Bypass || s == Restricted(Some(DEFAULT_TENANT)))
    requires Register(db, s, user, email).reply == Done
    ensures var after := Register(db, s, user, email).db; var role := GetRoleInTenant(db.roles, "user", DEFAULT_TENANT);
      && user !in db.users && after.users == db.users[user := email]
      && after.members == db.members + {(user, DEFAULT_TENANT)}
      && (HoldsScoped(after, user, tenant, project, q)
          <==> tenant == DEFAULT_TENANT && role.Some? && (role.value, q) in db.grants)
  {
    RegisterUnderPolicy(db, user, email);
    RegistrationAddsRow(db, user, email);
    assert forall r | r in db.userRoles :: r.user in db.users;
    hide Inv, GetRoleInTenant, Register;
    var after := Register(db, Bypass, user, email).db;
    var role := GetRoleInTenant(db.roles, "user", DEFAULT_TENANT);
    if role.Some? {
      var row := UserRole(user, role.value, DEFAULT_TENANT, None);
      assert row in after.userRoles && forall r :: r in after.userRoles <==> r in db.userRoles || r == row;
    }
  }

  // ── Projects, members, tenants, users ─────────────────────

  /** A new project can be assigned in from then on, by its own tenant and by no other. */
  lemma ProjectBecomesAssignable(db: Db, owner: nat, slug: string, title: string, id: nat, tenant: nat, name: string)
    requires CreateProject(db, owner, slug, title, id).reply == Done
    ensures var after := CreateProject(db, owner, slug, title, id).db;
      && after == db.(projects := db.projects[id := Project(owner, slug)])
      && ValidateAssign(db, tenant, name, Named(id)) != Done
      && (ValidateAssign(after, tenant, name, Named(id)) == Done
          <==> tenant == owner && GetRoleInTenant(db.roles, name, tenant).Some?)
      && (forall p | p != id ::
            ValidateAssign(after, tenant, name, Named(p)) == ValidateAssign(db, tenant, name, Named(p)))
  {
  }

  /** Removing a member undoes adding them exactly if they were not one before; nobody else is touched. */
  lemma RemovalUndoesAdding(db: Db, tenant: nat, email: string, text: string)
    requires AddMember(db, tenant, email).reply == Done
    requires IdText.Parse(text) == GetUserByEmail(db.users, email)
    ensures var added := AddMember(db, tenant, email).db; var user := IdText.Parse(text).value;
      && user in db.users && db.users[user] == email
      && added.members == db.members + {(user, tenant)}
      && (RemoveMember(added, tenant, text).db == db <==> (user, tenant) !in db.members)
  {
    hide IdText.Parse;
    var user := IdText.Parse(text).value;
    var added := AddMember(db, tenant, email).db;
    var removed := RemoveMember(added, tenant, text).db;
    if (user, tenant) !in db.members {
      assert removed.members == db.members;
    } else {
      assert (user, tenant) !in removed.members;
    }
  }

  /**
   The creator of a tenant holds what the `admin` template carries there; no one else holds
   anything there, or anything new.
   */
  lemma TenantCreationGives(db: Db, creator: nat, id: nat, slug: string, name: string,
                            user: nat, tenant: nat, project: Option<nat>, q: string)
    requires Inv(db) && CreateTenant(db, creator, id, slug, name).reply == Done
    ensures var after := CreateTenant(db, creator, id, slug, name).db;
      var admin := FindRole(db.roles, Role("admin", None));
      && id !in db.tenants && after.tenants == db.tenants[id := slug] && after.members == db.members + {(creator, id)}
      && (HoldsScoped(after, user, tenant, project, q)
          <==> if tenant != id then HoldsScoped(db, user, tenant, project, q)
               else user == creator && admin.Some? && (admin.value, q) in db.grants)
  {
    var after := CreateTenant(db, creator, id, slug, name).db;
    var admin := FindRole(db.roles, Role("admin", None));
    assert forall r | r in db.userRoles :: r.tenant in db.tenants;
    assert after.grants == db.grants;
    hide Inv, FindRole;
    if admin.Some? {
      var row := UserRole(creator, admin.value, id, None);
      assert row in after.userRoles && forall r :: r in after.userRoles <==> r in db.userRoles || r == row;
    } else {
      assert after.userRoles == db.userRoles;
    }
  }

  /** A deleted user holds nothing and is a member nowhere; no one else loses or gains anything. */
  lemma UserDeletionTakes(db: Db, text: string, user: nat, tenant: nat, project: Option<nat>, q: string)
    requires IdText.Parse(text).Some?
    ensures var gone, after := IdText.Parse(text).value, DeleteUser(db, text).db;
      && after.users == db.users - {gone} && (forall t :: (gone, t) !in after.members)
      && (HoldsScoped(after, user, tenant, project, q) <==> user != gone && HoldsScoped(db, user, tenant, project, q))
      && (user != gone ==> ((user, tenant) in after.members <==> (user, tenant) in db.members))
  {
    hide IdText.Parse;
    var after := DeleteUser(db, text).db;
    assert after.grants == db.grants;
  }

  // ── Replies and frames ────────────────────────────────────

  predicate RoleOwned(db: Db, owner: nat, name: string) {
    exists id | id in db.roles :: db.roles[id].name == name && db.roles[id].tenant == Some(owner)
  }

  /** The role a name means in a tenant: the tenant's own of that name, and the template only if there is none. */
  lemma RoleMeans(db: Db, name: string, tenant: nat, id: nat)
    requires Inv(db)
    ensures GetRoleInTenant(db.roles, name, tenant) == Some(id) <==>
      && id in db.roles && db.roles[id].name == name
      && (db.roles[id].tenant == Some(tenant) || (db.roles[id].tenant == None && !RoleOwned(db, tenant, name)))
  {
    if id in db.roles && db.roles[id].name == name {
      FoundRole(db.roles, id);
    }
    if i :| i in db.roles && db.roles[i].name == name && db.roles[i].tenant == Some(tenant) {
      assert db.roles[i] == Role(name, Some(tenant));
      FoundRole(db.roles, i);
    } else {
      assert FindRole(db.roles, Role(name, Some(tenant))).None?;
    }
  }

  /** What may be assigned: a role the tenant owns or a template, in the whole tenant or in a project of it. */
  lemma AssignableMeans(db: Db, tenant: nat, name: string, project: ProjectArg)
    ensures ValidateAssign(db, tenant, name, project) ==
      if !exists id | id in db.roles :: db.roles[id].name == name && db.roles[id].tenant in {None, Some(tenant)}
      then NotFound
      else if project == Absent
              || (project.Named? && project.id in db.projects && db.projects[project.id].tenant == tenant)
      then Done else InvalidArgument
  {
    var own, template := Role(name, Some(tenant)), Role(name, None);
    assert FindRole(db.roles, own).Some? <==> exists id :: id in db.roles && db.roles[id] == own;
    assert FindRole(db.roles, template).Some? <==> exists id :: id in db.roles && db.roles[id] == template;
    if id :| id in db.roles && db.roles[id].name == name && db.roles[id].tenant in {None, Some(tenant)} {
      assert db.roles[id] == own || db.roles[id] == template;
    }
  }

  /** When the operations on roles succeed, and what they reply otherwise. */
  lemma RoleReplies(db: Db, owner: nat, name: string, id: nat, permission: string)
    ensures CreateRole(db, owner, name, id).reply ==
      if name == "" then InvalidArgument
      else if name == "admin" || name == "user" then FailedPrecondition
      else if RoleOwned(db, owner, name) || id in db.roles || owner !in db.tenants then AlreadyExists
      else Done
    ensures DeleteRole(db, owner, name).reply == GrantPermission(db, owner, name, permission).reply
         == RevokePermission(db, owner, name, permission).reply
    ensures DeleteRole(db, owner, name).reply ==
      if name == "admin" || name == "user" then FailedPrecondition
      else if RoleOwned(db, owner, name) then Done else NotFound
  {
    if FindRole(db.roles, Role(name, Some(owner))).Some? {
      var i :| i in db.roles && db.roles[i] == Role(name, Some(owner));
      assert RoleOwned(db, owner, name);
    }
    if i :| i in db.roles && db.roles[i].name == name && db.roles[i].tenant == Some(owner) {
      assert db.roles[i] == Role(name, Some(owner));
    }
  }

  /** When the operations on tenants, projects, members and users succeed, and what they reply otherwise. */
  lemma PlatformReplies(db: Db, tenant: nat, slug: string, name: string, id: nat, email: string, text: string)
    requires Inv(db)
    ensures CreateProject(db, tenant, slug, name, id).reply ==
      if slug == "" || name == "" then InvalidArgument
      else if tenant !in db.tenants || id in db.projects
              || exists p | p in db.projects :: db.projects[p].tenant == tenant && db.projects[p].slug == slug
      then AlreadyExists else Done
    ensures AddMember(db, tenant, email).reply ==
      if email !in db.users.Values then NotFound else if tenant !in db.tenants then Internal else Done
    ensures RemoveMember(db, tenant, text).reply == DeleteUser(db, text).reply ==
      if IdText.Parse(text).None? then InvalidArgument else Done
    ensures CreateTenant(db, id, tenant, slug, name).reply ==
      if slug == "" || name == "" then InvalidArgument
      else if tenant in db.tenants || slug in db.tenants.Values then AlreadyExists
      else if id !in db.users then Internal else Done
    ensures Register(db, Bypass, id, email).reply ==
      if email == "" then InvalidArgument
      else if id in db.users || email in db.users.Values then AlreadyExists
      else if DEFAULT_TENANT !in db.tenants then Internal else Done
  {
    ProjectReply(db, tenant, slug, name, id);
    assert forall r | r in db.userRoles :: r.user in db.users && r.tenant in db.tenants;
    hide IdText.Parse, Inv, FindRole, GetRoleInTenant, CreateProject;
  }

  lemma ProjectReply(db: Db, tenant: nat, slug: string, name: string, id: nat)
    ensures CreateProject(db, tenant, slug, name, id).reply ==
      if slug == "" || name == "" then InvalidArgument
      else if tenant !in db.tenants || id in db.projects
              || exists p | p in db.projects :: db.projects[p].tenant == tenant && db.projects[p].slug == slug
      then AlreadyExists else Done
  {
    if p :| p in db.projects && db.projects[p].tenant == tenant && db.projects[p].slug == slug {
      assert db.projects[p] == Project(tenant, slug);
    }
  }

  /** An operation that is refused or fails changes nothing. */
  lemma FailuresChangeNothing(db: Db, op: Op)
    ensures Step(db, op).reply != Done ==> Step(db, op).db == db
  {
    hide IdText.Parse, View, GetRoleInTenant, FindRole, NamedRole, Ambiguous;
  }

  predicate RoleOp(op: Op) {
    op.OpCreateRole? || op.OpDeleteRole? || op.OpGrant? || op.OpRevokeGrant?
  }

  /** An operation changes no table but its own. */
  lemma OnlyItsTables(db: Db, op: Op)
    ensures var after := Step(db, op).db;
      && after.catalog == db.catalog
      && (after.users != db.users ==> op.OpRegister? || op.OpDeleteUser?)
      && (after.tenants != db.tenants ==> op.OpCreateTenant?)
      && (after.projects != db.projects ==> op.OpCreateProject?)
      && (after.roles != db.roles ==> op.OpCreateRole? || op.OpDeleteRole?)
      && (after.grants != db.grants ==> op.OpGrant? || op.OpRevokeGrant? || op.OpDeleteRole?)
      && (after.userRoles != db.userRoles ==>
            || op.OpAssign? || op.OpRevoke? || op.OpDeleteRole?
            || op.OpRegister? || op.OpCreateTenant? || op.OpDeleteUser?)
      && (after.members != db.members ==>
            op.OpAddMember? || op.OpRemoveMember? || op.OpRegister? || op.OpCreateTenant? || op.OpDeleteUser?)
  {
    hide Step;
    if RoleOp(op) {
      RoleOpTables(db, op);
    } else {
      OtherOpKeepsRoles(db, op);
      OtherOpTables(db, op);
    }
  }

  lemma RoleOpTables(db: Db, op: Op)
    requires RoleOp(op)
    ensures var after := Step(db, op).db;
      && after == db.(roles := after.roles, grants := after.grants, userRoles := after.userRoles)
      && (after.roles != db.roles ==> op.OpCreateRole? || op.OpDeleteRole?)
      && (after.grants != db.grants ==> !op.OpCreateRole?)
      && (after.userRoles != db.userRoles ==> op.OpDeleteRole?)
  {
    hide AddMember, AssignRole, CreateProject, CreateTenant, DeleteUser, Register, RemoveMember, RevokeRole, FindRole;
  }

  lemma OtherOpTables(db: Db, op: Op)
    requires !RoleOp(op)
    ensures var after := Step(db, op).db;
      && after.catalog == db.catalog
      && (after.users != db.users ==> op.OpRegister? || op.OpDeleteUser?)
      && (after.tenants != db.tenants ==> op.OpCreateTenant?)
      && (after.projects != db.projects ==> op.OpCreateProject?)
      && (after.userRoles != db.userRoles ==>
            op.OpAssign? || op.OpRevoke? || op.OpRegister? || op.OpCreateTenant? || op.OpDeleteUser?)
      && (after.members != db.members ==>
            op.OpAddMember? || op.OpRemoveMember? || op.OpRegister? || op.OpCreateTenant? || op.OpDeleteUser?)
  {
    hide IdText.Parse, View, GetRoleInTenant, FindRole, NamedRole, Ambiguous;
    hide CreateRole, DeleteRole, GrantPermission, RevokePermission;
  }

  // ── Templates ─────────────────────────────────────────────

  lemma RoleOpKeepsTemplate(db: Db, op: Op, id: nat, q: string)
    requires Inv(db) && id in db.roles && db.roles[id].tenant.None?
    requires op.OpCreateRole? || op.OpDeleteRole? || op.OpGrant? || op.OpRevokeGrant?
    ensures var after := Step(db, op).db;
      id in after.roles && after.roles[id] == db.roles[id] && ((id, q) in after.grants <==> (id, q) in db.grants)
  {
    hide Inv;
    hide AddMember, AssignRole, CreateProject, CreateTenant, DeleteUser, Register, RemoveMember, RevokeRole;
  }

  lemma OtherOpKeepsRoles(db: Db, op: Op)
    requires !(op.OpCreateRole? || op.OpDeleteRole? || op.OpGrant? || op.OpRevokeGrant?)
    ensures Step(db, op).db.roles == db.roles && Step(db, op).db.grants == db.grants
  {
    hide IdText.Parse;
    hide CreateRole, DeleteRole, GrantPermission, RevokePermission, GetRoleInTenant, FindRole;
  }

  lemma TemplateStays(db: Db, op: Op, id: nat, q: string)
    requires Inv(db) && id in db.roles && db.roles[id].tenant.None?
    ensures var after := Step(db, op).db;
      id in after.roles && after.roles[id] == db.roles[id] && ((id, q) in after.grants <==> (id, q) in db.grants)
  {
    if op.OpCreateRole? || op.OpDeleteRole? || op.OpGrant? || op.OpRevokeGrant? {
      RoleOpKeepsTemplate(db, op, id, q);
    } else {
      OtherOpKeepsRoles(db, op);
    }
    hide Step, Inv;
  }

  /** Templates belong to the platform: no run of any operations changes one, or what it grants. */
  lemma {:induction false} TemplatesNeverChange(db: Db, ops: seq<Op>, id: nat, q: string)
    requires Inv(db) && id in db.roles && db.roles[id].tenant.None?
    ensures var after := Run(db, ops);
      id in after.roles && after.roles[id] == db.roles[id] && ((id, q) in after.grants <==> (id, q) in db.grants)
    decreases |ops|
  {
    if ops != [] {
      TemplateStays(db, ops[0], id, q);
      StepKeepsInv(db, ops[0]);
      TemplatesNeverChange(Step(db, ops[0]).db, ops[1..], id, q);
    }
  }

  ghost predicate Reserved(roles: map<nat, Role>) {
    forall id | id in roles && roles[id].name in {"admin", "user"} :: roles[id].tenant.None?
  }

  lemma StaysReserved(db: Db, op: Op)
    requires Reserved(db.roles)
    ensures Reserved(Step(db, op).db.roles)
  {
    if op.OpCreateRole? || op.OpDeleteRole? || op.OpGrant? || op.OpRevokeGrant? {
      RoleOpReserves(db, op);
    } else {
      hide Step;
      OtherOpKeepsRoles(db, op);
    }
  }

  lemma RoleOpReserves(db: Db, op: Op)
    requires Reserved(db.roles) && (op.OpCreateRole? || op.OpDeleteRole? || op.OpGrant? || op.OpRevokeGrant?)
    ensures Reserved(Step(db, op).db.roles)
  {
    hide AddMember, AssignRole, CreateProject, CreateTenant, DeleteUser, Register, RemoveMember, RevokeRole, FindRole;
  }

  lemma {:induction false} ReservedForever(db: Db, ops: seq<Op>)
    requires Reserved(db.roles)
    ensures Reserved(Run(db, ops).roles)
    decreases |ops|
  {
    if ops != [] {
      StaysReserved(db, ops[0]);
      ReservedForever(Step(db, ops[0]).db, ops[1..]);
    }
  }

  lemma MigrationReserves(l: Legacy, viewer: nat)
    ensures Reserved(SeedViewer(Migrate(l), viewer).roles)
  {
  }

  /**
   No tenant ever gets its own `admin` or `user` role: in every run from the migrated tables
   and in every tenant, those names mean the templates.
   */
  lemma BuiltinNamesMeanTemplates(l: Legacy, viewer: nat, ops: seq<Op>, name: string, tenant: nat)
    requires name in {"admin", "user"}
    ensures var db := Run(SeedViewer(Migrate(l), viewer), ops);
      GetRoleInTenant(db.roles, name, tenant) == FindRole(db.roles, Role(name, None))
  {
    MigrationReserves(l, viewer);
    ReservedForever(SeedViewer(Migrate(l), viewer), ops);
  }
}
