/** Isolation of tenants over whole runs, and what assignment and revocation do to the tables. */
module RbacTheorems {
  import opened Seqs
  import opened Rbac
  import opened RbacInvariant
  import opened RbacIsolation
  import IdText

  // ── Runs ──────────────────────────────────────────────────

  predicate Concerns(op: Op, b: nat) {
    ActsIn(op).None? || ActsIn(op) == Some(b)
  }

  /** The run without the operations of all other tenants. */
  function Purge(ops: seq<Op>, b: nat): seq<Op> {
    if ops == [] then []
    else if Concerns(ops[0], b) then [ops[0]] + Purge(ops[1..], b)
    else Purge(ops[1..], b)
  }

  /** Sequences hand out each role and project identifier once, and none that is in use. */
  ghost predicate FreshRun(db: Db, ops: seq<Op>) {
    && (forall i | 0 <= i < |ops| :: FreshIn(db, ops[i]))
    && (forall i, j | 0 <= i < j < |ops| && ops[i].OpCreateRole? && ops[j].OpCreateRole? :: ops[i].id != ops[j].id)
    && (forall i, j | 0 <= i < j < |ops| && ops[i].OpCreateProject? && ops[j].OpCreateProject? ::
          ops[i].id != ops[j].id)
  }

  lemma IdsUsed(db: Db, op: Op)
    ensures forall id | id in Step(db, op).db.roles :: id in db.roles || (op.OpCreateRole? && id == op.id)
    ensures forall p | p in Step(db, op).db.projects :: p in db.projects || (op.OpCreateProject? && p == op.id)
  {
    hide IdText.Parse;
  }

  lemma FreshTail(db: Db, ops: seq<Op>)
    requires ops != [] && FreshRun(db, ops)
    ensures FreshRun(db, ops[1..])
    ensures FreshRun(Step(db, ops[0]).db, ops[1..])
  {
    IdsUsed(db, ops[0]);
    var tail := ops[1..];
    forall i | 0 <= i < |tail| ensures FreshIn(db, tail[i]) && FreshIn(Step(db, ops[0]).db, tail[i]) {
      assert tail[i] == ops[i + 1];
      assert FreshIn(db, ops[i + 1]);
    }
  }

  /**
   Dropping what all other tenants did from a run changes nothing that tenant `b` can see:
   roles, grants, assignments, projects, members.
   */
  lemma {:induction false} PurgeAgrees(full: Db, purged: Db, ops: seq<Op>, b: nat)
    requires Inv(full) && Inv(purged) && Seen(full, b) == Seen(purged, b)
    requires FreshRun(full, ops) && FreshRun(purged, ops)
    ensures Seen(Run(full, ops), b) == Seen(Run(purged, Purge(ops, b)), b)
    decreases |ops|
  {
    if ops != [] {
      hide Inv, Seen, Step, FreshIn;
      FreshTail(full, ops);
      FreshTail(purged, ops);
      StepKeepsInv(full, ops[0]);
      if Concerns(ops[0], b) {
        assert FreshIn(full, ops[0]) && FreshIn(purged, ops[0]);
        StepKeepsInv(purged, ops[0]);
        OwnPartDecides(full, ops[0], b);
        OwnPartDecides(purged, ops[0], b);
        PurgeAgrees(Step(full, ops[0]).db, Step(purged, ops[0]).db, ops[1..], b);
        assert Purge(ops, b)[1..] == Purge(ops[1..], b);
      } else {
        OthersChangeNothing(full, ops[0], b);
        PurgeAgrees(Step(full, ops[0]).db, purged, ops[1..], b);
      }
    }
  }

  lemma SameRepliesAfter(full: Db, purged: Db, op: Op, b: nat)
    requires Inv(full) && Inv(purged) && Seen(full, b) == Seen(purged, b)
    requires ActsIn(op) == Some(b) && FreshIn(full, op) && FreshIn(purged, op)
    ensures Step(full, op).reply == Step(purged, op).reply <==> KnownAlike(full, purged, op)
  {
    SeenTwice(full, b);
    SeenTwice(purged, b);
    if op.OpRevoke? {
      hide Inv, Seen, Step, View, KnownAlike;
      RevokeRepliesAgree(full, purged, op, b);
    } else {
      hide Inv, Seen, Step, FreshIn;
      OwnPartDecides(full, op, b);
      OwnPartDecides(purged, op, b);
    }
  }

  /**
   No tenant's operations influence another tenant's scoped roles and permissions, nor the
   replies it gets, save one: a revocation replies as if the others had done nothing exactly
   if the role name is known, to anyone, with their operations just when it is without them.
   */
  lemma TenantsDoNotInterfere(db: Db, ops: seq<Op>, b: nat, user: nat, project: Option<nat>)
    requires Inv(db) && FreshRun(db, ops)
    ensures var full, purged := Run(db, ops), Run(db, Purge(ops, b));
      && Seen(full, b) == Seen(purged, b)
      && GetUserRolesScoped(full, user, b, project) == GetUserRolesScoped(purged, user, b, project)
      && GetUserPermissionsScoped(full, user, b, project) == GetUserPermissionsScoped(purged, user, b, project)
    ensures forall op | ActsIn(op) == Some(b)
              && FreshIn(Run(db, ops), op) && FreshIn(Run(db, Purge(ops, b)), op) ::
              Step(Run(db, ops), op).reply == Step(Run(db, Purge(ops, b)), op).reply
              <==> KnownAlike(Run(db, ops), Run(db, Purge(ops, b)), op)
  {
    var full, purged := Run(db, ops), Run(db, Purge(ops, b));
    PurgeAgrees(db, db, ops, b);
    RunKeepsInv(db, ops);
    RunKeepsInv(db, Purge(ops, b));
    ReadsOfSeen(full, user, b, project);
    ReadsOfSeen(purged, user, b, project);
    hide Inv, Seen, Step, FreshIn, KnownAlike, Run;
    forall op | ActsIn(op) == Some(b) && FreshIn(full, op) && FreshIn(purged, op)
      ensures Step(full, op).reply == Step(purged, op).reply <==> KnownAlike(full, purged, op)
    {
      SameRepliesAfter(full, purged, op, b);
    }
  }

  lemma {:induction false} NothingLeft(ops: seq<Op>, a: nat, b: nat)
    requires a != b && forall op | op in ops :: ActsIn(op) == Some(a)
    ensures Purge(ops, b) == []
  {
    if ops != [] {
      NothingLeft(ops[1..], a, b);
    }
  }

  /** Whatever one tenant does, role deletion with its cascade included, leaves another's access as it was. */
  lemma OtherTenantUntouched(db: Db, ops: seq<Op>, a: nat, b: nat, user: nat, project: Option<nat>)
    requires Inv(db) && FreshRun(db, ops) && a != b
    requires forall op | op in ops :: ActsIn(op) == Some(a)
    ensures GetUserRolesScoped(Run(db, ops), user, b, project) == GetUserRolesScoped(db, user, b, project)
    ensures GetUserPermissionsScoped(Run(db, ops), user, b, project) == GetUserPermissionsScoped(db, user, b, project)
  {
    NothingLeft(ops, a, b);
    TenantsDoNotInterfere(db, ops, b, user, project);
  }

  /** A user, two tenants and no role. */
  const TWO_TENANTS := Db(map[7 := "u"], map[1 := "a", 2 := "b"], [], map[], {}, [], map[], {})

  lemma DevOfTheOther()
    ensures Inv(TWO_TENANTS) && !Known(TWO_TENANTS.roles, "dev")
    ensures var after := Step(TWO_TENANTS, OpCreateRole(2, "dev", 5)).db;
      Known(after.roles, "dev") && View(after, Restricted(Some(1))).roles == map[]
  {
    var after := Step(TWO_TENANTS, OpCreateRole(2, "dev", 5)).db;
    assert after.roles == map[5 := Role("dev", Some(2))];
    assert 5 in after.roles && after.roles[5].name == "dev";
  }

  /**
   The one reply that does cross tenants: revocation first looks the role name up among all
   tenants' roles, so a name only another tenant uses turns `NotFound` into `Done`.
   */
  lemma RevokeReplyCrossesTenants(user: string)
    requires IdText.Parse(user).Some?
    ensures var op, other := OpRevoke(1, user, "dev", Absent), OpCreateRole(2, "dev", 5);
      && Inv(TWO_TENANTS) && ActsIn(op) == Some(1) && ActsIn(other) == Some(2)
      && Step(TWO_TENANTS, op).reply == NotFound
      && Step(Step(TWO_TENANTS, other).db, op).reply == Done
  {
    DevOfTheOther();
    RevokeReply(TWO_TENANTS, user, "dev", Absent, 1);
    RevokeReply(Step(TWO_TENANTS, OpCreateRole(2, "dev", 5)).db, user, "dev", Absent, 1);
    hide IdText.Parse, RevokeRole, View, CreateRole, Inv, Known;
  }

  // ── Assigning and revoking ────────────────────────────────

  /** Two visible roles of one name are the tenant's own and the template it shadows. */
  lemma VisibleRoles(db: Db, name: string, tenant: nat)
    requires Inv(db) && GetRoleInTenant(db.roles, name, tenant).Some?
    ensures var visible := View(db, Restricted(Some(tenant))).roles;
      && NamedRole(visible, name).Some?
      && (!Ambiguous(visible, name) ==> NamedRole(visible, name) == GetRoleInTenant(db.roles, name, tenant))
  {
    ResolveInPart(db, name, tenant);
    var id := GetRoleInTenant(db.roles, name, tenant).value;
    var visible := View(db, Restricted(Some(tenant))).roles;
    assert id in visible && visible[id].name == name;
  }

  lemma AssignAddsRow(db: Db, tenant: nat, user: string, name: string, project: ProjectArg)
    requires Inv(db) && IdText.Parse(user).Some? && IdText.Parse(user).value in db.users
    requires tenant in db.tenants && ValidateAssign(db, tenant, name, project) == Done
    requires UserRole(IdText.Parse(user).value, GetRoleInTenant(db.roles, name, tenant).value, tenant,
                      OptionalProject(project)) !in db.userRoles
    ensures AssignRole(db, tenant, user, name, project) ==
      Outcome(db.(userRoles := db.userRoles + [UserRole(IdText.Parse(user).value,
        GetRoleInTenant(db.roles, name, tenant).value, tenant, OptionalProject(project))]), Done)
  {
    hide IdText.Parse;
    ResolveInPart(db, name, tenant);
  }

  lemma RevokeTakesRow(db: Db, tenant: nat, user: string, name: string, project: ProjectArg)
    requires Inv(db) && IdText.Parse(user).Some? && GetRoleInTenant(db.roles, name, tenant).Some?
    ensures RevokeRole(db, tenant, user, name, project) ==
      if Ambiguous(View(db, Restricted(Some(tenant))).roles, name) then Outcome(db, Internal)
      else Outcome(DeleteUserRole(db, UserRole(IdText.Parse(user).value, GetRoleInTenant(db.roles, name, tenant).value,
                                               tenant, OptionalProject(project))), Done)
  {
    hide IdText.Parse;
    VisibleRoles(db, name, tenant);
    var id := GetRoleInTenant(db.roles, name, tenant).value;
    assert id in db.roles && db.roles[id].name == name;
    hide Inv, Ambiguous, GetRoleInTenant;
  }

  /**
   Revocation reads a project text that is no identifier as none. So it takes a tenant-wide
   assignment exactly if the role name is visible once and the text is not an identifier, where
   assignment refuses such a text.
   */
  lemma UnreadableProjectMeansTenantWide(db: Db, tenant: nat, user: string, name: string, project: ProjectArg)
    requires Inv(db) && IdText.Parse(user).Some? && GetRoleInTenant(db.roles, name, tenant).Some?
    requires UserRole(IdText.Parse(user).value, GetRoleInTenant(db.roles, name, tenant).value, tenant, None)
      in db.userRoles
    ensures UserRole(IdText.Parse(user).value, GetRoleInTenant(db.roles, name, tenant).value, tenant, None)
         !in RevokeRole(db, tenant, user, name, project).db.userRoles
      <==> !Ambiguous(View(db, Restricted(Some(tenant))).roles, name) && !project.Named?
    ensures AssignRole(db, tenant, user, name, Unparsable) == Outcome(db, InvalidArgument)
  {
    RevokeTakesRow(db, tenant, user, name, project);
    hide IdText.Parse, Inv, RevokeRole, Ambiguous, View, GetRoleInTenant;
  }

  lemma AddedRowRemoved(db: Db, row: UserRole)
    requires row !in db.userRoles
    ensures DeleteUserRole(db.(userRoles := db.userRoles + [row]), row) == db
    ensures db.(userRoles := db.userRoles + [row]) != db
  {
    FilterConcat(r => r != row, db.userRoles, [row]);
    FilterAll(r => r != row, db.userRoles);
    assert |db.userRoles + [row]| != |db.userRoles|;
  }

  /**
   Revoking an assignment that was just made restores the table exactly when the role name
   is visible once in the tenant; otherwise the revocation fails and the row stays. Rows of
   other users, roles and project scopes are not touched either way.
   */
  lemma RevokeUndoesAssign(db: Db, tenant: nat, user: string, name: string, project: ProjectArg)
    requires Inv(db) && IdText.Parse(user).Some? && IdText.Parse(user).value in db.users
    requires tenant in db.tenants && ValidateAssign(db, tenant, name, project) == Done
    requires UserRole(IdText.Parse(user).value, GetRoleInTenant(db.roles, name, tenant).value, tenant,
                      OptionalProject(project)) !in db.userRoles
    ensures var made := AssignRole(db, tenant, user, name, project);
      var undone := RevokeRole(made.db, tenant, user, name, project);
      var row := UserRole(IdText.Parse(user).value, GetRoleInTenant(db.roles, name, tenant).value, tenant,
          OptionalProject(project));
      && made.reply == Done && made.db == db.(userRoles := db.userRoles + [row])
      && (undone.db == db && undone.reply == Done <==> !Ambiguous(View(db, Restricted(Some(tenant))).roles, name))
      && (Ambiguous(View(db, Restricted(Some(tenant))).roles, name) ==> undone == Outcome(made.db, Internal))
  {
    hide IdText.Parse;
    var row := UserRole(IdText.Parse(user).value, GetRoleInTenant(db.roles, name, tenant).value, tenant,
        OptionalProject(project));
    var after := db.(userRoles := db.userRoles + [row]);
    AssignAddsRow(db, tenant, user, name, project);
    AssignRoleKeepsInv(db, tenant, user, name, project);
    AddedRowRemoved(db, row);
    assert View(after, Restricted(Some(tenant))).roles == View(db, Restricted(Some(tenant))).roles;
    hide Inv, AssignRole, RevokeRole, DeleteUserRole, Ambiguous, View;
    RevokeTakesRow(after, tenant, user, name, project);
  }

  /**
   A platform with one user, its default tenant, the templates and the seeded `viewer`, and its
   tenant's own `viewer`.
   */
  function Shadowing(user: nat): Legacy {
    Legacy(map[user := "u"], [], map[], {}, [])
  }

  const VIEWER := 3
  const OWN_VIEWER := 5

  lemma SeededRoles(user: nat)
    ensures var seeded := SeedViewer(Migrate(Shadowing(user)), VIEWER);
      && Inv(seeded) && user in seeded.users && DEFAULT_TENANT in seeded.tenants && seeded.userRoles == []
      && seeded.roles == map[VIEWER := Role("viewer", None)]
  {
    MigrationEstablishesInv(Shadowing(user), VIEWER);
    hide Inv;
  }

  lemma OwnViewerCreated(db: Db)
    requires Inv(db) && DEFAULT_TENANT in db.tenants && db.roles == map[VIEWER := Role("viewer", None)]
    ensures var after := Step(db, OpCreateRole(DEFAULT_TENANT, "viewer", OWN_VIEWER)).db;
      && Inv(after) && after == db.(roles := db.roles[OWN_VIEWER := Role("viewer", Some(DEFAULT_TENANT))])
      && GetRoleInTenant(after.roles, "viewer", DEFAULT_TENANT) == Some(OWN_VIEWER)
      && Ambiguous(View(after, Restricted(Some(DEFAULT_TENANT))).roles, "viewer")
  {
    StepKeepsInv(db, OpCreateRole(DEFAULT_TENANT, "viewer", OWN_VIEWER));
    var after := Step(db, OpCreateRole(DEFAULT_TENANT, "viewer", OWN_VIEWER)).db;
    FoundRole(after.roles, OWN_VIEWER);
    hide Inv;
    var visible := View(after, Restricted(Some(DEFAULT_TENANT))).roles;
    assert VIEWER in visible && OWN_VIEWER in visible;
    assert visible[VIEWER].name == "viewer" && visible[OWN_VIEWER].name == "viewer";
  }

  /** Wherever a tenant sees two roles of a name, an assignment by that name sticks. */
  lemma ShadowedAssignmentSticks(db: Db, t: nat, text: string, name: string)
    requires Inv(db) && IdText.Parse(text).Some? && IdText.Parse(text).value in db.users && t in db.tenants
    requires GetRoleInTenant(db.roles, name, t).Some? && Ambiguous(View(db, Restricted(Some(t))).roles, name)
    requires UserRole(IdText.Parse(text).value, GetRoleInTenant(db.roles, name, t).value, t, None) !in db.userRoles
    ensures var after := Step(db, OpAssign(t, text, name, Absent)).db;
      && UserRole(IdText.Parse(text).value, GetRoleInTenant(db.roles, name, t).value, t, None) in after.userRoles
      && Step(after, OpRevoke(t, text, name, Absent)) == Outcome(after, Internal)
  {
    hide IdText.Parse, Inv, AssignRole, RevokeRole, GetRoleInTenant, View, Ambiguous;
    RevokeUndoesAssign(db, t, text, name, Absent);
  }

  /**
   The input that breaks revocation: on the migrated tables with their seeded `viewer`, a
   tenant creates a role of that name, which is not reserved, and assigns it. Revoking it
   fails, and the user keeps it.
   */
  lemma ShadowedRoleCannotBeRevoked(text: string)
    requires IdText.Parse(text).Some?
    ensures var user := IdText.Parse(text).value;
      var t, seeded := DEFAULT_TENANT, SeedViewer(Migrate(Shadowing(user)), VIEWER);
      var db := Run(seeded, [OpCreateRole(t, "viewer", OWN_VIEWER), OpAssign(t, text, "viewer", Absent)]);
      && Inv(seeded) && UserRole(user, OWN_VIEWER, t, None) in db.userRoles
      && Step(db, OpRevoke(t, text, "viewer", Absent)) == Outcome(db, Internal)
  {
    hide IdText.Parse, Migrate, SeedViewer, Inv, Ambiguous, GetRoleInTenant, View, Step, Run;
    var user, t := IdText.Parse(text).value, DEFAULT_TENANT;
    var seeded := SeedViewer(Migrate(Shadowing(user)), VIEWER);
    var create, assign := OpCreateRole(t, "viewer", OWN_VIEWER), OpAssign(t, text, "viewer", Absent);
    SeededRoles(user);
    OwnViewerCreated(seeded);
    RunTwo(seeded, create, assign);
    ShadowedAssignmentSticks(Step(seeded, create).db, t, text, "viewer");
  }

  lemma RunTwo(db: Db, a: Op, b: Op)
    ensures Run(db, [a, b]) == Step(Step(db, a).db, b).db
  {
    hide Step;
    assert [a, b][1..] == [b] && [b][1..] == [];
    assert Run(Step(db, a).db, [b]) == Step(Step(db, a).db, b).db;
  }
}
