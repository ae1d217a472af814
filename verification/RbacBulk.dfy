/** Assigning one role to many users. */
module RbacBulk {
  import opened Seqs
  import opened Rbac
  import opened RbacInvariant
  import opened RbacIsolation
  import IdText

  datatype Bulk = Bulk(db: Db, done: nat, failed: seq<string>)

  ghost function BulkOne(acc: Bulk, tenant: nat, user: string, name: string, project: ProjectArg): Bulk {
    var one := AssignOne(acc.db, tenant, user, name, project);
    if one.reply == Done then Bulk(one.db, acc.done + 1, acc.failed) else acc.(failed := acc.failed + [user])
  }

  ghost function BulkAll(acc: Bulk, tenant: nat, users: seq<string>, name: string, project: ProjectArg): Bulk
    decreases |users|
  {
    if users == [] then acc
    else BulkAll(BulkOne(acc, tenant, users[0], name, project), tenant, users[1..], name, project)
  }

  /** The request is validated once, before the first user. */
  ghost function AssignRoleBulk(db: Db, tenant: nat, users: seq<string>, name: string, project: ProjectArg)
    : (Bulk, Reply)
  {
    var valid := ValidateAssign(db, tenant, name, project);
    if valid != Done then (Bulk(db, 0, []), valid)
    else (BulkAll(Bulk(db, 0, []), tenant, users, name, project), Done)
  }

  lemma {:induction false} BulkAllConcat(acc: Bulk, tenant: nat, a: seq<string>, b: seq<string>,
                                       name: string, project: ProjectArg)
    ensures BulkAll(acc, tenant, a + b, name, project)
         == BulkAll(BulkAll(acc, tenant, a, name, project), tenant, b, name, project)
    decreases |a|
  {
    if a == [] {
      assert a + b == b;
    } else {
      assert (a + b)[1..] == a[1..] + b;
      BulkAllConcat(BulkOne(acc, tenant, a[0], name, project), tenant, a[1..], b, name, project);
    }
  }

  /** Single assignments, one after the other. */
  ghost function AssignEach(db: Db, tenant: nat, users: seq<string>, name: string, project: ProjectArg): Db
    decreases |users|
  {
    if users == [] then db
    else AssignEach(AssignRole(db, tenant, users[0], name, project).db, tenant, users[1..], name, project)
  }

  predicate Assignable(db: Db, user: string) {
    IdText.Parse(user).Some? && IdText.Parse(user).value in db.users
  }

  /** The row an assignable user gets. */
  ghost function RowFor(db: Db, tenant: nat, user: string, name: string, project: ProjectArg): UserRole
    requires Assignable(db, user) && GetRoleInTenant(db.roles, name, tenant).Some?
  {
    UserRole(IdText.Parse(user).value, GetRoleInTenant(db.roles, name, tenant).value, tenant, OptionalProject(project))
  }

  ghost predicate Requested(db: Db, tenant: nat, users: seq<string>, name: string, project: ProjectArg, row: UserRole)
    requires GetRoleInTenant(db.roles, name, tenant).Some?
  {
    exists u | u in users && Assignable(db, u) :: RowFor(db, tenant, u, name, project) == row
  }

  lemma OneAssign(acc: Bulk, tenant: nat, user: string, name: string, project: ProjectArg)
    requires Inv(acc.db) && tenant in acc.db.tenants && ValidateAssign(acc.db, tenant, name, project) == Done
    ensures AssignRole(acc.db, tenant, user, name, project) == AssignOne(acc.db, tenant, user, name, project)
    ensures var db := acc.db; var next := BulkOne(acc, tenant, user, name, project);
      if !Assignable(db, user) then next == acc.(failed := acc.failed + [user])
      else
        var row := RowFor(db, tenant, user, name, project);
        next == Bulk(if row in db.userRoles then db else db.(userRoles := db.userRoles + [row]),
                     acc.done + 1, acc.failed)
  {
    ResolveInPart(acc.db, name, tenant);
    if Assignable(acc.db, user) {
      var row := RowFor(acc.db, tenant, user, name, project);
      assert row in acc.db.userRoles ==> RowOk(acc.db, row);
    }
  }

  lemma OneKeeps(acc: Bulk, tenant: nat, user: string, name: string, project: ProjectArg)
    requires Inv(acc.db) && tenant in acc.db.tenants && ValidateAssign(acc.db, tenant, name, project) == Done
    ensures var next := BulkOne(acc, tenant, user, name, project);
      && Inv(next.db) && next.db == acc.db.(userRoles := next.db.userRoles)
      && ValidateAssign(next.db, tenant, name, project) == Done
  {
    OneAssign(acc, tenant, user, name, project);
    AssignRoleKeepsInv(acc.db, tenant, user, name, project);
  }

  lemma {:induction false} BulkIsEach(acc: Bulk, tenant: nat, users: seq<string>, name: string, project: ProjectArg)
    requires Inv(acc.db) && tenant in acc.db.tenants && ValidateAssign(acc.db, tenant, name, project) == Done
    ensures var r := BulkAll(acc, tenant, users, name, project);
      && r.db == AssignEach(acc.db, tenant, users, name, project)
      && r.db == acc.db.(userRoles := r.db.userRoles) && Inv(r.db)
    decreases |users|
  {
    if users != [] {
      var next := BulkOne(acc, tenant, users[0], name, project);
      OneAssign(acc, tenant, users[0], name, project);
      OneKeeps(acc, tenant, users[0], name, project);
      assert next.db == AssignRole(acc.db, tenant, users[0], name, project).db;
      hide IdText.Parse, Inv, ValidateAssign, BulkOne, AssignOne, AssignRole;
      BulkIsEach(next, tenant, users[1..], name, project);
    }
  }

  lemma OneCounts(acc: Bulk, tenant: nat, user: string, name: string, project: ProjectArg)
    requires Inv(acc.db) && tenant in acc.db.tenants && ValidateAssign(acc.db, tenant, name, project) == Done
    ensures var next := BulkOne(acc, tenant, user, name, project);
      && Inv(next.db) && next.db == acc.db.(userRoles := next.db.userRoles)
      && ValidateAssign(next.db, tenant, name, project) == Done
      && next.failed == acc.failed + (if Assignable(acc.db, user) then [] else [user])
      && next.done == acc.done + (if Assignable(acc.db, user) then 1 else 0)
  {
    OneAssign(acc, tenant, user, name, project);
    OneKeeps(acc, tenant, user, name, project);
    hide IdText.Parse, Inv, ValidateAssign, BulkOne, Assignable, RowFor;
  }

  lemma BulkUnfolds(acc: Bulk, tenant: nat, users: seq<string>, name: string, project: ProjectArg)
    requires users != []
    ensures BulkAll(acc, tenant, users, name, project)
         == BulkAll(BulkOne(acc, tenant, users[0], name, project), tenant, users[1..], name, project)
  {
  }

  lemma SameFailures(db: Db, next: Db, users: seq<string>)
    requires users != [] && next == db.(userRoles := next.userRoles)
    ensures Filter(u => !Assignable(db, u), users)
         == (if Assignable(db, users[0]) then [] else [users[0]]) + Filter(u => !Assignable(next, u), users[1..])
  {
    hide IdText.Parse;
    FilterCongruent(u => !Assignable(db, u), u => !Assignable(next, u), users[1..]);
  }

  lemma {:induction false} BulkCounts(acc: Bulk, tenant: nat, users: seq<string>, name: string, project: ProjectArg)
    requires Inv(acc.db) && tenant in acc.db.tenants && ValidateAssign(acc.db, tenant, name, project) == Done
    ensures var r := BulkAll(acc, tenant, users, name, project);
      && r.failed == acc.failed + Filter(u => !Assignable(acc.db, u), users)
      && r.done + |r.failed| == acc.done + |acc.failed| + |users|
    decreases |users|
  {
    if users != [] {
      hide *;
      var next := BulkOne(acc, tenant, users[0], name, project);
      BulkUnfolds(acc, tenant, users, name, project);
      OneCounts(acc, tenant, users[0], name, project);
      SameFailures(acc.db, next.db, users);
      BulkCounts(next, tenant, users[1..], name, project);
      var one := if Assignable(acc.db, users[0]) then [] else [users[0]];
      Associate(acc.failed, one, Filter(u => !Assignable(next.db, u), users[1..]));
    }
  }

  lemma {:induction false} BulkRows(acc: Bulk, tenant: nat, users: seq<string>, name: string, project: ProjectArg)
    requires Inv(acc.db) && tenant in acc.db.tenants && ValidateAssign(acc.db, tenant, name, project) == Done
    ensures var rows := BulkAll(acc, tenant, users, name, project).db.userRoles;
      forall row :: row in rows <==> row in acc.db.userRoles || Requested(acc.db, tenant, users, name, project, row)
    decreases |users|
  {
    if users != [] {
      var next := BulkOne(acc, tenant, users[0], name, project);
      OneAssign(acc, tenant, users[0], name, project);
      OneKeeps(acc, tenant, users[0], name, project);
      hide IdText.Parse, Inv, ValidateAssign, BulkOne, AssignOne, AssignRole;
      BulkRows(next, tenant, users[1..], name, project);
      forall row {
        RequestedSplits(acc.db, next.db, tenant, users, name, project, row);
      }
    }
  }

  lemma RequestedSplits(db: Db, next: Db, tenant: nat, users: seq<string>, name: string, project: ProjectArg,
                        row: UserRole)
    requires GetRoleInTenant(db.roles, name, tenant).Some? && next == db.(userRoles := next.userRoles) && users != []
    ensures Requested(db, tenant, users, name, project, row) <==>
      (Assignable(db, users[0]) && RowFor(db, tenant, users[0], name, project) == row)
      || Requested(next, tenant, users[1..], name, project, row)
  {
    if Requested(next, tenant, users[1..], name, project, row) {
      var u :| u in users[1..] && Assignable(next, u) && RowFor(next, tenant, u, name, project) == row;
      assert u in users;
    }
    if Requested(db, tenant, users, name, project, row) {
      var u :| u in users && Assignable(db, u) && RowFor(db, tenant, u, name, project) == row;
      assert u == users[0] || u in users[1..];
    }
  }

  /**
   Bulk assignment is single assignments in order. It reports exactly the texts that are no
   user's identifier, in the order of the request; every other entry counts as assigned,
   and the table gains the requested rows it lacked, once each however often they repeat.
   */
  lemma BulkAssigns(db: Db, tenant: nat, users: seq<string>, name: string, project: ProjectArg)
    requires Inv(db) && tenant in db.tenants && ValidateAssign(db, tenant, name, project) == Done
    ensures var (r, reply) := AssignRoleBulk(db, tenant, users, name, project);
      && reply == Done
      && r.db == AssignEach(db, tenant, users, name, project)
      && r.failed == Filter(u => !Assignable(db, u), users)
      && r.done + |r.failed| == |users|
      && r.db == db.(userRoles := r.db.userRoles) && Distinct(r.db.userRoles)
      && (forall row :: row in r.db.userRoles <==>
            row in db.userRoles || Requested(db, tenant, users, name, project, row))
  {
    BulkIsEach(Bulk(db, 0, []), tenant, users, name, project);
    BulkCounts(Bulk(db, 0, []), tenant, users, name, project);
    BulkRows(Bulk(db, 0, []), tenant, users, name, project);
  }

  /** A request that may not be assigned is refused as a whole, before the first user. */
  lemma BulkRefused(db: Db, tenant: nat, users: seq<string>, name: string, project: ProjectArg)
    requires ValidateAssign(db, tenant, name, project) != Done
    ensures AssignRoleBulk(db, tenant, users, name, project)
         == (Bulk(db, 0, []), ValidateAssign(db, tenant, name, project))
  {
    hide ValidateAssign;
  }

  /** Repeating users changes neither the table's rows nor, beyond the count, the result. */
  lemma RepeatsAreHarmless(db: Db, tenant: nat, users: seq<string>, again: seq<string>,
                           name: string, project: ProjectArg)
    requires Inv(db) && tenant in db.tenants && ValidateAssign(db, tenant, name, project) == Done
    requires forall u :: u in users <==> u in again
    ensures forall row :: row in AssignRoleBulk(db, tenant, users, name, project).0.db.userRoles
                     <==> row in AssignRoleBulk(db, tenant, again, name, project).0.db.userRoles
  {
    BulkAssigns(db, tenant, users, name, project);
    BulkAssigns(db, tenant, again, name, project);
    forall row
      ensures Requested(db, tenant, users, name, project, row) <==> Requested(db, tenant, again, name, project, row)
    {
    }
  }
}
