/**
 API keys: what a key may do is its stored scopes cut down to what its owner may still do in
 the tenant and project the key was minted in. A membership here is an active one.
 */
module ApiKeys {
  import opened Seqs
  import opened Rbac
  import opened RbacInvariant
  import opened RbacIsolation
  import opened RbacTheorems
  import IdText

  datatype Key = Key(user: nat, scopes: seq<string>, tenant: nat, project: Option<nat>,
                     expires: Option<nat>, revoked: bool)

  /** The key itself is good and its owner is neither gone, soft-deleted nor out of the tenant. */
  predicate Alive(db: Db, deleted: set<nat>, key: Key, now: nat) {
    && !key.revoked && (key.expires.Some? ==> now <= key.expires.value)
    && key.user in db.users && key.user !in deleted
    && (key.user, key.tenant) in db.members
  }

  function OwnerPermissions(db: Db, key: Key): seq<string> {
    GetUserPermissionsScoped(db, key.user, key.tenant, key.project)
  }

  /** The scopes a validation returns, or nothing if it refuses the key. */
  function Effective(db: Db, deleted: set<nat>, key: Key, now: nat): Option<seq<string>> {
    if !Alive(db, deleted, key, now) then None
    else
      var held := OwnerPermissions(db, key);
      Some(Filter(s => s in held, key.scopes))
  }

  // ── The loops ─────────────────────────────────────────────

  /** Collects what is held, then keeps the scopes found in it, in their order. */
  method Intersect(scopes: seq<string>, held: seq<string>) returns (effective: seq<string>)
    ensures effective == Filter(s => s in held, scopes)
  {
    var have: set<string> := {};
    for i := 0 to |held|
      invariant have == set p | p in held[..i]
    {
      have := have + {held[i]};
    }
    assert held[..|held|] == held;
    effective := [];
    for i := 0 to |scopes|
      invariant effective == Filter(s => s in held, scopes[..i])
    {
      assert scopes[..i + 1] == scopes[..i] + [scopes[i]];
      FilterConcat(s => s in held, scopes[..i], [scopes[i]]);
      if scopes[i] in have {
        effective := effective + [scopes[i]];
      }
    }
    assert scopes[..|scopes|] == scopes;
  }

  /**
   Looks the key up by the hash of its text and reads the owner's permissions under the key's
   tenant, whether or not the policy is in force.
   */
  method ValidateApiKey(db: Db, restricted: bool, deleted: set<nat>, keys: map<nat, Key>, hash: nat, now: nat)
    returns (scopes: Option<seq<string>>)
    ensures scopes == if hash in keys then Effective(db, deleted, keys[hash], now) else None
  {
    if hash !in keys {
      return None;
    }
    var key := keys[hash];
    if key.revoked {
      return None;
    }
    if key.expires.Some? && key.expires.value < now {
      return None;
    }
    if key.user !in db.users || key.user in deleted {
      return None;
    }
    if (key.user, key.tenant) !in db.members {
      return None;
    }
    var session := if restricted then Restricted(Some(key.tenant)) else Bypass;
    ViewForKey(db, session, key);
    var effective := Intersect(key.scopes, OwnerPermissions(View(db, session), key));
    return Some(effective);
  }

  lemma ViewForKey(db: Db, session: Session, key: Key)
    requires session == Bypass || session == Restricted(Some(key.tenant))
    ensures OwnerPermissions(View(db, session), key) == OwnerPermissions(db, key)
  {
    if session == Bypass {
      FilterAll(Admitted(Bypass), db.userRoles);
      assert View(db, Bypass) == db;
    } else {
      PermissionsUnderPolicy(db, key.user, key.tenant, key.project);
    }
  }

  // ── Never more than either side ───────────────────────────

  /** `a` is `b` with some elements left out. */
  predicate Subsequence(a: seq<string>, b: seq<string>) {
    a == [] || (b != [] && (if a[0] == b[0] then Subsequence(a[1..], b[1..]) else Subsequence(a, b[1..])))
  }

  lemma {:induction false} FilterIsSubsequence(p: string -> bool, s: seq<string>)
    ensures Subsequence(Filter(p, s), s)
  {
    if s != [] {
      FilterIsSubsequence(p, s[1..]);
      if p(s[0]) {
        assert Filter(p, s)[1..] == Filter(p, s[1..]);
      } else if Filter(p, s) != [] {
        assert Filter(p, s)[0] != s[0];
      }
    }
  }

  /**
   A key is good exactly if it is not revoked, not past its expiry, and its owner exists, is not
   soft-deleted and belongs to the key's tenant.
   */
  lemma KeyIsGood(db: Db, deleted: set<nat>, key: Key, now: nat)
    ensures Effective(db, deleted, key, now).Some? <==>
      && !key.revoked && (key.expires == None || now <= key.expires.value)
      && key.user in db.users && key.user !in deleted && (key.user, key.tenant) in db.members
  {
  }

  /** A key carries exactly those of its scopes that its owner holds, in the order it lists them. */
  lemma ScopesAreHeld(db: Db, deleted: set<nat>, key: Key, now: nat)
    requires Alive(db, deleted, key, now)
    ensures var e := Effective(db, deleted, key, now).value;
      && Subsequence(e, key.scopes)
      && (forall s :: s in e <==> s in key.scopes && s in db.catalog
                                  && HoldsScoped(db, key.user, key.tenant, key.project, s))
  {
    var held := OwnerPermissions(db, key);
    FilterIsSubsequence(s => s in held, key.scopes);
  }

  /**
   What ends a key: revoking it, its expiry for good, its owner leaving the tenant, and either
   deletion of its owner.
   */
  lemma KeysEnd(db: Db, deleted: set<nat>, key: Key, now: nat, text: string)
    requires IdText.Parse(text) == Some(key.user)
    ensures key.revoked ==> Effective(db, deleted, key, now).None?
    ensures key.expires.Some? && key.expires.value < now ==>
              forall later | now <= later :: Effective(db, deleted, key, later).None?
    ensures Effective(RemoveMember(db, key.tenant, text).db, deleted, key, now).None?
    ensures Effective(DeleteUser(db, text).db, deleted, key, now).None?
    ensures Effective(db, deleted + {key.user}, key, now).None?
  {
    hide IdText.Parse;
  }

  // ── Losing access ─────────────────────────────────────────

  /** Operations that only take roles, permissions, members or users away. */
  predicate Removes(op: Op) {
    op.OpRevoke? || op.OpRevokeGrant? || op.OpDeleteRole? || op.OpRemoveMember? || op.OpDeleteUser?
  }

  ghost predicate Within(small: Db, large: Db) {
    && small.catalog == large.catalog
    && small.grants <= large.grants
    && (forall r | r in small.userRoles :: r in large.userRoles)
    && small.users.Keys <= large.users.Keys
    && small.members <= large.members
  }

  lemma RemovalShrinks(db: Db, op: Op)
    requires Removes(op)
    ensures Within(Step(db, op).db, db)
  {
    hide IdText.Parse;
  }

  lemma {:induction false} RemovalsShrink(db: Db, ops: seq<Op>)
    requires forall op | op in ops :: Removes(op)
    ensures Within(Run(db, ops), db)
    decreases |ops|
  {
    if ops != [] {
      RemovalShrinks(db, ops[0]);
      RemovalsShrink(Step(db, ops[0]).db, ops[1..]);
    }
  }

  /**
   Revocations, role and permission removals, lost memberships and deletions never widen a
   key: it is refused afterwards, or it carries what is left of its scopes in their order.
   */
  lemma KeysOnlyNarrow(db: Db, ops: seq<Op>, deleted: set<nat>, key: Key, now: nat)
    requires forall op | op in ops :: Removes(op)
    ensures var before, after := Effective(db, deleted, key, now), Effective(Run(db, ops), deleted, key, now);
      after.Some? ==> before.Some? && after.value == Filter(s => s in OwnerPermissions(Run(db, ops), key), before.value)
                      && Subsequence(after.value, before.value)
  {
    RemovalsShrink(db, ops);
    var t := Run(db, ops);
    if Alive(t, deleted, key, now) {
      var held, left := OwnerPermissions(db, key), OwnerPermissions(t, key);
      forall s | s in left ensures s in held {
        assert HoldsScoped(db, key.user, key.tenant, key.project, s);
      }
      FilterHidden(s => s in left, s => s in held, key.scopes);
      FilterCongruent(s => s in left, s => s in OwnerPermissions(t, key), key.scopes);
      FilterCongruent(s => s in left, s => s in OwnerPermissions(t, key), Filter(s => s in held, key.scopes));
      FilterIsSubsequence(s => s in left, Filter(s => s in held, key.scopes));
    }
  }

  // ── Other tenants ─────────────────────────────────────────

  /** Whatever other tenants do to their roles, assignments and members, a key stays as it is. */
  lemma OtherTenantsKeepKeys(db: Db, ops: seq<Op>, deleted: set<nat>, key: Key, now: nat)
    requires Inv(db) && FreshRun(db, ops)
    requires forall op | op in ops :: ActsIn(op).Some? && ActsIn(op) != Some(key.tenant)
    ensures Effective(Run(db, ops), deleted, key, now) == Effective(db, deleted, key, now)
  {
    var b := key.tenant;
    NoneOfTheirs(ops, b);
    TenantsDoNotInterfere(db, ops, b, key.user, key.project);
    var t := Run(db, ops);
    assert Seen(t, b).users == t.users && Seen(db, b).users == db.users;
    assert (key.user, b) in Seen(t, b).members <==> (key.user, b) in t.members;
    assert (key.user, b) in Seen(db, b).members <==> (key.user, b) in db.members;
  }

  lemma {:induction false} NoneOfTheirs(ops: seq<Op>, b: nat)
    requires forall op | op in ops :: ActsIn(op).Some? && ActsIn(op) != Some(b)
    ensures Purge(ops, b) == []
  {
    if ops != [] {
      NoneOfTheirs(ops[1..], b);
    }
  }
}
