/**
 Sessions at handler granularity: each handler runs as a whole, and writes whose errors the
 service discards succeed. `Refreshed` is a refresh as one transition; it is the interleaved
 protocol with nothing in between its statements.
 */
module SessionHandlers {
  import opened Seqs
  import opened Sessions

  // ── Refresh as one transition ─────────────────────────────

  function Refreshed(s: State, presented: nat, minted: nat, lifetime: nat): State {
    match Decide(s, presented)
    case Inserting(_, binding, rotate) =>
      var t := Insert(s, minted, binding, lifetime, Some(presented));
      if rotate && CanInsert(s, minted, binding) then Rotate(t, presented, minted) else t
    case Wiping(user) => RevokeAll(s, user)
    case _ => s
  }

  /** The refresh returns a new token pair. */
  predicate Yields(s: State, presented: nat, minted: nat) {
    Decide(s, presented).Inserting? && CanInsert(s, minted, Decide(s, presented).binding)
  }

  predicate Reused(s: State, presented: nat, user: nat) {
    Decide(s, presented) == Wiping(user)
  }

  /** The table statements neither look at the processes nor change them. */
  lemma TablesIgnorePcs(s: State, pcs: map<nat, Pc>, hash: nat, binding: Binding, lifetime: nat, parent: Option<nat>)
    ensures Insert(s.(pcs := pcs), hash, binding, lifetime, parent)
         == Insert(s, hash, binding, lifetime, parent).(pcs := pcs)
    ensures CanInsert(s.(pcs := pcs), hash, binding) == CanInsert(s, hash, binding)
    ensures RevokeAll(s.(pcs := pcs), binding.user) == RevokeAll(s, binding.user).(pcs := pcs)
    ensures parent.Some? ==> Rotate(s.(pcs := pcs), parent.value, hash) == Rotate(s, parent.value, hash).(pcs := pcs)
  {
  }

  lemma ExecThree(s: State, a: Step, b: Step, c: Step)
    ensures Exec(s, [a, b, c]) == Apply(Apply(Apply(s, a), b), c)
  {
    ExecTwo(s, [a, b, c]);
    assert [a, b, c][2..] == [c];
    assert Exec(Apply(Apply(s, a), b), [c]) == Apply(Apply(Apply(s, a), b), c);
  }

  /** A refresh that is not interrupted has the effect of its statements, one after the other. */
  lemma RefreshIsItsStatements(s: State, proc: nat, presented: nat, minted: nat, lifetime: nat)
    requires At(s, proc) == Idle
    ensures Exec(s, [Read(proc, presented), Next(proc, minted, lifetime), Next(proc, minted, lifetime)])
         == Refreshed(s, presented, minted, lifetime).(pcs := s.pcs[proc := Idle])
  {
    ExecThree(s, Read(proc, presented), Next(proc, minted, lifetime), Next(proc, minted, lifetime));
    var d := Decide(s, presented);
    var pcs1 := s.pcs[proc := d];
    var s1 := s.(pcs := pcs1);
    assert pcs1[proc := Idle] == s.pcs[proc := Idle];
    var next := Next(proc, minted, lifetime);
    var idle := s.pcs[proc := Idle];
    match d
    case Idle =>
    case Inserting(_, binding, rotate) =>
      InsertThenRotate(s, proc, presented, minted, lifetime);
    case Wiping(user) =>
      TablesIgnorePcs(s, pcs1, 0, Binding(user, 0, None), 0, None);
      assert Apply(s1, next) == RevokeAll(s, user).(pcs := idle);
      assert At(Apply(s1, next), proc) == Idle;
  }

  lemma InsertThenRotate(s: State, proc: nat, presented: nat, minted: nat, lifetime: nat)
    requires Decide(s, presented).Inserting?
    ensures var next := Next(proc, minted, lifetime);
      Apply(Apply(s.(pcs := s.pcs[proc := Decide(s, presented)]), next), next)
      == Refreshed(s, presented, minted, lifetime).(pcs := s.pcs[proc := Idle])
  {
    var d := Decide(s, presented);
    var binding := d.binding;
    assert d.presented == presented;
    var next := Next(proc, minted, lifetime);
    var pcs1, idle := s.pcs[proc := d], s.pcs[proc := Idle];
    assert pcs1[proc := Idle] == idle;
    var t := Insert(s, minted, binding, lifetime, Some(presented));
    TablesIgnorePcs(s, pcs1, minted, binding, lifetime, Some(presented));
    hide Insert, Decide, RevokeAll, RevokeOne;
    var s1 := s.(pcs := pcs1);
    assert At(s1, proc) == d;
    if d.rotate && CanInsert(s, minted, binding) {
      var pcs2 := s.pcs[proc := Rotating(presented, minted)];
      assert pcs1[proc := Rotating(presented, minted)] == pcs2 && pcs2[proc := Idle] == idle;
      assert Apply(s1, next) == t.(pcs := pcs2);
      TablesIgnorePcs(t, pcs2, minted, binding, lifetime, Some(presented));
      assert Apply(t.(pcs := pcs2), next) == Rotate(t, presented, minted).(pcs := idle);
    } else {
      assert Apply(s1, next) == t.(pcs := idle);
      assert Apply(t.(pcs := idle), next) == t.(pcs := idle);
    }
  }

  // ── Handlers ──────────────────────────────────────────────

  /** Login, tenant switch and code exchange are `Login`; reset, change and soft delete are `Reset`. */
  datatype Act =
    | Tick(duration: nat)
    | Enter(user: nat)
    | Leave(user: nat)
    | Login(hash: nat, binding: Binding, lifetime: nat)
    | Refresh(presented: nat, minted: nat, lifetime: nat)
    | Logout(hash: nat)
    | Reset(user: nat)

  function Do(s: State, act: Act): State {
    match act
    case Tick(duration) => Apply(s, Advance(duration))
    case Enter(user) => Apply(s, AddUser(user))
    case Leave(user) => Apply(s, DropUser(user))
    case Login(hash, binding, lifetime) => Apply(s, Issue(hash, binding, lifetime))
    case Refresh(presented, minted, lifetime) => Refreshed(s, presented, minted, lifetime)
    case Logout(hash) => RevokeOne(s, hash)
    case Reset(user) => RevokeAll(s, user)
  }

  function DoAll(s: State, acts: seq<Act>): State
    decreases |acts|
  {
    if acts == [] then s else DoAll(Do(s, acts[0]), acts[1..])
  }

  /** The statements of a handler, run by process `proc`. */
  function StepsOf(proc: nat, act: Act): seq<Step> {
    match act
    case Tick(duration) => [Advance(duration)]
    case Enter(user) => [AddUser(user)]
    case Leave(user) => [DropUser(user)]
    case Login(hash, binding, lifetime) => [Issue(hash, binding, lifetime)]
    case Refresh(presented, minted, lifetime) =>
      [Read(proc, presented), Next(proc, minted, lifetime), Next(proc, minted, lifetime)]
    case Logout(hash) => [Step.Logout(hash)]
    case Reset(user) => [Wipe(user)]
  }

  function StepsOfAll(proc: nat, acts: seq<Act>): seq<Step> {
    if acts == [] then [] else StepsOf(proc, acts[0]) + StepsOfAll(proc, acts[1..])
  }

  lemma DoIsItsSteps(s: State, proc: nat, act: Act)
    requires At(s, proc) == Idle
    ensures var t := Exec(s, StepsOf(proc, act));
      At(t, proc) == Idle && t == Do(s, act).(pcs := t.pcs)
  {
    if act.Refresh? {
      RefreshIsItsStatements(s, proc, act.presented, act.minted, act.lifetime);
    } else {
      var step := StepsOf(proc, act)[0];
      assert Exec(s, [step]) == Apply(s, step) by {
        ExecNone(Apply(s, step));
      }
    }
  }

  lemma DoIgnoresPcs(s: State, pcs: map<nat, Pc>, act: Act)
    ensures Do(s.(pcs := pcs), act) == Do(s, act).(pcs := pcs)
  {
  }

  /** Every run of whole handlers is one of the interleaved runs, so what holds of those holds of it. */
  lemma {:induction false} DoAllIsItsSteps(s: State, proc: nat, acts: seq<Act>)
    requires At(s, proc) == Idle
    ensures var t := Exec(s, StepsOfAll(proc, acts)); t == DoAll(s, acts).(pcs := t.pcs)
    decreases |acts|
  {
    if acts == [] {
    } else {
      var t := Exec(s, StepsOf(proc, acts[0]));
      DoIsItsSteps(s, proc, acts[0]);
      ExecConcat(s, StepsOf(proc, acts[0]), StepsOfAll(proc, acts[1..]));
      DoAllIsItsSteps(t, proc, acts[1..]);
      DoAllIgnoresPcs(Do(s, acts[0]), t.pcs, acts[1..]);
    }
  }

  lemma {:induction false} DoAllIgnoresPcs(s: State, pcs: map<nat, Pc>, acts: seq<Act>)
    ensures DoAll(s.(pcs := pcs), acts) == DoAll(s, acts).(pcs := pcs)
    decreases |acts|
  {
    if acts != [] {
      DoIgnoresPcs(s, pcs, acts[0]);
      DoAllIgnoresPcs(Do(s, acts[0]), pcs, acts[1..]);
    }
  }

  lemma RefreshKeepsTokensOk(s: State, presented: nat, minted: nat, lifetime: nat)
    requires TokensOk(s)
    ensures TokensOk(Refreshed(s, presented, minted, lifetime))
  {
    match Decide(s, presented)
    case Inserting(_, binding, rotate) =>
      InsertOk(s, minted, binding, lifetime, Some(presented));
      if rotate && CanInsert(s, minted, binding) {
        RotateOk(Insert(s, minted, binding, lifetime, Some(presented)), presented, minted);
      }
    case Wiping(user) => RevokeAllOk(s, user);
    case _ =>
  }

  lemma DoKeepsTokensOk(s: State, act: Act)
    requires TokensOk(s)
    ensures TokensOk(Do(s, act))
  {
    match act
    case Refresh(presented, minted, lifetime) => RefreshKeepsTokensOk(s, presented, minted, lifetime);
    case Login(hash, binding, lifetime) => InsertOk(s, hash, binding, lifetime, None);
    case Leave(user) => DropUserOk(s, user);
    case Logout(hash) => RevokeOneOk(s, hash);
    case Reset(user) => RevokeAllOk(s, user);
    case _ =>
  }

  lemma {:induction false} DoAllKeepsTokensOk(s: State, acts: seq<Act>)
    requires TokensOk(s)
    ensures TokensOk(DoAll(s, acts))
    decreases |acts|
  {
    if acts != [] {
      DoKeepsTokensOk(s, acts[0]);
      DoAllKeepsTokensOk(Do(s, acts[0]), acts[1..]);
    }
  }

  // ── After a wipe ──────────────────────────────────────────

  predicate Owns(s: State, user: nat, hash: nat) {
    hash in s.tokens && s.tokens[hash].binding.user == user
  }

  /** None of the user's tokens is live, and none was revoked after `at`. */
  ghost predicate WipedAt(s: State, user: nat, at: nat) {
    forall h | Owns(s, user, h) :: s.tokens[h].revokedAt.Some? && s.tokens[h].revokedAt.value <= at
  }

  /** The row was rotated, not merely revoked, less than the grace period ago. */
  predicate InGrace(s: State, hash: nat) {
    hash in s.tokens && s.tokens[hash].revokedAt.Some? && s.tokens[hash].replacedBy.Some?
    && s.now - s.tokens[hash].revokedAt.value < GRACE
  }

  ghost predicate Revivable(s: State, user: nat) {
    exists h :: Owns(s, user, h) && InGrace(s, h)
  }

  predicate Live(s: State, hash: nat) {
    hash in s.tokens && s.tokens[hash].revokedAt.None? && s.now <= s.tokens[hash].expires
  }

  /**
   Who may refresh, and to what effect: a live token, which is rotated to its successor, or
   one rotated less than 60 s ago, whose row stays as it is. The new token is bound like the
   presented one, no other row changes, and presenting any other revoked token revokes
   exactly the live tokens of its user.
   */
  lemma RefreshOutcome(s: State, presented: nat, minted: nat, lifetime: nat)
    requires TokensOk(s)
    ensures Yields(s, presented, minted) <==> (Live(s, presented) || InGrace(s, presented)) && minted !in s.used
    ensures InGrace(s, presented) <==> presented in s.tokens && var row := s.tokens[presented];
      row.revokedAt.Some? && row.replacedBy.Some? && s.now < row.revokedAt.value + 60
    ensures var t := Refreshed(s, presented, minted, lifetime);
      && t.now == s.now && t.users == s.users && t.gone == s.gone
      && (Yields(s, presented, minted) ==>
            && t.tokens.Keys == s.tokens.Keys + {minted} && minted !in s.tokens
            && Live(t, minted) && t.tokens[minted].binding == s.tokens[presented].binding
            && t.tokens[minted].expires == s.now + lifetime && t.tokens[minted].parent == Some(presented)
            && (forall h | h in s.tokens && !(h == presented && Live(s, h)) :: t.tokens[h] == s.tokens[h])
            && (Live(s, presented) ==>
                  t.tokens[presented] == s.tokens[presented].(revokedAt := Some(s.now), replacedBy := Some(minted))))
      && (!Yields(s, presented, minted) ==>
            && t.tokens.Keys == s.tokens.Keys
            && (forall h | h in s.tokens :: t.tokens[h] ==
                  if presented in s.tokens && s.tokens[presented].revokedAt.Some? && !InGrace(s, presented)
                     && Owns(s, s.tokens[presented].binding.user, h) && s.tokens[h].revokedAt.None?
                  then s.tokens[h].(revokedAt := Some(s.now)) else s.tokens[h]))
  {
    if presented in s.tokens {
      assert s.tokens[presented].binding.user in s.users;
    }
  }

  predicate Wipes(s: State, act: Act, user: nat) {
    match act
    case Reset(u) => u == user
    case Refresh(presented, _, _) => Reused(s, presented, user)
    case _ => false
  }

  /**
   A wipe leaves no live row of the user, leaves the rows that were already revoked as they
   were, and so exactly the rows rotated less than 60 s ago can still be refreshed.
   */
  lemma WipeEndsLiveRows(s: State, act: Act, user: nat)
    requires TokensOk(s) && Wipes(s, act, user)
    ensures var t := Do(s, act);
      && WipedAt(t, user, s.now) && t.tokens.Keys == s.tokens.Keys
      && (forall h | h in s.tokens :: t.tokens[h] ==
            if Owns(s, user, h) && s.tokens[h].revokedAt == None then s.tokens[h].(revokedAt := Some(s.now))
            else s.tokens[h])
      && (forall h, m | Owns(t, user, h) :: Yields(t, h, m) <==> InGrace(s, h) && m !in s.used)
  {
    var t := Do(s, act);
    assert t == RevokeAll(s, user);
    forall h, m | Owns(t, user, h)
      ensures Yields(t, h, m) <==> InGrace(s, h) && m !in s.used
    {
      assert Owns(s, user, h) && s.tokens[h].binding.user in s.users;
    }
  }

  predicate LogsIn(act: Act, user: nat) {
    act.Login? && act.binding.user == user
  }

  predicate RefreshesOf(s: State, act: Act, user: nat) {
    act.Refresh? && Owns(s, user, act.presented)
  }

  predicate Grants(s: State, act: Act, user: nat) {
    RefreshesOf(s, act, user) && Yields(s, act.presented, act.minted)
  }

  /** How many refreshes of the user's tokens return a pair over the run. */
  function Granted(s: State, acts: seq<Act>, user: nat): nat
    decreases |acts|
  {
    if acts == [] then 0
    else (if Grants(s, acts[0], user) then 1 else 0) + Granted(Do(s, acts[0]), acts[1..], user)
  }

  /** As long as the user neither logs in nor obtains a pair, the wiped rows only age or vanish. */
  lemma WipedRowsStay(s: State, act: Act, user: nat, at: nat)
    requires TokensOk(s) && WipedAt(s, user, at) && !LogsIn(act, user) && !Grants(s, act, user)
    ensures var t := Do(s, act);
      && WipedAt(t, user, at) && s.now <= t.now
      && (forall h | Owns(t, user, h) :: Owns(s, user, h) && t.tokens[h] == s.tokens[h])
  {
  }

  lemma GrantNeedsGrace(s: State, act: Act, user: nat, at: nat)
    requires TokensOk(s) && WipedAt(s, user, at) && Grants(s, act, user)
    ensures InGrace(s, act.presented)
  {
  }

  /** No login, switch or exchange of the user, and no refresh of theirs before `until`. */
  predicate Quiet(s: State, acts: seq<Act>, user: nat, until: nat)
    decreases |acts|
  {
    acts == []
    || (!LogsIn(acts[0], user)
        && (RefreshesOf(s, acts[0], user) ==> until <= s.now)
        && Quiet(Do(s, acts[0]), acts[1..], user, until))
  }

  predicate NeverLogsIn(acts: seq<Act>, user: nat) {
    forall act | act in acts :: !LogsIn(act, user)
  }

  /**
   Once wiped at `at`, a user who does not refresh within the next 60 s and does not log in
   never gets another pair by refreshing, however long the run.
   */
  lemma {:induction false} QuietUserStaysOut(s: State, acts: seq<Act>, user: nat, at: nat)
    requires TokensOk(s) && WipedAt(s, user, at) && Quiet(s, acts, user, at + GRACE)
    ensures Granted(s, acts, user) == 0 && WipedAt(DoAll(s, acts), user, at)
    decreases |acts|
  {
    if acts != [] {
      StaleRefused(s, acts[0], user, at);
      WipedRowsStay(s, acts[0], user, at);
      DoKeepsTokensOk(s, acts[0]);
      QuietUserStaysOut(Do(s, acts[0]), acts[1..], user, at);
    }
  }

  lemma StaleRefused(s: State, act: Act, user: nat, at: nat)
    requires TokensOk(s) && WipedAt(s, user, at) && (RefreshesOf(s, act, user) ==> at + GRACE <= s.now)
    ensures !Grants(s, act, user)
  {
    if Grants(s, act, user) {
      GrantNeedsGrace(s, act, user, at);
      assert false;
    }
  }

  lemma {:induction false} NoGraceNoGrant(s: State, acts: seq<Act>, user: nat, at: nat)
    requires TokensOk(s) && WipedAt(s, user, at) && !Revivable(s, user) && NeverLogsIn(acts, user)
    ensures Granted(s, acts, user) == 0
    decreases |acts|
  {
    if acts != [] {
      var act, t := acts[0], Do(s, acts[0]);
      if Grants(s, act, user) {
        GrantNeedsGrace(s, act, user, at);
        assert false;
      }
      WipedRowsStay(s, act, user, at);
      DoKeepsTokensOk(s, act);
      assert !Revivable(t, user) by {
        if h :| Owns(t, user, h) && InGrace(t, h) {
          assert Owns(s, user, h) && InGrace(s, h);
        }
      }
      NoGraceNoGrant(t, acts[1..], user, at);
    }
  }

  lemma {:induction false} SomeUnused(used: set<nat>) returns (m: nat)
    ensures m !in used && forall n | n in used :: n < m
    decreases used
  {
    if n :| n in used {
      var k := SomeUnused(used - {n});
      m := if k <= n then n + 1 else k;
      assert used == (used - {n}) + {n};
    } else {
      m := 0;
    }
  }

  /**
   What a wipe guarantees, exactly: whatever else happens, the user gets no further pair
   without logging in if and only if none of their rows was rotated less than 60 s ago.
   */
  lemma WipeIsFinalUnlessInGrace(s: State, user: nat)
    requires TokensOk(s) && WipedAt(s, user, s.now)
    ensures (forall acts | NeverLogsIn(acts, user) :: Granted(s, acts, user) == 0) <==> !Revivable(s, user)
  {
    if !Revivable(s, user) {
      forall acts | NeverLogsIn(acts, user) ensures Granted(s, acts, user) == 0 {
        NoGraceNoGrant(s, acts, user, s.now);
      }
    } else {
      var h :| Owns(s, user, h) && InGrace(s, h);
      var m := SomeUnused(s.used);
      var acts := [Refresh(h, m, 0)];
      assert s.tokens[h].binding.user in s.users;
      assert Grants(s, acts[0], user);
      assert NeverLogsIn(acts, user) && Granted(s, acts, user) > 0;
    }
  }

  /** A login, its refresh, and a password reset by user `u`. */
  function ResetAfterRefresh(u: nat): seq<Act> {
    [Enter(u), Login(10, Binding(u, 1, None), 100), Refresh(10, 11, 100), Reset(u)]
  }

  lemma DoFour(s: State, a: Act, b: Act, c: Act, d: Act)
    ensures DoAll(s, [a, b, c, d]) == Do(Do(Do(Do(s, a), b), c), d)
  {
    hide Do;
    assert [a, b, c, d][1..] == [b, c, d] && [b, c, d][1..] == [c, d] && [c, d][1..] == [d] && [d][1..] == [];
    assert DoAll(Do(Do(Do(s, a), b), c), [d]) == Do(Do(Do(Do(s, a), b), c), d);
    assert DoAll(Do(Do(s, a), b), [c, d]) == Do(Do(Do(Do(s, a), b), c), d);
    assert DoAll(Do(s, a), [b, c, d]) == Do(Do(Do(Do(s, a), b), c), d);
  }

  /**
   The input that outlives a wipe: the token rotated just before the reset is refreshed after it,
   and the session goes on.
   */
  lemma SessionOutlivesReset(u: nat)
    ensures var s := DoAll(START, ResetAfterRefresh(u));
      && TokensOk(s) && WipedAt(s, u, s.now) && Revivable(s, u)
      && Grants(s, Refresh(10, 12, 100), u)
      && Live(Do(s, Refresh(10, 12, 100)), 12) && Owns(Do(s, Refresh(10, 12, 100)), u, 12)
  {
    var acts := ResetAfterRefresh(u);
    DoFour(START, acts[0], acts[1], acts[2], acts[3]);
    DoAllKeepsTokensOk(START, acts);
    var s := DoAll(START, acts);
    assert s.tokens.Keys == {10, 11} && s.used == {10, 11};
    hide DoAll, TokensOk;
    assert s.tokens[10] == Token(Binding(u, 1, None), 100, Some(0), Some(11), 0, None);
    assert s.tokens[11].revokedAt == Some(0);
    assert Owns(s, u, 10) && InGrace(s, 10);
  }

  // ── After a logout ────────────────────────────────────────

  /** Revoked for good: not by a rotation less than 60 s ago. */
  predicate Spent(s: State, h: nat) {
    h in s.used && (h in s.tokens ==> s.tokens[h].revokedAt.Some? && !InGrace(s, h))
  }

  lemma SpentStays(s: State, act: Act, h: nat)
    requires Spent(s, h)
    ensures Spent(Do(s, act), h)
  {
  }

  lemma {:induction false} SpentNeverYields(s: State, acts: seq<Act>, h: nat, minted: nat)
    requires Spent(s, h)
    ensures var t := DoAll(s, acts);
      !Yields(t, h, minted) && (h in t.tokens ==> Reused(t, h, t.tokens[h].binding.user))
    decreases |acts|
  {
    if acts != [] {
      SpentStays(s, acts[0], h);
      SpentNeverYields(Do(s, acts[0]), acts[1..], h, minted);
    }
  }

  /**
   What a logout guarantees, exactly: the token is never refreshed again, in any continuation,
   if and only if it was not rotated less than 60 s before. Every other row stays as it is,
   and so the successor of a token that was rotated stays live.
   */
  lemma LogoutIsFinalUnlessInGrace(s: State, h: nat)
    requires TokensOk(s) && h in s.tokens
    ensures (forall acts, m :: !Yields(DoAll(Do(s, Act.Logout(h)), acts), h, m)) <==> !InGrace(s, h)
    ensures forall g | g in s.tokens && (g != h || s.tokens[h].revokedAt.Some?) ::
      Do(s, Act.Logout(h)).tokens[g] == s.tokens[g] && (Live(Do(s, Act.Logout(h)), g) <==> Live(s, g))
    ensures !Live(Do(s, Act.Logout(h)), h)
    ensures s.tokens[h].revokedAt == None ==>
      Do(s, Act.Logout(h)).tokens[h] == s.tokens[h].(revokedAt := Some(s.now))
  {
    var t := Do(s, Act.Logout(h));
    if InGrace(s, h) {
      var m := SomeUnused(s.used);
      assert s.tokens[h].binding.user in s.users;
      assert t == s && Yields(DoAll(t, []), h, m);
    } else {
      assert Spent(t, h);
      forall acts, m ensures !Yields(DoAll(t, acts), h, m) {
        SpentNeverYields(t, acts, h, m);
      }
    }
  }

  /** The input that breaks it: a token rotated by a refresh, logged out, and refreshed again. */
  lemma RotatedTokenOutlivesLogout(u: nat)
    ensures var s := DoAll(START, ResetAfterRefresh(u)[..3] + [Act.Logout(10)]);
      && TokensOk(s) && Live(s, 11) && Yields(s, 10, 12)
  {
    var acts := ResetAfterRefresh(u)[..3] + [Act.Logout(10)];
    DoFour(START, acts[0], acts[1], acts[2], acts[3]);
    DoAllKeepsTokensOk(START, acts);
    var s := DoAll(START, acts);
    assert acts == [acts[0], acts[1], acts[2], acts[3]];
    hide DoAll, TokensOk;
    assert s.tokens[10] == Token(Binding(u, 1, None), 100, Some(0), Some(11), 0, None);
    assert s.used == {10, 11};
  }

  // ── The table, updated in place ───────────────────────────

  class TokenTable {
    var now: nat
    var users: set<nat>
    var tokens: map<nat, Token>
    var used: set<nat>
    var count: nat

    function Snapshot(): State
      reads this
    {
      State(now, users, {}, tokens, used, count, map[])
    }

    ghost predicate Valid()
      reads this
    {
      TokensOk(Snapshot())
    }

    constructor (users: set<nat>)
      ensures Valid() && Snapshot() == State(0, users, {}, map[], {}, 0, map[])
    {
      now, this.users, tokens, used, count := 0, users, map[], {}, 0;
    }

    method GetRefreshToken(hash: nat) returns (row: Option<Token>)
      ensures row == if hash in tokens then Some(tokens[hash]) else None
    {
      return if hash in tokens then Some(tokens[hash]) else None;
    }

    method CreateRefreshToken(hash: nat, binding: Binding, lifetime: nat, parent: Option<nat>) returns (err: bool)
      modifies this
      ensures Snapshot() == Insert(old(Snapshot()), hash, binding, lifetime, parent)
      ensures err == !CanInsert(old(Snapshot()), hash, binding)
    {
      if hash in used || binding.user !in users {
        return true;
      }
      tokens := tokens[hash := Token(binding, now + lifetime, None, None, count, parent)];
      used := used + {hash};
      count := count + 1;
      return false;
    }

    method RevokeRefreshToken(hash: nat)
      modifies `tokens
      ensures Snapshot() == RevokeOne(old(Snapshot()), hash)
    {
      if hash in tokens && tokens[hash].revokedAt.None? {
        tokens := tokens[hash := tokens[hash].(revokedAt := Some(now))];
      }
    }

    method RotateRefreshToken(hash: nat, successor: nat)
      modifies `tokens
      ensures Snapshot() == Rotate(old(Snapshot()), hash, successor)
    {
      if hash in tokens && tokens[hash].revokedAt.None? {
        tokens := tokens[hash := tokens[hash].(revokedAt := Some(now), replacedBy := Some(successor))];
      }
    }

    method RevokeAllUserRefreshTokens(user: nat)
      modifies `tokens
      ensures Snapshot() == RevokeAll(old(Snapshot()), user)
    {
      tokens := map h | h in tokens ::
        if Hit(tokens[h], user) then tokens[h].(revokedAt := Some(now)) else tokens[h];
    }

    /** `Refresh`: re-issue within the grace period, wipe on reuse, otherwise issue and rotate. */
    method Refresh(presented: nat, minted: nat, lifetime: nat) returns (pair: bool)
      requires Valid()
      modifies this
      ensures Valid() && Snapshot() == Refreshed(old(Snapshot()), presented, minted, lifetime)
      ensures pair == Yields(old(Snapshot()), presented, minted)
    {
      ghost var before := Snapshot();
      RefreshKeepsTokensOk(before, presented, minted, lifetime);
      hide TokensOk;
      var row := GetRefreshToken(presented);
      if row.None? {
        return false;
      }
      var token := row.value;
      if token.revokedAt.Some? {
        if token.replacedBy.Some? && now - token.revokedAt.value < GRACE {
          var err := CreateRefreshToken(minted, token.binding, lifetime, Some(presented));
          return !err;
        }
        RevokeAllUserRefreshTokens(token.binding.user);
        return false;
      }
      if token.expires < now {
        return false;
      }
      var err := CreateRefreshToken(minted, token.binding, lifetime, Some(presented));
      if err {
        return false;
      }
      RotateRefreshToken(presented, minted);
      return true;
    }
  }
}
