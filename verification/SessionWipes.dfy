/**
 What a wipe of a user's sessions guarantees, statement by statement: a refresh that read its
 token before the wipe may insert a new one after it.
 */
module SessionWipes {
  import opened Seqs
  import opened Sessions
  import opened SessionHandlers

  /** Some refresh has read a token of the user and has its successor still to insert. */
  ghost predicate UnderWay(s: State, user: nat) {
    user in s.users
    && exists proc :: proc in s.pcs && s.pcs[proc].Inserting? && s.pcs[proc].binding.user == user
  }

  predicate Issues(step: Step, user: nat) {
    step.Issue? && step.binding.user == user
  }

  /** No step logs the user in or reads one of the given tokens. */
  predicate Without(steps: seq<Step>, user: nat, unread: set<nat>) {
    forall step | step in steps :: !Issues(step, user) && !(step.Read? && step.presented in unread)
  }

  ghost predicate LoggedIn(s: State, user: nat) {
    exists h :: Owns(s, user, h) && Live(s, h)
  }

  /** Nothing of the user is live, nothing but the given tokens can be revived, and no refresh is under way. */
  ghost predicate Closed(s: State, user: nat, unread: set<nat>) {
    && (forall h | Owns(s, user, h) :: s.tokens[h].revokedAt.Some? && (InGrace(s, h) ==> h in unread))
    && !UnderWay(s, user)
  }

  lemma TableStaysClosed(s: State, step: Step, user: nat, unread: set<nat>)
    requires Inv(s) && Closed(s, user, unread) && !Issues(step, user)
    ensures var t := Apply(s, step);
      forall h | Owns(t, user, h) :: t.tokens[h].revokedAt.Some? && (InGrace(t, h) ==> h in unread)
  {
    var t := Apply(s, step);
    forall h | Owns(t, user, h) ensures t.tokens[h].revokedAt.Some? && (InGrace(t, h) ==> h in unread) {
      if step.Next? && At(s, step.proc).Inserting? {
        var binding := At(s, step.proc).binding;
        assert PcOk(s, At(s, step.proc));
        assert binding.user == user ==> user !in s.users;
      }
      assert Owns(s, user, h);
    }
  }

  lemma NoneGetsUnderWay(s: State, step: Step, user: nat, unread: set<nat>)
    requires Inv(s) && Closed(s, user, unread) && Without([step], user, unread)
    ensures !UnderWay(Apply(s, step), user)
  {
    var t := Apply(s, step);
    assert step in [step];
    assert forall proc | proc in s.pcs :: PcOk(s, s.pcs[proc]);
    assert step.Read? && Owns(s, user, step.presented) ==> !Decide(s, step.presented).Inserting?;
  }

  lemma {:induction false} StaysClosed(s: State, steps: seq<Step>, user: nat, unread: set<nat>)
    requires Inv(s) && Closed(s, user, unread) && Without(steps, user, unread)
    ensures !LoggedIn(Exec(s, steps), user)
    decreases |steps|
  {
    if steps != [] {
      assert steps[0] in steps;
      StepKeepsInv(s, steps[0]);
      TableStaysClosed(s, steps[0], user, unread);
      NoneGetsUnderWay(s, steps[0], user, unread);
      hide Inv, Apply, Owns, InGrace, UnderWay, LoggedIn;
      StaysClosed(Apply(s, steps[0]), steps[1..], user, unread);
    }
  }

  /** A refresh under way logs the user in with its next statement. */
  lemma InsertLogsIn(s: State, proc: nat, user: nat, minted: nat)
    requires proc in s.pcs && s.pcs[proc].Inserting? && s.pcs[proc].binding.user == user
    requires user in s.users && minted !in s.used
    ensures LoggedIn(Exec(s, [Next(proc, minted, 1)]), user)
  {
    var t := Apply(s, Next(proc, minted, 1));
    assert Exec(s, [Next(proc, minted, 1)]) == t;
    assert Owns(t, user, minted) && Live(t, minted);
  }

  /** A token in its grace period logs the user in with the two statements of a refresh. */
  lemma RereadLogsIn(s: State, proc: nat, user: nat, h: nat, minted: nat)
    requires TokensOk(s) && Owns(s, user, h) && InGrace(s, h) && proc !in s.pcs && minted !in s.used
    ensures LoggedIn(Exec(s, [Read(proc, h), Next(proc, minted, 1)]), user)
  {
    var t := Apply(s, Read(proc, h));
    assert [Read(proc, h), Next(proc, minted, 1)][1..] == [Next(proc, minted, 1)];
    assert t.pcs[proc] == Inserting(h, s.tokens[h].binding, false);
    assert s.tokens[h].binding.user in s.users;
    InsertLogsIn(t, proc, user, minted);
    hide TokensOk, LoggedIn;
  }

  lemma WipeCloses(s: State, user: nat)
    requires Inv(s)
    ensures var t := Apply(s, Wipe(user));
      && Inv(t) && t.pcs == s.pcs && t.used == s.used && t.tokens.Keys == s.tokens.Keys
      && (UnderWay(t, user) <==> UnderWay(s, user))
      && (forall h :: Owns(t, user, h) <==> Owns(s, user, h))
      && (forall h | Owns(t, user, h) :: t.tokens[h].revokedAt.Some? && (InGrace(t, h) <==> InGrace(s, h)))
  {
    StepKeepsInv(s, Wipe(user));
  }

  /**
   What a wipe guarantees, exactly. That no continuation without a login ever logs the user in
   again takes that no refresh of theirs is past its read, and that no row of theirs was
   rotated less than 60 s before.
   */
  lemma WipeIsFinal(s: State, user: nat)
    requires Inv(s)
    ensures (forall steps | Without(steps, user, {}) :: !LoggedIn(Exec(Apply(s, Wipe(user)), steps), user))
      <==> !UnderWay(s, user) && !Revivable(s, user)
  {
    var t := Apply(s, Wipe(user));
    WipeCloses(s, user);
    var minted := SomeUnused(t.used);
    var idle := SomeUnused(t.pcs.Keys);
    assert TokensOk(t);
    hide Inv, Apply, Exec, LoggedIn;
    if UnderWay(s, user) {
      var proc :| proc in t.pcs && t.pcs[proc].Inserting? && t.pcs[proc].binding.user == user;
      InsertLogsIn(t, proc, user, minted);
      assert Without([Next(proc, minted, 1)], user, {});
    } else if Revivable(s, user) {
      var h :| Owns(s, user, h) && InGrace(s, h);
      RereadLogsIn(t, idle, user, h, minted);
      assert Without([Read(idle, h), Next(idle, minted, 1)], user, {});
    } else {
      forall steps | Without(steps, user, {}) ensures !LoggedIn(Exec(t, steps), user) {
        StaysClosed(t, steps, user, {});
      }
    }
  }

  /**
   If moreover none of the user's tokens is presented again, only a refresh that read one
   before the wipe can log them in after it.
   */
  lemma WipeIsFinalUnread(s: State, user: nat)
    requires Inv(s)
    ensures var unread := set h | h in s.tokens && Owns(s, user, h);
      (forall steps | Without(steps, user, unread) :: !LoggedIn(Exec(Apply(s, Wipe(user)), steps), user))
      <==> !UnderWay(s, user)
  {
    var unread := set h | h in s.tokens && Owns(s, user, h);
    var t := Apply(s, Wipe(user));
    WipeCloses(s, user);
    var minted := SomeUnused(t.used);
    hide Inv, Apply, Exec, LoggedIn;
    if UnderWay(s, user) {
      var proc :| proc in t.pcs && t.pcs[proc].Inserting? && t.pcs[proc].binding.user == user;
      InsertLogsIn(t, proc, user, minted);
      assert Without([Next(proc, minted, 1)], user, unread);
    } else {
      forall steps | Without(steps, user, unread) ensures !LoggedIn(Exec(t, steps), user) {
        StaysClosed(t, steps, user, unread);
      }
    }
  }

  /** A refresh reads its token, the sessions are wiped, and the refresh goes on. */
  function ReadBeforeWipe(u: nat): seq<Step> {
    [AddUser(u), Issue(10, Binding(u, 1, None), 100), Read(1, 10), Wipe(u), Next(1, 11, 100), Next(1, 0, 0)]
  }

  /** The input that breaks it: the refresh read its token before the wipe, and its new token is live after it. */
  lemma ReadOutlivesWipe(u: nat)
    ensures var s := Exec(START, ReadBeforeWipe(u));
      && 10 in s.tokens && s.tokens[10].revokedAt.Some? && s.tokens[10].replacedBy.None?
      && Owns(s, u, 11) && Live(s, 11) && LoggedIn(s, u)
  {
    var steps, binding := ReadBeforeWipe(u), Binding(u, 1, None);
    ExecTwo(START, steps);
    var read := Apply(Apply(START, steps[0]), steps[1]);
    ExecTwo(read, steps[2..]);
    var wiped := Apply(Apply(read, steps[2]), steps[3]);
    ExecTwo(wiped, steps[2..][2..]);
    var s := Apply(Apply(wiped, steps[4]), steps[5]);
    assert steps[2..][2..][2..] == [];
    ExecNone(s);
    hide Exec;
    assert At(wiped, 1) == Inserting(10, binding, true);
    assert wiped.tokens[10].revokedAt == Some(0);
    var inserted := Apply(wiped, steps[4]);
    assert At(inserted, 1) == Rotating(10, 11) && Live(inserted, 11);
    assert s.tokens == inserted.tokens;
  }
}
