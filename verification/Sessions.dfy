/**
 Refresh tokens, statement by statement. A refresh reads the presented token, inserts a new
 one and marks the old one rotated in three statements without a transaction, so anything
 may happen in between. Tokens are known by their hash; hashing is injective and generated
 tokens never repeat, so a hash stands for one token.
 */
module Sessions {
  import opened Seqs

  const GRACE := 60

  datatype Binding = Binding(user: nat, tenant: nat, project: Option<nat>)

  /**
   A row of `refresh_tokens`. `born` is its place in insertion order and `parent` the token
   whose refresh issued it; both record history and are not columns.
   */
  datatype Token = Token(binding: Binding, expires: nat, revokedAt: Option<nat>, replacedBy: Option<nat>,
                         born: nat, parent: Option<nat>)

  /** What a refresh in progress does next, with what it read. */
  datatype Pc =
    | Idle
    | Inserting(presented: nat, binding: Binding, rotate: bool)
    | Rotating(presented: nat, successor: nat)
    | Wiping(user: nat)

  /** `gone` are deleted users, `used` every token hash ever handed out, `count` how many. */
  datatype State = State(now: nat, users: set<nat>, gone: set<nat>, tokens: map<nat, Token>,
                         used: set<nat>, count: nat, pcs: map<nat, Pc>)

  const START := State(0, {}, {}, map[], {}, 0, map[])

  // ── Statements ────────────────────────────────────────────

  predicate CanInsert(s: State, hash: nat, binding: Binding) {
    hash !in s.used && binding.user in s.users
  }

  /** The insert fails on a duplicate hash, or when the user row is gone. */
  function Insert(s: State, hash: nat, binding: Binding, lifetime: nat, parent: Option<nat>): State {
    if !CanInsert(s, hash, binding) then s
    else s.(tokens := s.tokens[hash := Token(binding, s.now + lifetime, None, None, s.count, parent)],
            used := s.used + {hash},
            count := s.count + 1)
  }

  function RevokeOne(s: State, hash: nat): State {
    if hash in s.tokens && s.tokens[hash].revokedAt.None? then
      s.(tokens := s.tokens[hash := s.tokens[hash].(revokedAt := Some(s.now))])
    else s
  }

  function Rotate(s: State, hash: nat, successor: nat): State {
    if hash in s.tokens && s.tokens[hash].revokedAt.None? then
      s.(tokens := s.tokens[hash := s.tokens[hash].(revokedAt := Some(s.now), replacedBy := Some(successor))])
    else s
  }

  predicate Hit(t: Token, user: nat) {
    t.binding.user == user && t.revokedAt.None?
  }

  /** Revokes the user's live tokens; one that is already revoked keeps its row as it is. */
  function RevokeAll(s: State, user: nat): State {
    s.(tokens := map h | h in s.tokens ::
      if Hit(s.tokens[h], user) then s.tokens[h].(revokedAt := Some(s.now)) else s.tokens[h])
  }

  /** What the first statement of a refresh decides. */
  function Decide(s: State, hash: nat): Pc {
    if hash !in s.tokens then Idle
    else
      var row := s.tokens[hash];
      if row.revokedAt.Some? then
        if row.replacedBy.Some? && s.now - row.revokedAt.value < GRACE then Inserting(hash, row.binding, false)
        else Wiping(row.binding.user)
      else if row.expires < s.now then Idle
      else Inserting(hash, row.binding, true)
  }

  // ── Interleaved steps ─────────────────────────────────────

  datatype Step =
    | Advance(duration: nat)
    | AddUser(user: nat)
    | DropUser(user: nat)
    | Issue(hash: nat, binding: Binding, lifetime: nat)
    | Read(proc: nat, presented: nat)
    | Next(proc: nat, minted: nat, ttl: nat)
    | Crash(proc: nat)
    | Logout(hash: nat)
    | Wipe(user: nat)

  function At(s: State, proc: nat): Pc {
    if proc in s.pcs then s.pcs[proc] else Idle
  }

  /** Login, tenant switch and code exchange are `Issue`; `DropUser` is a hard delete with its cascade. */
  function Apply(s: State, step: Step): State {
    match step
    case Advance(duration) => s.(now := s.now + duration)
    case AddUser(user) => if user in s.gone then s else s.(users := s.users + {user})
    case DropUser(user) =>
      s.(users := s.users - {user}, gone := s.gone + {user},
         tokens := map h | h in s.tokens && s.tokens[h].binding.user != user :: s.tokens[h])
    case Issue(hash, binding, lifetime) => Insert(s, hash, binding, lifetime, None)
    case Read(proc, presented) =>
      if At(s, proc) != Idle then s else s.(pcs := s.pcs[proc := Decide(s, presented)])
    case Next(proc, minted, ttl) =>
      (match At(s, proc)
       case Idle => s
       case Inserting(presented, binding, rotate) =>
         Insert(s, minted, binding, ttl, Some(presented)).(
           pcs := s.pcs[proc := if CanInsert(s, minted, binding) && rotate then Rotating(presented, minted) else Idle])
       case Rotating(presented, successor) => Rotate(s, presented, successor).(pcs := s.pcs[proc := Idle])
       case Wiping(user) => RevokeAll(s, user).(pcs := s.pcs[proc := Idle]))
    case Crash(proc) => s.(pcs := s.pcs[proc := Idle])
    case Logout(hash) => RevokeOne(s, hash)
    case Wipe(user) => RevokeAll(s, user)
  }

  function Exec(s: State, steps: seq<Step>): State
    decreases |steps|
  {
    if steps == [] then s else Exec(Apply(s, steps[0]), steps[1..])
  }

  // ── The invariant of every interleaving ───────────────────

  /** `next` was inserted after `first`, by refreshing it, with the same binding. */
  predicate Follows(s: State, first: nat, next: nat) {
    && first in s.tokens && next in s.tokens
    && s.tokens[first].born < s.tokens[next].born
    && s.tokens[next].binding == s.tokens[first].binding
    && s.tokens[next].parent == Some(first)
  }

  ghost predicate TokensOk(s: State) {
    && (forall h | h in s.tokens ::
          && h in s.used && s.tokens[h].born < s.count && s.tokens[h].binding.user in s.users
          && (s.tokens[h].revokedAt.Some? ==> s.tokens[h].revokedAt.value <= s.now)
          && (s.tokens[h].replacedBy.Some? ==>
                s.tokens[h].revokedAt.Some? && Follows(s, h, s.tokens[h].replacedBy.value))
          && (s.tokens[h].parent.Some? ==> Follows(s, s.tokens[h].parent.value, h)))
    && s.users !! s.gone
  }

  /** What a process remembers is still true, or its user is gone with all their tokens. */
  predicate PcOk(s: State, pc: Pc) {
    match pc
    case Inserting(presented, binding, _) =>
      binding.user in s.gone || (presented in s.tokens && s.tokens[presented].binding == binding)
    case Rotating(presented, successor) =>
      presented in s.used && (presented in s.tokens ==> Follows(s, presented, successor))
    case _ => true
  }

  ghost predicate Inv(s: State) {
    TokensOk(s) && forall proc | proc in s.pcs :: PcOk(s, s.pcs[proc])
  }

  /** No token of a remaining user is lost or changes what it is bound to or where it came from. */
  predicate Keeps(s: State, t: State) {
    && s.gone <= t.gone
    && (forall h | h in s.tokens ::
          (h !in t.tokens && s.tokens[h].binding.user in t.gone)
          || (h in t.tokens && t.tokens[h].binding == s.tokens[h].binding
              && t.tokens[h].born == s.tokens[h].born && t.tokens[h].parent == s.tokens[h].parent))
    && (forall h | h in t.tokens && h !in s.tokens :: h !in s.used)
  }

  lemma PcsStay(s: State, t: State)
    requires Inv(s) && TokensOk(t) && Keeps(s, t) && s.used <= t.used
    ensures forall proc | proc in s.pcs :: PcOk(t, s.pcs[proc])
  {
  }

  lemma InsertOk(s: State, hash: nat, binding: Binding, lifetime: nat, parent: Option<nat>)
    requires TokensOk(s)
    requires CanInsert(s, hash, binding) && parent.Some? ==>
      parent.value in s.tokens && s.tokens[parent.value].binding == binding
    ensures TokensOk(Insert(s, hash, binding, lifetime, parent)) && Keeps(s, Insert(s, hash, binding, lifetime, parent))
  {
  }

  lemma RevokeOneOk(s: State, hash: nat)
    requires TokensOk(s)
    ensures TokensOk(RevokeOne(s, hash)) && Keeps(s, RevokeOne(s, hash))
  {
  }

  lemma RotateOk(s: State, hash: nat, successor: nat)
    requires TokensOk(s) && (hash in s.tokens ==> Follows(s, hash, successor))
    ensures TokensOk(Rotate(s, hash, successor)) && Keeps(s, Rotate(s, hash, successor))
  {
  }

  lemma RevokeAllOk(s: State, user: nat)
    requires TokensOk(s)
    ensures TokensOk(RevokeAll(s, user)) && Keeps(s, RevokeAll(s, user))
  {
  }

  lemma DropUserOk(s: State, user: nat)
    requires TokensOk(s)
    ensures TokensOk(Apply(s, DropUser(user))) && Keeps(s, Apply(s, DropUser(user)))
  {
  }

  lemma PcSet(s: State, proc: nat, pc: Pc)
    requires Inv(s) && PcOk(s, pc)
    ensures Inv(s.(pcs := s.pcs[proc := pc]))
  {
  }

  lemma NextKeepsInv(s: State, proc: nat, minted: nat, ttl: nat)
    requires Inv(s)
    ensures Inv(Apply(s, Next(proc, minted, ttl)))
  {
    hide TokensOk, Keeps;
    match At(s, proc)
    case Idle =>
    case Inserting(presented, binding, rotate) =>
      InsertingOk(s, proc, minted, ttl);
    case Rotating(presented, successor) =>
      RotateOk(s, presented, successor);
      PcsStay(s, Rotate(s, presented, successor));
      PcSet(Rotate(s, presented, successor), proc, Idle);
    case Wiping(user) =>
      RevokeAllOk(s, user);
      PcsStay(s, RevokeAll(s, user));
      PcSet(RevokeAll(s, user), proc, Idle);
  }

  lemma InsertingOk(s: State, proc: nat, minted: nat, ttl: nat)
    requires Inv(s) && At(s, proc).Inserting?
    ensures Inv(Apply(s, Next(proc, minted, ttl)))
  {
    var Inserting(presented, binding, rotate) := At(s, proc);
    var t := Insert(s, minted, binding, ttl, Some(presented));
    assert PcOk(s, At(s, proc));
    assert CanInsert(s, minted, binding) ==> presented in s.tokens && s.tokens[presented].binding == binding;
    InsertOk(s, minted, binding, ttl, Some(presented));
    PcsStay(s, t);
    var pc := if CanInsert(s, minted, binding) && rotate then Rotating(presented, minted) else Idle;
    assert PcOk(t, pc);
    PcSet(t, proc, pc);
  }

  lemma StepKeepsInv(s: State, step: Step)
    requires Inv(s)
    ensures Inv(Apply(s, step))
  {
    match step
    case Advance(_) => PcsStay(s, Apply(s, step));
    case AddUser(_) => PcsStay(s, Apply(s, step));
    case DropUser(user) =>
      DropUserOk(s, user);
      PcsStay(s, Apply(s, step));
    case Issue(hash, binding, lifetime) =>
      InsertOk(s, hash, binding, lifetime, None);
      PcsStay(s, Apply(s, step));
    case Read(_, _) =>
    case Next(proc, minted, ttl) => NextKeepsInv(s, proc, minted, ttl);
    case Crash(_) =>
    case Logout(hash) =>
      RevokeOneOk(s, hash);
      PcsStay(s, Apply(s, step));
    case Wipe(user) =>
      RevokeAllOk(s, user);
      PcsStay(s, Apply(s, step));
  }

  lemma {:induction false} RunKeepsInv(s: State, steps: seq<Step>)
    requires Inv(s)
    ensures Inv(Exec(s, steps))
    decreases |steps|
  {
    if steps != [] {
      StepKeepsInv(s, steps[0]);
      RunKeepsInv(Apply(s, steps[0]), steps[1..]);
    }
  }

  // ── What every interleaving keeps ─────────────────────────

  /**
   A revoked row is final: in every continuation it stays as it is or disappears with its
   user, so `revoked_at` and `replaced_by` are written at most once per token.
   */
  lemma {:induction false} RevokedRowsAreFinal(s: State, steps: seq<Step>, h: nat)
    requires Inv(s) && h in s.tokens && s.tokens[h].revokedAt.Some?
    ensures var t := Exec(s, steps); h in t.tokens ==> t.tokens[h] == s.tokens[h]
    decreases |steps|
  {
    if steps != [] {
      var t := Apply(s, steps[0]);
      StepKeepsInv(s, steps[0]);
      OneStepFinal(s, steps[0], h);
      if h in t.tokens {
        RevokedRowsAreFinal(t, steps[1..], h);
      } else {
        DroppedForever(t, steps[1..], h);
      }
    }
  }

  lemma OneStepFinal(s: State, step: Step, h: nat)
    requires Inv(s) && h in s.tokens
    ensures var t := Apply(s, step);
      && h in t.used
      && (h in t.tokens && s.tokens[h].revokedAt.Some? ==> t.tokens[h] == s.tokens[h])
  {
  }

  lemma {:induction false} DroppedForever(s: State, steps: seq<Step>, h: nat)
    requires h in s.used && h !in s.tokens
    ensures h !in Exec(s, steps).tokens
    decreases |steps|
  {
    if steps != [] {
      DroppedForever(Apply(s, steps[0]), steps[1..], h);
    }
  }

  /** `hs` follows `replaced_by` from token to token. */
  predicate Chain(s: State, hs: seq<nat>) {
    && (forall i | 0 <= i < |hs| :: hs[i] in s.tokens)
    && (forall i | 0 <= i < |hs| - 1 :: s.tokens[hs[i]].replacedBy == Some(hs[i + 1]))
  }

  lemma {:induction false} ChainAges(s: State, hs: seq<nat>)
    requires TokensOk(s) && Chain(s, hs) && |hs| > 1
    ensures s.tokens[hs[0]].born < s.tokens[hs[|hs| - 1]].born
    ensures s.tokens[hs[0]].binding == s.tokens[hs[|hs| - 1]].binding
  {
    var rest := hs[1..];
    assert Chain(s, rest) by {
      assert forall i | 0 <= i < |rest| :: rest[i] == hs[i + 1];
    }
    assert s.tokens[hs[0]].replacedBy == Some(hs[1]);
    if |rest| > 1 {
      ChainAges(s, rest);
    }
  }

  /** In every reachable state no chain of successors returns to where it started. */
  lemma SuccessorsNeverCycle(steps: seq<Step>, hs: seq<nat>)
    requires Chain(Exec(START, steps), hs) && |hs| > 1
    ensures hs[0] != hs[|hs| - 1]
  {
    RunKeepsInv(START, steps);
    ChainAges(Exec(START, steps), hs);
  }

  /** The token of the login a token descends from. */
  ghost function Origin(s: State, h: nat): (o: nat)
    requires TokensOk(s) && h in s.tokens
    ensures o in s.tokens && s.tokens[o].parent.None? && s.tokens[o].binding == s.tokens[h].binding
    decreases s.tokens[h].born
  {
    if s.tokens[h].parent.None? then h else Origin(s, s.tokens[h].parent.value)
  }

  function After(steps: seq<Step>, n: nat): State
    requires n <= |steps|
  {
    Exec(START, steps[..n])
  }

  lemma AfterNext(steps: seq<Step>, n: nat)
    requires n < |steps|
    ensures After(steps, n + 1) == Apply(After(steps, n), steps[n])
  {
    assert steps[..n + 1] == steps[..n] + [steps[n]];
    ExecConcat(START, steps[..n], [steps[n]]);
    ExecNone(Apply(After(steps, n), steps[n]));
  }

  /** Step `i` is the login that was asked for this token, and got what the row says. */
  predicate LoggedInAt(steps: seq<Step>, i: nat, h: nat, row: Token)
    requires i < |steps|
  {
    && steps[i].Issue? && steps[i].hash == h && steps[i].binding == row.binding
    && row.expires == After(steps, i).now + steps[i].lifetime
    && row.binding.user in After(steps, i).users
  }

  /** What a token is bound to, when it expires and where it came from are written with its row. */
  lemma TokenFrom(s: State, step: Step, h: nat)
    requires h in Apply(s, step).tokens
    ensures var row := Apply(s, step).tokens[h];
      || (h in s.tokens
          && s.tokens[h] == row.(revokedAt := s.tokens[h].revokedAt, replacedBy := s.tokens[h].replacedBy))
      || (step.Issue? && step == Issue(h, row.binding, step.lifetime) && row.expires == s.now + step.lifetime
          && row.binding.user in s.users && row.revokedAt == None && row.replacedBy == None && row.parent == None)
      || (step.Next? && step == Next(step.proc, h, step.ttl) && row.expires == s.now + step.ttl
          && At(s, step.proc).Inserting? && row.binding == At(s, step.proc).binding
          && row.revokedAt == None && row.replacedBy == None && row.parent == Some(At(s, step.proc).presented))
  {
  }

  /** In every run a token without a parent goes back to the login that asked for it. */
  lemma {:induction false} LoginWasAskedFor(steps: seq<Step>, n: nat, h: nat) returns (i: nat)
    requires n <= |steps| && h in After(steps, n).tokens && After(steps, n).tokens[h].parent.None?
    ensures i < n && LoggedInAt(steps, i, h, After(steps, n).tokens[h])
    decreases n
  {
    assert n > 0;
    AfterNext(steps, n - 1);
    var s, row := After(steps, n - 1), After(steps, n).tokens[h];
    TokenFrom(s, steps[n - 1], h);
    hide Apply, After;
    if h in s.tokens && s.tokens[h] == row.(revokedAt := s.tokens[h].revokedAt, replacedBy := s.tokens[h].replacedBy) {
      i := LoginWasAskedFor(steps, n - 1, h);
    } else {
      i := n - 1;
    }
  }

  /**
   In every reachable state every token descends from a login, and is bound to the user, tenant
   and project that this login asked for; a successor is recorded only on a revoked row and
   names a younger token.
   */
  lemma DescentKeepsBinding(steps: seq<Step>, h: nat) returns (i: nat)
    requires h in Exec(START, steps).tokens
    ensures var s := Exec(START, steps); var row := s.tokens[h];
      && Inv(s)
      && i < |steps| && LoggedInAt(steps, i, Origin(s, h), s.tokens[Origin(s, h)])
      && steps[i].binding == row.binding
      && (row.replacedBy.Some? ==> row.revokedAt.Some? && Follows(s, h, row.replacedBy.value))
  {
    RunKeepsInv(START, steps);
    assert steps[..|steps|] == steps;
    var s := Exec(START, steps);
    i := LoginWasAskedFor(steps, |steps|, Origin(s, h));
  }

  // ── Users apart ───────────────────────────────────────────

  /** Whose rows a step is about, if anyone's. */
  function Subject(s: State, step: Step): Option<nat> {
    match step
    case AddUser(user) => Some(user)
    case DropUser(user) => Some(user)
    case Issue(_, binding, _) => Some(binding.user)
    case Wipe(user) => Some(user)
    case Logout(hash) => if hash in s.tokens then Some(s.tokens[hash].binding.user) else None
    case Next(proc, _, _) =>
      (match At(s, proc)
       case Inserting(_, binding, _) => Some(binding.user)
       case Rotating(presented, _) => if presented in s.tokens then Some(s.tokens[presented].binding.user) else None
       case Wiping(user) => Some(user)
       case Idle => None)
    case _ => None
  }

  predicate NeverAbout(s: State, steps: seq<Step>, user: nat)
    decreases |steps|
  {
    steps != [] ==> Subject(s, steps[0]) != Some(user) && NeverAbout(Apply(s, steps[0]), steps[1..], user)
  }

  function TokensOf(s: State, user: nat): map<nat, Token> {
    map h | h in s.tokens && s.tokens[h].binding.user == user :: s.tokens[h]
  }

  /** However users' sessions interleave, steps about the others leave a user's rows as they are. */
  lemma {:induction false} UsersApart(s: State, steps: seq<Step>, user: nat)
    requires Inv(s) && NeverAbout(s, steps, user)
    ensures TokensOf(Exec(s, steps), user) == TokensOf(s, user)
    ensures user in Exec(s, steps).users <==> user in s.users
    decreases |steps|
  {
    if steps != [] {
      StepKeepsInv(s, steps[0]);
      OtherUserStays(s, steps[0], user);
      UsersApart(Apply(s, steps[0]), steps[1..], user);
    }
  }

  lemma OtherUserStays(s: State, step: Step, user: nat)
    requires Inv(s) && Subject(s, step) != Some(user)
    ensures TokensOf(Apply(s, step), user) == TokensOf(s, user)
    ensures user in Apply(s, step).users <==> user in s.users
  {
    var t := Apply(s, step);
    forall h ensures h in TokensOf(t, user) <==> h in TokensOf(s, user)
      ensures h in TokensOf(s, user) ==> t.tokens[h] == s.tokens[h]
    {
    }
  }

  /** Time, users and refreshes in progress: which steps change them, and how. */
  lemma OnlyItsState(s: State, step: Step, proc: nat)
    ensures var t := Apply(s, step);
      && t.now == (if step.Advance? then s.now + step.duration else s.now)
      && t.users == (if step.AddUser? && step.user !in s.gone then s.users + {step.user}
                     else if step.DropUser? then s.users - {step.user} else s.users)
      && t.gone == (if step.DropUser? then s.gone + {step.user} else s.gone)
      && (step.DropUser? ==> TokensOf(t, step.user) == map[])
      && (step == Crash(proc) ==> At(t, proc) == Idle && t.tokens == s.tokens)
      && (At(t, proc) != At(s, proc) ==> (step.Read? || step.Next? || step.Crash?) && step.proc == proc)
  {
  }

  /** A login succeeds exactly for a user who exists and a token never handed out. */
  lemma LoginOutcome(s: State, hash: nat, binding: Binding, lifetime: nat)
    requires TokensOk(s)
    ensures var t := Apply(s, Issue(hash, binding, lifetime));
      && (hash in t.tokens && hash !in s.tokens <==> hash !in s.used && binding.user in s.users)
      && (hash !in s.used && binding.user in s.users ==>
            t.tokens == s.tokens[hash := t.tokens[hash]] && t.tokens[hash].revokedAt == None
            && t.tokens[hash].binding == binding && t.tokens[hash].expires == s.now + lifetime)
      && (hash in s.used || binding.user !in s.users ==> t == s)
  {
  }

  /** A refresh that dies after its insert leaves the presented token live beside the new one, for good. */
  lemma CrashLeavesBoth(s: State, proc: nat, minted: nat, ttl: nat)
    requires At(s, proc).Rotating?
    ensures Exec(s, [Crash(proc), Next(proc, minted, ttl)]).tokens == s.tokens
  {
    var steps := [Crash(proc), Next(proc, minted, ttl)];
    ExecTwo(s, steps);
    ExecNone(Apply(s, steps[0]));
    assert steps[2..] == [];
  }

  const LOGIN := Binding(1, 1, None)

  /** One token, which two refreshes have read and neither has rotated. */
  const BOTH_READ := State(0, {1}, {}, map[10 := Token(LOGIN, 100, None, None, 0, None)], {10}, 1,
                           map[1 := Inserting(10, LOGIN, true), 2 := Inserting(10, LOGIN, true)])

  lemma BothRead()
    ensures Exec(START, [AddUser(1), Issue(10, LOGIN, 100), Read(1, 10), Read(2, 10)]) == BOTH_READ
  {
    var steps := [AddUser(1), Issue(10, LOGIN, 100), Read(1, 10), Read(2, 10)];
    ExecTwo(START, steps);
    ExecTwo(Apply(Apply(START, steps[0]), steps[1]), steps[2..]);
    assert START.tokens[10 := Token(LOGIN, 100, None, None, 0, None)] == BOTH_READ.tokens;
    assert START.pcs[1 := Inserting(10, LOGIN, true)][2 := Inserting(10, LOGIN, true)] == BOTH_READ.pcs;
  }

  /** Two refreshes that read the same live token before either rotates it both obtain a live successor. */
  lemma RefreshesCanFork()
    ensures exists steps ::
      var s := Exec(START, steps);
      && 10 in s.tokens && s.tokens[10].replacedBy == Some(11)
      && 11 in s.tokens && s.tokens[11].parent == Some(10) && s.tokens[11].revokedAt.None?
      && 12 in s.tokens && s.tokens[12].parent == Some(10) && s.tokens[12].revokedAt.None?
  {
    BothRead();
    var early := [AddUser(1), Issue(10, LOGIN, 100), Read(1, 10), Read(2, 10)];
    var late := [Next(1, 11, 100), Next(2, 12, 100), Next(1, 0, 0), Next(2, 0, 0)];
    ExecConcat(START, early, late);
    ExecTwo(BOTH_READ, late);
    var inserted := Apply(Apply(BOTH_READ, late[0]), late[1]);
    ExecTwo(inserted, late[2..]);
    hide Exec;
    var s := Apply(Apply(inserted, late[2]), late[3]);
    assert At(inserted, 1) == Rotating(10, 11) && At(inserted, 2) == Rotating(10, 12);
    assert s.tokens[10].replacedBy == Some(11);
    assert Exec(START, early + late) == s by {
      assert late[2..][2..] == [];
      ExecNone(s);
    }
  }

  lemma ExecNone(s: State)
    ensures Exec(s, []) == s
  {
  }

  lemma {:induction false} ExecConcat(s: State, a: seq<Step>, b: seq<Step>)
    ensures Exec(s, a + b) == Exec(Exec(s, a), b)
    decreases |a|
  {
    if a == [] {
      assert a + b == b;
    } else {
      assert (a + b)[1..] == a[1..] + b;
      ExecConcat(Apply(s, a[0]), a[1..], b);
    }
  }

  lemma ExecTwo(s: State, steps: seq<Step>)
    requires |steps| >= 2
    ensures Exec(s, steps) == Exec(Apply(Apply(s, steps[0]), steps[1]), steps[2..])
  {
    assert steps[1..][1..] == steps[2..];
  }
}
