/**
 One user's credentials: the login lockout and the second factor. Both login steps share the
 failure counter. Handlers run as a whole, writes whose errors the service discards succeed,
 and whether a password or an authenticator code is right is given by the environment.
 */
module Account {
  import opened Seqs
  import TotpSecret

  const RECOVERY_CODES := 10
  const MFA_TTL := 300
  const LEEWAY := 60

  /** `max == 0` switches the lockout off. `validate` takes the code, the secret and the time. */
  datatype Env = Env(max: nat, lockout: nat, requireVerified: bool,
                     aead: TotpSecret.Aead, encryptor: TotpSecret.Encryptor,
                     validate: (string, string, nat) -> bool, hash: string -> nat)

  datatype Code = Code(hash: nat, used: bool)

  /** `challenges` are the MFA tokens signed for the user, by the time of signing; no others can be made. */
  datatype User = User(now: nat, failures: nat, lockedUntil: Option<nat>, verified: bool, deleted: bool,
                       secret: Option<string>, enabled: bool, codes: seq<Code>, challenges: set<nat>)

  const NEWCOMER := User(0, 0, None, false, false, None, false, [], {})

  datatype Reply =
    | Issued | MfaRequired | Success
    | AccountLocked | InvalidCredentials | EmailNotVerified | InvalidToken | InvalidCode
    | FailedPrecondition | Internal

  // ── The failure counter ───────────────────────────────────

  predicate Locked(u: User) {
    u.lockedUntil.Some? && u.lockedUntil.value > u.now
  }

  function Failed(env: Env, u: User): User {
    if env.max == 0 then u
    else if u.failures + 1 >= env.max then u.(failures := 0, lockedUntil := Some(u.now + env.lockout))
    else u.(failures := u.failures + 1)
  }

  function Reset(u: User): User {
    u.(failures := 0, lockedUntil := None)
  }

  // ── The second factor ─────────────────────────────────────

  predicate Authentic(env: Env, u: User, code: string) {
    u.secret.Some?
    && var text := TotpSecret.Decrypt(env.aead, env.encryptor, u.secret.value);
    text.Plain? && env.validate(code, text.text, u.now)
  }

  /** The hashes that still have an unused row. */
  function Unused(codes: seq<Code>): set<nat> {
    set c | c in codes && !c.used :: c.hash
  }

  /** Spending a hash marks every row that carries it, should a code have been stored twice. */
  function Spend(codes: seq<Code>, hash: nat): (r: seq<Code>)
    ensures |r| == |codes|
  {
    seq(|codes|, i requires 0 <= i < |codes| =>
      if codes[i].hash == hash then codes[i].(used := true) else codes[i])
  }

  function Spent(env: Env, u: User, code: string): User {
    u.(codes := Spend(u.codes, env.hash(code)))
  }

  predicate CanSpend(env: Env, u: User, code: string) {
    env.hash(code) in Unused(u.codes)
  }

  // ── Handlers ──────────────────────────────────────────────

  function Login(env: Env, u: User, passwordOk: bool): (User, Reply) {
    if Locked(u) then (u, AccountLocked)
    else if !passwordOk then (Failed(env, u), InvalidCredentials)
    else if env.requireVerified && !u.verified then (u, EmailNotVerified)
    else if u.deleted then (u, InvalidCredentials)
    else if u.enabled then (Reset(u).(challenges := u.challenges + {u.now}), MfaRequired)
    else (Reset(u), Issued)
  }

  /** The password step signed this token, and it has not run out. */
  predicate Challenged(u: User, token: nat) {
    token in u.challenges && u.now < token + MFA_TTL + LEEWAY
  }

  function LoginTotp(env: Env, u: User, token: nat, code: string): (User, Reply) {
    if !Challenged(u, token) then (u, InvalidToken)
    else if u.deleted || !u.enabled || u.secret.None? then (u, InvalidCredentials)
    else if Locked(u) then (u, AccountLocked)
    else if Authentic(env, u, code) then (Reset(u), Issued)
    else if CanSpend(env, u, code) then (Reset(Spent(env, u, code)), Issued)
    else (Failed(env, u), InvalidCode)
  }

  /** `stored` recovery codes are inserted before the database fails, or all of them. */
  function EnrollTotp(env: Env, u: User, plain: TotpSecret.ByteString, nonce: TotpSecret.bytes,
                      hashes: seq<nat>, stored: nat): (User, Reply) {
    if u.enabled then (u, FailedPrecondition)
    else
      (u.(secret := Some(TotpSecret.Encrypt(env.aead, env.encryptor, plain, nonce)),
          codes := FreshCodes(if stored < |hashes| then hashes[..stored] else hashes)),
       if stored < |hashes| then Internal else Success)
  }

  function FreshCodes(hashes: seq<nat>): (r: seq<Code>)
    ensures |r| == |hashes|
  {
    seq(|hashes|, i requires 0 <= i < |hashes| => Code(hashes[i], false))
  }

  function ActivateTotp(env: Env, u: User, code: string): (User, Reply) {
    if u.secret.None? then (u, FailedPrecondition)
    else if !TotpSecret.Decrypt(env.aead, env.encryptor, u.secret.value).Plain? then (u, Internal)
    else if !Authentic(env, u, code) then (u, InvalidCode)
    else (u.(enabled := true), Success)
  }

  function DisableTotp(env: Env, u: User, code: string): (User, Reply) {
    if !u.enabled then (u, Success)
    else if Authentic(env, u, code) || CanSpend(env, u, code) then
      (u.(secret := None, enabled := false, codes := []), Success)
    else (u, InvalidCode)
  }

  datatype Event =
    | Advance(duration: nat)
    | EnterPassword(ok: bool)
    | EnterCode(token: nat, code: string)
    | Enroll(plain: TotpSecret.ByteString, nonce: TotpSecret.bytes, hashes: seq<nat>, stored: nat)
    | Activate(code: string)
    | Disable(code: string)
    | VerifyEmail
    | SoftDelete
    | Restore

  /** Enrolment generates ten recovery codes. */
  predicate Legal(e: Event) {
    e.Enroll? ==> |e.hashes| == RECOVERY_CODES
  }

  function Do(env: Env, u: User, e: Event): User {
    match e
    case Advance(duration) => u.(now := u.now + duration)
    case EnterPassword(ok) => Login(env, u, ok).0
    case EnterCode(token, code) => LoginTotp(env, u, token, code).0
    case Enroll(plain, nonce, hashes, stored) => EnrollTotp(env, u, plain, nonce, hashes, stored).0
    case Activate(code) => ActivateTotp(env, u, code).0
    case Disable(code) => DisableTotp(env, u, code).0
    case VerifyEmail => u.(verified := true)
    case SoftDelete => u.(deleted := true)
    case Restore => u.(deleted := false)
  }

  function Run(env: Env, u: User, events: seq<Event>): User
    decreases |events|
  {
    if events == [] then u else Run(env, Do(env, u, events[0]), events[1..])
  }

  lemma {:induction false} RunLast(env: Env, u: User, events: seq<Event>)
    requires events != []
    ensures Run(env, u, events) == Do(env, Run(env, u, events[..|events| - 1]), events[|events| - 1])
    decreases |events|
  {
    if |events| > 1 {
      var rest := events[1..];
      RunLast(env, Do(env, u, events[0]), rest);
      assert rest[..|rest| - 1] == events[..|events| - 1][1..];
    }
  }

  // ── Lockout ───────────────────────────────────────────────

  /** A wrong password or second factor was looked at, by either login step. */
  predicate Guessed(env: Env, u: User, e: Event) {
    || (e.EnterPassword? && !Locked(u) && !e.ok)
    || (e.EnterCode? && LoginTotp(env, u, e.token, e.code).1 == InvalidCode)
  }

  /** The counter is cleared: a right password, whether or not a code is to follow, or an accepted code. */
  predicate Resets(env: Env, u: User, e: Event) {
    || (e.EnterPassword? && Login(env, u, e.ok).1 in {Issued, MfaRequired})
    || (e.EnterCode? && LoginTotp(env, u, e.token, e.code).1 == Issued)
  }

  /** The login is complete. */
  predicate Issues(env: Env, u: User, e: Event) {
    || (e.EnterPassword? && Login(env, u, e.ok).1 == Issued)
    || (e.EnterCode? && LoginTotp(env, u, e.token, e.code).1 == Issued)
  }

  function Guesses(env: Env, u: User, events: seq<Event>): nat
    decreases |events|
  {
    if events == [] then 0
    else (if Guessed(env, u, events[0]) then 1 else 0) + Guesses(env, Do(env, u, events[0]), events[1..])
  }

  function Resettings(env: Env, u: User, events: seq<Event>): nat
    decreases |events|
  {
    if events == [] then 0
    else (if Resets(env, u, events[0]) then 1 else 0) + Resettings(env, Do(env, u, events[0]), events[1..])
  }

  predicate NoneIssued(env: Env, u: User, events: seq<Event>)
    decreases |events|
  {
    events != [] ==> !Issues(env, u, events[0]) && NoneIssued(env, Do(env, u, events[0]), events[1..])
  }

  /** Between handlers the stored counter is below the threshold, in every run. */
  lemma {:induction false} CounterBelowMax(env: Env, u: User, events: seq<Event>)
    requires env.max > 0 && u.failures < env.max
    ensures Run(env, u, events).failures < env.max
    decreases |events|
  {
    if events != [] {
      CounterBelowMax(env, Do(env, u, events[0]), events[1..]);
    }
  }

  /** When the next guess can be looked at, at the earliest. */
  function Opens(u: User): nat {
    if Locked(u) then u.lockedUntil.value else u.now
  }

  lemma ResettingEvent(env: Env, u: User, e: Event)
    requires Resets(env, u, e)
    ensures var v := Do(env, u, e);
      v.failures == 0 && Opens(u) == Opens(v) == u.now == v.now && !Guessed(env, u, e)
  {
  }

  lemma OneEvent(env: Env, u: User, e: Event)
    requires env.max > 0 && u.failures < env.max && !Resets(env, u, e)
    ensures var v := Do(env, u, e);
      && u.now <= v.now && v.failures < env.max && Opens(u) <= Opens(v)
      && (!Guessed(env, u, e) ==> v.failures == u.failures)
      && (Guessed(env, u, e) ==>
            && !Locked(u)
            && v.failures == (if u.failures + 1 < env.max then u.failures + 1 else 0)
            && (u.failures + 1 == env.max ==> Opens(v) == u.now + env.lockout))
  {
  }

  lemma {:induction false} TimeRuns(env: Env, u: User, events: seq<Event>)
    ensures u.now <= Run(env, u, events).now
    decreases |events|
  {
    if events != [] {
      TimeRuns(env, Do(env, u, events[0]), events[1..]);
    }
  }

  lemma MulGrows(d: nat, a: nat, b: nat)
    requires a <= b
    ensures d * a <= d * b
  {
    assert d * b == d * a + d * (b - a);
  }

  lemma Distributes(a: nat, b: nat)
    requires b > 0
    ensures a * b == a + a * (b - 1) && a <= a * b
  {
    MulGrows(a, 1, b);
  }

  /**
   A run that ends within `k` lockouts of the account opening holds at most `k` rounds of guesses,
   and for each reset of the counter at most one guess less than a round more.
   */
  lemma {:induction false} GuessBudget(env: Env, u: User, events: seq<Event>, k: nat)
    requires env.max > 0 && u.failures < env.max
    requires Run(env, u, events).now < Opens(u) + env.lockout * k
    ensures Guesses(env, u, events)
         <= (if k == 0 then 0 else env.max * k - u.failures) + (env.max - 1) * Resettings(env, u, events)
    decreases |events|
  {
    if k > 0 {
      Distributes(env.max, k);
      Distributes(env.lockout, k);
    }
    if events != [] {
      var e, v, rest := events[0], Do(env, u, events[0]), events[1..];
      TimeRuns(env, v, rest);
      if Resets(env, u, e) {
        ResettingEvent(env, u, e);
        hide Do, Guessed, Resets, Opens;
        Distributes(env.max - 1, Resettings(env, u, events));
        assert k > 0;
        GuessBudget(env, v, rest, k);
      } else {
        OneEvent(env, u, e);
        hide Do, Guessed, Resets;
        assert Resettings(env, u, events) == Resettings(env, v, rest);
        if Guessed(env, u, e) && u.failures + 1 == env.max {
          assert k > 0;
          GuessBudget(env, v, rest, k - 1);
        } else {
          GuessBudget(env, v, rest, k);
        }
      }
    }
  }

  /**
   The rate bound: over any run of length W from any reachable state, the two login steps
   together look at no more than max (⌊W / lockout⌋ + 1) wrong passwords and codes, and max - 1
   more for each time a right password or code cleared the counter.
   */
  lemma GuessRate(env: Env, before: seq<Event>, events: seq<Event>)
    requires env.max > 0 && env.lockout > 0
    ensures var u := Run(env, NEWCOMER, before);
      var w := Run(env, u, events).now - u.now;
      && w >= 0
      && Guesses(env, u, events)
           <= env.max * (w / env.lockout + 1) + (env.max - 1) * Resettings(env, u, events)
  {
    var u := Run(env, NEWCOMER, before);
    CounterBelowMax(env, NEWCOMER, before);
    hide *;
    RateFrom(env, u, events);
  }

  lemma RateFrom(env: Env, u: User, events: seq<Event>)
    requires env.max > 0 && env.lockout > 0 && u.failures < env.max
    ensures var w := Run(env, u, events).now - u.now;
      && w >= 0
      && Guesses(env, u, events)
           <= env.max * (w / env.lockout + 1) + (env.max - 1) * Resettings(env, u, events)
  {
    hide *;
    TimeRuns(env, u, events);
    var k := WholeRounds(Run(env, u, events).now - u.now, env.lockout);
    BudgetSpent(env, u, events, k);
  }

  lemma BudgetSpent(env: Env, u: User, events: seq<Event>, k: nat)
    requires env.max > 0 && u.failures < env.max
    requires Run(env, u, events).now - u.now < env.lockout * k
    ensures Guesses(env, u, events) <= env.max * k + (env.max - 1) * Resettings(env, u, events)
  {
    GuessBudget(env, u, events, k);
  }

  lemma WholeRounds(w: nat, d: nat) returns (k: nat)
    requires d > 0
    ensures k == w / d + 1 && w < d * k
  {
    k := w / d + 1;
    assert d * k == d * (w / d) + d;
  }

  // The bound is attained.

  function Barrage(n: nat): seq<Event> {
    if n == 0 then [] else [EnterPassword(false)] + Barrage(n - 1)
  }

  function Siege(env: Env, rounds: nat): seq<Event> {
    if rounds == 0 then Barrage(env.max) else Barrage(env.max) + [Advance(env.lockout)] + Siege(env, rounds - 1)
  }

  /** Each time one guess short of a lockout, and then the right password. */
  function Relieved(env: Env, resets: nat, rounds: nat): seq<Event>
    requires env.max > 0
  {
    if resets == 0 then Siege(env, rounds)
    else Barrage(env.max - 1) + [EnterPassword(true)] + Relieved(env, resets - 1, rounds)
  }

  lemma {:induction false} AfterBarrage(env: Env, u: User, n: nat, rest: seq<Event>)
    requires env.max > 0 && env.lockout > 0 && !Locked(u) && u.failures + n <= env.max
    ensures var v := if u.failures + n < env.max || n == 0 then u.(failures := u.failures + n)
        else u.(failures := 0, lockedUntil := Some(u.now + env.lockout));
      && Run(env, u, Barrage(n) + rest) == Run(env, v, rest)
      && Guesses(env, u, Barrage(n) + rest) == n + Guesses(env, v, rest)
      && Resettings(env, u, Barrage(n) + rest) == Resettings(env, v, rest)
    decreases n
  {
    if n == 0 {
      assert Barrage(0) + rest == rest;
    } else {
      var more := Barrage(n - 1) + rest;
      assert Barrage(n) + rest == [EnterPassword(false)] + more;
      WrongPassword(env, u, more);
      hide Guesses, Resettings, Run, Barrage;
      if n > 1 {
        AfterBarrage(env, Failed(env, u), n - 1, rest);
      } else {
        assert more == rest;
      }
    }
  }

  lemma WrongPassword(env: Env, u: User, rest: seq<Event>)
    requires !Locked(u)
    ensures var events, v := [EnterPassword(false)] + rest, Failed(env, u);
      && Run(env, u, events) == Run(env, v, rest)
      && Guesses(env, u, events) == 1 + Guesses(env, v, rest)
      && Resettings(env, u, events) == Resettings(env, v, rest)
  {
    assert ([EnterPassword(false)] + rest)[1..] == rest;
  }

  lemma {:induction false} SiegeAttains(env: Env, u: User, rounds: nat)
    requires env.max > 0 && env.lockout > 0 && !Locked(u) && u.failures == 0
    ensures var events := Siege(env, rounds);
      && Resettings(env, u, events) == 0
      && Run(env, u, events).now - u.now == rounds * env.lockout
      && Guesses(env, u, events) == env.max * (rounds + 1)
    decreases rounds
  {
    var v := u.(failures := 0, lockedUntil := Some(u.now + env.lockout));
    if rounds == 0 {
      assert Barrage(env.max) + [] == Barrage(env.max);
      AfterBarrage(env, u, env.max, []);
    } else {
      var rest := [Advance(env.lockout)] + Siege(env, rounds - 1);
      assert Siege(env, rounds) == Barrage(env.max) + rest;
      AfterBarrage(env, u, env.max, rest);
      var w := Do(env, v, rest[0]);
      assert rest[1..] == Siege(env, rounds - 1);
      SiegeAttains(env, w, rounds - 1);
      assert env.max * (rounds + 1) == env.max + env.max * rounds;
      assert rounds * env.lockout == env.lockout + (rounds - 1) * env.lockout;
    }
  }

  /** For any number of lockouts and of resets some run attains the bound. */
  lemma {:induction false} RateIsAttained(env: Env, u: User, resets: nat, rounds: nat)
    requires env.max > 0 && env.lockout > 0 && !Locked(u) && u.failures == 0
    requires resets > 0 ==> !u.deleted && (env.requireVerified ==> u.verified)
    ensures var events := Relieved(env, resets, rounds);
      && Resettings(env, u, events) == resets
      && Run(env, u, events).now - u.now == rounds * env.lockout
      && Guesses(env, u, events) == env.max * (rounds + 1) + (env.max - 1) * resets
    decreases resets
  {
    if resets == 0 {
      SiegeAttains(env, u, rounds);
    } else {
      var more := Relieved(env, resets - 1, rounds);
      var rest := [EnterPassword(true)] + more;
      assert Relieved(env, resets, rounds) == Barrage(env.max - 1) + rest;
      AfterBarrage(env, u, env.max - 1, rest);
      var v := u.(failures := env.max - 1);
      assert rest[0] == EnterPassword(true) && rest[1..] == more;
      hide Relieved, Barrage, Guesses, Resettings, Run;
      OnePassword(env, v, more);
      RateIsAttained(env, Do(env, v, EnterPassword(true)), resets - 1, rounds);
      Distributes(env.max - 1, resets);
    }
  }

  lemma OnePassword(env: Env, v: User, more: seq<Event>)
    requires !Locked(v) && !v.deleted && (env.requireVerified ==> v.verified)
    ensures var rest, w := [EnterPassword(true)] + more, Do(env, v, EnterPassword(true));
      && w.failures == 0 && !Locked(w) && w.now == v.now && !w.deleted && w.verified == v.verified
      && Run(env, v, rest) == Run(env, w, more)
      && Guesses(env, v, rest) == Guesses(env, w, more)
      && Resettings(env, v, rest) == 1 + Resettings(env, w, more)
  {
    assert ([EnterPassword(true)] + more)[1..] == more;
  }

  // ── The second step under the lockout ─────────────────────

  /** The second factor is on, the password step can be passed, and the code is wrong. */
  predicate Awaits(env: Env, u: User, code: string) {
    && !Locked(u) && !u.deleted && (env.requireVerified ==> u.verified)
    && u.enabled && u.secret.Some? && !Authentic(env, u, code) && !CanSpend(env, u, code)
  }

  /** The right password and the wrong code, over and over. */
  function Retries(now: nat, code: string, n: nat): seq<Event> {
    if n == 0 then [] else [EnterPassword(true), EnterCode(now, code)] + Retries(now, code, n - 1)
  }

  lemma OneRetry(env: Env, u: User, code: string, rest: seq<Event>)
    requires env.max > 1 && Awaits(env, u, code)
    ensures var v := Reset(u).(failures := 1, challenges := u.challenges + {u.now});
      var events := [EnterPassword(true), EnterCode(u.now, code)] + rest;
      && Awaits(env, v, code)
      && Run(env, u, events) == Run(env, v, rest)
      && Guesses(env, u, events) == 1 + Guesses(env, v, rest)
      && (NoneIssued(env, u, events) <==> NoneIssued(env, v, rest))
  {
    var v := Reset(u).(failures := 1, challenges := u.challenges + {u.now});
    var passed := Reset(u).(challenges := u.challenges + {u.now});
    var events := [EnterPassword(true), EnterCode(u.now, code)] + rest;
    assert events[1..] == [EnterCode(u.now, code)] + rest && events[1..][1..] == rest;
    assert Do(env, u, events[0]) == passed;
    hide TotpSecret.Decrypt;
    assert Authentic(env, passed, code) == Authentic(env, u, code);
    assert LoginTotp(env, passed, u.now, code) == (v, InvalidCode);
  }

  /**
   A right password clears the counter before the second step, so with a threshold above one
   any number of wrong codes is looked at without delay, and without ever locking the account.
   */
  lemma {:induction false} CodesNeverLock(env: Env, u: User, code: string, n: nat)
    requires env.max > 1 && Awaits(env, u, code)
    ensures var events := Retries(u.now, code, n);
      && NoneIssued(env, u, events) && Guesses(env, u, events) == n
      && Run(env, u, events).now == u.now && !Locked(Run(env, u, events))
    decreases n
  {
    if n > 0 {
      var v := Reset(u).(failures := 1, challenges := u.challenges + {u.now});
      OneRetry(env, u, code, Retries(u.now, code, n - 1));
      hide Awaits, Guesses, NoneIssued, Run;
      CodesNeverLock(env, v, code, n - 1);
    }
  }

  /** The rate bound without an allowance for resets. */
  predicate Bounded(env: Env, u: User, events: seq<Event>)
    requires env.lockout > 0
  {
    Guesses(env, u, events) <= env.max * ((Run(env, u, events).now - u.now) / env.lockout + 1)
  }

  /**
   When the lockout bounds the second step like the first: over all runs in which no login
   completes, of an account that awaits a code that is wrong or of any account, the bound
   holds without an allowance exactly if the threshold is one.
   */
  lemma LockoutBoundsCodes(env: Env, before: seq<Event>, code: string)
    requires env.max > 0 && env.lockout > 0 && Awaits(env, Run(env, NEWCOMER, before), code)
    ensures (forall events | NoneIssued(env, Run(env, NEWCOMER, before), events) ::
               Bounded(env, Run(env, NEWCOMER, before), events)) <==> env.max == 1
    ensures (forall first, events | NoneIssued(env, Run(env, NEWCOMER, first), events) ::
               Bounded(env, Run(env, NEWCOMER, first), events)) <==> env.max == 1
  {
    if env.max == 1 {
      forall first, events ensures Bounded(env, Run(env, NEWCOMER, first), events) {
        GuessRate(env, first, events);
        hide Run, Guesses, Resettings;
      }
    } else {
      var u := Run(env, NEWCOMER, before);
      CodesNeverLock(env, u, code, env.max + 1);
      hide Run, Guesses, NoneIssued, Awaits;
      assert NoneIssued(env, u, Retries(u.now, code, env.max + 1));
      assert !Bounded(env, u, Retries(u.now, code, env.max + 1));
    }
  }
}
