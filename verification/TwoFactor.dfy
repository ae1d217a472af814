/** What holds of the second factor over every run of the handlers in `Account`. */
module TwoFactor {
  import opened Seqs
  import opened Account
  import TotpSecret

  function After(env: Env, events: seq<Event>, n: nat): User
    requires n <= |events|
  {
    Run(env, NEWCOMER, events[..n])
  }

  lemma AfterNext(env: Env, events: seq<Event>, n: nat)
    requires n < |events|
    ensures After(env, events, n + 1) == Do(env, After(env, events, n), events[n])
  {
    RunLast(env, NEWCOMER, events[..n + 1]);
    assert events[..n + 1][..n] == events[..n];
  }

  // ── Enabled means proven ──────────────────────────────────

  /** Event `i` activated the second factor with a code that was right for the stored secret. */
  predicate ProvenAt(env: Env, events: seq<Event>, i: nat)
    requires i < |events|
  {
    var u := After(env, events, i);
    events[i].Activate? && Authentic(env, u, events[i].code)
  }

  /** From just after event `i` to event `n` the second factor stayed on, with the same secret. */
  ghost predicate KeptSince(env: Env, events: seq<Event>, i: nat, n: nat)
    requires i < n <= |events|
  {
    forall j | i < j <= n ::
      After(env, events, j).enabled && After(env, events, j).secret == After(env, events, i).secret
  }

  lemma OneEventEnabled(env: Env, u: User, e: Event)
    requires Do(env, u, e).enabled
    ensures u.enabled && !(e.Activate? && Authentic(env, u, e.code)) ==> Do(env, u, e).secret == u.secret
    ensures !u.enabled ==> e.Activate? && Authentic(env, u, e.code)
    ensures e.Activate? ==> Do(env, u, e).secret == u.secret
  {
  }

  // ── Off only by a code ────────────────────────────────────

  /** The second factor was on, and the event presents a right code or an unused recovery code to switch it off. */
  predicate SwitchesOff(env: Env, u: User, e: Event) {
    u.enabled && e.Disable? && (Authentic(env, u, e.code) || CanSpend(env, u, e.code))
  }

  lemma OneEventDisables(env: Env, u: User, e: Event)
    requires u.enabled
    ensures !Do(env, u, e).enabled || Do(env, u, e).secret != u.secret <==> SwitchesOff(env, u, e)
    ensures u.secret.Some? ==> (Do(env, u, e).enabled <==> Do(env, u, e).secret == u.secret)
  {
  }

  /**
   In every run from any account, a second factor that is on stays on with the same secret
   unless an event switches it off by a right code or an unused recovery code.
   */
  lemma {:induction false} OffOnlyByCode(env: Env, u: User, events: seq<Event>, n: nat) returns (i: nat)
    requires n <= |events| && u.enabled
    requires var v := Run(env, u, events[..n]); !v.enabled || v.secret != u.secret
    ensures i < n && SwitchesOff(env, Run(env, u, events[..i]), events[i])
    ensures var w := Run(env, u, events[..i]); w.secret == u.secret
    decreases n
  {
    assert n > 0;
    var w := Run(env, u, events[..n - 1]);
    RunLast(env, u, events[..n]);
    assert events[..n][..n - 1] == events[..n - 1];
    if w.enabled && w.secret == u.secret {
      OneEventDisables(env, w, events[n - 1]);
      i := n - 1;
    } else {
      i := OffOnlyByCode(env, u, events, n - 1);
    }
  }

  /**
   In every run, a second factor that is on was switched on by an activation that validated a
   code against the secret still stored, and no enrolment has changed that secret since.
   */
  lemma {:induction false} EnabledWasProven(env: Env, events: seq<Event>, n: nat) returns (i: nat)
    requires n <= |events| && After(env, events, n).enabled
    ensures i < n && ProvenAt(env, events, i) && KeptSince(env, events, i, n)
    ensures After(env, events, n).secret.Some?
    decreases n
  {
    assert n > 0;
    AfterNext(env, events, n - 1);
    var u := After(env, events, n - 1);
    OneEventEnabled(env, u, events[n - 1]);
    hide *;
    if u.enabled {
      i := KeptOn(env, events, n);
    } else {
      i := n - 1;
      NewlyOn(env, events, n);
    }
  }

  lemma NewlyOn(env: Env, events: seq<Event>, n: nat)
    requires 0 < n <= |events| && After(env, events, n).enabled && !After(env, events, n - 1).enabled
    ensures ProvenAt(env, events, n - 1) && KeptSince(env, events, n - 1, n)
    ensures After(env, events, n).secret.Some?
  {
    AfterNext(env, events, n - 1);
    OneEventEnabled(env, After(env, events, n - 1), events[n - 1]);
    hide Do, After;
  }

  lemma {:induction false} KeptOn(env: Env, events: seq<Event>, n: nat) returns (i: nat)
    requires 0 < n <= |events| && After(env, events, n).enabled && After(env, events, n - 1).enabled
    ensures i < n && ProvenAt(env, events, i) && KeptSince(env, events, i, n)
    ensures After(env, events, n).secret.Some?
    decreases n, 0
  {
    AfterNext(env, events, n - 1);
    OneEventEnabled(env, After(env, events, n - 1), events[n - 1]);
    hide Do, After;
    i := EnabledWasProven(env, events, n - 1);
    assert KeptSince(env, events, i, n);
  }

  /** Who gets past the password step, what a failure costs, and when a second step follows. */
  lemma PasswordOutcome(env: Env, u: User, ok: bool)
    ensures var (v, reply) := Login(env, u, ok); var locked := u.lockedUntil.Some? && u.now < u.lockedUntil.value;
      && (reply == AccountLocked <==> locked)
      && (reply == InvalidCredentials <==>
            !locked && (!ok || (u.deleted && (env.requireVerified ==> u.verified))))
      && (reply == EmailNotVerified <==> !locked && ok && env.requireVerified && !u.verified)
      && (reply == MfaRequired ==> u.enabled) && (reply == Issued ==> !u.enabled)
      && (reply in {Issued, MfaRequired, AccountLocked, InvalidCredentials, EmailNotVerified})
      && (reply == Issued || reply == MfaRequired ==>
            v == u.(failures := 0, lockedUntil := None, challenges := u.challenges + if u.enabled then {u.now} else {}))
      && (!ok && !locked ==> Costs(env, u, v))
      && (locked || (ok && reply != Issued && reply != MfaRequired) ==> v == u)
  {
  }

  /** A wrong guess counts, unless the lockout is switched off; the one that reaches the threshold locks. */
  predicate Costs(env: Env, u: User, v: User) {
    if env.max == 0 then v == u
    else if u.failures + 1 < env.max then v == u.(failures := u.failures + 1)
    else v == u.(failures := 0, lockedUntil := Some(u.now + env.lockout))
  }

  /**
   Enrolment of an account whose second factor is on changes nothing. Otherwise it replaces secret
   and codes, stays off, and is switched on by exactly the codes right for the new secret.
   */
  lemma EnrolledSecretActivates(env: Env, u: User, plain: TotpSecret.ByteString, nonce: TotpSecret.bytes,
                                hashes: seq<nat>, stored: nat, code: string)
    requires env.aead.Correct() && |nonce| == TotpSecret.NONCE_SIZE && !(TotpSecret.PREFIX <= plain)
    ensures var (v, reply) := EnrollTotp(env, u, plain, nonce, hashes, stored);
      if u.enabled then (v, reply) == (u, FailedPrecondition)
      else
        && v == u.(secret := v.secret, codes := v.codes) && v.secret.Some?
        && reply == (if |hashes| <= stored then Success else Internal)
        && ActivateTotp(env, v, code)
           == (if env.validate(code, plain, u.now) then (v.(enabled := true), Success) else (v, InvalidCode))
        && Unused(v.codes) == set i | 0 <= i < |hashes| && i < stored :: hashes[i]
  {
    TotpSecret.EnvelopeRoundTrip(env.aead, env.encryptor, plain, nonce);
    hide TotpSecret.Decrypt, TotpSecret.Encrypt;
    var v := EnrollTotp(env, u, plain, nonce, hashes, stored).0;
    forall i | 0 <= i < |hashes| && i < stored && !u.enabled ensures hashes[i] in Unused(v.codes) {
      assert v.codes[i] == Code(hashes[i], false);
    }
  }

  /** Activation takes a code right for the stored secret, and changes nothing without one. */
  lemma ActivationOutcome(env: Env, u: User, code: string)
    ensures var (v, reply) := ActivateTotp(env, u, code);
      && (reply == Success <==> Authentic(env, u, code))
      && (reply == FailedPrecondition <==> u.secret == None)
      && (reply == Internal <==>
            u.secret.Some? && !TotpSecret.Decrypt(env.aead, env.encryptor, u.secret.value).Plain?)
      && (reply in {Success, FailedPrecondition, Internal, InvalidCode})
      && v == (if reply == Success then u.(enabled := true) else u)
  {
    hide TotpSecret.Decrypt;
  }

  /** A code is right if it validates, now, against what the stored secret decrypts to. */
  lemma AuthenticMeans(env: Env, u: User, code: string)
    ensures Authentic(env, u, code) <==> u.secret.Some? && exists text ::
      TotpSecret.Decrypt(env.aead, env.encryptor, u.secret.value) == TotpSecret.Plain(text)
      && env.validate(code, text, u.now)
    ensures CanSpend(env, u, code) <==> exists i: nat :: i < |u.codes| && u.codes[i] == Code(env.hash(code), false)
  {
    hide TotpSecret.Decrypt;
    if c :| c in u.codes && !c.used && c.hash == env.hash(code) {
      var i: nat :| i < |u.codes| && u.codes[i] == c;
      assert u.codes[i] == Code(env.hash(code), false);
    }
  }

  /** Switching off takes a right code or an unused recovery code, and forgets the secret and every recovery code. */
  lemma DisableOutcome(env: Env, u: User, code: string)
    ensures var (v, reply) := DisableTotp(env, u, code);
      if !u.enabled then (v, reply) == (u, Success)
      else if Authentic(env, u, code) || CanSpend(env, u, code) then
        (v, reply) == (u.(secret := None, enabled := false, codes := []), Success)
      else (v, reply) == (u, InvalidCode)
  {
  }

  /**
   Who gets past the second step, and what that leaves behind: an accepted code clears the counter
   and the lock and, if it was a recovery code, spends that hash; a wrong one costs what a
   wrong password costs; the token stays good.
   */
  lemma CodeOutcome(env: Env, u: User, token: nat, code: string)
    ensures var (v, reply) := LoginTotp(env, u, token, code);
      var locked := u.lockedUntil.Some? && u.now < u.lockedUntil.value;
      && (reply == InvalidToken <==> !(token in u.challenges && u.now < token + 360))
      && (reply == InvalidCredentials <==> reply != InvalidToken && (u.deleted || !u.enabled || u.secret.None?))
      && (reply == AccountLocked <==> reply != InvalidToken && reply != InvalidCredentials && locked)
      && (reply == Issued ==> Authentic(env, u, code) || CanSpend(env, u, code))
      && (reply == InvalidCode ==> !Authentic(env, u, code) && !CanSpend(env, u, code) && Costs(env, u, v))
      && (reply in {InvalidToken, InvalidCredentials, AccountLocked} ==> v == u)
      && (reply in {InvalidToken, InvalidCredentials, AccountLocked, Issued, InvalidCode})
      && (reply == Issued ==>
            && v == u.(failures := 0, lockedUntil := None, codes := v.codes)
            && (Authentic(env, u, code) ==> v.codes == u.codes)
            && (!Authentic(env, u, code) ==> |v.codes| == |u.codes| && forall i | 0 <= i < |u.codes| ::
                  v.codes[i] == u.codes[i].(used := u.codes[i].used || u.codes[i].hash == env.hash(code))))
  {
    hide TotpSecret.Decrypt;
  }

  // ── Accounts that are gone, and what else may change ──────

  /** A soft-deleted user completes no login, in any run, until restored. */
  lemma {:induction false} DeletedStaysOut(env: Env, u: User, events: seq<Event>)
    requires u.deleted && forall e | e in events :: !e.Restore?
    ensures NoneIssued(env, u, events) && Run(env, u, events).deleted
    decreases |events|
  {
    if events != [] {
      assert events[0] in events;
      DeletedEvent(env, u, events[0]);
      hide Do, Issues;
      DeletedStaysOut(env, Do(env, u, events[0]), events[1..]);
    }
  }

  lemma DeletedEvent(env: Env, u: User, e: Event)
    requires u.deleted && !e.Restore?
    ensures !Issues(env, u, e) && Do(env, u, e).deleted
  {
    hide TotpSecret.Decrypt, TotpSecret.Encrypt;
  }

  /** Which events change what: the clock, verification, deletion, and the tokens of the password step. */
  lemma OnlyItsFields(env: Env, u: User, e: Event)
    ensures var v := Do(env, u, e);
      && v.now == (if e.Advance? then u.now + e.duration else u.now)
      && v.verified == (u.verified || e == VerifyEmail)
      && v.deleted == (if e == SoftDelete then true else if e == Restore then false else u.deleted)
      && u.challenges <= v.challenges <= u.challenges + {u.now}
      && (v.challenges != u.challenges ==> e == EnterPassword(true))
      && (e.Advance? || e in {VerifyEmail, SoftDelete, Restore} ==>
            v == u.(now := v.now, verified := v.verified, deleted := v.deleted))
  {
    hide TotpSecret.Decrypt, TotpSecret.Encrypt;
  }

  // ── A code follows a password ─────────────────────────────

  /** Event `i` was a right password, answered with the MFA token `token`. */
  predicate AskedAt(env: Env, events: seq<Event>, i: nat, token: nat)
    requires i < |events|
  {
    var u := After(env, events, i);
    events[i] == EnterPassword(true) && Login(env, u, true).1 == MfaRequired && u.now == token
  }

  lemma {:induction false} ChallengeWasAsked(env: Env, events: seq<Event>, n: nat, token: nat) returns (i: nat)
    requires n <= |events| && token in After(env, events, n).challenges
    ensures i < n && AskedAt(env, events, i, token)
    decreases n
  {
    assert n > 0;
    AfterNext(env, events, n - 1);
    if token in After(env, events, n - 1).challenges {
      hide After;
      i := ChallengeWasAsked(env, events, n - 1, token);
    } else {
      hide After;
      i := n - 1;
    }
  }

  /**
   In every run, a code is looked at only if a right password was entered before it, less than
   six minutes ago: the five that its token lives, and one for clock skew.
   */
  lemma CodeFollowsPassword(env: Env, events: seq<Event>, n: nat) returns (i: nat)
    requires n < |events| && events[n].EnterCode?
    requires LoginTotp(env, After(env, events, n), events[n].token, events[n].code).1 != InvalidToken
    ensures i < n && AskedAt(env, events, i, events[n].token)
    ensures After(env, events, n).now - After(env, events, i).now < 360
  {
    hide After;
    i := ChallengeWasAsked(env, events, n, events[n].token);
  }

  /** An account that has just switched the second factor on awaits every code that is wrong for it. */
  lemma EnrolledAwaits(env: Env, plain: TotpSecret.ByteString, nonce: TotpSecret.bytes, hashes: seq<nat>,
                       right: string, wrong: string)
    requires env.aead.Correct() && |nonce| == TotpSecret.NONCE_SIZE && !(TotpSecret.PREFIX <= plain)
    requires env.validate(right, plain, 0) && !env.validate(wrong, plain, 0) && env.hash(wrong) !in hashes
    ensures Awaits(env, Run(env, NEWCOMER, [VerifyEmail, Enroll(plain, nonce, hashes, |hashes|), Activate(right)]),
                   wrong)
  {
    var events := [VerifyEmail, Enroll(plain, nonce, hashes, |hashes|), Activate(right)];
    var u := NEWCOMER.(verified := true);
    assert Do(env, NEWCOMER, VerifyEmail) == u;
    EnrolledSecretActivates(env, u, plain, nonce, hashes, |hashes|, right);
    EnrolledSecretActivates(env, u, plain, nonce, hashes, |hashes|, wrong);
    hide TotpSecret.Decrypt, TotpSecret.Encrypt, Unused, Run;
    RunThree(env, NEWCOMER, events[0], events[1], events[2]);
  }

  lemma RunThree(env: Env, u: User, a: Event, b: Event, c: Event)
    ensures Run(env, u, [a, b, c]) == Do(env, Do(env, Do(env, u, a), b), c)
  {
    hide Do;
    assert [a, b, c][1..] == [b, c] && [b, c][1..] == [c] && [c][1..] == [];
    assert Run(env, Do(env, u, a), [b, c]) == Run(env, Do(env, Do(env, u, a), b), [c]);
  }

  // ── Recovery codes ────────────────────────────────────────

  /** The event is accepted because of a recovery code. */
  predicate Recovers(env: Env, u: User, e: Event) {
    match e
    case EnterCode(token, code) => LoginTotp(env, u, token, code).1 == Issued && !Authentic(env, u, code)
    case Disable(code) => u.enabled && DisableTotp(env, u, code).1 == Success && !Authentic(env, u, code)
    case _ => false
  }

  function RecoveredHash(env: Env, e: Event): nat
    requires e.EnterCode? || e.Disable?
  {
    env.hash(e.code)
  }

  predicate RecoversWith(env: Env, u: User, e: Event, hash: nat) {
    Recovers(env, u, e) && RecoveredHash(env, e) == hash
  }

  predicate Enrolls(u: User, e: Event) {
    e.Enroll? && !u.enabled
  }

  predicate NoEnrolment(env: Env, u: User, events: seq<Event>)
    decreases |events|
  {
    events != [] ==> !Enrolls(u, events[0]) && NoEnrolment(env, Do(env, u, events[0]), events[1..])
  }

  function Recoveries(env: Env, u: User, events: seq<Event>): nat
    decreases |events|
  {
    if events == [] then 0
    else (if Recovers(env, u, events[0]) then 1 else 0) + Recoveries(env, Do(env, u, events[0]), events[1..])
  }

  function RecoveriesWith(env: Env, u: User, events: seq<Event>, hash: nat): nat
    decreases |events|
  {
    if events == [] then 0
    else (if RecoversWith(env, u, events[0], hash) then 1 else 0)
         + RecoveriesWith(env, Do(env, u, events[0]), events[1..], hash)
  }

  lemma SpendRemoves(codes: seq<Code>, hash: nat)
    ensures Unused(Spend(codes, hash)) == Unused(codes) - {hash}
  {
    var after := Spend(codes, hash);
    forall h | h in Unused(codes) - {hash} ensures h in Unused(after) {
      var c :| c in codes && !c.used && c.hash == h;
      var i :| 0 <= i < |codes| && codes[i] == c;
      assert after[i] == c;
    }
    forall h | h in Unused(after) ensures h in Unused(codes) - {hash} {
      var c :| c in after && !c.used && c.hash == h;
      var i :| 0 <= i < |after| && after[i] == c;
      assert codes[i] == c;
    }
  }

  /** An accepted recovery code is gone afterwards; without an enrolment none comes back. */
  lemma CodesOnlyShrink(env: Env, u: User, e: Event)
    requires !Enrolls(u, e)
    ensures Unused(Do(env, u, e).codes) <= Unused(u.codes)
    ensures Recovers(env, u, e) ==>
      RecoveredHash(env, e) in Unused(u.codes) && RecoveredHash(env, e) !in Unused(Do(env, u, e).codes)
  {
    if e.EnterCode? || e.Disable? {
      SpendRemoves(u.codes, env.hash(e.code));
    }
    hide Spend;
  }

  /** A hash is accepted at most once until the next enrolment, even if it is stored twice. */
  lemma {:induction false} HashAcceptedOnce(env: Env, u: User, events: seq<Event>, hash: nat)
    requires NoEnrolment(env, u, events)
    ensures RecoveriesWith(env, u, events, hash) <= if hash in Unused(u.codes) then 1 else 0
    decreases |events|
  {
    if events != [] {
      CodesOnlyShrink(env, u, events[0]);
      hide Unused, Do, Recovers, Enrolls;
      HashAcceptedOnce(env, Do(env, u, events[0]), events[1..], hash);
    }
  }

  lemma SmallerSet(a: set<nat>, b: set<nat>)
    requires a <= b
    ensures |a| <= |b|
    ensures forall x | x in b && x !in a :: |a| < |b|
  {
    assert b == a + (b - a);
  }

  lemma {:induction false} RecoveriesSpendHashes(env: Env, u: User, events: seq<Event>)
    requires NoEnrolment(env, u, events)
    ensures Recoveries(env, u, events) <= |Unused(u.codes)|
    decreases |events|
  {
    if events != [] {
      CodesOnlyShrink(env, u, events[0]);
      SmallerSet(Unused(Do(env, u, events[0]).codes), Unused(u.codes));
      hide Unused, Do, Recovers, Enrolls;
      RecoveriesSpendHashes(env, Do(env, u, events[0]), events[1..]);
    }
  }

  lemma {:induction false} FewHashes(codes: seq<Code>)
    ensures |Unused(codes)| <= |codes|
  {
    if codes != [] {
      var last := codes[|codes| - 1];
      FewHashes(codes[..|codes| - 1]);
      assert Unused(codes) == Unused(codes[..|codes| - 1]) + if last.used then {} else {last.hash};
    } else {
      assert Unused(codes) == {};
    }
  }

  /**
   After an enrolment, and until the next one, recovery codes are accepted at most ten times,
   and only codes of that enrolment are.
   */
  lemma TenRecoveriesPerEnrolment(env: Env, u: User, e: Event, events: seq<Event>)
    requires Legal(e) && Enrolls(u, e) && NoEnrolment(env, Do(env, u, e), events)
    ensures Recoveries(env, Do(env, u, e), events) <= 10
    ensures forall h | h !in e.hashes :: RecoveriesWith(env, Do(env, u, e), events, h) == 0
  {
    var v := Do(env, u, e);
    RecoveriesSpendHashes(env, v, events);
    FewHashes(v.codes);
    forall h | h !in e.hashes ensures RecoveriesWith(env, v, events, h) == 0 {
      HashAcceptedOnce(env, v, events, h);
    }
  }
}
