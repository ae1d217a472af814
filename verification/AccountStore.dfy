/** A user's row and recovery codes, as the login and two-factor handlers update them. */
module AccountStore {
  import opened Seqs
  import opened Account
  import TotpSecret

  class UserRow {
    const env: Env
    var now: nat
    var failures: nat
    var lockedUntil: Option<nat>
    var verified: bool
    var deleted: bool
    var secret: Option<string>
    var enabled: bool
    var codes: seq<Code>
    /** The MFA tokens signed for the user; a signature that checks is one of these. */
    var challenges: set<nat>

    function Snapshot(): User
      reads this
    {
      User(now, failures, lockedUntil, verified, deleted, secret, enabled, codes, challenges)
    }

    constructor (env: Env)
      ensures this.env == env && Snapshot() == NEWCOMER
    {
      this.env := env;
      now, failures, lockedUntil, verified, deleted := 0, 0, None, false, false;
      secret, enabled, codes, challenges := None, false, [], {};
    }

    // ── Statements ──────────────────────────────────────────

    method IncrementLoginFailure() returns (n: nat)
      modifies `failures
      ensures failures == n == old(failures) + 1
    {
      failures := failures + 1;
      return failures;
    }

    method LockUser(until: nat)
      modifies `failures, `lockedUntil
      ensures failures == 0 && lockedUntil == Some(until)
    {
      lockedUntil, failures := Some(until), 0;
    }

    method ResetLoginState()
      modifies `failures, `lockedUntil
      ensures Snapshot() == Reset(old(Snapshot()))
    {
      failures, lockedUntil := 0, None;
    }

    method ConsumeRecoveryCode(code: string) returns (ok: bool)
      modifies `codes
      ensures ok == CanSpend(env, old(Snapshot()), code)
      ensures Snapshot() == if ok then Spent(env, old(Snapshot()), code) else old(Snapshot())
    {
      ok := env.hash(code) in Unused(codes);
      if ok {
        codes := Spend(codes, env.hash(code));
      }
    }

    method InsertRecoveryCode(hash: nat)
      modifies `codes
      ensures codes == old(codes) + [Code(hash, false)]
    {
      codes := codes + [Code(hash, false)];
    }

    /** The tail that both login steps share when a guess is wrong. */
    method CountFailure()
      modifies `failures, `lockedUntil
      ensures Snapshot() == Failed(env, old(Snapshot()))
    {
      if env.max > 0 {
        var n := IncrementLoginFailure();
        if n >= env.max {
          LockUser(now + env.lockout);
        }
      }
    }

    // ── Handlers ────────────────────────────────────────────

    method Login(passwordOk: bool) returns (reply: Reply)
      modifies `failures, `lockedUntil, `challenges
      ensures (Snapshot(), reply) == Account.Login(env, old(Snapshot()), passwordOk)
    {
      if lockedUntil.Some? && lockedUntil.value > now {
        return AccountLocked;
      }
      if !passwordOk {
        CountFailure();
        return InvalidCredentials;
      }
      if env.requireVerified && !verified {
        return EmailNotVerified;
      }
      if deleted {
        return InvalidCredentials;
      }
      ResetLoginState();
      if enabled {
        challenges := challenges + {now};
        return MfaRequired;
      }
      return Issued;
    }

    method Validate(code: string) returns (ok: bool)
      ensures ok == Authentic(env, Snapshot(), code)
    {
      if secret.None? {
        return false;
      }
      var text := TotpSecret.Decrypt(env.aead, env.encryptor, secret.value);
      return text.Plain? && env.validate(code, text.text, now);
    }

    method LoginTotp(token: nat, code: string) returns (reply: Reply)
      modifies `failures, `lockedUntil, `codes
      ensures (Snapshot(), reply) == Account.LoginTotp(env, old(Snapshot()), token, code)
    {
      if !(token in challenges && now < token + MFA_TTL + LEEWAY) {
        return InvalidToken;
      }
      if deleted || !enabled || secret.None? {
        return InvalidCredentials;
      }
      if lockedUntil.Some? && lockedUntil.value > now {
        return AccountLocked;
      }
      var ok := Validate(code);
      if !ok {
        ok := ConsumeRecoveryCode(code);
        if !ok {
          CountFailure();
          return InvalidCode;
        }
      }
      ResetLoginState();
      return Issued;
    }

    /** The database takes `stored` of the recovery codes before it fails. */
    method EnrollTotp(plain: TotpSecret.ByteString, nonce: TotpSecret.bytes, hashes: seq<nat>, stored: nat)
      returns (reply: Reply)
      modifies `secret, `enabled, `codes
      ensures (Snapshot(), reply) == Account.EnrollTotp(env, old(Snapshot()), plain, nonce, hashes, stored)
    {
      if enabled {
        return FailedPrecondition;
      }
      secret, enabled := Some(TotpSecret.Encrypt(env.aead, env.encryptor, plain, nonce)), false;
      codes := [];
      for i := 0 to |hashes|
        modifies `codes
        invariant i <= stored && codes == FreshCodes(hashes[..i])
      {
        if i == stored {
          return Internal;
        }
        InsertRecoveryCode(hashes[i]);
      }
      assert hashes[..|hashes|] == hashes && codes == FreshCodes(hashes);
      return Success;
    }

    method ActivateTotp(code: string) returns (reply: Reply)
      modifies `enabled
      ensures (Snapshot(), reply) == Account.ActivateTotp(env, old(Snapshot()), code)
    {
      if secret.None? {
        return FailedPrecondition;
      }
      if !TotpSecret.Decrypt(env.aead, env.encryptor, secret.value).Plain? {
        return Internal;
      }
      var ok := Validate(code);
      if !ok {
        return InvalidCode;
      }
      enabled := true;
      return Success;
    }

    method DisableTotp(code: string) returns (reply: Reply)
      modifies `secret, `enabled, `codes
      ensures (Snapshot(), reply) == Account.DisableTotp(env, old(Snapshot()), code)
    {
      if !enabled {
        return Success;
      }
      var ok := Validate(code);
      if !ok {
        ok := ConsumeRecoveryCode(code);
        if !ok {
          return InvalidCode;
        }
      }
      secret, enabled, codes := None, false, [];
      return Success;
    }
  }
}
