/**
 Revoked access tokens: a durable table and a Redis mirror whose entries live until the token
 expires. Signature checks accept a token for a further 60 s after that. A token is known by
 its `jti`, and `Exp` gives the expiry a token was signed with.
 */
module Denylist {
  import opened Seqs

  const LEEWAY := 60

  type Exp = nat -> nat

  /** `entries` maps a denylisted `jti` to the instant Redis drops it. */
  datatype State = State(now: nat, revoked: set<nat>, entries: map<nat, nat>)

  const START := State(0, {}, map[])

  datatype Event =
    | Tick(duration: nat)
    | Logout(jti: nat, redis: bool)
    | Evict(jti: nat)

  predicate Parses(s: State, exp: Exp, jti: nat) {
    s.now < exp(jti) + LEEWAY
  }

  /** Redis keeps the entry for what is left of the token's life; with nothing left it stores nothing. */
  function Deny(s: State, jti: nat, ttl: int): State {
    if ttl <= 0 then s else s.(entries := s.entries[jti := s.now + ttl])
  }

  /** Logout of a token that no longer parses records nothing. `redis` is whether the mirror was reached. */
  function Apply(s: State, exp: Exp, e: Event): State {
    match e
    case Tick(duration) => s.(now := s.now + duration)
    case Logout(jti, redis) =>
      if !Parses(s, exp, jti) then s
      else
        var t := s.(revoked := s.revoked + {jti});
        if redis then Deny(t, jti, exp(jti) - s.now) else t
    case Evict(jti) => s.(entries := s.entries - {jti})
  }

  function Run(s: State, exp: Exp, events: seq<Event>): State
    decreases |events|
  {
    if events == [] then s else Run(Apply(s, exp, events[0]), exp, events[1..])
  }

  predicate InRedis(s: State, jti: nat) {
    jti in s.entries && s.now < s.entries[jti]
  }

  datatype Verdict = Expired | Revoked | Accepted

  /** `redis` is whether Redis answers; if not, the table is asked. */
  function Check(s: State, exp: Exp, jti: nat, redis: bool): Verdict {
    if !Parses(s, exp, jti) then Expired
    else if (if redis then InRedis(s, jti) else jti in s.revoked) then Revoked
    else Accepted
  }

  // ── The durable denylist ──────────────────────────────────

  lemma {:induction false} RevokedForever(s: State, exp: Exp, events: seq<Event>, jti: nat)
    requires jti in s.revoked
    ensures jti in Run(s, exp, events).revoked
    decreases |events|
  {
    if events != [] {
      RevokedForever(Apply(s, exp, events[0]), exp, events[1..], jti);
    }
  }

  /** Once logged out, a token is never accepted again by a replica that asks the table. */
  lemma LogoutIsDurable(s: State, exp: Exp, jti: nat, redis: bool, events: seq<Event>)
    ensures Check(Run(Apply(s, exp, Logout(jti, redis)), exp, events), exp, jti, false) != Accepted
  {
    if Parses(s, exp, jti) {
      RevokedForever(Apply(s, exp, Logout(jti, redis)), exp, events, jti);
    } else {
      TimeRuns(s, exp, events);
    }
  }

  lemma {:induction false} TimeRuns(s: State, exp: Exp, events: seq<Event>)
    ensures s.now <= Run(s, exp, events).now
    decreases |events|
  {
    if events != [] {
      TimeRuns(Apply(s, exp, events[0]), exp, events[1..]);
    }
  }

  // ── The mirror ────────────────────────────────────────────

  /** Every entry is a revoked token and lasts exactly until the token expires. */
  ghost predicate Sound(s: State, exp: Exp) {
    forall jti | jti in s.entries :: jti in s.revoked && s.entries[jti] == exp(jti)
  }

  /** No revoked token is missing from the mirror before it expires. */
  ghost predicate Complete(s: State, exp: Exp) {
    forall jti | jti in s.revoked && s.now < exp(jti) :: jti in s.entries
  }

  predicate Reliable(e: Event) {
    match e
    case Logout(_, redis) => redis
    case Evict(_) => false
    case Tick(_) => true
  }

  lemma {:induction false} MirrorSound(s: State, exp: Exp, events: seq<Event>)
    requires Sound(s, exp)
    ensures Sound(Run(s, exp, events), exp)
    decreases |events|
  {
    if events != [] {
      MirrorSound(Apply(s, exp, events[0]), exp, events[1..]);
    }
  }

  lemma {:induction false} MirrorComplete(s: State, exp: Exp, events: seq<Event>)
    requires Sound(s, exp) && Complete(s, exp) && forall e | e in events :: Reliable(e)
    ensures Complete(Run(s, exp, events), exp)
    decreases |events|
  {
    if events != [] {
      assert Reliable(events[0]);
      MirrorComplete(Apply(s, exp, events[0]), exp, events[1..]);
    }
  }

  /** Whatever Redis lost or missed, it never refuses a token that the table would let pass. */
  lemma RedisNeverOverrefuses(exp: Exp, events: seq<Event>, jti: nat)
    ensures var s := Run(START, exp, events);
      Check(s, exp, jti, true) == Revoked ==> Check(s, exp, jti, false) == Revoked
  {
    MirrorSound(START, exp, events);
  }

  /**
   While Redis loses nothing, it gives the table's verdict on every token at every time, with
   one exception, exactly: a revoked token in the 60 s of leeway after its expiry, which the
   table refuses and Redis no longer knows.
   */
  lemma VerdictsAgree(exp: Exp, events: seq<Event>, jti: nat)
    requires forall e | e in events :: Reliable(e)
    ensures var s := Run(START, exp, events);
      Check(s, exp, jti, true) == Check(s, exp, jti, false)
      <==> !(jti in s.revoked && exp(jti) <= s.now < exp(jti) + 60)
  {
    MirrorSound(START, exp, events);
    MirrorComplete(START, exp, events);
  }

  /** The exception is reachable: logged out at 0, expired at 10, and still let through by Redis at 10. */
  lemma LeewayGap()
    ensures exists exp: Exp, events: seq<Event> ::
      && (forall e | e in events :: Reliable(e))
      && Check(Run(START, exp, events), exp, 1, true) == Accepted
      && Check(Run(START, exp, events), exp, 1, false) == Revoked
  {
    var exp: Exp := _ => 10;
    var events := [Logout(1, true), Tick(10)];
    var s := Apply(START, exp, events[0]);
    var t := Apply(s, exp, Tick(10));
    assert events[1..] == [Tick(10)] && Run(t, exp, []) == t;
    assert Run(s, exp, [Tick(10)]) == t;
    assert Run(START, exp, events) == t;
    assert Check(t, exp, 1, true) == Accepted && Check(t, exp, 1, false) == Revoked;
  }

  /** A token nobody logged out is accepted, by either store, until 60 s after its expiry and not longer. */
  lemma {:induction false} OthersStayAccepted(exp: Exp, events: seq<Event>, jti: nat, redis: bool)
    requires forall e | e in events && e.Logout? :: e.jti != jti
    ensures var s := Run(START, exp, events);
      Check(s, exp, jti, redis) == if s.now < exp(jti) + 60 then Accepted else Expired
  {
    NeverListed(START, exp, events, jti);
  }

  lemma {:induction false} NeverListed(s: State, exp: Exp, events: seq<Event>, jti: nat)
    requires jti !in s.revoked && jti !in s.entries
    requires forall e | e in events && e.Logout? :: e.jti != jti
    ensures jti !in Run(s, exp, events).revoked && jti !in Run(s, exp, events).entries
    decreases |events|
  {
    if events != [] {
      assert events[0] in events;
      NeverListed(Apply(s, exp, events[0]), exp, events[1..], jti);
    }
  }

  /**
   A logout of a token that still parses is known to the table at once, and to Redis exactly if it
   was reached before the token expired; nothing else is listed or dropped.
   */
  lemma LogoutOutcome(s: State, exp: Exp, jti: nat, redis: bool)
    requires jti !in s.entries && s.now < exp(jti) + 60
    ensures var t := Apply(s, exp, Logout(jti, redis));
      && t.now == s.now && t.revoked == s.revoked + {jti}
      && t.entries == (if redis && s.now < exp(jti) then s.entries[jti := exp(jti)] else s.entries)
      && Check(t, exp, jti, false) == Revoked
      && Check(t, exp, jti, true) == (if redis && s.now < exp(jti) then Revoked else Accepted)
  {
  }

  /** What Redis lost it lets through, while the table still refuses it. */
  lemma LossLetsThrough(s: State, exp: Exp, jti: nat)
    requires jti in s.revoked && s.now < exp(jti) + 60
    ensures var t := Apply(s, exp, Evict(jti));
      && t == s.(entries := t.entries) && t.entries == s.entries - {jti}
      && Check(t, exp, jti, true) == Accepted && Check(t, exp, jti, false) == Revoked
  {
  }

  /** Time passes by what is asked, and a token that no longer parses is not recorded. */
  lemma TimeAndExpired(s: State, exp: Exp, duration: nat, jti: nat, redis: bool)
    ensures Apply(s, exp, Tick(duration)) == s.(now := s.now + duration)
    ensures exp(jti) + 60 <= s.now ==> Apply(s, exp, Logout(jti, redis)) == s && Check(s, exp, jti, redis) == Expired
  {
  }

  // ── Both stores, updated in place ─────────────────────────

  class Stores {
    var now: nat
    var revoked: set<nat>
    var entries: map<nat, nat>

    function Snapshot(): State
      reads this
    {
      State(now, revoked, entries)
    }

    constructor ()
      ensures Snapshot() == START
    {
      now, revoked, entries := 0, {}, map[];
    }

    method SetDenied(jti: nat, ttl: int)
      modifies `entries
      ensures Snapshot() == Deny(old(Snapshot()), jti, ttl)
    {
      if ttl <= 0 {
        return;
      }
      entries := entries[jti := now + ttl];
    }

    method IsDenied(jti: nat, redis: bool) returns (denied: bool, ok: bool)
      ensures ok == redis && denied == (redis && InRedis(Snapshot(), jti))
    {
      if !redis {
        return false, false;
      }
      return jti in entries && now < entries[jti], true;
    }

    method LogoutToken(exp: Exp, jti: nat, redis: bool)
      modifies `revoked, `entries
      ensures Snapshot() == Apply(old(Snapshot()), exp, Logout(jti, redis))
    {
      if now < exp(jti) + LEEWAY {
        revoked := revoked + {jti};
        if redis {
          SetDenied(jti, exp(jti) - now);
        }
      }
    }

    method CheckToken(exp: Exp, jti: nat, redis: bool) returns (verdict: Verdict)
      ensures verdict == Check(Snapshot(), exp, jti, redis)
    {
      if now >= exp(jti) + LEEWAY {
        return Expired;
      }
      var denied, ok := IsDenied(jti, redis);
      if !ok {
        denied := jti in revoked;
      }
      return if denied then Revoked else Accepted;
    }
  }
}
