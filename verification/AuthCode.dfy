/**
 The authorization-code grant, statement by statement, with any number of exchanges in
 progress. Codes are known by their hash. Clients are never removed, and membership stands
 for an active membership of an active tenant.
 */
module AuthCode {
  import opened Seqs
  import Base64
  import Sessions

  const LIFETIME := 300

  datatype Client = Client(secretHash: Option<nat>, confidential: bool, tenant: nat)

  /** No challenge is the empty challenge, as the service reads it. */
  datatype Code = Code(client: nat, user: nat, redirect: string, challenge: string, scheme: string,
                       expires: nat, used: bool)

  datatype Request = Request(hash: nat, client: nat, redirect: string, verifier: string, secret: string)

  /** `sha256` is the digest of a verifier, `hash` that of a client secret. */
  datatype Env = Env(sha256: string -> seq<Base64.byte>, hash: string -> nat)

  /** How far an exchange has come, with the request and the code row it read. */
  datatype Pc =
    | Claiming(req: Request, row: Code)
    | Claimed(req: Request, row: Code)
    | Authenticated(req: Request, row: Code)
    | Known(req: Request, row: Code)
    | Admitted(req: Request, row: Code, tenant: nat)
    | Issued(req: Request, row: Code, session: Sessions.Binding)
    | Rejected(req: Request)

  datatype State = State(now: nat, clients: map<nat, Client>, users: set<nat>, members: set<(nat, nat)>,
                         codes: map<nat, Code>, exchanges: map<nat, Pc>)

  const START := State(0, map[], {}, {}, map[], map[])

  // ── Proof key for code exchange, section 4.6 of RFC 7636 ──

  predicate VerifyPkce(env: Env, challenge: string, scheme: string, verifier: string) {
    if scheme == "S256" then Base64.Encode(Base64.RAW_URL, env.sha256(verifier)) == challenge
    else if scheme == "plain" || scheme == "" then verifier == challenge
    else false
  }

  /**
   The verifier that made an `S256` challenge passes, and any other only if its digest is the
   same; a plain challenge, the default, is its own verifier; no other method passes.
   */
  lemma ChallengeNeedsDigest(env: Env, secret: string, verifier: string)
    ensures VerifyPkce(env, Base64.Encode(Base64.RAW_URL, env.sha256(secret)), "S256", verifier)
            <==> env.sha256(verifier) == env.sha256(secret)
    ensures VerifyPkce(env, secret, "plain", verifier) <==> verifier == secret
    ensures VerifyPkce(env, secret, "", verifier) <==> verifier == secret
    ensures forall scheme | VerifyPkce(env, secret, scheme, verifier) :: scheme in {"S256", "plain", ""}
  {
    if Base64.Encode(Base64.RAW_URL, env.sha256(verifier)) == Base64.Encode(Base64.RAW_URL, env.sha256(secret)) {
      Base64.EncodeInjective(Base64.RAW_URL, env.sha256(verifier), env.sha256(secret));
    }
  }

  // ── Statements ────────────────────────────────────────────

  predicate Matches(s: State, req: Request) {
    && req.hash in s.codes
    && var row := s.codes[req.hash];
       !row.used && s.now <= row.expires && row.client == req.client && row.redirect == req.redirect
  }

  function Begin(s: State, req: Request): Pc {
    if Matches(s, req) then Claiming(req, s.codes[req.hash]) else Rejected(req)
  }

  predicate CanClaim(s: State, hash: nat) {
    hash in s.codes && !s.codes[hash].used
  }

  predicate Proven(env: Env, s: State, req: Request, row: Code) {
    && (row.challenge != "" ==> VerifyPkce(env, row.challenge, row.scheme, req.verifier))
    && row.client in s.clients
    && var client := s.clients[row.client];
       if client.confidential then client.secretHash == Some(env.hash(req.secret)) else row.challenge != ""
  }

  predicate IsMember(s: State, row: Code) {
    row.client in s.clients && (row.user, s.clients[row.client].tenant) in s.members
  }

  function Advanced(env: Env, s: State, pc: Pc): Pc {
    match pc
    case Claiming(req, row) => if CanClaim(s, req.hash) then Claimed(req, row) else Rejected(req)
    case Claimed(req, row) => if Proven(env, s, req, row) then Authenticated(req, row) else Rejected(req)
    case Authenticated(req, row) => if row.user in s.users then Known(req, row) else Rejected(req)
    case Known(req, row) => if IsMember(s, row) then Admitted(req, row, s.clients[row.client].tenant) else Rejected(req)
    case Admitted(req, row, tenant) =>
      if row.user in s.users then Issued(req, row, Sessions.Binding(row.user, tenant, None)) else Rejected(req)
    case _ => pc
  }

  function CodesAfter(s: State, pc: Pc): map<nat, Code> {
    if pc.Claiming? && CanClaim(s, pc.req.hash) then
      s.codes[pc.req.hash := s.codes[pc.req.hash].(used := true)]
    else s.codes
  }

  datatype Step =
    | Advance(duration: nat)
    | AddUser(user: nat)
    | DropUser(user: nat)
    | RegisterClient(id: nat, details: Client)
    | AddMember(user: nat, tenant: nat)
    | RemoveMember(user: nat, tenant: nat)
    | CreateCode(hash: nat, client: nat, user: nat, redirect: string, challenge: string, scheme: string)
    | Start(proc: nat, req: Request)
    | Next(proc: nat)
    | Crash(proc: nat)

  function Apply(env: Env, s: State, step: Step): State {
    match step
    case Advance(duration) => s.(now := s.now + duration)
    case AddUser(user) => s.(users := s.users + {user})
    case DropUser(user) => s.(users := s.users - {user}, members := (set m | m in s.members && m.0 != user))
    case RegisterClient(id, details) => if id in s.clients then s else s.(clients := s.clients[id := details])
    case AddMember(user, tenant) => if user in s.users then s.(members := s.members + {(user, tenant)}) else s
    case RemoveMember(user, tenant) => s.(members := s.members - {(user, tenant)})
    case CreateCode(hash, client, user, redirect, challenge, scheme) =>
      if client !in s.clients || (user, s.clients[client].tenant) !in s.members || hash in s.codes then s
      else s.(codes := s.codes[hash := Code(client, user, redirect, challenge, scheme, s.now + LIFETIME, false)])
    case Start(proc, req) =>
      if proc in s.exchanges then s else s.(exchanges := s.exchanges[proc := Begin(s, req)])
    case Next(proc) =>
      if proc !in s.exchanges then s
      else s.(codes := CodesAfter(s, s.exchanges[proc]),
              exchanges := s.exchanges[proc := Advanced(env, s, s.exchanges[proc])])
    case Crash(proc) =>
      if proc !in s.exchanges || s.exchanges[proc].Issued? then s
      else s.(exchanges := s.exchanges[proc := Rejected(s.exchanges[proc].req)])
  }

  function Exec(env: Env, s: State, steps: seq<Step>): State
    decreases |steps|
  {
    if steps == [] then s else Exec(env, Apply(env, s, steps[0]), steps[1..])
  }

  lemma {:induction false} ExecLast(env: Env, s: State, steps: seq<Step>)
    requires steps != []
    ensures Exec(env, s, steps) == Apply(env, Exec(env, s, steps[..|steps| - 1]), steps[|steps| - 1])
    decreases |steps|
  {
    if |steps| > 1 {
      var rest := steps[1..];
      ExecLast(env, Apply(env, s, steps[0]), rest);
      assert rest[..|rest| - 1] == steps[..|steps| - 1][1..];
    }
  }

  // ── Single use ────────────────────────────────────────────

  /** The exchange has claimed its code and may still win, or has won. */
  predicate Holds(pc: Pc) {
    !pc.Claiming? && !pc.Rejected?
  }

  predicate HoldsCode(s: State, proc: nat, hash: nat) {
    proc in s.exchanges && Holds(s.exchanges[proc]) && s.exchanges[proc].req.hash == hash
  }

  ghost predicate Inv(s: State) {
    && (forall p, h | HoldsCode(s, p, h) :: h in s.codes && s.codes[h].used)
    && (forall p, q, h | HoldsCode(s, p, h) && HoldsCode(s, q, h) :: p == q)
  }

  lemma StepKeepsInv(env: Env, s: State, step: Step)
    requires Inv(s)
    ensures Inv(Apply(env, s, step))
    ensures forall h | h in s.codes :: h in Apply(env, s, step).codes
    ensures forall h | h in s.codes && s.codes[h].used :: Apply(env, s, step).codes[h].used
    ensures forall p, h | HoldsCode(Apply(env, s, step), p, h) :: HoldsCode(s, p, h) || CanClaim(s, h)
  {
    hide VerifyPkce;
    var t := Apply(env, s, step);
    forall p, h | HoldsCode(t, p, h)
      ensures HoldsCode(s, p, h) || (CanClaim(s, h) && step == Next(p))
      ensures h in t.codes && t.codes[h].used
    {
      assert HoldsCode(s, p, h) || CanClaim(s, h);
    }
  }

  lemma {:induction false} RunKeepsInv(env: Env, s: State, steps: seq<Step>)
    requires Inv(s)
    ensures Inv(Exec(env, s, steps))
    decreases |steps|
  {
    if steps != [] {
      StepKeepsInv(env, s, steps[0]);
      RunKeepsInv(env, Apply(env, s, steps[0]), steps[1..]);
    }
  }

  /** In every interleaving at most one exchange of a code obtains tokens. */
  lemma AtMostOneWins(env: Env, steps: seq<Step>, p: nat, q: nat)
    requires var s := Exec(env, START, steps);
      && p in s.exchanges && s.exchanges[p].Issued? && q in s.exchanges && s.exchanges[q].Issued?
      && s.exchanges[p].req.hash == s.exchanges[q].req.hash
    ensures p == q
  {
    RunKeepsInv(env, START, steps);
    var s := Exec(env, START, steps);
    assert HoldsCode(s, p, s.exchanges[p].req.hash) && HoldsCode(s, q, s.exchanges[p].req.hash);
  }

  /** A code that was claimed, and whose claimant failed, never yields tokens to anyone. */
  lemma {:induction false} SpentIsSpent(env: Env, s: State, steps: seq<Step>, hash: nat)
    requires Inv(s) && hash in s.codes && s.codes[hash].used
    requires forall p :: !HoldsCode(s, p, hash)
    ensures forall p :: !HoldsCode(Exec(env, s, steps), p, hash)
    decreases |steps|
  {
    if steps != [] {
      StepKeepsInv(env, s, steps[0]);
      SpentIsSpent(env, Apply(env, s, steps[0]), steps[1..], hash);
    }
  }

  /** A wrong verifier spends the code: the exchange is rejected, and so is every later one. */
  lemma WrongVerifierSpendsCode(env: Env, s: State, proc: nat, steps: seq<Step>)
    requires Inv(s) && proc in s.exchanges && s.exchanges[proc].Claimed?
    requires var row := s.exchanges[proc].row;
      row.challenge != "" && !VerifyPkce(env, row.challenge, row.scheme, s.exchanges[proc].req.verifier)
    ensures var t := Exec(env, Apply(env, s, Next(proc)), steps);
      forall p | p in t.exchanges && t.exchanges[p].Issued? :: t.exchanges[p].req.hash != s.exchanges[proc].req.hash
  {
    hide VerifyPkce;
    var hash := s.exchanges[proc].req.hash;
    assert HoldsCode(s, proc, hash);
    var t := Apply(env, s, Next(proc));
    StepKeepsInv(env, s, Next(proc));
    assert forall p :: !HoldsCode(t, p, hash) by {
      forall p ensures !HoldsCode(t, p, hash) {
        assert p != proc ==> (HoldsCode(t, p, hash) ==> HoldsCode(s, p, hash));
      }
    }
    SpentIsSpent(env, t, steps, hash);
    var u := Exec(env, t, steps);
    forall p | p in u.exchanges && u.exchanges[p].Issued? ensures u.exchanges[p].req.hash != hash {
      assert !HoldsCode(u, p, hash);
    }
  }

  // ── What the winner passed ────────────────────────────────

  function After(env: Env, steps: seq<Step>, n: nat): State
    requires n <= |steps|
  {
    Exec(env, START, steps[..n])
  }

  lemma AfterNext(env: Env, steps: seq<Step>, n: nat)
    requires n < |steps|
    ensures After(env, steps, n + 1) == Apply(env, After(env, steps, n), steps[n])
  {
    ExecLast(env, START, steps[..n + 1]);
    assert steps[..n + 1][..n] == steps[..n];
  }

  predicate InExchange(s: State, proc: nat, pc: Pc) {
    proc in s.exchanges && s.exchanges[proc] == pc
  }

  /** Step `i` is what brought the exchange to `pc`. */
  predicate EntersAt(env: Env, steps: seq<Step>, i: nat, proc: nat, pc: Pc)
    requires i < |steps|
  {
    !InExchange(After(env, steps, i), proc, pc) && InExchange(Apply(env, After(env, steps, i), steps[i]), proc, pc)
  }

  lemma {:induction false} Entered(env: Env, steps: seq<Step>, n: nat, proc: nat, pc: Pc) returns (i: nat)
    requires n <= |steps| && InExchange(After(env, steps, n), proc, pc)
    ensures i < n && EntersAt(env, steps, i, proc, pc)
    decreases n
  {
    assert n > 0;
    AfterNext(env, steps, n - 1);
    if InExchange(After(env, steps, n - 1), proc, pc) {
      i := Entered(env, steps, n - 1, proc, pc);
    } else {
      i := n - 1;
    }
  }

  /** An exchange that holds its code came there from the stage before, which let it pass. */
  lemma CameFrom(env: Env, s: State, step: Step, proc: nat, pc: Pc) returns (before: Pc)
    requires !InExchange(s, proc, pc) && InExchange(Apply(env, s, step), proc, pc) && Holds(pc)
    ensures InExchange(s, proc, before) && Advanced(env, s, before) == pc && before.req == pc.req
    ensures before != pc && step == Next(proc) && !before.Rejected? && before.row == pc.row
  {
    before := s.exchanges[proc];
  }

  predicate ReadAt(s: State, req: Request, row: Code) {
    && req.hash in s.codes && s.codes[req.hash] == row
    && !row.used && s.now <= row.expires
    && row.client == req.client && row.redirect == req.redirect
  }

  /**
   The verifier fits the stored challenge, and a confidential client showed its secret; a public
   one must use a challenge.
   */
  predicate AuthenticatedAt(env: Env, s: State, req: Request, row: Code) {
    && row.client in s.clients
    && (row.challenge == "" || VerifyPkce(env, row.challenge, row.scheme, req.verifier))
    && (s.clients[row.client].confidential || row.challenge != "")
    && (s.clients[row.client].confidential ==> s.clients[row.client].secretHash == Some(env.hash(req.secret)))
  }

  /** The code was unspent, and the step spends it. */
  predicate ClaimedAt(env: Env, s: State, step: Step, hash: nat) {
    var t := Apply(env, s, step);
    hash in s.codes && !s.codes[hash].used && hash in t.codes && t.codes[hash].used
  }

  /**
   Whoever obtains tokens, in any interleaving: when the exchange started the code was unspent,
   unexpired and matched the client and redirect URI; later the exchange itself spent it; later it
   proved possession of the verifier if a challenge was stored and authenticated the client;
   later still the user existed, then was an active member of the client's tenant, to which the
   session is bound, and still existed when it was issued.
   */
  lemma WinnerPassedEveryCheck(env: Env, steps: seq<Step>, proc: nat, pc: Pc)
    returns (a: nat, b: nat, c: nat, f: nat, d: nat, e: nat)
    requires InExchange(Exec(env, START, steps), proc, pc) && pc.Issued?
    ensures a < b < c < f < d < e < |steps|
    ensures ReadAt(After(env, steps, a), pc.req, pc.row)
    ensures steps[a] == Start(proc, pc.req)
    ensures steps[b] == steps[c] == steps[f] == steps[d] == steps[e] == Next(proc)
    ensures pc.row.user in After(env, steps, f).users && pc.row.user in After(env, steps, e).users
    ensures ClaimedAt(env, After(env, steps, b), steps[b], pc.req.hash)
    ensures AuthenticatedAt(env, After(env, steps, c), pc.req, pc.row)
    ensures var s := After(env, steps, d);
      && IsMember(s, pc.row)
      && pc.session == Sessions.Binding(pc.row.user, s.clients[pc.row.client].tenant, None)
  {
    assert steps[..|steps|] == steps;
    e := Entered(env, steps, |steps|, proc, pc);
    var admitted := CameFrom(env, After(env, steps, e), steps[e], proc, pc);
    d := Entered(env, steps, e, proc, admitted);
    var known := CameFrom(env, After(env, steps, d), steps[d], proc, admitted);
    f := Entered(env, steps, d, proc, known);
    var authenticated := CameFrom(env, After(env, steps, f), steps[f], proc, known);
    c := Entered(env, steps, f, proc, authenticated);
    var claimed := CameFrom(env, After(env, steps, c), steps[c], proc, authenticated);
    b := Entered(env, steps, c, proc, claimed);
    var claiming := CameFrom(env, After(env, steps, b), steps[b], proc, claimed);
    a := Entered(env, steps, b, proc, claiming);
    StartedThere(env, After(env, steps, a), steps[a], proc, claiming);
    ClaimSpends(env, After(env, steps, b), proc, claiming);
  }

  lemma StartedThere(env: Env, s: State, step: Step, proc: nat, pc: Pc)
    requires !InExchange(s, proc, pc) && InExchange(Apply(env, s, step), proc, pc) && pc.Claiming?
    ensures ReadAt(s, pc.req, pc.row) && step == Start(proc, pc.req)
  {
  }

  lemma ClaimSpends(env: Env, s: State, proc: nat, pc: Pc)
    requires InExchange(s, proc, pc) && pc.Claiming? && Advanced(env, s, pc).Claimed?
    ensures ClaimedAt(env, s, Next(proc), pc.req.hash)
  {
  }

  /** The row is what the step creates, spent or not: for an active member of the client's tenant, for five minutes. */
  predicate IssuedAt(s: State, step: Step, hash: nat, row: Code) {
    && step.CreateCode? && step.hash == hash && hash !in s.codes
    && step.client in s.clients && (step.user, s.clients[step.client].tenant) in s.members
    && row == Code(step.client, step.user, step.redirect, step.challenge, step.scheme, s.now + LIFETIME, row.used)
  }

  lemma CodeAfter(env: Env, s: State, step: Step, hash: nat)
    requires hash in Apply(env, s, step).codes
    ensures var row := Apply(env, s, step).codes[hash];
      IssuedAt(s, step, hash, row) || (hash in s.codes && row == s.codes[hash].(used := row.used))
  {
  }

  /** Every code row goes back to one issuing step, which gated it on membership. */
  lemma {:induction false} CodesWereIssued(env: Env, steps: seq<Step>, n: nat, hash: nat) returns (i: nat)
    requires n <= |steps| && hash in After(env, steps, n).codes
    ensures i < n && IssuedAt(After(env, steps, i), steps[i], hash, After(env, steps, n).codes[hash])
    decreases n
  {
    assert n > 0;
    AfterNext(env, steps, n - 1);
    CodeAfter(env, After(env, steps, n - 1), steps[n - 1], hash);
    var row := After(env, steps, n).codes[hash];
    hide After;
    if IssuedAt(After(env, steps, n - 1), steps[n - 1], hash, row) {
      i := n - 1;
    } else {
      i := CodesWereIssued(env, steps, n - 1, hash);
    }
  }

  // ── An exchange that is not interrupted ───────────────────

  function Spend(s: State, hash: nat): State
    requires hash in s.codes
  {
    s.(codes := s.codes[hash := s.codes[hash].(used := true)])
  }

  predicate Deserves(env: Env, s: State, req: Request) {
    Matches(s, req)
    && var row := s.codes[req.hash];
       Proven(env, s, req, row) && row.user in s.users && IsMember(s, row)
  }

  function SessionOf(s: State, row: Code): Sessions.Binding
    requires row.client in s.clients
  {
    Sessions.Binding(row.user, s.clients[row.client].tenant, None)
  }

  function Nexts(proc: nat, k: nat): seq<Step> {
    if k == 0 then [] else [Next(proc)] + Nexts(proc, k - 1)
  }

  /** Where `k` further statements take an exchange, once it has claimed its code or failed. */
  function Continued(env: Env, s: State, pc: Pc, k: nat): Pc
    decreases k
  {
    if k == 0 then pc else Continued(env, s, Advanced(env, s, pc), k - 1)
  }

  /** The exchange is now at `pc`. */
  function Put(s: State, proc: nat, pc: Pc): State {
    s.(exchanges := s.exchanges[proc := pc])
  }

  lemma {:induction false} Continues(env: Env, s: State, proc: nat, pc: Pc, k: nat)
    requires !pc.Claiming?
    ensures Exec(env, Put(s, proc, pc), Nexts(proc, k)) == Put(s, proc, Continued(env, s, pc, k))
    decreases k
  {
    if k > 0 {
      var next := Advanced(env, s, pc);
      assert Advanced(env, Put(s, proc, pc), pc) == next;
      assert s.exchanges[proc := pc][proc := next] == s.exchanges[proc := next];
      assert Nexts(proc, k)[1..] == Nexts(proc, k - 1);
      assert !next.Claiming?;
      Continues(env, s, proc, next, k - 1);
    }
  }

  lemma FourMore(env: Env, s: State, req: Request, row: Code)
    ensures Continued(env, s, Claimed(req, row), 4) ==
      if Proven(env, s, req, row) && row.user in s.users && IsMember(s, row)
      then Issued(req, row, SessionOf(s, row)) else Rejected(req)
  {
    var r := Rejected(req);
    assert Continued(env, s, r, 3) == Continued(env, s, r, 2) == Continued(env, s, r, 1) == r;
    hide Proven, IsMember;
    if Proven(env, s, req, row) {
      var known := Advanced(env, s, Authenticated(req, row));
      assert Continued(env, s, Claimed(req, row), 4) == Continued(env, s, known, 2);
      if row.user in s.users {
        assert Continued(env, s, known, 2) == Continued(env, s, Advanced(env, s, known), 1);
      } else {
        assert known == r;
      }
    }
  }

  /** A request is granted exactly if it passes every check that a winner passed, and no other. */
  lemma DeservesMeans(env: Env, s: State, req: Request)
    ensures Deserves(env, s, req) <==> req.hash in s.codes && var row := s.codes[req.hash];
      && ReadAt(s, req, row) && AuthenticatedAt(env, s, req, row)
      && row.user in s.users && (row.user, s.clients[row.client].tenant) in s.members
    ensures Matches(s, req) <==> req.hash in s.codes && ReadAt(s, req, s.codes[req.hash])
  {
    hide VerifyPkce;
  }

  /**
   An exchange with nothing in between its statements spends the code exactly when the request
   matched it, and yields the session exactly when client and verifier are proven as well and
   the user is a member of the client's tenant.
   */
  lemma ExchangeOutcome(env: Env, s: State, proc: nat, req: Request)
    requires proc !in s.exchanges
    ensures var t := Exec(env, s, [Start(proc, req)] + Nexts(proc, 5));
      if req.hash !in s.codes || !ReadAt(s, req, s.codes[req.hash]) then t == Put(s, proc, Rejected(req))
      else
        var row := s.codes[req.hash];
        && t.codes == s.codes[req.hash := row.(used := true)]
        && t == Put(s.(codes := t.codes), proc,
             if AuthenticatedAt(env, s, req, row) && row.user in s.users
                && (row.user, s.clients[row.client].tenant) in s.members
             then Issued(req, row, Sessions.Binding(row.user, s.clients[row.client].tenant, None))
             else Rejected(req))
  {
    hide VerifyPkce, Proven, IsMember, AuthenticatedAt, ReadAt, Matches, Deserves, Exec;
    DeservesMeans(env, s, req);
    DeservesUnfolds(env, s, req);
    ExchangeIsDeserved(env, s, proc, req);
  }

  lemma DeservesUnfolds(env: Env, s: State, req: Request)
    ensures Deserves(env, s, req) ==> Matches(s, req) && s.codes[req.hash].client in s.clients
    ensures Matches(s, req) ==> req.hash in s.codes
  {
  }

  lemma ExchangeIsDeserved(env: Env, s: State, proc: nat, req: Request)
    requires proc !in s.exchanges
    ensures Exec(env, s, [Start(proc, req)] + Nexts(proc, 5)) ==
      Put(if Matches(s, req) then Spend(s, req.hash) else s, proc,
          if Deserves(env, s, req) then Issued(req, s.codes[req.hash], SessionOf(s, s.codes[req.hash]))
          else Rejected(req))
  {
    var steps := [Start(proc, req)] + Nexts(proc, 5);
    assert steps[1..] == Nexts(proc, 5);
    if Matches(s, req) {
      var row, t := s.codes[req.hash], Spend(s, req.hash);
      var begun := Put(s, proc, Claiming(req, row));
      assert Apply(env, s, Start(proc, req)) == begun;
      assert s.exchanges[proc := Claiming(req, row)][proc := Claimed(req, row)]
          == s.exchanges[proc := Claimed(req, row)];
      assert Apply(env, begun, Next(proc)) == Put(t, proc, Claimed(req, row));
      assert Nexts(proc, 5)[1..] == Nexts(proc, 4);
      Continues(env, t, proc, Claimed(req, row), 4);
      FourMore(env, t, req, row);
    } else {
      Continues(env, s, proc, Rejected(req), 5);
      RejectedStays(env, s, req, 5);
    }
  }

  lemma {:induction false} RejectedStays(env: Env, s: State, req: Request, k: nat)
    ensures Continued(env, s, Rejected(req), k) == Rejected(req)
  {
    if k > 0 {
      RejectedStays(env, s, req, k - 1);
    }
  }

  // ── Codes and members ─────────────────────────────────────

  /** A right request for a code issued `age` seconds ago. */
  predicate RightRequest(env: Env, s: State, code: Step, req: Request)
    requires code.CreateCode? && code.client in s.clients
  {
    && req.hash == code.hash && req.client == code.client && req.redirect == code.redirect
    && (code.challenge == "" || VerifyPkce(env, code.challenge, code.scheme, req.verifier))
    && (if s.clients[code.client].confidential then s.clients[code.client].secretHash == Some(env.hash(req.secret))
        else code.challenge != "")
  }

  /**
   An active member of a client's tenant is given a code, and a right request gets its session
   for five minutes from then and not after.
   */
  lemma CodeLivesFiveMinutes(env: Env, s: State, code: Step, age: nat, req: Request)
    requires code.CreateCode? && code.client in s.clients && code.hash !in s.codes && code.user in s.users
    requires (code.user, s.clients[code.client].tenant) in s.members && RightRequest(env, s, code, req)
    ensures var t := Apply(env, Apply(env, s, code), Advance(age));
      && t == s.(now := s.now + age, codes := t.codes)
      && code.hash in t.codes && t.codes == s.codes[code.hash := t.codes[code.hash]]
      && (Deserves(env, t, req) <==> age <= 300)
      && (age <= 300 ==> SessionOf(t, t.codes[code.hash])
                         == Sessions.Binding(code.user, s.clients[code.client].tenant, None))
  {
    hide VerifyPkce;
  }

  /** A code is given to no one but an active member of the client's tenant, and never in another's place. */
  lemma CodeRefused(env: Env, s: State, code: Step)
    requires code.CreateCode?
    requires code.hash in s.codes || code.client !in s.clients
      || (code.user, s.clients[code.client].tenant) !in s.members
    ensures Apply(env, s, code) == s
  {
  }

  /** Someone who left the tenant, or was deleted, gets no session for a code issued before. */
  lemma LeaverGetsNothing(env: Env, s: State, req: Request)
    requires req.hash in s.codes && s.codes[req.hash].client in s.clients
    ensures var row := s.codes[req.hash];
      && !Deserves(env, Apply(env, s, RemoveMember(row.user, s.clients[row.client].tenant)), req)
      && !Deserves(env, Apply(env, s, DropUser(row.user)), req)
  {
    hide Proven;
  }

  /** Which steps change what; a crash rejects the exchange and touches nothing else. */
  lemma OnlyItsState(env: Env, s: State, step: Step, proc: nat)
    ensures var t := Apply(env, s, step);
      && t.now == (if step.Advance? then s.now + step.duration else s.now)
      && t.clients == (if step.RegisterClient? && step.id !in s.clients then s.clients[step.id := step.details]
                       else s.clients)
      && t.users == (if step.AddUser? then s.users + {step.user}
                     else if step.DropUser? then s.users - {step.user} else s.users)
      && (forall u: nat, tenant: nat :: (u, tenant) in t.members <==>
            if step == AddMember(u, tenant) && u in s.users then true
            else if step == RemoveMember(u, tenant) || step == DropUser(u) then false
            else (u, tenant) in s.members)
      && (t.codes != s.codes ==> step.CreateCode? || step.Next?)
      && (step == Crash(proc) && proc in s.exchanges && !s.exchanges[proc].Issued? ==>
            InExchange(t, proc, Rejected(s.exchanges[proc].req)))
      && (proc in s.exchanges && !InExchange(t, proc, s.exchanges[proc]) ==>
            step == Next(proc) || (step == Crash(proc) && !s.exchanges[proc].Issued?))
      && (proc !in s.exchanges && proc in t.exchanges ==> step.Start? && step.proc == proc)
  {
    hide VerifyPkce;
  }

  /** A crash after the claim spends the code for good. */
  lemma CrashSpendsCode(env: Env, s: State, proc: nat, steps: seq<Step>)
    requires Inv(s) && proc in s.exchanges && !s.exchanges[proc].Issued? && Holds(s.exchanges[proc])
    ensures var hash := s.exchanges[proc].req.hash; var t := Exec(env, Apply(env, s, Crash(proc)), steps);
      forall p | p in t.exchanges && t.exchanges[p].Issued? :: t.exchanges[p].req.hash != hash
  {
    var hash := s.exchanges[proc].req.hash;
    assert HoldsCode(s, proc, hash);
    var t := Apply(env, s, Crash(proc));
    StepKeepsInv(env, s, Crash(proc));
    forall p ensures !HoldsCode(t, p, hash) {
      assert p != proc ==> (HoldsCode(t, p, hash) ==> HoldsCode(s, p, hash));
    }
    SpentIsSpent(env, t, steps, hash);
    var u := Exec(env, t, steps);
    forall p | p in u.exchanges && u.exchanges[p].Issued? ensures u.exchanges[p].req.hash != hash {
      assert !HoldsCode(u, p, hash);
    }
  }

  /** What the next statement of an exchange asks for, stage by stage, and nothing more. */
  predicate Passes(env: Env, s: State, pc: Pc) {
    match pc
    case Claiming(req, _) => req.hash in s.codes && !s.codes[req.hash].used
    case Claimed(req, row) => AuthenticatedAt(env, s, req, row)
    case Authenticated(_, row) => row.user in s.users
    case Known(_, row) => row.client in s.clients && (row.user, s.clients[row.client].tenant) in s.members
    case Admitted(_, row, _) => row.user in s.users
    case _ => false
  }

  /** In any interleaving an exchange in progress is rejected exactly if the check of its stage fails. */
  lemma NothingElseRejects(env: Env, s: State, proc: nat)
    requires proc in s.exchanges && !s.exchanges[proc].Rejected? && !s.exchanges[proc].Issued?
    ensures var pc, next := s.exchanges[proc], Apply(env, s, Next(proc)).exchanges[proc];
      && next.req == pc.req && (next.Rejected? <==> !Passes(env, s, pc)) && (!next.Rejected? ==> next.row == pc.row)
  {
    hide VerifyPkce;
  }

  // ── The tables, updated in place ──────────────────────────

  class Provider {
    const env: Env
    var now: nat
    var clients: map<nat, Client>
    var users: set<nat>
    var members: set<(nat, nat)>
    var codes: map<nat, Code>

    function Snapshot(): State
      reads this
    {
      State(now, clients, users, members, codes, map[])
    }

    constructor (env: Env)
      ensures this.env == env && Snapshot() == START
    {
      this.env := env;
      now, clients, users, members, codes := 0, map[], {}, {}, map[];
    }

    method CreateAuthorizationCode(hash: nat, client: nat, user: nat, redirect: string,
                                   challenge: string, scheme: string)
      returns (ok: bool)
      modifies `codes
      ensures Snapshot() == Apply(env, old(Snapshot()), CreateCode(hash, client, user, redirect, challenge, scheme))
      ensures ok <==> client in clients && (user, clients[client].tenant) in members && hash !in old(codes)
    {
      if client !in clients || (user, clients[client].tenant) !in members || hash in codes {
        return false;
      }
      codes := codes[hash := Code(client, user, redirect, challenge, scheme, now + LIFETIME, false)];
      return true;
    }

    /** The guarded update, and how many rows it changed. */
    method ClaimCode(hash: nat) returns (rows: nat)
      modifies `codes
      ensures rows == if CanClaim(old(Snapshot()), hash) then 1 else 0
      ensures Snapshot() == if rows == 1 then Spend(old(Snapshot()), hash) else old(Snapshot())
    {
      if hash !in codes || codes[hash].used {
        return 0;
      }
      codes := codes[hash := codes[hash].(used := true)];
      return 1;
    }

    method ExchangeAuthorizationCode(req: Request) returns (session: Option<Sessions.Binding>)
      modifies `codes
      ensures session == if Deserves(env, old(Snapshot()), req)
                         then Some(SessionOf(old(Snapshot()), old(codes)[req.hash])) else None
      ensures Snapshot() == if Matches(old(Snapshot()), req) then Spend(old(Snapshot()), req.hash) else old(Snapshot())
    {
      if req.hash !in codes {
        return None;
      }
      var row := codes[req.hash];
      if row.used || row.expires < now || row.client != req.client || row.redirect != req.redirect {
        return None;
      }
      var rows := ClaimCode(req.hash);
      if rows != 1 {
        return None;
      }
      var hasPkce := row.challenge != "";
      if hasPkce && !VerifyPkce(env, row.challenge, row.scheme, req.verifier) {
        return None;
      }
      if row.client !in clients {
        return None;
      }
      var client := clients[row.client];
      if client.confidential {
        if client.secretHash != Some(env.hash(req.secret)) {
          return None;
        }
      } else if !hasPkce {
        return None;
      }
      if row.user !in users {
        return None;
      }
      if (row.user, client.tenant) !in members {
        return None;
      }
      return Some(Sessions.Binding(row.user, client.tenant, None));
    }
  }
}
