/**
 The life of an identity and the events that announce it. Register, delete and restore are
 transactions that write the users table and one outbox row; they run one at a time, the
 clock moves between them, and any statement of one may fail. The users a deployment seeds
 at start-up are created without an event.
 */
module Lifecycle {
  import opened Seqs
  import opened Outbox
  import opened OutboxTheorems

  datatype User = User(email: string, deleted: bool)

  /**
   `holders` have the default role, where its template exists, `members` belong to the default
   tenant, and `live` hold a refresh token that is not revoked. `seeded` are the users in the
   table that were created without an event; it is history, not a column.
   */
  datatype Db = Db(clock: nat, users: map<nat, User>, template: bool,
                   holders: set<nat>, members: set<nat>, live: set<nat>,
                   outbox: seq<Row>, seeded: set<nat>)

  function Empty(template: bool): Db {
    Db(0, map[], template, {}, {}, {}, [], {})
  }

  // ── Transactions ──────────────────────────────────────────

  datatype Stmt =
    | CreateUser(user: nat, email: string)
    | AssignDefaultRole(user: nat)
    | JoinDefaultTenant(user: nat)
    | RevokeTokens(user: nat)
    | HardDelete(user: nat)
    | SoftDelete(user: nat)
    | Undelete(user: nat)
    | InsertOutbox(event: Event)

  predicate EmailTaken(users: map<nat, User>, email: string) {
    exists u | u in users :: users[u].email == email
  }

  /** One statement on the transaction's view of the tables, or nothing if it violates a constraint. */
  function Execute(db: Db, stmt: Stmt): Option<Db> {
    match stmt
    case CreateUser(user, email) =>
      if user in db.users || EmailTaken(db.users, email) then None
      else Some(db.(users := db.users[user := User(email, false)]))
    case AssignDefaultRole(user) => Some(if db.template then db.(holders := db.holders + {user}) else db)
    case JoinDefaultTenant(user) => Some(db.(members := db.members + {user}))
    case RevokeTokens(user) => Some(db.(live := db.live - {user}))
    case HardDelete(user) =>
      Some(db.(users := db.users - {user}, holders := db.holders - {user}, members := db.members - {user},
               live := db.live - {user}, seeded := db.seeded - {user}))
    case SoftDelete(user) =>
      Some(if user in db.users then db.(users := db.users[user := db.users[user].(deleted := true)]) else db)
    case Undelete(user) =>
      Some(if user in db.users then db.(users := db.users[user := db.users[user].(deleted := false)]) else db)
    case InsertOutbox(event) => Some(db.(outbox := db.outbox + [Row(|db.outbox|, db.clock, event)]))
  }

  function ExecuteAll(db: Db, stmts: seq<Stmt>): Option<Db>
    decreases |stmts|
  {
    if stmts == [] then Some(db)
    else
      var next := Execute(db, stmts[0]);
      if next.None? then None else ExecuteAll(next.value, stmts[1..])
  }

  lemma Unroll(db: Db, stmt: Stmt, rest: seq<Stmt>)
    ensures var first := Execute(db, stmt);
      ExecuteAll(db, [stmt] + rest) == if first.None? then None else ExecuteAll(first.value, rest)
  {
    assert ([stmt] + rest)[1..] == rest;
  }

  lemma TwoStatements(db: Db, a: Stmt, b: Stmt)
    ensures var first := Execute(db, a);
      ExecuteAll(db, [a, b]) == if first.None? then None else Execute(first.value, b)
  {
    Unroll(db, a, [b]);
    assert [a] + [b] == [a, b] && [b] + [] == [b];
    if Execute(db, a).Some? {
      Unroll(Execute(db, a).value, b, []);
    }
  }

  lemma ThreeStatements(db: Db, a: Stmt, b: Stmt, c: Stmt)
    ensures var first := Execute(db, a);
      ExecuteAll(db, [a, b, c]) == if first.None? then None else ExecuteAll(first.value, [b, c])
  {
    Unroll(db, a, [b, c]);
    assert [a] + [b, c] == [a, b, c];
  }

  lemma FourStatements(db: Db, a: Stmt, b: Stmt, c: Stmt, d: Stmt)
    ensures var first := Execute(db, a);
      ExecuteAll(db, [a, b, c, d]) == if first.None? then None else ExecuteAll(first.value, [b, c, d])
  {
    Unroll(db, a, [b, c, d]);
    assert [a] + [b, c, d] == [a, b, c, d];
  }

  /** Commits if every statement succeeds and none of the first `survives` is cut off; otherwise rolls back. */
  function Transaction(db: Db, stmts: seq<Stmt>, survives: nat): Db {
    var draft := ExecuteAll(db, stmts);
    if draft.None? || survives <= |stmts| then db else draft.value
  }

  // ── Handlers ──────────────────────────────────────────────

  datatype Request =
    | Register(user: nat, email: string, password: string)
    | Delete(user: nat, hard: bool)
    | Restore(user: nat)
    | Seed(user: nat, email: string)
    | SignIn(user: nat)

  /** The requests that run a transaction and announce it. */
  predicate Announced(req: Request) {
    !req.Seed? && !req.SignIn?
  }

  function Body(req: Request): seq<Stmt>
    requires Announced(req)
  {
    match req
    case Register(user, email, _) =>
      [CreateUser(user, email), AssignDefaultRole(user), JoinDefaultTenant(user), InsertOutbox(Registered(user))]
    case Delete(user, true) => [HardDelete(user), InsertOutbox(Deleted(user, true))]
    case Delete(user, false) => [SoftDelete(user), RevokeTokens(user), InsertOutbox(Deleted(user, false))]
    case Restore(user) => [Undelete(user), InsertOutbox(Restored(user))]
  }

  /** The request fails after `survives` statements, the commit being the last; a larger number is no failure. */
  datatype Call = Call(req: Request, survives: nat)

  function Do(db: Db, call: Call): Db {
    var ticked := db.(clock := db.clock + 1);
    match call.req
    case Seed(user, email) =>
      if user in db.users || EmailTaken(db.users, email) then ticked
      else ticked.(users := db.users[user := User(email, false)], seeded := db.seeded + {user})
    case SignIn(user) => if user in db.users then ticked.(live := db.live + {user}) else ticked
    case Register(_, email, password) =>
      if email == "" || password == "" then ticked else Transaction(ticked, Body(call.req), call.survives)
    case _ => Transaction(ticked, Body(call.req), call.survives)
  }

  function Run(db: Db, calls: seq<Call>): Db {
    if calls == [] then db else Do(Run(db, calls[..|calls| - 1]), calls[|calls| - 1])
  }

  // ── Exactly one event per committed transaction ───────────

  function EventOf(req: Request): Event
    requires Announced(req)
  {
    match req
    case Register(user, _, _) => Registered(user)
    case Delete(user, hard) => Deleted(user, hard)
    case Restore(user) => Restored(user)
  }

  predicate Succeeds(db: Db, call: Call) {
    match call.req
    case Register(user, email, password) =>
      email != "" && password != "" && user !in db.users && !EmailTaken(db.users, email) && call.survives > 4
    case Delete(_, hard) => call.survives > if hard then 2 else 3
    case Restore(_) => call.survives > 2
    case _ => false
  }

  datatype Status = Gone | Active | SoftDeleted

  function StatusIn(db: Db, user: nat): Status {
    if user !in db.users then Gone else if db.users[user].deleted then SoftDeleted else Active
  }

  function StatusAfter(before: Status, req: Request): Status {
    match req
    case Register(_, _, _) => Active
    case Delete(_, hard) => if hard || before == Gone then Gone else SoftDeleted
    case Restore(_) => if before == Gone then Gone else Active
    case _ => before
  }

  /** What else a transaction does to its user: the default role, the membership and the sessions. */
  predicate AlsoDone(db: Db, t: Db, req: Request)
    requires Announced(req)
  {
    var u := req.user;
    match req
    case Register(_, _, _) =>
      && t.holders == (if db.template then db.holders + {u} else db.holders)
      && t.members == db.members + {u} && t.live == db.live
    case Delete(_, true) => t.holders == db.holders - {u} && t.members == db.members - {u} && t.live == db.live - {u}
    case Delete(_, false) => t.holders == db.holders && t.members == db.members && t.live == db.live - {u}
    case Restore(_) => t.holders == db.holders && t.members == db.members && t.live == db.live
  }

  /**
   A transaction that commits writes exactly one outbox row, for its user, and everything else
   it is for: a registration the user, the default role and the membership, a soft delete the
   end of the user's sessions; one that aborts leaves every table as it was.
   */
  lemma OneRowPerCommit(db: Db, call: Call)
    requires Announced(call.req)
    ensures var t := Do(db, call);
      && t.clock == db.clock + 1
      && t.outbox == db.outbox
           + (if Succeeds(db, call) then [Row(|db.outbox|, db.clock + 1, EventOf(call.req))] else [])
      && (!Succeeds(db, call) ==> t == db.(clock := db.clock + 1))
      && (Succeeds(db, call) ==>
            AlsoDone(db, t, call.req)
            && StatusIn(t, call.req.user) == StatusAfter(StatusIn(db, call.req.user), call.req))
      && (forall u | u != call.req.user :: StatusIn(t, u) == StatusIn(db, u))
  {
    BodyRuns(db.(clock := db.clock + 1), call.req);
  }

  /**
   What a request needs in order to commit: a new user an unused identity and e-mail, where a
   soft-deleted user still holds theirs, and every statement and the commit themselves.
   */
  lemma SucceedsMeans(db: Db, call: Call)
    ensures Succeeds(db, call) <==>
      match call.req
      case Register(user, email, password) =>
        && email != "" && password != "" && user !in db.users
        && (forall u | u in db.users :: db.users[u].email != email)
        && 4 < call.survives
      case Delete(_, hard) => (if hard then 2 else 3) < call.survives
      case Restore(_) => 2 < call.survives
      case _ => false
  {
  }

  /** Accounts keep their e-mail, and get the one they register or are seeded with. */
  lemma EmailsKept(db: Db, call: Call)
    ensures var t := Do(db, call);
      && (forall u | u in db.users && u in t.users :: t.users[u].email == db.users[u].email)
      && (forall u | u in t.users && u !in db.users ::
            (call.req.Register? || call.req.Seed?) && call.req.user == u && t.users[u].email == call.req.email
            && !t.users[u].deleted && forall v | v in db.users :: db.users[v].email != call.req.email)
  {
    if Announced(call.req) {
      BodyRuns(db.(clock := db.clock + 1), call.req);
    }
  }

  predicate UniqueEmails(db: Db) {
    forall u, v | u in db.users && v in db.users && db.users[u].email == db.users[v].email :: u == v
  }

  /** In every run no two accounts share an e-mail, the soft-deleted included. */
  lemma {:induction false} EmailsStayUnique(template: bool, calls: seq<Call>)
    ensures UniqueEmails(Run(Empty(template), calls))
  {
    if calls != [] {
      var before := calls[..|calls| - 1];
      EmailsStayUnique(template, before);
      EmailsKept(Run(Empty(template), before), calls[|calls| - 1]);
    }
  }

  /** Seeding adds an account without announcing it, and signing in starts a session of an account there is. */
  lemma UnannouncedOutcome(db: Db, call: Call)
    requires !Announced(call.req)
    ensures var t, u := Do(db, call), call.req.user;
      && t == db.(clock := db.clock + 1, users := t.users, seeded := t.seeded, live := t.live)
      && t.live == (if call.req.SignIn? && u in db.users then db.live + {u} else db.live)
      && (call.req.SignIn? ==> t.users == db.users && t.seeded == db.seeded)
      && (call.req.Seed? ==>
            if u in db.users || exists v | v in db.users :: db.users[v].email == call.req.email
            then t.users == db.users && t.seeded == db.seeded
            else t.users == db.users[u := User(call.req.email, false)] && t.seeded == db.seeded + {u})
  {
  }

  /** The statements of a transaction, one after the other. */
  lemma BodyRuns(db: Db, req: Request)
    requires Announced(req)
    ensures var u := req.user; var draft := ExecuteAll(db, Body(req));
      var out := db.outbox + [Row(|db.outbox|, db.clock, EventOf(req))];
      match req
      case Register(_, email, _) =>
        draft == (if u in db.users || EmailTaken(db.users, email) then None
                  else Some(db.(users := db.users[u := User(email, false)], members := db.members + {u}, outbox := out,
                                holders := if db.template then db.holders + {u} else db.holders)))
      case Delete(_, true) =>
        draft == Some(db.(users := db.users - {u}, holders := db.holders - {u}, members := db.members - {u},
                          live := db.live - {u}, seeded := db.seeded - {u}, outbox := out))
      case Delete(_, false) =>
        draft == Some(db.(users := if u in db.users then db.users[u := db.users[u].(deleted := true)] else db.users,
                          live := db.live - {u}, outbox := out))
      case Restore(_) =>
        draft == Some(db.(users := if u in db.users then db.users[u := db.users[u].(deleted := false)] else db.users,
                          outbox := out))
  {
    var u, event := req.user, InsertOutbox(EventOf(req));
    match req
    case Register(_, email, _) =>
      FourStatements(db, CreateUser(u, email), AssignDefaultRole(u), JoinDefaultTenant(u), event);
      var created := Execute(db, CreateUser(u, email));
      if created.Some? {
        var held := Execute(created.value, AssignDefaultRole(u)).value;
        ThreeStatements(created.value, AssignDefaultRole(u), JoinDefaultTenant(u), event);
        TwoStatements(held, JoinDefaultTenant(u), event);
      }
    case Delete(_, true) => TwoStatements(db, HardDelete(u), event);
    case Delete(_, false) =>
      ThreeStatements(db, SoftDelete(u), RevokeTokens(u), event);
      TwoStatements(Execute(db, SoftDelete(u)).value, RevokeTokens(u), event);
    case Restore(_) => TwoStatements(db, Undelete(u), event);
  }

  /** Rows are numbered and dated in commit order. */
  predicate Dated(db: Db) {
    && (forall i | 0 <= i < |db.outbox| :: db.outbox[i].id == i && db.outbox[i].at <= db.clock)
    && StrictlySorted(db.outbox)
  }

  lemma DoKeepsDated(db: Db, call: Call)
    requires Dated(db)
    ensures Dated(Do(db, call))
  {
    if Announced(call.req) {
      OneRowPerCommit(db, call);
      hide Do;
      assert Dated(Do(db, call));
    }
  }

  lemma {:induction false} RunIsDated(template: bool, calls: seq<Call>)
    ensures Dated(Run(Empty(template), calls)) && DistinctIds(Run(Empty(template), calls).outbox)
  {
    if calls != [] {
      RunIsDated(template, calls[..|calls| - 1]);
      DoKeepsDated(Run(Empty(template), calls[..|calls| - 1]), calls[|calls| - 1]);
    }
  }

  // ── Replay ────────────────────────────────────────────────

  /** What a consumer makes of one event about a user. An identity that is gone is not restored. */
  function Fold(before: Status, event: Event): Status {
    match event
    case Registered(_) => Active
    case Deleted(_, hard) => if hard || before == Gone then Gone else SoftDeleted
    case Restored(_) => if before == Gone then Gone else Active
  }

  function Replay(rows: seq<Row>, user: nat): Status {
    if rows == [] then Gone
    else
      var before, event := Replay(rows[..|rows| - 1], user), rows[|rows| - 1].event;
      if event.user == user then Fold(before, event) else before
  }

  ghost predicate Mirrors(db: Db) {
    && db.seeded <= db.users.Keys
    && (forall u :: Replay(db.outbox, u) == if u in db.seeded then Gone else StatusIn(db, u))
  }

  lemma DoKeepsMirror(db: Db, call: Call)
    requires Mirrors(db)
    ensures Mirrors(Do(db, call))
  {
    if Announced(call.req) {
      MirrorKeys(db);
      SeededAfter(db, call);
      hide Do, Mirrors;
      forall u
        ensures Replay(Do(db, call).outbox, u) == if u in Do(db, call).seeded then Gone else StatusIn(Do(db, call), u)
      {
        TransactionMirrors(db, call, u);
      }
      MirrorIntro(Do(db, call));
    }
  }

  lemma TransactionMirrors(db: Db, call: Call, u: nat)
    requires Mirrors(db) && Announced(call.req)
    ensures var t := Do(db, call); Replay(t.outbox, u) == if u in t.seeded then Gone else StatusIn(t, u)
  {
    var t := Do(db, call);
    MirrorAt(db, u);
    MirrorKeys(db);
    OneRowPerCommit(db, call);
    SeededAfter(db, call);
    hide Do, Mirrors, AlsoDone, StatusIn, Replay;
    if Succeeds(db, call) {
      ReplayNext(db.outbox, Row(|db.outbox|, db.clock + 1, EventOf(call.req)), u);
      FoldIsStatus(StatusIn(db, u), call.req);
      hide EventOf, Fold, StatusAfter;
    }
  }

  lemma ReplayNext(rows: seq<Row>, row: Row, u: nat)
    ensures Replay(rows + [row], u)
         == if row.event.user == u then Fold(Replay(rows, u), row.event) else Replay(rows, u)
  {
    assert (rows + [row])[..|rows|] == rows;
  }

  lemma FoldIsStatus(before: Status, req: Request)
    requires Announced(req)
    ensures EventOf(req).user == req.user
    ensures Fold(before, EventOf(req)) == StatusAfter(before, req)
    ensures req.Delete? && req.hard ==> StatusAfter(before, req) == Gone
    ensures !req.Register? ==> Fold(Gone, EventOf(req)) == Gone
  {
  }

  lemma MirrorAt(db: Db, u: nat)
    requires Mirrors(db)
    ensures Replay(db.outbox, u) == if u in db.seeded then Gone else StatusIn(db, u)
  {
  }

  lemma MirrorKeys(db: Db)
    requires Mirrors(db)
    ensures db.seeded <= db.users.Keys
  {
  }

  lemma MirrorIntro(db: Db)
    requires db.seeded <= db.users.Keys
    requires forall u :: Replay(db.outbox, u) == if u in db.seeded then Gone else StatusIn(db, u)
    ensures Mirrors(db)
  {
  }

  /** A transaction seeds no one; only a committed hard delete ends a seeding. */
  lemma SeededAfter(db: Db, call: Call)
    requires Announced(call.req) && db.seeded <= db.users.Keys
    ensures var t := Do(db, call);
      && t.seeded <= t.users.Keys
      && t.seeded == (if Succeeds(db, call) && call.req.Delete? && call.req.hard
                      then db.seeded - {call.req.user} else db.seeded)
  {
    BodyRuns(db.(clock := db.clock + 1), call.req);
  }

  lemma {:induction false} RunMirrors(template: bool, calls: seq<Call>)
    ensures Mirrors(Run(Empty(template), calls))
  {
    if calls != [] {
      RunMirrors(template, calls[..|calls| - 1]);
      DoKeepsMirror(Run(Empty(template), calls[..|calls| - 1]), calls[|calls| - 1]);
    }
  }

  /** Replaying a user's outbox rows gives their status in the table exactly if they were not seeded. */
  lemma ReplayIsTheTable(template: bool, calls: seq<Call>, user: nat)
    ensures var db := Run(Empty(template), calls);
      Replay(db.outbox, user) == StatusIn(db, user) <==> user !in db.seeded
  {
    RunMirrors(template, calls);
  }

  // ── Together with the relays ──────────────────────────────

  /** The table as it was after the first transactions, enough of them to have written `k` rows. */
  lemma {:induction false} TableAtRow(template: bool, calls: seq<Call>, k: nat) returns (n: nat)
    requires k <= |Run(Empty(template), calls).outbox|
    ensures n <= |calls| && Run(Empty(template), calls[..n]).outbox == Run(Empty(template), calls).outbox[..k]
    ensures k == |Run(Empty(template), calls).outbox| ==> n == |calls|
  {
    var db := Run(Empty(template), calls);
    if k == |db.outbox| {
      n := |calls|;
      assert calls[..n] == calls && db.outbox[..k] == db.outbox;
    } else {
      var before := calls[..|calls| - 1];
      OutboxGrows(Run(Empty(template), before), calls[|calls| - 1]);
      n := TableAtRow(template, before, k);
      assert before[..n] == calls[..n];
    }
  }

  lemma OutboxGrows(db: Db, call: Call)
    ensures var t := Do(db, call); |db.outbox| <= |t.outbox| <= |db.outbox| + 1 && db.outbox == t.outbox[..|db.outbox|]
  {
    if Announced(call.req) {
      OneRowPerCommit(db, call);
    }
  }

  /**
   However relays interleave, crash and lose messages while the outbox fills: replaying the
   deduplicated stream gives every user's status in the table as it was after some earlier
   transaction, and once every row has been accepted, in the table as it is now. Users who
   are seeded at that point are the exception.
   */
  lemma StreamReplaysTheTable(template: bool, calls: seq<Call>, steps: seq<Step>) returns (n: nat)
    requires OutboxTheorems.Commits(steps) == Run(Empty(template), calls).outbox
    ensures n <= |calls|
    ensures var db := Run(Empty(template), calls[..n]); var d := Dedup(Exec(START, steps).stream);
      && d == db.outbox
      && (forall u :: Replay(d, u) == StatusIn(db, u) <==> u !in db.seeded)
    ensures Pending(Exec(START, steps)) == [] ==> Run(Empty(template), calls[..n]) == Run(Empty(template), calls)
  {
    var rows := Run(Empty(template), calls).outbox;
    RunIsDated(template, calls);
    StreamIsPrefix(steps);
    var w := Exec(START, steps);
    var d := Dedup(w.stream);
    n := TableAtRow(template, calls, |d|);
    if Pending(w) == [] {
      Drained(w, d);
      assert calls[..|calls|] == calls;
    }
    var db := Run(Empty(template), calls[..n]);
    forall u ensures Replay(d, u) == StatusIn(db, u) <==> u !in db.seeded {
      ReplayIsTheTable(template, calls[..n], u);
    }
  }

  lemma NextIsPending(w: World, d: seq<Row>)
    requires DistinctIds(w.rows) && w.published <= Ids(d)
    requires |d| < |w.rows| && d == w.rows[..|d|]
    ensures w.rows[|d|] in Pending(w)
  {
    forall s | s in d ensures s.id != w.rows[|d|].id {
      var i :| 0 <= i < |d| && d[i] == s;
      assert w.rows[i] == s;
    }
  }

  lemma Drained(w: World, d: seq<Row>)
    requires DistinctIds(w.rows) && Pending(w) == [] && w.published <= Ids(d)
    requires |d| <= |w.rows| && d == w.rows[..|d|]
    ensures |d| == |w.rows|
  {
    if |d| < |w.rows| {
      NextIsPending(w, d);
    }
  }

  /**
   A restore announces itself even if its user is gone: a consumer that took every such
   event to mean an active identity would be wrong.
   */
  lemma RestoreOfTheGone(template: bool, user: nat)
    ensures var db := Run(Empty(template), [Call(Restore(user), 3)]);
      |db.outbox| == 1 && db.outbox[0].event == Restored(user) && StatusIn(db, user) == Gone
  {
    var call := Call(Restore(user), 3);
    OneRowPerCommit(Empty(template), call);
    assert Run(Empty(template), [call][..0]) == Empty(template);
    assert Run(Empty(template), [call]) == Do(Empty(template), call);
  }

  // ── The tables, updated in place ──────────────────────────

  class Store {
    const template: bool
    var clock: nat
    var users: map<nat, User>
    var holders: set<nat>
    var members: set<nat>
    var live: set<nat>
    var outbox: seq<Row>
    var seeded: set<nat>

    function Snapshot(): Db
      reads this
    {
      Db(clock, users, template, holders, members, live, outbox, seeded)
    }

    constructor (template: bool)
      ensures Snapshot() == Empty(template)
    {
      this.template := template;
      clock, users, holders, members, live, outbox, seeded := 0, map[], {}, {}, {}, [], {};
    }

    /** Runs the statements on a draft, which the commit writes back; an error leaves the tables alone. */
    method Transact(stmts: seq<Stmt>, survives: nat) returns (committed: bool)
      modifies this
      ensures Snapshot() == Transaction(old(Snapshot()), stmts, survives)
      ensures committed == (ExecuteAll(old(Snapshot()), stmts).Some? && survives > |stmts|)
    {
      var draft := Snapshot();
      for i := 0 to |stmts|
        modifies {}
        invariant i <= survives
        invariant ExecuteAll(old(Snapshot()), stmts) == ExecuteAll(draft, stmts[i..])
      {
        var next := Execute(draft, stmts[i]);
        assert stmts[i..][0] == stmts[i] && stmts[i..][1..] == stmts[i + 1..];
        if next.None? || i == survives {
          return false;
        }
        draft := next.value;
      }
      if survives == |stmts| {
        return false;
      }
      KeepsTemplate(Snapshot(), stmts);
      clock, users, holders, members := draft.clock, draft.users, draft.holders, draft.members;
      live, outbox, seeded := draft.live, draft.outbox, draft.seeded;
      return true;
    }

    method RegisterUser(user: nat, email: string, password: string, survives: nat) returns (ok: bool)
      modifies this
      ensures Snapshot() == Do(old(Snapshot()), Call(Register(user, email, password), survives))
      ensures ok == Succeeds(old(Snapshot()), Call(Register(user, email, password), survives))
    {
      ghost var call := Call(Register(user, email, password), survives);
      OneRowPerCommit(Snapshot(), call);
      BodyRuns(Snapshot().(clock := clock + 1), call.req);
      clock := clock + 1;
      if email == "" || password == "" {
        return false;
      }
      ok := Transact([CreateUser(user, email), AssignDefaultRole(user), JoinDefaultTenant(user),
                      InsertOutbox(Registered(user))], survives);
    }

    method DeleteUser(user: nat, hard: bool, survives: nat) returns (ok: bool)
      modifies this
      ensures Snapshot() == Do(old(Snapshot()), Call(Delete(user, hard), survives))
      ensures ok == Succeeds(old(Snapshot()), Call(Delete(user, hard), survives))
    {
      clock := clock + 1;
      BodyRuns(Snapshot(), Delete(user, hard));
      if hard {
        ok := Transact([HardDelete(user), InsertOutbox(Deleted(user, true))], survives);
      } else {
        ok := Transact([SoftDelete(user), RevokeTokens(user), InsertOutbox(Deleted(user, false))], survives);
      }
    }

    method RestoreUser(user: nat, survives: nat) returns (ok: bool)
      modifies this
      ensures Snapshot() == Do(old(Snapshot()), Call(Restore(user), survives))
      ensures ok == Succeeds(old(Snapshot()), Call(Restore(user), survives))
    {
      clock := clock + 1;
      BodyRuns(Snapshot(), Restore(user));
      ok := Transact([Undelete(user), InsertOutbox(Restored(user))], survives);
    }
  }

  lemma {:induction false} KeepsTemplate(db: Db, stmts: seq<Stmt>)
    requires ExecuteAll(db, stmts).Some?
    ensures ExecuteAll(db, stmts).value.template == db.template
    decreases |stmts|
  {
    if stmts != [] {
      KeepsTemplate(Execute(db, stmts[0]).value, stmts[1..]);
    }
  }
}
