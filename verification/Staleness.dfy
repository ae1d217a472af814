/**
 The permission cache against the RBAC tables over whole runs. A validation that misses
 reads the tables and writes the cache in two steps; with nothing in between, it is atomic.
 Assigning and revoking roles invalidates by the user id as the request spelled it, and no
 other operation invalidates. A bulk assignment is its single assignments, one by one.
 */
module Staleness {
  import opened Seqs
  import opened Rbac
  import opened RbacInvariant
  import opened RbacIsolation
  import opened PermCache
  import opened IdText
  import Glob
  import Spellings

  /** What an access token is bound to; one without a tenant claim gets the view across tenants. */
  datatype Token = Token(tenant: Option<Uuid>, project: Option<Uuid>, user: Uuid)

  function Text(id: Option<Uuid>): string {
    if id.None? then "" else Canonical(id.value)
  }

  function KeyOf(token: Token): string {
    PermsKey(Text(token.tenant), Text(token.project), Canonical(token.user))
  }

  function Current(db: Db, token: Token): seq<string> {
    if token.tenant.None? then GetUserPermissions(db, token.user)
    else GetUserPermissionsScoped(db, token.user, token.tenant.value, token.project)
  }

  /**
   What a list says, on the rows: what the user's assignments in the token's tenant carry, if they
   are tenant-wide or for its project; without a tenant claim, what all their assignments carry.
   */
  lemma CurrentMeans(db: Db, token: Token, q: string)
    ensures q in Current(db, token) <==> q in db.catalog && exists r | r in db.userRoles ::
      && r.user == token.user && (r.role, q) in db.grants
      && (token.tenant.None? || (Some(r.tenant) == token.tenant && (r.project == None || r.project == token.project)))
  {
  }

  lemma IdTextPlain(id: Option<Uuid>)
    ensures ColonFree(Text(id)) && Text(id) != "-"
  {
    if id.Some? {
      CanonicalChars(id.value);
    }
  }

  lemma TextInjective(a: Option<Uuid>, b: Option<Uuid>)
    requires Text(a) == Text(b)
    ensures a == b
  {
    if a.Some? && b.Some? {
      CanonicalInjective(a.value, b.value);
    }
  }

  /** Different tokens never share an entry. */
  lemma KeysDiffer(a: Token, b: Token)
    requires KeyOf(a) == KeyOf(b)
    ensures a == b
  {
    IdTextPlain(a.tenant);
    IdTextPlain(a.project);
    IdTextPlain(b.tenant);
    IdTextPlain(b.project);
    KeysEqual(Text(a.tenant), Text(a.project), Text(Some(a.user)), Text(b.tenant), Text(b.project), Text(Some(b.user)));
    TextInjective(a.tenant, b.tenant);
    TextInjective(a.project, b.project);
    TextInjective(Some(a.user), Some(b.user));
  }

  // ── Runs ──────────────────────────────────────────────────

  /** A validation that has read the tables and not yet written the cache. */
  datatype Reading = Reading(token: Token, list: seq<string>, at: nat)

  datatype World = World(now: nat, db: Db, entries: Entries, reading: map<nat, Reading>)

  datatype Event =
    | Tick(duration: nat)
    | Change(op: Op)
    | Update(op: Op, up: bool)
    | Begin(proc: nat, token: Token, up: bool)
    | Finish(proc: nat, up: bool)
    | Abandon(proc: nat)
    | Evict(key: string)

  predicate Invalidates(op: Op) {
    op.OpAssign? || op.OpRevoke?
  }

  function Hit(w: World, token: Token, up: bool): Option<seq<string>> {
    if up then Lookup(w.entries, KeyOf(token), w.now) else None
  }

  /** `up` is whether Redis is reached; without it a read misses and a write or invalidation is lost. */
  ghost function Apply(w: World, e: Event): World {
    match e
    case Tick(duration) => w.(now := w.now + duration)
    case Change(op) => if Invalidates(op) then w else w.(db := Step(w.db, op).db)
    case Update(op, up) =>
      if !Invalidates(op) then w
      else
        var done := Step(w.db, op);
        w.(db := done.db,
           entries := if done.reply == Done && up then Invalidated(w.entries, op.user) else w.entries)
    case Begin(proc, token, up) =>
      if proc in w.reading || Hit(w, token, up).Some? then w
      else w.(reading := w.reading[proc := Reading(token, Current(w.db, token), w.now)])
    case Finish(proc, up) =>
      if proc !in w.reading then w
      else
        var r := w.reading[proc];
        w.(reading := w.reading - {proc},
           entries := if up then w.entries[KeyOf(r.token) := Entry(r.list, w.now + TTL)] else w.entries)
    case Abandon(proc) => w.(reading := w.reading - {proc})
    case Evict(key) => w.(entries := w.entries - {key})
  }

  ghost function Exec(w: World, events: seq<Event>): World
    decreases |events|
  {
    if events == [] then w else Exec(Apply(w, events[0]), events[1..])
  }

  /** What a validation returns at this event: the cached list on a hit, else what it had read. */
  function Served(w: World, e: Event): Option<(Token, seq<string>)> {
    match e
    case Begin(proc, token, up) =>
      if proc !in w.reading && Hit(w, token, up).Some? then Some((token, Hit(w, token, up).value)) else None
    case Finish(proc, _) => if proc in w.reading then Some((w.reading[proc].token, w.reading[proc].list)) else None
    case _ => None
  }

  function Start(db: Db): World {
    World(0, db, map[], map[])
  }

  ghost function After(db: Db, events: seq<Event>, n: nat): World
    requires n <= |events|
  {
    Exec(Start(db), events[..n])
  }

  lemma {:induction false} ExecLast(w: World, events: seq<Event>)
    requires events != []
    ensures Exec(w, events) == Apply(Exec(w, events[..|events| - 1]), events[|events| - 1])
    decreases |events|
  {
    if |events| > 1 {
      var rest := events[1..];
      ExecLast(Apply(w, events[0]), rest);
      assert rest[..|rest| - 1] == events[..|events| - 1][1..];
    }
  }

  lemma AfterNext(db: Db, events: seq<Event>, n: nat)
    requires n < |events|
    ensures After(db, events, n + 1) == Apply(After(db, events, n), events[n])
  {
    ExecLast(Start(db), events[..n + 1]);
    assert events[..n + 1][..n] == events[..n];
  }

  // ── How stale a list can be ───────────────────────────────

  /** Every cache write comes at most `gap` after the read it stores. */
  ghost predicate Prompt(db: Db, events: seq<Event>, gap: nat) {
    forall i | 0 <= i < |events| && events[i].Finish? ::
      var w := After(db, events, i);
      events[i].proc in w.reading ==> w.now - w.reading[events[i].proc].at <= gap
  }

  /** The list was the token's at instant `m` of the run, and that was not before `since`. */
  ghost predicate TrueAt(db: Db, events: seq<Event>, m: nat, token: Token, list: seq<string>, since: int)
    requires m <= |events|
  {
    var w := After(db, events, m);
    list == Current(w.db, token) && since <= w.now
  }

  ghost predicate TrueBy(db: Db, events: seq<Event>, n: nat, token: Token, list: seq<string>, since: int)
    requires n <= |events|
  {
    exists m :: 0 <= m <= n && TrueAt(db, events, m, token, list, since)
  }

  ghost predicate EntryOk(db: Db, events: seq<Event>, n: nat, gap: nat, key: string, entry: Entry)
    requires n <= |events|
  {
    exists token :: KeyOf(token) == key && TrueBy(db, events, n, token, entry.value, entry.expires - TTL - gap)
  }

  ghost predicate EntriesOk(db: Db, events: seq<Event>, n: nat, gap: nat)
    requires n <= |events|
  {
    var w := After(db, events, n);
    forall key | key in w.entries :: EntryOk(db, events, n, gap, key, w.entries[key])
  }

  ghost predicate ReadingsOk(db: Db, events: seq<Event>, n: nat)
    requires n <= |events|
  {
    var w := After(db, events, n);
    forall proc | proc in w.reading ::
      TrueBy(db, events, n, w.reading[proc].token, w.reading[proc].list, w.reading[proc].at)
  }

  lemma TrueLater(db: Db, events: seq<Event>, n: nat, token: Token, list: seq<string>, since: int)
    requires n < |events| && TrueBy(db, events, n, token, list, since)
    ensures TrueBy(db, events, n + 1, token, list, since)
  {
    var m :| 0 <= m <= n && TrueAt(db, events, m, token, list, since);
    assert m <= n + 1;
  }

  lemma EntryWitness(db: Db, events: seq<Event>, n: nat, gap: nat, key: string, entry: Entry)
    returns (token: Token, m: nat)
    requires n <= |events| && EntryOk(db, events, n, gap, key, entry)
    ensures KeyOf(token) == key && m <= n && TrueAt(db, events, m, token, entry.value, entry.expires - TTL - gap)
  {
    hide KeyOf, TrueAt;
    token :| KeyOf(token) == key && TrueBy(db, events, n, token, entry.value, entry.expires - TTL - gap);
    m :| 0 <= m <= n && TrueAt(db, events, m, token, entry.value, entry.expires - TTL - gap);
  }

  lemma EntryFrom(db: Db, events: seq<Event>, n: nat, gap: nat, entry: Entry, token: Token, m: nat)
    requires m <= n <= |events| && TrueAt(db, events, m, token, entry.value, entry.expires - TTL - gap)
    ensures EntryOk(db, events, n, gap, KeyOf(token), entry)
  {
    hide KeyOf, TrueAt;
    assert TrueBy(db, events, n, token, entry.value, entry.expires - TTL - gap);
  }

  lemma EntryLater(db: Db, events: seq<Event>, n: nat, gap: nat, key: string, entry: Entry)
    requires n < |events| && EntryOk(db, events, n, gap, key, entry)
    ensures EntryOk(db, events, n + 1, gap, key, entry)
  {
    var token, m := EntryWitness(db, events, n, gap, key, entry);
    hide *;
    EntryFrom(db, events, n + 1, gap, entry, token, m);
  }

  /** A read is true at the instant it is made. */
  lemma ReadIsTrue(db: Db, events: seq<Event>, n: nat, token: Token)
    requires n < |events|
    ensures var w := After(db, events, n); TrueBy(db, events, n + 1, token, Current(w.db, token), w.now)
  {
    var w := After(db, events, n);
    assert TrueAt(db, events, n, token, Current(w.db, token), w.now);
  }

  lemma WrittenEntryOk(db: Db, events: seq<Event>, n: nat, gap: nat, r: Reading)
    requires n < |events| && TrueBy(db, events, n, r.token, r.list, r.at)
    requires After(db, events, n).now - r.at <= gap
    ensures EntryOk(db, events, n + 1, gap, KeyOf(r.token), Entry(r.list, After(db, events, n).now + TTL))
  {
    var m :| 0 <= m <= n && TrueAt(db, events, m, r.token, r.list, r.at);
    var entry := Entry(r.list, After(db, events, n).now + TTL);
    assert TrueAt(db, events, m, r.token, entry.value, entry.expires - TTL - gap);
    hide *;
    EntryFrom(db, events, n + 1, gap, entry, r.token, m);
  }

  /** Which entries an event can leave behind that were not there before. */
  lemma EntriesAfter(w: World, e: Event, key: string)
    requires key in Apply(w, e).entries
    ensures (key in w.entries && Apply(w, e).entries[key] == w.entries[key])
         || (e.Finish? && e.proc in w.reading && key == KeyOf(w.reading[e.proc].token)
             && Apply(w, e).entries[key] == Entry(w.reading[e.proc].list, w.now + TTL))
  {
    hide Step, Glob.Matches;
  }

  lemma ReadingsAfter(w: World, e: Event, proc: nat)
    requires proc in Apply(w, e).reading
    ensures (proc in w.reading && Apply(w, e).reading[proc] == w.reading[proc])
         || (e.Begin? && Apply(w, e).reading[proc] == Reading(e.token, Current(w.db, e.token), w.now))
  {
    hide Step, Glob.Matches;
  }

  lemma FinishedEntryOk(db: Db, events: seq<Event>, n: nat, gap: nat, proc: nat)
    requires n < |events| && ReadingsOk(db, events, n) && Prompt(db, events, gap)
    requires events[n].Finish? && events[n].proc == proc && proc in After(db, events, n).reading
    ensures var w := After(db, events, n); var r := w.reading[proc];
      EntryOk(db, events, n + 1, gap, KeyOf(r.token), Entry(r.list, w.now + TTL))
  {
    var r := After(db, events, n).reading[proc];
    assert After(db, events, n).now - r.at <= gap && TrueBy(db, events, n, r.token, r.list, r.at);
    hide *;
    WrittenEntryOk(db, events, n, gap, r);
  }

  lemma EntryStaysOk(db: Db, events: seq<Event>, n: nat, gap: nat, w: World, key: string)
    requires n < |events| && w == After(db, events, n) && key in Apply(w, events[n]).entries
    requires EntriesOk(db, events, n, gap) && ReadingsOk(db, events, n) && Prompt(db, events, gap)
    ensures EntryOk(db, events, n + 1, gap, key, Apply(w, events[n]).entries[key])
  {
    hide *;
    EntriesAfter(w, events[n], key);
    EntryWas(db, events, n, gap, key);
    if key in w.entries && Apply(w, events[n]).entries[key] == w.entries[key] {
      EntryLater(db, events, n, gap, key, w.entries[key]);
    } else {
      FinishedEntryOk(db, events, n, gap, events[n].proc);
    }
  }

  lemma EntryWas(db: Db, events: seq<Event>, n: nat, gap: nat, key: string)
    requires n <= |events| && EntriesOk(db, events, n, gap)
    ensures var w := After(db, events, n); key in w.entries ==> EntryOk(db, events, n, gap, key, w.entries[key])
  {
    hide After, EntryOk;
  }

  lemma EntriesStayOk(db: Db, events: seq<Event>, n: nat, gap: nat)
    requires n < |events| && EntriesOk(db, events, n, gap) && ReadingsOk(db, events, n) && Prompt(db, events, gap)
    ensures EntriesOk(db, events, n + 1, gap)
  {
    var w, v := After(db, events, n), After(db, events, n + 1);
    AfterNext(db, events, n);
    hide Apply, After, EntryOk, Prompt, ReadingsOk;
    forall key | key in v.entries ensures EntryOk(db, events, n + 1, gap, key, v.entries[key]) {
      EntryStaysOk(db, events, n, gap, w, key);
    }
  }

  lemma ReadingsStayOk(db: Db, events: seq<Event>, n: nat)
    requires n < |events| && ReadingsOk(db, events, n)
    ensures ReadingsOk(db, events, n + 1)
  {
    var w, v := After(db, events, n), After(db, events, n + 1);
    AfterNext(db, events, n);
    hide Apply, After, TrueBy;
    forall proc | proc in v.reading
      ensures TrueBy(db, events, n + 1, v.reading[proc].token, v.reading[proc].list, v.reading[proc].at)
    {
      ReadingsAfter(w, events[n], proc);
      if proc in w.reading && v.reading[proc] == w.reading[proc] {
        TrueLater(db, events, n, w.reading[proc].token, w.reading[proc].list, w.reading[proc].at);
      } else {
        ReadIsTrue(db, events, n, events[n].token);
      }
    }
  }

  lemma {:induction false} CacheIsTrue(db: Db, events: seq<Event>, n: nat, gap: nat)
    requires n <= |events| && Prompt(db, events, gap)
    ensures EntriesOk(db, events, n, gap) && ReadingsOk(db, events, n)
    decreases n
  {
    if n > 0 {
      CacheIsTrue(db, events, n - 1, gap);
      EntriesStayOk(db, events, n - 1, gap);
      ReadingsStayOk(db, events, n - 1);
    }
  }

  /** What an entry that has not expired says was true less than `TTL + gap` ago. */
  lemma LiveEntryIsRecent(db: Db, events: seq<Event>, n: nat, gap: nat, token: Token, entry: Entry) returns (m: nat)
    requires n <= |events| && EntryOk(db, events, n, gap, KeyOf(token), entry)
    requires After(db, events, n).now < entry.expires
    ensures m <= n && TrueAt(db, events, m, token, entry.value, After(db, events, n).now - TTL - gap + 1)
  {
    hide After, Current, KeyOf, EntryOk;
    var other, k := EntryWitness(db, events, n, gap, KeyOf(token), entry);
    KeysDiffer(other, token);
    m := k;
  }

  lemma ReadingIsRecent(db: Db, events: seq<Event>, n: nat, proc: nat) returns (m: nat)
    requires n <= |events| && ReadingsOk(db, events, n) && proc in After(db, events, n).reading
    ensures m <= n
    ensures var r := After(db, events, n).reading[proc]; TrueAt(db, events, m, r.token, r.list, r.at)
  {
    var r := After(db, events, n).reading[proc];
    assert TrueBy(db, events, n, r.token, r.list, r.at);
    m :| 0 <= m <= n && TrueAt(db, events, m, r.token, r.list, r.at);
  }

  /**
   Whatever changes, fails or is evicted: the list a validation returns was the token's list
   in the tables at some instant of the run less than 60 s before, plus the longest delay
   between a read and its cache write. With atomic validations there is no such delay.
   */
  lemma StalenessBound(db: Db, events: seq<Event>, n: nat, gap: nat) returns (m: nat)
    requires n < |events| && Prompt(db, events, gap)
    requires Served(After(db, events, n), events[n]).Some?
    ensures m <= n
    ensures var (token, list) := Served(After(db, events, n), events[n]).value;
      && list == Current(After(db, events, m).db, token)
      && After(db, events, n).now - After(db, events, m).now < 60 + gap
  {
    CacheIsTrue(db, events, n, gap);
    if events[n].Begin? {
      var token := events[n].token;
      var entry := After(db, events, n).entries[KeyOf(token)];
      assert EntryOk(db, events, n, gap, KeyOf(token), entry);
      hide EntriesOk, EntryOk, ReadingsOk, Prompt, After, Current, KeyOf;
      m := LiveEntryIsRecent(db, events, n, gap, token, entry);
    } else {
      assert After(db, events, n).now - After(db, events, n).reading[events[n].proc].at <= gap;
      hide EntriesOk, ReadingsOk, Prompt, After, Current, KeyOf;
      m := ReadingIsRecent(db, events, n, events[n].proc);
    }
  }

  // ── What each event does ──────────────────────────────────

  /** An invalidation takes place: the change succeeded, and Redis was reached. */
  ghost predicate Sweeps(w: World, e: Event) {
    e.Update? && Invalidates(e.op) && Step(w.db, e.op).reply == Done && e.up
  }

  /**
   What the cache holds after an event: a write by a validation that finishes replaces one entry,
   an invalidation and an eviction remove entries, and nothing else does.
   */
  lemma CacheAfter(w: World, e: Event, key: string)
    ensures var held := Apply(w, e).entries;
      if e.Finish? && e.up && e.proc in w.reading && KeyOf(w.reading[e.proc].token) == key then
        key in held && held[key] == Entry(w.reading[e.proc].list, w.now + 60)
      else if Sweeps(w, e) && Glob.Matches("perms:*:*:" + e.op.user, key) then key !in held
      else if e == Evict(key) then key !in held
      else (key in held <==> key in w.entries) && (key in held ==> held[key] == w.entries[key])
  {
    hide Step, Glob.Matches;
  }

  /**
   What else an event does: the clock moves on by itself alone, the tables change by their
   operations alone, and a validation is under way from a miss until it finishes or is dropped.
   */
  lemma WorldAfter(w: World, e: Event, proc: nat)
    ensures var v := Apply(w, e);
      && v.now == (if e.Tick? then w.now + e.duration else w.now)
      && v.db == (if (e.Change? && !Invalidates(e.op)) || (e.Update? && Invalidates(e.op)) then Step(w.db, e.op).db
                  else w.db)
      && (proc in v.reading && proc !in w.reading <==>
            e.Begin? && e.proc == proc && proc !in w.reading
            && !(e.up && KeyOf(e.token) in w.entries && w.now < w.entries[KeyOf(e.token)].expires))
      && (proc in v.reading && proc !in w.reading ==>
            v.reading[proc] == Reading(e.token, Current(w.db, e.token), w.now))
      && (proc in w.reading ==>
            if (e.Finish? || e.Abandon?) && e.proc == proc then proc !in v.reading
            else proc in v.reading && v.reading[proc] == w.reading[proc])
  {
    hide Step, Glob.Matches, KeyOf, Current;
  }

  /** What a validation returns: an entry that has not expired as it is, else what it read from the tables. */
  lemma ServedMeans(w: World, e: Event)
    ensures Served(w, e) ==
      if e.Begin? && e.proc !in w.reading && e.up
         && KeyOf(e.token) in w.entries && w.now < w.entries[KeyOf(e.token)].expires
      then Some((e.token, w.entries[KeyOf(e.token)].value))
      else if e.Finish? && e.proc in w.reading then Some((w.reading[e.proc].token, w.reading[e.proc].list))
      else None
  {
    hide KeyOf;
  }

  // ── After an assignment or revocation ─────────────────────

  /** Neither an entry nor a read in progress is about the user. */
  ghost predicate NothingHeld(w: World, user: nat) {
    && (forall token: Token | token.user == user :: KeyOf(token) !in w.entries)
    && (forall proc | proc in w.reading :: w.reading[proc].token.user != user)
  }

  /**
   Invalidation by a spelling of an identifier drops the entries of exactly the user whose
   canonical text the spelling, read as a pattern, matches: the user it names, if it is the
   canonical text or that text between outer characters that amount to nothing; else no one.
   */
  lemma InvalidationByText(entries: Entries, text: string, token: Token)
    requires Parse(text).Some?
    ensures KeyOf(token) in Invalidated(entries, text)
      <==> KeyOf(token) in entries && !Spellings.Reaches(text, token.user)
  {
    IdTextPlain(token.tenant);
    IdTextPlain(token.project);
    IdTextPlain(Some(token.user));
    PatternFindsTheUser(Text(token.tenant), Text(token.project), Text(Some(token.user)), text);
    Spellings.SpellingMatches(text, token.user);
    hide Glob.Matches, Canonical, Pattern, PermsKey;
  }

  lemma {:induction false} StaysUnheld(w: World, events: seq<Event>, user: nat)
    requires NothingHeld(w, user)
    requires forall e | e in events && e.Begin? :: e.token.user != user
    ensures NothingHeld(Exec(w, events), user)
    decreases |events|
  {
    if events != [] {
      assert events[0] in events;
      UnheldAfter(w, events[0], user);
      hide NothingHeld, Apply;
      StaysUnheld(Apply(w, events[0]), events[1..], user);
    }
  }

  lemma UnheldAfter(w: World, e: Event, user: nat)
    requires NothingHeld(w, user) && (e.Begin? ==> e.token.user != user)
    ensures NothingHeld(Apply(w, e), user)
  {
    var v := Apply(w, e);
    forall token: Token | token.user == user ensures KeyOf(token) !in v.entries {
      if KeyOf(token) in v.entries {
        EntriesAfter(w, e, KeyOf(token));
        if e.Finish? && e.proc in w.reading && KeyOf(token) == KeyOf(w.reading[e.proc].token) {
          KeysDiffer(token, w.reading[e.proc].token);
        }
      }
    }
    forall proc | proc in v.reading ensures v.reading[proc].token.user != user {
      ReadingsAfter(w, e, proc);
    }
  }

  /**
   After a role was assigned to or revoked from a user named by a spelling that reaches them,
   the canonical id for one, with no validation of theirs under way: whatever happens until
   their next validation, that one reads the tables, so what it returns is current at that time.
   */
  lemma FirstValidationIsCurrent(w: World, op: Op, between: seq<Event>, proc: nat, token: Token, up: bool, later: bool)
    requires Invalidates(op) && Spellings.Reaches(op.user, token.user) && Step(w.db, op).reply == Done
    requires forall p | p in w.reading :: w.reading[p].token.user != token.user
    requires forall e | e in between && e.Begin? :: e.token.user != token.user
    requires proc !in Exec(Apply(w, Update(op, true)), between).reading
    ensures var v := Exec(Apply(w, Update(op, true)), between);
      && Served(v, Begin(proc, token, up)).None?
      && Served(Apply(v, Begin(proc, token, up)), Finish(proc, later)) == Some((token, Current(v.db, token)))
  {
    UpdateClears(w, op, token.user);
    StaysUnheld(Apply(w, Update(op, true)), between, token.user);
    hide Parse, Spellings.Reaches, KeyOf, Step, Exec, Current;
  }

  lemma UpdateClears(w: World, op: Op, user: Uuid)
    requires Invalidates(op) && Spellings.Reaches(op.user, user) && Step(w.db, op).reply == Done
    requires forall p | p in w.reading :: w.reading[p].token.user != user
    ensures NothingHeld(Apply(w, Update(op, true)), user)
  {
    Spellings.ReachesItsOwn(op.user, user);
    forall token: Token | token.user == user ensures KeyOf(token) !in Apply(w, Update(op, true)).entries {
      InvalidationByText(w.entries, op.user, token);
    }
    hide Parse, Canonical, Spellings.Reaches, KeyOf, Step, Glob.Matches;
  }

  /**
   For a cached token, the validation right after the change is answered from the tables exactly
   if the spelling reaches its user.
   */
  lemma SpellingDecides(w: World, op: Op, proc: nat, token: Token)
    requires Invalidates(op) && Parse(op.user) == Some(token.user) && Step(w.db, op).reply == Done
    requires proc !in w.reading && Hit(w, token, true).Some?
    ensures Served(Apply(w, Update(op, true)), Begin(proc, token, true)).None?
      <==> Spellings.Reaches(op.user, token.user)
  {
    InvalidationByText(w.entries, op.user, token);
    hide Step, Glob.Matches, Canonical;
  }

  /**
   A validation caught between its read and its cache write undoes the invalidation: the
   next one is served the list from before the change.
   */
  lemma LateWriteUndoesInvalidation(w: World, op: Op, proc: nat, next: nat)
    requires Invalidates(op) && proc in w.reading && next !in w.reading
    ensures var r := w.reading[proc];
      var v := Apply(Apply(w, Update(op, true)), Finish(proc, true));
      Served(v, Begin(next, r.token, true)) == Some((r.token, r.list))
  {
    hide Step, Glob.Matches, PermsKey;
  }

  // ── The bound is reached ──────────────────────────────────

  /** A permission that user `u` holds in tenant `t` through one role. */
  function Granted(t: Uuid, u: Uuid): Db {
    Db(map[u := "u"], map[t := "t"], ["p"], map[5 := Role("dev", Some(t))], {(5, "p")},
       [UserRole(u, 5, t, None)], map[], {})
  }

  function Ungranted(t: Uuid, u: Uuid): Db {
    Granted(t, u).(grants := {})
  }

  function TokenFor(t: Uuid, u: Uuid): Token {
    Token(Some(t), None, u)
  }

  function SlowRun(gap: nat, t: Uuid, u: Uuid): seq<Event> {
    [Begin(1, TokenFor(t, u), true), Change(OpRevokeGrant(t, "dev", "p")), Tick(gap), Finish(1, true), Tick(TTL - 1),
     Begin(2, TokenFor(t, u), true)]
  }

  lemma PermissionGoes(t: Uuid, u: Uuid)
    ensures Step(Granted(t, u), OpRevokeGrant(t, "dev", "p")).db == Ungranted(t, u)
    ensures Current(Granted(t, u), TokenFor(t, u)) == ["p"] && Current(Ungranted(t, u), TokenFor(t, u)) == []
  {
    var db := Granted(t, u);
    FoundRole(db.roles, 5);
    assert Step(db, OpRevokeGrant(t, "dev", "p")).db.grants == {};
    assert HoldsScoped(db, u, t, None, "p") by {
      assert Applies(db.userRoles[0], u, t, None);
    }
  }

  lemma SlowRead(gap: nat, t: Uuid, u: Uuid)
    ensures var e, token := SlowRun(gap, t, u), TokenFor(t, u);
      var full, less, reading := Granted(t, u), Ungranted(t, u), map[1 := Reading(token, ["p"], 0)];
      && After(full, e, 0) == World(0, full, map[], map[])
      && After(full, e, 1) == World(0, full, map[], reading)
      && After(full, e, 2) == World(0, less, map[], reading)
      && After(full, e, 3) == World(gap, less, map[], reading)
  {
    var e, full := SlowRun(gap, t, u), Granted(t, u);
    PermissionGoes(t, u);
    AfterNext(full, e, 0);
    AfterNext(full, e, 1);
    AfterNext(full, e, 2);
    hide Step, Current, KeyOf, Granted, Ungranted;
  }

  lemma SlowWrite(gap: nat, t: Uuid, u: Uuid)
    ensures var e, token := SlowRun(gap, t, u), TokenFor(t, u);
      var less, held := Ungranted(t, u), map[KeyOf(token) := Entry(["p"], gap + TTL)];
      && After(Granted(t, u), e, 4) == World(gap, less, held, map[])
      && After(Granted(t, u), e, 5) == World(gap + TTL - 1, less, held, map[])
  {
    var e, full := SlowRun(gap, t, u), Granted(t, u);
    SlowRead(gap, t, u);
    AfterNext(full, e, 3);
    AfterNext(full, e, 4);
    hide Step, Current, KeyOf, Granted, Ungranted, After;
  }

  /** For every delay there is a run that serves a list last true exactly that much, less a second, before. */
  lemma BoundIsReached(gap: nat, t: Uuid, u: Uuid)
    ensures var e, db := SlowRun(gap, t, u), Granted(t, u);
      && Prompt(db, e, gap)
      && Served(After(db, e, 5), e[5]) == Some((TokenFor(t, u), ["p"]))
      && (forall m | 0 <= m <= 5 && Current(After(db, e, m).db, TokenFor(t, u)) == ["p"] ::
            After(db, e, 5).now - After(db, e, m).now == TTL + gap - 1)
  {
    SlowRead(gap, t, u);
    SlowWrite(gap, t, u);
    PermissionGoes(t, u);
    hide After, Current, KeyOf, Granted, Ungranted;
    var e, db := SlowRun(gap, t, u), Granted(t, u);
    forall m | 0 <= m <= 5 && Current(After(db, e, m).db, TokenFor(t, u)) == ["p"]
      ensures After(db, e, 5).now - After(db, e, m).now == TTL + gap - 1
    {
      assert m == 0 || m == 1 || m == 2 || m == 3 || m == 4 || m == 5;
    }
  }

  // ── A spelling that leaves the entry ──────────────────────

  /** The user's validation is cached, and then their role revoked under the given text. */
  function CachedThenRevoked(t: Uuid, u: Uuid, text: string): seq<Event> {
    [Begin(1, TokenFor(t, u), true), Finish(1, true), Update(OpRevoke(t, text, "dev", Absent), true)]
  }

  lemma Cached(t: Uuid, u: Uuid, text: string)
    ensures After(Granted(t, u), CachedThenRevoked(t, u, text), 2)
         == World(0, Granted(t, u), map[KeyOf(TokenFor(t, u)) := Entry(["p"], TTL)], map[])
  {
    var e, db, token := CachedThenRevoked(t, u, text), Granted(t, u), TokenFor(t, u);
    PermissionGoes(t, u);
    AfterNext(db, e, 0);
    AfterNext(db, e, 1);
    hide Step, Current, KeyOf, Granted;
    assert After(db, e, 0) == World(0, db, map[], map[]);
    assert After(db, e, 1) == World(0, db, map[], map[1 := Reading(token, ["p"], 0)]);
  }

  lemma RoleGoes(t: Uuid, u: Uuid, text: string)
    requires Parse(text) == Some(u)
    ensures var done := Step(Granted(t, u), OpRevoke(t, text, "dev", Absent));
      done.reply == Done && Current(done.db, TokenFor(t, u)) == []
  {
    hide Parse;
    var db := Granted(t, u);
    var view := View(db, Restricted(Some(t))).roles;
    assert 5 in view && view[5].name == "dev";
    var after := Step(db, OpRevoke(t, text, "dev", Absent)).db;
    assert after.userRoles == [];
    assert forall q :: !HoldsScoped(after, u, t, None, q);
  }

  /**
   A role is revoked from a user by some spelling of their id. The revocation succeeds and the
   permission is gone from the tables; the next validation still returns it, unless the
   spelling reaches the user.
   */
  lemma SpellingLeavesStale(t: Uuid, u: Uuid, text: string)
    requires Parse(text) == Some(u)
    ensures var w := After(Granted(t, u), CachedThenRevoked(t, u, text), 3); var token := TokenFor(t, u);
      && Current(w.db, token) == []
      && Served(w, Begin(2, token, true)) == if Spellings.Reaches(text, u) then None else Some((token, ["p"]))
  {
    var e, db, token := CachedThenRevoked(t, u, text), Granted(t, u), TokenFor(t, u);
    Cached(t, u, text);
    AfterNext(db, e, 2);
    RoleGoes(t, u, text);
    hide Step, After, Granted, Current, Parse, Spellings.Reaches, KeyOf, Invalidated, Lookup;
    RevokedAway(After(db, e, 2), t, text, token);
  }

  /** The one entry of the cache, invalidated by a spelling of its user. */
  lemma RevokedAway(w: World, t: Uuid, text: string, token: Token)
    requires w.entries == map[KeyOf(token) := Entry(["p"], TTL)] && w.reading == map[] && w.now == 0
    requires Parse(text) == Some(token.user) && Step(w.db, OpRevoke(t, text, "dev", Absent)).reply == Done
    ensures Served(Apply(w, Update(OpRevoke(t, text, "dev", Absent), true)), Begin(2, token, true))
         == if Spellings.Reaches(text, token.user) then None else Some((token, ["p"]))
  {
    InvalidationByText(w.entries, text, token);
    hide Step, Glob.Matches, KeyOf, Parse, Spellings.Reaches;
  }

  /**
   An id in braces, or between any two characters but a star or backslash and a star, leaves the
   old list in force.
   */
  lemma BracesLeaveStale(t: Uuid, u: Uuid, before: char, after: char)
    ensures var text := [before] + Canonical(u) + [after];
      var w := After(Granted(t, u), CachedThenRevoked(t, u, text), 3); var token := TokenFor(t, u);
      && Current(w.db, token) == []
      && Served(w, Begin(2, token, true))
         == if (before == '*' || before == '\\') && after == '*' then None else Some((token, ["p"]))
  {
    var text := [before] + Canonical(u) + [after];
    ParseOfSpellings(u, before, after);
    SpellingLeavesStale(t, u, text);
    hide Parse, Canonical, Current, After, Served;
    assert text[1..37] == Canonical(u) && text[0] == before && text[37] == after;
  }

  // ── The cached read of a validation ───────────────────────

  /** Answers from the cache or, on a miss, from the tables, which it then caches. */
  method LoadPermissions(db: Db, cache: Cache, token: Token, up: bool) returns (perms: seq<string>)
    modifies cache`entries
    ensures var hit := if up then Lookup(old(cache.entries), KeyOf(token), cache.now) else None;
      if hit.Some? then perms == hit.value && cache.entries == old(cache.entries)
      else
        && perms == Current(db, token)
        && cache.entries == (if up then old(cache.entries)[KeyOf(token) := Entry(perms, cache.now + TTL)]
                             else old(cache.entries))
  {
    var found := cache.GetPerms(Text(token.tenant), Text(token.project), Canonical(token.user), up);
    if found.Some? {
      return found.value;
    }
    if token.tenant.Some? {
      perms := GetUserPermissionsScoped(db, token.user, token.tenant.value, token.project);
    } else {
      perms := GetUserPermissions(db, token.user);
    }
    cache.SetPerms(Text(token.tenant), Text(token.project), Canonical(token.user), perms, up);
  }
}
