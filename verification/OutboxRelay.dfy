/** The relay's own code: one drain of a batch, and the polling loop around it. */
module OutboxRelay {
  import opened Seqs
  import opened Outbox

  // ── The fetch query ───────────────────────────────────────

  function InsertByTime(r: Row, s: seq<Row>): (t: seq<Row>)
    ensures |t| == |s| + 1
    ensures forall x :: x in t <==> x == r || x in s
  {
    if s == [] || r.at <= s[0].at then [r] + s
    else
      assert s == [s[0]] + s[1..];
      [s[0]] + InsertByTime(r, s[1..])
  }

  lemma {:induction false} InsertSorted(r: Row, s: seq<Row>)
    requires SortedByTime(s)
    ensures SortedByTime(InsertByTime(r, s))
  {
    if s != [] && s[0].at < r.at {
      InsertSorted(r, s[1..]);
      var t := InsertByTime(r, s[1..]);
      forall i | 0 <= i < |t| ensures s[0].at <= t[i].at {
        assert t[i] in t;
      }
    }
  }

  lemma {:induction false} InsertDistinct(r: Row, s: seq<Row>)
    requires Distinct(s) && r !in s
    ensures Distinct(InsertByTime(r, s))
  {
    if s != [] && s[0].at < r.at {
      InsertDistinct(r, s[1..]);
      assert s[0] !in s[1..];
    }
  }

  function OrderByTime(s: seq<Row>): (t: seq<Row>)
    ensures |t| == |s|
    ensures forall x :: x in t <==> x in s
  {
    if s == [] then []
    else
      assert s == [s[0]] + s[1..];
      InsertByTime(s[0], OrderByTime(s[1..]))
  }

  lemma {:induction false} OrderSorts(s: seq<Row>)
    requires Distinct(s)
    ensures SortedByTime(OrderByTime(s)) && Distinct(OrderByTime(s))
  {
    if s != [] {
      OrderSorts(s[1..]);
      InsertSorted(s[0], OrderByTime(s[1..]));
      InsertDistinct(s[0], OrderByTime(s[1..]));
    }
  }

  function FetchUnpublished(w: World, limit: nat): seq<Row> {
    var t := OrderByTime(Pending(w));
    if |t| <= limit then t else t[..limit]
  }

  lemma TakeOldest(t: seq<Row>, n: nat)
    requires SortedByTime(t) && Distinct(t) && n <= |t|
    ensures SortedByTime(t[..n]) && Distinct(t[..n])
    ensures forall r, i | r in t && r !in t[..n] && 0 <= i < n :: t[..n][i].at <= r.at
  {
    forall r, i | r in t && r !in t[..n] && 0 <= i < n ensures t[..n][i].at <= r.at {
      var k :| 0 <= k < |t| && t[k] == r;
      assert k >= n;
    }
  }

  lemma FetchIsBatch(w: World)
    requires Distinct(w.rows)
    ensures IsBatch(w, FetchUnpublished(w, BATCH))
  {
    FilterDistinct((r: Row) => r.id !in w.published, w.rows);
    OrderSorts(Pending(w));
    var t := OrderByTime(Pending(w));
    TakeOldest(t, if |t| <= BATCH then |t| else BATCH);
    assert t[..|t|] == t;
  }

  // ── One drain as a run of steps ───────────────────────────

  /** The statements that deliver one row, given what the publish and the mark return. */
  function DeliverSteps(relay: nat, sent: PublishOutcome, marked: MarkOutcome): seq<Step> {
    if sent.Acked? then [Publish(relay, sent), Mark(relay, marked)] else [Publish(relay, sent)]
  }

  /** The statements a drain executes from row `i` of `n` on: it stops after the first failure. */
  function DrainSteps(relay: nat, n: nat, i: nat, net: nat -> PublishOutcome, db: nat -> MarkOutcome): seq<Step>
    decreases n - i
  {
    if i >= n then []
    else
      DeliverSteps(relay, net(i), db(i))
      + if net(i).Acked? && db(i).Marked? then DrainSteps(relay, n, i + 1, net, db) else []
  }

  function TickSteps(w: World, relay: nat, net: nat -> PublishOutcome, db: nat -> MarkOutcome): seq<Step> {
    var batch := FetchUnpublished(w, BATCH);
    [Fetch(relay, batch)] + DrainSteps(relay, |batch|, 0, net, db)
  }

  function Tick(w: World, relay: nat, net: nat -> PublishOutcome, db: nat -> MarkOutcome): World {
    Exec(w, TickSteps(w, relay, net, db))
  }

  // ── What a drain does, failures included ──────────────────

  const ACKED: nat -> PublishOutcome := _ => Acked
  const MARKED: nat -> MarkOutcome := _ => Marked

  /** The first row from `i` on that is not both acknowledged and marked, or the end of the batch. */
  function FirstFailure(n: nat, i: nat, net: nat -> PublishOutcome, db: nat -> MarkOutcome): (k: nat)
    requires i <= n
    ensures i <= k <= n
    ensures forall j | i <= j < k :: net(j).Acked? && db(j).Marked?
    ensures k < n ==> !(net(k).Acked? && db(k).Marked?)
    decreases n - i
  {
    if i == n || !(net(i).Acked? && db(i).Marked?) then i else FirstFailure(n, i + 1, net, db)
  }

  /** Delivering one row: it is sent unless refused, marked unless that fails, and a failure ends the drain. */
  lemma DeliverOne(w: World, relay: nat, batch: seq<Row>, i: nat, sent: PublishOutcome, marked: MarkOutcome)
    requires i < |batch| && At(w, relay) == Publishing(batch, i)
    ensures var v := Exec(w, DeliverSteps(relay, sent, marked));
      && v.rows == w.rows && (forall other | other != relay :: At(v, other) == At(w, other))
      && At(v, relay) == (if sent == Acked && marked == Marked && i + 1 < |batch| then Publishing(batch, i + 1)
                          else Idle)
      && v.stream == (if sent == Refused then w.stream else w.stream + [batch[i]])
      && v.published == (if sent == Acked && marked != NotMarked then w.published + {batch[i].id} else w.published)
  {
    if sent == Acked {
      TwoSteps(w, Publish(relay, sent), Mark(relay, marked));
    } else {
      ExecNone(Apply(w, Publish(relay, sent)));
      assert [Publish(relay, sent)][1..] == [];
    }
  }

  lemma ExecNone(w: World)
    ensures Exec(w, []) == w
  {
  }

  lemma DrainUnfolds(relay: nat, n: nat, i: nat, net: nat -> PublishOutcome, db: nat -> MarkOutcome)
    requires i < n
    ensures DrainSteps(relay, n, i, net, db)
         == DeliverSteps(relay, net(i), db(i))
            + if net(i).Acked? && db(i).Marked? then DrainSteps(relay, n, i + 1, net, db) else []
  {
  }

  lemma DrainDone(relay: nat, n: nat, net: nat -> PublishOutcome, db: nat -> MarkOutcome)
    ensures DrainSteps(relay, n, n, net, db) == []
  {
  }

  /** What became of the batch: all before the first failure was delivered, and the failing row perhaps. */
  ghost predicate DrainedTo(w: World, u: World, relay: nat, batch: seq<Row>, i: nat, k: nat,
                      net: nat -> PublishOutcome, db: nat -> MarkOutcome)
    requires i <= k <= |batch|
  {
    && u.rows == w.rows && At(u, relay) == Idle && (forall other | other != relay :: At(u, other) == At(w, other))
    && u.stream == w.stream + batch[i..k] + (if k < |batch| && net(k) != Refused then [batch[k]] else [])
    && u.published == w.published + Ids(batch[i..k])
         + (if k < |batch| && net(k) == Acked && db(k) != NotMarked then {batch[k].id} else {})
  }

  lemma {:induction false} DrainOutcome(w: World, relay: nat, batch: seq<Row>, i: nat,
                                        net: nat -> PublishOutcome, db: nat -> MarkOutcome)
    requires i <= |batch|
    requires At(w, relay) == if i < |batch| then Publishing(batch, i) else Idle
    ensures DrainedTo(w, Exec(w, DrainSteps(relay, |batch|, i, net, db)), relay, batch, i,
                      FirstFailure(|batch|, i, net, db), net, db)
    decreases |batch| - i
  {
    var k := FirstFailure(|batch|, i, net, db);
    if i == |batch| {
      ExecNone(w);
      NothingDrained(w, relay, batch, net, db);
    } else {
      var head := DeliverSteps(relay, net(i), db(i));
      var tail := if net(i).Acked? && db(i).Marked? then DrainSteps(relay, |batch|, i + 1, net, db) else [];
      DrainUnfolds(relay, |batch|, i, net, db);
      ExecConcat(w, head, tail);
      var v := Exec(w, head);
      DeliverOne(w, relay, batch, i, net(i), db(i));
      if k == i {
        ExecNone(v);
        assert batch[i..i] == [] && tail == [];
        FailedAtOnce(w, v, relay, batch, i, net, db);
      } else {
        assert k == FirstFailure(|batch|, i + 1, net, db);
        DrainOutcome(v, relay, batch, i + 1, net, db);
        DrainedFurther(w, v, Exec(v, tail), relay, batch, i, k, net, db);
      }
    }
  }

  lemma NothingDrained(w: World, relay: nat, batch: seq<Row>, net: nat -> PublishOutcome, db: nat -> MarkOutcome)
    requires At(w, relay) == Idle
    ensures DrainedTo(w, w, relay, batch, |batch|, |batch|, net, db)
  {
    assert batch[|batch|..|batch|] == [];
  }

  lemma FailedAtOnce(w: World, v: World, relay: nat, batch: seq<Row>, i: nat,
                     net: nat -> PublishOutcome, db: nat -> MarkOutcome)
    requires i < |batch| && v.rows == w.rows && At(v, relay) == Idle
    requires forall other | other != relay :: At(v, other) == At(w, other)
    requires v.stream == if net(i) == Refused then w.stream else w.stream + [batch[i]]
    requires v.published
      == if net(i) == Acked && db(i) != NotMarked then w.published + {batch[i].id} else w.published
    ensures DrainedTo(w, v, relay, batch, i, i, net, db)
  {
    assert batch[i..i] == [];
  }

  lemma DrainedFurther(w: World, v: World, u: World, relay: nat, batch: seq<Row>, i: nat, k: nat,
                       net: nat -> PublishOutcome, db: nat -> MarkOutcome)
    requires i < k <= |batch| && v.rows == w.rows && (forall other | other != relay :: At(v, other) == At(w, other))
    requires v.stream == w.stream + [batch[i]] && v.published == w.published + {batch[i].id}
    requires DrainedTo(v, u, relay, batch, i + 1, k, net, db)
    ensures DrainedTo(w, u, relay, batch, i, k, net, db)
  {
    assert batch[i..k] == [batch[i]] + batch[i + 1..k];
    Associate(w.stream, [batch[i]], batch[i + 1..k]);
    assert Ids(batch[i..k]) == {batch[i].id} + Ids(batch[i + 1..k]);
    AssociateSets(w.published, {batch[i].id}, Ids(batch[i + 1..k]));
  }

  lemma AssociateSets(a: set<nat>, b: set<nat>, c: set<nat>)
    ensures a + (b + c) == (a + b) + c
  {
  }

  lemma TwoSteps(w: World, a: Step, b: Step)
    ensures Exec(w, [a, b]) == Apply(Apply(w, a), b)
  {
    assert [a, b][1..] == [b];
    assert Exec(Apply(w, a), [b]) == Exec(Apply(Apply(w, a), b), []);
  }

  lemma TickUnfolds(w: World, relay: nat, net: nat -> PublishOutcome, db: nat -> MarkOutcome)
    ensures var batch := FetchUnpublished(w, BATCH);
      Tick(w, relay, net, db) == Exec(Apply(w, Fetch(relay, batch)), DrainSteps(relay, |batch|, 0, net, db))
  {
    var batch := FetchUnpublished(w, BATCH);
    assert TickSteps(w, relay, net, db)[1..] == DrainSteps(relay, |batch|, 0, net, db);
  }

  lemma {:induction false} SetSize(s: seq<Row>)
    requires Distinct(s)
    ensures |set r | r in s| == |s|
  {
    if s != [] {
      SetSize(s[1..]);
      assert (set r | r in s) == {s[0]} + set r | r in s[1..];
      assert s[0] !in s[1..];
    }
  }

  lemma PendingLess(w: World, u: World, batch: seq<Row>)
    requires DistinctIds(w.rows) && u.rows == w.rows && u.published == w.published + Ids(batch)
    requires forall r | r in batch :: r in Pending(w)
    ensures forall r :: r in Pending(u) <==> r in Pending(w) && r !in batch
  {
    forall r | r in Pending(w) && r !in batch ensures r in Pending(u) {
      forall s | s in batch ensures s.id != r.id {
        IdsDiffer(w.rows, r, s);
      }
    }
  }

  /** Taking the distinct elements `gone` out of `before` leaves `after`; here are the lengths. */
  lemma SizeOfRest(before: seq<Row>, gone: seq<Row>, after: seq<Row>)
    requires Distinct(before) && Distinct(gone) && Distinct(after)
    requires forall r | r in gone :: r in before
    requires forall r :: r in after <==> r in before && r !in gone
    ensures |after| == |before| - |gone|
  {
    SetSize(before);
    SetSize(gone);
    SetSize(after);
    var b, g, a := set r | r in before, set r | r in gone, set r | r in after;
    assert a == b - g && g <= b;
  }

  /** Marking a batch of pending rows takes exactly them off the backlog. */
  lemma PendingShrinks(w: World, u: World, batch: seq<Row>)
    requires DistinctIds(w.rows) && u.rows == w.rows && u.published == w.published + Ids(batch)
    requires Distinct(batch) && forall r | r in batch :: r in Pending(w)
    ensures |Pending(u)| == |Pending(w)| - |batch|
  {
    FilterDistinct((r: Row) => r.id !in w.published, w.rows);
    FilterDistinct((r: Row) => r.id !in u.published, u.rows);
    PendingLess(w, u, batch);
    SizeOfRest(Pending(w), batch, Pending(u));
  }

  /**
   What one tick does, whatever fails: of the oldest unpublished rows those before the first
   failure are published and marked, the failing one is published if it was not refused and
   marked if the mark took effect, and no other is touched.
   */
  lemma TickOutcome(w: World, relay: nat, net: nat -> PublishOutcome, db: nat -> MarkOutcome)
    requires Distinct(w.rows) && At(w, relay) == Idle
    ensures var batch := FetchUnpublished(w, BATCH);
      DrainedTo(w, Tick(w, relay, net, db), relay, batch, 0, FirstFailure(|batch|, 0, net, db), net, db)
  {
    hide FetchUnpublished, Exec, DrainSteps, FirstFailure, IsBatch;
    var batch := FetchUnpublished(w, BATCH);
    FetchIsBatch(w);
    TickUnfolds(w, relay, net, db);
    FetchStarts(w, relay, batch);
    DrainOutcome(Apply(w, Fetch(relay, batch)), relay, batch, 0, net, db);
  }

  lemma FetchStarts(w: World, relay: nat, batch: seq<Row>)
    requires At(w, relay) == Idle && IsBatch(w, batch)
    ensures var v := Apply(w, Fetch(relay, batch));
      && v.rows == w.rows && v.stream == w.stream && v.published == w.published
      && At(v, relay) == (if batch == [] then Idle else Publishing(batch, 0))
      && (forall other | other != relay :: At(v, other) == At(w, other))
  {
    hide IsBatch;
  }

  lemma CleanTick(w: World, relay: nat, net: nat -> PublishOutcome, db: nat -> MarkOutcome)
    requires DistinctIds(w.rows) && At(w, relay) == Idle
    requires forall i :: net(i).Acked? && db(i).Marked?
    ensures var u := Tick(w, relay, net, db);
      && u.rows == w.rows && At(u, relay) == Idle
      && u.stream == w.stream + FetchUnpublished(w, BATCH)
      && u.published == w.published + Ids(FetchUnpublished(w, BATCH))
      && |Pending(u)| == if |Pending(w)| <= 100 then 0 else |Pending(w)| - 100
  {
    hide FetchUnpublished, Exec, Tick, Pending;
    var batch, u := FetchUnpublished(w, BATCH), Tick(w, relay, net, db);
    TickOutcome(w, relay, net, db);
    assert batch[0..|batch|] == batch;
    FetchIsBatch(w);
    PendingShrinks(w, u, batch);
  }

  // ── The relay as the service runs it ──────────────────────

  /** The outbox table and the broker, as one relay sees them while no other process runs. */
  class Backend {
    var rows: seq<Row>
    var published: set<nat>
    var stream: seq<Row>
    ghost var relays: map<nat, Pc>

    ghost function View(): World
      reads this
    {
      World(rows, published, stream, relays)
    }

    method FetchUnpublishedOutbox(limit: nat) returns (batch: seq<Row>)
      ensures batch == FetchUnpublished(View(), limit)
    {
      var done := published;
      batch := OrderByTime(Unmarked(done, rows));
      if |batch| > limit {
        batch := batch[..limit];
      }
    }

    method Publish(row: Row, sent: PublishOutcome) returns (err: bool)
      modifies this`stream
      ensures stream == if sent.Refused? then old(stream) else old(stream) + [row]
      ensures err == !sent.Acked?
    {
      if !sent.Refused? {
        stream := stream + [row];
      }
      err := !sent.Acked?;
    }

    method MarkOutboxPublished(id: nat, marked: MarkOutcome) returns (err: bool)
      modifies this`published
      ensures published == if marked.NotMarked? then old(published) else old(published) + {id}
      ensures err == !marked.Marked?
    {
      if !marked.NotMarked? {
        published := published + {id};
      }
      err := !marked.Marked?;
    }
  }

  class Relay {
    const id: nat
    const q: Backend

    constructor (id: nat, q: Backend)
      ensures this.id == id && this.q == q
    {
      this.id := id;
      this.q := q;
    }

    method FetchBatch() returns (batch: seq<Row>)
      requires Distinct(q.rows) && At(q.View(), id) == Idle
      modifies q
      ensures batch == FetchUnpublished(old(q.View()), BATCH)
      ensures q.View() == Apply(old(q.View()), Fetch(id, batch))
      ensures At(q.View(), id) == if batch != [] then Publishing(batch, 0) else Idle
      ensures q.rows == old(q.rows)
    {
      batch := q.FetchUnpublishedOutbox(BATCH);
      FetchIsBatch(q.View());
      if batch != [] {
        q.relays := q.relays[id := Publishing(batch, 0)];
      }
    }

    /** Publishes row `i` and marks it; either may fail. */
    method Deliver(batch: seq<Row>, i: nat, sent: PublishOutcome, marked: MarkOutcome) returns (err: bool)
      requires i < |batch| && At(q.View(), id) == Publishing(batch, i)
      modifies q
      ensures q.View() == Exec(old(q.View()), DeliverSteps(id, sent, marked))
      ensures q.rows == old(q.rows)
      ensures At(q.View(), id) == if !err && i + 1 < |batch| then Publishing(batch, i + 1) else Idle
      ensures err == !(sent.Acked? && marked.Marked?)
    {
      ghost var before := q.View();
      err := q.Publish(batch[i], sent);
      q.relays := q.relays[id := if err then Idle else Marking(batch, i)];
      ghost var mid := q.View();
      assert mid == Apply(before, Outbox.Publish(id, sent));
      if err {
        return;
      }
      TwoSteps(before, Outbox.Publish(id, sent), Mark(id, marked));
      err := q.MarkOutboxPublished(batch[i].id, marked);
      q.relays := q.relays[id := if !err && i + 1 < |batch| then Publishing(batch, i + 1) else Idle];
      assert q.View() == Apply(mid, Mark(id, marked));
    }

    /** Delivers row `i`; what is left of the drain is then what the remaining rows need. */
    method DeliverNext(batch: seq<Row>, i: nat, net: nat -> PublishOutcome, db: nat -> MarkOutcome) returns (err: bool)
      requires i < |batch| && At(q.View(), id) == Publishing(batch, i)
      modifies q
      ensures Exec(old(q.View()), DrainSteps(id, |batch|, i, net, db))
           == if err then q.View() else Exec(q.View(), DrainSteps(id, |batch|, i + 1, net, db))
      ensures q.rows == old(q.rows)
      ensures At(q.View(), id) == if !err && i + 1 < |batch| then Publishing(batch, i + 1) else Idle
      ensures err == !(net(i).Acked? && db(i).Marked?)
    {
      DrainUnfolds(id, |batch|, i, net, db);
      ExecConcat(q.View(), DeliverSteps(id, net(i), db(i)),
                 if net(i).Acked? && db(i).Marked? then DrainSteps(id, |batch|, i + 1, net, db) else []);
      hide *;
      err := Deliver(batch, i, net(i), db(i));
      ExecNone(q.View());
    }

    /**
     One pass over a batch. It has the effect of the steps `TickSteps` lists, stops at the first
     failure and reports it; a fetch that fails leaves everything as it is.
     */
    method Drain(fetched: bool, net: nat -> PublishOutcome, db: nat -> MarkOutcome) returns (err: bool)
      requires Distinct(q.rows) && At(q.View(), id) == Idle
      modifies q
      ensures q.View() == if fetched then Tick(old(q.View()), id, net, db) else old(q.View())
      ensures err == !(fetched && AllDelivered(|FetchUnpublished(old(q.View()), BATCH)|, net, db))
      ensures At(q.View(), id) == Idle && q.rows == old(q.rows)
    {
      if !fetched {
        return true;
      }
      TickUnfolds(q.View(), id, net, db);
      hide *;
      var batch := FetchBatch();
      var i := 0;
      assert AllDelivered(0, net, db) by {
        DeliveredSoFar(0, net, db);
      }
      while i < |batch|
        invariant i <= |batch|
        invariant q.rows == old(q.rows)
        invariant At(q.View(), id) == if i < |batch| then Publishing(batch, i) else Idle
        invariant Exec(q.View(), DrainSteps(id, |batch|, i, net, db)) == Tick(old(q.View()), id, net, db)
        invariant AllDelivered(i, net, db)
      {
        err := DeliverNext(batch, i, net, db);
        DeliveredSoFar(i, net, db);
        if err {
          NotAllDelivered(i, |batch|, net, db);
          return;
        }
        i := i + 1;
      }
      DrainDone(id, |batch|, net, db);
      ExecNone(q.View());
      err := false;
    }

    /** The polling loop over `ticks` ticks: a failed drain is logged, and the next tick retries. */
    method Run(ticks: nat, fetched: nat -> bool, net: (nat, nat) -> PublishOutcome, db: (nat, nat) -> MarkOutcome)
      requires Distinct(q.rows) && At(q.View(), id) == Idle
      modifies q
      ensures q.View() == Ticks(old(q.View()), id, ticks, fetched, net, db)
      ensures q.rows == old(q.rows) && At(q.View(), id) == Idle
      ensures forall j: nat | j <= ticks && DistinctIds(q.rows) && CleanFrom(j, ticks, fetched, net, db) ::
        Pending(q.View()) == []
        <==> (|Pending(Ticks(old(q.View()), id, j, fetched, net, db))| + 99) / 100 <= ticks - j
    {
      var k := 0;
      while k < ticks
        invariant k <= ticks
        invariant q.rows == old(q.rows) && At(q.View(), id) == Idle
        invariant q.View() == Ticks(old(q.View()), id, k, fetched, net, db)
      {
        var err := Drain(fetched(k), OfTick(net, k), OfTick(db, k));
        k := k + 1;
      }
      forall j: nat | j <= ticks && DistinctIds(q.rows) && CleanFrom(j, ticks, fetched, net, db)
        ensures Pending(q.View()) == []
          <==> (|Pending(Ticks(old(q.View()), id, j, fetched, net, db))| + 99) / 100 <= ticks - j
      {
        BacklogDrains(old(q.View()), id, j, ticks - j, fetched, net, db);
      }
    }
  }

  /** The first `n` rows were all acknowledged and marked. */
  predicate AllDelivered(n: nat, net: nat -> PublishOutcome, db: nat -> MarkOutcome) {
    forall i | 0 <= i < n :: net(i).Acked? && db(i).Marked?
  }

  lemma DeliveredSoFar(i: nat, net: nat -> PublishOutcome, db: nat -> MarkOutcome)
    ensures AllDelivered(0, net, db)
    ensures AllDelivered(i + 1, net, db) <==> AllDelivered(i, net, db) && net(i).Acked? && db(i).Marked?
  {
  }

  lemma NotAllDelivered(i: nat, n: nat, net: nat -> PublishOutcome, db: nat -> MarkOutcome)
    requires i < n && !(net(i).Acked? && db(i).Marked?)
    ensures !AllDelivered(n, net, db)
  {
  }

  function OfTick<T>(outcome: (nat, nat) -> T, k: nat): nat -> T {
    (i: nat) => outcome(k, i)
  }

  function Ticks(w: World, relay: nat, k: nat, fetched: nat -> bool,
                 net: (nat, nat) -> PublishOutcome, db: (nat, nat) -> MarkOutcome): World {
    if k == 0 then w
    else
      var before := Ticks(w, relay, k - 1, fetched, net, db);
      if fetched(k - 1) then Tick(before, relay, OfTick(net, k - 1), OfTick(db, k - 1)) else before
  }

  /**
   Every tick starts where the one before it ended: one whose fetch fails changes nothing, and
   any other delivers the oldest rows then unpublished up to its own first failure.
   */
  lemma {:induction false} TicksOutcome(w: World, relay: nat, k: nat, fetched: nat -> bool,
                                        net: (nat, nat) -> PublishOutcome, db: (nat, nat) -> MarkOutcome)
    requires Distinct(w.rows) && At(w, relay) == Idle
    ensures Ticks(w, relay, 0, fetched, net, db) == w
    ensures var u, v := Ticks(w, relay, k, fetched, net, db), Ticks(w, relay, k + 1, fetched, net, db);
      var batch, n, d := FetchUnpublished(u, BATCH), OfTick(net, k), OfTick(db, k);
      && u.rows == w.rows && At(u, relay) == Idle
      && (fetched(k) ==> DrainedTo(u, v, relay, batch, 0, FirstFailure(|batch|, 0, n, d), n, d))
      && (!fetched(k) ==> v == u)
    decreases k
  {
    hide Tick, FetchUnpublished, FirstFailure;
    if k > 0 {
      TicksOutcome(w, relay, k - 1, fetched, net, db);
    }
    if fetched(k) {
      TickOutcome(Ticks(w, relay, k, fetched, net, db), relay, OfTick(net, k), OfTick(db, k));
    }
  }

  /** Nothing fails in tick `k`. */
  ghost predicate Clean(k: nat, fetched: nat -> bool,
                        net: (nat, nat) -> PublishOutcome, db: (nat, nat) -> MarkOutcome) {
    fetched(k) && forall i: nat :: net(k, i).Acked? && db(k, i).Marked?
  }

  ghost predicate CleanFrom(j: nat, end: nat, fetched: nat -> bool,
                            net: (nat, nat) -> PublishOutcome, db: (nat, nat) -> MarkOutcome) {
    forall t: nat | j <= t < end :: Clean(t, fetched, net, db)
  }

  lemma {:induction false} BacklogAfter(w: World, relay: nat, j: nat, k: nat, fetched: nat -> bool,
                                        net: (nat, nat) -> PublishOutcome, db: (nat, nat) -> MarkOutcome)
    requires DistinctIds(w.rows) && At(w, relay) == Idle
    requires CleanFrom(j, j + k, fetched, net, db)
    ensures var left := |Pending(Ticks(w, relay, j, fetched, net, db))|;
      |Pending(Ticks(w, relay, j + k, fetched, net, db))| == if left <= 100 * k then 0 else left - 100 * k
    decreases k
  {
    hide Tick, Pending, FetchUnpublished, FirstFailure;
    if k > 0 {
      BacklogAfter(w, relay, j, k - 1, fetched, net, db);
      TicksOutcome(w, relay, j + k - 1, fetched, net, db);
      assert Clean(j + k - 1, fetched, net, db);
      CleanTick(Ticks(w, relay, j + k - 1, fetched, net, db), relay, OfTick(net, j + k - 1), OfTick(db, j + k - 1));
    }
  }

  /**
   Whatever failed in the first `j` ticks is retried: a lone relay then empties the backlog of
   `n` rows they left in ⌈n/100⌉ ticks without failures, and no sooner.
   */
  lemma BacklogDrains(w: World, relay: nat, j: nat, k: nat, fetched: nat -> bool,
                      net: (nat, nat) -> PublishOutcome, db: (nat, nat) -> MarkOutcome)
    requires DistinctIds(w.rows) && At(w, relay) == Idle
    requires CleanFrom(j, j + k, fetched, net, db)
    ensures Pending(Ticks(w, relay, j + k, fetched, net, db)) == []
      <==> (|Pending(Ticks(w, relay, j, fetched, net, db))| + 99) / 100 <= k
  {
    hide Pending, Ticks;
    BacklogAfter(w, relay, j, k, fetched, net, db);
  }

  // ── At least once ─────────────────────────────────────────

  /** Ways to interrupt the delivery of a row after it was accepted and before it is marked. */
  predicate Interruption(relay: nat, cut: seq<Step>) {
    || cut == [Publish(relay, AckLost)]
    || cut == [Publish(relay, Acked), Crash(relay)]
    || cut == [Publish(relay, Acked), Mark(relay, NotMarked)]
  }

  lemma Interrupted(w: World, relay: nat, batch: seq<Row>, cut: seq<Step>)
    requires At(w, relay) == Idle && IsBatch(w, batch) && batch != [] && Interruption(relay, cut)
    ensures var v := Exec(w, [Fetch(relay, batch)] + cut);
      v.rows == w.rows && v.published == w.published && v.stream == w.stream + [batch[0]] && At(v, relay) == Idle
  {
    hide IsBatch;
    FetchStarts(w, relay, batch);
    var u := Apply(w, Fetch(relay, batch));
    assert ([Fetch(relay, batch)] + cut)[1..] == cut;
    if |cut| == 1 {
      assert cut[1..] == [];
      ExecNone(Apply(u, cut[0]));
    } else {
      assert cut == [cut[0], cut[1]];
      TwoSteps(u, cut[0], cut[1]);
    }
  }

  /**
   Delivery is at least once, not exactly once: interrupted after it was accepted, the oldest
   row is accepted again by the next tick, once more than consumers see it.
   */
  lemma InterruptedRowRepeats(w: World, relay: nat, cut: seq<Step>)
    requires DistinctIds(w.rows) && At(w, relay) == Idle && Interruption(relay, cut) && Pending(w) != []
    ensures var batch := FetchUnpublished(w, BATCH);
      var v := Exec(w, [Fetch(relay, batch)] + cut); var u := Tick(v, relay, ACKED, MARKED);
      && batch != [] && u.stream == w.stream + [batch[0]] + batch
      && Dedup(u.stream) == Dedup(w.stream + batch)
  {
    hide FetchUnpublished, Tick, Exec;
    var batch := FetchUnpublished(w, BATCH);
    FetchIsBatch(w);
    Interrupted(w, relay, batch, cut);
    var v := Exec(w, [Fetch(relay, batch)] + cut);
    SameFetch(w, v);
    CleanTick(v, relay, ACKED, MARKED);
    RepeatDropped(w.stream, batch[0], batch);
  }

  lemma SameFetch(w: World, v: World)
    requires v.rows == w.rows && v.published == w.published
    ensures FetchUnpublished(v, BATCH) == FetchUnpublished(w, BATCH)
  {
  }

  lemma DedupNext(stream: seq<Row>, r: Row)
    ensures Dedup(stream + [r]) == if r in stream then Dedup(stream) else Dedup(stream) + [r]
  {
    assert (stream + [r])[..|stream|] == stream;
  }

  lemma {:induction false} RepeatDropped(stream: seq<Row>, r: Row, batch: seq<Row>)
    requires batch != [] && batch[0] == r
    ensures Dedup(stream + [r] + batch) == Dedup(stream + batch)
    decreases |batch|
  {
    hide Dedup;
    var init, last := batch[..|batch| - 1], batch[|batch| - 1];
    assert stream + [r] + batch == (stream + [r] + init) + [last] && stream + batch == (stream + init) + [last];
    DedupNext(stream + [r] + init, last);
    DedupNext(stream + init, last);
    if |batch| == 1 {
      assert stream + [r] + init == stream + [r] && stream + init == stream;
      DedupNext(stream, r);
    } else {
      RepeatDropped(stream, r, init);
      assert r in init;
    }
  }

  lemma {:induction false} DrainNeverCommits(relay: nat, n: nat, i: nat, net: nat -> PublishOutcome,
                                           db: nat -> MarkOutcome)
    ensures forall s | s in DrainSteps(relay, n, i, net, db) :: !s.Commit?
    decreases n - i
  {
    if i < n {
      DrainNeverCommits(relay, n, i + 1, net, db);
    }
  }
}
