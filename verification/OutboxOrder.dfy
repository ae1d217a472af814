/** In which order the outbox reaches the broker, over every run. */
module OutboxOrder {
  import opened Seqs
  import opened Outbox

  /** Everything older than an accepted row was accepted. */
  predicate DownwardClosed(rows: seq<Row>, stream: seq<Row>) {
    forall r, s | r in rows && s in stream && r.at < s.at :: r in stream
  }

  /** The deduplicated stream holds rows of the outbox, oldest first, with no older row missing. */
  ghost predicate Ordered(w: World) {
    var d := Dedup(w.stream);
    && (forall r | r in d :: r in w.rows)
    && SortedByTime(d)
    && DownwardClosed(w.rows, d)
  }

  // ── The invariant ─────────────────────────────────────────

  function Sent(pc: Pc): nat {
    match pc
    case Idle => 0
    case Publishing(_, i) => i
    case Marking(_, i) => i + 1
  }

  /** A relay holds visible rows, those before its position were accepted, and no older row was overlooked. */
  ghost predicate RelayOk(w: World, pc: Pc) {
    pc.Idle? ||
    (&& pc.i < |pc.batch|
     && (forall r | r in pc.batch :: r in w.rows)
     && (forall k | 0 <= k < Sent(pc) :: pc.batch[k] in w.stream)
     && (forall r, j | r in w.rows && 0 <= j < |pc.batch| && r.at < pc.batch[j].at ::
           r in w.stream || IsAmong(r, pc.batch, j)))
  }

  predicate IsAmong(r: Row, batch: seq<Row>, n: nat)
    requires n <= |batch|
  {
    exists k | 0 <= k < n :: batch[k] == r
  }

  ghost predicate TablesOk(w: World) {
    && DistinctIds(w.rows)
    && SortedByTime(w.rows)
    && (forall r | r in w.stream :: r in w.rows)
    && w.published <= Ids(w.stream)
    && Ordered(w)
  }

  ghost predicate Inv(w: World) {
    && TablesOk(w)
    && (forall relay | relay in w.relays :: RelayOk(w, w.relays[relay]))
  }

  /** The next row to commit was created no earlier than any visible one. */
  predicate InOrder(w: World, step: Step) {
    step.Commit? ==> forall r | r in w.rows :: r.at <= step.row.at
  }

  /** A pending row older than one in a fetched batch stands earlier in the batch. */
  lemma OlderThanBatch(w: World, batch: seq<Row>, r: Row, j: nat)
    requires IsBatch(w, batch) && r in Pending(w) && j < |batch| && r.at < batch[j].at
    ensures IsAmong(r, batch, j)
  {
    hide Pending;
    assert r in batch;
    var k :| 0 <= k < |batch| && batch[k] == r;
    assert k < j;
  }

  lemma SameId(rows: seq<Row>, r: Row, s: Row)
    requires DistinctIds(rows) && r in rows && s in rows && r.id == s.id
    ensures r == s
  {
  }

  lemma FetchOk(w: World, batch: seq<Row>)
    requires TablesOk(w) && IsBatch(w, batch) && batch != []
    ensures RelayOk(w, Publishing(batch, 0))
  {
    forall r, j | r in w.rows && 0 <= j < |batch| && r.at < batch[j].at
      ensures r in w.stream || IsAmong(r, batch, j)
    {
      if r.id in w.published {
        var s :| s in w.stream && s.id == r.id;
        SameId(w.rows, r, s);
      } else {
        assert r in Pending(w);
        OlderThanBatch(w, batch, r, j);
      }
    }
    forall r | r in batch ensures r in w.rows {
      assert r in Pending(w);
    }
  }

  /** A relay about to publish sends a row the stream holds, or the oldest one it lacks. */
  lemma PublishOk(w: World, row: Row)
    requires TablesOk(w) && row in w.rows
    requires forall r | r in w.rows && r.at < row.at :: r in w.stream
    ensures TablesOk(w.(stream := w.stream + [row]))
  {
    var d := Dedup(w.stream);
    var stream := w.stream + [row];
    assert stream[..|stream| - 1] == w.stream;
    if row !in d {
      assert forall s | s in d :: s.at <= row.at;
      assert Dedup(stream) == d + [row];
    }
  }

  lemma RelayStays(w: World, u: World, pc: Pc)
    requires RelayOk(w, pc)
    requires forall r | r in w.rows :: r in u.rows
    requires forall r | r in w.stream :: r in u.stream
    requires forall r, s | r in u.rows && r !in w.rows && s in w.rows :: s.at <= r.at
    ensures RelayOk(u, pc)
  {
  }

  lemma RelaysStay(w: World, u: World)
    requires forall relay | relay in w.relays :: RelayOk(w, w.relays[relay])
    requires forall r | r in w.rows :: r in u.rows
    requires forall r | r in w.stream :: r in u.stream
    requires forall r, s | r in u.rows && r !in w.rows && s in w.rows :: s.at <= r.at
    ensures forall relay | relay in w.relays :: RelayOk(u, w.relays[relay])
  {
    forall relay | relay in w.relays ensures RelayOk(u, w.relays[relay]) {
      RelayStays(w, u, w.relays[relay]);
    }
  }

  lemma CommitKeepsInv(w: World, row: Row)
    requires Inv(w) && forall r | r in w.rows :: r.at <= row.at
    ensures Inv(Apply(w, Commit(row)))
  {
    RelaysStay(w, Apply(w, Commit(row)));
  }

  /** The row at a relay's position has nothing older left behind it. */
  lemma NextIsOldest(w: World, pc: Pc)
    requires RelayOk(w, pc) && pc.Publishing?
    ensures forall r | r in w.rows && r.at < pc.batch[pc.i].at :: r in w.stream
  {
  }

  lemma AcceptedRelay(w: World, v: World, pc: Pc)
    requires RelayOk(w, pc) && pc.Publishing?
    requires v.rows == w.rows && v.stream == w.stream + [pc.batch[pc.i]]
    ensures RelayOk(v, Marking(pc.batch, pc.i))
  {
    RelayStays(w, v, pc);
  }

  lemma AcceptKeepsInv(w: World, pc: Pc)
    requires Inv(w) && RelayOk(w, pc) && pc.Publishing?
    ensures Inv(w.(stream := w.stream + [pc.batch[pc.i]]))
  {
    var v := w.(stream := w.stream + [pc.batch[pc.i]]);
    assert TablesOk(v) by {
      NextIsOldest(w, pc);
      assert pc.batch[pc.i] in w.rows;
      PublishOk(w, pc.batch[pc.i]);
    }
    hide TablesOk;
    RelaysStay(w, v);
  }

  lemma PublishKeepsInv(w: World, relay: nat, sent: PublishOutcome)
    requires Inv(w)
    ensures Inv(Apply(w, Publish(relay, sent)))
  {
    var pc := At(w, relay);
    if pc.Publishing? {
      if sent.Refused? {
        MoveRelay(w, relay, Idle);
      } else {
        AcceptKeepsInv(w, pc);
        AcceptedRelay(w, w.(stream := w.stream + [pc.batch[pc.i]]), pc);
        MoveRelay(w.(stream := w.stream + [pc.batch[pc.i]]), relay,
                  if sent.Acked? then Marking(pc.batch, pc.i) else Idle);
      }
    }
  }

  lemma MoveRelay(w: World, relay: nat, pc: Pc)
    requires Inv(w) && RelayOk(w, pc)
    ensures Inv(w.(relays := w.relays[relay := pc]))
  {
    RelaysStay(w, w.(relays := w.relays[relay := pc]));
  }

  lemma MarkKeepsInv(w: World, relay: nat, marked: MarkOutcome)
    requires Inv(w)
    ensures Inv(Apply(w, Mark(relay, marked)))
  {
    var u, pc := Apply(w, Mark(relay, marked)), At(w, relay);
    RelaysStay(w, u);
    if pc.Marking? {
      assert pc.batch[pc.i] in w.stream;
    }
  }

  lemma StepKeepsInv(w: World, step: Step)
    requires Inv(w) && InOrder(w, step)
    ensures Inv(Apply(w, step))
  {
    match step
    case Commit(row) => CommitKeepsInv(w, row);
    case Fetch(relay, batch) =>
      if IsBatch(w, batch) && batch != [] {
        FetchOk(w, batch);
      }
      RelaysStay(w, Apply(w, step));
    case Publish(relay, sent) => PublishKeepsInv(w, relay, sent);
    case Mark(relay, marked) => MarkKeepsInv(w, relay, marked);
    case Crash(relay) => RelaysStay(w, Apply(w, step));
  }
}
