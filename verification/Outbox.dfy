/**
 The transactional outbox and its relays, statement by statement.

 Any number of relay processes fetch a batch, publish its rows one at a time under the row
 id as message id, and mark each row published. Between any two statements another relay
 may run, a transaction may commit a new row, or a process may die. A publish may be
 refused, or accepted with its acknowledgement lost; marking may fail before or after it
 took effect. A step that is not enabled leaves the world as it is, so every sequence of
 steps is a run.
 */
module Outbox {
  import opened Seqs

  const BATCH := 100

  datatype Event = Registered(user: nat) | Deleted(user: nat, hard: bool) | Restored(user: nat)

  datatype Row = Row(id: nat, at: nat, event: Event)

  /** What a relay does next: nothing, publish row `i` of its batch, or mark row `i`. */
  datatype Pc = Idle | Publishing(batch: seq<Row>, i: nat) | Marking(batch: seq<Row>, i: nat)

  /** `rows` in commit order; `stream` is every message the broker accepted, repeats included. */
  datatype World = World(rows: seq<Row>, published: set<nat>, stream: seq<Row>, relays: map<nat, Pc>)

  datatype PublishOutcome = Acked | AckLost | Refused
  datatype MarkOutcome = Marked | MarkedButFailed | NotMarked

  datatype Step =
    | Commit(row: Row)
    | Fetch(relay: nat, batch: seq<Row>)
    | Publish(relay: nat, sent: PublishOutcome)
    | Mark(relay: nat, marked: MarkOutcome)
    | Crash(relay: nat)

  function At(w: World, relay: nat): Pc {
    if relay in w.relays then w.relays[relay] else Idle
  }

  predicate DistinctIds(rows: seq<Row>) {
    forall i, j | 0 <= i < j < |rows| :: rows[i].id != rows[j].id
  }

  lemma IdsDiffer(rows: seq<Row>, r: Row, s: Row)
    requires DistinctIds(rows) && r in rows && s in rows && r != s
    ensures r.id != s.id
  {
  }

  function Ids(rows: seq<Row>): set<nat> {
    set r | r in rows :: r.id
  }

  function Unmarked(published: set<nat>, rows: seq<Row>): seq<Row> {
    Filter((r: Row) => r.id !in published, rows)
  }

  function Pending(w: World): seq<Row> {
    Unmarked(w.published, w.rows)
  }

  predicate SortedByTime(s: seq<Row>) {
    forall i, j | 0 <= i < j < |s| :: s[i].at <= s[j].at
  }

  /** The unpublished rows, oldest first, at most `BATCH` of them; rows of equal time in any order. */
  predicate IsBatch(w: World, batch: seq<Row>) {
    && |batch| == (if |Pending(w)| < BATCH then |Pending(w)| else BATCH)
    && Distinct(batch)
    && SortedByTime(batch)
    && (forall r | r in batch :: r in Pending(w))
    && (forall r, i | r in Pending(w) && r !in batch && 0 <= i < |batch| :: batch[i].at <= r.at)
  }

  function Apply(w: World, step: Step): World {
    match step
    case Commit(row) =>
      if exists r | r in w.rows :: r.id == row.id then w else w.(rows := w.rows + [row])
    case Fetch(relay, batch) =>
      if At(w, relay) != Idle || !IsBatch(w, batch) || batch == [] then w
      else w.(relays := w.relays[relay := Publishing(batch, 0)])
    case Publish(relay, sent) =>
      (match At(w, relay)
       case Publishing(batch, i) =>
         if i >= |batch| then w
         else w.(stream := if sent.Refused? then w.stream else w.stream + [batch[i]],
                 relays := w.relays[relay := if sent.Acked? then Marking(batch, i) else Idle])
       case _ => w)
    case Mark(relay, marked) =>
      (match At(w, relay)
       case Marking(batch, i) =>
         if i >= |batch| then w
         else w.(published := if marked.NotMarked? then w.published else w.published + {batch[i].id},
                 relays := w.relays[relay := if marked.Marked? && i + 1 < |batch|
                                             then Publishing(batch, i + 1) else Idle])
       case _ => w)
    case Crash(relay) => w.(relays := w.relays[relay := Idle])
  }

  function Exec(w: World, steps: seq<Step>): World
    decreases |steps|
  {
    if steps == [] then w else Exec(Apply(w, steps[0]), steps[1..])
  }

  lemma {:induction false} ExecConcat(w: World, a: seq<Step>, b: seq<Step>)
    ensures Exec(w, a + b) == Exec(Exec(w, a), b)
    decreases |a|
  {
    if a == [] {
      assert a + b == b;
    } else {
      ExecConcat(Apply(w, a[0]), a[1..], b);
      assert (a + b)[1..] == a[1..] + b;
    }
  }

  const START := World([], {}, [], map[])

  /** The stream as a consumer sees it: the broker drops a message whose id it already holds. */
  function Dedup(stream: seq<Row>): (d: seq<Row>)
    ensures forall r | r in stream :: r in d
    ensures forall r | r in d :: r in stream
    ensures Distinct(d)
  {
    if stream == [] then []
    else
      var before, last := Dedup(stream[..|stream| - 1]), stream[|stream| - 1];
      assert stream == stream[..|stream| - 1] + [last];
      if last in before then before else before + [last]
  }
}
