/** What consumers of the outbox stream may rely on, and exactly when. */
module OutboxTheorems {
  import opened Seqs
  import opened Outbox
  import opened OutboxOrder
  import opened OutboxRelay

  /** The rows a run commits, in commit order. */
  function Commits(steps: seq<Step>): seq<Row> {
    if steps == [] then []
    else if steps[0].Commit? then [steps[0].row] + Commits(steps[1..])
    else Commits(steps[1..])
  }

  lemma {:induction false} CommitsConcat(a: seq<Step>, b: seq<Step>)
    ensures Commits(a + b) == Commits(a) + Commits(b)
  {
    if a == [] {
      assert a + b == b;
    } else {
      CommitsConcat(a[1..], b);
      assert (a + b)[1..] == a[1..] + b;
    }
  }

  lemma {:induction false} RowsAreCommits(w: World, steps: seq<Step>)
    requires DistinctIds(w.rows + Commits(steps))
    ensures Exec(w, steps).rows == w.rows + Commits(steps)
    decreases |steps|
  {
    if steps != [] {
      var v := Apply(w, steps[0]);
      if steps[0].Commit? {
        var all := w.rows + Commits(steps);
        assert all[|w.rows|] == steps[0].row;
        forall r | r in w.rows ensures r.id != steps[0].row.id {
          var k :| 0 <= k < |w.rows| && w.rows[k] == r;
          assert all[k] == r;
        }
        assert v.rows + Commits(steps[1..]) == all;
      }
      RowsAreCommits(v, steps[1..]);
    }
  }

  lemma {:induction false} RunKeepsInv(w: World, steps: seq<Step>)
    requires Inv(w) && SortedByTime(w.rows + Commits(steps)) && DistinctIds(w.rows + Commits(steps))
    ensures Inv(Exec(w, steps))
    decreases |steps|
  {
    if steps != [] {
      var v := Apply(w, steps[0]);
      var all := w.rows + Commits(steps);
      if steps[0].Commit? {
        assert all[|w.rows|] == steps[0].row;
        forall r | r in w.rows ensures r.at <= steps[0].row.at && r.id != steps[0].row.id {
          var k :| 0 <= k < |w.rows| && w.rows[k] == r;
          assert all[k] == r;
        }
        assert v.rows + Commits(steps[1..]) == all;
      }
      StepKeepsInv(w, steps[0]);
      RunKeepsInv(v, steps[1..]);
    }
  }

  /** However relays interleave, crash and lose messages, rows committed as `commits` reach consumers in order. */
  ghost predicate Guaranteed(commits: seq<Row>) {
    forall steps | Commits(steps) == commits :: Ordered(Exec(START, steps))
  }

  // ── Commits out of order can always break it ──────────────

  function CommitSteps(rows: seq<Row>): (steps: seq<Step>)
    ensures forall s | s in steps :: s.Commit?
  {
    if rows == [] then [] else [Commit(rows[0])] + CommitSteps(rows[1..])
  }

  lemma {:induction false} OnlyCommits(w: World, rows: seq<Row>)
    ensures Commits(CommitSteps(rows)) == rows
    ensures var u := Exec(w, CommitSteps(rows));
      u.stream == w.stream && u.published == w.published && u.relays == w.relays
    decreases |rows|
  {
    if rows != [] {
      OnlyCommits(Apply(w, Commit(rows[0])), rows[1..]);
      assert CommitSteps(rows)[1..] == CommitSteps(rows[1..]);
    }
  }

  /** Some run without commits gets every pending row accepted. */
  lemma {:induction false} DrainAll(w: World, n: nat) returns (steps: seq<Step>)
    requires DistinctIds(w.rows) && At(w, 0) == Idle && |Pending(w)| <= n
    requires w.published <= Ids(w.stream)
    requires forall r | r in w.stream :: r in w.rows
    ensures Commits(steps) == []
    ensures var u := Exec(w, steps);
      && (forall r | r in w.rows :: r in u.stream)
      && (forall r | r in u.stream :: r in w.rows)
    decreases n
  {
    if Pending(w) == [] {
      steps := [];
      forall r | r in w.rows ensures r in w.stream {
        assert r !in Pending(w);
        var s :| s in w.stream && s.id == r.id;
        assert s == r;
      }
    } else {
      var tick := TickSteps(w, 0, ACKED, MARKED);
      var v := Exec(w, tick);
      TickFacts(w);
      steps := DrainAll(v, n - 1);
      ExecConcat(w, tick, steps);
      CommitsConcat(tick, steps);
      steps := tick + steps;
    }
  }

  lemma TickFacts(w: World)
    requires DistinctIds(w.rows) && At(w, 0) == Idle && Pending(w) != []
    requires w.published <= Ids(w.stream)
    requires forall r | r in w.stream :: r in w.rows
    ensures var v := Tick(w, 0, ACKED, MARKED);
      && v.rows == w.rows && At(v, 0) == Idle && |Pending(v)| < |Pending(w)|
      && v.published <= Ids(v.stream)
      && (forall r | r in v.stream :: r in w.rows)
    ensures Commits(TickSteps(w, 0, ACKED, MARKED)) == []
  {
    CleanTick(w, 0, ACKED, MARKED);
    FetchIsBatch(w);
    NoCommits(TickSteps(w, 0, ACKED, MARKED)) by {
      DrainNeverCommits(0, |FetchUnpublished(w, BATCH)|, 0, ACKED, MARKED);
    }
  }

  lemma {:induction false} NoCommits(steps: seq<Step>)
    requires forall s | s in steps :: !s.Commit?
    ensures Commits(steps) == []
  {
    if steps != [] {
      NoCommits(steps[1..]);
    }
  }

  /** If a row commits after a younger one, some run of the relays publishes the younger one first. */
  lemma Overtaken(commits: seq<Row>, i: nat, j: nat)
    requires DistinctIds(commits) && i < j < |commits| && commits[j].at < commits[i].at
    ensures !Guaranteed(commits)
  {
    var steps := Overtaking(commits, i);
    var u := Exec(START, steps);
    assert commits[i] in u.stream && commits[j] in u.rows;
    assert commits[j] !in commits[..i + 1];
    assert !DownwardClosed(u.rows, Dedup(u.stream));
    assert !Ordered(u);
  }

  /** The run that commits the first rows, drains them, and then commits the others. */
  lemma Overtaking(commits: seq<Row>, i: nat) returns (steps: seq<Step>)
    requires DistinctIds(commits) && i < |commits|
    ensures Commits(steps) == commits
    ensures var u := Exec(START, steps);
      && u.rows == commits
      && (forall r | r in commits[..i + 1] :: r in u.stream)
      && (forall r | r in u.stream :: r in commits[..i + 1])
  {
    var early, late := commits[..i + 1], commits[i + 1..];
    assert commits == early + late;
    var first := CommitAndDrain(early);
    var v := Exec(START, first);
    OnlyCommits(v, late);
    steps := first + CommitSteps(late);
    ExecConcat(START, first, CommitSteps(late));
    CommitsConcat(first, CommitSteps(late));
    assert START.rows + commits == commits;
    hide Exec;
    RowsAreCommits(START, steps);
  }

  lemma CommitAndDrain(early: seq<Row>) returns (steps: seq<Step>)
    requires DistinctIds(early)
    ensures Commits(steps) == early
    ensures var u := Exec(START, steps);
      && (forall r | r in early :: r in u.stream)
      && (forall r | r in u.stream :: r in early)
  {
    OnlyCommits(START, early);
    var w := Exec(START, CommitSteps(early));
    assert START.rows + early == early;
    RowsAreCommits(START, CommitSteps(early));
    hide Exec, Apply, Commits, CommitSteps;
    var drain := DrainAll(w, |Pending(w)|);
    steps := CommitSteps(early) + drain;
    ExecConcat(START, CommitSteps(early), drain);
    CommitsConcat(CommitSteps(early), drain);
  }

  /**
   The deduplicated stream is ordered and gap-free in every run of any number of relays
   exactly when rows become visible in the order of their creation times.
   */
  lemma StreamOrdered(commits: seq<Row>)
    requires DistinctIds(commits)
    ensures Guaranteed(commits) <==> SortedByTime(commits)
  {
    if SortedByTime(commits) {
      forall steps | Commits(steps) == commits ensures Ordered(Exec(START, steps)) {
        assert START.rows + commits == commits;
        RunKeepsInv(START, steps);
      }
    } else {
      var i, j :| 0 <= i < j < |commits| && commits[i].at > commits[j].at;
      Overtaken(commits, i, j);
    }
  }

  // ── Without ties: exactly a prefix ────────────────────────

  predicate StrictlySorted(rows: seq<Row>) {
    forall i, j | 0 <= i < j < |rows| :: rows[i].at < rows[j].at
  }

  lemma ShorterPrefix(rows: seq<Row>, before: seq<Row>, last: Row)
    requires StrictlySorted(rows)
    requires Distinct(before + [last]) && SortedByTime(before + [last]) && DownwardClosed(rows, before + [last])
    requires forall r | r in before + [last] :: r in rows
    ensures last in rows && last !in before
    ensures Distinct(before) && SortedByTime(before) && DownwardClosed(rows, before)
    ensures forall r | r in rows && r.at < last.at :: r in before
  {
    var d, n := before + [last], |before|;
    assert d[n] == last && forall k | 0 <= k < n :: d[k] == before[k];
    forall r, s | r in rows && s in before && r.at < s.at ensures r in before {
      var k :| 0 <= k < n && before[k] == s;
      assert d[k].at <= d[n].at;
      assert s in d && r in d;
    }
    assert last in d;
  }

  /** A row above nothing but the prefix `rows[..n]`, and not in it, is row `n`. */
  lemma NextRow(rows: seq<Row>, n: nat, last: Row)
    requires StrictlySorted(rows) && n <= |rows| && last in rows && last !in rows[..n]
    requires forall r | r in rows && r.at < last.at :: r in rows[..n]
    ensures n < |rows| && rows[n] == last
  {
    var m :| 0 <= m < |rows| && rows[m] == last;
    assert m >= n;
  }

  lemma {:induction false} PrefixFromOrder(rows: seq<Row>, d: seq<Row>)
    requires StrictlySorted(rows) && Distinct(d) && SortedByTime(d) && DownwardClosed(rows, d)
    requires forall r | r in d :: r in rows
    ensures |d| <= |rows| && d == rows[..|d|]
  {
    if d != [] {
      var n := |d| - 1;
      assert d == d[..n] + [d[n]];
      ShorterPrefix(rows, d[..n], d[n]);
      PrefixFromOrder(rows, d[..n]);
      NextRow(rows, n, d[n]);
    }
  }

  /**
   With creation times that strictly increase in commit order, the deduplicated stream is
   at every moment of every run a prefix of the outbox, and every marked row is in it.
   */
  lemma StreamIsPrefix(steps: seq<Step>)
    requires DistinctIds(Commits(steps)) && StrictlySorted(Commits(steps))
    ensures var w := Exec(START, steps); var d := Dedup(w.stream);
      && w.rows == Commits(steps)
      && |d| <= |w.rows| && d == w.rows[..|d|]
      && w.published <= Ids(d)
  {
    assert START.rows + Commits(steps) == Commits(steps);
    RunKeepsInv(START, steps);
    RowsAreCommits(START, steps);
    var w := Exec(START, steps);
    PrefixFromOrder(w.rows, Dedup(w.stream));
    assert Ids(w.stream) == Ids(Dedup(w.stream));
  }
}
