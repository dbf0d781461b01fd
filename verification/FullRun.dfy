/** Run: discovery, the stages and the cluster rebuild over one library. */
module FullRun {
  import opened Seqs
  import opened Stages
  import opened Resuming
  import opened FilesTable
  import opened Scanner
  import opened ScannerTheorems
  import ClusterStage
  import ClusterStore

  // ------------------------------------------------- one table, two readers

  function Ids(rows: seq<Row>): set<int> {
    set k | 0 <= k < |rows| :: rows[k].id
  }

  /** The status column of the files table by row id, as the stages read it. */
  function Statuses(rows: seq<Row>): (st: Table)
    requires Unique(rows)
    ensures st.Keys == Ids(rows) && forall k | 0 <= k < |rows| :: rows[k].id in st && st[rows[k].id] == rows[k].status
  {
    map k | 0 <= k < |rows| :: rows[k].id := rows[k].status
  }

  /** The table with the status column the stages wrote. */
  function WithStatuses(rows: seq<Row>, st: Table): (r: seq<Row>)
    requires Ids(rows) <= st.Keys
    ensures |r| == |rows| && forall k | 0 <= k < |rows| :: r[k] == rows[k].(status := st[rows[k].id])
  {
    assert forall k | 0 <= k < |rows| :: rows[k].id in Ids(rows);
    seq(|rows|, k requires 0 <= k < |rows| => rows[k].(status := st[rows[k].id]))
  }

  lemma WrittenUnique(rows: seq<Row>, st: Table)
    requires Unique(rows) && Ids(rows) <= st.Keys
    ensures Unique(WithStatuses(rows, st)) && Ids(WithStatuses(rows, st)) == Ids(rows)
  {
    var written := WithStatuses(rows, st);
    assert forall k | 0 <= k < |rows| :: written[k].id == rows[k].id && Key(written[k]) == Key(rows[k]);
    forall id
      ensures id in Ids(written) <==> id in Ids(rows)
    {
      if id in Ids(written) {
        var k :| 0 <= k < |written| && written[k].id == id;
        assert rows[k].id == id;
      }
      if id in Ids(rows) {
        var k :| 0 <= k < |rows| && rows[k].id == id;
        assert written[k].id == id;
      }
    }
  }

  /** Reading back what was written. */
  lemma WrittenBack(rows: seq<Row>, st: Table)
    requires Unique(rows) && st.Keys == Ids(rows)
    ensures Unique(WithStatuses(rows, st)) && Statuses(WithStatuses(rows, st)) == st
  {
    WrittenUnique(rows, st);
    var written := WithStatuses(rows, st);
    forall id | id in st
      ensures Statuses(written)[id] == st[id]
    {
      var k :| 0 <= k < |rows| && rows[k].id == id;
      assert written[k].id == id && written[k].status == st[id];
    }
  }

  // --------------------------------------------------------------------- Run

  /** What discovery finds: whether there is a root path and whether it can be listed, its entries, and the
      number of context checks that still pass. */
  datatype Disk = Disk(rooted: bool, readable: bool, entries: seq<Node>, checks: Option<nat>)

  datatype RunOutcome = DiscoverFailed | Ran(result: RunResult)

  function Recs(d: Disk, picksDir: string): seq<Rec> {
    VisitsAll(d.entries, "", picksDir)
  }

  /** The table after discovery and the stages. */
  ghost predicate StagesAfterWalk(rows: seq<Row>, walked: seq<Row>, c: Config, t: Attempt, fate: Fate, r: RunResult) {
    && Unique(rows) && Unique(walked) && Statuses(rows).Keys == Statuses(walked).Keys
    && rows == WithStatuses(walked, Statuses(rows))
    && RunOk(Statuses(walked), Statuses(rows), BatchSize(c), t.proc, fate, r)
  }

  /** The events of a run whose discovery failed, and of one that finished. */
  ghost predicate Reported(a: seq<Progress>, b: seq<Progress>, r: RunOutcome) {
    && (r.DiscoverFailed? ==> |b| == |a| + 2 && a <= b && Bracket(b, |a|, "discover", Aborted))
    && (r == Ran(Finished) ==>
          && |b| == |a| + 10 && a <= b && Bracket(b, |a|, "discover", Ended)
          && Bracket(b, |a| + 2, "metadata", Ended) && Bracket(b, |a| + 4, "thumb", Ended)
          && Bracket(b, |a| + 6, "analyze", Ended) && Bracket(b, |a| + 8, "cluster", Ended))
  }

  lemma WalkReported(a: seq<Progress>, last: Phase)
    ensures var b := a + [Progress("discover", 0, 0, 0, Starting)] + [Progress("discover", 0, 0, 0, last)];
            a <= b && |b| == |a| + 2 && Bracket(b, |a|, "discover", last)
  {
  }

  lemma RunReported(a: seq<Progress>, b: seq<Progress>, c: seq<Progress>)
    requires a <= b && |b| == |a| + 2 && Bracket(b, |a|, "discover", Ended) && WholeRun(b, c, Ended)
    ensures Reported(a, c, Ran(Finished))
  {
  }

  /** The stages and the clustering over the rows a walk left. */
  method RunOverRows(repo: FilesRepo, p: Pipeline, table: ClusterStore.ClustersTable, c: Config, t: Attempt,
      ghost fate: Fate)
    returns (result: RunResult)
    requires Unique(repo.rows) && FairAttempt(t)
    modifies repo, p, table
    ensures Unique(repo.rows) && StagesAfterWalk(repo.rows, old(repo.rows), c, t, fate, result)
    ensures result.Finished? ==> ClusteredBy(table.rows, table.members, Statuses(repo.rows), t)
    ensures !result.Finished? ==> table.rows == old(table.rows) && table.members == old(table.members)
    ensures !result.NotStarted? && (CalmAttempt(t) ==> result.Finished?)
    ensures result.Finished? ==> WholeRun(old(p.events), p.events, Ended)
  {
    p.status := Statuses(repo.rows);
    result := RunStagesAndCluster(p, table, c, t, fate);
    WrittenBack(repo.rows, p.status);
    repo.rows := WithStatuses(repo.rows, p.status);
  }

  method Run(w: Walker, p: Pipeline, table: ClusterStore.ClustersTable, d: Disk, c: Config, t: Attempt,
      ghost fate: Fate)
    returns (r: RunOutcome)
    requires Unique(w.repo.rows) && FairAttempt(t)
    modifies w`seen, w.repo, p, table
    ensures Unique(w.repo.rows)
    ensures t.contextDone ==> r == Ran(NotStarted) && w.repo.rows == old(w.repo.rows) && p.events == old(p.events)
    ensures !t.contextDone ==>
              (r.DiscoverFailed? <==> !d.rooted || !Passes(d.readable, d.entries, d.checks, w.picksDir))
    ensures r.DiscoverFailed? && d.rooted ==>
              exists done: nat :: Stopped(w.repo.rows, old(w.repo.rows), w.picksDir, Recs(d, w.picksDir), done)
    ensures r.DiscoverFailed? ==> p.status == old(p.status)
    ensures r.Ran? && !t.contextDone ==>
              StagesAfterWalk(w.repo.rows, WalkSpec(old(w.repo.rows), w.picksDir, Recs(d, w.picksDir)), c, t, fate,
                  r.result)
    ensures r == Ran(Finished) ==> ClusteredBy(table.rows, table.members, Statuses(w.repo.rows), t)
    ensures r != Ran(Finished) ==> table.rows == old(table.rows) && table.members == old(table.members)
    ensures CalmAttempt(t) ==>
              (r == Ran(Finished) <==> d.rooted && Passes(d.readable, d.entries, d.checks, w.picksDir))
    ensures Reported(old(p.events), p.events, r)
  {
    if t.contextDone {
      return Ran(NotStarted);
    }
    p.events := p.events + [Progress("discover", 0, 0, 0, Starting)];
    WalkReported(old(p.events), Aborted);
    WalkReported(old(p.events), Ended);
    var ok, done := w.Walk(d.rooted, d.readable, d.entries, d.checks);
    if !ok {
      p.events := p.events + [Progress("discover", 0, 0, 0, Aborted)];
      assert d.rooted ==> Stopped(w.repo.rows, old(w.repo.rows), w.picksDir, Recs(d, w.picksDir), done);
      return DiscoverFailed;
    }
    p.events := p.events + [Progress("discover", 0, 0, 0, Ended)];
    ghost var said := p.events;
    var result := RunOverRows(w.repo, p, table, c, t, fate);
    r := Ran(result);
    if result.Finished? {
      RunReported(old(p.events), said, p.events);
    }
  }

  // ------------------------------------------------------ a finished run

  /** The file's row is up to date and no stage has anything left to do with it. */
  ghost predicate Through(rows: seq<Row>, f: Rec) {
    exists k :: 0 <= k < |rows| && Key(rows[k]) == Lower(f.path) && SameFile(rows[k], f) && !Working(rows[k].status)
  }

  /** The stages touch the status column only. */
  lemma StagesKeepRows(rows: seq<Row>, walked: seq<Row>, c: Config, t: Attempt, fate: Fate, r: RunResult, k: nat)
    requires StagesAfterWalk(rows, walked, c, t, fate, r) && k < |walked|
    ensures k < |rows| && rows[k] == walked[k].(status := rows[k].status)
    ensures !Working(walked[k].status) ==> rows[k] == walked[k]
    ensures r.Finished? ==> !Working(rows[k].status)
  {
    assert rows[k].id == walked[k].id;
    assert Statuses(rows)[rows[k].id] == rows[k].status;
    assert Statuses(walked)[walked[k].id] == walked[k].status;
  }

  lemma RecordedThrough(rows: seq<Row>, walked: seq<Row>, c: Config, t: Attempt, fate: Fate, f: Rec)
    requires StagesAfterWalk(rows, walked, c, t, fate, Finished) && Recorded(walked, f)
    ensures Through(rows, f)
  {
    var k :| 0 <= k < |walked| && Key(walked[k]) == Lower(f.path) && SameFile(walked[k], f);
    StagesKeepRows(rows, walked, c, t, fate, Finished, k);
    assert Key(rows[k]) == Lower(f.path) && SameFile(rows[k], f);
  }

  /** A finished run has every visited file through the stages and every other row marked missing. */
  lemma FinishedFiles(before: seq<Row>, rows: seq<Row>, picksDir: string, recs: seq<Rec>, c: Config, t: Attempt,
      fate: Fate)
    requires Unique(before) && DistinctKeys(recs)
    requires StagesAfterWalk(rows, WalkSpec(before, picksDir, recs), c, t, fate, Finished)
    ensures forall i | 0 <= i < |recs| :: Through(rows, recs[i])
    ensures forall k | 0 <= k < |rows| && Key(rows[k]) !in SeenKeys(recs) :: rows[k].status == Missing
  {
    var walked := WalkSpec(before, picksDir, recs);
    WalkSyncs(before, picksDir, recs);
    forall i | 0 <= i < |recs|
      ensures Through(rows, recs[i])
    {
      RecordedThrough(rows, walked, c, t, fate, recs[i]);
    }
    forall k | 0 <= k < |rows| && Key(rows[k]) !in SeenKeys(recs)
      ensures rows[k].status == Missing
    {
      StagesKeepRows(rows, walked, c, t, fate, Finished, k);
    }
  }

  /** A finished run has every analyzed file, and no other, in exactly one cluster. */
  lemma FinishedClusters(rows: seq<Row>, t: Attempt, clusters: seq<ClusterStore.Row>, members: set<(int, int)>)
    requires Unique(rows) && ClusteredBy(clusters, members, Statuses(rows), t)
    ensures forall k | 0 <= k < |rows| :: rows[k].status == Analyzed <==> exists cid :: (cid, rows[k].id) in members
    ensures forall b, cid, id | (b, id) in members && (cid, id) in members :: b == cid
  {
    ClusterStage.ClusteredOnce(clusters, members, Statuses(rows), t.clustering);
    forall k | 0 <= k < |rows|
      ensures rows[k].status == Analyzed <==> rows[k].id in Queue(Statuses(rows), Analyzed)
    {
      assert Statuses(rows)[rows[k].id] == rows[k].status;
    }
  }

  /** The row of each file after a finished run whose stages only ever leave files in place or do what their
      fate says: what the walk makes of it, moved to where its fate takes it. */
  lemma FinishedRow(rows: seq<Row>, walked: seq<Row>, c: Config, t: Attempt, fate: Fate, k: nat)
    requires StagesAfterWalk(rows, walked, c, t, fate, Finished) && Obeys(t.proc, fate) && k < |walked|
    ensures k < |rows| && rows[k] == walked[k].(status := FinStatus(walked[k].status, walked[k].id, fate))
  {
    StagesKeepRows(rows, walked, c, t, fate, Finished, k);
    FinDone(Statuses(rows), fate);
    assert Fin(Statuses(walked), fate)[walked[k].id] == FinStatus(walked[k].status, walked[k].id, fate);
  }
}
