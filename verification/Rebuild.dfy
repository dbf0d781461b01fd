/** RebuildAll: which path runs, what lands in the table, and why navigation works on the result. */
module Rebuild {
  import opened Seqs
  import opened Visual
  import opened Defs
  import opened PerDevice
  import opened PerDeviceShape
  import opened CrossDevice
  import opened CrossDeviceShape
  import opened ClusterStore

  /** Cross-device mode needs at least one embedding. */
  ghost function RebuildDefs(files: seq<File>, embeds: map<int, Embedding>, gap: int, threshold: real,
      crossDevice: bool): seq<ClusterDef> {
    if files == [] then []
    else if crossDevice && embeds != map[] then CrossDefs(files, embeds, gap, threshold)
    else PerDeviceDefs(files, embeds, gap, threshold)
  }

  lemma CrossMode(files: seq<File>, embeds: map<int, Embedding>, gap: int, threshold: real)
    requires files != [] && embeds != map[]
    ensures RebuildDefs(files, embeds, gap, threshold, true) == CrossDefs(files, embeds, gap, threshold)
  {
  }

  /** Without an embedding the mode makes no difference, and without the mode embeddings do not bring it about. */
  lemma PerDeviceMode(files: seq<File>, embeds: map<int, Embedding>, gap: int, threshold: real, crossDevice: bool)
    requires embeds == map[] || !crossDevice
    ensures RebuildDefs(files, embeds, gap, threshold, crossDevice) == PerDeviceDefs(files, embeds, gap, threshold)
  {
    if files == [] {
      assert PerDeviceParts(files, [], embeds, gap, threshold) == [];
    }
  }

  /** The context checks pass: one for a cross-device rebuild, otherwise one a device. */
  predicate Unstopped(files: seq<File>, embeds: map<int, Embedding>, crossDevice: bool, checks: Option<nat>) {
    files != [] && checks.Some? ==> checks.value >= if crossDevice && embeds != map[] then 1 else |Devices(files)|
  }

  /** And no insert and no commit fails. */
  ghost predicate Completes(files: seq<File>, embeds: map<int, Embedding>, gap: int, threshold: real,
      crossDevice: bool, checks: Option<nat>, failAt: Option<nat>) {
    && Unstopped(files, embeds, crossDevice, checks)
    && (failAt.Some? ==> failAt.value > |RebuildDefs(files, embeds, gap, threshold, crossDevice)|)
  }

  predicate HasAny(embeds: map<int, Embedding>): (r: bool)
    ensures r <==> embeds != map[]
  {
    |embeds| > 0
  }

  /** The mode and its definitions. */
  method Regroup(files: seq<File>, embeds: map<int, Embedding>, gap: int, threshold: real, crossDevice: bool,
      checks: Option<nat>)
    returns (ok: bool, defs: seq<ClusterDef>)
    requires DistinctFiles(files)
    ensures ok <==> Unstopped(files, embeds, crossDevice, checks)
    ensures ok ==> defs == RebuildDefs(files, embeds, gap, threshold, crossDevice)
  {
    if files == [] {
      return true, [];
    }
    if crossDevice && HasAny(embeds) {
      ok, defs := RebuildCrossDevice(files, embeds, gap, threshold, checks == Some(0));
    } else {
      ok, defs := RebuildPerDevice(files, embeds, gap, threshold, checks);
    }
  }

  /** One rebuild over the analyzed files. checks counts the context checks that still pass; failAt is the
      insert, or the commit after them, that fails. */
  method RebuildAll(table: ClustersTable, files: seq<File>, embeds: map<int, Embedding>, gap: int, threshold: real,
      crossDevice: bool, checks: Option<nat>, failAt: Option<nat>)
    returns (ok: bool)
    requires DistinctFiles(files)
    modifies table
    ensures ok ==> table.rows == RowsOf(RebuildDefs(files, embeds, gap, threshold, crossDevice))
    ensures ok ==> table.members == MemberPairs(RebuildDefs(files, embeds, gap, threshold, crossDevice))
    ensures !ok ==> table.rows == old(table.rows) && table.members == old(table.members)
    ensures ok <==> Completes(files, embeds, gap, threshold, crossDevice, checks, failAt)
  {
    var defs;
    ok, defs := Regroup(files, embeds, gap, threshold, crossDevice, checks);
    if ok {
      ok := table.WriteClusters(defs, failAt);
    }
  }

  lemma RowsDistinct(defs: seq<ClusterDef>)
    ensures DistinctRows(RowsOf(defs))
  {
  }

  /** The order of definitions is the order of ids, so NULLs-last definitions give the table the query needs. */
  lemma NullsLastRows(defs: seq<ClusterDef>, c: Row)
    requires NullsLast(defs) && c in RowsOf(defs) && c.bucket.None?
    ensures NoTimedBeyond(RowsOf(defs), c)
  {
    var rows := RowsOf(defs);
    var k :| 0 <= k < |rows| && rows[k] == c;
    forall r | r in rows && r.device == c.device && r.bucket.Some?
      ensures r.id < c.id
    {
      var i :| 0 <= i < |rows| && rows[i] == r;
      assert !(k < i);
    }
  }

  /** NextAfter is the library neighbour, for every cluster. */
  ghost predicate Navigable(rows: seq<Row>) {
    forall k: nat | k < |AllOrdered(rows)| :: NextAfter(rows, AllOrdered(rows)[k]) == SuccessorIn(AllOrdered(rows), k)
  }

  /** A table is navigable exactly when no NULL cluster has a timed one of its device beyond it. */
  lemma NavigableIff(rows: seq<Row>)
    requires DistinctRows(rows)
    ensures Navigable(rows) <==> forall c | c in rows && c.bucket.None? :: NoTimedBeyond(rows, c)
  {
    var a := AllOrdered(rows);
    AllOrderedFacts(rows);
    forall k: nat | k < |a|
      ensures NextAfter(rows, a[k]) == SuccessorIn(a, k) <==> (a[k].bucket.None? ==> NoTimedBeyond(rows, a[k]))
    {
      if a[k].bucket.Some? {
        TimedSuccessor(rows, k);
      } else {
        NullSuccessorIff(rows, k);
      }
    }
    if Navigable(rows) {
      forall c | c in rows && c.bucket.None?
        ensures NoTimedBeyond(rows, c)
      {
        assert c in a;
        var k :| 0 <= k < |a| && a[k] == c;
        assert NextAfter(rows, a[k]) == SuccessorIn(a, k);
      }
    } else {
      var k: nat :| k < |a| && NextAfter(rows, a[k]) != SuccessorIn(a, k);
      assert a[k] in rows && a[k].bucket.None?;
    }
  }

  /** After every successful rebuild, in either mode, navigation follows the library order. */
  lemma RebuildNavigable(files: seq<File>, embeds: map<int, Embedding>, gap: int, threshold: real, crossDevice: bool)
    requires DistinctFiles(files)
    ensures Navigable(RowsOf(RebuildDefs(files, embeds, gap, threshold, crossDevice)))
  {
    var defs := RebuildDefs(files, embeds, gap, threshold, crossDevice);
    CrossDeviceNullsLast(files, embeds, gap, threshold);
    PerDeviceNullsLast(files, embeds, gap, threshold);
    RowsDistinct(defs);
    forall c | c in RowsOf(defs) && c.bucket.None?
      ensures NoTimedBeyond(RowsOf(defs), c)
    {
      NullsLastRows(defs, c);
    }
    NavigableIff(RowsOf(defs));
  }

  /** A table NextAfter cannot walk: the NULL cluster got the smaller id, and the query sends the reader
      back to the timed cluster it came from. */
  lemma NullFirstLoops()
    ensures var rows := [Row(1, "cam", None), Row(2, "cam", Some(7))];
            NextAfter(rows, rows[1]) == Some(1) && NextAfter(rows, rows[0]) == Some(2)
  {
    var timed, nul := Row(2, "cam", Some(7)), Row(1, "cam", None);
    var rows := [nul, timed];
    NextAfterLeast(rows, timed, nul);
    NextAfterLeast(rows, nul, timed);
  }

  // ---------------------------------------------------- following the trail

  function RowWithId(rows: seq<Row>, id: int): Option<Row> {
    if rows == [] then None
    else if rows[0].id == id then Some(rows[0])
    else RowWithId(rows[1..], id)
  }

  lemma RowWithIdFinds(rows: seq<Row>, r: Row)
    requires DistinctRows(rows) && r in rows
    ensures RowWithId(rows, r.id) == Some(r)
  {
    if rows[0] == r {
    } else {
      assert r in rows[1..];
      RowWithIdFinds(rows[1..], r);
    }
  }

  /** The cluster the query leads to. */
  function Next(rows: seq<Row>): Row -> Option<Row> {
    (c: Row) => if NextAfter(rows, c).None? then None else RowWithId(rows, NextAfter(rows, c).value)
  }

  /** The ids seen by asking for the next cluster again and again, at most fuel times. */
  function Trail(next: Row -> Option<Row>, c: Row, fuel: nat): seq<int>
    decreases fuel
  {
    if fuel == 0 || next(c).None? then [c.id] else [c.id] + Trail(next, next(c).value, fuel - 1)
  }

  function RowIds(rows: seq<Row>): (r: seq<int>)
    ensures |r| == |rows| && forall i | 0 <= i < |r| :: r[i] == rows[i].id
  {
    seq(|rows|, i requires 0 <= i < |rows| => rows[i].id)
  }

  function RowAfter(a: seq<Row>, i: nat): Option<Row>
    requires i < |a|
  {
    if i + 1 < |a| then Some(a[i + 1]) else None
  }

  /** next leads from each row to the one after it, and nowhere from the last. */
  ghost predicate Chained(next: Row -> Option<Row>, a: seq<Row>) {
    forall i: nat | i < |a| :: next(a[i]) == RowAfter(a, i)
  }

  /** The trail along a chain is the rest of the chain, however long one keeps asking. */
  lemma {:induction false} TrailIsRest(next: Row -> Option<Row>, a: seq<Row>, k: nat, fuel: nat)
    requires Chained(next, a) && k < |a| <= k + fuel + 1
    ensures Trail(next, a[k], fuel) == RowIds(a[k..])
    decreases fuel
  {
    assert next(a[k]) == RowAfter(a, k);
    assert RowIds(a[k..]) == [a[k].id] + RowIds(a[k + 1..]);
    if k + 1 < |a| {
      TrailIsRest(next, a, k + 1, fuel - 1);
    } else {
      assert RowIds(a[k..]) == [a[k].id];
    }
  }

  lemma TrailIsLibrary(rows: seq<Row>)
    requires DistinctRows(rows) && Navigable(rows) && rows != []
    ensures |AllOrdered(rows)| > 0 && Trail(Next(rows), AllOrdered(rows)[0], |rows|) == RowIds(AllOrdered(rows))
  {
    var a := AllOrdered(rows);
    AllOrderedFacts(rows);
    forall i: nat | i < |a|
      ensures Next(rows)(a[i]) == RowAfter(a, i)
    {
      assert NextAfter(rows, a[i]) == SuccessorIn(a, i);
      if i + 1 < |a| {
        assert a[i + 1] in a;
        RowWithIdFinds(rows, a[i + 1]);
      }
    }
    TrailIsRest(Next(rows), a, 0, |rows|);
    assert a[0..] == a;
  }

  /** Following NextAfter from the first cluster of a rebuilt table visits every cluster exactly once. */
  lemma TrailVisitsAll(files: seq<File>, embeds: map<int, Embedding>, gap: int, threshold: real, crossDevice: bool)
    requires DistinctFiles(files)
    ensures var rows := RowsOf(RebuildDefs(files, embeds, gap, threshold, crossDevice));
            rows != [] ==>
              && |AllOrdered(rows)| > 0
              && var ids := Trail(Next(rows), AllOrdered(rows)[0], |rows|);
                 NoDup(ids) && forall x :: x in ids <==> x in RowIds(rows)
  {
    var defs := RebuildDefs(files, embeds, gap, threshold, crossDevice);
    var rows := RowsOf(defs);
    RowsDistinct(defs);
    AllOrderedFacts(rows);
    if rows != [] {
      RebuildNavigable(files, embeds, gap, threshold, crossDevice);
      TrailIsLibrary(rows);
      var a := AllOrdered(rows);
      forall x
        ensures x in RowIds(a) <==> x in RowIds(rows)
      {
        SameIds(rows, a, x);
        SameIds(a, rows, x);
      }
    }
  }

  lemma SameIds(a: seq<Row>, b: seq<Row>, x: int)
    requires forall r | r in a :: r in b
    ensures x in RowIds(a) ==> x in RowIds(b)
  {
    if x in RowIds(a) {
      var i :| 0 <= i < |a| && RowIds(a)[i] == x;
      assert a[i] in b;
      var j :| 0 <= j < |b| && b[j] == a[i];
      assert RowIds(b)[j] == x;
    }
  }
}
