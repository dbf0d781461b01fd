/** The cluster stage: which files a rebuild reads and what it leaves in the cluster tables. */
module ClusterStage {
  import opened Seqs
  import opened Strings
  import opened Visual
  import opened Defs
  import opened SkewEstimate
  import opened PerDeviceTheorems
  import opened CrossDeviceTheorems
  import opened Rebuild
  import ClusterStore
  import Stages

  /** What the stages recorded about a file, as far as clustering reads it. */
  datatype Shot = Shot(deviceKey: Option<string>, capturedAt: Option<int>)

  /** One rebuild: the columns and embeddings it finds, the configuration, the number of context checks that
      still pass, and the insert that fails. */
  datatype Clustering = Clustering(shots: int -> Shot, embeds: map<int, Embedding>, gap: int, threshold: real,
    crossDevice: bool, checks: Option<nat>, failAt: Option<nat>)

  // ------------------------------------------------------- ListAllAnalyzed

  function Column(f: File): string {
    if f.deviceKey.Some? then f.deviceKey.value else "Unknown"
  }

  /** ORDER BY COALESCE(device_key, 'Unknown'), captured_at IS NULL, captured_at, id. */
  function FileLe(): (File, File) -> bool {
    (a: File, b: File) =>
      if Column(a) != Column(b) then StrLe(Column(a), Column(b))
      else if a.capturedAt.Some? != b.capturedAt.Some? then a.capturedAt.Some?
      else if a.capturedAt.Some? && a.capturedAt.value != b.capturedAt.value then
        a.capturedAt.value < b.capturedAt.value
      else a.id <= b.id
  }

  lemma FileLePreorder()
    ensures TotalPreorder(FileLe())
  {
    forall a, b
      ensures FileLe()(a, b) || FileLe()(b, a)
    {
      StrLeTotal(Column(a), Column(b));
    }
    forall a, b, c | FileLe()(a, b) && FileLe()(b, c)
      ensures FileLe()(a, c)
    {
      StrLeTotal(Column(a), Column(b));
      StrLeTotal(Column(b), Column(c));
      if Column(a) != Column(b) && Column(b) != Column(c) {
        StrLeTransitive(Column(a), Column(b), Column(c));
      }
    }
  }

  function FilesOf(ids: seq<int>, shots: int -> Shot): (r: seq<File>)
    ensures |r| == |ids|
    ensures forall i | 0 <= i < |ids| :: r[i] == File(ids[i], shots(ids[i]).deviceKey, shots(ids[i]).capturedAt)
  {
    seq(|ids|, i requires 0 <= i < |ids| => File(ids[i], shots(ids[i]).deviceKey, shots(ids[i]).capturedAt))
  }

  /** The analyzed files in the order of the query. */
  ghost function AnalyzedFiles(st: Stages.Table, shots: int -> Shot): seq<File> {
    Sort(FilesOf(Listing(Stages.Queue(st, Stages.Analyzed)), shots), FileLe())
  }

  lemma SameIdSameFile(ids: seq<int>, shots: int -> Shot, s: seq<File>)
    requires forall f :: f in s ==> f in FilesOf(ids, shots)
    ensures AntisymmetricOn(s, FileLe())
  {
    forall a, b | a in s && b in s && FileLe()(a, b) && FileLe()(b, a)
      ensures a == b
    {
      StrLeTotal(Column(a), Column(b));
      assert a in FilesOf(ids, shots) && b in FilesOf(ids, shots);
    }
  }

  lemma AnalyzedFacts(st: Stages.Table, shots: int -> Shot)
    ensures DistinctFiles(AnalyzedFiles(st, shots))
    ensures forall f :: f in AnalyzedFiles(st, shots) <==>
                          f == File(f.id, shots(f.id).deviceKey, shots(f.id).capturedAt)
                              && f.id in Stages.Queue(st, Stages.Analyzed)
  {
    var ids := Listing(Stages.Queue(st, Stages.Analyzed));
    var files := FilesOf(ids, shots);
    var sorted := AnalyzedFiles(st, shots);
    FileLePreorder();
    SortSorts(files, FileLe());
    assert NoDup(files) by {
      assert forall i, j | 0 <= i < j < |files| :: files[i].id != files[j].id;
    }
    MultisetNoDup(files, sorted);
    forall i, j | 0 <= i < j < |sorted|
      ensures sorted[i].id != sorted[j].id
    {
      assert sorted[i] in files && sorted[j] in files;
      assert sorted[i] != sorted[j];
    }
    forall f
      ensures f in files <==> f == File(f.id, shots(f.id).deviceKey, shots(f.id).capturedAt) && f.id in ids
    {
      if f.id in ids && f == File(f.id, shots(f.id).deviceKey, shots(f.id).capturedAt) {
        var i :| 0 <= i < |ids| && ids[i] == f.id;
        assert files[i] == f;
      }
    }
  }

  method ListAllAnalyzed(st: Stages.Table, shots: int -> Shot) returns (files: seq<File>)
    ensures files == AnalyzedFiles(st, shots)
  {
    var ids := SortedElements(Stages.Queue(st, Stages.Analyzed));
    FileLePreorder();
    files := SortSlice(FilesOf(ids, shots), FileLe());
    SortSorts(FilesOf(ids, shots), FileLe());
    forall f | f in files
      ensures f in FilesOf(ids, shots)
    {
      assert f in multiset(files);
    }
    SameIdSameFile(ids, shots, files);
    SortedUnique(files, AnalyzedFiles(st, shots), FileLe());
  }

  // ------------------------------------------------------ the cluster stage

  ghost function DefsFor(st: Stages.Table, k: Clustering): seq<ClusterDef> {
    RebuildDefs(AnalyzedFiles(st, k.shots), k.embeds, k.gap, k.threshold, k.crossDevice)
  }

  /** The cluster tables of one rebuild over the analyzed files. */
  ghost predicate Clustered(rows: seq<ClusterStore.Row>, members: set<(int, int)>, st: Stages.Table, k: Clustering) {
    rows == ClusterStore.RowsOf(DefsFor(st, k)) && members == ClusterStore.MemberPairs(DefsFor(st, k))
  }

  method Cluster(table: ClusterStore.ClustersTable, st: Stages.Table, k: Clustering) returns (ok: bool)
    modifies table
    ensures ok ==> Clustered(table.rows, table.members, st, k) && Navigable(table.rows)
    ensures !ok ==> table.rows == old(table.rows) && table.members == old(table.members)
    ensures ok <==> Completes(AnalyzedFiles(st, k.shots), k.embeds, k.gap, k.threshold, k.crossDevice, k.checks,
                              k.failAt)
  {
    var files := ListAllAnalyzed(st, k.shots);
    AnalyzedFacts(st, k.shots);
    ok := RebuildAll(table, files, k.embeds, k.gap, k.threshold, k.crossDevice, k.checks, k.failAt);
    if ok {
      RebuildNavigable(files, k.embeds, k.gap, k.threshold, k.crossDevice);
    }
  }

  /** When two files belong together, by the mode the rebuild runs in. */
  ghost function SameCluster(files: seq<File>, k: Clustering): (int, int) -> bool {
    var all := Everything(files);
    if k.crossDevice && k.embeds != map[] then SameCross(all, k.embeds, SkewOf(files, k.embeds), k.gap, k.threshold)
    else SameDef(all, k.embeds, k.gap, k.threshold)
  }

  lemma PartitionPairs(defs: seq<ClusterDef>, ids: set<int>, same: (int, int) -> bool)
    requires PartitionOf(defs, ids, same)
    ensures var members := ClusterStore.MemberPairs(defs);
            && (forall id :: id in ids <==> exists c :: (c, id) in members)
            && (forall b, c, id | (b, id) in members && (c, id) in members :: b == c)
            && forall c, x, y | (c, x) in members && y in ids :: (c, y) in members <==> same(x, y)
  {
    var members := ClusterStore.MemberPairs(defs);
    forall id | id in ids
      ensures exists c :: (c, id) in members
    {
      var i :| 0 <= i < |defs| && id in defs[i].members;
      assert (i + 1, id) in members;
    }
  }

  lemma RebuildPartition(files: seq<File>, k: Clustering)
    requires DistinctFiles(files)
    ensures PartitionOf(RebuildDefs(files, k.embeds, k.gap, k.threshold, k.crossDevice), IdSet(Everything(files)),
                        SameCluster(files, k))
  {
    if files != [] {
      CrossDevicePartition(files, k.embeds, k.gap, k.threshold);
      PerDevicePartition(files, k.embeds, k.gap, k.threshold);
    }
  }

  /** In the tables of a rebuild every analyzed file is a member of exactly one cluster, no other file is a
      member of any, and two files share a cluster exactly when they belong together. */
  lemma ClusteredOnce(rows: seq<ClusterStore.Row>, members: set<(int, int)>, st: Stages.Table, k: Clustering)
    requires Clustered(rows, members, st, k)
    ensures forall id :: id in Stages.Queue(st, Stages.Analyzed) <==> exists c :: (c, id) in members
    ensures forall b, c, id | (b, id) in members && (c, id) in members :: b == c
    ensures forall c, x, y | (c, x) in members && y in Stages.Queue(st, Stages.Analyzed) ::
              (c, y) in members <==> SameCluster(AnalyzedFiles(st, k.shots), k)(x, y)
  {
    var files := AnalyzedFiles(st, k.shots);
    var ids := IdSet(Everything(files));
    AnalyzedFacts(st, k.shots);
    RebuildPartition(files, k);
    PartitionPairs(DefsFor(st, k), ids, SameCluster(files, k));
    forall id
      ensures id in ids <==> id in Stages.Queue(st, Stages.Analyzed)
    {
      AnalyzedId(st, k.shots, id);
    }
  }

  lemma AnalyzedId(st: Stages.Table, shots: int -> Shot, id: int)
    ensures id in IdSet(Everything(AnalyzedFiles(st, shots))) <==> id in Stages.Queue(st, Stages.Analyzed)
  {
    var files := AnalyzedFiles(st, shots);
    AnalyzedFacts(st, shots);
    if id in Stages.Queue(st, Stages.Analyzed) {
      var f := File(id, shots(id).deviceKey, shots(id).capturedAt);
      assert f in files;
      var i :| 0 <= i < |files| && files[i] == f;
      assert Runs(files)[i] == Run(f);
    }
    if id in IdSet(Everything(files)) {
      var g :| g in Everything(files) && g.id == id;
      var i :| 0 <= i < |Runs(files)| && Runs(files)[i] == g;
      assert files[i] in files;
    }
  }
}
