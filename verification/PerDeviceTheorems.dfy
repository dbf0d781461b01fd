/** Which files share a cluster after a per-device rebuild. */
module PerDeviceTheorems {
  import opened Seqs
  import opened Reach
  import opened Visual
  import opened Timeline
  import opened Defs
  import opened PerDevice

  /** The timed files of one device. */
  ghost function Peers(all: set<RunFile>, dev: string): set<RunFile> {
    set f | f in all && f.device == dev && f.at.Some?
  }

  /** The files that hops of at most gap seconds on f's own device lead to. */
  ghost function BucketOf(all: set<RunFile>, gap: int, f: RunFile): set<RunFile> {
    set g | g in Peers(all, f.device) && Connected(Peers(all, f.device), Near(gap), f, g)
  }

  /** The condition under which two files belong to one cluster, from the files alone. */
  ghost predicate Shares(all: set<RunFile>, embeds: map<int, Embedding>, gap: int, threshold: real, f: RunFile,
      g: RunFile) {
    f == g ||
    (&& f.device == g.device && f.at.Some? && g.at.Some?
     && g in BucketOf(all, gap, f)
     && SameVisual(IdSet(BucketOf(all, gap, f)), embeds, threshold)(f.id, g.id))
  }

  ghost function SameDef(all: set<RunFile>, embeds: map<int, Embedding>, gap: int, threshold: real): (int,
      int) -> bool {
    (x, y) => exists f, g :: f in all && g in all && f.id == x && g.id == y && Shares(all, embeds, gap, threshold, f, g)
  }

  ghost predicate DistinctSet(all: set<RunFile>) {
    forall f, g | f in all && g in all && f.id == g.id :: f == g
  }

  lemma SameDefIff(all: set<RunFile>, embeds: map<int, Embedding>, gap: int, threshold: real, f: RunFile, g: RunFile)
    requires DistinctSet(all) && f in all && g in all
    ensures SameDef(all, embeds, gap, threshold)(f.id, g.id) <==> Shares(all, embeds, gap, threshold, f, g)
  {
    var same := SameDef(all, embeds, gap, threshold);
    if same(f.id, g.id) {
      var f', g' :| f' in all && g' in all && f'.id == f.id && g'.id == g.id
          && Shares(all, embeds, gap, threshold, f', g');
      assert f' == f && g' == g;
    }
  }

  ghost function Everything(files: seq<File>): set<RunFile> {
    ToSet(Runs(files))
  }

  lemma EverythingDistinct(files: seq<File>)
    requires DistinctFiles(files)
    ensures DistinctSet(Everything(files)) && DistinctIds(Runs(files))
  {
    var r := Runs(files);
    forall f, g | f in ToSet(r) && g in ToSet(r) && f.id == g.id
      ensures f == g
    {
      var i :| 0 <= i < |r| && r[i] == f;
      var j :| 0 <= j < |r| && r[j] == g;
      assert i == j;
    }
  }

  // ---------------------------------------------------------- one device

  /** What the sorted timeline of a device contains. */
  lemma TimelineFacts(files: seq<File>, dev: string)
    requires DistinctFiles(files)
    ensures var t := Sort(DeviceRuns(files, dev), RunLe());
            && DistinctIds(TimedOf(t)) && DistinctIds(UntimedOf(t)) && InTimeOrder(TimedOf(t))
            && ToSet(TimedOf(t)) == Peers(Everything(files), dev)
            && (forall f :: f in UntimedOf(t) <==> f in Everything(files) && f.device == dev && f.at.None?)
  {
    var runs := DeviceRuns(files, dev);
    var t := Sort(runs, RunLe());
    RunsDistinct(files, OnDevice(dev));
    SortedRunFacts(runs);
    FilterDistinct(t, IsTimed());
    FilterDistinct(t, IsUntimed());
    FilterSorted(t, IsTimed());
    SortedInTimeOrder(TimedOf(t));
    forall f
      ensures f in t <==> f in Everything(files) && f.device == dev
    {
      assert f in ToSet(t) <==> f in ToSet(runs);
    }
  }

  /** Each bucket is emitted as the partition that SameDef asks for. */
  lemma BucketPartition(all: set<RunFile>, dev: string, s: seq<RunFile>, embeds: map<int, Embedding>, gap: int,
      threshold: real, b: nat)
    requires DistinctSet(all) && AllTimed(s) && InTimeOrder(s) && DistinctIds(s)
    requires ToSet(s) == Peers(all, dev) && b < |GapBuckets(s, gap)|
    ensures PartitionOf(BucketDefs(dev, GapBuckets(s, gap), embeds, threshold)[b], IdSet(ToSet(GapBuckets(s, gap)[b])),
                        SameDef(all, embeds, gap, threshold))
  {
    var bucket := GapBuckets(s, gap)[b];
    var ids, same := IdSet(ToSet(bucket)), SameDef(all, embeds, gap, threshold);
    BucketMembers(s, gap, b);
    forall x, y | x in ids && y in ids
      ensures same(x, y) <==> SameVisual(ids, embeds, threshold)(x, y)
    {
      var f :| f in bucket && f.id == x;
      var g :| g in bucket && g.id == y;
      assert f in ToSet(s) && g in ToSet(s);
      BucketIsComponent(s, gap, b, f);
      assert ToSet(bucket) == BucketOf(all, gap, f);
      assert g in ToSet(bucket);
      SameDefIff(all, embeds, gap, threshold, f, g);
      SameVisualEquivalence(ids, embeds, threshold);
    }
    EmitPartition(dev, bucket[0].at, ids, embeds, threshold, same);
  }

  lemma BucketsSplit(all: set<RunFile>, dev: string, s: seq<RunFile>, embeds: map<int, Embedding>, gap: int,
      threshold: real)
    requires DistinctSet(all) && AllTimed(s) && InTimeOrder(s) && DistinctIds(s)
    requires ToSet(s) == Peers(all, dev)
    ensures SplitAtBreaks(s, gap, SameDef(all, embeds, gap, threshold))
  {
    forall i: nat, j: nat | i < |s| && j < |s| && BucketNo(s, gap, i) != BucketNo(s, gap, j)
      ensures !SameDef(all, embeds, gap, threshold)(s[i].id, s[j].id)
    {
      assert s[i] in ToSet(s) && s[j] in ToSet(s);
      BucketsAreComponents(s, gap, i, j);
      SameDefIff(all, embeds, gap, threshold, s[i], s[j]);
    }
  }

  lemma TimedPartition(all: set<RunFile>, dev: string, s: seq<RunFile>, embeds: map<int, Embedding>, gap: int,
      threshold: real)
    requires DistinctSet(all) && AllTimed(s) && InTimeOrder(s) && DistinctIds(s)
    requires ToSet(s) == Peers(all, dev)
    ensures PartitionOf(Flatten(BucketDefs(dev, GapBuckets(s, gap), embeds, threshold)), IdSet(Peers(all, dev)),
                        SameDef(all, embeds, gap, threshold))
  {
    var parts := BucketDefs(dev, GapBuckets(s, gap), embeds, threshold);
    forall b | 0 <= b < |parts|
      ensures PartitionOf(parts[b], BucketIds(GapBuckets(s, gap))[b], SameDef(all, embeds, gap, threshold))
    {
      BucketPartition(all, dev, s, embeds, gap, threshold, b);
    }
    BucketsSplit(all, dev, s, embeds, gap, threshold);
    WalkPartition(s, gap, parts, SameDef(all, embeds, gap, threshold));
  }

  ghost function DeviceIds(all: set<RunFile>, dev: string): set<int> {
    set f | f in all && f.device == dev :: f.id
  }

  /** Untimed files are alone, and apart from every timed file. */
  lemma NullsApart(all: set<RunFile>, dev: string, nulls: seq<RunFile>, embeds: map<int, Embedding>, gap: int,
      threshold: real)
    requires DistinctSet(all) && DistinctIds(nulls)
    requires forall f :: f in nulls <==> f in all && f.device == dev && f.at.None?
    ensures PartitionOf(NullDefs(dev, nulls), IdSet(ToSet(nulls)), SameDef(all, embeds, gap, threshold))
    ensures Apart(IdSet(Peers(all, dev)), IdSet(ToSet(nulls)), SameDef(all, embeds, gap, threshold))
  {
    var same := SameDef(all, embeds, gap, threshold);
    forall i, j | 0 <= i < |nulls| && 0 <= j < |nulls|
      ensures same(nulls[i].id, nulls[j].id) <==> i == j
    {
      assert nulls[i] in nulls && nulls[j] in nulls;
      SameDefIff(all, embeds, gap, threshold, nulls[i], nulls[j]);
    }
    NullPartition(dev, nulls, same);
    forall x, y | x in IdSet(Peers(all, dev)) && y in IdSet(ToSet(nulls))
      ensures x != y && !same(x, y) && !same(y, x)
    {
      var f :| f in Peers(all, dev) && f.id == x;
      var g :| g in nulls && g.id == y;
      SameDefIff(all, embeds, gap, threshold, f, g);
      SameDefIff(all, embeds, gap, threshold, g, f);
    }
  }

  lemma DevicePartition(files: seq<File>, dev: string, embeds: map<int, Embedding>, gap: int, threshold: real)
    requires DistinctFiles(files)
    ensures PartitionOf(DeviceDefs(files, dev, embeds, gap, threshold), DeviceIds(Everything(files), dev),
                        SameDef(Everything(files), embeds, gap, threshold))
  {
    var all := Everything(files);
    var t := Sort(DeviceRuns(files, dev), RunLe());
    var timed, nulls := TimedOf(t), UntimedOf(t);
    EverythingDistinct(files);
    TimelineFacts(files, dev);
    TimedPartition(all, dev, timed, embeds, gap, threshold);
    NullsApart(all, dev, nulls, embeds, gap, threshold);
    PartitionConcat(Flatten(BucketDefs(dev, GapBuckets(timed, gap), embeds, threshold)), IdSet(Peers(all, dev)),
                    NullDefs(dev, nulls), IdSet(ToSet(nulls)), SameDef(all, embeds, gap, threshold));
    forall f | f in all && f.device == dev
      ensures f.id in IdSet(Peers(all, dev)) + IdSet(ToSet(nulls))
    {
      assert f in Peers(all, dev) || f in ToSet(nulls);
    }
    assert DeviceIds(all, dev) == IdSet(Peers(all, dev)) + IdSet(ToSet(nulls));
  }

  // ---------------------------------------------------------- all devices

  lemma DeviceUnion(files: seq<File>, sets: seq<set<int>>)
    requires |sets| == |Devices(files)|
    requires forall i | 0 <= i < |sets| :: sets[i] == DeviceIds(Everything(files), Devices(files)[i])
    ensures UnionOf(sets) == IdSet(Everything(files))
  {
    var devs, all := Devices(files), Everything(files);
    DevicesFacts(files);
    forall x | x in IdSet(all)
      ensures x in UnionOf(sets)
    {
      var f :| f in all && f.id == x;
      var k :| 0 <= k < |Runs(files)| && Runs(files)[k] == f;
      assert Device(files[k]) == f.device && f.device in devs;
      var i :| 0 <= i < |devs| && devs[i] == f.device;
      assert x in sets[i];
    }
    forall x | x in UnionOf(sets)
      ensures x in IdSet(all)
    {
      var i :| 0 <= i < |sets| && x in sets[i];
      assert x in DeviceIds(all, devs[i]);
    }
  }

  lemma DevicesApart(all: set<RunFile>, one: string, other: string, embeds: map<int, Embedding>, gap: int,
      threshold: real)
    requires DistinctSet(all) && one != other
    ensures Apart(DeviceIds(all, one), DeviceIds(all, other), SameDef(all, embeds, gap, threshold))
  {
    forall x, y | x in DeviceIds(all, one) && y in DeviceIds(all, other)
      ensures x != y && !SameDef(all, embeds, gap, threshold)(x, y) && !SameDef(all, embeds, gap, threshold)(y, x)
    {
      var f :| f in all && f.device == one && f.id == x;
      var g :| g in all && g.device == other && g.id == y;
      SameDefIff(all, embeds, gap, threshold, f, g);
      SameDefIff(all, embeds, gap, threshold, g, f);
    }
  }

  /** Every analyzed file is in exactly one definition, and definitions group files exactly by Shares. */
  lemma PerDevicePartition(files: seq<File>, embeds: map<int, Embedding>, gap: int, threshold: real)
    requires DistinctFiles(files)
    ensures PartitionOf(PerDeviceDefs(files, embeds, gap, threshold), IdSet(Everything(files)),
                        SameDef(Everything(files), embeds, gap, threshold))
  {
    var devs, all := Devices(files), Everything(files);
    var same := SameDef(all, embeds, gap, threshold);
    var parts := PerDeviceParts(files, devs, embeds, gap, threshold);
    var sets := seq(|devs|, i requires 0 <= i < |devs| => DeviceIds(all, devs[i]));
    EverythingDistinct(files);
    DevicesFacts(files);
    forall i | 0 <= i < |devs|
      ensures PartitionOf(parts[i], sets[i], same)
    {
      DevicePartition(files, devs[i], embeds, gap, threshold);
    }
    forall i, j | 0 <= i < j < |devs|
      ensures Apart(sets[i], sets[j], same)
    {
      DevicesApart(all, devs[i], devs[j], embeds, gap, threshold);
    }
    FlattenPartition(parts, sets, same);
    DeviceUnion(files, sets);
  }

  ghost predicate InOneDef(defs: seq<ClusterDef>, x: int, y: int) {
    exists d :: 0 <= d < |defs| && x in defs[d].members && y in defs[d].members
  }

  lemma InOneDefIff(defs: seq<ClusterDef>, ids: set<int>, same: (int, int) -> bool, x: int, y: int)
    requires PartitionOf(defs, ids, same) && x in ids && y in ids
    ensures InOneDef(defs, x, y) <==> same(x, y)
  {
    var d :| 0 <= d < |defs| && x in defs[d].members;
    if InOneDef(defs, x, y) {
      var e :| 0 <= e < |defs| && x in defs[e].members && y in defs[e].members;
      assert d == e;
    }
  }

  /** The end-to-end statement: two distinct files share a cluster iff they are timed shots of one
      device, hops of at most gap seconds lead from one to the other on that device, and either a
      chain of similarities above the threshold joins them inside that bucket or both lack embeddings. */
  lemma ShareClusterIff(files: seq<File>, embeds: map<int, Embedding>, gap: int, threshold: real, i: nat, j: nat)
    requires DistinctFiles(files) && i < |files| && j < |files| && i != j
    ensures var f, g := Run(files[i]), Run(files[j]);
            var peers := Peers(Everything(files), f.device);
            InOneDef(PerDeviceDefs(files, embeds, gap, threshold), f.id, g.id) <==>
            && f.device == g.device && f.at.Some? && g.at.Some?
            && Connected(peers, Near(gap), f, g)
            && (|| (f.id !in embeds && g.id !in embeds)
                || (&& f.id in embeds && g.id in embeds
                    && Connected((set h | h in peers && Connected(peers, Near(gap), f, h) ::
                        h.id) * embeds.Keys, Link(embeds, threshold), f.id, g.id)))
  {
    var all, f, g := Everything(files), Run(files[i]), Run(files[j]);
    var peers := Peers(all, f.device);
    EverythingDistinct(files);
    PerDevicePartition(files, embeds, gap, threshold);
    assert Runs(files)[i] == f && Runs(files)[j] == g;
    assert f in all && g in all;
    InOneDefIff(PerDeviceDefs(files, embeds, gap, threshold), IdSet(all), SameDef(all, embeds, gap, threshold), f.id,
        g.id);
    SameDefIff(all, embeds, gap, threshold, f, g);
    assert IdSet(BucketOf(all, gap, f)) == set h | h in peers && Connected(peers, Near(gap), f, h) :: h.id;
    assert f != g;
  }
}
