/** Which files share a cluster after a cross-device rebuild, and how the clusters are tagged. */
module CrossDeviceTheorems {
  import opened Seqs
  import opened Reach
  import opened Visual
  import opened Timeline
  import opened Defs
  import opened PerDevice
  import opened PerDeviceTheorems
  import opened SkewEstimate
  import opened CrossDevice

  /** The embedded, timed files at their skew-corrected times. */
  ghost function Aligned(all: set<RunFile>, embeds: map<int, Embedding>, skew: map<string, int>): set<RunFile> {
    set f | f in all && Anchored(embeds)(f) :: Align(f, skew)
  }

  /** The bucket of the corrected timeline around f. */
  ghost function MergedBucket(all: set<RunFile>, embeds: map<int, Embedding>, skew: map<string, int>, gap: int,
      f: RunFile): set<RunFile> {
    set h | h in Aligned(all, embeds, skew) && Connected(Aligned(all, embeds, skew), Near(gap), Align(f, skew), h)
  }

  /** The timed files of one device that lack an embedding. */
  ghost function Loose(all: set<RunFile>, embeds: map<int, Embedding>, dev: string): set<RunFile> {
    set f | f in all && LooseOn(embeds, dev)(f)
  }

  ghost predicate SharesVisually(all: set<RunFile>, embeds: map<int, Embedding>, skew: map<string, int>, gap: int,
      threshold: real, f: RunFile, g: RunFile) {
    && Anchored(embeds)(f) && Anchored(embeds)(g)
    && Align(g, skew) in MergedBucket(all, embeds, skew, gap, f)
    && SameVisual(IdSet(MergedBucket(all, embeds, skew, gap, f)), embeds, threshold)(f.id, g.id)
  }

  ghost predicate SharesLoosely(all: set<RunFile>, embeds: map<int, Embedding>, gap: int, f: RunFile, g: RunFile) {
    LooseOn(embeds, f.device)(f) && LooseOn(embeds, f.device)(g)
        && Connected(Loose(all, embeds, f.device), Near(gap), f, g)
  }

  /** When two files belong to one cluster: a chain of similar frames inside one bucket of the corrected
      timeline, or, without embeddings, proximity on one device's own clock. */
  ghost predicate CrossShares(all: set<RunFile>, embeds: map<int, Embedding>, skew: map<string, int>, gap: int,
      threshold: real, f: RunFile, g: RunFile) {
    f == g || SharesVisually(all, embeds, skew, gap, threshold, f, g) || SharesLoosely(all, embeds, gap, f, g)
  }

  ghost function SameCross(all: set<RunFile>, embeds: map<int, Embedding>, skew: map<string, int>, gap: int,
      threshold: real): (int, int) -> bool {
    (x, y) =>
      exists f, g ::
        f in all && g in all && f.id == x && g.id == y && CrossShares(all, embeds, skew, gap, threshold, f, g)
  }

  lemma SameCrossIff(all: set<RunFile>, embeds: map<int, Embedding>, skew: map<string, int>, gap: int, threshold: real,
      f: RunFile, g: RunFile)
    requires DistinctSet(all) && f in all && g in all
    ensures SameCross(all, embeds, skew, gap, threshold)(f.id, g.id)
            <==> CrossShares(all, embeds, skew, gap, threshold, f, g)
  {
    if SameCross(all, embeds, skew, gap, threshold)(f.id, g.id) {
      var f', g' :| f' in all && g' in all && f'.id == f.id && g'.id == g.id
          && CrossShares(all, embeds, skew, gap, threshold, f', g');
      assert f' == f && g' == g;
    }
  }

  // ------------------------------------------------------- merged timeline

  ghost function MergedTimeline(files: seq<File>, embeds: map<int, Embedding>,
      skew: map<string, int>): (r: seq<RunFile>)
    ensures AllTimed(r)
  {
    TimedOf(Sort(Canonical(Runs(files), embeds, skew), RunLe()))
  }

  /** The proximity buckets of the merged timeline. */
  ghost function MergedBuckets(files: seq<File>, embeds: map<int, Embedding>, skew: map<string, int>,
      gap: int): (r: seq<seq<RunFile>>)
    ensures forall b | 0 <= b < |r| :: |r[b]| > 0
  {
    GapBuckets(MergedTimeline(files, embeds, skew), gap)
  }

  lemma MergedTimelineFacts(files: seq<File>, embeds: map<int, Embedding>, skew: map<string, int>)
    requires DistinctFiles(files)
    ensures var s := MergedTimeline(files, embeds, skew);
            DistinctIds(s) && InTimeOrder(s) && ToSet(s) == Aligned(Everything(files), embeds, skew)
  {
    var c := Canonical(Runs(files), embeds, skew);
    var kept := Filter(Runs(files), Anchored(embeds));
    CanonicalDistinct(files, embeds, skew);
    SortedTimed(c);
    SortedRunFacts(c);
    SortedInTimeOrder(Sort(c, RunLe()));
    forall h
      ensures h in c <==> h in Aligned(Everything(files), embeds, skew)
    {
      if h in c {
        var i :| 0 <= i < |c| && c[i] == h;
        assert kept[i] in kept;
        assert kept[i] in Everything(files);
      }
      if h in Aligned(Everything(files), embeds, skew) {
        var f :| f in Everything(files) && Anchored(embeds)(f) && Align(f, skew) == h;
        assert f in kept;
        var i :| 0 <= i < |kept| && kept[i] == f;
        assert c[i] == h;
      }
    }
  }

  lemma Unaligned(all: set<RunFile>, embeds: map<int, Embedding>, skew: map<string, int>, h: RunFile)
    returns (f: RunFile)
    requires h in Aligned(all, embeds, skew)
    ensures f in all && Anchored(embeds)(f) && Align(f, skew) == h && f.id == h.id && f.device == h.device
  {
    f :| f in all && Anchored(embeds)(f) && Align(f, skew) == h;
  }

  lemma MergedBucketIs(files: seq<File>, embeds: map<int, Embedding>, skew: map<string, int>, gap: int, b: nat,
      f: RunFile)
    requires DistinctFiles(files)
    requires b < |MergedBuckets(files, embeds, skew, gap)|
    requires Align(f, skew) in MergedBuckets(files, embeds, skew, gap)[b]
    ensures ToSet(MergedBuckets(files, embeds, skew, gap)[b]) == MergedBucket(Everything(files), embeds, skew, gap, f)
  {
    MergedTimelineFacts(files, embeds, skew);
    BucketIsComponent(MergedTimeline(files, embeds, skew), gap, b, Align(f, skew));
  }

  lemma MergedOrigin(files: seq<File>, embeds: map<int, Embedding>, skew: map<string, int>, gap: int, b: nat, x: int)
    returns (f: RunFile)
    requires DistinctFiles(files)
    requires b < |MergedBuckets(files, embeds, skew, gap)|
    requires x in IdSet(ToSet(MergedBuckets(files, embeds, skew, gap)[b]))
    ensures f in Everything(files) && Anchored(embeds)(f) && f.id == x
    ensures Align(f, skew) in MergedBuckets(files, embeds, skew, gap)[b]
  {
    var s := MergedTimeline(files, embeds, skew);
    MergedTimelineFacts(files, embeds, skew);
    BucketMembers(s, gap, b);
    var h :| h in ToSet(GapBuckets(s, gap)[b]) && h.id == x;
    assert h in ToSet(s);
    f := Unaligned(Everything(files), embeds, skew, h);
  }

  lemma MergedBucketSame(files: seq<File>, embeds: map<int, Embedding>, skew: map<string, int>, gap: int,
      threshold: real, b: nat, x: int, y: int)
    requires DistinctFiles(files)
    requires b < |MergedBuckets(files, embeds, skew, gap)|
    requires x in IdSet(ToSet(MergedBuckets(files, embeds, skew, gap)[b]))
    requires y in IdSet(ToSet(MergedBuckets(files, embeds, skew, gap)[b]))
    ensures SameCross(Everything(files), embeds, skew, gap, threshold)(x, y)
            <==> SameVisual(IdSet(ToSet(MergedBuckets(files, embeds, skew, gap)[b])), embeds, threshold)(x, y)
  {
    var f := MergedOrigin(files, embeds, skew, gap, b, x);
    var g := MergedOrigin(files, embeds, skew, gap, b, y);
    EverythingDistinct(files);
    MergedBucketIs(files, embeds, skew, gap, b, f);
    SameCrossIff(Everything(files), embeds, skew, gap, threshold, f, g);
    SameVisualEquivalence(IdSet(MergedBucket(Everything(files), embeds, skew, gap, f)), embeds, threshold);
  }

  lemma MergedPartition(files: seq<File>, embeds: map<int, Embedding>, skew: map<string, int>, gap: int,
      threshold: real)
    requires DistinctFiles(files)
    ensures PartitionOf(MergedDefs(Runs(files), embeds, skew, gap, threshold),
                        IdSet(Aligned(Everything(files), embeds, skew)),
                        SameCross(Everything(files), embeds, skew, gap, threshold))
  {
    var s, same := MergedTimeline(files, embeds, skew), SameCross(Everything(files), embeds, skew, gap, threshold);
    var r := GapBuckets(s, gap);
    var parts := MergedParts(r, embeds, threshold);
    MergedTimelineFacts(files, embeds, skew);
    forall b | 0 <= b < |parts|
      ensures PartitionOf(parts[b], BucketIds(r)[b], same)
    {
      var ids := IdSet(ToSet(r[b]));
      forall x, y | x in ids && y in ids
        ensures same(x, y) <==> SameVisual(ids, embeds, threshold)(x, y)
      {
        MergedBucketSame(files, embeds, skew, gap, threshold, b, x, y);
      }
      EmitPartition("", None, ids, embeds, threshold, same);
      PartitionByMembers(Emit("", None, ids, embeds, threshold), parts[b], ids, same);
    }
    MergedSplit(files, embeds, skew, gap, threshold);
    WalkPartition(s, gap, parts, same);
  }

  lemma MergedPairSplit(files: seq<File>, embeds: map<int, Embedding>, skew: map<string, int>, gap: int,
      threshold: real, i: nat, j: nat)
    requires DistinctFiles(files)
    requires i < |MergedTimeline(files, embeds, skew)| && j < |MergedTimeline(files, embeds, skew)|
    requires BucketNo(MergedTimeline(files, embeds, skew), gap, i) != BucketNo(MergedTimeline(files, embeds, skew), gap,
              j)
    ensures !SameCross(Everything(files), embeds, skew, gap, threshold)(MergedTimeline(files, embeds, skew)[i].id,
              MergedTimeline(files, embeds, skew)[j].id)
  {
    var all, s := Everything(files), MergedTimeline(files, embeds, skew);
    EverythingDistinct(files);
    MergedTimelineFacts(files, embeds, skew);
    assert s[i] in ToSet(s) && s[j] in ToSet(s);
    var f := Unaligned(all, embeds, skew, s[i]);
    var g := Unaligned(all, embeds, skew, s[j]);
    BucketsAreComponents(s, gap, i, j);
    SameCrossIff(all, embeds, skew, gap, threshold, f, g);
  }

  lemma MergedSplit(files: seq<File>, embeds: map<int, Embedding>, skew: map<string, int>, gap: int, threshold: real)
    requires DistinctFiles(files)
    ensures SplitAtBreaks(MergedTimeline(files, embeds, skew), gap, SameCross(Everything(files), embeds, skew, gap,
              threshold))
  {
    var s := MergedTimeline(files, embeds, skew);
    forall i: nat, j: nat | i < |s| && j < |s| && BucketNo(s, gap, i) != BucketNo(s, gap, j)
      ensures !SameCross(Everything(files), embeds, skew, gap, threshold)(s[i].id, s[j].id)
    {
      MergedPairSplit(files, embeds, skew, gap, threshold, i, j);
    }
  }

  // ------------------------------------------------ files without embedding

  lemma LooseTimelineFacts(files: seq<File>, embeds: map<int, Embedding>, dev: string)
    requires DistinctFiles(files)
    ensures var s := LooseTimeline(Runs(files), embeds, dev);
            DistinctIds(s) && InTimeOrder(s) && ToSet(s) == Loose(Everything(files), embeds, dev)
  {
    var runs := Filter(Runs(files), LooseOn(embeds, dev));
    RunsDistinct(files, LooseOn(embeds, dev));
    assert forall i | 0 <= i < |runs| :: runs[i] in runs;
    SortedTimed(runs);
    SortedRunFacts(runs);
    SortedInTimeOrder(Sort(runs, RunLe()));
    assert ToSet(runs) == Loose(Everything(files), embeds, dev);
  }

  lemma LooseBucketPartition(files: seq<File>, embeds: map<int, Embedding>, skew: map<string, int>, gap: int,
      threshold: real, dev: string, b: nat)
    requires DistinctFiles(files)
    requires b < |GapBuckets(LooseTimeline(Runs(files), embeds, dev), gap)|
    ensures var bucket := GapBuckets(LooseTimeline(Runs(files), embeds, dev), gap)[b];
            PartitionOf([ClusterDef(dev, bucket[0].at, IdsOf(bucket))], IdSet(ToSet(bucket)),
                        SameCross(Everything(files), embeds, skew, gap, threshold))
  {
    var all, s, same := Everything(files), LooseTimeline(Runs(files), embeds, dev), SameCross(Everything(files), embeds,
        skew, gap, threshold);
    var bucket := GapBuckets(s, gap)[b];
    EverythingDistinct(files);
    LooseTimelineFacts(files, embeds, dev);
    BucketMembers(s, gap, b);
    BucketDistinct(s, gap, b);
    IdsOfNoDup(bucket);
    IdsOfSet(bucket);
    var d := [ClusterDef(dev, bucket[0].at, IdsOf(bucket))];
    var ids := IdSet(ToSet(bucket));
    forall x
      ensures x in d[0].members <==> x in ids
    {
      assert x in ToSet(IdsOf(bucket)) <==> x in ids;
    }
    forall x, y | x in ids && y in ids
      ensures same(x, y)
    {
      var f :| f in ToSet(bucket) && f.id == x;
      var g :| g in ToSet(bucket) && g.id == y;
      BucketIsComponent(s, gap, b, f);
      assert f in ToSet(s) && g in ToSet(s);
      SameCrossIff(all, embeds, skew, gap, threshold, f, g);
    }
  }

  lemma BucketDistinct(s: seq<RunFile>, gap: int, b: nat)
    requires AllTimed(s) && DistinctIds(s) && b < |GapBuckets(s, gap)|
    ensures DistinctIds(GapBuckets(s, gap)[b])
  {
    GapBucketsFlatten(s, gap);
    var k := FlattenSlice(GapBuckets(s, gap), b);
    assert DistinctIds(s[k..k + |GapBuckets(s, gap)[b]|]);
  }

  lemma LoosePairSplit(files: seq<File>, embeds: map<int, Embedding>, skew: map<string, int>, gap: int, threshold: real,
      dev: string, i: nat, j: nat)
    requires DistinctFiles(files)
    requires i < |LooseTimeline(Runs(files), embeds, dev)| && j < |LooseTimeline(Runs(files), embeds, dev)|
    requires BucketNo(LooseTimeline(Runs(files), embeds, dev), gap, i) != BucketNo(LooseTimeline(Runs(files), embeds,
              dev), gap, j)
    ensures !SameCross(Everything(files), embeds, skew, gap, threshold)(LooseTimeline(Runs(files), embeds, dev)[i].id,
              LooseTimeline(Runs(files), embeds, dev)[j].id)
  {
    var s := LooseTimeline(Runs(files), embeds, dev);
    EverythingDistinct(files);
    LooseTimelineFacts(files, embeds, dev);
    assert s[i] in ToSet(s) && s[j] in ToSet(s);
    BucketsAreComponents(s, gap, i, j);
    SameCrossIff(Everything(files), embeds, skew, gap, threshold, s[i], s[j]);
  }

  lemma LooseSplit(files: seq<File>, embeds: map<int, Embedding>, skew: map<string, int>, gap: int, threshold: real,
      dev: string)
    requires DistinctFiles(files)
    ensures SplitAtBreaks(LooseTimeline(Runs(files), embeds, dev), gap,
                          SameCross(Everything(files), embeds, skew, gap, threshold))
  {
    var s := LooseTimeline(Runs(files), embeds, dev);
    forall i: nat, j: nat | i < |s| && j < |s| && BucketNo(s, gap, i) != BucketNo(s, gap, j)
      ensures !SameCross(Everything(files), embeds, skew, gap, threshold)(s[i].id, s[j].id)
    {
      LoosePairSplit(files, embeds, skew, gap, threshold, dev, i, j);
    }
  }

  lemma LooseDevicePartition(files: seq<File>, embeds: map<int, Embedding>, skew: map<string, int>, gap: int,
      threshold: real, dev: string)
    requires DistinctFiles(files)
    ensures PartitionOf(LooseDefs(Runs(files), embeds, dev, gap), IdSet(Loose(Everything(files), embeds, dev)),
                        SameCross(Everything(files), embeds, skew, gap, threshold))
  {
    var s, same := LooseTimeline(Runs(files), embeds, dev), SameCross(Everything(files), embeds, skew, gap, threshold);
    var r := GapBuckets(s, gap);
    LooseTimelineFacts(files, embeds, dev);
    forall b | 0 <= b < |r|
      ensures PartitionOf(LooseParts(dev, r)[b], BucketIds(r)[b], same)
    {
      LooseBucketPartition(files, embeds, skew, gap, threshold, dev, b);
    }
    LooseSplit(files, embeds, skew, gap, threshold, dev);
    WalkPartition(s, gap, LooseParts(dev, r), same);
  }

  ghost predicate Unrelated(embeds: map<int, Embedding>, f: RunFile, g: RunFile) {
    && f != g
    && !(Anchored(embeds)(f) && Anchored(embeds)(g))
    && !(LooseOn(embeds, f.device)(f) && LooseOn(embeds, f.device)(g))
  }

  /** Files of different devices without embeddings, and files of different kinds, never share. */
  lemma KindsApart(all: set<RunFile>, embeds: map<int, Embedding>, skew: map<string, int>, gap: int, threshold: real,
      p: set<RunFile>, q: set<RunFile>)
    requires DistinctSet(all) && p <= all && q <= all
    requires forall f, g | f in p && g in q :: Unrelated(embeds, f, g)
    ensures Apart(IdSet(p), IdSet(q), SameCross(all, embeds, skew, gap, threshold))
  {
    var same := SameCross(all, embeds, skew, gap, threshold);
    forall x, y | x in IdSet(p) && y in IdSet(q)
      ensures x != y && !same(x, y) && !same(y, x)
    {
      var f :| f in p && f.id == x;
      var g :| g in q && g.id == y;
      SameCrossIff(all, embeds, skew, gap, threshold, f, g);
      SameCrossIff(all, embeds, skew, gap, threshold, g, f);
    }
  }

  ghost function Without(all: set<RunFile>, embeds: map<int, Embedding>): set<RunFile> {
    set f | f in all && f.at.Some? && f.id !in embeds
  }

  ghost function Untimed(all: set<RunFile>): set<RunFile> {
    set f | f in all && f.at.None?
  }

  ghost function With(all: set<RunFile>, embeds: map<int, Embedding>): set<RunFile> {
    set f | f in all && Anchored(embeds)(f)
  }

  lemma DeviceListed(files: seq<File>, f: RunFile) returns (i: nat)
    requires f in Everything(files)
    ensures i < |Devices(files)| && Devices(files)[i] == f.device
  {
    DevicesFacts(files);
    var k :| 0 <= k < |Runs(files)| && Runs(files)[k] == f;
    assert Device(files[k]) == f.device;
    assert f.device in Devices(files);
    i :| 0 <= i < |Devices(files)| && Devices(files)[i] == f.device;
  }

  lemma LooseApart(all: set<RunFile>, embeds: map<int, Embedding>, skew: map<string, int>, gap: int, threshold: real,
      one: string, other: string)
    requires DistinctSet(all) && one != other
    ensures Apart(IdSet(Loose(all, embeds, one)), IdSet(Loose(all, embeds, other)),
                  SameCross(all, embeds, skew, gap, threshold))
  {
    KindsApart(all, embeds, skew, gap, threshold, Loose(all, embeds, one), Loose(all, embeds, other));
  }

  lemma LoosePassPartition(files: seq<File>, embeds: map<int, Embedding>, skew: map<string, int>, gap: int,
      threshold: real)
    requires DistinctFiles(files)
    ensures PartitionOf(Flatten(LoosePass(Runs(files), embeds, Devices(files), gap)),
                        IdSet(Without(Everything(files), embeds)),
                        SameCross(Everything(files), embeds, skew, gap, threshold))
  {
    var all, devs, same := Everything(files), Devices(files), SameCross(Everything(files), embeds, skew, gap,
        threshold);
    var sets := seq(|devs|, i requires 0 <= i < |devs| => IdSet(Loose(all, embeds, devs[i])));
    var parts := LoosePass(Runs(files), embeds, devs, gap);
    EverythingDistinct(files);
    DevicesFacts(files);
    forall i | 0 <= i < |devs|
      ensures PartitionOf(parts[i], sets[i], same)
    {
      LooseDevicePartition(files, embeds, skew, gap, threshold, devs[i]);
    }
    forall i, j | 0 <= i < j < |devs|
      ensures Apart(sets[i], sets[j], same)
    {
      LooseApart(all, embeds, skew, gap, threshold, devs[i], devs[j]);
    }
    FlattenPartition(parts, sets, same);
    LooseUnion(files, embeds, sets);
  }

  lemma LooseUnion(files: seq<File>, embeds: map<int, Embedding>, sets: seq<set<int>>)
    requires |sets| == |Devices(files)|
    requires forall i | 0 <= i < |sets| :: sets[i] == IdSet(Loose(Everything(files), embeds, Devices(files)[i]))
    ensures UnionOf(sets) == IdSet(Without(Everything(files), embeds))
  {
    var all := Everything(files);
    forall x | x in IdSet(Without(all, embeds))
      ensures x in UnionOf(sets)
    {
      var f :| f in Without(all, embeds) && f.id == x;
      var i := DeviceListed(files, f);
      assert f in Loose(all, embeds, Devices(files)[i]);
      assert x in sets[i];
    }
    forall x | x in UnionOf(sets)
      ensures x in IdSet(Without(all, embeds))
    {
      var i :| 0 <= i < |sets| && x in sets[i];
      var f :| f in Loose(all, embeds, Devices(files)[i]) && f.id == x;
      assert f in Without(all, embeds);
    }
  }

  // ----------------------------------------------------- files without time

  ghost function NullsOf(all: set<RunFile>, dev: string): set<RunFile> {
    set f | f in all && NullOn(dev)(f)
  }

  lemma NullTimelineFacts(files: seq<File>, dev: string)
    requires DistinctFiles(files)
    ensures DistinctIds(NullTimeline(Runs(files), dev))
    ensures ToSet(NullTimeline(Runs(files), dev)) == NullsOf(Everything(files), dev)
  {
    var runs := Filter(Runs(files), NullOn(dev));
    RunsDistinct(files, NullOn(dev));
    SortedRunFacts(runs);
    assert ToSet(runs) == NullsOf(Everything(files), dev);
  }

  lemma NullPassPartition(files: seq<File>, embeds: map<int, Embedding>, skew: map<string, int>, gap: int,
      threshold: real)
    requires DistinctFiles(files)
    ensures PartitionOf(Flatten(NullPass(Runs(files), Devices(files))), IdSet(Untimed(Everything(files))),
                        SameCross(Everything(files), embeds, skew, gap, threshold))
  {
    var all, devs, same := Everything(files), Devices(files), SameCross(Everything(files), embeds, skew, gap,
        threshold);
    var sets := seq(|devs|, i requires 0 <= i < |devs| => IdSet(NullsOf(all, devs[i])));
    var parts := NullPass(Runs(files), devs);
    EverythingDistinct(files);
    DevicesFacts(files);
    forall i | 0 <= i < |devs|
      ensures PartitionOf(parts[i], sets[i], same)
    {
      NullDevicePartition(files, embeds, skew, gap, threshold, devs[i]);
    }
    forall i, j | 0 <= i < j < |devs|
      ensures Apart(sets[i], sets[j], same)
    {
      KindsApart(all, embeds, skew, gap, threshold, NullsOf(all, devs[i]), NullsOf(all, devs[j]));
    }
    FlattenPartition(parts, sets, same);
    NullUnion(files, sets);
  }

  lemma NullDevicePartition(files: seq<File>, embeds: map<int, Embedding>, skew: map<string, int>, gap: int,
      threshold: real, dev: string)
    requires DistinctFiles(files)
    ensures PartitionOf(NullDefs(dev, NullTimeline(Runs(files), dev)), IdSet(NullsOf(Everything(files), dev)),
                        SameCross(Everything(files), embeds, skew, gap, threshold))
  {
    var all, same, t := Everything(files), SameCross(Everything(files), embeds, skew, gap, threshold),
        NullTimeline(Runs(files), dev);
    EverythingDistinct(files);
    NullTimelineFacts(files, dev);
    forall i, j | 0 <= i < |t| && 0 <= j < |t|
      ensures same(t[i].id, t[j].id) <==> i == j
    {
      assert t[i] in ToSet(t) && t[j] in ToSet(t);
      SameCrossIff(all, embeds, skew, gap, threshold, t[i], t[j]);
    }
    NullPartition(dev, t, same);
  }

  lemma NullUnion(files: seq<File>, sets: seq<set<int>>)
    requires DistinctFiles(files) && |sets| == |Devices(files)|
    requires forall i | 0 <= i < |sets| :: sets[i] == IdSet(NullsOf(Everything(files), Devices(files)[i]))
    ensures UnionOf(sets) == IdSet(Untimed(Everything(files)))
  {
    var all := Everything(files);
    forall x | x in IdSet(Untimed(all))
      ensures x in UnionOf(sets)
    {
      var f :| f in Untimed(all) && f.id == x;
      var i := DeviceListed(files, f);
      assert f in NullsOf(all, Devices(files)[i]);
      assert x in sets[i];
    }
    forall x | x in UnionOf(sets)
      ensures x in IdSet(Untimed(all))
    {
      var i :| 0 <= i < |sets| && x in sets[i];
      var f :| f in NullsOf(all, Devices(files)[i]) && f.id == x;
      assert f in Untimed(all);
    }
  }

  // ------------------------------------------------------------- main result

  lemma PassesApart(all: set<RunFile>, embeds: map<int, Embedding>, skew: map<string, int>, gap: int, threshold: real)
    requires DistinctSet(all)
    ensures Apart(IdSet(With(all, embeds)), IdSet(Without(all, embeds)), SameCross(all, embeds, skew, gap, threshold))
    ensures Apart(IdSet(With(all, embeds)) + IdSet(Without(all, embeds)), IdSet(Untimed(all)),
                  SameCross(all, embeds, skew, gap, threshold))
    ensures IdSet(all) == IdSet(With(all, embeds)) + IdSet(Without(all, embeds)) + IdSet(Untimed(all))
  {
    var w, o, n := With(all, embeds), Without(all, embeds), Untimed(all);
    KindsApart(all, embeds, skew, gap, threshold, w, o);
    KindsApart(all, embeds, skew, gap, threshold, w + o, n);
    assert IdSet(w + o) == IdSet(w) + IdSet(o);
    assert all == w + o + n;
    assert IdSet(all) == IdSet(w + o) + IdSet(n);
  }

  /** The three passes together put every analyzed file in exactly one definition, and definitions
      group files exactly by CrossShares. */
  lemma CrossDevicePartition(files: seq<File>, embeds: map<int, Embedding>, gap: int, threshold: real)
    requires DistinctFiles(files)
    ensures PartitionOf(CrossDefs(files, embeds, gap, threshold), IdSet(Everything(files)),
                        SameCross(Everything(files), embeds, SkewOf(files, embeds), gap, threshold))
  {
    var all, skew := Everything(files), SkewOf(files, embeds);
    var same := SameCross(all, embeds, skew, gap, threshold);
    var a, b, c := MergedDefs(Runs(files), embeds, skew, gap, threshold), Flatten(LoosePass(Runs(files), embeds,
        Devices(files), gap)), Flatten(NullPass(Runs(files), Devices(files)));
    EverythingDistinct(files);
    MergedPartition(files, embeds, skew, gap, threshold);
    AlignedIds(all, embeds, skew);
    LoosePassPartition(files, embeds, skew, gap, threshold);
    NullPassPartition(files, embeds, skew, gap, threshold);
    PassesApart(all, embeds, skew, gap, threshold);
    PartitionConcat(a, IdSet(With(all, embeds)), b, IdSet(Without(all, embeds)), same);
    PartitionConcat(a + b, IdSet(With(all, embeds)) + IdSet(Without(all, embeds)), c, IdSet(Untimed(all)), same);
  }

  lemma AlignedIds(all: set<RunFile>, embeds: map<int, Embedding>, skew: map<string, int>)
    ensures IdSet(Aligned(all, embeds, skew)) == IdSet(With(all, embeds))
  {
    forall x | x in IdSet(With(all, embeds))
      ensures x in IdSet(Aligned(all, embeds, skew))
    {
      var f :| f in With(all, embeds) && f.id == x;
      assert Align(f, skew) in Aligned(all, embeds, skew);
    }
    forall x | x in IdSet(Aligned(all, embeds, skew))
      ensures x in IdSet(With(all, embeds))
    {
      var h :| h in Aligned(all, embeds, skew) && h.id == x;
      var f := Unaligned(all, embeds, skew, h);
      assert f in With(all, embeds);
    }
  }

  /** Two distinct files share a cluster of the cross-device rebuild iff CrossShares holds. */
  lemma CrossShareClusterIff(files: seq<File>, embeds: map<int, Embedding>, gap: int, threshold: real, i: nat, j: nat)
    requires DistinctFiles(files) && i < |files| && j < |files| && i != j
    ensures InOneDef(CrossDefs(files, embeds, gap, threshold), files[i].id, files[j].id)
            <==> var f, g := Run(files[i]), Run(files[j]);
                 SharesVisually(Everything(files), embeds, SkewOf(files, embeds), gap, threshold, f, g)
                 || SharesLoosely(Everything(files), embeds, gap, f, g)
  {
    var all, skew, f, g := Everything(files), SkewOf(files, embeds), Run(files[i]), Run(files[j]);
    EverythingDistinct(files);
    CrossDevicePartition(files, embeds, gap, threshold);
    assert Runs(files)[i] == f && Runs(files)[j] == g;
    assert f in all && g in all && f != g;
    InOneDefIff(CrossDefs(files, embeds, gap, threshold), IdSet(all), SameCross(all, embeds, skew, gap, threshold),
        f.id, g.id);
    SameCrossIff(all, embeds, skew, gap, threshold, f, g);
  }
}
