/** The order inside the fallback clusters of a cross-device rebuild. */
module CrossDeviceEdges {
  import opened Seqs
  import opened Visual
  import opened Timeline
  import opened Defs
  import opened PerDevice
  import opened PerDeviceTheorems
  import opened CrossDevice
  import opened CrossDeviceTheorems
  import opened CrossDeviceShape
  import opened Rebuild

  // ------------------------------------------- order in fallback clusters

  /** Smaller ids were not taken later. */
  ghost predicate TimesFollowIds(shots: set<RunFile>) {
    forall f, g | f in shots && g in shots && f.at.Some? && g.at.Some? && f.id < g.id :: f.at.value <= g.at.value
  }

  /** A bucket lists its ids in ascending order exactly when the times follow the ids. */
  lemma BucketAscendingIff(bucket: seq<RunFile>)
    requires SortedBy(bucket, RunLe()) && AllTimed(bucket) && DistinctIds(bucket)
    ensures Ascending(IdsOf(bucket)) <==> TimesFollowIds(ToSet(bucket))
  {
    if Ascending(IdsOf(bucket)) {
      forall f, g | f in ToSet(bucket) && g in ToSet(bucket) && f.id < g.id
        ensures f.at.value <= g.at.value
      {
        var i :| 0 <= i < |bucket| && bucket[i] == f;
        var j :| 0 <= j < |bucket| && bucket[j] == g;
        assert IdsOf(bucket)[i] == f.id && IdsOf(bucket)[j] == g.id;
        assert i < j;
        assert RunLe()(bucket[i], bucket[j]);
      }
    }
    if TimesFollowIds(ToSet(bucket)) {
      forall i, j | 0 <= i < j < |bucket|
        ensures IdsOf(bucket)[i] < IdsOf(bucket)[j]
      {
        assert bucket[i] in ToSet(bucket) && bucket[j] in ToSet(bucket);
        assert RunLe()(bucket[i], bucket[j]);
      }
    }
  }

  lemma BucketSorted(s: seq<RunFile>, gap: int, b: nat)
    requires AllTimed(s) && SortedBy(s, RunLe()) && DistinctIds(s) && b < |GapBuckets(s, gap)|
    ensures SortedBy(GapBuckets(s, gap)[b], RunLe()) && DistinctIds(GapBuckets(s, gap)[b])
              && AllTimed(GapBuckets(s, gap)[b])
  {
    var bucket := GapBuckets(s, gap)[b];
    GapBucketsFlatten(s, gap);
    var k := FlattenSlice(GapBuckets(s, gap), b);
    assert forall i | 0 <= i < |bucket| :: bucket[i] == s[k + i];
  }

  lemma LooseTimelineSorted(files: seq<File>, embeds: map<int, Embedding>, dev: string)
    requires DistinctFiles(files)
    ensures SortedBy(LooseTimeline(Runs(files), embeds, dev), RunLe())
  {
    var runs := Filter(Runs(files), LooseOn(embeds, dev));
    RunsDistinct(files, LooseOn(embeds, dev));
    assert forall i | 0 <= i < |runs| :: runs[i] in runs;
    SortedTimed(runs);
    SortedRunFacts(runs);
  }

  /** The members of a fallback cluster are listed in ascending order exactly when their times follow their
      ids; in general they come in time order. */
  lemma FallbackAscendingIff(files: seq<File>, embeds: map<int, Embedding>, gap: int, d: ClusterDef)
    requires DistinctFiles(files)
    requires d in Flatten(LoosePass(Runs(files), embeds, Devices(files), gap))
    ensures Ascending(d.members) <==> TimesFollowIds(set f | f in Everything(files) && f.id in d.members)
  {
    var dev, b := LooseOrigin(files, embeds, gap, d);
    var s := LooseTimeline(Runs(files), embeds, dev);
    var bucket := GapBuckets(s, gap)[b];
    RunsDistinct(files, LooseOn(embeds, dev));
    LooseTimelineFacts(files, embeds, dev);
    LooseTimelineSorted(files, embeds, dev);
    BucketSorted(s, gap, b);
    BucketAscendingIff(bucket);
    LooseBucketFiles(files, embeds, gap, dev, b);
  }

  lemma LooseBucketFiles(files: seq<File>, embeds: map<int, Embedding>, gap: int, dev: string, b: nat)
    requires DistinctFiles(files) && b < |GapBuckets(LooseTimeline(Runs(files), embeds, dev), gap)|
    ensures var bucket := GapBuckets(LooseTimeline(Runs(files), embeds, dev), gap)[b];
            ToSet(bucket) == set f | f in Everything(files) && f.id in IdsOf(bucket)
  {
    var s := LooseTimeline(Runs(files), embeds, dev);
    var bucket := GapBuckets(s, gap)[b];
    LooseTimelineFacts(files, embeds, dev);
    EverythingDistinct(files);
    BucketMembers(s, gap, b);
    forall f
      ensures f in bucket <==> f in Everything(files) && f.id in IdsOf(bucket)
    {
      if f in bucket {
        var i :| 0 <= i < |bucket| && bucket[i] == f;
        assert IdsOf(bucket)[i] == f.id;
        assert f in ToSet(s);
      }
      if f in Everything(files) && f.id in IdsOf(bucket) {
        var i :| 0 <= i < |bucket| && IdsOf(bucket)[i] == f.id;
        assert bucket[i] in bucket && bucket[i] in ToSet(s);
      }
    }
  }

  /** Two shots of one camera without embedding, a second apart, the later one with the smaller id, and one
      with an embedding. */
  function LaterFirst(): seq<File> {
    [File(2, Some("cam"), Some(0)), File(1, Some("cam"), Some(1))] + [File(3, Some("cam"), Some(9))]
  }

  function OneFrame(): map<int, Embedding> {
    map[3 := [1.0]]
  }

  /** The two of them in time order. */
  function TimeOrder(): seq<RunFile> {
    [RunFile(2, "cam", Some(0)), RunFile(1, "cam", Some(1))]
  }

  lemma LaterFirstRuns()
    ensures Filter(Runs(LaterFirst()), LooseOn(OneFrame(), "cam")) == TimeOrder()
  {
    assert Runs(LaterFirst()) == TimeOrder() + [RunFile(3, "cam", Some(9))];
    FilterSnoc(TimeOrder(), RunFile(3, "cam", Some(9)), LooseOn(OneFrame(), "cam"));
    FilterAll(TimeOrder(), LooseOn(OneFrame(), "cam"));
  }

  lemma LaterFirstTimeline()
    ensures LooseTimeline(Runs(LaterFirst()), OneFrame(), "cam") == TimeOrder()
  {
    var t := TimeOrder();
    LaterFirstRuns();
    SortedTimed(t);
    assert t[1..] == [t[1]] && [t[1]][1..] == [];
    assert Sort(t[1..], RunLe()) == [t[1]];
    assert Sort(t, RunLe()) == InsertSorted([t[1]], t[0], RunLe()) == [t[0]] + [t[1]];
  }

  lemma LaterFirstBucket()
    ensures GapBuckets(TimeOrder(), 5) == [TimeOrder()]
  {
    var t := TimeOrder();
    assert t[..1] == [t[0]] && [t[0]][..0] == [];
    assert GapBuckets([t[0]], 5) == [[t[0]]];
    assert [t[0]] + [t[1]] == t;
    assert ExtendLast([[t[0]]], t[1]) == [t];
  }

  lemma OneBucketDefs(runs: seq<RunFile>, embeds: map<int, Embedding>, dev: string, gap: int, t: seq<RunFile>)
    requires LooseTimeline(runs, embeds, dev) == t && t != [] && AllTimed(t) && GapBuckets(t, gap) == [t]
    ensures ClusterDef(dev, t[0].at, IdsOf(t)) in LooseDefs(runs, embeds, dev, gap)
  {
    assert LooseParts(dev, [t])[0] == [ClusterDef(dev, t[0].at, IdsOf(t))];
    FlattenMember(LooseParts(dev, [t]), ClusterDef(dev, t[0].at, IdsOf(t)));
  }

  lemma LaterFirstDefs()
    ensures ClusterDef("cam", Some(0), [2, 1]) in LooseDefs(Runs(LaterFirst()), OneFrame(), "cam", 5)
  {
    LaterFirstTimeline();
    LaterFirstBucket();
    assert IdsOf(TimeOrder()) == [2, 1];
    OneBucketDefs(Runs(LaterFirst()), OneFrame(), "cam", 5, TimeOrder());
  }

  lemma LooseDefIn(files: seq<File>, embeds: map<int, Embedding>, gap: int, threshold: real, f: RunFile, d: ClusterDef)
    requires f in Everything(files) && d in LooseDefs(Runs(files), embeds, f.device, gap)
    ensures d in CrossDefs(files, embeds, gap, threshold)
  {
    var i := DeviceListed(files, f);
    var parts := LoosePass(Runs(files), embeds, Devices(files), gap);
    assert d in parts[i];
    FlattenMember(parts, d);
  }

  lemma LaterFirstFacts()
    ensures DistinctFiles(LaterFirst()) && LaterFirst() != [] && OneFrame() != map[]
    ensures RunFile(2, "cam", Some(0)) in Everything(LaterFirst())
  {
    assert 3 in OneFrame();
    assert Runs(LaterFirst())[0] == RunFile(2, "cam", Some(0));
  }

  /** With them a rebuild in cross-device mode hands over a cluster whose members descend. */
  lemma FallbackDescends(threshold: real)
    ensures DistinctFiles(LaterFirst())
    ensures ClusterDef("cam", Some(0), [2, 1]) in RebuildDefs(LaterFirst(), OneFrame(), 5, threshold, true)
  {
    var d := ClusterDef("cam", Some(0), [2, 1]);
    LaterFirstFacts();
    CrossMode(LaterFirst(), OneFrame(), 5, threshold);
    assert d in CrossDefs(LaterFirst(), OneFrame(), 5, threshold) by {
      LaterFirstDefs();
      LooseDefIn(LaterFirst(), OneFrame(), 5, threshold, RunFile(2, "cam", Some(0)), d);
    }
  }
}
