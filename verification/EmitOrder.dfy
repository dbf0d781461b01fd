/** The order in which the rebuilds hand their definitions to the store. */
module EmitOrder {
  import opened Seqs
  import opened Visual
  import opened Timeline
  import opened Defs
  import opened PerDevice
  import opened PerDeviceTheorems
  import opened CrossDevice
  import opened CrossDeviceTheorems
  import opened CrossDeviceShape
  import opened SkewEstimate
  import opened Orders

  type Before = (ClusterDef, ClusterDef) -> bool

  /** Some file of one device comes before every file of the other. */
  ghost predicate SeenBefore(files: seq<File>, a: string, b: string) {
    exists k :: 0 <= k < |files| && Device(files[k]) == a && forall i | 0 <= i <= k :: Device(files[i]) != b
  }

  /** By time with NULL last, then by first member. */
  predicate StartsBefore(d: ClusterDef, e: ClusterDef)
    requires d.members != [] && e.members != []
  {
    || (d.bucket.Some? && e.bucket.None?)
    || (d.bucket.Some? && e.bucket.Some? && d.bucket.value < e.bucket.value)
    || (d.bucket == e.bucket && d.members[0] < e.members[0])
  }

  function ByTime(): Before {
    (d: ClusterDef, e: ClusterDef) => d.members != [] && e.members != [] && StartsBefore(d, e)
  }

  /** By first file of the device, and on one device by time. */
  ghost function ByDevice(files: seq<File>): Before {
    (d: ClusterDef, e: ClusterDef) =>
      if d.device == e.device then ByTime()(d, e) else SeenBefore(files, d.device, e.device)
  }

  ghost predicate InOrder(defs: seq<ClusterDef>, before: Before) {
    forall i, j | 0 <= i < j < |defs| :: before(defs[i], defs[j])
  }

  ghost predicate AllBefore(a: seq<ClusterDef>, b: seq<ClusterDef>, before: Before) {
    forall d, e | d in a && e in b :: before(d, e)
  }

  lemma InOrderConcat(a: seq<ClusterDef>, b: seq<ClusterDef>, before: Before)
    requires InOrder(a, before) && InOrder(b, before) && AllBefore(a, b, before)
    ensures InOrder(a + b, before)
  {
    var c := a + b;
    forall i, j | 0 <= i < j < |c|
      ensures before(c[i], c[j])
    {
      if i < |a| <= j {
        assert c[i] in a && c[j] in b;
      }
    }
  }

  lemma {:induction false} InOrderFlatten(parts: seq<seq<ClusterDef>>, before: Before)
    requires forall i | 0 <= i < |parts| :: InOrder(parts[i], before)
    requires forall i, j | 0 <= i < j < |parts| :: AllBefore(parts[i], parts[j], before)
    ensures InOrder(Flatten(parts), before)
  {
    if parts != [] {
      InOrderFlatten(parts[1..], before);
      forall d, e | d in parts[0] && e in Flatten(parts[1..])
        ensures before(d, e)
      {
        FlattenMember(parts[1..], e);
        var j :| 0 <= j < |parts[1..]| && e in parts[1..][j];
        assert AllBefore(parts[0], parts[j + 1], before);
      }
      InOrderConcat(parts[0], Flatten(parts[1..]), before);
    }
  }

  ghost predicate OnOneDevice(defs: seq<ClusterDef>, dev: string) {
    forall d | d in defs :: d.device == dev
  }

  /** Lists of single devices, one after the other. */
  lemma DevicesInOrder(files: seq<File>, parts: seq<seq<ClusterDef>>)
    requires |parts| == |Devices(files)|
    requires forall i | 0 <= i < |parts| :: InOrder(parts[i], ByTime()) && OnOneDevice(parts[i], Devices(files)[i])
    ensures InOrder(Flatten(parts), ByDevice(files))
  {
    DevicesFacts(files);
    forall i | 0 <= i < |parts|
      ensures InOrder(parts[i], ByDevice(files))
    {
      assert forall k | 0 <= k < |parts[i]| :: parts[i][k] in parts[i];
    }
    forall i, j | 0 <= i < j < |parts|
      ensures AllBefore(parts[i], parts[j], ByDevice(files))
    {
      ListedSeenBefore(files, i, j);
    }
    InOrderFlatten(parts, ByDevice(files));
  }

  // ------------------------------------------------------------ one bucket

  lemma EmitMember(dev: string, start: Option<int>, ids: set<int>, embeds: map<int, Embedding>, threshold: real,
      d: ClusterDef)
    requires d in Emit(dev, start, ids, embeds, threshold)
    ensures d.device == dev && d.bucket == start && d.members != [] && d.members[0] in ids
  {
    GroupsCanonical(ids, embeds, threshold);
    var k :| 0 <= k < |Groups(ids, embeds, threshold)| && d.members == Groups(ids, embeds, threshold)[k]
        && d == Emit(dev, start, ids, embeds, threshold)[k];
    assert Groups(ids, embeds, threshold)[k][0] in Groups(ids, embeds, threshold)[k];
  }

  lemma EmitInOrder(dev: string, start: Option<int>, ids: set<int>, embeds: map<int, Embedding>, threshold: real)
    ensures InOrder(Emit(dev, start, ids, embeds, threshold), ByTime())
  {
    GroupsCanonical(ids, embeds, threshold);
  }

  // ----------------------------------------------------------- one timeline

  lemma {:induction false} NegativeGap(s: seq<RunFile>, gap: int, i: nat)
    requires AllTimed(s) && InTimeOrder(s) && gap < 0 && i < |s|
    ensures BucketNo(s, gap, i) == i
  {
    if i > 0 {
      NegativeGap(s, gap, i - 1);
      assert s[i - 1].at.value <= s[i].at.value;
    }
  }

  lemma FilePosition(s: seq<RunFile>, gap: int, b: nat, f: RunFile) returns (i: nat)
    requires AllTimed(s) && b < |GapBuckets(s, gap)| && f in GapBuckets(s, gap)[b]
    ensures i < |s| && s[i] == f && BucketNo(s, gap, i) == b
  {
    GapBucketsNumbered(s, gap);
    assert HasNumber(s, gap, f, b);
    i :| i < |s| && s[i] == f && BucketNo(s, gap, i) == b;
  }

  /** A break between two files of one time needs a negative gap. */
  lemma BreakAtOneTime(s: seq<RunFile>, gap: int, i: nat, j: nat)
    requires AllTimed(s) && InTimeOrder(s) && i < j < |s| && s[i].at == s[j].at
    requires BucketNo(s, gap, i) != BucketNo(s, gap, j)
    ensures gap < 0
  {
    BucketNoMonotone(s, gap, i, j);
    var k :| i < k <= j && Break(s, gap, k);
    assert s[i].at.value <= s[k - 1].at.value && s[k].at.value <= s[j].at.value;
  }

  lemma EarlierPosition(s: seq<RunFile>, gap: int, i: nat, j: nat)
    requires AllTimed(s) && i < |s| && j < |s| && BucketNo(s, gap, i) < BucketNo(s, gap, j)
    ensures i < j
  {
    if j <= i {
      BucketNoMonotone(s, gap, j, i);
    }
  }

  /** Where a later bucket starts at the same time the gap is negative, so both hold one file. */
  lemma BucketsInOrder(s: seq<RunFile>, gap: int, b: nat, c: nat, f: RunFile, g: RunFile)
    requires AllTimed(s) && DistinctIds(s) && SortedBy(s, RunLe())
    requires b < c < |GapBuckets(s, gap)| && f in GapBuckets(s, gap)[b] && g in GapBuckets(s, gap)[c]
    ensures var t, u := GapBuckets(s, gap)[b][0].at, GapBuckets(s, gap)[c][0].at;
            t.Some? && u.Some? && (t.value < u.value || (t == u && f.id < g.id))
  {
    SortedInTimeOrder(s);
    var i := FilePosition(s, gap, b, GapBuckets(s, gap)[b][0]);
    var j := FilePosition(s, gap, c, GapBuckets(s, gap)[c][0]);
    EarlierPosition(s, gap, i, j);
    assert RunLe()(s[i], s[j]);
    if s[i].at == s[j].at {
      BreakAtOneTime(s, gap, i, j);
      var p := FilePosition(s, gap, b, f);
      var q := FilePosition(s, gap, c, g);
      NegativeGap(s, gap, i);
      NegativeGap(s, gap, j);
      NegativeGap(s, gap, p);
      NegativeGap(s, gap, q);
      assert s[i].id != s[j].id;
    }
  }

  /** A list of definitions for each bucket, with its start and with members from it. */
  ghost predicate PartsOf(s: seq<RunFile>, gap: int, parts: seq<seq<ClusterDef>>)
    requires AllTimed(s)
  {
    && |parts| == |GapBuckets(s, gap)|
    && forall b, d | 0 <= b < |parts| && d in parts[b] ::
         d.bucket == GapBuckets(s, gap)[b][0].at && d.members != []
         && d.members[0] in IdSet(ToSet(GapBuckets(s, gap)[b]))
  }

  lemma PartsInOrder(s: seq<RunFile>, gap: int, parts: seq<seq<ClusterDef>>)
    requires AllTimed(s) && DistinctIds(s) && SortedBy(s, RunLe()) && PartsOf(s, gap, parts)
    requires forall b | 0 <= b < |parts| :: InOrder(parts[b], ByTime())
    ensures InOrder(Flatten(parts), ByTime())
  {
    var r := GapBuckets(s, gap);
    forall b, c | 0 <= b < c < |parts|
      ensures AllBefore(parts[b], parts[c], ByTime())
    {
      forall d, e | d in parts[b] && e in parts[c]
        ensures ByTime()(d, e)
      {
        var f: RunFile :| f in r[b] && f.id == d.members[0];
        var g: RunFile :| g in r[c] && g.id == e.members[0];
        BucketsInOrder(s, gap, b, c, f, g);
      }
    }
    InOrderFlatten(parts, ByTime());
  }

  lemma TimedInOrder(dev: string, s: seq<RunFile>, embeds: map<int, Embedding>, gap: int, threshold: real)
    requires AllTimed(s) && DistinctIds(s) && SortedBy(s, RunLe())
    ensures InOrder(Flatten(BucketDefs(dev, GapBuckets(s, gap), embeds, threshold)), ByTime())
  {
    var r := GapBuckets(s, gap);
    var parts := BucketDefs(dev, r, embeds, threshold);
    forall b | 0 <= b < |parts|
      ensures InOrder(parts[b], ByTime())
      ensures forall d: ClusterDef | d in parts[b] ::
                d.bucket == r[b][0].at && d.members != [] && d.members[0] in IdSet(ToSet(r[b]))
    {
      EmitInOrder(dev, r[b][0].at, IdSet(ToSet(r[b])), embeds, threshold);
      forall d: ClusterDef | d in parts[b]
        ensures d.bucket == r[b][0].at && d.members != [] && d.members[0] in IdSet(ToSet(r[b]))
      {
        EmitMember(dev, r[b][0].at, IdSet(ToSet(r[b])), embeds, threshold, d);
      }
    }
    PartsInOrder(s, gap, parts);
  }

  lemma UntimedInOrder(dev: string, s: seq<RunFile>)
    requires SortedBy(s, RunLe()) && DistinctIds(s) && forall f | f in s :: f.at.None?
    ensures InOrder(NullDefs(dev, s), ByTime()) && OnOneDevice(NullDefs(dev, s), dev)
  {
    forall i, j | 0 <= i < j < |s|
      ensures s[i].id < s[j].id
    {
      assert s[i] in s && s[j] in s && RunLe()(s[i], s[j]);
    }
  }

  lemma TimelineMember(dev: string, s: seq<RunFile>, embeds: map<int, Embedding>, gap: int, threshold: real,
      d: ClusterDef)
    requires d in TimelineDefs(dev, s, embeds, gap, threshold)
    ensures d.device == dev && d.members != []
    ensures d in Flatten(BucketDefs(dev, GapBuckets(TimedOf(s), gap), embeds, threshold)) ==> d.bucket.Some?
  {
    var r := GapBuckets(TimedOf(s), gap);
    var parts := BucketDefs(dev, r, embeds, threshold);
    if d in Flatten(parts) {
      FlattenMember(parts, d);
      var b :| 0 <= b < |parts| && d in parts[b];
      EmitMember(dev, r[b][0].at, IdSet(ToSet(r[b])), embeds, threshold, d);
      BucketMembers(TimedOf(s), gap, b);
    }
  }

  lemma TimelineInOrder(dev: string, s: seq<RunFile>, embeds: map<int, Embedding>, gap: int, threshold: real)
    requires DistinctIds(s) && SortedBy(s, RunLe())
    ensures InOrder(TimelineDefs(dev, s, embeds, gap, threshold), ByTime())
    ensures OnOneDevice(TimelineDefs(dev, s, embeds, gap, threshold), dev)
  {
    var a, b := Flatten(BucketDefs(dev, GapBuckets(TimedOf(s), gap), embeds, threshold)), NullDefs(dev, UntimedOf(s));
    FilterSorted(s, IsTimed());
    FilterDistinct(s, IsTimed());
    FilterSorted(s, IsUntimed());
    FilterDistinct(s, IsUntimed());
    TimedInOrder(dev, TimedOf(s), embeds, gap, threshold);
    UntimedInOrder(dev, UntimedOf(s));
    forall d: ClusterDef | d in a + b
      ensures d.device == dev && d.members != [] && (d in a ==> d.bucket.Some?)
    {
      TimelineMember(dev, s, embeds, gap, threshold, d);
    }
    forall d, e | d in a && e in b
      ensures ByTime()(d, e)
    {
      assert d in a + b && e in a + b;
    }
    InOrderConcat(a, b, ByTime());
  }

  // ------------------------------------------------- order of the devices

  lemma {:induction false} FirstFile(files: seq<File>, dev: string, n: nat) returns (k: nat)
    requires n < |files| && Device(files[n]) == dev
    ensures FirstOn(files, dev, k)
    decreases n
  {
    if i :| 0 <= i < n && Device(files[i]) == dev {
      k := FirstFile(files, dev, i);
    } else {
      k := n;
    }
  }

  lemma ListedSeenBefore(files: seq<File>, i: nat, j: nat)
    requires i < j < |Devices(files)|
    ensures SeenBefore(files, Devices(files)[i], Devices(files)[j])
  {
    DevicesFacts(files);
    var a, b := Devices(files)[i], Devices(files)[j];
    assert a in Devices(files) && b in Devices(files);
    var m :| 0 <= m < |files| && Device(files[m]) == a;
    var n :| 0 <= n < |files| && Device(files[n]) == b;
    var k := FirstFile(files, a, m);
    var l := FirstFile(files, b, n);
    DevicesFirstSeen(files, i, j, k, l);
  }

  // ----------------------------------------------------- the two rebuilds

  /** Devices come in the order of their first files; on one device the definitions come by time, untimed
      ones last, and those of one start by first member. */
  lemma PerDeviceOrder(files: seq<File>, embeds: map<int, Embedding>, gap: int, threshold: real)
    requires DistinctFiles(files)
    ensures InOrder(PerDeviceDefs(files, embeds, gap, threshold), ByDevice(files))
  {
    var devs := Devices(files);
    var parts := PerDeviceParts(files, devs, embeds, gap, threshold);
    forall i | 0 <= i < |parts|
      ensures InOrder(parts[i], ByTime()) && OnOneDevice(parts[i], devs[i])
    {
      RunsDistinct(files, OnDevice(devs[i]));
      SortedRunFacts(DeviceRuns(files, devs[i]));
      TimelineInOrder(devs[i], Sort(DeviceRuns(files, devs[i]), RunLe()), embeds, gap, threshold);
    }
    DevicesInOrder(files, parts);
  }

  lemma TaggedInOrder(start: Option<int>, bucket: set<RunFile>, embeds: map<int, Embedding>, threshold: real)
    ensures InOrder(EmitTagged(start, bucket, embeds, threshold), ByTime())
    ensures forall d | d in EmitTagged(start, bucket, embeds, threshold) ::
              d.bucket == start && d.members != [] && d.members[0] in IdSet(bucket)
  {
    GroupsCanonical(IdSet(bucket), embeds, threshold);
    var g := Groups(IdSet(bucket), embeds, threshold);
    forall k | 0 <= k < |g|
      ensures g[k] != [] && g[k][0] in IdSet(bucket)
    {
      assert g[k][0] in g[k];
    }
  }

  lemma MergedInOrder(files: seq<File>, embeds: map<int, Embedding>, gap: int, threshold: real)
    requires DistinctFiles(files)
    ensures InOrder(MergedDefs(Runs(files), embeds, SkewOf(files, embeds), gap, threshold), ByTime())
  {
    var skew := SkewOf(files, embeds);
    var c := Canonical(Runs(files), embeds, skew);
    CanonicalDistinct(files, embeds, skew);
    SortedRunFacts(c);
    FilterSorted(Sort(c, RunLe()), IsTimed());
    FilterDistinct(Sort(c, RunLe()), IsTimed());
    var s := TimedOf(Sort(c, RunLe()));
    var r := GapBuckets(s, gap);
    var parts := MergedParts(r, embeds, threshold);
    forall b | 0 <= b < |parts|
      ensures InOrder(parts[b], ByTime())
      ensures forall d: ClusterDef | d in parts[b] ::
                d.bucket == r[b][0].at && d.members != [] && d.members[0] in IdSet(ToSet(r[b]))
    {
      TaggedInOrder(r[b][0].at, ToSet(r[b]), embeds, threshold);
    }
    PartsInOrder(s, gap, parts);
  }

  lemma LooseInOrder(files: seq<File>, embeds: map<int, Embedding>, dev: string, gap: int)
    requires DistinctFiles(files)
    ensures InOrder(LooseDefs(Runs(files), embeds, dev, gap), ByTime())
    ensures OnOneDevice(LooseDefs(Runs(files), embeds, dev, gap), dev)
  {
    var runs := Filter(Runs(files), LooseOn(embeds, dev));
    RunsDistinct(files, LooseOn(embeds, dev));
    SortedRunFacts(runs);
    FilterSorted(Sort(runs, RunLe()), IsTimed());
    FilterDistinct(Sort(runs, RunLe()), IsTimed());
    var s := LooseTimeline(Runs(files), embeds, dev);
    var r := GapBuckets(s, gap);
    var parts := LooseParts(dev, r);
    forall b | 0 <= b < |parts|
      ensures r[b][0].id in IdSet(ToSet(r[b]))
    {
      assert r[b][0] in ToSet(r[b]);
    }
    PartsInOrder(s, gap, parts);
    forall d: ClusterDef | d in Flatten(parts)
      ensures d.device == dev
    {
      FlattenMember(parts, d);
    }
  }

  lemma NullsInOrder(files: seq<File>, dev: string)
    requires DistinctFiles(files)
    ensures InOrder(NullDefs(dev, NullTimeline(Runs(files), dev)), ByTime())
    ensures OnOneDevice(NullDefs(dev, NullTimeline(Runs(files), dev)), dev)
  {
    RunsDistinct(files, NullOn(dev));
    SortedRunFacts(Filter(Runs(files), NullOn(dev)));
    NullTimelineFacts(files, dev);
    forall f | f in NullTimeline(Runs(files), dev)
      ensures f.at.None?
    {
      assert f in ToSet(NullTimeline(Runs(files), dev));
    }
    UntimedInOrder(dev, NullTimeline(Runs(files), dev));
  }

  /** The files of d all have an embedding, or none has. */
  ghost predicate OfKind(files: seq<File>, embeds: map<int, Embedding>, d: ClusterDef, embedded: bool) {
    forall f | f in Everything(files) && f.id in d.members :: f.id in embeds <==> embedded
  }

  /** A cross-device rebuild hands over the clusters of embedded files by corrected time, whatever their
      devices, then those of files without embedding and then the untimed ones, both by device. */
  lemma CrossDeviceOrder(files: seq<File>, embeds: map<int, Embedding>, gap: int, threshold: real)
    returns (merged: seq<ClusterDef>, loose: seq<ClusterDef>, untimed: seq<ClusterDef>)
    requires DistinctFiles(files)
    ensures CrossDefs(files, embeds, gap, threshold) == merged + loose + untimed
    ensures InOrder(merged, ByTime()) && InOrder(loose, ByDevice(files)) && InOrder(untimed, ByDevice(files))
    ensures forall d | d in merged :: d.bucket.Some? && OfKind(files, embeds, d, true)
    ensures forall d | d in loose :: d.bucket.Some? && OfKind(files, embeds, d, false)
    ensures forall d | d in untimed :: d.bucket.None?
  {
    var runs, devs := Runs(files), Devices(files);
    merged := MergedDefs(runs, embeds, SkewOf(files, embeds), gap, threshold);
    loose := Flatten(LoosePass(runs, embeds, devs, gap));
    untimed := Flatten(NullPass(runs, devs));
    MergedInOrder(files, embeds, gap, threshold);
    forall i | 0 <= i < |devs|
      ensures InOrder(LooseDefs(runs, embeds, devs[i], gap), ByTime())
      ensures OnOneDevice(LooseDefs(runs, embeds, devs[i], gap), devs[i])
      ensures InOrder(NullDefs(devs[i], NullTimeline(runs, devs[i])), ByTime())
      ensures OnOneDevice(NullDefs(devs[i], NullTimeline(runs, devs[i])), devs[i])
    {
      LooseInOrder(files, embeds, devs[i], gap);
      NullsInOrder(files, devs[i]);
    }
    DevicesInOrder(files, LoosePass(runs, embeds, devs, gap));
    DevicesInOrder(files, NullPass(runs, devs));
    TimedPasses(files, embeds, gap, threshold);
    PassKinds(files, embeds, gap, threshold);
  }

  lemma PassKinds(files: seq<File>, embeds: map<int, Embedding>, gap: int, threshold: real)
    requires DistinctFiles(files)
    ensures forall d | d in MergedDefs(Runs(files), embeds, SkewOf(files, embeds), gap, threshold) ::
              OfKind(files, embeds, d, true)
    ensures forall d | d in Flatten(LoosePass(Runs(files), embeds, Devices(files), gap)) ::
              OfKind(files, embeds, d, false)
    ensures forall d | d in Flatten(NullPass(Runs(files), Devices(files))) :: d.bucket.None?
  {
    forall d | d in MergedDefs(Runs(files), embeds, SkewOf(files, embeds), gap, threshold)
      ensures OfKind(files, embeds, d, true)
    {
      MergedTag(files, embeds, gap, threshold, d);
    }
    forall d | d in Flatten(LoosePass(Runs(files), embeds, Devices(files), gap))
      ensures OfKind(files, embeds, d, false)
    {
      LooseUnembedded(files, embeds, gap, d);
    }
    forall d | d in Flatten(NullPass(Runs(files), Devices(files)))
      ensures d.bucket.None?
    {
      NullKeyed(files, d);
    }
  }

  lemma LooseUnembedded(files: seq<File>, embeds: map<int, Embedding>, gap: int, d: ClusterDef)
    requires DistinctFiles(files) && d in Flatten(LoosePass(Runs(files), embeds, Devices(files), gap))
    ensures OfKind(files, embeds, d, false)
  {
    var dev, b := LooseOrigin(files, embeds, gap, d);
    var s := LooseTimeline(Runs(files), embeds, dev);
    LooseTimelineFacts(files, embeds, dev);
    BucketMembers(s, gap, b);
    var bucket := GapBuckets(s, gap)[b];
    forall f | f in Everything(files) && f.id in d.members
      ensures f.id !in embeds
    {
      var i :| 0 <= i < |bucket| && bucket[i].id == f.id;
      assert bucket[i] in bucket;
      assert bucket[i] in ToSet(s);
    }
  }
}
