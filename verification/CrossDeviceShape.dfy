/** Tags, order and the single-device case of the cross-device rebuild. */
module CrossDeviceShape {
  import opened Seqs
  import opened Visual
  import opened Timeline
  import opened Defs
  import opened PerDevice
  import opened PerDeviceTheorems
  import opened PerDeviceShape
  import opened SkewEstimate
  import opened CrossDevice
  import opened CrossDeviceTheorems

  // ----------------------------------------------------------------- tags

  lemma TagFacts(devices: set<string>)
    requires devices != {}
    ensures (exists d, e :: d in devices && e in devices && d != e) ==> Tag(devices) == MERGED_DEVICE_KEY
    ensures !(exists d, e :: d in devices && e in devices && d != e) ==> Tag(devices) in devices
  {
    var some := SomeElement(devices);
    if d, e :| d in devices && e in devices && d != e {
      assert |devices - {d} - {e}| == |devices| - 2;
    } else {
      assert devices == {some};
    }
  }

  /** d comes from the merged timeline: its members, with embeddings and times, share one bucket. */
  ghost predicate FromMerged(files: seq<File>, embeds: map<int, Embedding>, gap: int, d: ClusterDef) {
    && (forall f | f in Everything(files) && f.id in d.members :: Anchored(embeds)(f))
    && (forall f, g | f in Everything(files) && g in Everything(files) && f.id in d.members && g.id in d.members ::
          Align(g, SkewOf(files, embeds)) in MergedBucket(Everything(files), embeds, SkewOf(files, embeds), gap, f))
  }

  ghost predicate SpansDevices(all: set<RunFile>, d: ClusterDef) {
    exists f, g :: f in all && g in all && f.id in d.members && g.id in d.members && f.device != g.device
  }

  ghost predicate FromDevice(all: set<RunFile>, d: ClusterDef, dev: string) {
    forall f | f in all && f.id in d.members :: f.device == dev
  }

  /** The proximity buckets of the timeline corrected by the estimated skew. */
  ghost function SkewedBuckets(files: seq<File>, embeds: map<int, Embedding>, gap: int): (r: seq<seq<RunFile>>)
    ensures forall b | 0 <= b < |r| :: |r[b]| > 0
  {
    MergedBuckets(files, embeds, SkewOf(files, embeds), gap)
  }

  lemma MergedDefOrigin(files: seq<File>, embeds: map<int, Embedding>, gap: int, threshold: real, d: ClusterDef)
    returns (b: nat, k: nat)
    requires d in MergedDefs(Runs(files), embeds, SkewOf(files, embeds), gap, threshold)
    ensures var r := SkewedBuckets(files, embeds, gap);
            b < |r| && k < |MergedParts(r, embeds, threshold)[b]| && d == MergedParts(r, embeds, threshold)[b][k]
  {
    var r := SkewedBuckets(files, embeds, gap);
    b, k := FlattenPosition(MergedParts(r, embeds, threshold), d);
  }

  lemma MergedMember(files: seq<File>, embeds: map<int, Embedding>, gap: int, threshold: real, b: nat, k: nat,
      f: RunFile)
    requires DistinctFiles(files)
    requires b < |SkewedBuckets(files, embeds, gap)|
    requires k < |MergedParts(SkewedBuckets(files, embeds, gap), embeds, threshold)[b]|
    requires f in Everything(files)
    requires f.id in MergedParts(SkewedBuckets(files, embeds, gap), embeds, threshold)[b][k].members
    ensures Anchored(embeds)(f)
    ensures Align(f, SkewOf(files, embeds)) in SkewedBuckets(files, embeds, gap)[b]
  {
    var skew := SkewOf(files, embeds);
    var bucket := MergedBuckets(files, embeds, skew, gap)[b];
    GroupsCanonical(IdSet(ToSet(bucket)), embeds, threshold);
    assert f.id in Groups(IdSet(ToSet(bucket)), embeds, threshold)[k];
    var g := MergedOrigin(files, embeds, skew, gap, b, f.id);
    EverythingDistinct(files);
    assert g == f;
  }

  /** A definition of the merged timeline carries the merged key iff its members come from two devices
      or more, unless a camera is itself called by that key; otherwise it carries its only device. */
  lemma MergedTag(files: seq<File>, embeds: map<int, Embedding>, gap: int, threshold: real, d: ClusterDef)
    requires DistinctFiles(files)
    requires d in MergedDefs(Runs(files), embeds, SkewOf(files, embeds), gap, threshold)
    ensures FromMerged(files, embeds, gap, d)
    ensures if SpansDevices(Everything(files), d) then d.device
            == MERGED_DEVICE_KEY else FromDevice(Everything(files), d, d.device)
  {
    var all, skew := Everything(files), SkewOf(files, embeds);
    var r := MergedBuckets(files, embeds, skew, gap);
    var b, k := MergedDefOrigin(files, embeds, gap, threshold, d);
    forall f | f in all && f.id in d.members
      ensures Anchored(embeds)(f) && Align(f, skew) in r[b]
    {
      MergedMember(files, embeds, gap, threshold, b, k, f);
    }
    forall f, g | f in all && g in all && f.id in d.members && g.id in d.members
      ensures Align(g, skew) in MergedBucket(all, embeds, skew, gap, f)
    {
      MergedBucketIs(files, embeds, skew, gap, b, f);
      assert Align(g, skew) in ToSet(r[b]);
    }
    MergedTagOf(files, embeds, gap, threshold, b, k);
  }

  lemma BucketDevice(files: seq<File>, embeds: map<int, Embedding>, skew: map<string, int>, gap: int, b: nat,
      h: RunFile)
    returns (f: RunFile)
    requires DistinctFiles(files)
    requires b < |MergedBuckets(files, embeds, skew, gap)|
    requires h in MergedBuckets(files, embeds, skew, gap)[b]
    ensures f in Everything(files) && f.id == h.id && f.device == h.device
  {
    var s := MergedTimeline(files, embeds, skew);
    MergedTimelineFacts(files, embeds, skew);
    BucketMembers(s, gap, b);
    assert h in ToSet(s);
    f := Unaligned(Everything(files), embeds, skew, h);
  }

  /** The devices of a merged group are the devices of its files. */
  lemma MergedDevices(files: seq<File>, embeds: map<int, Embedding>, gap: int, threshold: real, b: nat, k: nat)
    requires DistinctFiles(files)
    requires b < |SkewedBuckets(files, embeds, gap)|
    requires k < |MergedParts(SkewedBuckets(files, embeds, gap), embeds, threshold)[b]|
    ensures var bucket := ToSet(SkewedBuckets(files, embeds, gap)[b]);
            var g := Groups(IdSet(bucket), embeds, threshold)[k];
            forall dev :: dev in DevicesIn(bucket, ToSet(g)) <==>
                exists f :: f in Everything(files) && f.id in g && f.device == dev
  {
    var skew := SkewOf(files, embeds);
    var bucket := ToSet(MergedBuckets(files, embeds, skew, gap)[b]);
    var g := Groups(IdSet(bucket), embeds, threshold)[k];
    forall dev
      ensures dev in DevicesIn(bucket, ToSet(g)) <==> exists f :: f in Everything(files) && f.id in g && f.device == dev
    {
      if dev in DevicesIn(bucket, ToSet(g)) {
        var h :| h in bucket && h.id in ToSet(g) && h.device == dev;
        var f := BucketDevice(files, embeds, skew, gap, b, h);
      }
      if f :| f in Everything(files) && f.id in g && f.device == dev {
        MergedMember(files, embeds, gap, threshold, b, k, f);
        assert Align(f, skew) in bucket;
      }
    }
  }

  lemma GroupInside(ids: set<int>, embeds: map<int, Embedding>, threshold: real, k: nat)
    requires k < |Groups(ids, embeds, threshold)|
    ensures |Groups(ids, embeds, threshold)[k]| > 0 && Groups(ids, embeds, threshold)[k][0] in ids
  {
    GroupsCanonical(ids, embeds, threshold);
    assert Groups(ids, embeds, threshold)[k][0] in Groups(ids, embeds, threshold)[k];
  }

  lemma TagByDevices(all: set<RunFile>, devices: set<string>, d: ClusterDef, f: RunFile)
    requires forall dev :: dev in devices <==> exists f :: f in all && f.id in d.members && f.device == dev
    requires f in all && f.id in d.members && d.device == Tag(devices)
    ensures if SpansDevices(all, d) then d.device == MERGED_DEVICE_KEY else FromDevice(all, d, d.device)
  {
    assert f.device in devices;
    TagFacts(devices);
    if SpansDevices(all, d) {
      var g, h :| g in all && h in all && g.id in d.members && h.id in d.members && g.device != h.device;
      assert g.device in devices && h.device in devices;
    } else {
      assert d.device in devices;
    }
  }

  lemma MergedTagOf(files: seq<File>, embeds: map<int, Embedding>, gap: int, threshold: real, b: nat, k: nat)
    requires DistinctFiles(files)
    requires b < |SkewedBuckets(files, embeds, gap)|
    requires k < |MergedParts(SkewedBuckets(files, embeds, gap), embeds, threshold)[b]|
    ensures var d := MergedParts(SkewedBuckets(files, embeds, gap), embeds, threshold)[b][k];
            if SpansDevices(Everything(files), d) then d.device == MERGED_DEVICE_KEY
                else FromDevice(Everything(files), d, d.device)
  {
    var bucket := ToSet(SkewedBuckets(files, embeds, gap)[b]);
    var g := Groups(IdSet(bucket), embeds, threshold)[k];
    MergedDevices(files, embeds, gap, threshold, b, k);
    GroupInside(IdSet(bucket), embeds, threshold, k);
    var f := MergedOrigin(files, embeds, SkewOf(files, embeds), gap, b, g[0]);
    TagByDevices(Everything(files), DevicesIn(bucket, ToSet(g)),
                 MergedParts(SkewedBuckets(files, embeds, gap), embeds, threshold)[b][k],
                 f);
  }

  // ------------------------------------------------------------- whole table

  lemma LooseOrigin(files: seq<File>, embeds: map<int, Embedding>, gap: int, d: ClusterDef)
    returns (dev: string, b: nat)
    requires d in Flatten(LoosePass(Runs(files), embeds, Devices(files), gap))
    ensures b < |GapBuckets(LooseTimeline(Runs(files), embeds, dev), gap)|
    ensures d
            == ClusterDef(dev, GapBuckets(LooseTimeline(Runs(files), embeds, dev), gap)[b][0].at,
                IdsOf(GapBuckets(LooseTimeline(Runs(files), embeds, dev), gap)[b]))
  {
    var i, k := FlattenPosition(LoosePass(Runs(files), embeds, Devices(files), gap), d);
    dev := Devices(files)[i];
    assert d in LooseDefs(Runs(files), embeds, dev, gap);
    var b', k' := FlattenPosition(LooseParts(dev, GapBuckets(LooseTimeline(Runs(files), embeds, dev), gap)), d);
    b := b';
  }

  lemma LooseKeyed(files: seq<File>, embeds: map<int, Embedding>, gap: int, d: ClusterDef)
    requires DistinctFiles(files)
    requires d in Flatten(LoosePass(Runs(files), embeds, Devices(files), gap))
    ensures FromDevice(Everything(files), d, d.device) && d.bucket.Some?
  {
    var dev, b := LooseOrigin(files, embeds, gap, d);
    var s := LooseTimeline(Runs(files), embeds, dev);
    var bucket := GapBuckets(s, gap)[b];
    EverythingDistinct(files);
    LooseTimelineFacts(files, embeds, dev);
    BucketMembers(s, gap, b);
    forall f | f in Everything(files) && f.id in d.members
      ensures f.device == dev
    {
      var i :| 0 <= i < |bucket| && bucket[i].id == f.id;
      assert bucket[i] in bucket;
      assert bucket[i] in ToSet(s);
      assert bucket[i] == f;
    }
  }

  lemma NullKeyed(files: seq<File>, d: ClusterDef)
    requires DistinctFiles(files)
    requires d in Flatten(NullPass(Runs(files), Devices(files)))
    ensures FromDevice(Everything(files), d, d.device) && d.bucket.None?
  {
    var i, k := FlattenPosition(NullPass(Runs(files), Devices(files)), d);
    var dev := Devices(files)[i];
    var t := NullTimeline(Runs(files), dev);
    EverythingDistinct(files);
    NullTimelineFacts(files, dev);
    assert t[k] in ToSet(t);
  }

  /** Without a camera called by the merged key, a definition carries it iff its members come from at
      least two devices, and then they have embeddings and times and share one bucket of the corrected
      timeline. Every other definition carries the one device its members come from. */
  lemma MergedKeyIff(files: seq<File>, embeds: map<int, Embedding>, gap: int, threshold: real, d: ClusterDef)
    requires DistinctFiles(files)
    requires MERGED_DEVICE_KEY !in Devices(files)
    requires d in CrossDefs(files, embeds, gap, threshold)
    ensures d.device == MERGED_DEVICE_KEY <==> SpansDevices(Everything(files), d)
    ensures d.device == MERGED_DEVICE_KEY ==> FromMerged(files, embeds, gap, d)
    ensures d.device != MERGED_DEVICE_KEY ==> FromDevice(Everything(files), d, d.device)
  {
    var all := Everything(files);
    if d in MergedDefs(Runs(files), embeds, SkewOf(files, embeds), gap, threshold) {
      MergedTag(files, embeds, gap, threshold, d);
    } else if d in Flatten(LoosePass(Runs(files), embeds, Devices(files), gap)) {
      LooseKeyed(files, embeds, gap, d);
    } else {
      NullKeyed(files, d);
    }
    if d.device == MERGED_DEVICE_KEY && !SpansDevices(all, d) {
      var f := SomeMember(files, embeds, gap, threshold, d);
      var i := DeviceListed(files, f);
    }
  }

  lemma SomeMember(files: seq<File>, embeds: map<int, Embedding>, gap: int, threshold: real, d: ClusterDef)
    returns (f: RunFile)
    requires DistinctFiles(files)
    requires d in CrossDefs(files, embeds, gap, threshold)
    ensures f in Everything(files) && f.id in d.members
  {
    CrossDevicePartition(files, embeds, gap, threshold);
    PartitionMember(CrossDefs(files, embeds, gap, threshold), IdSet(Everything(files)),
                    SameCross(Everything(files), embeds, SkewOf(files, embeds), gap, threshold), d);
    f :| f in Everything(files) && f.id == d.members[0];
  }

  ghost predicate AllBuckets(defs: seq<ClusterDef>) {
    forall d | d in defs :: d.bucket.Some?
  }

  lemma TimedPasses(files: seq<File>, embeds: map<int, Embedding>, gap: int, threshold: real)
    requires DistinctFiles(files)
    ensures AllBuckets(MergedDefs(Runs(files), embeds, SkewOf(files, embeds), gap, threshold))
    ensures AllBuckets(Flatten(LoosePass(Runs(files), embeds, Devices(files), gap)))
  {
    forall d | d in MergedDefs(Runs(files), embeds, SkewOf(files, embeds), gap, threshold)
      ensures d.bucket.Some?
    {
      var k, j := MergedDefOrigin(files, embeds, gap, threshold, d);
      BucketMembers(MergedTimeline(files, embeds, SkewOf(files, embeds)), gap, k);
    }
    forall d | d in Flatten(LoosePass(Runs(files), embeds, Devices(files), gap))
      ensures d.bucket.Some?
    {
      LooseKeyed(files, embeds, gap, d);
    }
  }

  lemma NullsAfter(a: seq<ClusterDef>, b: seq<ClusterDef>, c: seq<ClusterDef>)
    requires AllBuckets(a) && AllBuckets(b)
    requires forall d | d in c :: d.bucket.None?
    ensures NullsLast(a + b + c)
  {
    var ab := a + b;
    forall i | 0 <= i < |ab|
      ensures ab[i].bucket.Some?
    {
      assert ab[i] in a || ab[i] in b;
    }
    assert forall i | 0 <= i < |c| :: c[i] in c;
    NullsLastConcat(ab, c);
  }

  lemma CrossDeviceNullsLast(files: seq<File>, embeds: map<int, Embedding>, gap: int, threshold: real)
    requires DistinctFiles(files)
    ensures NullsLast(CrossDefs(files, embeds, gap, threshold))
  {
    TimedPasses(files, embeds, gap, threshold);
    forall d | d in Flatten(NullPass(Runs(files), Devices(files)))
      ensures d.bucket.None?
    {
      NullKeyed(files, d);
    }
    NullsAfter(MergedDefs(Runs(files), embeds, SkewOf(files, embeds), gap, threshold),
               Flatten(LoosePass(Runs(files), embeds, Devices(files), gap)),
               Flatten(NullPass(Runs(files), Devices(files))));
  }

  // -------------------------------------------------------- a single device

  ghost predicate OneDevice(files: seq<File>, dev: string) {
    files != [] && forall i | 0 <= i < |files| :: Device(files[i]) == dev
  }

  ghost predicate AllEmbedded(files: seq<File>, embeds: map<int, Embedding>) {
    forall i | 0 <= i < |files| && files[i].capturedAt.Some? :: files[i].id in embeds
  }

  /** With one device there is nothing to align. */
  lemma NoSkew(files: seq<File>, embeds: map<int, Embedding>, dev: string)
    requires OneDevice(files, dev)
    ensures SkewOf(files, embeds) == map[]
  {
    var devs := SkewDevices(files, embeds);
    forall d | d in devs
      ensures d == dev
    {
      var f :| f in files && Usable(f, embeds) && f.deviceKey.value == d;
      var i :| 0 <= i < |files| && files[i] == f;
      assert Device(files[i]) == dev;
    }
    if dev in devs {
      assert devs == {dev};
    } else {
      assert devs == {};
    }
  }

  lemma SingleDeviceList(files: seq<File>, dev: string)
    requires OneDevice(files, dev)
    ensures Devices(files) == [dev]
  {
    var n := |files| - 1;
    if n == 0 {
      assert files[..0] == [];
    } else {
      SingleDeviceList(files[..n], dev);
    }
  }

  /** Filtering and sorting commute when ids are distinct. */
  lemma FilterSortCommute(s: seq<RunFile>, p: RunFile -> bool)
    requires DistinctIds(s)
    ensures Filter(Sort(s, RunLe()), p) == Sort(Filter(s, p), RunLe())
  {
    SortSorts(s, RunLe());
    SortedRunFacts(s);
    FilterSorted(Sort(s, RunLe()), p);
    FilterDistinct(s, p);
    FilterDistinct(Sort(s, RunLe()), p);
    SortSorts(Filter(s, p), RunLe());
    FilterMultiset(s, p);
    FilterMultiset(Sort(s, RunLe()), p);
    assert multiset(Filter(Sort(s, RunLe()), p)) == multiset(Filter(s, p));
    RunLeAntisymmetric(Filter(Sort(s, RunLe()), p));
    SortedUnique(Filter(Sort(s, RunLe()), p), Sort(Filter(s, p), RunLe()), RunLe());
  }

  lemma {:induction false} FilterSame(s: seq<RunFile>, p: RunFile -> bool, q: RunFile -> bool)
    requires forall x | x in s :: p(x) <==> q(x)
    ensures Filter(s, p) == Filter(s, q)
  {
    if s != [] {
      FilterSame(s[1..], p, q);
    }
  }

  lemma TagSingle(bucket: set<RunFile>, embeds: map<int, Embedding>, threshold: real, start: Option<int>, dev: string)
    requires forall f | f in bucket :: f.device == dev
    ensures EmitTagged(start, bucket, embeds, threshold) == Emit(dev, start, IdSet(bucket), embeds, threshold)
  {
    var ids := IdSet(bucket);
    var g := Groups(ids, embeds, threshold);
    GroupsCanonical(ids, embeds, threshold);
    forall i | 0 <= i < |g|
      ensures Tag(DevicesIn(bucket, ToSet(g[i]))) == dev
    {
      assert g[i][0] in g[i] && g[i][0] in ids;
      var f :| f in bucket && f.id == g[i][0];
      assert DevicesIn(bucket, ToSet(g[i])) == {dev};
    }
  }

  lemma MergedIsTimed(files: seq<File>, embeds: map<int, Embedding>, gap: int, threshold: real, dev: string)
    requires DistinctFiles(files) && OneDevice(files, dev) && AllEmbedded(files, embeds)
    ensures MergedDefs(Runs(files), embeds, map[], gap, threshold)
            == Flatten(BucketDefs(dev, GapBuckets(TimedOf(Sort(Runs(files), RunLe())), gap), embeds, threshold))
  {
    var runs := Runs(files);
    RunsDistinct(files, Anchored(embeds));
    forall x | x in runs
      ensures Anchored(embeds)(x) <==> IsTimed()(x)
    {
      var i :| 0 <= i < |runs| && runs[i] == x;
      assert files[i].capturedAt.Some? ==> files[i].id in embeds;
    }
    FilterSame(runs, Anchored(embeds), IsTimed());
    assert Canonical(runs, embeds, map[]) == TimedOf(runs);
    FilterSortCommute(runs, IsTimed());
    var s := TimedOf(Sort(runs, RunLe()));
    assert s == Sort(TimedOf(runs), RunLe());
    assert forall i | 0 <= i < |s| :: s[i] in s && s[i].at.Some?;
    FilterAll(s, IsTimed());
    assert TimedOf(s) == s;
    MergedPartsSingle(files, s, embeds, gap, threshold, dev);
  }

  lemma MergedPartsSingle(files: seq<File>, s: seq<RunFile>, embeds: map<int, Embedding>, gap: int, threshold: real,
      dev: string)
    requires DistinctFiles(files) && OneDevice(files, dev) && s == TimedOf(Sort(Runs(files), RunLe()))
    ensures MergedParts(GapBuckets(s, gap), embeds, threshold) == BucketDefs(dev, GapBuckets(s, gap), embeds, threshold)
  {
    var r := GapBuckets(s, gap);
    RunsDistinct(files, IsTimed());
    SortedRunFacts(Runs(files));
    forall b | 0 <= b < |r|
      ensures MergedParts(r, embeds, threshold)[b] == BucketDefs(dev, r, embeds, threshold)[b]
    {
      BucketMembers(s, gap, b);
      forall f: RunFile | f in ToSet(r[b])
        ensures f.device == dev
      {
        assert f in ToSet(Sort(Runs(files), RunLe()));
        var i :| 0 <= i < |files| && Runs(files)[i] == f;
        assert Device(files[i]) == dev;
      }
      TagSingle(ToSet(r[b]), embeds, threshold, r[b][0].at, dev);
    }
  }

  lemma LooseEmpty(files: seq<File>, embeds: map<int, Embedding>, gap: int, dev: string)
    requires AllEmbedded(files, embeds)
    ensures LooseDefs(Runs(files), embeds, dev, gap) == []
  {
    forall x | x in Runs(files)
      ensures !LooseOn(embeds, dev)(x)
    {
      var i :| 0 <= i < |files| && Runs(files)[i] == x;
    }
    FilterNone(Runs(files), LooseOn(embeds, dev));
  }

  lemma NullsSingle(files: seq<File>, dev: string)
    requires DistinctFiles(files) && OneDevice(files, dev)
    ensures DeviceRuns(files, dev) == Runs(files)
    ensures NullTimeline(Runs(files), dev) == UntimedOf(Sort(Runs(files), RunLe()))
  {
    var runs := Runs(files);
    forall x | x in runs
      ensures x.device == dev
    {
      var i :| 0 <= i < |files| && runs[i] == x;
      assert Device(files[i]) == dev;
    }
    FilterAll(runs, OnDevice(dev));
    FilterSame(runs, NullOn(dev), IsUntimed());
    RunsDistinct(files, IsUntimed());
    FilterSortCommute(runs, IsUntimed());
  }

  lemma SingleCross(files: seq<File>, embeds: map<int, Embedding>, gap: int, threshold: real, dev: string)
    requires DistinctFiles(files) && OneDevice(files, dev) && AllEmbedded(files, embeds)
    ensures CrossDefs(files, embeds, gap, threshold)
            == MergedDefs(Runs(files), embeds, map[], gap, threshold) + NullDefs(dev, NullTimeline(Runs(files), dev))
  {
    NoSkew(files, embeds, dev);
    SingleDeviceList(files, dev);
    LooseEmpty(files, embeds, gap, dev);
    OnePart(LoosePass(Runs(files), embeds, [dev], gap));
    OnePart(NullPass(Runs(files), [dev]));
  }

  lemma SinglePerDevice(files: seq<File>, embeds: map<int, Embedding>, gap: int, threshold: real, dev: string)
    requires DistinctFiles(files) && OneDevice(files, dev)
    ensures PerDeviceDefs(files, embeds, gap, threshold)
            == TimelineDefs(dev, Sort(Runs(files), RunLe()), embeds, gap, threshold)
  {
    SingleDeviceList(files, dev);
    NullsSingle(files, dev);
    OnePart(PerDeviceParts(files, [dev], embeds, gap, threshold));
  }

  /** Cross-device mode conservatively extends per-device mode: for one device whose timed files all
      have embeddings both hand the store the identical sequence of definitions. */
  lemma SingleDeviceAgrees(files: seq<File>, embeds: map<int, Embedding>, gap: int, threshold: real, dev: string)
    requires DistinctFiles(files) && OneDevice(files, dev) && AllEmbedded(files, embeds)
    ensures CrossDefs(files, embeds, gap, threshold) == PerDeviceDefs(files, embeds, gap, threshold)
  {
    SingleCross(files, embeds, gap, threshold, dev);
    SinglePerDevice(files, embeds, gap, threshold, dev);
    MergedIsTimed(files, embeds, gap, threshold, dev);
    NullsSingle(files, dev);
  }

  lemma OnePart<T>(parts: seq<seq<T>>)
    requires |parts| == 1
    ensures Flatten(parts) == parts[0]
  {
    assert parts[1..] == [];
  }
}
