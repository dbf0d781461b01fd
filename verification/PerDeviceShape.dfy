/** What the definitions of a per-device rebuild say beyond membership: labels, order, refinement, shift. */
module PerDeviceShape {
  import opened Seqs
  import opened Visual
  import opened BucketGroups
  import opened Timeline
  import opened Defs
  import opened PerDevice
  import opened PerDeviceTheorems

  // -------------------------------------------------------------- origins

  lemma FlattenPosition<T>(parts: seq<seq<T>>, d: T) returns (b: nat, k: nat)
    requires d in Flatten(parts)
    ensures b < |parts| && k < |parts[b]| && parts[b][k] == d
  {
    FlattenMember(parts, d);
    b :| 0 <= b < |parts| && d in parts[b];
    k :| 0 <= k < |parts[b]| && parts[b][k] == d;
  }

  /** A definition of one device timeline is a NULL singleton or comes from a bucket. */
  lemma TimelineOrigin(dev: string, s: seq<RunFile>, embeds: map<int, Embedding>, gap: int, threshold: real,
      d: ClusterDef)
    returns (b: nat, k: nat)
    requires d in TimelineDefs(dev, s, embeds, gap, threshold)
    requires d !in NullDefs(dev, UntimedOf(s))
    ensures b < |GapBuckets(TimedOf(s), gap)|
              && k < |BucketDefs(dev, GapBuckets(TimedOf(s), gap), embeds, threshold)[b]|
    ensures d == BucketDefs(dev, GapBuckets(TimedOf(s), gap), embeds, threshold)[b][k]
  {
    b, k := FlattenPosition(BucketDefs(dev, GapBuckets(TimedOf(s), gap), embeds, threshold), d);
  }

  lemma BucketDefIn(dev: string, s: seq<RunFile>, embeds: map<int, Embedding>, gap: int, threshold: real, b: nat,
      k: nat)
    requires b < |GapBuckets(TimedOf(s), gap)|
    requires k < |BucketDefs(dev, GapBuckets(TimedOf(s), gap), embeds, threshold)[b]|
    ensures BucketDefs(dev, GapBuckets(TimedOf(s), gap), embeds, threshold)[b][k] in TimelineDefs(dev, s, embeds, gap,
              threshold)
  {
    var parts := BucketDefs(dev, GapBuckets(TimedOf(s), gap), embeds, threshold);
    assert parts[b][k] in parts[b];
    FlattenMember(parts, parts[b][k]);
  }

  lemma DeviceOrigin(files: seq<File>, embeds: map<int, Embedding>, gap: int, threshold: real, d: ClusterDef)
    returns (dev: string)
    requires d in PerDeviceDefs(files, embeds, gap, threshold)
    ensures dev in Devices(files) && d in DeviceDefs(files, dev, embeds, gap, threshold)
  {
    var parts := PerDeviceParts(files, Devices(files), embeds, gap, threshold);
    FlattenMember(parts, d);
    var i :| 0 <= i < |parts| && d in parts[i];
    dev := Devices(files)[i];
  }

  lemma DeviceDefIn(files: seq<File>, embeds: map<int, Embedding>, gap: int, threshold: real, dev: string,
      d: ClusterDef)
    requires dev in Devices(files) && d in DeviceDefs(files, dev, embeds, gap, threshold)
    ensures d in PerDeviceDefs(files, embeds, gap, threshold)
  {
    var parts := PerDeviceParts(files, Devices(files), embeds, gap, threshold);
    var i :| 0 <= i < |parts| && Devices(files)[i] == dev;
    assert d in parts[i];
    FlattenMember(parts, d);
  }

  // --------------------------------------------------------------- labels

  ghost predicate IsMinimumTime(t: int, bucket: set<RunFile>) {
    && (exists g :: g in bucket && g.at == Some(t))
    && (forall g | g in bucket && g.at.Some? :: t <= g.at.value)
  }

  lemma GroupAscending(ids: set<int>, embeds: map<int, Embedding>, threshold: real, k: nat)
    requires k < |Groups(ids, embeds, threshold)|
    ensures Ascending(Groups(ids, embeds, threshold)[k])
  {
    GroupsCanonical(ids, embeds, threshold);
  }

  /** Members are listed in ascending order; the key is the members' device; the bucket is NULL exactly for
      untimed members and otherwise the smallest time of the proximity bucket its members lie in. */
  lemma PerDeviceLabels(files: seq<File>, embeds: map<int, Embedding>, gap: int, threshold: real, d: ClusterDef,
      f: RunFile)
    requires DistinctFiles(files)
    requires d in PerDeviceDefs(files, embeds, gap, threshold)
    requires f in Everything(files) && f.id in d.members
    ensures Ascending(d.members) && d.device == f.device
    ensures d.bucket.None? <==> f.at.None?
    ensures f.at.Some? ==> IsMinimumTime(d.bucket.value, BucketOf(Everything(files), gap, f))
  {
    var all := Everything(files);
    var dev := DeviceOrigin(files, embeds, gap, threshold, d);
    EverythingDistinct(files);
    TimelineFacts(files, dev);
    var t := Sort(DeviceRuns(files, dev), RunLe());
    if d in NullDefs(dev, UntimedOf(t)) {
      var i :| 0 <= i < |UntimedOf(t)| && d == NullDefs(dev, UntimedOf(t))[i];
      assert UntimedOf(t)[i] in UntimedOf(t);
      assert UntimedOf(t)[i] in all && UntimedOf(t)[i].id == f.id;
    } else {
      var s := TimedOf(t);
      var b, k := TimelineOrigin(dev, t, embeds, gap, threshold, d);
      GroupAscending(IdSet(ToSet(GapBuckets(s, gap)[b])), embeds, threshold, k);
      BucketLabel(files, dev, s, embeds, gap, threshold, b, k, f);
    }
  }

  lemma BucketLabel(files: seq<File>, dev: string, s: seq<RunFile>, embeds: map<int, Embedding>, gap: int,
      threshold: real, b: nat, k: nat, f: RunFile)
    requires DistinctSet(Everything(files))
    requires AllTimed(s) && InTimeOrder(s) && DistinctIds(s) && ToSet(s) == Peers(Everything(files), dev)
    requires b < |GapBuckets(s, gap)| && k < |BucketDefs(dev, GapBuckets(s, gap), embeds, threshold)[b]|
    requires f in Everything(files) && f.id in BucketDefs(dev, GapBuckets(s, gap), embeds, threshold)[b][k].members
    ensures f.device == dev && f.at.Some? && GapBuckets(s, gap)[b][0].at.Some?
    ensures IsMinimumTime(GapBuckets(s, gap)[b][0].at.value, BucketOf(Everything(files), gap, f))
  {
    var bucket := GapBuckets(s, gap)[b];
    var ids := IdSet(ToSet(bucket));
    GroupsCanonical(ids, embeds, threshold);
    assert f.id in Groups(ids, embeds, threshold)[k];
    assert f.id in ids;
    var h: RunFile :| h in bucket && h.id == f.id;
    BucketMembers(s, gap, b);
    assert h in ToSet(s);
    assert h == f;
    BucketIsComponent(s, gap, b, f);
    assert ToSet(bucket) == BucketOf(Everything(files), gap, f);
    BucketStartIsMinimum(s, gap, b);
    assert bucket[0] in ToSet(bucket);
  }

  // -------------------------------------------------- threshold refinement

  /** Raising the threshold only splits clusters: each one lies inside a cluster of the lower
      threshold with the same device and bucket. */
  lemma ThresholdRefines(files: seq<File>, embeds: map<int, Embedding>, gap: int, low: real, high: real, d: ClusterDef)
    requires low <= high && d in PerDeviceDefs(files, embeds, gap, high)
    ensures exists c :: c in PerDeviceDefs(files, embeds, gap, low)
                        && c.device == d.device && c.bucket == d.bucket && ToSet(d.members) <= ToSet(c.members)
  {
    var dev := DeviceOrigin(files, embeds, gap, high, d);
    var t := Sort(DeviceRuns(files, dev), RunLe());
    if d in NullDefs(dev, UntimedOf(t)) {
      assert d in TimelineDefs(dev, t, embeds, gap, low);
      DeviceDefIn(files, embeds, gap, low, dev, d);
    } else {
      var r := GapBuckets(TimedOf(t), gap);
      var b, k := TimelineOrigin(dev, t, embeds, gap, high, d);
      var ids := IdSet(ToSet(r[b]));
      GroupsRefine(ids, embeds, low, high, k);
      var j :| 0 <= j < |Groups(ids, embeds, low)|
          && ToSet(Groups(ids, embeds, high)[k]) <= ToSet(Groups(ids, embeds, low)[j]);
      BucketDefIn(dev, t, embeds, gap, low, b, j);
      var c := BucketDefs(dev, r, embeds, low)[b][j];
      DeviceDefIn(files, embeds, gap, low, dev, c);
    }
  }

  // ---------------------------------------------------------- NULLs are last

  /** On one device no timed definition follows a NULL one. */
  ghost predicate NullsLast(defs: seq<ClusterDef>) {
    forall i, j | 0 <= i < j < |defs| && defs[i].bucket.None? && defs[i].device == defs[j].device ::
        defs[j].bucket.None?
  }

  ghost predicate OnlyDevice(defs: seq<ClusterDef>, dev: string) {
    forall i | 0 <= i < |defs| :: defs[i].device == dev
  }

  lemma NullsLastConcat(a: seq<ClusterDef>, b: seq<ClusterDef>)
    requires NullsLast(a) && NullsLast(b)
    requires (forall i | 0 <= i < |a| :: a[i].bucket.Some?) || (forall i | 0 <= i < |b| :: b[i].bucket.None?)
             || forall i, j | 0 <= i < |a| && 0 <= j < |b| :: a[i].device != b[j].device
    ensures NullsLast(a + b)
  {
  }

  lemma TimelineNullsLast(dev: string, s: seq<RunFile>, embeds: map<int, Embedding>, gap: int, threshold: real)
    ensures NullsLast(TimelineDefs(dev, s, embeds, gap, threshold))
              && OnlyDevice(TimelineDefs(dev, s, embeds, gap, threshold), dev)
  {
    var a, b := Flatten(BucketDefs(dev, GapBuckets(TimedOf(s), gap), embeds, threshold)), NullDefs(dev, UntimedOf(s));
    forall i | 0 <= i < |a|
      ensures a[i].bucket.Some? && a[i].device == dev
    {
      var parts := BucketDefs(dev, GapBuckets(TimedOf(s), gap), embeds, threshold);
      assert a[i] in a;
      FlattenMember(parts, a[i]);
      var k :| 0 <= k < |parts| && a[i] in parts[k];
      BucketMembers(TimedOf(s), gap, k);
    }
    NullsLastConcat(a, b);
  }

  lemma {:induction false} PartsNullsLast(files: seq<File>, devs: seq<string>, embeds: map<int, Embedding>, gap: int,
      threshold: real)
    requires NoDup(devs)
    ensures NullsLast(Flatten(PerDeviceParts(files, devs, embeds, gap, threshold)))
    ensures forall d | d in Flatten(PerDeviceParts(files, devs, embeds, gap, threshold)) :: d.device in devs
  {
    if devs != [] {
      var parts := PerDeviceParts(files, devs, embeds, gap, threshold);
      assert parts[1..] == PerDeviceParts(files, devs[1..], embeds, gap, threshold);
      PartsNullsLast(files, devs[1..], embeds, gap, threshold);
      TimelineNullsLast(devs[0], Sort(DeviceRuns(files, devs[0]), RunLe()), embeds, gap, threshold);
      var rest := Flatten(parts[1..]);
      forall j | 0 <= j < |rest|
        ensures rest[j].device != devs[0]
      {
        assert rest[j] in rest;
      }
      NullsLastConcat(parts[0], rest);
    }
  }

  lemma PerDeviceNullsLast(files: seq<File>, embeds: map<int, Embedding>, gap: int, threshold: real)
    ensures NullsLast(PerDeviceDefs(files, embeds, gap, threshold))
  {
    DevicesFacts(files);
    PartsNullsLast(files, Devices(files), embeds, gap, threshold);
  }

  // ------------------------------------------------------------ time shift

  function ShiftRow(f: File, dev: string, c: int): File {
    if Device(f) == dev && f.capturedAt.Some? then f.(capturedAt := Some(f.capturedAt.value + c)) else f
  }

  function ShiftRows(files: seq<File>, dev: string, c: int): (r: seq<File>)
    ensures |r| == |files| && forall i | 0 <= i < |r| :: r[i] == ShiftRow(files[i], dev, c)
  {
    seq(|files|, i requires 0 <= i < |files| => ShiftRow(files[i], dev, c))
  }

  function ShiftDef(d: ClusterDef, dev: string, c: int): ClusterDef {
    if d.device == dev && d.bucket.Some? then d.(bucket := Some(d.bucket.value + c)) else d
  }

  function ShiftDefs(defs: seq<ClusterDef>, dev: string, c: int): (r: seq<ClusterDef>)
    ensures |r| == |defs| && forall i | 0 <= i < |r| :: r[i] == ShiftDef(defs[i], dev, c)
  {
    seq(|defs|, i requires 0 <= i < |defs| => ShiftDef(defs[i], dev, c))
  }

  lemma ShiftDefsConcat(a: seq<ClusterDef>, b: seq<ClusterDef>, dev: string, c: int)
    ensures ShiftDefs(a + b, dev, c) == ShiftDefs(a, dev, c) + ShiftDefs(b, dev, c)
  {
    var l, r := ShiftDefs(a + b, dev, c), ShiftDefs(a, dev, c) + ShiftDefs(b, dev, c);
    assert forall i | 0 <= i < |l| :: l[i] == r[i];
  }

  lemma {:induction false} FlattenShift(parts: seq<seq<ClusterDef>>, parts': seq<seq<ClusterDef>>, dev: string, c: int)
    requires |parts'| == |parts| && forall i | 0 <= i < |parts| :: parts'[i] == ShiftDefs(parts[i], dev, c)
    ensures Flatten(parts') == ShiftDefs(Flatten(parts), dev, c)
  {
    if parts != [] {
      FlattenShift(parts[1..], parts'[1..], dev, c);
      ShiftDefsConcat(parts[0], Flatten(parts[1..]), dev, c);
    }
  }

  lemma DevicesShift(files: seq<File>, dev: string, c: int)
    ensures Devices(ShiftRows(files, dev, c)) == Devices(files)
  {
    if files != [] {
      var n := |files| - 1;
      DevicesShift(files[..n], dev, c);
      assert ShiftRows(files, dev, c)[..n] == ShiftRows(files[..n], dev, c);
    }
  }

  lemma ShiftBucketCons(s: seq<RunFile>, c: int)
    requires s != []
    ensures ShiftBucket(s, c) == [ShiftFile(s[0], c)] + ShiftBucket(s[1..], c)
    ensures ShiftBucket(s, c)[1..] == ShiftBucket(s[1..], c)
  {
    assert forall i | 0 <= i < |s| - 1 :: ShiftBucket(s, c)[i + 1] == ShiftBucket(s[1..], c)[i];
  }

  lemma DeviceRunsCons(files: seq<File>, e: string)
    requires files != []
    ensures DeviceRuns(files, e) == (if Device(files[0]) == e then [Run(files[0])] else []) + DeviceRuns(files[1..], e)
  {
    assert Runs(files)[1..] == Runs(files[1..]);
  }

  /** The runs of each device after the shift: moved for dev, untouched elsewhere. */
  lemma {:induction false} DeviceRunsShift(files: seq<File>, dev: string, c: int, e: string)
    ensures DeviceRuns(ShiftRows(files, dev, c), e)
            == if e == dev then ShiftBucket(DeviceRuns(files, e), c) else DeviceRuns(files, e)
  {
    if files != [] {
      var moved := ShiftRows(files, dev, c);
      assert moved[1..] == ShiftRows(files[1..], dev, c);
      DeviceRunsShift(files[1..], dev, c, e);
      DeviceRunsCons(files, e);
      DeviceRunsCons(moved, e);
      assert Device(moved[0]) == Device(files[0]);
      if Device(files[0]) == e {
        var rest := DeviceRuns(files[1..], e);
        assert ([Run(files[0])] + rest)[1..] == rest;
        ShiftBucketCons([Run(files[0])] + rest, c);
        assert e == dev ==> Run(moved[0]) == ShiftFile(Run(files[0]), c);
      }
    }
  }

  lemma {:induction false} InsertShift(s: seq<RunFile>, x: RunFile, c: int)
    ensures InsertSorted(ShiftBucket(s, c), ShiftFile(x, c), RunLe()) == ShiftBucket(InsertSorted(s, x, RunLe()), c)
  {
    if s == [] {
      assert ShiftBucket([x], c) == [ShiftFile(x, c)];
    } else {
      ShiftBucketCons(s, c);
      var r := InsertSorted(s, x, RunLe());
      ShiftBucketCons(r, c);
      if RunLe()(x, s[0]) {
        assert r[1..] == s;
      } else {
        assert r[1..] == InsertSorted(s[1..], x, RunLe());
        InsertShift(s[1..], x, c);
      }
    }
  }

  lemma {:induction false} SortShift(s: seq<RunFile>, c: int)
    ensures Sort(ShiftBucket(s, c), RunLe()) == ShiftBucket(Sort(s, RunLe()), c)
  {
    if s != [] {
      ShiftBucketCons(s, c);
      SortShift(s[1..], c);
      InsertShift(Sort(s[1..], RunLe()), s[0], c);
    }
  }

  lemma {:induction false} TimedPartShift(s: seq<RunFile>, c: int)
    ensures TimedOf(ShiftBucket(s, c)) == Shift(TimedOf(s), c)
  {
    if s != [] {
      ShiftBucketCons(s, c);
      TimedPartShift(s[1..], c);
      if s[0].at.Some? {
        assert TimedOf(s) == [s[0]] + TimedOf(s[1..]);
        assert Shift(TimedOf(s), c) == [ShiftFile(s[0], c)] + Shift(TimedOf(s[1..]), c);
      }
    }
  }

  lemma {:induction false} UntimedPartShift(s: seq<RunFile>, c: int)
    ensures UntimedOf(ShiftBucket(s, c)) == UntimedOf(s)
  {
    if s != [] {
      ShiftBucketCons(s, c);
      UntimedPartShift(s[1..], c);
    }
  }

  lemma ShiftedIds(b: seq<RunFile>, c: int)
    ensures IdSet(ToSet(ShiftBucket(b, c))) == IdSet(ToSet(b))
  {
    var m := ShiftBucket(b, c);
    forall x | x in IdSet(ToSet(b))
      ensures x in IdSet(ToSet(m))
    {
      var i := IdSetIndex(b, x);
      assert m[i] in ToSet(m) && m[i].id == x;
    }
    forall x | x in IdSet(ToSet(m))
      ensures x in IdSet(ToSet(b))
    {
      var i := IdSetIndex(m, x);
      assert b[i] in ToSet(b) && b[i].id == x;
    }
  }

  lemma EmitShift(dev: string, start: int, ids: set<int>, embeds: map<int, Embedding>, threshold: real, c: int)
    ensures Emit(dev, Some(start + c), ids, embeds, threshold)
            == ShiftDefs(Emit(dev, Some(start), ids, embeds, threshold), dev, c)
  {
  }

  lemma BucketShift(dev: string, b: seq<RunFile>, embeds: map<int, Embedding>, threshold: real, c: int)
    requires b != [] && b[0].at.Some?
    ensures ShiftBucket(b, c) != []
    ensures Emit(dev, ShiftBucket(b, c)[0].at, IdSet(ToSet(ShiftBucket(b, c))), embeds, threshold)
            == ShiftDefs(Emit(dev, b[0].at, IdSet(ToSet(b)), embeds, threshold), dev, c)
  {
    ShiftedIds(b, c);
    EmitShift(dev, b[0].at.value, IdSet(ToSet(b)), embeds, threshold, c);
  }

  lemma TimedShift(dev: string, timed: seq<RunFile>, embeds: map<int, Embedding>, gap: int, threshold: real, c: int)
    requires AllTimed(timed)
    ensures Flatten(BucketDefs(dev, GapBuckets(Shift(timed, c), gap), embeds, threshold))
            == ShiftDefs(Flatten(BucketDefs(dev, GapBuckets(timed, gap), embeds, threshold)), dev, c)
  {
    ShiftedBuckets(timed, gap, c);
    var r, r' := GapBuckets(timed, gap), GapBuckets(Shift(timed, c), gap);
    var parts, parts' := BucketDefs(dev, r, embeds, threshold), BucketDefs(dev, r', embeds, threshold);
    forall b | 0 <= b < |parts|
      ensures parts'[b] == ShiftDefs(parts[b], dev, c)
    {
      BucketMembers(timed, gap, b);
      BucketShift(dev, r[b], embeds, threshold, c);
    }
    FlattenShift(parts, parts', dev, c);
  }

  lemma TimelineShift(dev: string, s: seq<RunFile>, embeds: map<int, Embedding>, gap: int, threshold: real, c: int)
    ensures TimelineDefs(dev, ShiftBucket(s, c), embeds, gap, threshold)
            == ShiftDefs(TimelineDefs(dev, s, embeds, gap, threshold), dev, c)
  {
    TimedPartShift(s, c);
    UntimedPartShift(s, c);
    TimedShift(dev, TimedOf(s), embeds, gap, threshold, c);
    var nulls := NullDefs(dev, UntimedOf(s));
    assert ShiftDefs(nulls, dev, c) == nulls;
    ShiftDefsConcat(Flatten(BucketDefs(dev, GapBuckets(TimedOf(s), gap), embeds, threshold)), nulls, dev, c);
  }

  lemma OtherDeviceShift(defs: seq<ClusterDef>, dev: string, e: string, c: int)
    requires OnlyDevice(defs, e) && e != dev
    ensures ShiftDefs(defs, dev, c) == defs
  {
  }

  /** Moving one device's clock by a constant changes no membership and no order: exactly the
      TimeBuckets of that device move along. */
  lemma ClockShift(files: seq<File>, embeds: map<int, Embedding>, gap: int, threshold: real, dev: string, c: int)
    ensures PerDeviceDefs(ShiftRows(files, dev, c), embeds, gap, threshold)
            == ShiftDefs(PerDeviceDefs(files, embeds, gap, threshold), dev, c)
  {
    var moved, devs := ShiftRows(files, dev, c), Devices(files);
    DevicesShift(files, dev, c);
    var parts, parts' := PerDeviceParts(files, devs, embeds, gap, threshold), PerDeviceParts(moved, devs, embeds, gap,
        threshold);
    forall i | 0 <= i < |devs|
      ensures parts'[i] == ShiftDefs(parts[i], dev, c)
    {
      var e := devs[i];
      DeviceRunsShift(files, dev, c, e);
      if e == dev {
        SortShift(DeviceRuns(files, e), c);
        TimelineShift(e, Sort(DeviceRuns(files, e), RunLe()), embeds, gap, threshold, c);
      } else {
        TimelineNullsLast(e, Sort(DeviceRuns(files, e), RunLe()), embeds, gap, threshold);
        OtherDeviceShift(parts[i], dev, e, c);
      }
    }
    FlattenShift(parts, parts', dev, c);
  }
}
