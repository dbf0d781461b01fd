/** rebuildAllPerDevice of group.go: the device-partitioned rebuild and the end-to-end statement of
    which files share a cluster. */
module PerDevice {
  import opened Seqs
  import opened Visual
  import opened Timeline
  import opened Defs

  // ------------------------------------------------------- specification

  /** Device keys in the order of their first file. */
  function Devices(files: seq<File>): seq<string> {
    if files == [] then []
    else
      var n := |files| - 1;
      var d := Devices(files[..n]);
      if Device(files[n]) in d then d else d + [Device(files[n])]
  }

  function OnDevice(dev: string): RunFile -> bool {
    (f: RunFile) => f.device == dev
  }

  function DeviceRuns(files: seq<File>, dev: string): seq<RunFile> {
    Filter(Runs(files), OnDevice(dev))
  }

  /** The definitions of one sorted device timeline: its timed buckets, then its NULL singletons. */
  ghost function TimelineDefs(dev: string, s: seq<RunFile>, embeds: map<int, Embedding>, gap: int,
      threshold: real): seq<ClusterDef> {
    Flatten(BucketDefs(dev, GapBuckets(TimedOf(s), gap), embeds, threshold)) + NullDefs(dev, UntimedOf(s))
  }

  ghost function DeviceDefs(files: seq<File>, dev: string, embeds: map<int, Embedding>, gap: int,
      threshold: real): seq<ClusterDef> {
    TimelineDefs(dev, Sort(DeviceRuns(files, dev), RunLe()), embeds, gap, threshold)
  }

  ghost function PerDeviceParts(files: seq<File>, devs: seq<string>, embeds: map<int, Embedding>, gap: int,
      threshold: real): (r: seq<seq<ClusterDef>>)
    ensures |r| == |devs| && forall i | 0 <= i < |devs| :: r[i] == DeviceDefs(files, devs[i], embeds, gap, threshold)
  {
    seq(|devs|, i requires 0 <= i < |devs| => DeviceDefs(files, devs[i], embeds, gap, threshold))
  }

  ghost function PerDeviceDefs(files: seq<File>, embeds: map<int, Embedding>, gap: int,
      threshold: real): seq<ClusterDef> {
    Flatten(PerDeviceParts(files, Devices(files), embeds, gap, threshold))
  }

  // ------------------------------------------------------ implementation

  /** The state of the gap-walk: closed buckets are emitted, the open one is being collected. */
  ghost predicate Walking(timed: seq<RunFile>, gap: int, closed: seq<seq<RunFile>>, open: seq<RunFile>) {
    && AllTimed(timed)
    && (forall b | 0 <= b < |closed| :: |closed[b]| > 0)
    && (timed == [] <==> open == [])
    && (open == [] ==> closed == [])
    && (open != [] ==> GapBuckets(timed, gap) == closed + [open] && open[|open| - 1] == timed[|timed| - 1])
  }

  lemma WalkingEnd(timed: seq<RunFile>, gap: int, closed: seq<seq<RunFile>>, open: seq<RunFile>)
    requires Walking(timed, gap, closed, open)
    ensures GapBuckets(timed, gap) == if timed == [] then [] else closed + [open]
  {
  }

  lemma WalkStep(timed: seq<RunFile>, f: RunFile, gap: int, closed: seq<seq<RunFile>>, open: seq<RunFile>)
    requires Walking(timed, gap, closed, open) && f.at.Some?
    ensures timed == [] ==> Walking(timed + [f], gap, [], [f])
    ensures timed != [] && f.at.value - timed[|timed| - 1].at.value > gap ==>
              Walking(timed + [f], gap, closed + [open], [f])
    ensures timed != [] && f.at.value - timed[|timed| - 1].at.value <= gap ==>
              Walking(timed + [f], gap, closed, open + [f])
  {
    GapBucketsSnoc(timed, f, gap);
    if open != [] {
      assert (closed + [open])[..|closed|] == closed;
    }
  }

  lemma OpenDistinct(timed: seq<RunFile>, gap: int, closed: seq<seq<RunFile>>, open: seq<RunFile>)
    requires Walking(timed, gap, closed, open) && DistinctIds(timed)
    ensures DistinctIds(open)
  {
    if open != [] {
      GapBucketsFlatten(timed, gap);
      FlattenSnoc(closed, open);
      var k := |Flatten(closed)|;
      assert forall i | 0 <= i < |open| :: open[i] == timed[k + i];
    }
  }

  lemma NullEmitted(dev: string, nulls: seq<RunFile>, f: RunFile, embeds: map<int, Embedding>, threshold: real)
    ensures NullDefs(dev, nulls + [f]) == NullDefs(dev, nulls) + Emit(dev, None, ToSet([f.id]), embeds, threshold)
  {
    assert ToSet([f.id]) == {f.id};
    EmitSingleton(dev, f.id, embeds, threshold);
  }

  lemma IdsOfSnoc(runs: seq<RunFile>, f: RunFile)
    ensures IdsOf(runs + [f]) == IdsOf(runs) + [f.id]
  {
  }

  /** The variables the gap-walk of one device shares with its emit and flush closures. */
  class DeviceWalk {
    const dev: string
    const embeds: map<int, Embedding>
    const gap: int
    const threshold: real
    var currIDs: seq<int>
    var currStart: Option<int>
    var prev: Option<RunFile>
    var defs: seq<ClusterDef>
    ghost var timed: seq<RunFile>
    ghost var nulls: seq<RunFile>
    ghost var closed: seq<seq<RunFile>>
    ghost var open: seq<RunFile>

    /** The timed files so far, cut into closed buckets and the open one the variables describe. */
    ghost predicate Collecting()
      reads `timed, `closed, `open, `currIDs, `currStart, `prev
    {
      && DistinctIds(timed)
      && Walking(timed, gap, closed, open)
      && currIDs == IdsOf(open)
      && (open != [] ==> currStart == open[0].at)
      && prev == (if timed == [] then None else Some(timed[|timed| - 1]))
    }

    /** The closed buckets, and nothing else, have been emitted. */
    ghost predicate Emitted()
      reads `defs, `closed, `nulls
      requires forall b | 0 <= b < |closed| :: |closed[b]| > 0
    {
      nulls == [] && defs == Flatten(BucketDefs(dev, closed, embeds, threshold))
    }

    ghost predicate Valid()
      reads this
    {
      Collecting() && Emitted()
    }

    /** Every bucket has been emitted; only files without a time have been seen since. */
    ghost predicate Drained()
      reads this
    {
      && AllTimed(timed)
      && currIDs == [] && prev == None
      && defs == Flatten(BucketDefs(dev, GapBuckets(timed, gap), embeds, threshold)) + NullDefs(dev, nulls)
    }

    constructor (dev: string, embeds: map<int, Embedding>, gap: int, threshold: real)
      ensures Valid() && timed == []
      ensures this.dev == dev && this.embeds == embeds && this.gap == gap && this.threshold == threshold
    {
      this.dev, this.embeds, this.gap, this.threshold := dev, embeds, gap, threshold;
      currIDs, currStart, prev, defs := [], None, None, [];
      timed, nulls, closed, open := [], [], [], [];
    }

    method Flush()
      requires Valid()
      modifies `defs, `currIDs
      ensures currIDs == []
      ensures open == [] ==> defs == old(defs)
      ensures open != [] ==> defs == Flatten(BucketDefs(dev, closed + [open], embeds, threshold))
    {
      if |currIDs| == 0 {
        return;
      }
      OpenDistinct(timed, gap, closed, open);
      IdsOfNoDup(open);
      IdsOfSet(open);
      var emitted := EmitGroups(dev, currStart, currIDs, embeds, threshold);
      BucketDefsSnoc(dev, closed, open, embeds, threshold);
      defs := defs + emitted;
      currIDs := [];
    }

    /** Starts a bucket at f. */
    method Open(f: RunFile)
      requires f.at.Some? && DistinctIds(timed + [f])
      requires Walking(timed + [f], gap, closed, [f])
      modifies `currStart, `currIDs, `prev, `timed, `open
      ensures Collecting() && timed == old(timed) + [f]
    {
      currStart := f.at;
      currIDs := [f.id];
      assert IdsOf([f]) == [f.id];
      prev := Some(f);
      timed, open := timed + [f], [f];
    }

    /** Adds f to the open bucket. */
    method Extend(f: RunFile)
      requires Collecting() && open != []
      requires f.at.Some? && DistinctIds(timed + [f])
      requires Walking(timed + [f], gap, closed, open + [f])
      modifies `currIDs, `prev, `timed, `open
      ensures Collecting() && timed == old(timed) + [f]
    {
      IdsOfSnoc(open, f);
      currIDs := currIDs + [f.id];
      prev := Some(f);
      timed, open := timed + [f], open + [f];
    }

    /** Closes the open bucket and starts the next one at f. */
    method Cut(f: RunFile)
      requires Valid() && open != [] && f.at.Some? && DistinctIds(timed + [f])
      requires Walking(timed + [f], gap, closed + [open], [f])
      modifies this
      ensures Valid() && timed == old(timed) + [f]
    {
      Flush();
      closed := closed + [open];
      Open(f);
    }

    method VisitTimed(f: RunFile)
      requires Valid() && f.at.Some?
      requires DistinctIds(timed + [f])
      modifies this
      ensures Valid() && timed == old(timed) + [f]
    {
      WalkStep(timed, f, gap, closed, open);
      if prev.None? {
        Open(f);
      } else if f.at.value - prev.value.at.value > gap {
        Cut(f);
      } else {
        Extend(f);
      }
    }

    /** Emits the open bucket and closes the timeline. */
    method Drain()
      requires Valid() || Drained()
      modifies `defs, `currIDs, `prev
      ensures Drained()
    {
      if |currIDs| != 0 {
        Flush();
      }
      prev := None;
      assert nulls == [] ==> NullDefs(dev, nulls) == [];
    }

    /** A file without a time is a singleton of its own. */
    method EmitNull(f: RunFile)
      requires Drained()
      modifies `defs, `nulls
      ensures Drained() && nulls == old(nulls) + [f]
    {
      var single := EmitGroups(dev, None, [f.id], embeds, threshold);
      NullEmitted(dev, nulls, f, embeds, threshold);
      defs := defs + single;
      nulls := nulls + [f];
    }

    method VisitNull(f: RunFile)
      requires Valid() || Drained()
      modifies `defs, `currIDs, `prev, `nulls
      ensures Drained() && nulls == old(nulls) + [f]
    {
      Drain();
      EmitNull(f);
    }

    ghost predicate Going()
      reads this
    {
      if nulls == [] then Valid() else Drained()
    }

    method Visit(f: RunFile)
      requires Going()
      requires f.at.Some? ==> nulls == [] && DistinctIds(timed + [f])
      modifies this
      ensures Going()
      ensures timed == old(timed) + (if f.at.Some? then [f] else [])
      ensures nulls == old(nulls) + (if f.at.Some? then [] else [f])
    {
      if f.at.None? {
        VisitNull(f);
      } else {
        VisitTimed(f);
      }
    }

    method Finish()
      requires Going()
      modifies `defs, `currIDs, `prev
      ensures Drained()
    {
      Drain();
    }
  }

  /** One more file of a sorted timeline: a timed file only ever follows timed files. */
  lemma WalkSplit(s: seq<RunFile>, i: nat)
    requires SortedBy(s, RunLe()) && DistinctIds(s) && i < |s|
    ensures TimedOf(s[..i + 1]) == TimedOf(s[..i]) + (if s[i].at.Some? then [s[i]] else [])
    ensures UntimedOf(s[..i + 1]) == UntimedOf(s[..i]) + (if s[i].at.Some? then [] else [s[i]])
    ensures s[i].at.Some? ==> UntimedOf(s[..i]) == [] && DistinctIds(TimedOf(s[..i]) + [s[i]])
  {
    assert s[..i + 1] == s[..i] + [s[i]];
    FilterSnoc(s[..i], s[i], IsTimed());
    FilterSnoc(s[..i], s[i], IsUntimed());
    if s[i].at.Some? {
      NothingTimedAfterNull(s, i);
    }
  }

  lemma NothingTimedAfterNull(s: seq<RunFile>, i: nat)
    requires SortedBy(s, RunLe()) && i < |s| && s[i].at.Some?
    ensures UntimedOf(s[..i]) == [] && TimedOf(s[..i]) == s[..i]
  {
    forall x | x in s[..i]
      ensures x.at.Some?
    {
      var k :| 0 <= k < i && s[k] == x;
      assert RunLe()(s[k], s[i]);
    }
    FilterAll(s[..i], IsTimed());
    FilterNone(s[..i], IsUntimed());
  }

  /** The gap-walk over one sorted device timeline. */
  method WalkDevice(dev: string, s: seq<RunFile>, embeds: map<int, Embedding>, gap: int, threshold: real)
    returns (defs: seq<ClusterDef>)
    requires DistinctIds(s) && SortedBy(s, RunLe())
    ensures defs == TimelineDefs(dev, s, embeds, gap, threshold)
  {
    var w := new DeviceWalk(dev, embeds, gap, threshold);
    for i := 0 to |s|
      invariant fresh(w) && w.Going()
      invariant w.timed == TimedOf(s[..i]) && w.nulls == UntimedOf(s[..i])
    {
      WalkSplit(s, i);
      w.Visit(s[i]);
    }
    assert s[..|s|] == s;
    w.Finish();
    defs := w.defs;
  }

  // -------------------------------------------------------- whole rebuild

  lemma {:induction false} DevicesFacts(files: seq<File>)
    ensures NoDup(Devices(files))
    ensures forall dev :: dev in Devices(files) <==> exists i :: 0 <= i < |files| && Device(files[i]) == dev
  {
    if files != [] {
      var n := |files| - 1;
      DevicesFacts(files[..n]);
      forall dev
        ensures dev in Devices(files) <==> exists i :: 0 <= i < |files| && Device(files[i]) == dev
      {
        if dev in Devices(files[..n]) {
          var i :| 0 <= i < n && Device(files[..n][i]) == dev;
          assert Device(files[i]) == dev;
        }
        if i :| 0 <= i < |files| && Device(files[i]) == dev {
          if i < n {
            assert Device(files[..n][i]) == dev;
          }
        }
      }
    }
  }

  lemma RunsDistinct(files: seq<File>, p: RunFile -> bool)
    requires DistinctFiles(files)
    ensures DistinctIds(Runs(files)) && DistinctIds(Filter(Runs(files), p))
  {
    FilterDistinct(Runs(files), p);
  }

  lemma RunsSnoc(files: seq<File>, i: nat, dev: string)
    requires i < |files|
    ensures DeviceRuns(files[..i + 1], dev)
            == DeviceRuns(files[..i], dev) + if Device(files[i]) == dev then [Run(files[i])] else []
    ensures Devices(files[..i + 1])
            == Devices(files[..i]) + if Device(files[i]) in Devices(files[..i]) then [] else [Device(files[i])]
  {
    assert Runs(files[..i + 1]) == Runs(files[..i]) + [Run(files[i])];
    FilterSnoc(Runs(files[..i]), Run(files[i]), OnDevice(dev));
    assert files[..i + 1][..i] == files[..i];
  }

  /** Splits the files by device, keeping first-seen device order. */
  method SplitByDevice(files: seq<File>) returns (byDevice: map<string, seq<RunFile>>, order: seq<string>)
    ensures order == Devices(files)
    ensures forall dev :: dev in byDevice <==> dev in order
    ensures forall dev | dev in byDevice :: byDevice[dev] == DeviceRuns(files, dev)
  {
    byDevice, order := map[], [];
    for i := 0 to |files|
      invariant order == Devices(files[..i])
      invariant forall dev :: dev in byDevice <==> dev in order
      invariant forall dev :: DeviceRuns(files[..i], dev) == if dev in byDevice then byDevice[dev] else []
    {
      var dev := Device(files[i]);
      forall d
        ensures DeviceRuns(files[..i + 1], d) == DeviceRuns(files[..i], d) + if dev == d then [Run(files[i])] else []
      {
        RunsSnoc(files, i, d);
      }
      RunsSnoc(files, i, dev);
      if dev !in byDevice {
        order := order + [dev];
      }
      byDevice := byDevice[dev := (if dev in byDevice then byDevice[dev] else []) + [Run(files[i])]];
    }
    assert files[..|files|] == files;
  }

  method RebuildDevice(ghost files: seq<File>, dev: string, runs: seq<RunFile>, embeds: map<int, Embedding>, gap: int,
      threshold: real)
    returns (defs: seq<ClusterDef>)
    requires DistinctFiles(files) && runs == DeviceRuns(files, dev)
    ensures defs == DeviceDefs(files, dev, embeds, gap, threshold)
  {
    RunsDistinct(files, OnDevice(dev));
    SortedRunFacts(runs);
    var s := SortRunFiles(runs);
    defs := WalkDevice(dev, s, embeds, gap, threshold);
  }

  /** The loop over the devices, each with its own check of the context. */
  method DeviceLoop(ghost files: seq<File>, order: seq<string>, byDevice: map<string, seq<RunFile>>,
      embeds: map<int, Embedding>, gap: int, threshold: real, checks: Option<nat>)
    returns (ok: bool, defs: seq<ClusterDef>)
    requires DistinctFiles(files)
    requires forall dev | dev in order :: dev in byDevice && byDevice[dev] == DeviceRuns(files, dev)
    ensures ok <==> checks.None? || |order| <= checks.value
    ensures ok ==> defs == Flatten(PerDeviceParts(files, order, embeds, gap, threshold))
  {
    ghost var parts := PerDeviceParts(files, order, embeds, gap, threshold);
    defs := [];
    for i := 0 to |order|
      invariant checks.Some? ==> i <= checks.value
      invariant defs == Flatten(parts[..i])
    {
      if checks.Some? && i == checks.value {
        return false, [];
      }
      assert order[i] in order;
      var walked := RebuildDevice(files, order[i], byDevice[order[i]], embeds, gap, threshold);
      FlattenPrefix(parts, i);
      assert parts[i] == walked;
      defs := defs + walked;
    }
    assert parts[..|order|] == parts;
    ok := true;
  }

  /** rebuildAllPerDevice up to the write. checks bounds how many context checks pass before the
      context is cancelled; None means never. A cancelled rebuild hands nothing to the store. */
  method RebuildPerDevice(files: seq<File>, embeds: map<int, Embedding>, gap: int, threshold: real, checks: Option<nat>)
    returns (ok: bool, defs: seq<ClusterDef>)
    requires DistinctFiles(files)
    ensures ok <==> checks.None? || |Devices(files)| <= checks.value
    ensures ok ==> defs == PerDeviceDefs(files, embeds, gap, threshold)
  {
    var byDevice, order := SplitByDevice(files);
    ok, defs := DeviceLoop(files, order, byDevice, embeds, gap, threshold, checks);
  }
}
