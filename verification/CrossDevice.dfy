/** rebuildAllCrossDevice of group.go: one skew-corrected timeline for embedded files, per-device
    timelines for the rest, NULL singletons last. */
module CrossDevice {
  import opened Seqs
  import opened Visual
  import opened BucketGroups
  import opened Timeline
  import opened Defs
  import opened PerDevice
  import opened Skew
  import opened SkewEstimate

  const MERGED_DEVICE_KEY: string := "*merged*"

  // -------------------------------------------------------- specification

  /** The offset subtracted from a device's clock; a device absent from the map keeps its time. */
  function Offset(skew: map<string, int>, dev: string): int {
    if dev in skew then skew[dev] else 0
  }

  function Align(f: RunFile, skew: map<string, int>): RunFile {
    if f.at.Some? then f.(at := Some(f.at.value - Offset(skew, f.device))) else f
  }

  function Anchored(embeds: map<int, Embedding>): RunFile -> bool {
    (f: RunFile) => f.at.Some? && f.id in embeds
  }

  function LooseOn(embeds: map<int, Embedding>, dev: string): RunFile -> bool {
    (f: RunFile) => f.device == dev && f.at.Some? && f.id !in embeds
  }

  function NullOn(dev: string): RunFile -> bool {
    (f: RunFile) => f.device == dev && f.at.None?
  }

  function AlignAll(runs: seq<RunFile>, skew: map<string, int>): (r: seq<RunFile>)
    ensures |r| == |runs| && forall i | 0 <= i < |r| :: r[i] == Align(runs[i], skew)
  {
    seq(|runs|, i requires 0 <= i < |runs| => Align(runs[i], skew))
  }

  /** The canonical timeline: embedded, timed files at their corrected times. */
  function Canonical(runs: seq<RunFile>, embeds: map<int, Embedding>, skew: map<string, int>): (r: seq<RunFile>)
    ensures AllTimed(r)
  {
    var kept := Filter(runs, Anchored(embeds));
    assert forall i | 0 <= i < |kept| :: kept[i] in kept;
    AlignAll(kept, skew)
  }

  /** The devices of a group's members. */
  function DevicesIn(bucket: set<RunFile>, group: set<int>): set<string> {
    set f | f in bucket && f.id in group :: f.device
  }

  /** A group from one device keeps its key; a group from several is tagged as merged. */
  ghost function Tag(devices: set<string>): string {
    if |devices| == 1 then (var d :| d in devices; d) else MERGED_DEVICE_KEY
  }

  ghost function EmitTagged(start: Option<int>, bucket: set<RunFile>, embeds: map<int, Embedding>,
      threshold: real): (r: seq<ClusterDef>)
    ensures |r| == |Groups(IdSet(bucket), embeds, threshold)|
    ensures forall i | 0 <= i < |r| ::
              r[i] == ClusterDef(Tag(DevicesIn(bucket, ToSet(Groups(IdSet(bucket), embeds, threshold)[i]))), start,
                  Groups(IdSet(bucket), embeds, threshold)[i])
  {
    var g := Groups(IdSet(bucket), embeds, threshold);
    seq(|g|, i requires 0 <= i < |g| => ClusterDef(Tag(DevicesIn(bucket, ToSet(g[i]))), start, g[i]))
  }

  ghost function MergedParts(buckets: seq<seq<RunFile>>, embeds: map<int, Embedding>,
      threshold: real): (r: seq<seq<ClusterDef>>)
    requires forall b | 0 <= b < |buckets| :: |buckets[b]| > 0
    ensures |r| == |buckets|
    ensures forall b | 0 <= b < |r| :: r[b] == EmitTagged(buckets[b][0].at, ToSet(buckets[b]), embeds, threshold)
  {
    seq(|buckets|, b requires 0 <= b < |buckets| => EmitTagged(buckets[b][0].at, ToSet(buckets[b]), embeds, threshold))
  }

  ghost function MergedDefs(runs: seq<RunFile>, embeds: map<int, Embedding>, skew: map<string, int>, gap: int,
      threshold: real): seq<ClusterDef> {
    Flatten(MergedParts(GapBuckets(TimedOf(Sort(Canonical(runs, embeds, skew), RunLe())), gap), embeds, threshold))
  }

  /** One definition per bucket: without a visual signal the bucket is trusted as it is. */
  function LooseParts(dev: string, buckets: seq<seq<RunFile>>): (r: seq<seq<ClusterDef>>)
    requires forall b | 0 <= b < |buckets| :: |buckets[b]| > 0
    ensures |r| == |buckets|
    ensures forall b | 0 <= b < |r| :: r[b] == [ClusterDef(dev, buckets[b][0].at, IdsOf(buckets[b]))]
  {
    seq(|buckets|, b requires 0 <= b < |buckets| => [ClusterDef(dev, buckets[b][0].at, IdsOf(buckets[b]))])
  }

  function LooseTimeline(runs: seq<RunFile>, embeds: map<int, Embedding>, dev: string): seq<RunFile> {
    TimedOf(Sort(Filter(runs, LooseOn(embeds, dev)), RunLe()))
  }

  function LooseDefs(runs: seq<RunFile>, embeds: map<int, Embedding>, dev: string, gap: int): seq<ClusterDef> {
    Flatten(LooseParts(dev, GapBuckets(LooseTimeline(runs, embeds, dev), gap)))
  }

  function NullTimeline(runs: seq<RunFile>, dev: string): seq<RunFile> {
    Sort(Filter(runs, NullOn(dev)), RunLe())
  }

  function LoosePass(runs: seq<RunFile>, embeds: map<int, Embedding>, devs: seq<string>,
      gap: int): (r: seq<seq<ClusterDef>>)
    ensures |r| == |devs| && forall i | 0 <= i < |devs| :: r[i] == LooseDefs(runs, embeds, devs[i], gap)
  {
    seq(|devs|, i requires 0 <= i < |devs| => LooseDefs(runs, embeds, devs[i], gap))
  }

  function NullPass(runs: seq<RunFile>, devs: seq<string>): (r: seq<seq<ClusterDef>>)
    ensures |r| == |devs| && forall i | 0 <= i < |devs| :: r[i] == NullDefs(devs[i], NullTimeline(runs, devs[i]))
  {
    seq(|devs|, i requires 0 <= i < |devs| => NullDefs(devs[i], NullTimeline(runs, devs[i])))
  }

  ghost function CrossDefs(files: seq<File>, embeds: map<int, Embedding>, gap: int, threshold: real): seq<ClusterDef> {
    var runs, devs := Runs(files), Devices(files);
    MergedDefs(runs, embeds, SkewOf(files, embeds), gap, threshold) + Flatten(LoosePass(runs, embeds, devs,
        gap)) + Flatten(NullPass(runs, devs))
  }

  // --------------------------------------------------- the merged timeline

  method TagGroup(members: seq<RunFile>, group: seq<int>) returns (key: string)
    ensures key == Tag(DevicesIn(ToSet(members), ToSet(group)))
  {
    var devs: set<string> := {};
    for i := 0 to |members|
      invariant devs == DevicesIn(ToSet(members[..i]), ToSet(group))
    {
      assert members[..i + 1] == members[..i] + [members[i]];
      if members[i].id in group {
        devs := devs + {members[i].device};
      }
    }
    assert members[..|members|] == members;
    key := MERGED_DEVICE_KEY;
    if |devs| == 1 {
      ghost var some := SomeElement(devs);
      var d :| d in devs;
      assert devs == {d} by {
        assert |devs - {d}| == 0;
      }
      key := d;
    }
  }

  method EmitMembers(start: Option<int>, members: seq<RunFile>, embeds: map<int, Embedding>, threshold: real)
    returns (out: seq<ClusterDef>)
    requires DistinctIds(members)
    ensures out == EmitTagged(start, ToSet(members), embeds, threshold)
  {
    IdsOfNoDup(members);
    IdsOfSet(members);
    var groups := ClusterIDs(IdsOf(members), embeds, threshold);
    out := [];
    for i := 0 to |groups|
      invariant out == EmitTagged(start, ToSet(members), embeds, threshold)[..i]
    {
      var key := TagGroup(members, groups[i]);
      out := out + [ClusterDef(key, start, groups[i])];
    }
  }

  lemma MergedPartsSnoc(buckets: seq<seq<RunFile>>, last: seq<RunFile>, embeds: map<int, Embedding>, threshold: real)
    requires forall b | 0 <= b < |buckets| :: |buckets[b]| > 0
    requires |last| > 0
    ensures Flatten(MergedParts(buckets + [last], embeds, threshold))
            == Flatten(MergedParts(buckets, embeds, threshold)) + EmitTagged(last[0].at, ToSet(last), embeds, threshold)
  {
    assert MergedParts(buckets + [last], embeds, threshold)
        == MergedParts(buckets, embeds, threshold) + [EmitTagged(last[0].at, ToSet(last), embeds, threshold)];
    FlattenSnoc(MergedParts(buckets, embeds, threshold), EmitTagged(last[0].at, ToSet(last), embeds, threshold));
  }

  /** The variables the merged gap-walk shares with its closures. */
  class MergedWalk {
    const embeds: map<int, Embedding>
    const gap: int
    const threshold: real
    var currMembers: seq<RunFile>
    var currStart: Option<int>
    var prev: Option<RunFile>
    var defs: seq<ClusterDef>
    ghost var timed: seq<RunFile>
    ghost var closed: seq<seq<RunFile>>

    ghost predicate Valid()
      reads this
    {
      && DistinctIds(timed)
      && Walking(timed, gap, closed, currMembers)
      && (currMembers != [] ==> currStart == currMembers[0].at)
      && prev == (if timed == [] then None else Some(timed[|timed| - 1]))
      && defs == Flatten(MergedParts(closed, embeds, threshold))
    }

    constructor (embeds: map<int, Embedding>, gap: int, threshold: real)
      ensures Valid() && timed == []
      ensures this.embeds == embeds && this.gap == gap && this.threshold == threshold
    {
      this.embeds, this.gap, this.threshold := embeds, gap, threshold;
      currMembers, currStart, prev, defs := [], None, None, [];
      timed, closed := [], [];
    }

    /** flushTimed: emits the open bucket. */
    method Flush()
      requires Valid()
      modifies `defs
      ensures defs == Flatten(MergedParts(if timed == [] then [] else closed + [currMembers], embeds, threshold))
    {
      if |currMembers| == 0 {
        return;
      }
      OpenDistinct(timed, gap, closed, currMembers);
      var emitted := EmitMembers(currStart, currMembers, embeds, threshold);
      MergedPartsSnoc(closed, currMembers, embeds, threshold);
      defs := defs + emitted;
    }

    method Finish()
      requires Valid()
      modifies `defs
      ensures defs == Flatten(MergedParts(GapBuckets(timed, gap), embeds, threshold))
    {
      WalkingEnd(timed, gap, closed, currMembers);
      Flush();
    }

    method Open(f: RunFile)
      requires f.at.Some? && DistinctIds(timed + [f])
      requires Walking(timed + [f], gap, closed, [f])
      requires defs == Flatten(MergedParts(closed, embeds, threshold))
      modifies `currStart, `currMembers, `prev, `timed
      ensures Valid() && timed == old(timed) + [f]
    {
      currStart := f.at;
      currMembers := [f];
      prev := Some(f);
      timed := timed + [f];
    }

    method Visit(f: RunFile)
      requires Valid() && f.at.Some? && DistinctIds(timed + [f])
      modifies this
      ensures Valid() && timed == old(timed) + [f]
    {
      WalkStep(timed, f, gap, closed, currMembers);
      if prev.None? {
        Open(f);
      } else if f.at.value - prev.value.at.value > gap {
        Flush();
        closed := closed + [currMembers];
        Open(f);
      } else {
        currMembers := currMembers + [f];
        prev := Some(f);
        timed := timed + [f];
      }
    }
  }

  method WalkMerged(s: seq<RunFile>, embeds: map<int, Embedding>, gap: int, threshold: real)
    returns (defs: seq<ClusterDef>)
    requires DistinctIds(s) && AllTimed(s)
    ensures defs == Flatten(MergedParts(GapBuckets(s, gap), embeds, threshold))
  {
    var w := new MergedWalk(embeds, gap, threshold);
    for i := 0 to |s|
      invariant fresh(w) && w.Valid() && w.timed == s[..i]
    {
      assert s[..i + 1] == s[..i] + [s[i]];
      w.Visit(s[i]);
    }
    assert s[..|s|] == s;
    w.Finish();
    defs := w.defs;
  }

  // ------------------------------------------------ files without embedding

  lemma LoosePartsSnoc(dev: string, buckets: seq<seq<RunFile>>, last: seq<RunFile>)
    requires forall b | 0 <= b < |buckets| :: |buckets[b]| > 0
    requires |last| > 0
    ensures Flatten(LooseParts(dev, buckets + [last]))
            == Flatten(LooseParts(dev, buckets)) + [ClusterDef(dev, last[0].at, IdsOf(last))]
  {
    assert LooseParts(dev, buckets + [last]) == LooseParts(dev, buckets) + [[ClusterDef(dev, last[0].at, IdsOf(last))]];
    FlattenSnoc(LooseParts(dev, buckets), [ClusterDef(dev, last[0].at, IdsOf(last))]);
  }

  class LooseWalk {
    const dev: string
    const gap: int
    var ids: seq<int>
    var start: Option<int>
    var prev: Option<RunFile>
    var defs: seq<ClusterDef>
    ghost var timed: seq<RunFile>
    ghost var closed: seq<seq<RunFile>>
    ghost var open: seq<RunFile>

    /** The files so far, cut into closed buckets and the open one the variables describe. */
    ghost predicate Collecting()
      reads `timed, `closed, `open, `ids, `start, `prev
    {
      && Walking(timed, gap, closed, open)
      && ids == IdsOf(open)
      && (open != [] ==> start == open[0].at)
      && prev == (if timed == [] then None else Some(timed[|timed| - 1]))
    }

    /** The closed buckets, and nothing else, have been emitted. */
    ghost predicate Emitted()
      reads `defs, `closed
      requires forall b | 0 <= b < |closed| :: |closed[b]| > 0
    {
      defs == Flatten(LooseParts(dev, closed))
    }

    ghost predicate Valid()
      reads this
    {
      Collecting() && Emitted()
    }

    constructor (dev: string, gap: int)
      ensures Valid() && timed == [] && this.dev == dev && this.gap == gap
    {
      this.dev, this.gap := dev, gap;
      ids, start, prev, defs := [], None, None, [];
      timed, closed, open := [], [], [];
    }

    method Flush()
      requires Valid()
      modifies `defs
      ensures defs == Flatten(LooseParts(dev, if timed == [] then [] else closed + [open]))
    {
      if |ids| == 0 {
        return;
      }
      LoosePartsSnoc(dev, closed, open);
      defs := defs + [ClusterDef(dev, start, ids)];
    }

    method Finish()
      requires Valid()
      modifies `defs
      ensures defs == Flatten(LooseParts(dev, GapBuckets(timed, gap)))
    {
      WalkingEnd(timed, gap, closed, open);
      Flush();
    }

    method Open(f: RunFile)
      requires f.at.Some? && Walking(timed + [f], gap, closed, [f])
      modifies `start, `ids, `prev, `timed, `open
      ensures Collecting() && timed == old(timed) + [f]
    {
      start := f.at;
      ids := [f.id];
      assert IdsOf([f]) == [f.id];
      prev := Some(f);
      timed, open := timed + [f], [f];
    }

    method Extend(f: RunFile)
      requires Collecting() && open != []
      requires f.at.Some? && Walking(timed + [f], gap, closed, open + [f])
      modifies `ids, `prev, `timed, `open
      ensures Collecting() && timed == old(timed) + [f]
    {
      IdsOfSnoc(open, f);
      ids := ids + [f.id];
      prev := Some(f);
      timed, open := timed + [f], open + [f];
    }

    /** Closes the open bucket and starts the next one at f. */
    method Cut(f: RunFile)
      requires Valid() && open != [] && f.at.Some? && Walking(timed + [f], gap, closed + [open], [f])
      modifies this
      ensures Valid() && timed == old(timed) + [f]
    {
      Flush();
      closed := closed + [open];
      Open(f);
    }

    method Visit(f: RunFile)
      requires Valid() && f.at.Some?
      modifies this
      ensures Valid() && timed == old(timed) + [f]
    {
      WalkStep(timed, f, gap, closed, open);
      if prev.None? {
        Open(f);
      } else if f.at.value - prev.value.at.value > gap {
        Cut(f);
      } else {
        Extend(f);
      }
    }
  }

  method WalkLoose(dev: string, s: seq<RunFile>, gap: int) returns (defs: seq<ClusterDef>)
    requires AllTimed(s)
    ensures defs == Flatten(LooseParts(dev, GapBuckets(s, gap)))
  {
    var w := new LooseWalk(dev, gap);
    for i := 0 to |s|
      invariant fresh(w) && w.Valid() && w.timed == s[..i]
    {
      assert s[..i + 1] == s[..i] + [s[i]];
      w.Visit(s[i]);
    }
    assert s[..|s|] == s;
    w.Finish();
    defs := w.defs;
  }

  // --------------------------------------------------------- whole rebuild

  /** The three ways a file is filed by the first loop. */
  datatype Filed = Filed(timed: seq<RunFile>, noTime: map<string, seq<int>>, noEmb: map<string, seq<RunFile>>,
      order: seq<string>)

  ghost predicate NullsFiled(noTime: map<string, seq<int>>, runs: seq<RunFile>) {
    forall dev :: IdsOf(Filter(runs, NullOn(dev))) == if dev in noTime then noTime[dev] else []
  }

  ghost predicate LooseFiled(noEmb: map<string, seq<RunFile>>, runs: seq<RunFile>, embeds: map<int, Embedding>) {
    forall dev :: Filter(runs, LooseOn(embeds, dev)) == if dev in noEmb then noEmb[dev] else []
  }

  ghost predicate FiledOk(filed: Filed, files: seq<File>, embeds: map<int, Embedding>, skew: map<string, int>) {
    && filed.timed == Canonical(Runs(files), embeds, skew)
    && filed.order == Devices(files)
    && NullsFiled(filed.noTime, Runs(files))
    && LooseFiled(filed.noEmb, Runs(files), embeds)
  }

  lemma RunsAppend(files: seq<File>, f: File, p: RunFile -> bool)
    ensures Runs(files + [f]) == Runs(files) + [Run(f)]
    ensures Filter(Runs(files + [f]), p) == Filter(Runs(files), p) + if p(Run(f)) then [Run(f)] else []
  {
    assert Runs(files + [f]) == Runs(files) + [Run(f)];
    FilterSnoc(Runs(files), Run(f), p);
  }

  lemma CanonicalAppend(files: seq<File>, f: File, embeds: map<int, Embedding>, skew: map<string, int>)
    ensures Canonical(Runs(files + [f]), embeds, skew)
            == Canonical(Runs(files), embeds, skew) + if Anchored(embeds)(Run(f)) then [Align(Run(f), skew)] else []
  {
    RunsAppend(files, f, Anchored(embeds));
  }

  lemma DevicesAppend(files: seq<File>, f: File)
    ensures Devices(files + [f]) == Devices(files) + if Device(f) in Devices(files) then [] else [Device(f)]
  {
    assert (files + [f])[..|files|] == files;
  }

  function FileOne(filed: Filed, f: File, embeds: map<int, Embedding>, skew: map<string, int>): Filed {
    var r, dev := Run(f), Device(f);
    var order := if dev in filed.order then filed.order else filed.order + [dev];
    if r.at.None? then
      filed.(order := order,
             noTime := filed.noTime[dev := (if dev in filed.noTime then filed.noTime[dev] else []) + [f.id]])
    else if f.id !in embeds then
      filed.(order := order, noEmb := filed.noEmb[dev := (if dev in filed.noEmb then filed.noEmb[dev] else []) + [r]])
    else
      filed.(order := order, timed := filed.timed + [Align(r, skew)])
  }

  lemma FileOneNull(filed: Filed, files: seq<File>, f: File, embeds: map<int, Embedding>, skew: map<string, int>)
    requires NullsFiled(filed.noTime, Runs(files))
    ensures NullsFiled(FileOne(filed, f, embeds, skew).noTime, Runs(files + [f]))
  {
    var next := FileOne(filed, f, embeds, skew).noTime;
    forall dev
      ensures IdsOf(Filter(Runs(files + [f]), NullOn(dev))) == if dev in next then next[dev] else []
    {
      RunsAppend(files, f, NullOn(dev));
      IdsOfSnoc(Filter(Runs(files), NullOn(dev)), Run(f));
    }
  }

  lemma FileOneLoose(filed: Filed, files: seq<File>, f: File, embeds: map<int, Embedding>, skew: map<string, int>)
    requires LooseFiled(filed.noEmb, Runs(files), embeds)
    ensures LooseFiled(FileOne(filed, f, embeds, skew).noEmb, Runs(files + [f]), embeds)
  {
    var next := FileOne(filed, f, embeds, skew).noEmb;
    forall dev
      ensures Filter(Runs(files + [f]), LooseOn(embeds, dev)) == if dev in next then next[dev] else []
    {
      RunsAppend(files, f, LooseOn(embeds, dev));
    }
  }

  lemma FileOneOk(filed: Filed, files: seq<File>, f: File, next: seq<File>, embeds: map<int, Embedding>,
      skew: map<string, int>)
    requires FiledOk(filed, files, embeds, skew) && next == files + [f]
    ensures FiledOk(FileOne(filed, f, embeds, skew), next, embeds, skew)
  {
    CanonicalAppend(files, f, embeds, skew);
    DevicesAppend(files, f);
    FileOneNull(filed, files, f, embeds, skew);
    FileOneLoose(filed, files, f, embeds, skew);
  }

  lemma FiledNone(embeds: map<int, Embedding>, skew: map<string, int>)
    ensures FiledOk(Filed([], map[], map[], []), [], embeds, skew)
  {
  }

  method FileAll(files: seq<File>, embeds: map<int, Embedding>, skew: map<string, int>) returns (filed: Filed)
    ensures FiledOk(filed, files, embeds, skew)
  {
    filed := Filed([], map[], map[], []);
    FiledNone(embeds, skew);
    assert files[..0] == [];
    for i := 0 to |files|
      invariant FiledOk(filed, files[..i], embeds, skew)
    {
      assert files[..i + 1] == files[..i] + [files[i]];
      FileOneOk(filed, files[..i], files[i], files[..i + 1], embeds, skew);
      filed := FileOne(filed, files[i], embeds, skew);
    }
    assert files[..|files|] == files;
  }

  lemma CanonicalDistinct(files: seq<File>, embeds: map<int, Embedding>, skew: map<string, int>)
    requires DistinctFiles(files)
    ensures DistinctIds(Canonical(Runs(files), embeds, skew))
  {
    RunsDistinct(files, Anchored(embeds));
  }

  /** Sorting keeps a timeline timed. */
  lemma SortedTimed(s: seq<RunFile>)
    requires DistinctIds(s) && AllTimed(s)
    ensures TimedOf(Sort(s, RunLe())) == Sort(s, RunLe()) && DistinctIds(Sort(s, RunLe()))
  {
    SortedRunFacts(s);
    forall x | x in Sort(s, RunLe())
      ensures x.at.Some?
    {
      assert x in ToSet(s);
    }
    FilterAll(Sort(s, RunLe()), IsTimed());
  }

  method RebuildMerged(ghost files: seq<File>, timed: seq<RunFile>, embeds: map<int, Embedding>,
      ghost skew: map<string, int>, gap: int, threshold: real)
    returns (defs: seq<ClusterDef>)
    requires DistinctFiles(files) && timed == Canonical(Runs(files), embeds, skew)
    ensures defs == MergedDefs(Runs(files), embeds, skew, gap, threshold)
  {
    CanonicalDistinct(files, embeds, skew);
    SortedTimed(timed);
    var s := SortRunFiles(timed);
    defs := WalkMerged(s, embeds, gap, threshold);
  }

  method RebuildLoose(ghost files: seq<File>, dev: string, seq0: seq<RunFile>, ghost embeds: map<int, Embedding>,
      gap: int)
    returns (defs: seq<ClusterDef>)
    requires DistinctFiles(files) && seq0 == Filter(Runs(files), LooseOn(embeds, dev))
    ensures defs == LooseDefs(Runs(files), embeds, dev, gap)
  {
    if |seq0| == 0 {
      return [];
    }
    RunsDistinct(files, LooseOn(embeds, dev));
    assert forall i | 0 <= i < |seq0| :: seq0[i] in seq0;
    SortedTimed(seq0);
    var s := SortRunFiles(seq0);
    defs := WalkLoose(dev, s, gap);
  }

  lemma NullIds(files: seq<File>, dev: string, ids: seq<int>)
    requires DistinctFiles(files)
    requires multiset(ids) == multiset(IdsOf(Filter(Runs(files), NullOn(dev)))) && SortedBy(ids, IntLe())
    ensures ids == IdsOf(NullTimeline(Runs(files), dev))
  {
    var runs := Filter(Runs(files), NullOn(dev));
    var t := NullTimeline(Runs(files), dev);
    RunsDistinct(files, NullOn(dev));
    SortedRunFacts(runs);
    SortSorts(runs, RunLe());
    IdsPermuted(runs, t);
    forall i, j | 0 <= i < j < |t|
      ensures IntLe()(IdsOf(t)[i], IdsOf(t)[j])
    {
      assert t[i] in ToSet(runs) && t[j] in ToSet(runs);
      assert RunLe()(t[i], t[j]);
    }
    SortedUnique(ids, IdsOf(t), IntLe());
  }

  function JustId(): RunFile -> seq<int> {
    (f: RunFile) => [f.id]
  }

  lemma {:induction false} IdsAsFlatMap(a: seq<RunFile>)
    ensures FlatMap(a, JustId()) == IdsOf(a)
  {
    if a != [] {
      IdsAsFlatMap(a[1..]);
      assert IdsOf(a) == [a[0].id] + IdsOf(a[1..]);
    }
  }

  lemma IdsPermuted(a: seq<RunFile>, b: seq<RunFile>)
    requires multiset(a) == multiset(b)
    ensures multiset(IdsOf(a)) == multiset(IdsOf(b))
  {
    IdsAsFlatMap(a);
    IdsAsFlatMap(b);
    FlatMapPermuted(a, b, JustId());
  }

  method RebuildNulls(ghost files: seq<File>, dev: string, noTime: seq<int>) returns (defs: seq<ClusterDef>)
    requires DistinctFiles(files) && noTime == IdsOf(Filter(Runs(files), NullOn(dev)))
    ensures defs == NullDefs(dev, NullTimeline(Runs(files), dev))
  {
    var ids := SortSlice(noTime, IntLe());
    NullIds(files, dev, ids);
    defs := [];
    for i := 0 to |ids|
      invariant defs == NullDefs(dev, NullTimeline(Runs(files), dev))[..i]
    {
      defs := defs + [ClusterDef(dev, None, [ids[i]])];
    }
  }

  method LooseLoop(ghost files: seq<File>, noEmb: map<string, seq<RunFile>>, order: seq<string>,
      ghost embeds: map<int, Embedding>, gap: int)
    returns (defs: seq<ClusterDef>)
    requires DistinctFiles(files) && LooseFiled(noEmb, Runs(files), embeds)
    ensures defs == Flatten(LoosePass(Runs(files), embeds, order, gap))
  {
    defs := [];
    ghost var parts := LoosePass(Runs(files), embeds, order, gap);
    for i := 0 to |order|
      invariant defs == Flatten(parts[..i])
    {
      var dev := order[i];
      var part := RebuildLoose(files, dev, if dev in noEmb then noEmb[dev] else [], embeds, gap);
      FlattenPrefix(parts, i);
      defs := defs + part;
    }
    assert parts[..|order|] == parts;
  }

  method NullLoop(ghost files: seq<File>, noTime: map<string, seq<int>>, order: seq<string>)
    returns (defs: seq<ClusterDef>)
    requires DistinctFiles(files) && NullsFiled(noTime, Runs(files))
    ensures defs == Flatten(NullPass(Runs(files), order))
  {
    defs := [];
    ghost var parts := NullPass(Runs(files), order);
    for i := 0 to |order|
      invariant defs == Flatten(parts[..i])
    {
      var dev := order[i];
      var part := RebuildNulls(files, dev, if dev in noTime then noTime[dev] else []);
      FlattenPrefix(parts, i);
      defs := defs + part;
    }
    assert parts[..|order|] == parts;
  }

  /** rebuildAllCrossDevice up to the write. cancelled is the one context check, after the files are
      sorted; a cancelled rebuild hands nothing to the store. */
  method RebuildCrossDevice(files: seq<File>, embeds: map<int, Embedding>, gap: int, threshold: real, cancelled: bool)
    returns (ok: bool, defs: seq<ClusterDef>)
    requires DistinctFiles(files)
    ensures ok == !cancelled
    ensures ok ==> defs == CrossDefs(files, embeds, gap, threshold)
  {
    var skew := EstimateSkew(files, embeds);
    var filed := FileAll(files, embeds, skew);
    if cancelled {
      return false, [];
    }
    var merged := RebuildMerged(files, filed.timed, embeds, skew, gap, threshold);
    var loose := LooseLoop(files, filed.noEmb, filed.order, embeds, gap);
    var nulls := NullLoop(files, filed.noTime, filed.order);
    ok, defs := true, merged + loose + nulls;
  }
}
