/** EstimateSkew of skew.go: the offset of every device against the reference device. */
module SkewEstimate {
  import opened Seqs
  import opened Strings
  import opened Visual
  import opened Defs
  import opened Skew

  // -------------------------------------------------------- specification

  /** A file takes part when it names a device, has a time and has an embedding. */
  predicate Usable(f: File, embeds: map<int, Embedding>) {
    f.deviceKey.Some? && f.deviceKey.value != "" && f.capturedAt.Some? && f.id in embeds
  }

  function EntryOf(embeds: map<int, Embedding>, dev: string): File -> seq<SkewEntry> {
    (f: File) => if Usable(f, embeds) && f.deviceKey.value == dev then [SkewEntry(f.id, f.capturedAt.value)] else []
  }

  function Entries(files: seq<File>, embeds: map<int, Embedding>, dev: string): seq<SkewEntry> {
    FlatMap(files, EntryOf(embeds, dev))
  }

  function SkewDevices(files: seq<File>, embeds: map<int, Embedding>): set<string> {
    set f | f in files && Usable(f, embeds) :: f.deviceKey.value
  }

  /** Larger devices first; among equals the alphabetically first. */
  function RefLe(files: seq<File>, embeds: map<int, Embedding>): (string, string) -> bool {
    (a: string, b: string) =>
      |Entries(files, embeds, a)| > |Entries(files, embeds, b)|
      || (|Entries(files, embeds, a)| == |Entries(files, embeds, b)| && StrLe(a, b))
  }

  ghost predicate IsReference(files: seq<File>, embeds: map<int, Embedding>, ref: string) {
    ref in SkewDevices(files, embeds) && forall d | d in SkewDevices(files, embeds) :: RefLe(files, embeds)(ref, d)
  }

  lemma RefLePreorder(files: seq<File>, embeds: map<int, Embedding>)
    ensures TotalPreorder(RefLe(files, embeds))
  {
    KeyLePreorder();
    forall a, b
      ensures RefLe(files, embeds)(a, b) || RefLe(files, embeds)(b, a)
    {
      StrLeTotal(a, b);
    }
    forall a, b, c | RefLe(files, embeds)(a, b) && RefLe(files, embeds)(b, c)
      ensures RefLe(files, embeds)(a, c)
    {
      if StrLe(a, b) && StrLe(b, c) {
        StrLeTransitive(a, b, c);
      }
    }
  }

  lemma ReferenceUnique(files: seq<File>, embeds: map<int, Embedding>, a: string, b: string)
    requires IsReference(files, embeds, a) && IsReference(files, embeds, b)
    ensures a == b
  {
    StrLeTotal(a, b);
  }

  ghost function ReferenceOf(files: seq<File>, embeds: map<int, Embedding>): (ref: string)
    requires SkewDevices(files, embeds) != {}
    ensures IsReference(files, embeds, ref)
  {
    assert exists ref :: IsReference(files, embeds, ref) by {
      RefLePreorder(files, embeds);
      var ref := LeastElement(SkewDevices(files, embeds), RefLe(files, embeds));
      assert IsReference(files, embeds, ref);
    }
    var ref :| IsReference(files, embeds, ref);
    ref
  }

  function OffsetFrom(deltas: seq<int>): int {
    if |deltas| < MIN_ANCHORS then 0 else Median(deltas)
  }

  function OffsetOf(files: seq<File>, embeds: map<int, Embedding>, ref: string, d: string): int {
    if d == ref then 0 else OffsetFrom(NaiveDeltas(Entries(files, embeds, ref), Entries(files, embeds, d), embeds))
  }

  /** The offset of every device that has usable files; empty when there is nothing to align. */
  ghost function SkewOf(files: seq<File>, embeds: map<int, Embedding>): map<string, int> {
    var devs := SkewDevices(files, embeds);
    if |devs| < 2 then map[]
    else
      assert devs != {};
      map d | d in devs :: OffsetOf(files, embeds, ReferenceOf(files, embeds), d)
  }

  // ------------------------------------------------------ implementation

  lemma EntriesSnoc(files: seq<File>, embeds: map<int, Embedding>, i: nat, dev: string)
    requires i < |files|
    ensures Entries(files[..i + 1], embeds, dev) == Entries(files[..i], embeds, dev) + EntryOf(embeds, dev)(files[i])
  {
    assert files[..i + 1] == files[..i] + [files[i]];
    FlatMapConcat(files[..i], [files[i]], EntryOf(embeds, dev));
    FlatMapOne(files[i], EntryOf(embeds, dev));
  }

  /** byDevice holds each device's usable files, in order. */
  ghost predicate SplitOf(byDevice: map<string, seq<SkewEntry>>, files: seq<File>, embeds: map<int, Embedding>) {
    && byDevice.Keys == SkewDevices(files, embeds)
    && forall dev :: Entries(files, embeds, dev) == EntriesIn(byDevice, dev)
  }

  function EntriesIn(byDevice: map<string, seq<SkewEntry>>, dev: string): seq<SkewEntry> {
    if dev in byDevice then byDevice[dev] else []
  }

  /** The map after one file. */
  function WithFile(byDevice: map<string, seq<SkewEntry>>, f: File, embeds: map<int, Embedding>): map<string,
      seq<SkewEntry>> {
    if !Usable(f, embeds) then byDevice
    else byDevice[f.deviceKey.value := EntriesIn(byDevice, f.deviceKey.value) + [SkewEntry(f.id, f.capturedAt.value)]]
  }

  lemma SplitStep(byDevice: map<string, seq<SkewEntry>>, files: seq<File>, embeds: map<int, Embedding>, i: nat)
    requires i < |files| && SplitOf(byDevice, files[..i], embeds)
    ensures SplitOf(WithFile(byDevice, files[i], embeds), files[..i + 1], embeds)
  {
    var f := files[i];
    var after := WithFile(byDevice, f, embeds);
    assert files[..i + 1] == files[..i] + [f];
    assert SkewDevices(files[..i + 1], embeds)
        == SkewDevices(files[..i], embeds) + if Usable(f, embeds) then {f.deviceKey.value} else {};
    forall dev
      ensures Entries(files[..i + 1], embeds, dev) == EntriesIn(after, dev)
    {
      EntriesSnoc(files, embeds, i, dev);
      assert Entries(files[..i], embeds, dev) == EntriesIn(byDevice, dev);
      assert EntriesIn(after, dev) == EntriesIn(byDevice, dev) + EntryOf(embeds, dev)(f);
    }
  }

  lemma SplitFacts(byDevice: map<string, seq<SkewEntry>>, files: seq<File>, embeds: map<int, Embedding>)
    requires SplitOf(byDevice, files, embeds)
    ensures byDevice.Keys == SkewDevices(files, embeds)
    ensures forall dev | dev in byDevice :: byDevice[dev] == Entries(files, embeds, dev)
  {
    forall dev | dev in byDevice
      ensures byDevice[dev] == Entries(files, embeds, dev)
    {
      assert Entries(files, embeds, dev) == EntriesIn(byDevice, dev);
    }
  }

  method SplitEntries(files: seq<File>, embeds: map<int, Embedding>) returns (byDevice: map<string, seq<SkewEntry>>)
    ensures SplitOf(byDevice, files, embeds)
  {
    byDevice := map[];
    for i := 0 to |files|
      invariant SplitOf(byDevice, files[..i], embeds)
    {
      SplitStep(byDevice, files, embeds, i);
      var f := files[i];
      if Usable(f, embeds) {
        var dev := f.deviceKey.value;
        var entries := if dev in byDevice then byDevice[dev] else [];
        byDevice := byDevice[dev := entries + [SkewEntry(f.id, f.capturedAt.value)]];
      }
    }
    assert files[..|files|] == files;
  }

  method SortedDevices(keys: set<string>) returns (devs: seq<string>)
    ensures SortedBy(devs, KeyLe()) && forall d :: d in devs <==> d in keys
  {
    KeyLePreorder();
    var order: seq<string> := [];
    var rest := keys;
    while rest != {}
      invariant rest <= keys
      invariant forall d :: d in order <==> d in keys - rest
      decreases rest
    {
      ghost var some := SomeElement(rest);
      var d :| d in rest;
      order := order + [d];
      rest := rest - {d};
    }
    devs := SortSlice(order, KeyLe());
    SameMultiset(order, devs);
  }

  /** Among the devices up to i the later one wins only with more entries. */
  lemma ReferenceStep(files: seq<File>, embeds: map<int, Embedding>, devs: seq<string>, i: nat, at: nat)
    requires i < |devs| && at < |devs| && (at < i || at == 0) && SortedBy(devs, KeyLe())
    requires forall k | 0 <= k < i :: RefLe(files, embeds)(devs[at], devs[k])
    ensures var more := |Entries(files, embeds, devs[i])| > |Entries(files, embeds, devs[at])|;
            forall k | 0 <= k <= i :: RefLe(files, embeds)(if more then devs[i] else devs[at], devs[k])
  {
    RefLePreorder(files, embeds);
    StrLeReflexive(devs[i]);
    assert at < i ==> KeyLe()(devs[at], devs[i]);
  }

  /** The first device of maximal size in alphabetical order. */
  method PickReference(files: seq<File>, embeds: map<int, Embedding>, devs: seq<string>,
      byDevice: map<string, seq<SkewEntry>>)
    returns (ref: string)
    requires |devs| > 0 && SortedBy(devs, KeyLe()) && forall d :: d in devs <==> d in SkewDevices(files, embeds)
    requires forall d | d in devs :: d in byDevice && |byDevice[d]| == |Entries(files, embeds, d)|
    ensures IsReference(files, embeds, ref)
  {
    assert devs[0] in devs;
    ref := devs[0];
    ghost var at := 0;
    for i := 0 to |devs|
      invariant 0 <= at < |devs| && devs[at] == ref && (at < i || at == 0)
      invariant forall k | 0 <= k < i :: RefLe(files, embeds)(ref, devs[k])
    {
      var d := devs[i];
      assert d in devs;
      ReferenceStep(files, embeds, devs, i, at);
      if |byDevice[d]| > |byDevice[ref]| {
        ref, at := d, i;
      }
    }
  }

  lemma DeltasPermuted(r: seq<SkewEntry>, r': seq<SkewEntry>, o: seq<SkewEntry>, o': seq<SkewEntry>,
      embeds: map<int, Embedding>)
    requires multiset(r) == multiset(r') && multiset(o) == multiset(o')
    ensures multiset(NaiveDeltas(r, o, embeds)) == multiset(NaiveDeltas(r', o', embeds))
  {
    FlatMapPermuted(r, r', RowOf(o, embeds));
    forall x | x in r'
      ensures multiset(RowOf(o, embeds)(x)) == multiset(RowOf(o', embeds)(x))
    {
      FlatMapPermuted(o, o', DeltaOf(x, embeds));
    }
    FlatMapPointwise(r', RowOf(o, embeds), RowOf(o', embeds));
  }

  lemma OffsetPermuted(a: seq<int>, b: seq<int>)
    requires multiset(a) == multiset(b)
    ensures OffsetFrom(a) == OffsetFrom(b)
  {
    assert |multiset(a)| == |multiset(b)|;
    if |a| > 0 {
      MedianPermuted(a, b);
    }
  }

  method DeviceOffset(ref: seq<SkewEntry>, other: seq<SkewEntry>, embeds: map<int, Embedding>) returns (offset: int)
    requires SortedBy(ref, TimeLe()) && SortedBy(other, TimeLe())
    ensures offset == OffsetFrom(NaiveDeltas(ref, other, embeds))
  {
    var deltas := PairDeltas(ref, other, embeds);
    if |deltas| < MIN_ANCHORS {
      return 0;
    }
    offset := MedianInt64(deltas);
  }

  /** a is b put in time order. */
  ghost predicate Arranged(a: seq<SkewEntry>, b: seq<SkewEntry>) {
    SortedBy(a, TimeLe()) && multiset(a) == multiset(b) && |a| == |b|
  }

  /** Sorts every device's entries by time; ties may land in any order. */
  method SortEntries(byDevice: map<string, seq<SkewEntry>>, devs: seq<string>)
    returns (sorted: map<string, seq<SkewEntry>>)
    requires forall d | d in devs :: d in byDevice
    ensures forall d | d in devs :: d in sorted && Arranged(sorted[d], byDevice[d])
  {
    sorted := map[];
    for i := 0 to |devs|
      invariant forall k | 0 <= k < i :: devs[k] in sorted && Arranged(sorted[devs[k]], byDevice[devs[k]])
    {
      var list := SortSlice(byDevice[devs[i]], TimeLe());
      assert |multiset(list)| == |multiset(byDevice[devs[i]])|;
      sorted := sorted[devs[i] := list];
    }
  }

  lemma SortedOffset(files: seq<File>, embeds: map<int, Embedding>, ref: string, d: string, r: seq<SkewEntry>,
      o: seq<SkewEntry>)
    requires multiset(r) == multiset(Entries(files, embeds, ref)) && multiset(o) == multiset(Entries(files, embeds, d))
    requires d != ref
    ensures OffsetFrom(NaiveDeltas(r, o, embeds)) == OffsetOf(files, embeds, ref, d)
  {
    DeltasPermuted(r, Entries(files, embeds, ref), o, Entries(files, embeds, d), embeds);
    OffsetPermuted(NaiveDeltas(r, o, embeds), NaiveDeltas(Entries(files, embeds, ref), Entries(files, embeds, d),
        embeds));
  }

  /** The loop over the devices: the reference keeps 0, every other device gets its offset. */
  method AlignDevices(ghost files: seq<File>, embeds: map<int, Embedding>, devs: seq<string>,
      sorted: map<string, seq<SkewEntry>>, ref: string)
    returns (result: map<string, int>)
    requires ref in devs && forall d | d in devs :: d in sorted
    requires forall d | d in devs :: Arranged(sorted[d], Entries(files, embeds, d))
    ensures result.Keys == ToSet(devs)
    ensures forall d | d in result :: result[d] == OffsetOf(files, embeds, ref, d)
  {
    result := map[ref := 0];
    for i := 0 to |devs|
      invariant ref in result && forall d | d in result :: d in devs && result[d] == OffsetOf(files, embeds, ref, d)
      invariant forall k | 0 <= k < i :: devs[k] in result
    {
      var d := devs[i];
      assert d in devs;
      if d != ref {
        var offset := DeviceOffset(sorted[ref], sorted[d], embeds);
        SortedOffset(files, embeds, ref, d, sorted[ref], sorted[d]);
        result := result[d := offset];
      }
    }
  }

  lemma SkewOfIs(files: seq<File>, embeds: map<int, Embedding>, ref: string, result: map<string, int>)
    requires |SkewDevices(files, embeds)| >= 2 && IsReference(files, embeds, ref)
    requires result.Keys == SkewDevices(files, embeds)
    requires forall d | d in result :: result[d] == OffsetOf(files, embeds, ref, d)
    ensures result == SkewOf(files, embeds)
  {
    assert SkewDevices(files, embeds) != {};
    ReferenceUnique(files, embeds, ref, ReferenceOf(files, embeds));
  }

  /** Sorts each device's entries, picks the reference and aligns everyone with it. */
  method AlignAll(files: seq<File>, embeds: map<int, Embedding>, devs: seq<string>,
      byDevice: map<string, seq<SkewEntry>>)
    returns (ref: string, result: map<string, int>)
    requires |devs| > 0 && SortedBy(devs, KeyLe()) && forall d :: d in devs <==> d in SkewDevices(files, embeds)
    requires forall d | d in devs :: d in byDevice && byDevice[d] == Entries(files, embeds, d)
    ensures IsReference(files, embeds, ref) && result.Keys == SkewDevices(files, embeds)
    ensures forall d | d in result :: result[d] == OffsetOf(files, embeds, ref, d)
  {
    var sorted := SortEntries(byDevice, devs);
    forall d | d in devs
      ensures d in sorted && Arranged(sorted[d], Entries(files, embeds, d))
    {
      assert Arranged(sorted[d], byDevice[d]);
    }
    ref := PickReference(files, embeds, devs, byDevice);
    result := AlignDevices(files, embeds, devs, sorted, ref);
  }

  /** EstimateSkew. The result is a function of the files and embeddings: neither the map iteration
      order nor the order of equal times in the unstable sorts can show. */
  method EstimateSkew(files: seq<File>, embeds: map<int, Embedding>) returns (result: map<string, int>)
    ensures result == SkewOf(files, embeds)
  {
    var byDevice := SplitEntries(files, embeds);
    SplitFacts(byDevice, files, embeds);
    if |byDevice.Keys| < 2 {
      return map[];
    }
    var devs := SortedDevices(byDevice.Keys);
    ghost var some := SomeElement(byDevice.Keys);
    assert some in devs;
    var ref;
    ref, result := AlignAll(files, embeds, devs, byDevice);
    SkewOfIs(files, embeds, ref, result);
  }

  // ------------------------------------------------------------ properties

  lemma DevicesPermuted(files: seq<File>, files': seq<File>, embeds: map<int, Embedding>)
    requires multiset(files) == multiset(files')
    ensures SkewDevices(files, embeds) == SkewDevices(files', embeds)
  {
    SameMultiset(files, files');
  }

  lemma EntriesPermuted(files: seq<File>, files': seq<File>, embeds: map<int, Embedding>, dev: string)
    requires multiset(files) == multiset(files')
    ensures multiset(Entries(files, embeds, dev)) == multiset(Entries(files', embeds, dev))
    ensures |Entries(files, embeds, dev)| == |Entries(files', embeds, dev)|
  {
    FlatMapPermuted(files, files', EntryOf(embeds, dev));
    assert |multiset(Entries(files, embeds, dev))| == |multiset(Entries(files', embeds, dev))|;
  }

  /** The estimate does not depend on the order in which files are listed. */
  lemma SkewOrderIndependent(files: seq<File>, files': seq<File>, embeds: map<int, Embedding>)
    requires multiset(files) == multiset(files')
    ensures SkewOf(files, embeds) == SkewOf(files', embeds)
  {
    DevicesPermuted(files, files', embeds);
    var devs := SkewDevices(files, embeds);
    if |devs| >= 2 {
      assert devs != {};
      var ref, ref' := ReferenceOf(files, embeds), ReferenceOf(files', embeds);
      forall d | d in devs
        ensures RefLe(files, embeds)(ref', d)
      {
        EntriesPermuted(files, files', embeds, ref');
        EntriesPermuted(files, files', embeds, d);
        assert RefLe(files', embeds)(ref', d);
      }
      ReferenceUnique(files, embeds, ref, ref');
      forall d | d in devs
        ensures OffsetOf(files, embeds, ref, d) == OffsetOf(files', embeds, ref, d)
      {
        EntriesPermuted(files, files', embeds, ref);
        EntriesPermuted(files, files', embeds, d);
        DeltasPermuted(Entries(files, embeds, ref), Entries(files', embeds, ref), Entries(files, embeds, d),
                       Entries(files', embeds, d), embeds);
        OffsetPermuted(NaiveDeltas(Entries(files, embeds, ref), Entries(files, embeds, d), embeds),
                       NaiveDeltas(Entries(files', embeds, ref), Entries(files', embeds, d), embeds));
      }
    }
  }

  lemma DeltasInWindow(ref: seq<SkewEntry>, other: seq<SkewEntry>, embeds: map<int, Embedding>, x: int)
    requires x in NaiveDeltas(ref, other, embeds)
    ensures -MAX_SKEW_SEC <= x <= MAX_SKEW_SEC
  {
    FlatMapMember(ref, RowOf(other, embeds), x);
    var r :| r in ref && x in RowOf(other, embeds)(r);
    FlatMapMember(other, DeltaOf(r, embeds), x);
  }

  /** Every offset lies within an hour, and the reference device (the alphabetically first of maximal
      size) keeps its clock. */
  lemma SkewBounds(files: seq<File>, embeds: map<int, Embedding>, d: string)
    requires d in SkewOf(files, embeds)
    ensures -MAX_SKEW_SEC <= SkewOf(files, embeds)[d] <= MAX_SKEW_SEC
    ensures IsReference(files, embeds, d) ==> SkewOf(files, embeds)[d] == 0
  {
    assert SkewDevices(files, embeds) != {};
    var ref := ReferenceOf(files, embeds);
    var deltas := NaiveDeltas(Entries(files, embeds, ref), Entries(files, embeds, d), embeds);
    if IsReference(files, embeds, d) {
      ReferenceUnique(files, embeds, ref, d);
    }
    if d != ref && |deltas| >= MIN_ANCHORS {
      forall x | x in deltas
        ensures -MAX_SKEW_SEC <= x <= MAX_SKEW_SEC
      {
        DeltasInWindow(Entries(files, embeds, ref), Entries(files, embeds, d), embeds, x);
      }
      MedianInRange(deltas, -MAX_SKEW_SEC, MAX_SKEW_SEC);
    }
  }

  /** When more than half of a device's qualifying deltas, at least three, agree, they are its offset. */
  lemma SkewMajority(files: seq<File>, embeds: map<int, Embedding>, ref: string, d: string, delta: int)
    requires |SkewDevices(files, embeds)| >= 2 && IsReference(files, embeds, ref)
    requires d in SkewDevices(files, embeds) && d != ref
    requires |NaiveDeltas(Entries(files, embeds, ref), Entries(files, embeds, d), embeds)| >= MIN_ANCHORS
    requires 2 * multiset(NaiveDeltas(Entries(files, embeds, ref), Entries(files, embeds, d), embeds))[delta]
             > |NaiveDeltas(Entries(files, embeds, ref), Entries(files, embeds, d), embeds)|
    ensures d in SkewOf(files, embeds) && SkewOf(files, embeds)[d] == delta
  {
    assert SkewDevices(files, embeds) != {};
    ReferenceUnique(files, embeds, ref, ReferenceOf(files, embeds));
    MedianMajority(NaiveDeltas(Entries(files, embeds, ref), Entries(files, embeds, d), embeds), delta);
  }
}
