/** Files without a device key: EstimateSkew skips them, and the rebuild files them under "Unknown". */
module Keyless {
  import opened Seqs
  import opened Reach
  import opened Strings
  import opened Visual
  import opened Timeline
  import opened Defs
  import opened Skew
  import opened SkewEstimate
  import opened PerDevice
  import opened PerDeviceTheorems
  import opened CrossDevice
  import opened CrossDeviceTheorems
  import opened CrossDeviceShape
  import opened CrossDeviceLabels
  import opened Rebuild

  predicate HasNoKey(f: File) {
    f.deviceKey.None? || f.deviceKey.value == ""
  }

  // ------------------------------------------------- the offset of "Unknown"

  /** The deltas of a device against a reference, from the usable files of both. */
  function DeltasAgainst(files: seq<File>, embeds: map<int, Embedding>, ref: string, d: string): seq<int> {
    NaiveDeltas(Entries(files, embeds, ref), Entries(files, embeds, d), embeds)
  }

  /** A device is off: it has usable files, is not the reference, and enough of its shots match the
      reference's, with a median delta other than 0. */
  ghost predicate Off(files: seq<File>, embeds: map<int, Embedding>, d: string) {
    && (exists f :: f in files && Usable(f, embeds) && f.deviceKey.value == d)
    && exists ref ::
         && IsReference(files, embeds, ref) && ref != d
         && |DeltasAgainst(files, embeds, ref, d)| >= MIN_ANCHORS && Median(DeltasAgainst(files, embeds, ref, d)) != 0
  }

  lemma SkewDevice(files: seq<File>, embeds: map<int, Embedding>, d: string)
    ensures d in SkewDevices(files, embeds) <==> exists f :: f in files && Usable(f, embeds) && f.deviceKey.value == d
  {
  }

  /** The estimate moves the files of a device exactly when the device is off. */
  lemma OffIff(files: seq<File>, embeds: map<int, Embedding>, d: string)
    ensures Offset(SkewOf(files, embeds), d) != 0 <==> Off(files, embeds, d)
  {
    SkewDevice(files, embeds, d);
    var devs := SkewDevices(files, embeds);
    if d in devs {
      var ref := ReferenceOf(files, embeds);
      forall r | IsReference(files, embeds, r)
        ensures r == ref
      {
        ReferenceUnique(files, embeds, r, ref);
      }
      if ref != d {
        SubsetSize({ref, d}, devs);
      }
    }
  }

  // -------------------------------------------------- where a shot is walked

  /** The shots the two timed passes of a cross-device rebuild walk over. */
  ghost predicate Walked(files: seq<File>, embeds: map<int, Embedding>, g: RunFile) {
    || g in MergedTimeline(files, embeds, SkewOf(files, embeds))
    || exists dev :: dev in Devices(files) && g in LooseTimeline(Runs(files), embeds, dev)
  }

  /** A timed file is walked over once: at its corrected time with an embedding, at its own without. */
  lemma WalkedAs(files: seq<File>, embeds: map<int, Embedding>, f: RunFile, g: RunFile)
    requires DistinctFiles(files) && f in Everything(files) && f.at.Some? && g.id == f.id
    ensures Walked(files, embeds, g) <==> g == if f.id in embeds then Align(f, SkewOf(files, embeds)) else f
  {
    var all, skew := Everything(files), SkewOf(files, embeds);
    EverythingDistinct(files);
    MergedTimelineFacts(files, embeds, skew);
    var s := MergedTimeline(files, embeds, skew);
    if g in s {
      assert g in ToSet(s);
      var h := Unaligned(all, embeds, skew, g);
      assert h == f;
    }
    if dev :| dev in Devices(files) && g in LooseTimeline(Runs(files), embeds, dev) {
      LooseTimelineFacts(files, embeds, dev);
      assert g in ToSet(LooseTimeline(Runs(files), embeds, dev));
    }
    if f.id in embeds {
      assert Align(f, skew) in ToSet(s);
    } else {
      var i := DeviceListed(files, f);
      LooseTimelineFacts(files, embeds, f.device);
      assert f in ToSet(LooseTimeline(Runs(files), embeds, f.device));
    }
  }

  /** A timed file without a device key takes no part in the estimate. The rebuild walks over it at another
      time than its own exactly when it has an embedding and a device really called "Unknown" is off. */
  lemma KeylessMovedIff(files: seq<File>, embeds: map<int, Embedding>, f: File, g: RunFile)
    requires DistinctFiles(files) && f in files && f.capturedAt.Some? && HasNoKey(f)
    requires Walked(files, embeds, g) && g.id == f.id
    ensures !Usable(f, embeds) && g.device == "Unknown"
    ensures g.at != f.capturedAt <==> f.id in embeds && Off(files, embeds, "Unknown")
  {
    var i :| 0 <= i < |files| && files[i] == f;
    assert Runs(files)[i] == Run(f);
    WalkedAs(files, embeds, Run(f), g);
    OffIff(files, embeds, "Unknown");
  }

  // ---------------------------------------------------------------- a library

  /** A shot with no other within the gap on the corrected timeline becomes a cluster of its own, at its
      corrected time. */
  lemma AloneHandedOver(files: seq<File>, embeds: map<int, Embedding>, gap: int, threshold: real, f: RunFile)
    requires DistinctFiles(files) && f in Everything(files) && Anchored(embeds)(f)
    requires MergedBucket(Everything(files), embeds, SkewOf(files, embeds), gap, f) == {Align(f, SkewOf(files, embeds))}
    ensures ClusterDef(f.device, Align(f, SkewOf(files, embeds)).at, [f.id]) in CrossDefs(files, embeds, gap, threshold)
  {
    var d := DefOf(files, embeds, gap, threshold, f);
    OnlyMember(files, embeds, gap, threshold, d, f);
    AloneStart(files, embeds, gap, threshold, d, f);
    AloneKey(files, embeds, gap, threshold, d, f);
  }

  lemma AloneStart(files: seq<File>, embeds: map<int, Embedding>, gap: int, threshold: real, d: ClusterDef, f: RunFile)
    requires DistinctFiles(files) && f in Everything(files) && f.id in d.members
    requires d in MergedDefs(Runs(files), embeds, SkewOf(files, embeds), gap, threshold)
    requires MergedBucket(Everything(files), embeds, SkewOf(files, embeds), gap, f) == {Align(f, SkewOf(files, embeds))}
    ensures d.bucket == Align(f, SkewOf(files, embeds)).at
  {
    MergedLabel(files, embeds, gap, threshold, d, f);
  }

  lemma AloneKey(files: seq<File>, embeds: map<int, Embedding>, gap: int, threshold: real, d: ClusterDef, f: RunFile)
    requires DistinctFiles(files) && f in Everything(files) && d.members == [f.id]
    requires d in MergedDefs(Runs(files), embeds, SkewOf(files, embeds), gap, threshold)
    ensures d.device == f.device
  {
    MergedTag(files, embeds, gap, threshold, d);
    EverythingDistinct(files);
  }

  /** The definition of a shot on the corrected timeline. */
  lemma DefOf(files: seq<File>, embeds: map<int, Embedding>, gap: int, threshold: real, f: RunFile)
    returns (d: ClusterDef)
    requires DistinctFiles(files) && f in Everything(files) && Anchored(embeds)(f)
    ensures d in MergedDefs(Runs(files), embeds, SkewOf(files, embeds), gap, threshold) && f.id in d.members
    ensures d in CrossDefs(files, embeds, gap, threshold) && NoDup(d.members)
  {
    var skew := SkewOf(files, embeds);
    var defs := MergedDefs(Runs(files), embeds, skew, gap, threshold);
    MergedPartition(files, embeds, skew, gap, threshold);
    assert Align(f, skew) in Aligned(Everything(files), embeds, skew);
    assert f.id in IdSet(Aligned(Everything(files), embeds, skew));
    var i :| 0 <= i < |defs| && f.id in defs[i].members;
    d := defs[i];
  }

  /** The members of a merged definition lie in the bucket of each of them. */
  lemma MemberInBucket(files: seq<File>, embeds: map<int, Embedding>, gap: int, threshold: real, d: ClusterDef,
      f: RunFile, x: int)
    requires DistinctFiles(files) && f in Everything(files) && f.id in d.members && x in d.members
    requires d in MergedDefs(Runs(files), embeds, SkewOf(files, embeds), gap, threshold)
    ensures x in IdSet(MergedBucket(Everything(files), embeds, SkewOf(files, embeds), gap, f))
  {
    var b, k := MergedDefOrigin(files, embeds, gap, threshold, d);
    var bucket := SkewedBuckets(files, embeds, gap)[b];
    MergedMember(files, embeds, gap, threshold, b, k, f);
    MergedBucketIs(files, embeds, SkewOf(files, embeds), gap, b, f);
    GroupsCanonical(IdSet(ToSet(bucket)), embeds, threshold);
    assert x in Groups(IdSet(ToSet(bucket)), embeds, threshold)[k];
  }

  lemma OnlyMember(files: seq<File>, embeds: map<int, Embedding>, gap: int, threshold: real, d: ClusterDef, f: RunFile)
    requires DistinctFiles(files) && f in Everything(files) && f.id in d.members && NoDup(d.members)
    requires d in MergedDefs(Runs(files), embeds, SkewOf(files, embeds), gap, threshold)
    requires MergedBucket(Everything(files), embeds, SkewOf(files, embeds), gap, f) == {Align(f, SkewOf(files, embeds))}
    ensures d.members == [f.id]
  {
    forall x | x in d.members
      ensures x == f.id
    {
      MemberInBucket(files, embeds, gap, threshold, d, f, x);
    }
    OneElement(d.members, f.id);
  }

  lemma OneElement(s: seq<int>, x: int)
    requires NoDup(s) && x in s && forall y | y in s :: y == x
    ensures s == [x]
  {
    SetSize(s);
    assert ToSet(s) == {x};
  }

  /** Nothing else within the gap: the bucket is the shot alone. */
  lemma Isolated(all: set<RunFile>, embeds: map<int, Embedding>, skew: map<string, int>, gap: int, f: RunFile)
    requires f in all && Anchored(embeds)(f)
    requires forall h | h in Aligned(all, embeds, skew) && h != Align(f, skew) :: !Near(gap)(h, Align(f, skew))
    ensures MergedBucket(all, embeds, skew, gap, f) == {Align(f, skew)}
  {
    var nodes, a := Aligned(all, embeds, skew), Align(f, skew);
    assert a in nodes;
    ConnectedSelf(nodes, Near(gap), a);
    NearSymmetric(gap);
    var mark := map h | h in nodes :: h == a;
    forall h | h in MergedBucket(all, embeds, skew, gap, f)
      ensures h == a
    {
      ConnectedLabel(nodes, Near(gap), mark, a, h);
    }
  }

  /** Three frames of one camera, the same frame once more from a camera called "Unknown" whose clock is a
      minute ahead, and another frame without a device key. */
  function KeylessFiles(): seq<File> {
    [File(1, Some("A"), Some(0)), File(2, Some("A"), Some(0)), File(3, Some("A"), Some(0))] +
    [File(4, Some("Unknown"), Some(60)), File(5, None, Some(100))]
  }

  function Frames(): map<int, Embedding> {
    map[1 := [1.0], 2 := [1.0], 3 := [1.0], 4 := [1.0], 5 := [0.0]]
  }

  lemma KeylessEntries()
    ensures Entries(KeylessFiles(), Frames(), "A") == [SkewEntry(1, 0), SkewEntry(2, 0), SkewEntry(3, 0)]
    ensures Entries(KeylessFiles(), Frames(), "Unknown") == [SkewEntry(4, 60)]
  {
    var a, b, c := File(1, Some("A"), Some(0)), File(2, Some("A"), Some(0)), File(3, Some("A"), Some(0));
    var d, e := File(4, Some("Unknown"), Some(60)), File(5, None, Some(100));
    var onA, onU := EntryOf(Frames(), "A"), EntryOf(Frames(), "Unknown");
    FlatMapConcat([a, b, c], [d, e], onA);
    FlatMapConcat([a, b, c], [d, e], onU);
    FlatMapThree(a, b, c, onA);
    FlatMapThree(a, b, c, onU);
    FlatMapTwo(d, e, onA);
    FlatMapTwo(d, e, onU);
  }

  lemma KeylessDeltas()
    ensures NaiveDeltas([SkewEntry(1, 0), SkewEntry(2, 0), SkewEntry(3, 0)], [SkewEntry(4, 60)], Frames())
              == [60, 60, 60]
  {
    var row := RowOf([SkewEntry(4, 60)], Frames());
    assert Similarity([1.0], [1.0]) == 1.0;
    forall i | 1 <= i <= 3
      ensures row(SkewEntry(i, 0)) == [60]
    {
      assert [SkewEntry(4, 60)][1..] == [];
      assert Anchors(SkewEntry(i, 0), SkewEntry(4, 60), Frames());
    }
    FlatMapThree(SkewEntry(1, 0), SkewEntry(2, 0), SkewEntry(3, 0), row);
  }

  lemma KeylessDevices()
    ensures SkewDevices(KeylessFiles(), Frames()) == {"A", "Unknown"}
    ensures |SkewDevices(KeylessFiles(), Frames())| == 2
  {
    var files := KeylessFiles();
    assert files[0] in files && files[3] in files;
    assert "A" != "Unknown";
  }

  lemma KeylessReference()
    ensures IsReference(KeylessFiles(), Frames(), "A")
  {
    KeylessDevices();
    KeylessEntries();
    var le := RefLe(KeylessFiles(), Frames());
    assert le("A", "Unknown");
    StrLeReflexive("A");
    assert le("A", "A");
  }

  lemma KeylessOffsets()
    ensures Offset(SkewOf(KeylessFiles(), Frames()), "Unknown") == 60
    ensures Offset(SkewOf(KeylessFiles(), Frames()), "A") == 0
  {
    KeylessDevices();
    KeylessReference();
    KeylessDeltas();
    assert NaiveDeltas(Entries(KeylessFiles(), Frames(), "A"), Entries(KeylessFiles(), Frames(), "Unknown"), Frames())
        == [60, 60, 60] by {
      KeylessEntries();
    }
    assert multiset([60, 60, 60])[60] == 3;
    SkewMajority(KeylessFiles(), Frames(), "A", "Unknown", 60);
    SkewBounds(KeylessFiles(), Frames(), "A");
  }

  lemma KeylessDistinct()
    ensures DistinctFiles(KeylessFiles())
    ensures forall f | f in Everything(KeylessFiles()) && f.id != 5 ::
              (f.at == Some(0) && f.device == "A") || (f.at == Some(60) && f.device == "Unknown")
    ensures RunFile(5, "Unknown", Some(100)) in Everything(KeylessFiles())
    ensures forall f | f in Everything(KeylessFiles()) && f.id == 5 :: f == RunFile(5, "Unknown", Some(100))
  {
    var r := Runs(KeylessFiles());
    assert r[4] in r;
  }

  lemma KeylessAlone(skew: map<string, int>)
    requires Offset(skew, "Unknown") == 60 && Offset(skew, "A") == 0
    ensures Align(RunFile(5, "Unknown", Some(100)), skew) == RunFile(5, "Unknown", Some(40))
    ensures MergedBucket(Everything(KeylessFiles()), Frames(), skew, 5, RunFile(5, "Unknown", Some(100)))
            == {RunFile(5, "Unknown", Some(40))}
  {
    var all, f := Everything(KeylessFiles()), RunFile(5, "Unknown", Some(100));
    KeylessDistinct();
    forall h | h in Aligned(all, Frames(), skew) && h != Align(f, skew)
      ensures !Near(5)(h, Align(f, skew))
    {
      var g := Unaligned(all, Frames(), skew, h);
      assert g.id != 5;
    }
    Isolated(all, Frames(), skew, 5, f);
  }

  /** With them the file without a key is handed over a minute early, by the clock of a camera it was not
      taken with. */
  lemma KeylessInput(threshold: real)
    ensures DistinctFiles(KeylessFiles()) && KeylessFiles()[4] == File(5, None, Some(100))
    ensures ClusterDef("Unknown", Some(40), [5]) in RebuildDefs(KeylessFiles(), Frames(), 5, threshold, true)
  {
    KeylessDistinct();
    KeylessOffsets();
    KeylessAlone(SkewOf(KeylessFiles(), Frames()));
    AloneHandedOver(KeylessFiles(), Frames(), 5, threshold, RunFile(5, "Unknown", Some(100)));
    assert 1 in Frames();
    CrossMode(KeylessFiles(), Frames(), 5, threshold);
  }
}
