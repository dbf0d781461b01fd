/** What the definitions of a cross-device rebuild say beyond membership, and what a higher threshold does. */
module CrossDeviceLabels {
  import opened Seqs
  import opened Reach
  import opened Visual
  import opened BucketGroups
  import opened Timeline
  import opened Defs
  import opened PerDevice
  import opened PerDeviceTheorems
  import opened PerDeviceShape
  import opened SkewEstimate
  import opened CrossDevice
  import opened CrossDeviceTheorems
  import opened CrossDeviceShape

  // --------------------------------------------------------------- labels

  /** The files without embedding that f is grouped with. */
  ghost function LooseBucket(all: set<RunFile>, embeds: map<int, Embedding>, gap: int, f: RunFile): set<RunFile> {
    set g | g in Loose(all, embeds, f.device) && Connected(Loose(all, embeds, f.device), Near(gap), f, g)
  }

  lemma StartIsMinimum(s: seq<RunFile>, gap: int, b: nat)
    requires AllTimed(s) && InTimeOrder(s) && b < |GapBuckets(s, gap)|
    ensures |GapBuckets(s, gap)[b]| > 0 && GapBuckets(s, gap)[b][0].at.Some?
    ensures IsMinimumTime(GapBuckets(s, gap)[b][0].at.value, ToSet(GapBuckets(s, gap)[b]))
  {
    BucketStartIsMinimum(s, gap, b);
    var bucket := GapBuckets(s, gap)[b];
    assert bucket[0] in ToSet(bucket);
  }

  /** A definition of the merged timeline lists its members in ascending order and carries the smallest
      corrected time of their bucket. */
  lemma MergedLabel(files: seq<File>, embeds: map<int, Embedding>, gap: int, threshold: real, d: ClusterDef, f: RunFile)
    requires DistinctFiles(files) && f in Everything(files) && f.id in d.members
    requires d in MergedDefs(Runs(files), embeds, SkewOf(files, embeds), gap, threshold)
    ensures Anchored(embeds)(f) && Ascending(d.members) && d.bucket.Some?
    ensures IsMinimumTime(d.bucket.value, MergedBucket(Everything(files), embeds, SkewOf(files, embeds), gap, f))
  {
    var skew := SkewOf(files, embeds);
    var r := SkewedBuckets(files, embeds, gap);
    var b, k := MergedDefOrigin(files, embeds, gap, threshold, d);
    GroupAscending(IdSet(ToSet(r[b])), embeds, threshold, k);
    MergedMember(files, embeds, gap, threshold, b, k, f);
    MergedBucketIs(files, embeds, skew, gap, b, f);
    MergedTimelineFacts(files, embeds, skew);
    StartIsMinimum(MergedTimeline(files, embeds, skew), gap, b);
  }

  /** A fallback definition carries the smallest time of its bucket on its device's own clock. */
  lemma LooseLabel(files: seq<File>, embeds: map<int, Embedding>, gap: int, d: ClusterDef, f: RunFile)
    requires DistinctFiles(files) && f in Everything(files) && f.id in d.members
    requires d in Flatten(LoosePass(Runs(files), embeds, Devices(files), gap))
    ensures f.at.Some? && f.id !in embeds && d.bucket.Some?
    ensures IsMinimumTime(d.bucket.value, LooseBucket(Everything(files), embeds, gap, f))
  {
    var dev, b := LooseOrigin(files, embeds, gap, d);
    var s := LooseTimeline(Runs(files), embeds, dev);
    LooseTimelineFacts(files, embeds, dev);
    StartIsMinimum(s, gap, b);
    LooseMember(files, embeds, gap, dev, b, f);
    BucketIsComponent(s, gap, b, f);
  }

  lemma LooseMember(files: seq<File>, embeds: map<int, Embedding>, gap: int, dev: string, b: nat, f: RunFile)
    requires DistinctFiles(files) && b < |GapBuckets(LooseTimeline(Runs(files), embeds, dev), gap)|
    requires f in Everything(files) && f.id in IdsOf(GapBuckets(LooseTimeline(Runs(files), embeds, dev), gap)[b])
    ensures f in GapBuckets(LooseTimeline(Runs(files), embeds, dev), gap)[b] && LooseOn(embeds, dev)(f)
  {
    var s := LooseTimeline(Runs(files), embeds, dev);
    var bucket := GapBuckets(s, gap)[b];
    var i :| 0 <= i < |bucket| && IdsOf(bucket)[i] == f.id;
    assert bucket[i] in bucket;
    EverythingDistinct(files);
    LooseTimelineFacts(files, embeds, dev);
    BucketMembers(s, gap, b);
    assert bucket[i] in ToSet(s);
    assert bucket[i] == f;
  }

  lemma NullLabel(files: seq<File>, d: ClusterDef, f: RunFile)
    requires DistinctFiles(files) && f in Everything(files) && f.id in d.members
    requires d in Flatten(NullPass(Runs(files), Devices(files)))
    ensures f.at.None? && d.bucket.None? && d.members == [f.id]
  {
    var i, k := FlattenPosition(NullPass(Runs(files), Devices(files)), d);
    var t := NullTimeline(Runs(files), Devices(files)[i]);
    EverythingDistinct(files);
    NullTimelineFacts(files, Devices(files)[i]);
    assert t[k] in ToSet(t);
  }

  /** The label of every cluster of a cross-device rebuild: NULL exactly for files without a time; the
      smallest corrected time of their bucket for files with an embedding; the smallest time of their bucket
      on the device's own clock for files without. Only these can be listed out of order. */
  lemma CrossDeviceLabel(files: seq<File>, embeds: map<int, Embedding>, gap: int, threshold: real, d: ClusterDef,
      f: RunFile)
    requires DistinctFiles(files) && d in CrossDefs(files, embeds, gap, threshold)
    requires f in Everything(files) && f.id in d.members
    ensures d.bucket.None? <==> f.at.None?
    ensures f.at.Some? && f.id in embeds ==>
              IsMinimumTime(d.bucket.value, MergedBucket(Everything(files), embeds, SkewOf(files, embeds), gap, f))
    ensures f.at.Some? && f.id !in embeds ==>
              IsMinimumTime(d.bucket.value, LooseBucket(Everything(files), embeds, gap, f))
    ensures f.at.None? || f.id in embeds ==> Ascending(d.members)
  {
    if d in MergedDefs(Runs(files), embeds, SkewOf(files, embeds), gap, threshold) {
      MergedLabel(files, embeds, gap, threshold, d, f);
    } else if d in Flatten(LoosePass(Runs(files), embeds, Devices(files), gap)) {
      LooseLabel(files, embeds, gap, d, f);
    } else {
      NullLabel(files, d, f);
    }
  }

  // -------------------------------------------------- threshold refinement

  /** A group of devices and a part of it: the same tag, or the merged one. */
  lemma TagOfPart(part: set<string>, whole: set<string>)
    requires part != {} && part <= whole
    ensures Tag(whole) == Tag(part) || Tag(whole) == MERGED_DEVICE_KEY
  {
    TagFacts(part);
    TagFacts(whole);
    var one := SomeElement(part);
  }

  /** c absorbs d: all its members, the same bucket, and the same key unless c is tagged as merged. */
  ghost predicate Absorbs(c: ClusterDef, d: ClusterDef) {
    ToSet(d.members) <= ToSet(c.members) && c.bucket == d.bucket
    && (c.device == d.device || c.device == MERGED_DEVICE_KEY)
  }

  lemma EmitTaggedRefines(start: Option<int>, bucket: set<RunFile>, embeds: map<int, Embedding>, low: real, high: real,
      k: nat)
    returns (j: nat)
    requires low <= high && k < |EmitTagged(start, bucket, embeds, high)|
    ensures j < |EmitTagged(start, bucket, embeds, low)|
    ensures Absorbs(EmitTagged(start, bucket, embeds, low)[j], EmitTagged(start, bucket, embeds, high)[k])
  {
    var ids := IdSet(bucket);
    GroupsRefine(ids, embeds, low, high, k);
    j :| 0 <= j < |Groups(ids, embeds, low)|
      && ToSet(Groups(ids, embeds, high)[k]) <= ToSet(Groups(ids, embeds, low)[j]);
    var fine, coarse := Groups(ids, embeds, high)[k], Groups(ids, embeds, low)[j];
    GroupInside(ids, embeds, high, k);
    var h :| h in bucket && h.id == fine[0];
    assert h.device in DevicesIn(bucket, ToSet(fine));
    TagOfPart(DevicesIn(bucket, ToSet(fine)), DevicesIn(bucket, ToSet(coarse)));
  }

  /** Raising the threshold only splits clusters here too: each one lies inside a cluster of the lower
      threshold with the same bucket, which carries the same key unless it spans devices. */
  lemma CrossThresholdRefines(files: seq<File>, embeds: map<int, Embedding>, gap: int, low: real, high: real,
      d: ClusterDef)
    requires low <= high && d in CrossDefs(files, embeds, gap, high)
    ensures exists c :: c in CrossDefs(files, embeds, gap, low) && Absorbs(c, d)
  {
    if d in MergedDefs(Runs(files), embeds, SkewOf(files, embeds), gap, high) {
      var r: seq<seq<RunFile>> := SkewedBuckets(files, embeds, gap);
      var b, k := MergedDefOrigin(files, embeds, gap, high, d);
      var j := EmitTaggedRefines(r[b][0].at, ToSet(r[b]), embeds, low, high, k);
      var c := MergedParts(r, embeds, low)[b][j];
      FlattenMember(MergedParts(r, embeds, low), c);
      assert c in CrossDefs(files, embeds, gap, low);
    } else {
      assert d in CrossDefs(files, embeds, gap, low);
    }
  }
}
