/** Libraries of two files in cross-device mode. */
module CrossPairs {
  import opened Seqs
  import opened Reach
  import opened Visual
  import opened Timeline
  import opened Defs
  import opened PerDevice
  import opened PerDeviceTheorems
  import opened PerDeviceShape
  import opened Skew
  import opened SkewEstimate
  import opened CrossDevice
  import opened CrossDeviceTheorems
  import opened CrossDeviceShape
  import opened CrossDeviceLabels
  import opened Keyless
  import opened Pairs
  import opened Rebuild

  lemma FewDeltas(ref: seq<SkewEntry>, other: seq<SkewEntry>, embeds: map<int, Embedding>)
    requires |ref| + |other| <= 2
    ensures |NaiveDeltas(ref, other, embeds)| <= 2
  {
    forall r | r in ref
      ensures |RowOf(other, embeds)(r)| <= |other|
    {
      FlatMapAtMost(other, DeltaOf(r, embeds));
    }
    if |other| <= 1 {
      FlatMapAtMost(ref, RowOf(other, embeds));
    } else {
      assert ref == [];
    }
  }

  lemma FewEntries(f: File, g: File, embeds: map<int, Embedding>, d: string, e: string)
    requires d != e
    ensures |Entries([f, g], embeds, d)| + |Entries([f, g], embeds, e)| <= 2
  {
    FlatMapTwo(f, g, EntryOf(embeds, d));
    FlatMapTwo(f, g, EntryOf(embeds, e));
  }

  /** Two files are too few to correct a clock. */
  lemma NoOffset(f: File, g: File, embeds: map<int, Embedding>, d: string)
    ensures Offset(SkewOf([f, g], embeds), d) == 0
  {
    OffIff([f, g], embeds, d);
    forall ref | ref != d
      ensures |DeltasAgainst([f, g], embeds, ref, d)| <= 2
    {
      FewEntries(f, g, embeds, ref, d);
      FewDeltas(Entries([f, g], embeds, ref), Entries([f, g], embeds, d), embeds);
    }
  }

  lemma Unmoved(f: File, g: File, embeds: map<int, Embedding>, r: RunFile)
    ensures Align(r, SkewOf([f, g], embeds)) == r
  {
    NoOffset(f, g, embeds, r.device);
  }

  lemma AlignedPair(embeds: map<int, Embedding>, skew: map<string, int>, a: RunFile, b: RunFile)
    requires Anchored(embeds)(a) && Anchored(embeds)(b) && Align(a, skew) == a && Align(b, skew) == b
    ensures Aligned({a, b}, embeds, skew) == {a, b}
  {
    var nodes := Aligned({a, b}, embeds, skew);
    assert Align(a, skew) in nodes && Align(b, skew) in nodes;
  }

  lemma NearPair(embeds: map<int, Embedding>, skew: map<string, int>, gap: int, a: RunFile, b: RunFile)
    requires Anchored(embeds)(a) && Anchored(embeds)(b) && Align(a, skew) == a && Align(b, skew) == b && a != b
    ensures MergedBucket({a, b}, embeds, skew, gap, a) == if Near(gap)(a, b) then {a, b} else {a}
  {
    AlignedPair(embeds, skew, a, b);
    NearSymmetric(gap);
    ConnectedPair({a, b}, Near(gap), a, b);
    ConnectedSelf({a, b}, Near(gap), a);
  }

  lemma PairIds(a: RunFile, b: RunFile)
    ensures IdSet({a, b}) == {a.id, b.id}
  {
  }

  lemma SharesPair(embeds: map<int, Embedding>, skew: map<string, int>, gap: int, threshold: real, a: RunFile,
      b: RunFile)
    requires Anchored(embeds)(a) && Anchored(embeds)(b) && Align(a, skew) == a && Align(b, skew) == b && a.id != b.id
    ensures SharesVisually({a, b}, embeds, skew, gap, threshold, a, b)
            <==> Near(gap)(a, b) && Similarity(embeds[a.id], embeds[b.id]) > threshold
  {
    var bucket := MergedBucket({a, b}, embeds, skew, gap, a);
    assert bucket == if Near(gap)(a, b) then {a, b} else {a} by {
      NearPair(embeds, skew, gap, a, b);
    }
    assert Near(gap)(a, b) ==>
        (SameVisual(IdSet(bucket), embeds, threshold)(a.id, b.id) <==> Alike(embeds, threshold, a.id, b.id)) by {
      PairIds(a, b);
      SamePair(embeds, threshold, a.id, b.id);
    }
  }

  lemma VisualPair(f: File, g: File, embeds: map<int, Embedding>, gap: int, threshold: real)
    requires f.id != g.id
    ensures SharesVisually(Everything([f, g]), embeds, SkewOf([f, g], embeds), gap, threshold, Run(f), Run(g)) <==>
            && f.capturedAt.Some? && g.capturedAt.Some? && f.id in embeds && g.id in embeds
            && -gap <= f.capturedAt.value - g.capturedAt.value <= gap
            && Similarity(embeds[f.id], embeds[g.id]) > threshold
  {
    TwoRuns(f, g);
    Unmoved(f, g, embeds, Run(f));
    Unmoved(f, g, embeds, Run(g));
    if Anchored(embeds)(Run(f)) && Anchored(embeds)(Run(g)) {
      SharesPair(embeds, SkewOf([f, g], embeds), gap, threshold, Run(f), Run(g));
    }
  }

  lemma LoosePair(f: File, g: File, embeds: map<int, Embedding>, gap: int)
    requires f.id != g.id
    ensures SharesLoosely(Everything([f, g]), embeds, gap, Run(f), Run(g)) <==>
            && SameKey(f, g) && f.capturedAt.Some? && g.capturedAt.Some? && f.id !in embeds && g.id !in embeds
            && -gap <= f.capturedAt.value - g.capturedAt.value <= gap
  {
    var all, a, b := Everything([f, g]), Run(f), Run(g);
    TwoRuns(f, g);
    if LooseOn(embeds, a.device)(a) && LooseOn(embeds, a.device)(b) {
      assert Loose(all, embeds, a.device) == {a, b};
      NearSymmetric(gap);
      ConnectedPair(Loose(all, embeds, a.device), Near(gap), a, b);
    }
  }

  /** In cross-device mode two files alone share a cluster exactly when their times are at most gap seconds
      apart and either both have an embedding and these are more similar than the threshold, whatever their
      devices, or neither has one and they have the same key. */
  lemma TwoFilesMergeIff(f: File, g: File, embeds: map<int, Embedding>, gap: int, threshold: real)
    requires f.id != g.id
    ensures InOneDef(CrossDefs([f, g], embeds, gap, threshold), f.id, g.id) <==>
            && f.capturedAt.Some? && g.capturedAt.Some?
            && -gap <= f.capturedAt.value - g.capturedAt.value <= gap
            && (|| (f.id in embeds && g.id in embeds && Similarity(embeds[f.id], embeds[g.id]) > threshold)
                || (f.id !in embeds && g.id !in embeds && SameKey(f, g)))
  {
    TwoRuns(f, g);
    CrossShareClusterIff([f, g], embeds, gap, threshold, 0, 1);
    VisualPair(f, g, embeds, gap, threshold);
    LoosePair(f, g, embeds, gap);
  }

  // --------------------------------------------------------- two cameras

  /** Two embedded files within the gap of each other, similar, from two cameras, f the earlier one. */
  predicate SameScene(f: File, g: File, embeds: map<int, Embedding>, gap: int, threshold: real) {
    && f.id in embeds && g.id in embeds && Similarity(embeds[f.id], embeds[g.id]) > threshold
    && f.capturedAt.Some? && g.capturedAt.Some? && 0 <= g.capturedAt.value - f.capturedAt.value <= gap
    && f.id < g.id && !SameKey(f, g)
  }

  lemma OnlyTheTwo(f: File, g: File, embeds: map<int, Embedding>, gap: int, threshold: real, d: ClusterDef, x: int)
    requires f.id != g.id && d in CrossDefs([f, g], embeds, gap, threshold) && x in d.members
    ensures x == f.id || x == g.id
  {
    var ids := IdSet(Everything([f, g]));
    var same := SameCross(Everything([f, g]), embeds, SkewOf([f, g], embeds), gap, threshold);
    TwoRuns(f, g);
    PairIds(Run(f), Run(g));
    CrossDevicePartition([f, g], embeds, gap, threshold);
    PartitionInside(CrossDefs([f, g], embeds, gap, threshold), ids, same, d, x);
  }

  lemma SharedDef(f: File, g: File, embeds: map<int, Embedding>, gap: int, threshold: real) returns (d: ClusterDef)
    requires SameScene(f, g, embeds, gap, threshold)
    ensures d in CrossDefs([f, g], embeds, gap, threshold) && f.id in d.members && g.id in d.members
  {
    var defs := CrossDefs([f, g], embeds, gap, threshold);
    TwoFilesMergeIff(f, g, embeds, gap, threshold);
    assert InOneDef(defs, f.id, g.id);
    var i :| 0 <= i < |defs| && f.id in defs[i].members && g.id in defs[i].members;
    d := defs[i];
  }

  lemma FromMergedPass(f: File, g: File, embeds: map<int, Embedding>, gap: int, threshold: real, d: ClusterDef)
    requires SameScene(f, g, embeds, gap, threshold) && f.id in d.members
    requires d in CrossDefs([f, g], embeds, gap, threshold)
    ensures d in MergedDefs(Runs([f, g]), embeds, SkewOf([f, g], embeds), gap, threshold)
  {
    TwoRuns(f, g);
    if d in Flatten(LoosePass(Runs([f, g]), embeds, Devices([f, g]), gap)) {
      LooseLabel([f, g], embeds, gap, d, Run(f));
    } else if d in Flatten(NullPass(Runs([f, g]), Devices([f, g]))) {
      NullLabel([f, g], d, Run(f));
    }
  }

  lemma EarlierStart(a: RunFile, b: RunFile, t: int)
    requires a.at.Some? && b.at.Some? && a.at.value <= b.at.value && IsMinimumTime(t, {a, b})
    ensures Some(t) == a.at
  {
    assert a in {a, b} && b in {a, b};
  }

  lemma PairBucket(f: File, g: File, embeds: map<int, Embedding>, gap: int, threshold: real)
    requires SameScene(f, g, embeds, gap, threshold)
    ensures MergedBucket(Everything([f, g]), embeds, SkewOf([f, g], embeds), gap, Run(f)) == {Run(f), Run(g)}
  {
    TwoRuns(f, g);
    Unmoved(f, g, embeds, Run(f));
    Unmoved(f, g, embeds, Run(g));
    NearPair(embeds, SkewOf([f, g], embeds), gap, Run(f), Run(g));
  }

  lemma MinimumOfPair(f: File, g: File, embeds: map<int, Embedding>, gap: int, threshold: real, t: int)
    requires SameScene(f, g, embeds, gap, threshold)
    requires IsMinimumTime(t, MergedBucket(Everything([f, g]), embeds, SkewOf([f, g], embeds), gap, Run(f)))
    ensures Some(t) == f.capturedAt
  {
    PairBucket(f, g, embeds, gap, threshold);
    EarlierStart(Run(f), Run(g), t);
  }

  /** Its start is f's time. */
  lemma SharedStart(f: File, g: File, embeds: map<int, Embedding>, gap: int, threshold: real, d: ClusterDef)
    requires SameScene(f, g, embeds, gap, threshold) && f.id in d.members
    requires d in MergedDefs(Runs([f, g]), embeds, SkewOf([f, g], embeds), gap, threshold)
    ensures d.bucket == f.capturedAt && Ascending(d.members)
  {
    TwoRuns(f, g);
    MergedLabel([f, g], embeds, gap, threshold, d, Run(f));
    MinimumOfPair(f, g, embeds, gap, threshold, d.bucket.value);
  }

  /** Two files of one scene from two cameras become one cluster with the merged key and the earlier time. */
  lemma MergedPair(f: File, g: File, embeds: map<int, Embedding>, gap: int, threshold: real)
    requires SameScene(f, g, embeds, gap, threshold)
    ensures ClusterDef("*merged*", f.capturedAt, [f.id, g.id]) in RebuildDefs([f, g], embeds, gap, threshold, true)
  {
    var d := SharedDef(f, g, embeds, gap, threshold);
    FromMergedPass(f, g, embeds, gap, threshold, d);
    SharedStart(f, g, embeds, gap, threshold, d);
    SharedKey(f, g, embeds, gap, threshold, d);
    forall x | x in d.members
      ensures x == f.id || x == g.id
    {
      OnlyTheTwo(f, g, embeds, gap, threshold, d, x);
    }
    AscendingUnique(d.members, [f.id, g.id]);
    assert f.id in embeds;
    CrossMode([f, g], embeds, gap, threshold);
  }

  lemma SharedKey(f: File, g: File, embeds: map<int, Embedding>, gap: int, threshold: real, d: ClusterDef)
    requires SameScene(f, g, embeds, gap, threshold) && f.id in d.members && g.id in d.members
    requires d in MergedDefs(Runs([f, g]), embeds, SkewOf([f, g], embeds), gap, threshold)
    ensures d.device == "*merged*"
  {
    TwoRuns(f, g);
    MergedTag([f, g], embeds, gap, threshold, d);
  }
}
