/** Libraries of two files: what the clustering theorems come to in plain arithmetic. */
module Pairs {
  import opened Seqs
  import opened Reach
  import opened Visual
  import opened Timeline
  import opened Defs
  import opened PerDevice
  import opened PerDeviceTheorems

  /** Neither has an embedding, or both do and are more similar than the threshold. */
  predicate Alike(embeds: map<int, Embedding>, threshold: real, x: int, y: int) {
    || (x !in embeds && y !in embeds)
    || (x in embeds && y in embeds && Similarity(embeds[x], embeds[y]) > threshold)
  }

  lemma SamePair(embeds: map<int, Embedding>, threshold: real, x: int, y: int)
    requires x != y
    ensures SameVisual({x, y}, embeds, threshold)(x, y) <==> Alike(embeds, threshold, x, y)
  {
    if x in embeds && y in embeds {
      assert {x, y} * embeds.Keys == {x, y};
      LinkSymmetric(embeds, threshold);
      ConnectedPair({x, y}, Link(embeds, threshold), x, y);
    }
  }

  lemma OneGroup(x: int, y: int, same: (int, int) -> bool)
    requires x < y && EquivalenceOn({x, y}, same) && same(x, y)
    ensures CanonicalPartition([[x, y]], {x, y}, same)
  {
    assert x in [x, y] && y in [x, y];
    assert x in [[x, y]][0] && y in [[x, y]][0];
  }

  lemma TwoGroups(x: int, y: int, same: (int, int) -> bool)
    requires x < y && EquivalenceOn({x, y}, same) && !same(x, y)
    ensures CanonicalPartition([[x], [y]], {x, y}, same)
  {
    assert x in [[x], [y]][0] && y in [[x], [y]][1];
  }

  /** Two ids form one group or two, in ascending order. */
  lemma PairGroups(embeds: map<int, Embedding>, threshold: real, x: int, y: int)
    requires x < y
    ensures Groups({x, y}, embeds, threshold) == if Alike(embeds, threshold, x, y) then [[x, y]] else [[x], [y]]
  {
    var same := SameVisual({x, y}, embeds, threshold);
    SamePair(embeds, threshold, x, y);
    SameVisualEquivalence({x, y}, embeds, threshold);
    GroupsCanonical({x, y}, embeds, threshold);
    if Alike(embeds, threshold, x, y) {
      OneGroup(x, y, same);
      CanonicalUnique([[x, y]], Groups({x, y}, embeds, threshold), {x, y}, same);
    } else {
      TwoGroups(x, y, same);
      CanonicalUnique([[x], [y]], Groups({x, y}, embeds, threshold), {x, y}, same);
    }
  }

  /** With two components each: grouped exactly when the sum of the products exceeds the threshold. */
  lemma PairOfFrames(a: real, b: real, c: real, d: real, threshold: real)
    ensures Groups({1, 2}, map[1 := [a, b], 2 := [c, d]], threshold)
            == if a * c + b * d > threshold then [[1, 2]] else [[1], [2]]
  {
    DotPair(a, b, c, d);
    PairGroups(map[1 := [a, b], 2 := [c, d]], threshold, 1, 2);
  }

  /** Two unit vectors whose last components alone would exceed the threshold. */
  lemma MirroredFrames()
    ensures Groups({1, 2}, map[1 := [0.28, 0.96], 2 := [-0.28, 0.96]], 0.92) == [[1], [2]]
  {
    PairOfFrames(0.28, 0.96, -0.28, 0.96, 0.92);
  }

  // ---------------------------------------------------- a library of two

  /** No key, an empty one, or the key such files get. */
  predicate Unnamed(f: File) {
    f.deviceKey in {None, Some(""), Some("Unknown")}
  }

  predicate SameKey(f: File, g: File) {
    f.deviceKey == g.deviceKey || (Unnamed(f) && Unnamed(g))
  }

  lemma TwoRuns(f: File, g: File)
    requires f.id != g.id
    ensures Everything([f, g]) == {Run(f), Run(g)} && DistinctFiles([f, g]) && Run(f) != Run(g)
    ensures Run(f).device == Run(g).device <==> SameKey(f, g)
  {
    assert Runs([f, g]) == [Run(f), Run(g)];
  }

  /** On a timeline of two shots taken close together both are reached from the first. */
  lemma PairReached(a: RunFile, b: RunFile, gap: int)
    requires a != b && a.at.Some?
    ensures Connected({a, b}, Near(gap), a, b) <==> Near(gap)(a, b)
    ensures Connected({a, b}, Near(gap), a, a)
  {
    NearSymmetric(gap);
    ConnectedPair({a, b}, Near(gap), a, b);
    ConnectedSelf({a, b}, Near(gap), a);
  }

  /** In a library of two files they share a cluster exactly when they have the same key, both have a time,
      the times are at most gap seconds apart, and they are alike. */
  lemma TwoFilesShareIff(f: File, g: File, embeds: map<int, Embedding>, gap: int, threshold: real)
    requires f.id != g.id
    ensures InOneDef(PerDeviceDefs([f, g], embeds, gap, threshold), f.id, g.id) <==>
            && SameKey(f, g) && f.capturedAt.Some? && g.capturedAt.Some?
            && -gap <= f.capturedAt.value - g.capturedAt.value <= gap
            && Alike(embeds, threshold, f.id, g.id)
  {
    var all, a, b := Everything([f, g]), Run(f), Run(g);
    TwoRuns(f, g);
    ShareClusterIff([f, g], embeds, gap, threshold, 0, 1);
    if a.device == b.device && a.at.Some? && b.at.Some? {
      var peers := Peers(all, a.device);
      assert peers == {a, b};
      PairReached(a, b, gap);
      if Near(gap)(a, b) {
        assert (set h | h in peers && Connected(peers, Near(gap), a, h) :: h.id) == {a.id, b.id};
        SamePair(embeds, threshold, a.id, b.id);
      }
    }
  }
}
