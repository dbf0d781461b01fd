/** clusterIDs of group.go: visual clustering of one bucket with the no-embedding fallback group. */
module BucketGroups {
  import opened Seqs
  import opened Reach
  import opened Visual

  /** Any ordering of the classes becomes canonical once sorted by first member. */
  lemma SortedClassesCanonical(out: seq<seq<int>>, ids: set<int>, same: (int, int) -> bool)
    requires forall i | 0 <= i < |out| :: |out[i]| > 0 && Ascending(out[i])
    requires NoDup(out) && SortedBy(out, FirstLe())
    requires Covers(out, ids) && Separates(out, ids, same)
    ensures CanonicalPartition(out, ids, same)
  {
    forall i, j | 0 <= i < j < |out|
      ensures out[i][0] < out[j][0]
    {
      assert FirstLe()(out[i], out[j]);
      if out[i][0] == out[j][0] {
        var m := out[i][0];
        assert m in out[i] && m in out[j];
        forall y
          ensures y in out[i] <==> y in out[j]
        {
          if y in ids {
            assert y in out[i] <==> same(m, y);
            assert y in out[j] <==> same(m, y);
          }
        }
        AscendingUnique(out[i], out[j]);
      }
    }
  }

  lemma ReorderedCovers(a: seq<seq<int>>, b: seq<seq<int>>, ids: set<int>, same: (int, int) -> bool)
    requires multiset(a) == multiset(b)
    requires Covers(a, ids) && Separates(a, ids, same)
    requires forall i | 0 <= i < |a| :: |a[i]| > 0 && Ascending(a[i])
    ensures Covers(b, ids) && Separates(b, ids, same)
    ensures forall i | 0 <= i < |b| :: |b[i]| > 0 && Ascending(b[i])
  {
    SameMultiset(a, b);
    forall i | 0 <= i < |b|
      ensures exists k :: 0 <= k < |a| && a[k] == b[i]
    {
      assert b[i] in b;
    }
    forall x | x in ids
      ensures exists i :: 0 <= i < |b| && x in b[i]
    {
      var k :| 0 <= k < |a| && x in a[k];
      assert a[k] in b;
    }
  }

  function Bucket(ids: set<int>, embeds: map<int, Embedding>): map<int, Embedding> {
    map id | id in ids && id in embeds :: embeds[id]
  }

  /** Inside a bucket, clustering sees the same links as the whole embedding table. */
  lemma BucketLinks(ids: set<int>, embeds: map<int, Embedding>, threshold: real, x: int, y: int)
    requires x in Bucket(ids, embeds) && y in Bucket(ids, embeds)
    ensures SameVisual(Bucket(ids, embeds).Keys, Bucket(ids, embeds), threshold)(x, y)
            <==> SameVisual(ids, embeds, threshold)(x, y)
  {
    var b := Bucket(ids, embeds);
    var nodes := ids * embeds.Keys;
    assert b.Keys == nodes && b.Keys * b.Keys == nodes;
    if Connected(nodes, Link(b, threshold), x, y) {
      ConnectedMonotone(nodes, Link(b, threshold), nodes, Link(embeds, threshold), x, y);
    }
    if Connected(nodes, Link(embeds, threshold), x, y) {
      ConnectedMonotone(nodes, Link(embeds, threshold), nodes, Link(b, threshold), x, y);
    }
  }

  /** The embedded groups keep their meaning in the whole bucket. */
  lemma EmbeddedGroups(ids: set<int>, embeds: map<int, Embedding>, threshold: real)
    ensures var g := Groups(Bucket(ids, embeds).Keys, Bucket(ids, embeds), threshold);
            Shaped(g) && NoDup(g) && Covers(g, Bucket(ids, embeds).Keys)
                && Separates(g, ids, SameVisual(ids, embeds, threshold))
  {
    var b := Bucket(ids, embeds);
    var g := Groups(b.Keys, b, threshold);
    var same := SameVisual(ids, embeds, threshold);
    GroupsCanonical(b.Keys, b, threshold);
    forall i, x, y | 0 <= i < |g| && x in g[i] && y in ids
      ensures y in g[i] <==> same(x, y)
    {
      assert x in b.Keys;
      if y in b.Keys {
        BucketLinks(ids, embeds, threshold, x, y);
      }
    }
    assert NoDup(g) by {
      forall i, j | 0 <= i < j < |g|
        ensures g[i] != g[j]
      {
        assert g[i][0] < g[j][0];
      }
    }
  }

  lemma WithFallback(g: seq<seq<int>>, fallback: seq<int>, ids: set<int>, embeds: map<int, Embedding>, threshold: real)
    requires Shaped(g) && NoDup(g) && Covers(g, Bucket(ids, embeds).Keys)
    requires Separates(g, ids, SameVisual(ids, embeds, threshold))
    requires |fallback| > 0 && Ascending(fallback)
    requires forall x :: x in fallback <==> x in ids && x !in embeds
    ensures NoDup(g + [fallback])
    ensures forall i | 0 <= i < |g + [fallback]| :: |(g + [fallback])[i]| > 0 && Ascending((g + [fallback])[i])
    ensures Covers(g + [fallback], ids) && Separates(g + [fallback], ids, SameVisual(ids, embeds, threshold))
  {
    var out, same := g + [fallback], SameVisual(ids, embeds, threshold);
    forall i | 0 <= i < |g|
      ensures g[i] != fallback
    {
      assert g[i][0] in g[i];
      assert g[i][0] in Bucket(ids, embeds).Keys;
    }
    forall i, x | 0 <= i < |out| && x in out[i]
      ensures x in ids
    {
      if i < |g| {
        assert x in g[i] && x in Bucket(ids, embeds).Keys;
      } else {
        assert x in fallback;
      }
    }
    forall x | x in ids
      ensures exists i :: 0 <= i < |out| && x in out[i]
    {
      if x in embeds {
        assert x in Bucket(ids, embeds).Keys;
        var i :| 0 <= i < |g| && x in g[i];
        assert x in out[i];
      } else {
        assert x in out[|g|];
      }
    }
    forall i, x, y | 0 <= i < |out| && x in out[i] && y in ids
      ensures y in out[i] <==> same(x, y)
    {
      if i < |g| {
        assert out[i] == g[i];
      }
    }
  }

  method ClusterIDs(ids: seq<int>, embeds: map<int, Embedding>, threshold: real) returns (groups: seq<seq<int>>)
    requires NoDup(ids)
    ensures groups == Groups(ToSet(ids), embeds, threshold)
  {
    if |ids| == 0 {
      return [];
    }
    var bucketEmbeds: map<int, Embedding> := map[];
    var noEmb: seq<int> := [];
    for i := 0 to |ids|
      invariant bucketEmbeds == Bucket(ToSet(ids[..i]), embeds)
      invariant forall x :: x in noEmb <==> x in ids[..i] && x !in embeds
      invariant NoDup(noEmb)
    {
      assert ids[..i + 1] == ids[..i] + [ids[i]];
      assert ids[i] !in ids[..i];
      if ids[i] in embeds {
        bucketEmbeds := bucketEmbeds[ids[i] := embeds[ids[i]]];
      } else {
        noEmb := noEmb + [ids[i]];
      }
    }
    assert ids[..|ids|] == ids;
    ghost var idSet := ToSet(ids);
    ghost var same := SameVisual(idSet, embeds, threshold);
    groups := Cluster(bucketEmbeds, threshold);
    EmbeddedGroups(idSet, embeds, threshold);
    if |noEmb| > 0 {
      var fallback := SortSlice(noEmb, IntLe());
      MultisetNoDup(noEmb, fallback);
      SortedIntsAscending(fallback);
      SameMultiset(noEmb, fallback);
      WithFallback(groups, fallback, idSet, embeds, threshold);
      groups := groups + [fallback];
      var sorted := SortSlice(groups, FirstLe());
      MultisetNoDup(groups, sorted);
      ReorderedCovers(groups, sorted, idSet, same);
      SortedClassesCanonical(sorted, idSet, same);
      groups := sorted;
    } else {
      assert bucketEmbeds.Keys == idSet by {
        forall x | x in idSet
          ensures x in bucketEmbeds
        {
          assert x in ids;
        }
      }
      assert CanonicalPartition(groups, idSet, same);
    }
    GroupsCanonical(idSet, embeds, threshold);
    CanonicalUnique(groups, Groups(idSet, embeds, threshold), idSet, same);
  }

  /** Raising the threshold only refines: every group at high lies inside one group at low. */
  lemma GroupsRefine(ids: set<int>, embeds: map<int, Embedding>, low: real, high: real, i: nat)
    requires low <= high && i < |Groups(ids, embeds, high)|
    ensures exists j :: 0 <= j < |Groups(ids, embeds, low)|
              && ToSet(Groups(ids, embeds, high)[i]) <= ToSet(Groups(ids, embeds, low)[j])
  {
    GroupsCanonical(ids, embeds, low);
    GroupsCanonical(ids, embeds, high);
    var fine, coarse := Groups(ids, embeds, high), Groups(ids, embeds, low);
    var m := fine[i][0];
    assert m in fine[i] && m in ids;
    var j :| 0 <= j < |coarse| && m in coarse[j];
    forall y | y in fine[i]
      ensures y in coarse[j]
    {
      assert y in ids;
      assert SameVisual(ids, embeds, high)(m, y);
      if m in embeds {
        ConnectedMonotone(ids * embeds.Keys, Link(embeds, high), ids * embeds.Keys, Link(embeds, low), m, y);
      }
      assert SameVisual(ids, embeds, low)(m, y);
    }
    assert ToSet(fine[i]) <= ToSet(coarse[j]);
  }
}
