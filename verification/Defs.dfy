/** Cluster definitions, how a bucket is emitted, and what it means for definitions to partition files. */
module Defs {
  import opened Seqs
  import opened Visual
  import opened BucketGroups
  import opened Timeline

  /** One row handed to the store: device key, bucket start (None is NULL), member ids. */
  datatype ClusterDef = ClusterDef(device: string, bucket: Option<int>, members: seq<int>)

  /** The columns of an analyzed file the grouper reads. */
  datatype File = File(id: int, deviceKey: Option<string>, capturedAt: Option<int>)

  function Device(f: File): string {
    if f.deviceKey.Some? && f.deviceKey.value != "" then f.deviceKey.value else "Unknown"
  }

  function Run(f: File): RunFile {
    RunFile(f.id, Device(f), f.capturedAt)
  }

  ghost predicate DistinctFiles(files: seq<File>) {
    forall i, j | 0 <= i < j < |files| :: files[i].id != files[j].id
  }

  function Runs(files: seq<File>): (r: seq<RunFile>)
    ensures |r| == |files| && forall i | 0 <= i < |files| :: r[i] == Run(files[i])
  {
    seq(|files|, i requires 0 <= i < |files| => Run(files[i]))
  }

  function IdsOf(runs: seq<RunFile>): (r: seq<int>)
    ensures |r| == |runs| && forall i | 0 <= i < |runs| :: r[i] == runs[i].id
  {
    seq(|runs|, i requires 0 <= i < |runs| => runs[i].id)
  }

  function IdSet(runs: set<RunFile>): set<int> {
    set f | f in runs :: f.id
  }

  lemma IdsOfSet(runs: seq<RunFile>)
    ensures ToSet(IdsOf(runs)) == IdSet(ToSet(runs))
  {
    forall x | x in IdSet(ToSet(runs))
      ensures x in IdsOf(runs)
    {
      var f :| f in runs && f.id == x;
      var i :| 0 <= i < |runs| && runs[i] == f;
      assert IdsOf(runs)[i] == x;
    }
    forall x | x in IdsOf(runs)
      ensures x in IdSet(ToSet(runs))
    {
      var i :| 0 <= i < |runs| && IdsOf(runs)[i] == x;
      assert runs[i] in ToSet(runs);
    }
  }

  lemma IdsOfNoDup(runs: seq<RunFile>)
    requires DistinctIds(runs)
    ensures NoDup(IdsOf(runs))
  {
  }

  // ------------------------------------------------------------- emission

  /** The definitions of one bucket: one per visual group. */
  ghost function Emit(dev: string, start: Option<int>, ids: set<int>, embeds: map<int, Embedding>,
      threshold: real): (r: seq<ClusterDef>)
    ensures |r| == |Groups(ids, embeds, threshold)|
    ensures forall i | 0 <= i < |r| :: r[i] == ClusterDef(dev, start, Groups(ids, embeds, threshold)[i])
  {
    var g := Groups(ids, embeds, threshold);
    seq(|g|, i requires 0 <= i < |g| => ClusterDef(dev, start, g[i]))
  }

  method EmitGroups(dev: string, start: Option<int>, ids: seq<int>, embeds: map<int, Embedding>, threshold: real)
    returns (out: seq<ClusterDef>)
    requires NoDup(ids)
    ensures out == Emit(dev, start, ToSet(ids), embeds, threshold)
  {
    var groups := ClusterIDs(ids, embeds, threshold);
    out := [];
    for i := 0 to |groups|
      invariant out == Emit(dev, start, ToSet(ids), embeds, threshold)[..i]
    {
      out := out + [ClusterDef(dev, start, groups[i])];
    }
  }

  /** A single id forms a single group. */
  lemma EmitSingleton(dev: string, id: int, embeds: map<int, Embedding>, threshold: real)
    ensures Emit(dev, None, {id}, embeds, threshold) == [ClusterDef(dev, None, [id])]
  {
    var same := SameVisual({id}, embeds, threshold);
    GroupsCanonical({id}, embeds, threshold);
    SameVisualEquivalence({id}, embeds, threshold);
    var one := [[id]];
    assert Covers(one, {id}) by {
      assert id in one[0];
    }
    assert CanonicalPartition(one, {id}, same);
    CanonicalUnique(one, Groups({id}, embeds, threshold), {id}, same);
  }

  ghost function BucketDefs(dev: string, buckets: seq<seq<RunFile>>, embeds: map<int, Embedding>,
      threshold: real): (r: seq<seq<ClusterDef>>)
    requires forall b | 0 <= b < |buckets| :: |buckets[b]| > 0
    ensures |r| == |buckets|
    ensures forall b | 0 <= b < |buckets| ::
              r[b] == Emit(dev, buckets[b][0].at, IdSet(ToSet(buckets[b])), embeds, threshold)
  {
    seq(|buckets|, b requires 0 <= b < |buckets| => Emit(dev, buckets[b][0].at, IdSet(ToSet(buckets[b])), embeds,
        threshold))
  }

  lemma BucketDefsSnoc(dev: string, buckets: seq<seq<RunFile>>, last: seq<RunFile>, embeds: map<int, Embedding>,
      threshold: real)
    requires forall b | 0 <= b < |buckets| :: |buckets[b]| > 0
    requires |last| > 0
    ensures BucketDefs(dev, buckets + [last], embeds, threshold)
            == BucketDefs(dev, buckets, embeds, threshold) + [Emit(dev, last[0].at, IdSet(ToSet(last)), embeds,
                threshold)]
    ensures Flatten(BucketDefs(dev, buckets + [last], embeds, threshold))
            == Flatten(BucketDefs(dev, buckets, embeds, threshold)) + Emit(dev, last[0].at, IdSet(ToSet(last)), embeds,
                threshold)
  {
    assert BucketDefs(dev, buckets + [last], embeds, threshold)
        == BucketDefs(dev, buckets, embeds, threshold) + [Emit(dev, last[0].at, IdSet(ToSet(last)), embeds, threshold)];
    FlattenSnoc(BucketDefs(dev, buckets, embeds, threshold), Emit(dev, last[0].at, IdSet(ToSet(last)), embeds,
        threshold));
  }

  function NullDefs(dev: string, runs: seq<RunFile>): (r: seq<ClusterDef>)
    ensures |r| == |runs|
    ensures forall i | 0 <= i < |runs| :: r[i] == ClusterDef(dev, None, [runs[i].id])
  {
    seq(|runs|, i requires 0 <= i < |runs| => ClusterDef(dev, None, [runs[i].id]))
  }

  // ----------------------------------------------------------- partitions

  ghost predicate MembersOk(defs: seq<ClusterDef>, ids: set<int>) {
    && (forall i | 0 <= i < |defs| :: |defs[i].members| > 0 && NoDup(defs[i].members))
    && (forall i, x | 0 <= i < |defs| && x in defs[i].members :: x in ids)
  }

  ghost predicate EachOnce(defs: seq<ClusterDef>, ids: set<int>) {
    && (forall x | x in ids :: exists i :: 0 <= i < |defs| && x in defs[i].members)
    && (forall i, j, x | 0 <= i < |defs| && 0 <= j < |defs| && x in defs[i].members && x in defs[j].members :: i == j)
  }

  ghost predicate TogetherIff(defs: seq<ClusterDef>, ids: set<int>, same: (int, int) -> bool) {
    forall i, x, y | 0 <= i < |defs| && x in defs[i].members && y in ids :: y in defs[i].members <==> same(x, y)
  }

  /** defs put every id in exactly one definition, two ids in the same one exactly when same holds. */
  ghost predicate PartitionOf(defs: seq<ClusterDef>, ids: set<int>, same: (int, int) -> bool) {
    MembersOk(defs, ids) && EachOnce(defs, ids) && TogetherIff(defs, ids, same)
  }

  /** No id is in both sets and no pair across them belongs together. */
  ghost predicate Apart(s: set<int>, t: set<int>, same: (int, int) -> bool) {
    forall x, y | x in s && y in t :: x != y && !same(x, y) && !same(y, x)
  }

  lemma ConcatMembers(a: seq<ClusterDef>, s: set<int>, b: seq<ClusterDef>, t: set<int>)
    requires MembersOk(a, s) && MembersOk(b, t)
    ensures MembersOk(a + b, s + t)
  {
    var d := a + b;
    forall i | 0 <= i < |d|
      ensures |d[i].members| > 0 && NoDup(d[i].members)
    {
      assert d[i] == if i < |a| then a[i] else b[i - |a|];
    }
    forall i, x | 0 <= i < |d| && x in d[i].members
      ensures x in s + t
    {
      assert if i < |a| then x in a[i].members else x in b[i - |a|].members;
    }
  }

  lemma ConcatOnce(a: seq<ClusterDef>, s: set<int>, b: seq<ClusterDef>, t: set<int>)
    requires MembersOk(a, s) && MembersOk(b, t) && s !! t
    requires EachOnce(a, s) && EachOnce(b, t)
    ensures EachOnce(a + b, s + t)
  {
    var d := a + b;
    forall x | x in s + t
      ensures exists i :: 0 <= i < |d| && x in d[i].members
    {
      if x in s {
        var i :| 0 <= i < |a| && x in a[i].members;
        assert x in d[i].members;
      } else {
        var i :| 0 <= i < |b| && x in b[i].members;
        assert x in d[|a| + i].members;
      }
    }
    forall i, j, x | 0 <= i < |d| && 0 <= j < |d| && x in d[i].members && x in d[j].members
      ensures i == j
    {
      assert if i < |a| then x in a[i].members && x in s else x in b[i - |a|].members && x in t;
      assert if j < |a| then x in a[j].members && x in s else x in b[j - |a|].members && x in t;
    }
  }

  lemma ConcatTogether(a: seq<ClusterDef>, s: set<int>, b: seq<ClusterDef>, t: set<int>, same: (int, int) -> bool)
    requires MembersOk(a, s) && MembersOk(b, t) && Apart(s, t, same)
    requires TogetherIff(a, s, same) && TogetherIff(b, t, same)
    ensures TogetherIff(a + b, s + t, same)
  {
    var d := a + b;
    forall i, x, y | 0 <= i < |d| && x in d[i].members && y in s + t
      ensures y in d[i].members <==> same(x, y)
    {
      if i < |a| {
        assert d[i] == a[i] && x in s;
        assert y in a[i].members ==> y in s;
      } else {
        assert d[i] == b[i - |a|] && x in t;
        assert y in b[i - |a|].members ==> y in t;
      }
    }
  }

  lemma PartitionConcat(a: seq<ClusterDef>, s: set<int>, b: seq<ClusterDef>, t: set<int>, same: (int, int) -> bool)
    requires PartitionOf(a, s, same) && PartitionOf(b, t, same)
    requires Apart(s, t, same)
    ensures PartitionOf(a + b, s + t, same)
  {
    assert s !! t by {
      forall x | x in s
        ensures x !in t
      {
      }
    }
    ConcatMembers(a, s, b, t);
    ConcatOnce(a, s, b, t);
    ConcatTogether(a, s, b, t, same);
  }

  function UnionOf(sets: seq<set<int>>): (r: set<int>)
    ensures forall x :: x in r <==> exists i :: 0 <= i < |sets| && x in sets[i]
  {
    set i, x | 0 <= i < |sets| && x in sets[i] :: x
  }

  lemma UnionCons(sets: seq<set<int>>)
    requires |sets| > 0
    ensures UnionOf(sets) == sets[0] + UnionOf(sets[1..])
  {
    var s := UnionOf(sets[1..]);
    forall x | x in s
      ensures x in UnionOf(sets)
    {
      var i :| 0 <= i < |sets[1..]| && x in sets[1..][i];
      assert x in sets[i + 1];
    }
    forall x | x in UnionOf(sets)
      ensures x in sets[0] + s
    {
      var i :| 0 <= i < |sets| && x in sets[i];
      if i > 0 {
        assert x in sets[1..][i - 1];
      }
    }
  }

  ghost predicate AllApart(sets: seq<set<int>>, same: (int, int) -> bool) {
    forall i, j | 0 <= i < j < |sets| :: Apart(sets[i], sets[j], same)
  }

  lemma ApartTail(sets: seq<set<int>>, same: (int, int) -> bool)
    requires |sets| > 0 && AllApart(sets, same)
    ensures AllApart(sets[1..], same) && Apart(sets[0], UnionOf(sets[1..]), same)
  {
    forall x, y | x in sets[0] && y in UnionOf(sets[1..])
      ensures x != y && !same(x, y) && !same(y, x)
    {
      var i :| 0 <= i < |sets[1..]| && y in sets[1..][i];
      assert Apart(sets[0], sets[i + 1], same);
    }
  }

  ghost predicate AllPartitions(parts: seq<seq<ClusterDef>>, sets: seq<set<int>>, same: (int, int) -> bool) {
    |parts| == |sets| && forall i | 0 <= i < |parts| :: PartitionOf(parts[i], sets[i], same)
  }

  lemma {:induction false} FlattenPartition(parts: seq<seq<ClusterDef>>, sets: seq<set<int>>, same: (int, int) -> bool)
    requires AllPartitions(parts, sets, same) && AllApart(sets, same)
    ensures PartitionOf(Flatten(parts), UnionOf(sets), same)
    decreases |parts|
  {
    if |parts| > 0 {
      ApartTail(sets, same);
      assert AllPartitions(parts[1..], sets[1..], same);
      FlattenPartition(parts[1..], sets[1..], same);
      UnionCons(sets);
      PartitionConcat(parts[0], sets[0], Flatten(parts[1..]), UnionOf(sets[1..]), same);
    }
  }

  lemma EmitPartition(dev: string, start: Option<int>, ids: set<int>, embeds: map<int, Embedding>, threshold: real,
      same: (int, int) -> bool)
    requires forall x, y | x in ids && y in ids :: same(x, y) <==> SameVisual(ids, embeds, threshold)(x, y)
    ensures PartitionOf(Emit(dev, start, ids, embeds, threshold), ids, same)
  {
    GroupsCanonical(ids, embeds, threshold);
    var g, d := Groups(ids, embeds, threshold), Emit(dev, start, ids, embeds, threshold);
    forall x | x in ids
      ensures exists i :: 0 <= i < |d| && x in d[i].members
    {
      var i :| 0 <= i < |g| && x in g[i];
      assert x in d[i].members;
    }
    forall i, j, x | 0 <= i < |d| && 0 <= j < |d| && x in d[i].members && x in d[j].members
      ensures i == j
    {
      CanonicalDisjoint(g, ids, SameVisual(ids, embeds, threshold), i, j, x);
    }
    forall i, x, y | 0 <= i < |d| && x in d[i].members && y in ids
      ensures y in d[i].members <==> same(x, y)
    {
      assert x in g[i];
      assert x in ids;
    }
  }

  lemma IdSetIndex(runs: seq<RunFile>, x: int) returns (i: nat)
    requires x in IdSet(ToSet(runs))
    ensures i < |runs| && runs[i].id == x
  {
    var f :| f in runs && f.id == x;
    i :| 0 <= i < |runs| && runs[i] == f;
  }

  lemma NullPartition(dev: string, runs: seq<RunFile>, same: (int, int) -> bool)
    requires DistinctIds(runs)
    requires forall i, j | 0 <= i < |runs| && 0 <= j < |runs| :: same(runs[i].id, runs[j].id) <==> i == j
    ensures PartitionOf(NullDefs(dev, runs), IdSet(ToSet(runs)), same)
  {
    var d, ids := NullDefs(dev, runs), IdSet(ToSet(runs));
    forall i | 0 <= i < |d|
      ensures runs[i].id in ids
    {
      assert runs[i] in ToSet(runs);
    }
    forall x | x in ids
      ensures exists i :: 0 <= i < |d| && x in d[i].members
    {
      var i := IdSetIndex(runs, x);
      assert x in d[i].members;
    }
    forall i, x, y | 0 <= i < |d| && x in d[i].members && y in ids
      ensures y in d[i].members <==> same(x, y)
    {
      var k := IdSetIndex(runs, y);
      assert x == runs[i].id;
      assert same(runs[i].id, runs[k].id) <==> i == k;
    }
  }

  lemma PartitionInside(defs: seq<ClusterDef>, ids: set<int>, same: (int, int) -> bool, d: ClusterDef, x: int)
    requires PartitionOf(defs, ids, same) && d in defs && x in d.members
    ensures x in ids
  {
    var i :| 0 <= i < |defs| && defs[i] == d;
    assert MembersOk(defs, ids) && x in defs[i].members;
  }

  lemma PartitionMember(defs: seq<ClusterDef>, ids: set<int>, same: (int, int) -> bool, d: ClusterDef)
    requires PartitionOf(defs, ids, same) && d in defs
    ensures |d.members| > 0 && d.members[0] in ids
  {
    var i :| 0 <= i < |defs| && defs[i] == d;
    assert MembersOk(defs, ids);
    assert |defs[i].members| > 0;
    var x := d.members[0];
    assert x in defs[i].members;
    assert x in ids;
  }

  /** Whether defs partition a set depends on the member lists alone. */
  lemma PartitionByMembers(a: seq<ClusterDef>, b: seq<ClusterDef>, ids: set<int>, same: (int, int) -> bool)
    requires |a| == |b| && forall i | 0 <= i < |a| :: a[i].members == b[i].members
    requires PartitionOf(a, ids, same)
    ensures PartitionOf(b, ids, same)
  {
    forall x | x in ids
      ensures exists i :: 0 <= i < |b| && x in b[i].members
    {
      var i :| 0 <= i < |a| && x in a[i].members;
      assert x in b[i].members;
    }
  }

  // ------------------------------------------------ partitions of a walk

  ghost function BucketIds(buckets: seq<seq<RunFile>>): (r: seq<set<int>>)
    ensures |r| == |buckets| && forall b | 0 <= b < |r| :: r[b] == IdSet(ToSet(buckets[b]))
  {
    seq(|buckets|, b requires 0 <= b < |buckets| => IdSet(ToSet(buckets[b])))
  }

  lemma BucketUnion(s: seq<RunFile>, gap: int)
    requires AllTimed(s)
    ensures UnionOf(BucketIds(GapBuckets(s, gap))) == IdSet(ToSet(s))
  {
    var r := GapBuckets(s, gap);
    GapBucketsFlatten(s, gap);
    forall x | x in IdSet(ToSet(s))
      ensures x in UnionOf(BucketIds(r))
    {
      var f :| f in s && f.id == x;
      FlattenMember(r, f);
      var b :| 0 <= b < |r| && f in r[b];
      assert x in BucketIds(r)[b];
    }
    forall x | x in UnionOf(BucketIds(r))
      ensures x in IdSet(ToSet(s))
    {
      var b :| 0 <= b < |r| && x in BucketIds(r)[b];
      var f: RunFile :| f in r[b] && f.id == x;
      FlattenMember(r, f);
      assert f in ToSet(s);
    }
  }

  lemma BucketPosition(s: seq<RunFile>, gap: int, b: nat, x: int) returns (i: nat)
    requires AllTimed(s) && b < |GapBuckets(s, gap)| && x in IdSet(ToSet(GapBuckets(s, gap)[b]))
    ensures i < |s| && s[i].id == x && BucketNo(s, gap, i) == b
  {
    GapBucketsNumbered(s, gap);
    var f: RunFile :| f in GapBuckets(s, gap)[b] && f.id == x;
    i :| 0 <= i < |s| && s[i] == f && BucketNo(s, gap, i) == b;
  }

  /** Files in different buckets never belong together. */
  ghost predicate SplitAtBreaks(s: seq<RunFile>, gap: int, same: (int, int) -> bool)
    requires AllTimed(s)
  {
    forall i: nat, j: nat | i < |s| && j < |s| && BucketNo(s, gap, i) != BucketNo(s, gap, j) :: !same(s[i].id, s[j].id)
  }

  lemma BucketsApart(s: seq<RunFile>, gap: int, same: (int, int) -> bool, b: nat, c: nat)
    requires AllTimed(s) && DistinctIds(s) && SplitAtBreaks(s, gap, same) && b < c < |GapBuckets(s, gap)|
    ensures Apart(IdSet(ToSet(GapBuckets(s, gap)[b])), IdSet(ToSet(GapBuckets(s, gap)[c])), same)
  {
    forall x, y | x in IdSet(ToSet(GapBuckets(s, gap)[b])) && y in IdSet(ToSet(GapBuckets(s, gap)[c]))
      ensures x != y && !same(x, y) && !same(y, x)
    {
      var i := BucketPosition(s, gap, b, x);
      var j := BucketPosition(s, gap, c, y);
      assert i != j;
    }
  }

  /** Partitions of the buckets make a partition of the timeline. */
  lemma WalkPartition(s: seq<RunFile>, gap: int, parts: seq<seq<ClusterDef>>, same: (int, int) -> bool)
    requires AllTimed(s) && DistinctIds(s) && SplitAtBreaks(s, gap, same)
    requires AllPartitions(parts, BucketIds(GapBuckets(s, gap)), same)
    ensures PartitionOf(Flatten(parts), IdSet(ToSet(s)), same)
  {
    var sets := BucketIds(GapBuckets(s, gap));
    forall b, c | 0 <= b < c < |sets|
      ensures Apart(sets[b], sets[c], same)
    {
      BucketsApart(s, gap, same, b, c);
    }
    FlattenPartition(parts, sets, same);
    BucketUnion(s, gap);
  }
}
