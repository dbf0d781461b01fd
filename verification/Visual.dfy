/** Single-link visual clustering: the union-find of visual.go and the components it computes. */
module Visual {
  import opened Seqs
  import opened Reach

  type Embedding = seq<real>

  // ------------------------------------------------------------- similarity

  function Dot(a: Embedding, b: Embedding): real
    requires |a| == |b|
  {
    if a == [] then 0.0 else Dot(a[..|a| - 1], b[..|b| - 1]) + a[|a| - 1] * b[|b| - 1]
  }

  /** The dot product of two equally long vectors; vectors of different lengths score 0. */
  function Similarity(a: Embedding, b: Embedding): real {
    if |a| != |b| then 0.0 else Dot(a, b)
  }

  lemma {:induction false} DotSymmetric(a: Embedding, b: Embedding)
    requires |a| == |b|
    ensures Dot(a, b) == Dot(b, a)
  {
    if a != [] {
      DotSymmetric(a[..|a| - 1], b[..|b| - 1]);
    }
  }

  /** One pair of components is their product. */
  lemma DotSingle(x: real, y: real)
    ensures Dot([x], [y]) == x * y
  {
    assert [x][..0] == [] && [y][..0] == [];
  }

  /** Vectors in two parts: the products of the parts add up. With DotSingle this leaves one function. */
  lemma {:induction false} DotConcat(a: Embedding, b: Embedding, c: Embedding, d: Embedding)
    requires |a| == |b| && |c| == |d|
    ensures Dot(a + c, b + d) == Dot(a, b) + Dot(c, d)
  {
    if c == [] {
      assert a + c == a && b + d == b;
    } else {
      var n := |c| - 1;
      assert (a + c)[..|a + c| - 1] == a + c[..n] && (b + d)[..|b + d| - 1] == b + d[..n];
      DotConcat(a, b, c[..n], d[..n]);
    }
  }

  lemma DotPair(a: real, b: real, c: real, d: real)
    ensures Similarity([a, b], [c, d]) == a * c + b * d
  {
    assert [a] + [b] == [a, b] && [c] + [d] == [c, d];
    DotConcat([a], [c], [b], [d]);
    DotSingle(a, c);
    DotSingle(b, d);
  }

  method Cosine(a: Embedding, b: Embedding) returns (s: real)
    ensures s == Similarity(a, b)
  {
    if |a| != |b| {
      return 0.0;
    }
    s := 0.0;
    for i := 0 to |a|
      invariant s == Dot(a[..i], b[..i])
    {
      assert a[..i + 1][..i] == a[..i] && b[..i + 1][..i] == b[..i];
      s := s + a[i] * b[i];
    }
    assert a[..|a|] == a && b[..|b|] == b;
  }

  /** The graph on file ids: an edge where the similarity exceeds the threshold. */
  function Link(embeds: map<int, Embedding>, threshold: real): (int, int) -> bool {
    (x, y) => x in embeds && y in embeds && Similarity(embeds[x], embeds[y]) > threshold
  }

  lemma SimilaritySymmetric(a: Embedding, b: Embedding)
    ensures Similarity(a, b) == Similarity(b, a)
  {
    if |a| == |b| {
      DotSymmetric(a, b);
    }
  }

  lemma LinkSymmetric(embeds: map<int, Embedding>, threshold: real)
    ensures Symmetric(Link(embeds, threshold))
  {
    forall x, y | Link(embeds, threshold)(x, y)
      ensures Link(embeds, threshold)(y, x)
    {
      SimilaritySymmetric(embeds[x], embeds[y]);
    }
  }

  // -------------------------------------------------- canonical partitions

  ghost predicate EquivalenceOn(ids: set<int>, same: (int, int) -> bool) {
    && (forall x | x in ids :: same(x, x))
    && (forall x, y | x in ids && y in ids && same(x, y) :: same(y, x))
    && (forall x, y, z | x in ids && y in ids && z in ids && same(x, y) && same(y, z) :: same(x, z))
  }

  ghost predicate Shaped(out: seq<seq<int>>) {
    && (forall i | 0 <= i < |out| :: |out[i]| > 0 && Ascending(out[i]))
    && (forall i, j | 0 <= i < j < |out| :: out[i][0] < out[j][0])
  }

  ghost predicate Covers(out: seq<seq<int>>, ids: set<int>) {
    && (forall i, x | 0 <= i < |out| && x in out[i] :: x in ids)
    && (forall x | x in ids :: exists i :: 0 <= i < |out| && x in out[i])
  }

  ghost predicate Separates(out: seq<seq<int>>, ids: set<int>, same: (int, int) -> bool) {
    forall i, x, y | 0 <= i < |out| && x in out[i] && y in ids :: y in out[i] <==> same(x, y)
  }

  /** out lists the classes of same on ids: members ascending, classes ordered by first member. */
  ghost predicate CanonicalPartition(out: seq<seq<int>>, ids: set<int>, same: (int, int) -> bool) {
    Shaped(out) && Covers(out, ids) && Separates(out, ids, same)
  }

  /** The classes of same on ids, peeled off in the order of their smallest member. */
  ghost function Classes(ids: set<int>, same: (int, int) -> bool): seq<seq<int>>
    decreases ids
  {
    if ids == {} then []
    else
      var m := MinOf(ids);
      var c := set x | x in ids && (x == m || same(m, x));
      assert m in c;
      [Listing(c)] + Classes(ids - c, same)
  }

  lemma PrependShaped(c: seq<int>, rest: seq<seq<int>>)
    requires |c| > 0 && Ascending(c) && Shaped(rest)
    requires forall j | 0 <= j < |rest| :: c[0] < rest[j][0]
    ensures Shaped([c] + rest)
  {
  }

  lemma PrependCovers(c: seq<int>, rest: seq<seq<int>>, ids: set<int>)
    requires ToSet(c) <= ids && Covers(rest, ids - ToSet(c))
    ensures Covers([c] + rest, ids)
  {
    var out := [c] + rest;
    forall i, x | 0 <= i < |out| && x in out[i]
      ensures x in ids
    {
      if i == 0 {
        assert x in ToSet(c);
      } else {
        assert x in rest[i - 1];
        assert x in ids - ToSet(c);
      }
    }
    forall x | x in ids
      ensures exists i :: 0 <= i < |out| && x in out[i]
    {
      if x in c {
        assert x in out[0];
      } else {
        assert x in ids - ToSet(c);
        var i :| 0 <= i < |rest| && x in rest[i];
        assert x in out[i + 1];
      }
    }
  }

  lemma PrependSeparates(m: int, c: seq<int>, rest: seq<seq<int>>, ids: set<int>, same: (int, int) -> bool)
    requires EquivalenceOn(ids, same)
    requires Covers(rest, ids - ToSet(c)) && Separates(rest, ids - ToSet(c), same)
    requires m in ids && forall y | y in ids :: y in c <==> same(m, y)
    requires ToSet(c) <= ids
    ensures Separates([c] + rest, ids, same)
  {
    var out := [c] + rest;
    forall i, x, y | 0 <= i < |out| && x in out[i] && y in ids
      ensures y in out[i] <==> same(x, y)
    {
      if i == 0 {
        assert x in ToSet(c);
        assert x in ids;
        assert same(m, x) && same(x, m);
      } else {
        assert out[i] == rest[i - 1];
        assert x in ids - ToSet(c);
        assert x in ids;
        assert !same(m, x);
        if y in c {
          assert same(m, y) && same(y, m);
          assert same(x, y) ==> same(x, m) && same(m, x);
          assert y !in ids - ToSet(c);
        }
      }
    }
  }

  lemma {:induction false} ClassesCanonical(ids: set<int>, same: (int, int) -> bool)
    requires EquivalenceOn(ids, same)
    ensures CanonicalPartition(Classes(ids, same), ids, same)
    decreases ids
  {
    if ids != {} {
      var m := MinOf(ids);
      var c := set x | x in ids && (x == m || same(m, x));
      assert m in c;
      var rest := Classes(ids - c, same);
      ClassesCanonical(ids - c, same);
      var l := Listing(c);
      assert ToSet(l) == c;
      assert l[0] == m;
      forall j | 0 <= j < |rest|
        ensures m < rest[j][0]
      {
        assert rest[j][0] in rest[j];
        assert rest[j][0] in ids - c;
      }
      PrependShaped(l, rest);
      PrependCovers(l, rest, ids);
      PrependSeparates(m, l, rest, ids, same);
    }
  }

  lemma CanonicalFirst(a: seq<seq<int>>, b: seq<seq<int>>, ids: set<int>, same: (int, int) -> bool)
    requires CanonicalPartition(a, ids, same) && CanonicalPartition(b, ids, same)
    requires |a| > 0
    ensures |b| > 0 && a[0] == b[0]
  {
    var x := a[0][0];
    assert x in a[0] && x in ids;
    var i :| 0 <= i < |b| && x in b[i];
    var y := b[0][0];
    assert y in b[0] && y in ids;
    var j :| 0 <= j < |a| && y in a[j];
    assert a[0][0] <= a[j][0] <= y;
    assert b[0][0] <= b[i][0] <= x;
    assert x == y;
    forall z
      ensures z in a[0] <==> z in b[0]
    {
      if z in ids {
        assert z in a[0] <==> same(x, z);
        assert z in b[0] <==> same(y, z);
      }
    }
    AscendingUnique(a[0], b[0]);
  }

  lemma CanonicalDisjoint(a: seq<seq<int>>, ids: set<int>, same: (int, int) -> bool, i: nat, j: nat, x: int)
    requires CanonicalPartition(a, ids, same)
    requires i < |a| && j < |a| && x in a[i] && x in a[j]
    ensures i == j
  {
    assert a[i][0] in a[i] && a[j][0] in a[j];
    assert a[i][0] in ids && a[j][0] in ids;
    assert same(x, a[i][0]) && same(x, a[j][0]);
    assert a[i][0] in a[j] && a[j][0] in a[i];
    assert a[j][0] <= a[i][0] && a[i][0] <= a[j][0];
  }

  lemma CanonicalTail(a: seq<seq<int>>, ids: set<int>, same: (int, int) -> bool)
    requires CanonicalPartition(a, ids, same) && |a| > 0
    ensures CanonicalPartition(a[1..], ids - ToSet(a[0]), same)
  {
    var rest := ids - ToSet(a[0]);
    forall i, x | 0 <= i < |a[1..]| && x in a[1..][i]
      ensures x in rest
    {
      assert a[1..][i] == a[i + 1];
      if x in a[0] {
        CanonicalDisjoint(a, ids, same, 0, i + 1, x);
      }
    }
    forall x | x in rest
      ensures exists i :: 0 <= i < |a[1..]| && x in a[1..][i]
    {
      var i :| 0 <= i < |a| && x in a[i];
      assert x in a[1..][i - 1];
    }
  }

  /** A partition has one canonical listing. */
  lemma {:induction false} CanonicalUnique(a: seq<seq<int>>, b: seq<seq<int>>, ids: set<int>, same: (int, int) -> bool)
    requires CanonicalPartition(a, ids, same) && CanonicalPartition(b, ids, same)
    ensures a == b
    decreases |a|
  {
    if |a| == 0 {
      if |b| > 0 {
        CanonicalFirst(b, a, ids, same);
      }
    } else {
      CanonicalFirst(a, b, ids, same);
      CanonicalTail(a, ids, same);
      CanonicalTail(b, ids, same);
      CanonicalUnique(a[1..], b[1..], ids - ToSet(a[0]), same);
      assert a == [a[0]] + a[1..] && b == [b[0]] + b[1..];
    }
  }

  // ------------------------------------------------------------ union-find

  /** What one entry of the parent map satisfies. rep names the root of its tree; rank certifies
      that parent links contain no cycle, since it grows strictly along every link. */
  ghost predicate LinkOk(parent: map<int, int>, rep: map<int, int>, rank: map<int, nat>, top: nat, x: int) {
    && x in parent && x in rep && x in rank
    && parent[x] in parent && parent[x] in rep && parent[x] in rank
    && rep[x] in parent && rep[x] in rep && rep[x] in rank
    && rank[x] <= top
    && (parent[x] != x ==> rank[x] < rank[parent[x]])
    && rank[x] <= rank[rep[x]]
    && rep[parent[x]] == rep[x]
    && (parent[x] == x <==> rep[x] == x)
    && parent[rep[x]] == rep[x] && rep[rep[x]] == rep[x]
  }

  ghost predicate Forest(parent: map<int, int>, rep: map<int, int>, rank: map<int, nat>, top: nat) {
    && rep.Keys == parent.Keys && rank.Keys == parent.Keys
    && forall x {:trigger LinkOk(parent, rep, rank, top, x)} | x in parent :: LinkOk(parent, rep, rank, top, x)
  }

  /** Hanging an id directly below its root keeps the forest and every representative. */
  lemma CompressKeeps(parent: map<int, int>, rep: map<int, int>, rank: map<int, nat>, top: nat, x: int)
    requires Forest(parent, rep, rank, top) && x in parent
    requires rep[x] == x || (rep[x] in rank && rank[x] < rank[rep[x]])
    ensures Forest(parent[x := rep[x]], rep, rank, top)
  {
    assert LinkOk(parent, rep, rank, top, x);
    assert LinkOk(parent, rep, rank, top, rep[x]);
    var p' := parent[x := rep[x]];
    assert p'.Keys == parent.Keys;
    forall y | y in p'
      ensures LinkOk(p', rep, rank, top, y)
    {
      assert LinkOk(parent, rep, rank, top, y);
      assert LinkOk(parent, rep, rank, top, parent[y]);
    }
  }

  ghost function Merged(rep: map<int, int>, ra: int, rb: int): map<int, int> {
    map x | x in rep :: if rep[x] == ra then rb else rep[x]
  }

  ghost function Lifted(rank: map<int, nat>, ra: int, rb: int): map<int, nat>
    requires ra in rank && rb in rank
  {
    rank[rb := if rank[rb] > rank[ra] then rank[rb] else rank[ra] + 1]
  }

  lemma MergeEntry(parent: map<int, int>, rep: map<int, int>, rank: map<int, nat>, top: nat, ra: int, rb: int, y: int)
    requires Forest(parent, rep, rank, top)
    requires ra in parent && rb in parent && y in parent && ra != rb
    requires rep[ra] == ra && rep[rb] == rb
    ensures LinkOk(parent[ra := rb], Merged(rep, ra, rb), Lifted(rank, ra, rb), top + 1, y)
  {
    assert LinkOk(parent, rep, rank, top, ra) && LinkOk(parent, rep, rank, top, rb);
    assert LinkOk(parent, rep, rank, top, y);
    assert LinkOk(parent, rep, rank, top, parent[y]) && LinkOk(parent, rep, rank, top, rep[y]);
    var rep' := Merged(rep, ra, rb);
    assert rep'[y] == if rep[y] == ra then rb else rep[y];
    assert rep'[ra] == rb && rep'[rb] == rb;
    assert rep'[parent[y]] == rep'[y];
    assert rep'[rep[y]] == rep'[y];
  }

  /** Hanging one root below another keeps the forest and merges exactly their two classes. */
  lemma MergeKeeps(parent: map<int, int>, rep: map<int, int>, rank: map<int, nat>, top: nat, ra: int, rb: int)
    requires Forest(parent, rep, rank, top)
    requires ra in parent && rb in parent && ra != rb
    requires rep[ra] == ra && rep[rb] == rb
    ensures Forest(parent[ra := rb], Merged(rep, ra, rb), Lifted(rank, ra, rb), top + 1)
  {
    var p', rep', rank' := parent[ra := rb], Merged(rep, ra, rb), Lifted(rank, ra, rb);
    assert p'.Keys == parent.Keys && rank'.Keys == rank.Keys && rep'.Keys == rep.Keys;
    forall y | y in p'
      ensures LinkOk(p', rep', rank', top + 1, y)
    {
      MergeEntry(parent, rep, rank, top, ra, rb, y);
    }
  }

  class UnionFind {
    var parent: map<int, int>
    ghost var rep: map<int, int>
    ghost var rank: map<int, nat>
    ghost var top: nat

    ghost predicate Valid()
      reads this
    {
      Forest(parent, rep, rank, top)
    }

    constructor (ids: seq<int>)
      ensures Valid()
      ensures parent.Keys == ToSet(ids)
      ensures rep == map x | x in ids :: x
    {
      parent := map x | x in ids :: x;
      rep := map x | x in ids :: x;
      rank := map x | x in ids :: 0;
      top := 0;
    }

    /** Follows parent links to the root and hangs every visited id directly below it. */
    method Find(x: int) returns (root: int)
      requires Valid() && x in parent
      modifies this`parent
      ensures Valid() && parent.Keys == old(parent.Keys)
      ensures x in rep && root == rep[x]
      ensures parent[x] == root
      decreases top - if x in rank then rank[x] else 0
    {
      assert LinkOk(parent, rep, rank, top, x);
      if parent[x] == x {
        return x;
      }
      assert LinkOk(parent, rep, rank, top, parent[x]);
      root := Find(parent[x]);
      CompressKeeps(parent, rep, rank, top, x);
      parent := parent[x := root];
    }

    method Union(a: int, b: int)
      requires Valid() && a in parent && b in parent
      modifies this
      ensures Valid() && parent.Keys == old(parent.Keys)
      ensures a in old(rep) && b in old(rep)
      ensures rep == Merged(old(rep), old(rep)[a], old(rep)[b])
    {
      assert LinkOk(parent, rep, rank, top, a) && LinkOk(parent, rep, rank, top, b);
      var ra := Find(a);
      var rb := Find(b);
      if ra != rb {
        MergeKeeps(parent, rep, rank, top, ra, rb);
        parent := parent[ra := rb];
        rank := Lifted(rank, ra, rb);
        rep := Merged(rep, ra, rb);
        top := top + 1;
      } else {
        assert rep == Merged(rep, ra, rb);
      }
    }
  }

  // -------------------------------------------------- the groups of a bucket

  /** Two embedded ids belong together iff a chain of links joins them inside the bucket; the ids
      without an embedding all belong together. */
  ghost function SameVisual(ids: set<int>, embeds: map<int, Embedding>, threshold: real): (int, int) -> bool {
    (x, y) => if x in embeds && y in embeds then Connected(ids * embeds.Keys, Link(embeds, threshold), x, y)
              else x !in embeds && y !in embeds
  }

  ghost function Groups(ids: set<int>, embeds: map<int, Embedding>, threshold: real): seq<seq<int>> {
    Classes(ids, SameVisual(ids, embeds, threshold))
  }

  lemma SameVisualEquivalence(ids: set<int>, embeds: map<int, Embedding>, threshold: real)
    ensures EquivalenceOn(ids, SameVisual(ids, embeds, threshold))
  {
    var nodes, edge, same := ids * embeds.Keys, Link(embeds, threshold), SameVisual(ids, embeds, threshold);
    LinkSymmetric(embeds, threshold);
    forall x | x in ids
      ensures same(x, x)
    {
      if x in embeds {
        ConnectedSelf(nodes, edge, x);
      }
    }
    forall x, y | x in ids && y in ids && same(x, y)
      ensures same(y, x)
    {
      if x in embeds {
        ConnectedSymmetric(nodes, edge, x, y);
      }
    }
    forall x, y, z | x in ids && y in ids && z in ids && same(x, y) && same(y, z)
      ensures same(x, z)
    {
      if x in embeds {
        ConnectedTransitive(nodes, edge, x, y, z);
      }
    }
  }

  /** Groups lists every id once, and two ids together exactly when SameVisual holds. */
  lemma GroupsCanonical(ids: set<int>, embeds: map<int, Embedding>, threshold: real)
    ensures CanonicalPartition(Groups(ids, embeds, threshold), ids, SameVisual(ids, embeds, threshold))
  {
    SameVisualEquivalence(ids, embeds, threshold);
    ClassesCanonical(ids, SameVisual(ids, embeds, threshold));
  }

  // ---------------------------------------------------------------- Cluster

  ghost predicate Sound(rep: map<int, int>, nodes: set<int>, edge: (int, int) -> bool) {
    && rep.Keys == nodes
    && forall x, y {:trigger rep[x], rep[y]} | x in nodes && y in nodes && rep[x] == rep[y] ::
        Connected(nodes, edge, x, y)
  }

  lemma MergeSound(rep: map<int, int>, nodes: set<int>, edge: (int, int) -> bool, a: int, b: int)
    requires Symmetric(edge) && Sound(rep, nodes, edge)
    requires a in nodes && b in nodes && edge(a, b)
    ensures Sound(Merged(rep, rep[a], rep[b]), nodes, edge)
  {
    var rep' := Merged(rep, rep[a], rep[b]);
    ConnectedEdge(nodes, edge, a, b);
    ConnectedSymmetric(nodes, edge, a, b);
    forall x, y | x in nodes && y in nodes && rep'[x] == rep'[y]
      ensures Connected(nodes, edge, x, y)
    {
      if rep[x] != rep[y] {
        if rep[x] == rep[a] {
          assert Connected(nodes, edge, x, a) && Connected(nodes, edge, b, y);
          ConnectedTransitive(nodes, edge, x, a, b);
          ConnectedTransitive(nodes, edge, x, b, y);
        } else {
          assert Connected(nodes, edge, x, b) && Connected(nodes, edge, a, y);
          ConnectedTransitive(nodes, edge, x, b, a);
          ConnectedTransitive(nodes, edge, x, a, y);
        }
      }
    }
  }

  /** The pairs of the scan that lie before (i, j) in row order. */
  predicate Scanned(a: int, b: int, i: int, j: int) {
    a < i || (a == i && b < j)
  }

  ghost predicate Joined(rep: map<int, int>, ids: seq<int>, edge: (int, int) -> bool, i: int, j: int) {
    forall a, b | 0 <= a < b < |ids| && Scanned(a, b, i, j) && edge(ids[a], ids[b]) ::
      ids[a] in rep && ids[b] in rep && rep[ids[a]] == rep[ids[b]]
  }

  /** Once every pair is scanned, two ids share a root iff they are connected. */
  lemma RootsAreComponents(rep: map<int, int>, ids: seq<int>, edge: (int, int) -> bool, x: int, y: int)
    requires Symmetric(edge) && Sound(rep, ToSet(ids), edge) && Joined(rep, ids, edge, |ids|, 0)
    requires x in rep && y in rep
    ensures rep[x] == rep[y] <==> Connected(ToSet(ids), edge, x, y)
  {
    if Connected(ToSet(ids), edge, x, y) {
      forall u, v | u in ToSet(ids) && v in ToSet(ids) && edge(u, v)
        ensures rep[u] == rep[v]
      {
        var a :| 0 <= a < |ids| && ids[a] == u;
        var b :| 0 <= b < |ids| && ids[b] == v;
        assert edge(v, u);
        if a < b {
          assert Scanned(a, b, |ids|, 0);
        } else if b < a {
          assert Scanned(b, a, |ids|, 0);
        }
      }
      ConnectedLabel(ToSet(ids), edge, rep, x, y);
    }
  }

  /** groups[r] lists, ascending, the ids of the scanned prefix whose root is r. */
  ghost predicate Grouped(groups: map<int, seq<int>>, scanned: seq<int>, rep: map<int, int>) {
    && (forall x | x in scanned :: x in rep && rep[x] in groups)
    && (forall r | r in groups :: |groups[r]| > 0 && Ascending(groups[r]))
    && (forall r, x | r in groups :: x in groups[r] <==> x in scanned && x in rep && rep[x] == r)
  }

  function FirstLe(): (seq<int>, seq<int>) -> bool {
    (a, b) => a == [] || (b != [] && a[0] <= b[0])
  }

  lemma AscendingSorted(a: seq<int>, b: seq<int>)
    requires Ascending(a) && SortedBy(b, IntLe()) && multiset(b) == multiset(a)
    ensures b == a
  {
    assert SortedBy(a, IntLe());
    SortedUnique(a, b, IntLe());
  }

  /** The root groups, sorted by first member, are the canonical listing of the components. */
  lemma GroupsListed(out: seq<seq<int>>, groups: map<int, seq<int>>, ids: seq<int>, rep: map<int, int>,
      same: (int, int) -> bool)
    requires rep.Keys == ToSet(ids) && Grouped(groups, ids, rep)
    requires forall x, y | x in rep && y in rep :: rep[x] == rep[y] <==> same(x, y)
    requires NoDup(out) && SortedBy(out, FirstLe())
    requires forall g | g in out :: exists r :: r in groups && groups[r] == g
    requires forall r | r in groups :: groups[r] in out
    ensures CanonicalPartition(out, ToSet(ids), same)
  {
    forall i | 0 <= i < |out|
      ensures |out[i]| > 0 && Ascending(out[i])
    {
      assert out[i] in out;
    }
    forall i, j | 0 <= i < j < |out|
      ensures out[i][0] < out[j][0]
    {
      assert out[i] in out && out[j] in out;
      var r :| r in groups && groups[r] == out[i];
      var q :| q in groups && groups[q] == out[j];
      assert out[i][0] in groups[r] && out[j][0] in groups[q];
      assert rep[out[i][0]] == r && rep[out[j][0]] == q;
      assert out[i] != out[j];
      assert FirstLe()(out[i], out[j]);
    }
    forall i, x | 0 <= i < |out| && x in out[i]
      ensures x in ToSet(ids) && forall y | y in ToSet(ids) :: y in out[i] <==> same(x, y)
    {
      assert out[i] in out;
      var r :| r in groups && groups[r] == out[i];
      assert x in groups[r];
      forall y | y in ToSet(ids)
        ensures y in out[i] <==> same(x, y)
      {
        assert y in rep && x in rep;
      }
    }
    forall x | x in ToSet(ids)
      ensures exists i :: 0 <= i < |out| && x in out[i]
    {
      assert x in ids;
      var r := rep[x];
      assert r in groups && x in groups[r];
      assert groups[r] in out;
    }
  }

  method ListGroups(groups: map<int, seq<int>>) returns (out: seq<seq<int>>)
    requires forall r | r in groups :: |groups[r]| > 0 && Ascending(groups[r])
    requires forall r, q, x | r in groups && q in groups && x in groups[r] && x in groups[q] :: r == q
    ensures NoDup(out) && SortedBy(out, FirstLe())
    ensures forall g | g in out :: exists r :: r in groups && groups[r] == g
    ensures forall r | r in groups :: groups[r] in out
  {
    out := [];
    var rest := groups.Keys;
    while rest != {}
      invariant rest <= groups.Keys && NoDup(out)
      invariant forall g | g in out :: exists r :: r in groups && r !in rest && groups[r] == g
      invariant forall r | r in groups && r !in rest :: groups[r] in out
      decreases rest
    {
      ghost var pick := SomeElement(rest);
      var r :| r in rest;
      var members := SortSlice(groups[r], IntLe());
      AscendingSorted(groups[r], members);
      forall q | q in groups && q !in rest
        ensures groups[q] != members
      {
        assert members[0] in groups[r];
        assert members[0] !in groups[q];
      }
      assert members !in out;
      out := out + [members];
      rest := rest - {r};
    }
    var sorted := SortSlice(out, FirstLe());
    MultisetNoDup(out, sorted);
    SameMultiset(out, sorted);
    out := sorted;
  }

  method SortedKeys(embeds: map<int, Embedding>) returns (ids: seq<int>)
    ensures Ascending(ids) && ToSet(ids) == embeds.Keys
  {
    ids := SortedElements(embeds.Keys);
  }

  lemma JoinedStep(rep: map<int, int>, ids: seq<int>, edge: (int, int) -> bool, i: int, j: int, rep': map<int, int>)
    requires 0 <= i < j < |ids| && Joined(rep, ids, edge, i, j)
    requires ids[i] in rep && ids[j] in rep
    requires if edge(ids[i], ids[j]) then rep' == Merged(rep, rep[ids[i]], rep[ids[j]]) else rep' == rep
    ensures Joined(rep', ids, edge, i, j + 1)
  {
    forall a, b | 0 <= a < b < |ids| && Scanned(a, b, i, j + 1) && edge(ids[a], ids[b])
      ensures ids[a] in rep' && ids[b] in rep' && rep'[ids[a]] == rep'[ids[b]]
    {
      if a == i && b == j {
      } else {
        assert Scanned(a, b, i, j);
      }
    }
  }

  lemma JoinedRow(rep: map<int, int>, ids: seq<int>, edge: (int, int) -> bool, i: int)
    requires 0 <= i < |ids| && Joined(rep, ids, edge, i, |ids|)
    ensures Joined(rep, ids, edge, i + 1, 0)
  {
    forall a, b | 0 <= a < b < |ids| && Scanned(a, b, i + 1, 0) && edge(ids[a], ids[b])
      ensures ids[a] in rep && ids[b] in rep && rep[ids[a]] == rep[ids[b]]
    {
      assert Scanned(a, b, i, |ids|);
    }
  }

  lemma JoinedRowStart(rep: map<int, int>, ids: seq<int>, edge: (int, int) -> bool, i: int)
    requires 0 <= i < |ids| && Joined(rep, ids, edge, i, 0)
    ensures Joined(rep, ids, edge, i, i + 1)
  {
    forall a, b | 0 <= a < b < |ids| && Scanned(a, b, i, i + 1) && edge(ids[a], ids[b])
      ensures ids[a] in rep && ids[b] in rep && rep[ids[a]] == rep[ids[b]]
    {
      assert Scanned(a, b, i, 0);
    }
  }

  lemma SingletonsSound(rep: map<int, int>, nodes: set<int>, edge: (int, int) -> bool)
    requires rep.Keys == nodes && forall x | x in nodes :: rep[x] == x
    ensures Sound(rep, nodes, edge)
  {
    forall x, y | x in nodes && y in nodes && rep[x] == rep[y]
      ensures Connected(nodes, edge, x, y)
    {
      ConnectedSelf(nodes, edge, x);
    }
  }

  method ComparePair(uf: UnionFind, embeds: map<int, Embedding>, threshold: real, ghost nodes: set<int>, a: int, b: int)
    requires uf.Valid() && uf.parent.Keys == nodes == embeds.Keys && a in nodes && b in nodes
    requires Sound(uf.rep, nodes, Link(embeds, threshold))
    modifies uf
    ensures uf.Valid() && uf.parent.Keys == nodes
    ensures Sound(uf.rep, nodes, Link(embeds, threshold))
    ensures uf.rep
            == if Link(embeds, threshold)(a, b) then Merged(old(uf.rep), old(uf.rep)[a], old(uf.rep)[b])
                else old(uf.rep)
  {
    LinkSymmetric(embeds, threshold);
    var s := Cosine(embeds[a], embeds[b]);
    if s > threshold {
      MergeSound(uf.rep, nodes, Link(embeds, threshold), a, b);
      uf.Union(a, b);
    }
  }

  /** The state of the pair scan: positions before (i, j) have been compared. */
  ghost predicate ScanInv(uf: UnionFind, ids: seq<int>, edge: (int, int) -> bool, i: int, j: int)
    reads uf
  {
    && uf.Valid() && uf.parent.Keys == ToSet(ids)
    && Sound(uf.rep, ToSet(ids), edge) && Joined(uf.rep, ids, edge, i, j)
  }

  method ScanRow(uf: UnionFind, embeds: map<int, Embedding>, threshold: real, ids: seq<int>, i: int)
    requires ToSet(ids) == embeds.Keys && 0 <= i < |ids|
    requires ScanInv(uf, ids, Link(embeds, threshold), i, 0)
    modifies uf
    ensures ScanInv(uf, ids, Link(embeds, threshold), i + 1, 0)
  {
    ghost var edge := Link(embeds, threshold);
    JoinedRowStart(uf.rep, ids, edge, i);
    for j := i + 1 to |ids|
      invariant ScanInv(uf, ids, edge, i, j)
    {
      assert ids[i] in ToSet(ids) && ids[j] in ToSet(ids);
      ghost var rep := uf.rep;
      ComparePair(uf, embeds, threshold, ToSet(ids), ids[i], ids[j]);
      JoinedStep(rep, ids, edge, i, j, uf.rep);
    }
    JoinedRow(uf.rep, ids, edge, i);
  }

  method Singletons(ids: seq<int>, ghost edge: (int, int) -> bool) returns (uf: UnionFind)
    ensures fresh(uf) && ScanInv(uf, ids, edge, 0, 0)
  {
    uf := new UnionFind(ids);
    SingletonsSound(uf.rep, ToSet(ids), edge);
  }

  /** The pair scan: unites every linked pair. */
  method ScanPairs(embeds: map<int, Embedding>, threshold: real, ids: seq<int>) returns (uf: UnionFind)
    requires ToSet(ids) == embeds.Keys
    ensures fresh(uf) && ScanInv(uf, ids, Link(embeds, threshold), |ids|, 0)
  {
    uf := Singletons(ids, Link(embeds, threshold));
    for i := 0 to |ids|
      invariant fresh(uf) && ScanInv(uf, ids, Link(embeds, threshold), i, 0)
    {
      ScanRow(uf, embeds, threshold, ids, i);
    }
  }

  lemma GroupedStep(groups: map<int, seq<int>>, scanned: seq<int>, rep: map<int, int>, x: int)
    requires Grouped(groups, scanned, rep) && x in rep
    requires forall y | y in scanned :: y < x
    ensures Grouped(groups[rep[x] := (if rep[x] in groups then groups[rep[x]] else []) + [x]], scanned + [x], rep)
  {
    var old' := if rep[x] in groups then groups[rep[x]] else [];
    forall k | 0 <= k < |old'|
      ensures old'[k] < x
    {
      var y, r := old'[k], rep[x];
      assert r in groups && y in groups[r];
      assert y in scanned;
    }
    var groups' := groups[rep[x] := old' + [x]];
    forall r, y | r in groups'
      ensures y in groups'[r] <==> y in scanned + [x] && y in rep && rep[y] == r
    {
      assert y in scanned ==> y in rep && rep[y] in groups;
      if r == rep[x] {
        assert y in groups'[r] <==> y in old' || y == x;
      } else {
        assert groups'[r] == groups[r];
      }
    }
  }

  lemma GroupedNext(groups: map<int, seq<int>>, ids: seq<int>, k: nat, rep: map<int, int>)
    requires k < |ids| && Ascending(ids) && Grouped(groups, ids[..k], rep) && ids[k] in rep
    ensures var r := rep[ids[k]];
            Grouped(groups[r := (if r in groups then groups[r] else []) + [ids[k]]], ids[..k + 1], rep)
  {
    assert ids[..k + 1] == ids[..k] + [ids[k]];
    GroupedStep(groups, ids[..k], rep, ids[k]);
  }

  /** Collects the ids, in ascending order, under their roots. */
  method GroupByRoot(uf: UnionFind, ids: seq<int>) returns (groups: map<int, seq<int>>)
    requires uf.Valid() && uf.parent.Keys == ToSet(ids) && Ascending(ids)
    modifies uf`parent
    ensures Grouped(groups, ids, uf.rep)
  {
    groups := map[];
    ghost var rep := uf.rep;
    for k := 0 to |ids|
      invariant uf.Valid() && uf.parent.Keys == ToSet(ids) && uf.rep == rep
      invariant Grouped(groups, ids[..k], rep)
    {
      assert ids[k] in ToSet(ids);
      var r := uf.Find(ids[k]);
      GroupedNext(groups, ids, k, rep);
      groups := groups[r := (if r in groups then groups[r] else []) + [ids[k]]];
    }
    assert ids[..|ids|] == ids;
  }

  lemma GroupsDisjoint(groups: map<int, seq<int>>, ids: seq<int>, rep: map<int, int>)
    requires Grouped(groups, ids, rep)
    ensures forall r, q, x | r in groups && q in groups && x in groups[r] && x in groups[q] :: r == q
  {
    forall r, q, x | r in groups && q in groups && x in groups[r] && x in groups[q]
      ensures r == q
    {
      assert rep[x] == r && rep[x] == q;
    }
  }

  lemma ScanComputesGroups(out: seq<seq<int>>, groups: map<int, seq<int>>, ids: seq<int>, rep: map<int, int>,
      embeds: map<int, Embedding>, threshold: real)
    requires ToSet(ids) == embeds.Keys
    requires Sound(rep, ToSet(ids), Link(embeds, threshold)) && Joined(rep, ids, Link(embeds, threshold), |ids|, 0)
    requires Grouped(groups, ids, rep)
    requires NoDup(out) && SortedBy(out, FirstLe())
    requires forall g | g in out :: exists r :: r in groups && groups[r] == g
    requires forall r | r in groups :: groups[r] in out
    ensures out == Groups(embeds.Keys, embeds, threshold)
  {
    var nodes, same := embeds.Keys, SameVisual(embeds.Keys, embeds, threshold);
    assert nodes * embeds.Keys == nodes;
    LinkSymmetric(embeds, threshold);
    forall x, y | x in rep && y in rep
      ensures rep[x] == rep[y] <==> same(x, y)
    {
      RootsAreComponents(rep, ids, Link(embeds, threshold), x, y);
    }
    GroupsListed(out, groups, ids, rep, same);
    GroupsCanonical(nodes, embeds, threshold);
    CanonicalUnique(out, Groups(nodes, embeds, threshold), nodes, same);
  }

  /** Single-link clustering by an O(n^2) pair scan over a union-find. The result is a function of
      embeds and threshold alone, whatever order the map is iterated in. */
  method Cluster(embeds: map<int, Embedding>, threshold: real) returns (out: seq<seq<int>>)
    ensures out == Groups(embeds.Keys, embeds, threshold)
  {
    var ids := SortedKeys(embeds);
    var uf := ScanPairs(embeds, threshold, ids);
    ghost var rep := uf.rep;
    var groups := GroupByRoot(uf, ids);
    GroupsDisjoint(groups, ids, rep);
    out := ListGroups(groups);
    ScanComputesGroups(out, groups, ids, rep, embeds, threshold);
  }
}
