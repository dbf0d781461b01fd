/** Reachability in an undirected graph, the simple form that the union-find and the gap-walk refine. */
module Reach {

  ghost predicate IsPath<T>(nodes: set<T>, edge: (T, T) -> bool, p: seq<T>) {
    && |p| > 0
    && (forall i | 0 <= i < |p| :: p[i] in nodes)
    && (forall i | 0 <= i < |p| - 1 :: edge(p[i], p[i + 1]))
  }

  ghost predicate Joins<T>(nodes: set<T>, edge: (T, T) -> bool, p: seq<T>, a: T, b: T) {
    IsPath(nodes, edge, p) && p[0] == a && p[|p| - 1] == b
  }

  /** a and b are joined by a chain of edges that stays inside nodes. */
  ghost predicate Connected<T(!new)>(nodes: set<T>, edge: (T, T) -> bool, a: T, b: T) {
    exists p :: Joins(nodes, edge, p, a, b)
  }

  ghost predicate Symmetric<T(!new)>(edge: (T, T) -> bool) {
    forall x, y :: edge(x, y) ==> edge(y, x)
  }

  lemma ConnectedSelf<T(!new)>(nodes: set<T>, edge: (T, T) -> bool, a: T)
    requires a in nodes
    ensures Connected(nodes, edge, a, a)
  {
    assert Joins(nodes, edge, [a], a, a);
  }

  lemma ConnectedEdge<T(!new)>(nodes: set<T>, edge: (T, T) -> bool, a: T, b: T)
    requires a in nodes && b in nodes && edge(a, b)
    ensures Connected(nodes, edge, a, b)
  {
    assert Joins(nodes, edge, [a, b], a, b);
  }

  lemma ConnectedTransitive<T(!new)>(nodes: set<T>, edge: (T, T) -> bool, a: T, b: T, c: T)
    requires Connected(nodes, edge, a, b) && Connected(nodes, edge, b, c)
    ensures Connected(nodes, edge, a, c)
  {
    var p :| Joins(nodes, edge, p, a, b);
    var q :| Joins(nodes, edge, q, b, c);
    var r := p + q[1..];
    forall i | 0 <= i < |r| - 1
      ensures edge(r[i], r[i + 1])
    {
      if i >= |p| - 1 {
        assert r[i] == q[i - |p| + 1] && r[i + 1] == q[i - |p| + 2];
      }
    }
    assert Joins(nodes, edge, r, a, c);
  }

  lemma ConnectedSymmetric<T(!new)>(nodes: set<T>, edge: (T, T) -> bool, a: T, b: T)
    requires Symmetric(edge)
    requires Connected(nodes, edge, a, b)
    ensures Connected(nodes, edge, b, a)
  {
    var p :| Joins(nodes, edge, p, a, b);
    var r := seq(|p|, i requires 0 <= i < |p| => p[|p| - 1 - i]);
    forall i | 0 <= i < |r| - 1
      ensures edge(r[i], r[i + 1])
    {
      var k := |p| - 2 - i;
      assert edge(p[k], p[k + 1]);
    }
    assert Joins(nodes, edge, r, b, a);
  }

  /** More nodes and more edges join at least as much. */
  lemma ConnectedMonotone<T(!new)>(nodes: set<T>, edge: (T, T) -> bool, nodes': set<T>, edge': (T, T) -> bool,
      a: T, b: T)
    requires nodes <= nodes'
    requires forall x, y | x in nodes && y in nodes && edge(x, y) :: edge'(x, y)
    requires Connected(nodes, edge, a, b)
    ensures Connected(nodes', edge', a, b)
  {
    var p :| Joins(nodes, edge, p, a, b);
    assert Joins(nodes', edge', p, a, b);
  }

  /** A label that no edge changes is the same at both ends of every chain. */
  lemma ConnectedLabel<T(!new), L>(nodes: set<T>, edge: (T, T) -> bool, mark: map<T, L>, a: T, b: T)
    requires nodes <= mark.Keys
    requires forall x, y | x in nodes && y in nodes && edge(x, y) :: mark[x] == mark[y]
    requires Connected(nodes, edge, a, b)
    ensures a in nodes && b in nodes && mark[a] == mark[b]
  {
    var p :| Joins(nodes, edge, p, a, b);
    var i := 0;
    while i < |p| - 1
      invariant 0 <= i < |p|
      invariant mark[p[i]] == mark[a]
    {
      assert edge(p[i], p[i + 1]);
      i := i + 1;
    }
  }

  /** Among two nodes only a direct edge joins them. */
  lemma ConnectedPair<T(!new)>(nodes: set<T>, edge: (T, T) -> bool, a: T, b: T)
    requires nodes == {a, b} && a != b && Symmetric(edge)
    ensures Connected(nodes, edge, a, b) <==> edge(a, b)
  {
    if edge(a, b) {
      ConnectedEdge(nodes, edge, a, b);
    } else if Connected(nodes, edge, a, b) {
      ConnectedLabel(nodes, edge, map[a := 0, b := 1], a, b);
    }
  }
}
