/** Clock-skew estimation of skew.go: the sliding-window pair scan, the median and the reference device. */
module Skew {
  import opened Seqs
  import opened Visual

  const ANCHOR_SIMILARITY: real := 0.95
  const MAX_SKEW_SEC: int := 3600
  const MIN_ANCHORS: nat := 3

  datatype SkewEntry = SkewEntry(id: int, at: int)

  function TimeLe(): (SkewEntry, SkewEntry) -> bool {
    (a: SkewEntry, b: SkewEntry) => a.at <= b.at
  }

  // ---------------------------------------------------------- naive pairs

  function FlatMap<A, B>(s: seq<A>, f: A -> seq<B>): seq<B> {
    if s == [] then [] else f(s[0]) + FlatMap(s[1..], f)
  }

  lemma {:induction false} FlatMapConcat<A, B>(s: seq<A>, t: seq<A>, f: A -> seq<B>)
    ensures FlatMap(s + t, f) == FlatMap(s, f) + FlatMap(t, f)
  {
    if s == [] {
      assert s + t == t;
    } else {
      assert (s + t)[1..] == s[1..] + t;
      FlatMapConcat(s[1..], t, f);
    }
  }

  lemma FlatMapOne<A, B>(x: A, f: A -> seq<B>)
    ensures FlatMap([x], f) == f(x)
  {
    assert [x][1..] == [];
  }

  /** Reordering the input only reorders the output. */
  lemma FlatMapThree<A, B>(a: A, b: A, c: A, f: A -> seq<B>)
    ensures FlatMap([a, b, c], f) == f(a) + f(b) + f(c)
  {
    assert [a, b, c][1..] == [b, c] && [b, c][1..] == [c] && [c][1..] == [];
    assert FlatMap([c], f) == f(c);
    assert FlatMap([b, c], f) == f(b) + f(c);
  }

  lemma FlatMapTwo<A, B>(a: A, b: A, f: A -> seq<B>)
    ensures FlatMap([a, b], f) == f(a) + f(b)
  {
    assert [a, b][1..] == [b] && [b][1..] == [];
    assert FlatMap([b], f) == f(b);
  }

  lemma {:induction false} FlatMapAtMost<A, B>(s: seq<A>, f: A -> seq<B>)
    requires forall x | x in s :: |f(x)| <= 1
    ensures |FlatMap(s, f)| <= |s|
  {
    if s != [] {
      FlatMapAtMost(s[1..], f);
    }
  }

  lemma {:induction false} FlatMapPermuted<A, B>(s: seq<A>, t: seq<A>, f: A -> seq<B>)
    requires multiset(s) == multiset(t)
    ensures multiset(FlatMap(s, f)) == multiset(FlatMap(t, f))
  {
    if s == [] {
      assert |multiset(t)| == 0;
    } else {
      assert s[0] in multiset(t);
      var i :| 0 <= i < |t| && t[i] == s[0];
      var l, r := t[..i], t[i + 1..];
      assert t == l + ([t[i]] + r);
      RemoveAt(t, i);
      TailElements(s);
      FlatMapPermuted(s[1..], l + r, f);
      FlatMapConcat(l, [t[i]] + r, f);
      FlatMapConcat([t[i]], r, f);
      FlatMapConcat(l, r, f);
      FlatMapOne(s[0], f);
    }
  }

  lemma {:induction false} FlatMapPointwise<A, B>(s: seq<A>, f: A -> seq<B>, g: A -> seq<B>)
    requires forall x | x in s :: multiset(f(x)) == multiset(g(x))
    ensures multiset(FlatMap(s, f)) == multiset(FlatMap(s, g))
  {
    if s != [] {
      FlatMapPointwise(s[1..], f, g);
    }
  }

  lemma {:induction false} FlatMapMember<A, B>(s: seq<A>, f: A -> seq<B>, y: B)
    ensures y in FlatMap(s, f) <==> exists x :: x in s && y in f(x)
  {
    if s != [] {
      FlatMapMember(s[1..], f, y);
    }
  }

  /** A pair counts when its raw times are within the window and its frames near-identical. */
  predicate Anchors(r: SkewEntry, o: SkewEntry, embeds: map<int, Embedding>) {
    && r.at - MAX_SKEW_SEC <= o.at <= r.at + MAX_SKEW_SEC
    && r.id in embeds && o.id in embeds
    && Similarity(embeds[r.id], embeds[o.id]) >= ANCHOR_SIMILARITY
  }

  function DeltaOf(r: SkewEntry, embeds: map<int, Embedding>): SkewEntry -> seq<int> {
    (o: SkewEntry) => if Anchors(r, o, embeds) then [o.at - r.at] else []
  }

  function RowOf(other: seq<SkewEntry>, embeds: map<int, Embedding>): SkewEntry -> seq<int> {
    (r: SkewEntry) => FlatMap(other, DeltaOf(r, embeds))
  }

  /** The nested loop over all pairs. */
  function NaiveDeltas(ref: seq<SkewEntry>, other: seq<SkewEntry>, embeds: map<int, Embedding>): seq<int> {
    FlatMap(ref, RowOf(other, embeds))
  }

  // ------------------------------------------------------- sliding window

  lemma {:induction false} RowEmpty(other: seq<SkewEntry>, r: SkewEntry, embeds: map<int, Embedding>)
    requires forall o | o in other :: !Anchors(r, o, embeds)
    ensures FlatMap(other, DeltaOf(r, embeds)) == []
  {
    if other != [] {
      RowEmpty(other[1..], r, embeds);
    }
  }

  lemma RowStep(other: seq<SkewEntry>, r: SkewEntry, embeds: map<int, Embedding>, j: nat)
    requires j < |other|
    ensures FlatMap(other[..j + 1], DeltaOf(r, embeds))
            == FlatMap(other[..j], DeltaOf(r, embeds))
               + if Anchors(r, other[j], embeds) then [other[j].at - r.at] else []
  {
    assert other[..j + 1] == other[..j] + [other[j]];
    FlatMapConcat(other[..j], [other[j]], DeltaOf(r, embeds));
    FlatMapOne(other[j], DeltaOf(r, embeds));
  }

  lemma RowCut(other: seq<SkewEntry>, r: SkewEntry, embeds: map<int, Embedding>, j: nat)
    requires SortedBy(other, TimeLe()) && j <= |other|
    requires j < |other| ==> other[j].at > r.at + MAX_SKEW_SEC
    ensures FlatMap(other[..j], DeltaOf(r, embeds)) == FlatMap(other, DeltaOf(r, embeds))
  {
    forall x | x in other[j..]
      ensures !Anchors(r, x, embeds)
    {
      var k :| j <= k < |other| && other[k] == x;
      assert k == j || TimeLe()(other[j], other[k]);
    }
    RowEmpty(other[j..], r, embeds);
    assert other == other[..j] + other[j..];
    FlatMapConcat(other[..j], other[j..], DeltaOf(r, embeds));
  }

  /** One row of the window: entries before lo are too old, and scanning stops past the far edge. */
  method WindowRow(r: SkewEntry, other: seq<SkewEntry>, embeds: map<int, Embedding>, lo: nat) returns (row: seq<int>)
    requires SortedBy(other, TimeLe()) && lo <= |other|
    requires forall k | 0 <= k < lo :: other[k].at < r.at - MAX_SKEW_SEC
    requires lo < |other| ==> other[lo].at >= r.at - MAX_SKEW_SEC
    ensures row == FlatMap(other, DeltaOf(r, embeds))
  {
    row := [];
    var j := lo;
    RowEmpty(other[..lo], r, embeds);
    while j < |other|
      invariant lo <= j <= |other|
      invariant row == FlatMap(other[..j], DeltaOf(r, embeds))
    {
      var o := other[j];
      if o.at > r.at + MAX_SKEW_SEC {
        break;
      }
      assert TimeLe()(other[lo], o) || j == lo;
      RowStep(other, r, embeds, j);
      if r.id in embeds && o.id in embeds {
        var s := Cosine(embeds[r.id], embeds[o.id]);
        if !(s < ANCHOR_SIMILARITY) {
          row := row + [o.at - r.at];
        }
      }
      j := j + 1;
    }
    RowCut(other, r, embeds, j);
  }

  /** pairDeltas: for time-sorted inputs the forward-only window yields exactly the deltas of the
      nested loop, in the same order. */
  method PairDeltas(ref: seq<SkewEntry>, other: seq<SkewEntry>, embeds: map<int, Embedding>) returns (deltas: seq<int>)
    requires SortedBy(ref, TimeLe()) && SortedBy(other, TimeLe())
    ensures deltas == NaiveDeltas(ref, other, embeds)
  {
    deltas := [];
    var lo := 0;
    for i := 0 to |ref|
      invariant 0 <= lo <= |other|
      invariant i < |ref| ==> forall k | 0 <= k < lo :: other[k].at < ref[i].at - MAX_SKEW_SEC
      invariant deltas == FlatMap(ref[..i], RowOf(other, embeds))
    {
      var r := ref[i];
      while lo < |other| && other[lo].at < r.at - MAX_SKEW_SEC
        invariant 0 <= lo <= |other|
        invariant forall k | 0 <= k < lo :: other[k].at < r.at - MAX_SKEW_SEC
      {
        lo := lo + 1;
      }
      var row := WindowRow(r, other, embeds, lo);
      assert ref[..i + 1] == ref[..i] + [r];
      FlatMapConcat(ref[..i], [r], RowOf(other, embeds));
      FlatMapOne(r, RowOf(other, embeds));
      deltas := deltas + row;
      assert i + 1 < |ref| ==> TimeLe()(ref[i], ref[i + 1]);
    }
    assert ref[..|ref|] == ref;
  }

  // --------------------------------------------------------------- median

  /** Go's integer division by two, which truncates toward zero. */
  function Halve(a: int): int {
    if a >= 0 then a / 2 else -((-a) / 2)
  }

  function MiddleOf(s: seq<int>): int
    requires |s| > 0
  {
    var n := |s|;
    if n % 2 == 1 then s[n / 2] else Halve(s[n / 2 - 1] + s[n / 2])
  }

  function Median(xs: seq<int>): int
    requires |xs| > 0
  {
    IntLePreorder();
    SortSorts(xs, IntLe());
    MiddleOf(Sort(xs, IntLe()))
  }

  lemma IntLePreorder()
    ensures TotalPreorder(IntLe())
  {
  }

  lemma SortedIntsUnique(a: seq<int>, b: seq<int>)
    requires multiset(a) == multiset(b) && SortedBy(a, IntLe()) && SortedBy(b, IntLe())
    ensures a == b
  {
    SortedUnique(a, b, IntLe());
  }

  method MedianInt64(xs: seq<int>) returns (m: int)
    requires |xs| > 0
    ensures m == Median(xs)
  {
    var s := SortSlice(xs, IntLe());
    SortSorts(xs, IntLe());
    SortedIntsUnique(s, Sort(xs, IntLe()));
    var n := |s|;
    if n % 2 == 1 {
      return s[n / 2];
    }
    m := Halve(s[n / 2 - 1] + s[n / 2]);
  }

  lemma MedianPermuted(a: seq<int>, b: seq<int>)
    requires multiset(a) == multiset(b) && |a| > 0
    ensures |b| > 0 && Median(a) == Median(b)
  {
    assert |multiset(a)| == |multiset(b)|;
    SortSorts(a, IntLe());
    SortSorts(b, IntLe());
    SortedIntsUnique(Sort(a, IntLe()), Sort(b, IntLe()));
  }

  lemma MedianInRange(xs: seq<int>, lo: int, hi: int)
    requires |xs| > 0 && forall x | x in xs :: lo <= x <= hi
    ensures lo <= Median(xs) <= hi
  {
    SortSorts(xs, IntLe());
    var s := Sort(xs, IntLe());
    forall i | 0 <= i < |s|
      ensures lo <= s[i] <= hi
    {
      assert s[i] in s;
    }
  }

  lemma CountBound(s: seq<int>, d: int)
    ensures multiset(s)[d] <= |s|
  {
    assert multiset(s)[d] <= |multiset(s)|;
  }

  lemma CountAbove(s: seq<int>, d: int, k: nat)
    requires SortedBy(s, IntLe()) && k < |s| && s[k] < d
    ensures multiset(s)[d] <= |s| - k - 1
  {
    assert s == s[..k + 1] + s[k + 1..];
    forall i | 0 <= i <= k
      ensures s[i] < d
    {
      assert i == k || IntLe()(s[i], s[k]);
    }
    assert d !in s[..k + 1];
    CountBound(s[k + 1..], d);
  }

  lemma CountBelow(s: seq<int>, d: int, k: nat)
    requires SortedBy(s, IntLe()) && k < |s| && s[k] > d
    ensures multiset(s)[d] <= k
  {
    assert s == s[..k] + s[k..];
    forall i | k <= i < |s|
      ensures s[i] > d
    {
      assert i == k || IntLe()(s[k], s[i]);
    }
    assert d !in s[k..];
    CountBound(s[..k], d);
  }

  lemma MajorityAt(s: seq<int>, d: int, k: nat)
    requires SortedBy(s, IntLe()) && k < |s|
    requires multiset(s)[d] > k && multiset(s)[d] >= |s| - k
    ensures s[k] == d
  {
    if s[k] < d {
      CountAbove(s, d, k);
    } else if s[k] > d {
      CountBelow(s, d, k);
    }
  }

  /** When more than half of the values agree, the median is their common value. */
  lemma MedianMajority(xs: seq<int>, d: int)
    requires |xs| > 0 && 2 * multiset(xs)[d] > |xs|
    ensures Median(xs) == d
  {
    SortSorts(xs, IntLe());
    var s := Sort(xs, IntLe());
    var n := |s|;
    assert multiset(s)[d] == multiset(xs)[d];
    MajorityMiddle(s, d);
  }

  lemma MajorityMiddle(s: seq<int>, d: int)
    requires |s| > 0 && SortedBy(s, IntLe()) && 2 * multiset(s)[d] > |s|
    ensures MiddleOf(s) == d
  {
    var n := |s|;
    MajorityAt(s, d, n / 2);
    if n % 2 == 0 {
      MajorityAt(s, d, n / 2 - 1);
    }
  }
}
