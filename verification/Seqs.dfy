/** Sequences, sorting and orders shared by every component. */
module Seqs {

  datatype Option<+T> = None | Some(value: T)

  ghost predicate NoDup<T>(s: seq<T>) {
    forall i, j | 0 <= i < j < |s| :: s[i] != s[j]
  }

  function ToSet<T(!new)>(s: seq<T>): (r: set<T>)
    ensures forall x :: x in r <==> x in s
  {
    set x | x in s
  }

  function Filter<T(!new)>(s: seq<T>, p: T -> bool): (r: seq<T>)
    ensures forall x :: x in r <==> x in s && p(x)
  {
    if s == [] then []
    else if p(s[0]) then [s[0]] + Filter(s[1..], p)
    else Filter(s[1..], p)
  }

  lemma FilterSnoc<T(!new)>(s: seq<T>, x: T, p: T -> bool)
    ensures Filter(s + [x], p) == Filter(s, p) + (if p(x) then [x] else [])
  {
    if s == [] {
      assert [x][1..] == [];
    } else {
      assert (s + [x])[1..] == s[1..] + [x];
      FilterSnoc(s[1..], x, p);
    }
  }

  lemma FilterConcat<T(!new)>(s: seq<T>, t: seq<T>, p: T -> bool)
    ensures Filter(s + t, p) == Filter(s, p) + Filter(t, p)
  {
    if s == [] {
      assert s + t == t;
    } else {
      assert (s + t)[1..] == s[1..] + t;
      FilterConcat(s[1..], t, p);
    }
  }

  lemma FilterAll<T(!new)>(s: seq<T>, p: T -> bool)
    requires forall x | x in s :: p(x)
    ensures Filter(s, p) == s
  {
  }

  lemma FilterNone<T(!new)>(s: seq<T>, p: T -> bool)
    requires forall x | x in s :: !p(x)
    ensures Filter(s, p) == []
  {
  }

  /** The multiset of a filtered sequence depends on the multiset of its source only. */
  lemma FilterMultiset<T(!new)>(s: seq<T>, p: T -> bool)
    ensures forall x :: multiset(Filter(s, p))[x] == if p(x) then multiset(s)[x] else 0
  {
    if s != [] {
      assert s == [s[0]] + s[1..];
      FilterMultiset(s[1..], p);
    }
  }

  function Map<A, B>(s: seq<A>, f: A -> B): (r: seq<B>)
    ensures |r| == |s| && forall i | 0 <= i < |s| :: r[i] == f(s[i])
  {
    seq(|s|, i requires 0 <= i < |s| => f(s[i]))
  }

  function Flatten<T>(ss: seq<seq<T>>): seq<T> {
    if ss == [] then [] else ss[0] + Flatten(ss[1..])
  }

  lemma FlattenConcat<T>(a: seq<seq<T>>, b: seq<seq<T>>)
    ensures Flatten(a + b) == Flatten(a) + Flatten(b)
  {
    if a == [] {
      assert a + b == b;
    } else {
      assert (a + b)[1..] == a[1..] + b;
      FlattenConcat(a[1..], b);
    }
  }

  lemma FlattenSnoc<T>(a: seq<seq<T>>, b: seq<T>)
    ensures Flatten(a + [b]) == Flatten(a) + b
  {
    FlattenConcat(a, [b]);
    assert [b][1..] == [];
    assert Flatten([b]) == b;
  }

  lemma FlattenPrefix<T>(ss: seq<seq<T>>, i: nat)
    requires i < |ss|
    ensures Flatten(ss[..i + 1]) == Flatten(ss[..i]) + ss[i]
  {
    assert ss[..i + 1] == ss[..i] + [ss[i]];
    FlattenSnoc(ss[..i], ss[i]);
  }

  /** Every part is a slice of the whole. */
  lemma FlattenSlice<T>(ss: seq<seq<T>>, b: nat) returns (k: nat)
    requires b < |ss|
    ensures k + |ss[b]| <= |Flatten(ss)| && Flatten(ss)[k..k + |ss[b]|] == ss[b]
  {
    var rest := Flatten(ss[1..]);
    if b == 0 {
      k := 0;
      assert (ss[0] + rest)[..|ss[0]|] == ss[0];
    } else {
      var j := FlattenSlice(ss[1..], b - 1);
      k := |ss[0]| + j;
      SliceAfter(ss[0], rest, j, j + |ss[b]|);
    }
  }

  lemma SliceAfter<T>(a: seq<T>, b: seq<T>, i: nat, j: nat)
    requires i <= j <= |b|
    ensures (a + b)[|a| + i..|a| + j] == b[i..j]
  {
  }

  lemma FlattenMember<T>(ss: seq<seq<T>>, x: T)
    ensures x in Flatten(ss) <==> exists i :: 0 <= i < |ss| && x in ss[i]
  {
    if ss != [] {
      FlattenMember(ss[1..], x);
      if x in Flatten(ss[1..]) {
        var i :| 0 <= i < |ss[1..]| && x in ss[1..][i];
        assert x in ss[i + 1];
      }
      if i :| 0 <= i < |ss| && x in ss[i] {
        if i > 0 {
          assert ss[1..][i - 1] == ss[i];
        }
      }
    }
  }

  // ---------------------------------------------------------------- sorting

  ghost predicate TotalPreorder<T(!new)>(le: (T, T) -> bool) {
    && (forall x, y :: le(x, y) || le(y, x))
    && (forall x, y, z :: le(x, y) && le(y, z) ==> le(x, z))
  }

  predicate SortedBy<T>(s: seq<T>, le: (T, T) -> bool) {
    forall i, j | 0 <= i < j < |s| :: le(s[i], s[j])
  }

  ghost predicate AntisymmetricOn<T>(s: seq<T>, le: (T, T) -> bool) {
    forall x, y | x in s && y in s && le(x, y) && le(y, x) :: x == y
  }

  function InsertSorted<T>(s: seq<T>, x: T, le: (T, T) -> bool): seq<T> {
    if s == [] then [x]
    else if le(x, s[0]) then [x] + s
    else [s[0]] + InsertSorted(s[1..], x, le)
  }

  lemma InsertSortedElements<T>(s: seq<T>, x: T, le: (T, T) -> bool)
    ensures multiset(InsertSorted(s, x, le)) == multiset(s) + multiset{x}
  {
    if s != [] {
      assert s == [s[0]] + s[1..];
      if !le(x, s[0]) {
        InsertSortedElements(s[1..], x, le);
      }
    }
  }

  lemma SortedCons<T>(x: T, t: seq<T>, le: (T, T) -> bool)
    requires SortedBy(t, le)
    requires forall k | 0 <= k < |t| :: le(x, t[k])
    ensures SortedBy([x] + t, le)
  {
  }

  lemma InsertSortedKeeps<T(!new)>(s: seq<T>, x: T, le: (T, T) -> bool)
    requires TotalPreorder(le) && SortedBy(s, le)
    ensures SortedBy(InsertSorted(s, x, le), le)
    ensures multiset(InsertSorted(s, x, le)) == multiset(s) + multiset{x}
  {
    InsertSortedElements(s, x, le);
    if s == [] {
    } else if le(x, s[0]) {
      SortedCons(x, s, le);
    } else {
      InsertSortedKeeps(s[1..], x, le);
      var t := InsertSorted(s[1..], x, le);
      forall k | 0 <= k < |t|
        ensures le(s[0], t[k])
      {
        assert t[k] in multiset(s[1..]) + multiset{x};
        assert t[k] == x || t[k] in s[1..];
      }
      SortedCons(s[0], t, le);
    }
  }

  /** The sorted arrangement of a sequence. */
  function Sort<T>(s: seq<T>, le: (T, T) -> bool): seq<T> {
    if s == [] then [] else InsertSorted(Sort(s[1..], le), s[0], le)
  }

  lemma SortSorts<T(!new)>(s: seq<T>, le: (T, T) -> bool)
    requires TotalPreorder(le)
    ensures SortedBy(Sort(s, le), le)
    ensures multiset(Sort(s, le)) == multiset(s)
    ensures |Sort(s, le)| == |s|
    ensures forall x :: x in Sort(s, le) <==> x in s
  {
    SortArranges(s, le);
    SameMultiset(Sort(s, le), s);
  }

  lemma {:induction false} SortArranges<T(!new)>(s: seq<T>, le: (T, T) -> bool)
    requires TotalPreorder(le)
    ensures SortedBy(Sort(s, le), le) && multiset(Sort(s, le)) == multiset(s)
  {
    if s != [] {
      SortArranges(s[1..], le);
      InsertSortedKeeps(Sort(s[1..], le), s[0], le);
      assert s == [s[0]] + s[1..];
    }
  }

  lemma SameMultiset<T(!new)>(a: seq<T>, b: seq<T>)
    requires multiset(a) == multiset(b)
    ensures |a| == |b| && forall x :: x in a <==> x in b
  {
    assert |multiset(a)| == |multiset(b)|;
    forall x
      ensures x in a <==> x in b
    {
      assert x in multiset(a) <==> x in multiset(b);
    }
  }

  lemma SortedHeads<T>(a: seq<T>, b: seq<T>, le: (T, T) -> bool)
    requires SortedBy(a, le) && SortedBy(b, le)
    requires |a| > 0 && |b| > 0 && a[0] in b && b[0] in a
    requires AntisymmetricOn(a, le)
    ensures a[0] == b[0]
  {
    var i :| 0 <= i < |b| && b[i] == a[0];
    var j :| 0 <= j < |a| && a[j] == b[0];
    if i != 0 && j != 0 {
      assert le(b[0], b[i]) && le(a[0], a[j]);
    }
  }

  lemma RemoveAt<T>(t: seq<T>, i: nat)
    requires i < |t|
    ensures multiset(t[..i] + t[i + 1..]) == multiset(t) - multiset{t[i]}
  {
    assert t == t[..i] + [t[i]] + t[i + 1..];
  }

  lemma TailElements<T>(a: seq<T>)
    requires a != []
    ensures multiset(a[1..]) == multiset(a) - multiset{a[0]}
    ensures forall x | x in a[1..] :: x in a
  {
    assert a == [a[0]] + a[1..];
  }

  /** Two sorted arrangements of the same elements agree when ties are equal elements. */
  lemma {:induction false} SortedUnique<T>(a: seq<T>, b: seq<T>, le: (T, T) -> bool)
    requires SortedBy(a, le) && SortedBy(b, le)
    requires multiset(a) == multiset(b)
    requires AntisymmetricOn(a, le)
    ensures a == b
  {
    assert |multiset(a)| == |a| && |multiset(b)| == |b|;
    if a != [] {
      assert a[0] in multiset(b) && b[0] in multiset(a);
      SortedHeads(a, b, le);
      TailElements(a);
      TailElements(b);
      SortedUnique(a[1..], b[1..], le);
      assert a == [a[0]] + a[1..] && b == [b[0]] + b[1..];
    }
  }

  lemma MultisetNoDup<T>(a: seq<T>, b: seq<T>)
    requires multiset(a) == multiset(b) && NoDup(a)
    ensures NoDup(b)
  {
    forall i, j | 0 <= i < j < |b|
      ensures b[i] != b[j]
    {
      if b[i] == b[j] {
        assert b == b[..j] + [b[j]] + b[j + 1..];
        assert b[i] in b[..j];
        assert multiset(b)[b[i]] >= 2;
        NoDupCount(a, b[i]);
      }
    }
  }

  lemma NoDupCount<T>(a: seq<T>, x: T)
    requires NoDup(a)
    ensures multiset(a)[x] <= 1
  {
    if a != [] {
      assert a == [a[0]] + a[1..];
      NoDupCount(a[1..], x);
      if a[0] == x {
        assert x !in a[1..];
        assert x !in multiset(a[1..]);
      }
    }
  }

  /** Stands for Go's sort.Slice / sort.SliceStable: callers know only that the result is a
      sorted permutation, so whatever they prove holds for every treatment of ties. */
  method SortSlice<T(!new)>(s: seq<T>, le: (T, T) -> bool) returns (r: seq<T>)
    requires TotalPreorder(le)
    ensures SortedBy(r, le)
    ensures multiset(r) == multiset(s)
  {
    r := [];
    for i := 0 to |s|
      invariant SortedBy(r, le)
      invariant multiset(r) == multiset(s[..i])
    {
      InsertSortedKeeps(r, s[i], le);
      r := InsertSorted(r, s[i], le);
      assert s[..i + 1] == s[..i] + [s[i]];
    }
    assert s[..|s|] == s;
  }

  // ------------------------------------------------------- sets of integers

  predicate Ascending(s: seq<int>) {
    forall i, j | 0 <= i < j < |s| :: s[i] < s[j]
  }

  ghost predicate Least(s: set<int>, m: int) {
    m in s && forall x | x in s :: m <= x
  }

  ghost function MinOf(s: set<int>): (m: int)
    requires s != {}
    ensures Least(s, m)
  {
    assert exists m :: Least(s, m) by {
      var m := MinElement(s);
    }
    var m :| Least(s, m);
    m
  }

  lemma SomeElement<T>(s: set<T>) returns (x: T)
    requires s != {}
    ensures x in s
  {
    x :| x in s;
  }

  lemma SubsetSize<T>(a: set<T>, b: set<T>)
    requires a <= b
    ensures |a| <= |b|
  {
    assert |b| == |a| + |b - a| by {
      assert b == a + (b - a);
    }
  }

  lemma MinElement(s: set<int>) returns (m: int)
    requires s != {}
    ensures Least(s, m)
  {
    var x := SomeElement(s);
    var t := s - {x};
    m := x;
    if t != {} {
      var k := MinElement(t);
      m := if x < k then x else k;
    }
    forall y | y in s
      ensures m <= y
    {
      assert y == x || y in t;
    }
  }

  lemma SetSize(ids: seq<int>)
    requires NoDup(ids)
    ensures |ToSet(ids)| == |ids|
  {
    if ids != [] {
      SetSize(ids[1..]);
      assert ToSet(ids) == {ids[0]} + ToSet(ids[1..]);
    }
  }

  /** The elements of a finite set of integers in ascending order. */
  ghost function Listing(s: set<int>): (r: seq<int>)
    ensures Ascending(r)
    ensures forall x :: x in r <==> x in s
    ensures s != {} ==> |r| > 0 && r[0] == MinOf(s)
  {
    if s == {} then []
    else
      var m := MinOf(s);
      var rest := Listing(s - {m});
      assert forall k | 0 <= k < |rest| :: rest[k] in rest;
      [m] + rest
  }

  lemma AscendingUnique(a: seq<int>, b: seq<int>)
    requires Ascending(a) && Ascending(b)
    requires forall x :: x in a <==> x in b
    ensures a == b
  {
    assert a != [] ==> a[0] in a && a[0] in b;
    assert b != [] ==> b[0] in b && b[0] in a;
    if a != [] {
      assert a[0] == b[0];
      forall x
        ensures x in a[1..] <==> x in b[1..]
      {
        assert x in a <==> x == a[0] || x in a[1..];
        assert x in b <==> x == b[0] || x in b[1..];
      }
      AscendingUnique(a[1..], b[1..]);
    }
  }

  function IntLe(): (int, int) -> bool {
    (a: int, b: int) => a <= b
  }

  lemma SortedIntsAscending(s: seq<int>)
    requires NoDup(s) && SortedBy(s, IntLe())
    ensures Ascending(s)
  {
    forall i, j | 0 <= i < j < |s|
      ensures s[i] < s[j]
    {
      assert IntLe()(s[i], s[j]);
    }
  }

  /** A finite set has a least element under any total preorder. */
  lemma LeastElement<T(!new)>(s: set<T>, le: (T, T) -> bool) returns (m: T)
    requires s != {} && TotalPreorder(le)
    ensures m in s && forall x | x in s :: le(m, x)
  {
    var x := SomeElement(s);
    var t := s - {x};
    m := x;
    if t != {} {
      var k := LeastElement(t, le);
      m := if le(x, k) then x else k;
    }
    forall y | y in s
      ensures le(m, y)
    {
      assert y == x || y in t;
    }
  }

  /** The elements of a set, in the order a loop happens to meet them (Go's map iteration). */
  method Elements(s: set<int>) returns (r: seq<int>)
    ensures NoDup(r) && forall x :: x in r <==> x in s
  {
    r := [];
    var rest := s;
    while rest != {}
      invariant NoDup(r) && rest <= s
      invariant forall x :: x in r <==> x in s && x !in rest
      decreases |rest|
    {
      ghost var some := SomeElement(rest);
      var x :| x in rest;
      r, rest := r + [x], rest - {x};
    }
  }

  lemma SortedListing(s: set<int>, unsorted: seq<int>, sorted: seq<int>)
    requires NoDup(unsorted) && forall x :: x in unsorted <==> x in s
    requires multiset(sorted) == multiset(unsorted) && SortedBy(sorted, IntLe())
    ensures sorted == Listing(s)
  {
    MultisetNoDup(unsorted, sorted);
    SortedIntsAscending(sorted);
    forall x
      ensures x in sorted <==> x in Listing(s)
    {
      assert x in multiset(sorted) <==> x in multiset(unsorted);
    }
    AscendingUnique(sorted, Listing(s));
  }

  /** SELECT id ... ORDER BY id. */
  method SortedElements(s: set<int>) returns (r: seq<int>)
    ensures r == Listing(s)
  {
    var unsorted := Elements(s);
    assert TotalPreorder(IntLe());
    r := SortSlice(unsorted, IntLe());
    SortedListing(s, unsorted, r);
  }
}
