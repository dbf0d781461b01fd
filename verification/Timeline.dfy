/** The gap-walk of group.go: cutting a sorted timeline into buckets, against 1-D proximity components. */
module Timeline {
  import opened Seqs
  import opened Reach

  datatype RunFile = RunFile(id: int, device: string, at: Option<int>)

  /** The order of sortRunFiles: timed files first, by time, ties by id. */
  function RunLe(): (RunFile, RunFile) -> bool {
    (a: RunFile, b: RunFile) =>
      if a.at.Some? != b.at.Some? then a.at.Some?
      else if a.at.Some? && a.at.value != b.at.value then a.at.value < b.at.value
      else a.id <= b.id
  }

  predicate AllTimed(s: seq<RunFile>) {
    forall i | 0 <= i < |s| :: s[i].at.Some?
  }

  ghost predicate DistinctIds(s: seq<RunFile>) {
    forall i, j | 0 <= i < j < |s| :: s[i].id != s[j].id
  }

  /** Non-decreasing times. */
  predicate InTimeOrder(s: seq<RunFile>)
    requires AllTimed(s)
  {
    forall i, j | 0 <= i < j < |s| :: s[i].at.value <= s[j].at.value
  }

  // ------------------------------------------------------------- sorting

  lemma RunLePreorder()
    ensures TotalPreorder(RunLe())
  {
  }

  lemma RunLeAntisymmetric(s: seq<RunFile>)
    requires DistinctIds(s)
    ensures AntisymmetricOn(s, RunLe())
  {
    forall x, y | x in s && y in s && RunLe()(x, y) && RunLe()(y, x)
      ensures x == y
    {
      var i :| 0 <= i < |s| && s[i] == x;
      var j :| 0 <= j < |s| && s[j] == y;
      assert x.id == y.id;
    }
  }

  lemma PermutedDistinct(s: seq<RunFile>, t: seq<RunFile>)
    requires DistinctIds(s) && multiset(s) == multiset(t)
    ensures DistinctIds(t) && |t| == |s| && ToSet(t) == ToSet(s)
  {
    assert |multiset(s)| == |multiset(t)|;
    MultisetNoDup(s, t);
    forall x
      ensures x in s <==> x in t
    {
      assert x in multiset(s) <==> x in multiset(t);
    }
    forall i, j | 0 <= i < j < |t|
      ensures t[i].id != t[j].id
    {
      assert t[i] in s && t[j] in s;
      var a :| 0 <= a < |s| && s[a] == t[i];
      var b :| 0 <= b < |s| && s[b] == t[j];
      assert t[i] != t[j];
      assert a != b;
    }
  }

  /** sortRunFiles. Ids are distinct, so the outcome is the one sorted arrangement. */
  method SortRunFiles(s: seq<RunFile>) returns (r: seq<RunFile>)
    requires DistinctIds(s)
    ensures r == Sort(s, RunLe())
  {
    RunLePreorder();
    r := SortSlice(s, RunLe());
    SortSorts(s, RunLe());
    PermutedDistinct(s, r);
    RunLeAntisymmetric(r);
    SortedUnique(r, Sort(s, RunLe()), RunLe());
  }

  lemma SortedRunFacts(s: seq<RunFile>)
    requires DistinctIds(s)
    ensures DistinctIds(Sort(s, RunLe())) && ToSet(Sort(s, RunLe())) == ToSet(s)
    ensures SortedBy(Sort(s, RunLe()), RunLe())
  {
    RunLePreorder();
    SortSorts(s, RunLe());
    PermutedDistinct(s, Sort(s, RunLe()));
  }

  function IsTimed(): RunFile -> bool {
    (f: RunFile) => f.at.Some?
  }

  function IsUntimed(): RunFile -> bool {
    (f: RunFile) => f.at.None?
  }

  function TimedOf(s: seq<RunFile>): (r: seq<RunFile>)
    ensures AllTimed(r)
  {
    var r := Filter(s, IsTimed());
    assert forall i | 0 <= i < |r| :: r[i] in r;
    r
  }

  function UntimedOf(s: seq<RunFile>): seq<RunFile> {
    Filter(s, IsUntimed())
  }

  /** In sorted order the timed files form a prefix. */
  lemma {:induction false} TimedPrefix(s: seq<RunFile>)
    requires SortedBy(s, RunLe())
    ensures s == TimedOf(s) + UntimedOf(s)
  {
    if s != [] {
      TimedPrefix(s[1..]);
      if s[0].at.None? {
        forall x | x in s
          ensures x.at.None?
        {
          var i :| 0 <= i < |s| && s[i] == x;
          if i > 0 {
            assert RunLe()(s[0], s[i]);
          }
        }
        FilterAll(s, IsUntimed());
        FilterNone(s, IsTimed());
      }
    }
  }

  lemma {:induction false} FilterSorted(s: seq<RunFile>, p: RunFile -> bool)
    requires SortedBy(s, RunLe())
    ensures SortedBy(Filter(s, p), RunLe())
  {
    if s != [] {
      FilterSorted(s[1..], p);
      var t := Filter(s[1..], p);
      forall k | 0 <= k < |t|
        ensures RunLe()(s[0], t[k])
      {
        assert t[k] in s[1..];
      }
      SortedCons(s[0], t, RunLe());
    }
  }

  lemma {:induction false} FilterDistinct(s: seq<RunFile>, p: RunFile -> bool)
    requires DistinctIds(s)
    ensures DistinctIds(Filter(s, p))
  {
    if s != [] {
      FilterDistinct(s[1..], p);
      var t := Filter(s[1..], p);
      forall k | 0 <= k < |t|
        ensures t[k].id != s[0].id
      {
        assert t[k] in s[1..];
      }
    }
  }

  lemma SortedInTimeOrder(s: seq<RunFile>)
    requires SortedBy(s, RunLe()) && AllTimed(s)
    ensures InTimeOrder(s)
  {
    forall i, j | 0 <= i < j < |s|
      ensures s[i].at.value <= s[j].at.value
    {
      assert RunLe()(s[i], s[j]);
    }
  }

  // ------------------------------------------------------------- buckets

  /** A new bucket starts at position i: the gap to the previous shot exceeds the limit. */
  predicate Break(s: seq<RunFile>, gap: int, i: int)
    requires AllTimed(s) && 0 < i < |s|
  {
    s[i].at.value - s[i - 1].at.value > gap
  }

  function ExtendLast(r: seq<seq<RunFile>>, f: RunFile): seq<seq<RunFile>>
    requires r != []
  {
    r[..|r| - 1] + [r[|r| - 1] + [f]]
  }

  /** The buckets of a timeline, in order. */
  function GapBuckets(s: seq<RunFile>, gap: int): (r: seq<seq<RunFile>>)
    requires AllTimed(s)
    ensures s != [] ==> |r| > 0
    ensures forall b | 0 <= b < |r| :: |r[b]| > 0
  {
    if s == [] then []
    else
      var n := |s| - 1;
      var r := GapBuckets(s[..n], gap);
      if n == 0 || Break(s, gap, n) then r + [[s[n]]]
      else ExtendLast(r, s[n])
  }

  /** The number of bucket starts at positions 1..i. */
  function BucketNo(s: seq<RunFile>, gap: int, i: nat): nat
    requires AllTimed(s) && i < |s|
  {
    if i == 0 then 0 else BucketNo(s, gap, i - 1) + if Break(s, gap, i) then 1 else 0
  }

  lemma {:induction false} BucketNoPrefix(s: seq<RunFile>, gap: int, n: nat, i: nat)
    requires AllTimed(s) && i < n <= |s|
    ensures BucketNo(s[..n], gap, i) == BucketNo(s, gap, i)
  {
    if i > 0 {
      BucketNoPrefix(s, gap, n, i - 1);
      assert s[..n][i] == s[i] && s[..n][i - 1] == s[i - 1];
    }
  }

  lemma {:induction false} BucketNoMonotone(s: seq<RunFile>, gap: int, i: nat, j: nat)
    requires AllTimed(s) && i <= j < |s|
    ensures BucketNo(s, gap, i) <= BucketNo(s, gap, j)
    ensures BucketNo(s, gap, i) == BucketNo(s, gap, j) <==> forall k | i < k <= j :: !Break(s, gap, k)
    decreases j
  {
    if i < j {
      BucketNoMonotone(s, gap, i, j - 1);
    }
  }

  /** f lies at a position with bucket number b. */
  ghost predicate HasNumber(s: seq<RunFile>, gap: int, f: RunFile, b: int)
    requires AllTimed(s)
  {
    exists k: nat :: k < |s| && s[k] == f && BucketNo(s, gap, k) == b
  }

  /** Bucket b holds exactly the files whose position has bucket number b. */
  ghost predicate Numbered(s: seq<RunFile>, gap: int, r: seq<seq<RunFile>>)
    requires AllTimed(s)
  {
    && (s == [] ==> r == [])
    && (s != [] ==> |r| == BucketNo(s, gap, |s| - 1) + 1)
    && (forall b | 0 <= b < |r| :: |r[b]| > 0)
    && (forall b, f | 0 <= b < |r| :: f in r[b] <==> HasNumber(s, gap, f, b))
  }

  /** Which bucket a file lies in after one more shot: the last one in the last bucket, the others where
      they were. */
  lemma NumberedLast(s: seq<RunFile>, gap: int, b: nat, f: RunFile)
    requires s != [] && AllTimed(s) && b < |GapBuckets(s, gap)|
    requires Numbered(s[..|s| - 1], gap, GapBuckets(s[..|s| - 1], gap))
    ensures var before := GapBuckets(s[..|s| - 1], gap);
            f in GapBuckets(s, gap)[b] <==>
            (b < |before| && f in before[b]) || (f == s[|s| - 1] && b == BucketNo(s, gap, |s| - 1))
    ensures |GapBuckets(s, gap)| == BucketNo(s, gap, |s| - 1) + 1
  {
    var n := |s| - 1;
    if n > 0 {
      BucketNoPrefix(s, gap, n, n - 1);
    }
  }

  /** Which files have a bucket number after one more shot. */
  lemma NumberLast(s: seq<RunFile>, gap: int, b: int, f: RunFile)
    requires s != [] && AllTimed(s)
    ensures HasNumber(s, gap, f, b)
            <==> HasNumber(s[..|s| - 1], gap, f, b) || (f == s[|s| - 1] && b == BucketNo(s, gap, |s| - 1))
  {
    var n := |s| - 1;
    var p := s[..n];
    if k: nat :| k < |s| && s[k] == f && BucketNo(s, gap, k) == b {
      if k < n {
        BucketNoPrefix(s, gap, n, k);
        assert p[k] == f;
      }
    }
    if k: nat :| k < n && p[k] == f && BucketNo(p, gap, k) == b {
      BucketNoPrefix(s, gap, n, k);
      assert s[k] == f;
    }
  }

  /** Bucket numbers of a prefix count its buckets. */
  lemma NumberInRange(s: seq<RunFile>, gap: int, k: nat)
    requires AllTimed(s) && Numbered(s, gap, GapBuckets(s, gap)) && k < |s|
    ensures 0 <= BucketNo(s, gap, k) < |GapBuckets(s, gap)|
  {
    BucketNoMonotone(s, gap, 0, k);
    BucketNoMonotone(s, gap, k, |s| - 1);
  }

  lemma {:induction false} NumberedStep(s: seq<RunFile>, gap: int)
    requires s != [] && AllTimed(s)
    requires Numbered(s[..|s| - 1], gap, GapBuckets(s[..|s| - 1], gap))
    ensures Numbered(s, gap, GapBuckets(s, gap))
  {
    var p, r := s[..|s| - 1], GapBuckets(s, gap);
    NumberedLast(s, gap, 0, s[0]);
    forall b, f | 0 <= b < |r|
      ensures f in r[b] <==> HasNumber(s, gap, f, b)
    {
      NumberedLast(s, gap, b, f);
      NumberLast(s, gap, b, f);
      if k: nat :| k < |p| && p[k] == f && BucketNo(p, gap, k) == b {
        NumberInRange(p, gap, k);
      }
    }
  }

  lemma {:induction false} GapBucketsNumbered(s: seq<RunFile>, gap: int)
    requires AllTimed(s)
    ensures Numbered(s, gap, GapBuckets(s, gap))
  {
    if s != [] {
      GapBucketsNumbered(s[..|s| - 1], gap);
      NumberedStep(s, gap);
    }
  }

  /** How one more shot changes the buckets. */
  lemma GapBucketsSnoc(s: seq<RunFile>, f: RunFile, gap: int)
    requires AllTimed(s) && f.at.Some?
    ensures AllTimed(s + [f])
    ensures GapBuckets(s + [f], gap)
            == if s == [] || f.at.value - s[|s| - 1].at.value > gap then GapBuckets(s, gap) + [[f]]
                                        else ExtendLast(GapBuckets(s, gap), f)
  {
    assert (s + [f])[..|s|] == s;
  }

  lemma FlattenExtend(r: seq<seq<RunFile>>, f: RunFile)
    requires r != []
    ensures Flatten(ExtendLast(r, f)) == Flatten(r) + [f]
  {
    var front, last := r[..|r| - 1], r[|r| - 1];
    assert r == front + [last];
    FlattenSnoc(front, last);
    FlattenSnoc(front, last + [f]);
  }

  /** The buckets, in order, are a cut of the timeline: nothing is lost, repeated or reordered. */
  lemma {:induction false} GapBucketsFlatten(s: seq<RunFile>, gap: int)
    requires AllTimed(s)
    ensures Flatten(GapBuckets(s, gap)) == s
  {
    if s != [] {
      var n := |s| - 1;
      var r := GapBuckets(s[..n], gap);
      GapBucketsFlatten(s[..n], gap);
      assert s == s[..n] + [s[n]];
      FlattenSnoc(r, [s[n]]);
      if r != [] {
        FlattenExtend(r, s[n]);
      }
    }
  }

  // ------------------------------------------------- proximity components

  /** Two timed shots at most gap seconds apart. */
  function Near(gap: int): (RunFile, RunFile) -> bool {
    (a: RunFile, b: RunFile) => a.at.Some? && b.at.Some? && -gap <= a.at.value - b.at.value <= gap
  }

  lemma NearSymmetric(gap: int)
    ensures Symmetric(Near(gap))
  {
  }

  lemma {:induction false} SameNumberConnected(s: seq<RunFile>, gap: int, i: nat, j: nat)
    requires AllTimed(s) && InTimeOrder(s)
    requires i <= j < |s| && BucketNo(s, gap, i) == BucketNo(s, gap, j)
    ensures Connected(ToSet(s), Near(gap), s[i], s[j])
    decreases j
  {
    if i == j {
      ConnectedSelf(ToSet(s), Near(gap), s[i]);
    } else {
      BucketNoMonotone(s, gap, i, j);
      BucketNoMonotone(s, gap, i, j - 1);
      assert !Break(s, gap, j);
      SameNumberConnected(s, gap, i, j - 1);
      ConnectedEdge(ToSet(s), Near(gap), s[j - 1], s[j]);
      ConnectedTransitive(ToSet(s), Near(gap), s[i], s[j - 1], s[j]);
    }
  }

  lemma NearSameNumber(s: seq<RunFile>, gap: int, i: nat, j: nat)
    requires AllTimed(s) && InTimeOrder(s)
    requires i < |s| && j < |s| && Near(gap)(s[i], s[j])
    ensures BucketNo(s, gap, i) == BucketNo(s, gap, j)
  {
    var a, b := if i <= j then i else j, if i <= j then j else i;
    forall k | a < k <= b
      ensures !Break(s, gap, k)
    {
      assert s[a].at.value <= s[k - 1].at.value && s[k].at.value <= s[b].at.value;
    }
    BucketNoMonotone(s, gap, a, b);
  }

  ghost function IndexOf(s: seq<RunFile>, f: RunFile): (i: nat)
    requires f in s
    ensures i < |s| && s[i] == f
  {
    var i: nat :| i < |s| && s[i] == f;
    i
  }

  /** Gap buckets are the 1-D proximity components: two shots of a sorted timeline get the same
      bucket number iff hops of at most gap seconds lead from one to the other. */
  lemma BucketsAreComponents(s: seq<RunFile>, gap: int, i: nat, j: nat)
    requires AllTimed(s) && InTimeOrder(s) && DistinctIds(s)
    requires i < |s| && j < |s|
    ensures BucketNo(s, gap, i) == BucketNo(s, gap, j) <==> Connected(ToSet(s), Near(gap), s[i], s[j])
  {
    NearSymmetric(gap);
    if BucketNo(s, gap, i) == BucketNo(s, gap, j) {
      if i <= j {
        SameNumberConnected(s, gap, i, j);
      } else {
        SameNumberConnected(s, gap, j, i);
        ConnectedSymmetric(ToSet(s), Near(gap), s[j], s[i]);
      }
    }
    if Connected(ToSet(s), Near(gap), s[i], s[j]) {
      var mark := map f | f in ToSet(s) :: BucketNo(s, gap, IndexOf(s, f));
      forall x, y | x in ToSet(s) && y in ToSet(s) && Near(gap)(x, y)
        ensures mark[x] == mark[y]
      {
        NearSameNumber(s, gap, IndexOf(s, x), IndexOf(s, y));
      }
      ConnectedLabel(ToSet(s), Near(gap), mark, s[i], s[j]);
      assert IndexOf(s, s[i]) == i && IndexOf(s, s[j]) == j;
    }
  }

  /** A bucket of a sorted timeline is the component of any of its members. */
  lemma BucketIsComponent(s: seq<RunFile>, gap: int, b: nat, f: RunFile)
    requires AllTimed(s) && InTimeOrder(s) && DistinctIds(s)
    requires b < |GapBuckets(s, gap)| && f in GapBuckets(s, gap)[b]
    ensures ToSet(GapBuckets(s, gap)[b]) == set g | g in ToSet(s) && Connected(ToSet(s), Near(gap), f, g)
  {
    GapBucketsNumbered(s, gap);
    var r := GapBuckets(s, gap);
    var k: nat :| k < |s| && s[k] == f && BucketNo(s, gap, k) == b;
    forall g
      ensures g in r[b] <==> g in ToSet(s) && Connected(ToSet(s), Near(gap), f, g)
    {
      if g in r[b] {
        var m: nat :| m < |s| && s[m] == g && BucketNo(s, gap, m) == b;
        BucketsAreComponents(s, gap, k, m);
      }
      if g in ToSet(s) && Connected(ToSet(s), Near(gap), f, g) {
        var m: nat :| m < |s| && s[m] == g;
        BucketsAreComponents(s, gap, k, m);
      }
    }
  }

  lemma BucketMembers(s: seq<RunFile>, gap: int, b: nat)
    requires AllTimed(s) && b < |GapBuckets(s, gap)|
    ensures |GapBuckets(s, gap)[b]| > 0 && AllTimed(GapBuckets(s, gap)[b])
    ensures forall f | f in GapBuckets(s, gap)[b] :: f in s
  {
    GapBucketsNumbered(s, gap);
    var r := GapBuckets(s, gap)[b];
    forall f | f in r
      ensures f in s && f.at.Some?
    {
      var k: nat :| k < |s| && s[k] == f && BucketNo(s, gap, k) == b;
    }
    forall i | 0 <= i < |r|
      ensures r[i].at.Some?
    {
      assert r[i] in r;
    }
  }

  lemma OrderSnoc(bucket: seq<RunFile>, f: RunFile)
    requires AllTimed(bucket) && InTimeOrder(bucket) && f.at.Some?
    requires forall g: RunFile | g in bucket :: g.at.Some? && g.at.value <= f.at.value
    ensures AllTimed(bucket + [f]) && InTimeOrder(bucket + [f])
  {
    assert forall k | 0 <= k < |bucket| :: bucket[k] in bucket;
  }

  /** Where the buckets of a timeline come from: one of the buckets before the last shot, that bucket with
      the shot added, or the shot alone. */
  lemma BucketCases(s: seq<RunFile>, gap: int, b: nat)
    requires AllTimed(s) && s != [] && b < |GapBuckets(s, gap)|
    ensures var n, r := |s| - 1, GapBuckets(s[..|s| - 1], gap);
            || GapBuckets(s, gap)[b] == [s[n]]
            || (b < |r| && (GapBuckets(s, gap)[b] == r[b] || GapBuckets(s, gap)[b] == r[b] + [s[n]]))
  {
  }

  lemma {:induction false} BucketInTimeOrder(s: seq<RunFile>, gap: int, b: nat)
    requires AllTimed(s) && InTimeOrder(s) && b < |GapBuckets(s, gap)|
    ensures AllTimed(GapBuckets(s, gap)[b]) && InTimeOrder(GapBuckets(s, gap)[b])
    decreases |s|
  {
    var n := |s| - 1;
    var bucket, r := GapBuckets(s, gap)[b], GapBuckets(s[..n], gap);
    BucketCases(s, gap, b);
    if b < |r| && bucket != [s[n]] {
      BucketInTimeOrder(s[..n], gap, b);
      BucketMembers(s[..n], gap, b);
      forall g: RunFile | g in r[b]
        ensures g.at.Some? && g.at.value <= s[n].at.value
      {
        var k :| 0 <= k < n && s[k] == g;
      }
      OrderSnoc(r[b], s[n]);
    }
  }

  /** The first shot of a bucket carries its smallest time. */
  lemma BucketStartIsMinimum(s: seq<RunFile>, gap: int, b: nat)
    requires AllTimed(s) && InTimeOrder(s) && b < |GapBuckets(s, gap)|
    ensures |GapBuckets(s, gap)[b]| > 0 && GapBuckets(s, gap)[b][0].at.Some?
    ensures forall f: RunFile | f in GapBuckets(s, gap)[b] ::
              f.at.Some? && GapBuckets(s, gap)[b][0].at.value <= f.at.value
  {
    BucketMembers(s, gap, b);
    BucketInTimeOrder(s, gap, b);
  }

  // ----------------------------------------------------------- time shift

  function Shift(s: seq<RunFile>, c: int): (r: seq<RunFile>)
    requires AllTimed(s)
    ensures |r| == |s| && AllTimed(r)
  {
    seq(|s|, i requires 0 <= i < |s| => s[i].(at := Some(s[i].at.value + c)))
  }

  function ShiftFile(f: RunFile, c: int): RunFile {
    if f.at.Some? then f.(at := Some(f.at.value + c)) else f
  }

  function ShiftBucket(b: seq<RunFile>, c: int): seq<RunFile> {
    Map(b, (f: RunFile) => ShiftFile(f, c))
  }

  function ShiftBuckets(r: seq<seq<RunFile>>, c: int): seq<seq<RunFile>> {
    Map(r, (b: seq<RunFile>) => ShiftBucket(b, c))
  }

  lemma ShiftBucketAppend(b: seq<RunFile>, f: RunFile, c: int)
    ensures ShiftBucket(b + [f], c) == ShiftBucket(b, c) + [ShiftFile(f, c)]
  {
    var l, r := ShiftBucket(b + [f], c), ShiftBucket(b, c) + [ShiftFile(f, c)];
    assert forall i | 0 <= i < |l| :: l[i] == r[i];
  }

  lemma ShiftAppend(r: seq<seq<RunFile>>, b: seq<RunFile>, c: int)
    ensures ShiftBuckets(r + [b], c) == ShiftBuckets(r, c) + [ShiftBucket(b, c)]
  {
    var l, t := ShiftBuckets(r + [b], c), ShiftBuckets(r, c) + [ShiftBucket(b, c)];
    assert forall i | 0 <= i < |l| :: l[i] == t[i];
  }

  lemma ShiftExtend(r: seq<seq<RunFile>>, f: RunFile, c: int)
    requires r != []
    ensures ShiftBuckets(ExtendLast(r, f), c) == ExtendLast(ShiftBuckets(r, c), ShiftFile(f, c))
  {
    var front, last := r[..|r| - 1], r[|r| - 1];
    ShiftBucketAppend(last, f, c);
    ShiftAppend(front, last + [f], c);
    assert r == front + [last];
    ShiftAppend(front, last, c);
    assert ShiftBuckets(r, c)[..|r| - 1] == ShiftBuckets(front, c);
  }

  lemma ShiftKeepsBreaks(s: seq<RunFile>, gap: int, c: int, n: nat)
    requires AllTimed(s) && 0 < n < |s|
    ensures Break(Shift(s, c), gap, n) <==> Break(s, gap, n)
  {
  }

  /** The last step of the walk over the shifted timeline is the shifted last step. */
  lemma ShiftedStep(r: seq<seq<RunFile>>, f: RunFile, starts: bool, c: int)
    requires !starts ==> |r| > 0
    ensures (if starts then ShiftBuckets(r, c) + [[ShiftFile(f, c)]]
              else ExtendLast(ShiftBuckets(r, c), ShiftFile(f, c)))
            == ShiftBuckets(if starts then r + [[f]] else ExtendLast(r, f), c)
  {
    if starts {
      assert ShiftBucket([f], c) == [ShiftFile(f, c)];
      ShiftAppend(r, [f], c);
    } else {
      ShiftExtend(r, f, c);
    }
  }

  lemma GapBucketsStep(s: seq<RunFile>, gap: int)
    requires AllTimed(s) && s != []
    ensures var n, r := |s| - 1, GapBuckets(s[..|s| - 1], gap);
            GapBuckets(s, gap) == if n == 0 || Break(s, gap, n) then r + [[s[n]]] else ExtendLast(r, s[n])
  {
  }

  /** Moving a whole timeline by a constant moves every bucket and changes no membership. */
  lemma {:induction false} ShiftedBuckets(s: seq<RunFile>, gap: int, c: int)
    requires AllTimed(s)
    ensures GapBuckets(Shift(s, c), gap) == ShiftBuckets(GapBuckets(s, gap), c)
  {
    if s != [] {
      var n, t := |s| - 1, Shift(s, c);
      var before := GapBuckets(s[..n], gap);
      assert t[..n] == Shift(s[..n], c) && t[n] == ShiftFile(s[n], c);
      assert GapBuckets(t[..n], gap) == ShiftBuckets(before, c) by {
        ShiftedBuckets(s[..n], gap, c);
      }
      if n > 0 {
        ShiftKeepsBreaks(s, gap, c, n);
      }
      GapBucketsStep(s, gap);
      GapBucketsStep(t, gap);
      ShiftedStep(before, s[n], n == 0 || Break(s, gap, n), c);
    }
  }
}
