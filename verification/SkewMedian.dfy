/** The median as a rank statistic, and what it means for a clock. */
module SkewMedian {
  import opened Seqs
  import opened Strings
  import opened Visual
  import opened Defs
  import opened Skew
  import opened SkewEstimate

  // ------------------------------------------------------------- symmetry

  /** c - x for every x, last one first. */
  function Mirrored(s: seq<int>, c: int): (r: seq<int>)
    ensures |r| == |s| && forall i | 0 <= i < |s| :: r[i] == c - s[|s| - 1 - i]
  {
    seq(|s|, i requires 0 <= i < |s| => c - s[|s| - 1 - i])
  }

  lemma MirroredSorted(s: seq<int>, c: int)
    requires SortedBy(s, IntLe())
    ensures SortedBy(Mirrored(s, c), IntLe())
  {
    var r := Mirrored(s, c);
    forall i, j | 0 <= i < j < |r|
      ensures IntLe()(r[i], r[j])
    {
      assert IntLe()(s[|s| - 1 - j], s[|s| - 1 - i]);
    }
  }

  lemma {:induction false} MirroredCount(s: seq<int>, c: int, v: int)
    ensures multiset(Mirrored(s, c))[v] == multiset(s)[c - v]
  {
    if s != [] {
      MirroredCount(s[1..], c, v);
      assert Mirrored(s, c) == Mirrored(s[1..], c) + [c - s[0]];
      assert s == [s[0]] + s[1..];
    }
  }

  ghost predicate MirrorsAt(xs: seq<int>, ys: seq<int>, c: int, v: int) {
    multiset(ys)[v] == multiset(xs)[c - v]
  }

  /** ys holds each value as often as xs holds the rest to c. */
  ghost predicate Mirrors(xs: seq<int>, ys: seq<int>, c: int) {
    forall v: int :: MirrorsAt(xs, ys, c, v)
  }

  /** Sorting the mirrored values mirrors the sorted ones. */
  lemma SortMirrored(xs: seq<int>, ys: seq<int>, c: int)
    requires Mirrors(xs, ys, c)
    ensures Sort(ys, IntLe()) == Mirrored(Sort(xs, IntLe()), c)
  {
    IntLePreorder();
    SortSorts(xs, IntLe());
    SortSorts(ys, IntLe());
    var s := Sort(xs, IntLe());
    MirroredSorted(s, c);
    forall v: int
      ensures multiset(Mirrored(s, c))[v] == multiset(ys)[v]
    {
      MirroredCount(s, c, v);
      assert MirrorsAt(xs, ys, c, v);
    }
    assert multiset(Mirrored(s, c)) == multiset(ys);
    SortedIntsUnique(Sort(ys, IntLe()), Mirrored(s, c));
  }

  lemma SortedLength(xs: seq<int>)
    ensures |Sort(xs, IntLe())| == |xs|
  {
    IntLePreorder();
    SortSorts(xs, IntLe());
  }

  lemma MiddleNegated(s: seq<int>, r: seq<int>)
    requires |s| > 0 && r == Mirrored(s, 0)
    ensures MiddleOf(r) == -MiddleOf(s)
  {
    var n := |s|;
    assert r[n / 2] == -s[n - 1 - n / 2];
    if n % 2 == 0 {
      assert r[n / 2 - 1] == -s[n / 2];
    }
  }

  /** The median of the negated values is the negated median. */
  lemma MedianNegated(xs: seq<int>, ys: seq<int>)
    requires |xs| > 0 && |ys| > 0 && Mirrors(xs, ys, 0)
    ensures Median(ys) == -Median(xs)
  {
    SortMirrored(xs, ys, 0);
    SortedLength(xs);
    MiddleNegated(Sort(xs, IntLe()), Sort(ys, IntLe()));
  }

  /** As many values k above c as k below, for every k. */
  ghost predicate SymmetricAbout(xs: seq<int>, c: int) {
    Mirrors(xs, xs, 2 * c)
  }

  lemma MiddleSymmetric(s: seq<int>, c: int)
    requires |s| > 0 && forall i | 0 <= i < |s| :: s[i] + s[|s| - 1 - i] == 2 * c
    ensures MiddleOf(s) == c
  {
    var n := |s|;
    assert s[n / 2] + s[n - 1 - n / 2] == 2 * c;
    assert n % 2 == 1 ==> n - 1 - n / 2 == n / 2;
    assert n % 2 == 0 ==> n - 1 - n / 2 == n / 2 - 1;
  }

  /** The median of values symmetric about c is c, whatever their number. */
  lemma MedianSymmetric(xs: seq<int>, c: int)
    requires |xs| > 0 && SymmetricAbout(xs, c)
    ensures Median(xs) == c
  {
    var s := Sort(xs, IntLe());
    SortMirrored(xs, xs, 2 * c);
    SortedLength(xs);
    forall i | 0 <= i < |s|
      ensures s[i] + s[|s| - 1 - i] == 2 * c
    {
      assert s[i] == Mirrored(s, 2 * c)[i];
    }
    MiddleSymmetric(s, c);
  }

  // ----------------------------------------------------------------- ranks

  function Below(xs: seq<int>, v: int): nat {
    |Filter(xs, (x: int) => x < v)|
  }

  function UpToValue(xs: seq<int>, v: int): nat {
    |Filter(xs, (x: int) => x <= v)|
  }

  /** v is the value at position k when xs is put in ascending order: at most k values are smaller, and more
      than k are not larger. */
  predicate AtRank(xs: seq<int>, k: nat, v: int) {
    v in xs && Below(xs, v) <= k < UpToValue(xs, v)
  }

  lemma {:induction false} FilterShorter<T(!new)>(s: seq<T>, p: T -> bool)
    ensures |Filter(s, p)| <= |s|
  {
    if s != [] {
      FilterShorter(s[1..], p);
    }
  }

  lemma FilterSize(a: seq<int>, b: seq<int>, p: int -> bool)
    requires multiset(a) == multiset(b)
    ensures |Filter(a, p)| == |Filter(b, p)|
  {
    FilterMultiset(a, p);
    FilterMultiset(b, p);
    assert multiset(Filter(a, p)) == multiset(Filter(b, p));
    SameMultiset(Filter(a, p), Filter(b, p));
  }

  lemma SortedBelow(s: seq<int>, k: nat)
    requires SortedBy(s, IntLe()) && k < |s|
    ensures Below(s, s[k]) <= k
  {
    var less := (x: int) => x < s[k];
    assert s == s[..k] + s[k..];
    FilterConcat(s[..k], s[k..], less);
    forall x | x in s[k..]
      ensures !less(x)
    {
      var i :| k <= i < |s| && s[i] == x;
      assert i == k || IntLe()(s[k], s[i]);
    }
    FilterNone(s[k..], less);
    FilterShorter(s[..k], less);
  }

  lemma SortedUpTo(s: seq<int>, k: nat)
    requires SortedBy(s, IntLe()) && k < |s|
    ensures k < UpToValue(s, s[k])
  {
    var most := (x: int) => x <= s[k];
    assert s == s[..k + 1] + s[k + 1..];
    FilterConcat(s[..k + 1], s[k + 1..], most);
    forall x | x in s[..k + 1]
      ensures most(x)
    {
      var i :| 0 <= i <= k && s[i] == x;
      assert i == k || IntLe()(s[i], s[k]);
    }
    FilterAll(s[..k + 1], most);
  }

  lemma SortedRank(s: seq<int>, k: nat)
    requires SortedBy(s, IntLe()) && k < |s|
    ensures AtRank(s, k, s[k])
  {
    SortedBelow(s, k);
    SortedUpTo(s, k);
  }

  /** The sorted values are those at the ranks. */
  lemma SortAtRank(xs: seq<int>, k: nat)
    requires k < |xs|
    ensures |Sort(xs, IntLe())| == |xs| && AtRank(xs, k, Sort(xs, IntLe())[k])
  {
    IntLePreorder();
    SortSorts(xs, IntLe());
    var s := Sort(xs, IntLe());
    SortedRank(s, k);
    FilterSize(s, xs, (x: int) => x < s[k]);
    FilterSize(s, xs, (x: int) => x <= s[k]);
  }

  /** At most one value is at a rank. */
  lemma RankUnique(xs: seq<int>, k: nat, v: int, w: int)
    requires AtRank(xs, k, v) && AtRank(xs, k, w)
    ensures v == w
  {
    if v < w {
      FilterWeaker(xs, (x: int) => x <= v, (x: int) => x < w);
    } else if w < v {
      FilterWeaker(xs, (x: int) => x <= w, (x: int) => x < v);
    }
  }

  lemma {:induction false} FilterWeaker(xs: seq<int>, p: int -> bool, q: int -> bool)
    requires forall x | p(x) :: q(x)
    ensures |Filter(xs, p)| <= |Filter(xs, q)|
  {
    if xs != [] {
      FilterWeaker(xs[1..], p, q);
    }
  }

  /** An odd number of values: the one in the middle. */
  lemma MedianOdd(xs: seq<int>, v: int)
    requires |xs| % 2 == 1
    ensures Median(xs) == v <==> AtRank(xs, |xs| / 2, v)
  {
    SortAtRank(xs, |xs| / 2);
    if AtRank(xs, |xs| / 2, v) {
      RankUnique(xs, |xs| / 2, v, Sort(xs, IntLe())[|xs| / 2]);
    }
  }

  lemma HalfOfMiddle(s: seq<int>, k: nat)
    requires |s| == 2 * k && k > 0
    ensures var sum := s[k - 1] + s[k];
            && (sum >= 0 ==> 2 * MiddleOf(s) <= sum <= 2 * MiddleOf(s) + 1)
            && (sum <= 0 ==> 2 * MiddleOf(s) - 1 <= sum <= 2 * MiddleOf(s))
  {
    assert |s| / 2 == k && |s| % 2 == 0;
  }

  lemma SortedAtRank(xs: seq<int>, k: nat, v: int)
    requires k < |xs| && AtRank(xs, k, v)
    ensures |Sort(xs, IntLe())| == |xs| && Sort(xs, IntLe())[k] == v
  {
    SortAtRank(xs, k);
    RankUnique(xs, k, v, Sort(xs, IntLe())[k]);
  }

  lemma MiddleRanks(xs: seq<int>, k: nat, lo: int, hi: int)
    requires |xs| == 2 * k && k > 0 && AtRank(xs, k - 1, lo) && AtRank(xs, k, hi)
    ensures |Sort(xs, IntLe())| == |xs| && Sort(xs, IntLe())[k - 1] == lo && Sort(xs, IntLe())[k] == hi
  {
    SortedAtRank(xs, k - 1, lo);
    SortedAtRank(xs, k, hi);
  }

  /** An even number of values: half the sum of the two in the middle, without its fraction. */
  lemma MedianEven(xs: seq<int>, lo: int, hi: int)
    requires |xs| > 0 && |xs| % 2 == 0 && AtRank(xs, |xs| / 2 - 1, lo) && AtRank(xs, |xs| / 2, hi)
    ensures lo + hi >= 0 ==> 2 * Median(xs) <= lo + hi <= 2 * Median(xs) + 1
    ensures lo + hi <= 0 ==> 2 * Median(xs) - 1 <= lo + hi <= 2 * Median(xs)
  {
    var k := |xs| / 2;
    MiddleRanks(xs, k, lo, hi);
    HalfOfMiddle(Sort(xs, IntLe()), k);
  }

  // --------------------------------------------------------------- deltas

  /** A pair at most an hour apart whose frames score at least 0.95, and the delta it contributes. */
  predicate Qualifies(r: SkewEntry, o: SkewEntry, embeds: map<int, Embedding>, x: int) {
    && x == o.at - r.at && -3600 <= x <= 3600
    && r.id in embeds && o.id in embeds && Similarity(embeds[r.id], embeds[o.id]) >= 0.95
  }

  ghost predicate FromPair(ref: seq<SkewEntry>, other: seq<SkewEntry>, embeds: map<int, Embedding>, x: int) {
    exists r, o :: r in ref && o in other && Qualifies(r, o, embeds, x)
  }

  lemma DeltaOfIff(r: SkewEntry, o: SkewEntry, embeds: map<int, Embedding>, x: int)
    ensures x in DeltaOf(r, embeds)(o) <==> Qualifies(r, o, embeds, x)
  {
  }

  lemma RowIff(r: SkewEntry, other: seq<SkewEntry>, embeds: map<int, Embedding>, x: int)
    ensures x in RowOf(other, embeds)(r) <==> exists o :: o in other && Qualifies(r, o, embeds, x)
  {
    FlatMapMember(other, DeltaOf(r, embeds), x);
    if o :| o in other && x in DeltaOf(r, embeds)(o) {
      DeltaOfIff(r, o, embeds, x);
    }
    if o :| o in other && Qualifies(r, o, embeds, x) {
      DeltaOfIff(r, o, embeds, x);
    }
  }

  /** Which deltas there are. */
  lemma DeltaIff(ref: seq<SkewEntry>, other: seq<SkewEntry>, embeds: map<int, Embedding>, x: int)
    ensures x in NaiveDeltas(ref, other, embeds) <==> FromPair(ref, other, embeds, x)
  {
    FlatMapMember(ref, RowOf(other, embeds), x);
    if r :| r in ref && x in RowOf(other, embeds)(r) {
      RowIff(r, other, embeds, x);
    }
    if r, o :| r in ref && o in other && Qualifies(r, o, embeds, x) {
      RowIff(r, other, embeds, x);
    }
  }

  // -------------------------------------------------------------- a clock

  /** When a device's qualifying deltas, at least three, are symmetric about c, its offset is c. */
  lemma SkewSymmetric(files: seq<File>, embeds: map<int, Embedding>, ref: string, d: string, c: int)
    requires |SkewDevices(files, embeds)| >= 2 && IsReference(files, embeds, ref)
    requires d in SkewDevices(files, embeds) && d != ref
    requires |NaiveDeltas(Entries(files, embeds, ref), Entries(files, embeds, d), embeds)| >= 3
    requires SymmetricAbout(NaiveDeltas(Entries(files, embeds, ref), Entries(files, embeds, d), embeds), c)
    ensures d in SkewOf(files, embeds) && SkewOf(files, embeds)[d] == c
  {
    assert SkewDevices(files, embeds) != {};
    ReferenceUnique(files, embeds, ref, ReferenceOf(files, embeds));
    MedianSymmetric(NaiveDeltas(Entries(files, embeds, ref), Entries(files, embeds, d), embeds), c);
  }

  /** Fewer than three deltas give no offset. */
  lemma TooFewDeltas(files: seq<File>, embeds: map<int, Embedding>, ref: string, d: string)
    requires IsReference(files, embeds, ref) && d in SkewOf(files, embeds)
    requires |NaiveDeltas(Entries(files, embeds, ref), Entries(files, embeds, d), embeds)| < 3
    ensures SkewOf(files, embeds)[d] == 0
  {
    assert SkewDevices(files, embeds) != {};
    ReferenceUnique(files, embeds, ref, ReferenceOf(files, embeds));
  }

  // ----------------------------------------------------------- two cameras

  /** Two cameras with four frames each, the same frame ten, twenty, thirty and forty seconds apart. */
  function EightFiles(): seq<File> {
    FourA() + FourB()
  }

  function EightFrames(): map<int, Embedding> {
    map[1 := [1.0], 2 := [1.0], 3 := [1.0], 4 := [1.0], 5 := [1.0], 6 := [1.0], 7 := [1.0], 8 := [1.0]]
  }

  lemma FlatMapFour<A, B>(a: A, b: A, c: A, d: A, f: A -> seq<B>)
    ensures FlatMap([a, b, c, d], f) == f(a) + f(b) + f(c) + f(d)
  {
    FlatMapTwo(a, b, f);
    FlatMapTwo(c, d, f);
    FlatMapConcat([a, b], [c, d], f);
    assert [a, b] + [c, d] == [a, b, c, d];
  }

  function EntriesA(): seq<SkewEntry> {
    [SkewEntry(1, 0), SkewEntry(2, 10000), SkewEntry(3, 20000), SkewEntry(4, 30000)]
  }

  function EntriesB(): seq<SkewEntry> {
    [SkewEntry(5, 10), SkewEntry(6, 10020), SkewEntry(7, 20030), SkewEntry(8, 30040)]
  }

  lemma EntriesOfFour(a: File, b: File, c: File, d: File, embeds: map<int, Embedding>, dev: string)
    ensures Entries([a, b, c, d], embeds, dev)
            == EntryOf(embeds, dev)(a) + EntryOf(embeds, dev)(b) + EntryOf(embeds, dev)(c) + EntryOf(embeds, dev)(d)
  {
    FlatMapFour(a, b, c, d, EntryOf(embeds, dev));
  }

  function FourA(): seq<File> {
    [File(1, Some("A"), Some(0)), File(2, Some("A"), Some(10000)), File(3, Some("A"), Some(20000)),
     File(4, Some("A"), Some(30000))]
  }

  function FourB(): seq<File> {
    [File(5, Some("B"), Some(10)), File(6, Some("B"), Some(10020)), File(7, Some("B"), Some(20030)),
     File(8, Some("B"), Some(30040))]
  }

  lemma EntryOn(f: File, dev: string, d: string)
    requires f.deviceKey == Some(dev) && dev != "" && f.capturedAt.Some? && f.id in EightFrames()
    ensures EntryOf(EightFrames(), d)(f) == if d == dev then [SkewEntry(f.id, f.capturedAt.value)] else []
  {
  }

  /** Four files of one device are entries of that device alone. */
  lemma FourEntries(f: seq<File>, dev: string, d: string)
    requires |f| == 4 && dev != ""
    requires forall i | 0 <= i < 4 :: f[i].deviceKey == Some(dev) && f[i].capturedAt.Some? && f[i].id in EightFrames()
    ensures Entries(f, EightFrames(), d)
            == if d == dev then [SkewEntry(f[0].id, f[0].capturedAt.value), SkewEntry(f[1].id, f[1].capturedAt.value),
                                 SkewEntry(f[2].id, f[2].capturedAt.value), SkewEntry(f[3].id, f[3].capturedAt.value)]
               else []
  {
    assert f == [f[0], f[1], f[2], f[3]];
    EntriesOfFour(f[0], f[1], f[2], f[3], EightFrames(), d);
    EntryOn(f[0], dev, d);
    EntryOn(f[1], dev, d);
    EntryOn(f[2], dev, d);
    EntryOn(f[3], dev, d);
  }

  lemma FourAEntries()
    ensures Entries(FourA(), EightFrames(), "A") == EntriesA() && Entries(FourA(), EightFrames(), "B") == []
  {
    FourEntries(FourA(), "A", "A");
    FourEntries(FourA(), "A", "B");
  }

  lemma FourBEntries()
    ensures Entries(FourB(), EightFrames(), "B") == EntriesB() && Entries(FourB(), EightFrames(), "A") == []
  {
    FourEntries(FourB(), "B", "A");
    FourEntries(FourB(), "B", "B");
  }

  lemma EightEntries()
    ensures Entries(EightFiles(), EightFrames(), "A") == EntriesA()
    ensures Entries(EightFiles(), EightFrames(), "B") == EntriesB()
  {
    FourAEntries();
    FourBEntries();
    FlatMapConcat(FourA(), FourB(), EntryOf(EightFrames(), "A"));
    FlatMapConcat(FourA(), FourB(), EntryOf(EightFrames(), "B"));
  }

  lemma EightDelta(i: nat, j: nat)
    requires i < 4 && j < 4
    ensures DeltaOf(EntriesA()[i], EightFrames())(EntriesB()[j]) == if i == j then [10 * (i + 1)] else []
  {
    DotSingle(1.0, 1.0);
    assert EntriesA()[i].id == i + 1 && EntriesB()[j].id == j + 5;
    assert EntriesA()[i].at == 10000 * i && EntriesB()[j].at == 10000 * j + 10 * (j + 1);
  }

  /** Each frame of A matches one frame of B within the hour. */
  lemma EightRow(i: nat)
    requires i < 4
    ensures RowOf(EntriesB(), EightFrames())(EntriesA()[i]) == [10 * (i + 1)]
  {
    var b := EntriesB();
    EightDelta(i, 0);
    EightDelta(i, 1);
    EightDelta(i, 2);
    EightDelta(i, 3);
    FlatMapFour(b[0], b[1], b[2], b[3], DeltaOf(EntriesA()[i], EightFrames()));
    assert b == [b[0], b[1], b[2], b[3]];
  }

  lemma EightDeltas()
    ensures NaiveDeltas(EntriesA(), EntriesB(), EightFrames()) == [10, 20, 30, 40]
  {
    var a := EntriesA();
    EightRow(0);
    EightRow(1);
    EightRow(2);
    EightRow(3);
    FlatMapFour(a[0], a[1], a[2], a[3], RowOf(EntriesB(), EightFrames()));
    assert a == [a[0], a[1], a[2], a[3]];
  }

  lemma TensSymmetric()
    ensures SymmetricAbout([10, 20, 30, 40], 25)
  {
    assert multiset([10, 20, 30, 40]) == multiset{10, 20, 30, 40};
  }

  lemma EightDevices()
    ensures SkewDevices(EightFiles(), EightFrames()) == {"A", "B"} && |SkewDevices(EightFiles(), EightFrames())| == 2
  {
    var f := EightFiles();
    assert forall i | 0 <= i < 8 :: f[i].deviceKey == Some(if i < 4 then "A" else "B");
    assert f[0] in f && f[4] in f;
    assert "A" != "B";
  }

  lemma FirstOfTwo(files: seq<File>, embeds: map<int, Embedding>, d: string, e: string)
    requires SkewDevices(files, embeds) == {d, e} && StrLe(d, e)
    requires |Entries(files, embeds, d)| == |Entries(files, embeds, e)|
    ensures IsReference(files, embeds, d)
  {
    StrLeReflexive(d);
    assert RefLe(files, embeds)(d, d) && RefLe(files, embeds)(d, e);
  }

  lemma EightReference()
    ensures IsReference(EightFiles(), EightFrames(), "A")
  {
    EightDevices();
    EightEntries();
    FirstOfTwo(EightFiles(), EightFrames(), "A", "B");
  }

  /** Nobody's delta is in the majority; the offset lies half-way between the two in the middle. */
  lemma EvenOffset()
    ensures "B" in SkewOf(EightFiles(), EightFrames()) && SkewOf(EightFiles(), EightFrames())["B"] == 25
  {
    EightDevices();
    EightReference();
    EightEntries();
    EightDeltas();
    TensSymmetric();
    SkewSymmetric(EightFiles(), EightFrames(), "A", "B", 25);
  }
}
