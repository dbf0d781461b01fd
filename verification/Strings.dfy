/** The byte order of device keys, used by sort.Strings and by SQLite's default collation. */
module Strings {
  import opened Seqs

  predicate StrLe(a: string, b: string) {
    a == [] || (b != [] && (a[0] < b[0] || (a[0] == b[0] && StrLe(a[1..], b[1..]))))
  }

  function KeyLe(): (string, string) -> bool {
    (a: string, b: string) => StrLe(a, b)
  }

  lemma StrLeReflexive(a: string)
    ensures StrLe(a, a)
  {
  }

  lemma {:induction false} StrLeTotal(a: string, b: string)
    ensures StrLe(a, b) || StrLe(b, a)
    ensures StrLe(a, b) && StrLe(b, a) ==> a == b
  {
    if a != [] && b != [] {
      StrLeTotal(a[1..], b[1..]);
      assert a == [a[0]] + a[1..] && b == [b[0]] + b[1..];
    }
  }

  lemma {:induction false} StrLeTransitive(a: string, b: string, c: string)
    requires StrLe(a, b) && StrLe(b, c)
    ensures StrLe(a, c)
  {
    if a != [] && b != [] && c != [] && a[0] == b[0] && b[0] == c[0] {
      StrLeTransitive(a[1..], b[1..], c[1..]);
    }
  }

  lemma KeyLePreorder()
    ensures TotalPreorder(KeyLe())
    ensures forall a, b :: StrLe(a, b) && StrLe(b, a) ==> a == b
  {
    forall a, b
      ensures KeyLe()(a, b) || KeyLe()(b, a)
      ensures StrLe(a, b) && StrLe(b, a) ==> a == b
    {
      StrLeTotal(a, b);
    }
    forall a, b, c | KeyLe()(a, b) && KeyLe()(b, c)
      ensures KeyLe()(a, c)
    {
      StrLeTransitive(a, b, c);
    }
  }

  /** a is a prefix of b, or smaller at the first position where they differ. */
  ghost predicate InByteOrder(a: string, b: string) {
    || (|a| <= |b| && b[..|a|] == a)
    || exists k: nat :: FirstDifference(a, b, k) && a[k] < b[k]
  }

  predicate FirstDifference(a: string, b: string, k: nat) {
    k < |a| && k < |b| && a[..k] == b[..k] && a[k] != b[k]
  }

  lemma DifferenceTail(a: string, b: string, k: nat)
    requires a != [] && b != [] && a[0] == b[0]
    ensures FirstDifference(a, b, k + 1) <==> FirstDifference(a[1..], b[1..], k)
  {
    if k < |a| - 1 && k < |b| - 1 {
      assert a[..k + 1] == [a[0]] + a[1..][..k] && b[..k + 1] == [b[0]] + b[1..][..k];
      assert a[..k + 1] == b[..k + 1] ==> a[..k + 1][1..] == b[..k + 1][1..];
      assert a[..k + 1][1..] == a[1..][..k] && b[..k + 1][1..] == b[1..][..k];
    }
  }

  lemma PrefixTail(a: string, b: string)
    requires a != [] && b != [] && a[0] == b[0]
    ensures |a| <= |b| && b[..|a|] == a <==> |a[1..]| <= |b[1..]| && b[1..][..|a[1..]|] == a[1..]
  {
    if |a| <= |b| {
      assert b[..|a|] == [b[0]] + b[1..][..|a| - 1] && a == [a[0]] + a[1..];
      assert b[..|a|] == a ==> b[..|a|][1..] == a[1..];
      assert b[..|a|][1..] == b[1..][..|a| - 1];
    }
  }

  /** Beyond the first character a prefix, and everything before a difference, is equal. */
  lemma SameHead(a: string, b: string)
    requires a != [] && b != []
    ensures |a| <= |b| && b[..|a|] == a ==> a[0] == b[0]
    ensures forall k: nat | FirstDifference(a, b, k) :: k == 0 || a[0] == b[0]
  {
    if |a| <= |b| && b[..|a|] == a {
      assert b[..|a|][0] == b[0];
    }
    forall k: nat | FirstDifference(a, b, k)
      ensures k == 0 || a[0] == b[0]
    {
      if k > 0 {
        assert a[..k][0] == a[0] && b[..k][0] == b[0];
      }
    }
  }

  /** The order is the byte order. */
  lemma {:induction false} StrLeIff(a: string, b: string)
    ensures StrLe(a, b) <==> InByteOrder(a, b)
  {
    if a == [] {
      assert b[..0] == a;
    } else if b != [] && a[0] == b[0] {
      StrLeIff(a[1..], b[1..]);
      PrefixTail(a, b);
      if k: nat :| FirstDifference(a[1..], b[1..], k) && a[1..][k] < b[1..][k] {
        DifferenceTail(a, b, k);
        assert FirstDifference(a, b, k + 1);
      }
      if k: nat :| FirstDifference(a, b, k) && a[k] < b[k] {
        DifferenceTail(a, b, k - 1);
        assert FirstDifference(a[1..], b[1..], k - 1);
      }
    } else if b != [] {
      assert FirstDifference(a, b, 0);
      SameHead(a, b);
    }
  }
}
