/** What the statements of a rescan mean, without the helper definitions they are written with. */
module Rescans {
  import opened Seqs
  import opened Stages
  import opened FilesTable
  import opened Scanner
  import opened Visited

  // -------------------------------------------------------------------- LIKE

  /** A pattern without wildcards matches itself alone. */
  lemma {:induction false} LikeText(s: string, p: string)
    requires WildcardFree(p)
    ensures Like(s, p) <==> s == p
  {
    if p != [] && s != [] {
      LikeText(s[1..], p[1..]);
      assert s == [s[0]] + s[1..] && p == [p[0]] + p[1..];
    }
  }

  /** An underscore stands for any one character. */
  lemma LikeOne(s: string, p: string)
    ensures Like(s, ['_'] + p) <==> s != "" && Like(s[1..], p)
  {
    assert (['_'] + p)[1..] == p;
  }

  /** A percent sign stands for any text. */
  lemma {:induction false} LikeAny(s: string, p: string)
    ensures Like(s, ['%'] + p) <==> exists k :: 0 <= k <= |s| && Like(s[k..], p)
  {
    assert (['%'] + p)[1..] == p;
    assert s[0..] == s;
    if s != [] {
      LikeAny(s[1..], p);
      if k :| 0 <= k <= |s| && Like(s[k..], p) {
        assert k > 0 ==> s[k..] == s[1..][k - 1..];
      }
      if k :| 0 <= k <= |s[1..]| && Like(s[1..][k..], p) {
        assert s[k + 1..] == s[1..][k..];
      }
    }
  }

  ghost predicate UnderMatch(s: string, p: string, k: nat) {
    k < |s| && s[k] == '/' && Like(s[..k], p)
  }

  ghost predicate UnderSome(s: string, p: string) {
    exists k: nat :: UnderMatch(s, p, k)
  }

  lemma TailOfHead(s: string, k: nat)
    requires 0 < k <= |s|
    ensures s[..k][1..] == s[1..][..k - 1]
  {
  }

  /** What a match below p says about the rest of the text. */
  lemma UnderHead(s: string, p: string, k: nat)
    requires p != [] && UnderMatch(s, p, k)
    ensures if p[0] == '%' then UnderMatch(s, p[1..], k) || (k > 0 && UnderMatch(s[1..], p, k - 1))
            else k > 0 && (p[0] == '_' || p[0] == s[0]) && UnderMatch(s[1..], p[1..], k - 1)
  {
    if k > 0 {
      TailOfHead(s, k);
    }
  }

  lemma UnderStep(s: string, p: string, k: nat)
    requires p != [] && s != [] && k < |s| - 1
    requires if p[0] == '%' then UnderMatch(s[1..], p, k)
             else (p[0] == '_' || p[0] == s[0]) && UnderMatch(s[1..], p[1..], k)
    ensures UnderMatch(s, p, k + 1)
  {
    TailOfHead(s, k + 1);
  }

  /** The pattern p/% matches what has a separator with a match of p in front of it. */
  lemma {:induction false} LikeUnder(s: string, p: string)
    ensures Like(s, p + "/%") <==> UnderSome(s, p)
    decreases |p|, |s|
  {
    if p == [] {
      assert p + "/%" == "/%" && "/%"[1..] == "%";
      if s != [] {
        LikeAnything(s[1..]);
        assert s[0] == '/' ==> UnderMatch(s, p, 0);
      }
    } else {
      assert (p + "/%")[1..] == p[1..] + "/%";
      if p[0] == '%' {
        LikeUnder(s, p[1..]);
      }
      if s != [] {
        LikeUnder(s[1..], if p[0] == '%' then p else p[1..]);
      }
      if k: nat :| UnderMatch(s, p, k) {
        UnderHead(s, p, k);
      }
      if Like(s, p + "/%") {
        UnderFound(s, p);
      }
    }
  }

  lemma UnderFound(s: string, p: string)
    requires p != [] && Like(s, p + "/%") && (p + "/%")[1..] == p[1..] + "/%"
    requires p[0] == '%' ==> (Like(s, p[1..] + "/%") ==> UnderSome(s, p[1..]))
    requires s != [] && p[0] == '%' ==> (Like(s[1..], p + "/%") ==> UnderSome(s[1..], p))
    requires s != [] && p[0] != '%' ==> (Like(s[1..], p[1..] + "/%") ==> UnderSome(s[1..], p[1..]))
    ensures UnderSome(s, p)
  {
    if p[0] == '%' && Like(s, p[1..] + "/%") {
      var k: nat :| UnderMatch(s, p[1..], k);
      assert UnderMatch(s, p, k);
    } else if p[0] == '%' {
      var k: nat :| UnderMatch(s[1..], p, k);
      UnderStep(s, p, k);
    } else {
      var k: nat :| UnderMatch(s[1..], p[1..], k);
      UnderStep(s, p, k);
    }
  }

  /** Which rows an eviction deletes: those with the directory as their path, up to case, and those whose path
      goes on with a separator after a part that the directory, read as a pattern, matches. */
  lemma EvictedIff(path: string, dir: string)
    ensures Evicted(path, dir) <==> dir != "" && (SameText(path, dir) || UnderSome(Lower(path), Lower(dir)))
  {
    LowerIff(path, dir);
    LikeUnder(Lower(path), Lower(dir));
  }

  lemma LowerPlain(dir: string)
    requires WildcardFree(dir)
    ensures WildcardFree(Lower(dir))
  {
  }

  /** Without wildcards: the directory itself and what lies below it, up to case. */
  lemma PlainEvictedIff(path: string, dir: string)
    requires WildcardFree(dir)
    ensures Evicted(path, dir) <==>
              dir != "" && (SameText(path, dir) || (|path| > |dir| && SameText(path[..|dir| + 1], dir + "/")))
  {
    EvictedIff(path, dir);
    LowerPlain(dir);
    if |path| > |dir| {
      LowerIff(path[..|dir| + 1], dir + "/");
      SplitLower(path, dir);
    }
    if k: nat :| UnderMatch(Lower(path), Lower(dir), k) {
      LikeText(Lower(path)[..k], Lower(dir));
    }
    if |path| > |dir| && Lower(path)[..|dir|] == Lower(dir) && Lower(path)[|dir|] == '/' {
      LikeText(Lower(path)[..|dir|], Lower(dir));
      assert UnderMatch(Lower(path), Lower(dir), |dir|);
    }
  }

  lemma SplitLower(path: string, dir: string)
    requires |path| > |dir|
    ensures Lower(path[..|dir| + 1]) == Lower(dir + "/") <==>
              Lower(path)[..|dir|] == Lower(dir) && Lower(path)[|dir|] == '/'
  {
    var a, b := Lower(path[..|dir| + 1]), Lower(dir + "/");
    assert a == Lower(path)[..|dir|] + [Lower(path)[|dir|]];
    assert b == Lower(dir) + ['/'];
    if a == b {
      assert a[..|dir|] == b[..|dir|] && a[|dir|] == b[|dir|];
    }
  }

  // ----------------------------------------------------------------- upserts

  /** A row records a file of this path, up to case, with the same size, mtime and hash. */
  predicate UpToDate(r: Row, f: Rec) {
    && SameText(r.seen.path, f.path)
    && r.seen.size == f.size && r.seen.mtime == f.mtime && r.seen.hash == f.hash
  }

  /** An upsert changes nothing exactly when the path has an up-to-date row. */
  lemma UpsertUnchangedIff(rows: seq<Row>, f: Rec)
    requires Unique(rows)
    ensures Upsert(rows, f) == rows <==> exists k :: 0 <= k < |rows| && UpToDate(rows[k], f)
  {
    forall k | 0 <= k < |rows|
      ensures Key(rows[k]) == Lower(f.path) <==> SameText(rows[k].seen.path, f.path)
    {
      LowerIff(rows[k].seen.path, f.path);
    }
    if Find(rows, f.path).Some? {
      var k := Find(rows, f.path).value;
      assert Upsert(rows, f) == rows ==> Upsert(rows, f)[k] == rows[k];
    }
  }

  /** A path without a row gets one at the end, with the id after the largest, and 1 in an empty table. */
  lemma UpsertNew(rows: seq<Row>, f: Rec)
    requires forall k | 0 <= k < |rows| :: !SameText(rows[k].seen.path, f.path)
    ensures |Upsert(rows, f)| == |rows| + 1 && Upsert(rows, f)[..|rows|] == rows
    ensures var r := Upsert(rows, f)[|rows|];
            && r.seen == f && r.status == Discovered && r.error == None && r.meta == None
            && (forall k | 0 <= k < |rows| :: rows[k].id < r.id)
            && (r.id == 1 || exists k :: 0 <= k < |rows| && rows[k].id == r.id - 1)
  {
    if Find(rows, f.path).Some? {
      LowerIff(rows[Find(rows, f.path).value].seen.path, f.path);
    }
    NextIdIs(rows);
  }

  lemma {:induction false} NextIdIs(rows: seq<Row>)
    ensures NextId(rows) == 1 || exists k :: 0 <= k < |rows| && rows[k].id == NextId(rows) - 1
  {
    if rows != [] {
      NextIdIs(rows[..|rows| - 1]);
    }
  }

  /** A path with a row that is not up to date: the row keeps its id, its casing and its metadata, takes the
      new data, and waits again without its error; the others stay. */
  lemma UpsertModified(rows: seq<Row>, f: Rec, k: nat)
    requires Unique(rows) && k < |rows| && SameText(rows[k].seen.path, f.path) && !UpToDate(rows[k], f)
    ensures |Upsert(rows, f)| == |rows|
    ensures forall i | 0 <= i < |rows| && i != k :: Upsert(rows, f)[i] == rows[i]
    ensures var r := Upsert(rows, f)[k];
            && r.id == rows[k].id && r.meta == rows[k].meta && r.status == Discovered && r.error == None
            && r.seen == Rec(rows[k].seen.path, f.size, f.mtime, f.hash, f.kind, f.format)
  {
    LowerIff(rows[k].seen.path, f.path);
    var j := Find(rows, f.path).value;
    assert Key(rows[j]) == Key(rows[k]);
  }

  /** A missing row is one none of the seen paths belongs to; nothing else changes. */
  lemma MarkedRow(rows: seq<Row>, seen: set<string>, k: nat)
    requires k < |rows|
    ensures MarkMissing(rows, Keys(seen))[k]
            == if exists p :: p in seen && SameText(p, rows[k].seen.path) then rows[k] else rows[k].(status := Missing)
  {
    if Key(rows[k]) in Keys(seen) {
      var p :| p in seen && Lower(p) == Key(rows[k]);
      LowerIff(p, rows[k].seen.path);
    }
    if p :| p in seen && SameText(p, rows[k].seen.path) {
      LowerIff(p, rows[k].seen.path);
    }
  }

  // ------------------------------------------------------------ the picks directory

  predicate AllSlashes(s: string) {
    forall i | 0 <= i < |s| :: s[i] == '/'
  }

  /** Trimming takes separators off both ends and nothing else. */
  lemma {:induction false} TrimIs(s: string) returns (front: string, back: string)
    ensures s == front + TrimSlashes(s) + back && AllSlashes(front) && AllSlashes(back)
    decreases |s|
  {
    if s == "" {
      front, back := "", "";
    } else if s[0] == '/' {
      front, back := TrimIs(s[1..]);
      front := ['/'] + front;
      assert s == ['/'] + s[1..];
    } else if s[|s| - 1] == '/' {
      front, back := TrimIs(s[..|s| - 1]);
      back := back + ['/'];
      assert s == s[..|s| - 1] + ['/'];
    } else {
      front, back := "", "";
    }
  }
}
