/** The clusters table: whole-table replacement, library order and the keyset successor query. */
module ClusterStore {
  import opened Seqs
  import opened Strings
  import opened Defs

  /** A row of the clusters table. */
  datatype Row = Row(id: int, device: string, bucket: Option<int>)

  ghost predicate DistinctRows(rows: seq<Row>) {
    forall i, j | 0 <= i < j < |rows| :: rows[i].id != rows[j].id
  }

  /** The id SQLite assigns to an INTEGER PRIMARY KEY: one past the largest, 1 in an empty table. */
  function NextId(rows: seq<Row>): (id: int) {
    if rows == [] then 1
    else
      var rest := NextId(rows[..|rows| - 1]);
      if rows[|rows| - 1].id >= rest then rows[|rows| - 1].id + 1 else rest
  }

  /** The table written for a sequence of definitions: ids count up in definition order. */
  function RowsOf(defs: seq<ClusterDef>): (r: seq<Row>)
    ensures |r| == |defs| && forall i | 0 <= i < |r| :: r[i] == Row(i + 1, defs[i].device, defs[i].bucket)
  {
    seq(|defs|, i requires 0 <= i < |defs| => Row(i + 1, defs[i].device, defs[i].bucket))
  }

  lemma {:induction false} NextIdOfPrefix(defs: seq<ClusterDef>, n: nat)
    requires n <= |defs|
    ensures NextId(RowsOf(defs)[..n]) == n + 1
  {
    if n > 0 {
      assert RowsOf(defs)[..n][..n - 1] == RowsOf(defs)[..n - 1];
      NextIdOfPrefix(defs, n - 1);
    }
  }

  function PairsOf(id: int, members: seq<int>): (r: set<(int, int)>)
    ensures forall c, x :: (c, x) in r <==> c == id && x in members
  {
    set x | x in members :: (id, x)
  }

  /** The cluster_members table written for a sequence of definitions. */
  function MemberPairs(defs: seq<ClusterDef>): (r: set<(int, int)>)
    ensures forall c, x :: (c, x) in r <==> 1 <= c <= |defs| && x in defs[c - 1].members
  {
    if defs == [] then {}
    else
      var n := |defs| - 1;
      MemberPairs(defs[..n]) + PairsOf(n + 1, defs[n].members)
  }

  class ClustersTable {
    var rows: seq<Row>
    var members: set<(int, int)>

    /** WriteClusters: one transaction deletes every row and inserts the definitions in order. When the
        insert numbered failAt fails, or the commit after the last one, the rollback leaves the old table. */
    method WriteClusters(defs: seq<ClusterDef>, failAt: Option<nat>) returns (ok: bool)
      modifies this
      ensures ok <==> failAt.None? || failAt.value > |defs|
      ensures ok ==> rows == RowsOf(defs) && members == MemberPairs(defs)
      ensures !ok ==> rows == old(rows) && members == old(members)
    {
      var txRows: seq<Row>, txMembers: set<(int, int)> := [], {};
      assert defs[..0] == [];
      for i := 0 to |defs|
        invariant failAt.Some? ==> i <= failAt.value
        invariant txRows == RowsOf(defs)[..i]
        invariant txMembers == MemberPairs(defs[..i])
        invariant rows == old(rows) && members == old(members)
      {
        if failAt.Some? && failAt.value == i {
          return false;
        }
        NextIdOfPrefix(defs, i);
        var cid := NextId(txRows);
        txRows := txRows + [Row(cid, defs[i].device, defs[i].bucket)];
        var added := {};
        for k := 0 to |defs[i].members|
          invariant added == PairsOf(cid, defs[i].members[..k])
        {
          assert defs[i].members[..k + 1] == defs[i].members[..k] + [defs[i].members[k]];
          added := added + {(cid, defs[i].members[k])};
        }
        assert defs[i].members[..|defs[i].members|] == defs[i].members;
        assert defs[..i + 1][..i] == defs[..i];
        txMembers := txMembers + added;
      }
      if failAt == Some(|defs|) {
        return false;
      }
      assert defs[..|defs|] == defs && RowsOf(defs)[..|defs|] == RowsOf(defs);
      rows, members := txRows, txMembers;
      ok := true;
    }
  }

  // ---------------------------------------------------------- library order

  /** ORDER BY device_key, time_bucket IS NULL, time_bucket, id. */
  function LibraryLe(): (Row, Row) -> bool {
    (a: Row, b: Row) =>
      if a.device != b.device then StrLe(a.device, b.device)
      else if a.bucket.Some? != b.bucket.Some? then a.bucket.Some?
      else if a.bucket.Some? && a.bucket.value != b.bucket.value then a.bucket.value < b.bucket.value
      else a.id <= b.id
  }

  lemma LibraryLePreorder()
    ensures TotalPreorder(LibraryLe())
  {
    KeyLePreorder();
    forall a, b
      ensures LibraryLe()(a, b) || LibraryLe()(b, a)
    {
      StrLeTotal(a.device, b.device);
    }
    forall a, b, c | LibraryLe()(a, b) && LibraryLe()(b, c)
      ensures LibraryLe()(a, c)
    {
      StrLeTotal(a.device, b.device);
      StrLeTotal(b.device, c.device);
      if a.device != b.device && b.device != c.device {
        StrLeTransitive(a.device, b.device, c.device);
      }
    }
  }

  lemma LibraryLeAntisymmetric(rows: seq<Row>, a: Row, b: Row)
    requires DistinctRows(rows) && a in rows && b in rows
    requires LibraryLe()(a, b) && LibraryLe()(b, a)
    ensures a == b
  {
    StrLeTotal(a.device, b.device);
    var i :| 0 <= i < |rows| && rows[i] == a;
    var j :| 0 <= j < |rows| && rows[j] == b;
    assert a.id == b.id;
  }

  function AllOrdered(rows: seq<Row>): seq<Row> {
    Sort(rows, LibraryLe())
  }

  lemma AllOrderedFacts(rows: seq<Row>)
    requires DistinctRows(rows)
    ensures SortedBy(AllOrdered(rows), LibraryLe()) && |AllOrdered(rows)| == |rows|
    ensures DistinctRows(AllOrdered(rows))
    ensures forall r :: r in AllOrdered(rows) <==> r in rows
  {
    LibraryLePreorder();
    SortSorts(rows, LibraryLe());
    var a := AllOrdered(rows);
    MultisetNoDup(rows, a);
    forall i, j | 0 <= i < j < |a|
      ensures a[i].id != a[j].id
    {
      assert a[i] in rows && a[j] in rows;
      var k :| 0 <= k < |rows| && rows[k] == a[i];
      var l :| 0 <= l < |rows| && rows[l] == a[j];
      assert a[i] != a[j];
      assert k != l;
    }
  }

  // -------------------------------------------------------------- NextAfter

  /** The WHERE clause: one form for timed clusters, one for NULL ones. */
  function AfterClause(c: Row): Row -> bool {
    (r: Row) =>
      if c.bucket.Some? then
        || (r.device != c.device && StrLe(c.device, r.device))
        || (r.device == c.device && (r.bucket.None? || r.bucket.value > c.bucket.value))
        || (r.device == c.device && r.bucket == c.bucket && r.id > c.id)
      else
        || (r.device != c.device && StrLe(c.device, r.device))
        || (r.device == c.device && r.id > c.id)
  }

  /** The first matching row in library order, or None where the query finds nothing. */
  function NextAfter(rows: seq<Row>, c: Row): Option<int> {
    LibraryLePreorder();
    SortSorts(Filter(rows, AfterClause(c)), LibraryLe());
    var found := Sort(Filter(rows, AfterClause(c)), LibraryLe());
    if found == [] then None else Some(found[0].id)
  }

  /** The neighbour in the library view. */
  function SuccessorIn(ordered: seq<Row>, k: nat): Option<int>
    requires k < |ordered|
  {
    if k + 1 < |ordered| then Some(ordered[k + 1].id) else None
  }

  lemma NextAfterLeast(rows: seq<Row>, c: Row, r: Row)
    requires DistinctRows(rows) && r in rows && AfterClause(c)(r)
    requires forall q | q in rows && AfterClause(c)(q) :: LibraryLe()(r, q)
    ensures NextAfter(rows, c) == Some(r.id)
  {
    LibraryLePreorder();
    var matching := Filter(rows, AfterClause(c));
    SortSorts(matching, LibraryLe());
    var found := Sort(matching, LibraryLe());
    assert r in found;
    var i :| 0 <= i < |found| && found[i] == r;
    assert found[0] in found;
    assert i == 0 || LibraryLe()(found[0], found[i]);
    LibraryLeAntisymmetric(rows, found[0], r);
  }

  lemma NextAfterFinds(rows: seq<Row>, c: Row) returns (n: Row)
    requires DistinctRows(rows) && NextAfter(rows, c).Some?
    ensures n in rows && AfterClause(c)(n) && n.id == NextAfter(rows, c).value
    ensures forall q | q in rows && AfterClause(c)(q) :: LibraryLe()(n, q)
  {
    LibraryLePreorder();
    var matching := Filter(rows, AfterClause(c));
    SortSorts(matching, LibraryLe());
    var found := Sort(matching, LibraryLe());
    n := found[0];
    assert n in found;
    forall q | q in rows && AfterClause(c)(q)
      ensures LibraryLe()(n, q)
    {
      assert q in found;
      var i :| 0 <= i < |found| && found[i] == q;
      assert i == 0 || LibraryLe()(found[0], found[i]);
    }
  }

  lemma NextAfterNone(rows: seq<Row>, c: Row)
    requires forall r | r in rows :: !AfterClause(c)(r)
    ensures NextAfter(rows, c) == None
  {
    FilterNone(rows, AfterClause(c));
  }

  /** Where the clause means "later in library order", the query finds the neighbour. */
  lemma ExactClauseFindsSuccessor(rows: seq<Row>, k: nat)
    requires DistinctRows(rows) && k < |AllOrdered(rows)|
    requires forall r | r in rows :: AfterClause(AllOrdered(rows)[k])(r) <==>
              r != AllOrdered(rows)[k] && LibraryLe()(AllOrdered(rows)[k], r)
    ensures NextAfter(rows, AllOrdered(rows)[k]) == SuccessorIn(AllOrdered(rows), k)
  {
    var a := AllOrdered(rows);
    AllOrderedFacts(rows);
    var c := a[k];
    assert c in rows;
    forall q | q in rows && AfterClause(c)(q)
      ensures k + 1 < |a| && LibraryLe()(a[k + 1], q)
    {
      assert q in a;
      var i :| 0 <= i < |a| && a[i] == q;
      if i < k {
        assert LibraryLe()(a[i], a[k]);
        LibraryLeAntisymmetric(rows, a[i], a[k]);
      }
      assert i > k;
      LibraryLePreorder();
      assert i == k + 1 || LibraryLe()(a[k + 1], a[i]);
    }
    if k + 1 < |a| {
      assert a[k + 1] in rows;
      assert a[k].id != a[k + 1].id;
      assert LibraryLe()(a[k], a[k + 1]);
      NextAfterLeast(rows, c, a[k + 1]);
    } else {
      NextAfterNone(rows, c);
    }
  }

  /** For a timed cluster the query is right in every table. */
  lemma TimedSuccessor(rows: seq<Row>, k: nat)
    requires DistinctRows(rows) && k < |AllOrdered(rows)| && AllOrdered(rows)[k].bucket.Some?
    ensures NextAfter(rows, AllOrdered(rows)[k]) == SuccessorIn(AllOrdered(rows), k)
  {
    var c := AllOrdered(rows)[k];
    AllOrderedFacts(rows);
    assert c in rows;
    forall r | r in rows
      ensures AfterClause(c)(r) <==> r != c && LibraryLe()(c, r)
    {
      ClauseTimed(rows, c, r);
    }
    ExactClauseFindsSuccessor(rows, k);
  }

  lemma ClauseTimed(rows: seq<Row>, c: Row, r: Row)
    requires DistinctRows(rows) && c in rows && r in rows && c.bucket.Some?
    ensures AfterClause(c)(r) <==> r != c && LibraryLe()(c, r)
  {
    if r.id == c.id {
      var i :| 0 <= i < |rows| && rows[i] == r;
      var j :| 0 <= j < |rows| && rows[j] == c;
      assert i == j;
    }
  }

  /** No timed cluster of c's device has a larger id. */
  ghost predicate NoTimedBeyond(rows: seq<Row>, c: Row) {
    forall r | r in rows && r.device == c.device && r.bucket.Some? :: r.id < c.id
  }

  lemma ClauseNull(rows: seq<Row>, c: Row, r: Row)
    requires DistinctRows(rows) && c in rows && r in rows && c.bucket.None? && NoTimedBeyond(rows, c)
    ensures AfterClause(c)(r) <==> r != c && LibraryLe()(c, r)
  {
    if r.id == c.id {
      var i :| 0 <= i < |rows| && rows[i] == r;
      var j :| 0 <= j < |rows| && rows[j] == c;
      assert i == j;
    }
  }

  /** For a NULL cluster the query finds the neighbour exactly when no timed cluster of the same device
      has a larger id: otherwise it jumps back into the timed part of the device. */
  lemma NullSuccessorIff(rows: seq<Row>, k: nat)
    requires DistinctRows(rows) && k < |AllOrdered(rows)| && AllOrdered(rows)[k].bucket.None?
    ensures NextAfter(rows, AllOrdered(rows)[k]) == SuccessorIn(AllOrdered(rows), k)
            <==> NoTimedBeyond(rows, AllOrdered(rows)[k])
  {
    var a := AllOrdered(rows);
    var c := a[k];
    AllOrderedFacts(rows);
    assert c in rows;
    if NoTimedBeyond(rows, c) {
      forall r | r in rows
        ensures AfterClause(c)(r) <==> r != c && LibraryLe()(c, r)
      {
        ClauseNull(rows, c, r);
      }
      ExactClauseFindsSuccessor(rows, k);
    } else {
      var r :| r in rows && r.device == c.device && r.bucket.Some? && r.id >= c.id;
      NullJumpsBack(rows, k, r);
    }
  }

  lemma SameIdSameRow(rows: seq<Row>, x: Row, y: Row)
    requires DistinctRows(rows) && x in rows && y in rows
    ensures x.id == y.id ==> x == y
  {
    var i :| 0 <= i < |rows| && rows[i] == x;
    var j :| 0 <= j < |rows| && rows[j] == y;
  }

  /** On one device a timed row comes before a NULL one, and so does everything before it. */
  lemma BeforeTimed(c: Row, r: Row, n: Row)
    requires r.device == c.device && r.bucket.Some? && c.bucket.None? && LibraryLe()(n, r)
    ensures !LibraryLe()(c, n)
  {
    LibraryLePreorder();
    assert !LibraryLe()(c, r);
  }

  lemma NullJumpsBack(rows: seq<Row>, k: nat, r: Row)
    requires DistinctRows(rows) && k < |AllOrdered(rows)| && AllOrdered(rows)[k].bucket.None?
    requires r in rows && r.device == AllOrdered(rows)[k].device && r.bucket.Some? && r.id >= AllOrdered(rows)[k].id
    ensures NextAfter(rows, AllOrdered(rows)[k]) != SuccessorIn(AllOrdered(rows), k)
  {
    var a := AllOrdered(rows);
    var c := a[k];
    AllOrderedFacts(rows);
    assert c in rows;
    SameIdSameRow(rows, r, c);
    assert AfterClause(c)(r);
    LibraryLePreorder();
    SortSorts(Filter(rows, AfterClause(c)), LibraryLe());
    assert r in Sort(Filter(rows, AfterClause(c)), LibraryLe());
    var n := NextAfterFinds(rows, c);
    BeforeTimed(c, r, n);
    if k + 1 < |a| {
      assert LibraryLe()(a[k], a[k + 1]);
      assert a[k + 1] in rows;
      SameIdSameRow(rows, n, a[k + 1]);
    }
  }
}
