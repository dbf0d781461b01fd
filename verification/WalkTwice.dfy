/** Two walks in a row over an unchanged tree: exactly when the second changes nothing. */
module WalkTwice {
  import opened Seqs
  import opened Stages
  import opened FilesTable
  import opened Scanner
  import opened ScannerTheorems

  // ------------------------------------------------- the rows a walk adds

  /** The visited files the table has no row for, in order. */
  function Newcomers(rows: seq<Row>, recs: seq<Rec>): seq<Rec> {
    if recs == [] then []
    else
      var f := recs[|recs| - 1];
      Newcomers(rows, recs[..|recs| - 1]) + if Find(rows, f.path).None? then [f] else []
  }

  /** The rows inserted for a list of files, ids counting up. */
  function NewRows(id: int, recs: seq<Rec>): (r: seq<Row>)
    ensures |r| == |recs| && forall i | 0 <= i < |r| :: r[i] == Row(id + i, recs[i], Discovered, None, None)
  {
    seq(|recs|, i requires 0 <= i < |recs| => Row(id + i, recs[i], Discovered, None, None))
  }

  lemma NewRowsSnoc(id: int, recs: seq<Rec>, f: Rec)
    ensures NewRows(id, recs + [f]) == NewRows(id, recs) + [Row(id + |recs|, f, Discovered, None, None)]
  {
  }

  lemma NewRowsConcat(id: int, a: seq<Rec>, b: seq<Rec>)
    ensures NewRows(id, a + b) == NewRows(id, a) + NewRows(id + |a|, b)
  {
  }

  lemma {:induction false} NextIdAfter(rows: seq<Row>, recs: seq<Rec>)
    ensures NextId(rows + NewRows(NextId(rows), recs)) == NextId(rows) + |recs|
  {
    var id := NextId(rows);
    if recs == [] {
      assert rows + NewRows(id, recs) == rows;
    } else {
      var n := |recs| - 1;
      NextIdAfter(rows, recs[..n]);
      assert recs == recs[..n] + [recs[n]];
      NewRowsSnoc(id, recs[..n], recs[n]);
      var t := rows + NewRows(id, recs);
      assert t[..|t| - 1] == rows + NewRows(id, recs[..n]);
    }
  }

  /** The next id depends on the ids alone. */
  lemma {:induction false} NextIdSame(a: seq<Row>, b: seq<Row>)
    requires |a| == |b| && forall i | 0 <= i < |a| :: a[i].id == b[i].id
    ensures NextId(a) == NextId(b)
  {
    if a != [] {
      NextIdSame(a[..|a| - 1], b[..|b| - 1]);
    }
  }

  /** The old rows as the visits leave them. */
  function Updated(rows: seq<Row>, recs: seq<Rec>): (r: seq<Row>)
    ensures |r| == |rows| && forall k | 0 <= k < |r| :: r[k] == AfterUpserts(rows[k], recs)
  {
    seq(|rows|, k requires 0 <= k < |rows| => AfterUpserts(rows[k], recs))
  }

  lemma UpdatedIds(rows: seq<Row>, recs: seq<Rec>)
    ensures forall k | 0 <= k < |rows| ::
              Updated(rows, recs)[k].id == rows[k].id && Key(Updated(rows, recs)[k]) == Key(rows[k])
  {
    forall k | 0 <= k < |rows|
      ensures Updated(rows, recs)[k].id == rows[k].id && Key(Updated(rows, recs)[k]) == Key(rows[k])
    {
      MetNone(recs, Key(rows[k]));
    }
  }

  lemma FindIff(rows: seq<Row>, path: string)
    ensures Find(rows, path).Some? <==> exists k :: 0 <= k < |rows| && Key(rows[k]) == Lower(path)
  {
  }

  lemma {:induction false} NewcomersAre(rows: seq<Row>, recs: seq<Rec>)
    ensures forall f | f in Newcomers(rows, recs) :: f in recs && Find(rows, f.path).None?
  {
    if recs != [] {
      NewcomersAre(rows, recs[..|recs| - 1]);
    }
  }

  /** A path is known after the upserts exactly when it was known before or is a newcomer's. */
  lemma KnownAfter(rows: seq<Row>, recs: seq<Rec>, f: Rec)
    requires DistinctKeys(recs + [f])
    ensures Find(Updated(rows, recs) + NewRows(NextId(rows), Newcomers(rows, recs)), f.path).Some?
            <==> Find(rows, f.path).Some?
  {
    var old', new' := Updated(rows, recs), NewRows(NextId(rows), Newcomers(rows, recs));
    UpdatedIds(rows, recs);
    FindIff(rows, f.path);
    FindIff(old' + new', f.path);
    NewcomersAre(rows, recs);
    forall k | 0 <= k < |new'|
      ensures Key(new'[k]) != Lower(f.path)
    {
      var g := Newcomers(rows, recs)[k];
      assert g in Newcomers(rows, recs);
      var i :| 0 <= i < |recs| && recs[i] == g;
      assert (recs + [f])[i] == g && (recs + [f])[|recs|] == f;
    }
    if Find(rows, f.path).Some? {
      var k :| 0 <= k < |rows| && Key(rows[k]) == Lower(f.path);
      assert Key((old' + new')[k]) == Lower(f.path);
    }
    if Find(old' + new', f.path).Some? {
      var k :| 0 <= k < |old' + new'| && Key((old' + new')[k]) == Lower(f.path);
      assert k < |old'|;
      assert Key(rows[k]) == Lower(f.path);
    }
  }

  /** Meeting a file nobody has a row for changes no old row. */
  lemma NewcomerUpdates(rows: seq<Row>, recs: seq<Rec>, f: Rec)
    requires Find(rows, f.path).None?
    ensures Updated(rows, recs + [f]) == Updated(rows, recs)
  {
    assert (recs + [f])[..|recs|] == recs;
    forall k | 0 <= k < |rows|
      ensures Updated(rows, recs + [f])[k] == Updated(rows, recs)[k]
    {
    }
  }

  /** Meeting a file with a row changes that row alone. */
  lemma KnownUpdates(rows: seq<Row>, added: seq<Row>, recs: seq<Rec>, f: Rec)
    requires Unique(rows) && DistinctKeys(recs + [f]) && Find(rows, f.path).Some?
    requires UpsertAll(rows, recs) == Updated(rows, recs) + added && Unique(UpsertAll(rows, recs))
    ensures UpsertAll(rows, recs + [f]) == Updated(rows, recs + [f]) + added
  {
    var before, after, n := UpsertAll(rows, recs), UpsertAll(rows, recs + [f]), |rows|;
    assert (recs + [f])[..|recs|] == recs;
    UpdatedIds(rows, recs);
    var j := Find(rows, f.path).value;
    assert Key(before[j]) == Lower(f.path);
    assert |after| == |before|;
    forall k | 0 <= k < |after|
      ensures after[k] == (Updated(rows, recs + [f]) + added)[k]
    {
      if k < n {
        UpsertAllAt(rows, recs + [f], k);
      } else {
        UpsertAt(before, f, k);
      }
    }
  }

  lemma UpsertAllSnoc(rows: seq<Row>, recs: seq<Rec>, f: Rec)
    ensures UpsertAll(rows, recs + [f]) == Upsert(UpsertAll(rows, recs), f)
  {
    assert (recs + [f])[..|recs|] == recs;
  }

  lemma NextIdOfUpdated(rows: seq<Row>, recs: seq<Rec>, added: seq<Rec>)
    ensures NextId(Updated(rows, recs) + NewRows(NextId(rows), added)) == NextId(rows) + |added|
  {
    UpdatedIds(rows, recs);
    NextIdSame(Updated(rows, recs), rows);
    NextIdAfter(Updated(rows, recs), added);
  }

  /** Inserting after a list of newcomers. */
  lemma InsertAfter(base: seq<Row>, old': seq<Row>, id: int, added: seq<Rec>, f: Rec)
    requires base == old' + NewRows(id, added) && NextId(base) == id + |added| && Find(base, f.path).None?
    ensures Upsert(base, f) == old' + NewRows(id, added + [f])
  {
    NewRowsSnoc(id, added, f);
  }

  /** Meeting a newcomer appends its row. */
  lemma NewcomerAdds(rows: seq<Row>, recs: seq<Rec>, f: Rec)
    requires Find(rows, f.path).None?
    requires UpsertAll(rows, recs) == Updated(rows, recs) + NewRows(NextId(rows), Newcomers(rows, recs))
    requires Find(UpsertAll(rows, recs), f.path).None?
    ensures UpsertAll(rows, recs + [f])
            == Updated(rows, recs + [f]) + NewRows(NextId(rows), Newcomers(rows, recs) + [f])
  {
    var base, old', added := UpsertAll(rows, recs), Updated(rows, recs), Newcomers(rows, recs);
    UpsertAllSnoc(rows, recs, f);
    NewcomerUpdates(rows, recs, f);
    NextIdOfUpdated(rows, recs, added);
    InsertAfter(base, old', NextId(rows), added, f);
  }

  lemma NewcomersSnoc(rows: seq<Row>, recs: seq<Rec>, f: Rec)
    ensures Find(rows, f.path).None? ==> Newcomers(rows, recs + [f]) == Newcomers(rows, recs) + [f]
    ensures Find(rows, f.path).Some? ==> Newcomers(rows, recs + [f]) == Newcomers(rows, recs)
  {
    assert (recs + [f])[..|recs|] == recs;
  }

  /** The table after all upserts: the old rows in place, then one row for each newcomer. */
  lemma {:induction false} UpsertAllIs(rows: seq<Row>, recs: seq<Rec>)
    requires Unique(rows) && DistinctKeys(recs)
    ensures UpsertAll(rows, recs) == Updated(rows, recs) + NewRows(NextId(rows), Newcomers(rows, recs))
  {
    if recs == [] {
      assert Updated(rows, recs) == rows;
    } else {
      var n := |recs| - 1;
      var rest, f := recs[..n], recs[n];
      assert rest + [f] == recs;
      UpsertAllIs(rows, rest);
      UpsertAllUnique(rows, rest);
      KnownAfter(rows, rest, f);
      NewcomersSnoc(rows, rest, f);
      if Find(rows, f.path).Some? {
        KnownUpdates(rows, NewRows(NextId(rows), Newcomers(rows, rest)), rest, f);
      } else {
        NewcomerAdds(rows, rest, f);
      }
    }
  }

  // --------------------------------------------------- evicted and staying

  function Goes(picksDir: string): Rec -> bool {
    (f: Rec) => Evicted(f.path, picksDir)
  }

  function Remains(picksDir: string): Rec -> bool {
    (f: Rec) => !Evicted(f.path, picksDir)
  }

  /** No visited file that is evicted comes before a newcomer that is not. */
  ghost predicate EvictedLast(rows: seq<Row>, picksDir: string, recs: seq<Rec>) {
    forall i, j | 0 <= i < j < |recs| && Evicted(recs[i].path, picksDir) && !Evicted(recs[j].path, picksDir) ::
        Find(rows, recs[j].path).Some?
  }

  /** Whether rows know a path decides eviction: none of the kept rows is evicted. */
  ghost predicate KeptRows(rows: seq<Row>, picksDir: string) {
    forall k | 0 <= k < |rows| :: !Evicted(rows[k].seen.path, picksDir)
  }

  lemma EvictedByKey(path: string, other: string, picksDir: string)
    requires Lower(path) == Lower(other)
    ensures Evicted(path, picksDir) <==> Evicted(other, picksDir)
  {
  }

  /** A visited file that is evicted is always a newcomer. */
  lemma EvictedIsNew(rows: seq<Row>, picksDir: string, f: Rec)
    requires KeptRows(rows, picksDir) && Evicted(f.path, picksDir)
    ensures Find(rows, f.path).None?
  {
    if Find(rows, f.path).Some? {
      var k := Find(rows, f.path).value;
      EvictedByKey(rows[k].seen.path, f.path, picksDir);
    }
  }

  /** Remaining files, then going ones. */
  predicate InOrder(recs: seq<Rec>, picksDir: string) {
    recs == Filter(recs, Remains(picksDir)) + Filter(recs, Goes(picksDir))
  }

  lemma {:induction false} NoneGo(recs: seq<Rec>, picksDir: string)
    ensures Filter(recs, Goes(picksDir)) == [] <==> forall i | 0 <= i < |recs| :: !Evicted(recs[i].path, picksDir)
    ensures Filter(recs, Goes(picksDir)) == [] ==> Filter(recs, Remains(picksDir)) == recs
  {
    if forall i | 0 <= i < |recs| :: !Evicted(recs[i].path, picksDir) {
      FilterNone(recs, Goes(picksDir));
      FilterAll(recs, Remains(picksDir));
    } else {
      var i :| 0 <= i < |recs| && Evicted(recs[i].path, picksDir);
      assert recs[i] in Filter(recs, Goes(picksDir));
    }
  }

  lemma SnocBoth<T>(s: seq<T>, a: seq<T>, b: seq<T>, x: T)
    ensures s + [x] == a + (b + [x]) <==> s == a + b
  {
    assert a + (b + [x]) == (a + b) + [x];
    if s + [x] == (a + b) + [x] {
      assert s == (s + [x])[..|s|] && a + b == ((a + b) + [x])[..|a + b|];
    }
  }

  lemma SnocDiffers<T>(s: seq<T>, a: seq<T>, b: seq<T>, x: T)
    requires x !in b && b != []
    ensures s + [x] != a + b
  {
    assert (s + [x])[|s + [x]| - 1] == x;
    assert (a + b)[|a + b| - 1] == b[|b| - 1] && b[|b| - 1] in b;
  }

  /** A going file at the end does not matter. */
  lemma InOrderGoing(recs: seq<Rec>, f: Rec, picksDir: string)
    requires Evicted(f.path, picksDir)
    ensures InOrder(recs + [f], picksDir) <==> InOrder(recs, picksDir)
  {
    FilterSnoc(recs, f, Remains(picksDir));
    FilterSnoc(recs, f, Goes(picksDir));
    assert !Remains(picksDir)(f) && Goes(picksDir)(f);
    var g, e := Filter(recs, Remains(picksDir)), Filter(recs, Goes(picksDir));
    assert Filter(recs + [f], Remains(picksDir)) == g;
    SnocBoth(recs, g, e, f);
  }

  /** A remaining file must not follow a going one. */
  lemma InOrderRemaining(recs: seq<Rec>, f: Rec, picksDir: string)
    requires !Evicted(f.path, picksDir)
    ensures InOrder(recs + [f], picksDir) <==> Filter(recs, Goes(picksDir)) == []
  {
    FilterSnoc(recs, f, Remains(picksDir));
    FilterSnoc(recs, f, Goes(picksDir));
    var g, e := Filter(recs, Remains(picksDir)), Filter(recs, Goes(picksDir));
    assert Filter(recs + [f], Remains(picksDir)) == g + [f] && Filter(recs + [f], Goes(picksDir)) == e;
    NoneGo(recs, picksDir);
    if e != [] {
      SnocDiffers(recs, g + [f], e, f);
    }
  }

  /** What EvictedLast asks of the last file. */
  lemma EvictedLastSnoc(rows: seq<Row>, picksDir: string, recs: seq<Rec>, f: Rec)
    ensures EvictedLast(rows, picksDir, recs + [f]) <==>
            EvictedLast(rows, picksDir, recs) && (!Evicted(f.path, picksDir) && Find(rows, f.path).None? ==>
                Filter(recs, Goes(picksDir)) == [])
  {
    var more := recs + [f];
    NoneGo(recs, picksDir);
    assert forall i | 0 <= i < |recs| :: more[i] == recs[i];
    assert more[|recs|] == f;
    if EvictedLast(rows, picksDir, more) {
      forall i, j | 0 <= i < j < |recs| && Evicted(recs[i].path, picksDir) && !Evicted(recs[j].path, picksDir)
        ensures Find(rows, recs[j].path).Some?
      {
        assert more[i] == recs[i] && more[j] == recs[j];
      }
      if !Evicted(f.path, picksDir) && Find(rows, f.path).None? {
        forall i | 0 <= i < |recs|
          ensures !Evicted(recs[i].path, picksDir)
        {
          assert more[i] == recs[i];
        }
      }
    }
  }

  lemma GoesSnoc(recs: seq<Rec>, f: Rec, picksDir: string)
    ensures Evicted(f.path, picksDir) ==> Filter(recs + [f], Goes(picksDir)) == Filter(recs, Goes(picksDir)) + [f]
    ensures !Evicted(f.path, picksDir) ==> Filter(recs + [f], Goes(picksDir)) == Filter(recs, Goes(picksDir))
  {
    FilterSnoc(recs, f, Goes(picksDir));
  }

  /** All who go are newcomers. */
  lemma {:induction false} NewcomersGo(rows: seq<Row>, picksDir: string, recs: seq<Rec>)
    requires KeptRows(rows, picksDir)
    ensures Filter(Newcomers(rows, recs), Goes(picksDir)) == Filter(recs, Goes(picksDir))
  {
    if recs != [] {
      var rest, f := recs[..|recs| - 1], recs[|recs| - 1];
      assert rest + [f] == recs;
      NewcomersGo(rows, picksDir, rest);
      NewcomersSnoc(rows, rest, f);
      GoesSnoc(rest, f, picksDir);
      GoesSnoc(Newcomers(rows, rest), f, picksDir);
      if Evicted(f.path, picksDir) {
        EvictedIsNew(rows, picksDir, f);
      }
    }
  }

  /** One more file keeps EvictedLast and the order of the newcomers in step. */
  lemma EvictedLastStep(rows: seq<Row>, picksDir: string, rest: seq<Rec>, f: Rec)
    requires KeptRows(rows, picksDir)
    requires EvictedLast(rows, picksDir, rest) <==> InOrder(Newcomers(rows, rest), picksDir)
    ensures EvictedLast(rows, picksDir, rest + [f]) <==> InOrder(Newcomers(rows, rest + [f]), picksDir)
  {
    var before := Newcomers(rows, rest);
    EvictedLastSnoc(rows, picksDir, rest, f);
    NewcomersSnoc(rows, rest, f);
    if Evicted(f.path, picksDir) {
      EvictedIsNew(rows, picksDir, f);
      InOrderGoing(before, f, picksDir);
    } else if Find(rows, f.path).None? {
      NewcomersGo(rows, picksDir, rest);
      InOrderRemaining(before, f, picksDir);
      NoneGo(before, picksDir);
    }
  }

  /** The newcomers are in order exactly when EvictedLast holds. */
  lemma {:induction false} EvictedLastIff(rows: seq<Row>, picksDir: string, recs: seq<Rec>)
    requires KeptRows(rows, picksDir)
    ensures EvictedLast(rows, picksDir, recs) <==> InOrder(Newcomers(rows, recs), picksDir)
  {
    if recs != [] {
      var rest, f := recs[..|recs| - 1], recs[|recs| - 1];
      EvictedLastIff(rows, picksDir, rest);
      EvictedLastStep(rows, picksDir, rest, f);
      assert rest + [f] == recs;
    }
  }

  // --------------------------------------------------------- the second walk

  /** Newcomers are visited, so they are not marked. */
  lemma NewcomersUnmarked(rows: seq<Row>, recs: seq<Rec>, id: int)
    ensures MarkMissing(NewRows(id, Newcomers(rows, recs)), SeenKeys(recs)) == NewRows(id, Newcomers(rows, recs))
  {
    var new' := Newcomers(rows, recs);
    NewcomersAre(rows, recs);
    forall k | 0 <= k < |new'|
      ensures Lower(new'[k].path) in SeenKeys(recs)
    {
      assert new'[k] in new';
      var i :| 0 <= i < |recs| && recs[i] == new'[k];
      SeenKeyAt(recs, Lower(new'[k].path));
    }
  }

  lemma MarkConcat(a: seq<Row>, b: seq<Row>, seen: set<string>)
    ensures MarkMissing(a + b, seen) == MarkMissing(a, seen) + MarkMissing(b, seen)
  {
  }

  /** The old rows of a table after one walk. */
  function Stayed(rows: seq<Row>, recs: seq<Rec>): seq<Row> {
    MarkMissing(Updated(rows, recs), SeenKeys(recs))
  }

  /** The table after one walk: the kept rows, then one row for each newcomer. */
  lemma WalkIs(rows: seq<Row>, picksDir: string, recs: seq<Rec>)
    requires Unique(rows) && DistinctKeys(recs)
    ensures var kept := Filter(rows, Stays(picksDir));
            WalkSpec(rows, picksDir, recs) == Stayed(kept, recs) + NewRows(NextId(kept), Newcomers(kept, recs))
  {
    var kept := Filter(rows, Stays(picksDir));
    FilterUnique(rows, Stays(picksDir));
    UpsertAllIs(kept, recs);
    MarkConcat(Updated(kept, recs), NewRows(NextId(kept), Newcomers(kept, recs)), SeenKeys(recs));
    NewcomersUnmarked(kept, recs, NextId(kept));
  }

  /** The second walk, in terms of the newcomers of the first. */
  ghost function SecondWalk(rows: seq<Row>, picksDir: string, recs: seq<Rec>): seq<Row> {
    WalkSpec(WalkSpec(rows, picksDir, recs), picksDir, recs)
  }

  lemma NoneEvictedKept(rows: seq<Row>, picksDir: string)
    ensures KeptRows(Filter(rows, Stays(picksDir)), picksDir)
  {
    var kept := Filter(rows, Stays(picksDir));
    forall k | 0 <= k < |kept|
      ensures !Evicted(kept[k].seen.path, picksDir)
    {
      assert kept[k] in kept;
    }
  }

  /** A walk keeps the rows it kept: their keys and ids do not change. */
  lemma StayedKeys(rows: seq<Row>, recs: seq<Rec>)
    ensures |Stayed(rows, recs)| == |rows|
    ensures forall k | 0 <= k < |rows| ::
              Stayed(rows, recs)[k].id == rows[k].id && Key(Stayed(rows, recs)[k]) == Key(rows[k])
  {
    UpdatedIds(rows, recs);
  }

  lemma {:induction false} FilterNewRows(id: int, recs: seq<Rec>, picksDir: string)
    ensures Map(Filter(NewRows(id, recs), Stays(picksDir)), SeenOf()) == Filter(recs, Remains(picksDir))
  {
    if recs == [] {
    } else {
      var n := |recs| - 1;
      var rest, f := recs[..n], recs[n];
      assert rest + [f] == recs;
      FilterNewRows(id, rest, picksDir);
      NewRowsSnoc(id, rest, f);
      FilterSnoc(NewRows(id, rest), Row(id + n, f, Discovered, None, None), Stays(picksDir));
      FilterSnoc(rest, f, Remains(picksDir));
    }
  }

  function SeenOf(): Row -> Rec {
    (r: Row) => r.seen
  }

  /** What the second eviction leaves. */
  lemma SecondKept(rows: seq<Row>, picksDir: string, recs: seq<Rec>)
    requires Unique(rows) && DistinctKeys(recs)
    ensures var kept := Filter(rows, Stays(picksDir));
            Filter(WalkSpec(rows, picksDir, recs), Stays(picksDir))
            == Stayed(kept, recs) + Filter(NewRows(NextId(kept), Newcomers(kept, recs)), Stays(picksDir))
  {
    var kept := Filter(rows, Stays(picksDir));
    var stayed, added := Stayed(kept, recs), NewRows(NextId(kept), Newcomers(kept, recs));
    WalkIs(rows, picksDir, recs);
    NoneEvictedKept(rows, picksDir);
    StayedKeys(kept, recs);
    forall r | r in stayed
      ensures !Evicted(r.seen.path, picksDir)
    {
      var k :| 0 <= k < |stayed| && stayed[k] == r;
      EvictedByKey(r.seen.path, kept[k].seen.path, picksDir);
    }
    FilterAll(stayed, Stays(picksDir));
    FilterConcat(stayed, added, Stays(picksDir));
  }

  /** A table in step with the disk does not change under upserts and marking. */
  lemma SyncedRowStays(rows: seq<Row>, recs: seq<Rec>, r: Row)
    requires Synced(rows, recs) && r in rows
    ensures Marked(AfterUpserts(r, recs), SeenKeys(recs)) == r
  {
    var k :| 0 <= k < |rows| && rows[k] == r;
    MetNone(recs, Key(r));
    SeenKeyAt(recs, Key(r));
    if Met(recs, Key(r)).Some? {
      var f := Met(recs, Key(r)).value;
      var i :| 0 <= i < |recs| && recs[i] == f;
      assert Recorded(rows, recs[i]);
      var j :| 0 <= j < |rows| && Key(rows[j]) == Lower(f.path) && SameFile(rows[j], f);
      assert j == k;
    }
  }

  lemma SyncedPartStays(rows: seq<Row>, recs: seq<Rec>, part: seq<Row>)
    requires Synced(rows, recs) && forall r | r in part :: r in rows
    ensures Stayed(part, recs) == part
  {
    forall k | 0 <= k < |part|
      ensures Stayed(part, recs)[k] == part[k]
    {
      SyncedRowStays(rows, recs, part[k]);
    }
  }

  /** After the second eviction exactly the evicted files have no row. */
  lemma SecondKnows(once: seq<Row>, picksDir: string, recs: seq<Rec>, f: Rec)
    requires Synced(once, recs) && f in recs
    ensures Find(Filter(once, Stays(picksDir)), f.path).None? <==> Evicted(f.path, picksDir)
  {
    var left := Filter(once, Stays(picksDir));
    NoneEvictedKept(once, picksDir);
    if Evicted(f.path, picksDir) {
      EvictedIsNew(left, picksDir, f);
    } else {
      var i :| 0 <= i < |recs| && recs[i] == f;
      assert Recorded(once, recs[i]);
      var j :| 0 <= j < |once| && Key(once[j]) == Lower(f.path) && SameFile(once[j], f);
      EvictedByKey(once[j].seen.path, f.path, picksDir);
      assert once[j] in left;
      var k :| 0 <= k < |left| && left[k] == once[j];
      FindIff(left, f.path);
    }
  }

  lemma {:induction false} NewcomersAreGoing(rows: seq<Row>, picksDir: string, recs: seq<Rec>)
    requires forall f | f in recs :: Find(rows, f.path).None? <==> Evicted(f.path, picksDir)
    ensures Newcomers(rows, recs) == Filter(recs, Goes(picksDir))
  {
    if recs != [] {
      var rest, f := recs[..|recs| - 1], recs[|recs| - 1];
      assert rest + [f] == recs;
      NewcomersAreGoing(rows, picksDir, rest);
      NewcomersSnoc(rows, rest, f);
      GoesSnoc(rest, f, picksDir);
      assert f in recs;
    }
  }

  /** The table after two walks: what the second eviction leaves, then the evicted files anew. */
  lemma SecondWalkIs(rows: seq<Row>, picksDir: string, recs: seq<Rec>)
    requires Unique(rows) && DistinctKeys(recs)
    ensures var left := Filter(WalkSpec(rows, picksDir, recs), Stays(picksDir));
            SecondWalk(rows, picksDir, recs) == left + NewRows(NextId(left), Filter(recs, Goes(picksDir)))
  {
    var once := WalkSpec(rows, picksDir, recs);
    var left := Filter(once, Stays(picksDir));
    WalkSyncs(rows, picksDir, recs);
    WalkIs(once, picksDir, recs);
    SyncedPartStays(once, recs, left);
    forall f | f in recs
      ensures Find(left, f.path).None? <==> Evicted(f.path, picksDir)
    {
      SecondKnows(once, picksDir, recs, f);
    }
    NewcomersAreGoing(left, picksDir, recs);
  }

  lemma MapConcat<A, B>(a: seq<A>, b: seq<A>, f: A -> B)
    ensures Map(a + b, f) == Map(a, f) + Map(b, f)
  {
  }

  lemma NewRowsSeen(id: int, recs: seq<Rec>)
    ensures Map(NewRows(id, recs), SeenOf()) == recs
  {
  }

  /** If the rows added by the two walks agree, the newcomers were in order. */
  lemma SameRowsInOrder(id: int, added: seq<Rec>, picksDir: string, next: int, going: seq<Rec>)
    requires Filter(NewRows(id, added), Stays(picksDir)) + NewRows(next, going) == NewRows(id, added)
    requires going == Filter(added, Goes(picksDir))
    ensures InOrder(added, picksDir)
  {
    FilterNewRows(id, added, picksDir);
    MapConcat(Filter(NewRows(id, added), Stays(picksDir)), NewRows(next, going), SeenOf());
    NewRowsSeen(id, added);
    NewRowsSeen(next, going);
  }

  lemma RemainingRowsStay(id: int, recs: seq<Rec>, picksDir: string)
    requires forall f | f in recs :: !Evicted(f.path, picksDir)
    ensures Filter(NewRows(id, recs), Stays(picksDir)) == NewRows(id, recs)
  {
    var rows := NewRows(id, recs);
    forall r | r in rows
      ensures Stays(picksDir)(r)
    {
      var k :| 0 <= k < |rows| && rows[k] == r;
      assert recs[k] in recs;
    }
    FilterAll(rows, Stays(picksDir));
  }

  lemma GoingRowsGo(id: int, recs: seq<Rec>, picksDir: string)
    requires forall f | f in recs :: Evicted(f.path, picksDir)
    ensures Filter(NewRows(id, recs), Stays(picksDir)) == []
  {
    var rows := NewRows(id, recs);
    forall r | r in rows
      ensures !Stays(picksDir)(r)
    {
      var k :| 0 <= k < |rows| && rows[k] == r;
      assert recs[k] in recs;
    }
    FilterNone(rows, Stays(picksDir));
  }

  /** Newcomers in order: the second eviction takes the end of the table away. */
  lemma InOrderFilter(id: int, g: seq<Rec>, e: seq<Rec>, picksDir: string)
    requires (forall f | f in g :: !Evicted(f.path, picksDir)) && forall f | f in e :: Evicted(f.path, picksDir)
    ensures NewRows(id, g + e) == NewRows(id, g) + NewRows(id + |g|, e)
    ensures Filter(NewRows(id, g + e), Stays(picksDir)) == NewRows(id, g)
  {
    NewRowsConcat(id, g, e);
    FilterConcat(NewRows(id, g), NewRows(id + |g|, e), Stays(picksDir));
    RemainingRowsStay(id, g, picksDir);
    GoingRowsGo(id + |g|, e, picksDir);
  }

  lemma Reassociated<T>(a: seq<T>, b: seq<T>, c: seq<T>)
    ensures (a + b) + c == a + (b + c)
  {
  }

  lemma PartsSameRows(stayed: seq<Row>, g: seq<Rec>, e: seq<Rec>)
    ensures var left := stayed + NewRows(NextId(stayed), g);
            left + NewRows(NextId(left), e) == stayed + NewRows(NextId(stayed), g + e)
  {
    var id := NextId(stayed);
    NewRowsConcat(id, g, e);
    NextIdAfter(stayed, g);
    Reassociated(stayed, NewRows(id, g), NewRows(id + |g|, e));
  }

  lemma InOrderSameRows(stayed: seq<Row>, added: seq<Rec>, picksDir: string)
    requires InOrder(added, picksDir)
    ensures var left := stayed + Filter(NewRows(NextId(stayed), added), Stays(picksDir));
            left + NewRows(NextId(left), Filter(added, Goes(picksDir))) == stayed + NewRows(NextId(stayed), added)
  {
    var g, e := Filter(added, Remains(picksDir)), Filter(added, Goes(picksDir));
    InOrderFilter(NextId(stayed), g, e, picksDir);
    PartsSameRows(stayed, g, e);
  }

  /** The rows of the second walk are those of the first exactly when the newcomers were in order. */
  lemma SameRowsIff(stayed: seq<Row>, added: seq<Rec>, picksDir: string)
    ensures var left := stayed + Filter(NewRows(NextId(stayed), added), Stays(picksDir));
            left + NewRows(NextId(left), Filter(added, Goes(picksDir))) == stayed + NewRows(NextId(stayed), added)
            <==> InOrder(added, picksDir)
  {
    var id, going := NextId(stayed), Filter(added, Goes(picksDir));
    var some := Filter(NewRows(id, added), Stays(picksDir));
    var next := NextId(stayed + some);
    if InOrder(added, picksDir) {
      InOrderSameRows(stayed, added, picksDir);
    } else {
      Reassociated(stayed, some, NewRows(next, going));
      SameAfter(stayed, some + NewRows(next, going), NewRows(id, added));
      if some + NewRows(next, going) == NewRows(id, added) {
        SameRowsInOrder(id, added, picksDir, next, going);
      }
    }
  }

  /** Eviction does not take the row of a path that is not evicted. */
  lemma KeptKnows(rows: seq<Row>, picksDir: string, path: string)
    requires !Evicted(path, picksDir)
    ensures Find(Filter(rows, Stays(picksDir)), path).Some? <==> Find(rows, path).Some?
  {
    var kept := Filter(rows, Stays(picksDir));
    if Find(rows, path).Some? {
      var k := Find(rows, path).value;
      EvictedByKey(rows[k].seen.path, path, picksDir);
      assert rows[k] in kept;
      var j :| 0 <= j < |kept| && kept[j] == rows[k];
      FindIff(kept, path);
    }
    if Find(kept, path).Some? {
      var k := Find(kept, path).value;
      assert kept[k] in kept;
      var j :| 0 <= j < |rows| && rows[j] == kept[k];
      FindIff(rows, path);
    }
  }

  lemma EvictedLastKept(rows: seq<Row>, picksDir: string, recs: seq<Rec>)
    ensures EvictedLast(Filter(rows, Stays(picksDir)), picksDir, recs) <==> EvictedLast(rows, picksDir, recs)
  {
    forall j | 0 <= j < |recs| && !Evicted(recs[j].path, picksDir)
      ensures Find(Filter(rows, Stays(picksDir)), recs[j].path).Some? <==> Find(rows, recs[j].path).Some?
    {
      KeptKnows(rows, picksDir, recs[j].path);
    }
  }

  /** Two walks in a row, from any table and whatever the picks directory is called: the second changes
      nothing exactly when no visited file that is evicted comes before a newcomer that is not. */
  lemma WalkTwiceIff(rows: seq<Row>, picksDir: string, recs: seq<Rec>)
    requires Unique(rows) && DistinctKeys(recs)
    ensures SecondWalk(rows, picksDir, recs) == WalkSpec(rows, picksDir, recs)
            <==> EvictedLast(rows, picksDir, recs)
  {
    var kept := Filter(rows, Stays(picksDir));
    var stayed, added := Stayed(kept, recs), Newcomers(kept, recs);
    NoneEvictedKept(rows, picksDir);
    NewcomersGo(kept, picksDir, recs);
    EvictedLastIff(kept, picksDir, recs);
    EvictedLastKept(rows, picksDir, recs);
    WalkIs(rows, picksDir, recs);
    SecondKept(rows, picksDir, recs);
    SecondWalkIs(rows, picksDir, recs);
    StayedKeys(kept, recs);
    NextIdSame(stayed, kept);
    SameRowsIff(stayed, added, picksDir);
  }

  lemma SameAfter<T>(a: seq<T>, b: seq<T>, c: seq<T>)
    ensures a + b == a + c <==> b == c
  {
    if a + b == a + c {
      assert b == (a + b)[|a|..] && c == (a + c)[|a|..];
    }
  }

  /** No evicted visit comes before one that is not. */
  ghost predicate EvictedVisitsLast(picksDir: string, recs: seq<Rec>) {
    forall i, j | 0 <= i < j < |recs| && Evicted(recs[i].path, picksDir) :: Evicted(recs[j].path, picksDir)
  }

  ghost predicate TwiceIsOnce(rows: seq<Row>, picksDir: string, recs: seq<Rec>) {
    SecondWalk(rows, picksDir, recs) == WalkSpec(rows, picksDir, recs)
  }

  /** The walk over a tree is idempotent on every table exactly when no evicted visit comes before one that
      is not. */
  lemma IdempotentIff(picksDir: string, recs: seq<Rec>)
    requires DistinctKeys(recs)
    ensures (forall rows | Unique(rows) :: TwiceIsOnce(rows, picksDir, recs)) <==> EvictedVisitsLast(picksDir, recs)
  {
    if EvictedVisitsLast(picksDir, recs) {
      forall rows | Unique(rows)
        ensures TwiceIsOnce(rows, picksDir, recs)
      {
        WalkTwiceIff(rows, picksDir, recs);
      }
    } else {
      var none: seq<Row> := [];
      WalkTwiceIff(none, picksDir, recs);
      assert Unique(none) && !EvictedLast(none, picksDir, recs);
      assert !TwiceIsOnce(none, picksDir, recs);
    }
  }
}
