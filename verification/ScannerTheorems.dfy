/** What a walk guarantees, and when a second walk changes nothing. */
module ScannerTheorems {
  import opened Seqs
  import opened Stages
  import opened FilesTable
  import opened Scanner

  /** Paths on disk are distinct up to case. */
  ghost predicate DistinctKeys(recs: seq<Rec>) {
    forall i, j | 0 <= i < j < |recs| :: Lower(recs[i].path) != Lower(recs[j].path)
  }

  function SeenKeys(recs: seq<Rec>): set<string> {
    Keys(PathsOf(recs))
  }

  lemma SeenKeyAt(recs: seq<Rec>, key: string)
    ensures key in SeenKeys(recs) <==> exists i :: 0 <= i < |recs| && Lower(recs[i].path) == key
  {
    if key in SeenKeys(recs) {
      var p :| p in PathsOf(recs) && Lower(p) == key;
      var i :| 0 <= i < |recs| && recs[i].path == p;
      assert Lower(recs[i].path) == key;
    }
    if i :| 0 <= i < |recs| && Lower(recs[i].path) == key {
      assert recs[i].path in PathsOf(recs);
    }
  }

  // ------------------------------------------------- after one walk

  lemma {:induction false} UpsertAllRecords(rows: seq<Row>, recs: seq<Rec>)
    requires DistinctKeys(recs)
    ensures forall i | 0 <= i < |recs| :: Recorded(UpsertAll(rows, recs), recs[i])
  {
    if recs != [] {
      var n := |recs| - 1;
      var rest := recs[..n];
      UpsertAllRecords(rows, rest);
      UpsertRecords(UpsertAll(rows, rest), recs[n]);
      forall i | 0 <= i < |recs|
        ensures Recorded(UpsertAll(rows, recs), recs[i])
      {
        if i < n {
          assert rest[i] == recs[i];
          UpsertKeepsOther(UpsertAll(rows, rest), recs[n], recs[i]);
        }
      }
    }
  }

  /** The table says what the disk says: every visited file has its row, every other row is missing. */
  ghost predicate Synced(rows: seq<Row>, recs: seq<Rec>) {
    && Unique(rows)
    && (forall i | 0 <= i < |recs| :: Recorded(rows, recs[i]))
    && (forall k | 0 <= k < |rows| :: Key(rows[k]) !in SeenKeys(recs) ==> rows[k].status == Missing)
  }

  lemma MarkKeepsRecorded(rows: seq<Row>, seen: set<string>, f: Rec)
    requires Recorded(rows, f)
    ensures Recorded(MarkMissing(rows, seen), f)
  {
    var k :| 0 <= k < |rows| && Key(rows[k]) == Lower(f.path) && SameFile(rows[k], f);
    var t := MarkMissing(rows, seen);
    assert Key(t[k]) == Lower(f.path) && SameFile(t[k], f);
  }

  /** After any successful walk each visited path has exactly one row, with the disk's size, mtime and hash,
      and every row of an unvisited path is missing. */
  lemma WalkSyncs(rows: seq<Row>, picksDir: string, recs: seq<Rec>)
    requires Unique(rows) && DistinctKeys(recs)
    ensures Synced(WalkSpec(rows, picksDir, recs), recs)
  {
    var kept := Filter(rows, Stays(picksDir));
    var all := UpsertAll(kept, recs);
    FilterUnique(rows, Stays(picksDir));
    UpsertAllUnique(kept, recs);
    UpsertAllRecords(kept, recs);
    forall i | 0 <= i < |recs|
      ensures Recorded(WalkSpec(rows, picksDir, recs), recs[i])
    {
      MarkKeepsRecorded(all, SeenKeys(recs), recs[i]);
    }
  }

  // ----------------------------------------------------- a second walk

  lemma {:induction false} UpsertAllNothingNew(rows: seq<Row>, recs: seq<Rec>)
    requires Unique(rows) && forall i | 0 <= i < |recs| :: Recorded(rows, recs[i])
    ensures UpsertAll(rows, recs) == rows
  {
    if recs != [] {
      var n := |recs| - 1;
      forall i | 0 <= i < n
        ensures Recorded(rows, recs[..n][i])
      {
        assert recs[..n][i] == recs[i];
      }
      UpsertAllNothingNew(rows, recs[..n]);
      UpsertNothingNew(rows, recs[n]);
    }
  }

  ghost predicate NoneEvicted(rows: seq<Row>, picksDir: string) {
    forall r | r in rows :: !Evicted(r.seen.path, picksDir)
  }

  /** A walk over an unchanged tree changes nothing if it evicts nothing. */
  lemma SyncedStays(rows: seq<Row>, picksDir: string, recs: seq<Rec>)
    requires Synced(rows, recs) && NoneEvicted(rows, picksDir)
    ensures WalkSpec(rows, picksDir, recs) == rows
  {
    FilterAll(rows, Stays(picksDir));
    UpsertAllNothingNew(rows, recs);
  }

  /** A path the walker takes is evicted only because of a wildcard. */
  lemma OutsideNotEvicted(path: string, picksDir: string)
    requires WildcardFree(picksDir) && !IsUnderDir(path, picksDir)
    requires path != "" && path[|path| - 1] != '/'
    ensures !Evicted(path, picksDir)
  {
    var p, d := Lower(path), Lower(picksDir);
    assert d + "/%" == (d + "/") + "%";
    assert WildcardFree(d + "/");
    LikePrefix(p, d + "/");
    if |d| + 1 <= |p| && p[..|d| + 1] == d + "/" {
      assert p[|d|] == '/' && LowerChar(path[|d|]) == '/';
      assert |path| > |picksDir| + 1;
      assert Lower(path[..|d| + 1]) == p[..|d| + 1];
      assert Lower(picksDir + "/") == d + "/";
    }
  }

  ghost predicate Outside(recs: seq<Rec>, picksDir: string) {
    forall i | 0 <= i < |recs| :: !IsUnderDir(recs[i].path, picksDir) && recs[i].path != ""
        && recs[i].path[|recs[i].path| - 1] != '/'
  }

  /** A media name does not end in a separator. */
  lemma MediaName(name: string)
    requires DetectFromExt(name).Some?
    ensures name != "" && name[|name| - 1] != '/'
  {
    assert Lower(Paths.Ext(name)) != "";
  }

  lemma {:induction false} VisitsOutside(n: Node, prefix: string, picksDir: string)
    ensures Outside(Visits(n, prefix, picksDir), picksDir)
    decreases n, 0
  {
    match n
    case Leaf(name, _, _, _) =>
      if Wanted(name, prefix + name, picksDir) {
        MediaName(name);
      }
    case Folder(name, _, children) => VisitsAllOutside(children, prefix + name + "/", picksDir);
  }

  lemma {:induction false} VisitsAllOutside(ns: seq<Node>, prefix: string, picksDir: string)
    ensures Outside(VisitsAll(ns, prefix, picksDir), picksDir)
    decreases ns, |ns|
  {
    if ns != [] {
      VisitsAllOutside(ns[..|ns| - 1], prefix, picksDir);
      VisitsOutside(ns[|ns| - 1], prefix, picksDir);
    }
  }

  ghost predicate NoneEvictedRecs(recs: seq<Rec>, picksDir: string) {
    forall i | 0 <= i < |recs| :: !Evicted(recs[i].path, picksDir)
  }

  lemma {:induction false} UpsertAllNoneEvicted(rows: seq<Row>, recs: seq<Rec>, picksDir: string)
    requires NoneEvicted(rows, picksDir) && NoneEvictedRecs(recs, picksDir)
    ensures NoneEvicted(UpsertAll(rows, recs), picksDir)
  {
    if recs != [] {
      var rest := recs[..|recs| - 1];
      assert NoneEvictedRecs(rest, picksDir) by {
        assert forall i | 0 <= i < |rest| :: rest[i] == recs[i];
      }
      UpsertAllNoneEvicted(rows, rest, picksDir);
    }
  }

  /** A second successful walk over an unchanged tree changes no row: for a picks directory without LIKE
      wildcards and paths distinct up to case. */
  lemma WalkIdempotent(rows: seq<Row>, picksDir: string, entries: seq<Node>)
    requires Unique(rows) && WildcardFree(picksDir) && DistinctKeys(VisitsAll(entries, "", picksDir))
    ensures var once := WalkSpec(rows, picksDir, VisitsAll(entries, "", picksDir));
            WalkSpec(once, picksDir, VisitsAll(entries, "", picksDir)) == once
  {
    var recs := VisitsAll(entries, "", picksDir);
    VisitsAllOutside(entries, "", picksDir);
    forall i | 0 <= i < |recs|
      ensures !Evicted(recs[i].path, picksDir)
    {
      OutsideNotEvicted(recs[i].path, picksDir);
    }
    var all := UpsertAll(Filter(rows, Stays(picksDir)), recs);
    UpsertAllNoneEvicted(Filter(rows, Stays(picksDir)), recs, picksDir);
    var once := MarkMissing(all, SeenKeys(recs));
    forall r | r in once
      ensures !Evicted(r.seen.path, picksDir)
    {
      var k :| 0 <= k < |once| && once[k] == r;
      assert all[k] in all;
    }
    WalkSyncs(rows, picksDir, recs);
    SyncedStays(once, picksDir, recs);
  }

  // -------------------------------------------- with wildcards: exactly when

  /** No file is waiting for the pipeline. */
  ghost predicate Settled(rows: seq<Row>) {
    forall r | r in rows :: r.status != Discovered
  }

  /** A row after the upserts is an old row's successor, or new and discovered. */
  ghost predicate FromOld(before: seq<Row>, after: seq<Row>, k: nat)
    requires k < |after|
  {
    k < |before| && Key(after[k]) == Key(before[k])
  }

  ghost predicate FreshRow(after: seq<Row>, k: nat, recs: seq<Rec>)
    requires k < |after|
  {
    after[k].status == Discovered && exists i :: 0 <= i < |recs| && Lower(recs[i].path) == Key(after[k])
  }

  /** One upsert keeps every key in its place and may append one discovered row. */
  lemma UpsertShape(rows: seq<Row>, f: Rec)
    ensures |rows| <= |Upsert(rows, f)| <= |rows| + 1
    ensures forall k | 0 <= k < |rows| :: Key(Upsert(rows, f)[k]) == Key(rows[k])
    ensures forall k | 0 <= k < |rows| :: Upsert(rows, f)[k] == rows[k] || Upsert(rows, f)[k].status == Discovered
    ensures |Upsert(rows, f)| > |rows| ==>
              Upsert(rows, f)[|rows|].status == Discovered && Key(Upsert(rows, f)[|rows|]) == Lower(f.path)
  {
  }

  lemma OriginStep(rows: seq<Row>, before: seq<Row>, recs: seq<Rec>, n: nat, k: nat)
    requires n < |recs| && k < |Upsert(before, recs[n])|
    requires k < |before| ==> FromOld(rows, before, k) || FreshRow(before, k, recs[..n])
    requires |rows| <= |before|
    ensures FromOld(rows, Upsert(before, recs[n]), k) || FreshRow(Upsert(before, recs[n]), k, recs)
  {
    var after := Upsert(before, recs[n]);
    UpsertShape(before, recs[n]);
    if k == |before| {
      assert Lower(recs[n].path) == Key(after[k]);
    } else if !FromOld(rows, before, k) {
      var i :| 0 <= i < n && Lower(recs[..n][i].path) == Key(before[k]);
      assert Lower(recs[i].path) == Key(after[k]);
    }
  }

  lemma {:induction false} UpsertAllOrigin(rows: seq<Row>, recs: seq<Rec>)
    ensures |rows| <= |UpsertAll(rows, recs)|
    ensures forall k: nat | k < |UpsertAll(rows, recs)| ::
              FromOld(rows, UpsertAll(rows, recs), k) || FreshRow(UpsertAll(rows, recs), k, recs)
  {
    if recs != [] {
      var n := |recs| - 1;
      var before := UpsertAll(rows, recs[..n]);
      UpsertAllOrigin(rows, recs[..n]);
      UpsertShape(before, recs[n]);
      forall k: nat | k < |UpsertAll(rows, recs)|
        ensures FromOld(rows, UpsertAll(rows, recs), k) || FreshRow(UpsertAll(rows, recs), k, recs)
      {
        OriginStep(rows, before, recs, n, k);
      }
    }
  }

  lemma SameKeySameRow(rows: seq<Row>, a: Row, b: Row)
    requires Unique(rows) && a in rows && b in rows && Key(a) == Key(b)
    ensures a == b
  {
    var i :| 0 <= i < |rows| && rows[i] == a;
    var j :| 0 <= j < |rows| && rows[j] == b;
    assert i == j;
  }

  /** An evicted row does not come back as it was: if its file is visited it comes back discovered. */
  lemma EvictedRowGoes(rows: seq<Row>, picksDir: string, recs: seq<Rec>, r: Row)
    requires Unique(rows) && Settled(rows) && r in rows && Evicted(r.seen.path, picksDir)
    ensures r !in WalkSpec(rows, picksDir, recs)
  {
    var kept := Filter(rows, Stays(picksDir));
    var all := UpsertAll(kept, recs);
    var walked := WalkSpec(rows, picksDir, recs);
    UpsertAllOrigin(kept, recs);
    forall k: nat | k < |walked|
      ensures walked[k] != r
    {
      if FromOld(kept, all, k) {
        assert kept[k] in kept;
        if Key(kept[k]) == Key(r) {
          SameKeySameRow(rows, kept[k], r);
        }
        assert Key(walked[k]) == Key(all[k]);
      } else {
        SeenKeyAt(recs, Key(all[k]));
        assert walked[k] == all[k];
      }
    }
  }

  /** On a settled table in step with the disk, whatever the picks directory is called, a walk changes
      nothing exactly when the eviction pattern matches no row. */
  lemma SettledWalkIff(rows: seq<Row>, picksDir: string, recs: seq<Rec>)
    requires Synced(rows, recs) && Settled(rows)
    ensures WalkSpec(rows, picksDir, recs) == rows <==> NoneEvicted(rows, picksDir)
  {
    if NoneEvicted(rows, picksDir) {
      SyncedStays(rows, picksDir, recs);
    } else {
      var r :| r in rows && Evicted(r.seen.path, picksDir);
      EvictedRowGoes(rows, picksDir, recs, r);
    }
  }

  /** One photo in a folder whose name the underscore of the picks directory happens to match. */
  function WildcardTree(): seq<Node> {
    [Folder("axb", true, [Leaf("p.jpg", 1, 1, Some("h"))])]
  }

  lemma JpegName()
    ensures DetectFromExt("p.jpg") == Some(FormatInfo("photo", "jpeg"))
  {
    Paths.JpgExt("p");
    assert "p" + ".jpg" == "p.jpg" && Lower(".jpg") == ".jpg";
  }

  lemma {:induction false} LikeSteps(s: string, p: string)
    requires s != [] && p != [] && p[0] != '%' && (p[0] == '_' || p[0] == s[0]) && Like(s[1..], p[1..])
    ensures Like(s, p)
  {
  }

  lemma WildcardEvicts()
    ensures Evicted("axb/p.jpg", "a_b")
  {
    assert Lower("a_b") == "a_b" && Lower("axb/p.jpg") == "axb/p.jpg" && "a_b" + "/%" == "a_b/%";
    assert "/%"[1..] == "%" && "b/%"[1..] == "/%" && "_b/%"[1..] == "b/%" && "a_b/%"[1..] == "_b/%";
    assert "/p.jpg"[1..] == "p.jpg" && "b/p.jpg"[1..] == "/p.jpg" && "xb/p.jpg"[1..] == "b/p.jpg"
        && "axb/p.jpg"[1..] == "xb/p.jpg";
    LikeAnything("p.jpg");
    LikeSteps("/p.jpg", "/%");
    LikeSteps("b/p.jpg", "b/%");
    LikeSteps("xb/p.jpg", "_b/%");
    LikeSteps("axb/p.jpg", "a_b/%");
  }

  lemma WildcardWanted()
    ensures Wanted("p.jpg", "axb/p.jpg", "a_b") && !SkippedFolder("axb", "axb", "a_b")
  {
    JpegName();
    assert Lower("axb")[1] == 'x' && Lower("a_b")[1] == '_';
    assert |Lower("axb/p.jpg")| != |Lower("a_b")|;
    assert Lower("axb/p.jpg"[..4])[1] == 'x' && Lower("a_b" + "/")[1] == '_';
  }

  /** A folder with one wanted file, anywhere. */
  lemma OneFile(folder: string, name: string, prefix: string, picksDir: string, leaf: Node)
    requires leaf.Leaf? && leaf.name == name && Wanted(name, prefix + folder + "/" + name, picksDir)
    requires !SkippedFolder(folder, prefix + folder, picksDir)
    ensures VisitsAll([Folder(folder, true, [leaf])], prefix, picksDir) == [RecOf(leaf, prefix + folder + "/" + name)]
  {
    var node := Folder(folder, true, [leaf]);
    var inner := prefix + folder + "/";
    assert [leaf][..0] == [] && [node][..0] == [];
    assert VisitsAll([leaf], inner, picksDir) == [] + Visits(leaf, inner, picksDir);
    assert VisitsAll([node], prefix, picksDir) == [] + Visits(node, prefix, picksDir);
  }

  lemma WildcardVisits()
    ensures VisitsAll(WildcardTree(), "", "a_b") == [Rec("axb/p.jpg", 1, 1, "h", "photo", "jpeg")]
  {
    assert "" + "axb" == "axb" && "axb" + "/" + "p.jpg" == "axb/p.jpg";
    JpegName();
    WildcardWanted();
    OneFile("axb", "p.jpg", "", "a_b", Leaf("p.jpg", 1, 1, Some("h")));
  }

  /** The table a walk over that tree and the pipeline leave. */
  function AnalyzedPhoto(): seq<Row> {
    [Row(1, Rec("axb/p.jpg", 1, 1, "h", "photo", "jpeg"), Analyzed, None, None)]
  }

  lemma AnalyzedPhotoSynced()
    ensures Synced(AnalyzedPhoto(), [Rec("axb/p.jpg", 1, 1, "h", "photo", "jpeg")]) && Settled(AnalyzedPhoto())
  {
    var rows, recs := AnalyzedPhoto(), [Rec("axb/p.jpg", 1, 1, "h", "photo", "jpeg")];
    assert Key(rows[0]) == Lower(recs[0].path) && SameFile(rows[0], recs[0]);
    SeenKeyAt(recs, Key(rows[0]));
  }

  /** With the picks directory "a_b" the next walk over the same tree evicts the photo's row and discovers
      the photo anew. */
  lemma WildcardBreaks()
    ensures Synced(AnalyzedPhoto(), VisitsAll(WildcardTree(), "", "a_b")) && Settled(AnalyzedPhoto())
    ensures WalkSpec(AnalyzedPhoto(), "a_b", VisitsAll(WildcardTree(), "", "a_b")) != AnalyzedPhoto()
  {
    WildcardVisits();
    WildcardEvicts();
    AnalyzedPhotoSynced();
    assert AnalyzedPhoto()[0] in AnalyzedPhoto();
    SettledWalkIff(AnalyzedPhoto(), "a_b", VisitsAll(WildcardTree(), "", "a_b"));
  }

  // ------------------------------------------------ what a walk leaves alone

  lemma UpsertKeepsRow(rows: seq<Row>, f: Rec, r: Row)
    requires Unique(rows) && r in rows && (Lower(f.path) == Key(r) ==> SameFile(r, f))
    ensures r in Upsert(rows, f)
  {
    var k :| 0 <= k < |rows| && rows[k] == r;
    assert Upsert(rows, f)[k] == r;
  }

  lemma {:induction false} UpsertAllKeepsRow(rows: seq<Row>, recs: seq<Rec>, r: Row)
    requires Unique(rows) && r in rows
    requires forall i | 0 <= i < |recs| && Lower(recs[i].path) == Key(r) :: SameFile(r, recs[i])
    ensures r in UpsertAll(rows, recs)
  {
    if recs != [] {
      var n := |recs| - 1;
      forall i | 0 <= i < n && Lower(recs[..n][i].path) == Key(r)
        ensures SameFile(r, recs[..n][i])
      {
        assert recs[..n][i] == recs[i];
      }
      UpsertAllKeepsRow(rows, recs[..n], r);
      UpsertAllUnique(rows, recs[..n]);
      UpsertKeepsRow(UpsertAll(rows, recs[..n]), recs[n], r);
    }
  }

  /** A row of an unchanged visited file survives a walk untouched, with its id, status and metadata. That
      includes a row that was missing: its file is back, but the status stays missing. So does any missing
      row that is not visited. */
  lemma UnchangedRowKept(rows: seq<Row>, picksDir: string, recs: seq<Rec>, r: Row)
    requires Unique(rows) && r in rows && !Evicted(r.seen.path, picksDir)
    requires forall i | 0 <= i < |recs| && Lower(recs[i].path) == Key(r) :: SameFile(r, recs[i])
    requires r.status == Missing || Key(r) in SeenKeys(recs)
    ensures r in WalkSpec(rows, picksDir, recs)
  {
    var kept := Filter(rows, Stays(picksDir));
    FilterUnique(rows, Stays(picksDir));
    UpsertAllKeepsRow(kept, recs, r);
    var all := UpsertAll(kept, recs);
    var k :| 0 <= k < |all| && all[k] == r;
    assert WalkSpec(rows, picksDir, recs)[k] == r;
  }

  // -------------------------------------------------- what becomes of a row

  /** The record of the file with a key, if it was visited. */
  function Met(recs: seq<Rec>, key: string): Option<Rec> {
    if recs == [] then None
    else if Lower(recs[|recs| - 1].path) == key then Some(recs[|recs| - 1])
    else Met(recs[..|recs| - 1], key)
  }

  lemma {:induction false} MetIs(recs: seq<Rec>, i: nat)
    requires DistinctKeys(recs) && i < |recs|
    ensures Met(recs, Lower(recs[i].path)) == Some(recs[i])
  {
    var n := |recs| - 1;
    if i < n {
      assert recs[..n][i] == recs[i];
      MetIs(recs[..n], i);
    }
  }

  lemma {:induction false} MetNone(recs: seq<Rec>, key: string)
    ensures Met(recs, key).None? <==> forall i | 0 <= i < |recs| :: Lower(recs[i].path) != key
    ensures Met(recs, key).Some? ==> Met(recs, key).value in recs && Lower(Met(recs, key).value.path) == key
  {
    if recs != [] {
      var n := |recs| - 1;
      MetNone(recs[..n], key);
      assert forall i | 0 <= i < n :: recs[..n][i] == recs[i];
    }
  }

  /** A row after all upserts of a walk. */
  function AfterUpserts(r: Row, recs: seq<Rec>): Row {
    if Met(recs, Key(r)).None? then r else AfterUpsert(r, Met(recs, Key(r)).value)
  }

  lemma {:induction false} UpsertAllAt(rows: seq<Row>, recs: seq<Rec>, k: nat)
    requires Unique(rows) && DistinctKeys(recs) && k < |rows|
    ensures k < |UpsertAll(rows, recs)| && UpsertAll(rows, recs)[k] == AfterUpserts(rows[k], recs)
  {
    if recs != [] {
      var n := |recs| - 1;
      UpsertAllAt(rows, recs[..n], k);
      UpsertAllUnique(rows, recs[..n]);
      UpsertAt(UpsertAll(rows, recs[..n]), recs[n], k);
      if Lower(recs[n].path) == Key(rows[k]) {
        MetNone(recs[..n], Key(rows[k]));
      }
    }
  }

  /** The row a walk makes of a row it does not evict. */
  function AfterWalk(r: Row, recs: seq<Rec>): Row {
    if Met(recs, Key(r)).None? then r.(status := Missing) else AfterUpsert(r, Met(recs, Key(r)).value)
  }

  lemma RowAfterWalk(rows: seq<Row>, picksDir: string, recs: seq<Rec>, r: Row)
    requires Unique(rows) && DistinctKeys(recs) && r in rows && !Evicted(r.seen.path, picksDir)
    ensures AfterWalk(r, recs) in WalkSpec(rows, picksDir, recs)
  {
    var kept := Filter(rows, Stays(picksDir));
    var k :| 0 <= k < |kept| && kept[k] == r;
    FilterUnique(rows, Stays(picksDir));
    UpsertAllAt(kept, recs, k);
    MetNone(recs, Key(r));
    SeenKeyAt(recs, Key(r));
    assert WalkSpec(rows, picksDir, recs)[k] == AfterWalk(r, recs);
  }

  /** What a walk does to the row of a file it visits: the row keeps its id, its status exactly when size,
      mtime and hash are the recorded ones or it was waiting already, and a missing row leaves that status
      exactly when one of them differs. */
  lemma VisitedRowIff(rows: seq<Row>, picksDir: string, recs: seq<Rec>, r: Row, i: nat)
    requires Unique(rows) && DistinctKeys(recs) && r in rows && !Evicted(r.seen.path, picksDir)
    requires i < |recs| && Lower(recs[i].path) == Key(r)
    ensures AfterUpsert(r, recs[i]) in WalkSpec(rows, picksDir, recs) && AfterUpsert(r, recs[i]).id == r.id
    ensures AfterUpsert(r, recs[i]).status == r.status <==> SameFile(r, recs[i]) || r.status == Discovered
    ensures r.status == Missing ==> (AfterUpsert(r, recs[i]).status == Missing <==> SameFile(r, recs[i]))
  {
    MetIs(recs, i);
    RowAfterWalk(rows, picksDir, recs, r);
  }
}
