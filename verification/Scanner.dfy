/** Walk: reconcile the files table with a directory tree. */
module Scanner {
  import opened Seqs
  import opened Paths
  import opened FilesTable

  // --------------------------------------------------------------- the tree

  /** A directory entry. A file's hash is None where stat or hashing fails. */
  datatype Node =
    | Folder(name: string, readable: bool, children: seq<Node>)
    | Leaf(name: string, size: int, mtime: int, hash: Option<string>)

  datatype FormatInfo = FormatInfo(kind: string, format: string)

  /** The table of recognised extensions, lower case. */
  function FormatOf(ext: string): Option<FormatInfo> {
    if ext == ".jpg" || ext == ".jpeg" || ext == ".tiff" || ext == ".tif" then Some(FormatInfo("photo", "jpeg"))
    else if ext == ".raf" || ext == ".dng" then Some(FormatInfo("photo", "raf"))
    else if ext == ".heic" || ext == ".heif" then Some(FormatInfo("photo", "heic"))
    else if ext == ".png" then Some(FormatInfo("photo", "png"))
    else if ext == ".mov" then Some(FormatInfo("video", "mov"))
    else if ext == ".mp4" || ext == ".m4v" then Some(FormatInfo("video", "mp4"))
    else None
  }

  function DetectFromExt(name: string): Option<FormatInfo> {
    FormatOf(Lower(Ext(name)))
  }

  /** strings.EqualFold on ASCII. */
  predicate EqualFold(a: string, b: string) {
    Lower(a) == Lower(b)
  }

  predicate IsUnderDir(path: string, dir: string) {
    dir != "" && (EqualFold(path, dir) || (|path| > |dir| + 1 && EqualFold(path[..|dir| + 1], dir + "/")))
  }

  predicate SkippedFolder(name: string, rel: string, picksDir: string) {
    StartsWith(name, ".") || name == ".choix" || name == "node_modules" || EqualFold(rel, picksDir)
  }

  predicate Wanted(name: string, rel: string, picksDir: string) {
    DetectFromExt(name).Some? && !IsUnderDir(rel, picksDir)
  }

  function RecOf(n: Node, rel: string): Rec
    requires n.Leaf? && DetectFromExt(n.name).Some?
  {
    var fi := DetectFromExt(n.name).value;
    Rec(rel, n.size, n.mtime, if n.hash.Some? then n.hash.value else "", fi.kind, fi.format)
  }

  /** What a complete walk of an entry visits, in order; prefix is "" at the root or ends in a separator. */
  function Visits(n: Node, prefix: string, picksDir: string): seq<Rec>
    decreases n, 0
  {
    match n
    case Leaf(name, _, _, _) =>
      if Wanted(name, prefix + name, picksDir) then [RecOf(n, prefix + name)] else []
    case Folder(name, _, children) =>
      if SkippedFolder(name, prefix + name, picksDir) then [] else VisitsAll(children, prefix + name + "/", picksDir)
  }

  function VisitsAll(ns: seq<Node>, prefix: string, picksDir: string): seq<Rec>
    decreases ns, |ns|
  {
    if ns == [] then [] else VisitsAll(ns[..|ns| - 1], prefix, picksDir) + Visits(ns[|ns| - 1], prefix, picksDir)
  }

  /** Nothing the walk has to open fails. */
  predicate Readable(n: Node, prefix: string, picksDir: string)
    decreases n, 0
  {
    match n
    case Leaf(name, _, _, hash) => Wanted(name, prefix + name, picksDir) ==> hash.Some?
    case Folder(name, readable, children) =>
      SkippedFolder(name, prefix + name, picksDir) || (readable && AllReadable(children, prefix + name + "/", picksDir))
  }

  predicate AllReadable(ns: seq<Node>, prefix: string, picksDir: string)
    decreases ns, |ns|
  {
    ns == [] || (AllReadable(ns[..|ns| - 1], prefix, picksDir) && Readable(ns[|ns| - 1], prefix, picksDir))
  }

  /** How many entries a complete walk looks at; each time it checks the context. */
  function Looks(n: Node, prefix: string, picksDir: string): (k: nat)
    ensures k > 0
    decreases n, 0
  {
    match n
    case Leaf(_, _, _, _) => 1
    case Folder(name, _, children) =>
      if SkippedFolder(name, prefix + name, picksDir) then 1 else 1 + LooksAll(children, prefix + name + "/", picksDir)
  }

  function LooksAll(ns: seq<Node>, prefix: string, picksDir: string): nat
    decreases ns, |ns|
  {
    if ns == [] then 0 else LooksAll(ns[..|ns| - 1], prefix, picksDir) + Looks(ns[|ns| - 1], prefix, picksDir)
  }

  /** What is left of the checks that pass, after so many. */
  function Spent(checks: Option<nat>, looks: nat): Option<nat> {
    if checks.Some? && checks.value >= looks then Some(checks.value - looks) else checks
  }

  predicate Enough(checks: Option<nat>, looks: nat) {
    checks.Some? ==> checks.value >= looks
  }

  lemma SpentTwice(checks: Option<nat>, a: nat, b: nat)
    ensures Enough(checks, a + b) <==> Enough(checks, a) && Enough(Spent(checks, a), b)
    ensures Enough(checks, a + b) ==> Spent(Spent(checks, a), b) == Spent(checks, a + b)
  {
  }

  lemma {:induction false} LooksStep(ns: seq<Node>, i: nat, prefix: string, picksDir: string)
    requires i < |ns|
    ensures LooksAll(ns[..i + 1], prefix, picksDir)
            == LooksAll(ns[..i], prefix, picksDir) + Looks(ns[i], prefix, picksDir)
    ensures LooksAll(ns[..i + 1], prefix, picksDir) <= LooksAll(ns, prefix, picksDir)
    decreases |ns|
  {
    var n := |ns| - 1;
    assert ns[..i + 1][..i] == ns[..i];
    if i == n {
      assert ns[..i + 1] == ns;
    } else {
      LooksStep(ns[..n], i, prefix, picksDir);
      assert ns[..n][..i + 1] == ns[..i + 1] && ns[..n][..i] == ns[..i];
    }
  }

  /** One more entry: readable and with checks left it extends the part that is done, otherwise the whole fails. */
  lemma ChildLooks(ns: seq<Node>, i: nat, prefix: string, picksDir: string, checks: Option<nat>, left: Option<nat>,
      ok: bool)
    requires i < |ns| && AllReadable(ns[..i], prefix, picksDir)
    requires Enough(checks, LooksAll(ns[..i], prefix, picksDir))
    requires left == Spent(checks, LooksAll(ns[..i], prefix, picksDir))
    requires ok <==> Readable(ns[i], prefix, picksDir) && Enough(left, Looks(ns[i], prefix, picksDir))
    ensures ok ==> AllReadable(ns[..i + 1], prefix, picksDir)
                   && Enough(checks, LooksAll(ns[..i + 1], prefix, picksDir))
                   && Spent(left, Looks(ns[i], prefix, picksDir))
                      == Spent(checks, LooksAll(ns[..i + 1], prefix, picksDir))
    ensures !ok ==> !(AllReadable(ns, prefix, picksDir) && Enough(checks, LooksAll(ns, prefix, picksDir)))
  {
    LooksStep(ns, i, prefix, picksDir);
    SpentTwice(checks, LooksAll(ns[..i], prefix, picksDir), Looks(ns[i], prefix, picksDir));
    AllReadableStep(ns, i, prefix, picksDir);
  }

  // --------------------------------------------------------------- the walk

  function UpsertAll(rows: seq<Row>, recs: seq<Rec>): seq<Row> {
    if recs == [] then rows else Upsert(UpsertAll(rows, recs[..|recs| - 1]), recs[|recs| - 1])
  }

  lemma {:induction false} UpsertAllConcat(rows: seq<Row>, a: seq<Rec>, b: seq<Rec>)
    ensures UpsertAll(rows, a + b) == UpsertAll(UpsertAll(rows, a), b)
  {
    if b == [] {
      assert a + b == a;
    } else {
      assert (a + b)[..|a + b| - 1] == a + b[..|b| - 1];
      UpsertAllConcat(rows, a, b[..|b| - 1]);
    }
  }

  lemma {:induction false} UpsertAllUnique(rows: seq<Row>, recs: seq<Rec>)
    requires Unique(rows)
    ensures Unique(UpsertAll(rows, recs))
  {
    if recs != [] {
      UpsertAllUnique(rows, recs[..|recs| - 1]);
      UpsertUnique(UpsertAll(rows, recs[..|recs| - 1]), recs[|recs| - 1]);
    }
  }

  function PathsOf(recs: seq<Rec>): (r: set<string>)
    ensures forall p :: p in r <==> exists i :: 0 <= i < |recs| && recs[i].path == p
  {
    set i | 0 <= i < |recs| :: recs[i].path
  }

  lemma PathsOfConcat(a: seq<Rec>, b: seq<Rec>)
    ensures PathsOf(a + b) == PathsOf(a) + PathsOf(b)
  {
    forall p
      ensures p in PathsOf(a + b) <==> p in PathsOf(a) + PathsOf(b)
    {
      if p in PathsOf(a) {
        var i :| 0 <= i < |a| && a[i].path == p;
        assert (a + b)[i].path == p;
      }
      if p in PathsOf(b) {
        var i :| 0 <= i < |b| && b[i].path == p;
        assert (a + b)[|a| + i].path == p;
      }
    }
  }

  /** The table after a complete walk that visits recs: evict, upsert, mark. */
  function WalkSpec(rows: seq<Row>, picksDir: string, recs: seq<Rec>): seq<Row> {
    MarkMissing(UpsertAll(Filter(rows, Stays(picksDir)), recs), Keys(PathsOf(recs)))
  }

  /** strings.Trim(dir, "/"). */
  function TrimSlashes(s: string): (r: string)
    ensures r != "" ==> r[0] != '/' && r[|r| - 1] != '/'
    decreases |s|
  {
    if s == "" then ""
    else if s[0] == '/' then TrimSlashes(s[1..])
    else if s[|s| - 1] == '/' then TrimSlashes(s[..|s| - 1])
    else s
  }

  /** From rows0 and seen0 the first done records have been taken. */
  ghost predicate Reached(rows: seq<Row>, seen: set<string>, recs: seq<Rec>, done: nat, rows0: seq<Row>,
      seen0: set<string>) {
    && done <= |recs| && Unique(rows)
    && rows == UpsertAll(rows0, recs[..done]) && seen == seen0 + PathsOf(recs[..done])
  }

  lemma ReachedNothing(rows: seq<Row>, seen: set<string>, recs: seq<Rec>)
    requires Unique(rows)
    ensures Reached(rows, seen, recs, 0, rows, seen)
  {
    assert PathsOf(recs[..0]) == {};
  }

  lemma ReachedOne(rows: seq<Row>, seen: set<string>, f: Rec)
    requires Unique(rows)
    ensures Reached(Upsert(rows, f), seen + {f.path}, [f], 1, rows, seen)
  {
    assert [f][..1] == [f] && [f][..0] == [];
    assert [f][0].path == f.path;
    assert PathsOf([f]) == {f.path};
    UpsertUnique(rows, f);
  }

  /** Marking after a complete visit completes the walk. */
  lemma ReachedEnd(rows: seq<Row>, seen: set<string>, recs: seq<Rec>, before: seq<Row>, picksDir: string)
    requires Reached(rows, seen, recs, |recs|, Filter(before, Stays(picksDir)), {})
    ensures MarkMissing(rows, Keys(seen)) == WalkSpec(before, picksDir, recs)
    ensures Unique(MarkMissing(rows, Keys(seen))) && seen == PathsOf(recs)
  {
    assert recs[..|recs|] == recs;
  }

  /** All of one list, then part of the next. */
  lemma ReachedOn(rows0: seq<Row>, seen0: set<string>, first: seq<Rec>, rows1: seq<Row>, seen1: set<string>,
      second: seq<Rec>, more: nat, rows2: seq<Row>, seen2: set<string>)
    requires Reached(rows1, seen1, first, |first|, rows0, seen0) && Reached(rows2, seen2, second, more, rows1, seen1)
    ensures Reached(rows2, seen2, first + second, |first| + more, rows0, seen0)
  {
    assert first[..|first|] == first;
    assert (first + second)[..|first| + more] == first + second[..more];
    UpsertAllConcat(rows0, first, second[..more]);
    PathsOfConcat(first, second[..more]);
  }

  /** A walk that failed after done records: nothing was marked missing. */
  ghost predicate Stopped(rows: seq<Row>, before: seq<Row>, picksDir: string, recs: seq<Rec>, done: nat) {
    done <= |recs| && rows == UpsertAll(Filter(before, Stays(picksDir)), recs[..done])
  }

  lemma StoppedAt(rows: seq<Row>, seen: set<string>, before: seq<Row>, picksDir: string, recs: seq<Rec>, done: nat)
    requires Reached(rows, seen, recs, done, Filter(before, Stays(picksDir)), {})
    ensures Stopped(rows, before, picksDir, recs, done)
  {
  }

  lemma StoppedNothing(before: seq<Row>, picksDir: string, recs: seq<Rec>)
    ensures Stopped(Filter(before, Stays(picksDir)), before, picksDir, recs, 0)
  {
    assert recs[..0] == [];
  }

  /** Everything the walk needs opens, and the context outlasts it. */
  predicate Passes(readable: bool, entries: seq<Node>, checks: Option<nat>, picksDir: string) {
    readable && AllReadable(entries, "", picksDir) && Enough(checks, 1 + LooksAll(entries, "", picksDir))
  }

  lemma EnoughToStart(checks: Option<nat>, left: Option<nat>, looks: nat)
    requires checks != Some(0) && left == if checks.Some? then Some(checks.value - 1) else None
    ensures Enough(checks, 1 + looks) <==> Enough(left, looks)
  {
  }

  /** What was reached among the first k entries was reached among all of them. */
  lemma ReachedEarly(rows: seq<Row>, seen: set<string>, ns: seq<Node>, k: nat, prefix: string, picksDir: string,
      done: nat, rows0: seq<Row>, seen0: set<string>)
    requires k <= |ns| && Reached(rows, seen, VisitsAll(ns[..k], prefix, picksDir), done, rows0, seen0)
    ensures Reached(rows, seen, VisitsAll(ns, prefix, picksDir), done, rows0, seen0)
  {
    VisitsAllPrefix(ns, k, prefix, picksDir);
    ReachedWithin(rows, seen, VisitsAll(ns[..k], prefix, picksDir), VisitsAll(ns, prefix, picksDir), done, rows0,
        seen0);
  }

  lemma ReachedWithin(rows: seq<Row>, seen: set<string>, part: seq<Rec>, whole: seq<Rec>, done: nat, rows0: seq<Row>,
      seen0: set<string>)
    requires Reached(rows, seen, part, done, rows0, seen0) && |part| <= |whole| && whole[..|part|] == part
    ensures Reached(rows, seen, whole, done, rows0, seen0)
  {
    assert whole[..done] == part[..done];
  }

  class Walker {
    const repo: FilesRepo
    var picksDir: string
    var seen: map<string, int>

    constructor (repo: FilesRepo)
      ensures this.repo == repo && picksDir == "picks" && seen == map[]
    {
      this.repo, picksDir, seen := repo, "picks", map[];
    }

    method SetPicksDir(dir: string)
      modifies this`picksDir
      ensures picksDir == if TrimSlashes(dir) == "" then "picks" else TrimSlashes(dir)
    {
      var trimmed := TrimSlashes(dir);
      picksDir := if trimmed == "" then "picks" else trimmed;
    }

    /** walkFn on a wanted file. */
    method Take(f: Rec)
      requires Unique(repo.rows)
      modifies this`seen, repo
      ensures Unique(repo.rows) && repo.rows == Upsert(old(repo.rows), f) && seen.Keys == old(seen.Keys) + {f.path}
    {
      UpsertUnique(repo.rows, f);
      var id, _ := repo.UpsertOnRescan(f);
      seen := seen[f.path := id];
    }

    /** walkFn on a file, after the context check. */
    method VisitFile(n: Node, prefix: string) returns (ok: bool, ghost done: nat)
      requires Unique(repo.rows) && n.Leaf?
      modifies this`seen, repo
      ensures Reached(repo.rows, seen.Keys, Visits(n, prefix, picksDir), done, old(repo.rows), old(seen.Keys))
      ensures ok ==> done == |Visits(n, prefix, picksDir)|
      ensures ok <==> Readable(n, prefix, picksDir)
    {
      var rel := prefix + n.name;
      ReachedNothing(repo.rows, seen.Keys, Visits(n, prefix, picksDir));
      if !Wanted(n.name, rel, picksDir) {
        return true, 0;
      }
      if n.hash.None? {
        return false, 0;
      }
      ReachedOne(repo.rows, seen.Keys, RecOf(n, rel));
      Take(RecOf(n, rel));
      return true, 1;
    }

    /** walkFn on a folder, after the context check, and its children. */
    method VisitFolder(n: Node, prefix: string, checks: Option<nat>)
      returns (ok: bool, left: Option<nat>, ghost done: nat)
      requires Unique(repo.rows) && n.Folder?
      modifies this`seen, repo
      ensures Reached(repo.rows, seen.Keys, Visits(n, prefix, picksDir), done, old(repo.rows), old(seen.Keys))
      ensures ok ==> done == |Visits(n, prefix, picksDir)|
      ensures ok <==> Readable(n, prefix, picksDir) && Enough(checks, Looks(n, prefix, picksDir) - 1)
      ensures ok ==> left == Spent(checks, Looks(n, prefix, picksDir) - 1)
      decreases n, 0
    {
      ReachedNothing(repo.rows, seen.Keys, Visits(n, prefix, picksDir));
      if SkippedFolder(n.name, prefix + n.name, picksDir) {
        return true, checks, 0;
      }
      if !n.readable {
        return false, checks, 0;
      }
      ok, left, done := VisitChildren(n.children, prefix + n.name + "/", checks);
    }

    /** WalkDir on one entry; checks counts the context checks that still pass. */
    method Visit(n: Node, prefix: string, checks: Option<nat>) returns (ok: bool, left: Option<nat>, ghost done: nat)
      requires Unique(repo.rows)
      modifies this`seen, repo
      ensures Reached(repo.rows, seen.Keys, Visits(n, prefix, picksDir), done, old(repo.rows), old(seen.Keys))
      ensures ok ==> done == |Visits(n, prefix, picksDir)|
      ensures ok <==> Readable(n, prefix, picksDir) && Enough(checks, Looks(n, prefix, picksDir))
      ensures ok ==> left == Spent(checks, Looks(n, prefix, picksDir))
      decreases n, 1
    {
      ReachedNothing(repo.rows, seen.Keys, Visits(n, prefix, picksDir));
      if checks == Some(0) {
        return false, checks, 0;
      }
      left := if checks.Some? then Some(checks.value - 1) else None;
      EnoughToStart(checks, left, Looks(n, prefix, picksDir) - 1);
      if n.Leaf? {
        ok, done := VisitFile(n, prefix);
      } else {
        ok, left, done := VisitFolder(n, prefix, left);
      }
    }

    method VisitChildren(ns: seq<Node>, prefix: string, checks: Option<nat>)
      returns (ok: bool, left: Option<nat>, ghost done: nat)
      requires Unique(repo.rows)
      modifies this`seen, repo
      ensures Reached(repo.rows, seen.Keys, VisitsAll(ns, prefix, picksDir), done, old(repo.rows), old(seen.Keys))
      ensures ok ==> done == |VisitsAll(ns, prefix, picksDir)|
      ensures ok <==> AllReadable(ns, prefix, picksDir) && Enough(checks, LooksAll(ns, prefix, picksDir))
      ensures ok ==> left == Spent(checks, LooksAll(ns, prefix, picksDir))
      decreases ns, 1
    {
      left, done := checks, 0;
      ReachedNothing(repo.rows, seen.Keys, []);
      ghost var rows0, seen0 := repo.rows, seen.Keys;
      for i := 0 to |ns|
        invariant done == |VisitsAll(ns[..i], prefix, picksDir)|
        invariant Reached(repo.rows, seen.Keys, VisitsAll(ns[..i], prefix, picksDir), done, rows0, seen0)
        invariant AllReadable(ns[..i], prefix, picksDir)
        invariant Enough(checks, LooksAll(ns[..i], prefix, picksDir))
        invariant left == Spent(checks, LooksAll(ns[..i], prefix, picksDir))
      {
        ok, left, done := VisitNext(ns[i], prefix, left, VisitsAll(ns[..i], prefix, picksDir), rows0, seen0);
        VisitsAllStep(ns, i, prefix, picksDir);
        ChildLooks(ns, i, prefix, picksDir, checks, Spent(checks, LooksAll(ns[..i], prefix, picksDir)), ok);
        if !ok {
          ReachedEarly(repo.rows, seen.Keys, ns, i + 1, prefix, picksDir, done, rows0, seen0);
          return;
        }
      }
      assert ns[..|ns|] == ns;
      ok := true;
    }

    /** One more entry after everything in first has been taken. */
    method VisitNext(n: Node, prefix: string, checks: Option<nat>, ghost first: seq<Rec>, ghost rows0: seq<Row>,
        ghost seen0: set<string>)
      returns (ok: bool, left: Option<nat>, ghost done: nat)
      requires Reached(repo.rows, seen.Keys, first, |first|, rows0, seen0)
      modifies this`seen, repo
      ensures Reached(repo.rows, seen.Keys, first + Visits(n, prefix, picksDir), done, rows0, seen0)
      ensures ok ==> done == |first| + |Visits(n, prefix, picksDir)|
      ensures ok <==> Readable(n, prefix, picksDir) && Enough(checks, Looks(n, prefix, picksDir))
      ensures ok ==> left == Spent(checks, Looks(n, prefix, picksDir))
      decreases n, 2
    {
      ghost var rows1, seen1, more := repo.rows, seen.Keys, 0;
      ok, left, more := Visit(n, prefix, checks);
      ReachedOn(rows0, seen0, first, rows1, seen1, Visits(n, prefix, picksDir), more, repo.rows, seen.Keys);
      done := |first| + more;
    }

    /** The walk after the eviction: visit everything, then mark the rest. */
    method Cover(entries: seq<Node>, checks: Option<nat>, ghost before: seq<Row>) returns (ok: bool, ghost done: nat)
      requires Unique(repo.rows) && repo.rows == Filter(before, Stays(picksDir)) && seen.Keys == {}
      modifies this`seen, repo
      ensures Unique(repo.rows)
      ensures ok ==> repo.rows == WalkSpec(before, picksDir, VisitsAll(entries, "", picksDir))
      ensures ok ==> seen.Keys == PathsOf(VisitsAll(entries, "", picksDir))
      ensures !ok ==> Stopped(repo.rows, before, picksDir, VisitsAll(entries, "", picksDir), done)
      ensures ok <==> AllReadable(entries, "", picksDir) && Enough(checks, LooksAll(entries, "", picksDir))
    {
      ghost var recs := VisitsAll(entries, "", picksDir);
      var left;
      ok, left, done := VisitChildren(entries, "", checks);
      StoppedAt(repo.rows, seen.Keys, before, picksDir, recs, done);
      if ok {
        ReachedEnd(repo.rows, seen.Keys, recs, before, picksDir);
        repo.MarkMissingExcept(seen);
      }
    }

    /** Walk of a root folder; rooted is false for an empty root path. */
    method Walk(rooted: bool, readable: bool, entries: seq<Node>, checks: Option<nat>)
      returns (ok: bool, ghost done: nat)
      requires Unique(repo.rows)
      modifies this`seen, repo
      ensures Unique(repo.rows)
      ensures !rooted ==> !ok && repo.rows == old(repo.rows)
      ensures ok ==> repo.rows == WalkSpec(old(repo.rows), picksDir, VisitsAll(entries, "", picksDir))
      ensures ok ==> seen.Keys == PathsOf(VisitsAll(entries, "", picksDir))
      ensures !ok && rooted ==> Stopped(repo.rows, old(repo.rows), picksDir, VisitsAll(entries, "", picksDir), done)
      ensures rooted ==> (ok <==> Passes(readable, entries, checks, picksDir))
    {
      done := 0;
      if !rooted {
        return false, done;
      }
      seen := map[];
      FilterUnique(repo.rows, Stays(picksDir));
      repo.DeleteUnderPath(picksDir);
      StoppedNothing(old(repo.rows), picksDir, VisitsAll(entries, "", picksDir));
      if checks == Some(0) || !readable {
        return false, done;
      }
      var left := if checks.Some? then Some(checks.value - 1) else None;
      EnoughToStart(checks, left, LooksAll(entries, "", picksDir));
      ok, done := Cover(entries, left, old(repo.rows));
    }
  }

  lemma {:induction false} AllReadableStep(ns: seq<Node>, i: nat, prefix: string, picksDir: string)
    requires i < |ns|
    ensures AllReadable(ns[..i + 1], prefix, picksDir)
            <==> AllReadable(ns[..i], prefix, picksDir) && Readable(ns[i], prefix, picksDir)
    ensures AllReadable(ns, prefix, picksDir) ==> Readable(ns[i], prefix, picksDir)
  {
    assert ns[..i + 1][..i] == ns[..i];
    var n := |ns| - 1;
    if i < n {
      AllReadableStep(ns[..n], i, prefix, picksDir);
    }
  }

  lemma VisitsAllStep(ns: seq<Node>, i: nat, prefix: string, picksDir: string)
    requires i < |ns|
    ensures VisitsAll(ns[..i + 1], prefix, picksDir)
            == VisitsAll(ns[..i], prefix, picksDir) + Visits(ns[i], prefix, picksDir)
  {
    assert ns[..i + 1][..i] == ns[..i];
  }

  /** What the first k entries visit comes first. */
  lemma {:induction false} VisitsAllPrefix(ns: seq<Node>, k: nat, prefix: string, picksDir: string)
    requires k <= |ns|
    ensures |VisitsAll(ns[..k], prefix, picksDir)| <= |VisitsAll(ns, prefix, picksDir)|
    ensures VisitsAll(ns, prefix, picksDir)[..|VisitsAll(ns[..k], prefix, picksDir)|]
            == VisitsAll(ns[..k], prefix, picksDir)
  {
    if k == |ns| {
      assert ns[..k] == ns;
    } else {
      var n := |ns| - 1;
      assert ns[..n][..k] == ns[..k];
      VisitsAllPrefix(ns[..n], k, prefix, picksDir);
    }
  }
}
