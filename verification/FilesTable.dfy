/** The files table: identity of paths, upsert on rescan, eviction and marking missing. */
module FilesTable {
  import opened Seqs
  import opened Stages

  // ------------------------------------------------------------ text in SQL

  /** LOWER of an ASCII character. */
  function LowerChar(c: char): char {
    if 'A' <= c <= 'Z' then c + 32 as char else c
  }

  function Lower(s: string): (r: string)
    ensures |r| == |s| && forall i | 0 <= i < |s| :: r[i] == LowerChar(s[i])
  {
    seq(|s|, i requires 0 <= i < |s| => LowerChar(s[i]))
  }

  /** SQLite LIKE without ESCAPE: % stands for any text and _ for any one character. */
  predicate Like(s: string, pattern: string)
    decreases |pattern|, |s|
  {
    if pattern == [] then s == []
    else if pattern[0] == '%' then Like(s, pattern[1..]) || (s != [] && Like(s[1..], pattern))
    else s != [] && (pattern[0] == '_' || pattern[0] == s[0]) && Like(s[1..], pattern[1..])
  }

  lemma {:induction false} LikeAnything(s: string)
    ensures Like(s, "%")
  {
    assert "%"[1..] == [];
    if s != [] {
      LikeAnything(s[1..]);
    }
  }

  predicate WildcardFree(p: string) {
    forall i | 0 <= i < |p| :: p[i] != '%' && p[i] != '_'
  }

  /** Without wildcards in front, the pattern p% matches exactly the texts that start with p. */
  lemma {:induction false} LikePrefix(s: string, p: string)
    requires WildcardFree(p)
    ensures Like(s, p + "%") <==> |p| <= |s| && s[..|p|] == p
    decreases |p|
  {
    if p == [] {
      assert p + "%" == "%";
      LikeAnything(s);
    } else {
      assert (p + "%")[1..] == p[1..] + "%";
      if s != [] {
        LikePrefix(s[1..], p[1..]);
        if |p| <= |s| {
          assert s[..|p|] == [s[0]] + s[1..][..|p| - 1];
          assert p == [p[0]] + p[1..];
        }
      }
    }
  }

  // ------------------------------------------------------------------- rows

  /** What a walk finds out about one file. */
  datatype Rec = Rec(path: string, size: int, mtime: int, hash: string, kind: string, format: string)

  /** A row: its identity, what the walk last saw, where the pipeline has it, and everything else. */
  datatype Row = Row(id: int, seen: Rec, status: Status, error: Option<string>, meta: Option<int>)

  function Key(r: Row): string {
    Lower(r.seen.path)
  }

  /** PRIMARY KEY(id) and the unique index on LOWER(path). */
  ghost predicate Unique(rows: seq<Row>) {
    forall i, j | 0 <= i < j < |rows| :: rows[i].id != rows[j].id && Key(rows[i]) != Key(rows[j])
  }

  function NextId(rows: seq<Row>): (id: int)
    ensures forall i | 0 <= i < |rows| :: rows[i].id < id
  {
    if rows == [] then 1
    else
      var rest := NextId(rows[..|rows| - 1]);
      if rows[|rows| - 1].id >= rest then rows[|rows| - 1].id + 1 else rest
  }

  /** The row WHERE LOWER(path) = LOWER(?) finds. */
  function Find(rows: seq<Row>, path: string): (k: Option<nat>)
    ensures k.Some? ==> k.value < |rows| && Key(rows[k.value]) == Lower(path)
    ensures k.None? ==> forall i | 0 <= i < |rows| :: Key(rows[i]) != Lower(path)
  {
    if rows == [] then None
    else if Key(rows[|rows| - 1]) == Lower(path) then Some(|rows| - 1)
    else Find(rows[..|rows| - 1], path)
  }

  predicate SameFile(r: Row, f: Rec) {
    r.seen.size == f.size && r.seen.mtime == f.mtime && r.seen.hash == f.hash
  }

  /** The row of a file whose contents changed: the path keeps its old casing. */
  function Refreshed(r: Row, f: Rec): Row {
    Row(r.id, f.(path := r.seen.path), Discovered, None, r.meta)
  }

  function Upsert(rows: seq<Row>, f: Rec): seq<Row> {
    var k := Find(rows, f.path);
    if k.None? then rows + [Row(NextId(rows), f, Discovered, None, None)]
    else if SameFile(rows[k.value], f) then rows
    else rows[k.value := Refreshed(rows[k.value], f)]
  }

  function Marked(r: Row, seen: set<string>): Row {
    if r.status != Missing && Key(r) !in seen then r.(status := Missing) else r
  }

  /** Rows whose lower-cased path is not in seen become missing. */
  function MarkMissing(rows: seq<Row>, seen: set<string>): (r: seq<Row>)
    ensures |r| == |rows| && forall i | 0 <= i < |rows| :: r[i] == Marked(rows[i], seen)
  {
    seq(|rows|, i requires 0 <= i < |rows| => Marked(rows[i], seen))
  }

  /** The statement without the path condition. */
  function MarkEvery(rows: seq<Row>): (r: seq<Row>)
    ensures |r| == |rows| && forall i | 0 <= i < |rows| :: r[i] == rows[i].(status := Missing)
  {
    seq(|rows|, i requires 0 <= i < |rows| =>
      if rows[i].status != Missing then rows[i].(status := Missing) else rows[i])
  }

  /** The WHERE clause of DeleteUnderPath. */
  predicate Evicted(path: string, dir: string) {
    dir != "" && (Lower(path) == Lower(dir) || Like(Lower(path), Lower(dir) + "/%"))
  }

  function Stays(dir: string): Row -> bool {
    (r: Row) => !Evicted(r.seen.path, dir)
  }

  function Keys(paths: set<string>): set<string> {
    set p | p in paths :: Lower(p)
  }

  class FilesRepo {
    var rows: seq<Row>

    /** Insert: a path already present in any casing is left alone. */
    method Insert(f: Rec) returns (id: int)
      requires Unique(rows)
      modifies this
      ensures rows
              == if Find(old(rows), f.path).None? then old(rows) + [Row(NextId(old(rows)), f, Discovered, None, None)]
                  else old(rows)
      ensures exists k :: 0 <= k < |rows| && rows[k].id == id && Key(rows[k]) == Lower(f.path)
    {
      var k := Find(rows, f.path);
      if k.Some? {
        return rows[k.value].id;
      }
      id := NextId(rows);
      rows := rows + [Row(id, f, Discovered, None, None)];
      assert rows[|rows| - 1].id == id && Key(rows[|rows| - 1]) == Lower(f.path);
    }

    method UpsertOnRescan(f: Rec) returns (id: int, inserted: bool)
      requires Unique(rows)
      modifies this
      ensures rows == Upsert(old(rows), f) && inserted == Find(old(rows), f.path).None?
      ensures exists k :: 0 <= k < |rows| && rows[k].id == id && Key(rows[k]) == Lower(f.path)
    {
      var k := Find(rows, f.path);
      if k.None? {
        id := Insert(f);
        return id, true;
      }
      var existing := rows[k.value];
      if !SameFile(existing, f) {
        rows := rows[k.value := Refreshed(existing, f)];
      }
      assert rows[k.value].id == existing.id && Key(rows[k.value]) == Lower(f.path);
      return existing.id, false;
    }

    method MarkMissingExcept(seen: map<string, int>)
      modifies this
      ensures rows == MarkMissing(old(rows), Keys(seen.Keys))
    {
      if |seen| == 0 {
        assert Keys(seen.Keys) == {};
        rows := MarkEvery(rows);
      } else {
        rows := MarkMissing(rows, Keys(seen.Keys));
      }
    }

    method DeleteUnderPath(dir: string)
      modifies this
      ensures rows == Filter(old(rows), Stays(dir))
    {
      if dir == "" {
        FilterAll(rows, Stays(dir));
        return;
      }
      rows := Filter(rows, Stays(dir));
    }
  }

  // ----------------------------------------------------- what upserts keep

  lemma UpsertUnique(rows: seq<Row>, f: Rec)
    requires Unique(rows)
    ensures Unique(Upsert(rows, f))
  {
  }

  lemma FilterUnique(rows: seq<Row>, p: Row -> bool)
    requires Unique(rows)
    ensures Unique(Filter(rows, p))
  {
    if rows != [] {
      FilterUnique(rows[1..], p);
      var rest := Filter(rows[1..], p);
      forall j | 0 <= j < |rest|
        ensures rows[0].id != rest[j].id && Key(rows[0]) != Key(rest[j])
      {
        assert rest[j] in rest;
        var i :| 0 <= i < |rows[1..]| && rows[1..][i] == rest[j];
        assert rows[i + 1] == rest[j];
      }
    }
  }

  /** Some row records the file as the walk saw it. */
  ghost predicate Recorded(rows: seq<Row>, f: Rec) {
    exists k :: 0 <= k < |rows| && Key(rows[k]) == Lower(f.path) && SameFile(rows[k], f)
  }

  lemma UpsertRecords(rows: seq<Row>, f: Rec)
    ensures Recorded(Upsert(rows, f), f)
  {
    var t, k := Upsert(rows, f), Find(rows, f.path);
    if k.None? {
      assert Key(t[|rows|]) == Lower(f.path) && SameFile(t[|rows|], f);
    } else {
      assert Key(t[k.value]) == Lower(f.path) && SameFile(t[k.value], f);
    }
  }

  lemma UpsertKeepsOther(rows: seq<Row>, f: Rec, g: Rec)
    requires Recorded(rows, g) && Lower(g.path) != Lower(f.path)
    ensures Recorded(Upsert(rows, f), g)
  {
    var k :| 0 <= k < |rows| && Key(rows[k]) == Lower(g.path) && SameFile(rows[k], g);
    assert Upsert(rows, f)[k] == rows[k];
  }

  lemma UpsertNothingNew(rows: seq<Row>, f: Rec)
    requires Unique(rows) && Recorded(rows, f)
    ensures Upsert(rows, f) == rows
  {
  }

  // ------------------------------------------- what a rescan does to a row

  /** The row of a visited path after its upsert. */
  function AfterUpsert(r: Row, f: Rec): Row {
    if SameFile(r, f) then r else Refreshed(r, f)
  }

  lemma UpsertAt(rows: seq<Row>, f: Rec, k: nat)
    requires Unique(rows) && k < |rows|
    ensures k < |Upsert(rows, f)|
    ensures Upsert(rows, f)[k] == if Key(rows[k]) == Lower(f.path) then AfterUpsert(rows[k], f) else rows[k]
  {
  }

  /** A rescan preserves the status of a row exactly when size, mtime and hash are the recorded ones, or
      the row was waiting already. An equal hash alone does not do. */
  lemma StatusPreservedIff(rows: seq<Row>, f: Rec, k: nat)
    requires Unique(rows) && k < |rows| && Key(rows[k]) == Lower(f.path)
    ensures k < |Upsert(rows, f)|
    ensures Upsert(rows, f)[k].status == rows[k].status <==>
              || (rows[k].seen.size == f.size && rows[k].seen.mtime == f.mtime && rows[k].seen.hash == f.hash)
              || rows[k].status == Discovered
  {
    UpsertAt(rows, f, k);
  }

  /** A file that was only touched: same size and hash, later mtime. */
  lemma TouchedFile()
    ensures var row := Row(1, Rec("a.jpg", 1, 1, "h", "photo", "jpeg"), Analyzed, None, Some(7));
            var touched := Rec("a.jpg", 1, 2, "h", "photo", "jpeg");
            Upsert([row], touched) == [Row(1, touched, Discovered, None, Some(7))]
  {
    var row := Row(1, Rec("a.jpg", 1, 1, "h", "photo", "jpeg"), Analyzed, None, Some(7));
    assert [row][..0] == [];
  }
}
