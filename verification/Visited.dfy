/** Which files a walk visits, on name paths through the tree. */
module Visited {
  import opened Seqs
  import opened Paths
  import opened FilesTable
  import opened Scanner

  // ------------------------------------------------------------ plain text

  /** Equal letters, or the two cases of one ASCII letter. */
  predicate SameLetter(c: char, d: char) {
    || c == d
    || ('A' <= c <= 'Z' && d as int == c as int + 32)
    || ('A' <= d <= 'Z' && c as int == d as int + 32)
  }

  /** Equal up to ASCII case. */
  predicate SameText(a: string, b: string) {
    |a| == |b| && forall i | 0 <= i < |a| :: SameLetter(a[i], b[i])
  }

  lemma LetterIff(c: char, d: char)
    ensures LowerChar(c) == LowerChar(d) <==> SameLetter(c, d)
  {
  }

  /** Lower-casing identifies exactly the texts that are equal up to case. */
  lemma LowerIff(a: string, b: string)
    ensures Lower(a) == Lower(b) <==> SameText(a, b)
  {
    if Lower(a) == Lower(b) {
      forall i | 0 <= i < |a|
        ensures SameLetter(a[i], b[i])
      {
        assert Lower(a)[i] == Lower(b)[i];
        LetterIff(a[i], b[i]);
      }
    }
    if SameText(a, b) {
      forall i | 0 <= i < |a|
        ensures Lower(a)[i] == Lower(b)[i]
      {
        LetterIff(a[i], b[i]);
      }
    }
  }

  // -------------------------------------------------------------- extensions

  /** The recognised extensions with the kind and the format of each. */
  const MEDIA: seq<(string, string, string)> := [
    (".jpg", "photo", "jpeg"), (".jpeg", "photo", "jpeg"), (".tiff", "photo", "jpeg"), (".tif", "photo", "jpeg"),
    (".raf", "photo", "raf"), (".dng", "photo", "raf"), (".heic", "photo", "heic"), (".heif", "photo", "heic"),
    (".png", "photo", "png"), (".mov", "video", "mov"), (".mp4", "video", "mp4"), (".m4v", "video", "mp4")]

  /** name ends in ext, in any case. */
  predicate HasExtension(name: string, ext: string) {
    |name| >= |ext| && SameText(name[|name| - |ext|..], ext)
  }

  ghost predicate IsMedia(name: string, kind: string, format: string) {
    exists m :: m in MEDIA && HasExtension(name, m.0) && kind == m.1 && format == m.2
  }

  // ------------------------------------------------------------------- paths

  /** The folders' names, each followed by a separator. */
  function Prefix(pre: seq<string>): string {
    if pre == [] then "" else Prefix(pre[..|pre| - 1]) + pre[|pre| - 1] + "/"
  }

  /** The path relative to the root. */
  function RelOf(path: seq<string>): string
    requires path != []
  {
    Prefix(path[..|path| - 1]) + path[|path| - 1]
  }

  /** The names in path lead from entry n to entry m. */
  ghost predicate Leads(n: Node, path: seq<string>, m: Node)
    decreases |path|
  {
    && path != [] && n.name == path[0]
    && if |path| == 1 then m == n
       else n.Folder? && exists c :: c in n.children && Leads(c, path[1..], m)
  }

  ghost predicate LeadsIn(ns: seq<Node>, path: seq<string>, m: Node) {
    exists n :: n in ns && Leads(n, path, m)
  }

  /** A folder the walk goes into: not hidden, not node_modules, not the picks directory. */
  predicate Entered(name: string, rel: string, picksDir: string) {
    (name == "" || name[0] != '.') && name != "node_modules" && !SameText(rel, picksDir)
  }

  /** Below the picks directory, or the picks directory itself, up to case. */
  predicate InPicks(rel: string, picksDir: string) {
    picksDir != ""
    && (SameText(rel, picksDir) || (|rel| > |picksDir| + 1 && SameText(rel[..|picksDir| + 1], picksDir + "/")))
  }

  /** The walk goes into every folder on the way. */
  ghost predicate Open(pre: seq<string>, path: seq<string>, picksDir: string) {
    forall k | 1 <= k < |path| :: Entered(path[k - 1], RelOf(pre + path[..k]), picksDir)
  }

  /** rec is what the disk says about a media file with this relative path outside the picks directory. */
  ghost predicate Describes(rec: Rec, leaf: Node, rel: string, picksDir: string) {
    && leaf.Leaf? && !InPicks(rel, picksDir) && IsMedia(leaf.name, rec.kind, rec.format)
    && rec.path == rel && rec.size == leaf.size && rec.mtime == leaf.mtime
    && rec.hash == if leaf.hash.Some? then leaf.hash.value else ""
  }

  // ------------------------------------------------ the scanner's predicates

  lemma FoundExtension(name: string, ext: string)
    requires Lower(Ext(name)) == ext && Lower(ext) == ext
    ensures HasExtension(name, ext)
  {
    var e := Ext(name);
    assert name[|name| - |e|..] == e;
    LowerIff(e, ext);
  }

  lemma ExtensionFound(name: string, ext: string)
    requires ext != [] && ext[0] == '.' && forall i | 0 < i < |ext| :: 'a' <= ext[i] <= 'z' || '0' <= ext[i] <= '9'
    requires HasExtension(name, ext) && Lower(ext) == ext
    ensures Lower(Ext(name)) == ext
  {
    var t := name[|name| - |ext|..];
    PlainTail(t, ext);
    LastDot(name, t);
    LowerIff(t, ext);
  }

  lemma ExtensionIs(name: string, ext: string)
    requires ext != [] && ext[0] == '.' && forall i | 0 < i < |ext| :: 'a' <= ext[i] <= 'z' || '0' <= ext[i] <= '9'
    ensures Lower(Ext(name)) == ext <==> HasExtension(name, ext)
  {
    assert Lower(ext) == ext;
    if Lower(Ext(name)) == ext {
      FoundExtension(name, ext);
    }
    if HasExtension(name, ext) {
      ExtensionFound(name, ext);
    }
  }

  lemma PlainTail(t: string, ext: string)
    requires SameText(t, ext) && ext != [] && ext[0] == '.'
    requires forall i | 0 < i < |ext| :: 'a' <= ext[i] <= 'z' || '0' <= ext[i] <= '9'
    ensures t[0] == '.' && forall i | 0 < i < |t| :: t[i] != '.' && t[i] != '/'
  {
    forall i | 0 < i < |t|
      ensures t[i] != '.' && t[i] != '/'
    {
      assert SameLetter(t[i], ext[i]);
    }
    assert SameLetter(t[0], ext[0]);
  }

  /** The tail of a name from a dot that is its last. */
  predicate DotTail(name: string, t: string) {
    t != [] && |t| <= |name| && name[|name| - |t|..] == t && t[0] == '.' && forall i | 0 < i < |t| :: t[i] != '.'
  }

  lemma DotPosition(name: string, t: string)
    requires DotTail(name, t)
    ensures name[|name| - |t|] == '.' && forall i | |name| - |t| < i < |name| :: name[i] != '.'
  {
    assert forall i | |name| - |t| <= i < |name| :: name[i] == t[i - (|name| - |t|)];
  }

  lemma SameTail(name: string, e: string, t: string)
    requires DotTail(name, e) && DotTail(name, t)
    ensures e == t
  {
    DotPosition(name, e);
    DotPosition(name, t);
  }

  lemma TailAfterSlash(name: string, t: string)
    requires |t| <= |name| && name[|name| - |t|..] == t && forall i | 0 <= i < |t| :: t[i] != '/'
    ensures NameStart(name) <= |name| - |t|
  {
    assert forall i | |name| - |t| <= i < |name| :: name[i] == t[i - (|name| - |t|)];
  }

  /** A tail that starts with the name's last dot is its extension. */
  lemma LastDot(name: string, t: string)
    requires t != [] && |t| <= |name| && name[|name| - |t|..] == t
    requires t[0] == '.' && forall i | 0 < i < |t| :: t[i] != '.' && t[i] != '/'
    ensures Ext(name) == t
  {
    TailAfterSlash(name, t);
    assert name[|name| - |t|] == t[0];
    SameTail(name, Ext(name), t);
  }

  lemma MediaExtension(name: string, m: (string, string, string))
    requires m in MEDIA
    ensures Lower(Ext(name)) == m.0 <==> HasExtension(name, m.0)
  {
    MediaPlain(m);
    ExtensionIs(name, m.0);
  }

  lemma MediaPlain(m: (string, string, string))
    requires m in MEDIA
    ensures m.0 != [] && m.0[0] == '.'
    ensures forall i | 0 < i < |m.0| :: 'a' <= m.0[i] <= 'z' || '0' <= m.0[i] <= '9'
  {
  }

  /** DetectFromExt knows exactly the listed extensions. */
  lemma MediaIff(name: string, kind: string, format: string)
    ensures DetectFromExt(name) == Some(FormatInfo(kind, format)) <==> IsMedia(name, kind, format)
  {
    var e := Lower(Ext(name));
    if DetectFromExt(name) == Some(FormatInfo(kind, format)) {
      FormatListed(e, kind, format);
      MediaExtension(name, (e, kind, format));
      assert HasExtension(name, (e, kind, format).0);
    }
    if m :| m in MEDIA && HasExtension(name, m.0) && kind == m.1 && format == m.2 {
      MediaExtension(name, m);
      ListedFormat(m);
    }
  }

  lemma FormatListed(e: string, kind: string, format: string)
    requires FormatOf(e) == Some(FormatInfo(kind, format))
    ensures (e, kind, format) in MEDIA
  {
    assert forall i | 0 <= i < |MEDIA| :: MEDIA[i] in MEDIA;
    if e == ".jpg" {
      assert MEDIA[0] == (e, kind, format);
    } else if e == ".jpeg" {
      assert MEDIA[1] == (e, kind, format);
    } else if e == ".tiff" {
      assert MEDIA[2] == (e, kind, format);
    } else if e == ".tif" {
      assert MEDIA[3] == (e, kind, format);
    } else if e == ".raf" {
      assert MEDIA[4] == (e, kind, format);
    } else if e == ".dng" {
      assert MEDIA[5] == (e, kind, format);
    } else {
      FormatListedRest(e, kind, format);
    }
  }

  lemma FormatListedRest(e: string, kind: string, format: string)
    requires FormatOf(e) == Some(FormatInfo(kind, format))
    requires e !in [".jpg", ".jpeg", ".tiff", ".tif", ".raf", ".dng"]
    ensures (e, kind, format) in MEDIA
  {
    assert forall i | 0 <= i < |MEDIA| :: MEDIA[i] in MEDIA;
    if e == ".heic" {
      assert MEDIA[6] == (e, kind, format);
    } else if e == ".heif" {
      assert MEDIA[7] == (e, kind, format);
    } else if e == ".png" {
      assert MEDIA[8] == (e, kind, format);
    } else if e == ".mov" {
      assert MEDIA[9] == (e, kind, format);
    } else if e == ".mp4" {
      assert MEDIA[10] == (e, kind, format);
    } else {
      assert MEDIA[11] == (e, kind, format);
    }
  }

  lemma ListedFormat(m: (string, string, string))
    requires m in MEDIA
    ensures FormatOf(m.0) == Some(FormatInfo(m.1, m.2))
  {
  }

  lemma InPicksIff(rel: string, picksDir: string)
    ensures IsUnderDir(rel, picksDir) <==> InPicks(rel, picksDir)
  {
    LowerIff(rel, picksDir);
    if |rel| > |picksDir| + 1 {
      LowerIff(rel[..|picksDir| + 1], picksDir + "/");
    }
  }

  lemma EnteredIff(name: string, rel: string, picksDir: string)
    ensures !SkippedFolder(name, rel, picksDir) <==> Entered(name, rel, picksDir)
  {
    LowerIff(rel, picksDir);
    if name != "" {
      assert name[..1] == [name[0]];
    }
    assert ".choix"[0] == '.';
  }

  lemma DescribesIff(rec: Rec, leaf: Node, rel: string, picksDir: string)
    requires leaf.Leaf?
    ensures Describes(rec, leaf, rel, picksDir) <==>
              Wanted(leaf.name, rel, picksDir) && rec == RecOf(leaf, rel)
  {
    InPicksIff(rel, picksDir);
    MediaIff(leaf.name, rec.kind, rec.format);
    if DetectFromExt(leaf.name).Some? {
      var fi := DetectFromExt(leaf.name).value;
      MediaIff(leaf.name, fi.kind, fi.format);
    }
  }

  // ------------------------------------------------------------ the theorem

  lemma InFrontOrLast(ns: seq<Node>, n: Node)
    requires ns != []
    ensures n in ns <==> n in ns[..|ns| - 1] || n == ns[|ns| - 1]
  {
    assert ns == ns[..|ns| - 1] + [ns[|ns| - 1]];
  }

  lemma {:induction false} VisitsAllIff(ns: seq<Node>, prefix: string, picksDir: string, rec: Rec)
    ensures rec in VisitsAll(ns, prefix, picksDir) <==> exists n :: n in ns && rec in Visits(n, prefix, picksDir)
    decreases |ns|
  {
    if ns != [] {
      var m := |ns| - 1;
      VisitsAllIff(ns[..m], prefix, picksDir, rec);
      VisitsLast(ns, prefix, picksDir, rec);
      forall n
        ensures n in ns <==> n in ns[..m] || n == ns[m]
      {
        InFrontOrLast(ns, n);
      }
    }
  }

  lemma VisitsLast(ns: seq<Node>, prefix: string, picksDir: string, rec: Rec)
    requires ns != []
    ensures rec in VisitsAll(ns, prefix, picksDir) <==>
              rec in VisitsAll(ns[..|ns| - 1], prefix, picksDir) || rec in Visits(ns[|ns| - 1], prefix, picksDir)
  {
    var a, b := VisitsAll(ns[..|ns| - 1], prefix, picksDir), Visits(ns[|ns| - 1], prefix, picksDir);
    assert VisitsAll(ns, prefix, picksDir) == a + b;
  }

  /** What is collected entry by entry is collected part by part. */
  lemma {:induction false} Collected(all: seq<Node> -> seq<Rec>, one: Node -> seq<Rec>, a: seq<Node>, b: seq<Node>)
    requires all([]) == [] && forall ns, n :: all(ns + [n]) == all(ns) + one(n)
    ensures all(a + b) == all(a) + all(b)
    decreases |b|
  {
    if b == [] {
      assert a + b == a;
    } else {
      var front, last := b[..|b| - 1], b[|b| - 1];
      Collected(all, one, a, front);
      assert a + b == (a + front) + [last] && b == front + [last];
    }
  }

  lemma VisitsSnoc(ns: seq<Node>, n: Node, prefix: string, picksDir: string)
    ensures VisitsAll(ns + [n], prefix, picksDir) == VisitsAll(ns, prefix, picksDir) + Visits(n, prefix, picksDir)
  {
    assert (ns + [n])[..|ns|] == ns;
  }

  /** Entries are visited in the order of the listing, what is in a folder in its place. */
  lemma VisitsInOrder(a: seq<Node>, b: seq<Node>, prefix: string, picksDir: string)
    ensures VisitsAll(a + b, prefix, picksDir) == VisitsAll(a, prefix, picksDir) + VisitsAll(b, prefix, picksDir)
  {
    var all := (ns: seq<Node>) => VisitsAll(ns, prefix, picksDir);
    var one := (n: Node) => Visits(n, prefix, picksDir);
    forall ns, n
      ensures all(ns + [n]) == all(ns) + one(n)
    {
      VisitsSnoc(ns, n, prefix, picksDir);
    }
    Collected(all, one, a, b);
  }

  /** A file is visited at most once. */
  lemma LeafOnce(n: Node, prefix: string, picksDir: string)
    requires n.Leaf?
    ensures |VisitsAll([n], prefix, picksDir)| <= 1
  {
    assert [n][..0] == [];
    assert VisitsAll([n][..0], prefix, picksDir) == [];
  }

  lemma PrefixSnoc(pre: seq<string>, name: string)
    ensures Prefix(pre + [name]) == Prefix(pre) + name + "/" && RelOf(pre + [name]) == Prefix(pre) + name
  {
    assert (pre + [name])[..|pre|] == pre;
  }

  /** Going into a folder moves its name from the path to the prefix. */
  lemma OpenInside(pre: seq<string>, path: seq<string>, picksDir: string)
    requires |path| > 1
    ensures Open(pre, path, picksDir) <==>
              Entered(path[0], RelOf(pre + [path[0]]), picksDir) && Open(pre + [path[0]], path[1..], picksDir)
    ensures pre + path == pre + [path[0]] + path[1..]
  {
    assert path[..1] == [path[0]];
    forall k | 2 <= k < |path|
      ensures pre + path[..k] == pre + [path[0]] + path[1..][..k - 1] && path[k - 1] == path[1..][k - 2]
    {
    }
    if Open(pre, path, picksDir) {
      forall k | 1 <= k < |path[1..]|
        ensures Entered(path[1..][k - 1], RelOf(pre + [path[0]] + path[1..][..k]), picksDir)
      {
        assert Entered(path[k], RelOf(pre + path[..k + 1]), picksDir);
      }
    }
    if Open(pre + [path[0]], path[1..], picksDir) {
      forall k | 2 <= k < |path|
        ensures Entered(path[k - 1], RelOf(pre + path[..k]), picksDir)
      {
        assert Entered(path[1..][k - 2], RelOf(pre + [path[0]] + path[1..][..k - 1]), picksDir);
      }
    }
  }

  /** A visited record belongs to a file the walk can get to. */
  lemma {:induction false} VisitedLeaf(n: Node, pre: seq<string>, picksDir: string, rec: Rec)
    returns (path: seq<string>, leaf: Node)
    requires rec in Visits(n, Prefix(pre), picksDir)
    ensures Leads(n, path, leaf) && Open(pre, path, picksDir) && Describes(rec, leaf, RelOf(pre + path), picksDir)
    decreases n
  {
    PrefixSnoc(pre, n.name);
    if n.Leaf? {
      path, leaf := [n.name], n;
      DescribesIff(rec, n, RelOf(pre + path), picksDir);
    } else {
      EnteredIff(n.name, Prefix(pre) + n.name, picksDir);
      VisitsAllIff(n.children, Prefix(pre + [n.name]), picksDir, rec);
      var c :| c in n.children && rec in Visits(c, Prefix(pre + [n.name]), picksDir);
      var rest, found := VisitedLeaf(c, pre + [n.name], picksDir, rec);
      path, leaf := [n.name] + rest, found;
      assert path[1..] == rest;
      OpenInside(pre, path, picksDir);
    }
  }

  /** A file the walk can get to is visited. */
  lemma {:induction false} LeafVisited(n: Node, pre: seq<string>, path: seq<string>, leaf: Node, picksDir: string,
      rec: Rec)
    requires Leads(n, path, leaf) && Open(pre, path, picksDir) && Describes(rec, leaf, RelOf(pre + path), picksDir)
    ensures rec in Visits(n, Prefix(pre), picksDir)
    decreases |path|
  {
    PrefixSnoc(pre, n.name);
    if |path| == 1 {
      assert path == [n.name];
      DescribesIff(rec, leaf, RelOf(pre + path), picksDir);
    } else {
      var c :| c in n.children && Leads(c, path[1..], leaf);
      OpenInside(pre, path, picksDir);
      EnteredIff(n.name, Prefix(pre) + n.name, picksDir);
      LeafVisited(c, pre + [n.name], path[1..], leaf, picksDir, rec);
      VisitsAllIff(n.children, Prefix(pre + [n.name]), picksDir, rec);
    }
  }

  /** rec describes a media file at the end of a path through folders the walk goes into. */
  ghost predicate Reachable(entries: seq<Node>, picksDir: string, rec: Rec) {
    exists path, leaf :: LeadsIn(entries, path, leaf) && Open([], path, picksDir)
                         && Describes(rec, leaf, RelOf(path), picksDir)
  }

  /** What a walk visits: exactly the files with a recognised extension outside the picks directory none of
      whose folders is hidden, called node_modules, or the picks directory. */
  lemma VisitedIff(entries: seq<Node>, picksDir: string, rec: Rec)
    ensures rec in VisitsAll(entries, "", picksDir) <==> Reachable(entries, picksDir, rec)
  {
    VisitsAllIff(entries, "", picksDir, rec);
    if n :| n in entries && rec in Visits(n, "", picksDir) {
      var path, leaf := VisitedLeaf(n, [], picksDir, rec);
      assert [] + path == path;
      assert LeadsIn(entries, path, leaf);
    }
    if path, leaf :| LeadsIn(entries, path, leaf) && Open([], path, picksDir)
                     && Describes(rec, leaf, RelOf(path), picksDir) {
      var n :| n in entries && Leads(n, path, leaf);
      assert [] + path == path;
      LeafVisited(n, [], path, leaf, picksDir, rec);
    }
  }

  // --------------------------------------------------------- what has to open

  /** What the walk needs of an entry it gets to: a folder it goes into can be listed, a media file outside the
      picks directory can be read. */
  ghost predicate Opens(m: Node, rel: string, picksDir: string) {
    if m.Folder? then Entered(m.name, rel, picksDir) ==> m.readable
    else (exists kind, format :: IsMedia(m.name, kind, format)) && !InPicks(rel, picksDir) ==> m.hash.Some?
  }

  lemma WantedIff(name: string, rel: string, picksDir: string)
    ensures Wanted(name, rel, picksDir) <==>
              (exists kind, format :: IsMedia(name, kind, format)) && !InPicks(rel, picksDir)
  {
    InPicksIff(rel, picksDir);
    if DetectFromExt(name).Some? {
      var fi := DetectFromExt(name).value;
      MediaIff(name, fi.kind, fi.format);
    }
    if kind, format :| IsMedia(name, kind, format) {
      MediaIff(name, kind, format);
    }
  }

  lemma {:induction false} AllReadableIff(ns: seq<Node>, prefix: string, picksDir: string)
    ensures AllReadable(ns, prefix, picksDir) <==> forall i | 0 <= i < |ns| :: Readable(ns[i], prefix, picksDir)
    decreases |ns|
  {
    if ns != [] {
      var m := |ns| - 1;
      AllReadableIff(ns[..m], prefix, picksDir);
      ReadableLast(ns, prefix, picksDir);
      assert forall i | 0 <= i < m :: ns[..m][i] == ns[i];
    }
  }

  lemma ReadableLast(ns: seq<Node>, prefix: string, picksDir: string)
    requires ns != []
    ensures AllReadable(ns, prefix, picksDir) <==>
              AllReadable(ns[..|ns| - 1], prefix, picksDir) && Readable(ns[|ns| - 1], prefix, picksDir)
  {
  }

  lemma {:induction false} ReadableOpens(n: Node, pre: seq<string>, path: seq<string>, m: Node, picksDir: string)
    requires Readable(n, Prefix(pre), picksDir) && Leads(n, path, m) && Open(pre, path, picksDir)
    ensures Opens(m, RelOf(pre + path), picksDir)
    decreases |path|
  {
    PrefixSnoc(pre, n.name);
    EnteredIff(n.name, Prefix(pre) + n.name, picksDir);
    if |path| == 1 {
      assert path == [n.name];
      WantedIff(n.name, Prefix(pre) + n.name, picksDir);
    } else {
      var c :| c in n.children && Leads(c, path[1..], m);
      OpenInside(pre, path, picksDir);
      AllReadableIff(n.children, Prefix(pre + [n.name]), picksDir);
      ReadableOpens(c, pre + [n.name], path[1..], m, picksDir);
    }
  }

  lemma {:induction false} UnreadableFound(n: Node, pre: seq<string>, picksDir: string)
    returns (path: seq<string>, m: Node)
    requires !Readable(n, Prefix(pre), picksDir)
    ensures Leads(n, path, m) && Open(pre, path, picksDir) && !Opens(m, RelOf(pre + path), picksDir)
    decreases n
  {
    PrefixSnoc(pre, n.name);
    EnteredIff(n.name, Prefix(pre) + n.name, picksDir);
    WantedIff(n.name, Prefix(pre) + n.name, picksDir);
    if n.Leaf? || !n.readable {
      path, m := [n.name], n;
    } else {
      AllReadableIff(n.children, Prefix(pre + [n.name]), picksDir);
      var i :| 0 <= i < |n.children| && !Readable(n.children[i], Prefix(pre + [n.name]), picksDir);
      var rest, found := UnreadableFound(n.children[i], pre + [n.name], picksDir);
      path, m := [n.name] + rest, found;
      assert path[1..] == rest && n.children[i] in n.children;
      OpenInside(pre, path, picksDir);
    }
  }

  /** The tree lets the walk through exactly when everything it gets to and needs opens. */
  lemma ReadableIff(entries: seq<Node>, picksDir: string)
    ensures AllReadable(entries, "", picksDir) <==>
              forall path, m | LeadsIn(entries, path, m) && Open([], path, picksDir) :: Opens(m, RelOf(path), picksDir)
  {
    AllReadableIff(entries, "", picksDir);
    if AllReadable(entries, "", picksDir) {
      forall path, m | LeadsIn(entries, path, m) && Open([], path, picksDir)
        ensures Opens(m, RelOf(path), picksDir)
      {
        var n :| n in entries && Leads(n, path, m);
        assert [] + path == path;
        ReadableOpens(n, [], path, m, picksDir);
      }
    } else {
      var i :| 0 <= i < |entries| && !Readable(entries[i], "", picksDir);
      var path, m := UnreadableFound(entries[i], [], picksDir);
      assert [] + path == path;
      assert LeadsIn(entries, path, m);
    }
  }
}
