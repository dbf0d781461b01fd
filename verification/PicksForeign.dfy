/** Picks in a directory that already holds other files: adoption, what is preserved, what Unpick undoes. */
module PicksForeign {
  import opened Seqs
  import opened Paths
  import opened Picks
  import opened PicksTheorems

  // ------------------------------------------------------------ one export

  lemma CopyFrame(disk: Disk, src: string, target: string, fault: Fault)
    requires src in disk && disk[src].File? && target !in disk
    ensures var (d, ok) := Copied(disk, src, target, fault);
            && (forall p | p in disk && p != Tmp(target) :: p in d && d[p] == disk[p])
            && (forall p | p in d && p !in disk :: p == target && ok)
            && (ok ==> target in d && (src != Tmp(target) ==> d[target] == disk[src]))
  {
  }

  /** exportFile changes nothing but its target and the target's temporary, and where it fails nothing new
      appears. */
  lemma ExportFrame(site: Site, disk: Disk, f: FileRec, fault: Fault)
    requires Clean(BasePath(site, f))
    ensures var (d, rel) := Exported(site, disk, f, fault);
            var target := Name(site, f, TargetNo(site, disk, f));
            && (forall p | p in disk && p != Tmp(target) :: p in d && d[p] == disk[p])
            && (forall p | p in d && p !in disk :: p == target && rel == Some(target))
  {
    var target := Name(site, f, TargetNo(site, disk, f));
    if f.path in disk && disk[f.path].File? && SlotOf(site, disk, target, f.contentHash).Free? {
      CopyFrame(disk, f.path, target, fault);
    }
  }

  /** Where exportFile succeeds the target holds the file's content hash. */
  lemma ExportHolds(site: Site, disk: Disk, f: FileRec, fault: Fault)
    requires Clean(BasePath(site, f)) && f.path != Tmp(Name(site, f, TargetNo(site, disk, f)))
    requires f.path in disk && disk[f.path].File? ==> site.hash(disk[f.path].content) == f.contentHash
    ensures var (d, rel) := Exported(site, disk, f, fault);
            var target := Name(site, f, TargetNo(site, disk, f));
            rel.Some? ==>
              rel == Some(target) && target in d && d[target].File? && site.hash(d[target].content) == f.contentHash
  {
    var target := Name(site, f, TargetNo(site, disk, f));
    if f.path in disk && disk[f.path].File? && SlotOf(site, disk, target, f.contentHash).Free? {
      CopyFrame(disk, f.path, target, fault);
    }
  }

  lemma NameInDir(site: Site, f: FileRec, n: nat)
    requires ProperDir(site) && Clean(BasePath(site, f)) && n >= 1
    ensures InDir(site, Name(site, f, n))
  {
    BaseForm(site, f);
    if n > 1 {
      var base := BasePath(site, f);
      SuffixedPathForm(base, n);
      var k := |site.picksDir| + 1;
      assert base[k - 1] == '/';
      assert NameStart(base) >= k;
      var stem := base[..|base| - |Ext(base)|];
      assert stem[..k] == base[..k];
      assert Name(site, f, n)[..k] == stem[..k];
    }
  }

  // -------------------------------------------------------- the invariant

  ghost predicate DistinctHashes(site: Site) {
    forall i, j | i in site.files && j in site.files && i != j :: site.files[i].contentHash != site.files[j].contentHash
  }

  /** The hash in the table is the hash of what is on the disk. */
  ghost predicate HashesTrue(site: Site, d0: Disk) {
    forall id | id in site.files && site.files[id].path in d0 && d0[site.files[id].path].File? ::
      site.hash(d0[site.files[id].path].content) == site.files[id].contentHash
  }

  /** The path holds a readable file with this row's content hash. */
  predicate HoldsHash(site: Site, disk: Disk, p: string, id: int)
    requires id in site.files
  {
    p in disk && disk[p].File? && site.hash(disk[p].content) == site.files[id].contentHash
  }

  predicate ExportHeld(site: Site, s: Store, id: int)
    requires id in site.files && id in s.db
  {
    && s.db[id].exported.Some? && InDir(site, s.db[id].exported.value) && !EndsWith(s.db[id].exported.value, ".tmp")
    && HoldsHash(site, s.disk, s.db[id].exported.value, id)
  }

  ghost predicate RowsHeld(site: Site, s: Store) {
    forall id | id in s.db ::
      && id in site.files
      && (s.db[id].state == Picked ==> ExportHeld(site, s, id))
      && (s.db[id].state == Rejected ==> s.db[id].exported == None)
  }

  ghost predicate ExportOf(s: Store, p: string, id: int) {
    id in s.db && s.db[id].state == Picked && s.db[id].exported == Some(p)
  }

  ghost predicate NothingNew(site: Site, d0: Disk, s: Store) {
    forall p | p in s.disk && InDir(site, p) :: p in d0 || exists id :: ExportOf(s, p, id)
  }

  /** A foreign file the service has no business with: no file of the table has its content, and its name
      is not a temporary one. */
  ghost predicate Foreign(site: Site, d0: Disk, p: string) {
    && p in d0 && !EndsWith(p, ".tmp")
    && (d0[p].File? ==> forall id | id in site.files :: site.hash(d0[p].content) != site.files[id].contentHash)
  }

  ghost predicate ForeignKept(site: Site, d0: Disk, d: Disk) {
    forall p | InDir(site, p) && Foreign(site, d0, p) :: p in d && d[p] == d0[p]
  }

  ghost predicate Coexist(site: Site, d0: Disk, s: Store) {
    RowsHeld(site, s) && NothingNew(site, d0, s) && ForeignKept(site, d0, s.disk) && OutsideKept(site, d0, s.disk)
  }

  /** Different rows have different exports because they have different content. */
  lemma ExportsDiffer(site: Site, s: Store, i: int, j: int)
    requires DistinctHashes(site) && RowsHeld(site, s) && i in s.db && j in s.db && i != j
    requires s.db[i].state == Picked && s.db[j].state == Picked
    ensures s.db[i].exported != s.db[j].exported
  {
    assert ExportHeld(site, s, i) && ExportHeld(site, s, j);
  }

  // --------------------------------------------------------------- the steps

  lemma ForgetRow(site: Site, d0: Disk, s: Store, id: int)
    requires Coexist(site, d0, s) && !(id in s.db && s.db[id].state == Picked)
    ensures Coexist(site, d0, Store(s.db - {id}, s.disk))
  {
    var t := Store(s.db - {id}, s.disk);
    forall p | p in t.disk && InDir(site, p)
      ensures p in d0 || exists i :: ExportOf(t, p, i)
    {
      if p !in d0 {
        var i :| ExportOf(s, p, i);
        assert ExportOf(t, p, i);
      }
    }
    forall i | i in t.db && t.db[i].state == Picked
      ensures ExportHeld(site, t, i)
    {
      assert ExportHeld(site, s, i);
    }
  }

  /** A row gains an export: everything that was there stays, except possibly a temporary name. */
  lemma GainExport(site: Site, d0: Disk, s: Store, d: Disk, id: int, target: string)
    requires Coexist(site, d0, s) && id in site.files && !(id in s.db && s.db[id].state == Picked)
    requires InDir(site, target) && !EndsWith(target, ".tmp") && HoldsHash(site, d, target, id)
    requires forall p | p in s.disk && p != Tmp(target) :: p in d && d[p] == s.disk[p]
    requires forall p | p in d && p !in s.disk :: p == target
    ensures Coexist(site, d0, Store(s.db[id := Row(Picked, Some(target))], d))
  {
    var t := Store(s.db[id := Row(Picked, Some(target))], d);
    TmpEnds(target);
    TmpInDir(site, target);
    forall p | p in t.disk && InDir(site, p)
      ensures p in d0 || exists i :: ExportOf(t, p, i)
    {
      if p == target {
        assert ExportOf(t, p, id);
      } else if p !in d0 {
        var i :| ExportOf(s, p, i);
        assert ExportOf(t, p, i);
      }
    }
    forall i | i in t.db
      ensures i in site.files
      ensures t.db[i].state == Picked ==> ExportHeld(site, t, i)
      ensures t.db[i].state == Rejected ==> t.db[i].exported == None
    {
      if i != id {
        assert s.db[i].state == Picked ==> ExportHeld(site, s, i);
      }
    }
  }

  /** A failed export: the row is gone, and at most a temporary name was touched. */
  lemma FailedExport(site: Site, d0: Disk, s: Store, d: Disk, id: int, target: string)
    requires Coexist(site, d0, s) && id in site.files && !(id in s.db && s.db[id].state == Picked)
    requires InDir(site, target)
    requires forall p | p in s.disk && p != Tmp(target) :: p in d && d[p] == s.disk[p]
    requires forall p | p in d :: p in s.disk
    ensures Coexist(site, d0, Store(s.db - {id}, d))
  {
    var t := Store(s.db - {id}, d);
    TmpEnds(target);
    TmpInDir(site, target);
    forall p | p in t.disk && InDir(site, p)
      ensures p in d0 || exists i :: ExportOf(t, p, i)
    {
      if p !in d0 {
        var i :| ExportOf(s, p, i);
        assert ExportOf(t, p, i);
      }
    }
    forall i | i in t.db && t.db[i].state == Picked
      ensures ExportHeld(site, t, i)
    {
      assert ExportHeld(site, s, i);
    }
  }

  lemma PickCoexists(site: Site, d0: Disk, s: Store, id: int, fault: Fault)
    requires GoodSite(site) && HashesTrue(site, d0) && Coexist(site, d0, s)
    ensures Coexist(site, d0, PickSpec(site, s, id, fault).0)
  {
    if id in site.files && !(id in s.db && s.db[id].state == Picked) {
      var f := site.files[id];
      var n := TargetNo(site, s.disk, f);
      var target := Name(site, f, n);
      NameInDir(site, f, n);
      TmpInDir(site, target);
      BaseNotTmp(site, id);
      CandidateTmp(BasePath(site, f), n);
      ExportFrame(site, s.disk, f, fault);
      ExportHolds(site, s.disk, f, fault);
      var (d, rel) := Exported(site, s.disk, f, fault);
      if rel.Some? {
        GainExport(site, d0, s, d, id, target);
      } else {
        FailedExport(site, d0, s, d, id, target);
      }
    }
  }

  /** A row and its export go together. */
  lemma LoseExport(site: Site, d0: Disk, s: Store, id: int)
    requires DistinctHashes(site) && Coexist(site, d0, s) && id in s.db && s.db[id].state == Picked
    requires s.db[id].exported.Some?
    ensures Coexist(site, d0, Store(s.db - {id}, s.disk - {s.db[id].exported.value}))
  {
    var path := s.db[id].exported.value;
    var t := Store(s.db - {id}, s.disk - {path});
    assert ExportHeld(site, s, id);
    forall i | i in t.db && t.db[i].state == Picked
      ensures ExportHeld(site, t, i)
    {
      assert ExportHeld(site, s, i);
      ExportsDiffer(site, s, i, id);
    }
    forall p | p in t.disk && InDir(site, p)
      ensures p in d0 || exists i :: ExportOf(t, p, i)
    {
      if p !in d0 {
        var i :| ExportOf(s, p, i);
        assert ExportOf(t, p, i);
      }
    }
    assert !Foreign(site, d0, path);
  }

  lemma AddRejected(site: Site, d0: Disk, s: Store, id: int)
    requires Coexist(site, d0, s) && id in site.files && !(id in s.db && s.db[id].state == Picked)
    ensures Coexist(site, d0, Store(s.db[id := Row(Rejected, None)], s.disk))
  {
    var t := Store(s.db[id := Row(Rejected, None)], s.disk);
    forall p | p in t.disk && InDir(site, p)
      ensures p in d0 || exists i :: ExportOf(t, p, i)
    {
      if p !in d0 {
        var i :| ExportOf(s, p, i);
        assert ExportOf(t, p, i);
      }
    }
    forall i | i in t.db && t.db[i].state == Picked
      ensures ExportHeld(site, t, i)
    {
      assert ExportHeld(site, s, i);
    }
  }

  lemma UnpickCoexists(site: Site, d0: Disk, s: Store, id: int, fault: Fault)
    requires DistinctHashes(site) && Coexist(site, d0, s)
    ensures Coexist(site, d0, UnpickSpec(site, s, id, fault).0)
  {
    if id in site.files && id in s.db && s.db[id].state == Picked {
      assert ExportHeld(site, s, id);
      LoseExport(site, d0, s, id);
    }
  }

  lemma RejectCoexists(site: Site, d0: Disk, s: Store, id: int, fault: Fault)
    requires DistinctHashes(site) && Coexist(site, d0, s)
    ensures Coexist(site, d0, RejectSpec(site, s, id, fault).0)
  {
    if id in site.files {
      RejectIs(site, s, id, fault);
      UnpickCoexists(site, d0, s, id, fault);
      if UnpickSpec(site, s, id, fault).1 {
        AddRejected(site, d0, UnpickSpec(site, s, id, fault).0, id);
      }
    }
  }

  /** Every run over a directory with foreign files, for files of different content: picked rows keep an
      export with their content hash, exports are pairwise distinct, nothing new is left behind, and foreign
      files the service has no business with stay as they were. */
  lemma {:induction false} PicksCoexist(site: Site, d0: Disk, ops: seq<Op>)
    requires GoodSite(site) && DistinctHashes(site) && HashesTrue(site, d0)
    ensures Coexist(site, d0, After(site, Store(map[], d0), ops))
    ensures var s := After(site, Store(map[], d0), ops);
            forall i, j | i in s.db && j in s.db && i != j && s.db[i].state == Picked && s.db[j].state == Picked ::
                s.db[i].exported != s.db[j].exported
    decreases |ops|
  {
    var s := After(site, Store(map[], d0), ops);
    if ops != [] {
      var before := After(site, Store(map[], d0), ops[..|ops| - 1]);
      PicksCoexist(site, d0, ops[..|ops| - 1]);
      match ops[|ops| - 1]
      case DoPick(id, fault) => PickCoexists(site, d0, before, id, fault);
      case DoUnpick(id, fault) => UnpickCoexists(site, d0, before, id, fault);
      case DoReject(id, fault) => RejectCoexists(site, d0, before, id, fault);
      case DoUnreject(id) =>
        if id in site.files && id in before.db && before.db[id].state == Rejected {
          ForgetRow(site, d0, before, id);
        }
    }
    forall i, j | i in s.db && j in s.db && i != j && s.db[i].state == Picked && s.db[j].state == Picked
      ensures s.db[i].exported != s.db[j].exported
    {
      ExportsDiffer(site, s, i, j);
    }
  }

  // ------------------------------------------------------ what Unpick undoes

  ghost predicate PickedHeld(site: Site, s: Store) {
    forall id | id in s.db && s.db[id].state == Picked :: id in site.files && ExportHeld(site, s, id)
  }

  /** Whatever the hashes are, Unpick leaves the other picks with their exports exactly when no other picked
      row records the same path. */
  lemma UnpickSafeIff(site: Site, s: Store, id: int)
    requires PickedHeld(site, s) && id in s.db && s.db[id].state == Picked
    ensures PickedHeld(site, UnpickSpec(site, s, id, NoFault).0)
            <==> forall i | i in s.db && i != id && s.db[i].state == Picked :: s.db[i].exported != s.db[id].exported
  {
    assert ExportHeld(site, s, id);
    var path := s.db[id].exported.value;
    assert path != "";
    var t := UnpickSpec(site, s, id, NoFault).0;
    assert t == Store(s.db - {id}, s.disk - {path});
    forall i | i in s.db && i != id && s.db[i].state == Picked
      ensures i in site.files && (ExportHeld(site, t, i) <==> s.db[i].exported != s.db[id].exported)
    {
      assert ExportHeld(site, s, i);
    }
  }

  /** What a successful Pick of an unmarked file leaves. */
  lemma PickLeaves(site: Site, s: Store, id: int) returns (e: Entry)
    requires Tidy(site) && id in site.files && id !in s.db && PickSpec(site, s, id, NoFault).1
    ensures var target := Name(site, site.files[id], TargetNo(site, s.disk, site.files[id]));
            PickSpec(site, s, id, NoFault).0
            == Store(s.db[id := Row(Picked, Some(target))],
                     if target in s.disk then s.disk else (s.disk - {Tmp(target)})[target := e])
  {
    var f := site.files[id];
    var target := Name(site, f, TargetNo(site, s.disk, f));
    var d := Exported(site, s.disk, f, NoFault).0;
    e := if target in d then d[target] else Blocked;
  }

  lemma UndoDisk(disk: Disk, target: string, e: Entry)
    requires target !in disk
    ensures (disk - {Tmp(target)})[target := e] - {target} == disk <==> Tmp(target) !in disk
  {
    assert |Tmp(target)| == |target| + 4;
    assert (disk - {Tmp(target)})[target := e] - {target} == disk - {Tmp(target)};
  }

  lemma UnpickOf(site: Site, db: map<int, Row>, disk: Disk, id: int, path: string)
    requires id in site.files && path != ""
    ensures UnpickSpec(site, Store(db[id := Row(Picked, Some(path))], disk), id, NoFault).0
            == Store(db - {id}, disk - {path})
  {
    assert db[id := Row(Picked, Some(path))] - {id} == db - {id};
  }

  /** Pick then Unpick of an unmarked file restores table and disk exactly when the name was free and so was
      its temporary: an adopted file is deleted, and a file under the temporary name is lost. */
  lemma PickUnpickIff(site: Site, s: Store, id: int)
    requires GoodSite(site) && id in site.files && id !in s.db && PickSpec(site, s, id, NoFault).1
    ensures var target := Name(site, site.files[id], TargetNo(site, s.disk, site.files[id]));
            UnpickSpec(site, PickSpec(site, s, id, NoFault).0, id, NoFault).0 == s <==>
                target !in s.disk && Tmp(target) !in s.disk
  {
    var f := site.files[id];
    var target := Name(site, f, TargetNo(site, s.disk, f));
    NameInDir(site, f, TargetNo(site, s.disk, f));
    var e := PickLeaves(site, s, id);
    var d := if target in s.disk then s.disk else (s.disk - {Tmp(target)})[target := e];
    UnpickOf(site, s.db, d, id, target);
    assert s.db - {id} == s.db;
    if target in s.disk {
      assert target !in d - {target};
    } else {
      UndoDisk(s.disk, target, e);
    }
  }

  /** The first of two: a's second name is free and takes the copy. */
  lemma TakesSecondName(site: Site, s: Store, a: int)
    requires GoodSite(site) && a in site.files && a !in s.db && HashesTrue(site, s.disk)
    requires site.files[a].path in s.disk && s.disk[site.files[a].path].File?
    requires SlotOf(site, s.disk, Name(site, site.files[a], 1), site.files[a].contentHash) == Other
    requires Name(site, site.files[a], 2) !in s.disk && Tmp(Name(site, site.files[a], 2)) !in s.disk
    ensures var shared := Name(site, site.files[a], 2);
            PickSpec(site, s, a, NoFault).0
                == Store(s.db[a := Row(Picked, Some(shared))], s.disk[shared := s.disk[site.files[a].path]])
  {
    var f, shared := site.files[a], Name(site, site.files[a], 2);
    NameInDir(site, f, 2);
    TmpInDir(site, shared);
    TargetUnique(site, s.disk, f, TargetNo(site, s.disk, f), 2);
    assert s.disk - {Tmp(shared)} == s.disk;
  }

  /** The second: a file of the same content already sits at b's own name. */
  lemma Adopts(site: Site, s: Store, b: int)
    requires Tidy(site) && b in site.files && b !in s.db
    requires site.files[b].path in s.disk && s.disk[site.files[b].path].File?
    requires HoldsHash(site, s.disk, BasePath(site, site.files[b]), b)
    ensures PickSpec(site, s, b, NoFault).0
            == Store(s.db[b := Row(Picked, Some(BasePath(site, site.files[b])))], s.disk)
  {
    TargetUnique(site, s.disk, site.files[b], TargetNo(site, s.disk, site.files[b]), 1);
  }

  /** Two files of the same content can end up on one export: a's own name is taken by something else, its
      second name is b's own name. After that, taking a back deletes what b's row points to. */
  lemma SharedExport(site: Site, s: Store, a: int, b: int)
    requires GoodSite(site) && a in site.files && b in site.files && a !in s.db && b !in s.db
    requires BasePath(site, site.files[b]) == Name(site, site.files[a], 2)
    requires site.files[a].contentHash == site.files[b].contentHash
    requires HashesTrue(site, s.disk)
    requires site.files[a].path in s.disk && s.disk[site.files[a].path].File?
    requires site.files[b].path in s.disk && s.disk[site.files[b].path].File?
    requires SlotOf(site, s.disk, Name(site, site.files[a], 1), site.files[a].contentHash) == Other
    requires Name(site, site.files[a], 2) !in s.disk && Tmp(Name(site, site.files[a], 2)) !in s.disk
    ensures var t := After(site, s, [DoPick(a, NoFault), DoPick(b, NoFault), DoUnpick(a, NoFault)]);
            b in t.db && t.db[b].state == Picked && t.db[b].exported.Some? && t.db[b].exported.value !in t.disk
  {
    var shared := Name(site, site.files[a], 2);
    var d1 := s.disk[shared := s.disk[site.files[a].path]];
    NameInDir(site, site.files[a], 2);
    TakesSecondName(site, s, a);
    Adopts(site, Store(s.db[a := Row(Picked, Some(shared))], d1), b);
    AfterSharing(site, s, a, b, shared, d1);
  }

  lemma AfterSharing(site: Site, s: Store, a: int, b: int, shared: string, d1: Disk)
    requires Tidy(site) && a in site.files && a != b && shared != ""
    requires var s1 := Store(s.db[a := Row(Picked, Some(shared))], d1);
             PickSpec(site, s, a, NoFault).0 == s1
                 && PickSpec(site, s1, b, NoFault).0 == Store(s1.db[b := Row(Picked, Some(shared))], d1)
    ensures After(site, s, [DoPick(a, NoFault), DoPick(b, NoFault), DoUnpick(a, NoFault)])
            == Store(s.db[b := Row(Picked, Some(shared))] - {a}, d1 - {shared})
  {
    var s1 := Store(s.db[a := Row(Picked, Some(shared))], d1);
    var db2 := s.db[b := Row(Picked, Some(shared))];
    assert s1.db[b := Row(Picked, Some(shared))] == db2[a := Row(Picked, Some(shared))];
    UnpickOf(site, db2, d1, a, shared);
    ThreeSteps(site, s, DoPick(a, NoFault), DoPick(b, NoFault), DoUnpick(a, NoFault));
  }

  lemma ThreeSteps(site: Site, s: Store, x: Op, y: Op, z: Op)
    requires Tidy(site)
    ensures After(site, s, [x, y, z]) == Apply(site, Apply(site, Apply(site, s, x), y), z)
  {
    assert [x, y, z][..2] == [x, y] && [x, y][..1] == [x] && [x][..0] == [];
    assert After(site, s, [x]) == Apply(site, s, x);
    assert After(site, s, [x, y]) == Apply(site, After(site, s, [x]), y);
  }

  // ------------------------------------------------------------- an input

  const FIRST := FileRec("a.jpg", "h")
  const SECOND := FileRec("a_2.jpg", "h")

  function OnlyX(content: string): string {
    if content == "X" then "h" else "other"
  }

  /** Two files of the same content, one called like the other's second name. */
  function Twins(): Site {
    Site(map[1 := FIRST, 2 := SECOND], OnlyX, "picks")
  }

  /** Something else has the first one's name in the picks directory. */
  function TwinsDisk(): Disk {
    map["a.jpg" := File("X"), "a_2.jpg" := File("X"), "picks/a.jpg" := File("Y")]
  }

  /** The second name tried for a .jpg file. */
  lemma SecondName(stem: string)
    requires Clean(stem + ".jpg")
    ensures Candidate(stem + ".jpg", 2) == stem + "_2" + ".jpg"
  {
    SuffixedPathForm(stem + ".jpg", 2);
    JpgExt(stem);
    assert (stem + ".jpg")[..|stem|] == stem;
    assert stem + "_" + "2" == stem + "_2";
  }

  /** A relative path that starts with a letter other than a dot or a slash is clean. */
  lemma CleanStart(p: string)
    requires p != [] && p[0] != '.' && p[0] != '/'
    ensures Clean(p)
  {
    assert NameStart(p) > 1 ==> p[..NameStart(p) - 1][0] == p[0];
  }

  lemma TwinsBases()
    ensures BasePath(Twins(), FIRST) == "picks/a.jpg" && BasePath(Twins(), SECOND) == "picks/a_2.jpg"
  {
  }

  lemma TwinsTidy()
    ensures Tidy(Twins())
  {
    TwinsBases();
    CleanStart("picks/a.jpg");
    CleanStart("picks/a_2.jpg");
  }

  lemma TwinsText()
    ensures "picks/a" + ".jpg" == "picks/a.jpg" && "picks/a" + "_2" + ".jpg" == "picks/a_2.jpg"
  {
  }

  lemma SecondNameIs(base: string, stem: string, second: string)
    requires base == stem + ".jpg" && second == stem + "_2" + ".jpg" && Clean(base)
    ensures Candidate(base, 2) == second
  {
    SecondName(stem);
  }

  lemma TwinsName()
    ensures Name(Twins(), FIRST, 1) == "picks/a.jpg" && Name(Twins(), FIRST, 2) == "picks/a_2.jpg"
  {
    TwinsBases();
    TwinsText();
    CleanStart("picks/a.jpg");
    SecondNameIs("picks/a.jpg", "picks/a", "picks/a_2.jpg");
  }

  lemma NotTmp(stem: string)
    ensures !EndsWith(stem + ".jpg", ".tmp")
  {
    var p := stem + ".jpg";
    assert p[|p| - 4..][1] == 'j';
  }

  lemma StartsWithA(p: string)
    requires p != [] && p[0] == 'a'
    ensures !InDir(Twins(), p)
  {
    assert ("picks" + "/")[0] == 'p';
    assert |p| >= 6 ==> p[..6][0] == 'a';
  }

  lemma PathsText()
    ensures FIRST.path == "a" + ".jpg" && SECOND.path == "a_2" + ".jpg" && FIRST.path != SECOND.path
  {
  }

  lemma OutsidePicks(p: string, stem: string)
    requires p == stem + ".jpg" && stem != [] && stem[0] == 'a'
    ensures !InDir(Twins(), p) && !EndsWith(p, ".tmp")
  {
    NotTmp(stem);
    StartsWithA(p);
  }

  lemma TwinsGood()
    ensures GoodSite(Twins())
  {
    TwinsTidy();
    PathsText();
    OutsidePicks(FIRST.path, "a");
    OutsidePicks(SECOND.path, "a_2");
    forall id | id in Twins().files
      ensures Twins().files[id] == FIRST || Twins().files[id] == SECOND
    {
    }
  }

  lemma TwinsDiskFacts()
    ensures HashesTrue(Twins(), TwinsDisk())
    ensures SlotOf(Twins(), TwinsDisk(), "picks/a.jpg", "h") == Other
    ensures forall p | |p| >= 12 :: p !in TwinsDisk()
    ensures TwinsDisk()[FIRST.path] == TwinsDisk()[SECOND.path] == File("X")
  {
    assert OnlyX("X") == "h" && OnlyX("Y")[0] == 'o';
  }

  /** Pick both, unpick the first: the second's recorded export is gone. */
  lemma SharedExportInput()
    ensures GoodSite(Twins()) && HashesTrue(Twins(), TwinsDisk())
    ensures var t := After(Twins(), Store(map[], TwinsDisk()),
                [DoPick(1, NoFault), DoPick(2, NoFault), DoUnpick(1, NoFault)]);
            2 in t.db && t.db[2].state == Picked && t.db[2].exported.Some? && t.db[2].exported.value !in t.disk
  {
    TwinsGood();
    TwinsBases();
    TwinsName();
    TwinsDiskFacts();
    SharedExport(Twins(), Store(map[], TwinsDisk()), 1, 2);
  }
}
