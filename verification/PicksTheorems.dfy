/** Runs of the pick state machine: table and directory agree. */
module PicksTheorems {
  import opened Seqs
  import opened Paths
  import opened Picks

  // ------------------------------------------------------------------ runs

  datatype Op = DoPick(id: int, fault: Fault) | DoUnpick(id: int, fault: Fault) | DoReject(id: int,
      fault: Fault) | DoUnreject(id: int)

  ghost function Apply(site: Site, s: Store, op: Op): Store
    requires Tidy(site)
  {
    match op
    case DoPick(id, fault) => PickSpec(site, s, id, fault).0
    case DoUnpick(id, fault) => UnpickSpec(site, s, id, fault).0
    case DoReject(id, fault) => RejectSpec(site, s, id, fault).0
    case DoUnreject(id) => UnrejectSpec(site, s, id).0
  }

  ghost function After(site: Site, s: Store, ops: seq<Op>): Store
    requires Tidy(site)
    decreases |ops|
  {
    if ops == [] then s else Apply(site, After(site, s, ops[..|ops| - 1]), ops[|ops| - 1])
  }

  method Perform(svc: Service, ops: seq<Op>)
    requires Tidy(svc.site)
    modifies svc
    ensures Store(svc.db, svc.disk) == After(svc.site, old(Store(svc.db, svc.disk)), ops)
  {
    for i := 0 to |ops|
      invariant Store(svc.db, svc.disk) == After(svc.site, old(Store(svc.db, svc.disk)), ops[..i])
    {
      assert ops[..i + 1][..i] == ops[..i];
      match ops[i] {
        case DoPick(id, fault) => var _ := svc.Pick(id, fault);
        case DoUnpick(id, fault) => var _ := svc.Unpick(id, fault);
        case DoReject(id, fault) => var _ := svc.Reject(id, fault);
        case DoUnreject(id) => var _ := svc.Unreject(id);
      }
    }
    assert ops[..|ops|] == ops;
  }

  // -------------------------------------------------------------- the site

  predicate InDir(site: Site, p: string) {
    StartsWith(p, site.picksDir + "/")
  }

  /** The picks directory is a proper directory below the root. */
  predicate ProperDir(site: Site) {
    site.picksDir != "" && site.picksDir != "." && site.picksDir != "/"
  }

  /** Sources lie outside the picks directory, have different paths, and none ends in ".tmp". */
  ghost predicate GoodSite(site: Site) {
    && ProperDir(site) && Tidy(site)
    && (forall id | id in site.files :: !InDir(site, site.files[id].path) && !EndsWith(site.files[id].path, ".tmp"))
    && (forall i, j | i in site.files && j in site.files && i != j :: site.files[i].path != site.files[j].path)
  }

  lemma BaseForm(site: Site, f: FileRec)
    requires ProperDir(site)
    ensures BasePath(site, f) == site.picksDir + "/" + f.path && InDir(site, BasePath(site, f))
  {
    assert BasePath(site, f)[..|site.picksDir| + 1] == site.picksDir + "/";
  }

  lemma BaseInjective(site: Site, i: int, j: int)
    requires GoodSite(site) && i in site.files && j in site.files
    requires BasePath(site, site.files[i]) == BasePath(site, site.files[j])
    ensures i == j
  {
    BaseForm(site, site.files[i]);
    BaseForm(site, site.files[j]);
    var k := |site.picksDir| + 1;
    assert site.files[i].path == BasePath(site, site.files[i])[k..];
    assert site.files[j].path == BasePath(site, site.files[j])[k..];
  }

  lemma TailAfterSlash(a: string, p: string)
    ensures EndsWith(a + "/" + p, ".tmp") ==> EndsWith(p, ".tmp")
  {
    var t := a + "/" + p;
    if |p| >= 4 {
      assert t[|t| - 4..] == p[|p| - 4..];
    } else if |t| >= 4 {
      assert t[|t| - 4..][3 - |p|] == '/';
    }
  }

  lemma BaseNotTmp(site: Site, i: int)
    requires GoodSite(site) && i in site.files
    ensures !EndsWith(BasePath(site, site.files[i]), ".tmp")
  {
    BaseForm(site, site.files[i]);
    TailAfterSlash(site.picksDir, site.files[i].path);
  }

  lemma TmpEnds(p: string)
    ensures EndsWith(Tmp(p), ".tmp")
  {
    assert Tmp(p)[|p|..] == ".tmp";
  }

  lemma TmpInDir(site: Site, p: string)
    requires InDir(site, p)
    ensures InDir(site, Tmp(p)) && Tmp(p) != p
  {
    var k := |site.picksDir| + 1;
    assert Tmp(p)[..k] == p[..k];
    assert |Tmp(p)| == |p| + 4;
  }

  // ------------------------------------- only the service writes there

  /** A picked row's export is at the file's own name and is a copy of the original. */
  ghost predicate CopyInPlace(site: Site, d0: Disk, s: Store, id: int)
    requires id in site.files && id in s.db
  {
    var base, src := BasePath(site, site.files[id]), site.files[id].path;
    s.db[id].exported == Some(base) && src in d0 && d0[src].File? && base in s.disk && s.disk[base] == d0[src]
  }

  ghost predicate RowsAgree(site: Site, d0: Disk, s: Store) {
    forall id | id in s.db ::
      && id in site.files
      && (s.db[id].state == Picked ==> CopyInPlace(site, d0, s, id))
      && (s.db[id].state == Rejected ==> s.db[id].exported == None)
  }

  ghost predicate OwnedBy(site: Site, s: Store, p: string, id: int) {
    id in s.db && id in site.files && s.db[id].state == Picked && p == BasePath(site, site.files[id])
  }

  /** The picks directory holds nothing but exports of picked rows. */
  ghost predicate NothingElse(site: Site, s: Store) {
    forall p | p in s.disk && InDir(site, p) :: exists id :: OwnedBy(site, s, p, id)
  }

  ghost predicate OutsideKept(site: Site, d0: Disk, d: Disk) {
    forall p | !InDir(site, p) :: (p in d <==> p in d0) && (p in d ==> d[p] == d0[p])
  }

  ghost predicate Agree(site: Site, d0: Disk, s: Store) {
    RowsAgree(site, d0, s) && NothingElse(site, s) && OutsideKept(site, d0, s.disk)
  }

  /** The name of a file that is not picked is free, and so is its temporary. */
  lemma OwnNameFree(site: Site, d0: Disk, s: Store, id: int)
    requires GoodSite(site) && Agree(site, d0, s) && id in site.files && !(id in s.db && s.db[id].state == Picked)
    ensures BasePath(site, site.files[id]) !in s.disk && Tmp(BasePath(site, site.files[id])) !in s.disk
  {
    var base := BasePath(site, site.files[id]);
    BaseForm(site, site.files[id]);
    TmpInDir(site, base);
    TmpEnds(base);
    if base in s.disk {
      var i :| OwnedBy(site, s, base, i);
      BaseInjective(site, i, id);
    }
    if Tmp(base) in s.disk {
      var i :| OwnedBy(site, s, Tmp(base), i);
      BaseNotTmp(site, i);
    }
  }

  /** Picking an unpicked file either copies the original to its own name or drops the row. */
  lemma PickOutcome(site: Site, d0: Disk, s: Store, id: int, fault: Fault)
    requires GoodSite(site) && Agree(site, d0, s) && id in site.files && !(id in s.db && s.db[id].state == Picked)
    ensures var base, src := BasePath(site, site.files[id]), site.files[id].path;
            var t := PickSpec(site, s, id, fault).0;
            || t == Store(s.db - {id}, s.disk)
            || (src in d0 && d0[src].File? && t == Store(s.db[id := Row(Picked, Some(base))], s.disk[base := d0[src]]))
  {
    var f := site.files[id];
    OwnNameFree(site, d0, s, id);
    TargetUnique(site, s.disk, f, TargetNo(site, s.disk, f), 1);
    BaseForm(site, f);
    TmpInDir(site, BasePath(site, f));
    assert s.disk - {Tmp(BasePath(site, f))} == s.disk;
  }

  lemma DropRow(site: Site, d0: Disk, s: Store, id: int)
    requires Agree(site, d0, s) && id in site.files && !(id in s.db && s.db[id].state == Picked)
    ensures Agree(site, d0, Store(s.db - {id}, s.disk))
  {
    var t := Store(s.db - {id}, s.disk);
    forall p | p in t.disk && InDir(site, p)
      ensures exists i :: OwnedBy(site, t, p, i)
    {
      var i :| OwnedBy(site, s, p, i);
      assert OwnedBy(site, t, p, i);
    }
  }

  lemma AddPick(site: Site, d0: Disk, s: Store, id: int)
    requires GoodSite(site) && Agree(site, d0, s) && id in site.files && !(id in s.db && s.db[id].state == Picked)
    requires site.files[id].path in d0 && d0[site.files[id].path].File?
    ensures var base := BasePath(site, site.files[id]);
            Agree(site, d0, Store(s.db[id := Row(Picked, Some(base))], s.disk[base := d0[site.files[id].path]]))
  {
    var base := BasePath(site, site.files[id]);
    var t := Store(s.db[id := Row(Picked, Some(base))], s.disk[base := d0[site.files[id].path]]);
    BaseForm(site, site.files[id]);
    OwnNameFree(site, d0, s, id);
    forall p | p in t.disk && InDir(site, p)
      ensures exists i :: OwnedBy(site, t, p, i)
    {
      if p == base {
        assert OwnedBy(site, t, p, id);
      } else {
        var i :| OwnedBy(site, s, p, i);
        assert OwnedBy(site, t, p, i);
      }
    }
    forall i | i in t.db
      ensures i in site.files
      ensures t.db[i].state == Picked ==> CopyInPlace(site, d0, t, i)
      ensures t.db[i].state == Rejected ==> t.db[i].exported == None
    {
      if i != id {
        assert s.db[i].state == Picked ==> CopyInPlace(site, d0, s, i);
      }
    }
  }

  lemma PickAgrees(site: Site, d0: Disk, s: Store, id: int, fault: Fault)
    requires GoodSite(site) && Agree(site, d0, s)
    ensures Agree(site, d0, PickSpec(site, s, id, fault).0)
  {
    if id in site.files && !(id in s.db && s.db[id].state == Picked) {
      PickOutcome(site, d0, s, id, fault);
      DropRow(site, d0, s, id);
      if site.files[id].path in d0 && d0[site.files[id].path].File? {
        AddPick(site, d0, s, id);
      }
    }
  }

  /** Taking a picked row's export away together with the row keeps the rest. */
  lemma RemovePick(site: Site, d0: Disk, s: Store, id: int)
    requires GoodSite(site) && Agree(site, d0, s) && id in s.db && s.db[id].state == Picked
    ensures Agree(site, d0, Store(s.db - {id}, s.disk - {BasePath(site, site.files[id])}))
  {
    var base := BasePath(site, site.files[id]);
    var t := Store(s.db - {id}, s.disk - {base});
    BaseForm(site, site.files[id]);
    forall p | p in t.disk && InDir(site, p)
      ensures exists i :: OwnedBy(site, t, p, i)
    {
      var i :| OwnedBy(site, s, p, i);
      assert OwnedBy(site, t, p, i);
    }
    forall i | i in t.db
      ensures i in site.files
      ensures t.db[i].state == Picked ==> CopyInPlace(site, d0, t, i)
      ensures t.db[i].state == Rejected ==> t.db[i].exported == None
    {
      if t.db[i].state == Picked && BasePath(site, site.files[i]) == base {
        BaseInjective(site, i, id);
      }
    }
  }

  lemma AddRejection(site: Site, d0: Disk, s: Store, id: int)
    requires Agree(site, d0, s) && id in site.files && !(id in s.db && s.db[id].state == Picked)
    ensures Agree(site, d0, Store(s.db[id := Row(Rejected, None)], s.disk))
  {
    var t := Store(s.db[id := Row(Rejected, None)], s.disk);
    forall p | p in t.disk && InDir(site, p)
      ensures exists i :: OwnedBy(site, t, p, i)
    {
      var i :| OwnedBy(site, s, p, i);
      assert OwnedBy(site, t, p, i);
    }
  }

  lemma UnpickAgrees(site: Site, d0: Disk, s: Store, id: int, fault: Fault)
    requires GoodSite(site) && Agree(site, d0, s)
    ensures Agree(site, d0, UnpickSpec(site, s, id, fault).0)
  {
    if id in site.files && id in s.db && s.db[id].state == Picked {
      assert CopyInPlace(site, d0, s, id);
      BaseForm(site, site.files[id]);
      RemovePick(site, d0, s, id);
    }
  }

  /** Reject is an Unpick followed by the rejection. */
  lemma RejectAgrees(site: Site, d0: Disk, s: Store, id: int, fault: Fault)
    requires GoodSite(site) && Agree(site, d0, s)
    ensures Agree(site, d0, RejectSpec(site, s, id, fault).0)
  {
    if id in site.files {
      RejectIs(site, s, id, fault);
      UnpickAgrees(site, d0, s, id, fault);
      if UnpickSpec(site, s, id, fault).1 {
        AddRejection(site, d0, UnpickSpec(site, s, id, fault).0, id);
      }
    }
  }

  lemma ApplyAgrees(site: Site, d0: Disk, s: Store, op: Op)
    requires GoodSite(site) && Agree(site, d0, s)
    ensures Agree(site, d0, Apply(site, s, op))
  {
    match op
    case DoPick(id, fault) => PickAgrees(site, d0, s, id, fault);
    case DoUnpick(id, fault) => UnpickAgrees(site, d0, s, id, fault);
    case DoReject(id, fault) => RejectAgrees(site, d0, s, id, fault);
    case DoUnreject(id) =>
      if id in site.files && id in s.db && s.db[id].state == Rejected {
        DropRow(site, d0, s, id);
      }
  }

  /** Every run from an empty table and an empty picks directory, whatever fails on the way: each picked
      row's export holds the original's content, exports are pairwise distinct, rejected rows have none,
      the directory holds nothing else, and nothing outside it changes. No condition on hashes is needed. */
  lemma {:induction false} PicksAgree(site: Site, d0: Disk, ops: seq<Op>)
    requires GoodSite(site) && forall p | p in d0 :: !InDir(site, p)
    ensures Agree(site, d0, After(site, Store(map[], d0), ops))
    ensures var s := After(site, Store(map[], d0), ops);
            forall i, j | i in s.db && j in s.db && i != j && s.db[i].state == Picked && s.db[j].state == Picked ::
                s.db[i].exported != s.db[j].exported
    decreases |ops|
  {
    var s := After(site, Store(map[], d0), ops);
    if ops != [] {
      PicksAgree(site, d0, ops[..|ops| - 1]);
      ApplyAgrees(site, d0, After(site, Store(map[], d0), ops[..|ops| - 1]), ops[|ops| - 1]);
    }
    forall i, j | i in s.db && j in s.db && i != j && s.db[i].state == Picked && s.db[j].state == Picked
      ensures s.db[i].exported != s.db[j].exported
    {
      assert CopyInPlace(site, d0, s, i) && CopyInPlace(site, d0, s, j);
      if s.db[i].exported == s.db[j].exported {
        BaseInjective(site, i, j);
      }
    }
  }

  // -------------------------------------------------- the failed pick

  /** The rollback of a failed Pick restores the table exactly when the file was unmarked: a rejection is
      lost. */
  lemma FailedPickIff(site: Site, s: Store, id: int, fault: Fault)
    requires Tidy(site) && id in site.files && !PickSpec(site, s, id, fault).1
    ensures PickSpec(site, s, id, fault).0.db == s.db <==> id !in s.db
  {
    var after := PickSpec(site, s, id, fault).0;
    assert after.db == s.db - {id};
    assert id !in after.db;
  }

  function OneFileSite(hash: string -> string): Site {
    Site(map[1 := FileRec("a.jpg", "h")], hash, "picks")
  }

  lemma OneFileTidy(hash: string -> string)
    ensures Tidy(OneFileSite(hash))
  {
    var base := BasePath(OneFileSite(hash), FileRec("a.jpg", "h"));
    assert base[0] == 'p';
    assert NameStart(base) > 1 ==> base[..NameStart(base) - 1][0] == 'p';
  }

  /** A rejected file whose original is gone: Pick fails, and the file is unmarked afterwards. */
  lemma RejectionLost(hash: string -> string)
    ensures Tidy(OneFileSite(hash))
    ensures PickSpec(OneFileSite(hash), Store(map[1 := Row(Rejected, None)], map[]), 1, NoFault)
            == (Store(map[], map[]), false)
  {
    OneFileTidy(hash);
    assert map[1 := Row(Rejected, None)] - {1} == map[];
  }
}
