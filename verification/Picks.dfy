/** The pick state machine and the export of picked files: one picks table and one disk. */
module Picks {
  import opened Seqs
  import opened Paths

  /** What a path holds: a readable file, or something that cannot be read (a directory, no permission). */
  datatype Entry = File(content: string) | Blocked
  type Disk = map<string, Entry>

  /** The columns of the files table the picks package reads. */
  datatype FileRec = FileRec(path: string, contentHash: string)

  datatype PickState = Picked | Rejected
  datatype Row = Row(state: PickState, exported: Option<string>)
  datatype Store = Store(db: map<int, Row>, disk: Disk)

  /** What does not change: the files table, the content hash, and the picks directory below the root. */
  datatype Site = Site(files: map<int, FileRec>, hash: string -> string, picksDir: string)

  /** The system call that fails, if any. */
  datatype Fault = NoFault | MkdirFails | CreateFails | CopyFails | CloseFails | RenameFails | RemoveFails

  function BasePath(site: Site, f: FileRec): string {
    Join(site.picksDir, f.path)
  }

  /** filepath.Join returns clean paths. */
  ghost predicate Tidy(site: Site) {
    forall id | id in site.files :: Clean(BasePath(site, site.files[id]))
  }

  // -------------------------------------------------------- resolveTarget

  /** hashIfExists, compared with the file's hash. */
  datatype Slot = Free | Same | Other | Unreadable

  function SlotOf(site: Site, disk: Disk, path: string, h: string): Slot {
    if path !in disk then Free
    else if disk[path].Blocked? then Unreadable
    else if site.hash(disk[path].content) == h then Same
    else Other
  }

  function Name(site: Site, f: FileRec, n: nat): string
    requires n >= 1
  {
    Candidate(BasePath(site, f), n)
  }

  /** n is the first name that is not taken by other content. */
  ghost predicate IsTarget(site: Site, disk: Disk, f: FileRec, n: nat) {
    && n >= 1 && SlotOf(site, disk, Name(site, f, n), f.contentHash) != Other
    && forall m | 1 <= m < n :: SlotOf(site, disk, Name(site, f, m), f.contentHash) == Other
  }

  lemma TargetUnique(site: Site, disk: Disk, f: FileRec, m: nat, n: nat)
    requires IsTarget(site, disk, f, m) && IsTarget(site, disk, f, n)
    ensures m == n
  {
  }

  ghost predicate FirstTaken(site: Site, disk: Disk, f: FileRec, k: nat) {
    forall m | 1 <= m <= k :: SlotOf(site, disk, Name(site, f, m), f.contentHash) == Other
  }

  /** The first k names. */
  ghost function Names(site: Site, f: FileRec, k: nat): (r: set<string>)
    ensures forall x :: x in r <==> exists m :: 1 <= m <= k && x == Name(site, f, m)
  {
    set m | 1 <= m <= k :: Name(site, f, m)
  }

  lemma NameNew(site: Site, f: FileRec, k: nat)
    requires Clean(BasePath(site, f)) && k > 0
    ensures Name(site, f, k) !in Names(site, f, k - 1)
  {
    forall m | 1 <= m <= k - 1
      ensures Name(site, f, m) != Name(site, f, k)
    {
      if Name(site, f, m) == Name(site, f, k) {
        CandidatesDistinct(BasePath(site, f), k, m);
      }
    }
  }

  lemma NamesStep(site: Site, f: FileRec, k: nat)
    requires k > 0
    ensures Names(site, f, k) == Names(site, f, k - 1) + {Name(site, f, k)}
  {
  }

  lemma {:induction false} NamesCount(site: Site, f: FileRec, k: nat)
    requires Clean(BasePath(site, f))
    ensures |Names(site, f, k)| == k
  {
    if k == 0 {
      assert Names(site, f, 0) == {};
    } else {
      NamesCount(site, f, k - 1);
      NamesStep(site, f, k);
      NameNew(site, f, k);
    }
  }

  /** Pigeonhole: k taken names are k different entries of the disk. */
  lemma TakenBound(site: Site, disk: Disk, f: FileRec, k: nat)
    requires Clean(BasePath(site, f)) && FirstTaken(site, disk, f, k)
    ensures k <= |disk|
  {
    NamesCount(site, f, k);
    assert Names(site, f, k) <= disk.Keys;
    SubsetSize(Names(site, f, k), disk.Keys);
  }

  lemma {:induction false} TargetExists(site: Site, disk: Disk, f: FileRec, k: nat) returns (n: nat)
    requires Clean(BasePath(site, f)) && FirstTaken(site, disk, f, k)
    ensures IsTarget(site, disk, f, n)
    decreases |disk| - k
  {
    if SlotOf(site, disk, Name(site, f, k + 1), f.contentHash) == Other {
      assert FirstTaken(site, disk, f, k + 1);
      TakenBound(site, disk, f, k + 1);
      n := TargetExists(site, disk, f, k + 1);
    } else {
      n := k + 1;
    }
  }

  ghost function TargetNo(site: Site, disk: Disk, f: FileRec): (n: nat)
    requires Clean(BasePath(site, f))
    ensures IsTarget(site, disk, f, n)
  {
    assert exists n :: IsTarget(site, disk, f, n) by {
      var n := TargetExists(site, disk, f, 0);
    }
    var n :| IsTarget(site, disk, f, n);
    n
  }

  /** resolveTarget: the loop has no bound of its own, and ends because the disk is finite. */
  method ResolveTarget(site: Site, disk: Disk, f: FileRec) returns (n: nat, slot: Slot)
    requires Clean(BasePath(site, f))
    ensures IsTarget(site, disk, f, n) && slot == SlotOf(site, disk, Name(site, f, n), f.contentHash)
    ensures n == TargetNo(site, disk, f)
  {
    n := 1;
    slot := SlotOf(site, disk, Name(site, f, n), f.contentHash);
    while slot == Other
      invariant n >= 1 && FirstTaken(site, disk, f, n - 1)
      invariant slot == SlotOf(site, disk, Name(site, f, n), f.contentHash)
      decreases |disk| + 1 - n
    {
      assert FirstTaken(site, disk, f, n);
      TakenBound(site, disk, f, n);
      n := n + 1;
      slot := SlotOf(site, disk, Name(site, f, n), f.contentHash);
    }
    TargetUnique(site, disk, f, n, TargetNo(site, disk, f));
  }

  // ----------------------------------------------------------- exportFile

  function Tmp(path: string): string {
    path + ".tmp"
  }

  /** Writing a free target through its temporary file; a fault after the create removes the temporary. */
  function Copied(disk: Disk, src: string, target: string, fault: Fault): (Disk, bool)
    requires src in disk && disk[src].File?
  {
    var tmp := Tmp(target);
    if fault == MkdirFails || fault == CreateFails || (tmp in disk && disk[tmp].Blocked?) then (disk, false)
    else if fault == CopyFails || fault == CloseFails || fault == RenameFails then (disk - {tmp}, false)
    else ((disk - {tmp})[target := if src == tmp then File("") else disk[src]], true)
  }

  /** exportFile: the new disk and the exported path. */
  ghost function Exported(site: Site, disk: Disk, f: FileRec, fault: Fault): (Disk, Option<string>)
    requires Clean(BasePath(site, f))
  {
    if f.path !in disk || disk[f.path].Blocked? then (disk, None)
    else
      var target := Name(site, f, TargetNo(site, disk, f));
      match SlotOf(site, disk, target, f.contentHash)
      case Same => (disk, Some(target))
      case Free =>
        var (d, ok) := Copied(disk, f.path, target, fault);
        (d, if ok then Some(target) else None)
      case _ => (disk, None)
  }

  // ------------------------------------------------------ the state machine

  ghost function PickSpec(site: Site, s: Store, id: int, fault: Fault): (Store, bool)
    requires Tidy(site)
  {
    if id !in site.files then (s, false)
    else if id in s.db && s.db[id].state == Picked then (s, true)
    else
      var (d, rel) := Exported(site, s.disk, site.files[id], fault);
      if rel.None? then (Store(s.db - {id}, d), false)
      else (Store(s.db[id := Row(Picked, rel)], d), true)
  }

  /** Unexport of a row: the disk without the exported file, or None where the remove fails. */
  function Unexported(disk: Disk, row: Row, fault: Fault): Option<Disk> {
    if row.exported.None? || row.exported.value == "" || row.exported.value !in disk then Some(disk)
    else if fault == RemoveFails then None
    else Some(disk - {row.exported.value})
  }

  function UnpickSpec(site: Site, s: Store, id: int, fault: Fault): (Store, bool) {
    if id !in site.files then (s, false)
    else if id !in s.db || s.db[id].state != Picked then (s, true)
    else
      var d := Unexported(s.disk, s.db[id], fault);
      if d.None? then (s, false) else (Store(s.db - {id}, d.value), true)
  }

  function RejectSpec(site: Site, s: Store, id: int, fault: Fault): (Store, bool) {
    if id !in site.files then (s, false)
    else if id in s.db && s.db[id].state == Picked then
      var d := Unexported(s.disk, s.db[id], fault);
      if d.None? then (s, false) else (Store(s.db[id := Row(Rejected, None)], d.value), true)
    else (Store(s.db[id := Row(Rejected, None)], s.disk), true)
  }

  /** Reject is Unpick followed by marking, and nothing at all where the Unpick fails. */
  lemma RejectIs(site: Site, s: Store, id: int, fault: Fault)
    requires id in site.files
    ensures var (t, ok) := UnpickSpec(site, s, id, fault);
            RejectSpec(site, s, id, fault)
            == if ok then (Store(t.db[id := Row(Rejected, None)], t.disk), true) else (s, false)
    ensures UnpickSpec(site, s, id, fault).1 ==>
              !(id in UnpickSpec(site, s, id, fault).0.db && UnpickSpec(site, s, id, fault).0.db[id].state == Picked)
  {
    assert (s.db - {id})[id := Row(Rejected, None)] == s.db[id := Row(Rejected, None)];
  }

  function UnrejectSpec(site: Site, s: Store, id: int): (Store, bool) {
    if id !in site.files then (s, false)
    else if id in s.db && s.db[id].state == Rejected then (s.(db := s.db - {id}), true)
    else (s, true)
  }

  class Service {
    const site: Site
    var db: map<int, Row>
    var disk: Disk

    constructor (site: Site, s: Store)
      ensures this.site == site && db == s.db && disk == s.disk
    {
      this.site, db, disk := site, s.db, s.disk;
    }

    /** Picks().SetState: inserts a row or changes the state column alone. */
    method SetState(id: int, state: PickState)
      modifies this`db
      ensures db == old(db)[id := Row(state, if id in old(db) then old(db)[id].exported else None)]
    {
      db := db[id := Row(state, if id in db then db[id].exported else None)];
    }

    /** Picks().SetExportedPath and ClearExportedPath: no-ops without a row. */
    method SetExportedPath(id: int, path: Option<string>)
      modifies this`db
      ensures db == if id in old(db) then old(db)[id := old(db)[id].(exported := path)] else old(db)
    {
      if id in db {
        db := db[id := db[id].(exported := path)];
      }
    }

    method Delete(id: int)
      modifies this`db
      ensures db == old(db) - {id}
    {
      db := db - {id};
    }

    method Remove(path: string)
      modifies this`disk
      ensures disk == old(disk) - {path}
    {
      disk := disk - {path};
    }

    /** The copy through the temporary file, step by step. */
    method CopyTo(src: string, target: string, fault: Fault) returns (ok: bool)
      requires src in disk && disk[src].File? && target !in disk
      modifies this`disk
      ensures (disk, ok) == Copied(old(disk), src, target, fault)
    {
      var tmp := Tmp(target);
      if fault == MkdirFails || fault == CreateFails || (tmp in disk && disk[tmp].Blocked?) {
        return false;
      }
      disk := disk[tmp := File("")];
      if fault == CopyFails {
        Remove(tmp);
        assert disk == old(disk) - {tmp};
        return false;
      }
      disk := disk[tmp := disk[src]];
      if fault == CloseFails || fault == RenameFails {
        Remove(tmp);
        assert disk == old(disk) - {tmp};
        return false;
      }
      assert disk - {tmp} == old(disk) - {tmp};
      disk := (disk - {tmp})[target := disk[tmp]];
      return true;
    }

    method ExportFile(f: FileRec, fault: Fault) returns (rel: Option<string>)
      requires Clean(BasePath(site, f))
      modifies this`disk
      ensures disk == Exported(site, old(disk), f, fault).0 && rel == Exported(site, old(disk), f, fault).1
    {
      if f.path !in disk || disk[f.path].Blocked? {
        return None;
      }
      var n, slot := ResolveTarget(site, disk, f);
      match slot {
        case Same => return Some(Name(site, f, n));
        case Free =>
          var ok := CopyTo(f.path, Name(site, f, n), fault);
          return if ok then Some(Name(site, f, n)) else None;
        case _ => return None;
      }
    }

    /** After the export: record the path, or roll the row back. */
    method Settle(id: int, rel: Option<string>)
      requires id in db && db[id].state == Picked
      modifies this`db
      ensures db == if rel.Some? then old(db)[id := Row(Picked, rel)] else old(db) - {id}
    {
      if rel.None? {
        Delete(id);
      } else {
        SetExportedPath(id, rel);
      }
    }

    /** Pick of a file that is not picked: mark, export, and settle. */
    method PickNew(id: int, fault: Fault) returns (ok: bool)
      requires Tidy(site) && id in site.files
      modifies this
      ensures disk == Exported(site, old(disk), site.files[id], fault).0
      ensures ok == Exported(site, old(disk), site.files[id], fault).1.Some?
      ensures db
              == if ok then old(db)[id := Row(Picked, Exported(site, old(disk), site.files[id], fault).1)]
                  else old(db) - {id}
    {
      ghost var before := db;
      SetState(id, Picked);
      ghost var row := db[id];
      var rel := ExportFile(site.files[id], fault);
      Settle(id, rel);
      assert before[id := row][id := Row(Picked, rel)] == before[id := Row(Picked, rel)];
      assert before[id := row] - {id} == before - {id};
      ok := rel.Some?;
    }

    method Pick(id: int, fault: Fault) returns (ok: bool)
      requires Tidy(site)
      modifies this
      ensures (Store(db, disk), ok) == PickSpec(site, old(Store(db, disk)), id, fault)
    {
      if id !in site.files {
        return false;
      }
      if id in db && db[id].state == Picked {
        return true;
      }
      ok := PickNew(id, fault);
    }

    method Unexport(id: int, fault: Fault) returns (ok: bool)
      modifies this
      ensures id !in old(db) ==> ok && db == old(db) && disk == old(disk)
      ensures id in old(db) ==> ok == Unexported(old(disk), old(db)[id], fault).Some?
      ensures id in old(db) && ok ==>
                disk == Unexported(old(disk), old(db)[id], fault).value
                    && db == old(db)[id := old(db)[id].(exported := None)]
      ensures !ok ==> db == old(db) && disk == old(disk)
    {
      if id !in db {
        return true;
      }
      var row := db[id];
      if row.exported.Some? && row.exported.value != "" {
        if row.exported.value in disk {
          if fault == RemoveFails {
            return false;
          }
          Remove(row.exported.value);
        }
      }
      SetExportedPath(id, None);
      return true;
    }

    method Unpick(id: int, fault: Fault) returns (ok: bool)
      modifies this
      ensures (Store(db, disk), ok) == UnpickSpec(site, old(Store(db, disk)), id, fault)
    {
      if id !in site.files {
        return false;
      }
      if id !in db || db[id].state != Picked {
        return true;
      }
      ok := Unexport(id, fault);
      if ok {
        Delete(id);
        assert db == old(db) - {id};
      }
    }

    method Reject(id: int, fault: Fault) returns (ok: bool)
      modifies this
      ensures (Store(db, disk), ok) == RejectSpec(site, old(Store(db, disk)), id, fault)
    {
      if id !in site.files {
        return false;
      }
      if id in db && db[id].state == Picked {
        ok := Unexport(id, fault);
        if !ok {
          return;
        }
      }
      SetState(id, Rejected);
      SetExportedPath(id, None);
      assert db == old(db)[id := Row(Rejected, None)];
      return true;
    }

    method Unreject(id: int) returns (ok: bool)
      modifies this
      ensures (Store(db, disk), ok) == UnrejectSpec(site, old(Store(db, disk)), id)
    {
      if id !in site.files {
        return false;
      }
      if id in db && db[id].state == Rejected {
        Delete(id);
      }
      return true;
    }
  }
}
