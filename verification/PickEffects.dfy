/** What each pick operation does to the file it is called on, and to the others. */
module PickEffects {
  import opened Seqs
  import opened Paths
  import opened Picks
  import opened PicksTheorems

  /** How a file is marked. */
  datatype Mark = Unmarked | MarkedPicked(exported: Option<string>) | MarkedRejected(left: Option<string>)

  function MarkOf(s: Store, id: int): Mark {
    if id !in s.db then Unmarked
    else if s.db[id].state == Picked then MarkedPicked(s.db[id].exported)
    else MarkedRejected(s.db[id].exported)
  }

  function Answer(site: Site, s: Store, op: Op): bool
    requires op.DoUnpick? || op.DoReject? || op.DoUnreject?
  {
    match op
    case DoUnpick(id, fault) => UnpickSpec(site, s, id, fault).1
    case DoReject(id, fault) => RejectSpec(site, s, id, fault).1
    case DoUnreject(id) => UnrejectSpec(site, s, id).1
  }

  // ----------------------------------------------------------------- frames

  /** An operation changes no mark but its own file's. */
  lemma OthersUntouched(site: Site, s: Store, op: Op, other: int)
    requires Tidy(site) && other != op.id
    ensures MarkOf(Apply(site, s, op), other) == MarkOf(s, other)
  {
  }

  /** On an unknown file nothing happens, and the caller is told. */
  lemma UnknownFile(site: Site, s: Store, op: Op)
    requires Tidy(site) && op.id !in site.files
    ensures Apply(site, s, op) == s
    ensures op.DoPick? ==> !PickSpec(site, s, op.id, op.fault).1
    ensures !op.DoPick? ==> !Answer(site, s, op)
  {
  }

  // ------------------------------------------------------------------- pick

  /** The step of an export that fails, or the temporary name is taken by something that cannot be replaced. */
  predicate CopyBlocked(disk: Disk, target: string, fault: Fault) {
    || fault in {MkdirFails, CreateFails, CopyFails, CloseFails, RenameFails}
    || (target + ".tmp" in disk && disk[target + ".tmp"].Blocked?)
  }

  /** The export has something to read, and either finds the file's content under the name it settles on or can
      write that name. */
  ghost predicate Exports(site: Site, disk: Disk, f: FileRec, fault: Fault)
    requires Clean(BasePath(site, f))
  {
    var target := Name(site, f, TargetNo(site, disk, f));
    && f.path in disk && disk[f.path].File?
    && if target in disk then disk[target].File? && site.hash(disk[target].content) == f.contentHash
       else !CopyBlocked(disk, target, fault)
  }

  /** The disk once source has been written under target through its temporary name. */
  function Written(disk: Disk, source: string, target: string): Disk
    requires source in disk
  {
    (disk - {target + ".tmp"})[target := if source == target + ".tmp" then File("") else disk[source]]
  }

  lemma CopyEffect(disk: Disk, source: string, target: string, fault: Fault)
    requires source in disk && disk[source].File?
    ensures var (d, ok) := Copied(disk, source, target, fault);
            && ok == !CopyBlocked(disk, target, fault)
            && (ok ==> d == Written(disk, source, target))
            && (!ok ==> d == disk || d == disk - {target + ".tmp"})
  {
    assert Tmp(target) == target + ".tmp";
  }

  /** An export settles on one name. It succeeds exactly when Exports says; then that name holds the original
      unless it held the content before. A failed one leaves at most the temporary name free. */
  lemma ExportEffect(site: Site, disk: Disk, f: FileRec, fault: Fault)
    requires Clean(BasePath(site, f))
    ensures var (d, rel) := Exported(site, disk, f, fault);
            var target := Name(site, f, TargetNo(site, disk, f));
            && rel == (if Exports(site, disk, f, fault) then Some(target) else None)
            && (rel.Some? ==> d == if target in disk then disk else Written(disk, f.path, target))
            && (rel.None? ==> d == disk || d == disk - {target + ".tmp"})
  {
    var target := Name(site, f, TargetNo(site, disk, f));
    assert SlotOf(site, disk, target, f.contentHash) != Other;
    if f.path in disk && disk[f.path].File? {
      CopyEffect(disk, f.path, target, fault);
    }
  }

  /** A pick of a file that is not picked succeeds exactly when its export does. Then the row records the name
      the export settled on; otherwise the row is gone. */
  lemma PickEffect(site: Site, s: Store, id: int, fault: Fault)
    requires Tidy(site) && id in site.files && !MarkOf(s, id).MarkedPicked?
    ensures var f, (t, ok) := site.files[id], PickSpec(site, s, id, fault);
            && ok == Exports(site, s.disk, f, fault)
            && t.disk == Exported(site, s.disk, f, fault).0
            && MarkOf(t, id) == if ok then MarkedPicked(Some(Name(site, f, TargetNo(site, s.disk, f)))) else Unmarked
  {
    ExportEffect(site, s.disk, site.files[id], fault);
  }

  /** A picked file is left alone. */
  lemma PickAgain(site: Site, s: Store, id: int, fault: Fault)
    requires Tidy(site) && id in site.files && MarkOf(s, id).MarkedPicked?
    ensures PickSpec(site, s, id, fault) == (s, true)
  {
  }

  // ---------------------------------------------------------------- unpick

  /** The export a picked row records, if it is there. */
  predicate ExportThere(s: Store, id: int) {
    MarkOf(s, id).MarkedPicked? && MarkOf(s, id).exported.Some? && MarkOf(s, id).exported.value != ""
    && MarkOf(s, id).exported.value in s.disk
  }

  /** Unpick of a picked file unmarks it and removes its export, or, when the remove fails, does nothing. */
  lemma UnpickEffect(site: Site, s: Store, id: int, fault: Fault)
    requires id in site.files && MarkOf(s, id).MarkedPicked?
    ensures var (t, ok) := UnpickSpec(site, s, id, fault);
            && ok == !(ExportThere(s, id) && fault == RemoveFails)
            && (ok ==> MarkOf(t, id) == Unmarked)
            && (ok ==> t.disk == if ExportThere(s, id) then s.disk - {MarkOf(s, id).exported.value} else s.disk)
            && (!ok ==> t == s)
  {
  }

  /** Unpick leaves a rejection, and an unmarked file, as they are. */
  lemma UnpickKeeps(site: Site, s: Store, id: int, fault: Fault)
    requires id in site.files && !MarkOf(s, id).MarkedPicked?
    ensures UnpickSpec(site, s, id, fault) == (s, true)
  {
  }

  // ---------------------------------------------------------------- target

  predicate FreeName(disk: Disk, path: string) {
    path !in disk
  }

  /** A readable file of the given hash, or of another one. */
  predicate HoldsHash(site: Site, disk: Disk, path: string, h: string) {
    path in disk && disk[path].File? && site.hash(disk[path].content) == h
  }

  predicate HoldsOther(site: Site, disk: Disk, path: string, h: string) {
    path in disk && disk[path].File? && site.hash(disk[path].content) != h
  }

  /** The search stops at the one number whose name is free, holds the file's hash or cannot be read, while
      every name before it holds other content. */
  lemma TargetNoIff(site: Site, disk: Disk, f: FileRec, n: nat)
    requires Clean(BasePath(site, f))
    ensures n == TargetNo(site, disk, f)
            <==> && n >= 1
                 && (FreeName(disk, Name(site, f, n)) || HoldsHash(site, disk, Name(site, f, n), f.contentHash)
                     || disk[Name(site, f, n)].Blocked?)
                 && forall m | 1 <= m < n :: HoldsOther(site, disk, Name(site, f, m), f.contentHash)
  {
    forall m: nat | m >= 1
      ensures SlotOf(site, disk, Name(site, f, m), f.contentHash) == Other
              <==> HoldsOther(site, disk, Name(site, f, m), f.contentHash)
    {
    }
    if IsTarget(site, disk, f, n) {
      TargetUnique(site, disk, f, n, TargetNo(site, disk, f));
    }
    assert n != TargetNo(site, disk, f) ==> !IsTarget(site, disk, f, n);
  }

  // ---------------------------------------------------------------- reject

  /** Reject marks the file as rejected, without its export, or, when the remove fails, does nothing. */
  lemma RejectEffect(site: Site, s: Store, id: int, fault: Fault)
    requires id in site.files
    ensures var (t, ok) := RejectSpec(site, s, id, fault);
            && ok == !(ExportThere(s, id) && fault == RemoveFails)
            && (ok ==> MarkOf(t, id) == MarkedRejected(None))
            && (ok ==> t.disk == if ExportThere(s, id) then s.disk - {MarkOf(s, id).exported.value} else s.disk)
            && (!ok ==> t == s)
  {
  }

  // -------------------------------------------------------------- unreject

  /** Unreject unmarks a rejected file. */
  lemma UnrejectEffect(site: Site, s: Store, id: int)
    requires id in site.files && MarkOf(s, id).MarkedRejected?
    ensures var (t, ok) := UnrejectSpec(site, s, id);
            ok && MarkOf(t, id) == Unmarked && t.disk == s.disk
  {
  }

  /** Unreject leaves a picked file, and an unmarked one, as they are. */
  lemma UnrejectKeeps(site: Site, s: Store, id: int)
    requires id in site.files && !MarkOf(s, id).MarkedRejected?
    ensures UnrejectSpec(site, s, id) == (s, true)
  {
  }

  /** Reject and then Unreject of a file that is not picked restores everything exactly when it was unmarked. */
  lemma RejectUnrejectIff(site: Site, s: Store, id: int)
    requires Tidy(site) && id in site.files && !MarkOf(s, id).MarkedPicked?
    ensures After(site, s, [DoReject(id, NoFault), DoUnreject(id)]) == s <==> MarkOf(s, id) == Unmarked
  {
    var ops := [DoReject(id, NoFault), DoUnreject(id)];
    assert ops[..1] == [DoReject(id, NoFault)] && ops[..1][..0] == [];
    assert After(site, s, ops[..1]) == Apply(site, s, DoReject(id, NoFault));
    assert s.db[id := Row(Rejected, None)] - {id} == s.db - {id};
    assert id !in s.db ==> s.db - {id} == s.db;
    assert id !in After(site, s, ops).db;
  }
}
