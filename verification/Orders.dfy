/** The orders of listings, spelled out. */
module Orders {
  import opened Seqs
  import opened Strings
  import opened Visual
  import opened Timeline
  import opened Defs
  import opened PerDevice
  import opened SkewEstimate
  import ClusterStage
  import ClusterStore
  import Stages

  // ------------------------------------------------------- the library view

  /** Where two clusters stand in the view: by device key in byte order, then by time with NULL last, then by id. */
  ghost predicate ListedBefore(a: ClusterStore.Row, b: ClusterStore.Row) {
    if a.device != b.device then InByteOrder(a.device, b.device)
    else
      || (a.bucket.Some? && b.bucket.None?)
      || (a.bucket.Some? && b.bucket.Some? && a.bucket.value < b.bucket.value)
      || (a.bucket == b.bucket && a.id < b.id)
  }

  lemma LibraryOrder(rows: seq<ClusterStore.Row>, i: nat, j: nat)
    requires ClusterStore.DistinctRows(rows) && i < j < |ClusterStore.AllOrdered(rows)|
    ensures ListedBefore(ClusterStore.AllOrdered(rows)[i], ClusterStore.AllOrdered(rows)[j])
  {
    ClusterStore.AllOrderedFacts(rows);
    var a, b := ClusterStore.AllOrdered(rows)[i], ClusterStore.AllOrdered(rows)[j];
    assert ClusterStore.LibraryLe()(a, b);
    StrLeIff(a.device, b.device);
  }

  function CanonAndNikon(): seq<ClusterStore.Row> {
    [ClusterStore.Row(1, "Canon", Some(0)), ClusterStore.Row(2, "Nikon", Some(0))]
  }

  /** From Canon's cluster the next one is Nikon's, and there is none after that. */
  lemma NextInOrder()
    ensures ClusterStore.NextAfter(CanonAndNikon(), CanonAndNikon()[0]) == Some(2)
    ensures ClusterStore.NextAfter(CanonAndNikon(), CanonAndNikon()[1]) == None
  {
    var rows := CanonAndNikon();
    assert FirstDifference("Canon", "Nikon", 0);
    StrLeIff("Canon", "Nikon");
    StrLeTotal("Canon", "Nikon");
    assert ClusterStore.AfterClause(rows[0])(rows[1]) && !ClusterStore.AfterClause(rows[0])(rows[0]);
    ClusterStore.NextAfterLeast(rows, rows[0], rows[1]);
    if ClusterStore.NextAfter(rows, rows[1]).Some? {
      var n := ClusterStore.NextAfterFinds(rows, rows[1]);
    }
  }

  // --------------------------------------------------------- the skew reference

  /** The reference has more usable files than any other device, or as many and the smaller key in byte order. */
  lemma ReferenceIff(files: seq<File>, embeds: map<int, Embedding>, ref: string)
    ensures IsReference(files, embeds, ref) <==>
            && ref in SkewDevices(files, embeds)
            && forall d | d in SkewDevices(files, embeds) && d != ref ::
                 || |Entries(files, embeds, ref)| > |Entries(files, embeds, d)|
                 || (|Entries(files, embeds, ref)| == |Entries(files, embeds, d)| && InByteOrder(ref, d))
  {
    forall d
      ensures StrLe(ref, d) <==> InByteOrder(ref, d)
    {
      StrLeIff(ref, d);
    }
    StrLeReflexive(ref);
  }

  // -------------------------------------------------------------- timelines

  /** Where two files stand in a timeline: by time with untimed ones last, then by id. */
  predicate TakenBefore(f: RunFile, g: RunFile) {
    || (f.at.Some? && g.at.None?)
    || (f.at.Some? && g.at.Some? && f.at.value < g.at.value)
    || (f.at == g.at && f.id < g.id)
  }

  lemma TimelineOrder(s: seq<RunFile>, i: nat, j: nat)
    requires DistinctIds(s) && i < j < |Sort(s, RunLe())|
    ensures TakenBefore(Sort(s, RunLe())[i], Sort(s, RunLe())[j])
  {
    SortedRunFacts(s);
    assert RunLe()(Sort(s, RunLe())[i], Sort(s, RunLe())[j]);
  }

  // --------------------------------------------------------- analyzed files

  /** Where two analyzed files stand in the query: by device column in byte order, a missing one counting as
      "Unknown", then by time with NULL last, then by id. */
  ghost predicate QueriedBefore(f: File, g: File) {
    var a := if f.deviceKey == None then "Unknown" else f.deviceKey.value;
    var b := if g.deviceKey == None then "Unknown" else g.deviceKey.value;
    if a != b then InByteOrder(a, b)
    else
      || (f.capturedAt.Some? && g.capturedAt.None?)
      || (f.capturedAt.Some? && g.capturedAt.Some? && f.capturedAt.value < g.capturedAt.value)
      || (f.capturedAt == g.capturedAt && f.id < g.id)
  }

  lemma AnalyzedOrder(st: Stages.Table, shots: int -> ClusterStage.Shot, i: nat, j: nat)
    requires i < j < |ClusterStage.AnalyzedFiles(st, shots)|
    ensures QueriedBefore(ClusterStage.AnalyzedFiles(st, shots)[i], ClusterStage.AnalyzedFiles(st, shots)[j])
  {
    var files := ClusterStage.AnalyzedFiles(st, shots);
    ClusterStage.AnalyzedFacts(st, shots);
    ClusterStage.FileLePreorder();
    SortSorts(ClusterStage.FilesOf(Listing(Stages.Queue(st, Stages.Analyzed)), shots), ClusterStage.FileLe());
    assert ClusterStage.FileLe()(files[i], files[j]);
    StrLeIff(ClusterStage.Column(files[i]), ClusterStage.Column(files[j]));
  }

  // ---------------------------------------------------------------- devices

  /** The first file of a device. */
  ghost predicate FirstOn(files: seq<File>, dev: string, k: nat) {
    k < |files| && Device(files[k]) == dev && forall i | 0 <= i < k :: Device(files[i]) != dev
  }

  /** Devices are listed once, in the order of their first files. */
  lemma {:induction false} DevicesFirstSeen(files: seq<File>, i: nat, j: nat, k: nat, l: nat)
    requires i < |Devices(files)| && j < |Devices(files)|
    requires FirstOn(files, Devices(files)[i], k) && FirstOn(files, Devices(files)[j], l)
    ensures i < j <==> k < l
  {
    if files != [] {
      var n := |files| - 1;
      var before := Devices(files[..n]);
      DevicesFacts(files[..n]);
      if i < |before| && j < |before| {
        FirstWithin(files, before[i], k);
        FirstWithin(files, before[j], l);
        DevicesFirstSeen(files[..n], i, j, k, l);
      } else if i < |before| {
        FirstWithin(files, before[i], k);
      } else if j < |before| {
        FirstWithin(files, before[j], l);
      }
    }
  }

  /** A device seen before the last file is first seen before it. */
  lemma FirstWithin(files: seq<File>, dev: string, k: nat)
    requires files != [] && dev in Devices(files[..|files| - 1]) && FirstOn(files, dev, k)
    ensures k < |files| - 1 && FirstOn(files[..|files| - 1], dev, k)
  {
    var p := files[..|files| - 1];
    DevicesFacts(p);
    var m :| 0 <= m < |p| && Device(p[m]) == dev;
    assert files[m] == p[m];
  }
}
