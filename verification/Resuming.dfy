/** runStagesAndCluster and Resume: where stopping and resuming ends. */
module Resuming {
  import opened Seqs
  import opened Stages
  import ClusterStage
  import ClusterStore
  import Pool
  import Rebuild

  /** A file that moved is at the next status or failed. */
  lemma MovedTo(a: Table, b: Table, from: Status, proc: Process)
    requires Moved(a, b, from, proc)
    ensures forall id | id in a :: a[id] == b[id] || b[id] == Next(from) || b[id] == Failed
  {
    forall id | id in a
      ensures a[id] == b[id] || b[id] == Next(from) || b[id] == Failed
    {
      if a[id] != b[id] {
        assert MovedBy(id, b[id], from, proc);
      }
    }
  }

  // ------------------------------------------------- how a stage run ends

  /** The stage drained its queue or gave up on it: nothing from outside ended the run. */
  predicate RanItsCourse(r: StageResult) {
    r.Drained? || r.NoProgress?
  }

  /** A stage that ran its course drained its queue exactly when no file in it stays. */
  lemma DrainedIff(a: Table, b: Table, from: Status, limit: nat, proc: Process, fate: Fate, r: StageResult)
    requires Working(from) && StageOk(a, b, from, limit, proc, fate, r) && Follows(proc, fate) && RanItsCourse(r)
    ensures r.Drained? <==> forall id | id in Queue(a, from) :: fate(from, id) != Stay
  {
    if r.Drained? {
      forall id | id in Queue(a, from)
        ensures fate(from, id) != Stay
      {
        assert id !in Queue(b, from);
        StayerMoves(a, b, from, proc, fate, id);
      }
    } else {
      var id := r.batch[0];
      assert id in r.batch;
      assert id in Queue(b, from);
      assert proc(from, id, r.round).act == fate(from, id);
      MovedTo(a, b, from, proc);
      assert id in Queue(a, from);
    }
  }

  /** A stage gives up with files left that do not stay only behind a whole batch of files that do. */
  lemma BlockedHead(a: Table, b: Table, from: Status, limit: nat, proc: Process, fate: Fate, r: StageResult, x: int)
    requires Working(from) && StageOk(a, b, from, limit, proc, fate, r) && Follows(proc, fate) && r.NoProgress?
    requires x in Queue(b, from) && fate(from, x) != Stay
    ensures |r.batch| == limit && ToSet(r.batch) <= Blockers(b, from, fate, x)
  {
    assert Stuck(b, from, limit, proc, r);
    forall y | y in r.batch
      ensures y in Queue(b, from) && fate(from, y) == Stay
    {
      assert proc(from, y, r.round).act == fate(from, y);
    }
    assert x !in r.batch;
    assert x !in ToSet(r.batch);
    BatchAhead(b, from, limit, x);
  }

  /** What a full batch leaves out comes after it. */
  lemma BatchAhead(st: Table, from: Status, limit: nat, x: int)
    requires x in Queue(st, from) && x !in Batch(st, from, limit)
    ensures forall y | y in Batch(st, from, limit) :: y < x
  {
    var all := Listing(Queue(st, from));
    var k :| 0 <= k < |all| && all[k] == x;
    var batch := Batch(st, from, limit);
    assert forall i | 0 <= i < |batch| :: batch[i] == all[i] && batch[i] in batch;
  }

  /** Exactly which files that would move a stage leaves behind: those with a whole batch of staying files
      ahead of them. */
  lemma LeftBehindIff(a: Table, b: Table, from: Status, limit: nat, proc: Process, fate: Fate, r: StageResult, x: int)
    requires Working(from) && StageOk(a, b, from, limit, proc, fate, r) && Follows(proc, fate) && RanItsCourse(r)
    requires x in Queue(a, from) && fate(from, x) != Stay
    ensures x in Queue(b, from) <==> |Blockers(a, from, fate, x)| >= limit
  {
    if x in Queue(b, from) {
      BlockedHead(a, b, from, limit, proc, fate, r, x);
      StayersStay(a, b, from, proc, fate, x);
      SubsetSize(ToSet(r.batch), Blockers(b, from, fate, x));
      SetSize(r.batch);
    }
  }

  /** The table a stage run that runs its course leaves, from the table it starts with. */
  ghost function StageEnd(st: Table, from: Status, limit: nat, fate: Fate): Table {
    map id | id in st ::
      if st[id] == from && |Blockers(st, from, fate, id)| < limit then Effect(from, fate(from, id)) else st[id]
  }

  /** However a stage is scheduled, if it runs its course it ends in that table. */
  lemma StageEnds(a: Table, b: Table, from: Status, limit: nat, proc: Process, fate: Fate, r: StageResult)
    requires Working(from) && StageOk(a, b, from, limit, proc, fate, r) && Follows(proc, fate) && RanItsCourse(r)
    ensures b == StageEnd(a, from, limit, fate)
  {
    forall x | x in a
      ensures b[x] == StageEnd(a, from, limit, fate)[x]
    {
      if a[x] != b[x] {
        StayerMoves(a, b, from, proc, fate, x);
      } else if a[x] == from && fate(from, x) != Stay {
        LeftBehindIff(a, b, from, limit, proc, fate, r, x);
        assert x in Queue(b, from);
      }
    }
  }

  /** Interrupting a stage does not change where it ends. */
  lemma StageEndKept(a: Table, b: Table, from: Status, limit: nat, proc: Process, fate: Fate)
    requires Working(from) && Moved(a, b, from, proc) && Follows(proc, fate) && Unblocked(a, b, from, limit, fate)
    ensures StageEnd(b, from, limit, fate) == StageEnd(a, from, limit, fate)
  {
    forall x | x in a
      ensures StageEnd(b, from, limit, fate)[x] == StageEnd(a, from, limit, fate)[x]
    {
      StayersStay(a, b, from, proc, fate, x);
      if a[x] != b[x] {
        StayerMoves(a, b, from, proc, fate, x);
      }
    }
  }

  lemma StageEndIdle(st: Table, from: Status, limit: nat, fate: Fate)
    requires Queue(st, from) == {}
    ensures StageEnd(st, from, limit, fate) == st
  {
    forall x | x in st
      ensures st[x] != from
    {
      assert x !in Queue(st, from);
    }
  }

  /** File 1 fails without leaving its status, every other file advances. */
  function OneStays(): Process {
    (s: Status, id: int, round: nat) =>
      if id == 1 then Outcome(Stay, Some(Pool.Plain("unreadable"))) else Outcome(Advance, None)
  }

  function OneStaysFate(): Fate {
    (s: Status, id: int) => if id == 1 then Stay else Advance
  }

  function TwoFiles(): Table {
    map[1 := Discovered, 2 := Discovered]
  }

  lemma OneIsTheBatch()
    ensures Batch(TwoFiles(), Discovered, 1) == [1] && |Blockers(TwoFiles(), Discovered, OneStaysFate(), 2)| >= 1
  {
    var a := TwoFiles();
    assert 1 in Queue(a, Discovered);
    assert MinOf(Queue(a, Discovered)) == 1;
    assert 1 in Blockers(a, Discovered, OneStaysFate(), 2);
    SubsetSize({1}, Blockers(a, Discovered, OneStaysFate(), 2));
  }

  lemma TwoFilesEnd()
    ensures StageEnd(TwoFiles(), Discovered, 1, OneStaysFate()) == TwoFiles()
  {
    OneIsTheBatch();
    assert OneStaysFate()(Discovered, 1) == Stay;
  }

  lemma OneStaysFollows()
    ensures Follows(OneStays(), OneStaysFate()) && OneStaysFate()(Discovered, 2) == Advance
  {
  }

  lemma NothingMoves(st: Table, from: Status, limit: nat, proc: Process, fate: Fate)
    ensures Moved(st, st, from, proc) && Unblocked(st, st, from, limit, fate)
  {
  }

  lemma CanGiveUp()
    ensures StageOk(TwoFiles(), TwoFiles(), Discovered, 1, OneStays(), OneStaysFate(), NoProgress([1], 0))
  {
    OneIsTheBatch();
    NothingMoves(TwoFiles(), Discovered, 1, OneStays(), OneStaysFate());
    assert Stuck(TwoFiles(), Discovered, 1, OneStays(), NoProgress([1], 0));
  }

  lemma EndsWhereItWas(b: Table, r: StageResult)
    requires StageOk(TwoFiles(), b, Discovered, 1, OneStays(), OneStaysFate(), r) && RanItsCourse(r)
    ensures b == TwoFiles()
  {
    OneStaysFollows();
    StageEnds(TwoFiles(), b, Discovered, 1, OneStays(), OneStaysFate(), r);
    TwoFilesEnd();
  }

  /** Two files and a batch size of one: file 2 would advance, the stage can give up, and however it is
      scheduled it ends with file 2 where it was. */
  lemma BlockedInput(b: Table, r: StageResult)
    ensures Follows(OneStays(), OneStaysFate()) && OneStaysFate()(Discovered, 2) == Advance
    ensures StageOk(TwoFiles(), TwoFiles(), Discovered, 1, OneStays(), OneStaysFate(), NoProgress([1], 0))
    ensures StageOk(TwoFiles(), b, Discovered, 1, OneStays(), OneStaysFate(), r) && RanItsCourse(r) ==> b == TwoFiles()
  {
    OneStaysFollows();
    CanGiveUp();
    if StageOk(TwoFiles(), b, Discovered, 1, OneStays(), OneStaysFate(), r) && RanItsCourse(r) {
      EndsWhereItWas(b, r);
    }
  }

  // ------------------------------------------------------- the whole chain

  /** Where a file ends up if every stage it comes to acts on it as its fate says. */
  function FinStatus(s: Status, id: int, fate: Fate): Status
    decreases if s.Discovered? then 3 else if s.Metadata? then 2 else if s.Thumbed? then 1 else 0
  {
    if !Working(s) then s
    else
      match fate(s, id)
      case Stay => s
      case Fail => Failed
      case Advance => FinStatus(Next(s), id, fate)
  }

  function Fin(st: Table, fate: Fate): Table {
    map id | id in st :: FinStatus(st[id], id, fate)
  }

  predicate NothingWorking(st: Table) {
    forall id | id in st :: !Working(st[id])
  }

  /** A stage run does not change where files will end up, even if it left some of them in place that would
      have moved. */
  lemma FinKept(a: Table, b: Table, from: Status, proc: Process, fate: Fate)
    requires Working(from) && Moved(a, b, from, proc) && Obeys(proc, fate)
    ensures Fin(a, fate) == Fin(b, fate)
  {
    forall id | id in a
      ensures FinStatus(a[id], id, fate) == FinStatus(b[id], id, fate)
    {
      if a[id] != b[id] {
        var round: nat :| proc(from, id, round).act != Stay && b[id] == Effect(from, proc(from, id, round).act);
        assert proc(from, id, round).act == fate(from, id);
      }
    }
  }

  /** A file ends analyzed exactly when every stage still ahead of it advances it, in this order. */
  lemma AnalyzedIff(s: Status, id: int, fate: Fate)
    ensures var m, t, a := fate(Discovered, id), fate(Metadata, id), fate(Thumbed, id);
            FinStatus(s, id, fate) == Analyzed
            <==> s == Analyzed
                 || (s == Thumbed && a == Advance)
                 || (s == Metadata && t == Advance && a == Advance)
                 || (s == Discovered && m == Advance && t == Advance && a == Advance)
  {
    assert Next(Discovered) == Metadata && Next(Metadata) == Thumbed && Next(Thumbed) == Analyzed;
  }

  /** It ends failed exactly when the first stage that does not advance it fails on it. */
  lemma FailedIff(s: Status, id: int, fate: Fate)
    ensures var m, t, a := fate(Discovered, id), fate(Metadata, id), fate(Thumbed, id);
            FinStatus(s, id, fate) == Failed
            <==> s == Failed
                 || (s == Thumbed && a == Fail)
                 || (s == Metadata && (t == Fail || (t == Advance && a == Fail)))
                 || (s == Discovered && (m == Fail || (m == Advance && (t == Fail || (t == Advance && a == Fail)))))
  {
    assert Next(Discovered) == Metadata && Next(Metadata) == Thumbed && Next(Thumbed) == Analyzed;
  }

  lemma FinDone(st: Table, fate: Fate)
    requires NothingWorking(st)
    ensures Fin(st, fate) == st
  {
  }

  // ------------------------------------------------- single status changes

  /** One Process call on one file, whatever stage it is due for. */
  function Change(st: Table, id: int, fate: Fate): Table {
    if id in st && Working(st[id]) then st[id := Effect(st[id], fate(st[id], id))] else st
  }

  function Changes(st: Table, ids: seq<int>, fate: Fate): Table {
    if ids == [] then st else Changes(Change(st, ids[0], fate), ids[1..], fate)
  }

  lemma {:induction false} ChangesKeepFin(st: Table, ids: seq<int>, fate: Fate)
    ensures Fin(Changes(st, ids, fate), fate) == Fin(st, fate)
  {
    if ids != [] {
      ChangesKeepFin(Change(st, ids[0], fate), ids[1..], fate);
      assert Fin(Change(st, ids[0], fate), fate) == Fin(st, fate);
    }
  }

  /** Any two histories of status changes that leave nothing to do end in the same table, whatever order
      the files were taken in and wherever they were cut. */
  lemma Confluent(st: Table, one: seq<int>, other: seq<int>, fate: Fate)
    requires NothingWorking(Changes(st, one, fate)) && NothingWorking(Changes(st, other, fate))
    ensures Changes(st, one, fate) == Changes(st, other, fate) == Fin(st, fate)
  {
    ChangesKeepFin(st, one, fate);
    ChangesKeepFin(st, other, fate);
    FinDone(Changes(st, one, fate), fate);
    FinDone(Changes(st, other, fate), fate);
  }

  // ------------------------------------------------------------- the stages

  const STAGES: seq<string> := ["metadata", "thumb", "analyze"]

  function SourceOf(i: nat): Status
    requires i < 3
  {
    [Discovered, Metadata, Thumbed][i]
  }

  /** The first i stages have nothing left. */
  ghost predicate DrainedUpTo(st: Table, i: nat) {
    forall j: nat | j < i && j < 3 :: Queue(st, SourceOf(j)) == {}
  }

  /** A later stage puts nothing back into an earlier queue. */
  lemma EarlierStaysDrained(a: Table, b: Table, i: nat, proc: Process)
    requires i < 3 && DrainedUpTo(a, i) && Moved(a, b, SourceOf(i), proc)
    ensures DrainedUpTo(b, i)
  {
    MovedTo(a, b, SourceOf(i), proc);
    forall j: nat | j < i
      ensures Queue(b, SourceOf(j)) == {}
    {
      assert Queue(a, SourceOf(j)) == {};
      forall id
        ensures id !in Queue(b, SourceOf(j))
      {
        assert id !in Queue(a, SourceOf(j));
      }
    }
  }

  lemma AllDrained(st: Table)
    requires DrainedUpTo(st, 3)
    ensures NothingWorking(st)
  {
    assert Queue(st, SourceOf(0)) == {} && Queue(st, SourceOf(1)) == {} && Queue(st, SourceOf(2)) == {};
    forall id | id in st
      ensures !Working(st[id])
    {
      assert id !in Queue(st, Discovered) && id !in Queue(st, Metadata) && id !in Queue(st, Thumbed);
    }
  }

  /** The table the stages from number i on leave when each runs its course: the first one that gives up is
      the last one to run. */
  ghost function RunEnd(st: Table, limit: nat, fate: Fate, i: nat): Table
    requires i <= 3
    decreases 3 - i
  {
    if i == 3 then st
    else
      var end := StageEnd(st, SourceOf(i), limit, fate);
      if Queue(end, SourceOf(i)) != {} then end else RunEnd(end, limit, fate, i + 1)
  }

  /** Stages without work do nothing. */
  lemma {:induction false} RunEndSkips(st: Table, limit: nat, fate: Fate, i: nat, k: nat)
    requires i <= k <= 3 && DrainedUpTo(st, k)
    ensures RunEnd(st, limit, fate, i) == RunEnd(st, limit, fate, k)
    decreases k - i
  {
    if i < k {
      assert Queue(st, SourceOf(i)) == {};
      StageEndIdle(st, SourceOf(i), limit, fate);
      RunEndSkips(st, limit, fate, i + 1, k);
    }
  }

  lemma SameEndSameRun(a: Table, b: Table, limit: nat, fate: Fate, i: nat)
    requires i < 3 && StageEnd(a, SourceOf(i), limit, fate) == StageEnd(b, SourceOf(i), limit, fate)
    ensures RunEnd(a, limit, fate, i) == RunEnd(b, limit, fate, i)
  {
  }

  /** A stage run, however it ended, does not change where the stages will end. */
  lemma RunEndKept(a: Table, b: Table, i: nat, limit: nat, proc: Process, fate: Fate, r: StageResult)
    requires i < 3 && DrainedUpTo(a, i) && Follows(proc, fate) && StageOk(a, b, SourceOf(i), limit, proc, fate, r)
    ensures RunEnd(b, limit, fate, 0) == RunEnd(a, limit, fate, 0)
  {
    EarlierStaysDrained(a, b, i, proc);
    RunEndSkips(a, limit, fate, 0, i);
    RunEndSkips(b, limit, fate, 0, i);
    StageEndKept(a, b, SourceOf(i), limit, proc, fate);
    SameEndSameRun(a, b, limit, fate, i);
  }

  /** A stage that gave up leaves the end of the run. */
  lemma GivenUp(a: Table, b: Table, i: nat, limit: nat, proc: Process, fate: Fate, r: StageResult)
    requires i < 3 && DrainedUpTo(a, i) && Follows(proc, fate)
    requires StageOk(a, b, SourceOf(i), limit, proc, fate, r) && r.NoProgress?
    ensures b == RunEnd(b, limit, fate, 0)
  {
    EarlierStaysDrained(a, b, i, proc);
    RunEndSkips(b, limit, fate, 0, i);
    StageEnds(a, b, SourceOf(i), limit, proc, fate, r);
    StageEndKept(a, b, SourceOf(i), limit, proc, fate);
    assert r.batch[0] in Batch(b, SourceOf(i), limit);
    assert r.batch[0] in Queue(b, SourceOf(i));
  }

  // --------------------------------------------------------------- the runs

  /** One call of Resume: whether its context is already done, what Process does during it, the world of
      each of its stages, and what its rebuild finds. */
  datatype Attempt = Attempt(contextDone: bool, proc: Process, metadata: World, thumb: World, analyze: World,
    clustering: ClusterStage.Clustering)

  datatype RunResult = Finished | NotStarted | StageFailed(result: StageResult) | ClusterFailed

  ghost predicate FairAttempt(t: Attempt) {
    Fair(t.metadata) && Fair(t.thumb) && Fair(t.analyze)
  }

  /** Nothing from outside, and no file, stops the attempt. */
  ghost predicate CalmAttempt(t: Attempt) {
    && !t.contextDone && Calm(t.metadata) && Calm(t.thumb) && Calm(t.analyze)
    && t.clustering.checks.None? && t.clustering.failAt.None?
    && NeverInterrupted(t.proc) && NeverStays(t.proc)
  }

  function WorldOf(t: Attempt, i: nat): World
    requires i < 3
  {
    if i == 0 then t.metadata else if i == 1 then t.thumb else t.analyze
  }

  /** The files no stage consumes. */
  ghost predicate OthersKept(a: Table, b: Table) {
    a.Keys == b.Keys && forall id | id in a && !Working(a[id]) :: b[id] == a[id]
  }

  /** What the stages leave behind, however they ended. */
  ghost predicate StagesOk(a: Table, b: Table, limit: nat, proc: Process, fate: Fate, r: StageResult) {
    && OthersKept(a, b)
    && (r.Drained? ==> NothingWorking(b))
    && (Obeys(proc, fate) ==> Fin(a, fate) == Fin(b, fate))
    && (Follows(proc, fate) ==> RunEnd(a, limit, fate, 0) == RunEnd(b, limit, fate, 0))
    && (Follows(proc, fate) && RanItsCourse(r) ==> b == RunEnd(b, limit, fate, 0))
  }

  /** Two consecutive events of one stage: that it starts, and how it ended. */
  ghost predicate Bracket(events: seq<Progress>, k: nat, stage: string, last: Phase) {
    && k + 1 < |events| && events[k].stage == stage && events[k + 1].stage == stage
    && events[k].phase == Starting && events[k + 1].phase == last
  }

  /** The events of the three stages, each run to its end. */
  ghost predicate StagesAnnounced(a: seq<Progress>, b: seq<Progress>) {
    a <= b && Bracket(b, |a|, "metadata", Ended) && Bracket(b, |a| + 2, "thumb", Ended)
    && Bracket(b, |a| + 4, "analyze", Ended)
  }

  /** The events of the first i stages, each run to its end. */
  ghost predicate SaidUpTo(a: seq<Progress>, b: seq<Progress>, i: nat) {
    && a <= b && |b| == |a| + 2 * i && i <= 3
    && forall j: nat | j < i :: Bracket(b, |a| + 2 * j, STAGES[j], Ended)
  }

  lemma SaidNothing(a: seq<Progress>)
    ensures SaidUpTo(a, a, 0)
  {
  }

  /** One more stage, run to its end. */
  lemma SaidOneMore(a: seq<Progress>, b: seq<Progress>, c: seq<Progress>, i: nat, total: int)
    requires SaidUpTo(a, b, i) && i < 3 && Announced(b, c, STAGES[i], total, Drained)
    ensures SaidUpTo(a, c, i + 1)
  {
    assert c[..|b| + 1][..|b|] == b && c[..|b| + 1][|b|] == c[|b|];
    forall j: nat | j < i
      ensures Bracket(c, |a| + 2 * j, STAGES[j], Ended)
    {
      assert Bracket(b, |a| + 2 * j, STAGES[j], Ended);
    }
  }

  lemma SaidAll(a: seq<Progress>, b: seq<Progress>)
    requires SaidUpTo(a, b, 3)
    ensures |b| == |a| + 6 && StagesAnnounced(a, b)
  {
    assert Bracket(b, |a| + 2 * 0, STAGES[0], Ended);
    assert Bracket(b, |a| + 2 * 1, STAGES[1], Ended);
    assert Bracket(b, |a| + 2 * 2, STAGES[2], Ended);
  }

  /** What one stage of the chain contributes. */
  lemma StageKeeps(a: Table, b: Table, i: nat, limit: nat, proc: Process, fate: Fate, r: StageResult)
    requires i < 3 && DrainedUpTo(a, i) && StageOk(a, b, SourceOf(i), limit, proc, fate, r)
    ensures OthersKept(a, b) && (r.Drained? ==> DrainedUpTo(b, i + 1))
    ensures Obeys(proc, fate) ==> Fin(a, fate) == Fin(b, fate)
    ensures Follows(proc, fate) ==> RunEnd(a, limit, fate, 0) == RunEnd(b, limit, fate, 0)
    ensures Follows(proc, fate) && r.NoProgress? ==> b == RunEnd(b, limit, fate, 0)
  {
    EarlierStaysDrained(a, b, i, proc);
    if Obeys(proc, fate) {
      FinKept(a, b, SourceOf(i), proc, fate);
    }
    if Follows(proc, fate) {
      RunEndKept(a, b, i, limit, proc, fate, r);
      if r.NoProgress? {
        GivenUp(a, b, i, limit, proc, fate, r);
      }
    }
  }

  /** What i drained stages leave behind. */
  ghost predicate StagesSoFar(a: Table, b: Table, i: nat, limit: nat, proc: Process, fate: Fate) {
    && OthersKept(a, b) && DrainedUpTo(b, i)
    && (Obeys(proc, fate) ==> Fin(a, fate) == Fin(b, fate))
    && (Follows(proc, fate) ==> RunEnd(a, limit, fate, 0) == RunEnd(b, limit, fate, 0))
  }

  lemma SoFarStart(st: Table, limit: nat, proc: Process, fate: Fate)
    ensures StagesSoFar(st, st, 0, limit, proc, fate)
  {
  }

  lemma SoFarStep(a: Table, b: Table, c: Table, i: nat, limit: nat, proc: Process, fate: Fate, r: StageResult)
    requires i < 3 && StagesSoFar(a, b, i, limit, proc, fate) && StageOk(b, c, SourceOf(i), limit, proc, fate, r)
    ensures r.Drained? ==> StagesSoFar(a, c, i + 1, limit, proc, fate)
    ensures !r.Drained? ==> StagesOk(a, c, limit, proc, fate, r)
  {
    StageKeeps(b, c, i, limit, proc, fate, r);
  }

  lemma SoFarDone(a: Table, b: Table, limit: nat, proc: Process, fate: Fate)
    requires StagesSoFar(a, b, 3, limit, proc, fate)
    ensures StagesOk(a, b, limit, proc, fate, Drained)
  {
    AllDrained(b);
    RunEndSkips(b, limit, fate, 0, 3);
  }

  lemma SomebodyStays(st: Table, from: Status, limit: nat, proc: Process, r: StageResult)
    requires r.NoProgress? && Stuck(st, from, limit, proc, r)
    ensures !NeverStays(proc)
  {
    assert r.batch[0] in r.batch;
  }

  /** One stage of the chain. */
  method RunNext(p: Pipeline, c: Config, t: Attempt, i: nat, ghost fate: Fate) returns (r: StageResult)
    requires FairAttempt(t) && i < 3
    modifies p
    ensures StageOk(old(p.status), p.status, SourceOf(i), BatchSize(c), t.proc, fate, r)
    ensures CalmAttempt(t) ==> r.Drained?
    ensures r.Drained? ==>
              Announced(old(p.events), p.events, STAGES[i], |Queue(old(p.status), SourceOf(i))|, r)
  {
    r := p.RunStage(STAGES[i], c, t.proc, WorldOf(t, i), fate);
    if r.NoProgress? {
      SomebodyStays(p.status, SourceOf(i), BatchSize(c), t.proc, r);
    }
    if CalmAttempt(t) {
      NeverAborted(old(p.status), SourceOf(i), BatchSize(c), t.proc, WorkersFor(c, STAGES[i]));
    }
  }

  method RunStages(p: Pipeline, c: Config, t: Attempt, ghost fate: Fate) returns (r: StageResult)
    requires FairAttempt(t)
    modifies p
    ensures StagesOk(old(p.status), p.status, BatchSize(c), t.proc, fate, r)
    ensures CalmAttempt(t) ==> r.Drained?
    ensures r.Drained? ==> |p.events| == |old(p.events)| + 6 && StagesAnnounced(old(p.events), p.events)
  {
    ghost var limit := BatchSize(c);
    SoFarStart(p.status, limit, t.proc, fate);
    SaidNothing(p.events);
    for i := 0 to 3
      invariant StagesSoFar(old(p.status), p.status, i, limit, t.proc, fate)
      invariant SaidUpTo(old(p.events), p.events, i)
    {
      ghost var before, said := p.status, p.events;
      r := RunNext(p, c, t, i, fate);
      SoFarStep(old(p.status), before, p.status, i, limit, t.proc, fate, r);
      if !r.Drained? {
        return;
      }
      SaidOneMore(old(p.events), said, p.events, i, |Queue(before, SourceOf(i))|);
    }
    SoFarDone(old(p.status), p.status, limit, t.proc, fate);
    SaidAll(old(p.events), p.events);
    r := Drained;
  }

  /** What a run leaves behind, however it ended. */
  ghost predicate RunOk(a: Table, b: Table, limit: nat, proc: Process, fate: Fate, r: RunResult) {
    && OthersKept(a, b)
    && (r.Finished? || r.ClusterFailed? ==> NothingWorking(b))
    && (Obeys(proc, fate) ==> Fin(a, fate) == Fin(b, fate))
    && (Follows(proc, fate) ==> RunEnd(a, limit, fate, 0) == RunEnd(b, limit, fate, 0))
    && (Follows(proc, fate) && EndedByItself(r) ==> b == RunEnd(b, limit, fate, 0))
  }

  predicate EndedByItself(r: RunResult) {
    r.Finished? || r.ClusterFailed? || (r.StageFailed? && r.result.NoProgress?)
  }

  /** The tables of a finished attempt: those of one rebuild over the files that are analyzed by then. */
  ghost predicate ClusteredBy(rows: seq<ClusterStore.Row>, members: set<(int, int)>, st: Table, t: Attempt) {
    ClusterStage.Clustered(rows, members, st, t.clustering) && Rebuild.Navigable(rows)
  }

  /** The events of three drained stages and of the clustering that came to the given end. */
  ghost predicate WholeRun(a: seq<Progress>, b: seq<Progress>, last: Phase) {
    |b| == |a| + 8 && StagesAnnounced(a, b) && Bracket(b, |a| + 6, "cluster", last)
  }

  method RunStagesAndCluster(p: Pipeline, table: ClusterStore.ClustersTable, c: Config, t: Attempt, ghost fate: Fate)
    returns (r: RunResult)
    requires FairAttempt(t)
    modifies p, table
    ensures RunOk(old(p.status), p.status, BatchSize(c), t.proc, fate, r)
    ensures r.Finished? ==> ClusteredBy(table.rows, table.members, p.status, t)
    ensures !r.Finished? ==> table.rows == old(table.rows) && table.members == old(table.members)
    ensures !r.NotStarted? && (CalmAttempt(t) ==> r.Finished?)
    ensures r.Finished? ==> WholeRun(old(p.events), p.events, Ended)
    ensures r.ClusterFailed? ==> WholeRun(old(p.events), p.events, Aborted)
  {
    var result := RunStages(p, c, t, fate);
    if !result.Drained? {
      return StageFailed(result);
    }
    p.events := p.events + [Progress("cluster", 0, 0, 0, Starting)];
    var ok := ClusterStage.Cluster(table, p.status, t.clustering);
    p.events := p.events + [Progress("cluster", 0, 0, 0, if ok then Ended else Aborted)];
    r := if ok then Finished else ClusterFailed;
  }

  method Resume(p: Pipeline, table: ClusterStore.ClustersTable, c: Config, t: Attempt, ghost fate: Fate)
    returns (r: RunResult)
    requires FairAttempt(t)
    modifies p, table
    ensures RunOk(old(p.status), p.status, BatchSize(c), t.proc, fate, r)
    ensures r.Finished? ==> ClusteredBy(table.rows, table.members, p.status, t)
    ensures !r.Finished? ==> table.rows == old(table.rows) && table.members == old(table.members)
    ensures r.NotStarted? <==> t.contextDone
    ensures r.NotStarted? ==> p.status == old(p.status) && p.events == old(p.events)
    ensures CalmAttempt(t) ==> r.Finished?
    ensures r.Finished? ==> WholeRun(old(p.events), p.events, Ended)
    ensures r.ClusterFailed? ==> WholeRun(old(p.events), p.events, Aborted)
  {
    if t.contextDone {
      return NotStarted;
    }
    r := RunStagesAndCluster(p, table, c, t, fate);
  }

  ghost predicate AllObey(attempts: seq<Attempt>, fate: Fate) {
    forall t | t in attempts :: Obeys(t.proc, fate)
  }

  ghost predicate AllFollow(attempts: seq<Attempt>, fate: Fate) {
    forall t | t in attempts :: Follows(t.proc, fate)
  }

  /** What a chain of attempts keeps; r is how the last one ended. */
  ghost predicate ChainOk(a: Table, b: Table, limit: nat, attempts: seq<Attempt>, fate: Fate, r: RunResult) {
    && OthersKept(a, b)
    && (r.Finished? ==> NothingWorking(b))
    && (AllObey(attempts, fate) ==> Fin(a, fate) == Fin(b, fate))
    && (AllFollow(attempts, fate) ==> RunEnd(a, limit, fate, 0) == RunEnd(b, limit, fate, 0))
    && (AllFollow(attempts, fate) && EndedByItself(r) ==> b == RunEnd(b, limit, fate, 0))
  }

  lemma ChainStep(a: Table, b: Table, c: Table, limit: nat, attempts: seq<Attempt>, t: Attempt, fate: Fate,
      q: RunResult, r: RunResult)
    requires t in attempts && ChainOk(a, b, limit, attempts, fate, q) && RunOk(b, c, limit, t.proc, fate, r)
    ensures ChainOk(a, c, limit, attempts, fate, r)
  {
  }

  /** Resuming after every stop, as often as attempts allow; r is how the last one ended. Process may behave
      differently in each attempt. If it only ever leaves files in place or does what their fate says, a
      finished pipeline leaves the table one uninterrupted run would have left. If it always does what their
      fate says, so does a pipeline that gives up. */
  method RunWithStops(p: Pipeline, table: ClusterStore.ClustersTable, c: Config, attempts: seq<Attempt>,
      ghost fate: Fate)
    returns (r: RunResult)
    requires forall t | t in attempts :: FairAttempt(t)
    modifies p, table
    ensures OthersKept(old(p.status), p.status)
    ensures r.Finished? ==> NothingWorking(p.status)
    ensures r.Finished? ==> exists t :: t in attempts && ClusteredBy(table.rows, table.members, p.status, t)
    ensures !r.Finished? ==> table.rows == old(table.rows) && table.members == old(table.members)
    ensures r.Finished? && AllObey(attempts, fate) ==> p.status == Fin(old(p.status), fate)
    ensures EndedByItself(r) && AllFollow(attempts, fate) ==> p.status == RunEnd(old(p.status), BatchSize(c), fate, 0)
    ensures (exists t :: t in attempts && CalmAttempt(t)) ==> r.Finished?
  {
    r := NotStarted;
    for i := 0 to |attempts|
      invariant !r.Finished? && ChainOk(old(p.status), p.status, BatchSize(c), attempts, fate, r)
      invariant table.rows == old(table.rows) && table.members == old(table.members)
      invariant forall k | 0 <= k < i :: !CalmAttempt(attempts[k])
    {
      ghost var before, last := p.status, r;
      assert attempts[i] in attempts;
      r := Resume(p, table, c, attempts[i], fate);
      ChainStep(old(p.status), before, p.status, BatchSize(c), attempts, attempts[i], fate, last, r);
      if r.Finished? {
        FinDone(p.status, fate);
        return;
      }
    }
  }
}
