/** runStage: drain one status in batches. */
module Stages {
  import opened Seqs
  import Pool

  datatype Status = Discovered | Metadata | Thumbed | Analyzed | Failed | Missing

  /** The files table as far as the pipeline reads it. */
  type Table = map<int, Status>

  /** stageStatusFrom: the status a stage consumes; None where the source returns "". */
  function StageStatusFrom(name: string): Option<Status> {
    if name == "metadata" then Some(Discovered)
    else if name == "thumb" then Some(Metadata)
    else if name == "analyze" then Some(Thumbed)
    else None
  }

  /** Where a stage moves a file it succeeds on. */
  function Next(s: Status): Status {
    match s
    case Discovered => Metadata
    case Metadata => Thumbed
    case Thumbed => Analyzed
    case _ => s
  }

  /** What Process does to the file's status, and what it returns. */
  datatype Act = Advance | Fail | Stay
  datatype Outcome = Outcome(act: Act, err: Option<Pool.Err>)

  /** Process of the stage that consumes a status, asked about a file in the given batch of one stage run. */
  type Process = (Status, int, nat) -> Outcome

  function Effect(from: Status, act: Act): Status {
    match act
    case Advance => Next(from)
    case Fail => Failed
    case Stay => from
  }

  predicate Working(s: Status) {
    s.Discovered? || s.Metadata? || s.Thumbed?
  }

  function Queue(st: Table, from: Status): (q: set<int>)
    ensures forall id :: id in q <==> id in st && st[id] == from
  {
    set id | id in st && st[id] == from
  }

  /** ListByStatus: the first ids of the queue in id order. */
  ghost function Batch(st: Table, from: Status, limit: nat): (r: seq<int>)
    ensures Ascending(r) && |r| <= limit
    ensures forall id :: id in r ==> id in Queue(st, from)
    ensures |r| < limit ==> ToSet(r) == Queue(st, from)
    ensures limit > 0 && Queue(st, from) != {} ==> r != []
  {
    var all := Listing(Queue(st, from));
    if |all| <= limit then all else
      var r := all[..limit];
      assert forall i | 0 <= i < limit :: r[i] == all[i] && all[i] in all;
      r
  }

  method ListByStatus(st: Table, from: Status, limit: nat) returns (ids: seq<int>)
    ensures ids == Batch(st, from, limit)
  {
    var all := SortedElements(Queue(st, from));
    ids := if |all| <= limit then all else all[..limit];
  }

  // ------------------------------------------------------ outside world

  datatype Phase = Starting | Ended | Aborted
  datatype Progress = Progress(stage: string, done: int, total: int, failed: int, phase: Phase)

  /** Why runStage returned. NoProgress carries the batch it gave up on. */
  datatype StageResult =
    | Drained
    | UnknownStage
    | Cancelled
    | Interrupted
    | QueryFailed
    | NoProgress(batch: seq<int>, round: nat)

  datatype Head = Go | ContextDone | CountFails

  /** The world during one stage run: whether the first count succeeds, what the context check and the two
      queries before batch k find, whether the count after it succeeds, and how the pool is scheduled. */
  datatype World = World(start: bool, head: nat -> Head, tail: nat -> bool, schedule: nat -> Pool.State -> Pool.Action)

  /** The schedule picks possible actions. */
  ghost predicate Fair(w: World) {
    forall k: nat, t: Pool.State | Pool.Inv(t) && !Pool.Final(t) && |t.workers| > 0 :: Pool.Enabled(t, w.schedule(k)(t))
  }

  /** The context was found done before batch k, or its cancellation reached the pool during it. */
  ghost predicate CancelledAt(w: World, k: nat) {
    w.head(k).ContextDone? || exists t: Pool.State :: w.schedule(k)(t).CancelParent?
  }

  predicate QueryFailsAt(w: World, k: nat) {
    w.head(k).CountFails? || !w.tail(k)
  }

  /** A cancelled stage met a cancellation, one whose query failed met a failing query. */
  ghost predicate Blames(w: World, r: StageResult) {
    && (r.Cancelled? ==> exists k: nat :: CancelledAt(w, k))
    && (r.QueryFailed? ==> exists k: nat :: QueryFailsAt(w, k))
  }

  /** What stands before the first batch ends the stage before it starts. */
  ghost predicate StopsAtOnce(w: World, a: Table, b: Table, r: StageResult) {
    && (w.head(0).ContextDone? ==> r.Cancelled? && b == a)
    && (w.head(0).CountFails? ==> r.QueryFailed? && b == a)
  }

  /** Nobody cancels and the database answers. */
  ghost predicate Calm(w: World) {
    && w.start
    && (forall k: nat :: w.head(k).Go? && w.tail(k))
    && forall k: nat, t: Pool.State :: !w.schedule(k)(t).CancelParent?
  }

  /** What a stage makes of a file in the end. */
  type Fate = (Status, int) -> Act

  /** Every call has the effect the file's fate says. */
  ghost predicate Follows(proc: Process, fate: Fate) {
    forall from, id, round: nat :: proc(from, id, round).act == fate(from, id)
  }

  /** Every call either leaves the file where it is, as one that was interrupted does, or has the effect its
      fate says. */
  ghost predicate Obeys(proc: Process, fate: Fate) {
    forall from, id, round: nat :: proc(from, id, round).act == Stay || proc(from, id, round).act == fate(from, id)
  }

  /** Every file leaves the status it is processed in. */
  ghost predicate NeverStays(proc: Process) {
    forall from, id, round: nat :: proc(from, id, round).act != Stay
  }

  /** Process answers alike in every batch. */
  ghost predicate Steady(proc: Process) {
    forall from, id, round: nat :: proc(from, id, round) == proc(from, id, 0)
  }

  predicate Uninterrupted(o: Outcome) {
    o.err.Some? ==> o.err.value.Plain?
  }

  /** No item error wraps a context error. */
  ghost predicate NeverInterrupted(proc: Process) {
    forall from, id, round: nat :: Uninterrupted(proc(from, id, round))
  }

  // ----------------------------------------------------------- one batch

  /** The table after Process ran on the files in done. */
  ghost function Applied(st: Table, from: Status, done: set<int>, proc: Process, round: nat): Table {
    map id | id in st :: if id in done then Effect(from, proc(from, id, round).act) else st[id]
  }

  lemma AppliedSnoc(st: Table, from: Status, done: set<int>, id: int, proc: Process, round: nat)
    requires id in st
    ensures Applied(st, from, done + {id}, proc, round)
            == Applied(st, from, done, proc, round)[id := Effect(from, proc(from, id, round).act)]
  {
  }

  ghost predicate AllFrom(st: Table, from: Status, done: set<int>) {
    forall id | id in done :: id in st && st[id] == from
  }

  /** Only files of the queue move, and only to the next status or to failed. */
  ghost predicate Moved(a: Table, b: Table, from: Status, proc: Process) {
    && a.Keys == b.Keys
    && forall id | id in a && a[id] != b[id] :: a[id] == from && MovedBy(id, b[id], from, proc)
  }

  ghost predicate MovedBy(id: int, to: Status, from: Status, proc: Process) {
    exists round: nat :: proc(from, id, round).act != Stay && to == Effect(from, proc(from, id, round).act)
  }

  lemma MovedTrans(a: Table, b: Table, c: Table, from: Status, proc: Process)
    requires Moved(a, b, from, proc) && Moved(b, c, from, proc) && Working(from)
    ensures Moved(a, c, from, proc)
  {
    forall id | id in a && a[id] != c[id]
      ensures a[id] == from && MovedBy(id, c[id], from, proc)
    {
      if a[id] != b[id] {
        assert MovedBy(id, b[id], from, proc);
        assert b[id] != from;
      }
    }
  }

  lemma AppliedMoves(st: Table, from: Status, done: set<int>, proc: Process, round: nat)
    requires AllFrom(st, from, done) && Working(from)
    ensures Moved(st, Applied(st, from, done, proc, round), from, proc)
    ensures Queue(Applied(st, from, done, proc, round), from)
            == Queue(st, from) - set id | id in done && proc(from, id, round).act != Stay
  {
    var t := Applied(st, from, done, proc, round);
    forall id | id in st && st[id] != t[id]
      ensures st[id] == from && MovedBy(id, t[id], from, proc)
    {
      assert proc(from, id, round).act != Stay;
    }
    forall id
      ensures id in Queue(t, from) <==> id in Queue(st, from) && !(id in done && proc(from, id, round).act != Stay)
    {
      if id in done {
        assert t[id] == Effect(from, proc(from, id, round).act);
      }
    }
  }

  /** The files of a batch the pool handed out. */
  function Handed(ids: seq<int>, s: Pool.State): set<int> {
    if s.next <= |ids| then ToSet(ids[..s.next]) else {}
  }

  function Results(ids: seq<int>, from: Status, proc: Process, round: nat): (r: seq<Option<Pool.Err>>)
    ensures |r| == |ids| && forall i | 0 <= i < |ids| :: r[i] == proc(from, ids[i], round).err
  {
    seq(|ids|, i requires 0 <= i < |ids| => proc(from, ids[i], round).err)
  }

  ghost function Movers(done: set<int>, from: Status, proc: Process, round: nat): set<int> {
    set id | id in done && proc(from, id, round).act != Stay
  }

  /** How far the queue shrinks over a batch. */
  lemma QueueShrinks(st: Table, from: Status, done: set<int>, proc: Process, round: nat)
    requires AllFrom(st, from, done) && Working(from)
    ensures |Queue(Applied(st, from, done, proc, round), from)| == |Queue(st, from)| - |Movers(done, from, proc, round)|
    ensures NeverStays(proc) ==> Movers(done, from, proc, round) == done
  {
    AppliedMoves(st, from, done, proc, round);
    forall id | id in Movers(done, from, proc, round)
      ensures id in Queue(st, from)
    {
      assert id in done;
    }
    if NeverStays(proc) {
      forall id | id in done
        ensures id in Movers(done, from, proc, round)
      {
        assert proc(from, id, round).act != Stay;
      }
    }
  }

  /** A whole batch of which nobody moved is the next batch again. */
  lemma BatchStuck(st: Table, from: Status, limit: nat, proc: Process, round: nat)
    requires Working(from)
    requires Movers(ToSet(Batch(st, from, limit)), from, proc, round) == {}
    ensures Applied(st, from, ToSet(Batch(st, from, limit)), proc, round) == st
    ensures forall id | id in Batch(st, from, limit) :: proc(from, id, round).act == Stay
  {
    forall id | id in Batch(st, from, limit)
      ensures proc(from, id, round).act == Stay
    {
      assert id !in Movers(ToSet(Batch(st, from, limit)), from, proc, round);
    }
  }

  /** A pool that was not cut short handed out the whole batch. */
  lemma BatchDone(ids: seq<int>, s: Pool.State)
    requires NoDup(ids) && |s.results| == |ids| && Pool.Accounted(s)
    ensures Handed(ids, s) <= ToSet(ids) && |Handed(ids, s)| == s.okCount + s.failCount
    ensures Pool.Explained(s) && !Pool.Result(s).Context? ==> Handed(ids, s) == ToSet(ids)
  {
    SetSize(ids[..s.next]);
    assert ids[..|ids|] == ids;
  }

  /** The files among ids on which Process returns an error. */
  ghost function Erring(ids: set<int>, from: Status, proc: Process, round: nat): set<int> {
    set id | id in ids && proc(from, id, round).err.Some?
  }

  lemma {:induction false} ImageSize(ids: seq<int>, ps: set<nat>)
    requires NoDup(ids) && forall p | p in ps :: p < |ids|
    ensures |set p | p in ps && p < |ids| :: ids[p]| == |ps|
    decreases ps
  {
    var image := set p | p in ps && p < |ids| :: ids[p];
    if ps == {} {
      assert image == {};
    } else {
      var q :| q in ps;
      ImageSize(ids, ps - {q});
      assert image == (set p | p in ps - {q} && p < |ids| :: ids[p]) + {ids[q]};
    }
  }

  /** The failure counter of the pool counts the files handed out on which Process returned an error. */
  lemma FailuresCounted(ids: seq<int>, from: Status, proc: Process, round: nat, s: Pool.State)
    requires NoDup(ids) && s.results == Results(ids, from, proc, round) && Pool.Accounted(s)
    ensures s.failCount == |Erring(Handed(ids, s), from, proc, round)|
  {
    ImageSize(ids, s.bad.Keys);
    var image := set p | p in s.bad.Keys && p < |ids| :: ids[p];
    forall id
      ensures id in image <==> id in Erring(Handed(ids, s), from, proc, round)
    {
      if id in image {
        var p: nat :| p in s.bad.Keys && ids[p] == id;
        assert p < s.next && ids[..s.next][p] == id;
      }
      if id in Erring(Handed(ids, s), from, proc, round) {
        var p: nat :| p < |ids[..s.next]| && ids[..s.next][p] == id;
        assert p in s.good || p in s.bad;
      }
    }
    assert image == Erring(Handed(ids, s), from, proc, round);
  }

  /** A whole batch that leaves the queue takes its failing files along. */
  lemma ErringLeaves(a: Table, from: Status, done: set<int>, proc: Process, round: nat)
    requires AllFrom(a, from, done) && Working(from) && NeverStays(proc) && Steady(proc)
    ensures var b := Applied(a, from, done, proc, round);
            |Erring(done, from, proc, round)| + |Erring(Queue(b, from), from, proc, 0)|
            == |Erring(Queue(a, from), from, proc, 0)|
  {
    var b := Applied(a, from, done, proc, round);
    AppliedMoves(a, from, done, proc, round);
    var gone, left := Erring(done, from, proc, round), Erring(Queue(b, from), from, proc, 0);
    forall id
      ensures id in gone + left <==> id in Erring(Queue(a, from), from, proc, 0)
      ensures id !in gone || id !in left
    {
      assert proc(from, id, round) == proc(from, id, 0);
      assert proc(from, id, round).act != Stay;
    }
    assert gone + left == Erring(Queue(a, from), from, proc, 0) && gone !! left;
  }

  /** Between two tables of a stage run every file that left the queue was counted once, as failed exactly when
      Process returned an error for it. */
  ghost predicate Tallied(a: Table, b: Table, from: Status, proc: Process, ok: int, fail: int) {
    NeverStays(proc) ==>
      && ok + fail + |Queue(b, from)| == |Queue(a, from)|
      && (Steady(proc) ==> fail + |Erring(Queue(b, from), from, proc, 0)| == |Erring(Queue(a, from), from, proc, 0)|)
  }

  /** The counters of a batch that was handed out completely. */
  ghost predicate Counted(ids: seq<int>, from: Status, proc: Process, round: nat, ok: int, fail: int) {
    ok + fail == |ids| && fail == |Erring(ToSet(ids), from, proc, round)|
  }

  /** What one turn of the loop does; None is another turn. */
  ghost predicate RoundOk(a: Table, b: Table, from: Status, limit: nat, proc: Process, round: nat,
      r: Option<StageResult>, ok: int, fail: int) {
    && Moved(a, b, from, proc) && OnlyBatch(a, b, from, limit)
    && (r.None? ==> |Queue(b, from)| < |Queue(a, from)|)
    && Tallied(a, b, from, proc, ok, fail)
    && (r.None? ==> Counted(Batch(a, from, limit), from, proc, round, ok, fail))
    && (r == Some(Drained) ==> b == a && Queue(b, from) == {} && ok == fail == 0)
    && (r.Some? ==> !r.value.UnknownStage?)
    && (r.Some? && r.value.NoProgress? ==> Stuck(b, from, limit, proc, r.value))
  }

  /** Only files of the head of the queue move. */
  ghost predicate OnlyBatch(a: Table, b: Table, from: Status, limit: nat) {
    forall id | id in a && id in b && a[id] != b[id] :: id in Batch(a, from, limit)
  }

  /** The batch given up on is a non-empty head of the queue none of whose files left it. */
  ghost predicate Stuck(st: Table, from: Status, limit: nat, proc: Process, r: StageResult)
    requires r.NoProgress?
  {
    && r.batch != [] && r.batch == Batch(st, from, limit)
    && forall id | id in r.batch :: proc(from, id, r.round).act == Stay
  }

  lemma HandedCounts(ids: seq<int>, from: Status, proc: Process, round: nat, s: Pool.State)
    requires NoDup(ids) && s.results == Results(ids, from, proc, round) && Pool.Accounted(s)
    ensures s.next <= |ids| && |Handed(ids, s)| == s.okCount + s.failCount
    ensures s.failCount == |Erring(Handed(ids, s), from, proc, round)|
    ensures s.next == |s.results| ==> Handed(ids, s) == ToSet(ids) && s.okCount + s.failCount == |ids|
  {
    BatchDone(ids, s);
    FailuresCounted(ids, from, proc, round, s);
    assert ids[..|ids|] == ids;
  }

  lemma TalliedBy(a: Table, from: Status, done: set<int>, proc: Process, round: nat, ok: int, fail: int)
    requires Working(from) && AllFrom(a, from, done)
    requires ok + fail == |done| && fail == |Erring(done, from, proc, round)|
    ensures Tallied(a, Applied(a, from, done, proc, round), from, proc, ok, fail)
  {
    QueueShrinks(a, from, done, proc, round);
    if NeverStays(proc) && Steady(proc) {
      ErringLeaves(a, from, done, proc, round);
    }
  }

  lemma HandedFromQueue(st: Table, from: Status, limit: nat, s: Pool.State)
    requires s.next <= |Batch(st, from, limit)|
    ensures AllFrom(st, from, Handed(Batch(st, from, limit), s))
  {
    forall id | id in Handed(Batch(st, from, limit), s)
      ensures id in st && st[id] == from
    {
      assert id in Batch(st, from, limit);
    }
  }

  /** The counters of one pool run over the head of the queue. */
  lemma BatchTallied(a: Table, b: Table, from: Status, limit: nat, proc: Process, round: nat, s: Pool.State)
    requires Working(from) && s.results == Results(Batch(a, from, limit), from, proc, round) && Pool.Accounted(s)
    requires b == Applied(a, from, Handed(Batch(a, from, limit), s), proc, round)
    ensures Tallied(a, b, from, proc, s.okCount, s.failCount)
    ensures s.next == |s.results| ==> Counted(Batch(a, from, limit), from, proc, round, s.okCount, s.failCount)
  {
    var ids := Batch(a, from, limit);
    HandedCounts(ids, from, proc, round, s);
    HandedFromQueue(a, from, limit, s);
    TalliedBy(a, from, Handed(ids, s), proc, round, s.okCount, s.failCount);
  }

  /** What one pool run over the head of the queue does to the queue. */
  lemma BatchFacts(a: Table, b: Table, from: Status, limit: nat, proc: Process, round: nat, s: Pool.State)
    requires Working(from) && Batch(a, from, limit) != []
    requires s.results == Results(Batch(a, from, limit), from, proc, round) && Pool.Accounted(s) && Pool.Explained(s)
    requires b == Applied(a, from, Handed(Batch(a, from, limit), s), proc, round)
    ensures Moved(a, b, from, proc) && OnlyBatch(a, b, from, limit)
    ensures Tallied(a, b, from, proc, s.okCount, s.failCount)
    ensures !Pool.Result(s).Context? ==>
              Counted(Batch(a, from, limit), from, proc, round, s.okCount, s.failCount)
    ensures !Pool.Result(s).Context? && |Queue(b, from)| >= |Queue(a, from)| ==>
              Stuck(b, from, limit, proc, NoProgress(Batch(a, from, limit), round))
  {
    var ids := Batch(a, from, limit);
    var done := Handed(ids, s);
    assert NoDup(ids);
    BatchDone(ids, s);
    assert AllFrom(a, from, done);
    AppliedMoves(a, from, done, proc, round);
    QueueShrinks(a, from, done, proc, round);
    BatchTallied(a, b, from, limit, proc, round, s);
    if !Pool.Result(s).Context? && |Queue(b, from)| >= |Queue(a, from)| {
      assert Movers(done, from, proc, round) == {};
      BatchStuck(a, from, limit, proc, round);
    }
  }

  /** What runStage makes of the pool's error and of the count after the batch. */
  function Verdict(err: Pool.FirstErr, counted: bool, stuck: bool, ids: seq<int>, round: nat): Option<StageResult> {
    match err
    case Context => Some(Cancelled)
    case Item(Interrupted(_)) => Some(StageResult.Interrupted)
    case _ => if !counted then Some(QueryFailed) else if stuck then Some(NoProgress(ids, round)) else None
  }

  lemma VerdictFacts(err: Pool.FirstErr, counted: bool, stuck: bool, ids: seq<int>, round: nat)
    ensures var r := Verdict(err, counted, stuck, ids, round);
            && (r.None? ==> !err.Context? && !stuck)
            && (r.Some? ==> !r.value.Drained? && !r.value.UnknownStage?)
            && (r.Some? && r.value.NoProgress? ==> !err.Context? && stuck && r.value == NoProgress(ids, round))
  {
  }

  lemma RoundFrom(a: Table, b: Table, from: Status, limit: nat, proc: Process, round: nat, err: Pool.FirstErr,
      counted: bool, ok: int, fail: int)
    requires Moved(a, b, from, proc) && OnlyBatch(a, b, from, limit)
    requires Tallied(a, b, from, proc, ok, fail)
    requires !err.Context? ==> Counted(Batch(a, from, limit), from, proc, round, ok, fail)
    requires !err.Context? && |Queue(b, from)| >= |Queue(a, from)| ==>
               Stuck(b, from, limit, proc, NoProgress(Batch(a, from, limit), round))
    ensures RoundOk(a, b, from, limit, proc, round,
                    Verdict(err, counted, |Queue(b, from)| >= |Queue(a, from)|, Batch(a, from, limit), round), ok, fail)
  {
    VerdictFacts(err, counted, |Queue(b, from)| >= |Queue(a, from)|, Batch(a, from, limit), round);
  }

  lemma VerdictOk(a: Table, b: Table, from: Status, limit: nat, proc: Process, round: nat, s: Pool.State, counted: bool)
    requires Working(from) && Batch(a, from, limit) != []
    requires s.results == Results(Batch(a, from, limit), from, proc, round) && Pool.Accounted(s) && Pool.Explained(s)
    requires b == Applied(a, from, Handed(Batch(a, from, limit), s), proc, round)
    ensures var r := Verdict(Pool.Result(s), counted, |Queue(b, from)| >= |Queue(a, from)|, Batch(a, from, limit),
              round);
            RoundOk(a, b, from, limit, proc, round, r, s.okCount, s.failCount)
  {
    BatchFacts(a, b, from, limit, proc, round, s);
    RoundFrom(a, b, from, limit, proc, round, Pool.Result(s), counted, s.okCount, s.failCount);
  }

  /** The pool's context error is a cancellation that reached it. */
  lemma VerdictBlames(w: World, round: nat, s: Pool.State, stuck: bool, ids: seq<int>)
    requires Pool.Explained(s)
    requires (forall t: Pool.State :: !w.schedule(round)(t).CancelParent?) ==> !s.parentCancelled
    ensures var r := Verdict(Pool.Result(s), w.tail(round), stuck, ids, round);
            && (r == Some(Cancelled) ==> CancelledAt(w, round))
            && (r == Some(QueryFailed) ==> QueryFailsAt(w, round))
  {
  }

  // ------------------------------------------------- files that interrupt

  /** Position p of a batch fails with an error that can become the pool's. */
  predicate Contender(ids: seq<int>, from: Status, proc: Process, round: nat, workers: int, p: nat) {
    Pool.Contends(Results(ids, from, proc, round), Pool.PoolSize(workers), p)
  }

  /** Some contender's error wraps a context error. */
  ghost predicate MayAbort(ids: seq<int>, from: Status, proc: Process, round: nat, workers: int) {
    exists p: nat :: Contender(ids, from, proc, round, workers, p) && !Uninterrupted(proc(from, ids[p], round))
  }

  /** There are contenders, and the error of each wraps a context error. */
  ghost predicate MustAbort(ids: seq<int>, from: Status, proc: Process, round: nat, workers: int) {
    && MayAbort(ids, from, proc, round, workers)
    && forall p: nat | Contender(ids, from, proc, round, workers, p) :: !Uninterrupted(proc(from, ids[p], round))
  }

  /** The pool's error makes the stage return. */
  predicate Aborts(err: Pool.FirstErr) {
    err.Context? || (err.Item? && err.err.Interrupted?)
  }

  /** The batch of a later table, in the given round, has an interrupted contender. */
  ghost predicate AbortedAt(a: Table, st: Table, from: Status, limit: nat, proc: Process, round: nat, workers: int) {
    Moved(a, st, from, proc) && MayAbort(Batch(st, from, limit), from, proc, round, workers)
  }

  ghost predicate AbortedIn(a: Table, from: Status, limit: nat, proc: Process, workers: int) {
    exists st, round: nat :: AbortedAt(a, st, from, limit, proc, round, workers)
  }

  lemma NeverAborted(a: Table, from: Status, limit: nat, proc: Process, workers: int)
    requires NeverInterrupted(proc)
    ensures !AbortedIn(a, from, limit, proc, workers)
  {
    forall st, round: nat
      ensures !AbortedAt(a, st, from, limit, proc, round, workers)
    {
      NeverAborts(Batch(st, from, limit), from, proc, round, workers);
    }
  }

  /** What the pool's error says about the batch it worked on. */
  lemma AbortKnown(s: Pool.State, proc: Process, from: Status, ids: seq<int>, round: nat, workers: int)
    requires s.results == Results(ids, from, proc, round) && |s.workers| == Pool.PoolSize(workers)
    requires Pool.Accounted(s) && Pool.Explained(s)
    ensures Pool.Result(s).Item? && Aborts(Pool.Result(s)) ==> MayAbort(ids, from, proc, round, workers)
    ensures !s.parentCancelled ==> !Pool.Result(s).Context?
    ensures !s.parentCancelled && MustAbort(ids, from, proc, round, workers) ==> Aborts(Pool.Result(s))
  {
    if Pool.Result(s).Item? {
      var p: nat :| Pool.Contends(s.results, |s.workers|, p) && p in s.bad && s.bad[p] == Pool.Result(s).err;
      assert Contender(ids, from, proc, round, workers, p);
    }
    if !s.parentCancelled && MustAbort(ids, from, proc, round, workers) {
      var p: nat :| Contender(ids, from, proc, round, workers, p);
      assert p in s.good || p in s.bad;
      assert s.bad != map[];
    }
  }

  /** All contenders of the first batch are interrupted. */
  ghost predicate AbortsFirst(a: Table, from: Status, limit: nat, proc: Process, workers: int) {
    MustAbort(Batch(a, from, limit), from, proc, 0, workers)
  }

  lemma AskedUninterrupted(proc: Process, from: Status, id: int, round: nat)
    ensures NeverInterrupted(proc) ==> Uninterrupted(proc(from, id, round))
  {
  }

  lemma NeverAborts(ids: seq<int>, from: Status, proc: Process, round: nat, workers: int)
    requires NeverInterrupted(proc)
    ensures !MayAbort(ids, from, proc, round, workers)
  {
    forall p: nat | p < |ids|
      ensures Uninterrupted(proc(from, ids[p], round))
    {
      AskedUninterrupted(proc, from, ids[p], round);
    }
  }

  // ------------------------------------------------------ files that block

  /** The files of the queue ahead of x that stay in it. */
  ghost function Blockers(st: Table, from: Status, fate: Fate, x: int): set<int> {
    set y | y in Queue(st, from) && y < x && fate(from, y) == Stay
  }

  /** Whoever moved had fewer than a batch of staying files ahead. */
  ghost predicate Unblocked(a: Table, b: Table, from: Status, limit: nat, fate: Fate) {
    forall x | x in a && x in b && a[x] != b[x] :: |Blockers(a, from, fate, x)| < limit
  }

  lemma BelowInAscending(all: seq<int>, i: nat)
    requires Ascending(all) && i < |all|
    ensures forall y :: y in all && y < all[i] <==> y in all[..i]
  {
    forall y
      ensures y in all && y < all[i] <==> y in all[..i]
    {
      if y in all && y < all[i] {
        var k :| 0 <= k < |all| && all[k] == y;
        assert k < i;
      }
    }
  }

  lemma AheadSize(q: set<int>, i: nat)
    requires i < |Listing(q)|
    ensures |set y | y in q && y < Listing(q)[i]| == i
  {
    var all := Listing(q);
    BelowInAscending(all, i);
    assert (set y | y in q && y < all[i]) == ToSet(all[..i]);
    SetSize(all[..i]);
  }

  /** Fewer than a batch of the queue is ahead of a file of the batch. */
  lemma AheadInBatch(st: Table, from: Status, limit: nat, x: int)
    requires x in Batch(st, from, limit)
    ensures |set y | y in Queue(st, from) && y < x| < limit
  {
    var batch := Batch(st, from, limit);
    var i :| 0 <= i < |batch| && batch[i] == x;
    assert Listing(Queue(st, from))[i] == x;
    AheadSize(Queue(st, from), i);
  }

  /** Files that stay are the same before and after any run of the stage. */
  lemma StayersStay(a: Table, b: Table, from: Status, proc: Process, fate: Fate, x: int)
    requires Moved(a, b, from, proc) && Follows(proc, fate)
    ensures Blockers(a, from, fate, x) == Blockers(b, from, fate, x)
  {
    forall y
      ensures y in Blockers(a, from, fate, x) <==> y in Blockers(b, from, fate, x)
    {
      if y in a && a[y] != b[y] {
        StayerMoves(a, b, from, proc, fate, y);
      }
    }
  }

  lemma StayerMoves(a: Table, b: Table, from: Status, proc: Process, fate: Fate, y: int)
    requires Moved(a, b, from, proc) && Follows(proc, fate) && y in a && a[y] != b[y]
    ensures a[y] == from && fate(from, y) != Stay && b[y] == Effect(from, fate(from, y))
  {
    var round: nat :| proc(from, y, round).act != Stay && b[y] == Effect(from, proc(from, y, round).act);
    assert proc(from, y, round).act == fate(from, y);
  }

  /** One more turn: its batch is taken from a queue with the same staying files. */
  lemma UnblockedStep(a: Table, b: Table, c: Table, from: Status, limit: nat, proc: Process, fate: Fate)
    requires Working(from) && Moved(a, b, from, proc) && Moved(b, c, from, proc) && Follows(proc, fate)
    requires Unblocked(a, b, from, limit, fate) && OnlyBatch(b, c, from, limit)
    ensures Unblocked(a, c, from, limit, fate)
  {
    forall x | x in a && x in c && a[x] != c[x]
      ensures |Blockers(a, from, fate, x)| < limit
    {
      if a[x] == b[x] {
        AheadInBatch(b, from, limit, x);
        StayersStay(a, b, from, proc, fate, x);
        SubsetSize(Blockers(b, from, fate, x), set y | y in Queue(b, from) && y < x);
      }
    }
  }

  /** What a whole stage run does: files only move out of its queue; nil means the queue is empty; a
      no-progress error means the last batch moved nothing; and where the files have a fate, nobody with a
      batch of staying files ahead moved. */
  ghost predicate StageOk(a: Table, b: Table, from: Status, limit: nat, proc: Process, fate: Fate, r: StageResult) {
    && Moved(a, b, from, proc)
    && (r.Drained? ==> Queue(b, from) == {})
    && (r.NoProgress? ==> Stuck(b, from, limit, proc, r))
    && (Follows(proc, fate) ==> Unblocked(a, b, from, limit, fate))
  }

  /** What every turn keeps: files only move out of the queue, each is counted, and nobody jumps a batch of
      staying files. */
  ghost predicate Kept(a: Table, b: Table, from: Status, limit: nat, proc: Process, fate: Fate, ok: int, fail: int) {
    && Moved(a, b, from, proc)
    && (Follows(proc, fate) ==> Unblocked(a, b, from, limit, fate))
    && Tallied(a, b, from, proc, ok, fail)
  }

  lemma KeptStart(st: Table, from: Status, limit: nat, proc: Process, fate: Fate)
    ensures Kept(st, st, from, limit, proc, fate, 0, 0)
  {
  }

  lemma TalliedTrans(a: Table, b: Table, c: Table, from: Status, proc: Process, ok: int, fail: int, more: int,
      worse: int)
    requires Tallied(a, b, from, proc, ok, fail) && Tallied(b, c, from, proc, more, worse)
    ensures Tallied(a, c, from, proc, ok + more, fail + worse)
  {
  }

  lemma KeptStep(a: Table, b: Table, c: Table, from: Status, limit: nat, proc: Process, fate: Fate, ok: int,
      fail: int, more: int, worse: int)
    requires Working(from) && Kept(a, b, from, limit, proc, fate, ok, fail)
    requires Moved(b, c, from, proc) && OnlyBatch(b, c, from, limit) && Tallied(b, c, from, proc, more, worse)
    ensures Kept(a, c, from, limit, proc, fate, ok + more, fail + worse)
  {
    if Follows(proc, fate) {
      UnblockedStep(a, b, c, from, limit, proc, fate);
    }
    MovedTrans(a, b, c, from, proc);
    TalliedTrans(a, b, c, from, proc, ok, fail, more, worse);
  }

  /** What the result of the loop says. */
  ghost predicate EndOk(a: Table, b: Table, from: Status, limit: nat, workers: int, proc: Process, w: World,
      r: StageResult) {
    && !r.UnknownStage? && Blames(w, r)
    && (r.Drained? ==> Queue(b, from) == {})
    && (r.NoProgress? ==> Stuck(b, from, limit, proc, r))
    && (r.Interrupted? ==> AbortedIn(a, from, limit, proc, workers))
    && (Calm(w) ==> r.Drained? || r.NoProgress? || r.Interrupted?)
  }

  lemma TurnEnds(a: Table, b: Table, c: Table, from: Status, limit: nat, workers: int, proc: Process, w: World,
      round: nat, r: StageResult, ok: int, fail: int)
    requires Moved(a, b, from, proc) && RoundOk(b, c, from, limit, proc, round, Some(r), ok, fail)
    requires r.Interrupted? ==> MayAbort(Batch(b, from, limit), from, proc, round, workers)
    requires r.Cancelled? ==> CancelledAt(w, round)
    requires r.QueryFailed? ==> QueryFailsAt(w, round)
    requires Calm(w) ==> r.Drained? || r.NoProgress? || r.Interrupted?
    ensures EndOk(a, c, from, limit, workers, proc, w, r)
  {
    if r.Interrupted? {
      assert AbortedAt(a, b, from, limit, proc, round, workers);
    }
  }

  /** What the first turn decides. */
  ghost predicate FirstOk(a: Table, b: Table, from: Status, limit: nat, workers: int, proc: Process, w: World,
      r: Option<StageResult>) {
    && (Calm(w) && AbortsFirst(a, from, limit, proc, workers) ==> r == Some(Interrupted))
    && (!w.head(0).Go? ==> r.Some? && StopsAtOnce(w, a, b, r.value))
  }

  /** What a stage run reports: the size of its queue at the start and, unless a query failed, how it ended. */
  ghost predicate Announced(a: seq<Progress>, b: seq<Progress>, name: string, total: int, r: StageResult) {
    if r.QueryFailed? then b == a + [Progress(name, 0, total, 0, Starting)]
    else
      && |b| == |a| + 2 && b[..|a| + 1] == a + [Progress(name, 0, total, 0, Starting)]
      && b[|a| + 1].stage == name && b[|a| + 1].total == total
      && b[|a| + 1].phase == if r.Drained? then Ended else Aborted
  }

  class Pipeline {
    var status: Table
    var events: seq<Progress>

    /** The writes of the Process calls on a set of files, in whatever order they came. */
    method Write(from: Status, ids: seq<int>, proc: Process, round: nat)
      requires AllFrom(status, from, ToSet(ids))
      modifies this`status
      ensures status == Applied(old(status), from, ToSet(ids), proc, round)
    {
      for i := 0 to |ids|
        invariant status == Applied(old(status), from, ToSet(ids[..i]), proc, round)
      {
        assert ids[i] in ToSet(ids);
        assert ToSet(ids[..i + 1]) == ToSet(ids[..i]) + {ids[i]};
        AppliedSnoc(old(status), from, ToSet(ids[..i]), ids[i], proc, round);
        status := status[ids[i] := Effect(from, proc(from, ids[i], round).act)];
      }
      assert ids[..|ids|] == ids;
    }

    /** One pool run over a batch: fn ran on the files handed out, and each Process touched its own row. */
    method RunBatch(from: Status, ids: seq<int>, workers: int, proc: Process, round: nat,
        schedule: Pool.State -> Pool.Action)
      returns (s: Pool.State)
      requires AllFrom(status, from, ToSet(ids))
      requires forall t: Pool.State | Pool.Inv(t) && !Pool.Final(t) && |t.workers| > 0 :: Pool.Enabled(t, schedule(t))
      modifies this`status
      ensures s.results == Results(ids, from, proc, round) && |s.workers| == Pool.PoolSize(workers)
      ensures Pool.Accounted(s) && Pool.Explained(s)
      ensures (forall t: Pool.State :: !schedule(t).CancelParent?) ==> !s.parentCancelled
      ensures status == Applied(old(status), from, Handed(ids, s), proc, round)
    {
      var results := Results(ids, from, proc, round);
      var _, _, _, final := Pool.RunPool(ids, workers, results, schedule);
      s := final;
      Write(from, ids[..s.next], proc, round);
    }

    /** The second half of a turn: process a non-empty batch and check that the queue shrank. */
    method Work(from: Status, limit: nat, ids: seq<int>, workers: int, proc: Process, round: nat, w: World)
      returns (r: Option<StageResult>, ok: int, fail: int)
      requires Working(from) && Fair(w) && ids == Batch(status, from, limit) && ids != []
      modifies this`status
      ensures RoundOk(old(status), status, from, limit, proc, round, r, ok, fail)
      ensures r == Some(Interrupted) ==> MayAbort(ids, from, proc, round, workers)
      ensures Calm(w) && MustAbort(ids, from, proc, round, workers) ==> r == Some(Interrupted)
      ensures Calm(w) ==> r.None? || r.value.NoProgress? || r.value.Interrupted?
      ensures r == Some(Cancelled) ==> CancelledAt(w, round)
      ensures r == Some(QueryFailed) ==> QueryFailsAt(w, round)
    {
      var before := |Queue(status, from)|;
      var s := RunBatch(from, ids, workers, proc, round, w.schedule(round));
      ok, fail := s.okCount, s.failCount;
      r := Verdict(Pool.Result(s), w.tail(round), |Queue(status, from)| >= before, ids, round);
      VerdictOk(old(status), status, from, limit, proc, round, s, w.tail(round));
      VerdictBlames(w, round, s, |Queue(status, from)| >= before, ids);
      AbortKnown(s, proc, from, ids, round, workers);
    }

    /** One turn of runStage's loop. */
    method Round(from: Status, limit: nat, workers: int, proc: Process, round: nat, w: World)
      returns (r: Option<StageResult>, ok: int, fail: int)
      requires Working(from) && Fair(w) && limit > 0
      modifies this`status
      ensures RoundOk(old(status), status, from, limit, proc, round, r, ok, fail)
      ensures r == Some(Interrupted) ==> MayAbort(Batch(old(status), from, limit), from, proc, round, workers)
      ensures Calm(w) && MustAbort(Batch(old(status), from, limit), from, proc, round, workers) ==>
                r == Some(Interrupted)
      ensures Calm(w) ==> r.None? || r.value.Drained? || r.value.NoProgress? || r.value.Interrupted?
      ensures r == Some(Cancelled) ==> CancelledAt(w, round)
      ensures r == Some(QueryFailed) ==> QueryFailsAt(w, round)
      ensures w.head(round).ContextDone? ==> r == Some(Cancelled) && status == old(status)
      ensures w.head(round).CountFails? ==> r == Some(QueryFailed) && status == old(status)
    {
      match w.head(round)
      case ContextDone => return Some(Cancelled), 0, 0;
      case CountFails => return Some(QueryFailed), 0, 0;
      case Go =>
        var ids := ListByStatus(status, from, limit);
        if ids == [] {
          return Some(Drained), 0, 0;
        }
        r, ok, fail := Work(from, limit, ids, workers, proc, round, w);
    }

    /** The loop of runStage: it ends because every turn but the last shrinks the queue. */
    method Drain(from: Status, limit: nat, workers: int, proc: Process, w: World, ghost fate: Fate)
      returns (r: StageResult, done: int, failed: int)
      requires Working(from) && Fair(w) && limit > 0
      modifies this`status
      ensures !r.UnknownStage? && StageOk(old(status), status, from, limit, proc, fate, r)
      ensures Calm(w) ==> r.Drained? || r.NoProgress? || r.Interrupted?
      ensures r.Interrupted? ==> AbortedIn(old(status), from, limit, proc, workers)
      ensures Calm(w) && AbortsFirst(old(status), from, limit, proc, workers) ==> r.Interrupted?
      ensures Tallied(old(status), status, from, proc, done, failed)
      ensures Blames(w, r) && StopsAtOnce(w, old(status), status, r)
    {
      var round := 0;
      done, failed := 0, 0;
      var turn: Option<StageResult> := None;
      KeptStart(status, from, limit, proc, fate);
      while turn.None?
        invariant Kept(old(status), status, from, limit, proc, fate, done, failed)
        invariant turn.Some? ==> EndOk(old(status), status, from, limit, workers, proc, w, turn.value)
        invariant round == 0 ==> turn.None? && status == old(status)
        invariant round > 0 ==> FirstOk(old(status), status, from, limit, workers, proc, w, turn)
        decreases turn.None?, |Queue(status, from)|
      {
        ghost var before := status;
        var ok, fail;
        turn, ok, fail := Round(from, limit, workers, proc, round, w);
        KeptStep(old(status), before, status, from, limit, proc, fate, done, failed, ok, fail);
        if turn.Some? {
          TurnEnds(old(status), before, status, from, limit, workers, proc, w, round, turn.value, ok, fail);
        }
        done, failed, round := done + ok, failed + fail, round + 1;
      }
      r := turn.value;
    }

    method RunStage(name: string, c: Config, proc: Process, w: World, ghost fate: Fate) returns (r: StageResult)
      requires Fair(w)
      modifies this
      ensures r.UnknownStage? <==> StageStatusFrom(name).None?
      ensures r.UnknownStage? ==> status == old(status) && events == old(events)
      ensures StageStatusFrom(name).Some? ==>
                StageOk(old(status), status, StageStatusFrom(name).value, BatchSize(c), proc, fate, r)
      ensures StageStatusFrom(name).Some? && Calm(w) ==> r.Drained? || r.NoProgress? || r.Interrupted?
      ensures r.Interrupted? ==>
                AbortedIn(old(status), StageStatusFrom(name).value, BatchSize(c), proc, WorkersFor(c, name))
      ensures StageStatusFrom(name).Some? && Calm(w) ==>
                AbortsFirst(old(status), StageStatusFrom(name).value, BatchSize(c), proc, WorkersFor(c, name)) ==>
                  r.Interrupted?
      ensures StageStatusFrom(name).Some? && !w.start ==>
                r.QueryFailed? && events == old(events) && status == old(status)
      ensures StageStatusFrom(name).Some? && w.start ==> Blames(w, r) && StopsAtOnce(w, old(status), status, r)
      ensures StageStatusFrom(name).Some? && w.start ==>
                Announced(old(events), events, name, |Queue(old(status), StageStatusFrom(name).value)|, r)
      ensures StageStatusFrom(name).Some? && w.start && !r.QueryFailed? ==> var e := events[|events| - 1];
                Tallied(old(status), status, StageStatusFrom(name).value, proc, e.done, e.failed)
    {
      var source := StageStatusFrom(name);
      if source.None? {
        return UnknownStage;
      }
      if !w.start {
        return QueryFailed;
      }
      var total := |Queue(status, source.value)|;
      events := events + [Progress(name, 0, total, 0, Starting)];
      var done, failed;
      r, done, failed := Drain(source.value, BatchSize(c), WorkersFor(c, name), proc, w, fate);
      if r.Drained? {
        events := events + [Progress(name, done, total, failed, Ended)];
      } else if !r.QueryFailed? {
        events := events + [Progress(name, done, total, failed, Aborted)];
      }
    }
  }

  // -------------------------------------------------------- configuration

  /** Concurrency per stage name, the batch size override, and the CPU count. */
  datatype Config = Config(concurrency: map<string, int>, batchSize: int, cpus: int)

  const DEFAULT_BATCH_SIZE: nat := 100

  function WorkersFor(c: Config, stage: string): int {
    if stage in c.concurrency && c.concurrency[stage] > 0 then c.concurrency[stage] else c.cpus
  }

  function BatchSize(c: Config): (n: nat)
    ensures n > 0
  {
    if c.batchSize > 0 then c.batchSize else DEFAULT_BATCH_SIZE
  }

  /** Without a batch size of its own a stage takes up to a hundred files at a time. */
  lemma BatchLength(c: Config, st: Table, from: Status)
    ensures var n, limit := |Queue(st, from)|, if c.batchSize > 0 then c.batchSize else 100;
            |Batch(st, from, BatchSize(c))| == if n <= limit then n else limit
  {
    var q, all := Queue(st, from), Listing(Queue(st, from));
    SetSize(all);
    assert ToSet(all) == q;
    assert BatchSize(c) == if c.batchSize > 0 then c.batchSize else 100;
    if |all| > BatchSize(c) {
      assert Batch(st, from, BatchSize(c)) == all[..BatchSize(c)];
    }
  }

  /** A positive number for the stage decides how many workers its pool has, then the processors, and there is
      always one. */
  lemma StageWorkers(c: Config, name: string)
    ensures var own := name in c.concurrency && c.concurrency[name] > 0;
            && (own ==> Pool.PoolSize(WorkersFor(c, name)) == c.concurrency[name])
            && (!own && c.cpus >= 1 ==> Pool.PoolSize(WorkersFor(c, name)) == c.cpus)
            && (!own && c.cpus < 1 ==> Pool.PoolSize(WorkersFor(c, name)) == 1)
  {
  }

  /** The names a stage run knows, and the files each takes. */
  lemma StageNames(name: string)
    ensures StageStatusFrom(name).Some? <==> name in ["metadata", "thumb", "analyze"]
    ensures StageStatusFrom("metadata") == Some(Discovered) && Next(Discovered) == Metadata
    ensures StageStatusFrom("thumb") == Some(Metadata) && Next(Metadata) == Thumbed
    ensures StageStatusFrom("analyze") == Some(Thumbed) && Next(Thumbed) == Analyzed
  {
    assert "metadata" == ["metadata", "thumb", "analyze"][0];
    assert "thumb" == ["metadata", "thumb", "analyze"][1];
    assert "analyze" == ["metadata", "thumb", "analyze"][2];
  }
}
