/** RunPoolWithProgress: one producer and several workers over an unbuffered channel, as a step relation.
    A schedule is a sequence of actions; whatever is proved of every schedule holds of every interleaving
    and every cancellation point. */
module Pool {
  import opened Seqs

  /** An error fn returned; Interrupted is one that wraps a context error (a cancelled or timed-out tool). */
  datatype Err = Plain(msg: string) | Interrupted(msg: string)

  /** What the producer goroutine is doing. The channel is closed once it leaves Feeding. */
  datatype Producer = Feeding | Returning(aborted: bool) | Returned

  /** What one worker goroutine is doing: waiting on the channel, inside fn, about to record its first
      error, about to call onProgress, or gone. */
  datatype Worker = Idle | Running(pos: nat) | Storing(pos: nat, err: Err) | Reporting(pos: nat, good: bool) | Quit

  /** One invocation of fn. */
  datatype Call = Call(pos: nat, worker: nat)

  /** results[p] is what fn returns for position p, which it is asked at most once. next, okCount,
      failCount, firstItemErr and groupErr are the program's variables; the last four fields record what
      happened. */
  datatype State = State(
    results: seq<Option<Err>>, next: nat, producer: Producer, workers: seq<Worker>,
    parentCancelled: bool, groupErr: bool,
    okCount: int, failCount: int, firstItemErr: Option<Err>,
    called: seq<Call>, good: set<nat>, bad: map<nat, Err>, reported: multiset<(nat, bool)>)

  datatype Action =
    | CancelParent
    | Hand(w: nat)
    | Abort
    | Exhaust
    | ProducerReturn
    | Finish(w: nat)
    | Store(w: nat)
    | Report(w: nat)
    | Stop(w: nat)
    | Drain(w: nat)

  function Start(results: seq<Option<Err>>, workers: nat): State {
    State(results, 0, Feeding, seq(workers, i => Idle), false, false, 0, 0, None, [], {}, map[], multiset{})
  }

  /** gctx.Done: the parent was cancelled, or a goroutine of the group returned an error. */
  predicate GroupDone(s: State) {
    s.parentCancelled || s.groupErr
  }

  predicate Enabled(s: State, a: Action) {
    match a
    case CancelParent => !s.parentCancelled
    case Hand(w) => w < |s.workers| && s.workers[w].Idle? && s.producer.Feeding? && s.next < |s.results|
    case Abort => s.producer.Feeding? && s.next < |s.results| && GroupDone(s)
    case Exhaust => s.producer.Feeding? && s.next == |s.results|
    case ProducerReturn => s.producer.Returning?
    case Finish(w) => w < |s.workers| && s.workers[w].Running? && s.workers[w].pos < |s.results|
    case Store(w) => w < |s.workers| && s.workers[w].Storing?
    case Report(w) => w < |s.workers| && s.workers[w].Reporting?
    case Stop(w) => w < |s.workers| && s.workers[w].Idle? && GroupDone(s)
    case Drain(w) => w < |s.workers| && s.workers[w].Idle? && !s.producer.Feeding?
  }

  function Step(s: State, a: Action): State
    requires Enabled(s, a)
  {
    match a
    case CancelParent => s.(parentCancelled := true)
    case Hand(w) => s.(next := s.next + 1, called := s.called + [Call(s.next, w)],
        workers := s.workers[w := Running(s.next)])
    case Abort => s.(producer := Returning(true))
    case Exhaust => s.(producer := Returning(false))
    case ProducerReturn => s.(producer := Returned, groupErr := s.groupErr || s.producer.aborted)
    case Finish(w) =>
      var p := s.workers[w].pos;
      var err := s.results[p];
      if err.Some? then
        s.(failCount := s.failCount + 1, bad := s.bad[p := err.value], workers := s.workers[w := Storing(p, err.value)])
      else
        s.(okCount := s.okCount + 1, good := s.good + {p}, workers := s.workers[w := Reporting(p, true)])
    case Store(w) =>
      s.(firstItemErr := if s.firstItemErr.None? then Some(s.workers[w].err) else s.firstItemErr,
         workers := s.workers[w := Reporting(s.workers[w].pos, false)])
    case Report(w) =>
      s.(reported := s.reported + multiset{(s.workers[w].pos, s.workers[w].good)}, workers := s.workers[w := Idle])
    case Stop(w) => s.(groupErr := true, workers := s.workers[w := Quit])
    case Drain(w) => s.(workers := s.workers[w := Quit])
  }

  /** g.Wait returns. */
  predicate Final(s: State) {
    s.producer.Returned? && forall w | 0 <= w < |s.workers| :: s.workers[w].Quit?
  }

  ghost predicate Schedule(s: State, run: seq<Action>)
    decreases |run|
  {
    run == [] || (Enabled(s, run[0]) && Schedule(Step(s, run[0]), run[1..]))
  }

  ghost function Run(s: State, run: seq<Action>): State
    requires Schedule(s, run)
    decreases |run|
  {
    if run == [] then s else Run(Step(s, run[0]), run[1..])
  }

  // ------------------------------------------------------------- invariant

  predicate Holds(w: Worker, p: nat) {
    !w.Idle? && !w.Quit? && w.pos == p
  }

  /** The worker that was handed position p still has it. */
  predicate Held(s: State, p: nat) {
    p < |s.called| && s.called[p].worker < |s.workers| && Holds(s.workers[s.called[p].worker], p)
  }

  /** Position p has been through fn. */
  predicate Settled(s: State, p: nat) {
    p in s.good || p in s.bad
  }

  /** What a worker holds was handed to it, and the record agrees with where it is. */
  predicate WorkerOk(s: State, w: nat)
    requires w < |s.workers|
  {
    match s.workers[w]
    case Running(p) => Held(s, p) && s.called[p].worker == w && !Settled(s, p)
    case Storing(p, e) => Held(s, p) && s.called[p].worker == w && p in s.bad && s.bad[p] == e
    case Reporting(p, g) => Held(s, p) && s.called[p].worker == w && p in if g then s.good else s.bad.Keys
    case Quit => s.groupErr || !s.producer.Feeding?
    case Idle => true
  }

  /** A position is handed out or untouched; once settled it is good or bad as fn said; onProgress has run
      for it exactly once, with its own delta, as soon as its worker has let go. */
  predicate PositionOk(s: State, p: nat) {
    && (p < s.next ==> Settled(s, p) || Held(s, p))
    && (p >= s.next ==> !Settled(s, p))
    && (p in s.good ==> p < |s.results| && s.results[p].None?)
    && (p in s.bad ==> p < |s.results| && s.results[p] == Some(s.bad[p]))
    && s.reported[(p, true)] == (if p in s.good && !Held(s, p) then 1 else 0)
    && s.reported[(p, false)] == (if p in s.bad && !Held(s, p) then 1 else 0)
    && (s.firstItemErr.None? && p in s.bad ==> Held(s, p) && s.workers[s.called[p].worker].Storing?)
  }

  ghost predicate Workers(s: State) {
    forall w: nat | w < |s.workers| :: WorkerOk(s, w)
  }

  ghost predicate Positions(s: State) {
    forall p: nat :: PositionOk(s, p)
  }

  /** Positions are handed out in order. */
  ghost predicate InOrder(s: State) {
    && s.next == |s.called| <= |s.results|
    && forall i | 0 <= i < |s.called| :: s.called[i].pos == i && s.called[i].worker < |s.workers|
  }

  /** Counters match the record, the group error comes from the parent, only cancellation leaves ids behind. */
  ghost predicate Totals(s: State) {
    && s.okCount == |s.good| && s.failCount == |s.bad|
    && (s.groupErr ==> s.parentCancelled)
    && (s.producer == Returning(true) ==> s.parentCancelled)
    && (s.producer == Returning(false) ==> s.next == |s.results|)
    && (s.producer.Returned? && s.next < |s.results| ==> s.groupErr)
  }

  ghost predicate Inv(s: State) {
    InOrder(s) && Workers(s) && Positions(s) && Totals(s) && ErrorKnown(s)
  }

  lemma StartInv(results: seq<Option<Err>>, workers: nat)
    ensures Inv(Start(results, workers))
  {
  }

  /** The worker the action concerns, if any, is as recorded. */
  predicate ActorOk(s: State, a: Action)
    requires Enabled(s, a)
  {
    match a
    case CancelParent | Abort | Exhaust | ProducerReturn => true
    case _ => WorkerOk(s, a.w)
  }

  // One lemma per kind of action: what it does to a worker, and what it does to a position.

  lemma HandWorker(s: State, a: Action, w: nat)
    requires InOrder(s) && Enabled(s, a) && a.Hand? && w < |s.workers| && WorkerOk(s, w) && WorkerOk(s, a.w)
    requires PositionOk(s, s.next)
    ensures WorkerOk(Step(s, a), w)
  {
  }

  lemma HandPosition(s: State, a: Action, p: nat)
    requires InOrder(s) && Enabled(s, a) && a.Hand? && PositionOk(s, p) && WorkerOk(s, a.w)
    ensures PositionOk(Step(s, a), p)
  {
  }

  lemma FinishActor(s: State, a: Action)
    requires InOrder(s) && Enabled(s, a) && a.Finish? && WorkerOk(s, a.w)
    ensures WorkerOk(Step(s, a), a.w)
  {
  }

  lemma FinishBystander(s: State, a: Action, w: nat)
    requires InOrder(s) && Enabled(s, a) && a.Finish? && w < |s.workers| && w != a.w && WorkerOk(s, w)
    requires WorkerOk(s, a.w)
    ensures WorkerOk(Step(s, a), w)
  {
  }

  lemma FinishWorker(s: State, a: Action, w: nat)
    requires InOrder(s) && Enabled(s, a) && a.Finish? && w < |s.workers| && WorkerOk(s, w) && WorkerOk(s, a.w)
    ensures WorkerOk(Step(s, a), w)
  {
    if w == a.w {
      FinishActor(s, a);
    } else {
      FinishBystander(s, a, w);
    }
  }

  lemma FinishOwn(s: State, a: Action, p: nat)
    requires InOrder(s) && Enabled(s, a) && a.Finish? && p == s.workers[a.w].pos && PositionOk(s, p) && WorkerOk(s, a.w)
    ensures PositionOk(Step(s, a), p)
  {
  }

  lemma FinishOther(s: State, a: Action, p: nat)
    requires InOrder(s) && Enabled(s, a) && a.Finish? && p != s.workers[a.w].pos && PositionOk(s, p) && WorkerOk(s, a.w)
    ensures PositionOk(Step(s, a), p)
  {
    assert Held(Step(s, a), p) == Held(s, p);
  }

  lemma FinishPosition(s: State, a: Action, p: nat)
    requires InOrder(s) && Enabled(s, a) && a.Finish? && PositionOk(s, p) && WorkerOk(s, a.w)
    ensures PositionOk(Step(s, a), p)
  {
    if p == s.workers[a.w].pos {
      FinishOwn(s, a, p);
    } else {
      FinishOther(s, a, p);
    }
  }

  lemma StoreWorker(s: State, a: Action, w: nat)
    requires InOrder(s) && Enabled(s, a) && a.Store? && w < |s.workers| && WorkerOk(s, w) && WorkerOk(s, a.w)
    ensures WorkerOk(Step(s, a), w)
  {
  }

  lemma StorePosition(s: State, a: Action, p: nat)
    requires InOrder(s) && Enabled(s, a) && a.Store? && PositionOk(s, p) && WorkerOk(s, a.w)
    ensures PositionOk(Step(s, a), p)
  {
  }

  lemma ReportWorker(s: State, a: Action, w: nat)
    requires InOrder(s) && Enabled(s, a) && a.Report? && w < |s.workers| && WorkerOk(s, w) && WorkerOk(s, a.w)
    ensures WorkerOk(Step(s, a), w)
  {
  }

  lemma ReportPosition(s: State, a: Action, p: nat)
    requires InOrder(s) && Enabled(s, a) && a.Report? && PositionOk(s, p) && WorkerOk(s, a.w)
    ensures PositionOk(Step(s, a), p)
  {
  }

  lemma LeaveWorker(s: State, a: Action, w: nat)
    requires InOrder(s) && Enabled(s, a) && (a.Stop? || a.Drain?) && w < |s.workers| && WorkerOk(s, w)
    requires WorkerOk(s, a.w)
    ensures WorkerOk(Step(s, a), w)
  {
  }

  lemma LeavePosition(s: State, a: Action, p: nat)
    requires InOrder(s) && Enabled(s, a) && (a.Stop? || a.Drain?) && PositionOk(s, p) && WorkerOk(s, a.w)
    ensures PositionOk(Step(s, a), p)
  {
  }

  lemma QuietWorker(s: State, a: Action, w: nat)
    requires InOrder(s) && Enabled(s, a) && (a.CancelParent? || a.Abort? || a.Exhaust? || a.ProducerReturn?)
    requires w < |s.workers| && WorkerOk(s, w)
    ensures WorkerOk(Step(s, a), w)
  {
  }

  lemma QuietPosition(s: State, a: Action, p: nat)
    requires InOrder(s) && Enabled(s, a) && (a.CancelParent? || a.Abort? || a.Exhaust? || a.ProducerReturn?)
    requires PositionOk(s, p)
    ensures PositionOk(Step(s, a), p)
  {
  }

  lemma StepWorker(s: State, a: Action, w: nat)
    requires InOrder(s) && Enabled(s, a) && w < |s.workers|
    requires WorkerOk(s, w) && ActorOk(s, a) && PositionOk(s, s.next)
    ensures WorkerOk(Step(s, a), w)
  {
    match a
    case Hand(_) => HandWorker(s, a, w);
    case Finish(_) => FinishWorker(s, a, w);
    case Store(_) => StoreWorker(s, a, w);
    case Report(_) => ReportWorker(s, a, w);
    case Stop(_) | Drain(_) => LeaveWorker(s, a, w);
    case _ => QuietWorker(s, a, w);
  }

  lemma StepPosition(s: State, a: Action, p: nat)
    requires InOrder(s) && Enabled(s, a) && ActorOk(s, a) && PositionOk(s, p)
    ensures PositionOk(Step(s, a), p)
  {
    match a
    case Hand(_) => HandPosition(s, a, p);
    case Finish(_) => FinishPosition(s, a, p);
    case Store(_) => StorePosition(s, a, p);
    case Report(_) => ReportPosition(s, a, p);
    case Stop(_) | Drain(_) => LeavePosition(s, a, p);
    case _ => QuietPosition(s, a, p);
  }

  /** The failing positions before p. */
  function Ahead(results: seq<Option<Err>>, p: nat): set<nat>
    requires p <= |results|
  {
    set q: nat | q < p && results[q].Some?
  }

  /** p fails, and so few positions before it do that all of them can be in the workers' hands at once. */
  predicate Contends(results: seq<Option<Err>>, workers: nat, p: nat) {
    p < |results| && results[p].Some? && |Ahead(results, p)| < workers
  }

  /** e is the error of a position that contends and has been through fn. */
  ghost predicate FromContender(s: State, e: Err) {
    exists p: nat :: Contends(s.results, |s.workers|, p) && p in s.bad && s.bad[p] == e
  }

  /** The error kept is that of a position that contends for it. */
  ghost predicate ErrorKnown(s: State) {
    s.firstItemErr.Some? ==> FromContender(s, s.firstItemErr.value)
  }

  function UpTo(n: nat): (r: set<nat>)
    ensures |r| == n && forall v :: v in r <==> 0 <= v < n
  {
    if n == 0 then {} else UpTo(n - 1) + {n - 1}
  }

  /** The workers that hold the positions in ps. */
  function Holders(s: State, ps: set<nat>): set<nat>
    requires forall q | q in ps :: Held(s, q)
  {
    set q: nat | q in ps && q < |s.called| :: s.called[q].worker
  }

  /** Different positions are held by different workers. */
  lemma {:induction false} HoldersSize(s: State, ps: set<nat>)
    requires forall q | q in ps :: Held(s, q)
    ensures |Holders(s, ps)| == |ps|
    decreases ps
  {
    if ps == {} {
      assert Holders(s, ps) == {};
    } else {
      var q :| q in ps;
      HoldersSize(s, ps - {q});
      assert Holders(s, ps) == Holders(s, ps - {q}) + {s.called[q].worker};
      forall r | r in ps - {q}
        ensures s.called[r].worker != s.called[q].worker
      {
        assert Held(s, r) && Held(s, q);
      }
    }
  }

  /** While no error is kept, every failing position handed out is still in its worker's hands. */
  lemma AheadHeld(s: State, p: nat)
    requires InOrder(s) && Positions(s) && s.firstItemErr.None? && p < s.next
    ensures forall q | q in Ahead(s.results, p) :: Held(s, q)
  {
    forall q | q in Ahead(s.results, p)
      ensures Held(s, q)
    {
      assert PositionOk(s, q);
    }
  }

  /** The position whose error is stored first contends. */
  lemma StoreContends(s: State, w: nat)
    requires InOrder(s) && Workers(s) && Positions(s) && Enabled(s, Store(w)) && s.firstItemErr.None?
    ensures Contends(s.results, |s.workers|, s.workers[w].pos)
  {
    assert WorkerOk(s, w);
    var p := s.workers[w].pos;
    assert PositionOk(s, p);
    AheadHeld(s, p);
    var ahead := Ahead(s.results, p);
    HoldersSize(s, ahead);
    forall v | v in Holders(s, ahead)
      ensures v < |s.workers| && v != w
    {
      var q :| q in ahead && s.called[q].worker == v;
      assert Held(s, q);
    }
    SubsetSize(Holders(s, ahead), UpTo(|s.workers|) - {w});
  }

  lemma FinishError(s: State, w: nat)
    requires Enabled(s, Finish(w)) && WorkerOk(s, w) && ErrorKnown(s)
    ensures ErrorKnown(Step(s, Finish(w)))
  {
    if s.firstItemErr.Some? {
      var p: nat :| Contends(s.results, |s.workers|, p) && p in s.bad && s.bad[p] == s.firstItemErr.value;
      var t := Step(s, Finish(w));
      assert p in t.bad && t.bad[p] == t.firstItemErr.value;
    }
  }

  lemma StepError(s: State, a: Action)
    requires InOrder(s) && Workers(s) && Positions(s) && Enabled(s, a) && ActorOk(s, a) && ErrorKnown(s)
    ensures ErrorKnown(Step(s, a))
  {
    match a
    case Finish(w) => FinishError(s, w);
    case Store(w) =>
      if s.firstItemErr.None? {
        StoreContends(s, w);
        var p := s.workers[w].pos;
        assert WorkerOk(s, w);
        assert Contends(s.results, |s.workers|, p) && p in s.bad;
      }
    case _ =>
  }

  lemma FinishCounts(s: State, w: nat)
    requires InOrder(s) && Totals(s) && Enabled(s, Finish(w)) && WorkerOk(s, w)
    ensures Step(s, Finish(w)).okCount == |Step(s, Finish(w)).good|
    ensures Step(s, Finish(w)).failCount == |Step(s, Finish(w)).bad|
  {
  }

  lemma FinishTotals(s: State, w: nat)
    requires InOrder(s) && Totals(s) && Enabled(s, Finish(w)) && WorkerOk(s, w)
    ensures Totals(Step(s, Finish(w))) && InOrder(Step(s, Finish(w)))
  {
    FinishCounts(s, w);
  }

  lemma StepTotals(s: State, a: Action)
    requires InOrder(s) && Totals(s) && Enabled(s, a) && ActorOk(s, a)
    ensures Totals(Step(s, a)) && InOrder(Step(s, a))
  {
    match a
    case Finish(w) => FinishTotals(s, w);
    case _ =>
  }

  lemma StepInv(s: State, a: Action)
    requires Inv(s) && Enabled(s, a)
    ensures Inv(Step(s, a))
  {
    var t := Step(s, a);
    assert PositionOk(s, s.next);
    StepTotals(s, a);
    StepError(s, a);
    forall w: nat | w < |t.workers|
      ensures WorkerOk(t, w)
    {
      assert WorkerOk(s, w);
      StepWorker(s, a, w);
    }
    forall p: nat
      ensures PositionOk(t, p)
    {
      assert PositionOk(s, p);
      StepPosition(s, a, p);
    }
  }

  lemma {:induction false} RunInv(s: State, run: seq<Action>)
    requires Inv(s) && Schedule(s, run)
    ensures Inv(Run(s, run))
    decreases |run|
  {
    if run != [] {
      StepInv(s, run[0]);
      RunInv(Step(s, run[0]), run[1..]);
    }
  }

  // ------------------------------------------------------------- liveness

  function WorkerWork(w: Worker): nat {
    match w
    case Quit => 0
    case Idle => 1
    case Reporting(_, _) => 2
    case Storing(_, _) => 3
    case Running(_) => 4
  }

  function WorkersWork(ws: seq<Worker>): nat {
    if ws == [] then 0 else WorkersWork(ws[..|ws| - 1]) + WorkerWork(ws[|ws| - 1])
  }

  lemma {:induction false} WorkersWorkUpdate(ws: seq<Worker>, i: nat, x: Worker)
    requires i < |ws|
    ensures WorkersWork(ws[i := x]) + WorkerWork(ws[i]) == WorkersWork(ws) + WorkerWork(x)
  {
    var n := |ws| - 1;
    if i < n {
      WorkersWorkUpdate(ws[..n], i, x);
      assert ws[i := x][..n] == ws[..n][i := x];
    } else {
      assert ws[i := x][..n] == ws[..n];
    }
  }

  lemma {:induction false} WorkersWorkIdle(n: nat)
    ensures WorkersWork(seq(n, i => Idle)) == n
  {
    if n > 0 {
      assert seq(n, i => Idle)[..n - 1] == seq(n - 1, i => Idle);
      WorkersWorkIdle(n - 1);
    }
  }

  /** What is left to happen: every step lowers it. */
  function Work(s: State): int {
    4 * (|s.results| - s.next) + (if s.producer.Feeding? then 2 else if s.producer.Returning? then 1 else 0)
    + WorkersWork(s.workers) + if s.parentCancelled then 0 else 1
  }

  /** A worker that moves on, with nothing else left to do changed, lowers the work. */
  lemma WorkerMoves(s: State, t: State, w: nat)
    requires w < |s.workers| && w < |t.workers| && t.workers == s.workers[w := t.workers[w]]
    requires WorkerWork(t.workers[w]) < WorkerWork(s.workers[w])
    requires t.results
             == s.results && t.next == s.next && t.producer == s.producer && t.parentCancelled == s.parentCancelled
    ensures Work(t) < Work(s)
  {
    WorkersWorkUpdate(s.workers, w, t.workers[w]);
  }

  lemma HandWork(s: State, w: nat)
    requires Enabled(s, Hand(w))
    ensures Work(Step(s, Hand(w))) < Work(s)
  {
    WorkersWorkUpdate(s.workers, w, Running(s.next));
  }

  lemma StepWork(s: State, a: Action)
    requires Enabled(s, a) && InOrder(s)
    ensures Work(Step(s, a)) < Work(s)
  {
    match a
    case CancelParent | Abort | Exhaust | ProducerReturn =>
    case Hand(w) => HandWork(s, w);
    case _ => WorkerMoves(s, Step(s, a), a.w);
  }

  /** Every run is bounded: at most 4 steps an id, one a worker and 3 more. */
  lemma {:induction false} RunBounded(s: State, run: seq<Action>)
    requires Inv(s) && Schedule(s, run)
    ensures |run| <= Work(s)
    decreases |run|
  {
    if run != [] {
      StepInv(s, run[0]);
      StepWork(s, run[0]);
      RunBounded(Step(s, run[0]), run[1..]);
    }
  }

  /** No reachable state is stuck: until Wait returns some goroutine can move without the parent's help. */
  lemma NeverStuck(s: State) returns (a: Action)
    requires Inv(s) && !Final(s) && |s.workers| > 0
    ensures Enabled(s, a) && !a.CancelParent?
  {
    if w: nat :| w < |s.workers| && (s.workers[w].Running? || s.workers[w].Storing? || s.workers[w].Reporting?) {
      assert WorkerOk(s, w);
      a := if s.workers[w].Running? then Finish(w) else if s.workers[w].Storing? then Store(w) else Report(w);
    } else if s.producer.Returning? {
      a := ProducerReturn;
    } else if s.producer.Feeding? && s.next == |s.results| {
      a := Exhaust;
    } else if w: nat :| w < |s.workers| && s.workers[w].Idle? {
      a := if s.producer.Feeding? then Hand(w) else Drain(w);
    } else {
      assert WorkerOk(s, 0);
      a := Abort;
    }
  }

  // ------------------------------------------------------- what Wait returns

  datatype FirstErr = Nil | Context | Item(err: Err)

  /** The group error hides the item error. */
  function Result(s: State): FirstErr {
    if s.groupErr then Context else if s.firstItemErr.Some? then Item(s.firstItemErr.value) else Nil
  }

  /** fn ran on the first next positions, once each; each of those calls is in one counter and made one
      callback with its own delta. */
  ghost predicate Accounted(s: State) {
    && |s.called| == s.next <= |s.results| && (forall i | 0 <= i < s.next :: s.called[i].pos == i)
    && s.okCount + s.failCount == s.next
    && s.okCount == |s.good| && s.failCount == |s.bad|
    && (forall p: nat :: s.reported[(p, true)] == (if p in s.good then 1 else 0))
    && (forall p: nat :: s.reported[(p, false)] == (if p in s.bad then 1 else 0))
    && (forall p: nat :: p < s.next <==> p in s.good || p in s.bad)
    && (forall p | p in s.good :: p < |s.results| && s.results[p].None?)
    && (forall p | p in s.bad :: p < |s.results| && s.results[p] == Some(s.bad[p]))
  }

  /** The context error means the parent was cancelled; without it every id was processed; nil means every
      id was processed and succeeded; an item error is that of a position that contends for it. */
  ghost predicate Explained(s: State) {
    && (Result(s) == Context ==> s.parentCancelled)
    && (Result(s) != Context ==> s.next == |s.results|)
    && (Result(s) == Nil <==> Result(s) != Context && s.failCount == 0)
    && (Result(s).Item? ==> FromContender(s, Result(s).err))
  }

  lemma {:induction false} InitialSegment(n: nat, s: set<nat>)
    requires forall p: nat :: p in s <==> p < n
    ensures |s| == n
  {
    if n == 0 {
      assert s == {};
    } else {
      InitialSegment(n - 1, s - {n - 1});
    }
  }

  lemma NothingHeld(s: State, p: nat)
    requires Inv(s) && Final(s)
    ensures !Held(s, p)
  {
  }

  lemma FinalAccounted(s: State)
    requires Inv(s) && Final(s)
    ensures Accounted(s)
  {
    forall p: nat
      ensures s.reported[(p, true)] == (if p in s.good then 1 else 0)
      ensures s.reported[(p, false)] == (if p in s.bad then 1 else 0)
      ensures p < s.next <==> p in s.good || p in s.bad
      ensures p in s.good ==> p < |s.results| && s.results[p].None?
      ensures p in s.bad ==> p < |s.results| && s.results[p] == Some(s.bad[p])
    {
      NothingHeld(s, p);
      assert PositionOk(s, p);
    }
    InitialSegment(s.next, s.good + s.bad.Keys);
    assert |s.bad| == |s.bad.Keys|;
    assert |s.good + s.bad.Keys| == |s.good| + |s.bad.Keys|;
  }

  lemma FinalExplained(s: State)
    requires Inv(s) && Final(s)
    ensures Explained(s)
  {
    forall p: nat
      ensures s.firstItemErr.None? ==> p !in s.bad
    {
      NothingHeld(s, p);
      assert PositionOk(s, p);
    }
    assert s.firstItemErr.None? ==> s.bad == map[];
  }

  /** Without cancellation the pool returns an error exactly when some item failed. */
  lemma ItemErrorIff(s: State)
    requires Accounted(s) && Explained(s) && !s.parentCancelled
    ensures Result(s) != Nil <==> exists p :: 0 <= p < |s.results| && s.results[p].Some?
  {
    if p :| 0 <= p < |s.results| && s.results[p].Some? {
      assert p in s.good || p in s.bad;
      assert s.bad != map[];
    }
    if Result(s) != Nil {
      var p :| p in s.bad && s.bad[p] == Result(s).err;
      assert s.results[p].Some?;
    }
  }

  /** Every schedule from the start: it is bounded, and when Wait returns the counts add up and the error
      says what happened. */
  lemma PoolCorrect(results: seq<Option<Err>>, workers: nat, run: seq<Action>)
    requires workers > 0 && Schedule(Start(results, workers), run)
    ensures |run| <= 4 * |results| + workers + 3
    ensures var s := Run(Start(results, workers), run);
            Final(s) ==> s.results == results && Accounted(s) && Explained(s) && (!s.parentCancelled ==>
                s.next == |results|)
  {
    var s0 := Start(results, workers);
    StartInv(results, workers);
    RunInv(s0, run);
    RunBounded(s0, run);
    WorkersWorkIdle(workers);
    RunKeeps(s0, run);
    if Final(Run(s0, run)) {
      FinalFacts(Run(s0, run));
    }
  }

  lemma {:induction false} RunKeeps(s: State, run: seq<Action>)
    requires Schedule(s, run)
    ensures Run(s, run).results == s.results && |Run(s, run).workers| == |s.workers|
    decreases |run|
  {
    if run != [] {
      RunKeeps(Step(s, run[0]), run[1..]);
    }
  }

  /** An action of the pool itself leaves the parent alone and does not replace the error kept. */
  lemma OwnStep(s: State, a: Action)
    requires Enabled(s, a) && !a.CancelParent?
    ensures Step(s, a).parentCancelled == s.parentCancelled
    ensures s.firstItemErr.Some? ==> Step(s, a).firstItemErr == s.firstItemErr
  {
  }

  /** Every schedule can be completed, without a cancellation and with the error kept so far. */
  lemma {:induction false} CanFinish(s: State) returns (run: seq<Action>)
    requires Inv(s) && |s.workers| > 0
    ensures Schedule(s, run) && Final(Run(s, run))
    ensures Run(s, run).parentCancelled == s.parentCancelled
    ensures s.firstItemErr.Some? ==> Run(s, run).firstItemErr == s.firstItemErr
    decreases Work(s)
  {
    run := [];
    if !Final(s) {
      var a := NeverStuck(s);
      StepInv(s, a);
      StepWork(s, a);
      OwnStep(s, a);
      var rest := CanFinish(Step(s, a));
      run := [a] + rest;
      Prepend(s, a, rest);
    }
  }

  lemma Prepend(s: State, a: Action, rest: seq<Action>)
    requires Enabled(s, a) && Schedule(Step(s, a), rest)
    ensures Schedule(s, [a] + rest) && Run(s, [a] + rest) == Run(Step(s, a), rest)
  {
    assert ([a] + rest)[1..] == rest;
  }

  lemma NothingToDo(workers: nat)
    ensures Accounted(Start([], workers)) && Explained(Start([], workers))
  {
  }

  lemma StepSame(s: State, a: Action)
    requires Enabled(s, a)
    ensures |Step(s, a).workers| == |s.workers| && Step(s, a).results == s.results
    ensures !a.CancelParent? ==> Step(s, a).parentCancelled == s.parentCancelled
  {
  }

  /** One step keeps the invariant and gets closer to the end. */
  lemma Advance(s: State, a: Action)
    requires Inv(s) && Enabled(s, a)
    ensures Inv(Step(s, a)) && Work(Step(s, a)) < Work(s)
    ensures |Step(s, a).workers| == |s.workers| && Step(s, a).results == s.results
    ensures !a.CancelParent? ==> Step(s, a).parentCancelled == s.parentCancelled
  {
    StepInv(s, a);
    StepWork(s, a);
    StepSame(s, a);
  }

  lemma FinalFacts(s: State)
    requires Inv(s) && Final(s)
    ensures Accounted(s) && Explained(s)
  {
    FinalAccounted(s);
    FinalExplained(s);
  }

  /** Fewer than one worker means one. */
  function PoolSize(workers: int): (n: nat)
    ensures n > 0
  {
    if workers < 1 then 1 else workers
  }

  /** RunPoolWithProgress under a scheduler that always picks a possible action. */
  method RunPool(ids: seq<int>, workers: int, results: seq<Option<Err>>, schedule: State -> Action)
    returns (okCount: int, failCount: int, firstErr: FirstErr, s: State)
    requires |results| == |ids|
    requires forall t: State | Inv(t) && !Final(t) && |t.workers| > 0 :: Enabled(t, schedule(t))
    ensures s.results == results && okCount == s.okCount && failCount == s.failCount && firstErr == Result(s)
    ensures Accounted(s) && Explained(s) && |s.workers| == PoolSize(workers)
    ensures |s.workers| == if workers >= 1 then workers else 1
    ensures (forall t: State :: !schedule(t).CancelParent?) ==> !s.parentCancelled
  {
    s := Start(results, PoolSize(workers));
    if |ids| == 0 {
      NothingToDo(|s.workers|);
    } else {
      StartInv(results, |s.workers|);
      while !Final(s)
        invariant Inv(s) && |s.workers| == PoolSize(workers) && s.results == results
        invariant (forall t: State :: !schedule(t).CancelParent?) ==> !s.parentCancelled
        decreases Work(s)
      {
        var a := schedule(s);
        Advance(s, a);
        s := Step(s, a);
      }
      FinalFacts(s);
    }
    okCount, failCount, firstErr := s.okCount, s.failCount, Result(s);
  }
}
