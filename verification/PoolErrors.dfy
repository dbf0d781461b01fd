/** Which item error a pool that nobody cancels returns. */
module PoolErrors {
  import opened Seqs
  import opened Pool

  /** Some schedule without a cancellation ends with r. */
  ghost predicate CanReturn(results: seq<Option<Err>>, workers: nat, r: FirstErr) {
    exists run :: Returns(results, workers, run, r)
  }

  ghost predicate Returns(results: seq<Option<Err>>, workers: nat, run: seq<Action>, r: FirstErr) {
    var s := Start(results, workers);
    Schedule(s, run) && Final(Run(s, run)) && !Run(s, run).parentCancelled && Result(Run(s, run)) == r
  }

  /** Positions up to next have been handed out; the workers from number busy on are waiting; no error is kept. */
  ghost predicate LinedUp(s: State, busy: nat) {
    && Inv(s) && s.producer.Feeding? && !s.parentCancelled && s.firstItemErr.None?
    && busy <= |s.workers| && forall w | busy <= w < |s.workers| :: s.workers[w].Idle?
  }

  lemma AheadNext(results: seq<Option<Err>>, p: nat)
    requires p < |results|
    ensures |Ahead(results, p + 1)| == |Ahead(results, p)| + if results[p].Some? then 1 else 0
  {
    if results[p].Some? {
      assert Ahead(results, p + 1) == Ahead(results, p) + {p};
    } else {
      assert Ahead(results, p + 1) == Ahead(results, p);
    }
  }

  lemma AheadMonotone(results: seq<Option<Err>>, p: nat, q: nat)
    requires p <= q <= |results|
    ensures |Ahead(results, p)| <= |Ahead(results, q)|
  {
    SubsetSize(Ahead(results, p), Ahead(results, q));
  }

  /** A failing position before the contender: its worker is left running. */
  lemma Park(s: State, busy: nat)
    requires LinedUp(s, busy) && busy < |s.workers| && s.next < |s.results|
    ensures Enabled(s, Hand(busy)) && LinedUp(Step(s, Hand(busy)), busy + 1)
    ensures Step(s, Hand(busy)).next == s.next + 1 && Step(s, Hand(busy)).results == s.results
    ensures |Step(s, Hand(busy)).workers| == |s.workers|
  {
    StepInv(s, Hand(busy));
  }

  /** Worker w takes the next position through fn. */
  function Taken(s: State, w: nat): State
    requires Enabled(s, Hand(w))
  {
    Step(Step(s, Hand(w)), Finish(w))
  }

  lemma TakenIs(s: State, busy: nat)
    requires LinedUp(s, busy) && busy < |s.workers| && s.next < |s.results|
    ensures Enabled(s, Hand(busy)) && Enabled(Step(s, Hand(busy)), Finish(busy)) && Inv(Taken(s, busy))
    ensures var t, err := Taken(s, busy), s.results[s.next];
            && t.workers == s.workers[busy := if err.Some? then Storing(s.next, err.value) else Reporting(s.next, true)]
            && t.next == s.next + 1 && t.results == s.results && t.producer == s.producer
            && t.parentCancelled == s.parentCancelled && t.firstItemErr == s.firstItemErr
  {
    StepInv(s, Hand(busy));
    StepInv(Step(s, Hand(busy)), Finish(busy));
  }

  /** A position that succeeds before the contender: its worker is waiting again. */
  lemma Pass(s: State, busy: nat)
    requires LinedUp(s, busy) && busy < |s.workers| && s.next < |s.results| && s.results[s.next].None?
    ensures Enabled(s, Hand(busy)) && Enabled(Step(s, Hand(busy)), Finish(busy))
              && Enabled(Taken(s, busy), Report(busy))
    ensures var t := Step(Taken(s, busy), Report(busy));
            LinedUp(t, busy) && t.next == s.next + 1 && t.results == s.results && |t.workers| == |s.workers|
  {
    TakenIs(s, busy);
    StepInv(Taken(s, busy), Report(busy));
  }

  /** The contender itself: its error is the one kept. */
  lemma Keep(s: State, busy: nat)
    requires LinedUp(s, busy) && busy < |s.workers| && s.next < |s.results| && s.results[s.next].Some?
    ensures Enabled(s, Hand(busy)) && Enabled(Step(s, Hand(busy)), Finish(busy)) && Enabled(Taken(s, busy), Store(busy))
    ensures var t := Step(Taken(s, busy), Store(busy));
            Inv(t) && t.firstItemErr == s.results[s.next] && !t.parentCancelled && |t.workers| == |s.workers|
  {
    TakenIs(s, busy);
    StepInv(Taken(s, busy), Store(busy));
  }

  /** A final state that nobody cancelled returns the error kept. */
  lemma FinalResult(s: State)
    requires Inv(s) && Final(s) && !s.parentCancelled && s.firstItemErr.Some?
    ensures Result(s) == Item(s.firstItemErr.value)
  {
  }

  /** front leads from s to t. */
  ghost predicate Leads(s: State, front: seq<Action>, t: State) {
    Schedule(s, front) && Run(s, front) == t
  }

  lemma {:induction false} LeadsOn(s: State, front: seq<Action>, t: State, rest: seq<Action>)
    requires Leads(s, front, t) && Schedule(t, rest)
    ensures Leads(s, front + rest, Run(t, rest))
    decreases |front|
  {
    if front == [] {
      assert front + rest == rest;
    } else {
      LeadsOn(Step(s, front[0]), front[1..], t, rest);
      Prepend(s, front[0], front[1..] + rest);
      assert front + rest == [front[0]] + (front[1..] + rest);
    }
  }

  lemma OneAction(s: State, a: Action)
    requires Enabled(s, a)
    ensures Leads(s, [a], Step(s, a))
  {
    assert [a][1..] == [];
  }

  lemma ThreeActions(s: State, a: Action, b: Action, c: Action)
    requires Enabled(s, a) && Enabled(Step(s, a), b) && Enabled(Step(Step(s, a), b), c)
    ensures Leads(s, [a, b, c], Step(Step(Step(s, a), b), c))
  {
    OneAction(Step(Step(s, a), b), c);
    Prepend(Step(s, a), b, [c]);
    Prepend(s, a, [b] + [c]);
    assert [a] + ([b] + [c]) == [a, b, c];
  }

  /** The error of p is stored, and the pool finishes. */
  lemma LastError(s: State, busy: nat) returns (run: seq<Action>, t: State)
    requires LinedUp(s, busy) && busy < |s.workers| && s.next < |s.results| && s.results[s.next].Some?
    ensures Leads(s, run, t) && Final(t) && !t.parentCancelled && Result(t) == Item(s.results[s.next].value)
  {
    Keep(s, busy);
    var stored := Step(Taken(s, busy), Store(busy));
    var rest := CanFinish(stored);
    RunInv(stored, rest);
    t := Run(stored, rest);
    FinalResult(t);
    ThreeActions(s, Hand(busy), Finish(busy), Store(busy));
    LeadsOn(s, [Hand(busy), Finish(busy), Store(busy)], stored, rest);
    run := [Hand(busy), Finish(busy), Store(busy)] + rest;
  }

  /** One position before the contender: parked if it fails, passed if it does not. */
  lemma MoveOn(s: State, busy: nat) returns (front: seq<Action>, t: State)
    requires busy < |s.workers| && s.next < |s.results| && busy == |Ahead(s.results, s.next)| && LinedUp(s, busy)
    ensures Leads(s, front, t) && t.next == s.next + 1 && t.results == s.results && |t.workers| == |s.workers|
    ensures LinedUp(t, |Ahead(t.results, t.next)|)
  {
    AheadNext(s.results, s.next);
    if s.results[s.next].Some? {
      Park(s, busy);
      front, t := [Hand(busy)], Step(s, Hand(busy));
      OneAction(s, Hand(busy));
    } else {
      Pass(s, busy);
      front, t := [Hand(busy), Finish(busy), Report(busy)], Step(Taken(s, busy), Report(busy));
      ThreeActions(s, Hand(busy), Finish(busy), Report(busy));
    }
  }

  /** Park the failing positions before p, let the others pass, and store the error of p. */
  lemma {:induction false} LetKeep(s: State, p: nat) returns (run: seq<Action>, t: State)
    requires s.next <= p && Contends(s.results, |s.workers|, p) && LinedUp(s, |Ahead(s.results, s.next)|)
    ensures Leads(s, run, t) && Final(t) && !t.parentCancelled && Result(t) == Item(s.results[p].value)
    decreases p - s.next
  {
    var busy := |Ahead(s.results, s.next)|;
    AheadMonotone(s.results, s.next, p);
    if s.next == p {
      run, t := LastError(s, busy);
    } else {
      var front, u := MoveOn(s, busy);
      var rest, end := LetKeep(u, p);
      LeadsOn(s, front, u, rest);
      run, t := front + rest, end;
    }
  }

  lemma ReturnedContends(results: seq<Option<Err>>, workers: nat, run: seq<Action>, e: Err)
    requires workers > 0 && Returns(results, workers, run, Item(e))
    ensures exists p: nat :: Contends(results, workers, p) && results[p] == Some(e)
  {
    var s := Run(Start(results, workers), run);
    PoolCorrect(results, workers, run);
    RunKeeps(Start(results, workers), run);
    var p: nat :| Contends(s.results, |s.workers|, p) && p in s.bad && s.bad[p] == e;
    assert Contends(results, workers, p);
  }

  lemma ContenderReturned(results: seq<Option<Err>>, workers: nat, p: nat)
    requires Contends(results, workers, p)
    ensures CanReturn(results, workers, Item(results[p].value))
  {
    var s := Start(results, workers);
    StartInv(results, workers);
    assert Ahead(results, 0) == {};
    var run, t := LetKeep(s, p);
    assert Returns(results, workers, run, Item(results[p].value));
  }

  /** Which item errors a pool that nobody cancels can return: those of the positions with fewer failing
      positions ahead of them than there are workers. */
  lemma ReturnsIff(results: seq<Option<Err>>, workers: nat, e: Err)
    requires workers > 0
    ensures CanReturn(results, workers, Item(e)) <==>
              exists p: nat :: Contends(results, workers, p) && results[p] == Some(e)
  {
    if CanReturn(results, workers, Item(e)) {
      var run :| Returns(results, workers, run, Item(e));
      ReturnedContends(results, workers, run, e);
    }
    if p: nat :| Contends(results, workers, p) && results[p] == Some(e) {
      ContenderReturned(results, workers, p);
    }
  }

  /** With one worker only the first failing position contends. */
  lemma OneWorker(results: seq<Option<Err>>, p: nat)
    requires p < |results|
    ensures Contends(results, 1, p) <==> results[p].Some? && forall q | 0 <= q < p :: results[q].None?
  {
    if Contends(results, 1, p) {
      forall q: nat | q < p
        ensures results[q].None?
      {
        assert q !in Ahead(results, p);
      }
    }
    if results[p].Some? && forall q | 0 <= q < p :: results[q].None? {
      assert Ahead(results, p) == {};
    }
  }
}
