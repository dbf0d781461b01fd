/** When a file stops a stage that nobody cancels: the comment in runStage says never. */
module StageAborts {
  import opened Seqs
  import opened Stages
  import Pool
  import PoolErrors

  /** What a batch that nobody cancels can make the pool return. */
  ghost predicate PoolReturns(ids: seq<int>, from: Status, proc: Process, round: nat, workers: int,
      err: Pool.FirstErr) {
    PoolErrors.CanReturn(Results(ids, from, proc, round), Pool.PoolSize(workers), err)
  }

  lemma ReturnedKnown(ids: seq<int>, from: Status, proc: Process, round: nat, workers: int, err: Pool.FirstErr)
    returns (s: Pool.State)
    requires PoolReturns(ids, from, proc, round, workers, err)
    ensures s.results == Results(ids, from, proc, round) && |s.workers| == Pool.PoolSize(workers)
    ensures Pool.Accounted(s) && Pool.Explained(s) && !s.parentCancelled && Pool.Result(s) == err
  {
    var results, size := Results(ids, from, proc, round), Pool.PoolSize(workers);
    var run :| PoolErrors.Returns(results, size, run, err);
    Pool.PoolCorrect(results, size, run);
    Pool.RunKeeps(Pool.Start(results, size), run);
    s := Pool.Run(Pool.Start(results, size), run);
  }

  lemma ContenderAborts(ids: seq<int>, from: Status, proc: Process, round: nat, workers: int, p: nat)
    requires Contender(ids, from, proc, round, workers, p)
    ensures PoolReturns(ids, from, proc, round, workers, Pool.Item(proc(from, ids[p], round).err.value))
  {
    PoolErrors.ContenderReturned(Results(ids, from, proc, round), Pool.PoolSize(workers), p);
  }

  /** Without a cancellation some schedule of the batch aborts the stage exactly when an interrupted file has
      fewer failing files ahead of it than there are workers. */
  lemma MayAbortIff(ids: seq<int>, from: Status, proc: Process, round: nat, workers: int)
    ensures (exists err :: PoolReturns(ids, from, proc, round, workers, err) && Aborts(err))
            <==> MayAbort(ids, from, proc, round, workers)
  {
    if err :| PoolReturns(ids, from, proc, round, workers, err) && Aborts(err) {
      var s := ReturnedKnown(ids, from, proc, round, workers, err);
      AbortKnown(s, proc, from, ids, round, workers);
    }
    if p: nat :| Contender(ids, from, proc, round, workers, p) && !Uninterrupted(proc(from, ids[p], round)) {
      ContenderAborts(ids, from, proc, round, workers, p);
    }
  }

  /** Every schedule does exactly when there are such files and all of them are interrupted. */
  lemma MustAbortIff(ids: seq<int>, from: Status, proc: Process, round: nat, workers: int)
    ensures (forall err | PoolReturns(ids, from, proc, round, workers, err) :: Aborts(err))
            <==> MustAbort(ids, from, proc, round, workers)
  {
    if forall err | PoolReturns(ids, from, proc, round, workers, err) :: Aborts(err) {
      var some := SomethingReturned(ids, from, proc, round, workers);
      MayAbortIff(ids, from, proc, round, workers);
      forall p: nat | Contender(ids, from, proc, round, workers, p)
        ensures !Uninterrupted(proc(from, ids[p], round))
      {
        ContenderAborts(ids, from, proc, round, workers, p);
      }
    }
    if MustAbort(ids, from, proc, round, workers) {
      forall err | PoolReturns(ids, from, proc, round, workers, err)
        ensures Aborts(err)
      {
        var s := ReturnedKnown(ids, from, proc, round, workers, err);
        AbortKnown(s, proc, from, ids, round, workers);
      }
    }
  }

  lemma SomethingReturned(ids: seq<int>, from: Status, proc: Process, round: nat, workers: int)
    returns (err: Pool.FirstErr)
    ensures PoolReturns(ids, from, proc, round, workers, err)
  {
    var results, size := Results(ids, from, proc, round), Pool.PoolSize(workers);
    Pool.StartInv(results, size);
    var run := Pool.CanFinish(Pool.Start(results, size));
    err := Pool.Result(Pool.Run(Pool.Start(results, size), run));
    assert PoolErrors.Returns(results, size, run, err);
  }

  // ------------------------------------------------------------- instances

  /** File 1 fails plainly, every other file's tool is interrupted. */
  function PlainThenInterrupted(): Process {
    (s: Status, id: int, round: nat) =>
      Outcome(Stay, Some(if id == 1 then Pool.Plain("broken") else Pool.Interrupted("timed out")))
  }

  lemma SecondContends(workers: int)
    ensures Contender([1, 2], Discovered, PlainThenInterrupted(), 0, workers, 0)
    ensures Contender([1, 2], Discovered, PlainThenInterrupted(), 0, workers, 1) <==> workers >= 2
  {
    var results := Results([1, 2], Discovered, PlainThenInterrupted(), 0);
    assert Pool.Ahead(results, 0) == {} && Pool.Ahead(results, 1) == {0};
  }

  /** One interrupted file, and nobody cancels: the stage returns, for every schedule and any number of workers. */
  lemma InterruptedInput(workers: int, limit: nat)
    requires limit > 0
    ensures AbortsFirst(map[2 := Discovered], Discovered, limit, PlainThenInterrupted(), workers)
  {
    var st := map[2 := Discovered];
    assert Queue(st, Discovered) == {2};
    assert MinOf({2}) == 2 && Batch(st, Discovered, limit) == [2];
    var results := Results([2], Discovered, PlainThenInterrupted(), 0);
    assert Pool.Ahead(results, 0) == {};
    assert Contender([2], Discovered, PlainThenInterrupted(), 0, workers, 0);
  }

  /** With a file that fails plainly in front, one worker never aborts the stage and two may or may not. */
  lemma WorkersDecide()
    ensures !MayAbort([1, 2], Discovered, PlainThenInterrupted(), 0, 1)
    ensures MayAbort([1, 2], Discovered, PlainThenInterrupted(), 0, 2)
    ensures !MustAbort([1, 2], Discovered, PlainThenInterrupted(), 0, 2)
  {
    SecondContends(1);
    SecondContends(2);
  }
}
