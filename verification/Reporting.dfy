/** Reporter.Update: a non-blocking send that drops the oldest pending event. */
module Reporting {

  /** The newest n elements. */
  function Newest<T>(s: seq<T>, n: nat): (r: seq<T>) {
    if |s| <= n then s else s[|s| - n..]
  }

  /** They are the last min(n, |s|) elements, in their order. */
  lemma NewestIs<T>(s: seq<T>, n: nat)
    ensures exists older: seq<T> :: s == older + Newest(s, n) && (older != [] ==> |Newest(s, n)| == n)
    ensures |Newest(s, n)| <= n
  {
    var older := if |s| <= n then [] else s[..|s| - n];
    assert s == older + Newest(s, n);
  }

  /** A channel of two that is full drops the oldest event for a third. */
  lemma OldestDropped()
    ensures Newest([1, 2] + [3], 2) == [2, 3]
  {
    assert [1, 2] + [3] == [1, 2, 3];
  }

  lemma NewestTwice<T>(s: seq<T>, t: seq<T>, n: nat)
    ensures Newest(Newest(s, n) + t, n) == Newest(s + t, n)
  {
  }

  lemma NewestSnoc<T>(s: seq<T>, events: seq<T>, i: nat, n: nat)
    requires i < |events|
    ensures Newest(Newest(s + events[..i], n) + [events[i]], n) == Newest(s + events[..i + 1], n)
  {
    NewestTwice(s + events[..i], [events[i]], n);
    assert s + events[..i] + [events[i]] == s + events[..i + 1];
  }

  // ------------------------------------------------------------ one sender

  class Reporter<T> {
    const open: bool
    const cap: nat
    var buffer: seq<T>

    ghost predicate Valid()
      reads this
    {
      cap >= 1 && |buffer| <= cap
    }

    /** NewReporter; open is false for a nil channel. */
    constructor (open: bool, cap: nat)
      requires cap >= 1
      ensures Valid() && buffer == [] && this.open == open && this.cap == cap
    {
      this.open, this.cap, buffer := open, cap, [];
    }

    /** Update with nobody else at the channel: the event is the newest pending one and only the oldest
        can go. */
    method Update(p: T)
      requires Valid()
      modifies this
      ensures Valid()
      ensures buffer == if open then Newest(old(buffer) + [p], cap) else old(buffer)
    {
      if !open {
        return;
      }
      while true
        invariant Valid() && (buffer == old(buffer) || (|old(buffer)| == cap && buffer == old(buffer)[1..]))
        decreases |buffer|
      {
        if |buffer| < cap {
          buffer := buffer + [p];
          return;
        }
        if |buffer| > 0 {
          buffer := buffer[1..];
        }
      }
    }

    /** With no consumer the channel ends up holding the newest events, in order. */
    method UpdateAll(events: seq<T>)
      requires Valid()
      modifies this
      ensures Valid()
      ensures buffer == if open then Newest(old(buffer) + events, cap) else old(buffer)
    {
      for i := 0 to |events|
        invariant Valid()
        invariant buffer == if open then Newest(old(buffer) + events[..i], cap) else old(buffer)
      {
        Update(events[i]);
        NewestSnoc(old(buffer), events, i, cap);
      }
      assert events[..|events|] == events;
    }
  }

  // ---------------------------------------- any number of senders, a consumer

  /** Where one caller of Update is: not in it, at the send, or at the drop. */
  datatype Sender<T> = Out | Trying(event: T) | Dropping(event: T)

  /** sent is every event put into the channel, in that order; received holds the positions in sent of
      what the consumer took. */
  datatype State<T> = State(cap: nat, buffer: seq<T>, senders: seq<Sender<T>>, sent: seq<T>, received: seq<nat>)

  datatype Action<T> = Call(i: nat, event: T) | Send(i: nat) | Full(i: nat) | Drop(i: nat) | Miss(i: nat) | Receive

  predicate Enabled<T(==)>(s: State<T>, a: Action<T>) {
    match a
    case Call(i, _) => i < |s.senders| && s.senders[i].Out?
    case Send(i) => i < |s.senders| && s.senders[i].Trying? && |s.buffer| < s.cap
    case Full(i) => i < |s.senders| && s.senders[i].Trying? && |s.buffer| >= s.cap
    case Drop(i) => i < |s.senders| && s.senders[i].Dropping? && |s.buffer| > 0
    case Miss(i) => i < |s.senders| && s.senders[i].Dropping? && |s.buffer| == 0
    case Receive => |s.buffer| > 0
  }

  /** The position in sent of the oldest buffered event. */
  function Head<T>(s: State<T>): int {
    |s.sent| - |s.buffer|
  }

  function Step<T(==)>(s: State<T>, a: Action<T>): State<T>
    requires Enabled(s, a) && |s.buffer| <= |s.sent|
  {
    match a
    case Call(i, e) => s.(senders := s.senders[i := Trying(e)])
    case Send(i) => s.(buffer := s.buffer + [s.senders[i].event], sent := s.sent + [s.senders[i].event],
        senders := s.senders[i := Out])
    case Full(i) => s.(senders := s.senders[i := Dropping(s.senders[i].event)])
    case Drop(i) => s.(buffer := s.buffer[1..], senders := s.senders[i := Trying(s.senders[i].event)])
    case Miss(i) => s.(senders := s.senders[i := Trying(s.senders[i].event)])
    case Receive => s.(buffer := s.buffer[1..], received := s.received + [Head(s)])
  }

  /** Some Update is in progress. */
  ghost predicate Busy<T>(s: State<T>) {
    exists i :: 0 <= i < |s.senders| && !s.senders[i].Out?
  }

  /** What the consumer has, then what is buffered, is a subsequence of what was sent. */
  ghost predicate InSendOrder<T>(s: State<T>) {
    && |s.buffer| <= |s.sent| && |s.buffer| <= s.cap
    && s.buffer == s.sent[Head(s)..]
    && (forall j, k | 0 <= j < k < |s.received| :: s.received[j] < s.received[k])
    && (forall j | 0 <= j < |s.received| :: s.received[j] < Head(s))
  }

  /** The newest event sent is buffered or received, unless an Update is about to replace it. */
  ghost predicate NewestKept<T>(s: State<T>) {
    s.sent == [] || s.buffer != [] || Busy(s) || (s.received != [] && s.received[|s.received| - 1] == |s.sent| - 1)
  }

  ghost predicate Inv<T>(s: State<T>) {
    s.cap >= 1 && InSendOrder(s) && NewestKept(s)
  }

  lemma StepInv<T>(s: State<T>, a: Action<T>)
    requires Inv(s) && Enabled(s, a)
    ensures Inv(Step(s, a))
  {
    var t := Step(s, a);
    match a
    case Receive =>
      assert Busy(s) ==> Busy(t);
    case Send(i) =>
    case _ =>
      assert !t.senders[a.i].Out?;
  }

  ghost predicate Schedule<T>(s: State<T>, run: seq<Action<T>>)
    requires Inv(s)
    decreases |run|
  {
    run == [] || (Enabled(s, run[0]) && (StepInv(s, run[0]); Schedule(Step(s, run[0]), run[1..])))
  }

  ghost function Run<T>(s: State<T>, run: seq<Action<T>>): State<T>
    requires Inv(s) && Schedule(s, run)
    decreases |run|
  {
    if run == [] then s
    else
      StepInv(s, run[0]);
      Run(Step(s, run[0]), run[1..])
  }

  function Start<T>(cap: nat, senders: nat): State<T> {
    State(cap, [], seq(senders, i => Out), [], [])
  }

  /** Every interleaving: nothing is reordered or repeated, and when no Update is in progress the last
      event sent is the last one received or the last one buffered. */
  lemma {:induction false} ReporterCorrect<T>(s: State<T>, run: seq<Action<T>>)
    requires Inv(s) && Schedule(s, run)
    ensures Inv(Run(s, run))
    ensures var t := Run(s, run);
            !Busy(t) && t.sent != [] ==>
              if t.buffer != [] then t.buffer[|t.buffer| - 1] == t.sent[|t.sent| - 1]
              else t.received != [] && t.received[|t.received| - 1] == |t.sent| - 1
    decreases |run|
  {
    if run != [] {
      StepInv(s, run[0]);
      ReporterCorrect(Step(s, run[0]), run[1..]);
    }
  }

  lemma StartInv<T>(cap: nat, senders: nat)
    requires cap >= 1
    ensures Inv(Start<T>(cap, senders))
  {
  }

  // ----------------------------------------------------------- lock-freedom

  /** One step of sender i alone. */
  predicate OwnMove<T>(a: Action<T>, i: nat) {
    (a.Send? || a.Full? || a.Drop? || a.Miss?) && a.i == i
  }

  lemma Prepend<T>(s: State<T>, a: Action<T>, rest: seq<Action<T>>)
    requires Inv(s) && Enabled(s, a) && Inv(Step(s, a)) && Schedule(Step(s, a), rest)
    ensures Schedule(s, [a] + rest) && Run(s, [a] + rest) == Run(Step(s, a), rest)
  {
    assert ([a] + rest)[1..] == rest;
  }

  /** The moves sender i has left before it completes, if nobody else moves. */
  function Left<T>(s: State<T>, i: nat): nat
    requires i < |s.senders|
  {
    if s.senders[i].Out? then 0 else if s.senders[i].Dropping? then 2 else if |s.buffer| < s.cap then 1 else 3
  }

  function NextMove<T>(s: State<T>, i: nat): Action<T>
    requires i < |s.senders| && !s.senders[i].Out?
  {
    if s.senders[i].Trying? then (if |s.buffer| < s.cap then Send(i) else Full(i))
    else if |s.buffer| > 0 then Drop(i) else Miss(i)
  }

  /** Update never blocks: from any state a caller inside it completes with at most three moves of its own,
      whatever the others are in the middle of, and leaves its event as the newest one buffered. */
  lemma {:induction false} NeverBlocks<T>(s: State<T>, i: nat) returns (run: seq<Action<T>>)
    requires Inv(s) && i < |s.senders| && !s.senders[i].Out?
    ensures |run| == Left(s, i) <= 3 && forall a | a in run :: OwnMove(a, i)
    ensures Schedule(s, run)
    ensures var t, e := Run(s, run), s.senders[i].event;
            t.senders == s.senders[i := Out] && t.sent == s.sent + [e] && t.buffer != []
                && t.buffer[|t.buffer| - 1] == e
    decreases Left(s, i)
  {
    var a := NextMove(s, i);
    StepInv(s, a);
    var t := Step(s, a);
    var rest := [];
    if !t.senders[i].Out? {
      rest := NeverBlocks(t, i);
    }
    run := [a] + rest;
    Prepend(s, a, rest);
  }

  function Weight<T>(x: Sender<T>, full: bool): nat {
    if x.Out? then 0 else if x.Dropping? then 1 else if full then 2 else 0
  }

  function Weights<T>(xs: seq<Sender<T>>, full: bool): nat {
    if xs == [] then 0 else Weights(xs[..|xs| - 1], full) + Weight(xs[|xs| - 1], full)
  }

  lemma {:induction false} WeightsUpdate<T>(xs: seq<Sender<T>>, i: nat, x: Sender<T>, full: bool)
    requires i < |xs|
    ensures Weights(xs[i := x], full) + Weight(xs[i], full) == Weights(xs, full) + Weight(x, full)
  {
    var n := |xs| - 1;
    if i < n {
      WeightsUpdate(xs[..n], i, x, full);
      assert xs[i := x][..n] == xs[..n][i := x];
    } else {
      assert xs[i := x][..n] == xs[..n];
    }
  }

  lemma {:induction false} WeightsDrop<T>(xs: seq<Sender<T>>)
    ensures Weights(xs, false) <= Weights(xs, true) <= 2 * |xs|
  {
    if xs != [] {
      WeightsDrop(xs[..|xs| - 1]);
    }
  }

  function Effort<T>(s: State<T>): nat {
    |s.buffer| + Weights(s.senders, |s.buffer| >= s.cap)
  }

  lemma StepEffort<T>(s: State<T>, a: Action<T>)
    requires Inv(s) && Enabled(s, a) && !a.Call? && !a.Send?
    ensures Effort(Step(s, a)) < Effort(s)
  {
    WeightsDrop(s.senders);
    if !a.Receive? {
      WeightsUpdate(s.senders, a.i, Step(s, a).senders[a.i], true);
      WeightsUpdate(s.senders, a.i, Step(s, a).senders[a.i], false);
    }
  }

  /** While no new Update begins, at most cap + 2 * senders steps pass before one of them completes. */
  lemma {:induction false} SomeoneCompletes<T>(s: State<T>, run: seq<Action<T>>)
    requires Inv(s) && Schedule(s, run) && forall a | a in run :: !a.Call? && !a.Send?
    ensures |run| <= Effort(s) <= s.cap + 2 * |s.senders|
    decreases |run|
  {
    WeightsDrop(s.senders);
    if run != [] {
      StepInv(s, run[0]);
      StepEffort(s, run[0]);
      SomeoneCompletes(Step(s, run[0]), run[1..]);
    }
  }
}
