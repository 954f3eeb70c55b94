/**
Counter interrupts of a running thread in the group, each arriving when exactly the chosen period
has passed: how far the thread overshoots the lowest waiting one.
*/
module Overshoots {
  import opened Clocks
  import opened ListArrays
  import opened Periods
  import opened Protocol

  /** The lowest other waiter that the interrupt handler sees. */
  function Waiter(s: State, t: int): int
    requires WF(s) && 0 <= t < |s.clocks|
  {
    WaiterClock(s, t, UpTo(s.maxIndex + 1))
  }

  /** One interrupt, after as many instructions as the period says. */
  function Interrupted(s: State, t: int): (r: State)
    requires WF(s) && 0 <= t < |s.clocks|
    ensures WF(r) && |r.clocks| == |s.clocks|
  {
    OverflowUpdatePeriod(s, t, s.clocks[t].samplePeriod)
  }

  function InterruptedTimes(s: State, t: int, n: nat): (r: State)
    requires WF(s) && 0 <= t < |s.clocks|
    ensures WF(r) && |r.clocks| == |s.clocks|
    decreases n
  {
    if n == 0 then s else InterruptedTimes(Interrupted(s, t), t, n - 1)
  }

  function ClockAfter(s: State, t: int, n: nat): nat
    requires WF(s) && 0 <= t < |s.clocks|
  {
    InterruptedTimes(s, t, n).clocks[t].Clock()
  }

  /** Counting changes nothing about who else waits, and where. */
  lemma {:induction false} ScanIgnores(t: int, clocks: seq<Entry>, e: Entry, order: seq<int>)
    requires InRange(order, |clocks|) && 0 <= t < |clocks|
    ensures var w := Scan(WaitingExcept(t), clocks, order);
            Scan(WaitingExcept(t), clocks[t := e], order) == w && w != t
  {
    if order == [] {
    } else {
      ScanIgnores(t, clocks, e, order[..|order|-1]);
    }
  }

  lemma WaiterStays(s: State, t: int)
    requires WF(s) && 0 <= t < |s.clocks|
    ensures Interrupted(s, t).maxIndex == s.maxIndex && Waiter(Interrupted(s, t), t) == Waiter(s, t)
  {
    ScanIgnores(t, s.clocks, Interrupted(s, t).clocks[t], UpTo(s.maxIndex + 1));
    assert Interrupted(s, t).clocks == s.clocks[t := Interrupted(s, t).clocks[t]];
  }

  /** t runs behind the waiter at clock w, in the middle of whatever period. */
  ghost predicate RunsBehind(s: State, t: int, w: nat) {
    WF(s) && 0 <= t < |s.clocks| && s.clocks[t].counting && Waiter(s, t) == w && s.clocks[t].Clock() < w
  }

  /** The period is the one chosen for the waiter at w. */
  ghost predicate AimsAt(s: State, t: int, w: nat) {
    RunsBehind(s, t, w) && s.clocks[t].samplePeriod == Choose(0, s.clocks[t].Clock(), w)
  }

  /** The next period is chosen for the waiter, whatever this one was. */
  lemma InterruptMovesOn(s: State, t: int, w: nat)
    requires RunsBehind(s, t, w)
    ensures var r, next := Interrupted(s, t), s.clocks[t].Clock() + s.clocks[t].samplePeriod;
            r.clocks[t].Clock() == next && (next < w ==> AimsAt(r, t, w))
  {
    CountKeepsWaiter(s, t, s.clocks[t].samplePeriod);
    WaiterStays(s, t);
  }

  lemma CountKeepsWaiter(s: State, t: int, d: nat)
    requires WF(s) && 0 <= t < |s.clocks|
    ensures WaiterClock(Count(s, t, d), t, UpTo(s.maxIndex + 1)) == Waiter(s, t)
  {
    ScanIgnores(t, s.clocks, Credited(s.clocks[t], d), UpTo(s.maxIndex + 1));
  }

  lemma OneMore(s: State, t: int, n: nat)
    requires WF(s) && 0 <= t < |s.clocks| && n >= 1
    ensures ClockAfter(s, t, n) == ClockAfter(Interrupted(s, t), t, n - 1)
    ensures ClockAfter(s, t, 0) == s.clocks[t].Clock()
  {
  }

  /** The clock at the interrupts is the chain of chosen periods. */
  lemma {:induction false} ClocksAreTheChain(s: State, t: int, w: nat, n: nat)
    requires AimsAt(s, t, w) && 1 <= n <= |Overflows(s.clocks[t].Clock(), w)|
    ensures ClockAfter(s, t, n) == Overflows(s.clocks[t].Clock(), w)[n - 1]
    decreases n
  {
    InterruptMovesOn(s, t, w);
    OneMore(s, t, n);
    if n == 1 {
    } else {
      ClocksAreTheChain(Interrupted(s, t), t, w, n - 1);
    }
  }

  /**
  With the period chosen for the waiter: after finitely many interrupts -- one for every full period
  of 200000 instructions, and one more -- the thread has reached the waiter; it had not before, and
  how late it is depends on the lead alone: less than 1024 instructions.
  */
  lemma AimedOvershootIsBounded(s: State, t: int, w: nat) returns (n: nat)
    requires AimsAt(s, t, w)
    ensures n == (w - s.clocks[t].Clock() - 1) / 200000 + 1
    ensures ClockAfter(s, t, n) == w + Lateness(w - s.clocks[t].Clock())
    ensures forall k :: 1 <= k < n ==> s.clocks[t].Clock() < ClockAfter(s, t, k) < w
  {
    var clock := s.clocks[t].Clock();
    BoundedOvershoot(clock, w);
    n := |Overflows(clock, w)|;
    forall k | 1 <= k <= n ensures ClockAfter(s, t, k) == Overflows(clock, w)[k - 1] {
      ClocksAreTheChain(s, t, w, k);
    }
  }

  /**
  Bounded overshoot, when the waiter stops in the middle of any period: if the period reaches that
  far, its end is late by what it exceeds the lead; otherwise the following interrupts come as if
  aimed at the waiter from its end, and the first to reach it is less than 1024 instructions late.
  */
  lemma OvershootIsBounded(s: State, t: int, w: nat) returns (n: nat)
    requires RunsBehind(s, t, w)
    ensures var clock, p := s.clocks[t].Clock(), s.clocks[t].samplePeriod;
            && (forall k :: 1 <= k < n ==> clock <= ClockAfter(s, t, k) < w)
            && if clock + p >= w then n == 1 && ClockAfter(s, t, n) == clock + p
               else n == (w - clock - p - 1) / 200000 + 2 && ClockAfter(s, t, n) == w + Lateness(w - clock - p)
  {
    InterruptMovesOn(s, t, w);
    OneMore(s, t, 1);
    var r := Interrupted(s, t);
    if r.clocks[t].Clock() >= w {
      n := 1;
    } else {
      var more := AimedOvershootIsBounded(r, t, w);
      n := more + 1;
      forall k | 1 <= k <= n ensures ClockAfter(s, t, k) == ClockAfter(r, t, k - 1) {
        OneMore(s, t, k);
      }
    }
  }

  /** With nobody waiting ahead the period grows by 10000 at each interrupt, up to 200000. */
  lemma {:induction false} PeriodGrows(s: State, t: int, n: nat)
    requires WF(s) && 0 <= t < |s.clocks| && s.clocks[t].counting && Waiter(s, t) <= s.clocks[t].Clock() && n >= 1
    ensures var grown := s.clocks[t].samplePeriod + n * 10000;
            InterruptedTimes(s, t, n).clocks[t].samplePeriod == if grown < 200000 then grown else 200000
    decreases n
  {
    var r := Interrupted(s, t);
    CountKeepsWaiter(s, t, s.clocks[t].samplePeriod);
    WaiterStays(s, t);
    if n > 1 {
      PeriodGrows(r, t, n - 1);
    }
  }

  /** Starting to count behind a waiter chooses that period. */
  lemma EnableChoosesIt(s: State, t: int, w: nat)
    requires WF(s) && 0 <= t < |s.clocks| && s.clocks[t].Clock() < w
    requires WaiterClock(s, t, s.active) == w == Waiter(s, t)
    ensures AimsAt(PrepareEnable(s, t), t, w)
  {
    var e := s.clocks[t].(chunkTicks := 0, counting := true, samplePeriod := 0);
    ScanIgnores(t, s.clocks, e, s.active);
    var r := PrepareEnable(s, t);
    ScanIgnores(t, s.clocks, r.clocks[t], UpTo(s.maxIndex + 1));
    assert r.clocks == s.clocks[t := r.clocks[t]];
  }
}
