/**
Two places where the source falls short of what it aims at, each with the steps that show it. The
exact conditions are Schedule.SleepHangsExactlyWhen and Grants.ActivateMisleadsExactlyWhen; a third
place, with a longer run, is in LostWakeUp.dfy.
*/
module Hazards {
  import opened Clocks
  import opened Protocol
  import opened Grants
  import opened SleepLoop
  import opened Runs
  import opened Schedule

  // ----- a hang that the client cycle can reach

  /** Two threads on the list. */
  ghost predicate Pair(s: State, a: int, b: int) {
    && GroupInv(s) && 0 <= a < |s.clocks| && 0 <= b < |s.clocks| && a != b
    && |s.active| == 2 && (forall i :: i in s.active <==> i == a || i == b)
  }

  /** Which of the two is the minimum. */
  lemma PairLowest(s: State, a: int, b: int)
    requires Good(s) && 0 <= a < |s.clocks| && 0 <= b < |s.clocks| && a != b && forall i ::
          i in s.active <==> i == a || i == b
    requires Before(At(s, a), At(s, b))
    ensures Lowest(s) == a
  {
    LowestIsUniqueMinimum(s);
    assert forall i :: i in s.active && i != a ==> Before(At(s, a), At(s, i));
  }

  /** Thread t has taken its place at `stamp` behind the lower thread m, and maybe woken it. */
  ghost predicate Behind(s: State, o: Outcome, t: int, m: int, stamp: Stamp, sleeping: bool)
    requires Pair(s, t, m)
  {
    var r, f := o.s, s.clocks[m];
    && Pair(r, t, m) && |r.status| == |r.clocks|
    && o.wake == (if f.waiting && (s.notificationNeeded || s.lowestTid != m) then m else -1)
    && !r.status[t].lowestClock && r.clocks[t].waiting && r.clocks[t].sleeping == sleeping && At(r, t) == stamp
    && r.clocks[m] == f.(pollIn := r.clocks[m].pollIn)
    && (o.wake == m ==> r.lowestTid == m && !r.notificationNeeded)
    && (!f.waiting && s.notificationNeeded ==> r.notificationNeeded)
    && (f.waiting && !s.notificationNeeded && s.lowestTid == m ==> r.lowestTid == m && !r.notificationNeeded)
  }

  lemma DecidesBehind(s: State, op: Op, p: State, o: Outcome, t: int, m: int)
    requires Pair(s, t, m) && (op.Stop? || op.Wait? || op.Sleep?) && op.t == t && DecidingFacts(s, p, o, op) && Good(p)
    requires Before(At(s, m), At(p, t)) && p.lowestTid == s.lowestTid
    ensures Behind(s, o, t, m, At(p, t), s.clocks[t].sleeping || op.Sleep?)
  {
    PairLowest(p, m, t);
  }

  lemma StopsBehind(s: State, t: int, d: nat, stack: seq<int>, m: int)
    requires Pair(s, t, m) && |stack| == STACK_SLOTS && (d == 0 || s.clocks[t].counting)
    requires Before(At(s, m), Stamp(s.clocks[t].Clock() + d, t))
    ensures Behind(s, Protocol.Stop(s, t, d, stack), t, m, Stamp(s.clocks[t].Clock() + d, t), s.clocks[t].sleeping)
  {
    var op := Op.Stop(t, d);
    DecidingStep(s, op, stack);
    PrefixKeepsGood(s, op);
    PrefixCounts(s, op);
    assert At(Prefix(s, op), t) == Stamp(s.clocks[t].Clock() + d, t);
    DecidesBehind(s, op, Prefix(s, op), Apply(s, op, stack), t, m);
  }

  lemma WaitsBehind(s: State, t: int, stack: seq<int>, m: int)
    requires Pair(s, t, m) && |stack| == STACK_SLOTS && Before(At(s, m), At(s, t))
    ensures Behind(s, Protocol.Wait(s, t, stack), t, m, At(s, t), s.clocks[t].sleeping)
  {
    DecidingStep(s, Op.Wait(t), stack);
    DecidesBehind(s, Op.Wait(t), s, Apply(s, Op.Wait(t), stack), t, m);
  }

  lemma SleepsBehind(s: State, t: int, stack: seq<int>, m: int)
    requires Pair(s, t, m) && |stack| == STACK_SLOTS && Before(At(s, m), At(s, t)) && !Stranded(s, t)
    ensures Behind(s, Protocol.Sleep(s, t, stack), t, m, At(s, t), true)
  {
    DecidingStep(s, Op.Sleep(t), stack);
    DecidesBehind(s, Op.Sleep(t), s, Apply(s, Op.Sleep(t), stack), t, m);
  }

  /** a stops behind the sleeping b, which it wakes, and waits; b has not acknowledged yet. */
  lemma StopBehindSleeperStrands(s: State, a: int, b: int, d: nat, stack: seq<int>)
    requires Pair(s, a, b) && |stack| == STACK_SLOTS && s.notificationNeeded && s.clocks[a].counting
    requires s.clocks[b].waiting && s.clocks[b].sleeping && Before(At(s, b), Stamp(s.clocks[a].Clock() + d, a))
    ensures var woken := Protocol.Stop(s, a, d, stack);
            var r := Protocol.Wait(woken.s, a, stack).s;
            woken.wake == b && Pair(r, a, b) && Stranded(r, a) && TriesAgain(SleepPass(r, a, stack))
  {
    StopsBehind(s, a, d, stack, b);
    var s4 := Protocol.Stop(s, a, d, stack).s;
    WaitsBehind(s4, a, stack, b);
    var s5 := Protocol.Wait(s4, a, stack).s;
    PairLowest(s5, b, a);
    TriesAgainExactlyWhenStranded(s5, a, stack);
  }

  /**
  An ordinary cycle of two running threads, b ahead of a: b stops, waits and sleeps; a runs past b,
  stops -- which wakes b -- and waits. If b has not acknowledged its wake-up when a goes to sleep
  too, a is stranded: its loop spins with the group lock held (SleepLoop.StrandedForever), and b's
  acknowledgement needs that lock.
  */
  lemma SleepBeforeAcknowledgementHangs(s: State, a: int, b: int, d: nat, stack: seq<int>)
    requires Pair(s, b, a) && |stack| == STACK_SLOTS && s.notificationNeeded && s.clocks[a].counting
    requires !s.clocks[a].waiting && !s.clocks[a].sleeping && !s.clocks[b].sleeping
    requires Before(At(s, a), At(s, b)) && Before(At(s, b), Stamp(s.clocks[a].Clock() + d, a))
    ensures var s1 := Protocol.Stop(s, b, 0, stack).s;
            var s2 := Protocol.Wait(s1, b, stack).s;
            && !Stranded(s2, b)
            && var s3 := Protocol.Sleep(s2, b, stack).s;
            var woken := Protocol.Stop(s3, a, d, stack);
            var s5 := Protocol.Wait(woken.s, a, stack).s;
            woken.wake == b && Pair(s5, a, b) && Stranded(s5, a) && TriesAgain(SleepPass(s5, a, stack))
  {
    StopsAndWaitsAhead(s, a, b, stack);
    var s2 := Protocol.Wait(Protocol.Stop(s, b, 0, stack).s, b, stack).s;
    SleepsBehind(s2, b, stack, a);
    StopBehindSleeperStrands(Protocol.Sleep(s2, b, stack).s, a, b, d, stack);
  }

  /** b stops behind the running a and waits: nobody is woken, and the notification stays owed. */
  lemma StopsAndWaitsAhead(s: State, a: int, b: int, stack: seq<int>)
    requires Pair(s, b, a) && |stack| == STACK_SLOTS && s.notificationNeeded && Before(At(s, a), At(s, b))
    requires !s.clocks[a].waiting && !s.clocks[a].sleeping && !s.clocks[b].sleeping
    ensures var s2 := Protocol.Wait(Protocol.Stop(s, b, 0, stack).s, b, stack).s;
            && Pair(s2, b, a) && At(s2, b) == At(s, b) && s2.notificationNeeded && !Stranded(s2, b)
            && s2.clocks[a] == s.clocks[a].(pollIn := s2.clocks[a].pollIn)
  {
    StopsBehind(s, b, 0, stack, a);
    WaitsBehind(Protocol.Stop(s, b, 0, stack).s, b, stack, a);
  }

  // ----- a newcomer that takes the lead without being the minimum

  /**
  Thread r is the minimum when it starts, so it is recorded; it runs past w; n comes back between
  the two. The comparison with the record gives n the lead, and user space takes the flag for a
  turn, although w is the minimum.
  */
  lemma NewcomerIsMisled(s: State, r: int, w: int, n: int, d: nat, stack: seq<int>)
    requires Pair(s, r, w) && |stack| == STACK_SLOTS && 0 <= n < |s.clocks| && n !in s.active && s.clocks[n].initialized
    requires Before(At(s, r), At(s, w)) && Before(At(s, w), At(s, n)) && Before(At(s, n),
        Stamp(s.clocks[r].Clock() + d, r))
    ensures var ran := OverflowUpdatePeriod(OnEnable(s, r, stack).s, r, d);
            var joined := Protocol.Activate(ran, n);
            joined.lowestTid == n && joined.status[n].lowestClock && w in joined.active && Lowest(joined) == w
  {
    var started := OnEnable(s, r, stack).s;
    StartsAsMinimum(s, r, w, stack);
    assert started.clocks[n] == s.clocks[n];
    var ran := OverflowUpdatePeriod(started, r, d);
    CreditOnlyCounts(started, r, d);
    GroupKept(started, Op.Credit(r, d), stack);
    ActivateMisleads(ran, r, w, n);
  }

  lemma StartsAsMinimum(s: State, r: int, w: int, stack: seq<int>)
    requires Pair(s, r, w) && |stack| == STACK_SLOTS && Before(At(s, r), At(s, w))
    ensures var o := OnEnable(s, r, stack).s;
            && Pair(o, r, w) && o.lowestTid == r && o.clocks[r].counting && o.clocks[r].Clock() == s.clocks[r].Clock()
            && |o.clocks| == |s.clocks| && At(o, w) == At(s, w)
            && forall i :: 0 <= i < |s.clocks| && i != r && i != w ==> o.clocks[i] == s.clocks[i]
  {
    var op := Op.Enable(r);
    var p := Prefix(s, op);
    DecidingStep(s, op, stack);
    PrefixKeepsGood(s, op);
    assert p.clocks[r].Clock() == s.clocks[r].Clock() by {
      PrefixCounts(s, op);
    }
    PairLowest(p, r, w);
    StartedFacts(s, r, w, p, Apply(s, op, stack));
  }

  lemma StartedFacts(s: State, r: int, w: int, p: State, o: Outcome)
    requires Pair(s, r, w) && DecidingFacts(s, p, o, Op.Enable(r)) && Lowest(p) == r
    ensures Pair(o.s, r, w) && o.s.lowestTid == r && o.s.clocks[r].counting
    ensures o.s.clocks[r].Clock() == s.clocks[r].Clock()
    ensures forall i :: 0 <= i < |s.clocks| && i != r ==> o.s.clocks[i] == s.clocks[i]
  {
  }

  lemma ActivateMisleads(s: State, r: int, w: int, n: int)
    requires Pair(s, r, w) && s.lowestTid == r && 0 <= n < |s.clocks| && n !in s.active && s.clocks[n].initialized
    requires Before(At(s, w), At(s, n)) && Before(At(s, n), At(s, r))
    ensures var joined := Protocol.Activate(s, n);
            joined.lowestTid == n && joined.status[n].lowestClock && w in joined.active && Lowest(joined) == w
  {
    PairLowest(s, w, r);
    ActivateLeadsWhen(s, n);
    LeadIsVisible(s, n);
  }
}
