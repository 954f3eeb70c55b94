/**
The running starts from which a late notification can bring the client cycle to a stop without
anybody spinning: exactly those in which a notification is still scheduled, with nothing owed or
flagged any more, for several threads.
*/
module Stalls {
  import opened ListArrays
  import opened Clocks
  import opened Protocol
  import opened Grants
  import opened SleepLoop
  import opened Runs
  import opened Turns
  import opened Merges
  import opened Paths
  import opened Schedule
  import opened Completion

  /**
  Nobody spins, but everybody listed waits without a grant to see, nothing is owed, flagged or
  scheduled, and no further steps lead to the end.
  */
  ghost predicate Stalled(y: Sys) {
    && Sized(y) && y.spinning == -1 && y.s.active != []
    && (forall i :: i in y.s.active ==> y.phase[i].Stopped? && y.s.clocks[i].waiting && !MayProceed(y.s, i))
    && !y.s.notificationNeeded && !y.s.nmiNewLow && !y.s.queued
    && !CanFinish(y)
  }

  ghost predicate CanStall(x: Sys) {
    exists steps, y :: Reaches(x, steps, y) && Stalled(y)
  }

  lemma StallsAfter(x: Sys, step: Step)
    requires Allowed(x, step) && CanStall(After(x, step))
    ensures CanStall(x)
  {
    var steps, y :| Reaches(After(x, step), steps, y) && Stalled(y);
    StepBefore(Cycle(), x, step, After(x, step), steps, y);
    assert Reaches(x, [step] + steps, y);
  }

  // ----- decisions that change neither the record nor what is owed

  ghost predicate Quiet(x: Sys) {
    Ok(x) && !x.s.notificationNeeded && !x.s.nmiNewLow
  }

  /** The thread stops, or waits again, behind another thread whose record stands. */
  ghost predicate Stays(x: Sys, step: Step, m: int) {
    && Quiet(x) && Allowed(x, step) && m == Lowest(x.s)
    && (step.op.Stop? || ((step.op.Wait? || step.op.Sleep?) && x.phase[step.op.t] == Stopped(false)))
    && m != step.op.t
    && (m >= 0 ==> x.s.lowestTid == if x.s.clocks[m].waiting || step.stack[m] == 1 then m else -1)
  }

  /** Then its request stays open, and all others are left alone. */
  ghost predicate Unanswered(x: Sys, y: Sys, t: int, sleeps: bool) {
    && Quiet(x) && Quiet(y) && |y.phase| == |x.phase| && 0 <= t < |x.phase|
    && y.s.active == x.s.active && y.s.lowestTid == x.s.lowestTid && Lowest(y.s) == Lowest(x.s)
    && y.s.queued == x.s.queued
    && y.phase == x.phase[t := Stopped(false)] && y.todo == x.todo
    && y.s.clocks[t].sleeping == sleeps
    && forall i :: 0 <= i < |x.phase| && i != t ==> y.s.clocks[i] == x.s.clocks[i]
  }

  lemma RecordStands(x: Sys, step: Step, m: int)
    requires Stays(x, step, m)
    ensures m in x.s.active && Apply(x.s, step.op, step.stack).s.lowestTid == x.s.lowestTid
    ensures Apply(x.s, step.op, step.stack).wake == -1
  {
    var t, p := step.op.t, Prefix(x.s, step.op);
    LowestIsUniqueMinimum(x.s);
    DecidingAfter(x, step);
    if OnlyActive(p, t) {
      OnlyMember(x.s.active, t);
    }
    RecordedExactly(x.s, step.op, step.stack);
  }

  lemma StaysUnanswered(x: Sys, step: Step, m: int)
    requires Stays(x, step, m)
    ensures Unanswered(x, After(x, step), step.op.t, step.op.Sleep? || x.s.clocks[step.op.t].sleeping)
    ensures After(x, step).spinning == Spinner(x.s, step.op)
  {
    RecordStands(x, step, m);
    PrefixEffect(x.s, step.op);
    DecidingAfter(x, step);
    StepKeepsOk(x, step);
    StaysFromFacts(x, step, m, Prefix(x.s, step.op), Apply(x.s, step.op, step.stack), After(x, step));
  }

  lemma StaysFromFacts(x: Sys, step: Step, m: int, p: State, o: Outcome, y: Sys)
    requires Stays(x, step, m) && Schedule.Steps(x, step, p, o, y) && Ok(y)
    requires p.active == x.s.active && m in x.s.active && o.wake == -1 && o.s.lowestTid == x.s.lowestTid
    ensures Unanswered(x, y, step.op.t, step.op.Sleep? || x.s.clocks[step.op.t].sleeping)
  {
    var t := step.op.t;
    assert Lowest(p) == m && y.phase[t] == Stopped(false) && y.todo[t] == x.todo[t];
    assert y.phase == x.phase[t := Stopped(false)] && y.todo == x.todo;
  }

  // ----- at the end nobody moves any more

  /** Everybody waits; c is the minimum, sleeps, and is recorded with nothing owed. */
  ghost predicate Doomed(x: Sys, c: int) {
    && Quiet(x) && !x.s.queued && c in x.s.active && x.s.clocks[c].sleeping && x.s.lowestTid == c == Lowest(x.s)
    && forall i :: i in x.s.active ==> x.phase[i] == Stopped(false)
  }

  lemma DoomedStays(x: Sys, step: Step, c: int)
    requires Doomed(x, c) && Allowed(x, step)
    ensures Doomed(After(x, step), c)
  {
    assert ThreadOk(x, c);
    assert ThreadOk(x, step.op.t);
    StaysUnanswered(x, step, c);
  }

  /** The stale notification records the waiting minimum, and does nothing else. */
  lemma StaleNotification(x: Sys, step: Step, c: int)
    requires Quiet(x) && Allowed(x, step) && step.op.Notify? && c == Lowest(x.s) >= 0 && x.s.clocks[c].waiting
    ensures var y := After(x, step);
            && Quiet(y) && y == x.(s := y.s)
            && y.s == x.s.(lowestTid := c, lowestTicks := x.s.clocks[c].Clock(), queued := false)
            && Lowest(y.s) == c
  {
    StepKeepsOk(x, step);
    NotifyChanges(x.s, step.stack);
  }

  lemma {:induction false} DoomedAlong(run: seq<Sys>, steps: seq<Step>, c: int, k: nat)
    requires Interleaving(run, steps) && Doomed(run[0], c) && k <= |steps|
    ensures Doomed(run[k], c)
  {
    if k == 0 {
    } else {
      DoomedAlong(run, steps, c, k - 1);
      assert Moves(run[k - 1], steps[k - 1], run[k]);
      DoomedStays(run[k - 1], steps[k - 1], c);
    }
  }

  lemma DoomedStalls(x: Sys, c: int)
    requires Doomed(x, c) && x.spinning == -1
    ensures CanStall(x)
  {
    if CanFinish(x) {
      var steps, y :| Reaches(x, steps, y) && Finished(y);
      var run :| Interleaving(run, steps) && run[0] == x && run[|steps|] == y;
      DoomedAlong(run, steps, c, |steps|);
      assert false;
    }
    forall i | i in x.s.active ensures x.s.clocks[i].waiting && !MayProceed(x.s, i) {
      assert ThreadOk(x, i);
    }
    ConnectsItself(Cycle(), x);
    assert Reaches(x, [], x);
  }

  // ----- the way there, last part first

  /** Thread i runs, and has come to its next request. */
  ghost predicate Ready(x: Sys, i: int)
    requires Sized(x) && 0 <= i < |x.phase|
  {
    x.phase[i] == Running && x.todo[i] != [] && x.todo[i][0] == x.s.clocks[i].Clock()
  }

  /** c is the minimum, asleep, and recorded; the threads below k have stopped behind it, the others are about to. */
  ghost predicate WindsDown(x: Sys, c: int, k: nat) {
    && Quiet(x) && x.spinning == -1 && !x.s.queued
    && c in x.s.active && x.s.clocks[c].sleeping && x.s.lowestTid == c == Lowest(x.s) && x.phase[c] == Stopped(false)
    && forall i :: i in x.s.active && i != c ==> if i < k then x.phase[i] == Stopped(false) else Ready(x, i)
  }

  lemma StillWindsDown(x: Sys, y: Sys, c: int, k: nat, sleeps: bool)
    requires WindsDown(x, c, k) && Unanswered(x, y, k, sleeps) && y.spinning == -1 && k != c
    ensures WindsDown(y, c, k + 1)
  {
  }

  lemma {:induction false} WindsDownToAStall(x: Sys, c: int, k: nat, stack: seq<int>)
    requires WindsDown(x, c, k) && k <= |x.phase| && |stack| == STACK_SLOTS
    ensures CanStall(x)
    decreases |x.phase| - k
  {
    if k == |x.phase| {
      DoomedStalls(x, c);
    } else if k == c || k !in x.s.active {
      WindsDownToAStall(x, c, k + 1, stack);
    } else {
      var step := Step(Op.Stop(k, 0), stack);
      assert ThreadOk(x, c) && ThreadOk(x, k);
      StaysUnanswered(x, step, c);
      StillWindsDown(x, After(x, step), c, k, x.s.clocks[k].sleeping);
      WindsDownToAStall(After(x, step), c, k + 1, stack);
      StallsAfter(x, step);
    }
  }

  /** c has gone to sleep, a notification is scheduled, and c precedes everybody else's next request. */
  ghost predicate Bides(x: Sys, c: int) {
    && Quiet(x) && x.spinning == -1 && x.s.queued
    && c in x.s.active && x.s.clocks[c].sleeping && x.phase[c] == Stopped(false)
    && forall i :: i in x.s.active && i != c ==>
          x.phase[i] == Running && x.todo[i] != [] && x.todo[i][0] > x.s.clocks[c].Clock()
  }

  lemma BidesToAStall(x: Sys, c: int, stack: seq<int>)
    requires Bides(x, c) && |stack| == STACK_SLOTS && forall i :: i in x.s.active && i != c ==> Ready(x, i)
    ensures CanStall(x)
  {
    assert c == Lowest(x.s) by {
      LowestIsUniqueMinimum(x.s);
    }
    assert ThreadOk(x, c);
    var step := Step(Op.Notify, stack);
    StaleNotification(x, step, c);
    WindsDownToAStall(After(x, step), c, 0, stack);
    StallsAfter(x, step);
  }

  /** Thread t has been credited up to its request, and nothing else has changed. */
  ghost predicate BroughtTo(x: Sys, y: Sys, t: int) {
    && Quiet(x) && Quiet(y) && y == x.(s := y.s) && y.s.active == x.s.active && |y.s.clocks| == |x.s.clocks|
    && 0 <= t < |x.phase| && Ready(y, t)
    && y.s.lowestTid == x.s.lowestTid && y.s.queued == x.s.queued
    && forall i :: 0 <= i < |x.phase| && i != t ==> y.s.clocks[i] == x.s.clocks[i]
  }

  lemma Credits(x: Sys, t: int, d: nat, stack: seq<int>)
    requires Quiet(x) && x.spinning == -1 && t in x.s.active && x.phase[t] == Running && |stack| == STACK_SLOTS
    requires x.todo[t] != [] && x.s.clocks[t].Clock() + d == x.todo[t][0]
    ensures var step := Step(Op.Credit(t, d), stack);
            Allowed(x, step) && BroughtTo(x, After(x, step), t)
  {
    assert ThreadOk(x, t);
    CreditOnlyCounts(x.s, t, d);
    StepKeepsOk(x, Step(Op.Credit(t, d), stack));
  }

  /** c has come to its request, the others to theirs, and only a is still before that. */
  ghost predicate Leads(x: Sys, a: int, c: int) {
    && Approaches(x, a, c) && Ready(x, c) && Lowest(x.s) == a
    && forall i :: i in x.s.active && i != a && i != c ==> Ready(x, i)
  }

  /** c stops behind a and goes to sleep; then a runs past it. */
  lemma PassesToAStall(x: Sys, a: int, c: int, stack: seq<int>)
    requires Leads(x, a, c) && |stack| == STACK_SLOTS && stack[a] == if x.s.lowestTid == a then 1 else 0
    ensures CanStall(x)
  {
    assert ThreadOk(x, a) && ThreadOk(x, c);
    var stop := Step(Op.Stop(c, 0), stack);
    StaysUnanswered(x, stop, a);
    SleepsToAStall(x, After(x, stop), a, c, stack);
    StallsAfter(x, stop);
  }

  lemma SleepsToAStall(w: Sys, x: Sys, a: int, c: int, stack: seq<int>)
    requires Leads(w, a, c) && Unanswered(w, x, c, false) && x.spinning == -1
    requires |stack| == STACK_SLOTS && stack[a] == if x.s.lowestTid == a then 1 else 0
    ensures CanStall(x)
  {
    var sleep := Step(Op.Sleep(c), stack);
    assert ThreadOk(w, a) && ThreadOk(x, c);
    assert !Stranded(x.s, c) by {
      assert a in x.s.active && !x.s.clocks[a].sleeping;
    }
    StaysUnanswered(x, sleep, a);
    var y := After(x, sleep);
    SleepsInPlace(w, x, y, a, c);
    RunsPastToAStall(y, a, c, stack);
    StallsAfter(x, sleep);
  }

  lemma SleepsInPlace(w: Sys, x: Sys, y: Sys, a: int, c: int)
    requires Leads(w, a, c) && Unanswered(w, x, c, false) && Unanswered(x, y, c, true) && y.spinning == -1
    ensures Bides(y, c) && forall i :: i in y.s.active && i != c && i != a ==> Ready(y, i)
  {
    assert ThreadOk(y, c);
  }

  lemma RunsPastToAStall(x: Sys, a: int, c: int, stack: seq<int>)
    requires Bides(x, c) && a in x.s.active && a != c && |stack| == STACK_SLOTS
    requires forall i :: i in x.s.active && i != c && i != a ==> Ready(x, i)
    ensures CanStall(x)
  {
    assert ThreadOk(x, a);
    var d := x.todo[a][0] - x.s.clocks[a].Clock();
    var step := Step(Op.Credit(a, d), stack);
    Credits(x, a, d, stack);
    BidesToAStall(After(x, step), c, stack);
    StallsAfter(x, step);
  }

  /** Everybody runs, and c's next request comes after a's clock and before the other requests. */
  ghost predicate Approaches(x: Sys, a: int, c: int) {
    && Quiet(x) && x.spinning == -1 && x.s.queued && (x.s.lowestTid == -1 || x.s.lowestTid == a)
    && a in x.s.active && c in x.s.active && a != c && x.todo[c] != [] && x.s.clocks[a].Clock() < x.todo[c][0]
    && (forall i :: i in x.s.active ==> x.phase[i] == Running && x.todo[i] != [])
    && forall i :: i in x.s.active && i != c ==> x.todo[c][0] < x.todo[i][0]
  }

  lemma StillApproaches(x: Sys, y: Sys, a: int, c: int, k: nat)
    requires Approaches(x, a, c) && BroughtTo(x, y, k) && k != a
    requires forall i :: i in x.s.active && i < k && i != a ==> Ready(x, i)
    ensures Approaches(y, a, c) && forall i :: i in y.s.active && i <= k && i != a ==> Ready(y, i)
  {
  }

  lemma {:induction false} ApproachesAStall(x: Sys, a: int, c: int, k: nat, stack: seq<int>)
    requires Approaches(x, a, c) && k <= |x.phase|
    requires forall i :: i in x.s.active && i < k && i != a ==> Ready(x, i)
    requires |stack| == STACK_SLOTS && stack[a] == if x.s.lowestTid == a then 1 else 0
    ensures CanStall(x)
    decreases |x.phase| - k
  {
    if k == |x.phase| {
      assert a == Lowest(x.s) by {
        LowestIsUniqueMinimum(x.s);
      }
      PassesToAStall(x, a, c, stack);
    } else if k == a || k !in x.s.active {
      ApproachesAStall(x, a, c, k + 1, stack);
    } else {
      assert ThreadOk(x, k);
      var d := x.todo[k][0] - x.s.clocks[k].Clock();
      var step := Step(Op.Credit(k, d), stack);
      Credits(x, k, d, stack);
      StillApproaches(x, After(x, step), a, c, k);
      ApproachesAStall(After(x, step), a, c, k + 1, stack);
      StallsAfter(x, step);
    }
  }

  // ----- chunks that lead there

  /** Above every clock. */
  function Top(clocks: seq<Entry>): (top: nat)
    ensures forall i :: 0 <= i < |clocks| ==> clocks[i].Clock() < top
  {
    if clocks == [] then 0 else
      var n := |clocks| - 1;
      var top := Top(clocks[..n]);
      if clocks[n].Clock() < top then top else clocks[n].Clock() + 1
  }

  /** One chunk for each listed thread: c's ends at the top, the others' one instruction later. */
  function Chunks(s: State, c: int): (r: seq<seq<nat>>)
    ensures |r| == |s.clocks|
  {
    var top := Top(s.clocks);
    seq(|s.clocks|, i requires 0 <= i < |s.clocks| =>
      if i !in s.active then [] else [top - s.clocks[i].Clock() + if i == c then 0 else 1])
  }

  lemma ChunksApproach(s: State, a: int, c: int)
    requires AllRun(s) && Stale(s) && (s.lowestTid == -1 || s.lowestTid == a)
    requires a in s.active && c in s.active && a != c
    ensures Fresh(s, Chunks(s, c)) && Approaches(Begin(s, Chunks(s, c)), a, c)
  {
    var x := Begin(s, Chunks(s, c));
    BeginIsOk(s, Chunks(s, c));
    forall i | i in s.active ensures x.phase[i] == Running && x.todo[i] == [Top(s.clocks) + if i == c then 0 else 1] {
      PlannedRequest(s, c, i);
    }
  }

  lemma PlannedRequest(s: State, c: int, i: int)
    requires WF(s) && i in s.active
    ensures Plan(s, Chunks(s, c))[i] == [Top(s.clocks) + if i == c then 0 else 1]
  {
    OneRequest(s.clocks[i].Clock(), Chunks(s, c)[i]);
  }

  lemma OneRequest(clock: nat, chunks: seq<nat>)
    requires |chunks| == 1
    ensures Requests(clock, chunks) == [clock + chunks[0]]
  {
  }

  lemma StaleStartStalls(s: State)
    requires AllRun(s) && Stale(s)
    ensures exists chunks :: Fresh(s, chunks) && CanStall(Begin(s, chunks))
  {
    var a := if s.lowestTid >= 0 then s.lowestTid else s.active[0];
    var c := if s.active[0] == a then s.active[1] else s.active[0];
    ChunksApproach(s, a, c);
    ApproachesAStall(Begin(s, Chunks(s, c)), a, c, 0, seq(STACK_SLOTS, i => if s.lowestTid == a then 1 else 0));
  }

  // ----- the theorem

  lemma LiveNeverStalls(x: Sys)
    requires Live(x)
    ensures !CanStall(x)
  {
    if CanStall(x) {
      var steps, y :| Reaches(x, steps, y) && Stalled(y);
      CanFinishExactlyWhen(x, steps, y);
    }
  }

  /**
  From a start in which everybody listed runs, some chunks have an interleaving that stalls exactly
  when a stale notification is scheduled at the start.
  */
  lemma StartCanStallExactlyWhen(s: State)
    requires AllRun(s)
    ensures (exists chunks :: Fresh(s, chunks) && CanStall(Begin(s, chunks))) <==> Stale(s)
  {
    if Stale(s) {
      StaleStartStalls(s);
    } else if chunks :| Fresh(s, chunks) && CanStall(Begin(s, chunks)) {
      BeginIsOk(s, chunks);
      LiveNeverStalls(Begin(s, chunks));
    }
  }
}
