/**
Who gets the turn, and in which order, along every run of the group.
*/
module Turns {
  import opened Clocks
  import opened Protocol
  import opened Grants
  import opened Paths
  import opened Merges
  import opened Runs

  /** No operation turns a clock back; every listed thread was listed before or has just joined. */
  ghost predicate Forward(s: State, r: State) {
    && |r.clocks| == |s.clocks|
    && forall i :: 0 <= i < |s.clocks| && i in r.active && i in s.active ==> r.clocks[i].Clock() >= s.clocks[i].Clock()
  }

  /** Who is granted and who is woken, seen from the state after the decision. */
  ghost predicate GrantsRightly(p: State, r: State, t: int, wake: int)
    requires WF(p) && WF(r) && 0 <= t < |p.clocks| == |r.clocks|
  {
    var m := Lowest(p);
    && r.active == p.active && SameStamps(p.clocks, r.clocks) && Lowest(r) == m
    && (r.status[t].lowestClock <==> m == t)
    && wake == (if m >= 0 && m != t && p.clocks[m].waiting && (p.notificationNeeded || m != p.lowestTid) then m else -1)
    && (wake >= 0 ==> r.lowestTid == wake && r.clocks[wake].waiting)
  }

  lemma DetermineGrants(p: State, t: int, stack: seq<int>)
    requires Caller(p, t, stack) && Good(p) && ListedOrHalted(p, t)
    ensures GrantsRightly(p, Determine(p, t, stack).s, t, Determine(p, t, stack).wake)
    ensures p.clocks[t].inactive == Determine(p, t, stack).s.clocks[t].inactive
  {
    DetermineExact(p, t, stack);
    DetermineEffect(p, t, stack);
  }

  lemma GrantsThroughSuffix(p: State, d: Outcome, op: Op)
    requires WF(p) && WF(d.s) && Deciding(op) && 0 <= op.t < |p.clocks| == |d.s.clocks|
    requires op.Enable? ==> !d.s.clocks[op.t].inactive
    requires GrantsRightly(p, d.s, op.t, d.wake)
    ensures GrantsRightly(p, Suffix(d.s, op), op.t, d.wake)
  {
    var r := Suffix(d.s, op);
    assert SameStamps(d.s.clocks, r.clocks);
    ScanOfSameStamps(d.s.clocks, r.clocks, d.s.active);
  }

  lemma GrantsThroughWakeUp(p: State, o: Outcome, t: int)
    requires WF(p) && WF(o.s) && 0 <= t < |p.clocks| == |o.s.clocks|
    requires GrantsRightly(p, o.s, t, o.wake)
    ensures GrantsRightly(p, Deliver(o), t, o.wake)
  {
    var r := Deliver(o);
    assert SameStamps(o.s.clocks, r.clocks);
    ScanOfSameStamps(o.s.clocks, r.clocks, o.s.active);
  }

  lemma DecidingGrantsFrom(s: State, op: Op, stack: seq<int>)
    requires GroupInv(s) && Enabled(s, op) && Deciding(op) && |stack| == STACK_SLOTS
    ensures GrantsRightly(Prefix(s, op), Apply(s, op, stack).s, op.t, Apply(s, op, stack).wake)
  {
    var p := Prefix(s, op);
    PrefixEffect(s, op);
    PrefixKeepsGood(s, op);
    DetermineGrants(p, op.t, stack);
    ApplyInParts(s, op, stack);
    var d := Determine(p, op.t, stack);
    GrantsThroughSuffix(p, d, op);
    GrantsThroughWakeUp(p, Outcome(Suffix(d.s, op), d.wake), op.t);
  }

  lemma DecidingGrants(s: State, op: Op, stack: seq<int>)
    requires GroupInv(s) && Enabled(s, op) && Deciding(op) && |stack| == STACK_SLOTS
    ensures var o := Apply(s, op, stack);
            && Good(o.s) && Forward(s, o.s) && (forall i :: i in o.s.active ==> i in s.active)
            && (o.s.status[op.t].lowestClock <==> Lowest(o.s) == op.t)
            && (o.wake >= 0 ==> o.wake == Lowest(o.s) == o.s.lowestTid && o.wake != op.t && o.s.clocks[o.wake].waiting)
  {
    DecidingGrantsFrom(s, op, stack);
    PrefixEffect(s, op);
    PrefixKeepsGood(s, op);
    ForwardThrough(s, Prefix(s, op), Apply(s, op, stack).s, op.t);
  }

  lemma ForwardThrough(s: State, p: State, r: State, t: int)
    requires OnlyCounts(s, p, t) && SameStamps(p.clocks, r.clocks)
    ensures Forward(s, r)
  {
  }

  // ----- every step

  /** The thread a step grants the turn to: the caller at once, or the thread it wakes, or -1. */
  ghost function Granted(x: Run, step: Step): int
    requires CanStep(x, step)
  {
    var o, t := Apply(x.s, step.op, step.stack), Decider(step.op);
    if t >= 0 && o.s.status[t].lowestClock then t else o.wake
  }

  /**
  Grant safety: whoever a step grants the turn to -- by itself, by waking, or in the deferred
  notification -- is at that moment the unique minimum of the listed threads, all of them live;
  and a woken thread is one that waits and is recorded as the lowest.
  */
  lemma GrantSafety(x: Run, step: Step)
    requires GroupInv(x.s) && CanStep(x, step)
    ensures var g, r := Granted(x, step), Next(x, step).s;
            && Good(r)
            && (g >= 0 ==> First(r, g))
            && (g >= 0 && g != Decider(step.op) ==> r.lowestTid == g && r.clocks[g].waiting)
  {
    var op := step.op;
    var r := Next(x, step).s;
    if Deciding(op) {
      DecidingGrants(x.s, op, step.stack);
    } else if op.Notify? {
      NotifyGrants(x.s, step.stack);
    } else {
      QuietKeeps(x.s, op, step.stack, seq(|x.s.clocks|, i => true));
    }
    GroupKept(x.s, op, step.stack);
    LowestIsUniqueMinimum(r);
  }

  lemma NotifyGrants(s: State, stack: seq<int>)
    requires GroupInv(s) && |stack| == STACK_SLOTS
    ensures var o := NotifyWaiting(s, stack);
            && o.s.active == s.active && SameStamps(s.clocks, o.s.clocks)
            && (o.wake >= 0 ==> o.wake == Lowest(o.s) == o.s.lowestTid && o.s.clocks[o.wake].waiting)
  {
    NotifyExact(s, stack);
    ScanOfSameStamps(s.clocks, NotifyWaiting(s, stack).s.clocks, s.active);
  }

  // ----- the order of the turns

  /** Every past turn lies at or before every thread that could still get one. */
  ghost predicate PastIsBehind(s: State, g: seq<Stamp>)
    requires WF(s)
  {
    forall a, i :: 0 <= a < |g| && i in s.active ==> NotAfter(g[a], At(s, i))
  }

  /** A thread with a history may come back only where no turn has been granted beyond it. */
  ghost predicate InOrder(x: Run, step: Step)
    requires CanStep(x, step)
  {
    match step.op
    case Activate(t) => forall a :: 0 <= a < |x.grants| ==> NotAfter(x.grants[a], At(x.s, t))
    case ActivateOther(t, id) =>
      x.s.clocks[id].initialized ==> forall a :: 0 <= a < |x.grants| ==> NotAfter(x.grants[a], At(x.s, id))
    case _ => true
  }

  /** A fresh thread starts right behind its activator, so it is always in order. */
  lemma FreshThreadNeverPrecedes(s: State, t: int, id: int)
    requires GroupInv(s) && t in s.active && 0 <= id < |s.clocks| && id !in s.active && !s.clocks[id].initialized
    ensures var r := Protocol.ActivateOther(s, t, id);
            && At(r, id) == Stamp(s.clocks[t].Clock() + 1, id)
            && Before(At(r, t), At(r, id))
            && Lowest(r) == Lowest(s) && Lowest(r) != id
  {
    var r := Protocol.ActivateOther(s, t, id);
    ActivateOtherEffect(s, t, id);
    LowestOfJoined(s, r, id);
    LowestIsUniqueMinimum(s);
  }

  lemma ForwardKeepsPast(s: State, r: State, g: seq<Stamp>)
    requires WF(s) && WF(r) && Forward(s, r) && PastIsBehind(s, g)
    requires forall i :: i in r.active ==> i in s.active
    ensures PastIsBehind(r, g)
  {
    forall a, i | 0 <= a < |g| && i in r.active ensures NotAfter(g[a], At(r, i)) {
      assert NotAfter(g[a], At(s, i));
    }
  }

  lemma JoinKeepsPast(s: State, r: State, id: int, g: seq<Stamp>)
    requires WF(s) && WF(r) && 0 <= id < |s.clocks| == |r.clocks| && r.active == s.active + [id] && PastIsBehind(s, g)
    requires forall i :: i in s.active ==> At(r, i) == At(s, i)
    requires forall a :: 0 <= a < |g| ==> NotAfter(g[a], At(r, id))
    ensures PastIsBehind(r, g)
  {
  }

  lemma ActivateKeepsPast(s: State, t: int, g: seq<Stamp>)
    requires GroupInv(s) && 0 <= t < |s.clocks| && t !in s.active && s.clocks[t].initialized && PastIsBehind(s, g)
    requires forall a :: 0 <= a < |g| ==> NotAfter(g[a], At(s, t))
    ensures PastIsBehind(Protocol.Activate(s, t), g)
  {
    PrepareActivateEffect(s, t);
    assert Protocol.Activate(s, t).clocks == PrepareActivate(s, t).clocks;
    JoinKeepsPast(s, Protocol.Activate(s, t), t, g);
  }

  lemma ActivateOtherKeepsPast(s: State, t: int, id: int, g: seq<Stamp>)
    requires GroupInv(s) && t in s.active && 0 <= id < |s.clocks| && id !in s.active && PastIsBehind(s, g)
    requires s.clocks[id].initialized ==> forall a :: 0 <= a < |g| ==> NotAfter(g[a], At(s, id))
    ensures PastIsBehind(Protocol.ActivateOther(s, t, id), g)
  {
    ActivateOtherEffect(s, t, id);
    assert forall a :: 0 <= a < |g| ==> NotAfter(g[a], At(s, t));
    JoinKeepsPast(s, Protocol.ActivateOther(s, t, id), id, g);
  }

  /** Listed threads only move forwards, and newcomers are in order. */
  lemma StepKeepsPastBehind(x: Run, step: Step)
    requires GroupInv(x.s) && CanStep(x, step) && InOrder(x, step) && PastIsBehind(x.s, x.grants)
    ensures PastIsBehind(Next(x, step).s, x.grants)
  {
    var op := step.op;
    match op
    case Activate(t) => ActivateKeepsPast(x.s, t, x.grants);
    case ActivateOther(t, id) => ActivateOtherKeepsPast(x.s, t, id, x.grants);
    case _ =>
      StepMovesForward(x.s, op, step.stack);
      ForwardKeepsPast(x.s, Next(x, step).s, x.grants);
  }

  lemma StepMovesForward(s: State, op: Op, stack: seq<int>)
    requires GroupInv(s) && Enabled(s, op) && !op.Activate? && !op.ActivateOther? && |stack| == STACK_SLOTS
    ensures Forward(s, Apply(s, op, stack).s) && forall i :: i in Apply(s, op, stack).s.active ==> i in s.active
  {
    if op.Notify? {
      NotifyGrants(s, stack);
    } else if Deciding(op) {
      DecidingGrants(s, op, stack);
    } else {
      CountingMovesForward(s, op, stack);
    }
  }

  lemma CountingMovesForward(s: State, op: Op, stack: seq<int>)
    requires GroupInv(s) && Enabled(s, op) && |stack| == STACK_SLOTS
    requires !Deciding(op) && !op.Notify? && !op.Activate? && !op.ActivateOther?
    ensures Forward(s, Apply(s, op, stack).s) && Apply(s, op, stack).s.active == s.active
  {
    match op
    case Credit(t, d) => CreditMovesForward(s, t, d);
    case StopNoNotify(t, d) => StoppingOnlyCounts(s, t, d);
    case _ =>
  }

  lemma CreditMovesForward(s: State, t: int, d: nat)
    requires WF(s) && 0 <= t < |s.clocks|
    ensures Forward(s, OverflowUpdatePeriod(s, t, d)) && OverflowUpdatePeriod(s, t, d).active == s.active
  {
  }

  /** One step keeps the turns in order. */
  lemma StepKeepsOrder(x: Run, step: Step)
    requires GroupInv(x.s) && CanStep(x, step) && InOrder(x, step)
    requires InTurnOrder(x.grants) && PastIsBehind(x.s, x.grants)
    ensures InTurnOrder(Next(x, step).grants) && PastIsBehind(Next(x, step).s, Next(x, step).grants)
  {
    StepKeepsPastBehind(x, step);
    GrantSafety(x, step);
    var g, y := Granted(x, step), Next(x, step);
    assert y.grants == x.grants + if g >= 0 then [At(y.s, g)] else [];
    if g >= 0 {
      LowestTurnIsLast(y.s, x.grants, g);
    }
  }

  /** A turn of the minimum comes after the past, and is behind everybody. */
  lemma LowestTurnIsLast(s: State, g: seq<Stamp>, t: int)
    requires WF(s) && InTurnOrder(g) && PastIsBehind(s, g)
    requires First(s, t)
    ensures InTurnOrder(g + [At(s, t)]) && PastIsBehind(s, g + [At(s, t)])
  {
    assert forall a :: 0 <= a < |g| ==> NotAfter(g[a], At(s, t));
  }

  // ----- the condition on returning threads is needed

  predicate Joins(op: Op) {
    op.Activate? || op.ActivateOther?
  }

  function Newcomer(op: Op): int
    requires Joins(op)
  {
    if op.Activate? then op.t else op.id
  }

  lemma JoiningGrantsNobody(x: Run, step: Step)
    requires GroupInv(x.s) && CanStep(x, step) && Joins(step.op)
    ensures var y, id := Next(x, step), Newcomer(step.op);
            && GroupInv(y.s) && y.grants == x.grants && y.s.active == x.s.active + [id]
            && (forall i :: i in x.s.active ==> At(y.s, i) == At(x.s, i))
            && (x.s.clocks[id].initialized ==> At(y.s, id) == At(x.s, id))
  {
    GroupKept(x.s, step.op, step.stack);
    match step.op
    case Activate(t) => PrepareActivateEffect(x.s, t);
    case ActivateOther(t, id) => ActivateOtherEffect(x.s, t, id);
  }

  /** A thread that comes back before a past turn is the minimum. */
  lemma BeforeThePastIsLowest(s: State, r: State, id: int, g: Stamp)
    requires Good(s) && Good(r) && 0 <= id < |s.clocks| == |r.clocks| && r.active == s.active + [id] && id !in s.active
    requires forall i :: i in s.active ==> At(r, i) == At(s, i) && NotAfter(g, At(s, i))
    requires !NotAfter(g, At(r, id))
    ensures Lowest(r) == id
  {
    LowestIsUniqueMinimum(r);
    assert id in r.active;
    forall i | i in r.active && i != id ensures Before(At(r, id), At(r, i)) {
      assert i in s.active;
    }
  }

  /** The minimum is granted the turn when it stops, at the clock it has. */
  lemma LowestStopsGranted(y: Run, t: int, stack: seq<int>)
    requires GroupInv(y.s) && t in y.s.active && Lowest(y.s) == t && |stack| == STACK_SLOTS
    requires |y.notified| == |y.s.clocks|
    ensures Next(y, Step(Op.Stop(t, 0), stack)).grants == y.grants + [At(y.s, t)]
  {
    StoppingAtOnceKeepsStamps(y.s, t);
    DecidingGrantsFrom(y.s, Op.Stop(t, 0), stack);
  }

  lemma StoppingAtOnceKeepsStamps(s: State, t: int)
    requires WF(s) && 0 <= t < |s.clocks|
    ensures var p := Protocol.StopNoNotify(s, t, 0); SameStamps(s.clocks, p.clocks) && Lowest(p) == Lowest(s)
  {
    ScanOfSameStamps(s.clocks, Protocol.StopNoNotify(s, t, 0).clocks, s.active);
  }

  /**
  The newcomer is in order exactly when the turns stay in order should it stop at once: a thread that
  comes back before a past turn can be granted the next one.
  */
  lemma ComesBackInOrderExactlyWhen(x: Run, step: Step, stack: seq<int>)
    requires GroupInv(x.s) && CanStep(x, step) && Joins(step.op) && |stack| == STACK_SLOTS
    requires InTurnOrder(x.grants) && PastIsBehind(x.s, x.grants)
    ensures var y, stop := Next(x, step), Step(Op.Stop(Newcomer(step.op), 0), stack);
            CanStep(y, stop) && (InOrder(x, step) <==> InTurnOrder(Next(y, stop).grants))
  {
    var y, stop := Next(x, step), Step(Op.Stop(Newcomer(step.op), 0), stack);
    JoiningGrantsNobody(x, step);
    if InOrder(x, step) {
      StepKeepsOrder(x, step);
      StepKeepsOrder(y, stop);
    } else {
      ComesBackTooEarly(x, step, stack);
    }
  }

  lemma ComesBackTooEarly(x: Run, step: Step, stack: seq<int>)
    requires GroupInv(x.s) && CanStep(x, step) && Joins(step.op) && |stack| == STACK_SLOTS
    requires PastIsBehind(x.s, x.grants) && !InOrder(x, step)
    ensures var y, stop := Next(x, step), Step(Op.Stop(Newcomer(step.op), 0), stack);
            CanStep(y, stop) && !InTurnOrder(Next(y, stop).grants)
  {
    var y, id := Next(x, step), Newcomer(step.op);
    JoiningGrantsNobody(x, step);
    var a :| 0 <= a < |x.grants| && !NotAfter(x.grants[a], At(x.s, id));
    BeforeThePastIsLowest(x.s, y.s, id, x.grants[a]);
    LowestStopsGranted(y, id, stack);
    TurnGoesBack(x.grants, a, At(y.s, id));
  }

  lemma TurnGoesBack(g: seq<Stamp>, a: nat, next: Stamp)
    requires a < |g| && !NotAfter(g[a], next)
    ensures !InTurnOrder(g + [next])
  {
    var h := g + [next];
    assert h[a] == g[a] && h[|g|] == next;
  }

  /** Any step, as long as a returning thread is in order. */
  ghost predicate OrderedStep(x: Run, step: Step, y: Run) {
    CanStep(x, step) && InOrder(x, step) && y == Next(x, step)
  }

  ghost predicate OrderedTrace(trace: seq<Run>, steps: seq<Step>) {
    Path((x: Run, step: Step, y: Run) => OrderedStep(x, step, y), trace, steps)
  }

  /**
  Turn order is monotone: the (clock, tid) pairs of the turns granted along a run never decrease,
  however late the deferred notifications run.
  */
  lemma {:induction false} TurnsNeverGoBack(trace: seq<Run>, steps: seq<Step>, k: nat)
    requires OrderedTrace(trace, steps) && k < |trace|
    requires var x := trace[0]; GroupInv(x.s) && InTurnOrder(x.grants) && PastIsBehind(x.s, x.grants)
    ensures var y := trace[k];
            && GroupInv(y.s) && trace[0].grants <= y.grants
            && InTurnOrder(y.grants) && PastIsBehind(y.s, y.grants)
  {
    if k == 0 {
    } else {
      TurnsNeverGoBack(trace, steps, k - 1);
      assert OrderedStep(trace[k-1], steps[k-1], trace[k]);
      GroupKept(trace[k-1].s, steps[k-1].op, steps[k-1].stack);
      StepKeepsOrder(trace[k-1], steps[k-1]);
    }
  }
}
