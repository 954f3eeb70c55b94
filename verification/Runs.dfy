/**
Whole runs of the group: every lock-held section together with its wake-up is one step, and so is
every interrupt. Three results hold along every run: the record of the lowest thread stays
meaningful, no wake-up is lost, and the turns that are granted never go back in time.
*/
module Runs {
  import opened ListArrays
  import opened Clocks
  import opened Protocol
  import opened Grants
  import opened SleepLoop
  import opened Paths

  datatype Op =
    | Credit(t: int, delta: nat)         // counter interrupt: credit the clock, choose a period
    | Overflow(t: int)                   // counter interrupt: look for a new lowest thread
    | Notify                             // the deferred notification, once it is scheduled
    | Stop(t: int, delta: nat)
    | StopNoNotify(t: int, delta: nat)
    | StartNoNotify(t: int)
    | Wait(t: int)
    | Sleep(t: int)
    | WokeUp(t: int)
    | Enable(t: int)
    | Disable(t: int, delta: nat)
    | AddTicks(t: int, ticks: nat)
    | Halt(t: int)
    | Activate(t: int)
    | ActivateOther(t: int, id: int)
    | Register(t: int)

  /** One step and what the scratch array held when it ran. */
  datatype Step = Step(op: Op, stack: seq<int>)

  /**
  A group with its history: `notified` marks the threads whose current wait has been answered,
  `grants` lists all turns granted so far.
  */
  datatype Run = Run(s: State, notified: seq<bool>, grants: seq<Stamp>)

  /** The thread that runs the decision as its own caller, and may be granted the turn; or -1. */
  function Decider(op: Op): int {
    match op
    case Stop(t, _) => t
    case Wait(t) => t
    case Sleep(t) => t
    case Enable(t) => t
    case Disable(t, _) => t
    case AddTicks(t, _) => t
    case _ => -1
  }

  ghost predicate Listed(s: State, t: int)
    requires WF(s)
  {
    t in s.active
  }

  /**
  The source's demands on the caller. A sleeper that SleepLoop.Stranded describes makes its first
  pass and then keeps the lock; letting the others go on regardless only adds runs.
  */
  ghost predicate Enabled(s: State, op: Op)
    requires WF(s)
  {
    match op
    case Notify => s.queued
    case Register(t) => 0 <= t < |s.clocks|
    case Activate(t) => 0 <= t < |s.clocks| && t !in s.active && s.clocks[t].initialized
    case ActivateOther(t, id) => Listed(s, t) && 0 <= id < |s.clocks| && id !in s.active
    case _ => Listed(s, op.t)
  }

  ghost predicate CanStep(x: Run, step: Step) {
    WF(x.s) && |x.notified| == |x.s.clocks| && |step.stack| == STACK_SLOTS && Enabled(x.s, step.op)
  }

  ghost function Apply(s: State, op: Op, stack: seq<int>): (o: Outcome)
    requires WF(s) && |stack| == STACK_SLOTS && Enabled(s, op)
    ensures WF(o.s) && |o.s.clocks| == |s.clocks| && -1 <= o.wake < |s.clocks|
  {
    match op
    case Credit(t, d) => Outcome(OverflowUpdatePeriod(s, t, d), -1)
    case Overflow(t) => Outcome(OverflowHandler(s, t), -1)
    case Notify => NotifyWaiting(s, stack)
    case Stop(t, d) => Protocol.Stop(s, t, d, stack)
    case StopNoNotify(t, d) => Outcome(Protocol.StopNoNotify(s, t, d), -1)
    case StartNoNotify(t) => Outcome(Protocol.StartNoNotify(s, t), -1)
    case Wait(t) => Protocol.Wait(s, t, stack)
    case Sleep(t) => Protocol.Sleep(s, t, stack)
    case WokeUp(t) => Outcome(Protocol.WokeUp(s, t), -1)
    case Enable(t) => OnEnable(s, t, stack)
    case Disable(t, d) => OnDisable(s, t, d, stack)
    case AddTicks(t, d) => Protocol.AddTicks(s, t, d, stack)
    case Halt(t) => Protocol.Halt(s, t, stack)
    case Activate(t) => Outcome(Protocol.Activate(s, t), -1)
    case ActivateOther(t, id) => Outcome(Protocol.ActivateOther(s, t, id), -1)
    case Register(t) => Outcome(EntryInit(s, t), -1)
  }

  /** The state in which a deciding operation takes its decision. */
  ghost function Prefix(s: State, op: Op): (p: State)
    requires WF(s) && Enabled(s, op)
    ensures WF(p) && |p.clocks| == |s.clocks|
  {
    match op
    case Stop(t, d) => Protocol.StopNoNotify(s, t, d)
    case Enable(t) => PrepareEnable(s, t)
    case Disable(t, d) => PrepareDisable(s, t, d)
    case AddTicks(t, d) => PrepareAddTicks(s, t, d)
    case Halt(t) => MarkInactive(s, t)
    case _ => s
  }

  predicate Deciding(op: Op) {
    Decider(op) >= 0 || op.Halt?
  }

  /** The bookkeeping of answered waits: t decided for itself, `wake` was woken. */
  ghost function Answered(notified: seq<bool>, t: int, granted: bool, wake: int): (r: seq<bool>)
    requires t < |notified| && -1 <= wake < |notified|
    ensures |r| == |notified|
  {
    var n := if t >= 0 then notified[t := granted] else notified;
    if wake >= 0 then n[wake := true] else n
  }

  ghost function Next(x: Run, step: Step): (y: Run)
    requires CanStep(x, step)
    ensures WF(y.s) && |y.notified| == |y.s.clocks| == |x.s.clocks|
  {
    var o := Apply(x.s, step.op, step.stack);
    var t := Decider(step.op);
    var granted := t >= 0 && o.s.status[t].lowestClock;
    Run(o.s, Answered(x.notified, t, granted, o.wake),
        x.grants + if granted then [At(o.s, t)] else if o.wake >= 0 then [At(o.s, o.wake)] else [])
  }

  // ----- one step

  /** From s to p only the caller's counting fields change, and its clock only forwards. */
  ghost predicate OnlyCounts(s: State, p: State, t: int) {
    && 0 <= t < |s.clocks| == |p.clocks|
    && (forall i :: 0 <= i < |s.clocks| && i != t ==> p.clocks[i] == s.clocks[i])
    && p.clocks[t].waiting == s.clocks[t].waiting && p.clocks[t].sleeping == s.clocks[t].sleeping
    && p.clocks[t].pollIn == s.clocks[t].pollIn
    && p.clocks[t].Clock() >= s.clocks[t].Clock()
    && p.clocks[t].initialized == s.clocks[t].initialized
    && |p.status| == |s.status| && (forall i :: 0 <= i < |s.status| && i != t ==> p.status[i] == s.status[i])
    && p.lowestTid == s.lowestTid
  }

  lemma CreditedFlags(e: Entry, d: nat)
    ensures var f := Credited(e, d).(counting := false);
            && f.waiting == e.waiting && f.sleeping == e.sleeping && f.pollIn == e.pollIn
            && f.initialized == e.initialized && f.Clock() >= e.Clock()
  {
  }

  lemma StoppingOnlyCounts(s: State, t: int, d: nat)
    requires WF(s) && 0 <= t < |s.clocks|
    ensures OnlyCounts(s, Protocol.StopNoNotify(s, t, d), t)
  {
    CreditedFlags(s.clocks[t], d);
    assert OnlyCounts(s, s, t);
  }

  lemma DisablingOnlyCounts(s: State, t: int, d: nat)
    requires WF(s) && 0 <= t < |s.clocks|
    ensures OnlyCounts(s, PrepareDisable(s, t, d), t)
  {
    CreditedFlags(s.clocks[t], d);
  }

  lemma EnablingOnlyCounts(s: State, t: int)
    requires WF(s) && 0 <= t < |s.clocks|
    ensures OnlyCounts(s, PrepareEnable(s, t), t) && PrepareEnable(s, t).clocks[t].inactive == s.clocks[t].inactive
  {
  }

  lemma AddingOnlyCounts(s: State, t: int, d: nat)
    requires WF(s) && 0 <= t < |s.clocks|
    ensures OnlyCounts(s, PrepareAddTicks(s, t, d), t)
  {
  }

  lemma HaltingOnlyCounts(s: State, t: int)
    requires WF(s) && 0 <= t < |s.clocks|
    ensures OnlyCounts(s, MarkInactive(s, t), t)
  {
  }

  /** Preparing a decision moves only the caller's clock, and only forwards. */
  lemma PrefixEffect(s: State, op: Op)
    requires Good(s) && Enabled(s, op) && Deciding(op)
    ensures var p := Prefix(s, op);
            && OnlyCounts(s, p, op.t)
            && p.active == (if op.Halt? then Without(s.active, op.t) else s.active)
            && p.clocks[op.t].initialized && p.clocks[op.t].inactive == op.Halt?
            && (p.notificationNeeded == (s.notificationNeeded || op.Disable?))
            && p.nmiNewLow == s.nmiNewLow && p.queued == s.queued
  {
    match op
    case Stop(t, d) => StoppingOnlyCounts(s, t, d);
    case Disable(t, d) => DisablingOnlyCounts(s, t, d);
    case Enable(t) => EnablingOnlyCounts(s, t);
    case AddTicks(t, d) => AddingOnlyCounts(s, t, d);
    case Halt(t) => HaltingOnlyCounts(s, t);
    case _ =>
  }

  lemma PrefixKeepsGood(s: State, op: Op)
    requires Good(s) && Enabled(s, op) && Deciding(op)
    ensures Good(Prefix(s, op)) && ListedOrHalted(Prefix(s, op), op.t)
    ensures forall i :: i in Prefix(s, op).active <==> i in s.active && !(op.Halt? && i == op.t)
  {
    PrefixEffect(s, op);
    WithoutElements(s.active, op.t);
  }

  /** What the operation does between the decision and the wake-up. */
  ghost function Suffix(d: State, op: Op): (r: State)
    requires WF(d) && Deciding(op) && 0 <= op.t < |d.clocks|
    ensures WF(r)
  {
    var e := d.clocks[op.t];
    match op
    case Sleep(t) => WithEntry(d, t, e.(sleeping := e.sleeping || e.waiting))
    case Enable(t) => ClearEntryState(if d.lowestTid == t then d.(notificationNeeded := true, nmiNewLow := false)
        else d, t)
    case Halt(t) => WithEntry(d, t, e.(waiting := false))
    case _ => d
  }

  lemma ApplyInParts(s: State, op: Op, stack: seq<int>)
    requires Good(s) && Enabled(s, op) && Deciding(op) && |stack| == STACK_SLOTS
    ensures var d := Determine(Prefix(s, op), op.t, stack);
            && (d.wake >= 0 ==> d.wake == d.s.lowestTid)
            && Apply(s, op, stack) == Complete(Outcome(Suffix(d.s, op), d.wake))
  {
    if op.Sleep? || op.Enable? || op.Halt? {
      ApplyWithSuffix(s, op, stack);
    } else {
      ApplyWithoutSuffix(s, op, stack);
    }
  }

  lemma ApplyWithoutSuffix(s: State, op: Op, stack: seq<int>)
    requires Good(s) && Enabled(s, op) && (op.Stop? || op.Wait? || op.Disable? || op.AddTicks?)
        && |stack| == STACK_SLOTS
    ensures var d := Determine(Prefix(s, op), op.t, stack);
            Suffix(d.s, op) == d.s && Apply(s, op, stack) == Complete(d)
  {
  }

  lemma ApplyWithSuffix(s: State, op: Op, stack: seq<int>)
    requires Good(s) && Enabled(s, op) && (op.Sleep? || op.Enable? || op.Halt?) && |stack| == STACK_SLOTS
    ensures var d := Determine(Prefix(s, op), op.t, stack);
            Apply(s, op, stack) == Complete(Outcome(Suffix(d.s, op), d.wake))
  {
  }

  // ----- the record of the lowest thread

  ghost predicate GroupInv(s: State) {
    Good(s) && RecordOk(s) && SleepersWait(s)
  }

  /**
  No lost wake-up: if the recorded lowest thread waits and no notification is owed any more,
  then that wait has been answered.
  */
  ghost predicate NothingLost(s: State, notified: seq<bool>)
    requires WF(s) && |notified| == |s.clocks|
  {
    s.lowestTid >= 0 && s.clocks[s.lowestTid].waiting && !s.notificationNeeded ==> notified[s.lowestTid]
  }

  /** Both, for a state in which thread t has just decided. */
  ghost predicate Settled(d: State, notified: seq<bool>, t: int)
    requires 0 <= t < |d.clocks| == |notified|
  {
    && GroupInv(d)
    && NothingLost(d, notified)
    && (d.lowestTid == t ==> !d.clocks[t].waiting)
  }

  lemma DecisionKeeps(p: State, t: int, stack: seq<int>, notified: seq<bool>)
    requires Caller(p, t, stack) && Good(p) && SleepersWait(p) && ListedOrHalted(p, t) && |notified| == |p.clocks|
    requires RecordOk(p) || (p.lowestTid == t && p.clocks[t].inactive)
    requires NothingLost(p, notified)
    ensures var d := Determine(p, t, stack);
            Settled(d.s, Answered(notified, t, d.s.status[t].lowestClock, d.wake), t)
  {
    DetermineExact(p, t, stack);
    DetermineEffect(p, t, stack);
    RecordedLowest(p, t, stack);
    LowestIsUniqueMinimum(p);
    if OnlyActive(p, t) {
      assert p.active == [p.active[0]];
    }
  }

  /** The promise made to the caller of a decision: a waiting minimum is granted, woken, or already answered. */
  lemma WaitingMinimumIsAnswered(p: State, t: int, stack: seq<int>, notified: seq<bool>)
    requires Caller(p, t, stack) && Good(p) && ListedOrHalted(p, t) && |notified| == |p.clocks|
    requires NothingLost(p, notified)
    ensures var d, m := Determine(p, t, stack), Lowest(p);
            m >= 0 && (m == t || p.clocks[m].waiting) ==>
              Answered(notified, t, d.s.status[t].lowestClock, d.wake)[m]
  {
    DetermineExact(p, t, stack);
  }

  lemma SuffixKeeps(d: State, op: Op, notified: seq<bool>)
    requires Deciding(op) && 0 <= op.t < |d.clocks| == |notified| && Settled(d, notified, op.t)
    requires if op.Halt? then op.t !in d.active else !d.clocks[op.t].inactive
    ensures Settled(Suffix(d, op), notified, op.t)
    ensures SameStamps(d.clocks, Suffix(d, op).clocks) && d.status == Suffix(d, op).status
  {
    var r := Suffix(d, op);
    assert forall i :: i in r.active && i != op.t ==> r.clocks[i] == d.clocks[i];
  }

  /** The wake-up touches nothing but poll flags and shared pages. */
  ghost predicate OnlyFlags(s: State, r: State) {
    && |r.clocks| == |s.clocks| && r.active == s.active
    && r.lowestTid == s.lowestTid && r.notificationNeeded == s.notificationNeeded
    && forall i :: 0 <= i < |s.clocks| ==> r.clocks[i] == s.clocks[i].(pollIn := r.clocks[i].pollIn)
  }

  lemma DeliverOnlyFlags(o: Outcome)
    requires WF(o.s) && (o.wake >= 0 ==> o.wake == o.s.lowestTid)
    ensures OnlyFlags(o.s, Deliver(o))
    ensures forall t :: 0 <= t < |o.s.clocks| && t != o.wake ==> Deliver(o).status[t] == o.s.status[t]
  {
    if o.wake >= 0 && o.s.clocks[o.wake].sleeping {
      assert Deliver(o) == o.s.(clocks := o.s.clocks[o.wake := o.s.clocks[o.wake].(pollIn := true)]);
    } else {
      assert Deliver(o).clocks == o.s.clocks;
    }
  }

  lemma DeliverKeeps(o: Outcome, notified: seq<bool>, t: int)
    requires 0 <= t < |o.s.clocks| == |notified| && Settled(o.s, notified, t)
    requires o.wake >= 0 ==> o.wake == o.s.lowestTid && o.wake != t
    ensures Settled(Deliver(o), notified, t)
    ensures SameStamps(o.s.clocks, Deliver(o).clocks) && Deliver(o).status[t] == o.s.status[t]
  {
    DeliverOnlyFlags(o);
    OnlyFlagsKeep(o.s, Deliver(o), notified, t);
  }

  lemma OnlyFlagsKeep(s: State, r: State, notified: seq<bool>, t: int)
    requires 0 <= t < |s.clocks| == |notified| && Settled(s, notified, t) && WF(r) && OnlyFlags(s, r)
    ensures Settled(r, notified, t) && SameStamps(s.clocks, r.clocks)
  {
  }

  lemma DecisionShape(p: State, t: int, stack: seq<int>)
    requires Caller(p, t, stack) && Good(p) && ListedOrHalted(p, t)
    ensures var d := Determine(p, t, stack);
            && d.s.active == p.active && d.s.clocks[t].inactive == p.clocks[t].inactive
            && (d.wake >= 0 ==> d.wake == d.s.lowestTid && d.wake != t)
  {
    DetermineExact(p, t, stack);
    DetermineEffect(p, t, stack);
  }

  lemma DecidedRecord(p: State, t: int, stack: seq<int>)
    requires Caller(p, t, stack) && Good(p) && ListedOrHalted(p, t) && !OnlyActive(p, t)
    ensures var d, m := Determine(p, t, stack), Lowest(p);
            && d.s.lowestTid == (if m >= 0 && (m == t || p.clocks[m].waiting || stack[m] == 1) then m else -1)
            && (d.wake >= 0 ==> d.wake == d.s.lowestTid)
  {
    ScanOfSameStamps(p.clocks, Waiting(Publish(p, t), t).clocks, p.active);
  }

  lemma SuffixKeepsRecord(d: State, op: Op)
    requires WF(d) && Deciding(op) && 0 <= op.t < |d.clocks|
    ensures Suffix(d, op).lowestTid == d.lowestTid
  {
  }

  /**
  Whom a deciding operation records, unless its caller is alone: the minimum if that is the caller,
  or waits, or has a mark left in the scratch array; and otherwise nobody.
  */
  lemma RecordedExactly(s: State, op: Op, stack: seq<int>)
    requires Good(s) && Enabled(s, op) && Deciding(op) && |stack| == STACK_SLOTS && !OnlyActive(Prefix(s, op), op.t)
    ensures var p, m := Prefix(s, op), Lowest(Prefix(s, op));
            Apply(s, op, stack).s.lowestTid ==
              if m >= 0 && (m == op.t || p.clocks[m].waiting || stack[m] == 1) then m else -1
  {
    var p := Prefix(s, op);
    PrefixEffect(s, op);
    PrefixKeepsGood(s, op);
    DecidedRecord(p, op.t, stack);
    ApplyInParts(s, op, stack);
    var d := Determine(p, op.t, stack);
    SuffixKeepsRecord(d.s, op);
    DeliverOnlyFlags(Outcome(Suffix(d.s, op), d.wake));
  }

  /** From the decision to the end of the operation. */
  lemma DecidedKeeps(d: Outcome, op: Op, notified: seq<bool>)
    requires Deciding(op) && 0 <= op.t < |d.s.clocks| == |notified| && Settled(d.s, notified, op.t)
    requires if op.Halt? then op.t !in d.s.active else !d.s.clocks[op.t].inactive
    requires d.wake >= 0 ==> d.wake == d.s.lowestTid && d.wake != op.t
    ensures var r := Deliver(Outcome(Suffix(d.s, op), d.wake));
            Settled(r, notified, op.t) && r.status[op.t] == d.s.status[op.t]
  {
    SuffixKeeps(d.s, op, notified);
    DeliverKeeps(Outcome(Suffix(d.s, op), d.wake), notified, op.t);
  }

  lemma DecidingKeeps(s: State, op: Op, stack: seq<int>, notified: seq<bool>)
    requires GroupInv(s) && Enabled(s, op) && Deciding(op) && |stack| == STACK_SLOTS
    requires |notified| == |s.clocks| && NothingLost(s, notified)
    ensures var o := Apply(s, op, stack);
            Settled(o.s, Answered(notified, op.t, o.s.status[op.t].lowestClock, o.wake), op.t)
  {
    var t := op.t;
    var p := Prefix(s, op);
    PrefixEffect(s, op);
    PrefixKeepsGood(s, op);
    DecisionKeeps(p, t, stack, notified);
    DecisionShape(p, t, stack);
    var d := Determine(p, t, stack);
    ApplyInParts(s, op, stack);
    DecidedKeeps(d, op, Answered(notified, t, d.s.status[t].lowestClock, d.wake));
  }

  /** A newcomer that neither waits nor sleeps joins the list. */
  lemma JoinKeeps(s: State, r: State, id: int, notified: seq<bool>)
    requires GroupInv(s) && |notified| == |s.clocks| && NothingLost(s, notified)
    requires WF(r) && 0 <= id < |s.clocks| == |r.clocks| && id !in s.active && r.active == s.active + [id]
    requires forall i :: 0 <= i < |s.clocks| && i != id ==> r.clocks[i] == s.clocks[i]
    requires r.clocks[id].Live() && !r.clocks[id].waiting && !r.clocks[id].sleeping
    requires r.lowestTid == id || (r.lowestTid == s.lowestTid && r.notificationNeeded == s.notificationNeeded)
    ensures GroupInv(r) && NothingLost(r, notified)
  {
    assert forall i :: i in r.active <==> i in s.active || i == id;
  }

  /** Counting and waking up change no clock but the caller's, and start no wait. */
  lemma CountingKeeps(s: State, r: State, t: int, notified: seq<bool>)
    requires GroupInv(s) && |notified| == |s.clocks| && NothingLost(s, notified)
    requires WF(r) && t in s.active && |r.clocks| == |s.clocks| && r.active == s.active
    requires forall i :: 0 <= i < |s.clocks| && i != t ==> r.clocks[i] == s.clocks[i]
    requires r.clocks[t].Live() && (r.clocks[t].waiting ==> s.clocks[t].waiting)
    requires r.clocks[t].sleeping ==> r.clocks[t].waiting
    requires r.lowestTid == s.lowestTid && r.notificationNeeded == s.notificationNeeded
    ensures GroupInv(r) && NothingLost(r, notified)
  {
  }

  lemma ActivateKeeps(s: State, t: int, notified: seq<bool>)
    requires GroupInv(s) && |notified| == |s.clocks| && NothingLost(s, notified)
    requires 0 <= t < |s.clocks| && t !in s.active && s.clocks[t].initialized
    ensures GroupInv(Protocol.Activate(s, t)) && NothingLost(Protocol.Activate(s, t), notified)
  {
    PrepareActivateEffect(s, t);
    JoinKeeps(s, Protocol.Activate(s, t), t, notified);
  }

  lemma ActivateOtherKeeps(s: State, t: int, id: int, notified: seq<bool>)
    requires GroupInv(s) && |notified| == |s.clocks| && NothingLost(s, notified)
    requires t in s.active && 0 <= id < |s.clocks| && id !in s.active
    ensures GroupInv(Protocol.ActivateOther(s, t, id)) && NothingLost(Protocol.ActivateOther(s, t, id), notified)
  {
    JoinKeeps(s, Protocol.ActivateOther(s, t, id), id, notified);
  }

  lemma OverflowsKeep(s: State, t: int, delta: nat, notified: seq<bool>)
    requires GroupInv(s) && |notified| == |s.clocks| && NothingLost(s, notified) && t in s.active
    ensures GroupInv(OverflowUpdatePeriod(s, t, delta)) && NothingLost(OverflowUpdatePeriod(s, t, delta), notified)
    ensures GroupInv(OverflowHandler(s, t)) && NothingLost(OverflowHandler(s, t), notified)
  {
    CountingKeeps(s, OverflowUpdatePeriod(s, t, delta), t, notified);
    CountingKeeps(s, OverflowHandler(s, t), t, notified);
  }

  lemma StopNoNotifyAndWokeUpKeep(s: State, t: int, delta: nat, notified: seq<bool>)
    requires GroupInv(s) && |notified| == |s.clocks| && NothingLost(s, notified) && t in s.active
    ensures GroupInv(Protocol.StopNoNotify(s, t, delta)) && NothingLost(Protocol.StopNoNotify(s, t, delta), notified)
    ensures GroupInv(Protocol.WokeUp(s, t)) && NothingLost(Protocol.WokeUp(s, t), notified)
  {
    CountingKeeps(s, Protocol.StopNoNotify(s, t, delta), t, notified);
    CountingKeeps(s, Protocol.WokeUp(s, t), t, notified);
  }

  lemma StartNoNotifyKeeps(s: State, t: int, notified: seq<bool>)
    requires GroupInv(s) && |notified| == |s.clocks| && NothingLost(s, notified) && t in s.active
    ensures GroupInv(Protocol.StartNoNotify(s, t)) && NothingLost(Protocol.StartNoNotify(s, t), notified)
  {
    CountingKeeps(s, Protocol.StartNoNotify(s, t), t, notified);
  }

  /** Registration starts no wait and lists nobody. */
  lemma RegisterKeeps(s: State, t: int, notified: seq<bool>)
    requires GroupInv(s) && |notified| == |s.clocks| && NothingLost(s, notified) && 0 <= t < |s.clocks|
    ensures GroupInv(EntryInit(s, t)) && NothingLost(EntryInit(s, t), notified)
  {
    if t in s.active {
      CountingKeeps(s, EntryInit(s, t), t, notified);
    } else {
      assert forall i :: i in s.active ==> EntryInit(s, t).clocks[i] == s.clocks[i];
    }
  }

  /** The operations that decide nothing keep both invariants as well. */
  lemma QuietKeeps(s: State, op: Op, stack: seq<int>, notified: seq<bool>)
    requires GroupInv(s) && Enabled(s, op) && !Deciding(op) && !op.Notify? && |stack| == STACK_SLOTS
    requires |notified| == |s.clocks| && NothingLost(s, notified)
    ensures var o := Apply(s, op, stack);
            o.wake == -1 && GroupInv(o.s) && NothingLost(o.s, notified)
  {
    match op
    case Activate(t) => ActivateKeeps(s, t, notified);
    case ActivateOther(t, id) => ActivateOtherKeeps(s, t, id, notified);
    case Credit(t, d) => OverflowsKeep(s, t, d, notified);
    case Overflow(t) => OverflowsKeep(s, t, 0, notified);
    case StopNoNotify(t, d) => StopNoNotifyAndWokeUpKeep(s, t, d, notified);
    case WokeUp(t) => StopNoNotifyAndWokeUpKeep(s, t, 0, notified);
    case StartNoNotify(t) => StartNoNotifyKeeps(s, t, notified);
    case Register(t) => RegisterKeeps(s, t, notified);
  }

  /**
  The deferred notification keeps every wake-up exactly when it still finds something owed, or has
  nobody to notify, or the waiting minimum has been answered already: a notification that arrives
  late can record a thread without waking it.
  */
  lemma NotifyKeepsExactlyWhen(s: State, stack: seq<int>, notified: seq<bool>)
    requires GroupInv(s) && |stack| == STACK_SLOTS && |notified| == |s.clocks| && NothingLost(s, notified)
    ensures var o, m := NotifyWaiting(s, stack), Lowest(s);
            && GroupInv(o.s)
            && (NothingLost(o.s, Answered(notified, -1, false, o.wake)) <==>
                  s.notificationNeeded || s.nmiNewLow || m == -1 || !s.clocks[m].waiting || notified[m])
  {
    NotifyExact(s, stack);
    LowestIsUniqueMinimum(s);
    NotifyOnlyFlags(s, stack);
  }

  lemma NotifyOnlyFlags(s: State, stack: seq<int>)
    requires Good(s) && |stack| == STACK_SLOTS
    ensures var r := NotifyWaiting(s, stack).s;
            && r.active == s.active
            && forall i :: 0 <= i < |s.clocks| ==> r.clocks[i] == s.clocks[i].(pollIn := r.clocks[i].pollIn)
  {
    NotifyExact(s, stack);
  }

  /** The group's own invariant needs no assumption on when notifications run. */
  lemma GroupKept(s: State, op: Op, stack: seq<int>)
    requires GroupInv(s) && Enabled(s, op) && |stack| == STACK_SLOTS
    ensures GroupInv(Apply(s, op, stack).s)
  {
    var all := seq(|s.clocks|, i => true);
    if Deciding(op) {
      DecidingKeeps(s, op, stack, all);
    } else if op.Notify? {
      NotifyKeepsExactlyWhen(s, stack, all);
    } else {
      QuietKeeps(s, op, stack, all);
    }
  }

  ghost predicate Inv(x: Run) {
    GroupInv(x.s) && |x.notified| == |x.s.clocks| && NothingLost(x.s, x.notified)
  }

  /** A new group, with nothing notified and nothing granted yet. */
  function Start(n: nat): Run {
    Run(Initially(n), seq(n, i => false), [])
  }

  /** Nobody is known, listed or recorded, every record and page is blank, and only a notification is owed. */
  lemma StartInv(n: nat)
    requires 0 < n <= STACK_SLOTS
    ensures Inv(Start(n))
    ensures var s := Start(n).s;
            && |s.clocks| == |s.status| == n && s.active == [] && s.lowestTid == -1 && s.lowestTicks == 0
            && s.notificationNeeded && !s.nmiNewLow && !s.queued
            && forall i :: 0 <= i < n ==>
                 && s.status[i] == Status(false, 0, false, false)
                 && s.clocks[i] == Entry(0, 0, false, false, false, false, false, 0, 0, false, false)
  {
  }

  /** The deferred notification runs while something is still owed. */
  ghost predicate Prompt(x: Run, step: Step) {
    step.op.Notify? ==> x.s.notificationNeeded || x.s.nmiNewLow
  }

  lemma StepKeepsInv(x: Run, step: Step)
    requires Inv(x) && CanStep(x, step) && Prompt(x, step)
    ensures Inv(Next(x, step))
  {
    var op := step.op;
    if Deciding(op) {
      DecidingKeeps(x.s, op, step.stack, x.notified);
    } else if op.Notify? {
      NotifyKeepsExactlyWhen(x.s, step.stack, x.notified);
    } else {
      QuietKeeps(x.s, op, step.stack, x.notified);
    }
  }

  ghost predicate PromptStep(x: Run, step: Step, y: Run) {
    CanStep(x, step) && Prompt(x, step) && y == Next(x, step)
  }

  /** A run through the states of `trace` in which every notification is prompt. */
  ghost predicate PromptTrace(trace: seq<Run>, steps: seq<Step>) {
    Path((x: Run, step: Step, y: Run) => PromptStep(x, step, y), trace, steps)
  }

  /** Recorded lowest, sleepers and wake-ups in every state of every run with prompt notifications. */
  lemma {:induction false} RunKeepsInv(trace: seq<Run>, steps: seq<Step>, k: nat)
    requires PromptTrace(trace, steps) && Inv(trace[0]) && k < |trace|
    ensures Inv(trace[k])
  {
    if k == 0 {
    } else {
      RunKeepsInv(trace, steps, k - 1);
      assert PromptStep(trace[k-1], steps[k-1], trace[k]);
      StepKeepsInv(trace[k-1], steps[k-1]);
    }
  }

  /**
  Sleep never strands the group as long as no sleeper sits on an unconsumed notification: the loop
  leaves on its first pass, with somebody to wake up or somebody awake.
  */
  lemma SleepLeavesAtOnce(x: Run, t: int, stack: seq<int>)
    requires Inv(x) && t in x.s.active && |stack| == STACK_SLOTS
    requires forall i :: i in x.s.active && x.s.clocks[i].sleeping ==> !x.notified[i]
    ensures !TriesAgain(SleepPass(x.s, t, stack))
    ensures var o := SleepPass(x.s, t, stack);
            o.wake >= 0 || exists i :: i in o.s.active && o.s.clocks[i].Live() && !o.s.clocks[i].sleeping
  {
    LowestIsUniqueMinimum(x.s);
    assert !Stranded(x.s, t);
    TriesAgainExactlyWhenStranded(x.s, t, stack);
    LeavesWithSomebody(x.s, t, stack);
  }
}
