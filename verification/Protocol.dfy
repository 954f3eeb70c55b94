/**
The operations of src/module/clock_main.c as functions on the group state. `cur` is the calling
thread, `stack` the contents the scratch array happened to have. The class in Group.dfy runs the
source's own steps in place and is proved to compute these functions.
*/
module Protocol {
  import opened ListArrays
  import opened Clocks
  import Periods

  /** A lock-held section: the state it leaves and the thread to wake up afterwards, or -1. */
  datatype Outcome = Outcome(s: State, wake: int)

  ghost predicate Caller(s: State, cur: int, stack: seq<int>) {
    WF(s) && 0 <= cur < |s.clocks| && |stack| == STACK_SLOTS
  }

  function WithEntry(s: State, i: int, e: Entry): (r: State)
    requires 0 <= i < |s.clocks|
    ensures |r.clocks| == |s.clocks| && (WF(s) ==> WF(r))
  {
    s.(clocks := s.clocks[i := e])
  }

  function WithStatus(s: State, i: int, u: Status): (r: State)
    requires 0 <= i < |s.status|
    ensures |r.clocks| == |s.clocks| && (WF(s) ==> WF(r))
  {
    s.(status := s.status[i := u])
  }

  /** Stamp of a thread in the group. */
  function At(s: State, i: int): Stamp
    requires 0 <= i < |s.clocks|
  {
    StampOf(s.clocks, i)
  }

  predicate OnlyActive(s: State, cur: int)
    requires 0 <= cur < |s.clocks|
  {
    |s.active| == 1 && !s.clocks[cur].inactive
  }

  /** The caller marked as waiting. */
  function Waiting(s: State, cur: int): (r: State)
    requires 0 <= cur < |s.clocks|
    ensures |r.clocks| == |s.clocks| && (WF(s) ==> WF(r))
  {
    WithEntry(s, cur, s.clocks[cur].(waiting := true))
  }

  /** The caller's clock made visible to user space. */
  function Publish(s: State, cur: int): (r: State)
    requires 0 <= cur < |s.clocks| && cur < |s.status|
    ensures |r.clocks| == |s.clocks| && (WF(s) ==> WF(r))
  {
    WithStatus(s, cur, s.status[cur].(ticks := s.clocks[cur].Clock()))
  }

  /**
  The decision at the centre of the protocol, in closed form: who the recorded lowest thread
  becomes, whether the caller is granted the turn at once, and who else must be woken up.
  `low` is the thread the search let through; `only` says that the caller has the list for itself.
  */
  function Settle(s: State, cur: int, low: int, only: bool): (o: Outcome)
    requires WF(s) && 0 <= cur < |s.clocks| && -1 <= low < |s.clocks|
    ensures WF(o.s) && |o.s.clocks| == |s.clocks| && -1 <= o.wake < |s.clocks| && (o.wake >= 0
        ==> o.wake == o.s.lowestTid)
  {
    var changed := !only && low != s.lowestTid;
    var granted := only || low == cur;
    var wake := if !granted && low >= 0 && s.clocks[low].waiting && (changed || s.notificationNeeded) then low else -1;
    var e := s.clocks[cur];
    var u := s.status[cur];
    Outcome(
      s.(clocks := s.clocks[cur := e.(waiting := !granted,
                                      sleeping := e.sleeping && !granted,
                                      inactive := e.inactive && !granted)],
         status := s.status[cur := u.(lowestClock := granted, singleActive := u.singleActive || only)],
         lowestTid := if only then s.lowestTid else low,
         lowestTicks := if only then e.Clock() else if low >= 0 then s.clocks[low].Clock() else s.lowestTicks,
         notificationNeeded := (s.notificationNeeded || changed) && !granted && wake < 0,
         nmiNewLow := s.nmiNewLow && wake < 0),
      wake)
  }

  /** Recording a new lowest thread arms a notification. */
  function Record(s: State, low: int): State {
    s.(lowestTid := low, notificationNeeded := s.notificationNeeded || low != s.lowestTid)
  }

  lemma RecordThenSettle(s: State, cur: int, low: int)
    requires WF(s) && 0 <= cur < |s.clocks| && -1 <= low < |s.clocks|
    ensures Settle(Record(s, low), cur, low, false) == Settle(s, cur, low, false)
  {
  }

  lemma SettleOverwritesWaiting(s: State, cur: int, low: int)
    requires WF(s) && 0 <= cur < |s.clocks| && -1 <= low < |s.clocks|
    ensures Settle(Waiting(s, cur), cur, low, false) == Settle(s, cur, low, false)
  {
    assert Settle(Waiting(s, cur), cur, low, false).s.clocks == Settle(s, cur, low, false).s.clocks;
  }

  function Decide(s: State, cur: int, stack: seq<int>): (o: Outcome)
    requires Caller(s, cur, stack)
    ensures WF(o.s) && |o.s.clocks| == |s.clocks| && -1 <= o.wake < |s.clocks| && (o.wake >= 0
        ==> o.wake == o.s.lowestTid)
  {
    Settle(s, cur, LowestMarked(Waiting(s, cur), stack), OnlyActive(s, cur))
  }

  function Determine(s: State, cur: int, stack: seq<int>): (o: Outcome)
    requires Caller(s, cur, stack)
    ensures WF(o.s) && |o.s.clocks| == |s.clocks| && -1 <= o.wake < |s.clocks| && (o.wake >= 0
        ==> o.wake == o.s.lowestTid)
  {
    Decide(Publish(s, cur), cur, stack)
  }

  /** The wake-up after the lock is dropped: through poll for a sleeper, through the shared page otherwise. */
  function Deliver(o: Outcome): (r: State)
    requires WF(o.s) && (o.wake >= 0 ==> o.wake == o.s.lowestTid)
    ensures WF(r) && |r.clocks| == |o.s.clocks|
  {
    if o.wake < 0 then o.s
    else if o.s.clocks[o.s.lowestTid].sleeping then
      WithEntry(o.s, o.wake, o.s.clocks[o.wake].(pollIn := true))
    else
      WithStatus(o.s, o.s.lowestTid, o.s.status[o.s.lowestTid].(lowestClock := true))
  }

  /** A complete operation: the final state and the thread that was woken up, or -1. */
  function Complete(o: Outcome): (r: Outcome)
    requires WF(o.s) && (o.wake >= 0 ==> o.wake == o.s.lowestTid)
    ensures WF(r.s) && |r.s.clocks| == |o.s.clocks| && r.wake == o.wake
  {
    Outcome(Deliver(o), o.wake)
  }

  function ClearEntryState(s: State, i: int): (r: State)
    requires 0 <= i < |s.clocks|
    ensures |r.clocks| == |s.clocks| && (WF(s) ==> WF(r))
  {
    WithEntry(s, i, s.clocks[i].(inactive := false, waiting := false, sleeping := false))
  }

  /** The clock of the lowest waiter other than the caller, or -1. */
  function WaiterClock(s: State, cur: int, order: seq<int>): int
    requires InRange(order, |s.clocks|)
  {
    var w := Scan(WaitingExcept(cur), s.clocks, order);
    if w >= 0 then s.clocks[w].Clock() else -1
  }

  function UpdatePeriod(s: State, cur: int, order: seq<int>): (r: State)
    requires 0 <= cur < |s.clocks| && InRange(order, |s.clocks|)
    ensures |r.clocks| == |s.clocks| && (WF(s) ==> WF(r))
  {
    var e := s.clocks[cur];
    WithEntry(s, cur, e.(samplePeriod := Periods.Choose(e.samplePeriod, e.Clock(), WaiterClock(s, cur, order))))
  }

  function Credited(e: Entry, delta: nat): Entry {
    e.(ticks := e.ticks + delta, chunkTicks := e.chunkTicks + delta)
  }

  /** Credit counted instructions to the running clock. */
  function Count(s: State, cur: int, delta: nat): (r: State)
    requires 0 <= cur < |s.clocks|
    ensures |r.clocks| == |s.clocks| && (WF(s) ==> WF(r))
  {
    WithEntry(s, cur, Credited(s.clocks[cur], delta))
  }

  // ----- counting

  /** The counter interrupt credits the clock and picks the next period. */
  function OverflowUpdatePeriod(s: State, cur: int, delta: nat): (r: State)
    requires WF(s) && 0 <= cur < |s.clocks|
    ensures WF(r) && |r.clocks| == |s.clocks|
  {
    if !s.clocks[cur].counting then s else UpdatePeriod(Count(s, cur, delta), cur, UpTo(s.maxIndex + 1))
  }

  /** Who the lowest thread is now, or -1 when the record still stands. */
  function NewLowest(s: State, tid: int, order: seq<int>): (low: int)
    requires WF(s) && 0 <= tid < |s.clocks| && InRange(order, |s.clocks|)
    ensures -1 <= low < |s.clocks|
  {
    var min := Scan(AnyLive, s.clocks, order);
    if s.lowestTid == -1 then min
    else if tid == s.lowestTid then if min != tid then min else -1
    else if Before(At(s, tid), At(s, s.lowestTid)) then tid else -1
  }

  /** The handler flags a new lowest thread that waits; the notification itself is deferred. */
  function OverflowHandler(s: State, cur: int): (r: State)
    requires WF(s) && 0 <= cur < |s.clocks|
    ensures WF(r) && |r.clocks| == |s.clocks|
  {
    var low := NewLowest(s, cur, UpTo(s.maxIndex + 1));
    if s.clocks[cur].counting && low >= 0 && low != cur && !s.nmiNewLow && s.clocks[low].waiting
    then s.(nmiNewLow := true, queued := true) else s
  }

  /** The deferred notification runs. */
  function NotifyWaiting(s: State, stack: seq<int>): (o: Outcome)
    requires WF(s) && |stack| == STACK_SLOTS
    ensures WF(o.s) && |o.s.clocks| == |s.clocks| && -1 <= o.wake < |s.clocks|
  {
    var low := LowestMarked(s, stack);
    if low < 0 || !s.clocks[low].waiting then Outcome(s.(queued := false), -1) else
      var r := s.(lowestTid := low, lowestTicks := s.clocks[low].Clock(), queued := false);
      if s.notificationNeeded || s.nmiNewLow
      then Complete(Outcome(r.(notificationNeeded := false, nmiNewLow := false), low))
      else Outcome(r, -1)
  }

  // ----- the client operations

  /** Read the counter, and stop counting; the reading counts only if counting was on. */
  function StopNoNotify(s: State, cur: int, delta: nat): (r: State)
    requires WF(s) && 0 <= cur < |s.clocks|
    ensures WF(r) && |r.clocks| == |s.clocks|
  {
    if !s.clocks[cur].counting then s else
      var e := Credited(s.clocks[cur], delta).(counting := false);
      WithStatus(WithEntry(s, cur, e), cur, s.status[cur].(ticks := e.Clock()))
  }

  /** Counting moves to user space: the next enable has to arm the counter again. */
  function StartNoNotify(s: State, cur: int): (r: State)
    requires 0 <= cur < |s.clocks|
    ensures |r.clocks| == |s.clocks| && (WF(s) ==> WF(r))
  {
    WithEntry(s, cur, s.clocks[cur].(userspaceReading := true, counting := false))
  }

  function Stop(s: State, cur: int, delta: nat, stack: seq<int>): (o: Outcome)
    requires Caller(s, cur, stack)
    ensures WF(o.s) && |o.s.clocks| == |s.clocks| && -1 <= o.wake < |s.clocks|
  {
    Complete(Determine(StopNoNotify(s, cur, delta), cur, stack))
  }

  function Wait(s: State, cur: int, stack: seq<int>): (o: Outcome)
    requires Caller(s, cur, stack)
    ensures WF(o.s) && |o.s.clocks| == |s.clocks| && -1 <= o.wake < |s.clocks|
  {
    Complete(Determine(s, cur, stack))
  }

  /** One pass of the sleep loop, under the lock. */
  function SleepPass(s: State, cur: int, stack: seq<int>): (o: Outcome)
    requires Caller(s, cur, stack)
    ensures WF(o.s) && |o.s.clocks| == |s.clocks| && -1 <= o.wake < |s.clocks| && (o.wake >= 0
        ==> o.wake == o.s.lowestTid)
  {
    var o := Determine(s, cur, stack);
    var e := o.s.clocks[cur];
    Outcome(WithEntry(o.s, cur, e.(sleeping := e.sleeping || e.waiting)), o.wake)
  }

  /** After a pass: nobody to wake up and nobody awake, so the loop tries again. */
  predicate TriesAgain(o: Outcome)
    requires InRange(o.s.active, |o.s.clocks|)
  {
    o.wake < 0 && AwakeCount(o.s.clocks, o.s.active) == 0
  }

  function Sleep(s: State, cur: int, stack: seq<int>): (o: Outcome)
    requires Caller(s, cur, stack)
    ensures WF(o.s) && |o.s.clocks| == |s.clocks| && -1 <= o.wake < |s.clocks|
  {
    Complete(SleepPass(s, cur, stack))
  }

  function WokeUp(s: State, cur: int): (r: State)
    requires 0 <= cur < |s.clocks|
    ensures |r.clocks| == |s.clocks| && (WF(s) ==> WF(r))
  {
    WithEntry(s, cur, s.clocks[cur].(sleeping := false, waiting := false))
  }

  /** User space no longer reads the counter. */
  function KernelReads(s: State, cur: int): (r: State)
    requires 0 <= cur < |s.clocks|
    ensures |r.clocks| == |s.clocks| && (WF(s) ==> WF(r))
  {
    WithEntry(s, cur, s.clocks[cur].(userspaceReading := false))
  }

  /** A new chunk with counting on, and its first period. */
  function StartCounting(s: State, cur: int): (r: State)
    requires WF(s) && 0 <= cur < |s.clocks|
    ensures WF(r) && |r.clocks| == |s.clocks|
  {
    UpdatePeriod(WithEntry(s, cur, s.clocks[cur].(chunkTicks := 0, counting := true, samplePeriod := 0)), cur, s.active)
  }

  function PrepareEnable(s: State, cur: int): (r: State)
    requires WF(s) && 0 <= cur < |s.clocks|
    ensures WF(r) && |r.clocks| == |s.clocks|
  {
    KernelReads(StartCounting(s, cur), cur)
  }

  /** Counting starts again; the lowest thread arms the next notification. */
  function OnEnable(s: State, cur: int, stack: seq<int>): (o: Outcome)
    requires Caller(s, cur, stack)
    ensures WF(o.s) && |o.s.clocks| == |s.clocks| && -1 <= o.wake < |s.clocks|
  {
    var o := Determine(PrepareEnable(s, cur), cur, stack);
    var armed := if o.s.lowestTid == cur then o.s.(notificationNeeded := true, nmiNewLow := false) else o.s;
    Complete(Outcome(ClearEntryState(armed, cur), o.wake))
  }

  function PrepareDisable(s: State, cur: int, delta: nat): (r: State)
    requires WF(s) && 0 <= cur < |s.clocks|
    ensures WF(r) && |r.clocks| == |s.clocks|
  {
    var e := s.clocks[cur];
    var f := if e.counting then Credited(e, delta).(counting := false) else e;
    WithEntry(s, cur, f).(notificationNeeded := true)
  }

  function OnDisable(s: State, cur: int, delta: nat, stack: seq<int>): (o: Outcome)
    requires Caller(s, cur, stack)
    ensures WF(o.s) && |o.s.clocks| == |s.clocks| && -1 <= o.wake < |s.clocks|
  {
    Complete(Determine(PrepareDisable(s, cur, delta), cur, stack))
  }

  function PrepareAddTicks(s: State, cur: int, ticks: int): (r: State)
    requires 0 <= cur < |s.clocks| && s.clocks[cur].ticks + ticks >= 0
    ensures |r.clocks| == |s.clocks| && (WF(s) ==> WF(r))
  {
    WithEntry(s, cur, s.clocks[cur].(ticks := s.clocks[cur].ticks + ticks))
  }

  function AddTicks(s: State, cur: int, ticks: int, stack: seq<int>): (o: Outcome)
    requires Caller(s, cur, stack) && s.clocks[cur].ticks + ticks >= 0
    ensures WF(o.s) && |o.s.clocks| == |s.clocks| && -1 <= o.wake < |s.clocks|
  {
    Complete(Determine(PrepareAddTicks(s, cur, ticks), cur, stack))
  }

  function MarkInactive(s: State, cur: int): (r: State)
    requires WF(s) && 0 <= cur < |s.clocks|
    ensures WF(r) && |r.clocks| == |s.clocks|
  {
    WithoutElements(s.active, cur);
    var left := Without(s.active, cur);
    assert forall k :: 0 <= k < |left| ==> left[k] in left && left[k] in s.active;
    WithEntry(s, cur, s.clocks[cur].(inactive := true)).(active := Without(s.active, cur))
  }

  function Halt(s: State, cur: int, stack: seq<int>): (o: Outcome)
    requires Caller(s, cur, stack)
    ensures WF(o.s) && |o.s.clocks| == |s.clocks| && -1 <= o.wake < |s.clocks|
  {
    var o := Determine(MarkInactive(s, cur), cur, stack);
    Complete(Outcome(WithEntry(o.s, cur, o.s.clocks[cur].(waiting := false)), o.wake))
  }

  function MarkActive(s: State, i: int): (r: State)
    requires WF(s) && 0 <= i < |s.clocks| && i !in s.active
    ensures WF(r) && |r.clocks| == |s.clocks|
  {
    var r := ClearEntryState(s, i);
    r.(active := s.active + [i], maxIndex := if i > s.maxIndex then i else s.maxIndex)
  }

  function PrepareActivate(s: State, cur: int): (r: State)
    requires WF(s) && 0 <= cur < |s.clocks| && cur !in s.active
    ensures WF(r) && |r.clocks| == |s.clocks|
  {
    var a := MarkActive(s, cur);
    var e := a.clocks[cur].(chunkTicks := 0, samplePeriod := 0);
    KernelReads(UpdatePeriod(WithEntry(a, cur, e), cur, a.active), cur)
  }

  /** A thread puts itself back on the list, and takes the lead if it precedes the recorded lowest. */
  function Activate(s: State, cur: int): (r: State)
    requires WF(s) && 0 <= cur < |s.clocks| && cur !in s.active
    ensures WF(r) && |r.clocks| == |s.clocks|
  {
    var a := PrepareActivate(s, cur);
    if NewLowest(a, cur, a.active) == cur
    then WithStatus(a, cur, a.status[cur].(lowestClock := true)).(notificationNeeded := false, lowestTid := cur)
    else a
  }

  /** A fresh thread starts one tick after its activator. */
  function Seed(s: State, cur: int, id: int): (r: State)
    requires 0 <= cur < |s.clocks| && 0 <= id < |s.clocks|
    ensures |r.clocks| == |s.clocks| && (WF(s) ==> WF(r))
  {
    var e := s.clocks[id];
    WithEntry(s, id, if e.initialized then e else e.(initialized := true, ticks := 0,
        baseTicks := s.clocks[cur].Clock() + 1))
  }

  function ActivateOther(s: State, cur: int, id: int): (r: State)
    requires WF(s) && 0 <= cur < |s.clocks| && 0 <= id < |s.clocks| && id !in s.active
    ensures WF(r) && |r.clocks| == |s.clocks|
  {
    var a := MarkActive(Seed(s, cur, id), id);
    var b := WithEntry(a, id, a.clocks[id].(chunkTicks := 0));
    if s.lowestTid < 0 || Before(At(b, id), At(b, s.lowestTid))
    then WithStatus(b, cur, b.status[cur].(activatedLowest := true)) else b
  }

  /** A thread registers itself: a known one keeps its clock, and nobody joins the list this way. */
  function EntryInit(s: State, cur: int): (r: State)
    requires 0 <= cur < |s.clocks|
    ensures |r.clocks| == |s.clocks| && (WF(s) ==> WF(r))
  {
    var e := s.clocks[cur];
    var f := if e.initialized then e else e.(ticks := 0, baseTicks := 0);
    WithEntry(s, cur, f.(initialized := true, counting := false, chunkTicks := 0, userspaceReading := false,
                         inactive := false, waiting := false, sleeping := false))
  }

  // ----- through whole operations

  lemma DetermineKeepsCaller(s: State, cur: int, stack: seq<int>)
    requires Caller(s, cur, stack)
    ensures var e, f := s.clocks[cur], Complete(Determine(s, cur, stack)).s.clocks[cur];
            && f.Clock() == e.Clock() && f.counting == e.counting && f.chunkTicks == e.chunkTicks
            && Complete(Determine(s, cur, stack)).s.status[cur].ticks == e.Clock()
  {
    assert Determine(s, cur, stack).wake != cur;
  }

  /** A stop turns counting off, whether it was on or not, and shows the clock. */
  lemma StopTurnsOff(s: State, cur: int, delta: nat, stack: seq<int>)
    requires Caller(s, cur, stack)
    ensures var r := Stop(s, cur, delta, stack).s;
            !r.clocks[cur].counting && r.status[cur].ticks == r.clocks[cur].Clock()
  {
    DetermineKeepsCaller(StopNoNotify(s, cur, delta), cur, stack);
  }

  /** Adding ticks moves the clock by just that amount, and shows it. */
  lemma AddTicksAdds(s: State, cur: int, ticks: int, stack: seq<int>)
    requires Caller(s, cur, stack) && s.clocks[cur].ticks + ticks >= 0
    ensures var r := AddTicks(s, cur, ticks, stack).s;
            r.clocks[cur].Clock() == s.clocks[cur].Clock() + ticks == r.status[cur].ticks
  {
    DetermineKeepsCaller(PrepareAddTicks(s, cur, ticks), cur, stack);
  }

  /** A caller that is granted the turn is left with none of its flags set; any other waits. */
  lemma GrantClears(s: State, cur: int, stack: seq<int>)
    requires Caller(s, cur, stack)
    ensures var r := Determine(s, cur, stack).s;
            var e, f := s.clocks[cur], r.clocks[cur];
            if r.status[cur].lowestClock then !f.waiting && !f.sleeping && !f.inactive
            else f.waiting && f.sleeping == e.sleeping && f.inactive == e.inactive
  {
  }
}
