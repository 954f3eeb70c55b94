/**
The client cycle of src/lib/tests/simple.c -- run a chunk, stop, wait to be the lowest, go on --
over the group: for fixed chunk lengths the turns come out in one canonical order, whatever the
interleaving, the counter interrupts, the deferred notifications and the stale marks do.
*/
module Schedule {
  import opened ListArrays
  import opened Clocks
  import opened Protocol
  import opened Grants
  import opened SleepLoop
  import opened Runs
  import opened Turns
  import opened Merges
  import opened Paths

  /** Where a thread stands in its cycle. `Stopped(true)` has been granted the turn it asked for. */
  datatype Phase = Running | Stopped(granted: bool) | Awake | Halting | Halted

  /**
  `todo` lists, per thread, the clocks of the requests that have not been granted yet; `turns` the
  requests that have, in order. `spinning` is the thread that will never leave its sleep call, and
  keeps the group lock, or -1.
  */
  datatype Sys = Sys(s: State, phase: seq<Phase>, todo: seq<seq<nat>>, turns: seq<Stamp>, spinning: int)

  ghost predicate Sized(x: Sys) {
    WF(x.s) && |x.phase| == |x.todo| == |x.s.clocks|
  }

  /** What user space can see: the shared flag, or the wake-up of a sleeper. */
  predicate MayProceed(s: State, t: int)
    requires 0 <= t < |s.clocks| == |s.status|
  {
    s.status[t].lowestClock || (s.clocks[t].sleeping && s.clocks[t].pollIn)
  }

  /**
  The steps of the client cycle, plus interrupts at any time. While a thread spins with the lock
  held everybody else is asleep, and a sleeper needs the lock to report that it woke up.
  */
  ghost predicate Allowed(x: Sys, step: Step) {
    && Sized(x) && |step.stack| == STACK_SLOTS && Enabled(x.s, step.op) && x.spinning == -1
    && match step.op
       case Notify => true
       case Credit(t, d) => x.phase[t] == Running && (x.todo[t] != [] ==> x.s.clocks[t].Clock() + d <= x.todo[t][0])
       case Overflow(t) => x.phase[t] == Running
       case Stop(t, d) => x.phase[t] == Running && x.todo[t] != [] && x.s.clocks[t].Clock() + d == x.todo[t][0]
       case Wait(t) => x.phase[t].Stopped? && !x.s.clocks[t].sleeping
       case Sleep(t) => x.phase[t].Stopped? && !x.s.clocks[t].sleeping
       case WokeUp(t) => x.phase[t].Stopped? && MayProceed(x.s, t)
       case Enable(t) => x.phase[t] == Awake
       case Disable(t, d) => x.phase[t] == Running && x.todo[t] == []
       case Halt(t) => x.phase[t] == Halting
       case _ => false
  }

  /** The step's own thread moves on in its cycle. */
  ghost function Moved(phase: seq<Phase>, op: Op): (r: seq<Phase>)
    requires op.Notify? || 0 <= op.t < |phase|
    ensures |r| == |phase|
  {
    match op
    case Stop(t, _) => phase[t := Stopped(false)]
    case WokeUp(t) => phase[t := Awake]
    case Enable(t) => phase[t := Running]
    case Disable(t, _) => phase[t := Halting]
    case Halt(t) => phase[t := Halted]
    case _ => phase
  }

  /** User space clears its flag, and its poll call consumes the wake-up. */
  ghost function UserSide(s: State, op: Op): (r: State)
    requires WF(s) && (op.WokeUp? ==> 0 <= op.t < |s.clocks|)
    ensures WF(r) && |r.clocks| == |s.clocks|
  {
    if op.WokeUp? then
      WithStatus(WithEntry(s, op.t, s.clocks[op.t].(pollIn := false)), op.t, s.status[op.t].(lowestClock := false))
    else s
  }

  /** A grant answers the request of a stopped thread; to any other thread it means nothing. */
  ghost function Award(x: Sys, g: int): (y: Sys)
    requires Sized(x)
    ensures Sized(y)
  {
    if 0 <= g < |x.phase| && x.phase[g] == Stopped(false) && x.todo[g] != []
    then x.(phase := x.phase[g := Stopped(true)], todo := Served(x.todo, g), turns := x.turns + [Stamp(x.todo[g][0],
        g)])
    else x
  }

  ghost function GrantedBy(op: Op, o: Outcome): int
    requires Decider(op) < |o.s.status|
  {
    if Decider(op) >= 0 && o.s.status[Decider(op)].lowestClock then Decider(op) else o.wake
  }

  /** A stranded sleeper spins, for however many passes (SleepLoop.StrandedForever). */
  ghost function Spinner(s: State, op: Op): int
    requires WF(s)
  {
    if op.Sleep? && Stranded(s, op.t) then op.t else -1
  }

  ghost function After(x: Sys, step: Step): (y: Sys)
    requires Allowed(x, step)
    ensures Sized(y) && |y.s.clocks| == |x.s.clocks|
  {
    var o := Apply(x.s, step.op, step.stack);
    Award(Sys(UserSide(o.s, step.op), Moved(x.phase, step.op), x.todo, x.turns, Spinner(x.s, step.op)),
        GrantedBy(step.op, o))
  }

  ghost predicate Moves(x: Sys, step: Step, y: Sys) {
    Allowed(x, step) && y == After(x, step)
  }

  ghost function Cycle(): (Sys, Step, Sys) -> bool {
    (x: Sys, step: Step, y: Sys) => Moves(x, step, y)
  }

  ghost predicate Interleaving(run: seq<Sys>, steps: seq<Step>) {
    Path(Cycle(), run, steps)
  }

  ghost predicate Reaches(x: Sys, steps: seq<Step>, y: Sys) {
    Connects(Cycle(), x, steps, y)
  }

  // ----- the invariant

  /** One thread between two steps: its record, its page, whether it is listed, its phase and requests. */
  ghost predicate Fits(e: Entry, u: Status, listed: bool, ph: Phase, todo: seq<nat>) {
    && (listed <==> ph != Halted)
    && Ascending(todo)
    && (todo != [] ==> e.Clock() <= todo[0] && !ph.Halting? && !ph.Halted?)
    && (e.pollIn ==> ph == Stopped(true) && e.sleeping)
    && (ph == Running ==> e.counting)
    && (e.sleeping ==> ph.Stopped? || ph.Halted?)
    && (ph == Stopped(false) ==> e.waiting && todo != [] && e.Clock() == todo[0] && !u.lowestClock)
    && (ph == Stopped(true) ==> u.lowestClock || (e.sleeping && e.pollIn))
    && (e.waiting ==> ph.Stopped? || ph.Halting? || ph.Halted?)
  }

  ghost predicate ThreadOk(x: Sys, i: int)
    requires Sized(x) && 0 <= i < |x.phase|
  {
    Fits(x.s.clocks[i], x.s.status[i], i in x.s.active, x.phase[i], x.todo[i])
  }

  ghost predicate HoldsTurn(ph: Phase) {
    ph == Stopped(true) || ph == Awake
  }

  /** The group between two steps, for safety: whose the turn is, who has been woken, who spins. */
  ghost predicate GroupOk(x: Sys)
    requires Sized(x)
  {
    && GroupInv(x.s)
    && (forall i :: 0 <= i < |x.phase| && HoldsTurn(x.phase[i]) ==> i == Lowest(x.s))
    && (forall i :: 0 <= i < |x.phase| && WokenAndWaits(x, i) ==> x.s.lowestTid == i && !x.s.notificationNeeded)
    && (x.spinning == -1 || (x.spinning in x.s.active && Stranded(x.s, x.spinning)))
  }

  /** Thread i has been woken and has not reported it yet. */
  ghost predicate WokenAndWaits(x: Sys, i: int)
    requires Sized(x) && 0 <= i < |x.phase|
  {
    x.phase[i] == Stopped(true) && x.s.clocks[i].waiting
  }

  ghost predicate Ok(x: Sys) {
    && Sized(x)
    && (forall i :: 0 <= i < |x.phase| ==> ThreadOk(x, i))
    && GroupOk(x)
  }

  /** The deferred notification is still to run, for several threads, and nothing is owed or flagged any more. */
  predicate Stale(s: State) {
    s.queued && !s.notificationNeeded && !s.nmiNewLow && |s.active| > 1
  }

  /**
  No request is forgotten: what is recorded with nothing owed has been answered, a stale notification
  finds recorded what it would record, and a minimum left waiting has a running thread to pass it.
  */
  ghost predicate NoneForgotten(x: Sys)
    requires Sized(x)
  {
    var m, low := Lowest(x.s), x.s.lowestTid;
    && (!x.s.notificationNeeded && low in x.s.active ==> x.phase[low] != Stopped(false))
    && (Stale(x.s) ==> low == m && m >= 0 && x.phase[m] != Running)
    && (m >= 0 && x.phase[m] == Stopped(false) ==> exists i :: 0 <= i < |x.phase| && x.phase[i] == Running)
  }

  ghost predicate Live(x: Sys) {
    Ok(x) && NoneForgotten(x)
  }

  ghost predicate Keeps(x: Sys, y: Sys)
    requires Sized(x)
  {
    Ok(y) && (NoneForgotten(x) ==> NoneForgotten(y))
  }

  // ----- one step

  /**
  What a deciding operation does to every thread: m is the minimum at the decision, `waits` and
  `sleeps` tell in which flags the caller is left if it is not the one.
  */
  ghost predicate Decided(s: State, r: State, t: int, m: int, wake: int, waits: bool, sleeps: bool)
    requires |r.clocks| == |s.clocks| == |s.status| == |r.status| && 0 <= t < |s.clocks| && -1 <= wake < |s.clocks|
  {
    && (forall i ::
          0 <= i < |s.clocks| && i != t && i != wake ==> r.clocks[i] == s.clocks[i] && r.status[i] == s.status[i])
    && (wake >= 0 ==>
         var e, u := s.clocks[wake], s.status[wake];
         wake != t && r.clocks[wake] == e.(pollIn := e.pollIn || e.sleeping)
             && r.status[wake] == u.(lowestClock := u.lowestClock || !e.sleeping))
    && r.clocks[t].pollIn == s.clocks[t].pollIn
    && r.clocks[t].waiting == (m != t && waits)
    && r.clocks[t].sleeping == (m != t && sleeps)
    && r.status[t].lowestClock == (m == t)
  }

  predicate LeavesWaiting(op: Op) {
    !op.Enable? && !op.Halt?
  }

  predicate LeavesSleeping(op: Op, sleeping: bool) {
    !op.Enable? && (sleeping || op.Sleep?)
  }

  lemma DetermineDecides(p: State, t: int, stack: seq<int>)
    requires Caller(p, t, stack) && Good(p) && ListedOrHalted(p, t)
    ensures var d := Determine(p, t, stack);
            && Decided(p, d.s, t, Lowest(p), -1, true, p.clocks[t].sleeping)
            && d.wake != t && (d.wake >= 0 ==> d.wake == d.s.lowestTid)
  {
    DetermineExact(p, t, stack);
    DetermineEffect(p, t, stack);
  }

  lemma SuffixDecides(p: State, d: State, op: Op, t: int, m: int)
    requires WF(p) && WF(d) && Deciding(op) && op.t == t && 0 <= t < |p.clocks| == |d.clocks|
    requires Decided(p, d, t, m, -1, true, p.clocks[t].sleeping)
    ensures Decided(p, Suffix(d, op), t, m, -1, LeavesWaiting(op), LeavesSleeping(op, p.clocks[t].sleeping))
  {
  }

  lemma DeliverDecides(p: State, o: Outcome, t: int, m: int, waits: bool, sleeps: bool)
    requires WF(p) && WF(o.s) && 0 <= t < |p.clocks| == |o.s.clocks|
    requires Decided(p, o.s, t, m, -1, waits, sleeps)
    requires -1 <= o.wake < |o.s.clocks| && o.wake != t && (o.wake >= 0 ==> o.wake == o.s.lowestTid)
    ensures Decided(p, Deliver(o), t, m, o.wake, waits, sleeps)
  {
    var r := Deliver(o);
    forall i | 0 <= i < |p.clocks| && i != t && i != o.wake ensures r.clocks[i] == p.clocks[i]
        && r.status[i] == p.status[i] {
    }
  }

  lemma PrefixDecides(s: State, p: State, r: State, t: int, m: int, wake: int, waits: bool, sleeps: bool)
    requires WF(s) && WF(p) && WF(r) && |r.clocks| == |p.clocks| && -1 <= wake < |p.clocks|
    requires OnlyCounts(s, p, t) && Decided(p, r, t, m, wake, waits, sleeps)
    ensures Decided(s, r, t, m, wake, waits, sleeps)
  {
  }

  lemma EndDecides(p: State, d: Outcome, op: Op, m: int)
    requires WF(p) && WF(d.s) && Deciding(op) && 0 <= op.t < |p.clocks| == |d.s.clocks| && -1 <= d.wake < |p.clocks|
    requires Decided(p, d.s, op.t, m, -1, true, p.clocks[op.t].sleeping)
    requires d.wake != op.t && (d.wake >= 0 ==> d.wake == d.s.lowestTid)
    ensures Decided(p, Deliver(Outcome(Suffix(d.s, op), d.wake)), op.t, m, d.wake,
                    LeavesWaiting(op), LeavesSleeping(op, p.clocks[op.t].sleeping))
  {
    SuffixDecides(p, d.s, op, op.t, m);
    DeliverDecides(p, Outcome(Suffix(d.s, op), d.wake), op.t, m, LeavesWaiting(op), LeavesSleeping(op,
        p.clocks[op.t].sleeping));
  }

  lemma DecidingDecides(s: State, op: Op, stack: seq<int>)
    requires GroupInv(s) && Enabled(s, op) && Deciding(op) && |stack| == STACK_SLOTS
    ensures Decided(s, Apply(s, op, stack).s, op.t, Lowest(Prefix(s, op)), Apply(s, op, stack).wake,
                    LeavesWaiting(op), LeavesSleeping(op, s.clocks[op.t].sleeping))
  {
    var t, p := op.t, Prefix(s, op);
    PrefixEffect(s, op);
    PrefixKeepsGood(s, op);
    DetermineDecides(p, t, stack);
    var d := Determine(p, t, stack);
    EndDecides(p, d, op, Lowest(p));
    ApplyInParts(s, op, stack);
    PrefixDecides(s, p, Apply(s, op, stack).s, t, Lowest(p), d.wake, LeavesWaiting(op), LeavesSleeping(op,
        p.clocks[t].sleeping));
  }

  /** How the record and the owed notification come out of a decision. */
  ghost predicate Recorded(p: State, r: State, op: Op, wake: int)
    requires WF(p) && WF(r) && !op.Notify? && 0 <= op.t < |p.clocks| == |r.clocks|
  {
    var t, m, only := op.t, Lowest(p), OnlyActive(p, op.t);
    && (only ==> r.lowestTid == p.lowestTid)
    && (!only ==>
          (r.lowestTid == m || r.lowestTid == -1) && (m >= 0 && (m == t || p.clocks[m].waiting) ==> r.lowestTid == m))
    && (r.notificationNeeded <==>
          ((p.notificationNeeded || (!only && r.lowestTid != p.lowestTid)) && m != t && wake < 0) || (op.Enable?
              && r.lowestTid == t))
    && (r.nmiNewLow <==> p.nmiNewLow && wake < 0 && !(op.Enable? && r.lowestTid == t))
    && r.queued == p.queued
    && r.clocks[t].counting == p.clocks[t].counting
  }

  lemma DetermineRecords(p: State, t: int, stack: seq<int>)
    requires Caller(p, t, stack) && Good(p) && ListedOrHalted(p, t)
    ensures Recorded(p, Determine(p, t, stack).s, Op.Wait(t), Determine(p, t, stack).wake)
  {
    DetermineExact(p, t, stack);
    DetermineEffect(p, t, stack);
    RecordedLowest(p, t, stack);
  }

  lemma SuffixRecords(p: State, d: Outcome, op: Op)
    requires WF(p) && WF(d.s) && Deciding(op) && 0 <= op.t < |p.clocks| == |d.s.clocks|
    requires Recorded(p, d.s, Op.Wait(op.t), d.wake)
    requires d.wake >= 0 ==> d.wake == d.s.lowestTid
    ensures Recorded(p, Suffix(d.s, op), op, d.wake)
  {
  }

  lemma WakeUpRecords(p: State, o: Outcome, op: Op)
    requires WF(p) && WF(o.s) && Deciding(op) && 0 <= op.t < |p.clocks| == |o.s.clocks|
    requires Recorded(p, o.s, op, o.wake) && (o.wake >= 0 ==> o.wake == o.s.lowestTid)
    ensures Recorded(p, Deliver(o), op, o.wake)
  {
  }

  lemma EndRecords(p: State, d: Outcome, op: Op)
    requires WF(p) && WF(d.s) && Deciding(op) && 0 <= op.t < |p.clocks| == |d.s.clocks|
    requires Recorded(p, d.s, Op.Wait(op.t), d.wake)
    requires d.wake >= 0 ==> d.wake == d.s.lowestTid
    ensures Recorded(p, Deliver(Outcome(Suffix(d.s, op), d.wake)), op, d.wake)
  {
    SuffixRecords(p, d, op);
    WakeUpRecords(p, Outcome(Suffix(d.s, op), d.wake), op);
  }

  lemma DecidingRecords(s: State, op: Op, stack: seq<int>)
    requires GroupInv(s) && Enabled(s, op) && Deciding(op) && |stack| == STACK_SLOTS
    ensures Recorded(Prefix(s, op), Apply(s, op, stack).s, op, Apply(s, op, stack).wake)
  {
    var p := Prefix(s, op);
    PrefixEffect(s, op);
    PrefixKeepsGood(s, op);
    DetermineRecords(p, op.t, stack);
    DetermineDecides(p, op.t, stack);
    var d := Determine(p, op.t, stack);
    EndRecords(p, d, op);
    ApplyInParts(s, op, stack);
  }

  /** The clock a deciding operation leaves its caller with, and whether it still counts. */
  ghost predicate CallerCounts(s: State, r: State, op: Op)
    requires !op.Notify? && 0 <= op.t < |s.clocks| == |r.clocks|
  {
    var e, f := s.clocks[op.t], r.clocks[op.t];
    match op
    case Stop(t, d) => f.Clock() == e.Clock() + (if e.counting then d else 0)
    case Disable(t, d) => f.Clock() == e.Clock() + (if e.counting then d else 0)
    case Enable(t) => f.Clock() == e.Clock() && f.counting
    case Halt(t) => f.Clock() == e.Clock()
    case Wait(t) => f.Clock() == e.Clock()
    case Sleep(t) => f.Clock() == e.Clock()
    case _ => true
  }

  lemma PrefixCounts(s: State, op: Op)
    requires GroupInv(s) && Enabled(s, op) && Deciding(op)
    ensures CallerCounts(s, Prefix(s, op), op)
  {
  }

  lemma DecidingCounts(s: State, op: Op, stack: seq<int>)
    requires GroupInv(s) && Enabled(s, op) && Deciding(op) && |stack| == STACK_SLOTS
    ensures CallerCounts(s, Apply(s, op, stack).s, op)
  {
    PrefixCounts(s, op);
    DecidingGrantsFrom(s, op, stack);
    DecidingRecords(s, op, stack);
    assert Prefix(s, op).clocks[op.t].Clock() == Apply(s, op, stack).s.clocks[op.t].Clock();
  }

  /** Everything about one deciding step that the invariant needs. */
  ghost predicate DecidingFacts(s: State, p: State, o: Outcome, op: Op) {
    && WF(s) && WF(p) && GroupInv(o.s) && !op.Notify? && 0 <= op.t < |s.clocks| == |p.clocks| == |o.s.clocks|
        && -1 <= o.wake < |s.clocks|
    && OnlyCounts(s, p, op.t)
    && (p.notificationNeeded == (s.notificationNeeded || op.Disable?)) && p.nmiNewLow == s.nmiNewLow
        && p.queued == s.queued
    && (forall i :: i in p.active <==> i in s.active && !(op.Halt? && i == op.t))
    && (op.t in s.active && |p.active| == if op.Halt? then |s.active| - 1 else |s.active|)
    && (OnlyActive(p, op.t) <==> |s.active| == 1 && !op.Halt?)
    && Decided(s, o.s, op.t, Lowest(p), o.wake, LeavesWaiting(op), LeavesSleeping(op, s.clocks[op.t].sleeping))
    && Recorded(p, o.s, op, o.wake)
    && GrantsRightly(p, o.s, op.t, o.wake)
    && CallerCounts(s, o.s, op)
  }

  lemma DecidingStep(s: State, op: Op, stack: seq<int>)
    requires GroupInv(s) && Enabled(s, op) && Deciding(op) && |stack| == STACK_SLOTS
    ensures DecidingFacts(s, Prefix(s, op), Apply(s, op, stack), op)
  {
    PrefixEffect(s, op);
    PrefixKeepsGood(s, op);
    WithoutElements(s.active, op.t);
    GroupKept(s, op, stack);
    DecidingDecides(s, op, stack);
    DecidingRecords(s, op, stack);
    DecidingGrantsFrom(s, op, stack);
    DecidingCounts(s, op, stack);
  }

  /** A minimum other than the caller stays the minimum, whatever the caller does. */
  lemma MinimumStays(s: State, p: State, op: Op)
    requires Good(s) && Good(p) && !op.Notify? && OnlyCounts(s, p, op.t)
    requires forall i :: i in p.active <==> i in s.active && !(op.Halt? && i == op.t)
    ensures Lowest(s) >= 0 && Lowest(s) != op.t ==> Lowest(p) == Lowest(s)
    ensures !op.Halt? && p.clocks[op.t].Clock() == s.clocks[op.t].Clock() ==> Lowest(p) == Lowest(s)
  {
    LowestIsUniqueMinimum(s);
    LowestIsUniqueMinimum(p);
    var m := Lowest(s);
    if m >= 0 && m != op.t {
      assert m in p.active;
      forall i | i in p.active && i != m ensures Before(At(p, m), At(p, i)) {
        assert Before(At(s, m), At(s, i));
      }
    }
    if !op.Halt? && p.clocks[op.t].Clock() == s.clocks[op.t].Clock() && m >= 0 {
      assert m in p.active;
      forall i | i in p.active && i != m ensures Before(At(p, m), At(p, i)) {
        assert Before(At(s, m), At(s, i));
      }
    }
  }

  /** The system after a deciding step. */
  ghost function Resumed(x: Sys, op: Op, o: Outcome): (y: Sys)
    requires Sized(x) && WF(o.s) && |o.s.clocks| == |x.s.clocks| && !op.Notify? && 0 <= op.t < |x.phase|
    ensures Sized(y) && y.s == o.s && |y.phase| == |x.phase| && y.spinning == Spinner(x.s, op)
  {
    Award(Sys(o.s, Moved(x.phase, op), x.todo, x.turns, Spinner(x.s, op)), GrantedBy(op, o))
  }

  /** A grant answers an open request and means nothing otherwise. */
  function Answer(ph: Phase, todo: seq<nat>, granted: bool): Phase {
    if granted && ph == Stopped(false) && todo != [] then Stopped(true) else ph
  }

  function Left(ph: Phase, todo: seq<nat>, granted: bool): seq<nat> {
    if granted && ph == Stopped(false) && todo != [] then todo[1..] else todo
  }

  /** Where the caller moves to in its cycle. */
  function MovedTo(op: Op, ph: Phase): Phase {
    match op
    case Stop(_, _) => Stopped(false)
    case WokeUp(_) => Awake
    case Enable(_) => Running
    case Disable(_, _) => Halting
    case Halt(_) => Halted
    case _ => ph
  }

  /** Thread by thread: the caller moves on and may be granted, the woken one is granted, others stay. */
  ghost predicate Resumes(x: Sys, y: Sys, t: int, moved: Phase, granted: bool, wake: int)
    requires Sized(x) && Sized(y) && |y.phase| == |x.phase| && 0 <= t < |x.phase| && -1 <= wake < |x.phase|
  {
    && (forall i :: 0 <= i < |x.phase| && i != t && i != wake ==> y.phase[i] == x.phase[i] && y.todo[i] == x.todo[i])
    && (wake >= 0 ==>
          wake != t && y.phase[wake] == Answer(x.phase[wake], x.todo[wake], true)
          && y.todo[wake] == Left(x.phase[wake], x.todo[wake], true))
    && y.phase[t] == Answer(moved, x.todo[t], granted) && y.todo[t] == Left(moved, x.todo[t], granted)
  }

  lemma ResumedResumes(x: Sys, op: Op, o: Outcome)
    requires Sized(x) && WF(o.s) && |o.s.clocks| == |x.s.clocks| && Deciding(op) && 0 <= op.t < |x.phase|
        && -1 <= o.wake < |x.phase|
    requires o.wake >= 0 ==> o.wake != op.t && !o.s.status[op.t].lowestClock
    requires op.Halt? ==> !o.s.status[op.t].lowestClock
    ensures Resumes(x, Resumed(x, op, o), op.t, MovedTo(op, x.phase[op.t]), o.s.status[op.t].lowestClock, o.wake)
  {
    CallerMoves(x.phase, op);
  }

  lemma CallerMoves(phase: seq<Phase>, op: Op)
    requires Deciding(op) && 0 <= op.t < |phase|
    ensures Moved(phase, op) == phase[op.t := MovedTo(op, phase[op.t])]
  {
  }

  /** All that is known about a deciding step: x before it, y after it, p at the decision. */
  ghost predicate Steps(x: Sys, step: Step, p: State, o: Outcome, y: Sys) {
    && Ok(x) && Allowed(x, step) && Deciding(step.op) && DecidingFacts(x.s, p, o, step.op)
    && Sized(y) && y.s == o.s && |y.phase| == |x.phase| && y.spinning == Spinner(x.s, step.op)
    && Resumes(x, y, step.op.t, MovedTo(step.op, x.phase[step.op.t]), o.s.status[step.op.t].lowestClock, o.wake)
    && (Lowest(x.s) >= 0 && Lowest(x.s) != step.op.t ==> Lowest(p) == Lowest(x.s))
    && (step.op.Wait? || step.op.Sleep? || step.op.Enable? ==> Lowest(p) == Lowest(x.s))
  }

  lemma StoppingFits(e: Entry, u: Status, todo: seq<nat>, f: Entry, v: Status, granted: bool)
    requires Fits(e, u, true, Running, todo) && todo != [] && f.Clock() == todo[0] && f.pollIn == e.pollIn
    requires f.waiting == !granted && !f.sleeping && v.lowestClock == granted
    ensures Fits(f, v, true, Answer(Stopped(false), todo, granted), Left(Stopped(false), todo, granted))
  {
  }

  lemma WaitingFits(e: Entry, u: Status, had: bool, todo: seq<nat>, f: Entry, v: Status, granted: bool)
    requires Fits(e, u, true, Stopped(had), todo) && !e.sleeping && f.Clock() == e.Clock() && f.pollIn == e.pollIn
    requires f.waiting == !granted && (f.sleeping ==> !granted) && v.lowestClock == granted && (had ==> granted)
    ensures Fits(f, v, true, Answer(Stopped(had), todo, granted), Left(Stopped(had), todo, granted))
  {
  }

  /** The caller's own part of the cycle. */
  lemma CallerOk(x: Sys, step: Step, p: State, o: Outcome, y: Sys)
    requires Steps(x, step, p, o, y)
    ensures ThreadOk(y, step.op.t)
  {
    var t := step.op.t;
    var e, u, f, v := x.s.clocks[t], x.s.status[t], y.s.clocks[t], y.s.status[t];
    assert ThreadOk(x, t);
    assert t in y.s.active <==> !step.op.Halt?;
    match step.op
    case Stop(_, _) => StoppingFits(e, u, x.todo[t], f, v, v.lowestClock);
    case Wait(_) => WaitingFits(e, u, x.phase[t].granted, x.todo[t], f, v, v.lowestClock);
    case Sleep(_) => WaitingFits(e, u, x.phase[t].granted, x.todo[t], f, v, v.lowestClock);
    case _ =>
  }

  /** Threads other than the caller and the woken one do not notice. */
  lemma BystanderOk(x: Sys, step: Step, p: State, o: Outcome, y: Sys, i: int)
    requires Steps(x, step, p, o, y) && 0 <= i < |x.phase| && i != step.op.t && i != o.wake
    ensures ThreadOk(y, i)
  {
    assert ThreadOk(x, i);
    assert i in y.s.active <==> i in x.s.active;
  }

  lemma WakingFits(e: Entry, u: Status, ph: Phase, todo: seq<nat>)
    requires Fits(e, u, true, ph, todo) && e.waiting
    ensures Fits(e.(pollIn := e.pollIn || e.sleeping), u.(lowestClock := u.lowestClock || !e.sleeping), true,
        Answer(ph, todo, true), Left(ph, todo, true))
  {
  }

  /** The woken thread has its request answered, and sees that it has. */
  lemma WokenOk(x: Sys, step: Step, p: State, o: Outcome, y: Sys)
    requires Steps(x, step, p, o, y) && o.wake >= 0
    ensures ThreadOk(y, o.wake)
  {
    var w := o.wake;
    assert ThreadOk(x, w);
    assert w in y.s.active && w in x.s.active && x.s.clocks[w].waiting;
    WakingFits(x.s.clocks[w], x.s.status[w], x.phase[w], x.todo[w]);
  }

  /** The minimum's request cannot be left unanswered by a decision. */
  lemma MinimumAnswered(x: Sys, step: Step, p: State, o: Outcome, y: Sys)
    requires Steps(x, step, p, o, y) && NoneForgotten(x) && Lowest(y.s) >= 0
    ensures y.phase[Lowest(y.s)] != Stopped(false)
  {
    var m, t := Lowest(p), step.op.t;
    assert m == Lowest(y.s);
    if m == t {
      CallerOk(x, step, p, o, y);
    } else if m == o.wake {
      WokenOk(x, step, p, o, y);
      assert ThreadOk(x, m);
    } else {
      BystanderMinimumAnswered(x, step, p, o, y);
    }
  }

  /** Were the minimum left waiting, it would have been recorded with nothing owed, so answered before. */
  lemma BystanderMinimumAnswered(x: Sys, step: Step, p: State, o: Outcome, y: Sys)
    requires Steps(x, step, p, o, y) && NoneForgotten(x)
    requires Lowest(p) >= 0 && Lowest(p) != step.op.t && Lowest(p) != o.wake
    ensures y.phase[Lowest(p)] != Stopped(false)
  {
    var m := Lowest(p);
    assert ThreadOk(x, m);
    assert y.phase[m] == x.phase[m];
    LowestIsUniqueMinimum(x.s);
  }

  lemma HoldersStayMinimum(x: Sys, step: Step, p: State, o: Outcome, y: Sys, i: int)
    requires Steps(x, step, p, o, y) && 0 <= i < |x.phase| && HoldsTurn(y.phase[i])
    ensures i == Lowest(y.s)
  {
    var m, t := Lowest(p), step.op.t;
    assert m == Lowest(y.s);
    assert ThreadOk(x, i);
    if i != t && i != o.wake {
      assert HoldsTurn(x.phase[i]) && i == Lowest(x.s);
    }
  }

  /** With nothing owed after a decision, the request of the recorded thread has been answered. */
  lemma RecordAnswered(x: Sys, step: Step, p: State, o: Outcome, y: Sys)
    requires Steps(x, step, p, o, y) && NoneForgotten(x) && !y.s.notificationNeeded && y.s.lowestTid in y.s.active
    ensures y.phase[y.s.lowestTid] != Stopped(false)
  {
    LowestIsUniqueMinimum(p);
    if OnlyActive(p, step.op.t) {
      OnlyMember(p.active, step.op.t);
    }
    assert y.s.lowestTid == Lowest(y.s);
    MinimumAnswered(x, step, p, o, y);
  }

  lemma OnlyMember(active: seq<int>, t: int)
    requires |active| == 1 && t in active
    ensures active == [t]
  {
  }

  lemma RecordIsMinimum(x: Sys, step: Step, p: State, o: Outcome, y: Sys)
    requires Steps(x, step, p, o, y) && NoneForgotten(x) && Stale(y.s)
    ensures y.s.lowestTid == Lowest(p)
    ensures Lowest(p) != step.op.t && o.wake < 0 ==> Stale(x.s) && Lowest(p) == Lowest(x.s)
  {
    LowestIsUniqueMinimum(x.s);
  }

  lemma RecordStaysMinimum(x: Sys, step: Step, p: State, o: Outcome, y: Sys)
    requires Steps(x, step, p, o, y) && NoneForgotten(x) && Stale(y.s)
    ensures y.s.lowestTid == Lowest(y.s) && Lowest(y.s) >= 0 && y.phase[Lowest(y.s)] != Running
  {
    var m, t := Lowest(p), step.op.t;
    assert m >= 0 by {
      LowestIsUniqueMinimum(y.s);
    }
    RecordIsMinimum(x, step, p, o, y);
    assert m == Lowest(y.s);
    if m == t {
      assert !step.op.Enable? && ThreadOk(x, t);
    } else if m == o.wake {
      WokenOk(x, step, p, o, y);
      assert ThreadOk(y, m) && y.s.clocks[m].waiting;
    } else {
      assert y.phase[m] == x.phase[m];
    }
  }

  lemma DecidingThreads(x: Sys, step: Step, p: State, o: Outcome, y: Sys)
    requires Steps(x, step, p, o, y)
    ensures forall i :: 0 <= i < |y.phase| ==> ThreadOk(y, i)
  {
    forall i | 0 <= i < |y.phase| ensures ThreadOk(y, i) {
      if i == step.op.t {
        CallerOk(x, step, p, o, y);
      } else if i == o.wake {
        WokenOk(x, step, p, o, y);
      } else {
        BystanderOk(x, step, p, o, y, i);
      }
    }
  }

  lemma DecidingGroup(x: Sys, step: Step, p: State, o: Outcome, y: Sys)
    requires Steps(x, step, p, o, y)
    ensures GroupOk(y)
  {
    forall i | 0 <= i < |y.phase| && HoldsTurn(y.phase[i]) ensures i == Lowest(y.s) {
      HoldersStayMinimum(x, step, p, o, y, i);
    }
    forall i | 0 <= i < |y.phase| && WokenAndWaits(y, i) ensures y.s.lowestTid == i && !y.s.notificationNeeded {
      HoldersStayMinimum(x, step, p, o, y, i);
      WokenIsRecorded(x, step, p, o, y, i);
    }
    if y.spinning != -1 {
      SpinnerStaysStranded(x, step, p, o, y);
    }
  }

  lemma DecidingForgetsNone(x: Sys, step: Step, p: State, o: Outcome, y: Sys)
    requires Steps(x, step, p, o, y) && NoneForgotten(x)
    ensures NoneForgotten(y)
  {
    if Lowest(y.s) >= 0 {
      MinimumAnswered(x, step, p, o, y);
    }
    if !y.s.notificationNeeded && y.s.lowestTid in y.s.active {
      RecordAnswered(x, step, p, o, y);
    }
    if Stale(y.s) {
      RecordStaysMinimum(x, step, p, o, y);
    }
  }

  lemma WokenIsRecorded(x: Sys, step: Step, p: State, o: Outcome, y: Sys, i: int)
    requires Steps(x, step, p, o, y) && 0 <= i < |y.phase| && WokenAndWaits(y, i) && i == Lowest(y.s)
    ensures y.s.lowestTid == i && !y.s.notificationNeeded
  {
    assert i == Lowest(p) && i != step.op.t;
    assert p.clocks[i].waiting && i in p.active;
    assert !OnlyActive(p, step.op.t);
  }

  lemma SpinnerStaysStranded(x: Sys, step: Step, p: State, o: Outcome, y: Sys)
    requires Steps(x, step, p, o, y) && step.op.Sleep? && Stranded(x.s, step.op.t)
    ensures y.spinning in y.s.active && Stranded(y.s, y.spinning)
  {
    var m, t := Lowest(x.s), step.op.t;
    LowestIsUniqueMinimum(x.s);
    assert m in x.s.active && x.s.clocks[m].waiting;
    forall i | i in y.s.active && i != t ensures y.s.clocks[i].sleeping {
      assert x.s.clocks[i].sleeping;
    }
  }

  lemma PrefixMinimum(s: State, op: Op)
    requires GroupInv(s) && Enabled(s, op) && Deciding(op)
    ensures Lowest(s) >= 0 && Lowest(s) != op.t ==> Lowest(Prefix(s, op)) == Lowest(s)
    ensures op.Wait? || op.Sleep? || op.Enable? ==> Lowest(Prefix(s, op)) == Lowest(s)
  {
    PrefixEffect(s, op);
    PrefixKeepsGood(s, op);
    PrefixCounts(s, op);
    MinimumStays(s, Prefix(s, op), op);
  }

  lemma AfterIsResumed(x: Sys, step: Step)
    requires Allowed(x, step) && Deciding(step.op)
    ensures After(x, step) == Resumed(x, step.op, Apply(x.s, step.op, step.stack))
  {
  }

  lemma DecidingAfter(x: Sys, step: Step)
    requires Ok(x) && Allowed(x, step) && Deciding(step.op)
    ensures Steps(x, step, Prefix(x.s, step.op), Apply(x.s, step.op, step.stack), After(x, step))
  {
    var p, o := Prefix(x.s, step.op), Apply(x.s, step.op, step.stack);
    DecidingStep(x.s, step.op, step.stack);
    PrefixMinimum(x.s, step.op);
    AfterIsResumed(x, step);
    StepsFromFacts(x, step, p, o);
  }

  lemma StepsFromFacts(x: Sys, step: Step, p: State, o: Outcome)
    requires Ok(x) && Allowed(x, step) && Deciding(step.op) && DecidingFacts(x.s, p, o, step.op)
    requires Lowest(x.s) >= 0 && Lowest(x.s) != step.op.t ==> Lowest(p) == Lowest(x.s)
    requires step.op.Wait? || step.op.Sleep? || step.op.Enable? ==> Lowest(p) == Lowest(x.s)
    ensures Steps(x, step, p, o, Resumed(x, step.op, o))
  {
    HaltedIsNotLowest(p, step.op);
    ResumedResumes(x, step.op, o);
  }

  lemma HaltedIsNotLowest(p: State, op: Op)
    requires WF(p) && !op.Notify? && op.t >= 0
    ensures op.Halt? && op.t !in p.active ==> Lowest(p) != op.t
  {
    ScanIsMinimum(AnyLive, p.clocks, p.active);
  }

  lemma DecidingKeepsOk(x: Sys, step: Step)
    requires Ok(x) && Allowed(x, step) && Deciding(step.op)
    ensures Keeps(x, After(x, step))
  {
    var p, o := Prefix(x.s, step.op), Apply(x.s, step.op, step.stack);
    DecidingAfter(x, step);
    DecidingThreads(x, step, p, o, After(x, step));
    DecidingGroup(x, step, p, o, After(x, step));
    if NoneForgotten(x) {
      DecidingForgetsNone(x, step, p, o, After(x, step));
    }
  }

  // ----- the other steps

  /** A running thread counts: only its clock moves, and it holds no turn. */
  lemma RunningKeepsOk(x: Sys, r: State, t: int)
    requires Ok(x) && x.spinning == -1 && 0 <= t < |x.phase| && x.phase[t] == Running && GroupInv(r)
    requires OnlyCounts(x.s, r, t) && r.active == x.s.active && r.notificationNeeded == x.s.notificationNeeded
    requires r.clocks[t].counting && r.status == x.s.status
    requires x.todo[t] != [] ==> r.clocks[t].Clock() <= x.todo[t][0]
    requires Stale(r) ==> Stale(x.s)
    ensures Keeps(x, x.(s := r))
  {
    RunningGroup(x, r, t);
    forall i | 0 <= i < |x.phase| ensures ThreadOk(x.(s := r), i) {
      assert ThreadOk(x, i);
    }
  }

  lemma RunningGroup(x: Sys, r: State, t: int)
    requires Ok(x) && x.spinning == -1 && 0 <= t < |x.phase| && x.phase[t] == Running && GroupInv(r)
    requires OnlyCounts(x.s, r, t) && r.active == x.s.active && r.notificationNeeded == x.s.notificationNeeded
    requires |r.status| == |x.s.status| && (Stale(r) ==> Stale(x.s))
    ensures GroupOk(x.(s := r)) && (NoneForgotten(x) ==> NoneForgotten(x.(s := r)))
  {
    var y := x.(s := r);
    assert ThreadOk(x, t);
    MinimumStays(x.s, r, Op.Wait(t));
    LowestIsUniqueMinimum(r);
    forall i | 0 <= i < |y.phase| && WokenAndWaits(y, i) ensures y.s.lowestTid == i && !y.s.notificationNeeded {
      assert WokenAndWaits(x, i);
    }
  }

  lemma CreditOnlyCounts(s: State, t: int, d: nat)
    requires WF(s) && 0 <= t < |s.clocks|
    ensures var r := OverflowUpdatePeriod(s, t, d);
            && OnlyCounts(s, r, t) && r.active == s.active && r.notificationNeeded == s.notificationNeeded
                && r.status == s.status
            && r.clocks[t].counting == s.clocks[t].counting
            && r.clocks[t].Clock() == s.clocks[t].Clock() + if s.clocks[t].counting then d else 0
  {
  }

  lemma CreditKeepsOk(x: Sys, step: Step)
    requires Ok(x) && Allowed(x, step) && step.op.Credit?
    ensures Keeps(x, After(x, step))
  {
    var t, r := step.op.t, OverflowUpdatePeriod(x.s, step.op.t, step.op.delta);
    GroupKept(x.s, step.op, step.stack);
    assert ThreadOk(x, t);
    CreditOnlyCounts(x.s, t, step.op.delta);
    RunningKeepsOk(x, r, t);
    assert After(x, step) == x.(s := r);
  }

  lemma OverflowOnlyFlags(s: State, t: int)
    requires WF(s) && 0 <= t < |s.clocks|
    ensures OverflowHandler(s, t) == s || OverflowHandler(s, t) == s.(nmiNewLow := true, queued := true)
  {
  }

  lemma OverflowKeepsOk(x: Sys, step: Step)
    requires Ok(x) && Allowed(x, step) && step.op.Overflow?
    ensures Keeps(x, After(x, step))
  {
    var t, r := step.op.t, OverflowHandler(x.s, step.op.t);
    GroupKept(x.s, step.op, step.stack);
    OverflowOnlyFlags(x.s, t);
    assert ThreadOk(x, t);
    RunningKeepsOk(x, r, t);
    assert After(x, step) == x.(s := r);
  }

  /** Nothing but the caller's flags and page changes when it wakes up. */
  lemma WokenUpThreads(x: Sys, t: int, y: Sys)
    requires Ok(x) && y.spinning == -1 && 0 <= t < |x.phase| && x.phase[t] == Stopped(true)
    requires Sized(y) && |y.phase| == |x.phase| && y.phase == x.phase[t := Awake] && y.todo == x.todo
    requires y.s.active == x.s.active && y.s.nmiNewLow == x.s.nmiNewLow && y.s.queued == x.s.queued
    requires y.s.clocks == x.s.clocks[t := x.s.clocks[t].(waiting := false, sleeping := false, pollIn := false)]
    requires y.s.status == x.s.status[t := x.s.status[t].(lowestClock := false)]
    requires y.s.notificationNeeded == x.s.notificationNeeded && y.s.lowestTid == x.s.lowestTid
    ensures Keeps(x, y)
  {
    assert ThreadOk(x, t);
    ScanOfSameStamps(x.s.clocks, y.s.clocks, x.s.active);
    forall i | 0 <= i < |x.phase| ensures ThreadOk(y, i) {
      assert ThreadOk(x, i);
    }
  }

  /** A thread leaves its wait only when it holds the turn. */
  lemma WokeUpKeepsOk(x: Sys, step: Step)
    requires Ok(x) && Allowed(x, step) && step.op.WokeUp?
    ensures Keeps(x, After(x, step))
    ensures x.phase[step.op.t] == Stopped(true)
  {
    assert ThreadOk(x, step.op.t);
    WokenUpThreads(x, step.op.t, After(x, step));
  }

  lemma NotifyThreads(x: Sys, o: Outcome)
    requires Ok(x) && GroupInv(o.s) && -1 <= o.wake < |x.phase| == |o.s.clocks| && o.s.active == x.s.active
    requires forall i ::
          0 <= i < |x.phase| && i != o.wake ==> o.s.clocks[i] == x.s.clocks[i] && o.s.status[i] == x.s.status[i]
    requires o.wake >= 0 ==>
      var e, u := x.s.clocks[o.wake], x.s.status[o.wake];
      && e.waiting && o.wake in x.s.active
      && o.s.clocks[o.wake] == e.(pollIn := e.pollIn || e.sleeping)
          && o.s.status[o.wake] == u.(lowestClock := u.lowestClock || !e.sleeping)
    ensures var y := Award(x.(s := o.s), o.wake);
            forall i :: 0 <= i < |y.phase| ==> ThreadOk(y, i)
  {
    forall i | 0 <= i < |x.phase| ensures ThreadOk(Award(x.(s := o.s), o.wake), i) {
      assert ThreadOk(x, i);
    }
  }

  lemma NotifyChanges(s: State, stack: seq<int>)
    requires GroupInv(s) && |stack| == STACK_SLOTS
    ensures var o, m := NotifyWaiting(s, stack), Lowest(s);
            && o.s.active == s.active && Lowest(o.s) == m
            && (forall i ::
                  0 <= i < |s.clocks| && i != o.wake ==> o.s.clocks[i] == s.clocks[i] && o.s.status[i] == s.status[i])
            && (o.wake >= 0 ==>
                  var e, u := s.clocks[o.wake], s.status[o.wake];
                  && e.waiting && o.wake in s.active && o.wake == m
                  && o.s.clocks[o.wake] == e.(pollIn := e.pollIn || e.sleeping)
                      && o.s.status[o.wake] == u.(lowestClock := u.lowestClock || !e.sleeping))
            && (o.s.lowestTid == s.lowestTid || o.s.lowestTid == m)
            && (forall i :: 0 <= i < |s.clocks| ==> o.s.clocks[i].waiting == s.clocks[i].waiting)
            && (o.s.notificationNeeded <==> s.notificationNeeded && o.wake < 0) && !o.s.queued
            && (o.wake < 0 && m >= 0 && s.clocks[m].waiting ==> !s.notificationNeeded && !s.nmiNewLow)
            && (o.wake >= 0 ==> o.s.lowestTid == m)
  {
    NotifyExact(s, stack);
    LowestIsUniqueMinimum(s);
    ScanOfSameStamps(s.clocks, NotifyWaiting(s, stack).s.clocks, s.active);
  }

  lemma NotifyKeepsOk(x: Sys, step: Step)
    requires Ok(x) && Allowed(x, step) && step.op.Notify?
    ensures Keeps(x, After(x, step))
  {
    var o := NotifyWaiting(x.s, step.stack);
    NotifyIsNotified(x, step.stack);
    NotifyGroup(x, o);
    if NoneForgotten(x) {
      NotifyForgetsNone(x, o);
    }
    assert After(x, step) == Award(x.(s := o.s), o.wake);
  }

  lemma NotifyIsNotified(x: Sys, stack: seq<int>)
    requires Ok(x) && x.spinning == -1 && x.s.queued && |stack| == STACK_SLOTS
    ensures var o := NotifyWaiting(x.s, stack);
            Notified(x, o) && forall i :: 0 <= i < |x.phase| ==> ThreadOk(Award(x.(s := o.s), o.wake), i)
  {
    GroupKept(x.s, Op.Notify, stack);
    NotifyChanges(x.s, stack);
    NotifyThreads(x, NotifyWaiting(x.s, stack));
  }

  ghost predicate Notified(x: Sys, o: Outcome) {
    && Ok(x) && x.spinning == -1 && GroupInv(o.s) && -1 <= o.wake < |x.phase| == |o.s.clocks|
    && o.s.active == x.s.active && Lowest(o.s) == Lowest(x.s)
    && (o.wake >= 0 ==> o.wake == Lowest(x.s) && x.s.clocks[o.wake].waiting && o.wake in x.s.active)
    && (o.s.lowestTid == x.s.lowestTid || o.s.lowestTid == Lowest(x.s))
    && (o.s.lowestTid == Lowest(x.s) || o.wake < 0)
    && (forall i :: 0 <= i < |x.phase| ==> o.s.clocks[i].waiting == x.s.clocks[i].waiting)
    && (o.s.notificationNeeded <==> x.s.notificationNeeded && o.wake < 0)
    && !o.s.queued
    && (o.wake < 0 && Lowest(x.s) >= 0 && x.s.clocks[Lowest(x.s)].waiting ==>
          !x.s.notificationNeeded && !x.s.nmiNewLow && x.s.queued)
  }

  lemma NotifyGroup(x: Sys, o: Outcome)
    requires Notified(x, o)
    ensures GroupOk(Award(x.(s := o.s), o.wake))
  {
    var m, y := Lowest(x.s), Award(x.(s := o.s), o.wake);
    if m >= 0 {
      assert ThreadOk(x, m);
    }
    forall i | 0 <= i < |y.phase| && WokenAndWaits(y, i) ensures y.s.lowestTid == i && !y.s.notificationNeeded {
      assert o.wake < 0 ==> WokenAndWaits(x, i);
    }
  }

  /** A notification that is late finds the waiting minimum recorded, and answered. */
  lemma NotifyForgetsNone(x: Sys, o: Outcome)
    requires Notified(x, o) && NoneForgotten(x)
    ensures NoneForgotten(Award(x.(s := o.s), o.wake))
  {
    var m, y := Lowest(x.s), Award(x.(s := o.s), o.wake);
    LowestIsUniqueMinimum(x.s);
    if m >= 0 {
      assert ThreadOk(x, m);
      if x.phase[m] == Stopped(false) && o.wake < 0 {
        WaitingMinimumIsPassed(x, m);
      }
    }
    if o.s.lowestTid in x.s.active {
      assert ThreadOk(x, o.s.lowestTid);
    }
  }

  /** A minimum left waiting is not alone, so no notification is stale. */
  lemma WaitingMinimumIsPassed(x: Sys, m: int)
    requires Live(x) && m == Lowest(x.s) >= 0 && x.phase[m] == Stopped(false)
    ensures |x.s.active| > 1 && !Stale(x.s)
  {
    LowestIsUniqueMinimum(x.s);
    var i :| 0 <= i < |x.phase| && x.phase[i] == Running;
    assert ThreadOk(x, i);
    if |x.s.active| == 1 {
      OnlyMember(x.s.active, m);
    }
  }

  lemma StepKeepsOk(x: Sys, step: Step)
    requires Ok(x) && Allowed(x, step)
    ensures Keeps(x, After(x, step))
  {
    if Deciding(step.op) {
      DecidingKeepsOk(x, step);
    } else if step.op.WokeUp? {
      WokeUpKeepsOk(x, step);
    } else if step.op.Notify? {
      NotifyKeepsOk(x, step);
    } else if step.op.Credit? {
      CreditKeepsOk(x, step);
    } else {
      OverflowKeepsOk(x, step);
    }
  }

  // ----- the canonical order

  /** A step leaves the requests alone, or serves the one of the thread it grants. */
  ghost predicate Serves(x: Sys, y: Sys, g: int)
    requires Sized(x) && Sized(y)
  {
    && 0 <= g < |x.todo| == |y.todo| && x.todo[g] != [] && y.todo == Served(x.todo, g)
    && y.turns == x.turns + [Stamp(x.todo[g][0], g)]
    && y.phase[g] == Stopped(true) && y.s.clocks[g].Clock() == x.todo[g][0]
  }

  ghost predicate ServesAtMostOne(x: Sys, y: Sys)
    requires Sized(x) && Sized(y)
  {
    (y.todo == x.todo && y.turns == x.turns) || exists g :: Serves(x, y, g)
  }

  lemma DecidingServes(x: Sys, step: Step, p: State, o: Outcome, y: Sys)
    requires Steps(x, step, p, o, y) && y == Resumed(x, step.op, o)
    ensures ServesAtMostOne(x, y)
  {
    var g := GrantedBy(step.op, o);
    if g >= 0 && Moved(x.phase, step.op)[g] == Stopped(false) && x.todo[g] != [] {
      assert ThreadOk(x, g);
      assert Serves(x, y, g);
    }
  }

  lemma DecidingStepServes(x: Sys, step: Step)
    requires Ok(x) && Allowed(x, step) && Deciding(step.op)
    ensures ServesAtMostOne(x, After(x, step))
  {
    var o := Apply(x.s, step.op, step.stack);
    DecidingAfter(x, step);
    assert After(x, step) == Resumed(x, step.op, o);
    DecidingServes(x, step, Prefix(x.s, step.op), o, After(x, step));
  }

  lemma NotifyServes(x: Sys, step: Step)
    requires Ok(x) && Allowed(x, step) && step.op.Notify?
    ensures ServesAtMostOne(x, After(x, step))
  {
    var o := NotifyWaiting(x.s, step.stack);
    NotifyChanges(x.s, step.stack);
    var g, y := o.wake, After(x, step);
    assert y == Award(x.(s := o.s), g);
    if g >= 0 && x.phase[g] == Stopped(false) {
      assert ThreadOk(x, g);
      assert Serves(x, y, g);
    }
  }

  lemma StepServes(x: Sys, step: Step)
    requires Ok(x) && Allowed(x, step)
    ensures ServesAtMostOne(x, After(x, step))
  {
    if Deciding(step.op) {
      DecidingStepServes(x, step);
    } else if step.op.Notify? {
      NotifyServes(x, step);
    }
  }

  /** The request a step serves is the one the merge takes next. */
  lemma ServedLeads(x: Sys, y: Sys, g: int)
    requires Ok(y) && Sized(x) && Serves(x, y, g)
    ensures Leads(x.todo, g)
  {
    LowestIsUniqueMinimum(y.s);
    assert HoldsTurn(y.phase[g]) && g == Lowest(y.s);
    forall j | 0 <= j < |x.todo| && j != g && x.todo[j] != []
      ensures Before(Stamp(x.todo[g][0], g), Stamp(x.todo[j][0], j))
    {
      assert ThreadOk(y, j) && y.todo[j] == x.todo[j];
      assert Before(At(y.s, g), At(y.s, j));
    }
  }

  /** What has been granted, followed by the merge of what has not, never changes. */
  ghost predicate SameSchedule(x: Sys, y: Sys) {
    x.turns <= y.turns && y.turns + Merge(y.todo) == x.turns + Merge(x.todo)
  }

  lemma ServingKeepsSchedule(x: Sys, y: Sys)
    requires Sized(x) && Ok(y) && ServesAtMostOne(x, y)
    ensures SameSchedule(x, y)
  {
    if y.todo != x.todo || y.turns != x.turns {
      var g :| Serves(x, y, g);
      ServedLeads(x, y, g);
      LeaderIsNext(x.todo, g);
    }
  }

  lemma StepKeepsSchedule(x: Sys, step: Step)
    requires Ok(x) && Allowed(x, step)
    ensures Keeps(x, After(x, step)) && SameSchedule(x, After(x, step))
  {
    StepKeepsOk(x, step);
    StepServes(x, step);
    ServingKeepsSchedule(x, After(x, step));
  }

  lemma MoveKeepsSchedule(run: seq<Sys>, steps: seq<Step>, k: nat)
    requires Interleaving(run, steps) && k < |steps| && Ok(run[k])
    ensures Keeps(run[k], run[k + 1]) && SameSchedule(run[k], run[k + 1])
  {
    assert Moves(run[k], steps[k], run[k + 1]);
    StepKeepsSchedule(run[k], steps[k]);
  }

  lemma {:induction false} InterleavingKeepsSchedule(run: seq<Sys>, steps: seq<Step>, k: nat)
    requires Interleaving(run, steps) && Ok(run[0]) && k <= |steps|
    ensures Keeps(run[0], run[k]) && SameSchedule(run[0], run[k])
  {
    if k == 0 {
    } else {
      InterleavingKeepsSchedule(run, steps, k - 1);
      MoveKeepsSchedule(run, steps, k - 1);
    }
  }

  lemma RunKeepsSchedule(x: Sys, steps: seq<Step>, y: Sys)
    requires Ok(x) && Reaches(x, steps, y)
    ensures Keeps(x, y) && SameSchedule(x, y)
  {
    var run :| Interleaving(run, steps) && run[0] == x && run[|steps|] == y;
    InterleavingKeepsSchedule(run, steps, |steps|);
  }

  // ----- the theorems

  /** Everybody listed runs, whoever is recorded, and whatever is owed, flagged or scheduled. */
  ghost predicate AllRun(s: State) {
    && Good(s) && RecordOk(s)
    && (forall i :: 0 <= i < |s.clocks| ==> !s.clocks[i].pollIn)
    && forall i :: i in s.active ==> s.clocks[i].counting && !s.clocks[i].waiting && !s.clocks[i].sleeping
  }

  /** A start with chunks for the listed threads. */
  ghost predicate Fresh(s: State, chunks: seq<seq<nat>>) {
    AllRun(s) && |chunks| == |s.clocks| && forall i :: 0 <= i < |s.clocks| && i !in s.active ==> chunks[i] == []
  }

  /** Thread i will ask for a turn after each of its chunks. */
  ghost function Plan(s: State, chunks: seq<seq<nat>>): seq<seq<nat>>
    requires |chunks| == |s.clocks|
  {
    seq(|chunks|, i requires 0 <= i < |chunks| => Requests(s.clocks[i].Clock(), chunks[i]))
  }

  ghost function Begin(s: State, chunks: seq<seq<nat>>): Sys
    requires |chunks| == |s.clocks|
  {
    Sys(s, seq(|chunks|, i => if i in s.active then Running else Halted), Plan(s, chunks), [], -1)
  }

  lemma BeginIsOk(s: State, chunks: seq<seq<nat>>)
    requires Fresh(s, chunks)
    ensures Ok(Begin(s, chunks)) && (!Stale(s) ==> Live(Begin(s, chunks)))
  {
    var x := Begin(s, chunks);
    forall i | 0 <= i < |x.phase| ensures ThreadOk(x, i) {
      RequestsAscend(s.clocks[i].Clock(), chunks[i]);
    }
    LowestIsUniqueMinimum(s);
    if Lowest(s) >= 0 {
      assert x.phase[Lowest(s)] == Running;
    }
  }

  /**
  Schedule independence: in every interleaving, the turns granted so far are a prefix of the merge
  of all requests by (clock, tid), which the starting clocks and the chunk lengths alone determine;
  and the part not yet granted is the merge of the requests still open.
  */
  lemma ScheduleIndependence(s: State, chunks: seq<seq<nat>>, steps: seq<Step>, y: Sys)
    requires Fresh(s, chunks) && Reaches(Begin(s, chunks), steps, y)
    ensures y.turns <= Merge(Plan(s, chunks))
    ensures Merge(Plan(s, chunks))[|y.turns|..] == Merge(y.todo)
  {
    BeginIsOk(s, chunks);
    RunKeepsSchedule(Begin(s, chunks), steps, y);
    assert Merge(Plan(s, chunks)) == y.turns + Merge(y.todo);
  }

  /** So any two runs agree on the turns as far as both have got, even over differently ordered lists. */
  lemma AnyTwoRunsAgree(s: State, s': State, chunks: seq<seq<nat>>, steps: seq<Step>, steps': seq<Step>, y: Sys,
      y': Sys)
    requires Fresh(s, chunks) && Fresh(s', chunks)
    requires forall i :: 0 <= i < |s.clocks| ==> s.clocks[i].Clock() == s'.clocks[i].Clock()
    requires Reaches(Begin(s, chunks), steps, y) && Reaches(Begin(s', chunks), steps', y')
    ensures y.turns <= y'.turns || y'.turns <= y.turns
  {
    ScheduleIndependence(s, chunks, steps, y);
    ScheduleIndependence(s', chunks, steps', y');
    assert Plan(s, chunks) == Plan(s', chunks);
  }

  /** A turn is held by one thread at a time, and the holder is the minimum of the group. */
  lemma OneHolderAtATime(x: Sys, steps: seq<Step>, y: Sys, i: int, j: int)
    requires Ok(x) && Reaches(x, steps, y)
    requires 0 <= i < |y.phase| && HoldsTurn(y.phase[i]) && 0 <= j < |y.phase| && HoldsTurn(y.phase[j])
    ensures Sized(y) && i == j && First(y.s, i)
  {
    RunKeepsSchedule(x, steps, y);
    LowestIsUniqueMinimum(y.s);
  }

  /** Thread i is not blocked: it runs, holds the turn, is leaving, or waits with a grant it can see. */
  ghost predicate CanGoOn(y: Sys, i: int)
    requires Sized(y) && 0 <= i < |y.phase|
  {
    y.spinning == -1 &&
    match y.phase[i]
    case Running => true
    case Awake => true
    case Halting => true
    case Stopped(granted) => granted && MayProceed(y.s, i)
    case Halted => false
  }

  /**
  Where no request was forgotten, the group does not get stuck on a wake-up: as long as anybody is
  listed, somebody can go on -- unless, and only unless, a thread spins in its sleep call. No
  assumption is made on when the deferred notification runs.
  */
  lemma SomebodyCanGoOnExactlyWhen(x: Sys, steps: seq<Step>, y: Sys)
    requires Live(x) && Reaches(x, steps, y) && y.s.active != []
    ensures Sized(y) && ((exists i :: i in y.s.active && CanGoOn(y, i)) <==> y.spinning == -1)
  {
    RunKeepsSchedule(x, steps, y);
    if y.spinning == -1 {
      SomebodyCanGoOn(y);
    }
  }

  lemma SomebodyCanGoOn(y: Sys)
    requires Live(y) && y.spinning == -1 && y.s.active != []
    ensures exists i :: i in y.s.active && CanGoOn(y, i)
  {
    var m := Lowest(y.s);
    LowestIsUniqueMinimum(y.s);
    assert ThreadOk(y, m);
    if y.phase[m] == Stopped(false) {
      var i :| 0 <= i < |y.phase| && y.phase[i] == Running;
      assert ThreadOk(y, i);
      assert CanGoOn(y, i);
    } else {
      assert CanGoOn(y, m);
    }
  }

  /**
  When the sleep call hangs: exactly when everybody else sleeps already and the caller is not the
  minimum. The minimum has then been woken, but cannot report it any more.
  */
  lemma SleepHangsExactlyWhen(x: Sys, t: int, stack: seq<int>)
    requires Live(x) && Allowed(x, Step(Op.Sleep(t), stack))
    ensures After(x, Step(Op.Sleep(t), stack)).spinning == t <==> Lowest(x.s) != t && OthersAsleep(x.s, t)
  {
    if Lowest(x.s) != t && OthersAsleep(x.s, t) {
      LastAwakeIsStranded(x, t);
    }
  }

  lemma LastAwakeIsStranded(x: Sys, t: int)
    requires Live(x) && t in x.s.active && x.phase[t].Stopped? && Lowest(x.s) != t && OthersAsleep(x.s, t)
    ensures Stranded(x.s, t)
  {
    var m := Lowest(x.s);
    LowestIsUniqueMinimum(x.s);
    assert ThreadOk(x, m) && m in x.s.active && x.s.clocks[m].waiting;
    if x.phase[m] == Stopped(false) {
      var i :| 0 <= i < |x.phase| && x.phase[i] == Running;
      RunnersAreAwake(x, i);
    } else {
      assert WokenAndWaits(x, m);
    }
  }

  lemma RunnersAreAwake(x: Sys, i: int)
    requires Ok(x) && 0 <= i < |x.phase| && x.phase[i] == Running
    ensures i in x.s.active && !x.s.clocks[i].sleeping
  {
    assert ThreadOk(x, i);
  }

  /** A thread that spins tries again after every pass, whatever its scratch arrays hold. */
  lemma SpinningForever(x: Sys, stacks: seq<seq<int>>, stack: seq<int>)
    requires Ok(x) && x.spinning >= 0 && |stack| == STACK_SLOTS
    requires forall k :: 0 <= k < |stacks| ==> |stacks[k]| == STACK_SLOTS
    ensures TriesAgain(SleepPass(Passes(x.s, x.spinning, stacks), x.spinning, stack))
  {
    StrandedForever(x.s, x.spinning, stacks, stack);
  }

  /** Nobody passes its wait without the turn: what a stopped thread can see is a grant. */
  lemma VisibleGrantsAreTurns(x: Sys, steps: seq<Step>, y: Sys, t: int)
    requires Ok(x) && Reaches(x, steps, y) && 0 <= t < |y.phase| && y.phase[t].Stopped?
    ensures Sized(y) && (MayProceed(y.s, t) <==> y.phase[t] == Stopped(true))
  {
    RunKeepsSchedule(x, steps, y);
    assert ThreadOk(y, t);
  }
}
