/**
Field by field, who changes what: for every thread's record, its page and the group's own fields,
what each of the sixteen operations leaves there, in terms of the records alone. And what follows:
only running threads count, a raised flag is scheduled, and the counter is armed once a hand-over.
*/
module Effects {
  import opened ListArrays
  import opened Clocks
  import opened Protocol
  import opened Grants
  import opened Runs
  import opened Turns
  import opened Schedule
  import opened Paths
  import C = CoarsenedClock
  import Counters

  /** What an operation adds to its caller's clock. */
  function Earned(op: Op, e: Entry): nat {
    match op
    case Credit(_, d) => if e.counting then d else 0
    case Stop(_, d) => if e.counting then d else 0
    case StopNoNotify(_, d) => if e.counting then d else 0
    case Disable(_, d) => if e.counting then d else 0
    case AddTicks(_, n) => n
    case _ => 0
  }

  // ----- the caller's record

  /** Its clock, its chunk, whether it counts, and who reads the counter. */
  ghost predicate Counts(op: Op, e: Entry, f: Entry) {
    && f.ticks + f.baseTicks == (if op.Register? && !e.initialized then 0 else e.ticks + e.baseTicks + Earned(op, e))
    && f.counting == (op.Enable? || (e.counting && !TurnsOff(op)))
    && f.chunkTicks == (if BeginsChunk(op) then 0 else e.chunkTicks + if op.AddTicks? then 0 else Earned(op, e))
    && f.userspaceReading == (op.StartNoNotify? || (e.userspaceReading && !BeginsChunk(op)))
  }

  predicate TurnsOff(op: Op) {
    op.Stop? || op.StopNoNotify? || op.StartNoNotify? || op.Disable? || op.Register?
  }

  /** Then the kernel reads the counter again, too. */
  predicate BeginsChunk(op: Op) {
    op.Enable? || op.Activate? || op.Register?
  }

  predicate EndsWait(op: Op) {
    op.WokeUp? || op.Enable? || op.Activate? || op.Register?
  }

  /** These leave their caller waiting unless it comes first. */
  predicate MayWait(op: Op) {
    op.Stop? || op.Wait? || op.Sleep? || op.Disable? || op.AddTicks?
  }

  /** Its flags; `first` tells that it comes first on the list afterwards. */
  ghost predicate Flags(op: Op, e: Entry, f: Entry, first: bool) {
    && f.initialized && f.inactive == op.Halt? && f.pollIn == e.pollIn
    && f.waiting == (if MayWait(op) then !first else e.waiting && !EndsWait(op) && !op.Halt?)
    && f.sleeping == ((e.sleeping || op.Sleep?) && !EndsWait(op) && !(MayWait(op) && first))
  }

  ghost predicate CallerRecordIs(s: State, op: Op, r: State, first: bool)
    requires !op.Notify? && 0 <= op.t < |s.clocks| == |r.clocks|
  {
    Counts(op, s.clocks[op.t], r.clocks[op.t]) && Flags(op, s.clocks[op.t], r.clocks[op.t], first)
  }

  /** What the part before the decision leaves. */
  ghost predicate Prefixed(s: State, op: Op, p: State)
    requires !op.Notify? && 0 <= op.t < |s.clocks| == |s.status| == |p.clocks| == |p.status|
  {
    var e, g := s.clocks[op.t], p.clocks[op.t];
    && Counts(op, e, g) && g.initialized && g.inactive == op.Halt? && g.pollIn == e.pollIn
    && g.sleeping == e.sleeping && p.lowestTicks == s.lowestTicks && p.maxIndex == s.maxIndex
    && p.status[op.t] == s.status[op.t].(ticks := p.status[op.t].ticks)
  }

  lemma PrefixCaller(s: State, op: Op)
    requires GroupInv(s) && Enabled(s, op) && Deciding(op)
    ensures Prefixed(s, op, Prefix(s, op))
  {
    match op
    case Stop(t, d) => PrefixOfStop(s, t, d);
    case Enable(t) => PrefixOfEnable(s, t);
    case Disable(t, d) => PrefixOfDisable(s, t, d);
    case AddTicks(t, d) => PrefixOfAddTicks(s, t, d);
    case Halt(t) => PrefixOfHalt(s, t);
    case _ =>
  }

  lemma PrefixOfStop(s: State, t: int, d: nat)
    requires WF(s) && 0 <= t < |s.clocks| && s.clocks[t].Live()
    ensures Prefixed(s, Op.Stop(t, d), Protocol.StopNoNotify(s, t, d))
  {
  }

  lemma PrefixOfEnable(s: State, t: int)
    requires WF(s) && 0 <= t < |s.clocks| && s.clocks[t].Live()
    ensures Prefixed(s, Op.Enable(t), PrepareEnable(s, t))
  {
  }

  lemma PrefixOfDisable(s: State, t: int, d: nat)
    requires WF(s) && 0 <= t < |s.clocks| && s.clocks[t].Live()
    ensures Prefixed(s, Op.Disable(t, d), PrepareDisable(s, t, d))
  {
  }

  lemma PrefixOfAddTicks(s: State, t: int, n: nat)
    requires WF(s) && 0 <= t < |s.clocks| && s.clocks[t].Live()
    ensures Prefixed(s, Op.AddTicks(t, n), PrepareAddTicks(s, t, n))
  {
  }

  lemma PrefixOfHalt(s: State, t: int)
    requires WF(s) && 0 <= t < |s.clocks| && s.clocks[t].Live()
    ensures Prefixed(s, Op.Halt(t), MarkInactive(s, t))
  {
  }

  /** The decision itself touches the waiting and sleeping flags of its caller, and its page. */
  lemma DecidingEnd(s: State, op: Op, stack: seq<int>)
    requires GroupInv(s) && Enabled(s, op) && Deciding(op) && |stack| == STACK_SLOTS
    ensures var p, r, t := Prefix(s, op), Apply(s, op, stack).s, op.t;
            && r.clocks[t] == p.clocks[t].(waiting := r.clocks[t].waiting, sleeping := r.clocks[t].sleeping)
            && r.status[t] == Status(Lowest(p) == t, p.clocks[t].Clock(),
                                     p.status[t].singleActive || OnlyActive(p, t), p.status[t].activatedLowest)
            && r.maxIndex == p.maxIndex
  {
    var p, t := Prefix(s, op), op.t;
    PrefixEffect(s, op);
    PrefixKeepsGood(s, op);
    DetermineExact(p, t, stack);
    DetermineEffect(p, t, stack);
    ApplyInParts(s, op, stack);
    var d := Determine(p, t, stack);
    SuffixTouches(d.s, op);
    DeliverLeaves(Outcome(Suffix(d.s, op), d.wake), t);
  }

  ghost predicate Touched(d: State, r: State, t: int)
    requires 0 <= t < |d.clocks| == |r.clocks|
  {
    && r.clocks[t] == d.clocks[t].(waiting := r.clocks[t].waiting, sleeping := r.clocks[t].sleeping)
    && r.status == d.status && r.maxIndex == d.maxIndex
    && r.lowestTid == d.lowestTid && r.lowestTicks == d.lowestTicks
  }

  lemma SuffixTouches(d: State, op: Op)
    requires WF(d) && Deciding(op) && 0 <= op.t < |d.clocks| && d.clocks[op.t].inactive == op.Halt?
    ensures |Suffix(d, op).clocks| == |d.clocks| && Touched(d, Suffix(d, op), op.t)
  {
    var e := d.clocks[op.t];
    match op
    case Enable(t) => StartingTouches(d, t);
    case Sleep(t) => EntryTouches(d, t, e.(sleeping := e.sleeping || e.waiting));
    case Halt(t) => EntryTouches(d, t, e.(waiting := false));
    case _ =>
  }

  lemma EntryTouches(d: State, t: int, f: Entry)
    requires 0 <= t < |d.clocks| && f == d.clocks[t].(waiting := f.waiting, sleeping := f.sleeping)
    ensures Touched(d, WithEntry(d, t, f), t)
  {
  }

  lemma StartingTouches(d: State, t: int)
    requires WF(d) && 0 <= t < |d.clocks| && !d.clocks[t].inactive
    ensures Suffix(d, Op.Enable(t)).clocks[t] == d.clocks[t].(waiting := false, sleeping := false)
    ensures Touched(d, Suffix(d, Op.Enable(t)), t)
  {
  }

  lemma DeliverLeaves(o: Outcome, t: int)
    requires WF(o.s) && (o.wake >= 0 ==> o.wake == o.s.lowestTid) && 0 <= t < |o.s.clocks| && t != o.wake
    ensures var r := Deliver(o);
            && r.clocks[t] == o.s.clocks[t] && r.status[t] == o.s.status[t]
            && r.maxIndex == o.s.maxIndex && r.lowestTicks == o.s.lowestTicks
  {
  }

  lemma LowestIsFirst(r: State, t: int)
    requires Good(r)
    ensures Lowest(r) == t && t >= 0 <==> First(r, t)
  {
    LowestComesFirst(r);
  }

  lemma DecidingCaller(s: State, op: Op, stack: seq<int>)
    requires GroupInv(s) && Enabled(s, op) && Deciding(op) && |stack| == STACK_SLOTS
    ensures CallerRecordIs(s, op, Apply(s, op, stack).s, First(Apply(s, op, stack).s, op.t))
  {
    var r, t := Apply(s, op, stack).s, op.t;
    PrefixCaller(s, op);
    DecidingEnd(s, op, stack);
    DecidingFirst(s, op, stack);
    DecidedFlags(op, s.clocks[t], Prefix(s, op).clocks[t], r.clocks[t], First(r, t));
  }

  lemma DecidingFirst(s: State, op: Op, stack: seq<int>)
    requires GroupInv(s) && Enabled(s, op) && Deciding(op) && |stack| == STACK_SLOTS
    ensures var r, f := Apply(s, op, stack).s, Apply(s, op, stack).s.clocks[op.t];
            && (First(r, op.t) <==> Lowest(Prefix(s, op)) == op.t) && (op.Halt? ==> !First(r, op.t))
            && f.waiting == (!First(r, op.t) && LeavesWaiting(op))
            && f.sleeping == (!First(r, op.t) && LeavesSleeping(op, s.clocks[op.t].sleeping))
  {
    DecidingStep(s, op, stack);
    LowestIsFirst(Apply(s, op, stack).s, op.t);
  }

  lemma DecidedFlags(op: Op, e: Entry, g: Entry, f: Entry, first: bool)
    requires Deciding(op) && Counts(op, e, g) && (op.Halt? ==> !first)
    requires g.initialized && g.inactive == op.Halt? && g.pollIn == e.pollIn
    requires f == g.(waiting := !first && LeavesWaiting(op), sleeping := !first && LeavesSleeping(op, e.sleeping))
    ensures Counts(op, e, f) && Flags(op, e, f, first)
  {
  }

  /** What every operation leaves in its caller's record. */
  lemma CallerRecord(s: State, op: Op, stack: seq<int>)
    requires GroupInv(s) && Enabled(s, op) && !op.Notify? && |stack| == STACK_SLOTS
    ensures CallerRecordIs(s, op, Apply(s, op, stack).s, First(Apply(s, op, stack).s, op.t))
  {
    if Deciding(op) {
      DecidingCaller(s, op, stack);
    } else {
      QuietCaller(s, op, stack, First(Apply(s, op, stack).s, op.t));
    }
  }

  lemma QuietCaller(s: State, op: Op, stack: seq<int>, first: bool)
    requires GroupInv(s) && Enabled(s, op) && |stack| == STACK_SLOTS && !Deciding(op) && !op.Notify?
    ensures CallerRecordIs(s, op, Apply(s, op, stack).s, first)
  {
    match op
    case Activate(t) => ActivatingCaller(s, t, first);
    case Credit(t, d) => CreditedCaller(s, t, d, first);
    case Overflow(t) => OverflowingCaller(s, t, first);
    case ActivateOther(t, id) => TellingCaller(s, t, id, first);
    case StopNoNotify(t, d) => StoppedCaller(s, t, d, first);
    case StartNoNotify(t) => HandingCaller(s, t, first);
    case WokeUp(t) => WokenCaller(s, t, first);
    case Register(t) => RegisteredCaller(s, t, first);
  }

  lemma ActivatingCaller(s: State, t: int, first: bool)
    requires WF(s) && 0 <= t < |s.clocks| && t !in s.active && s.clocks[t].initialized
    ensures CallerRecordIs(s, Op.Activate(t), Protocol.Activate(s, t), first)
  {
    PreparedRecord(s, t);
    var e, f := s.clocks[t], Protocol.Activate(s, t).clocks[t];
    assert f == e.(inactive := false, waiting := false, sleeping := false, chunkTicks := 0,
                   samplePeriod := f.samplePeriod, userspaceReading := false);
  }

  lemma PreparedRecord(s: State, t: int)
    requires WF(s) && 0 <= t < |s.clocks| && t !in s.active
    ensures var e, a := s.clocks[t], PrepareActivate(s, t);
            && Protocol.Activate(s, t).clocks == a.clocks
            && a.clocks[t] == e.(inactive := false, waiting := false, sleeping := false, chunkTicks := 0,
                                 samplePeriod := a.clocks[t].samplePeriod, userspaceReading := false)
  {
  }

  lemma CreditedCaller(s: State, t: int, d: nat, first: bool)
    requires WF(s) && 0 <= t < |s.clocks| && s.clocks[t].Live()
    ensures CallerRecordIs(s, Op.Credit(t, d), OverflowUpdatePeriod(s, t, d), first)
  {
  }

  lemma OverflowingCaller(s: State, t: int, first: bool)
    requires WF(s) && 0 <= t < |s.clocks| && s.clocks[t].Live()
    ensures CallerRecordIs(s, Op.Overflow(t), OverflowHandler(s, t), first)
  {
  }

  lemma TellingCaller(s: State, t: int, id: int, first: bool)
    requires WF(s) && 0 <= t < |s.clocks| && s.clocks[t].Live() && 0 <= id < |s.clocks| && id !in s.active && id != t
    ensures CallerRecordIs(s, Op.ActivateOther(t, id), Protocol.ActivateOther(s, t, id), first)
  {
  }

  lemma StoppedCaller(s: State, t: int, d: nat, first: bool)
    requires WF(s) && 0 <= t < |s.clocks| && s.clocks[t].Live()
    ensures CallerRecordIs(s, Op.StopNoNotify(t, d), Protocol.StopNoNotify(s, t, d), first)
  {
  }

  lemma HandingCaller(s: State, t: int, first: bool)
    requires WF(s) && 0 <= t < |s.clocks| && s.clocks[t].Live()
    ensures CallerRecordIs(s, Op.StartNoNotify(t), Protocol.StartNoNotify(s, t), first)
  {
  }

  lemma WokenCaller(s: State, t: int, first: bool)
    requires WF(s) && 0 <= t < |s.clocks| && s.clocks[t].Live()
    ensures CallerRecordIs(s, Op.WokeUp(t), Protocol.WokeUp(s, t), first)
  {
  }

  lemma RegisteredCaller(s: State, t: int, first: bool)
    requires WF(s) && 0 <= t < |s.clocks|
    ensures CallerRecordIs(s, Op.Register(t), EntryInit(s, t), first)
  {
  }

  // ----- the caller's page

  /** Its lead flag, the clock it shows, and whether the caller had the list for itself. */
  ghost predicate PageIs(s: State, op: Op, r: State, first: bool)
    requires WF(s) && WF(r) && !op.Notify? && 0 <= op.t < |s.clocks| == |r.clocks|
  {
    var u, v := s.status[op.t], r.status[op.t];
    && v.lowestClock == (if Deciding(op) then first else u.lowestClock)
    && v.ticks == (if Deciding(op) || (op.StopNoNotify? && s.clocks[op.t].counting)
                   then r.clocks[op.t].ticks + r.clocks[op.t].baseTicks else u.ticks)
    && v.singleActive == (u.singleActive || (Deciding(op) && !op.Halt? && s.active == [op.t]))
    && v.activatedLowest == u.activatedLowest
  }

  lemma CallerPage(s: State, op: Op, stack: seq<int>)
    requires GroupInv(s) && Enabled(s, op) && |stack| == STACK_SLOTS
    requires !op.Notify? && !op.Activate? && !op.ActivateOther?
    ensures PageIs(s, op, Apply(s, op, stack).s, First(Apply(s, op, stack).s, op.t))
  {
    if Deciding(op) {
      DecidingPage(s, op, stack);
    } else {
      QuietPage(s, op, stack, First(Apply(s, op, stack).s, op.t));
    }
  }

  lemma DecidingPage(s: State, op: Op, stack: seq<int>)
    requires GroupInv(s) && Enabled(s, op) && Deciding(op) && |stack| == STACK_SLOTS
    ensures PageIs(s, op, Apply(s, op, stack).s, First(Apply(s, op, stack).s, op.t))
  {
    PrefixCaller(s, op);
    DecidingEnd(s, op, stack);
    DecidingFirst(s, op, stack);
    AloneIs(s, op, stack);
  }

  lemma AloneIs(s: State, op: Op, stack: seq<int>)
    requires GroupInv(s) && Enabled(s, op) && Deciding(op) && |stack| == STACK_SLOTS
    ensures OnlyActive(Prefix(s, op), op.t) <==> s.active == [op.t] && !op.Halt?
  {
    DecidingStep(s, op, stack);
    if |s.active| == 1 {
      OnlyMember(s.active, op.t);
    }
  }

  lemma QuietPage(s: State, op: Op, stack: seq<int>, first: bool)
    requires GroupInv(s) && Enabled(s, op) && |stack| == STACK_SLOTS
    requires !Deciding(op) && !op.Notify? && !op.Activate? && !op.ActivateOther?
    ensures PageIs(s, op, Apply(s, op, stack).s, first)
  {
    match op
    case StopNoNotify(t, d) => StoppedPage(s, t, d);
    case Credit(t, d) => CreditOnlyCounts(s, t, d);
    case Overflow(t) => OverflowOnlyFlags(s, t);
    case _ =>
  }

  lemma StoppedPage(s: State, t: int, d: nat)
    requires WF(s) && 0 <= t < |s.clocks|
    ensures var r := Protocol.StopNoNotify(s, t, d);
            r.status == s.status[t := s.status[t].(ticks :=
              if s.clocks[t].counting then r.clocks[t].ticks + r.clocks[t].baseTicks else s.status[t].ticks)]
  {
  }

  // ----- everybody else

  /** Nobody is touched but the caller, the thread that is woken, and the one that is activated. */
  lemma OthersStay(s: State, op: Op, stack: seq<int>, i: int)
    requires GroupInv(s) && Enabled(s, op) && |stack| == STACK_SLOTS && 0 <= i < |s.clocks|
    requires i != Apply(s, op, stack).wake && (op.Notify? || i != op.t) && (op.ActivateOther? ==> i != op.id)
    ensures var r := Apply(s, op, stack).s; r.clocks[i] == s.clocks[i] && r.status[i] == s.status[i]
  {
    if Deciding(op) {
      DecidingDecides(s, op, stack);
    } else if op.Notify? {
      NotifyChanges(s, stack);
    } else {
      QuietOthers(s, op, stack, i);
    }
  }

  lemma QuietOthers(s: State, op: Op, stack: seq<int>, i: int)
    requires GroupInv(s) && Enabled(s, op) && !Deciding(op) && !op.Notify? && |stack| == STACK_SLOTS
    requires 0 <= i < |s.clocks| && i != op.t && (op.ActivateOther? ==> i != op.id)
    ensures var r := Apply(s, op, stack).s; r.clocks[i] == s.clocks[i] && r.status[i] == s.status[i]
  {
    match op
    case Activate(t) => PrepareActivateEffect(s, t); ActivateTouches(s, t);
    case ActivateOther(t, id) => ActivateOtherEffect(s, t, id);
    case Credit(t, d) => CreditOnlyCounts(s, t, d);
    case Overflow(t) => OverflowOnlyFlags(s, t);
    case StopNoNotify(t, d) => StoppingOnlyCounts(s, t, d);
    case _ =>
  }

  lemma ActivateTouches(s: State, t: int)
    requires WF(s) && 0 <= t < |s.clocks| && t !in s.active
    ensures var r, a := Protocol.Activate(s, t), PrepareActivate(s, t);
            r.clocks == a.clocks && a.status == s.status && forall i :: 0 <= i < |s.clocks| && i != t ==>
              r.status[i] == s.status[i]
  {
  }

  ghost predicate Tells(s: State, op: Op, o: Outcome)
    requires WF(s) && WF(o.s) && 0 <= o.wake < |s.clocks| == |o.s.clocks|
  {
    var e, u := s.clocks[o.wake], s.status[o.wake];
    && (op.Notify? || o.wake != op.t) && e.waiting && First(o.s, o.wake) && o.s.lowestTid == o.wake
    && o.s.clocks[o.wake] == (if e.sleeping then e.(pollIn := true) else e)
    && o.s.status[o.wake] == (if e.sleeping then u else u.(lowestClock := true))
    && !o.s.nmiNewLow && !o.s.notificationNeeded
  }

  /** A woken thread is told once, where it looks: a sleeper through its buffer, any other on its page. */
  lemma WokenIsTold(s: State, op: Op, stack: seq<int>)
    requires GroupInv(s) && Enabled(s, op) && |stack| == STACK_SLOTS && Apply(s, op, stack).wake >= 0
    ensures Tells(s, op, Apply(s, op, stack))
  {
    if Deciding(op) {
      DecidingTells(s, op, stack);
    } else if op.Notify? {
      NotifyTells(s, stack);
    }
  }

  lemma DecidingTells(s: State, op: Op, stack: seq<int>)
    requires GroupInv(s) && Enabled(s, op) && Deciding(op) && |stack| == STACK_SLOTS
    requires Apply(s, op, stack).wake >= 0
    ensures Tells(s, op, Apply(s, op, stack))
  {
    DecidingStep(s, op, stack);
    LowestIsFirst(Apply(s, op, stack).s, Apply(s, op, stack).wake);
  }

  lemma NotifyTells(s: State, stack: seq<int>)
    requires GroupInv(s) && s.queued && |stack| == STACK_SLOTS && NotifyWaiting(s, stack).wake >= 0
    ensures Tells(s, Op.Notify, NotifyWaiting(s, stack))
  {
    var o := NotifyWaiting(s, stack);
    GroupKept(s, Op.Notify, stack);
    NotifyChanges(s, stack);
    NotifyExact(s, stack);
    LowestIsFirst(o.s, o.wake);
  }

  /** The thread that is activated by another one: a fresh one starts one tick behind its activator. */
  lemma ActivatedRecord(s: State, t: int, id: int)
    requires Good(s) && t in s.active && 0 <= id < |s.clocks| && id !in s.active
    ensures var e, f := s.clocks[id], Protocol.ActivateOther(s, t, id).clocks[id];
            && f == e.(ticks := f.ticks, baseTicks := f.baseTicks, initialized := true, inactive := false,
                       waiting := false, sleeping := false, chunkTicks := 0)
            && f.ticks + f.baseTicks == (if e.initialized then e.ticks + e.baseTicks
                                         else s.clocks[t].ticks + s.clocks[t].baseTicks + 1)
  {
  }

  // ----- the period

  /** The smaller of 200000 and what is asked for: just past the lowest waiter ahead, or 10000 more than before. */
  ghost predicate PeriodFor(before: nat, clock: nat, waiter: int, period: nat) {
    var wish := if waiter > clock then (if waiter - clock + 1000 > 1024 then waiter - clock + 1000 else 1024)
                else before + 10000;
    period == if wish < 200000 then wish else 200000
  }

  /** w is the lowest waiting thread on the list other than t, or -1 when there is none. */
  ghost predicate LowestOtherWaiter(s: State, t: int, w: int)
    requires WF(s)
  {
    if w < 0 then w == -1 && forall i :: i in s.active && i != t ==> !s.clocks[i].waiting else
      && w in s.active && w != t && s.clocks[w].waiting
      && forall i :: i in s.active && i != t && i != w && s.clocks[i].waiting ==>
           s.clocks[w].Clock() < s.clocks[i].Clock() || (s.clocks[w].Clock() == s.clocks[i].Clock() && w < i)
  }

  lemma WaiterClockIs(s: State, t: int, w: int)
    requires Good(s) && 0 <= t < |s.clocks| && LowestOtherWaiter(s, t, w)
    ensures WaiterClock(s, t, s.active) == if w >= 0 then s.clocks[w].Clock() else -1
  {
    ScanIsMinimum(WaitingExcept(t), s.clocks, s.active);
    var r := Scan(WaitingExcept(t), s.clocks, s.active);
    if r >= 0 && w >= 0 && r != w {
      assert Admits(WaitingExcept(t), s.clocks[r], r) && Admits(WaitingExcept(t), s.clocks[w], w);
      assert false;
    }
  }

  /**
  The period that an interrupt of a counting thread chooses, at the clock it has been credited to,
  as long as all live threads are listed; and the one that a chunk begins with.
  */
  lemma InterruptChoosesPeriod(s: State, t: int, d: nat, w: int)
    requires Good(s) && LiveAreListed(s) && t in s.active && s.clocks[t].counting && LowestOtherWaiter(s, t, w)
    ensures PeriodFor(s.clocks[t].samplePeriod, s.clocks[t].Clock() + d, if w >= 0 then s.clocks[w].Clock() else -1,
                      OverflowUpdatePeriod(s, t, d).clocks[t].samplePeriod)
  {
    var c := Count(s, t, d);
    InterruptCountsFirst(s, t, d);
    CountingKeepsWaiters(s, c, t, w);
    TwoScansAgree(c, WaitingExcept(t));
    WaiterClockIs(c, t, w);
    PeriodIsChosen(c, t, UpTo(c.maxIndex + 1));
  }

  lemma InterruptCountsFirst(s: State, t: int, d: nat)
    requires WF(s) && 0 <= t < |s.clocks| && s.clocks[t].counting
    ensures var c := Count(s, t, d);
            && OverflowUpdatePeriod(s, t, d) == UpdatePeriod(c, t, UpTo(s.maxIndex + 1)) && c.maxIndex == s.maxIndex
            && c == s.(clocks := s.clocks[t := c.clocks[t]]) && c.clocks[t].Live() == s.clocks[t].Live()
            && c.clocks[t].Clock() == s.clocks[t].Clock() + d && c.clocks[t].samplePeriod == s.clocks[t].samplePeriod
  {
  }

  lemma PeriodIsChosen(s: State, t: int, order: seq<int>)
    requires 0 <= t < |s.clocks| && InRange(order, |s.clocks|)
    ensures PeriodFor(s.clocks[t].samplePeriod, s.clocks[t].Clock(), WaiterClock(s, t, order),
                      UpdatePeriod(s, t, order).clocks[t].samplePeriod)
  {
  }

  lemma CountingKeepsWaiters(s: State, c: State, t: int, w: int)
    requires Good(s) && 0 <= t < |s.clocks| == |c.clocks| && LowestOtherWaiter(s, t, w)
    requires c == s.(clocks := s.clocks[t := c.clocks[t]]) && c.clocks[t].Live() == s.clocks[t].Live()
    ensures Good(c) && LowestOtherWaiter(c, t, w) && (LiveAreListed(s) ==> LiveAreListed(c))
  {
  }

  lemma ChunkBeginsWithPeriod(s: State, t: int, w: int)
    requires Good(s) && t in s.active && LowestOtherWaiter(s, t, w)
    ensures PeriodFor(0, s.clocks[t].Clock(), if w >= 0 then s.clocks[w].Clock() else -1,
                      StartCounting(s, t).clocks[t].samplePeriod)
  {
    var c := WithEntry(s, t, s.clocks[t].(chunkTicks := 0, counting := true, samplePeriod := 0));
    CountingKeepsWaiters(s, c, t, w);
    WaiterClockIs(c, t, w);
    PeriodIsChosen(c, t, c.active);
  }

  lemma ActivationChoosesPeriod(s: State, t: int, w: int)
    requires Good(s) && 0 <= t < |s.clocks| && t !in s.active && s.clocks[t].initialized && LowestOtherWaiter(s, t, w)
    ensures PeriodFor(0, s.clocks[t].Clock(), if w >= 0 then s.clocks[w].Clock() else -1,
                      Protocol.Activate(s, t).clocks[t].samplePeriod)
  {
    var c := BeforePeriod(s, t);
    JoiningKeepsWaiters(s, c, t, w);
    WaiterClockIs(c, t, w);
    PeriodIsChosen(c, t, c.active);
  }

  /** The newcomer on the list, with its period still to be chosen. */
  ghost function BeforePeriod(s: State, t: int): (c: State)
    requires Good(s) && 0 <= t < |s.clocks| && t !in s.active && s.clocks[t].initialized
    ensures WF(c) && |c.clocks| == |s.clocks| && c.active == s.active + [t]
    ensures c.clocks == s.clocks[t := c.clocks[t]] && c.clocks[t].Live() && c.clocks[t].samplePeriod == 0
    ensures c.clocks[t].Clock() == s.clocks[t].Clock()
    ensures Protocol.Activate(s, t).clocks[t].samplePeriod == UpdatePeriod(c, t, c.active).clocks[t].samplePeriod
  {
    var a := MarkActive(s, t);
    WithEntry(a, t, a.clocks[t].(chunkTicks := 0, samplePeriod := 0))
  }

  lemma JoiningKeepsWaiters(s: State, c: State, t: int, w: int)
    requires Good(s) && WF(c) && 0 <= t < |s.clocks| == |c.clocks| && LowestOtherWaiter(s, t, w)
    requires c.active == s.active + [t] && c.clocks == s.clocks[t := c.clocks[t]] && c.clocks[t].Live()
    ensures Good(c) && LowestOtherWaiter(c, t, w)
  {
    assert forall i :: i in c.active <==> i in s.active || i == t;
  }

  // ----- the flag of the overflow handler

  lemma QuietFlags(s: State, op: Op, stack: seq<int>)
    requires GroupInv(s) && Enabled(s, op) && !Deciding(op) && !op.Notify? && |stack| == STACK_SLOTS
    ensures var r := Apply(s, op, stack).s;
            || (r.nmiNewLow == s.nmiNewLow && r.queued == s.queued)
            || (op.Overflow? && r.nmiNewLow && r.queued)
  {
    match op
    case Activate(t) => LeadKeepsFlags(s, t);
    case ActivateOther(t, id) => ActivateOtherEffect(s, t, id);
    case Overflow(t) => OverflowOnlyFlags(s, t);
    case _ =>
  }

  lemma LeadKeepsFlags(s: State, t: int)
    requires Good(s) && 0 <= t < |s.clocks| && t !in s.active && s.clocks[t].initialized
    ensures Protocol.Activate(s, t).nmiNewLow == s.nmiNewLow && Protocol.Activate(s, t).queued == s.queued
  {
    PrepareActivateEffect(s, t);
  }

  /**
  As long as a raised flag is scheduled the handler's silence does no harm. Every step keeps it so,
  but for a notification that runs while the minimum does not wait: it leaves the flag raised with
  nothing scheduled, and the handler schedules nothing until the flag is cleared.
  */
  lemma FlagStaysScheduledExactlyWhen(s: State, op: Op, stack: seq<int>)
    requires GroupInv(s) && Enabled(s, op) && |stack| == STACK_SLOTS && (s.nmiNewLow ==> s.queued)
    ensures var r, m := Apply(s, op, stack).s, Lowest(s);
            (r.nmiNewLow ==> r.queued) <==> !(op.Notify? && s.nmiNewLow && (m < 0 || !s.clocks[m].waiting))
  {
    if Deciding(op) {
      DecidingRecords(s, op, stack);
      PrefixEffect(s, op);
    } else if op.Notify? {
      NotifyExact(s, stack);
    } else {
      QuietFlags(s, op, stack);
    }
  }

  /** Only an overflow raises the flag. */
  lemma FlagIsRaisedByOverflow(s: State, op: Op, stack: seq<int>)
    requires GroupInv(s) && Enabled(s, op) && !op.Overflow? && |stack| == STACK_SLOTS && !s.nmiNewLow
    ensures !Apply(s, op, stack).s.nmiNewLow
  {
    if Deciding(op) {
      DecidingRecords(s, op, stack);
      PrefixEffect(s, op);
    } else if op.Notify? {
      NotifyExact(s, stack);
    } else {
      QuietFlags(s, op, stack);
    }
  }

  // ----- along runs of the group

  ghost predicate Follows(s: State, step: Step, r: State) {
    WF(s) && |step.stack| == STACK_SLOTS && Enabled(s, step.op) && r == Apply(s, step.op, step.stack).s
  }

  ghost predicate GroupRun(run: seq<State>, steps: seq<Step>) {
    Path((s: State, step: Step, r: State) => Follows(s, step, r), run, steps)
  }

  lemma {:induction false} GroupKeptAlong(run: seq<State>, steps: seq<Step>, k: nat)
    requires GroupRun(run, steps) && GroupInv(run[0]) && k <= |steps|
    ensures GroupInv(run[k])
  {
    if k > 0 {
      GroupKeptAlong(run, steps, k - 1);
      assert Follows(run[k - 1], steps[k - 1], run[k]);
      GroupKept(run[k - 1], steps[k - 1].op, steps[k - 1].stack);
    }
  }

  lemma {:induction false} FlagStaysDown(run: seq<State>, steps: seq<Step>, from: nat, k: nat)
    requires GroupRun(run, steps) && GroupInv(run[0]) && from <= k <= |steps| && !run[from].nmiNewLow
    requires forall j :: from <= j < k ==> !steps[j].op.Overflow?
    ensures !run[k].nmiNewLow
  {
    if k > from {
      FlagStaysDown(run, steps, from, k - 1);
      GroupKeptAlong(run, steps, k - 1);
      assert Follows(run[k - 1], steps[k - 1], run[k]);
      FlagIsRaisedByOverflow(run[k - 1], steps[k - 1].op, steps[k - 1].stack);
    }
  }

  /**
  Once a notification has been delivered the handler works again: whatever happens in between, the
  next overflow of a counting thread that finds another thread the waiting minimum -- with the
  caller or nobody recorded -- flags and schedules a notification.
  */
  lemma FlagsAgainAfterDelivery(run: seq<State>, steps: seq<Step>, t: int)
    requires GroupRun(run, steps) && GroupInv(run[0]) && |steps| > 0
    requires steps[0].op.Notify? && NotifyWaiting(run[0], steps[0].stack).wake >= 0
    requires forall j :: 1 <= j < |steps| ==> !steps[j].op.Overflow?
    requires var s := run[|steps|];
             && WF(s) && LiveAreListed(s) && t in s.active && s.clocks[t].counting
             && (s.lowestTid == -1 || s.lowestTid == t)
             && Lowest(s) >= 0 && Lowest(s) != t && s.clocks[Lowest(s)].waiting
    ensures var r := OverflowHandler(run[|steps|], t); r.nmiNewLow && r.queued
  {
    assert Follows(run[0], steps[0], run[1]);
    NotifyExact(run[0], steps[0].stack);
    FlagStaysDown(run, steps, 1, |steps|);
    GroupKeptAlong(run, steps, |steps|);
    OverflowFlagsExactly(run[|steps|], t);
  }

  // ----- handing the counter over to user space

  /** Thread t's own operations that decide who reads its counter. */
  predicate ChangesReader(op: Op, t: int) {
    !op.Notify? && op.t == t && (op.StartNoNotify? || BeginsChunk(op))
  }

  lemma ReaderStays(s: State, op: Op, stack: seq<int>, t: int)
    requires GroupInv(s) && Enabled(s, op) && |stack| == STACK_SLOTS && 0 <= t < |s.clocks| && !ChangesReader(op, t)
    ensures Apply(s, op, stack).s.clocks[t].userspaceReading == s.clocks[t].userspaceReading
  {
    var o := Apply(s, op, stack);
    if !op.Notify? && t == op.t {
      CallerRecord(s, op, stack);
    } else if t == o.wake {
      WokenIsTold(s, op, stack);
    } else if op.ActivateOther? && t == op.id {
      ActivatedRecord(s, op.t, t);
    } else {
      OthersStay(s, op, stack, t);
    }
  }

  lemma {:induction false} ReaderStaysAlong(run: seq<State>, steps: seq<Step>, t: int, from: nat, k: nat)
    requires GroupRun(run, steps) && GroupInv(run[0]) && from <= k <= |steps|
    requires 0 <= t < |run[from].clocks| && forall j :: from <= j < k ==> !ChangesReader(steps[j].op, t)
    ensures |run[k].clocks| == |run[from].clocks|
    ensures run[k].clocks[t].userspaceReading == run[from].clocks[t].userspaceReading
  {
    if k > from {
      ReaderStaysAlong(run, steps, t, from, k - 1);
      GroupKeptAlong(run, steps, k - 1);
      assert Follows(run[k - 1], steps[k - 1], run[k]);
      ReaderStays(run[k - 1], steps[k - 1].op, steps[k - 1].stack, t);
    }
  }

  /**
  The enable arms the counter anew exactly when user space has been reading it
  (Groups.Group.OnEnable), and that is exactly when the last of the thread's own operations on it
  was the hand-over, and not an enable, an activation or a registration.
  */
  lemma NextEnableArmsExactlyWhen(run: seq<State>, steps: seq<Step>, t: int)
    requires GroupRun(run, steps) && GroupInv(run[0]) && |steps| > 0 && ChangesReader(steps[0].op, t)
    requires forall j :: 1 <= j < |steps| ==> !ChangesReader(steps[j].op, t)
    ensures 0 <= t < |run[|steps|].clocks|
    ensures run[|steps|].clocks[t].userspaceReading <==> steps[0].op.StartNoNotify?
  {
    assert Follows(run[0], steps[0], run[1]);
    CallerRecord(run[0], steps[0].op, steps[0].stack);
    ReaderStaysAlong(run, steps, t, 1, |steps|);
  }

  // ----- adding ticks

  /**
  Adding ticks moves the clock by exactly the amount, forwards or back, and not the chunk; the page
  shows the new clock, and the turn is granted by where it lies.
  */
  lemma AddTicksMoves(s: State, t: int, n: int, stack: seq<int>)
    requires GroupInv(s) && t in s.active && s.clocks[t].ticks + n >= 0 && |stack| == STACK_SLOTS
    ensures var e, r := s.clocks[t], Protocol.AddTicks(s, t, n, stack).s;
            var f, v := r.clocks[t], r.status[t];
            && f.ticks + f.baseTicks == e.ticks + e.baseTicks + n && f.chunkTicks == e.chunkTicks
            && f.counting == e.counting
            && v.ticks == e.ticks + e.baseTicks + n && (v.lowestClock <==> First(r, t))
  {
    var p := PrepareAddTicks(s, t, n);
    var d := Determine(p, t, stack);
    DetermineExact(p, t, stack);
    DetermineEffect(p, t, stack);
    DeliverLeaves(d, t);
    GrantsThroughWakeUp(p, d, t);
    DeliveredGood(d);
    LowestIsFirst(Deliver(d), t);
  }

  lemma DeliveredGood(d: Outcome)
    requires Good(d.s) && (d.wake >= 0 ==> d.wake == d.s.lowestTid)
    ensures Good(Deliver(d))
  {
    DeliverOnlyFlags(d);
  }

  /** What the library believes the clock to be, and what the group has and shows. */
  ghost predicate Agree(u: C.User, s: State, t: int)
    requires 0 <= t < |s.clocks| == |s.status|
  {
    u.kernel == u.published == s.clocks[t].ticks + s.clocks[t].baseTicks == s.status[t].ticks
  }

  /**
  A coarsened block in the group: the library's sum arrives as the amount of one add-ticks call,
  after which both agree again, and the clock has moved by the block's work.
  */
  lemma BlockReachesTheGroup(u: C.User, txs: seq<C.Tx>, s: State, t: int, stack: seq<int>)
    requires GroupInv(s) && t in s.active && |stack| == STACK_SLOTS
    requires Agree(u, s, t) && u.coarsened == 0 && 0 < C.Work(txs) < Counters.X31
    ensures var n, r := C.ToInt32(C.RunTxs(u, txs).coarsened), Protocol.AddTicks(s, t, C.Work(txs), stack).s;
            && n == C.Work(txs) && |r.clocks| == |r.status| == |s.clocks|
            && Agree(C.EndTx(C.RunTxs(u, txs)), r, t)
            && r.clocks[t].Clock() == s.clocks[t].Clock() + C.Work(txs)
  {
    C.TxsAddUp(u, txs);
    C.ArgumentExactlyWhen(C.Work(txs));
    C.BlockConservesExactlyWhen(u, txs);
    AddTicksMoves(s, t, C.Work(txs), stack);
    C.EndKeepsReadingExactlyWhen(C.RunTxs(u, txs));
  }

  // ----- only running threads count

  /** A thread that does not run does not count, and its page shows its clock. */
  ghost predicate AtRest(x: Sys, i: int)
    requires Sized(x) && 0 <= i < |x.phase|
  {
    x.phase[i] != Running ==> !x.s.clocks[i].counting && x.s.status[i].ticks == x.s.clocks[i].Clock()
  }

  lemma StepKeepsRest(x: Sys, step: Step, i: int)
    requires Ok(x) && Allowed(x, step) && 0 <= i < |x.phase| && AtRest(x, i)
    ensures AtRest(After(x, step), i)
  {
    var op := step.op;
    if !op.Notify? && i == op.t {
      CallerRecord(x.s, op, step.stack);
      CallerPage(x.s, op, step.stack);
      CallerRests(x, step);
    } else {
      OthersRest(x, step, i);
      AfterLeaves(x, step, i);
    }
  }

  lemma OthersRest(x: Sys, step: Step, i: int)
    requires Ok(x) && Allowed(x, step) && 0 <= i < |x.phase| && (step.op.Notify? || i != step.op.t)
    ensures var e, f := x.s.clocks[i], Apply(x.s, step.op, step.stack).s.clocks[i];
            && f.counting == e.counting && f.Clock() == e.Clock()
            && Apply(x.s, step.op, step.stack).s.status[i].ticks == x.s.status[i].ticks
  {
    if i == Apply(x.s, step.op, step.stack).wake {
      WokenIsTold(x.s, step.op, step.stack);
    } else {
      OthersStay(x.s, step.op, step.stack, i);
    }
  }

  lemma AfterLeaves(x: Sys, step: Step, i: int)
    requires Allowed(x, step) && 0 <= i < |x.phase| && (step.op.Notify? || i != step.op.t)
    ensures var y, r := After(x, step), Apply(x.s, step.op, step.stack).s;
            && y.s.clocks[i] == r.clocks[i] && y.s.status[i] == r.status[i]
            && (y.phase[i] == Running <==> x.phase[i] == Running)
  {
    var op, o := step.op, Apply(x.s, step.op, step.stack);
    AwardKeepsRunners(Sys(UserSide(o.s, op), Moved(x.phase, op), x.todo, x.turns, Spinner(x.s, op)), GrantedBy(op, o));
    UserSideLeaves(o.s, op, i);
  }

  lemma CallerRests(x: Sys, step: Step)
    requires Ok(x) && Allowed(x, step) && !step.op.Notify? && AtRest(x, step.op.t)
    requires CallerRecordIs(x.s, step.op, Apply(x.s, step.op, step.stack).s,
                            First(Apply(x.s, step.op, step.stack).s, step.op.t))
    requires PageIs(x.s, step.op, Apply(x.s, step.op, step.stack).s,
                    First(Apply(x.s, step.op, step.stack).s, step.op.t))
    ensures AtRest(After(x, step), step.op.t)
  {
    CallerAfter(x, step);
  }

  lemma CallerAfter(x: Sys, step: Step)
    requires Allowed(x, step) && !step.op.Notify?
    ensures var y, r, t := After(x, step), Apply(x.s, step.op, step.stack).s, step.op.t;
            && y.s.clocks[t] == r.clocks[t].(pollIn := y.s.clocks[t].pollIn)
            && y.s.status[t].ticks == r.status[t].ticks
            && (y.phase[t] == Running <==> if step.op.Enable? then true
                                           else x.phase[t] == Running && !step.op.Stop? && !step.op.Disable?)
  {
    var op, o := step.op, Apply(x.s, step.op, step.stack);
    AwardKeepsRunners(Sys(UserSide(o.s, op), Moved(x.phase, op), x.todo, x.turns, Spinner(x.s, op)), GrantedBy(op, o));
    UserSideLeaves(o.s, op, op.t);
  }

  lemma AwardKeepsRunners(x: Sys, g: int)
    requires Sized(x)
    ensures var y := Award(x, g);
            y.s == x.s && forall i :: 0 <= i < |x.phase| ==> (y.phase[i] == Running <==> x.phase[i] == Running)
  {
  }

  lemma UserSideLeaves(s: State, op: Op, i: int)
    requires WF(s) && 0 <= i < |s.clocks| && (op.WokeUp? ==> 0 <= op.t < |s.clocks|)
    ensures var r := UserSide(s, op);
            && r.clocks[i] == s.clocks[i].(pollIn := r.clocks[i].pollIn) && r.status[i].ticks == s.status[i].ticks
            && (!op.WokeUp? || i != op.t ==> r.clocks[i] == s.clocks[i] && r.status[i] == s.status[i])
  {
  }

  lemma {:induction false} RestsAlong(run: seq<Sys>, steps: seq<Step>, i: int, k: nat)
    requires Interleaving(run, steps) && Ok(run[0]) && 0 <= i < |run[0].phase| && AtRest(run[0], i) && k <= |steps|
    ensures Ok(run[k]) && |run[k].phase| == |run[0].phase| && AtRest(run[k], i)
  {
    if k > 0 {
      RestsAlong(run, steps, i, k - 1);
      assert Moves(run[k - 1], steps[k - 1], run[k]);
      StepKeepsOk(run[k - 1], steps[k - 1]);
      StepKeepsRest(run[k - 1], steps[k - 1], i);
    }
  }

  /**
  Only running threads count: in every interleaving, a thread that was listed at the start counts
  exactly while it runs; otherwise its page shows its clock, and no interrupt does anything with it.
  */
  lemma OnlyRunnersCount(s: State, chunks: seq<seq<nat>>, steps: seq<Step>, y: Sys, i: int, d: nat)
    requires Fresh(s, chunks) && Reaches(Begin(s, chunks), steps, y) && i in s.active
    ensures Sized(y) && 0 <= i < |y.phase| && (y.s.clocks[i].counting <==> y.phase[i] == Running)
    ensures y.phase[i] != Running ==>
          && y.s.status[i].ticks == y.s.clocks[i].Clock()
          && OverflowUpdatePeriod(y.s, i, d) == y.s && OverflowHandler(y.s, i) == y.s
  {
    BeginIsOk(s, chunks);
    var run :| Interleaving(run, steps) && run[0] == Begin(s, chunks) && run[|steps|] == y;
    RestsAlong(run, steps, i, |steps|);
    assert ThreadOk(y, i);
  }
}
