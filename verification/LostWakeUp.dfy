/**
How a late notification comes to lose a wake-up, from a new group onwards. The overflow handler
schedules the deferred notification and flags it; the flag is cleared when a thread that finds
itself the minimum starts again; a thread that stops alone leaves nothing owed; and so the
notification is stale, and the group can stall (Stalls.StartCanStallExactlyWhen).
*/
module LostWakeUps {
  import opened Clocks
  import opened Effects
  import opened Grants
  import opened Hazards
  import opened ListArrays
  import opened Paths
  import opened Protocol
  import opened Runs
  import opened Schedule
  import opened Stalls

  // ----- runs of the group state alone

  ghost predicate Does(s: State, op: Op, r: State, stack: seq<int>) {
    WF(s) && |stack| == STACK_SLOTS && Enabled(s, op) && r == Apply(s, op, stack).s
  }

  ghost function Steps(stack: seq<int>): (State, Op, State) -> bool {
    (s: State, op: Op, r: State) => Does(s, op, r, stack)
  }

  // ----- the states on the way

  /** Who is recorded, whether a notification is owed, whether one is flagged, and whether one is scheduled. */
  datatype Marks = Marks(record: int, owed: bool, flagged: bool, scheduled: bool)

  function MarksOf(s: State): Marks {
    Marks(s.lowestTid, s.notificationNeeded, s.nmiNewLow, s.queued)
  }

  /** Nobody is listed, and of the group only a has been initialised. */
  ghost predicate Nobody(s: State, a: int, marks: Marks) {
    && GroupInv(s) && s.active == [] && 0 <= a < |s.clocks| && MarksOf(s) == marks
    && s.clocks[a].initialized && NoneBut(s, {a})
  }

  ghost predicate NoneBut(s: State, known: set<int>) {
    forall i :: 0 <= i < |s.clocks| && i !in known ==> !s.clocks[i].initialized
  }

  lemma NoneButStays(s: State, r: State, known: set<int>, more: set<int>)
    requires NoneBut(s, known) && known <= more && |r.clocks| == |s.clocks|
    requires forall i :: 0 <= i < |s.clocks| && i !in more ==> r.clocks[i] == s.clocks[i]
    ensures NoneBut(r, more)
  {
  }

  /** Thread a has the list for itself. */
  ghost predicate One(s: State, a: int, marks: Marks) {
    GroupInv(s) && s.active == [a] && 0 <= a < |s.clocks| && MarksOf(s) == marks
  }

  ghost predicate Two(s: State, a: int, b: int, marks: Marks) {
    Pair(s, a, b) && MarksOf(s) == marks
  }

  ghost predicate Running(s: State, a: int)
    requires 0 <= a < |s.clocks|
  {
    s.clocks[a].counting && !s.clocks[a].waiting && !s.clocks[a].sleeping
  }

  // ----- the steps

  /** A lone thread starts: its record stays, and is armed if it is the thread itself. */
  lemma LoneStart(s: State, a: int, marks: Marks, stack: seq<int>)
    requires One(s, a, marks) && |stack| == STACK_SLOTS
    ensures var r := OnEnable(s, a, stack).s;
            && One(r, a, Marks(marks.record, marks.record == a, marks.flagged && marks.record != a, marks.scheduled))
            && Running(r, a) && r.clocks[a].Clock() == s.clocks[a].Clock() && |r.clocks| == |s.clocks|
            && forall i :: 0 <= i < |s.clocks| && i != a ==> r.clocks[i] == s.clocks[i]
  {
    DecidingStep(s, Op.Enable(a), stack);
    LowestIsUniqueMinimum(s);
    AloneDecides(s, Op.Enable(a), stack);
  }

  /** A lone thread stops: nothing is owed any more, and its record stays. */
  lemma LoneStop(s: State, a: int, marks: Marks, stack: seq<int>)
    requires One(s, a, marks) && |stack| == STACK_SLOTS
    ensures var r := Protocol.Stop(s, a, 0, stack).s;
            && One(r, a, Marks(marks.record, false, marks.flagged, marks.scheduled))
            && !r.clocks[a].waiting && !r.clocks[a].sleeping && |r.clocks| == |s.clocks|
            && forall i :: 0 <= i < |s.clocks| && i != a ==> r.clocks[i] == s.clocks[i]
  {
    DecidingStep(s, Op.Stop(a, 0), stack);
    AloneDecides(s, Op.Stop(a, 0), stack);
  }

  /** A lone decider is its own minimum, and its list stays the same. */
  lemma AloneDecides(s: State, op: Op, stack: seq<int>)
    requires GroupInv(s) && Enabled(s, op) && Deciding(op) && !op.Halt? && s.active == [op.t] && |stack| == STACK_SLOTS
    ensures var p, r := Prefix(s, op), Apply(s, op, stack);
            OnlyActive(p, op.t) && Lowest(p) == op.t && r.s.active == [op.t] && r.wake == -1
  {
    DecidingStep(s, op, stack);
    PrefixEffect(s, op);
    PrefixKeepsGood(s, op);
    AloneIsLowest(Prefix(s, op), op.t);
  }

  /** A fresh thread joins behind the lone running one. */
  lemma Joins(s: State, a: int, b: int, marks: Marks, stack: seq<int>)
    requires One(s, a, marks) && Running(s, a) && |stack| == STACK_SLOTS
    requires 0 <= b < |s.clocks| && b != a && !s.clocks[b].initialized
    ensures var r := Protocol.ActivateOther(s, a, b);
            && Two(r, b, a, marks) && |r.clocks| == |s.clocks|
            && At(r, b) == Stamp(s.clocks[a].Clock() + 1, b) && r.clocks[a] == s.clocks[a]
            && !r.clocks[b].waiting && !r.clocks[b].sleeping
            && forall i :: 0 <= i < |s.clocks| && i != b ==> r.clocks[i] == s.clocks[i]
  {
    ActivateOtherEffect(s, a, b);
    GroupKept(s, Op.ActivateOther(a, b), stack);
    var r := Protocol.ActivateOther(s, a, b);
    assert r.active == [a, b];
  }

  /** b stops behind the running a, and waits with nobody recorded. */
  lemma StopsUnrecorded(s: State, a: int, b: int, marks: Marks, stack: seq<int>)
    requires Two(s, b, a, marks) && |stack| == STACK_SLOTS && stack[a] != 1
    requires Before(At(s, a), At(s, b)) && Running(s, a) && !s.clocks[b].sleeping
    ensures var r := Protocol.Stop(s, b, 0, stack).s;
            && Two(r, b, a, Marks(-1, marks.owed || marks.record != -1, marks.flagged, marks.scheduled))
            && At(r, b) == At(s, b) && At(r, a) == At(s, a) && Running(r, a)
            && r.clocks[b].waiting && !r.clocks[b].sleeping && !r.status[b].lowestClock
            && |r.clocks| == |s.clocks| && forall i ::
                  0 <= i < |s.clocks| && i != a && i != b ==> r.clocks[i] == s.clocks[i]
  {
    StopsBehind(s, b, 0, stack, a);
    UnrecordedMarks(s, a, b, marks, Op.Stop(b, 0), stack);
  }

  /** Stopping or starting behind the running a leaves nobody recorded. */
  lemma UnrecordedMarks(s: State, a: int, b: int, marks: Marks, op: Op, stack: seq<int>)
    requires Two(s, b, a, marks) && |stack| == STACK_SLOTS && stack[a] != 1
    requires Before(At(s, a), At(s, b)) && Running(s, a) && (op == Op.Stop(b, 0) || op == Op.Enable(b))
    ensures var r := Apply(s, op, stack).s;
            && MarksOf(r) == Marks(-1, marks.owed || marks.record != -1, marks.flagged, marks.scheduled)
            && |r.clocks| == |s.clocks| && forall i :: 0 <= i < |s.clocks| && i != b ==> r.clocks[i] == s.clocks[i]
  {
    DecidingStep(s, op, stack);
    StaysBehind(s, a, b, op);
    RecordedExactly(s, op, stack);
    UnrecordedFacts(s, a, b, Prefix(s, op), Apply(s, op, stack), op);
  }

  lemma StaysBehind(s: State, a: int, b: int, op: Op)
    requires Pair(s, b, a) && Before(At(s, a), At(s, b)) && (op == Op.Stop(b, 0) || op == Op.Enable(b))
    ensures var p := Prefix(s, op); Lowest(p) == a && p.clocks[a] == s.clocks[a] && !OnlyActive(p, b)
  {
    PrefixEffect(s, op);
    PrefixKeepsGood(s, op);
    PrefixCounts(s, op);
    PairLowest(Prefix(s, op), a, b);
  }

  lemma UnrecordedFacts(s: State, a: int, b: int, p: State, o: Outcome, op: Op)
    requires Pair(s, b, a) && DecidingFacts(s, p, o, op) && Lowest(p) == a && !s.clocks[a].waiting
    requires (op == Op.Stop(b, 0) || op == Op.Enable(b)) && o.s.lowestTid == -1
    ensures MarksOf(o.s) == Marks(-1, s.notificationNeeded || s.lowestTid != -1, s.nmiNewLow, s.queued)
    ensures forall i :: 0 <= i < |s.clocks| && i != b ==> o.s.clocks[i] == s.clocks[i]
  {
  }

  /** b starts behind the running a, with nobody recorded. */
  lemma StartsUnrecorded(s: State, a: int, b: int, marks: Marks, stack: seq<int>)
    requires Two(s, b, a, marks) && |stack| == STACK_SLOTS && stack[a] != 1
    requires Before(At(s, a), At(s, b)) && Running(s, a)
    ensures var r := OnEnable(s, b, stack).s;
            && Two(r, b, a, Marks(-1, marks.owed || marks.record != -1, marks.flagged, marks.scheduled))
            && At(r, b) == At(s, b) && Running(r, b)
            && |r.clocks| == |s.clocks| && forall i :: 0 <= i < |s.clocks| && i != b ==> r.clocks[i] == s.clocks[i]
  {
    DecidingStep(s, Op.Enable(b), stack);
    UnrecordedMarks(s, a, b, marks, Op.Enable(b), stack);
  }

  /** The minimum waits, starts or is disabled: it is granted the turn, and recorded. */
  lemma LeadsOn(s: State, a: int, b: int, marks: Marks, op: Op, stack: seq<int>)
    requires Two(s, b, a, marks) && Lowest(s) == b && |stack| == STACK_SLOTS
    requires op == Op.Wait(b) || op == Op.Enable(b) || op == Op.Disable(b, 0)
    ensures var r := Apply(s, op, stack).s;
            && Two(r, b, a, Marks(b, op.Enable?, marks.flagged && !op.Enable?, marks.scheduled)) && Lowest(r) == b
            && !r.clocks[b].waiting && !r.clocks[b].sleeping
            && |r.clocks| == |s.clocks| && forall i :: 0 <= i < |s.clocks| && i != b ==> r.clocks[i] == s.clocks[i]
  {
    DecidingStep(s, op, stack);
    PrefixEffect(s, op);
    PrefixKeepsGood(s, op);
    assert Prefix(s, op).clocks[b].Clock() == s.clocks[b].Clock() by {
      PrefixCounts(s, op);
    }
    MinimumStays(s, Prefix(s, op), op);
    LeadsOnFacts(s, a, b, Prefix(s, op), Apply(s, op, stack), op);
  }

  lemma LeadsOnFacts(s: State, a: int, b: int, p: State, o: Outcome, op: Op)
    requires Pair(s, b, a) && DecidingFacts(s, p, o, op) && Lowest(p) == b
    requires op == Op.Wait(b) || op == Op.Enable(b) || op == Op.Disable(b, 0)
    ensures Two(o.s, b, a, Marks(b, op.Enable?, s.nmiNewLow && !op.Enable?, s.queued)) && Lowest(o.s) == b
    ensures !o.s.clocks[b].waiting && !o.s.clocks[b].sleeping
    ensures forall i :: 0 <= i < |s.clocks| && i != b ==> o.s.clocks[i] == s.clocks[i]
  {
  }

  /** The running thread passes the waiting one. */
  lemma Passes(s: State, a: int, b: int, marks: Marks, stack: seq<int>)
    requires Two(s, b, a, marks) && |stack| == STACK_SLOTS && Running(s, a)
        && s.clocks[b].Clock() == s.clocks[a].Clock() + 1
    ensures var r := OverflowUpdatePeriod(s, a, 2);
            && Two(r, b, a, marks) && Running(r, a) && Before(At(r, b), At(r, a)) && Lowest(r) == b
            && |r.clocks| == |s.clocks| && (forall i :: 0 <= i < |s.clocks| && i != a ==> r.clocks[i] == s.clocks[i])
            && r.status == s.status
  {
    CreditOnlyCounts(s, a, 2);
    GroupKept(s, Op.Credit(a, 2), stack);
    PairLowest(OverflowUpdatePeriod(s, a, 2), b, a);
  }

  /** When b halts, a is the list and its minimum. */
  lemma LeftAlone(s: State, a: int, b: int)
    requires Pair(s, b, a)
    ensures var p := Prefix(s, Op.Halt(b)); p.active == [a] && Lowest(p) == a
  {
    var op := Op.Halt(b);
    PrefixKeepsGood(s, op);
    WithoutElements(s.active, b);
    OnlyMember(Prefix(s, op).active, a);
    LowestIsUniqueMinimum(Prefix(s, op));
  }

  lemma LeaveMarks(s: State, a: int, b: int, marks: Marks, stack: seq<int>)
    requires Two(s, b, a, marks) && marks.record == b && |stack| == STACK_SLOTS && stack[a] != 1 && Running(s, a)
    ensures MarksOf(Protocol.Halt(s, b, stack).s) == Marks(-1, true, marks.flagged, marks.scheduled)
  {
    DecidingStep(s, Op.Halt(b), stack);
    LeftAlone(s, a, b);
    RecordedExactly(s, Op.Halt(b), stack);
  }

  // ----- the whole run

  /** The threads, what the scratch array holds throughout, and the steps that are allowed. */
  datatype Cast = Cast(a: int, b: int, c: int, stack: seq<int>, moves: (State, Op, State) -> bool)

  ghost predicate Casting(x: Cast, n: nat) {
    && n <= STACK_SLOTS == |x.stack| && 0 <= x.a < n && 0 <= x.b < n && 0 <= x.c < n
    && x.a != x.b && x.b != x.c && x.a != x.c && x.stack[x.a] != 1
    && forall s, op, r {:trigger Does(s, op, r, x.stack)} :: Does(s, op, r, x.stack) ==> x.moves(s, op, r)
  }

  // How a notification becomes stale, in parts of three operations.

  /** a starts alone; b joins, starts and stops. */
  function Prelude(a: int, b: int, c: int): seq<Op> {
    [Op.Register(a), Op.Activate(a), Op.Enable(a)] + Joining(a, b, c)
  }

  function Joining(a: int, b: int, c: int): seq<Op> {
    [Op.ActivateOther(a, b), Op.Enable(b), Op.Stop(b, 0)] + Flagging(a, b, c)
  }

  /** a passes b, the overflow handler schedules and flags a notification, and b is granted the turn. */
  function Flagging(a: int, b: int, c: int): seq<Op> {
    [Op.Credit(a, 2), Op.Overflow(a), Op.Wait(b)] + Clearing(a, b, c)
  }

  /** b goes on, which clears the flag, and leaves. */
  function Clearing(a: int, b: int, c: int): seq<Op> {
    [Op.WokeUp(b), Op.Enable(b), Op.Disable(b, 0)] + Leaving(a, b, c)
  }

  function Leaving(a: int, b: int, c: int): seq<Op> {
    [Op.Halt(b), Op.Stop(a, 0), Op.WokeUp(a)] + Restarting(a, c)
  }

  /** a has stopped alone, so that nothing is owed, and starts again; c joins and starts. */
  function Restarting(a: int, c: int): seq<Op> {
    [Op.Enable(a), Op.ActivateOther(a, c), Op.Enable(c)]
  }

  ghost predicate Unknown(s: State, c: int)
    requires 0 <= c < |s.clocks|
  {
    !s.clocks[c].initialized
  }

  // What holds before each operation: Stage1 after the registration, Stage16 after the prelude.

  /** a is registered, and nobody is listed. */
  ghost predicate Stage1(s: State, x: Cast) {
    && WF(s) && Casting(x, |s.clocks|)
    && Nobody(s, x.a, Marks(-1, true, false, false))
  }

  /** a is listed, and recorded. */
  ghost predicate Stage2(s: State, x: Cast) {
    && WF(s) && Casting(x, |s.clocks|)
    && One(s, x.a, Marks(x.a, false, false, false)) && NoneBut(s, {x.a})
  }

  /** a runs, and a notification is owed. */
  ghost predicate Stage3(s: State, x: Cast) {
    && WF(s) && Casting(x, |s.clocks|)
    && One(s, x.a, Marks(x.a, true, false, false)) && Running(s, x.a) && NoneBut(s, {x.a})
  }

  /** b has joined behind it. */
  ghost predicate Stage4(s: State, x: Cast) {
    && WF(s) && Casting(x, |s.clocks|)
    && Two(s, x.b, x.a, Marks(x.a, true, false, false)) && Running(s, x.a) && NoneBut(s, {x.a, x.b})
    && s.clocks[x.b].Clock() == s.clocks[x.a].Clock() + 1
  }

  /** b runs too, and nobody is recorded. */
  ghost predicate Stage5(s: State, x: Cast) {
    && WF(s) && Casting(x, |s.clocks|)
    && Two(s, x.b, x.a, Marks(-1, true, false, false)) && Running(s, x.a) && Running(s, x.b) && NoneBut(s, {x.a, x.b})
    && s.clocks[x.b].Clock() == s.clocks[x.a].Clock() + 1
  }

  /** b waits. */
  ghost predicate Stage6(s: State, x: Cast) {
    && WF(s) && Casting(x, |s.clocks|)
    && Two(s, x.b, x.a, Marks(-1, true, false, false)) && Running(s, x.a) && NoneBut(s, {x.a, x.b})
    && s.clocks[x.b].Clock() == s.clocks[x.a].Clock() + 1 && s.clocks[x.b].waiting
  }

  /** a has passed b. */
  ghost predicate Stage7(s: State, x: Cast) {
    && WF(s) && Casting(x, |s.clocks|)
    && Two(s, x.b, x.a, Marks(-1, true, false, false)) && Running(s, x.a) && NoneBut(s, {x.a, x.b})
    && Lowest(s) == x.b && s.clocks[x.b].waiting
  }

  /** The notification is flagged and scheduled. */
  ghost predicate Stage8(s: State, x: Cast) {
    && WF(s) && Casting(x, |s.clocks|)
    && Two(s, x.b, x.a, Marks(-1, true, true, true)) && Running(s, x.a) && Lowest(s) == x.b && Unknown(s, x.c)
  }

  /** b holds the turn. */
  ghost predicate Stage9(s: State, x: Cast) {
    && WF(s) && Casting(x, |s.clocks|)
    && Two(s, x.b, x.a, Marks(x.b, false, true, true)) && Running(s, x.a) && Lowest(s) == x.b && Unknown(s, x.c)
    && !s.clocks[x.b].waiting && !s.clocks[x.b].sleeping
  }

  /** b runs, and the flag is gone. */
  ghost predicate Stage10(s: State, x: Cast) {
    && WF(s) && Casting(x, |s.clocks|)
    && Two(s, x.b, x.a, Marks(x.b, true, false, true)) && Running(s, x.a) && Lowest(s) == x.b && Unknown(s, x.c)
  }

  /** b is about to leave. */
  ghost predicate Stage11(s: State, x: Cast) {
    && WF(s) && Casting(x, |s.clocks|)
    && Two(s, x.b, x.a, Marks(x.b, false, false, true)) && Running(s, x.a) && Unknown(s, x.c)
  }

  /** b has left. */
  ghost predicate Stage12(s: State, x: Cast) {
    && WF(s) && Casting(x, |s.clocks|)
    && One(s, x.a, Marks(-1, true, false, true)) && Running(s, x.a) && Unknown(s, x.c)
  }

  /** a holds the turn alone, and nothing is owed. */
  ghost predicate Stage13(s: State, x: Cast) {
    && WF(s) && Casting(x, |s.clocks|)
    && One(s, x.a, Marks(-1, false, false, true)) && Unknown(s, x.c)
    && !s.clocks[x.a].waiting && !s.clocks[x.a].sleeping
  }

  /** a runs on, and nothing is owed. */
  ghost predicate Stage14(s: State, x: Cast) {
    && WF(s) && Casting(x, |s.clocks|)
    && One(s, x.a, Marks(-1, false, false, true)) && Running(s, x.a) && Unknown(s, x.c)
  }

  /** c has joined behind it. */
  ghost predicate Stage15(s: State, x: Cast) {
    && WF(s) && Casting(x, |s.clocks|)
    && Two(s, x.c, x.a, Marks(-1, false, false, true)) && Running(s, x.a)
    && s.clocks[x.c].Clock() == s.clocks[x.a].Clock() + 1
  }

  /** Both run, and the notification is stale. */
  ghost predicate Stage16(s: State, x: Cast) {
    && WF(s) && Casting(x, |s.clocks|)
    && Two(s, x.c, x.a, Marks(-1, false, false, true)) && Running(s, x.a) && Running(s, x.c)
    && s.clocks[x.c].Clock() == s.clocks[x.a].Clock() + 1
  }

  // Each operation is possible, and leads to the next stage.

  lemma Move1(s: State, x: Cast) returns (r: State)
    requires Stage1(s, x)
    ensures x.moves(s, Op.Activate(x.a), r) && Stage2(r, x)
  {
    r := Protocol.Activate(s, x.a);
    GroupKept(s, Op.Activate(x.a), x.stack);
    PrepareActivateEffect(s, x.a);
    ActivateLeadsWhen(s, x.a);
    assert Does(s, Op.Activate(x.a), r, x.stack);
  }

  lemma Move2(s: State, x: Cast) returns (r: State)
    requires Stage2(s, x)
    ensures x.moves(s, Op.Enable(x.a), r) && Stage3(r, x)
  {
    r := OnEnable(s, x.a, x.stack).s;
    LoneStart(s, x.a, MarksOf(s), x.stack);
    NoneButStays(s, r, {x.a}, {x.a});
    assert Does(s, Op.Enable(x.a), r, x.stack);
  }

  lemma Move3(s: State, x: Cast) returns (r: State)
    requires Stage3(s, x)
    ensures x.moves(s, Op.ActivateOther(x.a, x.b), r) && Stage4(r, x)
  {
    r := Protocol.ActivateOther(s, x.a, x.b);
    Joins(s, x.a, x.b, MarksOf(s), x.stack);
    NoneButStays(s, r, {x.a}, {x.a, x.b});
    assert Does(s, Op.ActivateOther(x.a, x.b), r, x.stack);
  }

  lemma Move4(s: State, x: Cast) returns (r: State)
    requires Stage4(s, x)
    ensures x.moves(s, Op.Enable(x.b), r) && Stage5(r, x)
  {
    r := OnEnable(s, x.b, x.stack).s;
    StartsUnrecorded(s, x.a, x.b, MarksOf(s), x.stack);
    NoneButStays(s, r, {x.a, x.b}, {x.a, x.b});
    assert Does(s, Op.Enable(x.b), r, x.stack);
  }

  lemma Move5(s: State, x: Cast) returns (r: State)
    requires Stage5(s, x)
    ensures x.moves(s, Op.Stop(x.b, 0), r) && Stage6(r, x)
  {
    r := Protocol.Stop(s, x.b, 0, x.stack).s;
    StopsUnrecorded(s, x.a, x.b, MarksOf(s), x.stack);
    NoneButStays(s, r, {x.a, x.b}, {x.a, x.b});
    assert Does(s, Op.Stop(x.b, 0), r, x.stack);
  }

  lemma Move6(s: State, x: Cast) returns (r: State)
    requires Stage6(s, x)
    ensures x.moves(s, Op.Credit(x.a, 2), r) && Stage7(r, x)
  {
    r := OverflowUpdatePeriod(s, x.a, 2);
    Passes(s, x.a, x.b, MarksOf(s), x.stack);
    NoneButStays(s, r, {x.a, x.b}, {x.a, x.b});
    assert Does(s, Op.Credit(x.a, 2), r, x.stack);
  }

  lemma Move7(s: State, x: Cast) returns (r: State)
    requires Stage7(s, x)
    ensures x.moves(s, Op.Overflow(x.a), r) && Stage8(r, x)
  {
    r := OverflowHandler(s, x.a);
    assert LiveAreListed(s);
    OverflowFlagsExactly(s, x.a);
    OverflowOnlyFlags(s, x.a);
    GroupKept(s, Op.Overflow(x.a), x.stack);
    assert Does(s, Op.Overflow(x.a), r, x.stack);
  }

  lemma Move8(s: State, x: Cast) returns (r: State)
    requires Stage8(s, x)
    ensures x.moves(s, Op.Wait(x.b), r) && Stage9(r, x)
  {
    r := Protocol.Wait(s, x.b, x.stack).s;
    LeadsOn(s, x.a, x.b, MarksOf(s), Op.Wait(x.b), x.stack);
    assert Does(s, Op.Wait(x.b), r, x.stack);
  }

  lemma Move9(s: State, x: Cast) returns (r: State)
    requires Stage9(s, x)
    ensures x.moves(s, Op.WokeUp(x.b), r) && Stage9(r, x)
  {
    r := Protocol.WokeUp(s, x.b);
    assert r == s;
    assert Does(s, Op.WokeUp(x.b), r, x.stack);
  }

  lemma Move10(s: State, x: Cast) returns (r: State)
    requires Stage9(s, x)
    ensures x.moves(s, Op.Enable(x.b), r) && Stage10(r, x)
  {
    r := OnEnable(s, x.b, x.stack).s;
    LeadsOn(s, x.a, x.b, MarksOf(s), Op.Enable(x.b), x.stack);
    assert Does(s, Op.Enable(x.b), r, x.stack);
  }

  lemma Move11(s: State, x: Cast) returns (r: State)
    requires Stage10(s, x)
    ensures x.moves(s, Op.Disable(x.b, 0), r) && Stage11(r, x)
  {
    r := OnDisable(s, x.b, 0, x.stack).s;
    LeadsOn(s, x.a, x.b, MarksOf(s), Op.Disable(x.b, 0), x.stack);
    assert Does(s, Op.Disable(x.b, 0), r, x.stack);
  }

  lemma Move12(s: State, x: Cast) returns (r: State)
    requires Stage11(s, x)
    ensures x.moves(s, Op.Halt(x.b), r) && Stage12(r, x)
  {
    r := Protocol.Halt(s, x.b, x.stack).s;
    DecidingStep(s, Op.Halt(x.b), x.stack);
    LeftAlone(s, x.a, x.b);
    LeaveMarks(s, x.a, x.b, MarksOf(s), x.stack);
    assert Does(s, Op.Halt(x.b), r, x.stack);
  }

  lemma Move13(s: State, x: Cast) returns (r: State)
    requires Stage12(s, x)
    ensures x.moves(s, Op.Stop(x.a, 0), r) && Stage13(r, x)
  {
    r := Protocol.Stop(s, x.a, 0, x.stack).s;
    LoneStop(s, x.a, MarksOf(s), x.stack);
    assert Does(s, Op.Stop(x.a, 0), r, x.stack);
  }

  lemma Move14(s: State, x: Cast) returns (r: State)
    requires Stage13(s, x)
    ensures x.moves(s, Op.WokeUp(x.a), r) && Stage13(r, x)
  {
    r := Protocol.WokeUp(s, x.a);
    assert r == s;
    assert Does(s, Op.WokeUp(x.a), r, x.stack);
  }

  lemma Move15(s: State, x: Cast) returns (r: State)
    requires Stage13(s, x)
    ensures x.moves(s, Op.Enable(x.a), r) && Stage14(r, x)
  {
    r := OnEnable(s, x.a, x.stack).s;
    LoneStart(s, x.a, MarksOf(s), x.stack);
    assert Does(s, Op.Enable(x.a), r, x.stack);
  }

  lemma Move16(s: State, x: Cast) returns (r: State)
    requires Stage14(s, x)
    ensures x.moves(s, Op.ActivateOther(x.a, x.c), r) && Stage15(r, x)
  {
    r := Protocol.ActivateOther(s, x.a, x.c);
    Joins(s, x.a, x.c, MarksOf(s), x.stack);
    assert Does(s, Op.ActivateOther(x.a, x.c), r, x.stack);
  }

  lemma Move17(s: State, x: Cast) returns (r: State)
    requires Stage15(s, x)
    ensures x.moves(s, Op.Enable(x.c), r) && Stage16(r, x)
  {
    r := OnEnable(s, x.c, x.stack).s;
    StartsUnrecorded(s, x.a, x.c, MarksOf(s), x.stack);
    assert Does(s, Op.Enable(x.c), r, x.stack);
  }

  /** From here the operations are possible and lead to the goal. */
  ghost predicate GoesOn(s: State, x: Cast, ops: seq<Op>, goal: State -> bool) {
    exists r :: Connects(x.moves, s, ops, r) && goal(r)
  }

  lemma AtTheEnd(s: State, x: Cast, goal: State -> bool)
    requires goal(s)
    ensures GoesOn(s, x, [], goal)
  {
    ConnectsItself(x.moves, s);
  }

  lemma OneBefore(s: State, x: Cast, op: Op, t: State, ops: seq<Op>, goal: State -> bool)
    requires x.moves(s, op, t) && GoesOn(t, x, ops, goal)
    ensures GoesOn(s, x, [op] + ops, goal)
  {
    var r :| Connects(x.moves, t, ops, r) && goal(r);
    StepBefore(x.moves, s, op, t, ops, r);
  }

  lemma ThreeBefore(s: State, x: Cast, run: seq<Op>, s1: State, s2: State, s3: State, ops: seq<Op>, goal: State -> bool)
    requires |run| == 3 && x.moves(s, run[0], s1) && x.moves(s1, run[1], s2) && x.moves(s2, run[2], s3)
    requires GoesOn(s3, x, ops, goal)
    ensures GoesOn(s, x, run + ops, goal)
  {
    OneBefore(s2, x, run[2], s3, ops, goal);
    OneBefore(s1, x, run[1], s2, [run[2]] + ops, goal);
    OneBefore(s, x, run[0], s1, [run[1]] + ([run[2]] + ops), goal);
    assert run + ops == [run[0]] + ([run[1]] + ([run[2]] + ops));
  }

  ghost function AtStart(x: Cast): State -> bool {
    (s: State) => Stage16(s, x)
  }

  lemma RestartingLeads(s: State, x: Cast)
    requires Stage13(s, x)
    ensures GoesOn(s, x, Restarting(x.a, x.c), AtStart(x))
  {
    var s1 := Move15(s, x);
    var s2 := Move16(s1, x);
    var s3 := Move17(s2, x);
    AtTheEnd(s3, x, AtStart(x));
    ThreeBefore(s, x, [Op.Enable(x.a), Op.ActivateOther(x.a, x.c), Op.Enable(x.c)], s1, s2, s3, [], AtStart(x));
    assert Restarting(x.a, x.c) == [Op.Enable(x.a), Op.ActivateOther(x.a, x.c), Op.Enable(x.c)] + [];
  }

  lemma LeavingLeads(s: State, x: Cast)
    requires Stage11(s, x)
    ensures GoesOn(s, x, Leaving(x.a, x.b, x.c), AtStart(x))
  {
    var s1 := Move12(s, x);
    var s2 := Move13(s1, x);
    var s3 := Move14(s2, x);
    RestartingLeads(s3, x);
    ThreeBefore(s, x, [Op.Halt(x.b), Op.Stop(x.a, 0), Op.WokeUp(x.a)], s1, s2, s3, Restarting(x.a, x.c), AtStart(x));
  }

  lemma ClearingLeads(s: State, x: Cast)
    requires Stage9(s, x)
    ensures GoesOn(s, x, Clearing(x.a, x.b, x.c), AtStart(x))
  {
    var s1 := Move9(s, x);
    var s2 := Move10(s1, x);
    var s3 := Move11(s2, x);
    LeavingLeads(s3, x);
    ThreeBefore(s, x, [Op.WokeUp(x.b), Op.Enable(x.b), Op.Disable(x.b, 0)], s1, s2, s3, Leaving(x.a, x.b, x.c),
        AtStart(x));
  }

  lemma FlaggingLeads(s: State, x: Cast)
    requires Stage6(s, x)
    ensures GoesOn(s, x, Flagging(x.a, x.b, x.c), AtStart(x))
  {
    var s1 := Move6(s, x);
    var s2 := Move7(s1, x);
    var s3 := Move8(s2, x);
    ClearingLeads(s3, x);
    ThreeBefore(s, x, [Op.Credit(x.a, 2), Op.Overflow(x.a), Op.Wait(x.b)], s1, s2, s3, Clearing(x.a, x.b, x.c),
        AtStart(x));
  }

  lemma JoiningLeads(s: State, x: Cast)
    requires Stage3(s, x)
    ensures GoesOn(s, x, Joining(x.a, x.b, x.c), AtStart(x))
  {
    var s1 := Move3(s, x);
    var s2 := Move4(s1, x);
    var s3 := Move5(s2, x);
    FlaggingLeads(s3, x);
    ThreeBefore(s, x, [Op.ActivateOther(x.a, x.b), Op.Enable(x.b), Op.Stop(x.b, 0)], s1, s2, s3, Flagging(x.a, x.b,
        x.c), AtStart(x));
  }

  lemma PreludeLeads(s: State, x: Cast, r: State)
    requires x.moves(s, Op.Register(x.a), r) && Stage1(r, x)
    ensures GoesOn(s, x, Prelude(x.a, x.b, x.c), AtStart(x))
  {
    var s2 := Move1(r, x);
    var s3 := Move2(s2, x);
    JoiningLeads(s3, x);
    ThreeBefore(s, x, [Op.Register(x.a), Op.Activate(x.a), Op.Enable(x.a)], r, s2, s3, Joining(x.a, x.b, x.c),
        AtStart(x));
  }

  // ----- nobody sleeps on the way

  ghost predicate AllAwake(s: State) {
    forall i :: 0 <= i < |s.clocks| ==> !s.clocks[i].sleeping && !s.clocks[i].pollIn
  }

  lemma StaysAwake(s: State, op: Op, stack: seq<int>)
    requires GroupInv(s) && Enabled(s, op) && !op.Sleep? && |stack| == STACK_SLOTS && AllAwake(s)
    ensures GroupInv(Apply(s, op, stack).s) && AllAwake(Apply(s, op, stack).s)
  {
    GroupKept(s, op, stack);
    if Deciding(op) {
      DecidingStaysAwake(s, op, stack);
    } else if op.Notify? {
      NotifyChanges(s, stack);
    } else {
      QuietStaysAwake(s, op, stack);
    }
  }

  lemma DecidingStaysAwake(s: State, op: Op, stack: seq<int>)
    requires GroupInv(s) && Enabled(s, op) && Deciding(op) && !op.Sleep? && |stack| == STACK_SLOTS && AllAwake(s)
    ensures AllAwake(Apply(s, op, stack).s)
  {
    DecidingDecides(s, op, stack);
    var o := Apply(s, op, stack);
    DecidedStaysAwake(s, o.s, op.t, Lowest(Prefix(s, op)), o.wake, LeavesWaiting(op));
  }

  lemma DecidedStaysAwake(s: State, r: State, t: int, m: int, wake: int, waits: bool)
    requires WF(s) && WF(r) && |r.clocks| == |s.clocks| && 0 <= t < |s.clocks| && -1 <= wake < |s.clocks|
    requires Decided(s, r, t, m, wake, waits, false) && AllAwake(s)
    ensures AllAwake(r)
  {
  }

  lemma QuietStaysAwake(s: State, op: Op, stack: seq<int>)
    requires GroupInv(s) && Enabled(s, op) && !Deciding(op) && !op.Notify? && |stack| == STACK_SLOTS && AllAwake(s)
    ensures AllAwake(Apply(s, op, stack).s)
  {
    forall i | 0 <= i < |s.clocks| ensures !Apply(s, op, stack).s.clocks[i].sleeping
        && !Apply(s, op, stack).s.clocks[i].pollIn {
      if i == op.t {
        CallerRecord(s, op, stack);
      } else if op.ActivateOther? && i == op.id {
        ActivatedRecord(s, op.t, i);
      } else {
        OthersStay(s, op, stack, i);
      }
    }
  }

  lemma {:induction false} AwakeAlong(run: seq<State>, ops: seq<Op>, stack: seq<int>, k: nat)
    requires Path(Steps(stack), run, ops) && k <= |ops| && |stack| == STACK_SLOTS
    requires GroupInv(run[0]) && AllAwake(run[0]) && forall i :: 0 <= i < |ops| ==> !ops[i].Sleep?
    ensures GroupInv(run[k]) && AllAwake(run[k])
  {
    if k == 0 {
    } else {
      AwakeAlong(run, ops, stack, k - 1);
      assert Does(run[k - 1], ops[k - 1], run[k], stack);
      StaysAwake(run[k - 1], ops[k - 1], stack);
    }
  }

  // ----- the theorem

  /**
  In any new group of three or more threads the prelude is possible, and ends with everybody listed
  running and a stale notification; so from there some chunks have an interleaving that stalls: the
  notification records a waiting thread without waking it.
  */
  lemma LateNotificationLosesWakeUp(n: nat, a: int, b: int, c: int, stack: seq<int>)
    requires n <= STACK_SLOTS == |stack| && 0 <= a < n && 0 <= b < n && 0 <= c < n
    requires a != b && b != c && a != c && stack[a] != 1
    ensures exists m :: Connects(Steps(stack), Initially(n), Prelude(a, b, c), m) && AllRun(m) && Stale(m)
                        && exists chunks :: Fresh(m, chunks) && CanStall(Begin(m, chunks))
  {
    var s, x := Initially(n), Cast(a, b, c, stack, Steps(stack));
    assert Casting(x, n);
    StartInv(n);
    GroupKept(s, Op.Register(a), stack);
    PreludeLeads(s, x, EntryInit(s, a));
    var m :| Connects(x.moves, s, Prelude(a, b, c), m) && Stage16(m, x);
    EverybodyRuns(n, m, x);
    StartCanStallExactlyWhen(m);
  }

  lemma EverybodyRuns(n: nat, m: State, x: Cast)
    requires 0 < n <= STACK_SLOTS == |x.stack|
    requires Connects(Steps(x.stack), Initially(n), Prelude(x.a, x.b, x.c), m) && Stage16(m, x)
    ensures AllRun(m) && Stale(m)
  {
    var ops := Prelude(x.a, x.b, x.c);
    var run :| Path(Steps(x.stack), run, ops) && run[0] == Initially(n) && run[|ops|] == m;
    StartInv(n);
    NobodySleeps(x.a, x.b, x.c);
    AwakeAlong(run, ops, x.stack, |ops|);
    BothRun(m, x);
  }

  lemma NobodySleeps(a: int, b: int, c: int)
    ensures forall i :: 0 <= i < |Prelude(a, b, c)| ==> !Prelude(a, b, c)[i].Sleep?
  {
    assert forall i :: 0 <= i < |Leaving(a, b, c)| ==> !Leaving(a, b, c)[i].Sleep?;
    assert forall i :: 0 <= i < |Flagging(a, b, c)| ==> !Flagging(a, b, c)[i].Sleep?;
  }

  lemma BothRun(m: State, x: Cast)
    requires Stage16(m, x) && AllAwake(m)
    ensures AllRun(m) && Stale(m)
  {
  }
}
