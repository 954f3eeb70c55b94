/**
The hardware counter of src/module/logical_clock_instruction_counting.h: wrap-around deltas of a
48-bit counter kept in 64-bit words, and what becomes of counted instructions over counter
interrupts and the compare-and-swap read loop: exactly when each is credited once, and by how much
the clock runs ahead otherwise.
*/
module Counters {

  const X48 := 0x1_0000_0000_0000
  const X47 := 0x8000_0000_0000
  const X46 := 0x4000_0000_0000
  const X64 := 0x1_0000_0000_0000_0000
  const X16 := 0x1_0000
  const X31 := 0x8000_0000

  /** While user space reads the counter, it is armed at the negative of this. */
  const ARMED := X31 - 1

  // ----- deltas

  function Wrap64(x: int): (r: nat)
    ensures r < X64
  {
    x % X64
  }

  function Signed64(x: nat): int {
    if x < X64 / 2 then x else x - X64
  }

  /** Both readings shifted left by 16 and subtracted, in 64-bit arithmetic. */
  function ShiftedDifference(now: nat, prev: nat): (r: nat)
    ensures r < X64
  {
    Wrap64(Wrap64(now * X16) - Wrap64(prev * X16))
  }

  /** The kernel shifts the difference back as a signed word. */
  function KernelDelta(now: nat, prev: nat): int {
    Signed64(ShiftedDifference(now, prev)) / X16
  }

  /** User space shifts it back as an unsigned word. */
  function UserDelta(now: nat, prev: nat): nat {
    ShiftedDifference(now, prev) / X16
  }

  function Residue48(x: int): (r: nat)
    ensures r < X48
  {
    x % X48
  }

  /** The representative of x modulo 2^48 closest to zero. */
  function Signed48(x: int): (r: int)
    ensures -X47 <= r < X47
  {
    if x % X48 < X47 then x % X48 else x % X48 - X48
  }

  /** Between -2^47 and 2^47 there is only one representative. */
  lemma SignedUnique(x: int, q: int, d: int)
    requires x == q * X48 + d && -X47 <= d < X47
    ensures Signed48(x) == d
  {
    assert x % X48 == if d >= 0 then d else d + X48;
  }

  lemma ShiftedDifferenceIs(now: nat, prev: nat)
    ensures ShiftedDifference(now, prev) == Residue48(now - prev) * X16
  {
    var a, b := now * X16, prev * X16;
    var d := now - prev;
    var q := d / X48 - a / X64 + b / X64;
    assert Wrap64(a) - Wrap64(b) == q * X64 + Residue48(d) * X16;
  }

  /** The kernel's delta is the signed 48-bit residue of the advance, for all 64-bit readings. */
  lemma KernelDeltaIsSignedResidue(now: nat, prev: nat)
    ensures KernelDelta(now, prev) == Signed48(now - prev)
  {
    ShiftedDifferenceIs(now, prev);
  }

  /** The user-space delta is the unsigned one. */
  lemma UserDeltaIsResidue(now: nat, prev: nat)
    ensures UserDelta(now, prev) == Residue48(now - prev)
  {
    ShiftedDifferenceIs(now, prev);
  }

  /** They agree exactly when the advance, modulo 2^48, is below 2^47. */
  lemma DeltasAgreeExactlyWhen(now: nat, prev: nat)
    ensures KernelDelta(now, prev) == UserDelta(now, prev) <==> Residue48(now - prev) < X47
  {
    KernelDeltaIsSignedResidue(now, prev);
    UserDeltaIsResidue(now, prev);
  }

  /** What a write of -val leaves in the 48-bit counter, and in the 64-bit record of it. */
  function CounterSetTo(val: nat): nat {
    Wrap64(0 - val) % X48
  }

  /** Events advance the counter, across the wrap. */
  function Advanced(raw: nat, k: nat): nat {
    (raw + k) % X48
  }

  /** Arm the counter at -val, let k events pass: both readings give back exactly k. */
  lemma SetThenRead(val: nat, k: nat)
    requires k < X47
    ensures KernelDelta(Advanced(CounterSetTo(val), k), Wrap64(0 - val)) == k
    ensures UserDelta(Advanced(CounterSetTo(val), k), Wrap64(0 - val)) == k
  {
    var now, prev := Advanced(CounterSetTo(val), k), Wrap64(0 - val);
    KernelDeltaIsSignedResidue(now, prev);
    UserDeltaIsResidue(now, prev);
    var start := CounterSetTo(val);
    var q := 0 - (start + k) / X48 - prev / X48;
    assert now - prev == q * X48 + k;
    SignedUnique(now - prev, q, k);
  }

  // ----- one thread's counter

  /**
  The counter of one thread: hardware value, last recorded value, the event's own count, the
  logical clock, whether counting is on, and -- for the statements only -- all events so far, and
  how many there had been when the recorded value was taken from the hardware.
  */
  datatype Counter =
    Counter(raw: nat, prev: nat, count: int, ticks: int, on: bool, retired: nat, recorded: nat)

  /** What the hardware and the kernel may do between two of the thread's own steps. */
  datatype Event =
    | Retire(n: nat)          // n instructions retire
    | Update                  // the kernel moves the raw delta into the event's count
    | Interrupt(left: nat)    // an overflow interrupt: update, credit if counting, re-arm at -left

  function UpdateEvent(c: Counter): Counter {
    c.(count := c.count + KernelDelta(c.raw, c.prev), prev := c.raw, recorded := c.retired)
  }

  function UpdateClockTicks(c: Counter): Counter {
    c.(ticks := c.ticks + c.count, count := 0)
  }

  function Rearm(c: Counter, left: nat): Counter {
    c.(raw := CounterSetTo(left), prev := Wrap64(0 - left), recorded := c.retired)
  }

  function Act(c: Counter, e: Event): Counter {
    match e
    case Retire(n) => c.(raw := Advanced(c.raw, n), retired := c.retired + n)
    case Update => UpdateEvent(c)
    case Interrupt(left) =>
      var u := UpdateEvent(c);
      Rearm(if u.on then UpdateClockTicks(u) else u, left)
  }

  function Acts(c: Counter, es: seq<Event>): Counter
    decreases |es|
  {
    if es == [] then c else Acts(Act(c, es[0]), es[1..])
  }

  /** The reading as a position around zero, where the counter wraps. */
  function Position(x: nat): int {
    Signed48(x)
  }

  /** Both values lie within 2^46 of the wrap: periods are below 2^31, and an interrupt re-arms in time. */
  ghost predicate Near(c: Counter) {
    -X46 <= Position(c.raw) < X46 && -X46 <= Position(c.prev) < X46
  }

  ghost predicate Timely(c: Counter, es: seq<Event>)
    decreases |es|
  {
    es != [] ==>
      && (es[0].Retire? ==> Position(c.raw) + es[0].n < X46)
      && (es[0].Interrupt? ==> es[0].left <= X31)
      && Timely(Act(c, es[0]), es[1..])
  }

  /** Credited, counted by the event, or still in the hardware. */
  function Balance(c: Counter): int {
    c.ticks + c.count + Position(c.raw) - Position(c.prev)
  }

  lemma NearDelta(now: nat, prev: nat)
    requires -X46 <= Position(now) < X46 && -X46 <= Position(prev) < X46
    ensures KernelDelta(now, prev) == Position(now) - Position(prev)
  {
    KernelDeltaIsSignedResidue(now, prev);
    var i, j := Position(now), Position(prev);
    SignedUnique(now - prev, (now - i) / X48 - (prev - j) / X48, i - j);
  }

  lemma AdvancedPosition(raw: nat, n: nat)
    requires Position(raw) + n < X46
    ensures Position(Advanced(raw, n)) == Position(raw) + n
  {
  }

  lemma ArmedPosition(left: nat)
    requires left <= X31
    ensures Position(CounterSetTo(left)) == Position(Wrap64(0 - left)) == 0 - left
  {
    assert Wrap64(0 - left) == if left == 0 then 0 else X64 - left;
    assert CounterSetTo(left) == if left == 0 then 0 else X48 - left;
  }

  lemma ActConserves(c: Counter, e: Event)
    requires Near(c) && (e.Retire? ==> Position(c.raw) + e.n < X46) && (e.Interrupt? ==> e.left <= X31)
    ensures var d := Act(c, e);
            Near(d) && Balance(d) - d.retired == Balance(c) - c.retired && d.on == c.on && d.retired >= c.retired
  {
    NearDelta(c.raw, c.prev);
    match e
    case Retire(n) => AdvancedPosition(c.raw, n);
    case Update =>
    case Interrupt(left) => ArmedPosition(left);
  }

  /**
  An interrupt credits at once what the event has counted and what the hardware holds, if counting
  is on; otherwise it only moves it into the event's count. Either way it takes a fresh record.
  */
  lemma InterruptCreditsAtOnce(c: Counter, left: nat)
    requires Near(c)
    ensures var d, held := Act(c, Interrupt(left)), c.count + Position(c.raw) - Position(c.prev);
            && d.ticks == c.ticks + (if c.on then held else 0)
            && d.count == (if c.on then 0 else held)
            && d.on == c.on && d.retired == d.recorded == c.retired
  {
    NearDelta(c.raw, c.prev);
  }

  lemma {:induction false} ActsConserve(c: Counter, es: seq<Event>)
    requires Near(c) && Timely(c, es)
    ensures var d := Acts(c, es);
            Near(d) && Balance(d) - d.retired == Balance(c) - c.retired && d.on == c.on && d.retired >= c.retired
    decreases |es|
  {
    if es == [] {
    } else {
      ActConserves(c, es[0]);
      ActsConserve(Act(c, es[0]), es[1..]);
    }
  }

  // ----- the read loop

  /** What happens during one attempt: before the recorded value is read, and before the swap. */
  datatype Window = Window(beforePrev: seq<Event>, beforeSwap: seq<Event>)

  datatype Reading = Reading(c: Counter, now: nat, prev: nat)

  /** The swap puts the value that was read at the start of the attempt into the record. */
  function Swapped(e: Counter, start: Counter): Counter {
    e.(prev := start.raw, recorded := start.retired)
  }

  /** Read both values and swap; an interrupt that changed the record in between starts it all over. */
  function ReadLoop(c: Counter, ws: seq<Window>): Reading
    decreases |ws|
  {
    if ws == [] then Reading(Swapped(c, c), c.raw, c.prev) else
      var d := Acts(c, ws[0].beforePrev);
      var e := Acts(d, ws[0].beforeSwap);
      if e.prev == d.prev then Reading(Swapped(e, c), c.raw, d.prev) else ReadLoop(e, ws[1..])
  }

  ghost predicate TimelyLoop(c: Counter, ws: seq<Window>)
    decreases |ws|
  {
    ws != [] ==>
      var d := Acts(c, ws[0].beforePrev);
      && Timely(c, ws[0].beforePrev) && Timely(d, ws[0].beforeSwap)
      && TimelyLoop(Acts(d, ws[0].beforeSwap), ws[1..])
  }

  /** Whatever interrupts the loop, the delta it returns is taken out of the hardware exactly once. */
  lemma {:induction false} ReadLoopConserves(c: Counter, ws: seq<Window>)
    requires Near(c) && TimelyLoop(c, ws)
    ensures var r := ReadLoop(c, ws);
            && Near(r.c) && r.c.on == c.on && r.c.retired >= c.retired
            && Balance(r.c) + KernelDelta(r.now, r.prev) - r.c.retired == Balance(c) - c.retired
    decreases |ws|
  {
    if ws == [] {
      NearDelta(c.raw, c.prev);
    } else {
      var d := Acts(c, ws[0].beforePrev);
      var e := Acts(d, ws[0].beforeSwap);
      ActsConserve(c, ws[0].beforePrev);
      ActsConserve(d, ws[0].beforeSwap);
      if e.prev == d.prev {
        NearDelta(c.raw, d.prev);
      } else {
        ReadLoopConserves(e, ws[1..]);
      }
    }
  }

  /** What happens after the swap: before counting is turned off, and then before the event's count is read. */
  datatype Late = Late(beforeOff: seq<Event>, beforeCount: seq<Event>)

  function TurnOff(c: Counter): Counter {
    c.(on := false)
  }

  function LateActs(c: Counter, late: Late): Counter {
    Acts(TurnOff(Acts(c, late.beforeOff)), late.beforeCount)
  }

  ghost predicate TimelyLate(c: Counter, late: Late) {
    Timely(c, late.beforeOff) && Timely(TurnOff(Acts(c, late.beforeOff)), late.beforeCount)
  }

  /**
  Read the counter and stop counting, then add what the event has counted. Updates and interrupts
  may still come in between (`late`); with counting off they only add to the event's count.
  */
  function ReadClockAndUpdate(c: Counter, ws: seq<Window>, late: Late): Counter {
    var r := ReadLoop(c, ws);
    var d := LateActs(r.c, late);
    var delta := KernelDelta(r.now, r.prev) + d.count;
    d.(count := 0, ticks := if c.on then d.ticks + delta else d.ticks)
  }

  /** Forget what was counted so far: the read itself resets the record. */
  function ResetCurrentTicks(c: Counter, ws: seq<Window>): Counter {
    ReadLoop(c, ws).c.(count := 0)
  }

  /** Counting moves to user space: the counter is reset, armed as far from its overflow as it can be,
      and not counted. */
  function HandToUserSpace(c: Counter, ws: seq<Window>): Counter {
    Rearm(ResetCurrentTicks(c, ws), ARMED).(count := 0, on := false)
  }

  lemma HandedOverIsArmed(c: Counter, ws: seq<Window>)
    ensures var r := HandToUserSpace(c, ws);
            Near(r) && Position(r.raw) == 0 - 0x7fff_ffff && Honest(r) && Pending(r) == 0 && !r.on && r.count == 0
  {
    ArmedPosition(ARMED);
  }

  /** Until counting is turned on again, whatever user space does with the counter leaves the clock alone. */
  lemma HandedOverCreditsNothing(c: Counter, ws: seq<Window>, es: seq<Event>)
    ensures var r := HandToUserSpace(c, ws);
            Acts(r, es).ticks == r.ticks && !Acts(r, es).on && (ws == [] || !c.on ==> r.ticks == c.ticks)
  {
    ActsKeepClock(HandToUserSpace(c, ws), es);
    if !c.on {
      ReadLoopKeepsClock(c, ws);
    }
  }

  ghost predicate TimelyStop(c: Counter, ws: seq<Window>, late: Late) {
    TimelyLoop(c, ws) && TimelyLate(ReadLoop(c, ws).c, late)
  }

  lemma LateActsConserve(c: Counter, late: Late)
    requires Near(c) && TimelyLate(c, late)
    ensures var d := LateActs(c, late);
            Near(d) && Balance(d) - d.retired == Balance(c) - c.retired && !d.on && d.retired >= c.retired
  {
    ActsConserve(c, late.beforeOff);
    ActsConserve(TurnOff(Acts(c, late.beforeOff)), late.beforeCount);
  }

  /** Still in the hardware: events after the value that the last read left as the record. */
  function Pending(c: Counter): int {
    Position(c.raw) - Position(c.prev)
  }

  /**
  The books balance: from the reset at the start to the stop, through any sequence of updates,
  interrupts and retries, the clock grows by the events that occurred and what the hardware held
  at the start, less what it holds at the end. (Whether that last amount is right is another
  question: a record that is newer than the counter's value makes it negative.)
  */
  lemma StopBalances(c: Counter, es: seq<Event>, ws: seq<Window>, late: Late)
    requires Near(c) && c.on && c.count == 0
    requires Timely(c, es) && TimelyStop(Acts(c, es), ws, late)
    ensures var z := ReadClockAndUpdate(Acts(c, es), ws, late);
            && !z.on && z.count == 0
            && z.ticks - c.ticks == (z.retired - c.retired) + Pending(c) - Pending(z)
  {
    var d := Acts(c, es);
    var r := ReadLoop(d, ws);
    ActsConserve(c, es);
    ReadLoopConserves(d, ws);
    LateActsConserve(r.c, late);
  }

  // ----- events that are credited twice

  /** Events since the record was taken, less what the hardware shows of them: credited twice. */
  function Surplus(c: Counter): int {
    c.retired - c.recorded - Pending(c)
  }

  /** The hardware holds exactly the events since the record was taken. */
  ghost predicate Honest(c: Counter) {
    Surplus(c) == 0
  }

  /** How far interrupts take the counter back when they arm it anew. */
  function RolledBack(c: Counter, es: seq<Event>): int
    decreases |es|
  {
    if es == [] then 0 else
      (if es[0].Interrupt? then Position(c.raw) + es[0].left else 0) + RolledBack(Act(c, es[0]), es[1..])
  }

  lemma {:induction false} PositionAfter(c: Counter, es: seq<Event>)
    requires Near(c) && Timely(c, es)
    ensures var d := Acts(c, es);
            Position(d.raw) - Position(c.raw) == d.retired - c.retired - RolledBack(c, es)
    decreases |es|
  {
    if es == [] {
    } else {
      ActConserves(c, es[0]);
      ActPosition(c, es[0]);
      PositionAfter(Act(c, es[0]), es[1..]);
    }
  }

  lemma ActPosition(c: Counter, e: Event)
    requires Near(c) && (e.Retire? ==> Position(c.raw) + e.n < X46) && (e.Interrupt? ==> e.left <= X31)
    ensures var d := Act(c, e);
            && Position(d.raw) == (if e.Interrupt? then 0 - e.left else Position(c.raw) + d.retired - c.retired)
            && d.retired == c.retired + (if e.Retire? then e.n else 0)
  {
    match e
    case Retire(n) => AdvancedPosition(c.raw, n);
    case Update =>
    case Interrupt(left) => ArmedPosition(left);
  }

  predicate OnlyRetires(es: seq<Event>) {
    forall k :: 0 <= k < |es| ==> es[k].Retire?
  }

  lemma ActSurplus(c: Counter, e: Event)
    requires Near(c) && (e.Retire? ==> Position(c.raw) + e.n < X46) && (e.Interrupt? ==> e.left <= X31)
    ensures Surplus(Act(c, e)) == if e.Retire? then Surplus(c) else 0
  {
    match e
    case Retire(n) => AdvancedPosition(c.raw, n);
    case Update =>
    case Interrupt(left) => ArmedPosition(left);
  }

  /** An update or an interrupt takes a fresh record; events that only retire change nothing about it. */
  lemma {:induction false} ActsSurplus(c: Counter, es: seq<Event>)
    requires Near(c) && Timely(c, es)
    ensures Surplus(Acts(c, es)) == if OnlyRetires(es) then Surplus(c) else 0
    decreases |es|
  {
    if es == [] {
    } else {
      ActConserves(c, es[0]);
      ActSurplus(c, es[0]);
      ActsSurplus(Act(c, es[0]), es[1..]);
      assert OnlyRetires(es) <==> es[0].Retire? && OnlyRetires(es[1..]);
    }
  }

  predicate NoFreshRecord(late: Late) {
    OnlyRetires(late.beforeOff) && OnlyRetires(late.beforeCount)
  }

  lemma LateActsSurplus(c: Counter, late: Late)
    requires Near(c) && TimelyLate(c, late)
    ensures Surplus(LateActs(c, late)) == if NoFreshRecord(late) then Surplus(c) else 0
  {
    ActsConserve(c, late.beforeOff);
    ActsSurplus(c, late.beforeOff);
    ActsSurplus(TurnOff(Acts(c, late.beforeOff)), late.beforeCount);
  }

  /** The attempt whose swap succeeds: the state at its raw read, and what happened before the swap. */
  datatype Attempt = Attempt(start: Counter, window: Window)

  function LastAttempt(c: Counter, ws: seq<Window>): Attempt
    decreases |ws|
  {
    if ws == [] then Attempt(c, Window([], [])) else
      var d := Acts(c, ws[0].beforePrev);
      var e := Acts(d, ws[0].beforeSwap);
      if e.prev == d.prev then Attempt(c, ws[0]) else LastAttempt(e, ws[1..])
  }

  function RolledBackIn(a: Attempt): int {
    RolledBack(a.start, a.window.beforePrev) + RolledBack(Acts(a.start, a.window.beforePrev), a.window.beforeSwap)
  }

  /** A read leaves as surplus exactly what interrupts between its raw read and its swap took back. */
  lemma {:induction false} ReadLoopSurplus(c: Counter, ws: seq<Window>)
    requires Near(c) && TimelyLoop(c, ws)
    ensures Surplus(ReadLoop(c, ws).c) == RolledBackIn(LastAttempt(c, ws))
    decreases |ws|
  {
    if ws == [] {
    } else {
      var d := Acts(c, ws[0].beforePrev);
      var e := Acts(d, ws[0].beforeSwap);
      ActsConserve(c, ws[0].beforePrev);
      ActsConserve(d, ws[0].beforeSwap);
      if e.prev == d.prev {
        PositionAfter(c, ws[0].beforePrev);
        PositionAfter(d, ws[0].beforeSwap);
      } else {
        ReadLoopSurplus(e, ws[1..]);
      }
    }
  }

  /** An overflow interrupt comes once the counter has wrapped, and arms it to wrap again later. */
  ghost predicate OnOverflow(c: Counter, es: seq<Event>)
    decreases |es|
  {
    es != [] ==>
      && (es[0].Interrupt? ==> Position(c.raw) >= 0 && es[0].left >= 1)
      && OnOverflow(Act(c, es[0]), es[1..])
  }

  predicate NoInterrupt(es: seq<Event>) {
    forall k :: 0 <= k < |es| ==> !es[k].Interrupt?
  }

  lemma {:induction false} RolledBackExactlyWhen(c: Counter, es: seq<Event>)
    requires OnOverflow(c, es)
    ensures RolledBack(c, es) >= 0 && (RolledBack(c, es) == 0 <==> NoInterrupt(es))
    decreases |es|
  {
    if es == [] {
    } else {
      RolledBackExactlyWhen(Act(c, es[0]), es[1..]);
      assert NoInterrupt(es) <==> !es[0].Interrupt? && NoInterrupt(es[1..]);
    }
  }

  ghost predicate OverflowsIn(a: Attempt) {
    OnOverflow(a.start, a.window.beforePrev) && OnOverflow(Acts(a.start, a.window.beforePrev), a.window.beforeSwap)
  }

  /** No interrupt between the raw read and the swap; updates do no harm. */
  predicate Calm(a: Attempt) {
    NoInterrupt(a.window.beforePrev) && NoInterrupt(a.window.beforeSwap)
  }

  /**
  A read leaves an honest record exactly when no interrupt comes in between its raw read and its
  swap. The swap cannot see one that comes before the record is read, nor one that arms the counter
  at the value that was recorded already.
  */
  lemma HonestReadExactlyWhen(c: Counter, ws: seq<Window>)
    requires Near(c) && TimelyLoop(c, ws) && OverflowsIn(LastAttempt(c, ws))
    ensures var r, a := ReadLoop(c, ws).c, LastAttempt(c, ws);
            Surplus(r) == RolledBackIn(a) >= 0 && (Honest(r) <==> Calm(a))
  {
    var a := LastAttempt(c, ws);
    ReadLoopSurplus(c, ws);
    RolledBackExactlyWhen(a.start, a.window.beforePrev);
    RolledBackExactlyWhen(Acts(a.start, a.window.beforePrev), a.window.beforeSwap);
  }

  /**
  What a stop credits: the events up to its record since the record at the start, and on top of
  them its surplus, less the surplus that was there at the start.
  */
  lemma CreditIsExactUpToSurplus(c: Counter, es: seq<Event>, ws: seq<Window>, late: Late)
    requires Near(c) && c.on && c.count == 0
    requires Timely(c, es) && TimelyStop(Acts(c, es), ws, late)
    ensures var z := ReadClockAndUpdate(Acts(c, es), ws, late);
            && z.ticks - c.ticks == (z.recorded - c.recorded) + Surplus(z) - Surplus(c)
            && Surplus(z) == if NoFreshRecord(late) then RolledBackIn(LastAttempt(Acts(c, es), ws)) else 0
  {
    var d := Acts(c, es);
    StopBalances(c, es, ws, late);
    ActsConserve(c, es);
    ReadLoopConserves(d, ws);
    ReadLoopSurplus(d, ws);
    LateActsSurplus(ReadLoop(d, ws).c, late);
  }

  /**
  Each event is credited once -- the clock grows by exactly the events between the two records --
  if and only if no interrupt falls between the raw read and the swap of the attempt that succeeds,
  or an update or interrupt between that swap and the reading of the event's count makes up for it.
  Otherwise the clock runs ahead, by as much as the interrupts took the counter back.
  */
  lemma EachEventIsCreditedOnceExactlyWhen(c: Counter, es: seq<Event>, ws: seq<Window>, late: Late)
    requires Near(c) && c.on && c.count == 0 && Honest(c)
    requires Timely(c, es) && TimelyStop(Acts(c, es), ws, late) && OverflowsIn(LastAttempt(Acts(c, es), ws))
    ensures var z, a := ReadClockAndUpdate(Acts(c, es), ws, late), LastAttempt(Acts(c, es), ws);
            && (z.ticks - c.ticks == z.recorded - c.recorded <==> Calm(a) || !NoFreshRecord(late))
            && (NoFreshRecord(late) ==> z.ticks - c.ticks == (z.recorded - c.recorded) + RolledBackIn(a))
            && RolledBackIn(a) >= 0
  {
    CreditIsExactUpToSurplus(c, es, ws, late);
    ActsConserve(c, es);
    HonestReadExactlyWhen(Acts(c, es), ws);
  }

  /** A surplus stays in the clock: with counting off nothing takes it back, and the reset forgets about it. */
  lemma SurplusStays(z: Counter, es: seq<Event>)
    requires !z.on
    ensures var r := ResetCurrentTicks(Acts(z, es), []);
            r.ticks == z.ticks && r.count == 0 && Pending(r) == 0 && Honest(r)
  {
    ActsKeepClock(z, es);
    QuietReset(Acts(z, es));
  }

  /** An undisturbed reset keeps the clock, and starts from an honest record with nothing pending. */
  lemma QuietReset(c: Counter)
    ensures var r := ResetCurrentTicks(c, []);
            && r.ticks == c.ticks && r.count == 0 && r.retired == c.retired && r.on == c.on
            && Pending(r) == 0 && Honest(r) && (Near(c) ==> Near(r))
  {
  }

  /** After a reset, and with no interrupt during the stop, the clock grows by exactly the events. */
  lemma QuietStopCreditsEveryEvent(c: Counter, es: seq<Event>)
    requires Near(c) && c.on && Timely(ResetCurrentTicks(c, []), es)
    ensures var z := ReadClockAndUpdate(Acts(ResetCurrentTicks(c, []), es), [], Late([], []));
            z.ticks - c.ticks == z.retired - c.retired
  {
    QuietReset(c);
    StopBalances(ResetCurrentTicks(c, []), es, [], Late([], []));
  }

  // ----- two reads that credit events twice

  /** Counting, with an honest record, and the counter has just wrapped. */
  ghost predicate Overflown(c: Counter) {
    Near(c) && c.on && c.count == 0 && Honest(c) && Position(c.raw) >= 0
  }

  /** Such counters exist: armed for n events, of which n + k have occurred. */
  lemma OverflownExists(n: nat, k: nat)
    requires 1 <= n <= X31 && k < X46
    ensures Overflown(Counter(k, Wrap64(0 - n), 0, 0, true, n + k, 0))
  {
    ArmedPosition(n);
  }

  lemma OneEvent(c: Counter, e: Event)
    ensures Acts(c, [e]) == Act(c, e)
    ensures e.Interrupt? && e.left <= X31 ==> Timely(c, [e]) && RolledBack(c, [e]) == Position(c.raw) + e.left
  {
    assert [e][1..] == [];
  }

  lemma Rearmed(c: Counter, left: nat)
    ensures var d := Act(c, Interrupt(left)); d.prev == Wrap64(0 - left) && d.retired == c.retired
  {
  }

  lemma BeforeRecord(c: Counter, left: nat)
    requires left <= X31
    ensures var w := Window([Interrupt(left)], []);
            && TimelyLoop(c, [w]) && LastAttempt(c, [w]) == Attempt(c, w)
            && RolledBackIn(Attempt(c, w)) == Position(c.raw) + left
            && ReadLoop(c, [w]).c.recorded == c.retired && ReadLoop(c, [w]).c.retired == c.retired
  {
    OneEvent(c, Interrupt(left));
    Rearmed(c, left);
  }

  lemma BeforeSwap(c: Counter, left: nat)
    requires left <= X31 && c.prev == Wrap64(0 - left)
    ensures var w := Window([], [Interrupt(left)]);
            && TimelyLoop(c, [w]) && LastAttempt(c, [w]) == Attempt(c, w)
            && RolledBackIn(Attempt(c, w)) == Position(c.raw) + left
            && ReadLoop(c, [w]).c.recorded == c.retired && ReadLoop(c, [w]).c.retired == c.retired
  {
    OneEvent(c, Interrupt(left));
    Rearmed(c, left);
  }

  /**
  An interrupt between the raw read and the read of the record arms the counter anew: its whole
  period is credited at once, on top of the events that the interrupt has credited already.
  */
  lemma InterruptBeforeRecordCreditsTwice(c: Counter, left: nat)
    requires Overflown(c) && 1 <= left <= X31
    ensures var z := ReadClockAndUpdate(c, [Window([Interrupt(left)], [])], Late([], []));
            z.retired == c.retired && z.ticks - c.ticks == (c.retired - c.recorded) + Position(c.raw) + left
  {
    var w := Window([Interrupt(left)], []);
    BeforeRecord(c, left);
    CreditIsExactUpToSurplus(c, [], [w], Late([], []));
  }

  /** So does an interrupt before the swap that arms the counter at the recorded value: the swap does not notice. */
  lemma InterruptAtTheSameValueCreditsTwice(c: Counter, left: nat)
    requires Overflown(c) && 1 <= left <= X31 && c.prev == Wrap64(0 - left)
    ensures var z := ReadClockAndUpdate(c, [Window([], [Interrupt(left)])], Late([], []));
            z.retired == c.retired && z.ticks - c.ticks == (c.retired - c.recorded) + Position(c.raw) + left
  {
    var w := Window([], [Interrupt(left)]);
    BeforeSwap(c, left);
    CreditIsExactUpToSurplus(c, [], [w], Late([], []));
  }

  /** With counting off the read takes the events out of the hardware and drops them. */
  lemma StoppedCounterDropsEvents(c: Counter, es: seq<Event>, ws: seq<Window>, late: Late)
    requires !c.on
    ensures ReadClockAndUpdate(Acts(c, es), ws, late).ticks == c.ticks
  {
    ActsKeepClock(c, es);
    ReadLoopKeepsClock(Acts(c, es), ws);
    var r := ReadLoop(Acts(c, es), ws).c;
    ActsKeepClock(r, late.beforeOff);
    ActsKeepClock(TurnOff(Acts(r, late.beforeOff)), late.beforeCount);
  }

  lemma {:induction false} ActsKeepClock(c: Counter, es: seq<Event>)
    requires !c.on
    ensures Acts(c, es).ticks == c.ticks && !Acts(c, es).on
    decreases |es|
  {
    if es == [] {
    } else {
      ActsKeepClock(Act(c, es[0]), es[1..]);
    }
  }

  lemma {:induction false} ReadLoopKeepsClock(c: Counter, ws: seq<Window>)
    requires !c.on
    ensures ReadLoop(c, ws).c.ticks == c.ticks && !ReadLoop(c, ws).c.on
    decreases |ws|
  {
    if ws == [] {
    } else {
      var d := Acts(c, ws[0].beforePrev);
      ActsKeepClock(c, ws[0].beforePrev);
      ActsKeepClock(d, ws[0].beforeSwap);
      ReadLoopKeepsClock(Acts(d, ws[0].beforeSwap), ws[1..]);
    }
  }
}
