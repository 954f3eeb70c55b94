/**
The bounded fence of src/module/bounded_tso.c and bounded_tso.h: near the end of a chunk the
counter interrupt hands over to single-stepping, so that the chunk ends at an exact instruction.
One field, `countTicks`, tells it all: 0 not counting, 1 counting, above 1 stepping.
*/
module Fences {
  import Periods

  const IMPRECISE_OVERFLOW_BUFFER := 200
  const BOUNDED_CHUNK_SIZE := 1024000000
  const IMPRECISE_BOUNDED_CHUNK_SIZE := BOUNDED_CHUNK_SIZE - IMPRECISE_OVERFLOW_BUFFER

  /** `signals` counts the signals sent to the process. */
  datatype Chunk = Chunk(
    ticks: nat, chunkTicks: nat, countTicks: nat, samplePeriod: nat, hitFence: bool, trapFlag: bool, signals: nat)

  predicate Stepping(c: Chunk) {
    c.countTicks > 1
  }

  predicate Counting(c: Chunk) {
    c.countTicks == 1
  }

  /** Past the imprecise bound: end the chunk now, or single-step what remains. */
  function BeginFence(c: Chunk, inNmi: bool): Chunk {
    var remaining := if c.chunkTicks > BOUNDED_CHUNK_SIZE then 0 else BOUNDED_CHUNK_SIZE - c.chunkTicks;
    if c.countTicks == 0 then c
    else if remaining == 0 then c.(countTicks := 0, hitFence := true, signals := c.signals + 1)
    else c.(trapFlag := c.trapFlag || !inNmi, countTicks := remaining + 2)
  }

  function IncClockTicks(c: Chunk, n: nat, inNmi: bool): Chunk {
    var d := c.(ticks := c.ticks + n, chunkTicks := c.chunkTicks + n);
    if d.chunkTicks > IMPRECISE_BOUNDED_CHUNK_SIZE then BeginFence(d, inNmi) else d
  }

  /** Never ask for a period that crosses the imprecise bound. */
  function BoundPeriod(c: Chunk, period: nat): int {
    if period + c.chunkTicks > IMPRECISE_BOUNDED_CHUNK_SIZE then IMPRECISE_BOUNDED_CHUNK_SIZE - c.chunkTicks else period
  }

  /** The next overflow period; `waiter` is the clock of the lowest waiting thread, or -1. */
  function UpdatePeriod(c: Chunk, waiter: int): Chunk
    requires Stepping(c) || c.hitFence || c.chunkTicks <= IMPRECISE_BOUNDED_CHUNK_SIZE
  {
    if Stepping(c) || c.hitFence then c.(samplePeriod := IMPRECISE_BOUNDED_CHUNK_SIZE)
    else c.(samplePeriod := Periods.Min(BoundPeriod(c, Periods.Wish(c.samplePeriod, c.ticks, waiter)),
        Periods.MAX_CLOCK_SAMPLE_PERIOD))
  }

  /** A new chunk: the old fence flag is still seen when the period is chosen, and cleared at the end. */
  function Enable(c: Chunk, waiter: int): Chunk {
    UpdatePeriod(c.(chunkTicks := 0, countTicks := 1, samplePeriod := 0), waiter).(hitFence := false)
  }

  /** The counter interrupt after `events` further instructions. */
  function Overflow(c: Chunk, events: nat, waiter: int): Chunk
    requires Counting(c)
  {
    var d := IncClockTicks(c, events, true);
    var p := UpdatePeriod(d, waiter);
    p.(trapFlag := p.trapFlag || Stepping(p))
  }

  /** One trap of the single-stepped program. */
  function SingleStep(c: Chunk): Chunk {
    if Stepping(c) then
      var d := c.(countTicks := c.countTicks - 1, ticks := c.ticks + 1);
      if d.countTicks <= 2 then d.(countTicks := 0, hitFence := true, trapFlag := false, signals := d.signals + 1)
          else d
    else if !c.hitFence && c.chunkTicks < BOUNDED_CHUNK_SIZE then c.(trapFlag := false)
    else c
  }

  /** The program ends the chunk itself while it is being stepped. */
  function EndEarly(c: Chunk): Chunk {
    c.(trapFlag := false, hitFence := true, countTicks := 0)
  }

  /** The stop operation, given the delta that the hardware reports. */
  function Stop(c: Chunk, delta: nat): Chunk {
    var d := if Stepping(c) then EndEarly(c) else c;
    var off := d.(countTicks := 0);
    if d.countTicks > 0 then IncClockTicks(off, delta, false) else off
  }

  // ----- runs from one enable to the end of the chunk

  /** Overflow: how many events, of which at least one; Trap: one single step. */
  datatype Happening = Overflowed(events: nat, waiter: int) | Trap

  ghost predicate Possible(c: Chunk, h: Happening) {
    match h
    case Overflowed(events, _) => Counting(c) && 1 <= events <= c.samplePeriod + IMPRECISE_OVERFLOW_BUFFER
    case Trap => Stepping(c)
  }

  function After(c: Chunk, h: Happening): Chunk
    requires h.Overflowed? ==> Counting(c)
  {
    match h
    case Overflowed(events, waiter) => Overflow(c, events, waiter)
    case Trap => SingleStep(c)
  }

  ghost predicate Reaches(c: Chunk, hs: seq<Happening>, d: Chunk)
    decreases |hs|
  {
    if hs == [] then c == d else Possible(c, hs[0]) && Reaches(After(c, hs[0]), hs[1..], d)
  }

  /** The state of a chunk that was enabled at clock `from` with `sent` signals sent before. */
  ghost predicate InChunk(c: Chunk, from: nat, sent: nat) {
    || (Counting(c) && !c.hitFence && c.signals == sent && c.ticks == from + c.chunkTicks
        && c.chunkTicks + c.samplePeriod <= IMPRECISE_BOUNDED_CHUNK_SIZE)
    || (Stepping(c) && !c.hitFence && c.signals == sent && c.trapFlag
        && 3 <= c.countTicks <= IMPRECISE_OVERFLOW_BUFFER + 1 && c.samplePeriod == 1023999800
        && c.ticks + (c.countTicks - 2) == from + BOUNDED_CHUNK_SIZE
        && IMPRECISE_BOUNDED_CHUNK_SIZE < c.chunkTicks < BOUNDED_CHUNK_SIZE)
    || (c.countTicks == 0 && c.hitFence && c.signals == sent + 1 && c.ticks == from + BOUNDED_CHUNK_SIZE)
  }

  lemma EnableStartsChunk(c: Chunk, waiter: int)
    ensures InChunk(Enable(c, waiter), c.ticks, c.signals) && Counting(Enable(c, waiter))
  {
  }

  lemma HappeningKeepsChunk(c: Chunk, h: Happening, from: nat, sent: nat)
    requires InChunk(c, from, sent) && Possible(c, h)
    ensures InChunk(After(c, h), from, sent) && After(c, h).ticks > c.ticks
  {
  }

  lemma {:induction false} RunKeepsChunk(c: Chunk, hs: seq<Happening>, d: Chunk, from: nat, sent: nat)
    requires InChunk(c, from, sent) && Reaches(c, hs, d)
    ensures InChunk(d, from, sent) && d.ticks >= c.ticks + |hs|
    decreases |hs|
  {
    if hs == [] {
    } else {
      HappeningKeepsChunk(c, hs[0], from, sent);
      RunKeepsChunk(After(c, hs[0]), hs[1..], d, from, sent);
    }
  }

  /**
  The exact fence: whatever the periods, the waiters and the skid, the signal arrives when the clock
  has grown by exactly the chunk size -- not before, at most once -- and it arrives after finitely
  many happenings; the stepping count never exceeds the skid allowance by more than one, and while
  stepping the period is out of reach of the steps that are left.
  */
  lemma ExactFence(c: Chunk, waiter: int, hs: seq<Happening>, d: Chunk)
    requires Reaches(Enable(c, waiter), hs, d)
    ensures d.signals == c.signals || d.signals == c.signals + 1
    ensures d.signals == c.signals + 1 <==> d.ticks == c.ticks + 1024000000
    ensures d.ticks <= c.ticks + 1024000000
    ensures d.countTicks <= 201
    ensures |hs| >= 1024000000 ==> d.signals == c.signals + 1
    ensures Stepping(d) ==> d.samplePeriod > d.countTicks
  {
    EnableStartsChunk(c, waiter);
    RunKeepsChunk(Enable(c, waiter), hs, d, c.ticks, c.signals);
  }

  /** Until the signal something can always happen: an overflow, or a trap that is really armed. */
  lemma FenceMakesProgress(c: Chunk, waiter: int, hs: seq<Happening>, d: Chunk)
    requires Reaches(Enable(c, waiter), hs, d) && d.signals == c.signals
    ensures Possible(d, Overflowed(1, waiter)) || (Possible(d, Trap) && d.trapFlag)
  {
    EnableStartsChunk(c, waiter);
    RunKeepsChunk(Enable(c, waiter), hs, d, c.ticks, c.signals);
  }

  /**
  The skid bound is what it takes: an overflow that lands beyond the chunk size ends the chunk too
  late, by exactly the excess; one that lands within it leaves an exact end possible.
  */
  lemma LateExactlyWhenSkidTooLarge(c: Chunk, from: nat, sent: nat, events: nat, waiter: int)
    requires InChunk(c, from, sent) && Counting(c) && events >= 1
    ensures var d := Overflow(c, events, waiter);
            && (InChunk(d, from, sent) <==> c.chunkTicks + events <= BOUNDED_CHUNK_SIZE)
            && (c.chunkTicks + events > BOUNDED_CHUNK_SIZE ==>
                  d.signals == sent + 1 && d.ticks == from + c.chunkTicks + events)
  {
  }

  /** The period never crosses the imprecise bound, so the bound's subtraction never underflows. */
  lemma ChunkSafePeriod(c: Chunk, waiter: int, hs: seq<Happening>, d: Chunk)
    requires Reaches(Enable(c, waiter), hs, d) && Counting(d) && !d.hitFence
    ensures d.chunkTicks + d.samplePeriod <= IMPRECISE_BOUNDED_CHUNK_SIZE
    ensures forall period: nat :: 0 <= BoundPeriod(d, period) <= period
  {
    EnableStartsChunk(c, waiter);
    RunKeepsChunk(Enable(c, waiter), hs, d, c.ticks, c.signals);
  }

  /**
  Stopping counts every instruction once. While stepping, what was stepped is in the clock already
  and the hardware's delta for the same instructions is discarded, whatever it is; otherwise the
  delta is credited. Either way no signal is sent and nothing counts any more.
  */
  lemma StopCountsOnce(c: Chunk, waiter: int, hs: seq<Happening>, d: Chunk, delta: nat)
    requires Reaches(Enable(c, waiter), hs, d)
    ensures var z := Stop(d, delta);
            && z.ticks == d.ticks + (if Counting(d) then delta else 0)
            && z.countTicks == 0 && z.signals == d.signals
            && (Stepping(d) ==> z.hitFence && !z.trapFlag)
  {
    EnableStartsChunk(c, waiter);
    RunKeepsChunk(Enable(c, waiter), hs, d, c.ticks, c.signals);
  }

  /** The trap flag is set exactly while the chunk is single-stepped. */
  lemma {:induction false} TrapExactlyWhileStepping(c: Chunk, hs: seq<Happening>, d: Chunk, from: nat, sent: nat)
    requires InChunk(c, from, sent) && Reaches(c, hs, d) && (c.trapFlag <==> Stepping(c))
    ensures d.trapFlag <==> Stepping(d)
    decreases |hs|
  {
    if hs != [] {
      HappeningKeepsChunk(c, hs[0], from, sent);
      TrapExactlyWhileStepping(After(c, hs[0]), hs[1..], d, from, sent);
    }
  }

  lemma ChunkTraps(c: Chunk, waiter: int, hs: seq<Happening>, d: Chunk)
    requires Reaches(Enable(c, waiter), hs, d) && !c.trapFlag
    ensures d.trapFlag <==> Stepping(d)
  {
    EnableStartsChunk(c, waiter);
    TrapExactlyWhileStepping(Enable(c, waiter), hs, d, c.ticks, c.signals);
  }

  /** A trap without a countdown costs nothing; before the end of the chunk it takes the flag back. */
  lemma StrayTrap(c: Chunk)
    requires !Stepping(c)
    ensures SingleStep(c) == c.(trapFlag := c.trapFlag && (c.hitFence || c.chunkTicks >= 1024000000))
  {
  }

  /** The countdown covers what is left, and outside an interrupt the trap flag is set at once. */
  lemma CountdownBegins(c: Chunk, inNmi: bool)
    requires c.countTicks > 0
    ensures var d, left := BeginFence(c, inNmi), 1024000000 - c.chunkTicks;
            if left > 0 then d == c.(countTicks := left + 2, trapFlag := c.trapFlag || !inNmi)
            else d == c.(countTicks := 0, hitFence := true, signals := c.signals + 1)
  {
  }

  /** The period of a counting chunk: the usual one, but not beyond the imprecise bound. */
  lemma FencePeriod(c: Chunk, waiter: int)
    requires !Stepping(c) && !c.hitFence && c.chunkTicks <= 1023999800
    ensures var left, usual := 1023999800 - c.chunkTicks, Periods.Choose(c.samplePeriod, c.ticks, waiter);
            UpdatePeriod(c, waiter).samplePeriod == if usual < left then usual else if left < 200000 then left
                else 200000
  {
  }

  /** A chunk begins with a period grown from nothing -- or, after a fence, one that is out of reach. */
  lemma FirstFencePeriod(c: Chunk, waiter: int)
    ensures Enable(c, waiter).samplePeriod == if c.hitFence then 1023999800 else Periods.Choose(0, c.ticks, waiter)
  {
  }

  /** How many single steps a run contains. */
  function Steps(hs: seq<Happening>): nat {
    if hs == [] then 0 else (if hs[0].Trap? then 1 else 0) + Steps(hs[1..])
  }

  /** The clock is the counted part of the chunk plus the steps taken, throughout. */
  lemma {:induction false} ClockIsCountedPlusStepped(c: Chunk, hs: seq<Happening>, d: Chunk)
    requires Reaches(c, hs, d)
    ensures d.ticks - d.chunkTicks == c.ticks - c.chunkTicks + Steps(hs)
    decreases |hs|
  {
    if hs == [] {
    } else {
      ClockIsCountedPlusStepped(After(c, hs[0]), hs[1..], d);
    }
  }

  /** Early stop: a chunk ended while stepping has credited its counted ticks plus its steps. */
  lemma EarlyStopCreditsCountedPlusStepped(c: Chunk, waiter: int, hs: seq<Happening>, d: Chunk, delta: nat)
    requires Reaches(Enable(c, waiter), hs, d) && Stepping(d)
    ensures Stop(d, delta).ticks == c.ticks + d.chunkTicks + Steps(hs)
  {
    ClockIsCountedPlusStepped(Enable(c, waiter), hs, d);
    StopCountsOnce(c, waiter, hs, d, delta);
  }
}
