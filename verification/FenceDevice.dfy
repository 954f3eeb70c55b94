/**
The bounded fence as the source runs it, on one thread's fields, the trap flag and the shared
fence flag; each method is proved to take `View()` where the function in Fence.dfy says.
*/
module FenceDevices {
  import opened Fences
  import Periods

  class FenceDevice {
    var ticks: nat
    var chunkTicks: nat
    var countTicks: nat
    var samplePeriod: nat
    var hitFence: bool
    var trapFlag: bool
    ghost var signals: nat

    ghost function View(): Chunk
      reads this
    {
      Chunk(ticks, chunkTicks, countTicks, samplePeriod, hitFence, trapFlag, signals)
    }

    constructor ()
      ensures View() == Chunk(0, 0, 0, 0, false, false, 0)
    {
      ticks, chunkTicks, countTicks, samplePeriod := 0, 0, 0, 0;
      hitFence, trapFlag := false, false;
      signals := 0;
    }

    method BeginBoundedMemoryFence(inNmi: bool)
      modifies this
      ensures View() == BeginFence(old(View()), inNmi)
    {
      var remaining := if chunkTicks > BOUNDED_CHUNK_SIZE then 0 else BOUNDED_CHUNK_SIZE - chunkTicks;
      if countTicks != 0 {
        if remaining == 0 {
          countTicks := 0;
          hitFence := true;
          signals := signals + 1;
        } else {
          if !inNmi {
            trapFlag := true;
          }
          countTicks := remaining + 2;
        }
      }
    }

    method IncTicks(n: nat, inNmi: bool)
      modifies this
      ensures View() == IncClockTicks(old(View()), n, inNmi)
    {
      ticks := ticks + n;
      chunkTicks := chunkTicks + n;
      if chunkTicks > IMPRECISE_BOUNDED_CHUNK_SIZE {
        BeginBoundedMemoryFence(inNmi);
      }
    }

    /** `stepped` tells the trap handler that the trap was ours. */
    method OnSingleStep() returns (stepped: bool)
      modifies this
      ensures View() == SingleStep(old(View()))
      ensures stepped <==> old(Stepping(View()) || hitFence || chunkTicks < BOUNDED_CHUNK_SIZE)
    {
      stepped := false;
      if countTicks > 1 {
        countTicks := countTicks - 1;
        ticks := ticks + 1;
        if countTicks <= 2 {
          trapFlag := false;
          countTicks := countTicks - 1;
          countTicks := 0;
          hitFence := true;
          signals := signals + 1;
          trapFlag := false;
        }
        stepped := true;
      } else if hitFence {
        stepped := true;
      } else if chunkTicks < BOUNDED_CHUNK_SIZE {
        trapFlag := false;
        stepped := true;
      }
    }

    method EndBoundedMemoryFenceEarly()
      modifies this
      ensures View() == EndEarly(old(View()))
    {
      trapFlag := false;
      hitFence := true;
      countTicks := 0;
    }

    /** The subtraction that bounds the period is done on unsigned words: it must not underflow. */
    method UpdateOverflowPeriod(waiter: int)
      requires Stepping(View()) || hitFence || chunkTicks <= IMPRECISE_BOUNDED_CHUNK_SIZE
      modifies this`samplePeriod
      ensures View() == UpdatePeriod(old(View()), waiter)
    {
      if countTicks > 1 || hitFence {
        samplePeriod := IMPRECISE_BOUNDED_CHUNK_SIZE;
      } else {
        var period := samplePeriod + Periods.PERIOD_STEP;
        if waiter > ticks {
          period := Periods.Max(waiter - ticks + Periods.WAITER_MARGIN, Periods.MIN_CLOCK_SAMPLE_PERIOD);
        }
        if period + chunkTicks > IMPRECISE_BOUNDED_CHUNK_SIZE {
          period := IMPRECISE_BOUNDED_CHUNK_SIZE - chunkTicks;
        }
        samplePeriod := Periods.Min(period, Periods.MAX_CLOCK_SAMPLE_PERIOD);
      }
    }

    method OnEnable(waiter: int)
      modifies this
      ensures View() == Enable(old(View()), waiter)
    {
      chunkTicks := 0;
      countTicks := 1;
      samplePeriod := 0;
      UpdateOverflowPeriod(waiter);
      hitFence := false;
    }

    method OverflowInterrupt(events: nat, waiter: int)
      requires Counting(View()) && chunkTicks <= IMPRECISE_BOUNDED_CHUNK_SIZE
      modifies this
      ensures View() == Overflow(old(View()), events, waiter)
    {
      IncTicks(events, true);
      UpdateOverflowPeriod(waiter);
      if countTicks > 1 {
        trapFlag := true;
      }
    }

    method EntryStop(delta: nat)
      modifies this
      ensures View() == Fences.Stop(old(View()), delta)
    {
      if countTicks > 1 {
        EndBoundedMemoryFenceEarly();
      }
      var wasOn := countTicks != 0;
      countTicks := 0;
      if wasOn {
        IncTicks(delta, false);
      }
    }
  }
}
