/**
The counter as the source handles it: fields changed in place, and the read loop that retries its
compare-and-swap until no interrupt gets in between. `Interfere` stands for what the hardware and
the kernel do meanwhile.
*/
module CounterDevices {
  import opened Counters

  class CounterDevice {
    var raw: nat
    var prevCount: nat
    var eventCount: int
    var ticks: int
    var counting: bool
    ghost var retired: nat
    ghost var recorded: nat

    ghost function View(): Counter
      reads this
    {
      Counter(raw, prevCount, eventCount, ticks, counting, retired, recorded)
    }

    constructor ()
      ensures View() == Counter(0, 0, 0, 0, false, 0, 0)
    {
      raw, prevCount, eventCount, ticks, counting := 0, 0, 0, 0, false;
      retired, recorded := 0, 0;
    }

    /** One event of the environment. */
    method Happen(e: Event)
      modifies this
      ensures View() == Act(old(View()), e)
    {
      match e
      case Retire(n) =>
        raw := Advanced(raw, n);
        retired := retired + n;
      case Update =>
        KernelUpdate();
      case Interrupt(left) =>
        KernelUpdate();
        if counting {
          UpdateTicks();
        }
        raw := CounterSetTo(left);
        prevCount := Wrap64(0 - left);
        recorded := retired;
    }

    method Interfere(es: seq<Event>)
      modifies this
      ensures View() == Acts(old(View()), es)
    {
      var k := 0;
      while k < |es|
        invariant k <= |es| && Acts(View(), es[k..]) == Acts(old(View()), es)
      {
        assert es[k..][0] == es[k] && es[k..][1..] == es[k+1..];
        Happen(es[k]);
        k := k + 1;
      }
    }

    method KernelUpdate()
      modifies this
      ensures View() == UpdateEvent(old(View()))
    {
      var delta := KernelDelta(raw, prevCount);
      eventCount := eventCount + delta;
      prevCount := raw;
      recorded := retired;
    }

    method UpdateTicks()
      modifies this
      ensures View() == UpdateClockTicks(old(View()))
    {
      ticks := ticks + eventCount;
      eventCount := 0;
    }

    /** Read, and swap the record for the value read unless an interrupt has replaced it meanwhile. */
    method ReadPerformanceCounter(ws: seq<Window>) returns (now: nat, prev: nat)
      modifies this
      ensures Reading(View(), now, prev) == ReadLoop(old(View()), ws)
    {
      var k := 0;
      now, prev := 0, 0;
      while true
        invariant k <= |ws| && ReadLoop(View(), ws[k..]) == ReadLoop(old(View()), ws)
        decreases |ws| - k
      {
        now := raw;
        ghost var seen := retired;
        if k < |ws| {
          Interfere(ws[k].beforePrev);
        }
        prev := prevCount;
        if k < |ws| {
          Interfere(ws[k].beforeSwap);
        }
        if prevCount == prev {
          prevCount := now;
          recorded := seen;
          return;
        }
        assert ws[k..][1..] == ws[k+1..];
        k := k + 1;
      }
    }

    method ReadClockAndUpdate(ws: seq<Window>, late: Late)
      modifies this
      ensures View() == Counters.ReadClockAndUpdate(old(View()), ws, late)
    {
      var wasOn := counting;
      var now, prev := ReadPerformanceCounter(ws);
      Interfere(late.beforeOff);
      counting := false;
      Interfere(late.beforeCount);
      var delta := KernelDelta(now, prev);
      delta := delta + eventCount;
      eventCount := 0;
      if wasOn {
        ticks := ticks + delta;
      }
    }

    method ResetCurrentTicks(ws: seq<Window>)
      modifies this
      ensures View() == Counters.ResetCurrentTicks(old(View()), ws)
      ensures !old(counting) || ws == [] ==> ticks == old(ticks)
      ensures eventCount == 0 && (ws == [] ==> Pending(View()) == 0 && Honest(View()))
    {
      if !counting {
        ReadLoopKeepsClock(View(), ws);
      }
      var now, prev := ReadPerformanceCounter(ws);
      eventCount := 0;
    }

    /** The kernel's side of the start that does not notify. */
    method StartNoNotify(ws: seq<Window>)
      modifies this
      ensures View() == HandToUserSpace(old(View()), ws)
      ensures Position(raw) == 0 - 0x7fff_ffff && Honest(View()) && !counting
    {
      ghost var c := View();
      ResetCurrentTicks(ws);
      SetPerfCounter(ARMED);
      counting := false;
      HandedOverIsArmed(c, ws);
    }

    /** Arm the counter: after k < 2^47 further events either delta reads exactly k. */
    method SetPerfCounter(val: nat)
      modifies this`raw, this`prevCount, this`eventCount, this`recorded
      ensures View() == Rearm(old(View()), val).(count := 0)
      ensures forall k: nat :: k < X47 ==> KernelDelta(Advanced(raw, k), prevCount) == k
    {
      raw := CounterSetTo(val);
      eventCount := 0;
      prevCount := Wrap64(0 - val);
      recorded := retired;
      forall k: nat | k < X47 ensures KernelDelta(Advanced(raw, k), prevCount) == k {
        SetThenRead(val, k);
      }
    }
  }
}
