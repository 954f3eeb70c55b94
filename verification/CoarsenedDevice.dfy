/**
The user-space library's global record for coarsened transactions, updated in place. `kernel` is
the kernel's clock of the thread; `counter` is its hardware counter, which user space reads itself.
*/
module CoarsenedDevices {
  import C = CoarsenedClock
  import opened CounterDevices
  import opened Counters

  class TaskClock {
    const counter: CounterDevice
    var published: int
    var coarsened: nat
    var lastRaw: nat
    var currentRaw: nat
    var lastValue: int
    var inTx: bool
    var disabled: bool
    var lowestClock: bool
    var kernel: int

    ghost function View(): C.User
      reads this
    {
      C.User(kernel, published, coarsened, lastRaw, lastValue, inTx)
    }

    constructor (counter: CounterDevice, kernel: int)
      ensures this.counter == counter && View() == C.User(kernel, kernel, 0, 0, 0, false)
    {
      this.counter := counter;
      this.kernel, published, lastValue := kernel, kernel, 0;
      coarsened, lastRaw, currentRaw := 0, 0, 0;
      inTx, disabled, lowestClock := false, false, false;
    }

    method ReadClock() returns (r: int)
      ensures r == C.Read(View())
    {
      r := published + coarsened;
    }

    /**
    The first start of a block has the kernel arm the counter; every start notes the reading.
    `ws` and `es` are what happens during the kernel's own read and before the reading.
    */
    method StartNoNotify(ws: seq<Window>, es: seq<Event>)
      modifies this, counter
      ensures View() == C.StartNoNotify(old(View()), counter.raw)
      ensures counter.View() == Acts(if old(inTx) then old(counter.View()) else HandToUserSpace(old(counter.View()),
          ws), es)
      ensures !old(inTx) ==> !disabled && !lowestClock
    {
      if !inTx {
        disabled := false;
        lowestClock := false;
        lastValue := ReadClock();
        counter.StartNoNotify(ws);
        inTx := true;
      } else {
        lastValue := ReadClock();
      }
      counter.Interfere(es);
      lastRaw := counter.raw;
    }

    method StopNoNotify(es: seq<Event>) returns (size: nat)
      modifies this`coarsened, this`currentRaw, counter
      ensures View() == C.StopNoNotify(old(View()), counter.raw)
      ensures counter.View() == Acts(old(counter.View()), es)
      ensures size == Residue48(counter.raw - lastRaw)
    {
      counter.Interfere(es);
      var raw := counter.raw;
      size := UserDelta(raw, lastRaw);
      UserDeltaIsResidue(raw, lastRaw);
      coarsened := Wrap64(coarsened + size);
      currentRaw := raw;
    }

    method EndCoarsenedTx()
      modifies this
      ensures View() == C.EndTx(old(View()))
    {
      if coarsened > 0 {
        var ticks := C.ToInt32(coarsened);
        AddTicksInKernel(ticks);
      }
      inTx := false;
      coarsened := 0;
    }

    /** The system call: the kernel moves its clock and publishes it. */
    method AddTicksInKernel(ticks: int)
      modifies this`kernel, this`published
      ensures View() == C.AddTicks(old(View()), ticks)
    {
      kernel := kernel + ticks;
      published := kernel;
    }
  }
}
