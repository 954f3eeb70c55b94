/**
The group of src/module/clock_main.c as the source has it: records, shared pages and list
updated in place, searches that loop over the list or over the indices. Every operation is
proved to take `View()` where the function of the same name in Protocol.dfy says.
*/
module Groups {
  import opened ListArrays
  import opened Clocks
  import P = Protocol
  import Grants
  import SleepLoop
  import Periods

  class Group {
    var clocks: array<Entry>
    var status: array<Status>
    var active: ListArray
    var lowestTid: int
    var lowestTicks: nat
    var notificationNeeded: bool
    var nmiNewLow: bool
    var queued: bool

    /** What the steps that touch no list need. */
    ghost predicate Shape(cur: int)
      reads this
    {
      0 <= cur < clocks.Length == status.Length <= STACK_SLOTS && -1 <= lowestTid < clocks.Length
    }

    /** What the searches need. */
    ghost predicate Searchable()
      reads this, active, active.entries
    {
      && active.Valid()
      && InRange(active.Contents, clocks.Length) && active.maxIndex < clocks.Length <= STACK_SLOTS
    }

    ghost function View(): State
      reads this, clocks, status, active
    {
      State(clocks[..], status[..], active.Contents, active.maxIndex,
            lowestTid, lowestTicks, notificationNeeded, nmiNewLow, queued)
    }

    ghost predicate Valid()
      reads this, clocks, status, active, active.entries
    {
      active.Valid() && 0 < clocks.Length && WF(View())
    }

    ghost predicate Thread(cur: int)
      reads this, clocks, status, active, active.entries
    {
      Valid() && 0 <= cur < clocks.Length
    }

    /** A new group: nobody listed, nobody lowest, and the first notification still owed. */
    constructor (threads: nat)
      requires 0 < threads <= STACK_SLOTS
      ensures Valid() && fresh(clocks) && fresh(status) && fresh(active) && fresh(active.entries)
      ensures View() == Initially(threads)
    {
      clocks := new Entry[threads](i => UNUSED_ENTRY);
      status := new Status[threads](i => Status(false, 0, false, false));
      active := new ListArray();
      lowestTid, lowestTicks := -1, 0;
      notificationNeeded, nmiNewLow, queued := true, false, false;
    }

    // ----- src/module/search_entries.h

    method ClockIsLower(i: int, j: int) returns (lower: bool)
      requires 0 <= i < clocks.Length && 0 <= j < clocks.Length
      ensures lower <==> clocks[i].Clock() < clocks[j].Clock() || (clocks[i].Clock() == clocks[j].Clock() && i < j)
    {
      lower := clocks[i].Clock() < clocks[j].Clock() || (clocks[i].Clock() == clocks[j].Clock() && i < j);
    }

    method SearchIndices(w: Wanted) returns (min: int)
      requires Searchable()
      ensures min == Scan(w, clocks[..], UpTo(active.maxIndex + 1))
    {
      min := -1;
      for i := 0 to active.maxIndex + 1
        invariant min == Scan(w, clocks[..], UpTo(i))
      {
        assert UpTo(i + 1)[..i] == UpTo(i);
        min := Visit(w, i, min);
      }
    }

    method SearchList(w: Wanted) returns (min: int)
      requires Searchable()
      ensures min == Scan(w, clocks[..], active.Contents)
    {
      min := -1;
      var i := active.head;
      ghost var k := 0;
      while i != NULL
        invariant k <= |active.Contents| && i == Nth(active.Contents, k)
        invariant min == Scan(w, clocks[..], active.Contents[..k])
        decreases |active.Contents| - k
      {
        assert active.Contents[..k + 1][..k] == active.Contents[..k];
        min := Visit(w, i, min);
        i := active.Next(i, k);
        k := k + 1;
      }
      assert active.Contents[..k] == active.Contents;
    }

    /** The lowest searches: over the indices inside an interrupt, over the list elsewhere. */
    method Search(w: Wanted, inNmi: bool) returns (min: int)
      requires Searchable()
      ensures min == Scan(w, clocks[..], if inNmi then UpTo(active.maxIndex + 1) else active.Contents)
      ensures IsMinimum(w, clocks[..], if inNmi then UpTo(active.maxIndex + 1) else active.Contents, min)
    {
      if inNmi {
        min := SearchIndices(w);
        ScanIsMinimum(w, clocks[..], UpTo(active.maxIndex + 1));
      } else {
        min := SearchList(w);
        ScanIsMinimum(w, clocks[..], active.Contents);
      }
    }

    /** The body that both loops share. */
    method Visit(w: Wanted, i: int, min: int) returns (next: int)
      requires 0 <= i < clocks.Length && -1 <= min < clocks.Length
      ensures next == if Admits(w, clocks[i], i) && (min < 0 || Before(StampOf(clocks[..], i), StampOf(clocks[..],
          min)))
                      then i else min
    {
      next := min;
      if Admits(w, clocks[i], i) {
        var lower := true;
        if min >= 0 {
          lower := ClockIsLower(i, min);
        }
        if lower {
          next := i;
        }
      }
    }

    /**
    Mark the waiting threads in an array that nobody cleared, find the minimum, and let it
    through if its slot holds a mark. `stack` is what the array held at the start.
    */
    method SearchForLowestWaiting() returns (low: int, ghost stack: seq<int>)
      requires Searchable()
      ensures |stack| == STACK_SLOTS && low == LowestMarked(View(), stack)
      ensures low == -1 || low == Lowest(View())
      ensures var m := Lowest(View()); m >= 0 && View().clocks[m].waiting ==> low == m
    {
      var marks := new int[STACK_SLOTS];
      stack := marks[..];
      var i := active.head;
      ghost var k := 0;
      while i != NULL
        invariant k <= |active.Contents| && i == Nth(active.Contents, k)
        invariant forall j :: 0 <= j < k && clocks[active.Contents[j]].waiting ==> marks[active.Contents[j]] == 1
        invariant forall m ::
              0 <= m < STACK_SLOTS && marks[m] != stack[m] ==> m < clocks.Length && clocks[m].waiting && marks[m] == 1
        decreases |active.Contents| - k
      {
        if clocks[i].waiting {
          marks[i] := 1;
        }
        i := active.Next(i, k);
        k := k + 1;
      }
      low := Search(AnyLive, false);
      low := if low >= 0 && marks[low] == 1 then low else -1;
    }

    method ActiveThreadCount() returns (n: nat)
      requires Valid()
      ensures n == AwakeCount(View().clocks, View().active)
      ensures n == |AwakeSet(View().clocks, View().active)|
    {
      n := 0;
      ghost var c := clocks[..];
      var i := active.head;
      ghost var k := 0;
      while i != NULL
        invariant k <= |active.Contents| && i == Nth(active.Contents, k)
        invariant n == AwakeCount(c, active.Contents[..k])
        decreases |active.Contents| - k
      {
        assert active.Contents[..k + 1][..k] == active.Contents[..k];
        if clocks[i].Live() && !clocks[i].sleeping {
          n := n + 1;
        }
        i := active.Next(i, k);
        k := k + 1;
      }
      assert active.Contents[..k] == active.Contents;
      AwakeCountIsCardinality(c, active.Contents);
    }

    // ----- src/module/clock_main.c

    method NewLowest(tid: int, inNmi: bool) returns (low: int)
      requires Thread(tid)
      ensures low == P.NewLowest(View(), tid, if inNmi then UpTo(active.maxIndex + 1) else View().active)
    {
      low := -1;
      if lowestTid == -1 {
        low := Search(AnyLive, inNmi);
      } else if tid == lowestTid {
        var min := Search(AnyLive, inNmi);
        if min != tid {
          low := min;
        }
      } else {
        var lower := ClockIsLower(tid, lowestTid);
        if lower {
          low := tid;
        }
      }
    }

    method ClearEntryState(i: int)
      requires Shape(i)
      modifies clocks
      ensures View() == P.ClearEntryState(old(View()), i)
    {
      clocks[i] := clocks[i].(inactive := false);
      clocks[i] := clocks[i].(waiting := false);
      clocks[i] := clocks[i].(sleeping := false);
    }

    method WakeUpWaitingThread(tid: int)
      requires Shape(tid) && tid == lowestTid && WF(View())
      modifies clocks, status
      ensures View() == P.Deliver(P.Outcome(old(View()), tid))
    {
      if clocks[lowestTid].sleeping {
        clocks[tid] := clocks[tid].(pollIn := true);
      } else {
        status[lowestTid] := status[lowestTid].(lowestClock := true);
      }
    }

    method SetCurrentThreadToLowest(cur: int)
      requires Shape(cur)
      modifies this`notificationNeeded, this`lowestTicks, clocks, status
      ensures View() == P.ClearEntryState(old(View()), cur).(
                          status := old(status[..])[cur := old(status[cur]).(lowestClock := true)],
                          notificationNeeded := false, lowestTicks := old(clocks[cur]).Clock())
    {
      status[cur] := status[cur].(lowestClock := true);
      notificationNeeded := false;
      ClearEntryState(cur);
      lowestTicks := clocks[cur].Clock();
    }

    /** Record the new lowest, and arm a notification if the record changes. */
    method RecordLowest(low: int)
      modifies this`lowestTid, this`notificationNeeded
      ensures View() == P.Record(old(View()), low)
    {
      if low != lowestTid {
        notificationNeeded := true;
        lowestTid := low;
      }
    }

    /** The caller is the recorded lowest and takes the turn, or it waits and maybe notifies. */
    method GrantOrNotify(cur: int) returns (wake: int)
      requires Shape(cur) && clocks[cur].waiting && WF(View())
      modifies this`lowestTicks, this`notificationNeeded, this`nmiNewLow, clocks, status
      ensures P.Outcome(View(), wake) == P.Settle(old(View()), cur, lowestTid, false)
    {
      wake := -1;
      if lowestTid >= 0 && lowestTid == cur {
        SetCurrentThreadToLowest(cur);
      } else {
        wake := NotifyLowest(cur);
      }
      if lowestTid >= 0 {
        lowestTicks := clocks[lowestTid].Clock();
      }
    }

    /** The caller is not the lowest: take back its grant, and find out whom to notify. */
    method NotifyLowest(cur: int) returns (wake: int)
      requires Shape(cur)
      modifies this`notificationNeeded, this`nmiNewLow, status
      ensures wake == if lowestTid >= 0 && clocks[lowestTid].waiting && old(notificationNeeded) then lowestTid else -1
      ensures status[..] == old(status[..])[cur := old(status[cur]).(lowestClock := false)]
      ensures notificationNeeded == (old(notificationNeeded) && wake < 0)
      ensures nmiNewLow == (old(nmiNewLow) && wake < 0)
    {
      wake := -1;
      status[cur] := status[cur].(lowestClock := false);
      if lowestTid >= 0 && clocks[lowestTid].waiting && notificationNeeded {
        nmiNewLow := false;
        notificationNeeded := false;
        wake := lowestTid;
      }
    }

    method SettleLowest(cur: int, low: int) returns (wake: int)
      requires Shape(cur) && clocks[cur].waiting && -1 <= low < clocks.Length && WF(View())
      modifies this`lowestTid, this`lowestTicks, this`notificationNeeded, this`nmiNewLow, clocks, status
      ensures P.Outcome(View(), wake) == P.Settle(old(View()), cur, low, false)
    {
      ghost var s := View();
      RecordLowest(low);
      wake := GrantOrNotify(cur);
      P.RecordThenSettle(s, cur, low);
    }

    /** The general branch: wait, look for the lowest, and settle who it is. */
    method JoinWaiters(cur: int) returns (wake: int, ghost stack: seq<int>)
      requires Thread(cur) && !P.OnlyActive(View(), cur)
      modifies this`lowestTid, this`lowestTicks, this`notificationNeeded, this`nmiNewLow, clocks, status
      ensures |stack| == STACK_SLOTS
      ensures P.Outcome(View(), wake) == P.Decide(old(View()), cur, stack)
    {
      ghost var s := View();
      clocks[cur] := clocks[cur].(waiting := true);
      assert View() == P.Waiting(s, cur);
      var low;
      low, stack := SearchForLowestWaiting();
      wake := SettleLowest(cur, low);
      P.SettleOverwritesWaiting(s, cur, low);
    }

    method BeAlone(cur: int)
      requires Thread(cur) && P.OnlyActive(View(), cur)
      modifies this`lowestTicks, this`notificationNeeded, clocks, status
      ensures forall stack: seq<int> | |stack| == STACK_SLOTS :: P.Outcome(View(), -1) == P.Decide(old(View()), cur,
          stack)
    {
      status[cur] := status[cur].(singleActive := true);
      SetCurrentThreadToLowest(cur);
    }

    method DetermineLowestAndNotifyOrWait(cur: int) returns (wake: int, ghost stack: seq<int>)
      requires Thread(cur)
      modifies this`lowestTid, this`lowestTicks, this`notificationNeeded, this`nmiNewLow, clocks, status
      ensures |stack| == STACK_SLOTS
      ensures P.Outcome(View(), wake) == P.Determine(old(View()), cur, stack)
    {
      ghost var s := View();
      status[cur] := status[cur].(ticks := clocks[cur].Clock());
      assert View() == P.Publish(s, cur);
      var n := active.Count();
      if n == 1 && !clocks[cur].inactive {
        BeAlone(cur);
        wake, stack := -1, seq(STACK_SLOTS, i => 0);
      } else {
        wake, stack := JoinWaiters(cur);
      }
    }

    method UpdateOverflowPeriod(cur: int, inNmi: bool)
      requires Thread(cur)
      modifies clocks
      ensures View() == P.UpdatePeriod(old(View()), cur, if inNmi then UpTo(active.maxIndex + 1) else active.Contents)
    {
      var period := clocks[cur].samplePeriod + Periods.PERIOD_STEP;
      var waiter := Search(WaitingExcept(cur), inNmi);
      if waiter >= 0 {
        var mine, theirs := clocks[cur].Clock(), clocks[waiter].Clock();
        if theirs > mine {
          period := Periods.Max(theirs - mine + Periods.WAITER_MARGIN, Periods.MIN_CLOCK_SAMPLE_PERIOD);
        }
      }
      clocks[cur] := clocks[cur].(samplePeriod := Periods.Min(period, Periods.MAX_CLOCK_SAMPLE_PERIOD));
    }

    /** Credit `delta` counted instructions to the clock and to the current chunk. */
    method IncClockTicks(cur: int, delta: nat)
      requires Shape(cur)
      modifies clocks
      ensures View() == P.Count(old(View()), cur, delta)
    {
      clocks[cur] := clocks[cur].(ticks := clocks[cur].ticks + delta);
      clocks[cur] := clocks[cur].(chunkTicks := clocks[cur].chunkTicks + delta);
    }

    method EntryOverflowUpdatePeriod(cur: int, delta: nat)
      requires Thread(cur)
      modifies clocks
      ensures Valid() && View() == P.OverflowUpdatePeriod(old(View()), cur, delta)
    {
      if !clocks[cur].counting {
        return;
      }
      IncClockTicks(cur, delta);
      UpdateOverflowPeriod(cur, true);
    }

    method OverflowHandler(cur: int)
      requires Thread(cur)
      modifies this`nmiNewLow, this`queued
      ensures Valid() && View() == P.OverflowHandler(old(View()), cur)
    {
      if !clocks[cur].counting {
        return;
      }
      var low := NewLowest(cur, true);
      if low >= 0 && low != cur && !nmiNewLow {
        if clocks[low].waiting {
          nmiNewLow := true;
          queued := true;
        }
      }
    }

    /** The scheduled work runs, and is no longer scheduled. */
    method NotifyWaitingThreads() returns (wake: int, ghost stack: seq<int>)
      requires Valid()
      modifies this`lowestTid, this`lowestTicks, this`notificationNeeded, this`nmiNewLow, this`queued, clocks, status
      ensures |stack| == STACK_SLOTS
      ensures P.Outcome(View(), wake) == P.NotifyWaiting(old(View()), stack)
      ensures !queued && (nmiNewLow <==> old(nmiNewLow) && wake < 0)
      ensures notificationNeeded <==> old(notificationNeeded) && wake < 0
      ensures Valid()
    {
      wake := -1;
      queued := false;
      var low;
      low, stack := SearchForLowestWaiting();
      if low >= 0 && clocks[low].waiting {
        lowestTid := low;
        lowestTicks := clocks[low].Clock();
        if notificationNeeded || nmiNewLow {
          nmiNewLow := false;
          notificationNeeded := false;
          wake := lowestTid;
        }
      }
      if wake >= 0 {
        WakeUpWaitingThread(wake);
      }
    }

    method EntryWait(cur: int) returns (wake: int, ghost stack: seq<int>)
      requires Thread(cur)
      modifies this`lowestTid, this`lowestTicks, this`notificationNeeded, this`nmiNewLow, clocks, status
      ensures |stack| == STACK_SLOTS
      ensures P.Outcome(View(), wake) == P.Wait(old(View()), cur, stack)
      ensures Valid()
    {
      wake, stack := DetermineLowestAndNotifyOrWait(cur);
      if wake >= 0 {
        WakeUpWaitingThread(wake);
      }
    }

    method EntryStopNoNotify(cur: int, delta: nat)
      requires Thread(cur)
      modifies clocks, status
      ensures Valid() && View() == P.StopNoNotify(old(View()), cur, delta)
      ensures !clocks[cur].counting
    {
      ghost var s := View();
      var wasOn := clocks[cur].counting;
      clocks[cur] := clocks[cur].(counting := false);
      assert View() == P.WithEntry(s, cur, s.clocks[cur].(counting := false));
      if wasOn {
        IncClockTicks(cur, delta);
        assert View() == P.WithEntry(s, cur, P.Credited(s.clocks[cur], delta).(counting := false));
        status[cur] := status[cur].(ticks := clocks[cur].Clock());
      } else {
        assert clocks[..] == s.clocks;
      }
    }

    method EntryStartNoNotify(cur: int)
      requires Thread(cur)
      modifies clocks
      ensures Valid() && View() == P.StartNoNotify(old(View()), cur)
    {
      clocks[cur] := clocks[cur].(userspaceReading := true);
      clocks[cur] := clocks[cur].(counting := false);
    }

    method EntryStop(cur: int, delta: nat) returns (wake: int, ghost stack: seq<int>)
      requires Thread(cur)
      modifies this`lowestTid, this`lowestTicks, this`notificationNeeded, this`nmiNewLow, clocks, status
      ensures |stack| == STACK_SLOTS
      ensures P.Outcome(View(), wake) == P.Stop(old(View()), cur, delta, stack)
      ensures Valid() && !clocks[cur].counting && status[cur].ticks == clocks[cur].Clock()
    {
      ghost var s := View();
      EntryStopNoNotify(cur, delta);
      wake, stack := DetermineLowestAndNotifyOrWait(cur);
      if wake >= 0 {
        WakeUpWaitingThread(wake);
      }
      P.StopTurnsOff(s, cur, delta, stack);
    }

    method SleepPass(cur: int) returns (wake: int, ghost stack: seq<int>)
      requires Thread(cur)
      modifies this`lowestTid, this`lowestTicks, this`notificationNeeded, this`nmiNewLow, clocks, status
      ensures |stack| == STACK_SLOTS
      ensures P.Outcome(View(), wake) == P.SleepPass(old(View()), cur, stack)
    {
      wake, stack := DetermineLowestAndNotifyOrWait(cur);
      if clocks[cur].waiting {
        clocks[cur] := clocks[cur].(sleeping := true);
      }
    }

    /**
    The sleep loop. A stranded caller never leaves it (SleepLoop.StrandedForever), so that one
    state is excluded.
    */
    method EntrySleep(cur: int) returns (wake: int, ghost stack: seq<int>)
      requires Thread(cur) && cur in View().active && Grants.Good(View()) && SleepLoop.SleepersWait(View())
      requires !SleepLoop.Stranded(View(), cur)
      modifies this`lowestTid, this`lowestTicks, this`notificationNeeded, this`nmiNewLow, clocks, status
      ensures |stack| == STACK_SLOTS
      ensures P.Outcome(View(), wake) == P.Sleep(old(View()), cur, stack)
      ensures Valid()
    {
      ghost var s := View();
      wake, stack := -1, seq(STACK_SLOTS, i => 0);
      var again := true;
      while again
        invariant |stack| == STACK_SLOTS && Valid()
        invariant if again then View() == s else P.Outcome(View(), wake) == P.SleepPass(s, cur, stack)
        decreases again
      {
        wake, stack := SleepPass(cur);
        SleepLoop.TriesAgainExactlyWhenStranded(s, cur, stack);
        var awake := ActiveThreadCount();
        again := wake < 0 && awake == 0;
      }
      if wake >= 0 {
        WakeUpWaitingThread(wake);
      }
    }

    method EntryWokeUp(cur: int)
      requires Thread(cur)
      modifies clocks
      ensures Valid() && View() == P.WokeUp(old(View()), cur)
    {
      clocks[cur] := clocks[cur].(sleeping := false);
      clocks[cur] := clocks[cur].(waiting := false);
    }

    method StartCounting(cur: int)
      requires Thread(cur)
      modifies clocks
      ensures View() == P.StartCounting(old(View()), cur)
    {
      ghost var s := View();
      clocks[cur] := clocks[cur].(chunkTicks := 0);
      clocks[cur] := clocks[cur].(counting := true);
      clocks[cur] := clocks[cur].(samplePeriod := 0);
      assert View() == P.WithEntry(s, cur, s.clocks[cur].(chunkTicks := 0, counting := true, samplePeriod := 0));
      UpdateOverflowPeriod(cur, false);
    }

    /** `rearmed` tells that the counter is armed anew, because user space has been reading it. */
    method PrepareEnable(cur: int) returns (rearmed: bool)
      requires Thread(cur)
      modifies clocks
      ensures View() == P.PrepareEnable(old(View()), cur)
      ensures rearmed <==> old(clocks[cur]).userspaceReading
    {
      rearmed := clocks[cur].userspaceReading;
      StartCounting(cur);
      TakeBackReading(cur);
    }

    method TakeBackReading(cur: int)
      requires Shape(cur)
      modifies clocks
      ensures View() == P.KernelReads(old(View()), cur)
    {
      if clocks[cur].userspaceReading {
        clocks[cur] := clocks[cur].(userspaceReading := false);
      }
    }

    method OnEnable(cur: int) returns (wake: int, rearmed: bool, ghost stack: seq<int>)
      requires Thread(cur)
      modifies this`lowestTid, this`lowestTicks, this`notificationNeeded, this`nmiNewLow, clocks, status
      ensures |stack| == STACK_SLOTS
      ensures P.Outcome(View(), wake) == P.OnEnable(old(View()), cur, stack)
      ensures rearmed <==> old(clocks[cur]).userspaceReading
      ensures Valid()
    {
      rearmed := PrepareEnable(cur);
      wake, stack := DetermineLowestAndNotifyOrWait(cur);
      ghost var d := View();
      if lowestTid == cur {
        notificationNeeded := true;
        nmiNewLow := false;
      }
      assert View() == if d.lowestTid == cur then d.(notificationNeeded := true, nmiNewLow := false) else d;
      ClearEntryState(cur);
      if wake >= 0 {
        WakeUpWaitingThread(wake);
      }
    }

    method PrepareDisable(cur: int, delta: nat)
      requires Thread(cur)
      modifies this`notificationNeeded, clocks
      ensures View() == P.PrepareDisable(old(View()), cur, delta)
    {
      ghost var s := View();
      if clocks[cur].counting {
        IncClockTicks(cur, delta);
        clocks[cur] := clocks[cur].(counting := false);
      }
      notificationNeeded := true;
      assert View().clocks == P.PrepareDisable(s, cur, delta).clocks;
    }

    method OnDisable(cur: int, delta: nat) returns (wake: int, ghost stack: seq<int>)
      requires Thread(cur)
      modifies this`lowestTid, this`lowestTicks, this`notificationNeeded, this`nmiNewLow, clocks, status
      ensures |stack| == STACK_SLOTS
      ensures P.Outcome(View(), wake) == P.OnDisable(old(View()), cur, delta, stack)
      ensures Valid()
    {
      PrepareDisable(cur, delta);
      wake, stack := EntryWait(cur);
    }

    /** Move the clock, but not the current chunk. */
    method IncClockTicksNoChunkAdd(cur: int, ticks: int)
      requires Shape(cur) && clocks[cur].ticks + ticks >= 0
      modifies clocks
      ensures View() == P.PrepareAddTicks(old(View()), cur, ticks)
    {
      clocks[cur] := clocks[cur].(ticks := clocks[cur].ticks + ticks);
    }

    method AddTicks(cur: int, ticks: int) returns (wake: int, ghost stack: seq<int>)
      requires Thread(cur) && clocks[cur].ticks + ticks >= 0
      modifies this`lowestTid, this`lowestTicks, this`notificationNeeded, this`nmiNewLow, clocks, status
      ensures |stack| == STACK_SLOTS
      ensures P.Outcome(View(), wake) == P.AddTicks(old(View()), cur, ticks, stack)
      ensures Valid() && clocks[cur].Clock() == old(clocks[cur].Clock()) + ticks == status[cur].ticks
    {
      ghost var s := View();
      IncClockTicksNoChunkAdd(cur, ticks);
      wake, stack := EntryWait(cur);
      P.AddTicksAdds(s, cur, ticks, stack);
    }

    method MarkInactive(cur: int)
      requires Thread(cur) && cur in active.Contents
      modifies clocks, active, active.entries
      ensures View() == P.MarkInactive(old(View()), cur)
      ensures Valid() && active.entries == old(active.entries)
    {
      ghost var s := View();
      clocks[cur] := clocks[cur].(inactive := true);
      var ok := active.Remove(cur);
      assert View() == P.MarkInactive(s, cur);
    }

    method EntryHalt(cur: int) returns (wake: int, ghost stack: seq<int>)
      requires Thread(cur) && cur in active.Contents
      modifies this`lowestTid, this`lowestTicks, this`notificationNeeded, this`nmiNewLow, clocks, status, active,
          active.entries
      ensures Valid() && active.entries == old(active.entries) && |stack| == STACK_SLOTS
      ensures P.Outcome(View(), wake) == P.Halt(old(View()), cur, stack)
    {
      MarkInactive(cur);
      wake, stack := DetermineLowestAndNotifyOrWait(cur);
      ghost var d := View();
      clocks[cur] := clocks[cur].(waiting := false);
      assert View() == P.WithEntry(d, cur, d.clocks[cur].(waiting := false));
      if wake >= 0 {
        WakeUpWaitingThread(wake);
      }
    }

    /** The source stops the machine when the thread is listed already. */
    method MarkActive(i: int)
      requires Thread(i) && i !in active.Contents
      modifies clocks, active, active.entries
      ensures View() == P.MarkActive(old(View()), i)
      ensures Valid() && active.entries == old(active.entries)
    {
      ghost var s := View();
      ClearEntryState(i);
      var ok := active.Insert(i);
      assert View() == P.MarkActive(s, i);
    }

    method PrepareActivate(cur: int)
      requires Thread(cur) && cur !in active.Contents
      modifies clocks, active, active.entries
      ensures View() == P.PrepareActivate(old(View()), cur)
      ensures Valid() && active.entries == old(active.entries)
    {
      MarkActive(cur);
      ghost var a := View();
      clocks[cur] := clocks[cur].(chunkTicks := 0);
      clocks[cur] := clocks[cur].(samplePeriod := 0);
      assert View() == P.WithEntry(a, cur, a.clocks[cur].(chunkTicks := 0, samplePeriod := 0));
      UpdateOverflowPeriod(cur, false);
      ghost var u := View();
      clocks[cur] := clocks[cur].(userspaceReading := false);
      assert View() == P.KernelReads(u, cur);
    }

    method EntryActivate(cur: int)
      requires Thread(cur) && cur !in active.Contents
      modifies this`lowestTid, this`notificationNeeded, clocks, status, active, active.entries
      ensures View() == P.Activate(old(View()), cur)
      ensures old(lowestTid) != cur ==> status[cur].lowestClock == (old(status[cur]).lowestClock || lowestTid == cur)
      ensures Valid() && active.entries == old(active.entries)
    {
      PrepareActivate(cur);
      ghost var a := View();
      var low := NewLowest(cur, false);
      if low >= 0 && low == cur {
        notificationNeeded := false;
        lowestTid := low;
        status[cur] := status[cur].(lowestClock := true);
        assert status[..] == a.status[cur := a.status[cur].(lowestClock := true)];
      }
    }

    method SeedClock(cur: int, id: int)
      requires Thread(cur) && Thread(id)
      modifies clocks
      ensures View() == P.Seed(old(View()), cur, id)
      ensures Valid()
    {
      ghost var s := View();
      if !clocks[id].initialized {
        clocks[id] := clocks[id].(baseTicks := clocks[cur].Clock() + 1);
        clocks[id] := clocks[id].(ticks := 0);
        clocks[id] := clocks[id].(initialized := true);
        assert View() == P.Seed(s, cur, id);
      } else {
        clocks[id] := clocks[id].(initialized := true);
        assert clocks[..] == s.clocks;
      }
    }

    method EntryActivateOther(cur: int, id: int)
      requires Thread(cur) && Thread(id) && id !in active.Contents
      modifies clocks, status, active, active.entries
      ensures View() == P.ActivateOther(old(View()), cur, id)
      ensures Valid() && active.entries == old(active.entries)
    {
      SeedClock(cur, id);
      MarkActive(id);
      clocks[id] := clocks[id].(chunkTicks := 0);
      var lower := true;
      if lowestTid >= 0 {
        lower := ClockIsLower(id, lowestTid);
      }
      if lower {
        status[cur] := status[cur].(activatedLowest := true);
      }
    }

    method EntryInit(cur: int)
      requires Thread(cur)
      modifies clocks
      ensures Valid() && View() == P.EntryInit(old(View()), cur)
      ensures View().active == old(View()).active && clocks[cur].Live() && !clocks[cur].counting
      ensures clocks[cur].Clock() == if old(clocks[cur]).initialized then old(clocks[cur]).Clock() else 0
      ensures forall i :: 0 <= i < clocks.Length && i != cur ==> clocks[i] == old(clocks[i])
    {
      if !clocks[cur].initialized {
        clocks[cur] := clocks[cur].(ticks := 0, baseTicks := 0);
      }
      clocks[cur] := clocks[cur].(initialized := true, userspaceReading := false, counting := false, chunkTicks := 0);
      ClearEntryState(cur);
    }
  }
}
