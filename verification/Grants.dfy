/**
What one lock-held section can grant: exactly when the caller gets the turn and exactly whom it
wakes, whatever the scratch array held. The wake-ups and self-grants of every operation in
Protocol.dfy go through `Determine` or `NotifyWaiting`, so these are the safety results of the
whole protocol.
*/
module Grants {
  import opened ListArrays
  import opened Clocks
  import opened Protocol

  /** Every listed thread is initialised and active. */
  ghost predicate Good(s: State) {
    WF(s) && forall i :: i in s.active ==> s.clocks[i].Live()
  }

  /** The caller is on the list, or has just taken itself off it. */
  ghost predicate ListedOrHalted(s: State, cur: int)
    requires 0 <= cur < |s.clocks|
  {
    cur in s.active || s.clocks[cur].inactive
  }

  /** At every lock release the recorded lowest thread is nobody or somebody listed. */
  ghost predicate RecordOk(s: State) {
    s.lowestTid == -1 || s.lowestTid in s.active
  }

  /** Same clocks and same liveness: nothing a lowest search could notice. */
  ghost predicate SameStamps(c: seq<Entry>, d: seq<Entry>) {
    |c| == |d| && forall i :: 0 <= i < |c| ==> c[i].Clock() == d[i].Clock() && c[i].Live() == d[i].Live()
  }

  lemma {:induction false} ScanOfSameStamps(c: seq<Entry>, d: seq<Entry>, order: seq<int>)
    requires SameStamps(c, d) && InRange(order, |c|)
    ensures Scan(AnyLive, c, order) == Scan(AnyLive, d, order)
  {
    if order == [] {
    } else {
      ScanOfSameStamps(c, d, order[..|order|-1]);
    }
  }

  /** The minimum of the group, spelled out. */
  lemma LowestIsUniqueMinimum(s: State)
    requires Good(s)
    ensures Lowest(s) == -1 <==> s.active == []
    ensures Lowest(s) >= 0 ==> Lowest(s) in s.active
    ensures forall i :: i in s.active && i != Lowest(s) ==> Before(At(s, Lowest(s)), At(s, i))
    ensures forall m ::
          m in s.active && (forall i :: i in s.active && i != m ==> Before(At(s, m), At(s, i))) ==> m == Lowest(s)
  {
    ScanIsMinimum(AnyLive, s.clocks, s.active);
    if s.active != [] {
      assert s.active[0] in s.active;
    }
  }

  /** Spelled out: everybody else listed has a larger clock, or the same clock and a larger number. */
  lemma LowestComesFirst(s: State)
    requires Good(s)
    ensures var m := Lowest(s);
            && (s.active != [] ==> m in s.active)
            && forall i :: i in s.active && i != m ==>
                  s.clocks[m].Clock() < s.clocks[i].Clock() || (s.clocks[m].Clock() == s.clocks[i].Clock() && m < i)
    ensures forall m :: First(s, m) <==> m == Lowest(s) && s.active != []
  {
    LowestIsUniqueMinimum(s);
  }

  /** A thread that has the list for itself is its minimum. */
  lemma AloneIsLowest(s: State, cur: int)
    requires Good(s) && cur in s.active && |s.active| == 1
    ensures Lowest(s) == cur
  {
    ScanIsMinimum(AnyLive, s.clocks, s.active);
    assert s.active == [s.active[0]];
  }

  lemma AloneIsRecorded(s: State, cur: int)
    requires cur in s.active && |s.active| == 1 && s.lowestTid in s.active
    ensures s.lowestTid == cur
  {
    assert s.active == [s.active[0]];
  }

  /**
  Grant safety and completeness in one: the caller is granted the turn exactly when it is the
  minimum of the active threads, and another thread is woken exactly when it is that minimum, it
  waits, and its notification is still owed. The stale marks make no difference.
  */
  lemma DetermineExact(s: State, cur: int, stack: seq<int>)
    requires Caller(s, cur, stack) && Good(s) && ListedOrHalted(s, cur)
    ensures var o, m := Determine(s, cur, stack), Lowest(s);
            && (o.s.status[cur].lowestClock <==> m == cur)
            && o.wake == (if m >= 0 && m != cur && s.clocks[m].waiting && (s.notificationNeeded || m != s.lowestTid)
                then m else -1)
            && Lowest(o.s) == m
            && Good(o.s)
  {
    var p := Publish(s, cur);
    var o := Determine(s, cur, stack);
    ScanOfSameStamps(s.clocks, Waiting(p, cur).clocks, s.active);
    LowestIsUniqueMinimum(s);
    if OnlyActive(s, cur) {
      AloneIsLowest(s, cur);
    }
    assert SameStamps(s.clocks, o.s.clocks);
    ScanOfSameStamps(s.clocks, o.s.clocks, s.active);
  }

  /** What a decision leaves behind, field by field. */
  lemma DetermineEffect(s: State, cur: int, stack: seq<int>)
    requires Caller(s, cur, stack) && Good(s) && ListedOrHalted(s, cur)
    ensures var o, m := Determine(s, cur, stack), Lowest(s);
            && o.s.clocks == s.clocks[cur := s.clocks[cur].(waiting := m != cur, sleeping := s.clocks[cur].sleeping
                && m != cur)]
            && o.s.status == s.status[cur := s.status[cur].(ticks := s.clocks[cur].Clock(), lowestClock := m == cur,
                                                            singleActive := s.status[cur].singleActive || OnlyActive(s,
                                                                cur))]
            && o.s.active == s.active && o.s.maxIndex == s.maxIndex
            && (o.s.notificationNeeded <==>
                  (s.notificationNeeded || (!OnlyActive(s, cur) && o.s.lowestTid != s.lowestTid)) && m != cur
                  && o.wake < 0)
            && (o.s.nmiNewLow <==> s.nmiNewLow && o.wake < 0) && o.s.queued == s.queued
  {
    DetermineExact(s, cur, stack);
    LowestIsUniqueMinimum(s);
  }

  /**
  The recorded lowest after a decision: the minimum when that thread waits or is the caller;
  otherwise -1 or, through a stale mark, again the minimum. Only a lone thread leaves it alone.
  */
  lemma RecordedLowest(s: State, cur: int, stack: seq<int>)
    requires Caller(s, cur, stack) && Good(s) && ListedOrHalted(s, cur)
    ensures var o, m := Determine(s, cur, stack), Lowest(s);
            && (OnlyActive(s, cur) ==> o.s.lowestTid == s.lowestTid && o.s.lowestTicks == s.clocks[cur].Clock())
            && (!OnlyActive(s, cur) ==>
                  && (o.s.lowestTid == m || o.s.lowestTid == -1)
                  && (m >= 0 && (m == cur || s.clocks[m].waiting) ==> o.s.lowestTid == m)
                  && o.s.lowestTicks == (if o.s.lowestTid >= 0 then o.s.clocks[o.s.lowestTid].Clock()
                      else s.lowestTicks))
  {
    var p := Publish(s, cur);
    ScanOfSameStamps(s.clocks, Waiting(p, cur).clocks, s.active);
    LowestIsUniqueMinimum(s);
  }

  /** Whoever is recorded after a decision, lowestTicks is that thread's clock. */
  lemma RecordedTicks(s: State, cur: int, stack: seq<int>)
    requires Caller(s, cur, stack) && Good(s) && ListedOrHalted(s, cur)
    requires RecordOk(s) || s.lowestTid == cur
    ensures var o := Determine(s, cur, stack);
            o.s.lowestTid >= 0 ==> o.s.lowestTicks == o.s.clocks[o.s.lowestTid].Clock()
  {
    RecordedLowest(s, cur, stack);
    DetermineEffect(s, cur, stack);
    if OnlyActive(s, cur) && s.lowestTid >= 0 && s.lowestTid != cur {
      AloneIsRecorded(s, cur);
    }
  }

  /**
  The deferred notification wakes exactly the waiting minimum, when one is still owed or flagged;
  only then nothing is owed or flagged any more, and in any case nothing is scheduled.
  */
  lemma NotifyExact(s: State, stack: seq<int>)
    requires Good(s) && |stack| == STACK_SLOTS
    ensures var o, m := NotifyWaiting(s, stack), Lowest(s);
            && o.wake == (if m >= 0 && s.clocks[m].waiting && (s.notificationNeeded || s.nmiNewLow) then m else -1)
            && (m >= 0 && s.clocks[m].waiting ==> o.s.lowestTid == m && o.s.lowestTicks == s.clocks[m].Clock())
            && (!(m >= 0 && s.clocks[m].waiting) ==> o.s == s.(queued := false))
            && (o.s.notificationNeeded <==> s.notificationNeeded && o.wake < 0)
            && (o.s.nmiNewLow <==> s.nmiNewLow && o.wake < 0)
            && !o.s.queued && o.s.active == s.active && o.s.maxIndex == s.maxIndex
  {
  }

  lemma NewLowestInInterrupt(s: State, cur: int)
    requires WF(s) && LiveAreListed(s) && 0 <= cur < |s.clocks|
    ensures var low := NewLowest(s, cur, UpTo(s.maxIndex + 1));
            if s.lowestTid == -1 then low == Lowest(s)
            else if s.lowestTid == cur then low == if Lowest(s) != cur then Lowest(s) else -1
            else low == cur || low == -1
  {
    TwoScansAgree(s, AnyLive);
  }

  /**
  The overflow handler flags and schedules a notification exactly when the caller counts, none is
  flagged yet, the recorded lowest thread is the caller or nobody, and the minimum is another
  thread, which waits. (A recorded third thread hides it.) It changes nothing else.
  */
  lemma OverflowFlagsExactly(s: State, cur: int)
    requires Good(s) && LiveAreListed(s) && cur in s.active
    ensures var m := Lowest(s);
            OverflowHandler(s, cur) ==
              if s.clocks[cur].counting && !s.nmiNewLow && (s.lowestTid == -1 || s.lowestTid == cur) && m != cur
                  && s.clocks[m].waiting
              then s.(nmiNewLow := true, queued := true) else s
  {
    NewLowestInInterrupt(s, cur);
    assert Lowest(s) >= 0 by {
      LowestIsUniqueMinimum(s);
    }
  }

  // ----- activation compares with the record only

  /** Joining the list changes nobody's clock. */
  lemma PrepareActivateEffect(s: State, cur: int)
    requires Good(s) && 0 <= cur < |s.clocks| && cur !in s.active && s.clocks[cur].initialized
    ensures var a := PrepareActivate(s, cur);
            && Good(a) && a.active == s.active + [cur] && a.lowestTid == s.lowestTid
            && |a.clocks| == |s.clocks|
            && (forall i :: 0 <= i < |s.clocks| && i != cur ==> a.clocks[i] == s.clocks[i])
            && a.clocks[cur].Clock() == s.clocks[cur].Clock()
            && !a.clocks[cur].waiting && !a.clocks[cur].sleeping
            && a.notificationNeeded == s.notificationNeeded && a.nmiNewLow == s.nmiNewLow && a.queued == s.queued
  {
    var a := PrepareActivate(s, cur);
    assert a.clocks == s.clocks[cur := a.clocks[cur]];
  }

  /** A newcomer becomes the minimum exactly when it precedes the minimum of those already there. */
  lemma LowestOfJoined(s: State, a: State, id: int)
    requires Good(s) && Good(a) && 0 <= id < |s.clocks| == |a.clocks| && id !in s.active && a.active == s.active + [id]
    requires forall i :: i in s.active ==> At(a, i) == At(s, i)
    ensures Lowest(a) == if s.active == [] || Before(At(a, id), At(s, Lowest(s))) then id else Lowest(s)
  {
    LowestIsUniqueMinimum(s);
    LowestIsUniqueMinimum(a);
    var m := if s.active == [] || Before(At(a, id), At(s, Lowest(s))) then id else Lowest(s);
    assert m in a.active;
    forall i | i in a.active && i != m ensures Before(At(a, m), At(a, i)) {
    }
  }

  lemma ActivateOtherEffect(s: State, t: int, id: int)
    requires Good(s) && t in s.active && 0 <= id < |s.clocks| && id !in s.active
    ensures var r := ActivateOther(s, t, id);
            && Good(r) && r.active == s.active + [id] && |r.clocks| == |s.clocks|
            && (forall i :: 0 <= i < |s.clocks| && i != id ==> r.clocks[i] == s.clocks[i])
            && At(r, id) == (if s.clocks[id].initialized then At(s, id) else Stamp(s.clocks[t].Clock() + 1, id))
            && !r.clocks[id].waiting && !r.clocks[id].sleeping
            && r.lowestTid == s.lowestTid && r.notificationNeeded == s.notificationNeeded
            && r.nmiNewLow == s.nmiNewLow && r.queued == s.queued
  {
  }

  /**
  A thread that activates itself takes the lead when it precedes the recorded lowest thread, or
  nobody is recorded and it is the minimum; nothing else is compared.
  */
  lemma ActivateLeadsWhen(s: State, cur: int)
    requires Good(s) && 0 <= cur < |s.clocks| && cur !in s.active && s.clocks[cur].initialized && s.lowestTid != cur
    ensures Good(Activate(s, cur))
    ensures Lowest(Activate(s, cur)) == if s.active == [] || Before(At(s, cur), At(s, Lowest(s))) then cur
        else Lowest(s)
    ensures Activate(s, cur).lowestTid == cur <==>
              if s.lowestTid == -1 then s.active == [] || Before(At(s, cur), At(s, Lowest(s)))
              else Before(At(s, cur), At(s, s.lowestTid))
  {
    PrepareActivateEffect(s, cur);
    PreparedLowest(s, cur);
    assert (Lowest(s) == -1 <==> s.active == []) && Lowest(s) != cur by {
      LowestIsUniqueMinimum(s);
    }
  }

  lemma PreparedLowest(s: State, cur: int)
    requires Good(s) && 0 <= cur < |s.clocks| && cur !in s.active && s.clocks[cur].initialized
    ensures var a := PrepareActivate(s, cur);
            && Lowest(a) == (if s.active == [] || Before(At(s, cur), At(s, Lowest(s))) then cur else Lowest(s))
            && forall i :: 0 <= i < |s.clocks| ==> At(a, i) == At(s, i)
  {
    PrepareActivateEffect(s, cur);
    LowestOfJoined(s, PrepareActivate(s, cur), cur);
  }

  /**
  The lead is wrong exactly when somebody listed precedes the newcomer, which precedes the record;
  so it is right whenever the record was the minimum or nobody.
  */
  lemma ActivateMisleadsExactlyWhen(s: State, cur: int)
    requires Good(s) && RecordOk(s) && 0 <= cur < |s.clocks| && cur !in s.active && s.clocks[cur].initialized
    ensures var r, m := Activate(s, cur), Lowest(s);
            && (r.lowestTid == cur && Lowest(r) != cur <==>
                  m >= 0 && s.lowestTid >= 0 && Before(At(s, m), At(s, cur)) && Before(At(s, cur), At(s, s.lowestTid)))
            && (r.lowestTid == cur ==> r.status[cur].lowestClock && !r.notificationNeeded)
  {
    ActivateLeadsWhen(s, cur);
    assert (Lowest(s) == -1 <==> s.active == []) && (Lowest(s) >= 0 ==> Lowest(s) != cur) by {
      LowestIsUniqueMinimum(s);
    }
    LeadIsVisible(s, cur);
  }

  /** The newcomer sees a lead flag that it takes, or that was there before; nobody else's page changes. */
  lemma LeadIsVisible(s: State, cur: int)
    requires Good(s) && s.lowestTid != cur && 0 <= cur < |s.clocks| && cur !in s.active && s.clocks[cur].initialized
    ensures var r := Activate(s, cur);
            && r.active == s.active + [cur] && (r.lowestTid == cur ==> !r.notificationNeeded)
            && (r.lowestTid != cur ==> r.lowestTid == s.lowestTid && r.notificationNeeded == s.notificationNeeded)
            && r.status == s.status[cur := s.status[cur].(lowestClock := s.status[cur].lowestClock
                || r.lowestTid == cur)]
            && r.nmiNewLow == s.nmiNewLow && r.queued == s.queued && r.lowestTicks == s.lowestTicks
            && r.maxIndex == if cur > s.maxIndex then cur else s.maxIndex
  {
    PrepareActivateEffect(s, cur);
    PreparedPage(s, cur);
  }

  lemma PreparedPage(s: State, cur: int)
    requires WF(s) && 0 <= cur < |s.clocks| && cur !in s.active
    ensures var a := PrepareActivate(s, cur);
            && a.status == s.status && a.lowestTicks == s.lowestTicks
            && a.maxIndex == if cur > s.maxIndex then cur else s.maxIndex
  {
  }

  /**
  What user space takes for a turn: the newcomer sees the flag exactly when it precedes the recorded
  lowest thread, or nobody is recorded and it precedes everybody -- or the flag was left set before.
  So it sees it without being the minimum exactly when somebody listed precedes it, and it precedes
  the record or found the flag set.
  */
  lemma NewcomerSeesExactlyWhen(s: State, cur: int)
    requires Good(s) && RecordOk(s) && 0 <= cur < |s.clocks| && cur !in s.active && s.clocks[cur].initialized
    ensures var r, low, m := Activate(s, cur), s.lowestTid, Lowest(s);
            && (r.status[cur].lowestClock <==>
                  || s.status[cur].lowestClock
                  || (if low >= 0 then Before(At(s, cur), At(s, low)) else m < 0 || Before(At(s, cur), At(s, m))))
            && (r.status[cur].lowestClock && Lowest(r) != cur <==>
                  m >= 0 && Before(At(s, m), At(s, cur))
                  && (s.status[cur].lowestClock || (low >= 0 && Before(At(s, cur), At(s, low)))))
            && forall i :: 0 <= i < |s.clocks| && i != cur ==> r.status[i] == s.status[i]
  {
    NewcomerLeadsExactlyWhen(s, cur);
    NewcomerSees(s, cur);
  }

  lemma NewcomerSees(s: State, cur: int)
    requires Good(s) && s.lowestTid != cur && 0 <= cur < |s.clocks| && cur !in s.active && s.clocks[cur].initialized
    ensures var r := Activate(s, cur);
            && (r.status[cur].lowestClock <==> s.status[cur].lowestClock || r.lowestTid == cur)
            && forall i :: 0 <= i < |s.clocks| && i != cur ==> r.status[i] == s.status[i]
  {
    LeadIsVisible(s, cur);
  }

  lemma NewcomerLeadsExactlyWhen(s: State, cur: int)
    requires Good(s) && RecordOk(s) && 0 <= cur < |s.clocks| && cur !in s.active && s.clocks[cur].initialized
    ensures var r, low, m := Activate(s, cur), s.lowestTid, Lowest(s);
            && (r.lowestTid == cur <==>
                  if low >= 0 then Before(At(s, cur), At(s, low)) else m < 0 || Before(At(s, cur), At(s, m)))
            && (Lowest(r) != cur <==> m >= 0 && Before(At(s, m), At(s, cur)))
            && (low < 0 && r.lowestTid == cur ==> Lowest(r) == cur)
  {
    ActivateLeadsWhen(s, cur);
    assert (Lowest(s) == -1 <==> s.active == []) && (Lowest(s) >= 0 ==> Lowest(s) != cur) by {
      LowestIsUniqueMinimum(s);
    }
  }

  /**
  The activator is told exactly when the thread it lists precedes the recorded lowest thread, or
  nobody is recorded; nothing else on any page changes.
  */
  lemma ActivatorIsToldExactlyWhen(s: State, t: int, id: int)
    requires Good(s) && t in s.active && 0 <= id < |s.clocks| && id !in s.active && RecordOk(s)
    ensures var r, clock := ActivateOther(s, t, id),
              if s.clocks[id].initialized then s.clocks[id].Clock() else s.clocks[t].Clock() + 1;
            && r.status == s.status[t := s.status[t].(activatedLowest := s.status[t].activatedLowest
                 || s.lowestTid == -1 || clock < s.clocks[s.lowestTid].Clock()
                 || (clock == s.clocks[s.lowestTid].Clock() && id < s.lowestTid))]
            && r.lowestTicks == s.lowestTicks && r.maxIndex == if id > s.maxIndex then id else s.maxIndex
  {
    var b := Seed(s, t, id).clocks[id];
    assert b.Clock() == if s.clocks[id].initialized then s.clocks[id].Clock() else s.clocks[t].Clock() + 1;
    assert s.lowestTid != id;
  }
}
