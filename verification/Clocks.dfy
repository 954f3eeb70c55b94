/**
The group state of src/module/clock_main.c as a value, the order on (clock, tid) pairs of
src/module/utility.h, and the searches of src/module/search_entries.h over it.
*/
module Clocks {
  import opened ListArrays

  /** The size of the scratch array that marks waiting threads. */
  const STACK_SLOTS := 128

  /** One thread's record. `pollIn` is the wake-up flag of the buffer of its counter event. */
  datatype Entry = Entry(
    ticks: nat, baseTicks: nat,
    initialized: bool, inactive: bool, waiting: bool, sleeping: bool,
    counting: bool, chunkTicks: nat, samplePeriod: nat, userspaceReading: bool, pollIn: bool)
  {
    function Clock(): nat {
      ticks + baseTicks
    }

    predicate Live() {
      initialized && !inactive
    }
  }

  /** The page a thread shares with user space. */
  datatype Status = Status(lowestClock: bool, ticks: nat, singleActive: bool, activatedLowest: bool)

  /** The group. `queued` tells that the deferred notification has been scheduled and has not run yet. */
  datatype State = State(
    clocks: seq<Entry>, status: seq<Status>, active: seq<int>, maxIndex: int,
    lowestTid: int, lowestTicks: nat, notificationNeeded: bool, nmiNewLow: bool, queued: bool)

  const UNUSED_ENTRY := Entry(0, 0, false, false, false, false, false, 0, 0, false, false)

  /** A new group of n threads: nobody initialised, listed or lowest, and the first notification still owed. */
  function Initially(n: nat): State {
    State(seq(n, i => UNUSED_ENTRY), seq(n, i => Status(false, 0, false, false)), [], 0, -1, 0, true, false, false)
  }

  /** A thread's place in the turn order. */
  datatype Stamp = Stamp(clock: nat, tid: int)

  predicate Before(a: Stamp, b: Stamp) {
    a.clock < b.clock || (a.clock == b.clock && a.tid < b.tid)
  }

  predicate NotAfter(a: Stamp, b: Stamp) {
    a == b || Before(a, b)
  }

  function StampOf(clocks: seq<Entry>, i: int): Stamp
    requires 0 <= i < |clocks|
  {
    Stamp(clocks[i].Clock(), i)
  }

  predicate InRange(order: seq<int>, n: nat) {
    forall k :: 0 <= k < |order| ==> 0 <= order[k] < n
  }

  ghost predicate WF(s: State) {
    && |s.status| == |s.clocks| <= STACK_SLOTS
    && Distinct(s.active)
    && InRange(s.active, |s.clocks|)
    && 0 <= s.maxIndex < |s.clocks|
    && (forall i :: i in s.active ==> i <= s.maxIndex)
    && -1 <= s.lowestTid < |s.clocks|
  }

  // ----- the searches

  /** What a search is looking for: any live thread, or a live waiting one other than tid. */
  datatype Wanted = AnyLive | WaitingExcept(tid: int)

  predicate Admits(w: Wanted, e: Entry, i: int) {
    e.Live() && match w
      case AnyLive => true
      case WaitingExcept(tid) => e.waiting && i != tid
  }

  /** The running minimum after visiting `order` from left to right; -1 when nothing was admitted. */
  function Scan(w: Wanted, clocks: seq<Entry>, order: seq<int>): (min: int)
    requires InRange(order, |clocks|)
    ensures min == -1 || 0 <= min < |clocks|
  {
    if order == [] then -1 else
      var min := Scan(w, clocks, order[..|order|-1]);
      var i := order[|order|-1];
      if Admits(w, clocks[i], i) && (min < 0 || Before(StampOf(clocks, i), StampOf(clocks, min))) then i else min
  }

  /** Thread m comes before everybody else on the list. */
  ghost predicate First(s: State, m: int)
    requires InRange(s.active, |s.clocks|)
  {
    m in s.active && forall i :: i in s.active && i != m ==>
      s.clocks[m].Clock() < s.clocks[i].Clock() || (s.clocks[m].Clock() == s.clocks[i].Clock() && m < i)
  }

  /** What the scan promises: the unique smallest admitted member, or -1 when there is none. */
  ghost predicate IsMinimum(w: Wanted, clocks: seq<Entry>, order: seq<int>, r: int)
    requires InRange(order, |clocks|)
  {
    if r == -1 then
      forall i :: i in order ==> !Admits(w, clocks[i], i)
    else
      && r in order && Admits(w, clocks[r], r)
      && forall i :: i in order && i != r && Admits(w, clocks[i], i) ==>
          clocks[r].Clock() < clocks[i].Clock() || (clocks[r].Clock() == clocks[i].Clock() && r < i)
  }

  lemma {:induction false} ScanIsMinimum(w: Wanted, clocks: seq<Entry>, order: seq<int>)
    requires InRange(order, |clocks|)
    ensures IsMinimum(w, clocks, order, Scan(w, clocks, order))
  {
    if order == [] {
    } else {
      var init, i := order[..|order|-1], order[|order|-1];
      ScanIsMinimum(w, clocks, init);
      assert order == init + [i];
    }
  }

  /** The answer does not depend on the order of the visit, nor on members that are not admitted. */
  lemma ScanDependsOnMembersOnly(w: Wanted, clocks: seq<Entry>, order: seq<int>, other: seq<int>)
    requires InRange(order, |clocks|) && InRange(other, |clocks|)
    requires forall i | 0 <= i < |clocks| && Admits(w, clocks[i], i) :: i in order <==> i in other
    ensures Scan(w, clocks, order) == Scan(w, clocks, other)
  {
    ScanIsMinimum(w, clocks, order);
    ScanIsMinimum(w, clocks, other);
  }

  /** How many visited threads are live and awake. */
  function AwakeCount(clocks: seq<Entry>, order: seq<int>): (n: nat)
    requires InRange(order, |clocks|)
    ensures n <= |order|
  {
    if order == [] then 0 else
      var e := clocks[order[|order|-1]];
      AwakeCount(clocks, order[..|order|-1]) + if e.Live() && !e.sleeping then 1 else 0
  }

  ghost function AwakeSet(clocks: seq<Entry>, order: seq<int>): set<int>
    requires InRange(order, |clocks|)
  {
    set i | i in order && clocks[i].Live() && !clocks[i].sleeping
  }

  /** On a duplicate-free visit the count is the number of live, awake threads. */
  lemma {:induction false} AwakeCountIsCardinality(clocks: seq<Entry>, order: seq<int>)
    requires InRange(order, |clocks|) && Distinct(order)
    ensures AwakeCount(clocks, order) == |AwakeSet(clocks, order)|
  {
    if order == [] {
    } else {
      var init, i := order[..|order|-1], order[|order|-1];
      AwakeCountIsCardinality(clocks, init);
      assert order == init + [i];
      if clocks[i].Live() && !clocks[i].sleeping {
        assert i !in AwakeSet(clocks, init);
        assert AwakeSet(clocks, order) == AwakeSet(clocks, init) + {i};
      } else {
        assert AwakeSet(clocks, order) == AwakeSet(clocks, init);
      }
    }
  }

  /** The thread with the lowest clock among the live listed ones. */
  function Lowest(s: State): (min: int)
    requires InRange(s.active, |s.clocks|)
    ensures min == -1 || 0 <= min < |s.clocks|
  {
    Scan(AnyLive, s.clocks, s.active)
  }

  /**
  The minimum if it is waiting, and otherwise -1 -- except that the marks are kept in an array
  that is never cleared, so a stale mark also lets the minimum through.
  */
  function LowestMarked(s: State, stack: seq<int>): (low: int)
    requires InRange(s.active, |s.clocks|) && |s.clocks| <= |stack|
    ensures low == -1 || 0 <= low < |s.clocks|
  {
    var low := Lowest(s);
    if low >= 0 && (s.clocks[low].waiting || stack[low] == 1) then low else -1
  }

  /** With a cleared array the search is exactly "the minimum, if it is waiting". */
  lemma CleanStackSearch(s: State, stack: seq<int>)
    requires WF(s) && |stack| == STACK_SLOTS && forall k :: 0 <= k < |stack| ==> stack[k] == 0
    ensures var low := LowestMarked(s, stack);
            if low == -1 then Lowest(s) == -1 || !s.clocks[Lowest(s)].waiting
            else IsMinimum(AnyLive, s.clocks, s.active, low) && s.clocks[low].waiting
  {
    ScanIsMinimum(AnyLive, s.clocks, s.active);
  }

  // ----- the two traversals

  /** Every live entry that the index scan can reach is on the list. */
  ghost predicate LiveAreListed(s: State) {
    forall i :: 0 <= i <= s.maxIndex && i < |s.clocks| && s.clocks[i].Live() ==> i in s.active
  }

  /**
  The interrupt handler scans indices, everyone else walks the list: both searches and the
  awake count give the same answers, whatever the order of the list.
  */
  lemma TwoScansAgree(s: State, w: Wanted)
    requires WF(s) && LiveAreListed(s)
    ensures Scan(w, s.clocks, UpTo(s.maxIndex + 1)) == Scan(w, s.clocks, s.active)
    ensures AwakeCount(s.clocks, UpTo(s.maxIndex + 1)) == AwakeCount(s.clocks, s.active)
  {
    var all := UpTo(s.maxIndex + 1);
    forall i | i in s.active ensures i in all {
      assert all[i] == i;
    }
    forall i | 0 <= i < |s.clocks| && Admits(w, s.clocks[i], i) ensures i in s.active <==> i in all {
      if i in all {
        assert i <= s.maxIndex;
      }
    }
    ScanDependsOnMembersOnly(w, s.clocks, all, s.active);
    AwakeCountIsCardinality(s.clocks, all);
    AwakeCountIsCardinality(s.clocks, s.active);
    assert AwakeSet(s.clocks, all) == AwakeSet(s.clocks, s.active);
  }

  /**
  Without that hypothesis -- between a thread's initialisation and its activation -- the lowest
  searches agree exactly when the list's minimum precedes every live entry that is not listed.
  */
  lemma ScansAgreeExactlyWhen(s: State)
    requires WF(s)
    ensures Scan(AnyLive, s.clocks, UpTo(s.maxIndex + 1)) == Lowest(s)
       <==> forall i :: 0 <= i <= s.maxIndex && s.clocks[i].Live() && i !in s.active
                  ==> Lowest(s) >= 0 && Before(StampOf(s.clocks, Lowest(s)), StampOf(s.clocks, i))
  {
    var all := UpTo(s.maxIndex + 1);
    forall i | 0 <= i <= s.maxIndex ensures i in all {
      assert all[i] == i;
    }
    ScanIsMinimum(AnyLive, s.clocks, all);
    ScanIsMinimum(AnyLive, s.clocks, s.active);
  }
}
