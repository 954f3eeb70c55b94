/**
The loop of task_clock_entry_sleep, which runs under the group lock until it finds somebody to
wake up or somebody awake: exactly when it leaves, and that otherwise it never does.
*/
module SleepLoop {
  import opened Clocks
  import opened Protocol
  import opened Grants

  /** A run invariant: whoever sleeps on the list also waits. */
  ghost predicate SleepersWait(s: State)
    requires WF(s)
  {
    forall i :: i in s.active && s.clocks[i].sleeping ==> s.clocks[i].waiting
  }

  ghost predicate OthersAsleep(s: State, cur: int)
    requires WF(s)
  {
    forall i :: i in s.active && i != cur ==> s.clocks[i].sleeping
  }

  /**
  The state in which the loop cannot make progress: everybody else sleeps, another thread is the
  minimum, it is recorded, and its notification has already been sent but not yet acted on.
  */
  ghost predicate Stranded(s: State, cur: int)
    requires WF(s)
  {
    OthersAsleep(s, cur) && Lowest(s) != cur && s.lowestTid == Lowest(s) && !s.notificationNeeded
  }

  lemma NobodyAwake(s: State)
    requires Good(s)
    ensures AwakeCount(s.clocks, s.active) == 0 <==> forall i :: i in s.active ==> s.clocks[i].sleeping
  {
    AwakeCountIsCardinality(s.clocks, s.active);
    var awake := AwakeSet(s.clocks, s.active);
    if i :| i in s.active && !s.clocks[i].sleeping {
      assert i in awake;
    } else {
      assert awake == {};
    }
  }

  lemma PassEffect(s: State, cur: int, stack: seq<int>)
    requires Caller(s, cur, stack) && Good(s) && SleepersWait(s) && cur in s.active
    ensures var o, e := SleepPass(s, cur, stack), s.clocks[cur];
            && o.s.clocks == s.clocks[cur := e.(waiting := Lowest(s) != cur, sleeping := Lowest(s) != cur)]
            && o.s.active == s.active && Good(o.s) && Lowest(o.s) == Lowest(s)
  {
    DetermineExact(s, cur, stack);
    DetermineEffect(s, cur, stack);
    var d, o := Determine(s, cur, stack), SleepPass(s, cur, stack);
    assert SameStamps(d.s.clocks, o.s.clocks);
    ScanOfSameStamps(d.s.clocks, o.s.clocks, s.active);
  }

  /** The loop leaves on its first pass exactly when the group is not stranded. */
  lemma TriesAgainExactlyWhenStranded(s: State, cur: int, stack: seq<int>)
    requires Caller(s, cur, stack) && Good(s) && SleepersWait(s) && cur in s.active
    ensures TriesAgain(SleepPass(s, cur, stack)) <==> Stranded(s, cur)
  {
    var o := SleepPass(s, cur, stack);
    PassEffect(s, cur, stack);
    NobodyAwake(o.s);
    DetermineExact(s, cur, stack);
    LowestIsUniqueMinimum(s);
    if OthersAsleep(s, cur) && Lowest(s) != cur {
      assert s.clocks[Lowest(s)].waiting;
      assert forall i :: i in o.s.active ==> o.s.clocks[i].sleeping;
    } else if Lowest(s) == cur {
      assert !o.s.clocks[cur].sleeping;
    }
  }

  /** On leaving, the loop has somebody to wake up or somebody listed is awake. */
  lemma LeavesWithSomebody(s: State, cur: int, stack: seq<int>)
    requires Caller(s, cur, stack) && Good(s) && SleepersWait(s) && cur in s.active && !Stranded(s, cur)
    ensures var o := SleepPass(s, cur, stack);
            o.wake >= 0 || exists i :: i in o.s.active && o.s.clocks[i].Live() && !o.s.clocks[i].sleeping
  {
    TriesAgainExactlyWhenStranded(s, cur, stack);
    PassEffect(s, cur, stack);
    NobodyAwake(SleepPass(s, cur, stack).s);
  }

  /** The state after a number of passes, each with its own scratch array. */
  function Passes(s: State, cur: int, stacks: seq<seq<int>>): (r: State)
    requires WF(s) && 0 <= cur < |s.clocks|
    requires forall k :: 0 <= k < |stacks| ==> |stacks[k]| == STACK_SLOTS
    ensures WF(r) && |r.clocks| == |s.clocks|
  {
    if stacks == [] then s else SleepPass(Passes(s, cur, stacks[..|stacks|-1]), cur, stacks[|stacks|-1]).s
  }

  /** A stranded caller stays stranded: however many passes it makes, it tries again. */
  lemma {:induction false} StrandedForever(s: State, cur: int, stacks: seq<seq<int>>, stack: seq<int>)
    requires Caller(s, cur, stack) && Good(s) && SleepersWait(s) && cur in s.active && Stranded(s, cur)
    requires forall k :: 0 <= k < |stacks| ==> |stacks[k]| == STACK_SLOTS
    ensures TriesAgain(SleepPass(Passes(s, cur, stacks), cur, stack))
    decreases |stacks|
  {
    StrandedStays(s, cur, stacks);
    TriesAgainExactlyWhenStranded(Passes(s, cur, stacks), cur, stack);
  }

  lemma {:induction false} StrandedStays(s: State, cur: int, stacks: seq<seq<int>>)
    requires WF(s) && 0 <= cur < |s.clocks| && Good(s) && SleepersWait(s) && cur in s.active && Stranded(s, cur)
    requires forall k :: 0 <= k < |stacks| ==> |stacks[k]| == STACK_SLOTS
    ensures var r := Passes(s, cur, stacks);
            Good(r) && SleepersWait(r) && r.active == s.active && Stranded(r, cur)
  {
    if stacks == [] {
    } else {
      StrandedStays(s, cur, stacks[..|stacks|-1]);
      StrandedPass(Passes(s, cur, stacks[..|stacks|-1]), cur, stacks[|stacks|-1]);
    }
  }

  /** A pass that cannot wake anybody leaves the caller stranded. */
  lemma StrandedPass(s: State, cur: int, stack: seq<int>)
    requires Caller(s, cur, stack) && Good(s) && SleepersWait(s) && cur in s.active && Stranded(s, cur)
    ensures var r := SleepPass(s, cur, stack).s;
            Good(r) && SleepersWait(r) && r.active == s.active && Stranded(r, cur)
  {
    PassEffect(s, cur, stack);
    DetermineExact(s, cur, stack);
    DetermineEffect(s, cur, stack);
    RecordedLowest(s, cur, stack);
    assert Lowest(s) in s.active by {
      LowestIsUniqueMinimum(s);
    }
    assert s.clocks[Lowest(s)].waiting;
  }
}
