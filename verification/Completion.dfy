/**
Which runs of the client cycle can be finished, and what finished runs have granted: where no
request was forgotten the group can always finish unless a thread spins in its sleep call, however
late the deferred notifications; and a finished run has granted the whole canonical schedule.
*/
module Completion {
  import opened Clocks
  import opened Protocol
  import opened Runs
  import opened Merges
  import opened Paths
  import opened Schedule

  // ----- a bound on the work that is left

  /** How far a thread is from the end of its cycle, when it has no further request. */
  function Distance(ph: Phase): nat {
    match ph
    case Stopped(granted) => if granted then 5 else 2
    case Awake => 4
    case Running => 3
    case Halting => 1
    case Halted => 0
  }

  function Share(ph: Phase, todo: seq<nat>): nat {
    4 * |todo| + Distance(ph)
  }

  function Burden(phase: seq<Phase>, todo: seq<seq<nat>>): nat
    requires |phase| == |todo|
  {
    if phase == [] then 0 else
      var n := |phase| - 1;
      Burden(phase[..n], todo[..n]) + Share(phase[n], todo[n])
  }

  ghost function BurdenOf(x: Sys): nat
    requires Sized(x)
  {
    Burden(x.phase, x.todo)
  }

  /** No thread's share grows. */
  ghost predicate NoneGrows(phase: seq<Phase>, todo: seq<seq<nat>>, phase': seq<Phase>, todo': seq<seq<nat>>)
    requires |phase| == |todo| == |phase'| == |todo'|
  {
    forall i :: 0 <= i < |phase| ==> Share(phase'[i], todo'[i]) <= Share(phase[i], todo[i])
  }

  lemma {:induction false} BurdenFalls(phase: seq<Phase>, todo: seq<seq<nat>>, phase': seq<Phase>,
      todo': seq<seq<nat>>, k: int)
    requires |phase| == |todo| == |phase'| == |todo'| && NoneGrows(phase, todo, phase', todo')
    ensures Burden(phase', todo') <= Burden(phase, todo)
    ensures 0 <= k < |phase| && Share(phase'[k], todo'[k]) < Share(phase[k], todo[k]) ==>
          Burden(phase', todo') < Burden(phase, todo)
  {
    if phase == [] {
    } else {
      var n := |phase| - 1;
      BurdenFalls(phase[..n], todo[..n], phase'[..n], todo'[..n], k);
    }
  }

  /** The steps that move a thread on in its cycle; all others are interrupts and renewed waits. */
  predicate Progresses(op: Op) {
    op.Stop? || op.WokeUp? || op.Enable? || op.Disable? || op.Halt?
  }

  lemma AnsweringShares(ph: Phase, todo: seq<nat>, granted: bool)
    ensures Share(Answer(ph, todo, granted), Left(ph, todo, granted)) <= Share(ph, todo)
  {
  }

  lemma MovingShares(op: Op, ph: Phase, todo: seq<nat>)
    requires Deciding(op)
    requires (op.Stop? || op.Disable? ==> ph == Running) && (op.Enable? ==> ph == Awake) && (op.Halt? ==> ph == Halting)
    requires !op.AddTicks?
    ensures Share(MovedTo(op, ph), todo) + (if Progresses(op) then 1 else 0) <= Share(ph, todo)
  {
  }

  lemma DecidingShares(x: Sys, step: Step, p: State, o: Outcome, y: Sys)
    requires Steps(x, step, p, o, y)
    ensures NoneGrows(x.phase, x.todo, y.phase, y.todo)
    ensures Progresses(step.op) ==> Share(y.phase[step.op.t], y.todo[step.op.t]) < Share(x.phase[step.op.t],
        x.todo[step.op.t])
  {
    var t, granted := step.op.t, o.s.status[step.op.t].lowestClock;
    var moved := MovedTo(step.op, x.phase[t]);
    MovingShares(step.op, x.phase[t], x.todo[t]);
    AnsweringShares(moved, x.todo[t], granted);
    if o.wake >= 0 {
      AnsweringShares(x.phase[o.wake], x.todo[o.wake], true);
    }
    ResumesShares(x, y, t, moved, granted, o.wake);
  }

  lemma ResumesShares(x: Sys, y: Sys, t: int, moved: Phase, granted: bool, wake: int)
    requires Sized(x) && Sized(y) && |y.phase| == |x.phase| && 0 <= t < |x.phase| && -1 <= wake < |x.phase|
    requires Resumes(x, y, t, moved, granted, wake)
    requires Share(Answer(moved, x.todo[t], granted), Left(moved, x.todo[t], granted)) <= Share(x.phase[t], x.todo[t])
    ensures NoneGrows(x.phase, x.todo, y.phase, y.todo)
  {
    if wake >= 0 {
      AnsweringShares(x.phase[wake], x.todo[wake], true);
    }
  }

  /** Every step of a thread's cycle uses up some of the bound, and no step adds to it. */
  lemma StepBurden(x: Sys, step: Step)
    requires Ok(x) && Allowed(x, step)
    ensures BurdenOf(After(x, step)) + (if Progresses(step.op) then 1 else 0) <= BurdenOf(x)
  {
    if Deciding(step.op) {
      DecidingBurden(x, step);
    } else {
      OtherBurden(x, step);
    }
  }

  lemma DecidingBurden(x: Sys, step: Step)
    requires Ok(x) && Allowed(x, step) && Deciding(step.op)
    ensures BurdenOf(After(x, step)) + (if Progresses(step.op) then 1 else 0) <= BurdenOf(x)
  {
    var y := After(x, step);
    DecidingAfter(x, step);
    DecidingShares(x, step, Prefix(x.s, step.op), Apply(x.s, step.op, step.stack), y);
    BurdenFalls(x.phase, x.todo, y.phase, y.todo, step.op.t);
  }

  lemma AwardBurden(x: Sys, g: int)
    requires Sized(x)
    ensures BurdenOf(Award(x, g)) <= BurdenOf(x)
  {
    var y := Award(x, g);
    assert NoneGrows(x.phase, x.todo, y.phase, y.todo);
    BurdenFalls(x.phase, x.todo, y.phase, y.todo, -1);
  }

  lemma WakingUpBurden(phase: seq<Phase>, todo: seq<seq<nat>>, t: int)
    requires |phase| == |todo| && 0 <= t < |phase| && phase[t] == Stopped(true)
    ensures Burden(phase[t := Awake], todo) < Burden(phase, todo)
  {
    BurdenFalls(phase, todo, phase[t := Awake], todo, t);
  }

  lemma OtherBurden(x: Sys, step: Step)
    requires Ok(x) && Allowed(x, step) && !Deciding(step.op)
    ensures BurdenOf(After(x, step)) + (if Progresses(step.op) then 1 else 0) <= BurdenOf(x)
  {
    var op, o := step.op, Apply(x.s, step.op, step.stack);
    AwardBurden(Sys(UserSide(o.s, op), Moved(x.phase, op), x.todo, x.turns, -1), GrantedBy(op, o));
    if op.WokeUp? {
      WokeUpMovesOn(x, op);
    }
  }

  lemma WokeUpMovesOn(x: Sys, op: Op)
    requires Ok(x) && op.WokeUp? && 0 <= op.t < |x.phase| && x.phase[op.t].Stopped? && MayProceed(x.s, op.t)
    ensures Burden(Moved(x.phase, op), x.todo) < Burden(x.phase, x.todo)
  {
    assert ThreadOk(x, op.t);
    WakingUpBurden(x.phase, x.todo, op.t);
  }

  function ProgressIn(steps: seq<Step>): nat {
    if steps == [] then 0 else
      var n := |steps| - 1;
      ProgressIn(steps[..n]) + if Progresses(steps[n].op) then 1 else 0
  }

  ghost predicate Falls(x: Sys, step: Step, y: Sys) {
    Sized(x) && Sized(y) && BurdenOf(y) + (if Progresses(step.op) then 1 else 0) <= BurdenOf(x)
  }

  lemma MoveFalls(run: seq<Sys>, steps: seq<Step>, k: nat)
    requires Interleaving(run, steps) && Ok(run[0]) && k < |steps|
    ensures Falls(run[k], steps[k], run[k + 1])
  {
    InterleavingKeepsSchedule(run, steps, k);
    assert Moves(run[k], steps[k], run[k + 1]);
    StepBurden(run[k], steps[k]);
  }

  lemma {:induction false} FallsAddUp(run: seq<Sys>, steps: seq<Step>)
    requires |run| == |steps| + 1 && Sized(run[0])
    requires forall k {:trigger steps[k]} :: 0 <= k < |steps| ==> Falls(run[k], steps[k], run[k + 1])
    ensures Sized(run[|steps|]) && ProgressIn(steps) + BurdenOf(run[|steps|]) <= BurdenOf(run[0])
    decreases |steps|
  {
    if steps == [] {
    } else {
      var n := |steps| - 1;
      FallsAddUp(run[..|steps|], steps[..n]);
      assert Falls(run[n], steps[n], run[n + 1]);
    }
  }

  /** So no run, however long, has more cycle steps than the bound it started with. */
  lemma RunBurden(x: Sys, steps: seq<Step>, y: Sys)
    requires Ok(x) && Reaches(x, steps, y)
    ensures Sized(y) && ProgressIn(steps) + BurdenOf(y) <= BurdenOf(x)
  {
    var run :| Interleaving(run, steps) && run[0] == x && run[|steps|] == y;
    InterleavingFalls(run, steps);
    FallsAddUp(run, steps);
  }

  lemma InterleavingFalls(run: seq<Sys>, steps: seq<Step>)
    requires Interleaving(run, steps) && Ok(run[0])
    ensures |run| == |steps| + 1
    ensures forall k {:trigger steps[k]} :: 0 <= k < |steps| ==> Falls(run[k], steps[k], run[k + 1])
  {
    forall k {:trigger steps[k]} | 0 <= k < |steps| ensures Falls(run[k], steps[k], run[k + 1]) {
      MoveFalls(run, steps, k);
    }
  }

  // ----- no deadlock

  /** What a thread that is not blocked does next. */
  function NextOp(ph: Phase, i: int, clock: nat, todo: seq<nat>): Op {
    match ph
    case Running => if todo != [] && todo[0] >= clock then Op.Stop(i, todo[0] - clock) else Op.Disable(i, 0)
    case Stopped(_) => Op.WokeUp(i)
    case Awake => Op.Enable(i)
    case Halting => Op.Halt(i)
    case Halted => Op.Halt(i)
  }

  /** As long as anybody is listed, no request is forgotten and nobody spins,
      some thread can take the next step of its cycle. */
  lemma SomebodyProgresses(x: Sys, stack: seq<int>) returns (step: Step)
    requires Live(x) && x.spinning == -1 && x.s.active != [] && |stack| == STACK_SLOTS
    ensures Allowed(x, step) && Progresses(step.op)
  {
    SomebodyCanGoOn(x);
    var i :| i in x.s.active && CanGoOn(x, i);
    assert ThreadOk(x, i);
    step := Step(NextOp(x.phase[i], i, x.s.clocks[i].Clock(), x.todo[i]), stack);
  }

  ghost predicate Finished(y: Sys) {
    Sized(y) && y.s.active == [] && forall i :: 0 <= i < |y.todo| ==> y.todo[i] == [] && y.phase[i] == Halted
  }

  lemma UnlistedIsFinished(x: Sys)
    requires Ok(x) && x.s.active == []
    ensures Finished(x)
  {
    forall i | 0 <= i < |x.todo| ensures x.todo[i] == [] && x.phase[i] == Halted {
      assert ThreadOk(x, i);
    }
  }

  ghost predicate CanFinish(x: Sys) {
    exists steps, y :: Reaches(x, steps, y) && Finished(y)
  }

  lemma StepFirst(x: Sys, step: Step)
    requires Allowed(x, step) && CanFinish(After(x, step))
    ensures CanFinish(x)
  {
    var steps, y :| Reaches(After(x, step), steps, y) && Finished(y);
    StepBefore(Cycle(), x, step, After(x, step), steps, y);
    assert Reaches(x, [step] + steps, y);
  }

  /** With a thread spinning, nothing moves any more. */
  lemma NothingMoves(x: Sys, steps: seq<Step>, y: Sys)
    requires x.spinning != -1 && Reaches(x, steps, y)
    ensures steps == [] && y == x
  {
    var run :| Interleaving(run, steps) && run[0] == x && run[|steps|] == y;
    if steps != [] {
      MovingNeedsTheLock(run, steps);
    }
  }

  lemma MovingNeedsTheLock(run: seq<Sys>, steps: seq<Step>)
    requires Interleaving(run, steps) && steps != []
    ensures run[0].spinning == -1
  {
    assert Moves(run[0], steps[0], run[1]);
  }

  /**
  From a state reached from one where no request was forgotten, the group can run to its end exactly
  when no thread spins there. (When a thread comes to spin: Schedule.SleepHangsExactlyWhen; and from
  which starts a request can be forgotten: Stalls.StartCanStallExactlyWhen.)
  */
  lemma CanFinishExactlyWhen(x: Sys, steps: seq<Step>, y: Sys)
    requires Live(x) && Reaches(x, steps, y)
    ensures CanFinish(y) <==> y.spinning == -1
  {
    RunKeepsSchedule(x, steps, y);
    if y.spinning == -1 {
      GroupCanFinish(y, seq(STACK_SLOTS, i => 0));
    } else if CanFinish(y) {
      var more, z :| Reaches(y, more, z) && Finished(z);
      NothingMoves(y, more, z);
    }
  }

  /** As long as no request is forgotten and nobody spins, the group can run to its end. */
  lemma {:induction false} GroupCanFinish(x: Sys, stack: seq<int>)
    requires Live(x) && x.spinning == -1 && |stack| == STACK_SLOTS
    ensures CanFinish(x)
    decreases BurdenOf(x)
  {
    if x.s.active == [] {
      UnlistedIsFinished(x);
      ConnectsItself(Cycle(), x);
      assert Reaches(x, [], x);
    } else {
      var step := SomebodyProgresses(x, stack);
      var next := After(x, step);
      StepBurden(x, step);
      StepKeepsOk(x, step);
      GroupCanFinish(next, stack);
      StepFirst(x, step);
    }
  }

  /**
  A finished run has granted the whole schedule: every thread got exactly the turns it asked for,
  after exactly its chunks, and all turns came in (clock, tid) order.
  */
  lemma FinishedRunsGrantTheWholeSchedule(s: State, chunks: seq<seq<nat>>, steps: seq<Step>, y: Sys)
    requires Fresh(s, chunks) && Reaches(Begin(s, chunks), steps, y) && Finished(y)
    ensures y.turns == Merge(Plan(s, chunks))
    ensures forall i :: 0 <= i < |chunks| ==> TurnsOf(y.turns, i) == Requests(s.clocks[i].Clock(), chunks[i])
    ensures InTurnOrder(y.turns)
  {
    ScheduleIndependence(s, chunks, steps, y);
    assert Merge(y.todo) == [] by {
      MinHeadLeads(y.todo);
    }
    PlanIsServed(s, chunks);
  }

  lemma PlanIsServed(s: State, chunks: seq<seq<nat>>)
    requires |chunks| == |s.clocks|
    ensures forall i :: 0 <= i < |chunks| ==> TurnsOf(Merge(Plan(s, chunks)), i) == Requests(s.clocks[i].Clock(),
        chunks[i])
    ensures InTurnOrder(Merge(Plan(s, chunks)))
  {
    var todo := Plan(s, chunks);
    forall i | 0 <= i < |chunks| ensures TurnsOf(Merge(todo), i) == Requests(s.clocks[i].Clock(), chunks[i])
        && Ascending(todo[i]) {
      MergeServesEveryRequest(todo, i);
      RequestsAscend(s.clocks[i].Clock(), chunks[i]);
    }
    MergeIsInTurnOrder(todo);
  }
}
