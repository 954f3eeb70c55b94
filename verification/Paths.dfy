/** Runs of a transition relation: the states, and the step from each to the next. */
module Paths {

  ghost predicate Path<X(!new), S(!new)>(moves: (X, S, X) -> bool, run: seq<X>, steps: seq<S>) {
    |run| == |steps| + 1 && forall k {:trigger steps[k]} :: 0 <= k < |steps| ==> moves(run[k], steps[k], run[k + 1])
  }

  /** A path goes on in front of its first state. */
  lemma Prepend<X(!new), S(!new)>(moves: (X, S, X) -> bool, x: X, step: S, run: seq<X>, steps: seq<S>)
    requires Path(moves, run, steps) && moves(x, step, run[0])
    ensures Path(moves, [x] + run, [step] + steps)
  {
    var longer, all := [x] + run, [step] + steps;
    forall k {:trigger all[k]} | 0 <= k < |all| ensures moves(longer[k], all[k], longer[k + 1]) {
      if k > 0 {
        assert all[k] == steps[k-1] && longer[k] == run[k-1] && longer[k + 1] == run[k];
      }
    }
  }

  ghost predicate Connects<X(!new), S(!new)>(moves: (X, S, X) -> bool, x: X, steps: seq<S>, y: X) {
    exists run :: Path(moves, run, steps) && run[0] == x && run[|steps|] == y
  }

  lemma ConnectsItself<X(!new), S(!new)>(moves: (X, S, X) -> bool, x: X)
    ensures Connects(moves, x, [], x)
  {
    assert Path(moves, [x], []);
  }

  lemma StepBefore<X(!new), S(!new)>(moves: (X, S, X) -> bool, x: X, step: S, y: X, steps: seq<S>, z: X)
    requires moves(x, step, y) && Connects(moves, y, steps, z)
    ensures Connects(moves, x, [step] + steps, z)
  {
    var run :| Path(moves, run, steps) && run[0] == y && run[|steps|] == z;
    Prepend(moves, x, step, run, steps);
    assert ([x] + run)[|steps| + 1] == z;
  }
}
