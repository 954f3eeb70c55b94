/**
The adaptive overflow period of src/module/logical_clock_instruction_counting.h: how many
instructions a running thread may retire before the next overflow lets it look for a thread
to notify.
*/
module Periods {

  const MAX_CLOCK_SAMPLE_PERIOD := 200000
  const MIN_CLOCK_SAMPLE_PERIOD := 1024
  const PERIOD_STEP := 10000
  const WAITER_MARGIN := 1000

  function Min(a: nat, b: nat): nat {
    if a < b then a else b
  }

  function Max(a: nat, b: nat): nat {
    if a > b then a else b
  }

  /** The period asked for before any bound: grow, or aim just past the lowest waiter ahead of us. */
  function Wish(period: nat, clock: nat, waiter: int): nat {
    if waiter > clock then Max(waiter - clock + WAITER_MARGIN, MIN_CLOCK_SAMPLE_PERIOD) else period + PERIOD_STEP
  }

  /** The next period without the bounded fence. `waiter` is a clock, or -1 when nobody waits. */
  function Choose(period: nat, clock: nat, waiter: int): nat {
    Min(Wish(period, clock, waiter), MAX_CLOCK_SAMPLE_PERIOD)
  }

  /**
  A running thread whose overflows arrive exactly at the chosen periods, while the lowest waiter
  stays at clock w: its clock at the first overflow that has reached the waiter.
  */
  function FirstOverflowAt(clock: nat, w: nat): nat
    decreases w - clock
  {
    if clock >= w then clock else FirstOverflowAt(clock + Choose(0, clock, w), w)
  }

  /** The clocks at the overflows up to that point, in order. */
  function Overflows(clock: nat, w: nat): seq<nat>
    decreases w - clock
  {
    if clock >= w then [] else
      var next := clock + Choose(0, clock, w);
      [next] + Overflows(next, w)
  }

  /** How late a thread that trails the waiter by `lead` comes: full periods first, then past the waiter. */
  function Lateness(lead: nat): int {
    var rest := (lead - 1) % 200000 + 1;
    if rest > 199000 then 200000 - rest else if rest < 24 then 1024 - rest else 1000
  }

  /**
  Bounded overshoot: finitely many overflows -- one for every full period, and one more -- bring the
  thread to the waiter's clock; none before the last has reached it, and how late the last is
  depends on the lead alone: less than 1024 instructions.
  */
  lemma {:induction false} BoundedOvershoot(clock: nat, w: nat)
    requires clock < w
    ensures FirstOverflowAt(clock, w) in Overflows(clock, w)
    ensures w <= FirstOverflowAt(clock, w) <= w + MIN_CLOCK_SAMPLE_PERIOD - 1
    ensures var o := Overflows(clock, w);
            o != [] && o[|o| - 1] == FirstOverflowAt(clock, w) && forall k :: 0 <= k < |o| - 1 ==> clock < o[k] < w
    ensures FirstOverflowAt(clock, w) == w + Lateness(w - clock)
    ensures |Overflows(clock, w)| == (w - clock - 1) / 200000 + 1
    decreases w - clock
  {
    var next := clock + Choose(0, clock, w);
    if next < w {
      assert next == clock + MAX_CLOCK_SAMPLE_PERIOD;
      BoundedOvershoot(next, w);
      LatenessRecurs(w - clock);
    } else {
      assert Overflows(clock, w) == [next];
    }
  }

  lemma LatenessRecurs(lead: nat)
    requires lead > 200000
    ensures Lateness(lead) == Lateness(lead - 200000)
    ensures (lead - 1) / 200000 == (lead - 200000 - 1) / 200000 + 1
  {
  }
}
