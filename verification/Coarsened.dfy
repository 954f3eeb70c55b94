/**
Coarsened transactions of src/lib/determ_clock.c: user space reads the hardware counter itself,
sums up the deltas, and hands the sum to the kernel clock at the end.
*/
module CoarsenedClock {
  import opened Counters

  const X32 := 0x1_0000_0000

  /** The kernel's clock of the thread, the published copy of it, and the user-side bookkeeping. */
  datatype User = User(kernel: int, published: int, coarsened: nat, lastRaw: nat, lastValue: int, inTx: bool)

  /** A 64-bit sum passed as a 32-bit signed argument. */
  function ToInt32(x: nat): int {
    if x % X32 < X31 then x % X32 else x % X32 - X32
  }

  function Read(u: User): int {
    u.published + u.coarsened
  }

  /** The first start of a block also resets the kernel's counting; every start notes the reading. */
  function StartNoNotify(u: User, raw: nat): User {
    u.(inTx := true, lastValue := Read(u), lastRaw := raw)
  }

  function StopNoNotify(u: User, raw: nat): User {
    u.(coarsened := Wrap64(u.coarsened + UserDelta(raw, u.lastRaw)))
  }

  function AddTicks(u: User, ticks: int): User {
    u.(kernel := u.kernel + ticks, published := u.kernel + ticks)
  }

  function EndTx(u: User): User {
    var v := if u.coarsened > 0 then AddTicks(u, ToInt32(u.coarsened)) else u;
    v.(inTx := false, coarsened := 0)
  }

  // ----- a block of transactions

  /** The readings at the start and at the stop of one transaction. */
  datatype Tx = Tx(start: nat, stop: nat)

  function RunTxs(u: User, txs: seq<Tx>): User {
    if txs == [] then u else StopNoNotify(StartNoNotify(RunTxs(u, txs[..|txs|-1]), txs[|txs|-1].start),
        txs[|txs|-1].stop)
  }

  /** The instructions of all transactions: each counts its advance modulo 2^48. */
  function Work(txs: seq<Tx>): nat {
    if txs == [] then 0 else Work(txs[..|txs|-1]) + Residue48(txs[|txs|-1].stop - txs[|txs|-1].start)
  }

  lemma WrapAdds(a: nat, b: nat)
    ensures Wrap64(Wrap64(a) + b) == Wrap64(a + b)
  {
  }

  lemma {:induction false} TxsAddUp(u: User, txs: seq<Tx>)
    requires u.coarsened < X64
    ensures var v := RunTxs(u, txs);
            && v.coarsened == Wrap64(u.coarsened + Work(txs)) && v.kernel == u.kernel && v.published == u.published
            && v.inTx == (u.inTx || txs != [])
            && (txs != [] ==> v.lastRaw == txs[|txs|-1].start
                              && v.lastValue == u.published + Wrap64(u.coarsened + Work(txs[..|txs|-1])))
  {
    if txs == [] {
    } else {
      var last := txs[|txs|-1];
      TxsAddUp(u, txs[..|txs|-1]);
      UserDeltaIsResidue(last.stop, last.start);
      WrapAdds(u.coarsened + Work(txs[..|txs|-1]), Residue48(last.stop - last.start));
    }
  }

  /** What the sum amounts to as an argument: 2^64 and 2^32 wraps together lose nothing exactly below 2^31. */
  lemma ArgumentExactlyWhen(work: nat)
    ensures ToInt32(Wrap64(work)) == work <==> work < X31
    ensures ToInt32(0) == 0
  {
  }

  lemma EndTxMovesBy(u: User)
    ensures EndTx(u).kernel == u.kernel + ToInt32(u.coarsened)
  {
  }

  /**
  Coarsened conservation: a block advances the kernel clock by exactly the work done in it -- when,
  and only when, the work fits the 32-bit argument.
  */
  lemma BlockConservesExactlyWhen(u: User, txs: seq<Tx>)
    requires u.coarsened == 0
    ensures EndTx(RunTxs(u, txs)).kernel == u.kernel + Work(txs) <==> Work(txs) < 0x8000_0000
    ensures EndTx(RunTxs(u, txs)).coarsened == 0 && !EndTx(RunTxs(u, txs)).inTx
  {
    TxsAddUp(u, txs);
    EndTxMovesBy(RunTxs(u, txs));
    ArgumentExactlyWhen(Work(txs));
  }

  /** Ending a block leaves the clock that user space reads unchanged, under the same condition. */
  lemma EndKeepsReadingExactlyWhen(u: User)
    requires u.published == u.kernel && u.coarsened < X64
    ensures Read(EndTx(u)) == Read(u) <==> u.coarsened < 0x8000_0000
    ensures EndTx(u).published == EndTx(u).kernel
  {
  }

  /** A block of 2^31 or more, and less than 2^32, turns the kernel clock back. */
  lemma HugeBlockGoesBackwards(u: User, txs: seq<Tx>)
    requires u.coarsened == 0 && X31 <= Work(txs) < X32
    ensures EndTx(RunTxs(u, txs)).kernel == u.kernel + Work(txs) - X32 < u.kernel
  {
    TxsAddUp(u, txs);
    EndTxMovesBy(RunTxs(u, txs));
    HugeArgument(Work(txs));
  }

  lemma HugeArgument(work: nat)
    requires X31 <= work < X32
    ensures ToInt32(Wrap64(work)) == work - X32
  {
  }

  // ----- blocks on an armed counter

  /** The readings of a block between arming and overflow: the counter only counts up. */
  ghost predicate InOrderUpTo(txs: seq<Tx>, last: int) {
    if txs == [] then 0 - ARMED <= last else
      var n := |txs| - 1;
      Position(txs[n].start) <= Position(txs[n].stop) <= last && InOrderUpTo(txs[..n], Position(txs[n].start))
  }

  lemma {:induction false} WorkBelow(txs: seq<Tx>, last: int)
    requires InOrderUpTo(txs, last)
    ensures Work(txs) <= last + ARMED
  {
    if txs == [] {
    } else {
      var n := |txs| - 1;
      WorkBelow(txs[..n], Position(txs[n].start));
      ResidueOfPositions(txs[n].stop, txs[n].start);
    }
  }

  lemma ResidueOfPositions(now: nat, prev: nat)
    requires Position(prev) <= Position(now)
    ensures Residue48(now - prev) == Position(now) - Position(prev)
  {
    var i, j := Position(now), Position(prev);
    assert now - prev == ((now - i) / X48 - (prev - j) / X48) * X48 + (i - j);
  }

  /** As long as the counter has not overflowed, a block is small enough, and is conserved. */
  lemma ArmedBlockConserves(u: User, txs: seq<Tx>)
    requires u.coarsened == 0 && InOrderUpTo(txs, 0)
    ensures Work(txs) <= ARMED && EndTx(RunTxs(u, txs)).kernel == u.kernel + Work(txs)
  {
    WorkBelow(txs, 0);
    BlockConservesExactlyWhen(u, txs);
  }

  // ----- overflows inside a block

  /** What happens before a transaction, and during it. */
  datatype Stretch = Stretch(before: seq<Event>, during: seq<Event>)

  /** The counter after a number of transactions. */
  function CounterAfter(c: Counter, st: seq<Stretch>): Counter {
    if st == [] then c else
      var n := |st| - 1;
      Acts(Acts(CounterAfter(c, st[..n]), st[n].before), st[n].during)
  }

  /** What user space reads at their starts and stops. */
  function Readings(c: Counter, st: seq<Stretch>): seq<Tx> {
    if st == [] then [] else
      var n := |st| - 1;
      Readings(c, st[..n]) + [Tx(Acts(CounterAfter(c, st[..n]), st[n].before).raw, CounterAfter(c, st).raw)]
  }

  /** The events that occurred inside the transactions. */
  function EventsInside(c: Counter, st: seq<Stretch>): int {
    if st == [] then 0 else
      var n := |st| - 1;
      EventsInside(c, st[..n]) + CounterAfter(c, st).retired - Acts(CounterAfter(c, st[..n]), st[n].before).retired
  }

  /** How far interrupts inside the transactions took the counter back. */
  function TakenBack(c: Counter, st: seq<Stretch>): int {
    if st == [] then 0 else
      var n := |st| - 1;
      TakenBack(c, st[..n]) + RolledBack(Acts(CounterAfter(c, st[..n]), st[n].before), st[n].during)
  }

  ghost predicate TimelyBlock(c: Counter, st: seq<Stretch>) {
    if st == [] then Near(c) else
      var n := |st| - 1;
      var start := Acts(CounterAfter(c, st[..n]), st[n].before);
      && TimelyBlock(c, st[..n]) && Timely(CounterAfter(c, st[..n]), st[n].before)
      && Timely(start, st[n].during) && OnOverflow(start, st[n].during)
  }

  /** The sum of the signed advances. */
  function Advances(txs: seq<Tx>): int {
    if txs == [] then 0 else
      var n := |txs| - 1;
      Advances(txs[..n]) + Position(txs[n].stop) - Position(txs[n].start)
  }

  /** How often the sum of the residues is off by 2^48 from that. */
  function Borrows(txs: seq<Tx>): nat {
    if txs == [] then 0 else
      var n := |txs| - 1;
      Borrows(txs[..n]) + if Position(txs[n].stop) < Position(txs[n].start) then 1 else 0
  }

  lemma ResidueBorrows(now: nat, prev: nat)
    requires Position(now) < Position(prev)
    ensures Residue48(now - prev) == Position(now) - Position(prev) + X48
  {
    var i, j := Position(now), Position(prev);
    assert now - prev == ((now - i) / X48 - (prev - j) / X48 - 1) * X48 + (i - j + X48);
  }

  lemma {:induction false} WorkIsAdvances(txs: seq<Tx>)
    ensures Work(txs) == Advances(txs) + Borrows(txs) * X48
  {
    if txs == [] {
    } else {
      var n := |txs| - 1;
      WorkIsAdvances(txs[..n]);
      if Position(txs[n].stop) < Position(txs[n].start) {
        ResidueBorrows(txs[n].stop, txs[n].start);
      } else {
        ResidueOfPositions(txs[n].stop, txs[n].start);
      }
    }
  }

  /** The 32-bit argument is the signed sum, whenever that fits: the borrowed 2^48 do not show. */
  lemma ArgumentIsAdvances(work: nat, advances: int, borrows: nat)
    requires work == advances + borrows * X48 && 0 - X31 <= advances < X31
    ensures ToInt32(Wrap64(work)) == advances
  {
    var q := borrows * X16 - work / X64 * X32;
    var w := Wrap64(work);
    assert w == advances + q * X32;
    if advances < 0 {
      ModuloIs(w, q - 1, advances + X32);
    } else {
      ModuloIs(w, q, advances);
    }
  }

  lemma ModuloIs(w: int, q: int, r: int)
    requires w == r + q * X32 && 0 <= r < X32
    ensures w % X32 == r
  {
  }

  lemma BlockMovesByAdvances(u: User, txs: seq<Tx>)
    requires u.coarsened == 0 && 0 - X31 <= Advances(txs) < X31
    ensures EndTx(RunTxs(u, txs)).kernel == u.kernel + Advances(txs)
  {
    WorkIsAdvances(txs);
    ArgumentIsAdvances(Work(txs), Advances(txs), Borrows(txs));
    TxsAddUp(u, txs);
    EndTxMovesBy(RunTxs(u, txs));
  }

  lemma {:induction false} AdvancesAreEvents(c: Counter, st: seq<Stretch>)
    requires TimelyBlock(c, st)
    ensures Near(CounterAfter(c, st)) && Advances(Readings(c, st)) == EventsInside(c, st) - TakenBack(c, st)
    ensures TakenBack(c, st) >= 0 && (TakenBack(c, st) == 0 <==>
          forall k :: 0 <= k < |st| ==> NoInterrupt(st[k].during))
  {
    if st == [] {
    } else {
      var n := |st| - 1;
      AdvancesAreEvents(c, st[..n]);
      var before := CounterAfter(c, st[..n]);
      var start := Acts(before, st[n].before);
      ActsConserve(before, st[n].before);
      ActsConserve(start, st[n].during);
      PositionAfter(start, st[n].during);
      RolledBackExactlyWhen(start, st[n].during);
      assert Readings(c, st)[..n] == Readings(c, st[..n]) by {
        ReadingsLength(c, st[..n]);
      }
      assert forall k :: 0 <= k < n ==> st[..n][k] == st[k];
    }
  }

  lemma {:induction false} ReadingsLength(c: Counter, st: seq<Stretch>)
    ensures |Readings(c, st)| == |st|
  {
    if st == [] {
    } else {
      ReadingsLength(c, st[..|st|-1]);
    }
  }

  /**
  With overflows: a block moves the kernel clock by the events inside its transactions, less what
  interrupts inside them took the counter back -- so it conserves exactly when no overflow
  interrupt falls inside a transaction, and turns the clock back when they take back more than occurred.
  */
  lemma BlockWithOverflows(u: User, c: Counter, st: seq<Stretch>)
    requires u.coarsened == 0 && TimelyBlock(c, st) && 0 - X31 <= EventsInside(c, st) - TakenBack(c, st) < X31
    ensures var r := EndTx(RunTxs(u, Readings(c, st)));
            && r.kernel == u.kernel + EventsInside(c, st) - TakenBack(c, st)
            && (r.kernel == u.kernel + EventsInside(c, st) <==> forall k :: 0 <= k < |st| ==> NoInterrupt(st[k].during))
  {
    AdvancesAreEvents(c, st);
    BlockMovesByAdvances(u, Readings(c, st));
  }
}
