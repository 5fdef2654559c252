/** When the bit transmitter may be used without being mistaken for a START or a STOP: conditions on
    its `drive_i` and `drive_value_i` under which SDA never moves while SCL is high. */
module BusTxSafety {
  import opened Wave
  import opened BusTx

  /** The event inputs as the bus monitor produces them with zero rise and fall delays. */
  ghost predicate Follows(ins: nat -> In, scl: Line) {
    forall n: nat :: ins(n).sclNegedge == Fell(scl, n) && ins(n).sclStableLow == !Prev(scl, n)
  }

  /** A bit starts its setup time in this cycle. */
  ghost predicate SetupBegins(r: Regs, i: In) {
    (r.state.Idle? || r.state.AwaitClockNegedge?) && i.drive && i.LowSeen()
  }

  ghost predicate HoldBegins(r: Regs, i: In) {
    r.state.TransmitData? && i.drive && i.sclNegedge && !r.tHdZ
  }

  /** SDA shows the requested value because a bit is under way. */
  ghost predicate Carrying(r: Regs) {
    || r.state.TransmitData?
    || (r.state.SetupData? && r.tcount == 1)
    || (r.state.HoldData? && r.tcount != 0)
  }

  /** What is asked of the driver in cycle `n`:
      a request comes early enough in a low phase for the setup delay to end in it,
      the low phase outlasts the hold time, a carried bit is dropped only with SCL low, and
      the value is not changed while SCL is high. */
  ghost predicate DrivenSafely(r: Regs, ins: nat -> In, scl: Line, n: nat) {
    && (SetupBegins(r, ins(n)) ==> LowFor(scl, n, r.tSd))
    && (HoldBegins(r, ins(n)) ==> LowFor(scl, n, (if ins(n).tm.hold > 0 then ins(n).tm.hold else 1) + 1))
    && (Carrying(r) && !ins(n).drive ==> !scl(n))
    && (ins(n).drive && scl(n) && scl(n + 1) ==> ins(n).value == ins(n + 1).value)
  }

  ghost predicate SafelyPlaced(r: Regs, scl: Line, n: nat) {
    && r.Consistent()
    && (r.state.AwaitClockNegedge? ==> Prev(scl, n))
    && (r.state.SetupData? ==> r.tcount >= 1 && LowFor(scl, n, r.tcount - 1))
    && (r.state.HoldData? ==> LowFor(scl, n, r.tcount))
  }

  lemma PlacedStep(r: Regs, ins: nat -> In, scl: Line, n: nat)
    requires Follows(ins, scl) && DrivenSafely(r, ins, scl, n) && SafelyPlaced(r, scl, n)
    ensures SafelyPlaced(Next(r, ins(n)), scl, n + 1)
  {
    assert ins(n).sclNegedge == Fell(scl, n);
  }

  lemma {:induction false} Placed(r0: Regs, ins: nat -> In, scl: Line, n: nat)
    requires r0.state.Idle? && r0.Consistent() && Follows(ins, scl)
    requires forall k: nat | k < n :: DrivenSafely(At(r0, ins, k), ins, scl, k)
    ensures SafelyPlaced(At(r0, ins, n), scl, n)
  {
    if n > 0 {
      Placed(r0, ins, scl, n - 1);
      PlacedStep(At(r0, ins, n - 1), ins, scl, n - 1);
    }
  }

  lemma StillWhileHigh(r: Regs, ins: nat -> In, scl: Line, n: nat)
    requires Follows(ins, scl) && DrivenSafely(r, ins, scl, n) && SafelyPlaced(r, scl, n)
    requires scl(n) && scl(n + 1)
    ensures Sda(r, ins(n)) == Sda(Next(r, ins(n)), ins(n + 1))
  {
    assert ins(n).sclNegedge == Fell(scl, n) && ins(n).sclStableLow == !Prev(scl, n);
    assert ins(n + 1).sclNegedge == Fell(scl, n + 1) && ins(n + 1).sclStableLow == !Prev(scl, n + 1);
    assert Prev(scl, n + 1) == scl(n);
    assert !LowFor(scl, n, 1);
    match r.state {
      case Idle => assert ins(n).drive && !Prev(scl, n) ==> r.tSd == 0;
      case AwaitClockNegedge =>
      case SetupData => assert r.tcount == 1;
      case TransmitData =>
      case HoldData => assert r.tcount == 0;
    }
  }

  /** The SDA line a run of the transmitter produces. */
  ghost function SdaLine(r0: Regs, ins: nat -> In): Line { (n: nat) => OutAt(r0, ins, n).sda }

  /** Over any run, with timings that may change at any time: a safely driven transmitter never moves
      SDA while SCL is high. */
  lemma NeverMovesWhileHigh(r0: Regs, ins: nat -> In, scl: Line, n: nat)
    requires r0.state.Idle? && r0.Consistent() && Follows(ins, scl)
    requires forall k: nat | k <= n :: DrivenSafely(At(r0, ins, k), ins, scl, k)
    ensures !MovesWhileHigh(scl, SdaLine(r0, ins), n)
  {
    if scl(n) && scl(n + 1) {
      Placed(r0, ins, scl, n);
      StillWhileHigh(At(r0, ins, n), ins, scl, n);
      var m := n + 1;
      assert At(r0, ins, m) == Next(At(r0, ins, m - 1), ins(m - 1));
    }
  }

  ghost predicate ZeroFrom(sda: Line, t: nat, f: nat) { forall n: nat | n <= f :: sda(n) <==> n < t }

  lemma ZeroBitLine(r0: Regs, ins: nat -> In, f: nat, tm: Timing)
    requires OneBit(r0, ins, f, tm, false) && tm.SetupDelay() < f
    ensures ZeroFrom(SdaLine(r0, ins), tm.SetupDelay(), f)
  {
    BitWindow(r0, ins, f, tm, false);
  }

  lemma FallsOnce(scl: Line, sda: Line, f: nat, t: nat)
    requires t < f && ZeroFrom(sda, t, f)
    ensures (exists n: nat :: n < f && MovesWhileHigh(scl, sda, n)) <==> t > 0 && scl(t - 1) && scl(t)
  {
    if t > 0 { assert MovesWhileHigh(scl, sda, t - 1) <==> scl(t - 1) && scl(t); }
    forall n: nat | n < f && MovesWhileHigh(scl, sda, n) ensures n + 1 == t {}
  }

  /** The deadline is exact: for a zero bit begun at cycle 0, SDA moves while SCL is
      high, before the bit is done, if and only if the setup delay has not ended when SCL has been high
      for a cycle. */
  lemma LateBitIsSeen(r0: Regs, ins: nat -> In, scl: Line, f: nat, tm: Timing)
    requires OneBit(r0, ins, f, tm, false) && tm.SetupDelay() < f
    ensures (exists n: nat :: n < f && MovesWhileHigh(scl, SdaLine(r0, ins), n))
       <==> (tm.SetupDelay() > 0 && scl(tm.SetupDelay() - 1) && scl(tm.SetupDelay()))
  {
    ZeroBitLine(r0, ins, f, tm);
    FallsOnce(scl, SdaLine(r0, ins), f, tm.SetupDelay());
  }
}
