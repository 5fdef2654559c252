/** Whole transfers: a requester that keeps its request up until `bus_tx_done_o` and then presents the
    next one (`src/ctrl/bus_tx_flow.sv:9-19`), the sequencer, the bit transmitter, and an SCL clock.

    `SendsSlots` gives the state of all registers in every cycle of every bit, and `SlotWindow` what
    that means on the SDA line. */
module BusSender {
  import opened Wave
  import opened Bits
  import opened BusTxFlow
  import BusTx

  /** One request: a whole byte, or the single bit in the least significant position. */
  datatype Item = Byte(v: Bits8) | Bit(v: Bits8) {
    function Len(): nat { if Byte? then 8 else 1 }
    predicate At(b: nat)
      requires b < Len()
    {
      if Byte? then v[b] else v[7]
    }
  }

  /** Bit `b` of item `j`. */
  datatype Slot = Slot(j: nat, b: nat) {
    predicate Within(items: seq<Item>) { j < |items| && b < items[j].Len() }
    function Succ(items: seq<Item>): Slot
      requires Within(items)
    {
      if b + 1 < items[j].Len() then Slot(j, b + 1) else Slot(j + 1, 0)
    }
  }

  function Total(items: seq<Item>): nat { if items == [] then 0 else items[0].Len() + Total(items[1..]) }

  /** The slot of the `k`-th bit on the bus. */
  function SlotAt(items: seq<Item>, k: nat): (s: Slot)
    requires k <= Total(items)
    ensures k < Total(items) <==> s.Within(items)
    ensures k == Total(items) ==> s == Slot(|items|, 0)
    decreases items
  {
    if items == [] then Slot(0, 0)
    else if k < items[0].Len() then Slot(0, k)
    else var s := SlotAt(items[1..], k - items[0].Len()); Slot(s.j + 1, s.b)
  }

  lemma {:induction false} SlotAtSucc(items: seq<Item>, k: nat)
    requires k < Total(items)
    ensures SlotAt(items, k + 1) == SlotAt(items, k).Succ(items)
  {
    if k + 1 >= items[0].Len() && k >= items[0].Len() { SlotAtSucc(items[1..], k - items[0].Len()); }
    if k + 1 == items[0].Len() { SlotAtStart(items[1..]); }
  }

  lemma SlotAtStart(items: seq<Item>)
    ensures SlotAt(items, 0) == Slot(0, 0)
  {
  }

  /** The bits of all items in the order they are sent. */
  function BitAt(items: seq<Item>, k: nat): bool
    requires k < Total(items)
  {
    var s := SlotAt(items, k); items[s.j].At(s.b)
  }

  /** The requester's position and the registers below it. */
  datatype Sys = Sys(j: nat, flow: Regs)

  ghost function FlowIn(items: seq<Item>, tm: BusTx.Timing, scl: Line, n: nat, j: nat): In {
    In(tm, Fell(scl, n), !Prev(scl, n),
       j < |items| && items[j].Byte?, j < |items| && items[j].Bit?,
       if j < |items| then items[j].v else ZERO_BITS)
  }

  ghost function Step(items: seq<Item>, tm: BusTx.Timing, scl: Line, n: nat, s: Sys): Sys {
    var i := FlowIn(items, tm, scl, n, s.j);
    Sys(if Outputs(s.flow, i).done && s.j < |items| then s.j + 1 else s.j, Next(s.flow, i))
  }

  ghost predicate StepsTo(items: seq<Item>, tm: BusTx.Timing, scl: Line, run: nat -> Sys, sda: Line, n: nat) {
    && run(n + 1) == Step(items, tm, scl, n, run(n))
    && sda(n) == Outputs(run(n).flow, FlowIn(items, tm, scl, n, run(n).j)).sda
  }

  /** `run(n)` is the state after `n` clocks and `sda(n)` the SDA output in clock `n`. */
  ghost predicate IsRun(items: seq<Item>, tm: BusTx.Timing, scl: Line, start: Regs, run: nat -> Sys, sda: Line) {
    run(0) == Sys(0, start) && forall n: nat :: StepsTo(items, tm, scl, run, sda, n)
  }

  ghost function SysAt(items: seq<Item>, tm: BusTx.Timing, scl: Line, start: Regs, n: nat): Sys {
    if n == 0 then Sys(0, start) else Step(items, tm, scl, n - 1, SysAt(items, tm, scl, start, n - 1))
  }

  /** Clocking the registers gives a run. */
  lemma OneRun(items: seq<Item>, tm: BusTx.Timing, scl: Line, start: Regs) returns (run: nat -> Sys, sda: Line)
    ensures IsRun(items, tm, scl, start, run, sda)
  {
    run := (n: nat) => SysAt(items, tm, scl, start, n);
    sda := (n: nat) => var s := SysAt(items, tm, scl, start, n); Outputs(s.flow, FlowIn(items, tm, scl, n, s.j)).sda;
    forall n: nat ensures StepsTo(items, tm, scl, run, sda, n) {
      var m := n + 1;
      assert SysAt(items, tm, scl, start, m) == Step(items, tm, scl, m - 1, SysAt(items, tm, scl, start, m - 1));
    }
  }

  /** Idle, with the timing registers and the bit counter at rest. */
  ghost predicate AtRest(r: Regs, tm: BusTx.Timing) {
    r.state.Idle? && r.bitCounter == 7 && r.tx.state.Idle? && r.tx.Settled(tm)
  }

  /** Clocks from a falling edge to the first one in which the transmitter is free for the next bit. */
  function Turnaround(tm: BusTx.Timing): nat { BusTx.DoneDelay(tm) + 1 }

  /** Clocks of the `k`-th low phase that are over when SDA carries the `k`-th bit.  A byte that follows
      another request starts one clock late, because the decision state drives the least significant
      bit of the new value; a nonzero setup delay hides that clock. */
  function LowNeeded(items: seq<Item>, tm: BusTx.Timing, k: nat): nat
    requires k < Total(items)
  {
    var s := SlotAt(items, k);
    (if k == 0 then 0 else Turnaround(tm))
    + (if k > 0 && s.b == 0 && items[s.j].Byte? && tm.SetupDelay() == 0 then 1 else tm.SetupDelay())
  }

  /** Every low phase gives the bits their setup time, and after the last bit its hold time. */
  ghost predicate LongLows(items: seq<Item>, tm: BusTx.Timing, fall: nat -> nat, rise: nat -> nat, lag: nat) {
    && (forall k: nat {:trigger rise(k)} | k < Total(items) ::
          fall(k) + LowNeeded(items, tm, k) + lag <= rise(k))
    && (Total(items) > 0 ==> fall(Total(items)) + Turnaround(tm) <= rise(Total(items)))
  }

  // ---------------------------------------------------------------- the state in every cycle

  /** The first cycle of the `k`-th bit. */
  ghost function Opens(tm: BusTx.Timing, fall: nat -> nat, k: nat): nat {
    if k == 0 then 0 else fall(k) + Turnaround(tm)
  }

  /** The cycle in which the `k`-th bit starts its setup time. */
  ghost function Begins(tm: BusTx.Timing, fall: nat -> nat, k: nat): nat {
    if k == 0 then fall(0) else fall(k) + Turnaround(tm)
  }

  ghost predicate FlowInSlot(items: seq<Item>, s: Slot, entry: bool, first: bool, r: Regs)
    requires s.Within(items)
  {
    if entry && s.b == 0 then r.state == (if first then Idle else NextTaskDecision) && r.bitCounter == 7
    else match items[s.j]
      case Byte(v) => r.state.DriveByte? && r.bitCounter == 7 - s.b
                      && (forall m: nat | m < 8 - s.b :: r.reqValue[m] == v[s.b + m])
      case Bit(v) => r.state.DriveBit? && r.reqValue == v && r.bitCounter == 7
  }

  ghost predicate TxInSlot(tm: BusTx.Timing, fall: nat -> nat, k: nat, n: nat, r: BusTx.Regs)
    requires n <= Begins(tm, fall, k) || (Begins(tm, fall, k) + tm.SetupDelay() < fall(k + 1)
                                          && n <= fall(k + 1) + BusTx.DoneDelay(tm))
  {
    if n <= Begins(tm, fall, k) then
      r.Settled(tm) && (if n == Opens(tm, fall, k) then r.state.Idle? else r.state.AwaitClockNegedge?)
    else
      r == BusTx.BitRegs(tm, fall(k + 1) - Begins(tm, fall, k), n - Begins(tm, fall, k))
  }

  ghost predicate InSlot(items: seq<Item>, tm: BusTx.Timing, fall: nat -> nat, k: nat, n: nat, s: Sys)
    requires k < Total(items)
    requires Begins(tm, fall, k) + tm.SetupDelay() < fall(k + 1)
    requires Opens(tm, fall, k) <= n < Opens(tm, fall, k + 1)
  {
    && s.j == SlotAt(items, k).j
    && FlowInSlot(items, SlotAt(items, k), n == Opens(tm, fall, k), k == 0, s.flow)
    && TxInSlot(tm, fall, k, n, s.flow.tx)
  }

  /** All items are sent: nothing is requested any more. */
  ghost predicate AllSent(items: seq<Item>, tm: BusTx.Timing, s: Sys) {
    && s.j == |items| && s.flow.tx.state.Idle?
    && (s.flow.state.Idle? || s.flow.state.NextTaskDecision?)
  }

  /** A fit clock leaves the setup time of a bit inside its low phase. */
  lemma SlotFits(items: seq<Item>, tm: BusTx.Timing, scl: Line, fall: nat -> nat, rise: nat -> nat, k: nat)
    requires Clocked(scl, fall, rise) && LongLows(items, tm, fall, rise, 0) && k < Total(items)
    ensures Begins(tm, fall, k) + tm.SetupDelay() <= rise(k) < fall(k + 1)
    ensures fall(k + 1) + Turnaround(tm) <= rise(k + 1)
  {
    assert fall(k) < rise(k) < fall(k + 1);
    if k + 1 < Total(items) {
      assert fall(k + 1) + LowNeeded(items, tm, k + 1) + 0 <= rise(k + 1);
    }
  }

  /** Low phases in which every bit starts, but may still be in its setup time when the clock rises. */
  ghost predicate LooseLows(items: seq<Item>, tm: BusTx.Timing, fall: nat -> nat, rise: nat -> nat, lag: nat) {
    && (forall k: nat {:trigger rise(k)} | k < Total(items) ::
          Begins(tm, fall, k) + lag <= rise(k) && Begins(tm, fall, k) + tm.SetupDelay() < fall(k + 1))
    && (Total(items) > 0 ==> fall(Total(items)) + Turnaround(tm) <= rise(Total(items)))
  }

  lemma LongLowsAreLoose(items: seq<Item>, tm: BusTx.Timing, scl: Line, fall: nat -> nat, rise: nat -> nat)
    requires Clocked(scl, fall, rise) && LongLows(items, tm, fall, rise, 0)
    ensures LooseLows(items, tm, fall, rise, 0)
  {
    forall k: nat | k < Total(items)
      ensures Begins(tm, fall, k) + 0 <= rise(k) && Begins(tm, fall, k) + tm.SetupDelay() < fall(k + 1)
    {
      SlotFits(items, tm, scl, fall, rise, k);
    }
  }

  /** What the requester asks of the sequencer while it is at item `j`. */
  ghost predicate Requests(items: seq<Item>, j: nat, i: In)
    requires j < |items|
  {
    i.reqByte == items[j].Byte? && i.reqBit == items[j].Bit? && i.reqValue == items[j].v
  }

  lemma FlowGoesOn(items: seq<Item>, slot: Slot, entry: bool, first: bool, r: Regs, i: In)
    requires slot.Within(items) && FlowInSlot(items, slot, entry, first, r) && Requests(items, slot.j, i)
    requires r.tx.state.Idle? || !r.state.Idle?
    requires !TxDone(r, i)
    ensures FlowInSlot(items, slot, false, first, Next(r, i))
    ensures !Done(r, i)
  {
  }

  lemma FlowHandsOver(items: seq<Item>, slot: Slot, first: bool, r: Regs, i: In)
    requires slot.Within(items) && FlowInSlot(items, slot, false, first, r) && Requests(items, slot.j, i)
    requires TxDone(r, i)
    ensures Done(r, i) <==> slot.b + 1 == items[slot.j].Len()
    ensures Done(r, i) ==> Next(r, i).state.NextTaskDecision? && Next(r, i).bitCounter == 7
    ensures !Done(r, i) ==> FlowInSlot(items, Slot(slot.j, slot.b + 1), false, false, Next(r, i))
  {
  }

  /** In its slot the transmitter is asked to drive the bit of the slot, except that the entry cycle of
      a byte after another request asks for the least significant bit. */
  lemma FlowDrives(items: seq<Item>, slot: Slot, entry: bool, first: bool, r: Regs, i: In)
    requires slot.Within(items) && FlowInSlot(items, slot, entry, first, r) && Requests(items, slot.j, i)
    requires r.tx.state.Idle? || !r.state.Idle?
    ensures DriveEnable(r, i)
    ensures entry && slot.b == 0 && items[slot.j].Byte? && !first ==> DriveValue(r, i) == items[slot.j].v[7]
    ensures !(entry && slot.b == 0 && items[slot.j].Byte? && !first) ==>
              DriveValue(r, i) == items[slot.j].At(slot.b)
  {
  }

  /** The events that cycle `n` of the `k`-th slot may and must see. */
  ghost predicate SlotEvents(tm: BusTx.Timing, scl: Line, fall: nat -> nat, k: nat, n: nat) {
    && Opens(tm, fall, k) <= n < Opens(tm, fall, k + 1)
    && Begins(tm, fall, k) + tm.SetupDelay() < fall(k + 1)
    && (n < Begins(tm, fall, k) ==> !Fell(scl, n) && Prev(scl, n))
    && (n == Begins(tm, fall, k) ==> if k == 0 then Fell(scl, n) else !Prev(scl, n))
    && (Begins(tm, fall, k) < n <= fall(k + 1) ==> (Fell(scl, n) <==> n == fall(k + 1)))
    && (fall(k + 1) < n ==> !Prev(scl, n))
  }

  /** A clock with low phases in which every bit starts gives every slot its events. */
  lemma EventsInSlot(items: seq<Item>, tm: BusTx.Timing, scl: Line, fall: nat -> nat, rise: nat -> nat, k: nat, n: nat)
    requires Clocked(scl, fall, rise) && LooseLows(items, tm, fall, rise, 0) && k < Total(items)
    requires Opens(tm, fall, k) <= n < Opens(tm, fall, k + 1)
    ensures SlotEvents(tm, scl, fall, k, n)
  {
    assert Begins(tm, fall, k) + 0 <= rise(k) < fall(k + 1);
    assert fall(k + 1) < rise(k + 1) < fall(k + 1 + 1);
    assert k + 1 < Total(items) ==> Begins(tm, fall, k + 1) + 0 <= rise(k + 1);
    if n < fall(0) {
      if k > 0 { FallsGrow(scl, fall, rise, 0, k); }
      assert Prev(scl, n);
    } else if n < fall(k + 1) {
      EdgesWithin(scl, fall, rise, k, n);
    } else {
      EdgesWithin(scl, fall, rise, k + 1, n);
    }
  }

  lemma TxGoesOn(tm: BusTx.Timing, fall: nat -> nat, k: nat, n: nat, r: BusTx.Regs, i: BusTx.In)
    requires Begins(tm, fall, k) + tm.SetupDelay() < fall(k + 1)
    requires Opens(tm, fall, k) <= n && n + 1 < Opens(tm, fall, k + 1)
    requires TxInSlot(tm, fall, k, n, r)
    requires i.tm == tm && i.drive
    requires n < Begins(tm, fall, k) ==> !i.LowSeen()
    requires n == Begins(tm, fall, k) ==> i.LowSeen()
    requires Begins(tm, fall, k) < n <= fall(k + 1) ==> (i.sclNegedge <==> n == fall(k + 1))
    ensures TxInSlot(tm, fall, k, n + 1, BusTx.Next(r, i))
    ensures !BusTx.Done(r, i)
  {
    var b := Begins(tm, fall, k);
    var f := fall(k + 1) - b;
    if n == b {
      BusTx.BitBegins(r, i, f);
    } else if n > b {
      BusTx.BitGoesOn(f, n - b, i);
    }
  }

  /** Within a slot, one clock moves one cycle on. */
  lemma SlotGoesOn(items: seq<Item>, tm: BusTx.Timing, scl: Line, fall: nat -> nat, k: nat, n: nat, s: Sys)
    requires k < Total(items) && SlotEvents(tm, scl, fall, k, n)
    requires n + 1 < Opens(tm, fall, k + 1)
    requires InSlot(items, tm, fall, k, n, s)
    ensures InSlot(items, tm, fall, k, n + 1, Step(items, tm, scl, n, s))
  {
    var slot := SlotAt(items, k);
    var i := FlowIn(items, tm, scl, n, s.j);
    var entry := n == Opens(tm, fall, k);
    FlowDrives(items, slot, entry, k == 0, s.flow, i);
    TxGoesOn(tm, fall, k, n, s.flow.tx, TxIn(s.flow, i));
    FlowGoesOn(items, slot, entry, k == 0, s.flow, i);
  }

  lemma TxEnds(tm: BusTx.Timing, fall: nat -> nat, k: nat, n: nat, r: BusTx.Regs, i: BusTx.In)
    requires Begins(tm, fall, k) + tm.SetupDelay() < fall(k + 1)
    requires Opens(tm, fall, k) <= n && n + 1 == Opens(tm, fall, k + 1)
    requires TxInSlot(tm, fall, k, n, r)
    requires i.tm == tm
    requires if tm.hold == 0 then i.sclNegedge else i.sclStableLow
    ensures BusTx.Done(r, i)
    ensures BusTx.Next(r, i).state.Idle? && BusTx.Next(r, i).Settled(tm)
  {
    BusTx.BitEnds(fall(k + 1) - Begins(tm, fall, k), i);
  }

  /** The last cycle of a slot hands over to the next one. */
  lemma SlotHandsOver(items: seq<Item>, tm: BusTx.Timing, scl: Line, fall: nat -> nat, k: nat, n: nat, s: Sys)
    requires k < Total(items) && SlotEvents(tm, scl, fall, k, n)
    requires n + 1 == Opens(tm, fall, k + 1)
    requires InSlot(items, tm, fall, k, n, s)
    requires k + 1 < Total(items) ==> Begins(tm, fall, k + 1) + tm.SetupDelay() < fall(k + 2)
    ensures k + 1 == Total(items) ==> AllSent(items, tm, Step(items, tm, scl, n, s))
    ensures k + 1 < Total(items) ==> InSlot(items, tm, fall, k + 1, n + 1, Step(items, tm, scl, n, s))
  {
    var slot := SlotAt(items, k);
    var i := FlowIn(items, tm, scl, n, s.j);
    assert n > Opens(tm, fall, k);
    FlowDrives(items, slot, false, k == 0, s.flow, i);
    TxEnds(tm, fall, k, n, s.flow.tx, TxIn(s.flow, i));
    FlowHandsOver(items, slot, k == 0, s.flow, i);
    SlotAtSucc(items, k);
    if k + 1 < Total(items) {
      assert FlowInSlot(items, SlotAt(items, k + 1), true, false, Next(s.flow, i));
    }
  }

  lemma StaysSent(items: seq<Item>, tm: BusTx.Timing, scl: Line, n: nat, s: Sys)
    requires AllSent(items, tm, s)
    ensures AllSent(items, tm, Step(items, tm, scl, n, s))
    ensures Sda(s.flow, FlowIn(items, tm, scl, n, s.j))
  {
  }

  // ---------------------------------------------------------------- whole runs

  ghost predicate SetupFits(tm: BusTx.Timing, fall: nat -> nat, k: nat) {
    Begins(tm, fall, k) + tm.SetupDelay() < fall(k + 1)
  }

  /** Every slot sees its events: all that the run of the sender needs to know of the clock. */
  ghost predicate AllSlotsFit(items: seq<Item>, tm: BusTx.Timing, scl: Line, fall: nat -> nat) {
    && (forall k: nat, n: nat {:trigger SlotEvents(tm, scl, fall, k, n)} |
          k < Total(items) && Opens(tm, fall, k) <= n < Opens(tm, fall, k + 1) :: SlotEvents(tm, scl, fall, k, n))
    && (forall k: nat | k < Total(items) :: SetupFits(tm, fall, k))
  }

  lemma LooseLowsFit(items: seq<Item>, tm: BusTx.Timing, scl: Line, fall: nat -> nat, rise: nat -> nat)
    requires Clocked(scl, fall, rise) && LooseLows(items, tm, fall, rise, 0)
    ensures AllSlotsFit(items, tm, scl, fall)
  {
    forall k: nat, n: nat | k < Total(items) && Opens(tm, fall, k) <= n < Opens(tm, fall, k + 1)
      ensures SlotEvents(tm, scl, fall, k, n)
    {
      EventsInSlot(items, tm, scl, fall, rise, k, n);
    }
    forall k: nat | k < Total(items) ensures SetupFits(tm, fall, k) {
      assert Begins(tm, fall, k) + 0 <= rise(k);
    }
  }

  lemma LongLowsFit(items: seq<Item>, tm: BusTx.Timing, scl: Line, fall: nat -> nat, rise: nat -> nat)
    requires Clocked(scl, fall, rise) && LongLows(items, tm, fall, rise, 0)
    ensures AllSlotsFit(items, tm, scl, fall)
  {
    LongLowsAreLoose(items, tm, scl, fall, rise);
    LooseLowsFit(items, tm, scl, fall, rise);
  }

  /** In every cycle of the `k`-th slot the run is in that slot. */
  lemma {:induction false} SendsSlots(items: seq<Item>, tm: BusTx.Timing, scl: Line, fall: nat -> nat,
                                      start: Regs, run: nat -> Sys, sda: Line, k: nat, n: nat)
    requires AllSlotsFit(items, tm, scl, fall) && AtRest(start, tm) && IsRun(items, tm, scl, start, run, sda)
    requires k < Total(items) && Opens(tm, fall, k) <= n < Opens(tm, fall, k + 1)
    ensures SlotEvents(tm, scl, fall, k, n)
    ensures InSlot(items, tm, fall, k, n, run(n))
    decreases n, 0
  {
    assert SlotEvents(tm, scl, fall, k, n);
    if n > Opens(tm, fall, k) {
      SendsSlots(items, tm, scl, fall, start, run, sda, k, n - 1);
      SlotGoesOn(items, tm, scl, fall, k, n - 1, run(n - 1));
      assert StepsTo(items, tm, scl, run, sda, n - 1);
    } else if k > 0 {
      SendsSlotsToEnd(items, tm, scl, fall, start, run, sda, k - 1);
    } else {
      SlotAtStart(items);
    }
  }

  lemma {:induction false} SendsSlotsToEnd(items: seq<Item>, tm: BusTx.Timing, scl: Line, fall: nat -> nat,
                                           start: Regs, run: nat -> Sys, sda: Line, k: nat)
    requires AllSlotsFit(items, tm, scl, fall) && AtRest(start, tm) && IsRun(items, tm, scl, start, run, sda)
    requires k < Total(items)
    ensures var n := Opens(tm, fall, k + 1); var s := run(n);
            && (k + 1 == Total(items) ==> AllSent(items, tm, s))
            && (k + 1 < Total(items) ==> Begins(tm, fall, k + 1) + tm.SetupDelay() < fall(k + 2)
                                         && InSlot(items, tm, fall, k + 1, n, s))
    decreases Opens(tm, fall, k + 1) - 1, 1
  {
    var n := Opens(tm, fall, k + 1) - 1;
    assert SetupFits(tm, fall, k);
    SendsSlots(items, tm, scl, fall, start, run, sda, k, n);
    assert k + 1 < Total(items) ==> SetupFits(tm, fall, k + 1);
    SlotHandsOver(items, tm, scl, fall, k, n, run(n));
    assert StepsTo(items, tm, scl, run, sda, n);
  }

  /** After the last slot everything is sent, and the line is released for good. */
  lemma {:induction false} EndsReleased(items: seq<Item>, tm: BusTx.Timing, scl: Line, fall: nat -> nat,
                                        start: Regs, run: nat -> Sys, sda: Line, n: nat)
    requires AllSlotsFit(items, tm, scl, fall) && AtRest(start, tm) && IsRun(items, tm, scl, start, run, sda)
    requires Opens(tm, fall, Total(items)) <= n
    ensures AllSent(items, tm, run(n))
    ensures sda(n)
  {
    var k := Total(items);
    if n > Opens(tm, fall, k) {
      EndsReleased(items, tm, scl, fall, start, run, sda, n - 1);
      StaysSent(items, tm, scl, n - 1, run(n - 1));
      assert StepsTo(items, tm, scl, run, sda, n - 1);
    } else if k > 0 {
      SendsSlotsToEnd(items, tm, scl, fall, start, run, sda, k - 1);
    } else {
      TotalZero(items);
    }
    StaysSent(items, tm, scl, n, run(n));
    assert StepsTo(items, tm, scl, run, sda, n);
  }

  lemma TotalZero(items: seq<Item>)
    requires Total(items) == 0
    ensures items == []
  {
  }

  /** SDA in one cycle of a slot, from the state of the slot. */
  lemma SdaInSlot(items: seq<Item>, tm: BusTx.Timing, scl: Line, fall: nat -> nat, k: nat, n: nat, s: Sys)
    requires k < Total(items) && SlotEvents(tm, scl, fall, k, n)
    requires InSlot(items, tm, fall, k, n, s)
    requires n <= fall(k + 1) + tm.hold
    ensures var out := Sda(s.flow, FlowIn(items, tm, scl, n, s.j));
            && (n < Begins(tm, fall, k) + tm.SetupDelay() ==> out)
            && (fall(k) + LowNeeded(items, tm, k) <= n ==> out == BitAt(items, k))
            && (k > 0 && n == Opens(tm, fall, k) && n < fall(k) + LowNeeded(items, tm, k) && tm.SetupDelay() == 0
                ==> out == items[SlotAt(items, k).j].v[7])
  {
    var slot := SlotAt(items, k);
    var i := FlowIn(items, tm, scl, n, s.j);
    var b := Begins(tm, fall, k);
    var f := fall(k + 1) - b;
    FlowDrives(items, slot, n == Opens(tm, fall, k), k == 0, s.flow, i);
    if n > b && n - b < f + BusTx.DoneDelay(tm) {
      BusTx.BitGoesOn(f, n - b, TxIn(s.flow, i));
    } else if n > b {
      BusTx.BitEnds(f, TxIn(s.flow, i));
    }
  }

  /** A run of the sender from rest, with a clock whose low phases are long enough. */
  ghost predicate Sending(items: seq<Item>, tm: BusTx.Timing, scl: Line, fall: nat -> nat, rise: nat -> nat,
                          start: Regs, run: nat -> Sys, sda: Line) {
    && Clocked(scl, fall, rise) && LongLows(items, tm, fall, rise, 0)
    && AtRest(start, tm) && IsRun(items, tm, scl, start, run, sda)
  }

  /** From the end of its setup time to the end of its hold time SDA carries the `k`-th bit. */
  lemma SlotWindow(items: seq<Item>, tm: BusTx.Timing, scl: Line, fall: nat -> nat, rise: nat -> nat,
                   start: Regs, run: nat -> Sys, sda: Line, k: nat, bit: bool, n: nat)
    requires Sending(items, tm, scl, fall, rise, start, run, sda)
    requires k < Total(items) && bit == BitAt(items, k)
    requires fall(k) + LowNeeded(items, tm, k) <= n <= fall(k + 1) + tm.hold
    ensures sda(n) == bit
  {
    SlotFits(items, tm, scl, fall, rise, k);
    LongLowsFit(items, tm, scl, fall, rise);
    SendsSlots(items, tm, scl, fall, start, run, sda, k, n);
    SdaInSlot(items, tm, scl, fall, k, n, run(n));
    assert StepsTo(items, tm, scl, run, sda, n);
  }

  /** What is on the line before a bit: the released line during its setup time, or, if there is none, the last
      bit of the byte that follows another request. */
  function Early(items: seq<Item>, tm: BusTx.Timing, k: nat): bool
    requires k < Total(items)
  {
    tm.SetupDelay() > 0 || items[SlotAt(items, k).j].v[7]
  }

  /** What SDA carries from the clock in which the `k`-th bit starts, however soon the clock rises then. */
  lemma SlotReads(items: seq<Item>, tm: BusTx.Timing, scl: Line, fall: nat -> nat, rise: nat -> nat,
                  start: Regs, run: nat -> Sys, sda: Line, k: nat, n: nat)
    requires Clocked(scl, fall, rise) && LooseLows(items, tm, fall, rise, 0)
    requires AtRest(start, tm) && IsRun(items, tm, scl, start, run, sda)
    requires k < Total(items) && Begins(tm, fall, k) <= n <= fall(k + 1) + tm.hold
    ensures sda(n) == if fall(k) + LowNeeded(items, tm, k) <= n then BitAt(items, k) else Early(items, tm, k)
  {
    LooseLowsFit(items, tm, scl, fall, rise);
    assert SetupFits(tm, fall, k);
    SendsSlots(items, tm, scl, fall, start, run, sda, k, n);
    SdaInSlot(items, tm, scl, fall, k, n, run(n));
    assert StepsTo(items, tm, scl, run, sda, n);
  }

  /** Before the first falling edge the line is released. */
  lemma ReleasedBefore(items: seq<Item>, tm: BusTx.Timing, scl: Line, fall: nat -> nat, rise: nat -> nat,
                       start: Regs, run: nat -> Sys, sda: Line, n: nat)
    requires Sending(items, tm, scl, fall, rise, start, run, sda)
    requires n < fall(0)
    ensures sda(n)
  {
    LongLowsFit(items, tm, scl, fall, rise);
    if Total(items) == 0 {
      EndsReleased(items, tm, scl, fall, start, run, sda, n);
    } else {
      SlotFits(items, tm, scl, fall, rise, 0);
      assert fall(0) < rise(0) < fall(0 + 1);
      SendsSlots(items, tm, scl, fall, start, run, sda, 0, n);
      SdaInSlot(items, tm, scl, fall, 0, n, run(n));
      assert StepsTo(items, tm, scl, run, sda, n);
    }
  }

  lemma AfterLast(items: seq<Item>, tm: BusTx.Timing, scl: Line, fall: nat -> nat, rise: nat -> nat, k: nat)
    requires Clocked(scl, fall, rise) && LongLows(items, tm, fall, rise, 0) && k >= Total(items)
    ensures Opens(tm, fall, Total(items)) <= rise(k)
  {
    var t := Total(items);
    if t > 0 && t < k {
      FallsGrow(scl, fall, rise, t + 1, k);
      assert fall(t) < rise(t) < fall(t + 1);
      assert fall(k) < rise(k);
    }
  }

  /** The line does not move within one high phase. */
  lemma StillWithinHigh(items: seq<Item>, tm: BusTx.Timing, scl: Line, fall: nat -> nat, rise: nat -> nat,
                        start: Regs, run: nat -> Sys, sda: Line, k: nat, n: nat)
    requires Sending(items, tm, scl, fall, rise, start, run, sda)
    requires rise(k) <= n && n + 1 < fall(k + 1)
    ensures sda(n) == sda(n + 1)
  {
    if k < Total(items) {
      assert fall(k) + LowNeeded(items, tm, k) + 0 <= rise(k);
      var bit := BitAt(items, k);
      SlotWindow(items, tm, scl, fall, rise, start, run, sda, k, bit, n);
      SlotWindow(items, tm, scl, fall, rise, start, run, sda, k, bit, n + 1);
    } else {
      AfterLast(items, tm, scl, fall, rise, k);
      LongLowsFit(items, tm, scl, fall, rise);
      EndsReleased(items, tm, scl, fall, start, run, sda, n);
      EndsReleased(items, tm, scl, fall, start, run, sda, n + 1);
    }
  }

  /** Over the whole run, before, during and after the transfers, SDA never moves while SCL is high. */
  lemma NeverMovesWhileHigh(items: seq<Item>, tm: BusTx.Timing, scl: Line, fall: nat -> nat, rise: nat -> nat,
                            start: Regs, run: nat -> Sys, sda: Line, n: nat)
    requires Sending(items, tm, scl, fall, rise, start, run, sda)
    ensures !MovesWhileHigh(scl, sda, n)
  {
    if scl(n) && scl(n + 1) {
      if n + 1 < fall(0) {
        ReleasedBefore(items, tm, scl, fall, rise, start, run, sda, n);
        ReleasedBefore(items, tm, scl, fall, rise, start, run, sda, n + 1);
      } else {
        var k := HighPhase(scl, fall, rise, n);
        StillWithinHigh(items, tm, scl, fall, rise, start, run, sda, k, n);
      }
    }
  }

  // ---------------------------------------------------------------- a start that is not at rest

  /** Idle, with the timing registers at rest, but the bit counter anywhere. */
  ghost predicate IdleStart(r: Regs, tm: BusTx.Timing) {
    r.state.Idle? && r.tx.state.Idle? && r.tx.Settled(tm)
  }

  /** The requests with the first byte replaced by zeros. */
  function Zeroed(items: seq<Item>): seq<Item>
    requires items != []
  {
    [Byte(ZERO_BITS)] + items[1..]
  }

  lemma ZeroedShape(items: seq<Item>, k: nat)
    requires items != [] && items[0].Byte?
    ensures Total(Zeroed(items)) == Total(items)
    ensures k < Total(items) ==> SlotAt(Zeroed(items), k) == SlotAt(items, k)
  {
    assert Zeroed(items)[1..] == items[1..];
  }

  lemma ZeroedLows(items: seq<Item>, tm: BusTx.Timing, fall: nat -> nat, rise: nat -> nat)
    requires items != [] && items[0].Byte? && LongLows(items, tm, fall, rise, 0)
    ensures LongLows(Zeroed(items), tm, fall, rise, 0)
  {
    ZeroedShape(items, 0);
    forall k: nat | k < Total(items) ensures fall(k) + LowNeeded(Zeroed(items), tm, k) + 0 <= rise(k) {
      ZeroedShape(items, k);
      assert fall(k) + LowNeeded(items, tm, k) + 0 <= rise(k);
    }
  }

  /** One clock with the byte and with zeros in its place: the same, once the byte is being driven. */
  lemma ZeroedStep(items: seq<Item>, tm: BusTx.Timing, scl: Line, n: nat, s: Sys)
    requires items != [] && items[0].Byte? && (s.j == 0 ==> s.flow.state.DriveByte?)
    ensures Step(items, tm, scl, n, s) == Step(Zeroed(items), tm, scl, n, s)
    ensures Sda(s.flow, FlowIn(items, tm, scl, n, s.j)) == Sda(s.flow, FlowIn(Zeroed(items), tm, scl, n, s.j))
    ensures Step(items, tm, scl, n, s).j == 0 ==> Step(items, tm, scl, n, s).flow.state.DriveByte?
  {
  }

  /** The two runs agree, and the first byte is being driven while it is the requester's. */
  ghost predicate Agree(run: nat -> Sys, sda: Line, run0: nat -> Sys, sda0: Line, n: nat) {
    run(n) == run0(n) && sda(n) == sda0(n) && (run(n).j == 0 ==> run(n).flow.state.DriveByte?)
  }

  lemma AgreeStep(items: seq<Item>, tm: BusTx.Timing, scl: Line,
                  run: nat -> Sys, sda: Line, run0: nat -> Sys, sda0: Line, m: nat)
    requires items != [] && items[0].Byte?
    requires StepsTo(items, tm, scl, run, sda, m) && StepsTo(items, tm, scl, run, sda, m + 1)
    requires StepsTo(Zeroed(items), tm, scl, run0, sda0, m) && StepsTo(Zeroed(items), tm, scl, run0, sda0, m + 1)
    requires Agree(run, sda, run0, sda0, m)
    ensures Agree(run, sda, run0, sda0, m + 1)
  {
    ZeroedStep(items, tm, scl, m, run(m));
    ZeroedStep(items, tm, scl, m + 1, run(m + 1));
  }

  /** The first clock of the two runs. */
  lemma ZeroedStart(items: seq<Item>, tm: BusTx.Timing, scl: Line, start: Regs)
    requires items != [] && items[0].Byte? && IdleStart(start, tm) && start.bitCounter != 7
    ensures Step(items, tm, scl, 0, Sys(0, start))
         == Step(Zeroed(items), tm, scl, 0, Sys(0, start.(bitCounter := 7)))
    ensures Step(items, tm, scl, 0, Sys(0, start)).flow.state.DriveByte?
  {
  }

  lemma AgreeFirst(items: seq<Item>, tm: BusTx.Timing, scl: Line, start: Regs,
                   run: nat -> Sys, sda: Line, run0: nat -> Sys, sda0: Line)
    requires items != [] && items[0].Byte? && IdleStart(start, tm) && start.bitCounter != 7
    requires run(0) == Sys(0, start) && run0(0) == Sys(0, start.(bitCounter := 7))
    requires StepsTo(items, tm, scl, run, sda, 0) && StepsTo(items, tm, scl, run, sda, 1)
    requires StepsTo(Zeroed(items), tm, scl, run0, sda0, 0) && StepsTo(Zeroed(items), tm, scl, run0, sda0, 1)
    ensures Agree(run, sda, run0, sda0, 1)
  {
    ZeroedStart(items, tm, scl, start);
    ZeroedStep(items, tm, scl, 1, run(1));
  }

  /** From a start that is not at rest, the run is from the first clock on that of a start at rest which is
      asked for zeros. */
  lemma {:induction false} RunsAsZeroed(items: seq<Item>, tm: BusTx.Timing, scl: Line, start: Regs,
                                        run: nat -> Sys, sda: Line, run0: nat -> Sys, sda0: Line, n: nat)
    requires items != [] && items[0].Byte? && IdleStart(start, tm) && start.bitCounter != 7
    requires IsRun(items, tm, scl, start, run, sda)
    requires IsRun(Zeroed(items), tm, scl, start.(bitCounter := 7), run0, sda0)
    requires n >= 1
    ensures Agree(run, sda, run0, sda0, n)
  {
    var m := n - 1;
    assert StepsTo(items, tm, scl, run, sda, m) && StepsTo(items, tm, scl, run, sda, m + 1);
    assert StepsTo(Zeroed(items), tm, scl, run0, sda0, m) && StepsTo(Zeroed(items), tm, scl, run0, sda0, m + 1);
    if m > 0 {
      RunsAsZeroed(items, tm, scl, start, run, sda, run0, sda0, m);
      AgreeStep(items, tm, scl, run, sda, run0, sda0, m);
    } else {
      AgreeFirst(items, tm, scl, start, run, sda, run0, sda0);
    }
  }

  /** The window of bit `b` of a byte that is the first request: from the end of its setup time to the end of
      its hold time. */
  ghost predicate Window(tm: BusTx.Timing, fall: nat -> nat, b: nat, n: nat) {
    fall(b) + (if b == 0 then 0 else Turnaround(tm)) + tm.SetupDelay() <= n <= fall(b + 1) + tm.hold
  }

  /** Every bit of `v` is on the line in its window. */
  ghost predicate CarriesByte(tm: BusTx.Timing, fall: nat -> nat, sda: Line, v: Bits8) {
    forall b: nat, n: nat | b < 8 && Window(tm, fall, b, n) :: sda(n) == v[b]
  }

  lemma FirstByteSlots(items: seq<Item>, tm: BusTx.Timing, b: nat)
    requires items != [] && items[0].Byte? && b < 8
    ensures b < Total(items) && SlotAt(items, b) == Slot(0, b) && BitAt(items, b) == items[0].v[b]
    ensures LowNeeded(items, tm, b) == (if b == 0 then 0 else Turnaround(tm)) + tm.SetupDelay()
  {
  }

  lemma CarriesAtRest(items: seq<Item>, tm: BusTx.Timing, scl: Line, fall: nat -> nat, rise: nat -> nat,
                      start: Regs, run: nat -> Sys, sda: Line)
    requires Sending(items, tm, scl, fall, rise, start, run, sda) && items != [] && items[0].Byte?
    ensures CarriesByte(tm, fall, sda, items[0].v)
  {
    forall b: nat, n: nat | b < 8 && Window(tm, fall, b, n) ensures sda(n) == items[0].v[b] {
      FirstByteSlots(items, tm, b);
      SlotWindow(items, tm, scl, fall, rise, start, run, sda, b, items[0].v[b], n);
    }
  }

  /** From a start that is not at rest, the line carries zeros from the first clock on. */
  lemma CarriesZeros(items: seq<Item>, tm: BusTx.Timing, scl: Line, fall: nat -> nat, rise: nat -> nat,
                     start: Regs, run: nat -> Sys, sda: Line, b: nat, n: nat)
    requires Clocked(scl, fall, rise) && LongLows(items, tm, fall, rise, 0)
    requires items != [] && items[0].Byte? && IdleStart(start, tm) && start.bitCounter != 7
    requires IsRun(items, tm, scl, start, run, sda)
    requires b < 8 && n >= 1 && Window(tm, fall, b, n)
    ensures !sda(n)
  {
    var rest := start.(bitCounter := 7);
    var run0, sda0 := OneRun(Zeroed(items), tm, scl, rest);
    RunsAsZeroed(items, tm, scl, start, run, sda, run0, sda0, n);
    ZeroedLows(items, tm, fall, rise);
    CarriesAtRest(Zeroed(items), tm, scl, fall, rise, rest, run0, sda0);
    assert sda0(n) == ZERO_BITS[b];
  }

  /** In the first clock the idle sequencer drives the requested bit itself. */
  lemma FirstClock(items: seq<Item>, tm: BusTx.Timing, scl: Line, start: Regs, run: nat -> Sys, sda: Line)
    requires IsRun(items, tm, scl, start, run, sda)
    requires items != [] && items[0].Byte? && IdleStart(start, tm)
    requires tm.SetupDelay() == 0 && Fell(scl, 0)
    ensures sda(0) == items[0].v[0]
  {
    assert StepsTo(items, tm, scl, run, sda, 0);
  }

  /** Only the first bit can be on the line in the first clock. */
  lemma FirstWindow(tm: BusTx.Timing, scl: Line, fall: nat -> nat, rise: nat -> nat, b: nat)
    requires Clocked(scl, fall, rise) && Window(tm, fall, b, 0)
    ensures b == 0 && tm.SetupDelay() == 0 && Fell(scl, 0)
  {
    FallsGrow(scl, fall, rise, 0, b);
    assert fall(0) < rise(0) < fall(0 + 1);
    EdgesWithin(scl, fall, rise, 0, 0);
  }

  lemma OthersCarryZeros(items: seq<Item>, tm: BusTx.Timing, scl: Line, fall: nat -> nat, rise: nat -> nat,
                         start: Regs, run: nat -> Sys, sda: Line)
    requires Clocked(scl, fall, rise) && LongLows(items, tm, fall, rise, 0)
    requires items != [] && items[0].Byte? && IdleStart(start, tm) && start.bitCounter != 7
    requires IsRun(items, tm, scl, start, run, sda)
    ensures CarriesByte(tm, fall, sda, items[0].v) <==> items[0].v == ZERO_BITS
  {
    var v := items[0].v;
    if v == ZERO_BITS {
      forall b: nat, n: nat | b < 8 && Window(tm, fall, b, n) ensures sda(n) == v[b] {
        if n >= 1 {
          CarriesZeros(items, tm, scl, fall, rise, start, run, sda, b, n);
        } else {
          FirstWindow(tm, scl, fall, rise, b);
          FirstClock(items, tm, scl, start, run, sda);
        }
      }
    } else {
      var b: nat :| b < 8 && v[b];
      FirstByteSlots(items, tm, b);
      assert fall(b) < rise(b) < fall(b + 1) && fall(b) + LowNeeded(items, tm, b) + 0 <= rise(b);
      assert Window(tm, fall, b, rise(b));
      CarriesZeros(items, tm, scl, fall, rise, start, run, sda, b, rise(b));
    }
  }

  /** On the line: a byte requested from Idle is the byte that is sent if and only if the bit counter is at
      rest or the byte is zero. */
  lemma ByteSentIff(items: seq<Item>, tm: BusTx.Timing, scl: Line, fall: nat -> nat, rise: nat -> nat,
                    start: Regs, run: nat -> Sys, sda: Line)
    requires Clocked(scl, fall, rise) && LongLows(items, tm, fall, rise, 0)
    requires items != [] && items[0].Byte? && IdleStart(start, tm) && IsRun(items, tm, scl, start, run, sda)
    ensures CarriesByte(tm, fall, sda, items[0].v) <==> start.bitCounter == 7 || items[0].v == ZERO_BITS
  {
    if start.bitCounter == 7 {
      CarriesAtRest(items, tm, scl, fall, rise, start, run, sda);
    } else {
      OthersCarryZeros(items, tm, scl, fall, rise, start, run, sda);
    }
  }
}
