/** The receiver `src/ctrl/bus_rx_flow.sv`: samples SDA after rising SCL edges and assembles bits and bytes. */
module BusRxFlow {
  import opened Bits

  datatype State = Idle | ReadByte | ReadBit | NextTaskDecision

  type Bits7 = s: seq<bool> | |s| == 7 witness [false, false, false, false, false, false, false]

  const ZERO7: Bits7 := [false, false, false, false, false, false, false]

  datatype Regs = Regs(state: State, bitCounter: nat, rxData: Bits7, rxBit: bool, rxDone: bool, rxReqBit: bool)

  const RESET := Regs(Idle, 7, ZERO7, false, false, false)

  datatype In = In(sclPosedge: bool, sda: bool, reqBit: bool, reqByte: bool) {
    predicate Req() { reqBit || reqByte }
  }

  datatype Out = Out(data: Bits8, done: bool, idle: bool)

  predicate BitEnable(r: Regs, i: In) {
    match r.state
    case Idle => false
    case ReadByte => !r.rxDone
    case ReadBit => !r.rxDone
    case NextTaskDecision => i.Req()
  }

  predicate Done(r: Regs) {
    (r.state.ReadByte? && r.bitCounter == 0 && r.rxDone) || (r.state.ReadBit? && r.rxDone)
  }

  function Data(r: Regs, i: In): Bits8 {
    if r.rxReqBit then ZERO7 + [r.rxBit] else r.rxData + [i.sda]
  }

  function Outputs(r: Regs, i: In): Out { Out(Data(r, i), Done(r), r.state.Idle?) }

  function Requested(r: Regs, i: In): State {
    if i.reqByte then ReadByte else if r.rxReqBit then ReadBit else Idle
  }

  function NextState(r: Regs, i: In): State {
    if !i.Req() then Idle
    else match r.state
      case Idle => Requested(r, i)
      case ReadByte => if !i.reqByte then Idle else if Done(r) then NextTaskDecision else ReadByte
      case ReadBit => if !i.reqBit then Idle else if r.rxDone then NextTaskDecision else ReadBit
      case NextTaskDecision => Requested(r, i)
  }

  /** The bit counter is four bits wide, so it wraps from 0 to 15. */
  function NextBitCounter(r: Regs): nat {
    if !r.state.ReadByte? then 7
    else if !r.rxDone then r.bitCounter
    else if r.bitCounter == 0 then 15 else r.bitCounter - 1
  }

  function NextRxData(r: Regs, i: In): Bits7 {
    if !r.state.ReadByte? then ZERO7
    else if r.rxDone then r.rxData[1..] + [i.sda] else r.rxData
  }

  function Next(r: Regs, i: In): Regs {
    var sampled := BitEnable(r, i) && i.sclPosedge;
    Regs(NextState(r, i), NextBitCounter(r), NextRxData(r, i), sampled && i.sda, sampled, i.reqBit)
  }

  class Receiver {
    var state: State
    var bitCounter: nat
    var rxData: Bits7
    var rxBit: bool
    var rxDone: bool
    var rxReqBit: bool

    ghost function Contents(): Regs
      reads this
    {
      Regs(state, bitCounter, rxData, rxBit, rxDone, rxReqBit)
    }

    constructor ()
      ensures Contents() == RESET
    {
      state, bitCounter, rxData := Idle, 7, ZERO7;
      rxBit, rxDone, rxReqBit := false, false, false;
    }

    /** The block `rx_fsm_outputs`. */
    method FsmOutputs(i: In) returns (idle: bool, done: bool, rxBitEn: bool, bitCounterEn: bool)
      ensures idle == state.Idle? && done == Done(Contents())
      ensures rxBitEn == BitEnable(Contents(), i) && bitCounterEn == state.ReadByte?
    {
      idle, done, rxBitEn, bitCounterEn := false, false, false, false;
      match state {
        case Idle =>
          idle := true;
        case ReadByte =>
          bitCounterEn, rxBitEn := true, !rxDone;
          if bitCounter == 0 && rxDone { done := true; }
        case ReadBit =>
          rxBitEn := !rxDone;
          if rxDone { done := true; }
        case NextTaskDecision =>
          rxBitEn := i.Req();
      }
    }

    /** The block `rx_fsm_state`. */
    method FsmState(i: In, done: bool) returns (stateD: State)
      requires done == Done(Contents())
      ensures stateD == NextState(Contents(), i)
    {
      var requested := if i.reqByte then ReadByte else if rxReqBit then ReadBit else Idle;
      stateD := state;
      match state {
        case Idle => stateD := requested;
        case ReadByte => if !i.reqByte { stateD := Idle; } else if done { stateD := NextTaskDecision; }
        case ReadBit => if !i.reqBit { stateD := Idle; } else if rxDone { stateD := NextTaskDecision; }
        case NextTaskDecision => stateD := requested;
      }
      if !i.Req() { stateD := Idle; }
    }

    /** One clock. */
    method Clock(i: In) returns (o: Out)
      modifies this
      ensures o == Outputs(old(Contents()), i)
      ensures Contents() == Next(old(Contents()), i)
    {
      var idle, done, rxBitEn, bitCounterEn := FsmOutputs(i);
      var stateD := FsmState(i, done);
      o := Out(if rxReqBit then ZERO7 + [rxBit] else rxData + [i.sda], done, idle);
      // read_byte_from_bus, update_bit_counter
      if bitCounterEn {
        if rxDone {
          rxData := rxData[1..] + [i.sda];
          bitCounter := if bitCounter == 0 then 15 else bitCounter - 1;
        }
      } else {
        rxData, bitCounter := ZERO7, 7;
      }
      // read_bit_from_bus
      if rxBitEn && i.sclPosedge { rxDone, rxBit := true, i.sda; } else { rxDone, rxBit := false, false; }
      rxReqBit, state := i.reqBit, stateD;
    }
  }

  // ---------------------------------------------------------------- held byte mode

  /** A run of the receiver: `run(n)` is the state after `n` clocks. */
  ghost predicate StepsTo(ins: nat -> In, run: nat -> Regs, n: nat) { run(n + 1) == Next(run(n), ins(n)) }

  ghost predicate IsRun(start: Regs, ins: nat -> In, run: nat -> Regs) {
    run(0) == start && forall n: nat :: StepsTo(ins, run, n)
  }

  ghost function At(start: Regs, ins: nat -> In, n: nat): Regs {
    if n == 0 then start else Next(At(start, ins, n - 1), ins(n - 1))
  }

  lemma AtIsRun(start: Regs, ins: nat -> In)
    ensures IsRun(start, ins, (n: nat) => At(start, ins, n))
  {
    var run := (m: nat) => At(start, ins, m);
    forall n: nat ensures StepsTo(ins, run, n) {
      var m := n + 1;
      assert At(start, ins, m) == Next(At(start, ins, m - 1), ins(m - 1));
    }
  }

  /** Bytes only are requested, and rising edges are never in adjacent clocks. */
  ghost predicate HeldByte(ins: nat -> In) {
    && (forall n: nat :: ins(n).reqByte && !ins(n).reqBit)
    && (forall n: nat :: Separate(ins, n))
  }

  /** That in the first `n` clocks. */
  ghost predicate HeldByteFor(ins: nat -> In, n: nat) {
    && (forall m: nat | m < n :: ins(m).reqByte && !ins(m).reqBit)
    && (forall m: nat | m + 1 < n :: Separate(ins, m))
  }

  ghost predicate Separate(ins: nat -> In, n: nat) { ins(n).sclPosedge ==> !ins(n + 1).sclPosedge }

  /** The bits that the bus offers in the first `n` clocks, the receiver having left Idle in clock 0:
      the value of SDA one clock after each rising edge, in order. */
  ghost function Offered(ins: nat -> In, n: nat): seq<bool> {
    if n <= 2 then []
    else Offered(ins, n - 1) + (if ins(n - 2).sclPosedge then [ins(n - 1).sda] else [])
  }

  /** The bytes reported in the first `n` clocks. */
  ghost function Reported(ins: nat -> In, run: nat -> Regs, n: nat): seq<Bits8> {
    if n == 0 then []
    else
      var o := Outputs(run(n - 1), ins(n - 1));
      Reported(ins, run, n - 1) + (if o.done then [o.data] else [])
  }

  /** The last bits, those that do not fill a byte yet. */
  function Rest(bits: seq<bool>): (rest: seq<bool>)
    ensures |rest| == |bits| % 8
  {
    bits[|bits| - |bits| % 8..]
  }

  /** What the registers hold when `rest` are the offered bits that do not fill a byte yet, and the last
      clock had a rising edge exactly if `edge`. */
  ghost predicate Holds(r: Regs, rest: seq<bool>, edge: bool) {
    && |rest| <= 7 && r.rxDone == edge && !r.rxReqBit
    && (if r.state.NextTaskDecision? then rest == [] && r.bitCounter == 15 && !edge
        else r.state.ReadByte? && r.bitCounter == 7 - |rest| && r.rxData[7 - |rest|..] == rest)
  }

  lemma HoldsWithoutBit(r: Regs, i: In, rest: seq<bool>)
    requires Holds(r, rest, false) && i.reqByte && !i.reqBit
    ensures Holds(Next(r, i), rest, i.sclPosedge)
    ensures !Done(r)
  {
  }

  lemma HoldsOneMoreBit(r: Regs, i: In, rest: seq<bool>)
    requires Holds(r, rest, true) && i.reqByte && !i.reqBit && !i.sclPosedge
    ensures Holds(Next(r, i), if |rest| == 7 then [] else rest + [i.sda], false)
    ensures Done(r) <==> |rest| == 7
    ensures |rest| == 7 ==> Data(r, i) == rest + [i.sda]
  {
    if |rest| < 7 {
      assert (r.rxData[1..] + [i.sda])[7 - (|rest| + 1)..] == r.rxData[7 - |rest|..] + [i.sda];
    }
  }

  lemma RestSnoc(bits: seq<bool>, bit: bool)
    ensures Rest(bits + [bit]) == if |bits| % 8 == 7 then [] else Rest(bits) + [bit]
  {
  }

  /** One clock: if the reported bytes are the complete groups of the offered bits, they stay so. */
  lemma GroupsStep(r: Regs, i: In, bits: seq<bool>, edge: bool)
    requires Holds(r, Rest(bits), edge) && i.reqByte && !i.reqBit && (edge ==> !i.sclPosedge)
    ensures var more := bits + (if edge then [i.sda] else []);
            && Holds(Next(r, i), Rest(more), i.sclPosedge)
            && Group(bits) + (if Done(r) then [Data(r, i)] else []) == Group(more)
  {
    if edge {
      HoldsOneMoreBit(r, i, Rest(bits));
      RestSnoc(bits, i.sda);
      GroupSnoc(bits, i.sda);
    } else {
      HoldsWithoutBit(r, i, Rest(bits));
      assert bits + [] == bits;
    }
  }

  lemma LeavesIdle(start: Regs, i: In)
    requires start.state.Idle? && i.reqByte && !i.reqBit
    ensures Holds(Next(start, i), [], false) && !Done(start)
  {
    assert Next(start, i).rxData[7..] == [];
  }

  /** What holds after `n` clocks. */
  ghost predicate Grouped(ins: nat -> In, run: nat -> Regs, n: nat)
    requires n >= 1
  {
    && Holds(run(n), Rest(Offered(ins, n)), n > 1 && ins(n - 1).sclPosedge)
    && Reported(ins, run, n) == Group(Offered(ins, n))
  }

  lemma OfferedStep(ins: nat -> In, m: nat)
    requires m >= 1
    ensures Offered(ins, m + 1) == Offered(ins, m) + (if m > 1 && ins(m - 1).sclPosedge then [ins(m).sda] else [])
  {
  }

  lemma ReportedStep(ins: nat -> In, run: nat -> Regs, m: nat)
    ensures Reported(ins, run, m + 1)
        == Reported(ins, run, m) + (if Done(run(m)) then [Data(run(m), ins(m))] else [])
  {
  }

  lemma GroupedStep(ins: nat -> In, run: nat -> Regs, m: nat)
    requires m >= 1 && Grouped(ins, run, m) && run(m + 1) == Next(run(m), ins(m))
    requires ins(m).reqByte && !ins(m).reqBit && Separate(ins, m - 1)
    ensures Grouped(ins, run, m + 1)
  {
    var edge := m > 1 && ins(m - 1).sclPosedge;
    GroupsStep(run(m), ins(m), Offered(ins, m), edge);
    OfferedStep(ins, m);
    ReportedStep(ins, run, m);
  }

  /** Whatever its registers were in Idle, once the receiver has left it the bytes it reports are the complete groups of
      eight bits the bus offered: nothing is lost or doubled in the decision state between two bytes, where the bit
      counter has wrapped to 15, even if the next rising edge falls into it. */
  lemma {:induction false} ReportsGroups(start: Regs, ins: nat -> In, run: nat -> Regs, n: nat)
    requires HeldByteFor(ins, n) && IsRun(start, ins, run) && start.state.Idle? && n >= 1
    ensures Holds(run(n), Rest(Offered(ins, n)), n > 1 && ins(n - 1).sclPosedge)
    ensures Reported(ins, run, n) == Group(Offered(ins, n))
  {
    var m := n - 1;
    assert StepsTo(ins, run, m) && ins(m).reqByte && !ins(m).reqBit;
    if m > 0 {
      ReportsGroups(start, ins, run, m);
      assert Separate(ins, m - 1);
      GroupedStep(ins, run, m);
    } else {
      LeavesIdle(start, ins(0));
      assert Reported(ins, run, 0) == [];
    }
  }

  /** The `k`-th reported byte is made of the eight bits offered from position `8 * k` on. */
  lemma ReportsByteAt(start: Regs, ins: nat -> In, run: nat -> Regs, n: nat, k: nat)
    requires HeldByteFor(ins, n) && IsRun(start, ins, run) && start.state.Idle? && n >= 1
    ensures k < |Reported(ins, run, n)| <==> 8 * k + 8 <= |Offered(ins, n)|
    ensures k < |Reported(ins, run, n)| ==> Reported(ins, run, n)[k] == Offered(ins, n)[8 * k..8 * k + 8]
  {
    ReportsGroups(start, ins, run, n);
    if 8 * k + 8 <= |Offered(ins, n)| { GroupAt(Offered(ins, n), k); }
  }

  // ---------------------------------------------------------------- held bit mode

  /** In the first `n` clocks bits only are requested, and rising edges are never in adjacent clocks. */
  ghost predicate HeldBitFor(ins: nat -> In, n: nat) {
    && (forall m: nat | m < n :: ins(m).reqBit && !ins(m).reqByte)
    && (forall m: nat | m + 1 < n :: Separate(ins, m))
  }

  /** The values of SDA at the rising edges in clocks `first` to `n - 2`: a value is reported in the clock after its
      edge. */
  ghost function AtEdges(ins: nat -> In, first: nat, n: nat): seq<bool> {
    if n <= first + 1 then []
    else AtEdges(ins, first, n - 1) + (if ins(n - 2).sclPosedge then [ins(n - 2).sda] else [])
  }

  /** The registers of a receiver that takes bits: `edge` says that the last clock had an edge, with value `sda`. */
  predicate HoldsBit(r: Regs, edge: bool, sda: bool) {
    && r.rxReqBit && r.rxDone == edge
    && (r.state.ReadBit? || (r.state.NextTaskDecision? && !edge))
    && (edge ==> r.rxBit == sda)
  }

  lemma BitStep(r: Regs, i: In, edge: bool, sda: bool)
    requires HoldsBit(r, edge, sda) && i.reqBit && !i.reqByte && (edge ==> !i.sclPosedge)
    ensures HoldsBit(Next(r, i), i.sclPosedge, i.sda)
    ensures Done(r) <==> edge
    ensures edge ==> Data(r, i) == ZERO7 + [sda]
  {
  }

  lemma LeavesIdleForBit(start: Regs, i0: In, i1: In)
    requires start.state.Idle? && !start.rxReqBit
    requires i0.reqBit && !i0.reqByte && i1.reqBit && !i1.reqByte
    ensures var r := Next(start, i0); !Done(start) && !Done(r) && HoldsBit(Next(r, i1), false, false)
  {
  }

  /** Each bit as a byte of its own. */
  function Widen(bits: seq<bool>): (bytes: seq<Bits8>)
    ensures |bytes| == |bits|
  {
    seq(|bits|, k requires 0 <= k < |bits| => ZERO7 + [bits[k]])
  }

  /** What holds after `n` clocks, if bits are taken from clock `first` on. */
  ghost predicate BitsReported(ins: nat -> In, run: nat -> Regs, first: nat, n: nat)
    requires 1 <= first <= n
  {
    && HoldsBit(run(n), n > first && ins(n - 1).sclPosedge, ins(n - 1).sda)
    && Reported(ins, run, n) == Widen(AtEdges(ins, first, n))
  }

  lemma BitsReportedStep(ins: nat -> In, run: nat -> Regs, first: nat, m: nat)
    requires 1 <= first <= m && BitsReported(ins, run, first, m) && run(m + 1) == Next(run(m), ins(m))
    requires ins(m).reqBit && !ins(m).reqByte && Separate(ins, m - 1)
    ensures BitsReported(ins, run, first, m + 1)
  {
    var edge, sda := m > first && ins(m - 1).sclPosedge, ins(m - 1).sda;
    BitStep(run(m), ins(m), edge, sda);
    ReportedStep(ins, run, m);
    assert AtEdges(ins, first, m + 1) == AtEdges(ins, first, m) + (if edge then [sda] else []);
    assert Widen(AtEdges(ins, first, m + 1)) == Widen(AtEdges(ins, first, m)) + (if edge then [ZERO7 + [sda]] else []);
  }

  lemma {:induction false} BitsFrom(ins: nat -> In, run: nat -> Regs, first: nat, n: nat)
    requires (forall m: nat :: StepsTo(ins, run, m)) && 1 <= first <= n
    requires HeldBitFor(ins, n) && BitsReported(ins, run, first, first)
    ensures BitsReported(ins, run, first, n)
  {
    if n > first {
      var m := n - 1;
      BitsFrom(ins, run, first, m);
      assert StepsTo(ins, run, m) && ins(m).reqBit && !ins(m).reqByte && Separate(ins, m - 1);
      BitsReportedStep(ins, run, first, m);
    }
  }

  /** In held bit mode the receiver reports the value at each rising edge from clock 2 on, once and in order: the
      request is registered, so an edge in the first two clocks comes too early.  Unlike in byte mode it is the value
      at the edge itself, not one clock later. */
  lemma ReportsBits(start: Regs, ins: nat -> In, run: nat -> Regs, n: nat)
    requires HeldBitFor(ins, n) && IsRun(start, ins, run) && start.state.Idle? && !start.rxReqBit && n >= 2
    ensures BitsReported(ins, run, 2, n)
  {
    assert StepsTo(ins, run, 0) && StepsTo(ins, run, 1);
    assert ins(0).reqBit && !ins(0).reqByte && ins(1).reqBit && !ins(1).reqByte;
    LeavesIdleForBit(start, ins(0), ins(1));
    ReportedStep(ins, run, 0);
    ReportedStep(ins, run, 1);
    BitsFrom(ins, run, 2, n);
  }

  /** If the request was registered before, one clock less. */
  lemma ReportsBitsSooner(start: Regs, ins: nat -> In, run: nat -> Regs, n: nat)
    requires HeldBitFor(ins, n) && IsRun(start, ins, run) && start.state.Idle? && start.rxReqBit && n >= 1
    ensures BitsReported(ins, run, 1, n)
  {
    assert StepsTo(ins, run, 0) && ins(0).reqBit && !ins(0).reqByte;
    ReportedStep(ins, run, 0);
    BitsFrom(ins, run, 1, n);
  }

  // ---------------------------------------------------------------- a request that is withdrawn

  /** The request that is being answered is withdrawn, or there is none. */
  predicate Drops(r: Regs, i: In) {
    !i.Req() || (r.state.ReadByte? && !i.reqByte) || (r.state.ReadBit? && !i.reqBit)
  }

  /** In the clock after that the receiver is idle and reports nothing, whatever it was doing; and one clock later
      nothing is left of it. */
  lemma DroppedIsIdle(start: Regs, ins: nat -> In, run: nat -> Regs, c: nat)
    requires IsRun(start, ins, run) && Drops(run(c), ins(c))
    ensures var o := Outputs(run(c + 1), ins(c + 1)); o.idle && !o.done && run(c + 1).rxReqBit == ins(c).reqBit
    ensures var r := run(c + 2); r.bitCounter == 7 && r.rxData == ZERO7 && !r.rxDone
  {
    assert StepsTo(ins, run, c) && StepsTo(ins, run, c + 1);
  }

  /** With done, the value of a byte is its eight bits unless a single bit was requested in the clock before: then it is
      what the register for single bits holds, behind seven zeros. */
  lemma ByteDataIff(ins: nat -> In, run: nat -> Regs, n: nat)
    requires StepsTo(ins, run, n) && run(n + 1).state.ReadByte?
    ensures var o := Outputs(run(n + 1), ins(n + 1));
            o.data == if ins(n).reqBit then ZERO7 + [run(n + 1).rxBit] else run(n + 1).rxData + [ins(n + 1).sda]
  {
  }

  /** The inputs, and the registers, from clock `c` on. */
  ghost function InsFrom(ins: nat -> In, c: nat): nat -> In { (n: nat) => ins(c + n) }
  ghost function RunFrom(run: nat -> Regs, c: nat): nat -> Regs { (n: nat) => run(c + n) }

  lemma RunFromIsRun(start: Regs, ins: nat -> In, run: nat -> Regs, c: nat)
    requires IsRun(start, ins, run)
    ensures IsRun(run(c), InsFrom(ins, c), RunFrom(run, c))
  {
    forall n: nat ensures StepsTo(InsFrom(ins, c), RunFrom(run, c), n) { assert StepsTo(ins, run, c + n); }
  }

  /** It stays idle and silent as long as nothing is requested. */
  lemma {:induction false} SilentWithoutRequest(start: Regs, ins: nat -> In, run: nat -> Regs, c: nat, n: nat)
    requires IsRun(start, ins, run) && forall m: nat | c <= m < c + n :: !ins(m).Req()
    ensures n > 0 ==> run(c + n).state.Idle?
    ensures n > 0 ==> Reported(InsFrom(ins, c + 1), RunFrom(run, c + 1), n) == []
  {
    if n > 0 {
      SilentWithoutRequest(start, ins, run, c, n - 1);
      DroppedIsIdle(start, ins, run, c + n - 1);
      ReportedStep(InsFrom(ins, c + 1), RunFrom(run, c + 1), n - 1);
    }
  }

  /** If bytes are requested from then on, those reported are the complete groups of eight bits that were offered
      since then, whatever part of a byte had been read before. */
  lemma BytesAfterDrop(start: Regs, ins: nat -> In, run: nat -> Regs, c: nat, n: nat)
    requires IsRun(start, ins, run) && Drops(run(c), ins(c))
    requires HeldByteFor(InsFrom(ins, c + 1), n) && n >= 1
    ensures var later := InsFrom(ins, c + 1);
            Reported(later, RunFrom(run, c + 1), n) == Group(Offered(later, n))
  {
    DroppedIsIdle(start, ins, run, c);
    RunFromIsRun(start, ins, run, c + 1);
    ReportsGroups(run(c + 1), InsFrom(ins, c + 1), RunFrom(run, c + 1), n);
  }

  /** If bits are requested from then on, the values at the rising edges since then, from the third clock on; or from
      the second, if a byte was given up for a bit: then the request is registered in the very clock in which the byte
      is dropped. */
  lemma BitsAfterDrop(start: Regs, ins: nat -> In, run: nat -> Regs, c: nat, n: nat)
    requires IsRun(start, ins, run) && Drops(run(c), ins(c))
    requires HeldBitFor(InsFrom(ins, c + 1), n) && n >= 2
    ensures var later := InsFrom(ins, c + 1);
            Reported(later, RunFrom(run, c + 1), n) == Widen(AtEdges(later, if ins(c).reqBit then 1 else 2, n))
  {
    DroppedIsIdle(start, ins, run, c);
    RunFromIsRun(start, ins, run, c + 1);
    if ins(c).reqBit {
      ReportsBitsSooner(run(c + 1), InsFrom(ins, c + 1), RunFrom(run, c + 1), n);
    } else {
      ReportsBits(run(c + 1), InsFrom(ins, c + 1), RunFrom(run, c + 1), n);
    }
  }
}
