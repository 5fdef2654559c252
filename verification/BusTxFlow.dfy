/** The transfer sequencer `src/ctrl/bus_tx_flow.sv`: feeds the eight bits of a byte, or a single bit,
    to the bit transmitter it contains. */
module BusTxFlow {
  import opened Bits
  import BusTx

  datatype State = Idle | DriveByte | DriveBit | NextTaskDecision

  /** The registers of the sequencer and of the transmitter inside it. */
  datatype Regs = Regs(state: State, bitCounter: nat, reqValue: Bits8, tx: BusTx.Regs)

  datatype In = In(tm: BusTx.Timing, sclNegedge: bool, sclStableLow: bool,
                   reqByte: bool, reqBit: bool, reqValue: Bits8) {
    predicate Req() { reqByte || reqBit }
    predicate ReqError() { reqByte && reqBit }
  }

  datatype Out = Out(done: bool, idle: bool, reqError: bool, sda: bool)

  predicate DriveEnable(r: Regs, i: In) { if r.state.Idle? then r.tx.state.Idle? && i.Req() else i.Req() }

  predicate DriveValue(r: Regs, i: In) {
    match r.state
    case Idle => if i.reqByte then i.reqValue[0] else i.reqValue[7]
    case DriveByte => r.reqValue[0]
    case DriveBit => r.reqValue[7]
    case NextTaskDecision => i.reqValue[7]
  }

  function TxIn(r: Regs, i: In): BusTx.In {
    BusTx.In(i.tm, DriveEnable(r, i), DriveValue(r, i), i.sclNegedge, i.sclStableLow)
  }

  predicate TxDone(r: Regs, i: In) { BusTx.Done(r.tx, TxIn(r, i)) }

  predicate Done(r: Regs, i: In) {
    || (r.state.DriveByte? && r.bitCounter == 0 && TxDone(r, i))
    || (r.state.DriveBit? && TxDone(r, i))
  }

  predicate Sda(r: Regs, i: In) { BusTx.Sda(r.tx, TxIn(r, i)) }

  function Outputs(r: Regs, i: In): Out {
    Out(Done(r, i), r.state.Idle? && r.tx.state.Idle?, i.ReqError(), Sda(r, i))
  }

  function Requested(i: In): State { if i.reqByte then DriveByte else if i.reqBit then DriveBit else Idle }

  function NextState(r: Regs, i: In): State {
    if !i.Req() || i.ReqError() then Idle
    else match r.state
      case Idle => if r.tx.state.Idle? then Requested(i) else Idle
      case DriveByte => if Done(r, i) then NextTaskDecision else DriveByte
      case DriveBit => if Done(r, i) then NextTaskDecision else DriveBit
      case NextTaskDecision => Requested(i)
  }

  function NextBitCounter(r: Regs, i: In): nat {
    if !r.state.DriveByte? then 7
    else if !TxDone(r, i) then r.bitCounter
    else if r.bitCounter == 0 then 7 else r.bitCounter - 1
  }

  function NextReqValue(r: Regs, i: In): Bits8 {
    if r.state.DriveByte? then (if TxDone(r, i) then r.reqValue[1..] + [false] else r.reqValue)
    else if r.bitCounter == 7 then i.reqValue
    else ZERO_BITS
  }

  function Next(r: Regs, i: In): Regs {
    Regs(NextState(r, i), NextBitCounter(r, i), NextReqValue(r, i), BusTx.Next(r.tx, TxIn(r, i)))
  }

  class Flow {
    var state: State
    var bitCounter: nat
    var reqValue: Bits8
    const xbusTx: BusTx.Transmitter

    ghost function Contents(): Regs
      reads this, xbusTx
    {
      Regs(state, bitCounter, reqValue, xbusTx.Contents())
    }

    constructor (tx: BusTx.Transmitter)
      requires tx.state.Idle?
      ensures xbusTx == tx
      ensures Contents() == Regs(Idle, 0, ZERO_BITS, tx.Contents())
    {
      state, bitCounter, reqValue, xbusTx := Idle, 0, ZERO_BITS, tx;
    }

    /** The block `tx_fsm_outputs`, without the done output that depends on the transmitter. */
    method FsmOutputs(i: In) returns (busTxIdle: bool, driveBitEn: bool, driveBitValue: bool, bitCounterEn: bool)
      ensures driveBitEn == DriveEnable(Contents(), i)
      ensures driveBitValue == DriveValue(Contents(), i)
      ensures busTxIdle == (state.Idle? && xbusTx.state.Idle?) && bitCounterEn == state.DriveByte?
    {
      var txIdle := xbusTx.state.Idle?;
      busTxIdle, driveBitEn, driveBitValue, bitCounterEn := false, false, true, false;
      match state {
        case Idle =>
          busTxIdle := txIdle;
          driveBitEn := if txIdle then i.Req() else false;
          driveBitValue := if i.reqByte then i.reqValue[0] else i.reqValue[7];
        case DriveByte =>
          bitCounterEn := true;
          driveBitEn := i.Req();
          driveBitValue := reqValue[0];
        case DriveBit =>
          driveBitValue := reqValue[7];
          driveBitEn := i.Req();
        case NextTaskDecision =>
          driveBitEn := i.Req();
          driveBitValue := i.reqValue[7];
      }
    }

    /** The block `tx_fsm_state`. */
    method FsmState(i: In, txIdle: bool, txDone: bool, busTxDone: bool) returns (stateD: State)
      requires state.DriveBit? ==> busTxDone == txDone
      ensures stateD ==
        if !i.Req() || i.ReqError() then Idle
        else match state
             case Idle => if txIdle then Requested(i) else Idle
             case DriveByte => if busTxDone then NextTaskDecision else DriveByte
             case DriveBit => if busTxDone then NextTaskDecision else DriveBit
             case NextTaskDecision => Requested(i)
    {
      var requested := if i.reqByte then DriveByte else if i.reqBit then DriveBit else Idle;
      stateD := state;
      match state {
        case Idle => if txIdle { stateD := requested; }
        case DriveByte => if busTxDone { stateD := NextTaskDecision; }
        case DriveBit => if txDone { stateD := NextTaskDecision; }
        case NextTaskDecision => stateD := requested;
      }
      if !i.Req() || i.ReqError() { stateD := Idle; }
    }

    /** The blocks `update_bit_counter` and `update_req_value`. */
    method UpdateCounterAndValue(i: In, bitCounterEn: bool, txDone: bool)
      modifies this`bitCounter, this`reqValue
      ensures bitCounter == if !bitCounterEn then 7 else if !txDone then old(bitCounter)
                            else if old(bitCounter) == 0 then 7 else old(bitCounter) - 1
      ensures reqValue == if bitCounterEn then (if txDone then old(reqValue)[1..] + [false] else old(reqValue))
                          else if old(bitCounter) == 7 then i.reqValue else ZERO_BITS
    {
      if bitCounterEn {
        if txDone {
          reqValue := reqValue[1..] + [false];
          bitCounter := if bitCounter == 0 then 7 else bitCounter - 1;
        }
      } else {
        reqValue := if bitCounter == 7 then i.reqValue else ZERO_BITS;
        bitCounter := 7;
      }
    }

    /** One clock: the request decides what the transmitter is asked for, and what the transmitter
        reports decides where the sequencer goes. */
    method Clock(i: In) returns (o: Out)
      modifies this, xbusTx
      ensures o == Outputs(old(Contents()), i)
      ensures Contents() == Next(old(Contents()), i)
    {
      var txIdle := xbusTx.state.Idle?;
      var busTxIdle, driveBitEn, driveBitValue, bitCounterEn := FsmOutputs(i);
      var tx := xbusTx.Clock(BusTx.In(i.tm, driveBitEn, driveBitValue, i.sclNegedge, i.sclStableLow));
      var busTxDone := (state.DriveByte? && bitCounter == 0 && tx.done) || (state.DriveBit? && tx.done);
      var stateD := FsmState(i, txIdle, tx.done, busTxDone);
      UpdateCounterAndValue(i, bitCounterEn, tx.done);
      state := stateD;
      o := Out(busTxDone, busTxIdle, i.ReqError(), tx.sda);
    }
  }

  /** A byte accepted in Idle is the byte that is driven exactly when the bit counter has been at its
      rest value, or the byte is zero.  An idle output alone does not promise it: the counter still
      holds its reset value in the first clock after reset, and its last value in the first clock after
      an abort. */
  lemma AcceptsRequestedByte(r: Regs, i: In)
    requires Outputs(r, i).idle && i.reqByte && !i.ReqError()
    ensures Next(r, i).state.DriveByte?
    ensures Next(r, i).reqValue == i.reqValue <==> r.bitCounter == 7 || i.reqValue == ZERO_BITS
  {
  }

  /** The flow `idle`, one clock after a byte was aborted after its first bit: a byte requested there is
      replaced by zeros. */
  lemma AbortedThenRequested(r: Regs, abort: In, again: In)
    requires r.state.DriveByte? && r.bitCounter < 7 && !TxDone(r, abort) && !abort.Req()
    requires again.reqByte && !again.ReqError()
    ensures var r1 := Next(r, abort);
            && Outputs(r1, again).idle
            && Next(r1, again).state.DriveByte? && Next(r1, again).reqValue == ZERO_BITS
  {
  }

  /** One idle clock is enough to bring the bit counter to its rest value. */
  lemma RestsInIdle(r: Regs, i: In)
    requires r.state.Idle?
    ensures Next(r, i).bitCounter == 7
  {
  }

  // ---------------------------------------------------------------- withdrawn and wrong requests

  ghost predicate StepsTo(ins: nat -> In, run: nat -> Regs, n: nat) { run(n + 1) == Next(run(n), ins(n)) }

  /** In the clock after one without a request the sequencer and the transmitter are idle, whatever they were doing, and
      nothing is reported done; the line is released unless something is requested again, and in the clock after that
      the bit counter is at rest. */
  lemma AfterWithdrawal(ins: nat -> In, run: nat -> Regs, c: nat)
    requires StepsTo(ins, run, c) && StepsTo(ins, run, c + 1) && !ins(c).Req()
    ensures var o := Outputs(run(c + 1), ins(c + 1)); o.idle && !o.done && (!ins(c + 1).Req() ==> o.sda)
    ensures run(c + 1).tx.Settled(ins(c).tm) && run(c + 2).bitCounter == 7
  {
  }

  /** What is reported as an error. */
  lemma ErrorIff(r: Regs, i: In)
    ensures Outputs(r, i).reqError <==> i.reqByte && i.reqBit
  {
  }

  /** A request for a byte and a bit at once is an error: the sequencer is idle in the clock after it.  The transmitter
      may still be busy with a bit, then the idle output stays low for one more clock, in which no request is taken. */
  lemma AfterError(ins: nat -> In, run: nat -> Regs, c: nat)
    requires StepsTo(ins, run, c) && StepsTo(ins, run, c + 1) && ins(c).ReqError()
    ensures Outputs(run(c), ins(c)).reqError
    ensures run(c + 1).state.Idle? && !Outputs(run(c + 1), ins(c + 1)).done
    ensures Outputs(run(c + 1), ins(c + 1)).idle <==> run(c + 1).tx.state.Idle?
    ensures !run(c + 1).tx.state.Idle? ==>
              && Outputs(run(c + 2), ins(c + 2)).idle && !Outputs(run(c + 2), ins(c + 2)).done
              && run(c + 2).bitCounter == 7 && run(c + 2).tx.Settled(ins(c + 1).tm)
  {
    ErrorIff(run(c), ins(c));
  }

  // ---------------------------------------------------------------- a done that lasts

  /** A bit of a byte has been held for its hold time, and the transmitter waits for SCL to be stable low. */
  predicate WaitsForLow(r: Regs) { r.state.DriveByte? && r.tx.state.HoldData? && r.tx.tcount == 0 }

  /** The next bit is the next one exactly when SCL is stable low when the hold time ends; otherwise a
      second bit is taken off the byte without having been driven. */
  lemma LosesBitIff(r: Regs, i: In, i2: In)
    requires WaitsForLow(r) && r.bitCounter >= 2
    requires i.reqByte && !i.reqBit && i2.reqByte && !i2.reqBit
    ensures Next(Next(r, i), i2).bitCounter == r.bitCounter - (if i.sclStableLow then 1 else 2)
    ensures Next(Next(r, i), i2).reqValue
         == if i.sclStableLow then r.reqValue[1..] + [false] else r.reqValue[2..] + [false, false]
  {
  }

  /** One bit is lost for every further clock in which SCL is not stable low. */
  lemma {:induction false} LosesBits(ins: nat -> In, run: nat -> Regs, n: nat, k: nat)
    requires forall m: nat :: StepsTo(ins, run, m)
    requires WaitsForLow(run(n)) && k <= run(n).bitCounter <= 7
    requires forall m: nat | n <= m < n + k :: ins(m).reqByte && !ins(m).reqBit && !ins(m).sclStableLow
    ensures WaitsForLow(run(n + k)) && run(n + k).bitCounter == run(n).bitCounter - k
    ensures run(n + k).reqValue[..8 - k] == run(n).reqValue[k..]
  {
    if k > 0 {
      LosesBits(ins, run, n, k - 1);
      var m := n + k - 1;
      assert StepsTo(ins, run, m);
      assert run(n + k).reqValue[..8 - k] == run(m).reqValue[..9 - k][1..];
    }
  }
}
