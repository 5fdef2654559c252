/** How the target takes a command packet: `src/recovery/recovery_receiver.sv`, with the multiplexer that hands
    the bytes from the bus either to it or to the receive queue, and the PEC register that is started with the
    address byte (`src/recovery/recovery_handler.sv:611-638` and `835-855`). */
module RecoveryReceiver {
  import opened Pec
  import opened RecoveryFrame

  datatype State = Idle | RxCmd | RxLenL | RxLenH | RxData | RxPec | CmdIsRd | Cmd | Busy

  /** What is captured of a packet: its header, its PEC, and the checksum to compare it with. */
  datatype Header = Header(cmd: Byte, lenL: Byte, lenH: Byte, pecCalc: Byte, pecRecv: Byte)

  /** The registers, the checksum, and the bytes that went into the queue. */
  datatype Regs = Regs(state: State, startR: bool, dataReady: bool, select: bool, header: Header,
                       dcnt: nat, crc: Byte, queued: seq<Byte>)
  {
    /** The command is passed on, and without an error. */
    predicate Accepted() { state.Cmd? && header.pecCalc == header.pecRecv }
  }

  const RESET := Regs(Idle, false, false, true, Header(ZERO, ZERO, ZERO, ZERO, ZERO), 0, ZERO, [])

  /** One clock of the bus side: a start, a stop, an address byte, a byte of a write to this device. */
  datatype In = In(start: bool, stop: bool, pending: bool, init: bool, addr: Byte,
                   valid: bool, byte: Byte, queueReady: bool, done: bool)

  /** A byte is taken by the receiver itself, or goes into the queue. */
  predicate RxFlow(r: Regs, i: In) { i.pending && r.select && i.valid && r.dataReady }
  predicate QueueFlow(r: Regs, i: In) { !(i.pending && r.select) && i.valid && i.queueReady }

  predicate PecEnable(r: Regs, i: In) { if r.select then RxFlow(r, i) else QueueFlow(r, i) }

  function NextState(r: Regs, i: In): State {
    match r.state
    case Idle => if i.start || r.startR || i.pending then RxCmd else Idle
    case RxCmd => if RxFlow(r, i) then RxLenL else if i.stop then Idle else RxCmd
    case RxLenL => if RxFlow(r, i) then RxLenH else if i.stop then Idle else RxLenL
    case RxLenH => if RxFlow(r, i) then RxData else if i.start then CmdIsRd else if i.stop then Idle else RxLenH
    case RxData => if (QueueFlow(r, i) && r.dcnt == 1) || r.dcnt == 0 then RxPec else if i.stop then Idle else RxData
    case RxPec => if RxFlow(r, i) then Cmd else if i.stop then Idle else RxPec
    case CmdIsRd => Cmd
    case Cmd => Busy
    case Busy => if i.done then Idle else Busy
  }

  function NextCount(r: Regs, i: In): nat {
    match r.state
    case RxLenL => if RxFlow(r, i) then r.dcnt / 256 * 256 + Val(i.byte) else r.dcnt
    case RxLenH => if RxFlow(r, i) then Val(i.byte) * 256 + r.dcnt % 256 else r.dcnt
    case RxData => if QueueFlow(r, i) then (if r.dcnt == 0 then 0xFFFF else r.dcnt - 1) else r.dcnt
    case _ => r.dcnt
  }

  /** A start clears the checksum, the address byte begins it anew, and every byte that is taken is added. */
  function NextCrc(crc: Byte, i: In, enable: bool): Byte {
    if i.start then ZERO else if i.init then Feed(ZERO, i.addr) else if enable then Feed(crc, i.byte) else crc
  }

  /** The checksum is captured before the byte is added to it: with the first length byte, in case that is the
      PEC of a read, and with the PEC of a write. */
  function NextHeader(h: Header, state: State, crc: Byte, byte: Byte, flow: bool): Header {
    match state
    case RxCmd => if flow then h.(cmd := byte) else h
    case RxLenL => if flow then h.(lenL := byte, pecCalc := crc) else h
    case RxLenH => if flow then h.(lenH := byte) else h
    case RxPec => if flow then h.(pecRecv := byte, pecCalc := crc) else h
    case CmdIsRd => h.(lenL := ZERO, lenH := ZERO, pecRecv := h.lenL)
    case _ => h
  }

  function Next(r: Regs, i: In): Regs {
    Regs(NextState(r, i),
         (r.state.CmdIsRd? || r.state.Cmd? || r.state.Busy?) && (r.startR || i.start),
         r.state.RxCmd? || (r.dataReady && !(r.state.RxPec? && RxFlow(r, i))),
         if r.state.RxData? then QueueFlow(r, i) && r.dcnt == 1 else r.select,
         NextHeader(r.header, r.state, r.crc, i.byte, RxFlow(r, i)),
         NextCount(r, i),
         NextCrc(r.crc, i, PecEnable(r, i)),
         if QueueFlow(r, i) then r.queued + [i.byte] else r.queued)
  }

  class CommandReceiver {
    const pec: RecoveryPec
    var state: State
    var startR: bool
    var dataReady: bool
    var select: bool
    var cmd: Byte
    var lenL: Byte
    var lenH: Byte
    var dcnt: nat
    var pecCalc: Byte
    var pecRecv: Byte
    var queued: seq<Byte>

    ghost function Contents(): Regs
      reads this, pec
    {
      Regs(state, startR, dataReady, select, Captured(), dcnt, pec.crcO, queued)
    }

    ghost function Captured(): Header
      reads this
    {
      Header(cmd, lenL, lenH, pecCalc, pecRecv)
    }

    constructor ()
      ensures Contents() == RESET
      ensures fresh(pec)
    {
      state, startR, dataReady, select := Idle, false, false, true;
      cmd, lenL, lenH, dcnt, pecCalc, pecRecv, queued := ZERO, ZERO, ZERO, 0, ZERO, ZERO, [];
      pec := new RecoveryPec();
    }

    /** The state transition block. */
    method Transition(i: In, rxFlow: bool, queueFlow: bool) returns (stateD: State)
      requires rxFlow == RxFlow(Contents(), i) && queueFlow == QueueFlow(Contents(), i)
      ensures stateD == NextState(Contents(), i)
    {
      stateD := state;
      match state {
        case Idle => if i.start || startR || i.pending { stateD := RxCmd; }
        case RxCmd => if rxFlow { stateD := RxLenL; } else if i.stop { stateD := Idle; }
        case RxLenL => if rxFlow { stateD := RxLenH; } else if i.stop { stateD := Idle; }
        case RxLenH =>
          if rxFlow { stateD := RxData; } else if i.start { stateD := CmdIsRd; } else if i.stop { stateD := Idle; }
        case RxData =>
          if (queueFlow && dcnt == 1) || dcnt == 0 { stateD := RxPec; } else if i.stop { stateD := Idle; }
        case RxPec => if rxFlow { stateD := Cmd; } else if i.stop { stateD := Idle; }
        case CmdIsRd => stateD := Cmd;
        case Cmd => stateD := Busy;
        case Busy => if i.done { stateD := Idle; }
      }
    }

    /** A start that comes before the command is over is remembered. */
    method LatchStart(start: bool)
      modifies this`startR
      ensures startR == ((state.CmdIsRd? || state.Cmd? || state.Busy?) && (old(startR) || start))
    {
      if state.CmdIsRd? || state.Cmd? || state.Busy? {
        if start { startR := true; }
      } else {
        startR := false;
      }
    }

    /** Whether the receiver takes bytes, and whether they go to it or into the queue. */
    method Handshake(rxFlow: bool, queueFlow: bool)
      modifies this`dataReady, this`select
      ensures dataReady == (state.RxCmd? || (old(dataReady) && !(state.RxPec? && rxFlow)))
      ensures select == if state.RxData? then queueFlow && dcnt == 1 else old(select)
    {
      match state {
        case RxCmd => dataReady := true;
        case RxPec => if rxFlow { dataReady := false; }
        case RxData => select := queueFlow && dcnt == 1;
        case _ =>
      }
    }

    /** The data counter. */
    method Count(i: In, rxFlow: bool, queueFlow: bool) returns (dcntD: nat)
      requires rxFlow == RxFlow(Contents(), i) && queueFlow == QueueFlow(Contents(), i)
      ensures dcntD == NextCount(Contents(), i)
    {
      dcntD := dcnt;
      match state {
        case RxLenL => if rxFlow { dcntD := dcnt / 256 * 256 + Val(i.byte); }
        case RxLenH => if rxFlow { dcntD := Val(i.byte) * 256 + dcnt % 256; }
        case RxData => if queueFlow { dcntD := if dcnt == 0 then 0xFFFF else dcnt - 1; }
        case _ =>
      }
    }

    /** The capture of the header and of the two checksums. */
    method Capture(byte: Byte, rxFlow: bool)
      modifies this`cmd, this`lenL, this`lenH, this`pecCalc, this`pecRecv
      ensures Captured() == NextHeader(old(Captured()), state, pec.crcO, byte, rxFlow)
    {
      match state {
        case RxCmd => if rxFlow { cmd := byte; }
        case RxLenL => if rxFlow { lenL, pecCalc := byte, pec.crcO; }
        case RxLenH => if rxFlow { lenH := byte; }
        case RxPec => if rxFlow { pecRecv, pecCalc := byte, pec.crcO; }
        case CmdIsRd => lenL, lenH, pecRecv := ZERO, ZERO, lenL;
        case _ =>
      }
    }

    method Check(i: In, pecEnable: bool)
      modifies pec
      ensures pec.crcO == NextCrc(old(pec.crcO), i, pecEnable)
    {
      pec.Clock(i.start, i.init || pecEnable, i.init, if i.init then i.addr else i.byte);
    }

    /** The registers of the receiver itself. */
    method Register(i: In, rxFlow: bool, queueFlow: bool)
      requires rxFlow == RxFlow(Contents(), i) && queueFlow == QueueFlow(Contents(), i)
      modifies this
      ensures state == NextState(old(Contents()), i) && dcnt == NextCount(old(Contents()), i)
      ensures startR == Next(old(Contents()), i).startR
      ensures dataReady == Next(old(Contents()), i).dataReady && select == Next(old(Contents()), i).select
      ensures Captured() == NextHeader(old(Captured()), old(state), pec.crcO, i.byte, rxFlow)
      ensures queued == if queueFlow then old(queued) + [i.byte] else old(queued)
    {
      var stateD := Transition(i, rxFlow, queueFlow);
      var dcntD := Count(i, rxFlow, queueFlow);
      Capture(i.byte, rxFlow);
      Handshake(rxFlow, queueFlow);
      LatchStart(i.start);
      if queueFlow { queued := queued + [i.byte]; }
      dcnt, state := dcntD, stateD;
    }

    method Clock(i: In)
      modifies this, pec
      ensures Contents() == Next(old(Contents()), i)
    {
      var rxFlow := i.pending && select && i.valid && dataReady;
      var queueFlow := !(i.pending && select) && i.valid && i.queueReady;
      var pecEnable := if select then rxFlow else queueFlow;
      Register(i, rxFlow, queueFlow);
      Check(i, pecEnable);
    }
  }

  ghost predicate StepsTo(ins: nat -> In, run: nat -> Regs, n: nat) { run(n + 1) == Next(run(n), ins(n)) }

  ghost predicate IsRun(start: Regs, ins: nat -> In, run: nat -> Regs) {
    run(0) == start && forall n: nat :: StepsTo(ins, run, n)
  }

  // ---------------------------------------------------------------- a receiver that does not listen

  /** Between two commands, or before a PEC, but the bytes go into the queue. */
  predicate Deaf(r: Regs) { !r.select && (r.state.Idle? || r.state.RxCmd? || r.state.RxPec?) }

  /** Data are expected but none were announced, or a stop comes before the last of them. */
  predicate Deafens(r: Regs, i: In) {
    r.state.RxData? && (r.dcnt == 0 || (i.stop && !(QueueFlow(r, i) && r.dcnt == 1)))
  }

  /** Bytes go into the queue only while data are expected. */
  predicate Listens(r: Regs) { r.select || r.state.RxData? || Deaf(r) }

  lemma DeafStep(r: Regs, i: In)
    requires Listens(r)
    ensures Listens(Next(r, i))
    ensures Deaf(Next(r, i)) <==> Deaf(r) || Deafens(r, i)
  {
  }

  /** From reset on, the receiver is deaf exactly when a write without data has come, or one that was stopped
      before the last of its data, whatever has come since: it stays so while it is enabled. */
  lemma {:induction false} DeafIff(ins: nat -> In, run: nat -> Regs, n: nat)
    requires IsRun(RESET, ins, run)
    ensures Listens(run(n))
    ensures Deaf(run(n)) <==> exists m: nat :: m < n && Deafens(run(m), ins(m))
  {
    if n > 0 {
      DeafIff(ins, run, n - 1);
      assert StepsTo(ins, run, n - 1);
      DeafStep(run(n - 1), ins(n - 1));
      if m: nat :| m < n && Deafens(run(m), ins(m)) { assert m < n - 1 || m == n - 1; }
    }
  }

  /** And then it passes on no command any more. */
  lemma {:induction false} DeafForGood(ins: nat -> In, run: nat -> Regs, n: nat, m: nat)
    requires (forall k: nat :: StepsTo(ins, run, k)) && Deaf(run(n)) && n <= m
    ensures Deaf(run(m)) && !run(m).state.Cmd?
  {
    if n < m {
      DeafForGood(ins, run, n, m - 1);
      assert StepsTo(ins, run, m - 1);
      DeafStep(run(m - 1), ins(m - 1));
    }
  }

  // ---------------------------------------------------------------- one write command

  predicate Takes(r: Regs, i: In) { RxFlow(r, i) || QueueFlow(r, i) }

  /** How many bytes were taken in the first `n` clocks. */
  ghost function Taken(ins: nat -> In, run: nat -> Regs, n: nat): nat {
    if n == 0 then 0 else Taken(ins, run, n - 1) + if Takes(run(n - 1), ins(n - 1)) then 1 else 0
  }

  /** The bytes of a write, a header, data and a PEC; the numbers its length bytes stand for; the checksum of its
      first `k` bytes; and what is in the queue before it. */
  datatype Write = Write(bytes: seq<Byte>, lo: nat, hi: nat, sum: nat -> Byte, before: seq<Byte>) {
    predicate Shape() { lo < 256 && hi < 256 && |bytes| == 4 + (hi * 256 + lo) }

    ghost predicate ValidAt(k: nat)
      requires k < |bytes|
    {
      && sum(k + 1) == Feed(sum(k), bytes[k])
      && (k == 1 ==> lo == Val(bytes[1])) && (k == 2 ==> hi == Val(bytes[2]))
    }

    ghost predicate Valid() { Shape() && forall k: nat | k < |bytes| :: ValidAt(k) }
  }

  /** The bus side offers byte `k` of the packet when it likes, and ends the transfer only behind the last one. */
  predicate ServesByte(w: Write, k: nat, i: In) {
    if k < |w.bytes| then i.pending && !i.start && !i.stop && !i.init && (i.valid ==> i.byte == w.bytes[k])
    else !i.valid
  }

  /** No command has been passed on before clock `n`. */
  ghost predicate NotBefore(run: nat -> Regs, n: nat) { forall m: nat | m < n :: !run(m).state.Cmd? }

  /** It does so until the command is passed on. */
  ghost predicate Serves(w: Write, ins: nat -> In, run: nat -> Regs, n: nat) {
    NotBefore(run, n + 1) ==> ServesByte(w, Taken(ins, run, n), ins(n))
  }

  /** A data byte is taken in the clock after the last byte of the header, in which the multiplexer still hands
      it to the receiver. */
  predicate DataTooSoon(r: Regs, i: In) { r.state.RxData? && r.dcnt > 0 && RxFlow(r, i) }

  ghost predicate Kept(ins: nat -> In, run: nat -> Regs, n: nat) {
    forall m: nat | m < n :: !DataTooSoon(run(m), ins(m))
  }

  /** Before the header is complete. */
  predicate InHeader(w: Write, k: nat, r: Regs)
    requires w.Shape()
  {
    && r.select && r.queued == w.before
    && (k >= 1 ==> r.dataReady && r.header.cmd == w.bytes[0])
    && (k >= 2 ==> r.header.lenL == w.bytes[1])
    && match k
       case 0 => r.state.RxCmd?
       case 1 => r.state.RxLenL?
       case 2 => r.state.RxLenH? && r.dcnt % 256 == w.lo
       case 3 => r.state.RxData? && r.header.lenH == w.bytes[2] && r.dcnt == w.hi * 256 + w.lo
       case _ => false
  }

  /** All is well: the data go into the queue, and the PEC is awaited or here. */
  predicate InData(w: Write, k: nat, r: Regs)
    requires w.Shape()
  {
    && 3 <= k <= |w.bytes|
    && r.header.cmd == w.bytes[0] && r.header.lenL == w.bytes[1] && r.header.lenH == w.bytes[2]
    && if k + 1 < |w.bytes| then
         r.state.RxData? && !r.select && r.dataReady && r.dcnt == |w.bytes| - 1 - k
         && r.queued == w.before + w.bytes[3..k]
       else
         && r.queued == w.before + w.bytes[3..|w.bytes| - 1]
         && if k + 1 == |w.bytes| then r.state.RxPec? && r.select && r.dataReady
            else r.state.Cmd? && r.select && !r.dataReady && r.header.pecRecv == w.bytes[k - 1]
                 && r.header.pecCalc == w.sum(k - 1)
  }

  /** A data byte was lost, so the PEC is taken for the last one, and another PEC is awaited. */
  predicate InLost(w: Write, k: nat, r: Regs)
    requires w.Shape()
  {
    && 4 <= k <= |w.bytes|
    && if k < |w.bytes| then r.state.RxData? && !r.select && r.dcnt == |w.bytes| - k
       else r.state.RxPec? || r.state.Idle? || r.state.RxCmd?
  }

  predicate InPacket(w: Write, k: nat, r: Regs)
    requires w.Shape()
  {
    k <= |w.bytes| && r.crc == w.sum(k)
    && (InHeader(w, k, r) || (|w.bytes| > 4 && InData(w, k, r)))
  }

  /** Nothing was announced, and the receiver does not listen any more. */
  predicate Stage(w: Write, k: nat, kept: bool, r: Regs)
    requires w.Shape()
  {
    || (kept && InPacket(w, k, r))
    || (!kept && InLost(w, k, r))
    || (|w.bytes| == 4 && Deaf(r) && 3 <= k <= 4)
  }

  function After(k: nat, r: Regs, i: In): nat { if Takes(r, i) then k + 1 else k }

  lemma LowByte(d: nat, v: nat)
    requires v < 256
    ensures (d / 256 * 256 + v) % 256 == v
  {
  }

  lemma CommandStep(w: Write, r: Regs, i: In)
    requires w.Shape() && InHeader(w, 0, r) && ServesByte(w, 0, i)
    ensures InHeader(w, After(0, r, i), Next(r, i))
  {
  }

  lemma LenLCount(r: Regs, i: In, lo: nat)
    requires r.state.RxLenL? && RxFlow(r, i) && lo == Val(i.byte) < 256
    ensures NextCount(r, i) % 256 == lo
  {
    LowByte(r.dcnt, lo);
  }

  lemma LenLStep(w: Write, r: Regs, i: In)
    requires w.Shape() && w.lo == Val(w.bytes[1]) && InHeader(w, 1, r) && ServesByte(w, 1, i)
    ensures InHeader(w, After(1, r, i), Next(r, i))
  {
    if RxFlow(r, i) { LenLCount(r, i, w.lo); }
  }

  lemma LenHStep(w: Write, r: Regs, i: In)
    requires w.Shape() && w.hi == Val(w.bytes[2]) && InHeader(w, 2, r) && ServesByte(w, 2, i)
    ensures InHeader(w, After(2, r, i), Next(r, i))
  {
  }

  lemma HeaderStep(w: Write, k: nat, r: Regs, i: In)
    requires w.Shape() && k < 3 && w.ValidAt(k) && InHeader(w, k, r) && ServesByte(w, k, i)
    ensures InHeader(w, After(k, r, i), Next(r, i)) && !r.state.RxData?
  {
    match k {
      case 0 => CommandStep(w, r, i);
      case 1 => LenLStep(w, r, i);
      case 2 => LenHStep(w, r, i);
    }
  }

  lemma FirstDataStep(w: Write, r: Regs, i: In)
    requires w.Shape() && |w.bytes| > 4 && InHeader(w, 3, r) && ServesByte(w, 3, i)
    ensures if DataTooSoon(r, i) then After(3, r, i) == 4 && InLost(w, 4, Next(r, i))
            else After(3, r, i) == 3 && InData(w, 3, Next(r, i))
  {
  }

  lemma NoDataStep(w: Write, r: Regs, i: In)
    requires w.Shape() && |w.bytes| == 4 && InHeader(w, 3, r) && ServesByte(w, 3, i)
    ensures Deaf(Next(r, i)) && !DataTooSoon(r, i)
  {
  }

  lemma DataStep(w: Write, k: nat, r: Regs, i: In)
    requires w.Shape() && k + 1 < |w.bytes| && InData(w, k, r) && ServesByte(w, k, i)
    ensures InData(w, After(k, r, i), Next(r, i)) && !DataTooSoon(r, i)
  {
    assert w.bytes[3..k] + [w.bytes[k]] == w.bytes[3..k + 1];
  }

  lemma PecStep(w: Write, k: nat, r: Regs, i: In)
    requires w.Shape() && k + 1 == |w.bytes| && InData(w, k, r) && ServesByte(w, k, i)
    requires r.crc == w.sum(k)
    ensures InData(w, After(k, r, i), Next(r, i)) && !DataTooSoon(r, i)
  {
  }

  lemma LostStep(w: Write, k: nat, r: Regs, i: In)
    requires w.Shape() && InLost(w, k, r) && ServesByte(w, k, i)
    ensures InLost(w, After(k, r, i), Next(r, i))
  {
  }

  lemma CrcStep(w: Write, k: nat, r: Regs, i: In)
    requires k < |w.bytes| && ServesByte(w, k, i) && r.crc == w.sum(k) && w.ValidAt(k)
    ensures Next(r, i).crc == w.sum(After(k, r, i))
  {
  }

  lemma PacketStep(w: Write, k: nat, r: Regs, i: In)
    requires w.Valid() && InPacket(w, k, r) && ServesByte(w, k, i) && !r.state.Cmd?
    ensures Stage(w, After(k, r, i), !DataTooSoon(r, i), Next(r, i))
  {
    if k < |w.bytes| { CrcStep(w, k, r, i); }
    if InHeader(w, k, r) {
      if k < 3 { HeaderStep(w, k, r, i); }
      else if |w.bytes| > 4 { FirstDataStep(w, r, i); }
      else { NoDataStep(w, r, i); }
    } else if k + 1 < |w.bytes| {
      DataStep(w, k, r, i);
    } else {
      PecStep(w, k, r, i);
    }
  }

  lemma StageStep(w: Write, k: nat, kept: bool, r: Regs, i: In, k': nat, kept': bool, r': Regs)
    requires w.Valid() && Stage(w, k, kept, r) && ServesByte(w, k, i) && !r.state.Cmd?
    requires k' == After(k, r, i) && kept' == (kept && !DataTooSoon(r, i)) && r' == Next(r, i)
    ensures Stage(w, k', kept', r')
  {
    if kept && InPacket(w, k, r) {
      PacketStep(w, k, r, i);
    } else if !kept && InLost(w, k, r) {
      LostStep(w, k, r, i);
    } else {
      DeafStep(r, i);
    }
  }

  lemma KeptStep(ins: nat -> In, run: nat -> Regs, n: nat)
    requires n > 0
    ensures Kept(ins, run, n) <==> Kept(ins, run, n - 1) && !DataTooSoon(run(n - 1), ins(n - 1))
  {
    if Kept(ins, run, n - 1) && !DataTooSoon(run(n - 1), ins(n - 1)) {
      forall m: nat | m < n ensures !DataTooSoon(run(m), ins(m)) { assert m < n - 1 || m == n - 1; }
    }
  }

  /** The receiver listens for this write. */
  predicate ListensFor(w: Write, r: Regs) {
    r.state.RxCmd? && r.select && r.queued == w.before && r.crc == w.sum(0)
  }

  /** A run that starts behind the address byte, in which the bytes of one write are offered at any time. */
  ghost predicate Writes(w: Write, ins: nat -> In, run: nat -> Regs) {
    && w.Valid() && ListensFor(w, run(0))
    && forall n: nat :: StepsTo(ins, run, n) && Serves(w, ins, run, n)
  }

  /** Where the receiver is in every clock up to the command. */
  lemma {:induction false} StageHolds(w: Write, ins: nat -> In, run: nat -> Regs, n: nat)
    requires Writes(w, ins, run) && NotBefore(run, n)
    ensures Stage(w, Taken(ins, run, n), Kept(ins, run, n), run(n))
  {
    if n > 0 {
      StageHolds(w, ins, run, n - 1);
      assert StepsTo(ins, run, n - 1) && Serves(w, ins, run, n - 1);
      KeptStep(ins, run, n);
      StageStep(w, Taken(ins, run, n - 1), Kept(ins, run, n - 1), run(n - 1), ins(n - 1),
                Taken(ins, run, n), Kept(ins, run, n), run(n));
    }
  }

  lemma {:induction false} SumIsCrc(w: Write, k: nat)
    requires w.Valid() && k <= |w.bytes|
    ensures w.sum(k) == CrcFrom(w.sum(0), w.bytes[..k])
  {
    if k > 0 {
      SumIsCrc(w, k - 1);
      assert w.bytes[..k][..k - 1] == w.bytes[..k - 1];
      assert w.ValidAt(k - 1);
    }
  }

  /** The receiver passes on the command of the packet, with all its data in the queue, and takes no further bytes. */
  predicate Delivered(w: Write, r: Regs)
    requires w.Shape()
  {
    && r.state.Cmd? && r.select && !r.dataReady
    && r.header.cmd == w.bytes[0] && r.header.lenL == w.bytes[1] && r.header.lenH == w.bytes[2]
    && r.queued == w.before + w.bytes[3..|w.bytes| - 1]
    && r.header.pecRecv == w.bytes[|w.bytes| - 1] && r.header.pecCalc == w.sum(|w.bytes| - 1)
  }

  /** Whenever a command comes, it is that of the packet, and no byte was lost. */
  lemma CommandArrives(w: Write, ins: nat -> In, run: nat -> Regs, n: nat)
    requires Writes(w, ins, run) && NotBefore(run, n) && run(n).state.Cmd?
    ensures Kept(ins, run, n) && |w.bytes| > 4 && Taken(ins, run, n) == |w.bytes|
    ensures Delivered(w, run(n))
  {
    StageHolds(w, ins, run, n);
  }

  /** Until the command is passed on, no data byte comes too soon. */
  ghost predicate NeverTooSoon(ins: nat -> In, run: nat -> Regs) {
    forall m: nat :: NotBefore(run, m) ==> !DataTooSoon(run(m), ins(m))
  }

  lemma KeptTillCommand(w: Write, ins: nat -> In, run: nat -> Regs, n: nat)
    requires Writes(w, ins, run) && NotBefore(run, n) && run(n).state.Cmd?
    ensures NeverTooSoon(ins, run)
  {
    CommandArrives(w, ins, run, n);
    forall m: nat | NotBefore(run, m) ensures !DataTooSoon(run(m), ins(m)) { assert m <= n; }
  }

  // ---------------------------------------------------------------- when the command comes

  /** A byte is offered to who is to take it. */
  predicate Offered(r: Regs, i: In) { i.valid && (r.select || i.queueReady) }

  ghost predicate OfferedLater(ins: nat -> In, run: nat -> Regs, n: nat) {
    exists m: nat :: n <= m && Offered(run(m), ins(m))
  }

  ghost predicate Continues(w: Write, ins: nat -> In, run: nat -> Regs, n: nat) {
    Taken(ins, run, n) < |w.bytes| ==> OfferedLater(ins, run, n)
  }

  /** The bus side offers all the bytes of the packet in the end. */
  ghost predicate OffersAll(w: Write, ins: nat -> In, run: nat -> Regs) {
    forall n: nat :: Continues(w, ins, run, n)
  }

  /** What is left of the packet; in the first clock the receiver may not be ready yet. */
  function Rank(w: Write, k: nat, r: Regs): int {
    2 * (|w.bytes| - k) + if r.state.RxCmd? && !r.dataReady then 1 else 0
  }

  lemma RankStep(w: Write, k: nat, r: Regs, i: In)
    requires w.Shape() && |w.bytes| > 4 && InPacket(w, k, r) && ServesByte(w, k, i)
    requires !r.state.Cmd? && !DataTooSoon(r, i)
    ensures k < |w.bytes| && 0 < Rank(w, k, r)
    ensures Rank(w, After(k, r, i), Next(r, i)) <= Rank(w, k, r)
    ensures Offered(r, i) ==> Rank(w, After(k, r, i), Next(r, i)) < Rank(w, k, r)
  {
  }

  lemma InPacketHolds(w: Write, ins: nat -> In, run: nat -> Regs, n: nat)
    requires Writes(w, ins, run) && NotBefore(run, n) && |w.bytes| > 4
    requires NeverTooSoon(ins, run)
    ensures InPacket(w, Taken(ins, run, n), run(n))
  {
    StageHolds(w, ins, run, n);
  }

  ghost function RankAt(w: Write, ins: nat -> In, run: nat -> Regs, n: nat): int {
    Rank(w, Taken(ins, run, n), run(n))
  }

  lemma NotBeforeStep(run: nat -> Regs, n: nat)
    requires NotBefore(run, n) && !run(n).state.Cmd?
    ensures NotBefore(run, n + 1)
  {
    forall m: nat | m < n + 1 ensures !run(m).state.Cmd? { assert m < n || m == n; }
  }

  lemma RankAtStep(w: Write, ins: nat -> In, run: nat -> Regs, n: nat)
    requires Writes(w, ins, run) && NotBefore(run, n) && |w.bytes| > 4 && !run(n).state.Cmd?
    requires NeverTooSoon(ins, run)
    ensures Taken(ins, run, n) < |w.bytes| && 0 < RankAt(w, ins, run, n)
    ensures RankAt(w, ins, run, n + 1) <= RankAt(w, ins, run, n)
    ensures Offered(run(n), ins(n)) ==> RankAt(w, ins, run, n + 1) < RankAt(w, ins, run, n)
  {
    InPacketHolds(w, ins, run, n);
    NotBeforeStep(run, n);
    assert StepsTo(ins, run, n) && Serves(w, ins, run, n);
    RankStep(w, Taken(ins, run, n), run(n), ins(n));
  }

  lemma {:induction false} RankFalls(w: Write, ins: nat -> In, run: nat -> Regs, n: nat, m: nat) returns (k: nat)
    requires Writes(w, ins, run) && NotBefore(run, n) && |w.bytes| > 4 && !run(n).state.Cmd?
    requires NeverTooSoon(ins, run)
    requires n <= m && Offered(run(m), ins(m))
    ensures NotBefore(run, k) && (run(k).state.Cmd? || RankAt(w, ins, run, k) < RankAt(w, ins, run, n))
    decreases m - n
  {
    RankAtStep(w, ins, run, n);
    NotBeforeStep(run, n);
    k := n + 1;
    if !run(k).state.Cmd? && RankAt(w, ins, run, k) >= RankAt(w, ins, run, n) {
      assert n != m;
      k := RankFalls(w, ins, run, n + 1, m);
    }
  }

  lemma {:induction false} Reaches(w: Write, ins: nat -> In, run: nat -> Regs, n: nat) returns (m: nat)
    requires Writes(w, ins, run) && NotBefore(run, n) && |w.bytes| > 4 && OffersAll(w, ins, run)
    requires NeverTooSoon(ins, run)
    ensures run(m).state.Cmd?
    decreases RankAt(w, ins, run, n)
  {
    m := n;
    if !run(n).state.Cmd? {
      RankAtStep(w, ins, run, n);
      assert Continues(w, ins, run, n);
      var t: nat :| n <= t && Offered(run(t), ins(t));
      m := RankFalls(w, ins, run, n, t);
      if !run(m).state.Cmd? { m := Reaches(w, ins, run, m); }
    }
  }

  lemma {:induction false} First(run: nat -> Regs, n: nat) returns (m: nat)
    requires run(n).state.Cmd?
    ensures m <= n && run(m).state.Cmd? && NotBefore(run, m)
  {
    m := 0;
    while !run(m).state.Cmd?
      invariant m <= n && NotBefore(run, m)
      decreases n - m
    {
      NotBeforeStep(run, m);
      m := m + 1;
    }
  }

  /** A write whose bytes are all offered is passed on as a command, in some clock, if and only if it has data
      and the first of them does not come in the clock after its header. */
  lemma CommandComesIff(w: Write, ins: nat -> In, run: nat -> Regs)
    requires Writes(w, ins, run) && OffersAll(w, ins, run)
    ensures (exists n: nat :: run(n).state.Cmd?)
       <==> |w.bytes| > 4 && NeverTooSoon(ins, run)
  {
    if n: nat :| run(n).state.Cmd? {
      var m := First(run, n);
      CommandArrives(w, ins, run, m);
      KeptTillCommand(w, ins, run, m);
    }
    if |w.bytes| > 4 && NeverTooSoon(ins, run) {
      var n := Reaches(w, ins, run, 0);
    }
  }

  // ---------------------------------------------------------------- two bus sides

  /** The bus side that has sent `k` bytes, and offers the next one in clock `n` if `offers(n)`. */
  ghost function OfferOf(w: Write, offers: nat -> bool, n: nat, k: nat): In {
    In(false, false, true, false, ZERO, offers(n) && k < |w.bytes|, if k < |w.bytes| then w.bytes[k] else ZERO,
       true, false)
  }

  /** The registers `n` clocks after `r0` with it, and the bytes taken. */
  ghost function ServedAt(r0: Regs, w: Write, offers: nat -> bool, n: nat): (Regs, nat) {
    if n == 0 then (r0, 0)
    else var (r, k) := ServedAt(r0, w, offers, n - 1);
         var i := OfferOf(w, offers, n - 1, k);
         (Next(r, i), After(k, r, i))
  }

  lemma ServedStep(r0: Regs, w: Write, offers: nat -> bool, n: nat)
    ensures var s := ServedAt(r0, w, offers, n);
            var i := OfferOf(w, offers, n, s.1);
            ServedAt(r0, w, offers, n + 1) == (Next(s.0, i), After(s.1, s.0, i))
  {
    var m := n + 1;
    assert ServedAt(r0, w, offers, m)
        == (var s := ServedAt(r0, w, offers, m - 1);
            var i := OfferOf(w, offers, m - 1, s.1);
            (Next(s.0, i), After(s.1, s.0, i)));
  }

  /** Clock `n` of it. */
  ghost predicate IsServed(r0: Regs, w: Write, offers: nat -> bool, ins: nat -> In, run: nat -> Regs, n: nat) {
    var s := ServedAt(r0, w, offers, n);
    run(n) == s.0 && ins(n) == OfferOf(w, offers, n, s.1)
  }

  lemma TakenStep(ins: nat -> In, run: nat -> Regs, n: nat)
    ensures Taken(ins, run, n + 1) == After(Taken(ins, run, n), run(n), ins(n))
  {
  }

  lemma {:induction false} ServedTakes(r0: Regs, w: Write, offers: nat -> bool,
                                       ins: nat -> In, run: nat -> Regs, n: nat)
    requires forall m: nat :: IsServed(r0, w, offers, ins, run, m)
    ensures Taken(ins, run, n) == ServedAt(r0, w, offers, n).1
  {
    if n > 0 {
      ServedTakes(r0, w, offers, ins, run, n - 1);
      assert IsServed(r0, w, offers, ins, run, n - 1);
      ServedStep(r0, w, offers, n - 1);
      TakenStep(ins, run, n - 1);
    }
  }

  ghost predicate OffersAt(w: Write, offers: nat -> bool, ins: nat -> In, run: nat -> Regs, n: nat) {
    ins(n) == OfferOf(w, offers, n, Taken(ins, run, n))
  }

  lemma ServesAt(r0: Regs, w: Write, offers: nat -> bool, ins: nat -> In, run: nat -> Regs, n: nat)
    requires forall m: nat :: IsServed(r0, w, offers, ins, run, m)
    ensures StepsTo(ins, run, n) && Serves(w, ins, run, n) && OffersAt(w, offers, ins, run, n)
  {
    ServedTakes(r0, w, offers, ins, run, n);
    assert IsServed(r0, w, offers, ins, run, n) && IsServed(r0, w, offers, ins, run, n + 1);
    ServedStep(r0, w, offers, n);
  }

  /** Every write can be sent at any pace. */
  lemma OneWrite(r0: Regs, w: Write, offers: nat -> bool) returns (ins: nat -> In, run: nat -> Regs)
    requires w.Valid() && ListensFor(w, r0)
    ensures Writes(w, ins, run) && run(0) == r0
    ensures forall n: nat :: OffersAt(w, offers, ins, run, n)
  {
    ins := (n: nat) => OfferOf(w, offers, n, ServedAt(r0, w, offers, n).1);
    run := (n: nat) => ServedAt(r0, w, offers, n).0;
    assert forall n: nat :: IsServed(r0, w, offers, ins, run, n);
    forall n: nat ensures StepsTo(ins, run, n) && Serves(w, ins, run, n) && OffersAt(w, offers, ins, run, n) {
      ServesAt(r0, w, offers, ins, run, n);
    }
  }

  predicate Even(n: nat) { n % 2 == 0 }

  lemma DataBegin(r: Regs, i: In)
    requires i.pending && Next(r, i).state.RxData? && Next(r, i).select
    ensures i.valid
  {
  }

  lemma OffersEven(w: Write, ins: nat -> In, run: nat -> Regs, n: nat)
    requires OffersAt(w, Even, ins, run, n)
    ensures ins(n).pending && (ins(n).valid ==> Even(n))
  {
  }

  lemma DataBeginInOddClocks(w: Write, ins: nat -> In, run: nat -> Regs, n: nat)
    requires run(0).state.RxCmd? && forall m: nat :: StepsTo(ins, run, m) && OffersAt(w, Even, ins, run, m)
    ensures run(n).state.RxData? && run(n).select ==> !Even(n)
  {
    if n > 0 && run(n).state.RxData? && run(n).select {
      assert StepsTo(ins, run, n - 1);
      OffersEven(w, ins, run, n - 1);
      DataBegin(run(n - 1), ins(n - 1));
    }
  }

  lemma EvenKept(w: Write, ins: nat -> In, run: nat -> Regs, n: nat)
    requires Writes(w, ins, run) && forall m: nat :: OffersAt(w, Even, ins, run, m)
    ensures !DataTooSoon(run(n), ins(n))
  {
    DataBeginInOddClocks(w, ins, run, n);
    assert OffersAt(w, Even, ins, run, n);
  }

  lemma EvenContinues(w: Write, ins: nat -> In, run: nat -> Regs, n: nat)
    requires forall m: nat :: OffersAt(w, Even, ins, run, m)
    ensures Continues(w, ins, run, n)
  {
    assert OffersAt(w, Even, ins, run, n) && OffersAt(w, Even, ins, run, n + 1);
    if Taken(ins, run, n) < |w.bytes| {
      if Even(n) {
        assert Offered(run(n), ins(n));
      } else {
        var m := n + 1;
        assert Taken(ins, run, m) == Taken(ins, run, m - 1);
        assert Offered(run(m), ins(m));
      }
    }
  }

  /** Sent in every second clock, a write with data becomes a command. */
  lemma EverySecondClock(r0: Regs, w: Write) returns (ins: nat -> In, run: nat -> Regs, n: nat)
    requires w.Valid() && |w.bytes| > 4 && ListensFor(w, r0)
    ensures Writes(w, ins, run) && run(0) == r0 && OffersAll(w, ins, run)
    ensures run(n).state.Cmd? && NotBefore(run, n)
  {
    ins, run := OneWrite(r0, w, Even);
    forall m: nat ensures Continues(w, ins, run, m) && !DataTooSoon(run(m), ins(m)) {
      EvenContinues(w, ins, run, m);
      EvenKept(w, ins, run, m);
    }
    CommandComesIff(w, ins, run);
    var m: nat :| run(m).state.Cmd?;
    n := First(run, m);
  }

  predicate Always(n: nat) { true }

  lemma {:induction false} HeaderEveryClock(w: Write, ins: nat -> In, run: nat -> Regs, n: nat)
    requires Writes(w, ins, run) && !run(0).dataReady && 1 <= n <= 4
    requires forall m: nat :: OffersAt(w, Always, ins, run, m)
    ensures Taken(ins, run, n) == n - 1 && InHeader(w, n - 1, run(n)) && run(n).dataReady && NotBefore(run, n)
  {
    var m := n - 1;
    assert StepsTo(ins, run, m) && OffersAt(w, Always, ins, run, m);
    if m > 0 {
      HeaderEveryClock(w, ins, run, m);
      assert w.ValidAt(m - 1);
      HeaderStep(w, m - 1, run(m), ins(m));
    }
  }

  /** Sent as fast as it is taken, it loses its first data byte and never does. */
  lemma EveryClock(r0: Regs, w: Write) returns (ins: nat -> In, run: nat -> Regs)
    requires w.Valid() && |w.bytes| > 4 && ListensFor(w, r0) && !r0.dataReady
    ensures Writes(w, ins, run) && run(0) == r0 && OffersAll(w, ins, run) && forall n: nat :: !run(n).state.Cmd?
  {
    ins, run := OneWrite(r0, w, Always);
    forall n: nat ensures Continues(w, ins, run, n) {
      assert OffersAt(w, Always, ins, run, n);
      assert Taken(ins, run, n) < |w.bytes| ==> Offered(run(n), ins(n));
    }
    HeaderEveryClock(w, ins, run, 4);
    assert OffersAt(w, Always, ins, run, 4);
    assert DataTooSoon(run(4), ins(4));
    CommandComesIff(w, ins, run);
  }

  // ---------------------------------------------------------------- reads

  predicate ServesRead(command: Byte, pec: Byte, k: nat, i: In) {
    if k < 2 then i.pending && !i.start && !i.stop && !i.init && (i.valid ==> i.byte == if k == 0 then command else pec)
    else !i.valid && !i.stop
  }

  predicate InRead(command: Byte, pec: Byte, crc0: Byte, k: nat, r: Regs) {
    && r.select && (k >= 1 ==> r.header.cmd == command)
    && match k
       case 0 => r.state.RxCmd? && r.crc == crc0
       case 1 => r.state.RxLenL? && r.crc == Feed(crc0, command)
       case 2 => && r.header.pecCalc == Feed(crc0, command)
                 && (((r.state.RxLenH? || r.state.CmdIsRd?) && r.header.lenL == pec)
                     || (r.state.Cmd? && r.header.pecRecv == pec && r.header.lenL == r.header.lenH == ZERO))
       case _ => false
  }

  lemma ReadStep(command: Byte, pec: Byte, crc0: Byte, k: nat, r: Regs, i: In)
    requires InRead(command, pec, crc0, k, r) && ServesRead(command, pec, k, i) && !r.state.Cmd?
    ensures InRead(command, pec, crc0, After(k, r, i), Next(r, i))
  {
  }

  ghost predicate ServesReadAt(command: Byte, pec: Byte, ins: nat -> In, run: nat -> Regs, n: nat) {
    NotBefore(run, n + 1) ==> ServesRead(command, pec, Taken(ins, run, n), ins(n))
  }

  /** A run that starts behind the address byte, in which the two bytes of a read are offered at any time, and
      then a repeated start. */
  ghost predicate Reads(command: Byte, pec: Byte, crc0: Byte, ins: nat -> In, run: nat -> Regs) {
    && run(0).state.RxCmd? && run(0).select && run(0).crc == crc0
    && forall n: nat :: StepsTo(ins, run, n) && ServesReadAt(command, pec, ins, run, n)
  }

  lemma {:induction false} ReadHolds(command: Byte, pec: Byte, crc0: Byte, ins: nat -> In, run: nat -> Regs, n: nat)
    requires Reads(command, pec, crc0, ins, run) && NotBefore(run, n)
    ensures InRead(command, pec, crc0, Taken(ins, run, n), run(n))
  {
    if n > 0 {
      ReadHolds(command, pec, crc0, ins, run, n - 1);
      assert StepsTo(ins, run, n - 1) && ServesReadAt(command, pec, ins, run, n - 1);
      ReadStep(command, pec, crc0, Taken(ins, run, n - 1), run(n - 1), ins(n - 1));
    }
  }

  /** A read is passed on two clocks after the repeated start behind its two bytes. */
  lemma ReadComes(command: Byte, pec: Byte, crc0: Byte, ins: nat -> In, run: nat -> Regs, n: nat)
    requires Reads(command, pec, crc0, ins, run) && NotBefore(run, n) && Taken(ins, run, n) == 2
    requires run(n).state.RxLenH? && ins(n).start
    ensures NotBefore(run, n + 2) && run(n + 2).state.Cmd?
  {
    ReadHolds(command, pec, crc0, ins, run, n);
    assert StepsTo(ins, run, n) && ServesReadAt(command, pec, ins, run, n);
    NotBeforeStep(run, n);
    assert StepsTo(ins, run, n + 1);
    NotBeforeStep(run, n + 1);
  }

  lemma ReadWaitStep(command: Byte, pec: Byte, crc0: Byte, k: nat, r: Regs, i: In)
    requires InRead(command, pec, crc0, k, r) && ServesRead(command, pec, k, i)
    requires k == 2 ==> r.state.RxLenH? && !i.start
    ensures After(k, r, i) == 2 ==> Next(r, i).state.RxLenH?
  {
  }

  /** Not a start behind the two bytes. */
  ghost predicate NoStartAt(ins: nat -> In, run: nat -> Regs, n: nat) { Taken(ins, run, n) == 2 ==> !ins(n).start }

  lemma NotCommand(command: Byte, pec: Byte, crc0: Byte, k: nat, r: Regs)
    requires InRead(command, pec, crc0, k, r) && (k == 2 ==> r.state.RxLenH?)
    ensures !r.state.Cmd?
  {
  }

  lemma ReadWaitsOnce(command: Byte, pec: Byte, crc0: Byte, ins: nat -> In, run: nat -> Regs, n: nat)
    requires Reads(command, pec, crc0, ins, run) && NotBefore(run, n) && NoStartAt(ins, run, n)
    requires Taken(ins, run, n) == 2 ==> run(n).state.RxLenH?
    ensures NotBefore(run, n + 1) && (Taken(ins, run, n + 1) == 2 ==> run(n + 1).state.RxLenH?)
  {
    ReadHolds(command, pec, crc0, ins, run, n);
    NotCommand(command, pec, crc0, Taken(ins, run, n), run(n));
    NotBeforeStep(run, n);
    assert StepsTo(ins, run, n) && ServesReadAt(command, pec, ins, run, n);
    TakenStep(ins, run, n);
    ReadWaitStep(command, pec, crc0, Taken(ins, run, n), run(n), ins(n));
  }

  /** Before that start it waits for it. */
  lemma {:induction false} ReadWaits(command: Byte, pec: Byte, crc0: Byte, ins: nat -> In, run: nat -> Regs, n: nat)
    requires Reads(command, pec, crc0, ins, run)
    requires forall m: nat | m < n :: NoStartAt(ins, run, m)
    ensures NotBefore(run, n)
    ensures Taken(ins, run, n) == 2 ==> run(n).state.RxLenH?
  {
    if n > 0 {
      ReadWaits(command, pec, crc0, ins, run, n - 1);
      ReadWaitsOnce(command, pec, crc0, ins, run, n - 1);
    }
  }
}
