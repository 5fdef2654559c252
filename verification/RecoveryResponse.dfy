/** How the hardware answers a read command: the readout of the recovery executor
    (`src/recovery/recovery_executor.sv`), the packet transmitter (`src/recovery/recovery_transmitter.sv`)
    and the PEC calculator between them. */
module RecoveryResponse {
  import opened Pec
  import opened RecoveryFrame

  // ---------------------------------------------------------------- the transmitter

  datatype TxState = Idle | TxDesc | TxLenL | TxLenH | TxData | TxPEC | Flush

  datatype TxRegs = TxRegs(state: TxState, lenQ: nat, descData: nat)

  datatype TxIn = TxIn(descReady: bool, dataReady: bool, hostAbort: bool, pecCrc: Byte,
                       resValid: bool, resLen: nat, resDvalid: bool, resData: Byte, resDlast: bool)

  datatype TxOut = TxOut(descValid: bool, dataValid: bool, data: Byte, pecEnable: bool,
                         resReady: bool, resDready: bool)

  function TxOutputs(r: TxRegs, i: TxIn): TxOut {
    var valid := r.state.TxLenL? || r.state.TxLenH? || r.state.TxPEC? || (r.state.TxData? && i.resDvalid);
    TxOut(r.state.TxDesc?, valid,
          match r.state case TxLenL => OfNat(r.lenQ) case TxLenH => OfNat(r.lenQ / 256)
                        case TxPEC => i.pecCrc case _ => i.resData,
          valid && i.dataReady && !r.state.TxPEC?,
          r.state.Idle?,
          r.state.Flush? || (r.state.TxData? && i.dataReady))
  }

  function TxNextState(r: TxRegs, i: TxIn): TxState {
    match r.state
    case Idle => if i.resValid then TxDesc else Idle
    case TxDesc => if i.hostAbort then Idle else if i.descReady then TxLenL else TxDesc
    case TxLenL => if i.hostAbort then Idle else if i.dataReady then TxLenH else TxLenL
    case TxLenH => if i.hostAbort then Idle else if i.dataReady then TxData else TxLenH
    case TxData => if i.hostAbort then Flush
                   else if i.dataReady && i.resDvalid && i.resDlast then TxPEC else TxData
    case TxPEC => if i.dataReady then Idle else TxPEC
    case Flush => if !i.resDvalid then Idle else Flush
  }

  function TxNext(r: TxRegs, i: TxIn): TxRegs {
    var latch := r.state.Idle? && i.resValid;
    TxRegs(TxNextState(r, i), if latch then i.resLen else r.lenQ, if latch then i.resLen + 3 else r.descData)
  }

  class RecoveryTransmitter {
    var state: TxState
    var lenQ: nat
    var descData: nat

    ghost function Contents(): TxRegs
      reads this
    {
      TxRegs(state, lenQ, descData)
    }

    constructor (lenQ: nat, descData: nat)
      ensures Contents() == TxRegs(Idle, lenQ, descData)
    {
      state, this.lenQ, this.descData := Idle, lenQ, descData;
    }

    /** The output blocks. */
    method Drive(i: TxIn) returns (o: TxOut)
      ensures o == TxOutputs(Contents(), i)
    {
      var data, valid, dready, descValid := i.resData, false, false, false;
      match state {
        case TxDesc => descValid := true;
        case TxLenL => data, valid := OfNat(lenQ), true;
        case TxLenH => data, valid := OfNat(lenQ / 256), true;
        case TxData => valid, dready := i.resDvalid, i.dataReady;
        case TxPEC => data, valid := i.pecCrc, true;
        case Flush => dready := true;
        case Idle =>
      }
      var pecEnable := if state.TxLenL? || state.TxLenH? || state.TxData? then valid && i.dataReady else false;
      o := TxOut(descValid, valid, data, pecEnable, state.Idle?, dready);
    }

    /** The registers. */
    method Clock(i: TxIn)
      modifies this
      ensures Contents() == TxNext(old(Contents()), i)
    {
      var stateD := state;
      match state {
        case Idle =>
          if i.resValid { stateD, lenQ, descData := TxDesc, i.resLen, i.resLen + 3; }
        case TxDesc =>
          if i.hostAbort { stateD := Idle; } else if i.descReady { stateD := TxLenL; }
        case TxLenL =>
          if i.hostAbort { stateD := Idle; } else if i.dataReady { stateD := TxLenH; }
        case TxLenH =>
          if i.hostAbort { stateD := Idle; } else if i.dataReady { stateD := TxData; }
        case TxData =>
          if i.hostAbort { stateD := Flush; } else if i.dataReady && i.resDvalid && i.resDlast { stateD := TxPEC; }
        case TxPEC =>
          if i.dataReady { stateD := Idle; }
        case Flush =>
          if !i.resDvalid { stateD := Idle; }
      }
      state := stateD;
    }
  }

  // ---------------------------------------------------------------- the readout

  /** A 32-bit register, as its four bytes from the lowest. */
  datatype Word = Word(b0: Byte, b1: Byte, b2: Byte, b3: Byte) {
    function Lane(k: nat): Byte
      requires k < 4
    {
      match k case 0 => b0 case 1 => b1 case 2 => b2 case 3 => b3
    }
  }

  const CSR_INVALID: nat := 255

  /** A read command: the registers behind the selectors, the first selector, and the length in bytes. */
  datatype Request = Request(csrs: nat -> Word, first: nat, len: nat) {
    predicate Valid() { first <= CSR_INVALID && 1 <= len < 0x1_0000 }

    /** The selector of byte `k`. */
    function Sel(k: nat): nat { if first + k / 4 < CSR_INVALID then first + k / 4 else CSR_INVALID }

    function ByteAt(k: nat): Byte { csrs(Sel(k)).Lane(k % 4) }

    function Data(): (data: seq<Byte>)
      ensures |data| == len
    {
      seq(len, k requires 0 <= k => ByteAt(k))
    }
  }

  datatype ExecState = CsrReadLen | CsrReadData | Done | Waiting | Error

  /** The executor's registers in a read.  The word that bytes are taken from is itself a register, one clock
      behind the selector. */
  datatype ExecRegs = ExecRegs(state: ExecState, dcnt: nat, bcnt: nat, csrSel: nat, csrEnd: nat, csrData: Word,
                               resValid: bool, resDlast: bool)

  function ExecNextState(r: ExecRegs, taken: bool, hostAbort: bool): ExecState {
    match r.state
    case CsrReadLen => CsrReadData
    case CsrReadData => if hostAbort then Error else if taken && r.dcnt == 1 then Done else CsrReadData
    case Error => Done
    case Done => Waiting
    case Waiting => Waiting
  }

  function ExecNext(q: Request, r: ExecRegs, resReady: bool, resDready: bool, hostAbort: bool): ExecRegs {
    var taken := r.state.CsrReadData? && resDready;
    ExecRegs(
      ExecNextState(r, taken, hostAbort),
      if r.state.CsrReadLen? then q.len
      else if taken then (if r.dcnt == 0 then 0xFFFF else r.dcnt - 1) else r.dcnt,
      if r.state.Waiting? then 0 else if taken then (r.bcnt + 1) % 4 else r.bcnt,
      if taken && r.bcnt == 3 && r.csrSel < r.csrEnd then r.csrSel + 1 else r.csrSel,
      if r.state.CsrReadData? || r.state.Waiting? then r.csrEnd else CSR_INVALID,
      q.csrs(r.csrSel),
      r.state.CsrReadLen? && resReady,
      r.state.CsrReadData? && r.dcnt == 1)
  }

  class Readout {
    const q: Request
    var state: ExecState
    var dcnt: nat
    var bcnt: nat
    var csrSel: nat
    var csrEnd: nat
    var csrData: Word
    var resValid: bool
    var resDlast: bool

    ghost function Contents(): ExecRegs
      reads this
    {
      ExecRegs(state, dcnt, bcnt, csrSel, csrEnd, csrData, resValid, resDlast)
    }

    /** The command has been taken, so its first register is selected and read; the length is known, and the
        last selector has been forgotten. */
    constructor (q: Request, dcnt: nat)
      ensures this.q == q
      ensures Contents() == ExecRegs(CsrReadLen, dcnt, 0, q.first, CSR_INVALID, q.csrs(q.first), false, false)
    {
      this.q, this.dcnt, state := q, dcnt, CsrReadLen;
      bcnt, csrSel, csrEnd, csrData := 0, q.first, CSR_INVALID, q.csrs(q.first);
      resValid, resDlast := false, false;
    }

    /** The byte counter, the selector and the data word. */
    method Select(taken: bool)
      modifies this`bcnt, this`csrSel, this`csrEnd, this`csrData
      ensures bcnt == if state.Waiting? then 0 else if taken then (old(bcnt) + 1) % 4 else old(bcnt)
      ensures csrSel == if taken && old(bcnt) == 3 && old(csrSel) < old(csrEnd) then old(csrSel) + 1 else old(csrSel)
      ensures csrEnd == if state.CsrReadData? || state.Waiting? then old(csrEnd) else CSR_INVALID
      ensures csrData == q.csrs(old(csrSel))
    {
      csrData := q.csrs(csrSel);
      if taken && bcnt == 3 {
        if csrSel < csrEnd { csrSel := csrSel + 1; }
      }
      if taken { bcnt := (bcnt + 1) % 4; }
      if state.Waiting? { bcnt := 0; }
      if !state.CsrReadData? && !state.Waiting? { csrEnd := CSR_INVALID; }
    }

    method Clock(resReady: bool, resDready: bool, hostAbort: bool)
      modifies this
      ensures Contents() == ExecNext(q, old(Contents()), resReady, resDready, hostAbort)
    {
      resValid, resDlast := state.CsrReadLen? && resReady, state.CsrReadData? && dcnt == 1;
      Select(state.CsrReadData? && resDready);
      match state {
        case CsrReadLen => dcnt, state := q.len, CsrReadData;
        case CsrReadData =>
          var last := dcnt == 1;
          if resDready { dcnt := if dcnt == 0 then 0xFFFF else dcnt - 1; }
          if hostAbort { state := Error; } else if resDready && last { state := Done; }
        case Error => state := Done;
        case Done => state := Waiting;
        case Waiting =>
      }
    }
  }

  // ---------------------------------------------------------------- the response path

  /** Readout, transmitter and PEC register, and the bytes that were taken from the path. */
  datatype Path = Path(exec: ExecRegs, tx: TxRegs, crc: Byte, sent: seq<Byte>) {
    predicate Valid() { exec.bcnt < 4 }
  }

  datatype Ready = Ready(desc: bool, data: bool, abort: bool)

  function TxInOf(q: Request, p: Path, i: Ready): TxIn
    requires p.Valid()
  {
    TxIn(i.desc, i.data, i.abort, p.crc, p.exec.resValid, q.len, p.exec.state.CsrReadData?,
         p.exec.csrData.Lane(p.exec.bcnt), p.exec.resDlast)
  }

  function Next(q: Request, p: Path, i: Ready): (p': Path)
    requires p.Valid()
    ensures p'.Valid()
  {
    var t := TxInOf(q, p, i);
    var o := TxOutputs(p.tx, t);
    Path(ExecNext(q, p.exec, o.resReady, o.resDready, i.abort), TxNext(p.tx, t),
         if o.pecEnable then Feed(p.crc, o.data) else p.crc,
         if o.dataValid && i.data then p.sent + [o.data] else p.sent)
  }

  class ResponsePath {
    const readout: Readout
    const transmitter: RecoveryTransmitter
    const pec: RecoveryPec
    ghost var sent: seq<Byte>

    ghost predicate Valid()
      reads this, readout
    {
      readout.bcnt < 4
    }

    ghost function Contents(): Path
      reads this, readout, transmitter, pec
    {
      Path(readout.Contents(), transmitter.Contents(), pec.crcO, sent)
    }

    constructor (readout: Readout, transmitter: RecoveryTransmitter, pec: RecoveryPec)
      requires readout.bcnt < 4
      ensures Valid() && this.readout == readout && this.transmitter == transmitter && this.pec == pec
      ensures Contents() == Path(readout.Contents(), transmitter.Contents(), pec.crcO, [])
    {
      this.readout, this.transmitter, this.pec := readout, transmitter, pec;
      sent := [];
    }

    /** What the readout and the PEC register present to the transmitter. */
    method Wire(i: Ready) returns (t: TxIn)
      requires Valid()
      ensures t == TxInOf(readout.q, Contents(), i)
    {
      t := TxIn(i.desc, i.data, i.abort, pec.crcO, readout.resValid, readout.q.len,
                readout.state.CsrReadData?, readout.csrData.Lane(readout.bcnt), readout.resDlast);
    }

    /** One clock; a byte goes out when it is valid and taken. */
    method Clock(i: Ready) returns (o: TxOut)
      requires Valid()
      modifies this, readout, transmitter, pec
      ensures Valid()
      ensures o == TxOutputs(old(transmitter.Contents()), TxInOf(readout.q, old(Contents()), i))
      ensures Contents() == Next(readout.q, old(Contents()), i)
    {
      var t := Wire(i);
      o := transmitter.Drive(t);
      readout.Clock(o.resReady, o.resDready, i.abort);
      transmitter.Clock(t);
      pec.Clock(false, o.pecEnable, false, o.data);
      if o.dataValid && i.data { sent := sent + [o.data]; }
    }
  }

  // ---------------------------------------------------------------- runs

  ghost predicate StepsTo(q: Request, ins: nat -> Ready, run: nat -> Path, n: nat) {
    run(n).Valid() && run(n + 1) == Next(q, run(n), ins(n))
  }

  ghost predicate Starts(q: Request, p: Path) {
    && p.exec.state.CsrReadLen? && p.exec.bcnt == 0 && p.exec.csrSel == q.first && p.exec.csrEnd == CSR_INVALID
    && p.exec.csrData == q.csrs(q.first) && !p.exec.resValid && !p.exec.resDlast
    && p.tx.state.Idle? && p.sent == []
  }

  /** From the clock in which the length is known, with the PEC register holding the address byte's. */
  ghost predicate IsRun(q: Request, crc0: Byte, ins: nat -> Ready, run: nat -> Path) {
    && q.Valid() && Starts(q, run(0)) && run(0).crc == crc0
    && forall n: nat :: StepsTo(q, ins, run, n)
  }

  /** Byte `k` of the packet before its PEC. */
  function Wanted(q: Request, k: nat): Byte {
    if k == 0 then OfNat(q.len) else if k == 1 then OfNat(q.len / 256) else q.ByteAt(k - 2)
  }

  function Body(q: Request): (body: seq<Byte>)
    ensures |body| == q.len + 2
    ensures forall k :: 0 <= k < |body| ==> body[k] == Wanted(q, k)
  {
    seq(q.len + 2, k requires 0 <= k => Wanted(q, k))
  }

  /** The whole packet. */
  function Frame(q: Request, crc0: Byte): seq<Byte> { Body(q) + [CrcFrom(crc0, Body(q))] }

  // ---------------------------------------------------------------- the invariant

  /** The readout is over, completed or aborted. */
  predicate Dead(e: ExecRegs) { (e.state.Done? || e.state.Waiting? || e.state.Error?) && !e.resValid }

  /** Byte `pos` is selected; its word has arrived, unless the byte opens a word and the one before it was
      taken just now. */
  predicate Selected(q: Request, e: ExecRegs, pos: nat) {
    && e.bcnt == pos % 4 && e.csrSel == q.Sel(pos) && e.csrEnd == CSR_INVALID
    && (e.csrData == q.csrs(q.Sel(pos)) || (pos > 0 && pos % 4 == 0 && e.csrData == q.csrs(q.Sel(pos - 1))))
  }

  predicate Reading(q: Request, e: ExecRegs, pos: nat) {
    && e.state.CsrReadData? && pos < q.len && e.dcnt == q.len - pos && Selected(q, e, pos)
    && (e.resDlast ==> e.dcnt == 1)
  }

  /** The length bytes are being sent; `k` of them are out. */
  predicate Header(q: Request, p: Path, k: nat) {
    && p.tx.lenQ == q.len && p.tx.descData == q.len + 3 && |p.sent| == k
    && (Reading(q, p.exec, 0) || Dead(p.exec))
  }

  ghost function PathAt(q: Request, crc0: Byte, ins: nat -> Ready, n: nat): (p: Path)
    ensures p.Valid()
  {
    if n == 0 then
      Path(ExecRegs(CsrReadLen, 0, 0, q.first, CSR_INVALID, q.csrs(q.first), false, false),
           TxRegs(Idle, 0, 0), crc0, [])
    else Next(q, PathAt(q, crc0, ins, n - 1), ins(n - 1))
  }

  /** Clocking the path gives a run, whatever is taken when. */
  lemma OneRun(q: Request, crc0: Byte, ins: nat -> Ready) returns (run: nat -> Path)
    requires q.Valid()
    ensures IsRun(q, crc0, ins, run)
  {
    run := (n: nat) => PathAt(q, crc0, ins, n);
    forall n: nat ensures StepsTo(q, ins, run, n) {
      var m := n + 1;
      assert PathAt(q, crc0, ins, m) == Next(q, PathAt(q, crc0, ins, m - 1), ins(m - 1));
    }
  }

  /** Where the three machines are. */
  predicate Placed(q: Request, p: Path) {
    match p.tx.state
    case Idle => Dead(p.exec) || (Reading(q, p.exec, 0) && p.exec.resValid && p.sent == [])
    case TxDesc => Header(q, p, 0)
    case TxLenL => Header(q, p, 0) && !p.exec.resValid
    case TxLenH => Header(q, p, 1) && !p.exec.resValid
    case TxData =>
      && 2 <= |p.sent| <= q.len + 2 && !p.exec.resValid
      && (Reading(q, p.exec, |p.sent| - 2) || Dead(p.exec))
    case TxPEC => Dead(p.exec) && |p.sent| == q.len + 2
    case Flush => Dead(p.exec)
  }

  /** The PEC register holds the checksum of what was sent, right or wrong, until it is sent itself. */
  ghost predicate Checked(q: Request, crc0: Byte, p: Path) {
    if |p.sent| <= q.len + 2 then p.crc == CrcFrom(crc0, p.sent)
    else |p.sent| == q.len + 3 && p.tx.state.Idle? && Dead(p.exec)
         && p.sent[q.len + 2] == CrcFrom(crc0, p.sent[..q.len + 2])
  }

  ghost predicate Inv(q: Request, crc0: Byte, p: Path) {
    p.Valid() && ((Starts(q, p) && p.crc == crc0) || (Placed(q, p) && Checked(q, crc0, p)))
  }

  lemma SelSteps(q: Request, pos: nat)
    requires q.first <= CSR_INVALID
    ensures q.Sel(pos + 1) == if pos % 4 == 3 && q.Sel(pos) < CSR_INVALID then q.Sel(pos) + 1 else q.Sel(pos)
  {
    assert (pos + 1) / 4 == if pos % 4 == 3 then pos / 4 + 1 else pos / 4;
  }

  lemma ReadingWaits(q: Request, e: ExecRegs, pos: nat, resReady: bool)
    requires Reading(q, e, pos)
    ensures Reading(q, ExecNext(q, e, resReady, false, false), pos)
    ensures ExecNext(q, e, resReady, false, false).csrData == q.csrs(q.Sel(pos))
  {
  }

  lemma ReadingTakes(q: Request, e: ExecRegs, pos: nat, resReady: bool)
    requires q.Valid() && Reading(q, e, pos)
    ensures var e' := ExecNext(q, e, resReady, true, false);
            && (if e.dcnt == 1 then e'.state.Done? else Reading(q, e', pos + 1))
            && !e'.resValid && e'.resDlast == (e.dcnt == 1)
  {
    SelSteps(q, pos);
  }

  lemma SentSnoc(crc0: Byte, sent: seq<Byte>, b: Byte)
    ensures CrcFrom(crc0, sent + [b]) == Feed(CrcFrom(crc0, sent), b)
  {
    assert (sent + [b])[..|sent|] == sent;
  }

  /** What the transmitter drives, state by state. */
  lemma Drives(q: Request, p: Path, i: Ready)
    requires p.Valid()
    ensures var o := TxOutputs(p.tx, TxInOf(q, p, i));
            match p.tx.state
            case TxLenL => o == TxOut(false, true, OfNat(p.tx.lenQ), i.data, false, false)
            case TxLenH => o == TxOut(false, true, OfNat(p.tx.lenQ / 256), i.data, false, false)
            case TxData => var v := p.exec.state.CsrReadData?;
                           o == TxOut(false, v, p.exec.csrData.Lane(p.exec.bcnt), v && i.data, false, i.data)
            case TxPEC => o == TxOut(false, true, p.crc, false, false, false)
            case Idle => !o.dataValid && !o.pecEnable && o.resReady && !o.resDready
            case TxDesc => !o.dataValid && !o.pecEnable && !o.resReady && !o.resDready
            case Flush => !o.dataValid && !o.pecEnable && !o.resReady && o.resDready
  {
  }

  lemma StartKeepsInv(q: Request, crc0: Byte, p: Path, i: Ready)
    requires q.Valid() && Starts(q, p) && p.crc == crc0 && p.Valid()
    ensures Inv(q, crc0, Next(q, p, i))
  {
    Drives(q, p, i);
  }

  lemma IdleKeepsInv(q: Request, crc0: Byte, p: Path, i: Ready)
    requires q.Valid() && p.Valid() && Placed(q, p) && Checked(q, crc0, p)
    requires p.tx.state.Idle? || p.tx.state.TxDesc? || p.tx.state.Flush?
    ensures Placed(q, Next(q, p, i)) && Checked(q, crc0, Next(q, p, i))
  {
    Drives(q, p, i);
    if Reading(q, p.exec, 0) && !i.abort { ReadingWaits(q, p.exec, 0, p.tx.state.Idle?); }
  }

  lemma HeaderKeepsInv(q: Request, crc0: Byte, p: Path, i: Ready)
    requires q.Valid() && p.Valid() && Placed(q, p) && Checked(q, crc0, p)
    requires p.tx.state.TxLenL? || p.tx.state.TxLenH?
    ensures Placed(q, Next(q, p, i)) && Checked(q, crc0, Next(q, p, i))
  {
    Drives(q, p, i);
    if Reading(q, p.exec, 0) && !i.abort { ReadingWaits(q, p.exec, 0, false); }
    SentSnoc(crc0, p.sent, if p.tx.state.TxLenL? then OfNat(p.tx.lenQ) else OfNat(p.tx.lenQ / 256));
  }

  /** One more data byte: what the bytes sent and their checksum come to. */
  lemma DataSent(q: Request, crc0: Byte, p: Path, i: Ready)
    requires p.Valid() && p.tx.state.TxData? && |p.sent| < q.len + 2 && Checked(q, crc0, p)
    ensures Checked(q, crc0, Next(q, p, i))
    ensures |Next(q, p, i).sent| == if TakesData(p, i) then |p.sent| + 1 else |p.sent|
  {
    Drives(q, p, i);
    SentSnoc(crc0, p.sent, p.exec.csrData.Lane(p.exec.bcnt));
  }

  /** The transmitter in the data state. */
  lemma DataState(q: Request, p: Path, i: Ready)
    requires p.Valid() && p.tx.state.TxData?
    ensures var p' := Next(q, p, i);
            && p'.exec == ExecNext(q, p.exec, false, i.data, i.abort)
            && p'.tx.state == (if i.abort then Flush
                               else if TakesData(p, i) && p.exec.resDlast then TxPEC else TxData)
  {
    Drives(q, p, i);
  }

  lemma DataPlaced(q: Request, crc0: Byte, p: Path, i: Ready, pos: nat)
    requires q.Valid() && p.Valid() && p.tx.state.TxData? && Reading(q, p.exec, pos) && pos + 2 == |p.sent|
    requires Checked(q, crc0, p)
    ensures Placed(q, Next(q, p, i))
  {
    DataState(q, p, i);
    DataSent(q, crc0, p, i);
    if !i.abort {
      if i.data { ReadingTakes(q, p.exec, pos, false); } else { ReadingWaits(q, p.exec, pos, false); }
    }
  }

  lemma DataKeepsInv(q: Request, crc0: Byte, p: Path, i: Ready)
    requires q.Valid() && p.Valid() && Placed(q, p) && Checked(q, crc0, p) && p.tx.state.TxData?
    ensures Placed(q, Next(q, p, i)) && Checked(q, crc0, Next(q, p, i))
  {
    if p.exec.state.CsrReadData? {
      DataSent(q, crc0, p, i);
      DataPlaced(q, crc0, p, i, |p.sent| - 2);
    } else {
      DataState(q, p, i);
      Drives(q, p, i);
    }
  }

  lemma PecKeepsInv(q: Request, crc0: Byte, p: Path, i: Ready)
    requires q.Valid() && p.Valid() && Placed(q, p) && Checked(q, crc0, p) && p.tx.state.TxPEC?
    ensures Placed(q, Next(q, p, i)) && Checked(q, crc0, Next(q, p, i))
  {
    Drives(q, p, i);
    assert (p.sent + [p.crc])[..q.len + 2] == p.sent;
  }

  /** Every step keeps it, with or without an abort by the host. */
  lemma StepKeepsInv(q: Request, crc0: Byte, p: Path, i: Ready)
    requires q.Valid() && Inv(q, crc0, p)
    ensures Inv(q, crc0, Next(q, p, i))
  {
    if Starts(q, p) {
      StartKeepsInv(q, crc0, p, i);
    } else {
      match p.tx.state {
        case TxLenL => HeaderKeepsInv(q, crc0, p, i);
        case TxLenH => HeaderKeepsInv(q, crc0, p, i);
        case TxData => DataKeepsInv(q, crc0, p, i);
        case TxPEC => PecKeepsInv(q, crc0, p, i);
        case _ => IdleKeepsInv(q, crc0, p, i);
      }
    }
  }

  lemma {:induction false} InvHolds(q: Request, crc0: Byte, ins: nat -> Ready, run: nat -> Path, n: nat)
    requires IsRun(q, crc0, ins, run)
    ensures Inv(q, crc0, run(n))
  {
    assert StepsTo(q, ins, run, n);
    if n > 0 {
      InvHolds(q, crc0, ins, run, n - 1);
      assert StepsTo(q, ins, run, n - 1);
      StepKeepsInv(q, crc0, run(n - 1), ins(n - 1));
    }
  }

  // ---------------------------------------------------------------- the descriptor

  /** What the transmitter drives in one clock. */
  function Driven(q: Request, p: Path, i: Ready): TxOut
    requires p.Valid()
  {
    TxOutputs(p.tx, TxInOf(q, p, i))
  }

  /** It offers the descriptor, or a byte. */
  predicate OffersDesc(q: Request, p: Path, i: Ready)
    requires p.Valid()
  {
    Driven(q, p, i).descValid
  }

  predicate OffersData(q: Request, p: Path, i: Ready)
    requires p.Valid()
  {
    Driven(q, p, i).dataValid
  }

  /** The response is announced in clock 1; since clock 2 the descriptor was not taken, nor the read aborted. */
  ghost predicate Unanswered(ins: nat -> Ready, n: nat) { forall m: nat | 2 <= m < n :: !ins(m).desc && !ins(m).abort }

  /** The descriptor is offered and taken, and the read not aborted. */
  ghost predicate TakesDesc(q: Request, ins: nat -> Ready, run: nat -> Path, n: nat) {
    run(n).Valid() && OffersDesc(q, run(n), ins(n)) && ins(n).desc && !ins(n).abort
  }

  /** Nothing can be announced any more. */
  predicate Announced(p: Path) { !p.exec.resValid && !p.exec.state.CsrReadLen? }

  lemma AnnouncedStays(q: Request, p: Path, i: Ready)
    requires p.Valid() && Announced(p)
    ensures Announced(Next(q, p, i))
    ensures !p.tx.state.TxDesc? ==> !Next(q, p, i).tx.state.TxDesc?
    ensures p.tx.state.Idle? ==> Next(q, p, i).tx.state.Idle?
    ensures p.tx.state.TxDesc? ==>
              Next(q, p, i).tx == p.tx.(state := if i.abort then Idle else if i.desc then TxLenL else TxDesc)
  {
  }

  lemma UnansweredStep(ins: nat -> Ready, n: nat)
    requires n >= 2
    ensures Unanswered(ins, n + 1) <==> Unanswered(ins, n) && !ins(n).desc && !ins(n).abort
  {
    if Unanswered(ins, n) && !ins(n).desc && !ins(n).abort {
      forall m: nat | 2 <= m < n + 1 ensures !ins(m).desc && !ins(m).abort { assert m < n || m == n; }
    }
  }

  lemma {:induction false} DescriptorPhase(q: Request, crc0: Byte, ins: nat -> Ready, run: nat -> Path, n: nat)
    requires IsRun(q, crc0, ins, run) && n >= 2
    ensures Announced(run(n)) && run(n).Valid()
    ensures run(n).tx.state.TxDesc? <==> Unanswered(ins, n)
    ensures run(n).tx.state.TxDesc? ==> run(n).tx.descData == q.len + 3
    ensures run(n).tx.state.TxDesc? || run(n).tx.state.Idle? || exists m: nat :: m < n && TakesDesc(q, ins, run, m)
  {
    assert StepsTo(q, ins, run, n);
    if n == 2 {
      assert StepsTo(q, ins, run, 0) && StepsTo(q, ins, run, 1);
    } else {
      DescriptorPhase(q, crc0, ins, run, n - 1);
      assert StepsTo(q, ins, run, n - 1);
      AnnouncedStays(q, run(n - 1), ins(n - 1));
      UnansweredStep(ins, n - 1);
      if run(n - 1).tx.state.TxDesc? && !ins(n - 1).abort && ins(n - 1).desc { assert TakesDesc(q, ins, run, n - 1); }
    }
  }

  /** The descriptor, with the length of the packet, is offered in every clock from the announcement until it is taken
      or the read is aborted, and in no other; and no byte is offered before it was taken. */
  lemma DescriptorOffered(q: Request, crc0: Byte, ins: nat -> Ready, run: nat -> Path, n: nat)
    requires IsRun(q, crc0, ins, run)
    ensures run(n).Valid()
    ensures OffersDesc(q, run(n), ins(n)) <==> n >= 2 && Unanswered(ins, n)
    ensures OffersDesc(q, run(n), ins(n)) ==> run(n).tx.descData == |Frame(q, crc0)|
    ensures OffersData(q, run(n), ins(n)) ==> exists m: nat :: m < n && TakesDesc(q, ins, run, m)
  {
    assert StepsTo(q, ins, run, 0) && StepsTo(q, ins, run, n);
    if n >= 2 { DescriptorPhase(q, crc0, ins, run, n); }
  }

  // ---------------------------------------------------------------- aborts and the end

  /** Nothing is offered, now or later: the transmitter is idle, or flushing what is over. */
  predicate Silent(p: Path) {
    Announced(p) && (p.tx.state.Idle? || (p.tx.state.Flush? && !p.exec.state.CsrReadData?))
  }

  lemma SilentStays(q: Request, p: Path, i: Ready)
    requires p.Valid() && Silent(p)
    ensures !OffersDesc(q, p, i) && !OffersData(q, p, i)
    ensures var p' := Next(q, p, i); p'.tx.state.Idle? && Silent(p') && p'.sent == p.sent
  {
    Drives(q, p, i);
  }

  /** A read that is aborted before its PEC is over: nothing is sent behind the clock of the abort, nothing is offered,
      and two clocks later the transmitter is idle. */
  lemma {:induction false} AbortEnds(q: Request, crc0: Byte, ins: nat -> Ready, run: nat -> Path, c: nat, n: nat)
    requires IsRun(q, crc0, ins, run) && 2 <= c < n && ins(c).abort
    requires !run(c).tx.state.TxPEC? && !run(c).tx.state.Flush?
    ensures run(n).Valid() && Silent(run(n)) && run(n).sent == run(c + 1).sent
    ensures !OffersDesc(q, run(n), ins(n)) && !OffersData(q, run(n), ins(n))
    ensures n >= c + 2 ==> run(n).tx.state.Idle?
  {
    assert StepsTo(q, ins, run, n) && StepsTo(q, ins, run, n - 1);
    if n == c + 1 {
      DescriptorPhase(q, crc0, ins, run, c);
      AnnouncedStays(q, run(c), ins(c));
      Drives(q, run(c), ins(c));
    } else {
      AbortEnds(q, crc0, ins, run, c, n - 1);
      SilentStays(q, run(n - 1), ins(n - 1));
    }
    SilentStays(q, run(n), ins(n));
  }

  /** When only the PEC is left, an abort does not keep it back. */
  lemma {:induction false} PecDespiteAbort(q: Request, crc0: Byte, ins: nat -> Ready, run: nat -> Path, c: nat, n: nat)
    requires IsRun(q, crc0, ins, run) && run(c).tx.state.TxPEC? && c <= n
    requires forall m: nat | c <= m < n :: !ins(m).data
    ensures run(n).tx.state.TxPEC? && run(n).Valid() && OffersData(q, run(n), ins(n))
    ensures ins(n).data ==> Sent(q, run(n + 1))
  {
    assert StepsTo(q, ins, run, n);
    if c < n {
      PecDespiteAbort(q, crc0, ins, run, c, n - 1);
      assert StepsTo(q, ins, run, n - 1);
    }
    InvHolds(q, crc0, ins, run, n);
    Drives(q, run(n), ins(n));
  }

  /** The last byte of the data is read out, or the read is aborted. */
  predicate LastRead(q: Request, p: Path, i: Ready)
    requires p.Valid()
  {
    p.exec.state.CsrReadData? && (i.abort || (Driven(q, p, i).resDready && p.exec.dcnt == 1))
  }

  /** Then the executor reports the command done, in one clock only, after an abort one clock later; and it is ready for
      the next one, with its byte counter cleared. */
  lemma {:induction false} ExecutorEnds(q: Request, crc0: Byte, ins: nat -> Ready, run: nat -> Path, c: nat, n: nat)
    requires IsRun(q, crc0, ins, run) && run(c).Valid() && LastRead(q, run(c), ins(c)) && c < n
    ensures Ended(run(n).exec, ins(c).abort, n - c)
  {
    assert StepsTo(q, ins, run, n - 1);
    if n > c + 1 {
      ExecutorEnds(q, crc0, ins, run, c, n - 1);
      EndStep(q, run(n - 1), ins(n - 1), ins(c).abort, n - 1 - c);
    } else {
      EndBegins(q, run(c), ins(c));
    }
  }

  /** The executor's state the given number of clocks after the last byte was read out. */
  predicate Ended(e: ExecRegs, aborted: bool, after: nat) {
    var done := if aborted then 2 else 1;
    && (e.state.Done? <==> after == done)
    && (e.state.Waiting? <==> after > done)
    && (e.state.Error? <==> after < done)
    && (after > done + 1 ==> e.bcnt == 0)
  }

  lemma EndBegins(q: Request, p: Path, i: Ready)
    requires p.Valid() && LastRead(q, p, i)
    ensures Ended(Next(q, p, i).exec, i.abort, 1)
  {
    Drives(q, p, i);
  }

  lemma EndStep(q: Request, p: Path, i: Ready, aborted: bool, after: nat)
    requires p.Valid() && after >= 1 && Ended(p.exec, aborted, after)
    ensures Ended(Next(q, p, i).exec, aborted, after + 1)
  {
    Drives(q, p, i);
  }

  /** Before that it has not reported anything. */
  lemma {:induction false} NotDoneBefore(q: Request, crc0: Byte, ins: nat -> Ready, run: nat -> Path, n: nat)
    requires IsRun(q, crc0, ins, run)
    requires forall m: nat | m < n :: NotLast(q, ins, run, m)
    ensures run(n).Valid() && (run(n).exec.state.CsrReadLen? || run(n).exec.state.CsrReadData?)
  {
    assert StepsTo(q, ins, run, n);
    if n > 0 {
      NotDoneBefore(q, crc0, ins, run, n - 1);
      assert StepsTo(q, ins, run, n - 1) && NotLast(q, ins, run, n - 1);
    }
  }

  ghost predicate NotLast(q: Request, ins: nat -> Ready, run: nat -> Path, n: nat) {
    run(n).Valid() && !LastRead(q, run(n), ins(n))
  }

  // ---------------------------------------------------------------- stale bytes

  /** A data byte is taken in clock `n`. */
  predicate TakesData(p: Path, i: Ready) { p.tx.state.TxData? && p.exec.state.CsrReadData? && i.data }

  /** The first byte of a word is taken in the clock after the last byte of the word before, and the two
      words begin with different bytes. */
  ghost predicate WordTooSoon(q: Request, ins: nat -> Ready, run: nat -> Path, n: nat) {
    && TakesData(run(n), ins(n)) && TakesData(run(n + 1), ins(n + 1))
    && run(n + 1).exec.bcnt == 0 && q.csrs(run(n).exec.csrSel).b0 != q.csrs(run(n + 1).exec.csrSel).b0
  }

  ghost predicate CleanBytes(q: Request, sent: seq<Byte>) {
    forall k: nat | k < |sent| && k < q.len + 2 :: sent[k] == Wanted(q, k)
  }

  /** Nothing wrong has been sent before the PEC. */
  ghost predicate Clean(q: Request, p: Path) { CleanBytes(q, p.sent) }

  lemma CleanSnoc(q: Request, sent: seq<Byte>, b: Byte)
    ensures CleanBytes(q, sent + [b]) <==> CleanBytes(q, sent) && (|sent| < q.len + 2 ==> b == Wanted(q, |sent|))
  {
    var more := sent + [b];
    if CleanBytes(q, more) {
      forall k: nat | k < |sent| && k < q.len + 2 ensures sent[k] == Wanted(q, k) { assert more[k] == Wanted(q, k); }
      assert |sent| < q.len + 2 ==> more[|sent|] == Wanted(q, |sent|);
    }
  }

  /** The byte that is taken in this clock, if any, is the right one. */
  predicate TakesRight(q: Request, p: Path, i: Ready)
    requires p.Valid()
  {
    TakesData(p, i) && |p.sent| >= 2 ==> p.exec.csrData.Lane(p.exec.bcnt) == q.ByteAt(|p.sent| - 2)
  }

  /** What goes out in one clock. */
  lemma GoesOut(q: Request, crc0: Byte, p: Path, i: Ready) returns (b: Byte)
    requires q.Valid() && p.Valid() && Inv(q, crc0, p)
    ensures Next(q, p, i).sent == p.sent || Next(q, p, i).sent == p.sent + [b]
    ensures Next(q, p, i).sent == p.sent ==> TakesRight(q, p, i)
    ensures Next(q, p, i).sent != p.sent ==>
              (TakesRight(q, p, i) <==> (|p.sent| < q.len + 2 ==> b == Wanted(q, |p.sent|)))
  {
    Drives(q, p, i);
    b := TxOutputs(p.tx, TxInOf(q, p, i)).data;
  }

  lemma CleanStep(q: Request, crc0: Byte, p: Path, i: Ready)
    requires q.Valid() && p.Valid() && Inv(q, crc0, p)
    ensures Clean(q, Next(q, p, i)) <==> Clean(q, p) && TakesRight(q, p, i)
  {
    var b := GoesOut(q, crc0, p, i);
    CleanSnoc(q, p.sent, b);
  }

  lemma SelectionHeld(q: Request, p: Path, i: Ready)
    requires p.Valid() && !TakesData(p, i) && !p.tx.state.Flush?
    ensures Next(q, p, i).exec.csrSel == p.exec.csrSel
  {
    Drives(q, p, i);
  }

  lemma SelectionMoves(q: Request, p: Path, i: Ready, pos: nat)
    requires q.Valid() && p.Valid() && TakesData(p, i) && Reading(q, p.exec, pos)
    requires Reading(q, Next(q, p, i).exec, pos + 1)
    ensures p.exec.csrSel == q.Sel(pos) && Next(q, p, i).exec.csrSel == q.Sel(pos + 1)
    ensures (pos + 1) % 4 != 0 ==> q.Sel(pos + 1) == q.Sel(pos)
  {
    SelSteps(q, pos);
  }

  /** A byte that is being presented is selected, and nothing is being flushed. */
  predicate Presents(q: Request, p: Path) {
    p.tx.state.TxData? && |p.sent| >= 2 && Reading(q, p.exec, |p.sent| - 2)
  }

  lemma InvPresents(q: Request, crc0: Byte, p: Path)
    requires Inv(q, crc0, p)
    ensures p.tx.state.TxData? && p.exec.state.CsrReadData? ==> Presents(q, p)
    ensures p.exec.state.CsrReadData? || p.exec.state.CsrReadLen? ==> !p.tx.state.Flush?
  {
  }

  lemma ReadDataBefore(q: Request, p: Path, i: Ready)
    requires p.Valid() && Next(q, p, i).exec.state.CsrReadData?
    ensures p.exec.state.CsrReadData? || p.exec.state.CsrReadLen?
  {
  }

  lemma OneMoreSent(q: Request, p: Path, i: Ready)
    requires p.Valid() && TakesData(p, i)
    ensures |Next(q, p, i).sent| == |p.sent| + 1
  {
    Drives(q, p, i);
  }

  /** The byte that is presented after a byte was taken, or was not. */
  lemma PresentedAfter(q: Request, p: Path, i: Ready, p': Path)
    requires q.Valid() && p.Valid() && p' == Next(q, p, i) && Presents(q, p')
    requires TakesData(p, i) ==> Presents(q, p)
    requires !p.tx.state.Flush?
    ensures Presented(q, p, i, p')
  {
    if TakesData(p, i) {
      OneMoreSent(q, p, i);
      SelectionMoves(q, p, i, |p.sent| - 2);
    } else {
      SelectionHeld(q, p, i);
    }
  }

  /** The word register is one clock behind the selector, which moved if the byte before closed a word. */
  predicate Presented(q: Request, p: Path, i: Ready, p': Path) {
    && |p'.sent| >= 2 && p'.exec.bcnt == (|p'.sent| - 2) % 4 && p'.exec.csrSel == q.Sel(|p'.sent| - 2)
    && p'.exec.csrData == q.csrs(p.exec.csrSel)
    && (!TakesData(p, i) || (|p'.sent| - 2) % 4 != 0 ==> p.exec.csrSel == q.Sel(|p'.sent| - 2))
  }

  lemma WrongByteIff(q: Request, e: ExecRegs, e': ExecRegs, pos: nat, took: bool)
    requires e'.bcnt == pos % 4 && e'.csrSel == q.Sel(pos) && e'.csrData == q.csrs(e.csrSel)
    requires !took || pos % 4 != 0 ==> e.csrSel == q.Sel(pos)
    ensures e'.csrData.Lane(e'.bcnt) == q.ByteAt(pos) <==>
              !(took && e'.bcnt == 0 && q.csrs(e.csrSel).b0 != q.csrs(e'.csrSel).b0)
  {
  }

  /** The byte presented in clock `n + 1` of a run, by what was taken in clock `n`. */
  lemma PresentedInRun(q: Request, crc0: Byte, ins: nat -> Ready, run: nat -> Path, n: nat)
    requires IsRun(q, crc0, ins, run) && TakesData(run(n + 1), ins(n + 1))
    ensures Presented(q, run(n), ins(n), run(n + 1))
  {
    InvHolds(q, crc0, ins, run, n);
    InvHolds(q, crc0, ins, run, n + 1);
    InvPresents(q, crc0, run(n));
    InvPresents(q, crc0, run(n + 1));
    assert StepsTo(q, ins, run, n);
    ReadDataBefore(q, run(n), ins(n));
    PresentedAfter(q, run(n), ins(n), run(n + 1));
  }

  /** A wrong byte is taken exactly when a word is opened too soon. */
  lemma WrongIffTooSoon(q: Request, crc0: Byte, ins: nat -> Ready, run: nat -> Path, n: nat)
    requires IsRun(q, crc0, ins, run)
    ensures run(n + 1).Valid() && (TakesRight(q, run(n + 1), ins(n + 1)) <==> !WordTooSoon(q, ins, run, n))
  {
    assert StepsTo(q, ins, run, n + 1);
    if TakesData(run(n + 1), ins(n + 1)) {
      PresentedInRun(q, crc0, ins, run, n);
      WrongByteIff(q, run(n).exec, run(n + 1).exec, |run(n + 1).sent| - 2, TakesData(run(n), ins(n)));
    }
  }

  /** A word that is opened too soon goes out with the first byte of the word before it. */
  lemma SendsStaleByte(q: Request, crc0: Byte, ins: nat -> Ready, run: nat -> Path, n: nat)
    requires IsRun(q, crc0, ins, run)
    requires TakesData(run(n), ins(n)) && TakesData(run(n + 1), ins(n + 1)) && run(n + 1).exec.bcnt == 0
    ensures run(n + 2).sent == run(n + 1).sent + [q.csrs(run(n).exec.csrSel).b0]
    ensures run(n + 2).crc == Feed(run(n + 1).crc, q.csrs(run(n).exec.csrSel).b0)
  {
    assert StepsTo(q, ins, run, n) && StepsTo(q, ins, run, n + 1);
    Drives(q, run(n + 1), ins(n + 1));
  }

  /** No word was opened too soon by what was taken in the first `n` clocks. */
  ghost predicate NoneTooSoon(q: Request, ins: nat -> Ready, run: nat -> Path, n: nat) {
    forall m: nat | m + 1 < n :: !WordTooSoon(q, ins, run, m)
  }

  lemma NoneTooSoonStep(q: Request, ins: nat -> Ready, run: nat -> Path, n: nat)
    requires n > 0
    ensures NoneTooSoon(q, ins, run, n) <==>
              NoneTooSoon(q, ins, run, n - 1) && (n > 1 ==> !WordTooSoon(q, ins, run, n - 2))
  {
    if NoneTooSoon(q, ins, run, n - 1) && (n > 1 ==> !WordTooSoon(q, ins, run, n - 2)) {
      forall m: nat | m + 1 < n ensures !WordTooSoon(q, ins, run, m) { assert m + 1 < n - 1 || m == n - 2; }
    }
  }

  lemma CleanNext(q: Request, crc0: Byte, ins: nat -> Ready, run: nat -> Path, n: nat)
    requires IsRun(q, crc0, ins, run)
    ensures run(n).Valid() && (Clean(q, run(n + 1)) <==> Clean(q, run(n)) && TakesRight(q, run(n), ins(n)))
  {
    InvHolds(q, crc0, ins, run, n);
    assert StepsTo(q, ins, run, n);
    CleanStep(q, crc0, run(n), ins(n));
  }

  lemma CleanAtFirst(q: Request, crc0: Byte, ins: nat -> Ready, run: nat -> Path)
    requires IsRun(q, crc0, ins, run)
    ensures Clean(q, run(0)) && Clean(q, run(1))
  {
    CleanNext(q, crc0, ins, run, 0);
  }

  /** What has been sent is right exactly when no word was opened too soon. */
  lemma {:induction false} CleanIff(q: Request, crc0: Byte, ins: nat -> Ready, run: nat -> Path, n: nat)
    requires IsRun(q, crc0, ins, run)
    ensures Clean(q, run(n)) <==> NoneTooSoon(q, ins, run, n)
  {
    if n < 2 {
      CleanAtFirst(q, crc0, ins, run);
    } else {
      CleanIff(q, crc0, ins, run, n - 1);
      NoneTooSoonStep(q, ins, run, n);
      CleanNext(q, crc0, ins, run, n - 1);
      WrongIffTooSoon(q, crc0, ins, run, n - 2);
    }
  }

  /** At any rate of taking, and with aborts anywhere: what has been sent is a prefix of length, data and PEC
      exactly when no word was opened too soon; and the descriptor announces the whole. */
  lemma SendsPrefix(q: Request, crc0: Byte, ins: nat -> Ready, run: nat -> Path, n: nat)
    requires IsRun(q, crc0, ins, run)
    ensures run(n).sent <= Frame(q, crc0) <==> NoneTooSoon(q, ins, run, n)
    ensures run(n).tx.state.TxDesc? ==> run(n).tx.descData == |Frame(q, crc0)|
  {
    CleanIff(q, crc0, ins, run, n);
    InvHolds(q, crc0, ins, run, n);
    PrefixIffClean(q, crc0, run(n));
  }

  lemma PrefixIffClean(q: Request, crc0: Byte, p: Path)
    requires Inv(q, crc0, p)
    ensures p.sent <= Frame(q, crc0) <==> Clean(q, p)
  {
    var frame, body := Frame(q, crc0), Body(q);
    if Clean(q, p) && |p.sent| > q.len + 2 { assert p.sent[..q.len + 2] == body; }
    if p.sent <= frame {
      forall k: nat | k < |p.sent| && k < q.len + 2 ensures p.sent[k] == Wanted(q, k) { assert frame[k] == body[k]; }
    }
  }

  // ---------------------------------------------------------------- when the packet is completed

  ghost predicate NoAbort(ins: nat -> Ready) { forall n: nat :: !ins(n).abort }

  /** Without aborts the readout is over only when all its bytes have been taken. */
  predicate Calm(q: Request, p: Path) {
    match p.tx.state
    case Idle => Dead(p.exec) ==> |p.sent| == q.len + 3
    case TxData => Dead(p.exec) ==> |p.sent| == q.len + 2
    case TxPEC => true
    case Flush => false
    case _ => p.exec.state.CsrReadData?
  }

  lemma CalmStep(q: Request, crc0: Byte, p: Path, i: Ready)
    requires q.Valid() && p.Valid() && Inv(q, crc0, p) && Calm(q, p) && !i.abort
    ensures Calm(q, Next(q, p, i))
  {
    Drives(q, p, i);
  }

  lemma {:induction false} CalmHolds(q: Request, crc0: Byte, ins: nat -> Ready, run: nat -> Path, n: nat)
    requires IsRun(q, crc0, ins, run) && NoAbort(ins)
    ensures Inv(q, crc0, run(n)) && Calm(q, run(n))
  {
    InvHolds(q, crc0, ins, run, n);
    if n > 0 {
      CalmHolds(q, crc0, ins, run, n - 1);
      assert StepsTo(q, ins, run, n - 1) && !ins(n - 1).abort;
      CalmStep(q, crc0, run(n - 1), ins(n - 1));
    }
  }

  /** The readout is done, but the transmitter has not seen the last byte marked. */
  predicate Stuck(q: Request, p: Path) {
    p.tx.state.TxData? && |p.sent| == q.len + 2 && Dead(p.exec)
  }

  predicate AtLastByte(p: Path) { p.tx.state.TxData? && p.exec.state.CsrReadData? && p.exec.dcnt == 1 }

  /** The last data byte is taken in the clock after the one before it. */
  ghost predicate LastTooSoon(ins: nat -> Ready, run: nat -> Path, n: nat) {
    TakesData(run(n), ins(n)) && TakesData(run(n + 1), ins(n + 1)) && run(n + 1).exec.dcnt == 1
  }

  lemma MarkedLate(q: Request, crc0: Byte, p: Path, i: Ready)
    requires q.Valid() && p.Valid() && Inv(q, crc0, p) && !i.abort && AtLastByte(Next(q, p, i))
    ensures !p.tx.state.TxData? || p.exec.state.CsrReadData?
    ensures Next(q, p, i).exec.resDlast <==> !TakesData(p, i)
  {
    Drives(q, p, i);
  }

  lemma LastByteStep(q: Request, crc0: Byte, p: Path, i: Ready)
    requires q.Valid() && p.Valid() && Inv(q, crc0, p) && !i.abort && AtLastByte(p) && i.data
    ensures var p' := Next(q, p, i); if p.exec.resDlast then p'.tx.state.TxPEC? else Stuck(q, p')
  {
    Drives(q, p, i);
  }

  /** The mark of the last byte is one clock late, so the transmitter sees it unless the byte is taken at once. */
  lemma LastByteTaken(q: Request, crc0: Byte, ins: nat -> Ready, run: nat -> Path, n: nat)
    requires IsRun(q, crc0, ins, run) && NoAbort(ins)
    requires AtLastByte(run(n + 1)) && ins(n + 1).data
    ensures if LastTooSoon(ins, run, n) then Stuck(q, run(n + 2)) else run(n + 2).tx.state.TxPEC?
  {
    InvHolds(q, crc0, ins, run, n);
    InvHolds(q, crc0, ins, run, n + 1);
    assert StepsTo(q, ins, run, n) && StepsTo(q, ins, run, n + 1) && !ins(n).abort && !ins(n + 1).abort;
    MarkedLate(q, crc0, run(n), ins(n));
    LastByteStep(q, crc0, run(n + 1), ins(n + 1));
  }

  lemma {:induction false} StuckForGood(q: Request, crc0: Byte, ins: nat -> Ready, run: nat -> Path, n: nat, m: nat)
    requires IsRun(q, crc0, ins, run) && NoAbort(ins) && Stuck(q, run(n)) && n <= m
    ensures Stuck(q, run(m))
  {
    if n < m {
      StuckForGood(q, crc0, ins, run, n, m - 1);
      assert StepsTo(q, ins, run, m - 1) && !ins(m - 1).abort;
    }
  }

  lemma BecomesStuck(q: Request, crc0: Byte, p: Path, i: Ready)
    requires q.Valid() && p.Valid() && Inv(q, crc0, p) && Calm(q, p) && !i.abort
    requires !Stuck(q, p) && Stuck(q, Next(q, p, i))
    ensures AtLastByte(p) && i.data
  {
    Drives(q, p, i);
  }

  /** The transmitter gets stuck only by taking the last byte too soon. */
  lemma {:induction false} GotStuck(q: Request, crc0: Byte, ins: nat -> Ready, run: nat -> Path, m: nat)
    requires IsRun(q, crc0, ins, run) && NoAbort(ins) && Stuck(q, run(m))
    ensures exists n: nat :: LastTooSoon(ins, run, n)
  {
    assert m > 0;
    var n := m - 1;
    CalmHolds(q, crc0, ins, run, n);
    assert StepsTo(q, ins, run, n) && !ins(n).abort;
    if Stuck(q, run(n)) {
      GotStuck(q, crc0, ins, run, n);
    } else {
      BecomesStuck(q, crc0, run(n), ins(n));
      assert n > 0;
      LastByteTaken(q, crc0, ins, run, n - 1);
      assert LastTooSoon(ins, run, n - 1);
    }
  }

  // ---------------------------------------------------------------- fair runs

  predicate Offers(q: Request, p: Path, i: Ready)
    requires p.Valid()
  {
    OffersDesc(q, p, i) || OffersData(q, p, i)
  }

  predicate Takes(q: Request, p: Path, i: Ready)
    requires p.Valid()
  {
    (OffersDesc(q, p, i) && i.desc) || (OffersData(q, p, i) && i.data)
  }

  ghost predicate TakesAt(q: Request, ins: nat -> Ready, run: nat -> Path, n: nat) {
    run(n).Valid() && Takes(q, run(n), ins(n))
  }

  ghost predicate OffersAt(q: Request, ins: nat -> Ready, run: nat -> Path, n: nat) {
    run(n).Valid() && Offers(q, run(n), ins(n))
  }

  ghost predicate TakenLater(q: Request, ins: nat -> Ready, run: nat -> Path, n: nat) {
    exists m: nat :: n <= m && TakesAt(q, ins, run, m)
  }

  ghost predicate OfferTaken(q: Request, ins: nat -> Ready, run: nat -> Path, n: nat) {
    OffersAt(q, ins, run, n) ==> TakenLater(q, ins, run, n)
  }

  /** Whatever is offered is taken in the end, the descriptor and the bytes each in its own time. */
  ghost predicate Fair(q: Request, ins: nat -> Ready, run: nat -> Path) {
    NoAbort(ins) && forall n: nat :: OfferTaken(q, ins, run, n)
  }

  /** The whole packet, right or wrong, has been sent. */
  predicate Sent(q: Request, p: Path) { p.tx.state.Idle? && |p.sent| == q.len + 3 }

  /** What is left of the packet. */
  function Rank(q: Request, p: Path): int {
    q.len + 3 - |p.sent|
    + (match p.tx.state case Idle => if p.exec.state.CsrReadLen? then 3 else 2 case TxDesc => 1 case _ => 0)
  }

  /** A clock in which the offer is taken, or there is none, makes progress; no clock undoes any. */
  lemma RankStep(q: Request, crc0: Byte, p: Path, i: Ready)
    requires q.Valid() && p.Valid() && Inv(q, crc0, p) && Calm(q, p) && !i.abort
    requires !Sent(q, p) && !Stuck(q, p)
    ensures var p' := Next(q, p, i);
            && Rank(q, p) > 0
            && (Rank(q, p') <= Rank(q, p) || Sent(q, p'))
            && (Takes(q, p, i) || !Offers(q, p, i) ==> Rank(q, p') < Rank(q, p) || Sent(q, p'))
  {
    Drives(q, p, i);
  }

  lemma {:induction false} RankFalls(q: Request, crc0: Byte, ins: nat -> Ready, run: nat -> Path, n: nat, m: nat)
    returns (k: nat)
    requires IsRun(q, crc0, ins, run) && NoAbort(ins) && n <= m
    requires TakesAt(q, ins, run, m) || !OffersAt(q, ins, run, m)
    requires !Sent(q, run(n)) && !Stuck(q, run(n))
    ensures n < k && (Sent(q, run(k)) || Stuck(q, run(k)) || Rank(q, run(k)) < Rank(q, run(n)))
    decreases m - n
  {
    CalmHolds(q, crc0, ins, run, n);
    assert StepsTo(q, ins, run, n) && !ins(n).abort;
    RankStep(q, crc0, run(n), ins(n));
    k := n + 1;
    if !Sent(q, run(k)) && !Stuck(q, run(k)) && Rank(q, run(k)) >= Rank(q, run(n)) {
      assert n != m;
      k := RankFalls(q, crc0, ins, run, n + 1, m);
    }
  }

  /** A fair run sends a whole packet or gets stuck before the PEC. */
  lemma {:induction false} Ends(q: Request, crc0: Byte, ins: nat -> Ready, run: nat -> Path, n: nat) returns (m: nat)
    requires IsRun(q, crc0, ins, run) && Fair(q, ins, run)
    ensures n <= m && (Sent(q, run(m)) || Stuck(q, run(m)))
    decreases Rank(q, run(n))
  {
    m := n;
    if !Sent(q, run(n)) && !Stuck(q, run(n)) {
      CalmHolds(q, crc0, ins, run, n);
      assert StepsTo(q, ins, run, n) && !ins(n).abort;
      RankStep(q, crc0, run(n), ins(n));
      assert OfferTaken(q, ins, run, n);
      var t: nat :| n <= t && (TakesAt(q, ins, run, t) || !OffersAt(q, ins, run, t));
      m := RankFalls(q, crc0, ins, run, n, t);
      if !Sent(q, run(m)) && !Stuck(q, run(m)) { m := Ends(q, crc0, ins, run, m); }
    }
  }

  lemma {:induction false} SentOnlyGrows(q: Request, ins: nat -> Ready, run: nat -> Path, n: nat, m: nat)
    requires n <= m && forall k: nat :: StepsTo(q, ins, run, k)
    ensures run(n).sent <= run(m).sent
  {
    if n < m {
      SentOnlyGrows(q, ins, run, n, m - 1);
      assert StepsTo(q, ins, run, m - 1);
    }
  }

  /** A packet is complete, right or wrong, in some clock of a fair run if and only if the last byte was not
      taken too soon. */
  lemma CompletedIff(q: Request, crc0: Byte, ins: nat -> Ready, run: nat -> Path)
    requires IsRun(q, crc0, ins, run) && Fair(q, ins, run)
    ensures (exists n: nat :: Sent(q, run(n))) <==> (forall n: nat :: !LastTooSoon(ins, run, n))
  {
    if n: nat :| LastTooSoon(ins, run, n) {
      LastByteTaken(q, crc0, ins, run, n);
      forall m: nat ensures !Sent(q, run(m)) {
        if m >= n + 2 {
          StuckForGood(q, crc0, ins, run, n + 2, m);
        } else {
          SentOnlyGrows(q, ins, run, m, n + 2);
        }
      }
    } else {
      var m := Ends(q, crc0, ins, run, 0);
      if Stuck(q, run(m)) { GotStuck(q, crc0, ins, run, m); }
    }
  }

  /** In a fair run the right packet is sent if and only if neither the last byte nor a byte that opens a word
      with a different one is taken in the clock after the byte before it. */
  lemma PacketSentIff(q: Request, crc0: Byte, ins: nat -> Ready, run: nat -> Path)
    requires IsRun(q, crc0, ins, run) && Fair(q, ins, run)
    ensures (exists n: nat :: run(n).sent == Frame(q, crc0))
       <==> (forall n: nat :: !LastTooSoon(ins, run, n) && !WordTooSoon(q, ins, run, n))
  {
    CompletedIff(q, crc0, ins, run);
    if n: nat :| run(n).sent == Frame(q, crc0) {
      InvHolds(q, crc0, ins, run, n);
      assert Sent(q, run(n));
      forall m: nat ensures !WordTooSoon(q, ins, run, m) {
        if m + 1 < n {
          SendsPrefix(q, crc0, ins, run, n);
          assert NoneTooSoon(q, ins, run, n);
        } else {
          SentOnlyGrows(q, ins, run, n, m + 1);
          InvHolds(q, crc0, ins, run, m + 1);
        }
      }
    }
    if forall n: nat :: !LastTooSoon(ins, run, n) && !WordTooSoon(q, ins, run, n) {
      var n: nat :| Sent(q, run(n));
      SendsPrefix(q, crc0, ins, run, n);
      assert run(n).sent == Frame(q, crc0);
    }
  }

  // ---------------------------------------------------------------- two readers

  /** No bytes are taken in adjacent clocks. */
  ghost predicate Apart(ins: nat -> Ready, n: nat) { !(ins(n).data && ins(n + 1).data) }

  /** A fair reader that never takes bytes in adjacent clocks gets the whole packet, and the right one. */
  lemma ApartGetsPacket(q: Request, crc0: Byte, ins: nat -> Ready, run: nat -> Path)
    requires IsRun(q, crc0, ins, run) && Fair(q, ins, run) && forall n: nat :: Apart(ins, n)
    ensures exists n: nat :: run(n).sent == Frame(q, crc0)
  {
    forall n: nat ensures !LastTooSoon(ins, run, n) && !WordTooSoon(q, ins, run, n) { assert Apart(ins, n); }
    PacketSentIff(q, crc0, ins, run);
  }

  /** The target state machine takes a byte in the clock in which it enters the state in which bytes are sent
      on the bus: `reading(n)` says whether it is in that state. */
  ghost predicate Pulses(reading: nat -> bool, ins: nat -> Ready, n: nat) {
    ins(n).data == (!reading(n) && reading(n + 1))
  }

  /** So the core's own reader gets it, whenever and however long the machine is in that state. */
  lemma TargetGetsPacket(q: Request, crc0: Byte, ins: nat -> Ready, run: nat -> Path, reading: nat -> bool)
    requires IsRun(q, crc0, ins, run) && Fair(q, ins, run) && forall n: nat :: Pulses(reading, ins, n)
    ensures exists n: nat :: run(n).sent == Frame(q, crc0)
  {
    forall n: nat ensures Apart(ins, n) { assert Pulses(reading, ins, n) && Pulses(reading, ins, n + 1); }
    ApartGetsPacket(q, crc0, ins, run);
  }

  /** A reader that takes whatever it can. */
  ghost predicate Greedy(ins: nat -> Ready, n: nat) { ins(n) == Ready(true, true, false) }

  /** Data byte `k` is presented to it in clock `k + 5`. */
  predicate AtByte(q: Request, p: Path, k: nat) {
    p.tx.state.TxData? && p.exec.state.CsrReadData? && |p.sent| == k + 2
  }

  /** Clock `j` of such a run, up to the first data byte. */
  predicate AtHeader(p: Path, j: nat) {
    && p.exec.state.CsrReadData?
    && match j
       case 1 => p.tx.state.Idle? && p.exec.resValid && p.sent == []
       case 2 => p.tx.state.TxDesc? && p.sent == []
       case 3 => p.tx.state.TxLenL? && p.sent == []
       case 4 => p.tx.state.TxLenH? && |p.sent| == 1
       case 5 => p.tx.state.TxData? && |p.sent| == 2
       case _ => false
  }

  lemma HeaderStep(q: Request, p: Path, i: Ready, j: nat)
    requires p.Valid() && j < 5 && i == Ready(true, true, false)
    requires if j == 0 then Starts(q, p) else AtHeader(p, j)
    ensures AtHeader(Next(q, p, i), j + 1)
  {
    Drives(q, p, i);
  }

  lemma {:induction false} GreedyHeader(q: Request, crc0: Byte, ins: nat -> Ready, run: nat -> Path, j: nat)
    requires IsRun(q, crc0, ins, run) && (forall n: nat :: Greedy(ins, n)) && 1 <= j <= 5
    ensures AtHeader(run(j), j)
  {
    if j > 1 { GreedyHeader(q, crc0, ins, run, j - 1); }
    assert StepsTo(q, ins, run, j - 1) && Greedy(ins, j - 1);
    HeaderStep(q, run(j - 1), ins(j - 1), j - 1);
  }

  lemma GreedyStep(q: Request, crc0: Byte, p: Path, i: Ready, k: nat)
    requires q.Valid() && p.Valid() && Inv(q, crc0, p) && AtByte(q, p, k) && k + 1 < q.len && i.data && !i.abort
    ensures AtByte(q, Next(q, p, i), k + 1)
  {
    Drives(q, p, i);
    MarkedOnlyLast(q, crc0, p);
  }

  lemma MarkedOnlyLast(q: Request, crc0: Byte, p: Path)
    requires q.Valid() && p.Valid() && Inv(q, crc0, p) && p.tx.state.TxData? && p.exec.state.CsrReadData?
    ensures Reading(q, p.exec, |p.sent| - 2) && (p.exec.resDlast ==> |p.sent| == q.len + 1)
  {
  }

  lemma {:induction false} GreedyBytes(q: Request, crc0: Byte, ins: nat -> Ready, run: nat -> Path, k: nat)
    requires IsRun(q, crc0, ins, run) && (forall n: nat :: Greedy(ins, n)) && k < q.len
    ensures Inv(q, crc0, run(k + 5)) && AtByte(q, run(k + 5), k)
  {
    InvHolds(q, crc0, ins, run, k + 5);
    if k == 0 {
      GreedyHeader(q, crc0, ins, run, 5);
    } else {
      GreedyBytes(q, crc0, ins, run, k - 1);
      assert StepsTo(q, ins, run, k + 4) && Greedy(ins, k + 4);
      GreedyStep(q, crc0, run(k + 4), ins(k + 4), k - 1);
    }
  }

  /** Byte `k - 1` and byte `k` are taken in adjacent clocks. */
  lemma GreedyPair(q: Request, crc0: Byte, ins: nat -> Ready, run: nat -> Path, k: nat)
    requires IsRun(q, crc0, ins, run) && (forall n: nat :: Greedy(ins, n)) && 1 <= k < q.len
    ensures TakesData(run(k + 4), ins(k + 4)) && TakesData(run(k + 5), ins(k + 5))
    ensures run(k + 5).exec.dcnt == q.len - k && run(k + 5).exec.bcnt == k % 4
    ensures run(k + 4).exec.csrSel == q.Sel(k - 1) && run(k + 5).exec.csrSel == q.Sel(k)
  {
    GreedyBytes(q, crc0, ins, run, k - 1);
    GreedyBytes(q, crc0, ins, run, k);
    MarkedOnlyLast(q, crc0, run(k + 4));
    MarkedOnlyLast(q, crc0, run(k + 5));
    assert Greedy(ins, k + 4) && Greedy(ins, k + 5);
  }

  /** It opens every word too soon that begins with another byte than the one before, from the fifth byte on. */
  lemma GreedyOpensTooSoon(q: Request, crc0: Byte, ins: nat -> Ready, run: nat -> Path, k: nat)
    requires IsRun(q, crc0, ins, run) && (forall n: nat :: Greedy(ins, n)) && 1 <= k < q.len && k % 4 == 0
    ensures WordTooSoon(q, ins, run, k + 4) <==> q.ByteAt(k - 4) != q.ByteAt(k)
  {
    GreedyPair(q, crc0, ins, run, k);
    assert (k - 1) / 4 == (k - 4) / 4;
  }

  lemma GreedyIsFair(q: Request, ins: nat -> Ready, run: nat -> Path)
    requires forall n: nat :: Greedy(ins, n)
    ensures Fair(q, ins, run)
  {
    forall n: nat ensures OfferTaken(q, ins, run, n) && !ins(n).abort {
      assert Greedy(ins, n);
      assert OffersAt(q, ins, run, n) ==> TakesAt(q, ins, run, n);
    }
  }

  lemma OnlyByte(q: Request, crc0: Byte, p: Path, i: Ready)
    requires q.Valid() && p.Valid() && Inv(q, crc0, p) && q.len == 1 && TakesData(p, i)
    ensures !Next(q, p, i).exec.state.CsrReadData?
  {
    MarkedOnlyLast(q, crc0, p);
    Drives(q, p, i);
  }

  lemma OnlyByteNotTooSoon(q: Request, crc0: Byte, ins: nat -> Ready, run: nat -> Path, n: nat)
    requires IsRun(q, crc0, ins, run) && q.len == 1
    ensures !LastTooSoon(ins, run, n)
  {
    InvHolds(q, crc0, ins, run, n);
    assert StepsTo(q, ins, run, n);
    if TakesData(run(n), ins(n)) { OnlyByte(q, crc0, run(n), ins(n)); }
  }

  /** And unless there is only one data byte, it never gets the PEC. */
  lemma GreedyNeverDone(q: Request, crc0: Byte, ins: nat -> Ready, run: nat -> Path)
    requires IsRun(q, crc0, ins, run) && forall n: nat :: Greedy(ins, n)
    ensures q.len >= 2 ==> LastTooSoon(ins, run, q.len + 3)
    ensures (exists n: nat :: Sent(q, run(n))) <==> q.len == 1
  {
    GreedyIsFair(q, ins, run);
    CompletedIff(q, crc0, ins, run);
    if q.len >= 2 {
      GreedyPair(q, crc0, ins, run, q.len - 1);
      assert LastTooSoon(ins, run, q.len + 3);
    } else {
      forall n: nat ensures !LastTooSoon(ins, run, n) { OnlyByteNotTooSoon(q, crc0, ins, run, n); }
    }
  }

  // ---------------------------------------------------------------- what the receiver makes of it

  /** The bytes of a sent packet between the length and the PEC. */
  function Payload(q: Request, p: Path): seq<Byte>
    requires Sent(q, p)
  {
    p.sent[2..q.len + 2]
  }

  /** The length bytes are always right. */
  lemma {:induction false} HeaderRight(q: Request, crc0: Byte, ins: nat -> Ready, run: nat -> Path, n: nat)
    requires IsRun(q, crc0, ins, run)
    ensures forall k: nat | k < |run(n).sent| && k < 2 :: run(n).sent[k] == Wanted(q, k)
  {
    if n > 0 {
      HeaderRight(q, crc0, ins, run, n - 1);
      InvHolds(q, crc0, ins, run, n - 1);
      assert StepsTo(q, ins, run, n - 1);
      Drives(q, run(n - 1), ins(n - 1));
    }
  }

  lemma PayloadClean(q: Request, p: Path)
    requires Sent(q, p) && forall k: nat | k < 2 :: p.sent[k] == Wanted(q, k)
    ensures Payload(q, p) == q.Data() <==> Clean(q, p)
  {
    if Payload(q, p) == q.Data() {
      forall k: nat | k < q.len + 2 ensures p.sent[k] == Wanted(q, k) {
        if k >= 2 { assert Payload(q, p)[k - 2] == q.Data()[k - 2]; }
      }
    } else {
      var k: nat :| k < q.len && Payload(q, p)[k] != q.Data()[k];
      assert p.sent[k + 2] != Wanted(q, k + 2);
    }
  }

  lemma SentParts(q: Request, crc0: Byte, p: Path, body: seq<Byte>)
    requires Sent(q, p) && Checked(q, crc0, p) && forall k: nat | k < 2 :: p.sent[k] == Wanted(q, k)
    requires body == [Wanted(q, 0), Wanted(q, 1)] + Payload(q, p)
    ensures p.sent == body + [CrcFrom(crc0, body)]
  {
    assert p.sent[..q.len + 2] == body;
  }

  /** Whatever was sent, its PEC is that of the bytes sent, and its length field that of their number. */
  lemma PecMatchesSent(q: Request, crc0: Byte, ins: nat -> Ready, run: nat -> Path, n: nat)
    requires IsRun(q, crc0, ins, run) && Sent(q, run(n))
    ensures var body := [Wanted(q, 0), Wanted(q, 1)] + Payload(q, run(n));
            |body| == q.len + 2 && run(n).sent == body + [CrcFrom(crc0, body)]
    ensures Payload(q, run(n)) == q.Data() <==> NoneTooSoon(q, ins, run, n)
  {
    InvHolds(q, crc0, ins, run, n);
    HeaderRight(q, crc0, ins, run, n);
    CleanIff(q, crc0, ins, run, n);
    PayloadClean(q, run(n));
    SentParts(q, crc0, run(n), [Wanted(q, 0), Wanted(q, 1)] + Payload(q, run(n)));
  }

  lemma DeliversResponds(q: Request, crc0: Byte, sent: seq<Byte>, data: seq<Byte>, recv: nat -> Recv)
    requires |data| == q.len
    requires var body := [Wanted(q, 0), Wanted(q, 1)] + data; sent == body + [CrcFrom(crc0, body)]
    requires forall k: nat | k < |sent| :: recv(k) == Recv(sent[k], false)
    ensures Responds(recv, crc0, data)
  {
    var body := [Wanted(q, 0), Wanted(q, 1)] + data;
    assert sent[2 + q.len] == CrcFrom(crc0, body);
    assert forall m: nat | 2 <= m < 2 + q.len :: sent[m] == data[m - 2];
  }

  /** A packet the hardware has sent, its PEC begun with the address byte, is read back by the test library as
      the bytes that were sent: the right ones exactly when no word was opened too soon.  The PEC does not
      tell: it is found right, or wrong because of the address byte, whether the bytes are right or not. */
  lemma ReadsBack(q: Request, addr: Byte, ins: nat -> Ready, run: nat -> Path, n: nat, recv: nat -> Recv)
    requires IsRun(q, Crc([addr]), ins, run) && Sent(q, run(n))
    requires forall k: nat | k < |run(n).sent| :: recv(k) == Recv(run(n).sent[k], false)
    ensures Parse(recv) == Data(Payload(q, run(n)), addr == ZERO)
    ensures Payload(q, run(n)) == q.Data() <==> NoneTooSoon(q, ins, run, n)
  {
    PecMatchesSent(q, Crc([addr]), ins, run, n);
    DeliversResponds(q, Crc([addr]), run(n).sent, Payload(q, run(n)), recv);
    AddressInPec(recv, Payload(q, run(n)), addr);
  }
}
