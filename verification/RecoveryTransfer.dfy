/** The recovery image transfer in bypass mode: the agent on the MCU writes the image in chunks to the
    indirect FIFO, the agent in the root of trust reads it (`test_recovery_flow`).  Each step of an agent
    is one access to the device; a run is any interleaving of such steps. */
module RecoveryTransfer {
  type Word = bv32

  /** Depth of the indirect FIFO and largest transfer, in words of 4 bytes. */
  const MAX_XFER: nat := 64

  /** `RECOVERY_CTRL.ACTIVATE_REC_IMG` when an image is activated. */
  const ACTIVATE: nat := 0xF

  // ---------------------------------------------------------------- the device

  /** `PROT_CAP_2.AGENT_CAPS` for a boot without flash, and `DEVICE_STATUS_0.REC_REASON_CODE` for it. */
  const FLASHLESS: nat := 0x800
  const REASON: nat := 0x12

  datatype Device = Device(caps: nat, reason: nat, devStatus: nat, recStatus: nat, activate: nat, imageSize: nat,
                           fifo: seq<Word>, dcnt: nat, payloadDone: bool, payloadAvailable: bool,
                           allowWrite: bool, allowRead: bool) {
    predicate Empty() { fifo == [] }
    predicate Full() { |fifo| == MAX_XFER }
    predicate Activated() { activate == ACTIVATE }
  }

  const DEVICE_RESET := Device(0, 0, 0, 0, 0, 0, [], MAX_XFER, false, false, true, false)

  /** What the logic behind the registers does until the next access: the payload flag rises when a
      transfer is complete, the sender is done or an image is activated, and falls on empty; the sender's
      done bit ends the transfer under way and is cleared on full; the FIFO is filled up to the flag and
      then read until empty. */
  function Settle(d: Device, xferDone: bool): Device {
    var ends := d.payloadDone && !d.Empty();
    var payload := if xferDone || d.payloadDone || d.Activated() then true
                   else if d.Empty() then false else d.payloadAvailable;
    d.(payloadAvailable := payload,
       dcnt := if ends then MAX_XFER else d.dcnt,
       payloadDone := d.payloadDone && !d.Full() && !(d.Activated() && !d.Empty()),
       allowWrite := if d.Empty() then true else if d.Full() || payload then false else d.allowWrite,
       allowRead := if d.Empty() then false else if d.Full() || payload then true else d.allowRead)
  }

  /** A write to a full FIFO is ignored. */
  function WriteFifo(d: Device, w: Word): Device {
    if d.Full() then d
    else Settle(d.(fifo := d.fifo + [w], dcnt := if d.dcnt <= 1 then MAX_XFER else d.dcnt - 1), d.dcnt == 1)
  }

  /** A read of an empty FIFO returns zero. */
  function ReadFifo(d: Device): (Device, Word) {
    if d.Empty() then (d, 0) else (Settle(d.(fifo := d.fifo[1..]), false), d.fifo[0])
  }

  /** What can be done to the FIFO and its control registers, by whatever agent. */
  datatype Access = WriteWord(w: Word) | ReadWord | ClearFifo | FinishPayload | ActivateImage

  function After(d: Device, a: Access): Device {
    match a
    case WriteWord(w) => WriteFifo(d, w)
    case ReadWord => ReadFifo(d).0
    case ClearFifo => Settle(d.(fifo := []), false)
    case FinishPayload => Settle(d.(payloadDone := true), false)
    case ActivateImage => Settle(d.(activate := ACTIVATE), false)
  }

  /** A device in use, with the words that were accepted since the FIFO was last cleared, and those read of them. */
  datatype Used = Used(dev: Device, accepted: seq<Word>, returned: seq<Word>)

  function Use(u: Used, a: Access): Used {
    var d, d' := u.dev, After(u.dev, a);
    match a
    case WriteWord(w) => Used(d', if |d.fifo| < MAX_XFER then u.accepted + [w] else u.accepted, u.returned)
    case ReadWord => Used(d', u.accepted, if d.fifo != [] then u.returned + [ReadFifo(d).1] else u.returned)
    case ClearFifo => Used(d', [], [])
    case _ => Used(d', u.accepted, u.returned)
  }

  function UseAll(accesses: seq<Access>): Used {
    if accesses == [] then Used(DEVICE_RESET, [], [])
    else Use(UseAll(accesses[..|accesses| - 1]), accesses[|accesses| - 1])
  }

  /** Only one side has access, the writer to an empty FIFO and the reader to a full one or to a payload; the flag is
      up as long as the sender's done bit is, or an image is activated, and falls with the last word otherwise. */
  predicate Rules(d: Device) {
    && |d.fifo| <= MAX_XFER && 1 <= d.dcnt <= MAX_XFER
    && (d.allowRead <==> !d.allowWrite)
    && (d.Empty() ==> d.allowWrite) && (d.Full() ==> d.allowRead)
    && (d.payloadAvailable && !d.Empty() ==> d.allowRead)
    && (d.payloadDone || d.Activated() ==> d.payloadAvailable)
    && (d.Empty() && d.payloadAvailable ==> d.payloadDone || d.Activated())
    && (d.payloadDone ==> !d.Full() && (d.Activated() ==> d.Empty()) && (d.Empty() || d.dcnt == MAX_XFER))
  }

  /** Between two accesses nothing moves any more. */
  predicate Settled(d: Device) { Settle(d, false) == d }

  lemma WriteKeepsRules(d: Device, w: Word)
    requires Rules(d)
    ensures Rules(WriteFifo(d, w)) && (Settled(d) ==> Settled(WriteFifo(d, w)))
  {
  }

  lemma OthersKeepRules(d: Device, a: Access)
    requires Rules(d) && !a.WriteWord?
    ensures Rules(After(d, a)) && (Settled(d) ==> Settled(After(d, a)))
  {
  }

  predicate InOrder(u: Used) { u.returned + u.dev.fifo == u.accepted }

  lemma UseKeepsOrder(u: Used, a: Access)
    requires InOrder(u) && |u.dev.fifo| <= MAX_XFER
    ensures InOrder(Use(u, a))
  {
    MovesFifo(u.dev, a);
    match a {
      case ReadWord => if u.dev.fifo != [] { assert u.dev.fifo == [u.dev.fifo[0]] + u.dev.fifo[1..]; }
      case WriteWord(w) => assert u.returned + (u.dev.fifo + [w]) == u.accepted + [w];
      case _ =>
    }
  }

  /** Whatever is done to the device, in whatever order, it keeps its rules and has settled after every access; and what
      was read, followed by what is still held, is what was accepted. */
  lemma {:induction false} RulesHold(accesses: seq<Access>)
    ensures var u := UseAll(accesses); Rules(u.dev) && Settled(u.dev) && InOrder(u)
  {
    if accesses != [] {
      var before, a := accesses[..|accesses| - 1], accesses[|accesses| - 1];
      RulesHold(before);
      var u := UseAll(before);
      UseKeepsOrder(u, a);
      if a.WriteWord? { WriteKeepsRules(u.dev, a.w); } else { OthersKeepRules(u.dev, a); }
    }
  }

  lemma MovesFifo(d: Device, a: Access)
    ensures After(d, a).fifo == match a
                                case WriteWord(w) => if |d.fifo| == MAX_XFER then d.fifo else d.fifo + [w]
                                case ReadWord => if d.fifo == [] then [] else d.fifo[1..]
                                case ClearFifo => []
                                case _ => d.fifo
  {
  }

  // ---------------------------------------------------------------- the agents

  /** A slice of a sequence as the language of the agents takes it: a negative end counts from the end,
      and an end past the length is the length. */
  function Slice<T>(s: seq<T>, start: nat, end: int): seq<T> {
    var e := if end < 0 then end + |s| else if end > |s| then |s| else end;
    if start <= e then s[start..e] else []
  }

  /** The chunk that starts at word `ptr`.  The end of the slice is compared in bytes. */
  function Chunk(image: seq<Word>, size: nat, ptr: nat): seq<Word> {
    Slice(image, ptr, if ptr + MAX_XFER > size then -1 else ptr + MAX_XFER)
  }

  datatype Mcu =
    | PollDevice | PollRecovery | CheckCtrl | ZeroCtrl | ZeroSize | ResetFifo | WriteSize | ClearReset
    | Write(ptr: nat, chunk: seq<Word>, i: nat)
    | SetDone(ptr: nat)
    | PollEmpty(ptr: nat)
    | Activate | PollBoot
    | McuDone
    | McuFailed

  datatype Rot =
    | SetCaps | SetReason | SetDevStatus | SetRecStatus
    | PollFull(ptr: nat) | PollPayload(ptr: nat)
    | Read(ptr: nat, i: nat)
    | PollActivate | SetBooting
    | RotDone

  /** The head of the chunk loop: an empty chunk is refused by the writer with an exception. */
  function McuLoop(image: seq<Word>, size: nat, ptr: nat): Mcu {
    if ptr >= size / 4 then Activate
    else if Chunk(image, size, ptr) == [] then McuFailed
    else Write(ptr, Chunk(image, size, ptr), 0)
  }

  function RotLoop(size: nat, ptr: nat): Rot {
    if ptr >= size / 4 then PollActivate else PollFull(ptr)
  }

  function Min(a: int, b: int): int { if a < b then a else b }

  datatype System = System(mcu: Mcu, rot: Rot, dev: Device, buffer: seq<Word>) {
    predicate Finished() { mcu.McuDone? && rot.RotDone? }
  }

  const START := System(PollDevice, SetCaps, DEVICE_RESET, [])

  function McuStep(image: seq<Word>, size: nat, mcu: Mcu, d: Device): (Mcu, Device) {
    match mcu
    case PollDevice => (if d.devStatus == 3 then PollRecovery else PollDevice, d)
    case PollRecovery => (if d.recStatus == 1 then CheckCtrl else PollRecovery, d)
    case CheckCtrl => (if d.activate == 0 then ZeroCtrl else McuFailed, d)
    case ZeroCtrl => (ZeroSize, d)
    case ZeroSize => (ResetFifo, d.(imageSize := 0))
    case ResetFifo => (WriteSize, Settle(d.(fifo := []), false))
    case WriteSize => (ClearReset, d.(imageSize := size))
    case ClearReset => (McuLoop(image, size, 0), d)
    case Write(ptr, chunk, i) =>
      var d' := if i < |chunk| then WriteFifo(d, chunk[i]) else d;
      (if i + 1 < |chunk| then Write(ptr, chunk, i + 1)
       else if |chunk| != MAX_XFER then SetDone(ptr) else PollEmpty(ptr), d')
    case SetDone(ptr) => (PollEmpty(ptr), Settle(d.(payloadDone := true), false))
    case PollEmpty(ptr) => (if d.Empty() then McuLoop(image, size, ptr + MAX_XFER) else mcu, d)
    case Activate => (PollBoot, Settle(d.(activate := ACTIVATE), false))
    case PollBoot => (if d.recStatus == 2 then McuDone else PollBoot, d)
    case McuDone => (mcu, d)
    case McuFailed => (mcu, d)
  }

  function RotStep(size: nat, rot: Rot, d: Device, buffer: seq<Word>): (Rot, Device, seq<Word>) {
    match rot
    case SetCaps => (SetReason, d.(caps := FLASHLESS), buffer)
    case SetReason => (SetDevStatus, d.(reason := REASON), buffer)
    case SetDevStatus => (SetRecStatus, d.(devStatus := 3), buffer)
    case SetRecStatus => (RotLoop(size, 0), d.(recStatus := 1), buffer)
    case PollFull(ptr) => (if d.Full() then Read(ptr, 0) else PollPayload(ptr), d, buffer)
    case PollPayload(ptr) => (if d.payloadAvailable then Read(ptr, 0) else PollFull(ptr), d, buffer)
    case Read(ptr, i) =>
      var (d', w) := ReadFifo(d);
      (if i + 1 < Min(MAX_XFER, size / 4 - ptr) then Read(ptr, i + 1) else RotLoop(size, ptr + MAX_XFER),
       d', buffer + [w])
    case PollActivate => (if d.Activated() then SetBooting else PollActivate, d, buffer)
    case SetBooting => (RotDone, d.(recStatus := 2), buffer)
    case RotDone => (rot, d, buffer)
  }

  datatype Agent = McuAgent | RotAgent

  function Step(image: seq<Word>, size: nat, s: System, a: Agent): System {
    match a
    case McuAgent => var (mcu, dev) := McuStep(image, size, s.mcu, s.dev); s.(mcu := mcu, dev := dev)
    case RotAgent =>
      var (rot, dev, buffer) := RotStep(size, s.rot, s.dev, s.buffer);
      s.(rot := rot, dev := dev, buffer := buffer)
  }

  // ---------------------------------------------------------------- a device that was used before

  function Written(d: Device, words: seq<Word>): Device {
    if words == [] then d else WriteFifo(Written(d, words[..|words| - 1]), words[|words| - 1])
  }

  /** An empty device takes words up to what its counter says is left of the transfer, and flags the last of them. */
  lemma {:induction false} FlagsLast(d: Device, words: seq<Word>)
    requires Rules(d) && !d.payloadAvailable && d.fifo == [] && |words| <= d.dcnt
    ensures var d' := Written(d, words);
            && d'.fifo == words && d'.activate == d.activate && !d'.payloadDone
            && (d'.payloadAvailable <==> |words| == d.dcnt) && (d'.allowRead <==> |words| == d.dcnt)
            && d'.dcnt == if |words| == d.dcnt then MAX_XFER else d.dcnt - |words|
  {
    if words != [] {
      var before := words[..|words| - 1];
      FlagsLast(d, before);
      assert before + [words[|words| - 1]] == words;
    }
  }

  /** The MCU prepares a transfer on a device that was used before: the FIFO is emptied, whatever was in it, and no flag
      is left.  But the counter is not reset with it.  So a chunk of 64 words is flagged with its last word exactly if
      the transfer before was not broken off within a chunk; else it is flagged too soon, and the reader let in. */
  lemma FlaggedTooSoonIff(image: seq<Word>, size: nat, d: Device, chunk: seq<Word>)
    requires Rules(d) && !d.payloadDone && !d.Activated() && |chunk| == MAX_XFER
    ensures var d' := McuStep(image, size, ResetFifo, d).1;
            && d'.fifo == [] && !d'.payloadAvailable && d'.allowWrite && !d'.allowRead && d'.dcnt == d.dcnt
            && (d.dcnt < MAX_XFER <==>
                  exists n: nat :: n < MAX_XFER && Written(d', chunk[..n]).payloadAvailable)
            && Written(d', chunk[..d.dcnt]).payloadAvailable && Written(d', chunk[..d.dcnt]).allowRead
  {
    var d' := McuStep(image, size, ResetFifo, d).1;
    OthersKeepRules(d, ClearFifo);
    forall n: nat | n <= d.dcnt ensures Written(d', chunk[..n]).payloadAvailable <==> n == d.dcnt {
      FlagsLast(d', chunk[..n]);
    }
    FlagsLast(d', chunk[..d.dcnt]);
  }

  // ---------------------------------------------------------------- the invariant

  /** The one chunk that is cut short: all of an image below 64 bytes but its last word. */
  predicate CutShort(size: nat) { 4 <= size < 64 }

  /** The words the MCU sends. */
  function Feed(image: seq<Word>, size: nat): seq<Word> {
    if CutShort(size) && image != [] then image[..|image| - 1] else image
  }

  /** The chunks are those of the feed, 64 words each but the last. */
  lemma ChunkOfFeed(image: seq<Word>, size: nat, ptr: nat)
    requires |image| == size / 4 && ptr < |image| && ptr % MAX_XFER == 0
    ensures var feed := Feed(image, size);
            ptr <= |feed| && Chunk(image, size, ptr) == feed[ptr..Min(ptr + MAX_XFER, |feed|)]
    ensures Chunk(image, size, ptr) == [] <==> size / 4 == 1
  {
  }

  /** Number of words of the feed that were written. */
  function Sent(mcu: Mcu, total: nat): nat {
    match mcu
    case Write(ptr, _, i) => ptr + i
    case SetDone(ptr) => if ptr + MAX_XFER < total then ptr + MAX_XFER else total
    case PollEmpty(ptr) => if ptr + MAX_XFER < total then ptr + MAX_XFER else total
    case Activate => total
    case PollBoot => total
    case McuDone => total
    case _ => 0
  }

  predicate Preparing(mcu: Mcu) {
    || mcu.PollDevice? || mcu.PollRecovery? || mcu.CheckCtrl? || mcu.ZeroCtrl? || mcu.ZeroSize?
    || mcu.ResetFifo? || mcu.WriteSize? || mcu.ClearReset?
  }

  predicate Ending(mcu: Mcu) { mcu.Activate? || mcu.PollBoot? || mcu.McuDone? }

  predicate Announcing(rot: Rot) { rot.SetCaps? || rot.SetReason? || rot.SetDevStatus? || rot.SetRecStatus? }

  /** The control state of the MCU agent agrees with the feed and the device. */
  predicate McuFits(feed: seq<Word>, s: System) {
    var d := s.dev;
    match s.mcu
    case Write(ptr, chunk, i) =>
      && ptr < |feed| && ptr % MAX_XFER == 0 && chunk == feed[ptr..Min(ptr + MAX_XFER, |feed|)]
      && i < |chunk| && |d.fifo| == i && |s.buffer| == ptr && d.dcnt == MAX_XFER - i
      && !d.payloadDone && !d.payloadAvailable && d.allowWrite && !d.allowRead
    case SetDone(ptr) =>
      && ptr < |feed| < ptr + MAX_XFER && ptr % MAX_XFER == 0
      && |d.fifo| == |feed| - ptr && |s.buffer| == ptr && !d.payloadDone && !d.payloadAvailable
      && d.allowWrite && !d.allowRead
    case PollEmpty(ptr) =>
      && ptr < |feed| && ptr % MAX_XFER == 0 && d.dcnt == MAX_XFER
      && |s.buffer| >= ptr
      && (d.payloadDone <==> |feed| < ptr + MAX_XFER)
      && (d.payloadAvailable <==> d.payloadDone || d.fifo != [])
      && (d.allowRead <==> d.fifo != []) && (d.allowWrite <==> d.fifo == [])
    case McuFailed => false
    case _ =>
      && d.fifo == []
      && (Ending(s.mcu) ==> |s.buffer| >= |feed|)
      && (Preparing(s.mcu) ==> s.buffer == [] && d.dcnt == MAX_XFER)
      && (Preparing(s.mcu) ==> !d.payloadDone && !d.payloadAvailable && d.allowWrite && !d.allowRead)
  }

  /** The control state of the agent in the root of trust agrees with what it has received. */
  predicate RotFits(feed: seq<Word>, total: nat, s: System) {
    match s.rot
    case PollFull(ptr) => ptr < total && ptr % MAX_XFER == 0 && |s.buffer| == ptr && ptr <= |feed|
    case PollPayload(ptr) => ptr < total && ptr % MAX_XFER == 0 && |s.buffer| == ptr && ptr <= |feed|
    case Read(ptr, i) =>
      && ptr < total && ptr % MAX_XFER == 0 && |s.buffer| == ptr + i && i < Min(MAX_XFER, total - ptr)
      && (s.mcu == PollEmpty(ptr) || (Ending(s.mcu) && |s.buffer| == |feed|))
      && (|s.buffer| < |feed| ==> |s.dev.fifo| == Min(MAX_XFER, |feed| - ptr) - i)
    case PollActivate => |s.buffer| == total
    case SetBooting => |s.buffer| == total && s.dev.Activated()
    case RotDone => |s.buffer| == total && s.dev.Activated()
    case _ => s.buffer == []
  }

  /** The device status is not set yet. */
  predicate Silent(rot: Rot) { rot.SetCaps? || rot.SetReason? || rot.SetDevStatus? }

  /** The handshake registers tell how far the other agent is. */
  predicate Handshake(s: System) {
    && s.dev.devStatus == (if Silent(s.rot) then 0 else 3)
    && s.dev.recStatus == (if Announcing(s.rot) then 0 else if s.rot.RotDone? then 2 else 1)
    && s.dev.activate == (if s.mcu.PollBoot? || s.mcu.McuDone? then ACTIVATE else 0)
    && (!s.mcu.PollDevice? ==> !Silent(s.rot))
    && (!s.mcu.PollDevice? && !s.mcu.PollRecovery? ==> !s.rot.SetRecStatus?)
    && (s.mcu.McuDone? ==> s.rot.RotDone?)
  }

  /** Conservation: what was received, followed by what is in the FIFO, is what was sent; beyond the
      feed only zeros are received. */
  predicate Conserved(feed: seq<Word>, s: System) {
    && Sent(s.mcu, |feed|) <= |feed|
    && (|s.buffer| <= |feed| ==> s.buffer + s.dev.fifo == feed[..Sent(s.mcu, |feed|)])
    && (|s.buffer| > |feed| ==> |s.buffer| == |feed| + 1 && s.buffer == feed + [0 as Word] && s.dev.fifo == [])
  }

  predicate Inv(feed: seq<Word>, total: nat, s: System) {
    && (total == |feed| || 2 <= total == |feed| + 1 <= 16)
    && Conserved(feed, s) && McuFits(feed, s) && RotFits(feed, total, s) && Handshake(s)
    && |s.dev.fifo| <= MAX_XFER
  }

  /** The device after the `i`-th word of a chunk was written. */
  predicate WordWritten(d: Device, d': Device, i: nat, w: Word)
    requires d.dcnt > 0
  {
    var full := i == MAX_XFER - 1;
    d' == d.(fifo := d.fifo + [w], dcnt := if full then MAX_XFER else d.dcnt - 1, payloadAvailable := full,
             allowWrite := !full, allowRead := full)
  }

  lemma WriteSettles(feed: seq<Word>, s: System, w: Word)
    requires s.mcu.Write? && McuFits(feed, s) && s.dev.activate == 0
    ensures s.dev.dcnt > 0 && WordWritten(s.dev, WriteFifo(s.dev, w), s.mcu.i, w)
  {
  }

  /** The producer after that word. */
  function AfterWord(mcu: Mcu): Mcu
    requires mcu.Write?
  {
    var Write(ptr, chunk, i) := mcu;
    if i + 1 < |chunk| then Write(ptr, chunk, i + 1)
    else if |chunk| != MAX_XFER then SetDone(ptr) else PollEmpty(ptr)
  }

  lemma WrittenConserves(feed: seq<Word>, s: System, s': System)
    requires Conserved(feed, s) && McuFits(feed, s) && s.mcu.Write?
    requires s'.dev.fifo == s.dev.fifo + [s.mcu.chunk[s.mcu.i]]
    requires s'.mcu == AfterWord(s.mcu) && s'.buffer == s.buffer
    ensures Conserved(feed, s')
  {
    var Write(ptr, chunk, i) := s.mcu;
    assert chunk[i] == feed[ptr + i];
    assert feed[..ptr + i] + [chunk[i]] == feed[..ptr + i + 1];
    assert s.buffer + (s.dev.fifo + [chunk[i]]) == (s.buffer + s.dev.fifo) + [chunk[i]];
  }

  lemma WrittenKeepsInv(feed: seq<Word>, total: nat, s: System, s': System)
    requires Inv(feed, total, s) && s.mcu.Write? && s.dev.dcnt > 0
    requires WordWritten(s.dev, s'.dev, s.mcu.i, s.mcu.chunk[s.mcu.i])
    requires s' == System(AfterWord(s.mcu), s.rot, s'.dev, s.buffer)
    ensures Inv(feed, total, s')
  {
    WrittenConserves(feed, s, s');
  }

  lemma McuWriteKeepsInv(image: seq<Word>, size: nat, s: System)
    requires |image| == size / 4 != 1 && Inv(Feed(image, size), size / 4, s) && s.mcu.Write?
    ensures Inv(Feed(image, size), size / 4, Step(image, size, s, McuAgent))
  {
    WriteSettles(Feed(image, size), s, s.mcu.chunk[s.mcu.i]);
    WrittenKeepsInv(Feed(image, size), size / 4, s, Step(image, size, s, McuAgent));
  }

  lemma McuSetDoneKeepsInv(image: seq<Word>, size: nat, s: System)
    requires |image| == size / 4 != 1 && Inv(Feed(image, size), size / 4, s) && s.mcu.SetDone?
    ensures Inv(Feed(image, size), size / 4, Step(image, size, s, McuAgent))
  {
  }

  lemma McuPollKeepsInv(image: seq<Word>, size: nat, s: System)
    requires |image| == size / 4 != 1 && Inv(Feed(image, size), size / 4, s) && s.mcu.PollEmpty?
    ensures Inv(Feed(image, size), size / 4, Step(image, size, s, McuAgent))
  {
    var ptr := s.mcu.ptr + MAX_XFER;
    if s.dev.Empty() && ptr < |image| { ChunkOfFeed(image, size, ptr); }
  }

  lemma McuPrepareKeepsInv(image: seq<Word>, size: nat, s: System)
    requires |image| == size / 4 != 1 && Inv(Feed(image, size), size / 4, s) && Preparing(s.mcu)
    ensures Inv(Feed(image, size), size / 4, Step(image, size, s, McuAgent))
  {
    if s.mcu.ClearReset? && |image| > 0 { ChunkOfFeed(image, size, 0); }
  }

  lemma McuEndKeepsInv(image: seq<Word>, size: nat, s: System)
    requires |image| == size / 4 != 1 && Inv(Feed(image, size), size / 4, s) && Ending(s.mcu)
    ensures Inv(Feed(image, size), size / 4, Step(image, size, s, McuAgent))
  {
  }

  lemma ReadConserves(feed: seq<Word>, s: System, s': System)
    requires Conserved(feed, s) && s.dev.fifo != []
    requires s'.buffer == s.buffer + [s.dev.fifo[0]] && s'.dev.fifo == s.dev.fifo[1..] && s'.mcu == s.mcu
    ensures Conserved(feed, s')
  {
    assert (s.buffer + [s.dev.fifo[0]]) + s.dev.fifo[1..] == s.buffer + s.dev.fifo;
  }

  lemma RotReadKeepsInv(image: seq<Word>, size: nat, s: System)
    requires |image| == size / 4 != 1 && Inv(Feed(image, size), size / 4, s) && s.rot.Read?
    ensures Inv(Feed(image, size), size / 4, Step(image, size, s, RotAgent))
  {
    if s.dev.fifo != [] { ReadConserves(Feed(image, size), s, Step(image, size, s, RotAgent)); }
  }

  lemma RotPolledKeepsInv(feed: seq<Word>, total: nat, s: System, rot: Rot)
    requires Inv(feed, total, s) && (s.rot.PollFull? || s.rot.PollPayload?)
    requires || rot == PollFull(s.rot.ptr) || rot == PollPayload(s.rot.ptr)
             || ((s.dev.Full() || s.dev.payloadAvailable) && rot == Read(s.rot.ptr, 0))
    ensures Inv(feed, total, s.(rot := rot))
  {
  }

  lemma RotPollKeepsInv(image: seq<Word>, size: nat, s: System)
    requires |image| == size / 4 != 1 && Inv(Feed(image, size), size / 4, s)
    requires s.rot.PollFull? || s.rot.PollPayload?
    ensures Inv(Feed(image, size), size / 4, Step(image, size, s, RotAgent))
  {
    RotPolledKeepsInv(Feed(image, size), size / 4, s, Step(image, size, s, RotAgent).rot);
  }

  lemma RotOtherKeepsInv(image: seq<Word>, size: nat, s: System)
    requires |image| == size / 4 != 1 && Inv(Feed(image, size), size / 4, s)
    requires !s.rot.Read? && !s.rot.PollFull? && !s.rot.PollPayload?
    ensures Inv(Feed(image, size), size / 4, Step(image, size, s, RotAgent))
  {
  }

  /** Every step of either agent keeps the invariant. */
  lemma StepKeepsInv(image: seq<Word>, size: nat, s: System, a: Agent)
    requires |image| == size / 4 != 1 && Inv(Feed(image, size), size / 4, s)
    ensures Inv(Feed(image, size), size / 4, Step(image, size, s, a))
  {
    match a {
      case McuAgent =>
        if s.mcu.Write? { McuWriteKeepsInv(image, size, s); }
        else if s.mcu.SetDone? { McuSetDoneKeepsInv(image, size, s); }
        else if s.mcu.PollEmpty? { McuPollKeepsInv(image, size, s); }
        else if Preparing(s.mcu) { McuPrepareKeepsInv(image, size, s); }
        else { McuEndKeepsInv(image, size, s); }
      case RotAgent =>
        if s.rot.Read? { RotReadKeepsInv(image, size, s); }
        else if s.rot.PollFull? || s.rot.PollPayload? { RotPollKeepsInv(image, size, s); }
        else { RotOtherKeepsInv(image, size, s); }
    }
  }
}
