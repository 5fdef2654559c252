/** The two agents and the device as objects whose fields the accesses change in place: each step of an
    agent is one method call, proved to be the step of the transfer model. */
module RecoveryAgents {
  import opened RecoveryTransfer
  import RecoveryRuns

  class RecoveryDevice {
    var caps: nat
    var reason: nat
    var devStatus: nat
    var recStatus: nat
    var activate: nat
    var imageSize: nat
    var fifo: seq<Word>
    var dcnt: nat
    var payloadDone: bool
    var payloadAvailable: bool
    var allowWrite: bool
    var allowRead: bool

    ghost function Contents(): Device
      reads this
    {
      Device(caps, reason, devStatus, recStatus, activate, imageSize, fifo, dcnt, payloadDone, payloadAvailable,
             allowWrite, allowRead)
    }

    constructor ()
      ensures Contents() == DEVICE_RESET
    {
      caps, reason, devStatus, recStatus, activate, imageSize := 0, 0, 0, 0, 0, 0;
      fifo, dcnt, payloadDone, payloadAvailable, allowWrite, allowRead := [], MAX_XFER, false, false, true, false;
    }

    /** The flag, the permissions and the done bit follow the FIFO. */
    method SettleFlags(xferDone: bool)
      modifies this`dcnt, this`payloadDone, this`payloadAvailable, this`allowWrite, this`allowRead
      ensures Contents() == Settle(old(Contents()), xferDone)
    {
      var empty, full, activated := fifo == [], |fifo| == MAX_XFER, activate == ACTIVATE;
      if xferDone || payloadDone || activated {
        payloadAvailable := true;
      } else if empty {
        payloadAvailable := false;
      }
      if empty {
        allowWrite, allowRead := true, false;
      } else if full || payloadAvailable {
        allowWrite, allowRead := false, true;
      }
      if payloadDone && !empty { dcnt := MAX_XFER; }
      if full || (activated && !empty) { payloadDone := false; }
    }

    method WriteWord(w: Word)
      modifies this
      ensures Contents() == WriteFifo(old(Contents()), w)
    {
      if |fifo| == MAX_XFER { return; }
      var last := dcnt == 1;
      fifo := fifo + [w];
      dcnt := if dcnt <= 1 then MAX_XFER else dcnt - 1;
      SettleFlags(last);
    }

    method ReadWord() returns (w: Word)
      modifies this
      ensures (Contents(), w) == ReadFifo(old(Contents()))
    {
      if fifo == [] { return 0; }
      w := fifo[0];
      fifo := fifo[1..];
      SettleFlags(false);
    }

    /** The reset field clears itself. */
    method ResetFifo()
      modifies this
      ensures Contents() == Settle(old(Contents()).(fifo := []), false)
    {
      fifo := [];
      SettleFlags(false);
    }

    method SetPayloadDone()
      modifies this
      ensures Contents() == Settle(old(Contents()).(payloadDone := true), false)
    {
      payloadDone := true;
      SettleFlags(false);
    }

    method ActivateImage()
      modifies this
      ensures Contents() == Settle(old(Contents()).(activate := ACTIVATE), false)
    {
      activate := ACTIVATE;
      SettleFlags(false);
    }
  }

  /** The producer: `pc` is where its loops are, with their loop variables. */
  class McuTask {
    const image: seq<Word>
    const size: nat
    var pc: Mcu

    constructor (image: seq<Word>, size: nat)
      ensures this.image == image && this.size == size && pc == PollDevice
    {
      this.image, this.size, pc := image, size, PollDevice;
    }

    /** The preparation of a transfer. */
    method Prepare(dev: RecoveryDevice)
      requires Preparing(pc)
      modifies this`pc, dev
      ensures (pc, dev.Contents()) == McuStep(image, size, old(pc), old(dev.Contents()))
    {
      match pc {
        case PollDevice => if dev.devStatus == 3 { pc := PollRecovery; }
        case PollRecovery => if dev.recStatus == 1 { pc := CheckCtrl; }
        case CheckCtrl => pc := if dev.activate == 0 then ZeroCtrl else McuFailed;
        case ZeroCtrl => pc := ZeroSize;
        case ZeroSize =>
          dev.imageSize := 0;
          pc := ResetFifo;
        case ResetFifo =>
          dev.ResetFifo();
          pc := WriteSize;
        case WriteSize =>
          dev.imageSize := size;
          pc := ClearReset;
        case ClearReset => pc := McuLoop(image, size, 0);
      }
    }

    /** The chunk loop. */
    method Send(dev: RecoveryDevice)
      requires pc.Write? || pc.SetDone? || pc.PollEmpty?
      modifies this`pc, dev
      ensures (pc, dev.Contents()) == McuStep(image, size, old(pc), old(dev.Contents()))
    {
      match pc {
        case Write(ptr, chunk, i) =>
          if i < |chunk| { dev.WriteWord(chunk[i]); }
          pc := if i + 1 < |chunk| then Write(ptr, chunk, i + 1)
                else if |chunk| != MAX_XFER then SetDone(ptr) else PollEmpty(ptr);
        case SetDone(ptr) =>
          dev.SetPayloadDone();
          pc := PollEmpty(ptr);
        case PollEmpty(ptr) =>
          if dev.fifo == [] { pc := McuLoop(image, size, ptr + MAX_XFER); }
      }
    }

    method Step(dev: RecoveryDevice)
      modifies this`pc, dev
      ensures (pc, dev.Contents()) == McuStep(image, size, old(pc), old(dev.Contents()))
    {
      if Preparing(pc) {
        Prepare(dev);
      } else if pc.Write? || pc.SetDone? || pc.PollEmpty? {
        Send(dev);
      } else if pc.Activate? {
        dev.ActivateImage();
        pc := PollBoot;
      } else if pc.PollBoot? && dev.recStatus == 2 {
        pc := McuDone;
      }
    }
  }

  /** The consumer, with the words it has received. */
  class RotTask {
    const size: nat
    var pc: Rot
    var buffer: seq<Word>

    constructor (size: nat)
      ensures this.size == size && pc == SetCaps && buffer == []
    {
      this.size, pc, buffer := size, SetCaps, [];
    }

    method Step(dev: RecoveryDevice)
      modifies this`pc, this`buffer, dev
      ensures (pc, dev.Contents(), buffer) == RotStep(size, old(pc), old(dev.Contents()), old(buffer))
    {
      match pc {
        case SetCaps =>
          dev.caps := FLASHLESS;
          pc := SetReason;
        case SetReason =>
          dev.reason := REASON;
          pc := SetDevStatus;
        case SetDevStatus =>
          dev.devStatus := 3;
          pc := SetRecStatus;
        case SetRecStatus =>
          dev.recStatus := 1;
          pc := RotLoop(size, 0);
        case PollFull(ptr) =>
          pc := if |dev.fifo| == MAX_XFER then Read(ptr, 0) else PollPayload(ptr);
        case PollPayload(ptr) =>
          pc := if dev.payloadAvailable then Read(ptr, 0) else PollFull(ptr);
        case Read(ptr, i) =>
          var w := dev.ReadWord();
          buffer := buffer + [w];
          pc := if i + 1 < Min(MAX_XFER, size / 4 - ptr) then Read(ptr, i + 1) else RotLoop(size, ptr + MAX_XFER);
        case PollActivate => if dev.activate == ACTIVATE { pc := SetBooting; }
        case SetBooting =>
          dev.recStatus := 2;
          pc := RotDone;
        case RotDone =>
      }
    }
  }

  /** The whole system on the heap, for `n` steps in the order `sched` picks.  It goes through the states
      of the run of the model, so what was received is always a prefix of an image that is not cut short. */
  method RunFor(image: seq<Word>, size: nat, sched: nat -> Agent, n: nat) returns (words: seq<Word>)
    ensures words == RecoveryRuns.At(image, size, sched, n).buffer
    ensures |image| == size / 4 && !CutShort(size) ==> words <= image
  {
    var dev := new RecoveryDevice();
    var mcu := new McuTask(image, size);
    var rot := new RotTask(size);
    for k := 0 to n
      invariant mcu.image == image && mcu.size == size && rot.size == size
      invariant RecoveryRuns.At(image, size, sched, k) == System(mcu.pc, rot.pc, dev.Contents(), rot.buffer)
    {
      if sched(k).McuAgent? { mcu.Step(dev); } else { rot.Step(dev); }
    }
    words := rot.buffer;
    if |image| == size / 4 && !CutShort(size) { ReceivedPrefix(image, size, sched, n); }
  }

  lemma ReceivedPrefix(image: seq<Word>, size: nat, sched: nat -> Agent, n: nat)
    requires |image| == size / 4 && !CutShort(size)
    ensures RecoveryRuns.At(image, size, sched, n).buffer <= image
  {
    RecoveryRuns.AtIsRun(image, size, sched);
    RecoveryRuns.TransferIsSafe(image, size, sched, (k: nat) => RecoveryRuns.At(image, size, sched, k), n);
    var s := RecoveryRuns.At(image, size, sched, n);
    assert s.buffer + (s.dev.fifo + image[Sent(s.mcu, |image|)..]) == image;
  }
}
