/** Whole runs of the recovery image transfer, under any interleaving of the two agents: safety,
    absence of deadlock, termination under fairness, and the exact image sizes that are delivered. */
module RecoveryRuns {
  import opened RecoveryTransfer

  ghost predicate StepsTo(image: seq<Word>, size: nat, sched: nat -> Agent, run: nat -> System, n: nat) {
    run(n + 1) == Step(image, size, run(n), sched(n))
  }

  /** `run(n)` is the state after `n` steps of the agents that `sched` picks. */
  ghost predicate IsRun(image: seq<Word>, size: nat, sched: nat -> Agent, run: nat -> System) {
    run(0) == START && forall n: nat :: StepsTo(image, size, sched, run, n)
  }

  lemma {:induction false} InvHolds(image: seq<Word>, size: nat, sched: nat -> Agent, run: nat -> System, n: nat)
    requires |image| == size / 4 != 1 && IsRun(image, size, sched, run)
    ensures Inv(Feed(image, size), size / 4, run(n))
  {
    if n > 0 {
      InvHolds(image, size, sched, run, n - 1);
      assert StepsTo(image, size, sched, run, n - 1);
      StepKeepsInv(image, size, run(n - 1), sched(n - 1));
    }
  }

  /** The registers that are only announced: what was written to them, and when. */
  predicate Announced(size: nat, s: System) {
    && (!s.rot.SetCaps? ==> s.dev.caps == FLASHLESS)
    && (!s.rot.SetCaps? && !s.rot.SetReason? ==> s.dev.reason == REASON)
    && (s.mcu.ClearReset? || !Preparing(s.mcu) ==> s.mcu.McuFailed? || s.dev.imageSize == size)
    && (s.mcu.ResetFifo? || s.mcu.WriteSize? ==> s.dev.imageSize == 0)
  }

  lemma McuAnnounces(image: seq<Word>, size: nat, s: System)
    requires Announced(size, s)
    ensures Announced(size, Step(image, size, s, McuAgent))
  {
  }

  lemma RotAnnounces(image: seq<Word>, size: nat, s: System)
    requires Announced(size, s)
    ensures Announced(size, Step(image, size, s, RotAgent))
  {
  }

  lemma {:induction false} AnnouncedHolds(image: seq<Word>, size: nat, sched: nat -> Agent, run: nat -> System, n: nat)
    requires IsRun(image, size, sched, run)
    ensures Announced(size, run(n))
  {
    if n > 0 {
      AnnouncedHolds(image, size, sched, run, n - 1);
      assert StepsTo(image, size, sched, run, n - 1);
      if sched(n - 1).McuAgent? {
        McuAnnounces(image, size, run(n - 1));
      } else {
        RotAnnounces(image, size, run(n - 1));
      }
    }
  }

  lemma McuKeepsRules(image: seq<Word>, size: nat, mcu: Mcu, d: Device)
    requires Rules(d) && Settled(d)
    ensures var d' := McuStep(image, size, mcu, d).1; Rules(d') && Settled(d')
  {
    match mcu {
      case ResetFifo => OthersKeepRules(d, ClearFifo);
      case Write(_, chunk, i) => if i < |chunk| { WriteKeepsRules(d, chunk[i]); }
      case SetDone(_) => OthersKeepRules(d, FinishPayload);
      case Activate => OthersKeepRules(d, ActivateImage);
      case _ => SameRules(d, McuStep(image, size, mcu, d).1);
    }
  }

  lemma RotKeepsRules(size: nat, rot: Rot, d: Device, buffer: seq<Word>)
    requires Rules(d) && Settled(d)
    ensures var d' := RotStep(size, rot, d, buffer).1; Rules(d') && Settled(d')
  {
    if rot.Read? { OthersKeepRules(d, ReadWord); } else { SameRules(d, RotStep(size, rot, d, buffer).1); }
  }

  /** In every run, an image that is cut short included, the device keeps its rules. */
  lemma {:induction false} RulesHoldInRun(image: seq<Word>, size: nat, sched: nat -> Agent, run: nat -> System, n: nat)
    requires IsRun(image, size, sched, run)
    ensures Rules(run(n).dev) && Settled(run(n).dev)
  {
    if n > 0 {
      RulesHoldInRun(image, size, sched, run, n - 1);
      assert StepsTo(image, size, sched, run, n - 1);
      var s := run(n - 1);
      McuKeepsRules(image, size, s.mcu, s.dev);
      RotKeepsRules(size, s.rot, s.dev, s.buffer);
    }
  }

  lemma SameRules(d: Device, d': Device)
    requires Rules(d) && Settled(d)
    requires d' == d.(caps := d'.caps, reason := d'.reason, devStatus := d'.devStatus, recStatus := d'.recStatus,
                      imageSize := d'.imageSize)
    ensures Rules(d') && Settled(d')
  {
  }

  predicate Refusing(mcu: Mcu) { mcu.PollDevice? || mcu.PollRecovery? || mcu.CheckCtrl? || mcu.McuFailed? }

  lemma McuRefuses(image: seq<Word>, size: nat, mcu: Mcu, d: Device)
    requires Refusing(mcu) && d.activate != 0
    ensures var (mcu', d') := McuStep(image, size, mcu, d);
            Refusing(mcu') && d' == d && (mcu.CheckCtrl? ==> mcu'.McuFailed?)
  {
  }

  lemma RotLeavesControl(size: nat, rot: Rot, d: Device, buffer: seq<Word>)
    ensures var d' := RotStep(size, rot, d, buffer).1; d'.activate == d.activate && d'.imageSize == d.imageSize
  {
  }

  /** A device whose image is activated already: the MCU refuses to begin, and changes nothing. */
  lemma {:induction false} ActivatedIsRefused(image: seq<Word>, size: nat, sched: nat -> Agent, run: nat -> System,
                                              n: nat)
    requires run(0).mcu.PollDevice? && run(0).dev.activate != 0
    requires forall m: nat :: StepsTo(image, size, sched, run, m)
    ensures Refusing(run(n).mcu)
    ensures run(n).dev.activate == run(0).dev.activate && run(n).dev.imageSize == run(0).dev.imageSize
    ensures sched(n).McuAgent? ==> run(n + 1).dev == run(n).dev && (run(n).mcu.CheckCtrl? ==> run(n + 1).mcu.McuFailed?)
  {
    if n > 0 {
      ActivatedIsRefused(image, size, sched, run, n - 1);
      assert StepsTo(image, size, sched, run, n - 1);
      RotLeavesControl(size, run(n - 1).rot, run(n - 1).dev, run(n - 1).buffer);
    }
    assert StepsTo(image, size, sched, run, n);
    McuRefuses(image, size, run(n).mcu, run(n).dev);
  }

  /** In every reachable state of a transfer that is not cut short, what was received, what is in the
      FIFO and what is not sent yet make up the image; the FIFO is never written when full, nor read when
      empty, nor accessed against its permissions; the image is activated only when all of it was
      received, and the MCU finishes only after the root of trust reported booting.  The MCU prepares a
      transfer only after capabilities and reason are set, and sends only after the size is. */
  lemma TransferIsSafe(image: seq<Word>, size: nat, sched: nat -> Agent, run: nat -> System, n: nat)
    requires |image| == size / 4 && !CutShort(size) && IsRun(image, size, sched, run)
    ensures var s := run(n);
            && Sent(s.mcu, |image|) <= |image|
            && s.buffer + s.dev.fifo + image[Sent(s.mcu, |image|)..] == image
            && (s.mcu.Write? ==> !s.dev.Full() && s.dev.allowWrite)
            && (s.rot.Read? ==> !s.dev.Empty() && s.dev.allowRead)
            && (s.mcu.Activate? || s.dev.Activated() ==> s.buffer == image)
            && (s.mcu.McuDone? ==> s.rot.RotDone? && s.dev.recStatus == 2)
            && (!s.mcu.PollDevice? ==> s.dev.caps == FLASHLESS && s.dev.reason == REASON)
            && (s.mcu.WriteSize? ==> s.dev.imageSize == 0) && (!Preparing(s.mcu) ==> s.dev.imageSize == size)
            && !s.mcu.McuFailed?
  {
    InvHolds(image, size, sched, run, n);
    AnnouncedHolds(image, size, sched, run, n);
    var s := run(n);
    var sent := Sent(s.mcu, |image|);
    assert image[..sent] + image[sent..] == image;
    assert s.rot.Read? ==> |s.buffer| < |image|;
  }

  // ---------------------------------------------------------------- progress

  /** Number of chunks from word `ptr` on. */
  function Chunks(ptr: int, total: nat): nat { if ptr < total then (total - ptr + 63) / 64 else 0 }

  function McuRank(mcu: Mcu, total: nat): int {
    match mcu
    case Write(ptr, _, i) => 5 + (total - (ptr + i)) + 4 * Chunks(ptr, total)
    case SetDone(ptr) => 4 + (total - Min(ptr + MAX_XFER, total)) + 4 * Chunks(ptr, total)
    case PollEmpty(ptr) => 3 + (total - Min(ptr + MAX_XFER, total)) + 4 * Chunks(ptr, total)
    case Activate => 2
    case PollBoot => 1
    case McuDone => 0
    case McuFailed => 0
    case _ =>
      5 + total + 4 * Chunks(0, total)
      + (if mcu.PollDevice? then 8 else if mcu.PollRecovery? then 7 else if mcu.CheckCtrl? then 6
         else if mcu.ZeroCtrl? then 5 else if mcu.ZeroSize? then 4 else if mcu.ResetFifo? then 3
         else if mcu.WriteSize? then 2 else 1)
  }

  function RotRank(rot: Rot, payload: bool, total: nat): int {
    match rot
    case PollFull(ptr) => 5 + (total - ptr) + 2 * Chunks(ptr, total)
    case PollPayload(ptr) => (if payload then 4 else 5) + (total - ptr) + 2 * Chunks(ptr, total)
    case Read(ptr, i) => 3 + (total - ptr - i) + 2 * Chunks(ptr, total)
    case PollActivate => 2
    case SetBooting => 1
    case RotDone => 0
    case _ => 5 + total + 2 * Chunks(0, total)
              + (if rot.SetCaps? then 4 else if rot.SetReason? then 3 else if rot.SetDevStatus? then 2 else 1)
  }

  /** What is left to be done by both agents; a poll that has to be repeated does not change it. */
  function Measure(s: System, total: nat): int {
    McuRank(s.mcu, total) + RotRank(s.rot, s.dev.payloadAvailable, total)
  }

  predicate Progress(image: seq<Word>, size: nat, s: System, a: Agent) {
    Measure(Step(image, size, s, a), size / 4) < Measure(s, size / 4)
  }

  /** The MCU's step is a poll that has to be repeated, or it has nothing left to do. */
  predicate McuBlocked(s: System) {
    || (s.mcu.PollDevice? && s.dev.devStatus != 3) || (s.mcu.PollRecovery? && s.dev.recStatus != 1)
    || (s.mcu.PollEmpty? && !s.dev.Empty()) || (s.mcu.PollBoot? && s.dev.recStatus != 2) || s.mcu.McuDone?
  }

  predicate RotBlocked(s: System) {
    || ((s.rot.PollFull? || s.rot.PollPayload?) && !s.dev.payloadAvailable)
    || (s.rot.PollActivate? && !s.dev.Activated()) || s.rot.RotDone?
  }

  lemma MeasureNat(image: seq<Word>, size: nat, s: System)
    requires |image| == size / 4 != 1 && Inv(Feed(image, size), size / 4, s)
    ensures Measure(s, size / 4) >= 0
  {
  }

  lemma ChunksStep(ptr: nat, total: nat)
    requires ptr < total
    ensures Chunks(ptr, total) == Chunks(ptr + MAX_XFER, total) + 1
  {
  }

  /** What the head of the chunk loop leaves to be done. */
  lemma LoopRank(image: seq<Word>, size: nat, ptr: nat)
    requires |image| == size / 4 != 1 && ptr % MAX_XFER == 0
    ensures McuRank(McuLoop(image, size, ptr), size / 4)
         <= if ptr < size / 4 then 5 + (size / 4 - ptr) + 4 * Chunks(ptr, size / 4) else 2
  {
    if ptr < size / 4 { ChunkOfFeed(image, size, ptr); }
  }

  lemma McuLoopProgress(image: seq<Word>, size: nat, s: System)
    requires |image| == size / 4 != 1 && Inv(Feed(image, size), size / 4, s)
    requires s.mcu.PollEmpty? || s.mcu.ClearReset?
    requires !McuBlocked(s)
    ensures Progress(image, size, s, McuAgent)
  {
    var total := size / 4;
    var ptr := if s.mcu.PollEmpty? then s.mcu.ptr + MAX_XFER else 0;
    if s.mcu.PollEmpty? { ChunksStep(s.mcu.ptr, total); }
    assert Step(image, size, s, McuAgent) == s.(mcu := McuLoop(image, size, ptr));
    LoopRank(image, size, ptr);
  }

  lemma McuSendProgress(image: seq<Word>, size: nat, s: System)
    requires |image| == size / 4 != 1 && Inv(Feed(image, size), size / 4, s)
    requires s.mcu.Write? || s.mcu.SetDone?
    ensures Progress(image, size, s, McuAgent)
  {
  }

  /** A step of the MCU that is not blocked makes progress; a blocked one changes nothing. */
  lemma McuProgress(image: seq<Word>, size: nat, s: System)
    requires |image| == size / 4 != 1 && Inv(Feed(image, size), size / 4, s)
    ensures if McuBlocked(s) then Step(image, size, s, McuAgent) == s else Progress(image, size, s, McuAgent)
  {
    if s.mcu.Write? || s.mcu.SetDone? {
      McuSendProgress(image, size, s);
    } else if (s.mcu.PollEmpty? || s.mcu.ClearReset?) && !McuBlocked(s) {
      McuLoopProgress(image, size, s);
    }
  }

  lemma RotReadProgress(image: seq<Word>, size: nat, s: System)
    requires |image| == size / 4 != 1 && Inv(Feed(image, size), size / 4, s) && s.rot.Read?
    ensures Progress(image, size, s, RotAgent)
  {
    ChunksStep(s.rot.ptr, size / 4);
  }

  lemma RotOtherProgress(image: seq<Word>, size: nat, s: System)
    requires |image| == size / 4 != 1 && Inv(Feed(image, size), size / 4, s) && !s.rot.Read? && !RotBlocked(s)
    ensures Progress(image, size, s, RotAgent)
  {
  }

  /** What a blocked step of the root of trust does: at most it passes from one poll to the other. */
  ghost predicate StaysBlocked(s: System, s': System, total: nat) {
    s' == s.(rot := s'.rot) && RotBlocked(s') && Measure(s', total) == Measure(s, total)
  }

  lemma RotBlockedStays(image: seq<Word>, size: nat, s: System)
    requires |image| == size / 4 != 1 && Inv(Feed(image, size), size / 4, s) && RotBlocked(s)
    ensures StaysBlocked(s, Step(image, size, s, RotAgent), size / 4)
  {
  }

  /** A step of the root of trust makes progress, or it is blocked and stays so. */
  lemma RotProgress(image: seq<Word>, size: nat, s: System)
    requires |image| == size / 4 != 1 && Inv(Feed(image, size), size / 4, s)
    ensures if RotBlocked(s) then StaysBlocked(s, Step(image, size, s, RotAgent), size / 4)
            else Progress(image, size, s, RotAgent)
  {
    if RotBlocked(s) {
      RotBlockedStays(image, size, s);
    } else if s.rot.Read? {
      RotReadProgress(image, size, s);
    } else {
      RotOtherProgress(image, size, s);
    }
  }

  /** The two agents are never blocked together before both have finished: no deadlock. */
  lemma NoDeadlock(image: seq<Word>, size: nat, s: System)
    requires |image| == size / 4 != 1 && Inv(Feed(image, size), size / 4, s)
    ensures s.Finished() <==> McuBlocked(s) && RotBlocked(s)
  {
  }

  predicate Blocked(s: System, a: Agent) { if a.McuAgent? then McuBlocked(s) else RotBlocked(s) }

  /** One step of agent `b` either makes progress, or `b` was blocked and the other agent is as before. */
  lemma StepProgress(image: seq<Word>, size: nat, s: System, b: Agent)
    requires |image| == size / 4 != 1 && Inv(Feed(image, size), size / 4, s)
    ensures var s' := Step(image, size, s, b);
            && (!Blocked(s, b) ==> Progress(image, size, s, b))
            && (Blocked(s, b) ==> Measure(s', size / 4) == Measure(s, size / 4)
                                  && (forall a: Agent :: Blocked(s', a) <==> Blocked(s, a)))
  {
    if b.McuAgent? { McuProgress(image, size, s); } else { RotProgress(image, size, s); }
  }

  // ---------------------------------------------------------------- fair runs

  ghost predicate Fair(sched: nat -> Agent) {
    forall n: nat, a: Agent :: Recurs(sched, n, a)
  }

  ghost predicate Recurs(sched: nat -> Agent, n: nat, a: Agent) { exists m: nat :: n <= m && sched(m) == a }

  /** An agent that is not blocked is still not blocked when its turn comes, or progress was made before. */
  lemma {:induction false} ProgressBy(image: seq<Word>, size: nat, sched: nat -> Agent, run: nat -> System,
                                      n: nat, a: Agent, m: nat) returns (k: nat)
    requires |image| == size / 4 != 1 && IsRun(image, size, sched, run)
    requires !Blocked(run(n), a) && n <= m && sched(m) == a
    ensures n < k && Measure(run(k), size / 4) < Measure(run(n), size / 4)
    decreases m - n
  {
    InvHolds(image, size, sched, run, n);
    assert StepsTo(image, size, sched, run, n);
    StepProgress(image, size, run(n), sched(n));
    if Blocked(run(n), sched(n)) {
      assert n != m;
      k := ProgressBy(image, size, sched, run, n + 1, a, m);
    } else {
      k := n + 1;
    }
  }

  /** Finished is for good. */
  lemma {:induction false} StaysFinished(image: seq<Word>, size: nat, sched: nat -> Agent, run: nat -> System,
                                         n: nat, m: nat)
    requires IsRun(image, size, sched, run) && run(n).Finished() && n <= m
    ensures run(m) == run(n)
  {
    if n < m {
      StaysFinished(image, size, sched, run, n, m - 1);
      assert StepsTo(image, size, sched, run, m - 1);
    }
  }

  /** From every state of a fair run, both agents finish, and for good. */
  lemma {:induction false} Finishes(image: seq<Word>, size: nat, sched: nat -> Agent, run: nat -> System, n: nat)
    returns (m: nat)
    requires |image| == size / 4 != 1 && IsRun(image, size, sched, run) && Fair(sched)
    ensures n <= m && run(m).Finished() && forall k: nat | m <= k :: run(k) == run(m)
    decreases Measure(run(n), size / 4)
  {
    InvHolds(image, size, sched, run, n);
    NoDeadlock(image, size, run(n));
    if run(n).Finished() {
      m := n;
      forall k: nat | m <= k ensures run(k) == run(m) { StaysFinished(image, size, sched, run, m, k); }
    } else {
      MeasureNat(image, size, run(n));
      var a := if McuBlocked(run(n)) then RotAgent else McuAgent;
      assert Recurs(sched, n, a);
      var t: nat :| n <= t && sched(t) == a;
      var k := ProgressBy(image, size, sched, run, n, a, t);
      InvHolds(image, size, sched, run, k);
      MeasureNat(image, size, run(k));
      m := Finishes(image, size, sched, run, k);
    }
  }

  /** What a finished transfer has delivered: the image, or, when its only chunk was cut short, the image
      with its last word replaced by the zero that an empty FIFO returns. */
  lemma FinishedBuffer(image: seq<Word>, size: nat, sched: nat -> Agent, run: nat -> System, n: nat)
    requires |image| == size / 4 != 1 && IsRun(image, size, sched, run) && run(n).Finished()
    ensures run(n).buffer == if CutShort(size) then image[..|image| - 1] + [0] else image
  {
    InvHolds(image, size, sched, run, n);
    var s := run(n);
    assert image[..|image|] == image;
  }

  // ---------------------------------------------------------------- the exact images delivered

  /** Under every fair schedule both agents finish and the received words are the image. */
  ghost predicate Delivered(image: seq<Word>, size: nat) {
    forall sched: nat -> Agent, run: nat -> System | Fair(sched) && IsRun(image, size, sched, run) ::
      exists n: nat :: run(n).Finished() && run(n).buffer == image
  }

  /** A single word below 8 bytes: the MCU's only chunk is empty, and it fails. */
  ghost predicate BeforeFailure(s: System) { Preparing(s.mcu) || s.mcu.McuFailed? }

  lemma {:induction false} SingleWordFails(image: seq<Word>, size: nat, sched: nat -> Agent, run: nat -> System, n: nat)
    requires |image| == size / 4 == 1 && IsRun(image, size, sched, run)
    ensures BeforeFailure(run(n))
  {
    if n > 0 {
      SingleWordFails(image, size, sched, run, n - 1);
      assert StepsTo(image, size, sched, run, n - 1);
      ChunkOfFeed(image, size, 0);
    }
  }

  function Alternating(n: nat): Agent { if n % 2 == 0 then McuAgent else RotAgent }

  lemma AlternatingIsFair()
    ensures Fair((n: nat) => Alternating(n))
  {
    var sched := (n: nat) => Alternating(n);
    forall n: nat, a: Agent ensures Recurs(sched, n, a) {
      assert sched(n) == a || sched(n + 1) == a;
    }
  }

  ghost function At(image: seq<Word>, size: nat, sched: nat -> Agent, n: nat): System {
    if n == 0 then START else Step(image, size, At(image, size, sched, n - 1), sched(n - 1))
  }

  lemma AtIsRun(image: seq<Word>, size: nat, sched: nat -> Agent)
    ensures IsRun(image, size, sched, (n: nat) => At(image, size, sched, n))
  {
    var run := (n: nat) => At(image, size, sched, n);
    forall n: nat ensures StepsTo(image, size, sched, run, n) {
      var m := n + 1;
      assert At(image, size, sched, m) == Step(image, size, At(image, size, sched, m - 1), sched(m - 1));
    }
  }

  /** The transfer delivers an image exactly when it is not cut short, or its last of at least two words
      is zero anyway: the end of the first chunk is compared with the size in bytes, so below 64 bytes
      the chunk ends one word early. */
  lemma DeliversExactly(image: seq<Word>, size: nat)
    requires |image| == size / 4
    ensures Delivered(image, size) <==> !CutShort(size) || (size >= 8 && image[|image| - 1] == 0)
  {
    if size / 4 != 1 && (!CutShort(size) || image[|image| - 1] == 0) {
      forall sched: nat -> Agent, run: nat -> System | Fair(sched) && IsRun(image, size, sched, run)
        ensures exists n: nat :: run(n).Finished() && run(n).buffer == image
      {
        var n := Finishes(image, size, sched, run, 0);
        FinishedBuffer(image, size, sched, run, n);
        assert CutShort(size) ==> image[..|image| - 1] + [image[|image| - 1]] == image;
      }
    } else {
      var sched := (n: nat) => Alternating(n);
      var run := (n: nat) => At(image, size, sched, n);
      AlternatingIsFair();
      AtIsRun(image, size, sched);
      forall n: nat ensures !(run(n).Finished() && run(n).buffer == image) {
        if size / 4 == 1 {
          SingleWordFails(image, size, sched, run, n);
        } else if run(n).Finished() {
          FinishedBuffer(image, size, sched, run, n);
          assert run(n).buffer[|image| - 1] == 0;
        }
      }
    }
  }
}
