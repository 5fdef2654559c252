/** The bus monitor `src/ctrl/bus_monitor.sv`: edges and values of SCL and SDA, and the START, repeated
    START and STOP conditions. */
module BusMonitor {
  import opened Wave
  import opened Counts
  import opened Detectors

  datatype In = In(enable: bool, scl: bool, sda: bool, tR: Count, tF: Count)

  /** The registers of the seven detectors. */
  datatype DetectorRegs = DetectorRegs(sclNeg: EdgeRegs, sclPos: EdgeRegs, sdaNeg: EdgeRegs, sdaPos: EdgeRegs,
                                       sdaHigh: StableRegs, sclHigh: StableRegs, sclLow: StableRegs)

  datatype Regs = Regs(sclQ: bool, sdaQ: bool, det: DetectorRegs,
                       sdaR: bool, sclR: bool, startPending: bool, stopPending: bool, rstartEn: bool)

  const DETECTOR_RESET := DetectorRegs(EDGE_RESET, EDGE_RESET, EDGE_RESET, EDGE_RESET,
                                       STABLE_RESET, STABLE_RESET, STABLE_RESET)

  const RESET := Regs(true, true, DETECTOR_RESET, true, true, false, false, false)

  // The inputs of the four edge detectors, from the sampled lines `sclQ` and `sdaQ`.
  function SclNegIn(sclQ: bool, i: In): EdgeIn { EdgeIn(sclQ && !i.scl, !sclQ, i.tF) }
  function SclPosIn(sclQ: bool, i: In): EdgeIn { EdgeIn(!sclQ && i.scl, sclQ, i.tR) }
  function SdaNegIn(sdaQ: bool, i: In): EdgeIn { EdgeIn(sdaQ && !i.sda, !sdaQ, i.tF) }
  function SdaPosIn(sdaQ: bool, i: In): EdgeIn { EdgeIn(!sdaQ && i.sda, sdaQ, i.tR) }

  datatype Wires = Wires(value: bool, posEdge: bool, negEdge: bool, stableHigh: bool, stableLow: bool)

  /** `state_o.sda` and `state_o.scl`. */
  function SdaWires(sdaQ: bool, sdaR: bool, d: DetectorRegs, i: In): Wires {
    var posEdge := Detect(d.sdaPos, SdaPosIn(sdaQ, i));
    Wires(sdaR || posEdge, posEdge, Detect(d.sdaNeg, SdaNegIn(sdaQ, i)), Stable(d.sdaHigh, sdaQ, i.tR), false)
  }

  function SclWires(sclQ: bool, sclR: bool, d: DetectorRegs, i: In): Wires {
    var posEdge := Detect(d.sclPos, SclPosIn(sclQ, i));
    Wires(sclR || posEdge, posEdge, Detect(d.sclNeg, SclNegIn(sclQ, i)),
          Stable(d.sclHigh, sclQ, i.tR), Stable(d.sclLow, !sclQ, i.tF))
  }

  function Sda(r: Regs, i: In): Wires { SdaWires(r.sdaQ, r.sdaR, r.det, i) }
  function Scl(r: Regs, i: In): Wires { SclWires(r.sclQ, r.sclR, r.det, i) }

  predicate StartTrigger(enable: bool, sda: Wires, scl: Wires) {
    enable && scl.stableHigh && sda.negEdge && !scl.negEdge
  }

  predicate StopTrigger(enable: bool, sda: Wires, scl: Wires) {
    enable && scl.stableHigh && sda.posEdge && !scl.negEdge && !scl.posEdge
  }

  predicate StartDet(r: Regs, i: In) { i.enable && r.startPending }
  predicate StopDet(r: Regs, i: In) { i.enable && r.stopPending }

  datatype Out = Out(sda: Wires, scl: Wires, start: bool, rstart: bool, stop: bool)

  function Outputs(r: Regs, i: In): Out {
    Out(Sda(r, i), Scl(r, i), StartDet(r, i) && !r.rstartEn, StartDet(r, i) && r.rstartEn, StopDet(r, i))
  }

  function DetectorNext(sclQ: bool, sdaQ: bool, d: DetectorRegs, i: In): DetectorRegs {
    DetectorRegs(EdgeNext(d.sclNeg, SclNegIn(sclQ, i)), EdgeNext(d.sclPos, SclPosIn(sclQ, i)),
                 EdgeNext(d.sdaNeg, SdaNegIn(sdaQ, i)), EdgeNext(d.sdaPos, SdaPosIn(sdaQ, i)),
                 StableNext(d.sdaHigh, sdaQ, i.tR), StableNext(d.sclHigh, sclQ, i.tR),
                 StableNext(d.sclLow, !sclQ, i.tF))
  }

  /** A value that follows the detected edges. */
  function Follow(value: bool, wires: Wires): bool {
    if wires.posEdge then true else if wires.negEdge then false else value
  }

  /** A pending flag: set by its trigger, and cleared by its detection, by the other trigger, with SCL low,
      or when the monitor is disabled. */
  function Pending(pending: bool, trigger: bool, other: bool, det: bool, enable: bool, scl: Wires): bool {
    if trigger then true else if !enable || !scl.value || det || other then false else pending
  }

  /** The monitor's own registers after a clock with these wires, and the detectors given. */
  function NextWith(r: Regs, i: In, sda: Wires, scl: Wires, det: DetectorRegs): Regs {
    var start, stop := StartTrigger(i.enable, sda, scl), StopTrigger(i.enable, sda, scl);
    Regs(i.scl, i.sda, det, Follow(r.sdaR, sda), Follow(r.sclR, scl),
         Pending(r.startPending, start, stop, StartDet(r, i), i.enable, scl),
         Pending(r.stopPending, stop, start, StopDet(r, i), i.enable, scl),
         if StopDet(r, i) then false else if StartDet(r, i) then true else r.rstartEn)
  }

  function Next(r: Regs, i: In): Regs {
    NextWith(r, i, Sda(r, i), Scl(r, i), DetectorNext(r.sclQ, r.sdaQ, r.det, i))
  }

  /** The seven detector instances. */
  class DetectorBank {
    const sclNeg: EdgeDetector
    const sclPos: EdgeDetector
    const sdaNeg: EdgeDetector
    const sdaPos: EdgeDetector
    const sdaHigh: StableHighDetector
    const sclHigh: StableHighDetector
    const sclLow: StableHighDetector

    ghost predicate Apart() {
      && sclNeg != sclPos && sclNeg != sdaNeg && sclNeg != sdaPos && sclPos != sdaNeg && sclPos != sdaPos
      && sdaNeg != sdaPos && sdaHigh != sclHigh && sdaHigh != sclLow && sclHigh != sclLow
    }

    ghost function Repr(): set<object> { {sclNeg, sclPos, sdaNeg, sdaPos, sdaHigh, sclHigh, sclLow} }

    ghost function Contents(): DetectorRegs
      reads Repr()
    {
      DetectorRegs(sclNeg.Contents(), sclPos.Contents(), sdaNeg.Contents(), sdaPos.Contents(),
                   sdaHigh.Contents(), sclHigh.Contents(), sclLow.Contents())
    }

    constructor ()
      ensures Apart() && fresh(Repr()) && Contents() == DETECTOR_RESET
    {
      sclNeg := new EdgeDetector();
      sclPos := new EdgeDetector();
      sdaNeg := new EdgeDetector();
      sdaPos := new EdgeDetector();
      sdaHigh := new StableHighDetector();
      sclHigh := new StableHighDetector();
      sclLow := new StableHighDetector();
    }

    /** One clock of the two SDA edge detectors and the SDA level detector. */
    method ClockSda(sdaQ: bool, sdaR: bool, i: In) returns (sda: Wires)
      requires Apart()
      modifies sdaNeg, sdaPos, sdaHigh
      ensures sda == SdaWires(sdaQ, sdaR, old(Contents()), i)
      ensures sdaNeg.Contents() == EdgeNext(old(sdaNeg.Contents()), SdaNegIn(sdaQ, i))
      ensures sdaPos.Contents() == EdgeNext(old(sdaPos.Contents()), SdaPosIn(sdaQ, i))
      ensures sdaHigh.Contents() == StableNext(old(sdaHigh.Contents()), sdaQ, i.tR)
    {
      var negEdge := sdaNeg.Clock(SdaNegIn(sdaQ, i));
      var posEdge := sdaPos.Clock(SdaPosIn(sdaQ, i));
      var high := sdaHigh.Clock(sdaQ, i.tR);
      sda := Wires(sdaR || posEdge, posEdge, negEdge, high, false);
    }

    method ClockScl(sclQ: bool, sclR: bool, i: In) returns (scl: Wires)
      requires Apart()
      modifies sclNeg, sclPos, sclHigh, sclLow
      ensures scl == SclWires(sclQ, sclR, old(Contents()), i)
      ensures sclNeg.Contents() == EdgeNext(old(sclNeg.Contents()), SclNegIn(sclQ, i))
      ensures sclPos.Contents() == EdgeNext(old(sclPos.Contents()), SclPosIn(sclQ, i))
      ensures sclHigh.Contents() == StableNext(old(sclHigh.Contents()), sclQ, i.tR)
      ensures sclLow.Contents() == StableNext(old(sclLow.Contents()), !sclQ, i.tF)
    {
      var negEdge := sclNeg.Clock(SclNegIn(sclQ, i));
      var posEdge := sclPos.Clock(SclPosIn(sclQ, i));
      var high := sclHigh.Clock(sclQ, i.tR);
      var low := sclLow.Clock(!sclQ, i.tF);
      scl := Wires(sclR || posEdge, posEdge, negEdge, high, low);
    }

    /** One clock of all of them. */
    method Clock(sclQ: bool, sclR: bool, sdaQ: bool, sdaR: bool, i: In) returns (sda: Wires, scl: Wires)
      requires Apart()
      modifies Repr()
      ensures sda == SdaWires(sdaQ, sdaR, old(Contents()), i)
      ensures scl == SclWires(sclQ, sclR, old(Contents()), i)
      ensures Contents() == DetectorNext(sclQ, sdaQ, old(Contents()), i)
    {
      sda := ClockSda(sdaQ, sdaR, i);
      scl := ClockScl(sclQ, sclR, i);
    }
  }

  /** The module, with its detectors. */
  class Monitor {
    const det: DetectorBank
    var sclQ: bool
    var sdaQ: bool
    var sdaR: bool
    var sclR: bool
    var startDetPending: bool
    var stopDetPending: bool
    var rstartDetectionEn: bool

    ghost function Contents(): Regs
      reads this, det.Repr()
    {
      Regs(sclQ, sdaQ, det.Contents(), sdaR, sclR, startDetPending, stopDetPending, rstartDetectionEn)
    }

    ghost predicate Valid() { det.Apart() }

    constructor ()
      ensures Valid() && fresh(det.Repr()) && Contents() == RESET
    {
      sclQ, sdaQ, sdaR, sclR := true, true, true, true;
      startDetPending, stopDetPending, rstartDetectionEn := false, false, false;
      det := new DetectorBank();
    }

    /** The block of one pending flag. */
    static method PendingBlock(pending: bool, trigger: bool, other: bool, det: bool, enable: bool, scl: Wires)
      returns (next: bool)
      ensures next == Pending(pending, trigger, other, det, enable, scl)
    {
      next := pending;
      if trigger {
        next := true;
      } else if !enable || !scl.value || det || other {
        next := false;
      }
    }

    /** The triggers. */
    static method Triggers(enable: bool, sda: Wires, scl: Wires) returns (start: bool, stop: bool)
      ensures start == StartTrigger(enable, sda, scl) && stop == StopTrigger(enable, sda, scl)
    {
      var simultaneousPosedge := sda.posEdge && scl.posEdge;
      var simultaneousNegedge := sda.negEdge && scl.negEdge;
      start := enable && scl.stableHigh && sda.negEdge && !scl.negEdge && !simultaneousNegedge;
      stop := enable && scl.stableHigh && sda.posEdge && !scl.negEdge && !simultaneousPosedge;
    }

    /** The pending flags and the START / repeated START distinction. */
    method DetectEvents(enable: bool, sda: Wires, scl: Wires) returns (start: bool, rstart: bool, stop: bool)
      modifies this`startDetPending, this`stopDetPending, this`rstartDetectionEn
      ensures start == (enable && old(startDetPending) && !old(rstartDetectionEn))
      ensures rstart == (enable && old(startDetPending) && old(rstartDetectionEn))
      ensures stop == (enable && old(stopDetPending))
      ensures startDetPending == Pending(old(startDetPending), StartTrigger(enable, sda, scl),
                                         StopTrigger(enable, sda, scl), enable && old(startDetPending), enable, scl)
      ensures stopDetPending == Pending(old(stopDetPending), StopTrigger(enable, sda, scl),
                                        StartTrigger(enable, sda, scl), stop, enable, scl)
      ensures rstartDetectionEn == if enable && old(stopDetPending) then false
                                   else if enable && old(startDetPending) then true else old(rstartDetectionEn)
    {
      var startDet, stopDet := enable && startDetPending, enable && stopDetPending;
      var startTrigger, stopTrigger := Triggers(enable, sda, scl);
      start, rstart, stop := startDet && !rstartDetectionEn, startDet && rstartDetectionEn, stopDet;
      startDetPending := PendingBlock(startDetPending, startTrigger, stopTrigger, startDet, enable, scl);
      stopDetPending := PendingBlock(stopDetPending, stopTrigger, startTrigger, stopDet, enable, scl);
      if stopDet { rstartDetectionEn := false; } else if startDet { rstartDetectionEn := true; }
    }

    /** The sampling registers and the values kept in step with the edge detectors. */
    method SampleLines(i: In, sda: Wires, scl: Wires)
      modifies this`sclQ, this`sdaQ, this`sdaR, this`sclR
      ensures sclQ == i.scl && sdaQ == i.sda
      ensures sdaR == Follow(old(sdaR), sda) && sclR == Follow(old(sclR), scl)
    {
      if sda.posEdge { sdaR := true; } else if sda.negEdge { sdaR := false; }
      if scl.posEdge { sclR := true; } else if scl.negEdge { sclR := false; }
      sclQ, sdaQ := i.scl, i.sda;
    }

    /** The monitor's own registers, the detectors having been clocked. */
    method ClockOwn(i: In, sda: Wires, scl: Wires, ghost was: Regs) returns (o: Out)
      requires was.sclQ == sclQ && was.sdaQ == sdaQ && was.sdaR == sdaR && was.sclR == sclR
      requires was.startPending == startDetPending && was.stopPending == stopDetPending
      requires was.rstartEn == rstartDetectionEn
      modifies this
      ensures o == Out(sda, scl, StartDet(was, i) && !was.rstartEn, StartDet(was, i) && was.rstartEn, StopDet(was, i))
      ensures Contents() == NextWith(was, i, sda, scl, old(det.Contents()))
    {
      var start, rstart, stop := DetectEvents(i.enable, sda, scl);
      SampleLines(i, sda, scl);
      o := Out(sda, scl, start, rstart, stop);
    }

    /** One clock. */
    method Clock(i: In) returns (o: Out)
      requires Valid()
      modifies this, det.Repr()
      ensures o == Outputs(old(Contents()), i)
      ensures Contents() == Next(old(Contents()), i)
    {
      ghost var was := Contents();
      var sda, scl := det.Clock(sclQ, sclR, sdaQ, sdaR, i);
      o := ClockOwn(i, sda, scl, was);
    }
  }
}
