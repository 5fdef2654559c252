/** What the bus monitor reports over whole runs: which runs give exclusive SDA edges, and which START,
    repeated START and STOP it reports. */
module BusEvents {
  import opened Wave
  import opened Counts
  import opened Detectors
  import opened BusMonitor

  ghost predicate StepsTo(ins: nat -> In, run: nat -> Regs, n: nat) { run(n + 1) == Next(run(n), ins(n)) }

  /** `run(n)` is the state of the monitor `n` clocks after reset. */
  ghost predicate IsRun(ins: nat -> In, run: nat -> Regs) {
    run(0) == RESET && forall n: nat :: StepsTo(ins, run, n)
  }

  ghost predicate ConstantDelays(ins: nat -> In, tR: Count, tF: Count) {
    forall n: nat :: ins(n).tR == tR && ins(n).tF == tF
  }

  ghost function SdaAt(ins: nat -> In, run: nat -> Regs, n: nat): Wires { Sda(run(n), ins(n)) }

  ghost function SclAt(ins: nat -> In, run: nat -> Regs, n: nat): Wires { Scl(run(n), ins(n)) }

  // ---------------------------------------------------------------- exclusive edges

  ghost predicate BothEdges(ins: nat -> In, run: nat -> Regs, n: nat) {
    SdaAt(ins, run, n).posEdge && SdaAt(ins, run, n).negEdge
  }

  /** With two nonzero delays: what the SDA detectors hold, given the sample `before` the last one. */
  ghost predicate Apart(r: Regs, before: bool) {
    && (r.det.sdaPos.detected ==> before || r.sdaQ)
    && (r.det.sdaNeg.detected ==> !before || !r.sdaQ)
    && !(r.det.sdaPos.detected && r.det.sdaNeg.detected)
    && (r.det.sdaPos.checking && r.sdaQ && r.det.sdaPos.count >= 1 ==> before)
    && (r.det.sdaNeg.checking && !r.sdaQ && r.det.sdaNeg.count >= 1 ==> !before)
  }

  lemma ApartStep(r: Regs, before: bool, i: In)
    requires Apart(r, before) && i.tR > 0 && i.tF > 0
    ensures Apart(Next(r, i), r.sdaQ)
  {
  }

  lemma {:induction false} StaysApart(ins: nat -> In, run: nat -> Regs, tR: Count, tF: Count, n: nat)
    requires IsRun(ins, run) && ConstantDelays(ins, tR, tF) && tR > 0 && tF > 0
    ensures Apart(run(n), if n == 0 then true else run(n - 1).sdaQ)
  {
    if n > 0 {
      StaysApart(ins, run, tR, tF, n - 1);
      assert StepsTo(ins, run, n - 1) && ins(n - 1).tR == tR;
      ApartStep(run(n - 1), if n == 1 then true else run(n - 2).sdaQ, ins(n - 1));
    }
  }

  /** A line that rises in clock 1 and falls just when that rise is reported after the delay `tR`. */
  ghost function LateFall(tR: Count, tF: Count): nat -> In {
    (n: nat) => In(true, true, n != 0 && n != tR + 3, tR, tF)
  }

  /** A line that falls in clock 0 and rises just when that fall is reported after the delay `tF`. */
  ghost function LateRise(tR: Count, tF: Count): nat -> In {
    (n: nat) => In(true, true, n == tF + 2, tR, tF)
  }

  lemma LateFallOverlaps(ins: nat -> In, run: nat -> Regs, tR: Count)
    requires tR > 0 && ins == LateFall(tR, 0) && IsRun(ins, run)
    ensures BothEdges(ins, run, tR + 3)
  {
    var dIns := (n: nat) => SdaPosIn(run(n).sdaQ, ins(n));
    var dRun := (n: nat) => run(n).det.sdaPos;
    forall n: nat ensures Detectors.StepsTo(dIns, dRun, n) && EdgeAt(dIns, tR, n) {
      assert StepsTo(ins, run, n);
    }
    assert Detectors.IsRun(dIns, dRun);
    forall n: nat | 1 < n < tR + 3 ensures dIns(n).detectLine {
      assert StepsTo(ins, run, n - 1);
    }
    assert dIns(1).trigger by { assert StepsTo(ins, run, 0); }
    assert StableSince(dIns, 1, tR + 3);
    PromiseIsReported(dIns, dRun, tR, tR + 3);
    assert StepsTo(ins, run, tR + 2);
  }

  lemma LateRiseOverlaps(ins: nat -> In, run: nat -> Regs, tF: Count)
    requires tF > 0 && ins == LateRise(0, tF) && IsRun(ins, run)
    ensures BothEdges(ins, run, tF + 2)
  {
    var dIns := (n: nat) => SdaNegIn(run(n).sdaQ, ins(n));
    var dRun := (n: nat) => run(n).det.sdaNeg;
    forall n: nat ensures Detectors.StepsTo(dIns, dRun, n) && EdgeAt(dIns, tF, n) {
      assert StepsTo(ins, run, n);
    }
    assert Detectors.IsRun(dIns, dRun);
    forall n: nat | 0 < n < tF + 2 ensures dIns(n).detectLine {
      assert StepsTo(ins, run, n - 1);
    }
    assert StableSince(dIns, 0, tF + 2);
    PromiseIsReported(dIns, dRun, tF, tF + 2);
    assert StepsTo(ins, run, tF + 1);
  }

  ghost function At(ins: nat -> In, n: nat): Regs {
    if n == 0 then RESET else Next(At(ins, n - 1), ins(n - 1))
  }

  lemma AtIsRun(ins: nat -> In)
    ensures IsRun(ins, (n: nat) => At(ins, n))
  {
    var run := (m: nat) => At(ins, m);
    forall n: nat ensures StepsTo(ins, run, n) {
      var m := n + 1;
      assert At(ins, m) == Next(At(ins, m - 1), ins(m - 1));
    }
  }

  /** A rising and a falling SDA edge are never reported together, over any run with these delays,
      exactly when both delays are zero or neither is. */
  lemma EdgesExclusive(tR: Count, tF: Count)
    ensures (forall ins: nat -> In, run: nat -> Regs, n: nat |
               IsRun(ins, run) && ConstantDelays(ins, tR, tF) :: !BothEdges(ins, run, n))
       <==> ((tR == 0) <==> (tF == 0))
  {
    if (tR == 0) <==> (tF == 0) {
      forall ins: nat -> In, run: nat -> Regs, n: nat | IsRun(ins, run) && ConstantDelays(ins, tR, tF)
        ensures !BothEdges(ins, run, n)
      {
        assert ins(n).tR == tR && ins(n).tF == tF;
        if tR > 0 { StaysApart(ins, run, tR, tF, n); }
      }
    } else if tR > 0 {
      var ins := LateFall(tR, tF);
      AtIsRun(ins);
      LateFallOverlaps(ins, (n: nat) => At(ins, n), tR);
    } else {
      var ins := LateRise(tR, tF);
      AtIsRun(ins);
      LateRiseOverlaps(ins, (n: nat) => At(ins, n), tF);
    }
  }

  // ---------------------------------------------------------------- START, repeated START and STOP

  /** A START or a repeated START, or a STOP, is detected in clock `n`. */
  ghost predicate Started(ins: nat -> In, run: nat -> Regs, n: nat) { StartDet(run(n), ins(n)) }
  ghost predicate Stopped(ins: nat -> In, run: nat -> Regs, n: nat) { StopDet(run(n), ins(n)) }

  /** A frame is open: some start was detected with no stop since, nor in the same clock. */
  ghost predicate FrameOpen(ins: nat -> In, run: nat -> Regs, n: nat) {
    exists m: nat :: m < n && Started(ins, run, m) && (forall k: nat | m <= k < n :: !Stopped(ins, run, k))
  }

  lemma {:induction false} RstartEnIsFrameOpen(ins: nat -> In, run: nat -> Regs, n: nat)
    requires IsRun(ins, run)
    ensures run(n).rstartEn <==> FrameOpen(ins, run, n)
  {
    if n > 0 {
      var p := n - 1;
      RstartEnIsFrameOpen(ins, run, p);
      assert StepsTo(ins, run, p);
      if FrameOpen(ins, run, p) && !Stopped(ins, run, p) {
        var m: nat :| m < p && Started(ins, run, m) && forall k: nat | m <= k < p :: !Stopped(ins, run, k);
        assert forall k: nat | m <= k < n :: !Stopped(ins, run, k);
      }
      if Started(ins, run, p) && !Stopped(ins, run, p) {
        assert forall k: nat | p <= k < n :: !Stopped(ins, run, k);
      }
      if FrameOpen(ins, run, n) {
        var m: nat :| m < n && Started(ins, run, m) && forall k: nat | m <= k < n :: !Stopped(ins, run, k);
        assert m == p || (m < p && forall k: nat | m <= k < p :: !Stopped(ins, run, k));
        assert !Stopped(ins, run, p);
      }
    }
  }

  /** The reported events follow the grammar of a bus, whatever the inputs and the delays: a START only
      with no frame open, a repeated START only within one, and a detection that is either. */
  lemma EventGrammar(ins: nat -> In, run: nat -> Regs, n: nat)
    requires IsRun(ins, run)
    ensures var o := Outputs(run(n), ins(n));
            && (o.start <==> Started(ins, run, n) && !FrameOpen(ins, run, n))
            && (o.rstart <==> Started(ins, run, n) && FrameOpen(ins, run, n))
            && (o.stop <==> Stopped(ins, run, n))
            && (o.stop ==> !FrameOpen(ins, run, n + 1))
            && (o.start && !o.stop ==> FrameOpen(ins, run, n + 1))
  {
    RstartEnIsFrameOpen(ins, run, n);
    RstartEnIsFrameOpen(ins, run, n + 1);
    assert StepsTo(ins, run, n);
  }

  /** Each pending flag is its trigger, one clock later: the clearing conditions of the two flags never
      hold a flag up nor take one down that was just raised. */
  lemma PendingIsDelayedTrigger(ins: nat -> In, run: nat -> Regs, n: nat)
    requires IsRun(ins, run)
    ensures run(n + 1).startPending <==> StartTrigger(ins(n).enable, SdaAt(ins, run, n), SclAt(ins, run, n))
    ensures run(n + 1).stopPending <==> StopTrigger(ins(n).enable, SdaAt(ins, run, n), SclAt(ins, run, n))
    ensures !BothEdges(ins, run, n) ==> !(Started(ins, run, n + 1) && Stopped(ins, run, n + 1))
  {
    assert StepsTo(ins, run, n);
  }

  // ---------------------------------------------------------------- zero delays: the bus itself

  ghost function SclLine(ins: nat -> In): Line { (n: nat) => ins(n).scl }
  ghost function SdaLine(ins: nat -> In): Line { (n: nat) => ins(n).sda }

  lemma {:induction false} SamplesAre(ins: nat -> In, run: nat -> Regs, n: nat)
    requires IsRun(ins, run) && ConstantDelays(ins, 0, 0)
    ensures run(n).sclQ == Prev(SclLine(ins), n) && run(n).sdaQ == Prev(SdaLine(ins), n)
    ensures run(n).sclR == Prev(SclLine(ins), n) && run(n).sdaR == Prev(SdaLine(ins), n)
  {
    if n > 0 {
      SamplesAre(ins, run, n - 1);
      assert StepsTo(ins, run, n - 1) && ins(n - 1).tR == 0;
    }
  }

  /** With zero delays the monitor's edges are the edges of the sampled lines, its stable levels are the
      previous samples, and the value it gives for SDA falls one clock late. */
  lemma ZeroDelayWires(ins: nat -> In, run: nat -> Regs, n: nat)
    requires IsRun(ins, run) && ConstantDelays(ins, 0, 0)
    ensures var scl, sda := SclLine(ins), SdaLine(ins);
            && SclAt(ins, run, n)
               == Wires(scl(n) || Prev(scl, n), Rose(scl, n), Fell(scl, n), Prev(scl, n), !Prev(scl, n))
            && SdaAt(ins, run, n) == Wires(sda(n) || Prev(sda, n), Rose(sda, n), Fell(sda, n), Prev(sda, n), false)
  {
    SamplesAre(ins, run, n);
    assert ins(n).tR == 0 && ins(n).tF == 0;
  }

  ghost predicate StartCondition(scl: Line, sda: Line, n: nat) { Prev(scl, n) && scl(n) && Fell(sda, n) }
  ghost predicate StopCondition(scl: Line, sda: Line, n: nat) { Prev(scl, n) && scl(n) && Rose(sda, n) }

  /** With zero delays, detection is the bus condition: SDA falls, or rises, between two samples at which
      SCL is high, the monitor being enabled then and one clock later. */
  lemma DetectsConditions(ins: nat -> In, run: nat -> Regs, n: nat)
    requires IsRun(ins, run) && ConstantDelays(ins, 0, 0)
    ensures Started(ins, run, n + 1) <==>
              StartCondition(SclLine(ins), SdaLine(ins), n) && ins(n).enable && ins(n + 1).enable
    ensures Stopped(ins, run, n + 1) <==>
              StopCondition(SclLine(ins), SdaLine(ins), n) && ins(n).enable && ins(n + 1).enable
    ensures !Started(ins, run, 0) && !Stopped(ins, run, 0)
  {
    PendingIsDelayedTrigger(ins, run, n);
    ZeroDelayWires(ins, run, n);
  }

  /** An enabled monitor stays silent for ever exactly when SDA never moves while SCL is high. */
  lemma SilentIffStill(ins: nat -> In, run: nat -> Regs)
    requires IsRun(ins, run) && ConstantDelays(ins, 0, 0) && forall n: nat :: ins(n).enable
    requires ins(0).sda || !ins(0).scl
    ensures (forall n: nat :: !Started(ins, run, n) && !Stopped(ins, run, n))
       <==> (forall n: nat :: !MovesWhileHigh(SclLine(ins), SdaLine(ins), n))
  {
    var scl, sda := SclLine(ins), SdaLine(ins);
    if forall n: nat :: !MovesWhileHigh(scl, sda, n) {
      forall n: nat ensures !Started(ins, run, n) && !Stopped(ins, run, n) {
        if n == 0 {
          DetectsConditions(ins, run, 0);
        } else {
          DetectsConditions(ins, run, n - 1);
          if n > 1 { assert !MovesWhileHigh(scl, sda, n - 2); }
        }
      }
    } else {
      var n: nat :| MovesWhileHigh(scl, sda, n);
      DetectsConditions(ins, run, n + 1);
      assert ins(n + 1).enable && ins(n + 2).enable;
      assert Started(ins, run, n + 2) || Stopped(ins, run, n + 2);
    }
  }
}
