/** The bus monitor with delays of any size: which edges and levels of the lines it reports, in which clock, and
    which START and STOP conditions follow from that. */
module BusDelays {
  import opened Wave
  import opened Counts
  import opened Detectors
  import opened BusMonitor
  import opened BusEvents

  /** The line turns to `level` in clock `n`. */
  ghost predicate Turns(line: Line, level: bool, n: nat) { Prev(line, n) != level && line(n) == level }

  /** In clock `n` it has turned `delay + 2` clocks ago and has been sampled `delay + 1` times at its new level. */
  ghost predicate TurnedStably(line: Line, level: bool, delay: Count, n: nat) {
    && n >= delay + 2 && Turns(line, level, n - delay - 2)
    && forall m: nat | n - delay - 2 <= m <= n - 2 :: line(m) == level
  }

  /** It leaves its new level for one clock, just when the edge is due. */
  ghost predicate Blips(line: Line, level: bool, delay: Count, n: nat) {
    TurnedStably(line, level, delay, n) && Turns(line, level, n)
  }

  // ---------------------------------------------------------------- one edge detector on a line

  ghost predicate WatchesAt(line: Line, level: bool, delay: Count, ins: nat -> EdgeIn, n: nat) {
    ins(n) == EdgeIn(Turns(line, level, n), Prev(line, n) == level, delay)
  }

  /** A detector that is wired to a line so as to find its turns to `level`. */
  ghost predicate Watches(line: Line, level: bool, delay: Count, ins: nat -> EdgeIn, run: nat -> EdgeRegs) {
    Detectors.IsRun(ins, run) && forall n: nat :: WatchesAt(line, level, delay, ins, n)
  }

  lemma PromisedIs(line: Line, level: bool, delay: Count, ins: nat -> EdgeIn, run: nat -> EdgeRegs, n: nat)
    requires Watches(line, level, delay, ins, run)
    ensures Promised(ins, delay, n) <==> TurnedStably(line, level, delay, n)
    ensures EdgeAt(ins, delay, n)
  {
    assert WatchesAt(line, level, delay, ins, n) && WatchesAt(line, level, delay, ins, n + 1);
    if n >= delay + 2 {
      var t := n - delay - 2;
      assert WatchesAt(line, level, delay, ins, t);
      if Promised(ins, delay, n) {
        forall m: nat | t <= m <= n - 2 ensures line(m) == level {
          if m > t { assert ins(m).detectLine && WatchesAt(line, level, delay, ins, m); }
          assert WatchesAt(line, level, delay, ins, m + 1) && ins(m + 1).detectLine;
        }
      }
      if TurnedStably(line, level, delay, n) {
        forall m: nat | t < m < n ensures ins(m).detectLine {
          assert WatchesAt(line, level, delay, ins, m);
          assert line(m - 1) == level;
        }
      }
    }
  }

  /** A stable turn is always reported; and nothing else is, in any clock, exactly if the line never blips. */
  lemma TurnsReported(line: Line, level: bool, delay: Count, ins: nat -> EdgeIn, run: nat -> EdgeRegs)
    requires Watches(line, level, delay, ins, run) && delay > 0
    ensures forall n: nat :: TurnedStably(line, level, delay, n) ==> run(n).detected
    ensures (forall n: nat :: run(n).detected <==> TurnedStably(line, level, delay, n))
       <==> (forall m: nat :: !Blips(line, level, delay, m))
  {
    forall n: nat
      ensures EdgeAt(ins, delay, n) && (Promised(ins, delay, n) <==> TurnedStably(line, level, delay, n))
      ensures Glitch(ins, delay, n) <==> Blips(line, level, delay, n)
    {
      PromisedIs(line, level, delay, ins, run, n);
      assert WatchesAt(line, level, delay, ins, n);
    }
    forall n: nat | TurnedStably(line, level, delay, n) ensures run(n).detected {
      PromiseIsReported(ins, run, delay, n);
    }
    DetectsAsPromised(ins, run, delay);
  }

  // ---------------------------------------------------------------- the four of the monitor

  lemma {:induction false} Samples(ins: nat -> In, run: nat -> Regs, n: nat)
    requires BusEvents.IsRun(ins, run)
    ensures run(n).sclQ == Prev(SclLine(ins), n) && run(n).sdaQ == Prev(SdaLine(ins), n)
  {
    if n > 0 { assert BusEvents.StepsTo(ins, run, n - 1); }
  }

  /** The edges that a run reports, by line and level. */
  ghost predicate SclEdge(ins: nat -> In, run: nat -> Regs, level: bool, n: nat) {
    if level then SclAt(ins, run, n).posEdge else SclAt(ins, run, n).negEdge
  }

  ghost predicate SdaEdge(ins: nat -> In, run: nat -> Regs, level: bool, n: nat) {
    if level then SdaAt(ins, run, n).posEdge else SdaAt(ins, run, n).negEdge
  }

  /** The delay of a level: rise time or fall time. */
  function Delay(tR: Count, tF: Count, level: bool): Count { if level then tR else tF }

  /** Without a delay an edge is reported at once; with one, a stable edge always is, in the clock given, and no
      other is, in any clock, exactly if the line never blips. */
  ghost predicate ReportsTurns(line: Line, level: bool, delay: Count, edge: nat -> bool) {
    && (delay == 0 ==> forall n: nat :: edge(n) <==> Turns(line, level, n))
    && (delay > 0 ==> forall n: nat :: TurnedStably(line, level, delay, n) ==> edge(n))
    && (delay > 0 ==> ((forall n: nat :: edge(n) <==> TurnedStably(line, level, delay, n))
                       <==> forall m: nat :: !Blips(line, level, delay, m)))
  }

  /** A detector of the monitor: its inputs, its registers and its output. */
  lemma DetectorReports(line: Line, level: bool, delay: Count, dIns: nat -> EdgeIn, dRun: nat -> EdgeRegs,
                        edge: nat -> bool)
    requires Watches(line, level, delay, dIns, dRun)
    requires forall n: nat :: edge(n) == Detect(dRun(n), dIns(n))
    ensures ReportsTurns(line, level, delay, edge)
  {
    forall n: nat ensures edge(n) <==> if delay == 0 then Turns(line, level, n) else dRun(n).detected {
      assert WatchesAt(line, level, delay, dIns, n);
    }
    if delay > 0 { TurnsReported(line, level, delay, dIns, dRun); }
  }

  ghost function SclIn(level: bool, sclQ: bool, i: In): EdgeIn {
    if level then SclPosIn(sclQ, i) else SclNegIn(sclQ, i)
  }

  ghost function SdaIn(level: bool, sdaQ: bool, i: In): EdgeIn {
    if level then SdaPosIn(sdaQ, i) else SdaNegIn(sdaQ, i)
  }

  /** Both edges of SCL, for delays of any size. */
  lemma SclEdgesExact(ins: nat -> In, run: nat -> Regs, tR: Count, tF: Count, level: bool)
    requires BusEvents.IsRun(ins, run) && ConstantDelays(ins, tR, tF)
    ensures ReportsTurns(SclLine(ins), level, Delay(tR, tF, level), (n: nat) => SclEdge(ins, run, level, n))
  {
    var line, delay := SclLine(ins), Delay(tR, tF, level);
    var dIns := (n: nat) => SclIn(level, run(n).sclQ, ins(n));
    var dRun := (n: nat) => if level then run(n).det.sclPos else run(n).det.sclNeg;
    forall n: nat ensures WatchesAt(line, level, delay, dIns, n) && Detectors.StepsTo(dIns, dRun, n) {
      Samples(ins, run, n);
      assert BusEvents.StepsTo(ins, run, n) && ins(n).tR == tR && ins(n).tF == tF;
    }
    DetectorReports(line, level, delay, dIns, dRun, (n: nat) => SclEdge(ins, run, level, n));
  }

  /** Both edges of SDA. */
  lemma SdaEdgesExact(ins: nat -> In, run: nat -> Regs, tR: Count, tF: Count, level: bool)
    requires BusEvents.IsRun(ins, run) && ConstantDelays(ins, tR, tF)
    ensures ReportsTurns(SdaLine(ins), level, Delay(tR, tF, level), (n: nat) => SdaEdge(ins, run, level, n))
  {
    var line, delay := SdaLine(ins), Delay(tR, tF, level);
    var dIns := (n: nat) => SdaIn(level, run(n).sdaQ, ins(n));
    var dRun := (n: nat) => if level then run(n).det.sdaPos else run(n).det.sdaNeg;
    forall n: nat ensures WatchesAt(line, level, delay, dIns, n) && Detectors.StepsTo(dIns, dRun, n) {
      Samples(ins, run, n);
      assert BusEvents.StepsTo(ins, run, n) && ins(n).tR == tR && ins(n).tF == tF;
    }
    DetectorReports(line, level, delay, dIns, dRun, (n: nat) => SdaEdge(ins, run, level, n));
  }

  // ---------------------------------------------------------------- levels

  /** The line has been at `level` in `count` samples up to the one before clock `n`; before clock 0 it was high. */
  ghost predicate Steady(line: Line, level: bool, count: nat, n: nat) {
    n >= count && forall m: nat | n - count <= m < n :: Prev(line, m) == level
  }

  /** When a level is reported stable with this delay. */
  ghost predicate StableFor(line: Line, level: bool, delay: Count, n: nat) {
    if delay == 0 then Prev(line, n) == level else delay + 1 < COUNT_SPAN && Steady(line, level, delay + 2, n)
  }

  /** The input of a level detector in clock `n`. */
  ghost predicate IsAt(line: Line, level: bool, input: nat -> bool, n: nat) {
    input(n) == (Prev(line, n) == level)
  }

  lemma LevelReported(line: Line, level: bool, delay: Count, input: nat -> bool, run: nat -> StableRegs, n: nat)
    requires IsStableRun(input, delay, run) && forall m: nat :: IsAt(line, level, input, m)
    ensures Stable(run(n), input(n), delay) <==> StableFor(line, level, delay, n)
  {
    assert IsAt(line, level, input, n);
    if delay > 0 {
      StableExactly(input, delay, run, n);
      if n >= delay + 2 {
        forall m: nat | n - delay - 2 <= m < n ensures input(m) == (Prev(line, m) == level) {
          assert IsAt(line, level, input, m);
        }
      }
    }
  }

  ghost function Sampled(line: Line, level: bool): nat -> bool { (k: nat) => Prev(line, k) == level }

  lemma SclLevel(ins: nat -> In, run: nat -> Regs, tR: Count, tF: Count, level: bool, n: nat)
    requires BusEvents.IsRun(ins, run) && ConstantDelays(ins, tR, tF)
    ensures (if level then SclAt(ins, run, n).stableHigh else SclAt(ins, run, n).stableLow)
       <==> StableFor(SclLine(ins), level, Delay(tR, tF, level), n)
  {
    var input, delay := Sampled(SclLine(ins), level), Delay(tR, tF, level);
    var dRun := (k: nat) => if level then run(k).det.sclHigh else run(k).det.sclLow;
    forall m: nat ensures StableStepsTo(input, delay, dRun, m) {
      Samples(ins, run, m);
      assert BusEvents.StepsTo(ins, run, m) && ins(m).tR == tR && ins(m).tF == tF;
    }
    assert forall m: nat :: IsAt(SclLine(ins), level, input, m);
    LevelReported(SclLine(ins), level, delay, input, dRun, n);
    Samples(ins, run, n);
    assert ins(n).tR == tR && ins(n).tF == tF;
  }

  lemma SdaLevel(ins: nat -> In, run: nat -> Regs, tR: Count, tF: Count, n: nat)
    requires BusEvents.IsRun(ins, run) && ConstantDelays(ins, tR, tF)
    ensures SdaAt(ins, run, n).stableHigh <==> StableFor(SdaLine(ins), true, tR, n)
  {
    var input := Sampled(SdaLine(ins), true);
    var dRun := (k: nat) => run(k).det.sdaHigh;
    forall m: nat ensures StableStepsTo(input, tR, dRun, m) {
      Samples(ins, run, m);
      assert BusEvents.StepsTo(ins, run, m) && ins(m).tR == tR;
    }
    assert forall m: nat :: IsAt(SdaLine(ins), true, input, m);
    LevelReported(SdaLine(ins), true, tR, input, dRun, n);
    Samples(ins, run, n);
    assert ins(n).tR == tR;
  }

  /** The three level outputs hold exactly when the line has been sampled at the level for the delay and two
      clocks, or, without a delay, once. */
  lemma LevelsExact(ins: nat -> In, run: nat -> Regs, tR: Count, tF: Count, n: nat)
    requires BusEvents.IsRun(ins, run) && ConstantDelays(ins, tR, tF)
    ensures SclAt(ins, run, n).stableHigh <==> StableFor(SclLine(ins), true, tR, n)
    ensures SclAt(ins, run, n).stableLow <==> StableFor(SclLine(ins), false, tF, n)
    ensures SdaAt(ins, run, n).stableHigh <==> StableFor(SdaLine(ins), true, tR, n)
    ensures !SdaAt(ins, run, n).stableLow
  {
    SclLevel(ins, run, tR, tF, true, n);
    SclLevel(ins, run, tR, tF, false, n);
    SdaLevel(ins, run, tR, tF, n);
  }

  // ---------------------------------------------------------------- values

  /** Since the last falling edge that was not also a rising one there was a rising one, or there was none. */
  ghost predicate LastWasRise(pos: nat -> bool, neg: nat -> bool, n: nat) {
    forall m: nat | m < n && neg(m) && !pos(m) :: exists k: nat :: m < k < n && pos(k)
  }

  ghost predicate Followed(value: nat -> bool, pos: nat -> bool, neg: nat -> bool, n: nat) {
    value(n + 1) == if pos(n) then true else if neg(n) then false else value(n)
  }

  lemma {:induction false} FollowsEdges(value: nat -> bool, pos: nat -> bool, neg: nat -> bool, n: nat)
    requires value(0) && forall m: nat :: Followed(value, pos, neg, m)
    ensures value(n) <==> LastWasRise(pos, neg, n)
  {
    if n > 0 {
      var p := n - 1;
      FollowsEdges(value, pos, neg, p);
      assert Followed(value, pos, neg, p);
      if pos(p) {
        assert forall m: nat | m < n && neg(m) && !pos(m) :: m < p < n && pos(p);
      } else if neg(p) {
        assert !LastWasRise(pos, neg, n);
      } else {
        if LastWasRise(pos, neg, p) {
          forall m: nat | m < n && neg(m) && !pos(m) ensures exists k: nat :: m < k < n && pos(k) { assert m < p; }
        } else {
          var m: nat :| m < p && neg(m) && !pos(m) && forall k: nat | m < k < p :: !pos(k);
          assert forall k: nat | m < k < n :: !pos(k);
        }
      }
    }
  }

  /** Whatever the delays: the value given for a line is high with a rising edge, and otherwise what the edges
      reported before have left it at, high in the beginning. */
  lemma ValuesFollow(ins: nat -> In, run: nat -> Regs, n: nat)
    requires BusEvents.IsRun(ins, run)
    ensures SclAt(ins, run, n).value
       <==> SclEdge(ins, run, true, n)
            || LastWasRise((m: nat) => SclEdge(ins, run, true, m), (m: nat) => SclEdge(ins, run, false, m), n)
    ensures SdaAt(ins, run, n).value
       <==> SdaEdge(ins, run, true, n)
            || LastWasRise((m: nat) => SdaEdge(ins, run, true, m), (m: nat) => SdaEdge(ins, run, false, m), n)
  {
    var sclPos, sclNeg := (m: nat) => SclEdge(ins, run, true, m), (m: nat) => SclEdge(ins, run, false, m);
    var sdaPos, sdaNeg := (m: nat) => SdaEdge(ins, run, true, m), (m: nat) => SdaEdge(ins, run, false, m);
    var scl, sda := (m: nat) => run(m).sclR, (m: nat) => run(m).sdaR;
    forall m: nat ensures Followed(scl, sclPos, sclNeg, m) && Followed(sda, sdaPos, sdaNeg, m) {
      assert BusEvents.StepsTo(ins, run, m);
    }
    FollowsEdges(scl, sclPos, sclNeg, n);
    FollowsEdges(sda, sdaPos, sdaNeg, n);
  }

  // ---------------------------------------------------------------- START and STOP with delays

  /** The edge of a line that is reported in clock `n`. */
  ghost predicate Edge(line: Line, level: bool, delay: Count, n: nat) {
    if delay == 0 then Turns(line, level, n) else TurnedStably(line, level, delay, n)
  }

  ghost predicate NoBlips(line: Line, level: bool, delay: Count) {
    delay > 0 ==> forall m: nat :: !Blips(line, level, delay, m)
  }

  /** Neither line blips, at either level. */
  ghost predicate Clean(ins: nat -> In, tR: Count, tF: Count) {
    && NoBlips(SclLine(ins), true, tR) && NoBlips(SclLine(ins), false, tF)
    && NoBlips(SdaLine(ins), true, tR) && NoBlips(SdaLine(ins), false, tF)
  }

  lemma CleanEdges(ins: nat -> In, run: nat -> Regs, tR: Count, tF: Count, level: bool, n: nat)
    requires BusEvents.IsRun(ins, run) && ConstantDelays(ins, tR, tF) && Clean(ins, tR, tF)
    ensures SclEdge(ins, run, level, n) <==> Edge(SclLine(ins), level, Delay(tR, tF, level), n)
    ensures SdaEdge(ins, run, level, n) <==> Edge(SdaLine(ins), level, Delay(tR, tF, level), n)
  {
    var scl, sda := (m: nat) => SclEdge(ins, run, level, m), (m: nat) => SdaEdge(ins, run, level, m);
    SclEdgesExact(ins, run, tR, tF, level);
    SdaEdgesExact(ins, run, tR, tF, level);
    assert scl(n) == SclEdge(ins, run, level, n) && sda(n) == SdaEdge(ins, run, level, n);
  }

  /** With any delays and lines that do not blip: a START is detected one clock after the falling edge of SDA is
      due, if SCL has been high long enough and no falling edge of SCL is due with it; a STOP likewise for the
      rising edge, if no edge of SCL is due. */
  lemma DetectsDelayed(ins: nat -> In, run: nat -> Regs, tR: Count, tF: Count, n: nat)
    requires BusEvents.IsRun(ins, run) && ConstantDelays(ins, tR, tF) && Clean(ins, tR, tF)
    ensures var scl, sda := SclLine(ins), SdaLine(ins);
            var ready := ins(n).enable && ins(n + 1).enable && StableFor(scl, true, tR, n) && !Edge(scl, false, tF, n);
            && (Started(ins, run, n + 1) <==> ready && Edge(sda, false, tF, n))
            && (Stopped(ins, run, n + 1) <==> ready && Edge(sda, true, tR, n) && !Edge(scl, true, tR, n))
  {
    PendingIsDelayedTrigger(ins, run, n);
    LevelsExact(ins, run, tR, tF, n);
    CleanEdges(ins, run, tR, tF, true, n);
    CleanEdges(ins, run, tR, tF, false, n);
  }
}
