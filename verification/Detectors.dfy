/** The two delay detectors in front of the bus monitor: `src/ctrl/edge_detector.sv` and
    `src/ctrl/stable_high_detector.sv`. */
module Detectors {
  import opened Counts

  /** Registers of an edge detector; the counter is 20 bits wide. */
  datatype EdgeRegs = EdgeRegs(count: Count, checking: bool, detected: bool)

  const EDGE_RESET := EdgeRegs(0, false, false)

  /** `detect_line`: the line, inverted when the detector looks for a falling edge. */
  datatype EdgeIn = EdgeIn(trigger: bool, detectLine: bool, delay: Count)

  predicate Detect(r: EdgeRegs, i: EdgeIn) { if i.delay == 0 then i.trigger else r.detected }

  function EdgeNext(r: EdgeRegs, i: EdgeIn): EdgeRegs {
    if i.trigger then EdgeRegs(0, true, r.detected)
    else if r.checking && i.detectLine then
      EdgeRegs(Succ(r.count), r.count < i.delay, r.count >= i.delay || r.detected)
    else EdgeRegs(r.count, r.checking, false)
  }

  class EdgeDetector {
    var count: Count
    var checkInProgress: bool
    var detectInternal: bool

    ghost function Contents(): EdgeRegs
      reads this
    {
      EdgeRegs(count, checkInProgress, detectInternal)
    }

    constructor ()
      ensures Contents() == EDGE_RESET
    {
      count, checkInProgress, detectInternal := 0, false, false;
    }

    method Clock(i: EdgeIn) returns (detect: bool)
      modifies this
      ensures detect == Detect(old(Contents()), i)
      ensures Contents() == EdgeNext(old(Contents()), i)
    {
      detect := if i.delay == 0 then i.trigger else detectInternal;
      if i.trigger {
        checkInProgress, count := true, 0;
      } else if checkInProgress && i.detectLine {
        if count >= i.delay { checkInProgress, detectInternal := false, true; }
        count := Succ(count);
      } else {
        detectInternal := false;
      }
    }
  }

  datatype StableRegs = StableRegs(count: Count, line: bool)

  const STABLE_RESET := StableRegs(0, false)

  predicate Stable(r: StableRegs, line: bool, delay: Count) {
    if delay == 0 then line else r.count > delay && r.line
  }

  function StableNext(r: StableRegs, line: bool, delay: Count): StableRegs {
    StableRegs(if r.line && r.count <= delay then Succ(r.count)
               else if !r.line then 0 else r.count,
               line)
  }

  class StableHighDetector {
    var count: Count
    var line: bool

    ghost function Contents(): StableRegs
      reads this
    {
      StableRegs(count, line)
    }

    constructor ()
      ensures Contents() == STABLE_RESET
    {
      count, line := 0, false;
    }

    method Clock(lineI: bool, delay: Count) returns (stable: bool)
      modifies this
      ensures stable == Stable(old(Contents()), lineI, delay)
      ensures Contents() == StableNext(old(Contents()), lineI, delay)
    {
      var doCount, stableInternal := true, false;
      if count > delay { doCount, stableInternal := false, line; }
      stable := if delay == 0 then lineI else stableInternal;
      if line && doCount { count := Succ(count); } else if !line { count := 0; }
      line := lineI;
    }
  }

  // ---------------------------------------------------------------- what an edge detector detects

  ghost predicate StepsTo(ins: nat -> EdgeIn, run: nat -> EdgeRegs, n: nat) {
    run(n + 1) == EdgeNext(run(n), ins(n))
  }

  ghost predicate IsRun(ins: nat -> EdgeIn, run: nat -> EdgeRegs) {
    run(0) == EDGE_RESET && forall n: nat :: StepsTo(ins, run, n)
  }

  /** The trigger comes with the edge and the line follows it in the next clock, as the sampled line does. */
  ghost predicate EdgeAt(ins: nat -> EdgeIn, delay: Count, n: nat) {
    ins(n).delay == delay && (ins(n).trigger <==> !ins(n).detectLine && ins(n + 1).detectLine)
  }

  /** The line has been at the level of the edge since the trigger in clock `t`, up to clock `n` excluded. */
  ghost predicate StableSince(ins: nat -> EdgeIn, t: nat, n: nat) {
    t < n && ins(t).trigger && forall m: nat | t < m < n :: ins(m).detectLine
  }

  /** What the header of the source promises: `detect` is up exactly one clock, after the line has been
      stable for the delay since the trigger. */
  ghost predicate Promised(ins: nat -> EdgeIn, delay: Count, n: nat) {
    n >= delay + 2 && StableSince(ins, n - delay - 2, n)
  }

  /** A new trigger in the very clock in which a detection is reported. */
  ghost predicate Disturbed(ins: nat -> EdgeIn, run: nat -> EdgeRegs, m: nat) {
    run(m).detected && ins(m).trigger
  }

  /** While a check runs, the counter says how long the line has been stable since the trigger. */
  ghost predicate Counting(ins: nat -> EdgeIn, r: EdgeRegs, delay: Count, n: nat) {
    && (r.checking ==> n > 0 && !r.detected)
    && (r.checking && ins(n).detectLine ==>
          r.count <= delay && r.count + 1 <= n && StableSince(ins, n - 1 - r.count, n))
  }

  lemma CountingStep(ins: nat -> EdgeIn, r: EdgeRegs, delay: Count, n: nat)
    requires 0 < delay && EdgeAt(ins, delay, n) && Counting(ins, r, delay, n)
    requires !(r.detected && ins(n).trigger)
    ensures Counting(ins, EdgeNext(r, ins(n)), delay, n + 1)
    ensures EdgeNext(r, ins(n)).detected ==> n >= delay + 1 && StableSince(ins, n - 1 - delay, n + 1)
  {
    var r' := EdgeNext(r, ins(n));
    if !ins(n).trigger && r.checking && ins(n).detectLine {
      assert StableSince(ins, n - 1 - r.count, n + 1);
    }
  }

  lemma {:induction false} CountsUndisturbed(ins: nat -> EdgeIn, run: nat -> EdgeRegs, delay: Count, n: nat)
    requires 0 < delay && IsRun(ins, run)
    requires forall m: nat | m < n :: EdgeAt(ins, delay, m)
    requires forall m: nat | m < n :: !Disturbed(ins, run, m)
    ensures Counting(ins, run(n), delay, n)
    ensures run(n).detected ==> Promised(ins, delay, n)
  {
    if n > 0 {
      CountsUndisturbed(ins, run, delay, n - 1);
      assert StepsTo(ins, run, n - 1) && EdgeAt(ins, delay, n - 1) && !Disturbed(ins, run, n - 1);
      CountingStep(ins, run(n - 1), delay, n - 1);
    }
  }

  lemma {:induction false} CountsUp(ins: nat -> EdgeIn, run: nat -> EdgeRegs, delay: Count, t: nat, k: nat)
    requires 0 < delay && IsRun(ins, run) && k <= delay
    requires ins(t).trigger && forall m: nat | t < m <= t + k :: EdgeAt(ins, delay, m) && ins(m).detectLine
    ensures run(t + 1 + k).checking && run(t + 1 + k).count == k
  {
    if k > 0 {
      CountsUp(ins, run, delay, t, k - 1);
      assert EdgeAt(ins, delay, t + k);
      assert StepsTo(ins, run, t + k);
    } else {
      assert StepsTo(ins, run, t);
    }
  }

  /** A promised detection is always reported. */
  lemma PromiseIsReported(ins: nat -> EdgeIn, run: nat -> EdgeRegs, delay: Count, n: nat)
    requires 0 < delay && IsRun(ins, run)
    requires forall m: nat | m < n :: EdgeAt(ins, delay, m)
    requires Promised(ins, delay, n)
    ensures run(n).detected
  {
    var t := n - delay - 2;
    CountsUp(ins, run, delay, t, delay);
    assert EdgeAt(ins, delay, n - 1) && StepsTo(ins, run, n - 1);
  }

  /** The line leaves its level in the very clock in which its stability is due to be reported. */
  ghost predicate Glitch(ins: nat -> EdgeIn, delay: Count, m: nat) { Promised(ins, delay, m) && ins(m).trigger }

  lemma NoGlitchNoDisturbance(ins: nat -> EdgeIn, run: nat -> EdgeRegs, delay: Count, n: nat)
    requires 0 < delay && IsRun(ins, run) && forall m: nat :: EdgeAt(ins, delay, m)
    requires forall m: nat :: !Glitch(ins, delay, m)
    ensures forall m: nat | m < n :: !Disturbed(ins, run, m)
  {
    if n > 0 {
      NoGlitchNoDisturbance(ins, run, delay, n - 1);
      CountsUndisturbed(ins, run, delay, n - 1);
      assert !Glitch(ins, delay, n - 1);
    }
  }

  /** The header's promise holds over a run exactly when the line never leaves its level just when its
      stability is due to be reported: the detection then stays up although the line has left. */
  lemma DetectsAsPromised(ins: nat -> EdgeIn, run: nat -> EdgeRegs, delay: Count)
    requires 0 < delay && IsRun(ins, run) && forall m: nat :: EdgeAt(ins, delay, m)
    ensures (forall n: nat :: run(n).detected <==> Promised(ins, delay, n))
       <==> (forall m: nat :: !Glitch(ins, delay, m))
  {
    if forall m: nat :: !Glitch(ins, delay, m) {
      forall n: nat ensures run(n).detected <==> Promised(ins, delay, n) {
        NoGlitchNoDisturbance(ins, run, delay, n);
        CountsUndisturbed(ins, run, delay, n);
        if Promised(ins, delay, n) { PromiseIsReported(ins, run, delay, n); }
      }
    } else {
      var m: nat :| Glitch(ins, delay, m);
      PromiseIsReported(ins, run, delay, m);
      assert StepsTo(ins, run, m) && EdgeAt(ins, delay, m);
      assert run(m + 1).detected && !Promised(ins, delay, m + 1);
    }
  }

  /** Such a run: the line rises, and drops for one clock just when the rise is reported. */
  lemma DisturbedRun(ins: nat -> EdgeIn, run: nat -> EdgeRegs, delay: Count)
    requires 0 < delay && IsRun(ins, run) && forall m: nat :: EdgeAt(ins, delay, m)
    requires forall m: nat :: ins(m).detectLine <==> m != 0 && m != delay + 2
    ensures Glitch(ins, delay, delay + 2) && Disturbed(ins, run, delay + 2)
  {
    assert EdgeAt(ins, delay, 0) && EdgeAt(ins, delay, delay + 2);
    assert ins(1).detectLine && ins(delay + 3).detectLine;
    assert StableSince(ins, 0, delay + 2);
    PromiseIsReported(ins, run, delay, delay + 2);
  }

  /** A detection that was disturbed stays up while the line stays at the level it came back to, for the delay and two
      clocks from the disturbance on, and then falls for good. */
  lemma {:induction false} DisturbedLasts(ins: nat -> EdgeIn, run: nat -> EdgeRegs, delay: Count, m: nat, n: nat)
    requires 0 < delay && IsRun(ins, run) && forall k: nat :: EdgeAt(ins, delay, k)
    requires Disturbed(ins, run, m) && m < n && forall k: nat | m < k < n :: ins(k).detectLine
    ensures run(n).detected <==> n <= m + delay + 2
    ensures run(n).checking <==> n <= m + delay + 1
    ensures run(n).checking ==> run(n).count == n - m - 1
  {
    assert StepsTo(ins, run, n - 1) && EdgeAt(ins, delay, n - 1);
    if n > m + 1 { DisturbedLasts(ins, run, delay, m, n - 1); }
  }

  /** Nor does it outlast the level, unless the line comes back in the next clock. */
  lemma FallsWithLine(ins: nat -> EdgeIn, run: nat -> EdgeRegs, delay: Count, m: nat)
    requires 0 < delay && IsRun(ins, run) && EdgeAt(ins, delay, m)
    requires run(m).detected && !ins(m).detectLine
    ensures run(m + 1).detected <==> ins(m + 1).detectLine
  {
    assert StepsTo(ins, run, m);
  }

  // ---------------------------------------------------------------- what a stable-high detector reports

  ghost predicate StableStepsTo(line: nat -> bool, delay: Count, run: nat -> StableRegs, n: nat) {
    run(n + 1) == StableNext(run(n), line(n), delay)
  }

  ghost predicate IsStableRun(line: nat -> bool, delay: Count, run: nat -> StableRegs) {
    run(0) == STABLE_RESET && forall n: nat :: StableStepsTo(line, delay, run, n)
  }

  ghost predicate HighIn(line: nat -> bool, from: int, to: int) { forall m: nat | from <= m < to :: line(m) }

  /** The counter is the number of clocks for which the sample before the last has been high, up to one
      above the delay. */
  ghost predicate CountsHigh(line: nat -> bool, delay: Count, r: StableRegs, n: nat) {
    && r.line == (n > 0 && line(n - 1))
    && r.count <= delay + 1 && (r.count > 0 ==> r.count < n) && HighIn(line, n - 1 - r.count, n - 1)
    && (r.count <= delay && r.count + 1 < n ==> !line(n - 2 - r.count))
  }

  lemma {:induction false} CountsHighAlways(line: nat -> bool, delay: Count, run: nat -> StableRegs, n: nat)
    requires IsStableRun(line, delay, run) && delay + 1 < COUNT_SPAN
    ensures CountsHigh(line, delay, run(n), n)
  {
    if n > 0 {
      CountsHighAlways(line, delay, run, n - 1);
      assert StableStepsTo(line, delay, run, n - 1);
    }
  }

  /** With a delay, the line is reported stable exactly when its last `delay + 2` samples were high, for every
      delay but the largest: the counter can not get above that one, and nothing is ever reported. */
  lemma StableExactly(line: nat -> bool, delay: Count, run: nat -> StableRegs, n: nat)
    requires IsStableRun(line, delay, run) && delay > 0
    ensures Stable(run(n), line(n), delay) <==>
              delay + 1 < COUNT_SPAN && n >= delay + 2 && HighIn(line, n - delay - 2, n)
  {
    if delay + 1 < COUNT_SPAN {
      CountsHighAlways(line, delay, run, n);
      var c := run(n).count;
      if n >= delay + 2 && c <= delay { assert !line(n - 2 - c); }
    }
  }
}
