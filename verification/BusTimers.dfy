/** The bus condition timers `src/ctrl/bus_timers.sv`: how long the bus has been free. */
module BusTimers {
  import opened Counts

  const WORD_SPAN := 0x1_0000_0000

  datatype Times = Times(free: Count, idle: Count, available: Count)

  datatype Regs = Regs(enable: bool, counter: nat)

  const RESET := Regs(true, 0)

  datatype In = In(enable: bool, resetCounter: bool, t: Times)

  datatype Out = Out(busy: bool, free: bool, idle: bool, available: bool)

  /** A time less one, in 20 bits: zero wraps to the largest number. */
  function Threshold(t: Count): Count { if t == 0 then COUNT_SPAN - 1 else t - 1 }

  predicate Elapsed(r: Regs, t: Count) { r.counter > Threshold(t) }

  function Outputs(r: Regs, t: Times): Out {
    var free, idle, available := Elapsed(r, t.free), Elapsed(r, t.idle), Elapsed(r, t.available);
    Out(!(free || idle || available), free, idle, available)
  }

  /** The counter is 32 bits wide. */
  function Next(r: Regs, i: In): Regs {
    Regs(i.enable && !Elapsed(r, i.t.idle),
         if i.resetCounter then 0 else if r.enable then (r.counter + 1) % WORD_SPAN else r.counter)
  }

  class Timers {
    var enable: bool
    var busStateCounter: nat

    ghost function Contents(): Regs
      reads this
    {
      Regs(enable, busStateCounter)
    }

    constructor ()
      ensures Contents() == RESET
    {
      enable, busStateCounter := true, 0;
    }

    method Clock(i: In) returns (o: Out)
      modifies this
      ensures o == Outputs(old(Contents()), i.t)
      ensures Contents() == Next(old(Contents()), i)
    {
      var free, idle := busStateCounter > Threshold(i.t.free), busStateCounter > Threshold(i.t.idle);
      var available := busStateCounter > Threshold(i.t.available);
      o := Out(!(free || idle || available), free, idle, available);
      if i.resetCounter {
        busStateCounter := 0;
      } else if enable {
        busStateCounter := (busStateCounter + 1) % WORD_SPAN;
      }
      enable := i.enable && !idle;
    }
  }

  // ---------------------------------------------------------------- runs

  ghost predicate StepsTo(ins: nat -> In, run: nat -> Regs, n: nat) { run(n + 1) == Next(run(n), ins(n)) }

  ghost predicate IsRun(ins: nat -> In, run: nat -> Regs) {
    run(0) == RESET && forall n: nat :: StepsTo(ins, run, n)
  }

  ghost predicate Constant(ins: nat -> In, t: Times) { forall n: nat :: ins(n).t == t }

  /** Clocks since the counter was last reset, or since power-on. */
  ghost function Since(ins: nat -> In, n: nat): nat {
    if n == 0 || ins(n - 1).resetCounter then 0 else Since(ins, n - 1) + 1
  }

  /** Whatever the inputs, times that change in mid-count included, the counter stops just above 2^20, so
      its 32 bits never overflow. */
  lemma {:induction false} NeverOverflows(ins: nat -> In, run: nat -> Regs, n: nat)
    requires IsRun(ins, run)
    ensures run(n).counter <= COUNT_SPAN + 1 && (run(n).enable ==> run(n).counter <= COUNT_SPAN)
  {
    if n > 0 {
      NeverOverflows(ins, run, n - 1);
      assert StepsTo(ins, run, n - 1);
    }
  }

  /** With constant times it stops one above the threshold of idle plus one. */
  lemma {:induction false} StopsAfterIdle(ins: nat -> In, run: nat -> Regs, t: Times, n: nat)
    requires IsRun(ins, run) && Constant(ins, t)
    ensures run(n).counter <= Threshold(t.idle) + 2
    ensures run(n).enable ==> run(n).counter <= Threshold(t.idle) + 1
  {
    if n > 0 {
      StopsAfterIdle(ins, run, t, n - 1);
      assert StepsTo(ins, run, n - 1) && ins(n - 1).t == t;
    }
  }

  lemma {:induction false} CountsNoFaster(ins: nat -> In, run: nat -> Regs, n: nat)
    requires IsRun(ins, run)
    ensures run(n).counter <= Since(ins, n)
  {
    if n > 0 {
      CountsNoFaster(ins, run, n - 1);
      NeverOverflows(ins, run, n - 1);
      assert StepsTo(ins, run, n - 1);
    }
  }

  /** The clocks that a time stands for. */
  function Clocks(t: Count): nat { if t == 0 then COUNT_SPAN else t }

  /** A condition is reported only when its time has passed since the last reset of the counter, even if
      counting was disabled or times were changed meanwhile, and a time of zero means 2^20. */
  lemma NotTooEarly(ins: nat -> In, run: nat -> Regs, n: nat, t: Count)
    requires IsRun(ins, run) && Elapsed(run(n), t)
    ensures Since(ins, n) >= Clocks(t)
  {
    CountsNoFaster(ins, run, n);
  }

  /** Once reported, it stays until the counter is reset. */
  lemma {:induction false} StaysElapsed(ins: nat -> In, run: nat -> Regs, n: nat, m: nat, t: Count)
    requires IsRun(ins, run) && Elapsed(run(n), t) && n <= m
    requires forall k: nat | n <= k < m :: !ins(k).resetCounter
    ensures Elapsed(run(m), t)
  {
    if n < m {
      StaysElapsed(ins, run, n, m - 1, t);
      NeverOverflows(ins, run, m - 1);
      assert StepsTo(ins, run, m - 1);
    }
  }

  /** While the timers are enabled: how many clocks late counting starts.  A reset that ends an idle bus
      finds the enable register still low. */
  ghost function Late(ins: nat -> In, run: nat -> Regs, n: nat): (late: nat)
    ensures late <= 1
    decreases n
  {
    if Since(ins, n) == 0 || n == 0 then (if run(n).enable then 0 else 1) else Late(ins, run, n - 1)
  }

  lemma {:induction false} ExactCount(ins: nat -> In, run: nat -> Regs, t: Times, n: nat)
    requires IsRun(ins, run) && Constant(ins, t) && forall k: nat :: ins(k).enable
    ensures var k, late := Since(ins, n), Late(ins, run, n);
            var counted := if k < late then 0 else k - late;
            && run(n).counter == (if counted <= Threshold(t.idle) + 2 then counted else Threshold(t.idle) + 2)
            && (run(n).enable <==> k >= late && counted <= Threshold(t.idle) + 1)
  {
    if n > 0 {
      ExactCount(ins, run, t, n - 1);
      assert StepsTo(ins, run, n - 1) && ins(n - 1).t == t && ins(n - 1).enable;
    }
  }

  /** Exact timing: enabled timers with constant times report a condition not later than idle from exactly
      its time on since the last reset, a time of zero being 2^20, and one clock more when that reset ended
      an idle bus. */
  lemma ElapsedExactly(ins: nat -> In, run: nat -> Regs, t: Times, n: nat, time: Count)
    requires IsRun(ins, run) && Constant(ins, t) && forall k: nat :: ins(k).enable
    requires Threshold(time) <= Threshold(t.idle)
    ensures Elapsed(run(n), time) <==>
              Since(ins, n) >= Clocks(time) + Late(ins, run, n)
  {
    ExactCount(ins, run, t, n);
  }

  /** Each output of a run with its own time, whatever the inputs and however the times change: not too early. */
  lemma OutputsNotTooEarly(ins: nat -> In, run: nat -> Regs, n: nat)
    requires IsRun(ins, run)
    ensures var o, t := Outputs(run(n), ins(n).t), ins(n).t;
            && (o.free ==> Since(ins, n) >= Clocks(t.free))
            && (o.available ==> Since(ins, n) >= Clocks(t.available))
            && (o.idle ==> Since(ins, n) >= Clocks(t.idle))
            && (o.busy <==> !o.free && !o.available && !o.idle)
  {
    CountsNoFaster(ins, run, n);
  }

  /** And with constant times, of which the idle time is the longest, exactly then. */
  lemma OutputsExactly(ins: nat -> In, run: nat -> Regs, t: Times, n: nat)
    requires IsRun(ins, run) && Constant(ins, t) && forall k: nat :: ins(k).enable
    requires Threshold(t.free) <= Threshold(t.idle) && Threshold(t.available) <= Threshold(t.idle)
    ensures var o, late := Outputs(run(n), ins(n).t), Late(ins, run, n);
            && (o.free <==> Since(ins, n) >= Clocks(t.free) + late)
            && (o.available <==> Since(ins, n) >= Clocks(t.available) + late)
            && (o.idle <==> Since(ins, n) >= Clocks(t.idle) + late)
  {
    ExactCount(ins, run, t, n);
    assert ins(n).t == t;
  }

  /** Disabled timers hold their counter, from the second clock on, until it is reset. */
  lemma {:induction false} DisabledHolds(ins: nat -> In, run: nat -> Regs, n: nat, m: nat)
    requires IsRun(ins, run) && 0 < n <= m
    requires forall k: nat | n - 1 <= k < m :: !ins(k).enable
    requires forall k: nat | n <= k < m :: !ins(k).resetCounter
    ensures run(m).counter == run(n).counter && !run(m).enable
  {
    assert StepsTo(ins, run, n - 1);
    if n < m {
      DisabledHolds(ins, run, n, m - 1);
      assert StepsTo(ins, run, m - 1);
    }
  }

  lemma LateAfterIdle(ins: nat -> In, run: nat -> Regs, n: nat)
    requires IsRun(ins, run) && ins(n).resetCounter && ins(n).enable
    ensures Late(ins, run, n + 1) == if Elapsed(run(n), ins(n).t.idle) then 1 else 0
  {
    assert StepsTo(ins, run, n);
  }

  /** Idle implies available and available implies free when the thresholds are in that order; then the bus
      is busy exactly until it is free. */
  lemma Ordered(r: Regs, t: Times)
    requires Threshold(t.free) <= Threshold(t.available) <= Threshold(t.idle)
    ensures var o := Outputs(r, t);
            (o.idle ==> o.available) && (o.available ==> o.free) && (o.busy <==> !o.free)
  {
  }

  /** For times in the order of the specification it holds exactly when the shortest is not left at zero,
      unless all are. */
  lemma OrderedIff(t: Times)
    requires t.free <= t.available <= t.idle
    ensures (forall r: Regs :: var o := Outputs(r, t); (o.idle ==> o.available) && (o.available ==> o.free))
       <==> t.free > 0 || t.idle == 0
  {
    if t.free == 0 && t.available > 0 {
      var o := Outputs(Regs(true, t.available), t);
      assert o.available && !o.free;
    } else if t.free == 0 && t.idle > 0 {
      var o := Outputs(Regs(true, t.idle), t);
      assert o.idle && !o.available;
    } else {
      forall r: Regs ensures var o := Outputs(r, t); (o.idle ==> o.available) && (o.available ==> o.free) {
        Ordered(r, t);
      }
    }
  }
}
