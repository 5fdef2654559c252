/** One interrupt request `src/interrupt.sv`, with its status bit kept in a register that takes `sts_o` when
    `sts_we_o` is set. */
module Interrupts {
  datatype In = In(irq: bool, force: bool, clr: bool, stsEna: bool, sigEna: bool) {
    predicate Request() { irq || force }
  }

  datatype Regs = Regs(irqR: bool, trg: bool, sts: bool)

  const RESET := Regs(false, false, false)

  /** Triggered on a rising edge, one clock later, or by the level itself. */
  predicate Trigger(edge: bool, r: Regs, i: In) { if edge then r.trg else i.Request() }

  predicate Sets(edge: bool, r: Regs, i: In) { Trigger(edge, r, i) && i.stsEna }

  function Next(edge: bool, r: Regs, i: In): Regs {
    Regs(i.Request(), i.Request() && !r.irqR, if Sets(edge, r, i) then true else if i.clr then false else r.sts)
  }

  class Interrupt {
    const edge: bool
    var irqR: bool
    var trg: bool
    var sts: bool

    ghost function Contents(): Regs
      reads this
    {
      Regs(irqR, trg, sts)
    }

    constructor (edge: bool)
      ensures this.edge == edge && Contents() == RESET
    {
      this.edge, irqR, trg, sts := edge, false, false, false;
    }

    /** One clock; `irqO` is the request passed on. */
    method Clock(i: In) returns (irqO: bool)
      modifies this
      ensures irqO == (old(sts) && i.sigEna)
      ensures Contents() == Next(edge, old(Contents()), i)
    {
      irqO := sts && i.sigEna;
      var irq := i.irq || i.force;
      var trigger := if edge then trg else irq;
      var stsO, stsWe := false, false;
      if trigger && i.stsEna {
        stsO, stsWe := true, true;
      } else if i.clr {
        stsO, stsWe := false, true;
      }
      trg := irq && !irqR;
      irqR := irq;
      if stsWe { sts := stsO; }
    }
  }

  // ---------------------------------------------------------------- runs

  ghost predicate StepsTo(edge: bool, ins: nat -> In, run: nat -> Regs, n: nat) {
    run(n + 1) == Next(edge, run(n), ins(n))
  }

  ghost predicate IsRun(edge: bool, ins: nat -> In, run: nat -> Regs) {
    run(0) == RESET && forall n: nat :: StepsTo(edge, ins, run, n)
  }

  /** The combined request rises in clock `n`. */
  ghost predicate Rises(ins: nat -> In, n: nat) {
    ins(n).Request() && (n == 0 || !ins(n - 1).Request())
  }

  /** What triggers in clock `n`, in terms of the inputs alone: an edge in the clock before, or the level. */
  ghost predicate Triggers(edge: bool, ins: nat -> In, n: nat) {
    if edge then n > 0 && Rises(ins, n - 1) else ins(n).Request()
  }

  lemma TriggerIs(edge: bool, ins: nat -> In, run: nat -> Regs, n: nat)
    requires IsRun(edge, ins, run)
    ensures Trigger(edge, run(n), ins(n)) <==> Triggers(edge, ins, n)
  {
    if n > 0 { assert StepsTo(edge, ins, run, n - 1); }
    if n > 1 { assert StepsTo(edge, ins, run, n - 2); }
  }

  /** An enabled trigger in clock `n`; it wins over a clear in the same clock. */
  ghost predicate SetAt(edge: bool, ins: nat -> In, n: nat) { Triggers(edge, ins, n) && ins(n).stsEna }

  ghost predicate ClearedAt(edge: bool, ins: nat -> In, n: nat) { ins(n).clr && !SetAt(edge, ins, n) }

  ghost predicate SetBefore(edge: bool, ins: nat -> In, m: nat, n: nat) {
    m < n && SetAt(edge, ins, m) && forall k: nat | m < k < n :: !ClearedAt(edge, ins, k)
  }

  /** The status is set exactly when some enabled trigger has had no effective clear since; in particular a
      clear never loses a trigger of the same clock. */
  lemma {:induction false} StatusIff(edge: bool, ins: nat -> In, run: nat -> Regs, n: nat)
    requires IsRun(edge, ins, run)
    ensures run(n).sts <==> exists m: nat :: SetBefore(edge, ins, m, n)
  {
    if n > 0 {
      var p := n - 1;
      StatusIff(edge, ins, run, p);
      assert StepsTo(edge, ins, run, p);
      TriggerIs(edge, ins, run, p);
      if SetAt(edge, ins, p) {
        assert SetBefore(edge, ins, p, n);
      } else if m: nat :| SetBefore(edge, ins, m, n) {
        assert m < p;
        assert SetBefore(edge, ins, m, p) && !ClearedAt(edge, ins, p);
      } else if run(p).sts {
        var m: nat :| SetBefore(edge, ins, m, p);
        assert !SetBefore(edge, ins, m, n);
      }
    }
  }

  /** In how many of the first `n` clocks `p` holds. */
  ghost function Count(p: nat -> bool, n: nat): nat {
    if n == 0 then 0 else Count(p, n - 1) + (if p(n - 1) then 1 else 0)
  }

  /** In edge mode the triggers are the rising edges of the request, one clock later and as many. */
  lemma {:induction false} EdgesOneToOne(ins: nat -> In, run: nat -> Regs, n: nat)
    requires IsRun(true, ins, run)
    ensures run(n + 1).trg <==> Rises(ins, n)
    ensures Count((k: nat) => run(k).trg, n + 1) == Count((k: nat) => Rises(ins, k), n)
  {
    TriggerIs(true, ins, run, n + 1);
    TriggerIs(true, ins, run, 0);
    if n > 0 { EdgesOneToOne(ins, run, n - 1); }
    TriggerIs(true, ins, run, n);
  }

  /** What is forced by software is treated as what the hardware requests: only whether one of them is up counts. */
  lemma {:induction false} ForceIsRequest(edge: bool, ins: nat -> In, forced: nat -> In, run: nat -> Regs,
                                          run': nat -> Regs, n: nat)
    requires IsRun(edge, ins, run) && IsRun(edge, forced, run')
    requires forall k: nat :: SwapsForce(ins(k), forced(k))
    ensures run'(n) == run(n)
  {
    if n > 0 {
      ForceIsRequest(edge, ins, forced, run, run', n - 1);
      assert StepsTo(edge, ins, run, n - 1) && StepsTo(edge, forced, run', n - 1);
      assert SwapsForce(ins(n - 1), forced(n - 1));
    }
  }

  predicate SwapsForce(i: In, j: In) { j == i.(irq := i.force, force := i.irq) }
}
