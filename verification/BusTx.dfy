/** The bit transmitter `src/ctrl/bus_tx.sv`: drives one bit on SDA with a setup delay after the
    falling SCL edge and a hold delay after the next one.

    `Next` and the output functions say what one clock does to the registers; the class `Transmitter`
    is the module itself, with its registers as fields and its always-blocks as statements.  The lemmas
    are about runs of `Next` under inputs that may be anything the lemma does not exclude. */
module BusTx {
  import opened Counts

  /** Timing inputs, in clock cycles. */
  datatype Timing = Timing(rise: Count, setup: Count, hold: Count) {
    /** `t_sd_i`: a 20-bit sum, so it wraps. */
    function SetupDelay(): Count { (rise + setup) % COUNT_SPAN }
  }

  datatype State = Idle | AwaitClockNegedge | SetupData | TransmitData | HoldData

  datatype Regs = Regs(state: State, tcount: Count, tSd: Count, tSdZ: bool, tHdZ: bool) {
    /** The two setup registers are loaded from one wire, so they agree after the first clock. */
    predicate Consistent() { tSdZ == (tSd == 0) }

    /** The delay registers have caught up with the timing inputs. */
    predicate Settled(tm: Timing) {
      tSd == tm.SetupDelay() && tSdZ == (tm.SetupDelay() == 0) && tHdZ == (tm.hold == 0)
    }
  }

  datatype In = In(tm: Timing, drive: bool, value: bool, sclNegedge: bool, sclStableLow: bool) {
    /** The condition on which a waiting bit starts its setup time. */
    predicate LowSeen() { sclStableLow || sclNegedge }
  }

  datatype Out = Out(sda: bool, done: bool, idle: bool)

  function Sda(r: Regs, i: In): bool {
    match r.state
    case Idle => if i.drive && r.tSdZ && i.LowSeen() then i.value else true
    case AwaitClockNegedge => if r.tSdZ && i.sclNegedge then i.value else true
    case SetupData => if r.tcount == 1 then i.value else true
    case TransmitData => i.value
    case HoldData => if r.tcount != 0 then i.value else true
  }

  predicate Done(r: Regs, i: In) {
    || (r.state.TransmitData? && i.sclNegedge && r.tHdZ)
    || (r.state.HoldData? && r.tcount == 0)
  }

  function Outputs(r: Regs, i: In): Out { Out(Sda(r, i), Done(r, i), r.state.Idle?) }

  function NextState(r: Regs, i: In): State {
    if !i.drive then Idle
    else match r.state
      case Idle =>
        if i.LowSeen() then (if r.tSdZ then TransmitData else SetupData) else AwaitClockNegedge
      case AwaitClockNegedge =>
        if i.LowSeen() then (if r.tSdZ then TransmitData else SetupData) else AwaitClockNegedge
      case SetupData => if r.tcount == 1 then TransmitData else SetupData
      case TransmitData => if i.sclNegedge then (if r.tHdZ then Idle else HoldData) else TransmitData
      case HoldData => if r.tcount == 0 && i.sclStableLow then Idle else HoldData
  }

  function NextCount(r: Regs, i: In): Count {
    if (r.state.Idle? && i.drive) || r.state.AwaitClockNegedge? then r.tSd
    else if r.state.TransmitData? && i.sclNegedge then (if i.tm.hold > 0 then i.tm.hold else 1)
    else if r.tcount != 0 then r.tcount - 1
    else 0
  }

  function Next(r: Regs, i: In): Regs {
    Regs(NextState(r, i), NextCount(r, i),
         i.tm.SetupDelay(), i.tm.SetupDelay() == 0, i.tm.hold == 0)
  }

  /** The registers after `n` clocks of the input run `ins`. */
  ghost function At(r0: Regs, ins: nat -> In, n: nat): Regs {
    if n == 0 then r0 else Next(At(r0, ins, n - 1), ins(n - 1))
  }

  datatype CountSelect = tSetupData | tHoldData | tNoDelay

  /** What it puts out in clock `n`. */
  ghost function OutAt(r0: Regs, ins: nat -> In, n: nat): Out { Outputs(At(r0, ins, n), ins(n)) }

  class Transmitter {
    var state: State
    var tcount: Count
    var tSd: Count
    var tSdZ: bool
    var tHdZ: bool

    ghost function Contents(): Regs
      reads this
    {
      Regs(state, tcount, tSd, tSdZ, tHdZ)
    }

    /** Asynchronous reset leaves the three delay registers alone; they hold whatever they held. */
    constructor (tSd: Count, tSdZ: bool, tHdZ: bool)
      ensures Contents() == Regs(Idle, 0, tSd, tSdZ, tHdZ)
    {
      this.state, this.tcount := Idle, 0;
      this.tSd, this.tSdZ, this.tHdZ := tSd, tSdZ, tHdZ;
    }

    /** The block `tx_fsm_outputs`. */
    method FsmOutputs(i: In) returns (sda: bool, done: bool, loadTcount: bool, tcountSel: CountSelect)
      ensures sda == Sda(Contents(), i) && done == Done(Contents(), i)
      ensures loadTcount <==> ((state.Idle? && i.drive) || state.AwaitClockNegedge?
                               || (state.TransmitData? && i.sclNegedge))
      ensures loadTcount ==> tcountSel == if state.TransmitData? then tHoldData else tSetupData
    {
      sda, done, loadTcount, tcountSel := true, false, false, tNoDelay;
      match state {
        case Idle =>
          if i.drive {
            tcountSel, loadTcount := tSetupData, true;
            if tSdZ && (i.sclStableLow || i.sclNegedge) { sda := i.value; }
          }
        case AwaitClockNegedge =>
          tcountSel, loadTcount := tSetupData, true;
          if tSdZ && i.sclNegedge { sda := i.value; }
        case SetupData =>
          if tcount == 1 { sda := i.value; }
        case TransmitData =>
          sda := i.value;
          if i.sclNegedge {
            tcountSel, loadTcount := tHoldData, true;
            if tHdZ { done := true; }
          }
        case HoldData =>
          if tcount != 0 { sda := i.value; } else { done := true; }
      }
    }

    /** The block `tx_fsm_state`. */
    method FsmState(i: In) returns (stateD: State)
      ensures stateD == NextState(Contents(), i)
    {
      stateD := state;
      match state {
        case Idle =>
          if i.drive {
            if i.sclStableLow || i.sclNegedge {
              stateD := if tSdZ then TransmitData else SetupData;
            } else {
              stateD := AwaitClockNegedge;
            }
          }
        case AwaitClockNegedge =>
          if i.sclStableLow || i.sclNegedge { stateD := if tSdZ then TransmitData else SetupData; }
        case SetupData =>
          if tcount == 1 { stateD := TransmitData; }
        case TransmitData =>
          if i.sclNegedge { stateD := if tHdZ then Idle else HoldData; }
        case HoldData =>
          if tcount == 0 && i.sclStableLow { stateD := Idle; }
      }
      if !i.drive { stateD := Idle; }
    }

    /** The block `counter_functions`. */
    method CounterFunctions(i: In, loadTcount: bool, tcountSel: CountSelect) returns (tcountD: Count)
      ensures tcountD ==
        if !loadTcount then (if tcount != 0 then tcount - 1 else 0)
        else match tcountSel
             case tSetupData => tSd
             case tHoldData => if i.tm.hold > 0 then i.tm.hold else 1
             case tNoDelay => 1
    {
      tcountD := tcount;
      if loadTcount {
        match tcountSel {
          case tSetupData => tcountD := tSd;
          case tHoldData => tcountD := if i.tm.hold > 0 then i.tm.hold else 1;
          case tNoDelay => tcountD := 1;
        }
      } else if tcount != 0 {
        tcountD := tcount - 1;
      }
    }

    /** One clock: the combinational blocks, then the registers. */
    method Clock(i: In) returns (o: Out)
      modifies this
      ensures o == Outputs(old(Contents()), i)
      ensures Contents() == Next(old(Contents()), i)
    {
      var sda, done, loadTcount, tcountSel := FsmOutputs(i);
      var stateD := FsmState(i);
      var tcountD := CounterFunctions(i, loadTcount, tcountSel);
      o := Out(sda, done, state.Idle?);
      state, tcount := stateD, tcountD;
      tSd, tSdZ, tHdZ := i.tm.SetupDelay(), i.tm.SetupDelay() == 0, i.tm.hold == 0;
    }
  }

  // ---------------------------------------------------------------- any inputs, any run

  /** SetupData is only ever occupied with a running counter. */
  ghost predicate CountsDown(r: Regs) { r.Consistent() && (r.state.SetupData? ==> r.tcount >= 1) }

  lemma {:induction false} SetupCounterRuns(r0: Regs, ins: nat -> In, n: nat)
    requires CountsDown(r0)
    ensures CountsDown(At(r0, ins, n))
  {
    if n > 0 { SetupCounterRuns(r0, ins, n - 1); }
  }

  /** The inputs from clock `c` on. */
  ghost function From(ins: nat -> In, c: nat): nat -> In { (n: nat) => ins(c + n) }

  /** The last clock of a run. */
  lemma AtStep(r0: Regs, ins: nat -> In, n: nat, p: Regs, i: In, q: Regs)
    requires n > 0 && p == At(r0, ins, n - 1) && i == ins(n - 1) && q == Next(p, i)
    ensures At(r0, ins, n) == q
  {
  }

  /** Runs compose: the state after `c + k` clocks is the state after `k` clocks from the state after `c`. */
  lemma {:induction false} RunsCompose(r0: Regs, ins: nat -> In, c: nat, k: nat, r: Regs)
    requires r == At(r0, ins, c)
    ensures At(r0, ins, c + k) == At(r, From(ins, c), k)
  {
    if k > 0 {
      RunsCompose(r0, ins, c, k - 1, r);
      var p, i := At(r, From(ins, c), k - 1), ins(c + k - 1);
      assert From(ins, c)(k - 1) == i;
      AtStep(r0, ins, c + k, p, i, Next(p, i));
      AtStep(r, From(ins, c), k, p, i, Next(p, i));
    }
  }

  /** A bit that keeps its setup state counts down one per clock, whatever the other inputs do. */
  lemma {:induction false} SetupCountdown(r0: Regs, ins: nat -> In, k: nat)
    requires r0.state.SetupData? && CountsDown(r0)
    requires forall j: nat | j <= k :: At(r0, ins, j).state.SetupData?
    ensures At(r0, ins, k).tcount + k == r0.tcount
  {
    if k > 0 {
      SetupCountdown(r0, ins, k - 1);
      SetupCounterRuns(r0, ins, k - 1);
      assert At(r0, ins, k).state.SetupData?;
    }
  }

  /** From SetupData the machine leaves within the count it was loaded with: timings may change
      mid-run and every input is free. */
  lemma SetupIsLeft(r0: Regs, ins: nat -> In)
    requires r0.state.SetupData? && CountsDown(r0)
    ensures exists k: nat :: 1 <= k <= r0.tcount && !At(r0, ins, k).state.SetupData?
  {
    if forall k: nat | 1 <= k <= r0.tcount :: At(r0, ins, k).state.SetupData? {
      assert At(r0, ins, 0).state.SetupData?;
      SetupCountdown(r0, ins, r0.tcount);
      SetupCounterRuns(r0, ins, r0.tcount);
      assert false;
    }
  }

  /** The hold counter reaches zero within its loaded count, unless the state is left before. */
  lemma {:induction false} HoldCountdown(r0: Regs, ins: nat -> In, k: nat)
    requires r0.state.HoldData? && k <= r0.tcount
    requires forall j: nat | j < k :: ins(j).drive
    ensures At(r0, ins, k).state.HoldData? && At(r0, ins, k).tcount + k == r0.tcount
  {
    if k > 0 { HoldCountdown(r0, ins, k - 1); }
  }

  /** A bit that is to be held is held for its hold time, at least for one clock, whatever becomes of the timing
      meanwhile: the line carries the value until then, and done is not reported before. */
  lemma {:induction false} HeldForItsTime(r0: Regs, ins: nat -> In, c: nat, k: nat)
    requires At(r0, ins, c).state.TransmitData? && !At(r0, ins, c).tHdZ && ins(c).sclNegedge
    requires forall j: nat | c <= j <= c + k :: ins(j).drive
    requires 1 <= k <= (if ins(c).tm.hold > 0 then ins(c).tm.hold else 1) + 1
    ensures var hold := if ins(c).tm.hold > 0 then ins(c).tm.hold else 1;
            && At(r0, ins, c + k).state.HoldData? && At(r0, ins, c + k).tcount == hold + 1 - k
            && (if k <= hold then OutAt(r0, ins, c + k).sda == ins(c + k).value && !OutAt(r0, ins, c + k).done
                else OutAt(r0, ins, c + k).done)
  {
    var m := c + k;
    assert At(r0, ins, m) == Next(At(r0, ins, m - 1), ins(m - 1));
    if k > 1 { HeldForItsTime(r0, ins, c, k - 1); }
  }

  /** After a clock in which it was not asked for the transmitter is idle, whatever it was doing, and reports nothing;
      and if it is not asked for now either, the line is released. */
  lemma ReleasedWhenNotDriven(r0: Regs, ins: nat -> In, n: nat)
    requires n > 0 && !ins(n - 1).drive
    ensures OutAt(r0, ins, n).idle && !OutAt(r0, ins, n).done
    ensures !ins(n).drive ==> OutAt(r0, ins, n).sda
  {
    assert At(r0, ins, n) == Next(At(r0, ins, n - 1), ins(n - 1));
  }

  // ---------------------------------------------------------------- the exact setup and hold windows

  /** Cycles from the falling edge that ends a bit to the cycle in which it is reported done. */
  function DoneDelay(tm: Timing): nat { if tm.hold == 0 then 0 else tm.hold + 1 }

  /** The registers `k >= 1` clocks after a bit began, the next falling edge coming `f` clocks after it began. */
  ghost function BitRegs(tm: Timing, f: nat, k: nat): Regs
    requires 1 <= k <= f + DoneDelay(tm) && tm.SetupDelay() < f
  {
    var T := tm.SetupDelay();
    if k <= T then Regs(SetupData, T - k + 1, T, T == 0, tm.hold == 0)
    else if k <= f then Regs(TransmitData, 0, T, T == 0, tm.hold == 0)
    else Regs(HoldData, tm.hold - (k - f - 1), T, T == 0, tm.hold == 0)
  }

  lemma BitBegins(r: Regs, i: In, f: nat)
    requires r.Settled(i.tm) && i.drive && i.LowSeen() && i.tm.SetupDelay() < f
    requires r.state.Idle? || r.state.AwaitClockNegedge?
    ensures Next(r, i) == BitRegs(i.tm, f, 1)
    ensures !Done(r, i)
  {
  }

  lemma BitGoesOn(f: nat, k: nat, i: In)
    requires i.tm.SetupDelay() < f && 1 <= k < f + DoneDelay(i.tm)
    requires i.drive && (i.tm.SetupDelay() < k <= f ==> (i.sclNegedge <==> k == f))
    ensures Next(BitRegs(i.tm, f, k), i) == BitRegs(i.tm, f, k + 1)
    ensures !Done(BitRegs(i.tm, f, k), i)
    ensures Sda(BitRegs(i.tm, f, k), i) == (k < i.tm.SetupDelay() || i.value)
  {
  }

  lemma BitEnds(f: nat, i: In)
    requires i.tm.SetupDelay() < f
    requires i.tm.hold == 0 ==> i.sclNegedge
    requires i.tm.hold != 0 ==> i.sclStableLow
    ensures var r := BitRegs(i.tm, f, f + DoneDelay(i.tm));
            && Done(r, i)
            && Sda(r, i) == (i.tm.hold != 0 || i.value)
            && Next(r, i).state.Idle? && Next(r, i).Settled(i.tm)
  {
  }

  /** A bit begins in clock 0 in a low phase, the next falling edge comes `f` clocks later, and nothing else changes
      until the bit is done. */
  ghost predicate BitRuns(r0: Regs, ins: nat -> In, f: nat, tm: Timing, value: bool) {
    && (r0.state.Idle? || r0.state.AwaitClockNegedge?) && r0.Settled(tm) && ins(0).LowSeen()
    && (forall n: nat | n <= f + DoneDelay(tm) :: ins(n).tm == tm && ins(n).drive && ins(n).value == value)
    && (forall n: nat | 0 < n <= f :: ins(n).sclNegedge <==> n == f)
  }

  /** The conditions of one whole bit: it begins on a falling edge, or from Idle on a low level. */
  ghost predicate OneBit(r0: Regs, ins: nat -> In, f: nat, tm: Timing, value: bool) {
    BitRuns(r0, ins, f, tm, value) && (ins(0).sclNegedge || r0.state.Idle?)
  }

  lemma {:induction false} BitStates(r0: Regs, ins: nat -> In, f: nat, tm: Timing, value: bool, k: nat)
    requires BitRuns(r0, ins, f, tm, value) && tm.SetupDelay() < f
    requires 1 <= k <= f + DoneDelay(tm)
    ensures At(r0, ins, k) == BitRegs(tm, f, k)
  {
    if k == 1 {
      BitBegins(r0, ins(0), f);
    } else {
      BitStates(r0, ins, f, tm, value, k - 1);
      BitGoesOn(f, k - 1, ins(k - 1));
    }
  }

  /** What is put out `n` clocks after a bit began. */
  predicate InWindow(tm: Timing, f: nat, value: bool, n: nat, o: Out) {
    && (n < tm.SetupDelay() ==> o.sda)
    && (tm.SetupDelay() <= n <= f + tm.hold ==> o.sda == value)
    && (o.done <==> n == f + DoneDelay(tm))
    && (n > 0 ==> !o.idle)
  }

  lemma BitInWindow(r0: Regs, ins: nat -> In, f: nat, tm: Timing, value: bool, n: nat)
    requires OneBit(r0, ins, f, tm, value) && tm.SetupDelay() < f && n <= f + DoneDelay(tm)
    ensures InWindow(tm, f, value, n, OutAt(r0, ins, n))
  {
    if n > 0 { BitStates(r0, ins, f, tm, value, n); }
  }

  /** SDA is released until the setup delay after the beginning has passed, first carries the bit
      exactly then (at once when the delay is zero), keeps it up to and including the hold
      time after the next falling edge, and the bit is first reported done at that edge when the hold
      time is zero, one clock after the hold time otherwise. */
  lemma BitWindow(r0: Regs, ins: nat -> In, f: nat, tm: Timing, value: bool)
    requires OneBit(r0, ins, f, tm, value) && tm.SetupDelay() < f
    ensures forall n: nat | n < tm.SetupDelay() :: OutAt(r0, ins, n).sda
    ensures forall n: nat | tm.SetupDelay() <= n <= f + tm.hold :: OutAt(r0, ins, n).sda == value
    ensures forall n: nat | n <= f + DoneDelay(tm) ::
              OutAt(r0, ins, n).done <==> n == f + DoneDelay(tm)
  {
    forall n: nat | n <= f + DoneDelay(tm)
      ensures InWindow(tm, f, value, n, OutAt(r0, ins, n))
    {
      BitInWindow(r0, ins, f, tm, value, n);
    }
  }

  /** The same for a bit that begins in clock `c` of any run. */
  lemma BitWindowAnywhere(r0: Regs, ins: nat -> In, c: nat, f: nat, tm: Timing, value: bool, n: nat)
    requires OneBit(At(r0, ins, c), From(ins, c), f, tm, value) && tm.SetupDelay() < f
    requires n <= f + DoneDelay(tm)
    ensures InWindow(tm, f, value, n, OutAt(r0, ins, c + n))
  {
    BitInWindow(At(r0, ins, c), From(ins, c), f, tm, value, n);
    RunsCompose(r0, ins, c, n, At(r0, ins, c));
    assert From(ins, c)(n) == ins(c + n);
  }

  /** A bit that waits for the clock and begins on a low level, the edge having been missed, is a clock late on the
      line: it is released in the first clock even with no setup delay, and as above from then on. */
  lemma BitWindowOnLevel(r0: Regs, ins: nat -> In, f: nat, tm: Timing, value: bool, n: nat)
    requires BitRuns(r0, ins, f, tm, value) && !ins(0).sclNegedge && r0.state.AwaitClockNegedge?
    requires tm.SetupDelay() < f && n <= f + DoneDelay(tm)
    ensures if n == 0 then OutAt(r0, ins, 0) == Out(true, false, false)
            else InWindow(tm, f, value, n, OutAt(r0, ins, n))
  {
    if n > 0 { BitStates(r0, ins, f, tm, value, n); }
  }

  // ---------------------------------------------------------------- how long done lasts

  /** Done is a single pulse exactly when the hold time is zero or SCL is stable low when it ends. */
  lemma SinglePulseIff(r0: Regs, ins: nat -> In, f: nat, tm: Timing, value: bool)
    requires OneBit(r0, ins, f, tm, value) && tm.SetupDelay() < f
    ensures var d := f + DoneDelay(tm);
            !OutAt(r0, ins, d + 1).done <==> tm.hold == 0 || ins(d).sclStableLow
  {
    var d := f + DoneDelay(tm);
    BitStates(r0, ins, f, tm, value, d);
    var m := d + 1;
    assert At(r0, ins, m) == Next(At(r0, ins, m - 1), ins(m - 1));
  }

  /** Otherwise it stays up for as long as SCL is not stable low. */
  lemma {:induction false} DoneLasts(r0: Regs, ins: nat -> In, f: nat, tm: Timing, value: bool, k: nat)
    requires OneBit(r0, ins, f, tm, value) && tm.SetupDelay() < f && tm.hold > 0
    requires forall j: nat | f + DoneDelay(tm) <= j < f + DoneDelay(tm) + k :: ins(j).drive && !ins(j).sclStableLow
    ensures var n := f + DoneDelay(tm) + k;
            At(r0, ins, n).state.HoldData? && At(r0, ins, n).tcount == 0 && OutAt(r0, ins, n).done
  {
    var d := f + DoneDelay(tm);
    if k == 0 {
      BitStates(r0, ins, f, tm, value, d);
    } else {
      DoneLasts(r0, ins, f, tm, value, k - 1);
      var m := d + k;
      assert At(r0, ins, m) == Next(At(r0, ins, m - 1), ins(m - 1));
    }
  }

  /** The setup delay is rise plus setup time exactly when that sum fits the 20-bit register. */
  lemma SetupDelayFits(tm: Timing)
    ensures tm.SetupDelay() == tm.rise + tm.setup <==> tm.rise + tm.setup < COUNT_SPAN
    ensures tm.rise + tm.setup >= COUNT_SPAN ==> tm.SetupDelay() == tm.rise + tm.setup - COUNT_SPAN
  {
  }
}
