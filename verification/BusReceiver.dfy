/** Whole transfers on the receiving side: a requester that keeps its request for a byte or a single bit up
    until `bus_rx_done_o` and then presents the next one, and the receiver `src/ctrl/bus_rx_flow.sv`.

    `ReceivedIff` says when all requests are answered with the bits of the bus, one after the other. */
module BusReceiver {
  import opened Wave
  import opened Bits
  import opened BusRxFlow
  import opened BusSender

  /** The requester's position, the receiver, and what was reported to the requester so far. */
  datatype RxSys = RxSys(j: nat, rx: BusRxFlow.Regs, got: seq<Bits8>)

  const RX_START := RxSys(0, BusRxFlow.RESET, [])

  /** Nothing is answered yet, and the receiver is idle after a clock without a request for a bit: out of reset, or
      because what it was asked for before was withdrawn. */
  predicate RxStarts(s: RxSys) { s.j == 0 && s.got == [] && s.rx.state.Idle? && !s.rx.rxReqBit }

  ghost function RxIn(items: seq<Item>, scl: Line, val: Line, n: nat, j: nat): BusRxFlow.In {
    BusRxFlow.In(Rose(scl, n), val(n), j < |items| && items[j].Bit?, j < |items| && items[j].Byte?)
  }

  function RxStep(size: nat, i: BusRxFlow.In, s: RxSys): RxSys {
    var o := BusRxFlow.Outputs(s.rx, i);
    RxSys(if o.done && s.j < size then s.j + 1 else s.j, BusRxFlow.Next(s.rx, i),
          if o.done then s.got + [o.data] else s.got)
  }

  ghost predicate RxStepsTo(items: seq<Item>, scl: Line, val: Line, run: nat -> RxSys, n: nat) {
    run(n + 1) == RxStep(|items|, RxIn(items, scl, val, n, run(n).j), run(n))
  }

  /** `run(n)` is the state after `n` clocks of a receiver that follows `scl` and sees `val`. */
  ghost predicate IsRxRun(items: seq<Item>, scl: Line, val: Line, run: nat -> RxSys) {
    RxStarts(run(0)) && forall n: nat :: RxStepsTo(items, scl, val, run, n)
  }

  /** What answers a request: the byte, or the bit after seven zeros. */
  function Answer(item: Item): Bits8 { if item.Byte? then item.v else BusRxFlow.ZERO7 + [item.v[7]] }

  function Answers(items: seq<Item>): (bytes: seq<Bits8>)
    ensures |bytes| == |items|
  {
    seq(|items|, j requires 0 <= j < |items| => Answer(items[j]))
  }

  // ---------------------------------------------------------------- the clocks of a bit

  /** The first clock in which the edge of the `k`-th bit could come: two clocks after the edge before it. */
  ghost function RxOpens(rise: nat -> nat, k: nat): nat { if k == 0 then 0 else rise(k - 1) + 2 }

  /** The clocks from there on in which the receiver does not see an edge: it leaves Idle in the first one,
      and a single bit after a byte is asked for through Idle, where its request has to be registered. */
  function DeafIn(items: seq<Item>, slot: Slot, first: bool): nat
    requires slot.Within(items)
  {
    if items[slot.j].Bit? && (slot.j == 0 || items[slot.j - 1].Byte?) then 2 else if first then 1 else 0
  }

  function Deaf(items: seq<Item>, k: nat): nat
    requires k < Total(items)
  {
    DeafIn(items, SlotAt(items, k), k == 0)
  }

  ghost predicate SpacedAt(items: seq<Item>, rise: nat -> nat, k: nat)
    requires k < Total(items)
  {
    RxOpens(rise, k) + Deaf(items, k) <= rise(k)
  }

  ghost predicate SpacedBelow(items: seq<Item>, rise: nat -> nat, m: nat)
    requires m <= Total(items)
  {
    forall k: nat | k < m :: SpacedAt(items, rise, k)
  }

  /** No edge comes too early for the receiver. */
  ghost predicate Spaced(items: seq<Item>, rise: nat -> nat) { SpacedBelow(items, rise, Total(items)) }

  /** The bit of a byte is taken one clock after its edge, a single bit at its edge. */
  ghost predicate SampledAt(items: seq<Item>, val: Line, rise: nat -> nat, k: nat)
    requires k < Total(items)
  {
    val(if items[SlotAt(items, k).j].Byte? then rise(k) + 1 else rise(k)) == BitAt(items, k)
  }

  ghost predicate AllSampled(items: seq<Item>, val: Line, rise: nat -> nat) {
    forall k: nat | k < Total(items) :: SampledAt(items, val, rise, k)
  }

  /** The receiver `age` clocks after the bit `b` of `item` could first come; `edge` says that its edge was in
      the last clock. */
  predicate RxInSlot(item: Item, b: nat, first: bool, deaf: nat, age: nat, edge: bool, r: BusRxFlow.Regs)
    requires b < item.Len()
  {
    && (r.rxDone == edge || (first && age == 0))
    && if item.Byte? then
         if age == 0 && b == 0 then if first then r.state.Idle? && !r.rxReqBit else r.state.NextTaskDecision?
         else r.state.ReadByte? && r.bitCounter == 7 - b && !r.rxReqBit && r.rxData[7 - b..] == item.v[..b]
       else if age < deaf then
         r.rxReqBit == (age == 1) && if age == 0 && !first then r.state.NextTaskDecision? else r.state.Idle?
       else
         && r.rxReqBit && (edge ==> r.rxBit == item.v[7])
         && if age == 0 then r.state.NextTaskDecision? else r.state.ReadBit?
  }

  /** The request is the one of the item. */
  predicate Asks(item: Item, i: BusRxFlow.In) { i.reqByte == item.Byte? && i.reqBit == item.Bit? }

  /** Deafness as it can be: after a byte or at the start two clocks for a single bit, one for a byte. */
  predicate FitsDeaf(item: Item, first: bool, deaf: nat) {
    if item.Byte? then deaf == (if first then 1 else 0) else deaf == 2 || (deaf == 0 && !first)
  }

  /** Up to the edge, the receiver waits. */
  lemma RxGoesOn(item: Item, b: nat, first: bool, deaf: nat, age: nat, r: BusRxFlow.Regs, i: BusRxFlow.In)
    requires b < item.Len() && (first ==> b == 0) && FitsDeaf(item, first, deaf) && Asks(item, i)
    requires RxInSlot(item, b, first, deaf, age, false, r)
    requires i.sclPosedge ==> age >= deaf && (item.Bit? ==> i.sda == item.v[7])
    ensures RxInSlot(item, b, first, deaf, age + 1, i.sclPosedge, BusRxFlow.Next(r, i))
    ensures !BusRxFlow.Done(r)
  {
    if item.Byte? && age == 0 && b == 0 { assert BusRxFlow.Next(r, i).rxData[7..] == item.v[..0]; }
  }

  /** In the clock after the edge, a bit of a byte is shifted in, or the request is answered. */
  lemma RxTakes(item: Item, b: nat, first: bool, deaf: nat, age: nat, r: BusRxFlow.Regs, i: BusRxFlow.In)
    requires b < item.Len() && FitsDeaf(item, first, deaf) && Asks(item, i) && age > deaf
    requires RxInSlot(item, b, first, deaf, age, true, r) && (item.Byte? ==> i.sda == item.v[b])
    ensures BusRxFlow.Done(r) <==> b + 1 == item.Len()
    ensures BusRxFlow.Done(r) ==> BusRxFlow.Data(r, i) == Answer(item)
    ensures !BusRxFlow.Done(r) ==> RxInSlot(item, b + 1, false, 0, 0, false, BusRxFlow.Next(r, i))
    ensures BusRxFlow.Done(r) ==> var r' := BusRxFlow.Next(r, i);
                                  r'.state.NextTaskDecision? && !r'.rxDone && r'.rxReqBit == item.Bit?
  {
    if item.Byte? {
      assert r.rxData[7 - b..] + [i.sda] == item.v[..b + 1];
      if b < 7 {
        assert (r.rxData[1..] + [i.sda])[7 - (b + 1)..] == r.rxData[7 - b..] + [i.sda];
      }
    }
  }

  // ---------------------------------------------------------------- whole runs

  ghost predicate InRxSlot(items: seq<Item>, rise: nat -> nat, k: nat, n: nat, s: RxSys)
    requires k < Total(items) && RxOpens(rise, k) <= n
  {
    var slot := SlotAt(items, k);
    && s.j == slot.j && s.got == Answers(items)[..slot.j]
    && RxInSlot(items[slot.j], slot.b, k == 0, Deaf(items, k), n - RxOpens(rise, k), n == rise(k) + 1, s.rx)
  }

  predicate AllReceived(items: seq<Item>, s: RxSys) {
    s.j == |items| && s.got == Answers(items) && (s.rx.state.Idle? || s.rx.state.NextTaskDecision?)
  }

  lemma DeafFits(items: seq<Item>, k: nat)
    requires k < Total(items)
    ensures var slot := SlotAt(items, k);
            FitsDeaf(items[slot.j], k == 0, Deaf(items, k)) && (k == 0 ==> slot == Slot(0, 0))
  {
    SlotAtStart(items);
    if k > 0 { SlotAtSucc(items, k - 1); }
  }

  /** Within a slot, one clock moves one clock on. */
  lemma RxSlotGoesOn(items: seq<Item>, rise: nat -> nat, k: nat, n: nat, i: BusRxFlow.In, s: RxSys)
    requires k < Total(items) && RxOpens(rise, k) <= n <= rise(k) && SpacedAt(items, rise, k)
    requires InRxSlot(items, rise, k, n, s) && Asks(items[s.j], i)
    requires i.sclPosedge == (n == rise(k))
    requires n == rise(k) && items[s.j].Bit? ==> i.sda == BitAt(items, k)
    ensures InRxSlot(items, rise, k, n + 1, RxStep(|items|, i, s))
  {
    var slot := SlotAt(items, k);
    DeafFits(items, k);
    RxGoesOn(items[slot.j], slot.b, k == 0, Deaf(items, k), n - RxOpens(rise, k), s.rx, i);
  }

  /** A request that is answered or not, and the slot that follows. */
  lemma RxNextSlot(items: seq<Item>, slot: Slot, next: Slot, i: BusRxFlow.In, s: RxSys, s': RxSys)
    requires slot.Within(items) && next == slot.Succ(items) && s' == RxStep(|items|, i, s)
    requires s.j == slot.j && s.got == Answers(items)[..slot.j]
    requires BusRxFlow.Done(s.rx) <==> next.b == 0
    requires next.b == 0 ==> BusRxFlow.Data(s.rx, i) == Answer(items[slot.j]) && s'.rx.state.NextTaskDecision?
                             && !s'.rx.rxDone && s'.rx.rxReqBit == items[slot.j].Bit?
    requires next.b > 0 ==> RxInSlot(items[slot.j], next.b, false, 0, 0, false, s'.rx)
    ensures s'.j == next.j && s'.got == Answers(items)[..next.j]
    ensures next.Within(items) ==>
              RxInSlot(items[next.j], next.b, false, DeafIn(items, next, false), 0, false, s'.rx)
    ensures !next.Within(items) ==> s'.rx.state.NextTaskDecision?
  {
    assert Answers(items)[..slot.j] + [Answer(items[slot.j])] == Answers(items)[..slot.j + 1];
  }

  lemma RxAnswers(items: seq<Item>, slot: Slot, next: Slot, first: bool, deaf: nat, age: nat,
                  i: BusRxFlow.In, s: RxSys, s': RxSys)
    requires slot.Within(items) && next == slot.Succ(items) && s' == RxStep(|items|, i, s)
    requires s.j == slot.j && s.got == Answers(items)[..slot.j]
    requires FitsDeaf(items[slot.j], first, deaf) && age > deaf
    requires RxInSlot(items[slot.j], slot.b, first, deaf, age, true, s.rx)
    requires Asks(items[slot.j], i) && (items[slot.j].Byte? ==> i.sda == items[slot.j].v[slot.b])
    ensures s'.j == next.j && s'.got == Answers(items)[..next.j]
    ensures next.Within(items) ==>
              RxInSlot(items[next.j], next.b, false, DeafIn(items, next, false), 0, false, s'.rx)
    ensures !next.Within(items) ==> s'.rx.state.NextTaskDecision?
  {
    RxTakes(items[slot.j], slot.b, first, deaf, age, s.rx, i);
    RxNextSlot(items, slot, next, i, s, s');
  }

  /** What holds of the receiver when slot `next` is to come, if there is one. */
  ghost predicate RxReaches(items: seq<Item>, next: Slot, s: RxSys) {
    && next.j <= |items| && s.j == next.j && s.got == Answers(items)[..next.j]
    && if next.Within(items) then RxInSlot(items[next.j], next.b, false, DeafIn(items, next, false), 0, false, s.rx)
       else s.rx.state.NextTaskDecision?
  }

  lemma RxSlotAnswers(items: seq<Item>, rise: nat -> nat, k: nat, n: nat, slot: Slot, i: BusRxFlow.In,
                      s: RxSys, s': RxSys)
    requires k < Total(items) && RxOpens(rise, k) <= n == rise(k) + 1 && SpacedAt(items, rise, k)
    requires InRxSlot(items, rise, k, n, s) && Asks(items[s.j], i) && s' == RxStep(|items|, i, s)
    requires items[s.j].Byte? ==> i.sda == BitAt(items, k)
    requires slot == SlotAt(items, k)
    ensures RxReaches(items, slot.Succ(items), s')
  {
    DeafFits(items, k);
    RxAnswers(items, slot, slot.Succ(items), k == 0, Deaf(items, k), n - RxOpens(rise, k), i, s, s');
  }

  lemma RxEnters(items: seq<Item>, rise: nat -> nat, k: nat, n: nat, slot: Slot, s: RxSys)
    requires 0 < k < Total(items) && n == RxOpens(rise, k) <= rise(k) && slot == SlotAt(items, k)
    requires RxReaches(items, slot, s)
    ensures InRxSlot(items, rise, k, n, s)
  {
  }

  lemma RxCompletes(items: seq<Item>, s: RxSys)
    requires RxReaches(items, Slot(|items|, 0), s)
    ensures AllReceived(items, s)
  {
  }

  /** So the last clock of a slot hands over to the next one. */
  lemma RxMovesOn(items: seq<Item>, rise: nat -> nat, k: nat, n: nat, s: RxSys)
    requires k < Total(items) && n == rise(k) + 2 <= rise(k + 1)
    requires RxReaches(items, SlotAt(items, k).Succ(items), s)
    ensures k + 1 == Total(items) ==> AllReceived(items, s)
    ensures k + 1 < Total(items) ==> InRxSlot(items, rise, k + 1, n, s)
  {
    SlotAtSucc(items, k);
    if k + 1 < Total(items) {
      RxEnters(items, rise, k + 1, n, SlotAt(items, k + 1), s);
    } else {
      RxCompletes(items, s);
    }
  }

  lemma StaysReceived(items: seq<Item>, i: BusRxFlow.In, s: RxSys)
    requires AllReceived(items, s) && !i.Req()
    ensures AllReceived(items, RxStep(|items|, i, s))
  {
  }

  /** A run of the receiver on a bus whose rising edges are at `rise(k)`, with every bit on the line when it is
      to be sampled. */
  ghost predicate Arriving(items: seq<Item>, scl: Line, val: Line, rise: nat -> nat, run: nat -> RxSys) {
    IsRxRun(items, scl, val, run) && AllSampled(items, val, rise) && forall k: nat :: RisesAt(scl, rise, k)
  }

  lemma EdgeInSlot(scl: Line, rise: nat -> nat, k: nat, n: nat)
    requires RisesAt(scl, rise, k) && (k > 0 ==> RisesAt(scl, rise, k - 1))
    ensures RxOpens(rise, k) <= rise(k)
    ensures RxOpens(rise, k) <= n <= rise(k) ==> (Rose(scl, n) <==> n == rise(k))
  {
  }

  /** In every clock of the `k`-th slot the run is in that slot, if no edge came too early before. */
  lemma {:induction false} RxSlots(items: seq<Item>, scl: Line, val: Line, rise: nat -> nat, run: nat -> RxSys,
                                   k: nat, n: nat)
    requires Arriving(items, scl, val, rise, run)
    requires k < Total(items) && RxOpens(rise, k) <= n < rise(k) + 2
    requires SpacedBelow(items, rise, k) && (n > RxOpens(rise, k) ==> SpacedAt(items, rise, k))
    ensures InRxSlot(items, rise, k, n, run(n))
    decreases n, 0
  {
    if n > RxOpens(rise, k) {
      var m := n - 1;
      RxSlots(items, scl, val, rise, run, k, m);
      assert RisesAt(scl, rise, k) && (k > 0 ==> RisesAt(scl, rise, k - 1));
      EdgeInSlot(scl, rise, k, m);
      assert RxStepsTo(items, scl, val, run, m) && SampledAt(items, val, rise, k);
      RxSlotGoesOn(items, rise, k, m, RxIn(items, scl, val, m, run(m).j), run(m));
    } else if k > 0 {
      RxSlotsToEnd(items, scl, val, rise, run, k - 1);
    } else {
      SlotAtStart(items);
    }
  }

  lemma {:induction false} RxSlotsToEnd(items: seq<Item>, scl: Line, val: Line, rise: nat -> nat,
                                        run: nat -> RxSys, k: nat)
    requires Arriving(items, scl, val, rise, run)
    requires k < Total(items) && SpacedBelow(items, rise, k + 1)
    ensures k + 1 == Total(items) ==> AllReceived(items, run(rise(k) + 2))
    ensures k + 1 < Total(items) ==> InRxSlot(items, rise, k + 1, rise(k) + 2, run(rise(k) + 2))
    decreases rise(k) + 1, 1
  {
    var n := rise(k) + 1;
    assert SpacedAt(items, rise, k);
    assert RisesAt(scl, rise, k) && (k > 0 ==> RisesAt(scl, rise, k - 1));
    EdgeInSlot(scl, rise, k, n);
    RxSlots(items, scl, val, rise, run, k, n);
    assert RxStepsTo(items, scl, val, run, n) && SampledAt(items, val, rise, k);
    RxSlotAnswers(items, rise, k, n, SlotAt(items, k), RxIn(items, scl, val, n, run(n).j), run(n), run(n + 1));
    RxMovesOn(items, rise, k, n + 1, run(n + 1));
  }

  // ---------------------------------------------------------------- edges that are not seen

  /** The bits of the first `j` requests. */
  function Before(items: seq<Item>, j: nat): nat
    requires j <= |items|
  {
    if j == 0 then 0 else Before(items, j - 1) + items[j - 1].Len()
  }

  /** The bits the receiver has taken. */
  function TakenBits(items: seq<Item>, s: RxSys): int
    requires s.j <= |items|
  {
    Before(items, s.j) + (if s.rx.state.ReadByte? then 7 - s.rx.bitCounter else 0)
    + (if (s.rx.state.ReadByte? || s.rx.state.ReadBit?) && s.rx.rxDone then 1 else 0)
  }

  /** The receiver is busy only with what it is asked for. */
  predicate Sound(items: seq<Item>, s: RxSys) {
    && |s.got| == s.j <= |items|
    && (s.rx.state.ReadByte? ==> s.j < |items| && items[s.j].Byte? && s.rx.bitCounter <= 7)
    && (s.rx.state.ReadBit? ==> s.j < |items| && items[s.j].Bit?)
    && (s.rx.state.NextTaskDecision? ==> !s.rx.rxDone)
  }

  /** No clock takes more than one bit, and none without an edge. */
  lemma SoundStep(items: seq<Item>, i: BusRxFlow.In, s: RxSys, s': RxSys)
    requires Sound(items, s) && s' == RxStep(|items|, i, s)
    requires if s.j < |items| then Asks(items[s.j], i) else !i.Req()
    ensures Sound(items, s')
    ensures TakenBits(items, s') <= TakenBits(items, s) + if i.sclPosedge then 1 else 0
  {
  }

  lemma {:induction false} SoundHolds(items: seq<Item>, scl: Line, val: Line, run: nat -> RxSys, n: nat)
    requires IsRxRun(items, scl, val, run)
    ensures Sound(items, run(n))
  {
    if n > 0 {
      SoundHolds(items, scl, val, run, n - 1);
      assert RxStepsTo(items, scl, val, run, n - 1);
      SoundStep(items, RxIn(items, scl, val, n - 1, run(n - 1).j), run(n - 1), run(n));
    }
  }

  /** In the two clocks in which the receiver is deaf, edges make no difference. */
  lemma DeafClocks(r: BusRxFlow.Regs, i: BusRxFlow.In, i2: BusRxFlow.In)
    requires !r.rxReqBit && (r.state.Idle? || r.state.NextTaskDecision?)
    requires i.reqBit && !i.reqByte && i2.reqBit && !i2.reqByte
    ensures var r2 := BusRxFlow.Next(BusRxFlow.Next(r, i), i2);
            && !BusRxFlow.Done(r) && !BusRxFlow.Done(BusRxFlow.Next(r, i))
            && r2 == BusRxFlow.Regs(ReadBit, 7, BusRxFlow.ZERO7, false, false, true)
  {
  }

  lemma {:induction false} BeforeSlot(items: seq<Item>, k: nat)
    requires k < Total(items)
    ensures Before(items, SlotAt(items, k).j) + SlotAt(items, k).b == k
  {
    if k > 0 {
      BeforeSlot(items, k - 1);
      SlotAtSucc(items, k - 1);
    } else {
      SlotAtStart(items);
    }
  }

  /** The bit that is asked for is a single one, and the receiver is deaf. */
  predicate IsDeaf(items: seq<Item>, k: nat, s: RxSys) {
    && s.j < |items| && items[s.j].Bit? && Before(items, s.j) == k
    && !s.rx.rxReqBit && (s.rx.state.Idle? || s.rx.state.NextTaskDecision?)
  }

  lemma EarlyMeansDeaf(items: seq<Item>, rise: nat -> nat, k: nat, n: nat, s: RxSys)
    requires k < Total(items) && !SpacedAt(items, rise, k)
    requires n == RxOpens(rise, k) <= rise(k) && 1 <= rise(k) && InRxSlot(items, rise, k, n, s)
    ensures IsDeaf(items, k, s) && rise(k) < n + 2
  {
    DeafFits(items, k);
    BeforeSlot(items, k);
  }

  /** Fewer than `m` bits were taken. */
  predicate Behind(items: seq<Item>, s: RxSys, m: nat) { s.j <= |items| && TakenBits(items, s) < m }

  lemma DeafSteps(items: seq<Item>, k: nat, s: RxSys, i: BusRxFlow.In, i2: BusRxFlow.In)
    requires IsDeaf(items, k, s) && Asks(items[s.j], i) && Asks(items[s.j], i2)
    ensures RxStep(|items|, i, s).j == s.j
    ensures Behind(items, RxStep(|items|, i2, RxStep(|items|, i, s)), k + 1)
  {
    DeafClocks(s.rx, i, i2);
  }

  lemma DeafRun(items: seq<Item>, scl: Line, val: Line, run: nat -> RxSys, k: nat, n: nat)
    requires RxStepsTo(items, scl, val, run, n) && RxStepsTo(items, scl, val, run, n + 1)
    requires IsDeaf(items, k, run(n))
    ensures Behind(items, run(n + 2), k + 1)
  {
    var i, i2 := RxIn(items, scl, val, n, run(n).j), RxIn(items, scl, val, n + 1, run(n).j);
    DeafSteps(items, k, run(n), i, i2);
  }

  /** An edge that comes too early for its bit is lost: two clocks after the slot has opened, only the bits
      before it were taken. */
  lemma EarlyEdgeLost(items: seq<Item>, scl: Line, val: Line, rise: nat -> nat, run: nat -> RxSys, k: nat, n: nat)
    requires Arriving(items, scl, val, rise, run) && n == RxOpens(rise, k)
    requires k < Total(items) && SpacedBelow(items, rise, k) && !SpacedAt(items, rise, k)
    ensures n <= rise(k) < n + 2 && Behind(items, run(n + 2), k + 1)
  {
    assert RisesAt(scl, rise, k) && (k > 0 ==> RisesAt(scl, rise, k - 1));
    EdgeInSlot(scl, rise, k, n);
    RxSlots(items, scl, val, rise, run, k, n);
    EarlyMeansDeaf(items, rise, k, n, run(n));
    assert RxStepsTo(items, scl, val, run, n) && RxStepsTo(items, scl, val, run, n + 1);
    DeafRun(items, scl, val, run, k, n);
  }

  /** From then on, `n0`, the receiver is behind the edges. */
  lemma {:induction false} StaysBehind(items: seq<Item>, scl: Line, val: Line, rise: nat -> nat,
                                       run: nat -> RxSys, k: nat, n0: nat, m: nat, n: nat)
    requires IsRxRun(items, scl, val, run) && forall j: nat :: RisesAt(scl, rise, j)
    requires k < m && rise(k) < n0 <= n <= rise(m) && Behind(items, run(n0), k + 1)
    ensures Behind(items, run(n), m)
    decreases n
  {
    if n > n0 {
      var p := n - 1;
      SoundHolds(items, scl, val, run, p);
      assert RxStepsTo(items, scl, val, run, p);
      SoundStep(items, RxIn(items, scl, val, p, run(p).j), run(p), run(n));
      if k < m - 1 && p <= rise(m - 1) {
        StaysBehind(items, scl, val, rise, run, k, n0, m - 1, p);
      } else {
        StaysBehind(items, scl, val, rise, run, k, n0, m, p);
        assert RisesAt(scl, rise, m) && rise(m - 1) < p < rise(m);
        assert !Rose(scl, p);
      }
    }
  }

  lemma FirstTooEarly(items: seq<Item>, rise: nat -> nat) returns (k: nat)
    requires !Spaced(items, rise)
    ensures k < Total(items) && SpacedBelow(items, rise, k) && !SpacedAt(items, rise, k)
  {
    k := 0;
    while SpacedAt(items, rise, k)
      invariant k < Total(items) && SpacedBelow(items, rise, k) && !Spaced(items, rise)
      decreases Total(items) - k
    {
      k := k + 1;
      assert k == Total(items) ==> SpacedBelow(items, rise, k);
    }
  }

  lemma {:induction false} RisesGrow(scl: Line, rise: nat -> nat, j: nat, k: nat)
    requires (forall m: nat :: RisesAt(scl, rise, m)) && j <= k
    ensures rise(j) + 2 * (k - j) <= rise(k)
  {
    if j < k {
      RisesGrow(scl, rise, j, k - 1);
      assert RisesAt(scl, rise, k - 1);
    }
  }

  lemma ReceivesAll(items: seq<Item>, scl: Line, val: Line, rise: nat -> nat, run: nat -> RxSys)
    requires Arriving(items, scl, val, rise, run) && items != [] && Spaced(items, rise)
    ensures AllReceived(items, run(rise(Total(items) - 1) + 2))
  {
    RxSlotsToEnd(items, scl, val, rise, run, Total(items) - 1);
  }

  lemma {:induction false} BeforeAll(items: seq<Item>, j: nat)
    requires j <= |items|
    ensures Before(items, j) == Total(items[..j])
    ensures j == |items| ==> Before(items, j) == Total(items)
  {
    if j > 0 {
      BeforeAll(items, j - 1);
      TotalSnoc(items[..j - 1], items[j - 1]);
      assert items[..j - 1] + [items[j - 1]] == items[..j];
    }
    assert j == |items| ==> items[..j] == items;
  }

  lemma {:induction false} TotalSnoc(items: seq<Item>, item: Item)
    ensures Total(items + [item]) == Total(items) + item.Len()
  {
    if items == [] {
      assert ([item])[1..] == [];
    } else {
      TotalSnoc(items[1..], item);
      assert (items + [item])[1..] == items[1..] + [item];
    }
  }

  lemma BehindAtEnd(items: seq<Item>, scl: Line, val: Line, rise: nat -> nat, run: nat -> RxSys,
                    k: nat, t: nat, n: nat)
    requires Arriving(items, scl, val, rise, run) && k < t == Total(items) && n == rise(t - 1) + 2
    requires SpacedBelow(items, rise, k) && !SpacedAt(items, rise, k)
    ensures Behind(items, run(n), t)
  {
    RisesGrow(scl, rise, k, t - 1);
    assert RisesAt(scl, rise, t - 1);
    var n0 := RxOpens(rise, k);
    EarlyEdgeLost(items, scl, val, rise, run, k, n0);
    StaysBehind(items, scl, val, rise, run, k, n0 + 2, t, n);
  }

  lemma ReceivesLess(items: seq<Item>, scl: Line, val: Line, rise: nat -> nat, run: nat -> RxSys)
    requires Arriving(items, scl, val, rise, run) && items != [] && !Spaced(items, rise)
    ensures |run(rise(Total(items) - 1) + 2).got| < |items|
  {
    var t := Total(items);
    var k := FirstTooEarly(items, rise);
    BehindAtEnd(items, scl, val, rise, run, k, t, rise(t - 1) + 2);
    SoundHolds(items, scl, val, run, rise(t - 1) + 2);
    BeforeAll(items, |items|);
  }

  /** Requests for bytes and single bits, in any order: by two clocks after the edge of the last bit all of them
      are answered, in order and with the bits of the bus, if and only if no edge came in one of the clocks in
      which the receiver is deaf. */
  lemma ReceivedIff(items: seq<Item>, scl: Line, val: Line, rise: nat -> nat, run: nat -> RxSys)
    requires Arriving(items, scl, val, rise, run) && items != []
    ensures run(rise(Total(items) - 1) + 2).got == Answers(items) <==> Spaced(items, rise)
  {
    if Spaced(items, rise) {
      ReceivesAll(items, scl, val, rise, run);
    } else {
      ReceivesLess(items, scl, val, rise, run);
    }
  }

  /** Once answered, nothing more is reported. */
  lemma {:induction false} StaysAnswered(items: seq<Item>, scl: Line, val: Line, run: nat -> RxSys, m: nat, n: nat)
    requires IsRxRun(items, scl, val, run) && AllReceived(items, run(m)) && m <= n
    ensures AllReceived(items, run(n))
  {
    if m < n {
      StaysAnswered(items, scl, val, run, m, n - 1);
      assert RxStepsTo(items, scl, val, run, n - 1);
      StaysReceived(items, RxIn(items, scl, val, n - 1, run(n - 1).j), run(n - 1));
    }
  }

  ghost function RxAt(items: seq<Item>, scl: Line, val: Line, n: nat): RxSys {
    if n == 0 then RX_START
    else var s := RxAt(items, scl, val, n - 1); RxStep(|items|, RxIn(items, scl, val, n - 1, s.j), s)
  }

  /** Clocking the registers gives a run. */
  lemma OneRxRun(items: seq<Item>, scl: Line, val: Line) returns (run: nat -> RxSys)
    ensures IsRxRun(items, scl, val, run)
  {
    run := (n: nat) => RxAt(items, scl, val, n);
    forall n: nat ensures RxStepsTo(items, scl, val, run, n) {
      var m := n + 1;
      assert RxAt(items, scl, val, m)
          == (var s := RxAt(items, scl, val, m - 1); RxStep(|items|, RxIn(items, scl, val, m - 1, s.j), s));
    }
  }
}
