/** Sender and receiver on one bus: bytes handed to the transfer sequencer, serialised by the bit
    transmitter, seen through the bus monitor and reassembled by the receiver in held byte mode. */
module BusLink {
  import opened Wave
  import opened Bits
  import opened BusSender
  import BusTx
  import BusTxFlow
  import BusTxSafety
  import BusMonitor
  import BusEvents
  import BusRxFlow
  import opened BusReceiver

  /** The requests that send `bytes`. */
  ghost predicate AreBytes(items: seq<Item>, bytes: seq<Bits8>) {
    |items| == |bytes| && forall j: nat | j < |items| :: items[j] == Byte(bytes[j])
  }

  lemma {:induction false} BytesSlot(items: seq<Item>, bytes: seq<Bits8>, k: nat)
    requires AreBytes(items, bytes)
    ensures Total(items) == 8 * |bytes|
    ensures k < 8 * |bytes| ==> SlotAt(items, k) == Slot(k / 8, k % 8)
  {
    if items != [] {
      assert items[0] == Byte(bytes[0]);
      assert AreBytes(items[1..], bytes[1..]);
      BytesSlot(items[1..], bytes[1..], if k >= 8 then k - 8 else 0);
    }
  }

  /** The bits of the byte list, in the order they are sent, are its concatenation. */
  lemma BytesBits(items: seq<Item>, bytes: seq<Bits8>, k: nat)
    requires AreBytes(items, bytes) && k < 8 * |bytes|
    ensures Total(items) == 8 * |bytes| && BitAt(items, k) == Concat(bytes)[k]
  {
    BytesSlot(items, bytes, k);
    ConcatAt(bytes, k / 8, k % 8);
  }

  /** What the receiver's monitor sees: SCL, and SDA after `lag` clocks of synchronisation. */
  ghost predicate Sees(monIns: nat -> BusMonitor.In, scl: Line, sda: Line) {
    forall n: nat :: monIns(n) == BusMonitor.In(true, scl(n), sda(n), 0, 0)
  }

  /** The receiver takes its clock edge and SDA value from the monitor and is asked for bytes only. */
  ghost predicate Feeds(rxIns: nat -> BusRxFlow.In, monIns: nat -> BusMonitor.In, monRun: nat -> BusMonitor.Regs) {
    forall n: nat :: rxIns(n) == BusRxFlow.In(BusEvents.SclAt(monIns, monRun, n).posEdge,
                                              BusEvents.SdaAt(monIns, monRun, n).value, false, true)
  }

  lemma ReceiverInputs(rxIns: nat -> BusRxFlow.In, monIns: nat -> BusMonitor.In, monRun: nat -> BusMonitor.Regs,
                       scl: Line, sda: Line, n: nat)
    requires Sees(monIns, scl, sda) && Feeds(rxIns, monIns, monRun) && BusEvents.IsRun(monIns, monRun)
    ensures rxIns(n).sclPosedge == Rose(scl, n) && rxIns(n).sda == (sda(n) || Prev(sda, n))
  {
    assert BusEvents.ConstantDelays(monIns, 0, 0);
    BusEvents.ZeroDelayWires(monIns, monRun, n);
    assert BusEvents.SclLine(monIns)(n) == scl(n) && BusEvents.SdaLine(monIns)(n) == sda(n);
    assert n > 0 ==> BusEvents.SclLine(monIns)(n - 1) == scl(n - 1) && BusEvents.SdaLine(monIns)(n - 1) == sda(n - 1);
  }

  lemma ReceiverIsHeld(rxIns: nat -> BusRxFlow.In, monIns: nat -> BusMonitor.In, monRun: nat -> BusMonitor.Regs,
                       scl: Line, sda: Line)
    requires Sees(monIns, scl, sda) && Feeds(rxIns, monIns, monRun) && BusEvents.IsRun(monIns, monRun)
    ensures BusRxFlow.HeldByte(rxIns)
  {
    forall n: nat ensures BusRxFlow.Separate(rxIns, n) {
      ReceiverInputs(rxIns, monIns, monRun, scl, sda, n);
      ReceiverInputs(rxIns, monIns, monRun, scl, sda, n + 1);
    }
  }

  /** At the `k`-th rising edge and one clock later, SDA as the monitor hands it on is the `k`-th bit. */
  ghost predicate SampleAt(bits: seq<bool>, sda: Line, rise: nat -> nat, k: nat)
    requires k < |bits|
  {
    (sda(rise(k) + 1) || sda(rise(k))) == bits[k]
  }

  ghost predicate Samples(bits: seq<bool>, sda: Line, rise: nat -> nat) {
    forall k: nat | k < |bits| :: SampleAt(bits, sda, rise, k)
  }

  /** The inputs of a receiver that follows `scl` and sees `sda` through the monitor. */
  ghost predicate Follows(rxIns: nat -> BusRxFlow.In, scl: Line, sda: Line, m: nat) {
    rxIns(m).sclPosedge == Rose(scl, m) && rxIns(m).sda == (sda(m) || Prev(sda, m))
  }

  /** In the clock after a rising edge the receiver is offered the bit; in no other clock is it offered one. */
  lemma OffersOneBit(bits: seq<bool>, scl: Line, sda: Line, rise: nat -> nat,
                     rxIns: nat -> BusRxFlow.In, k: nat, p: nat)
    requires RisesAt(scl, rise, k) && k < |bits| && SampleAt(bits, sda, rise, k) && p == rise(k)
    requires Follows(rxIns, scl, sda, p) && Follows(rxIns, scl, sda, p + 1)
    ensures rxIns(p).sclPosedge && rxIns(p + 1).sda == bits[k]
  {
  }

  lemma {:induction false} OfferedStep(rxIns: nat -> BusRxFlow.In, p: nat)
    requires p >= 1
    ensures BusRxFlow.Offered(rxIns, p + 2)
         == BusRxFlow.Offered(rxIns, p + 1) + (if rxIns(p).sclPosedge then [rxIns(p + 1).sda] else [])
  {
  }

  /** The bits offered to the receiver are those sent so far: `k` rising edges lie two clocks back. */
  lemma {:induction false} OffersSentBits(bits: seq<bool>, scl: Line, sda: Line, rise: nat -> nat,
                                          rxIns: nat -> BusRxFlow.In, k: nat, n: nat)
    requires forall j: nat :: RisesAt(scl, rise, j)
    requires Samples(bits, sda, rise) && k <= |bits|
    requires forall m: nat :: Follows(rxIns, scl, sda, m)
    requires (k > 0 ==> rise(k - 1) + 2 <= n) && n < rise(k) + 2
    ensures BusRxFlow.Offered(rxIns, n) == bits[..k]
    decreases n
  {
    assert RisesAt(scl, rise, k);
    if k > 0 { assert RisesAt(scl, rise, k - 1); }
    if k > 1 { assert RisesAt(scl, rise, k - 2); }
    if n > 2 {
      var p := n - 2;
      assert Follows(rxIns, scl, sda, p) && Follows(rxIns, scl, sda, p + 1);
      OfferedStep(rxIns, p);
      if k > 0 && p == rise(k - 1) {
        OffersSentBits(bits, scl, sda, rise, rxIns, k - 1, n - 1);
        assert SampleAt(bits, sda, rise, k - 1);
        OffersOneBit(bits, scl, sda, rise, rxIns, k - 1, p);
        assert bits[..k - 1] + [bits[k - 1]] == bits[..k];
      } else {
        OffersSentBits(bits, scl, sda, rise, rxIns, k, n - 1);
        assert !Rose(scl, p);
      }
    }
  }

  lemma LongerLows(items: seq<Item>, tm: BusTx.Timing, fall: nat -> nat, rise: nat -> nat, lag: nat)
    requires LongLows(items, tm, fall, rise, lag)
    ensures LongLows(items, tm, fall, rise, 0)
  {
    forall k: nat | k < Total(items) ensures fall(k) + LowNeeded(items, tm, k) + 0 <= rise(k) {
      assert fall(k) + LowNeeded(items, tm, k) + lag <= rise(k);
    }
  }

  /** In the clock of each rising edge and the one after it, the delayed line carries the bit. */
  lemma LinkSamples(items: seq<Item>, bytes: seq<Bits8>, tm: BusTx.Timing,
                    scl: Line, fall: nat -> nat, rise: nat -> nat, lag: nat,
                    start: BusTxFlow.Regs, sendRun: nat -> Sys, sent: Line)
    requires AreBytes(items, bytes)
    requires Clocked(scl, fall, rise) && LongLows(items, tm, fall, rise, lag)
    requires AtRest(start, tm) && IsRun(items, tm, scl, start, sendRun, sent)
    ensures Samples(Concat(bytes), Delayed(sent, lag), rise)
  {
    LongerLows(items, tm, fall, rise, lag);
    var sda := Delayed(sent, lag);
    forall k: nat | k < 8 * |bytes| ensures SampleAt(Concat(bytes), sda, rise, k) {
      BytesBits(items, bytes, k);
      var bit := BitAt(items, k);
      assert rise(k) < fall(k + 1);
      assert fall(k) + LowNeeded(items, tm, k) + lag <= rise(k);
      SlotWindow(items, tm, scl, fall, rise, start, sendRun, sent, k, bit, rise(k) - lag);
      SlotWindow(items, tm, scl, fall, rise, start, sendRun, sent, k, bit, rise(k) + 1 - lag);
    }
  }

  lemma LinkOffers(bits: seq<bool>, scl: Line, sda: Line, fall: nat -> nat, rise: nat -> nat,
                   monIns: nat -> BusMonitor.In, monRun: nat -> BusMonitor.Regs, rxIns: nat -> BusRxFlow.In, n: nat)
    requires bits != [] && n == rise(|bits| - 1) + 2
    requires Clocked(scl, fall, rise) && Samples(bits, sda, rise)
    requires Sees(monIns, scl, sda) && Feeds(rxIns, monIns, monRun) && BusEvents.IsRun(monIns, monRun)
    ensures BusRxFlow.Offered(rxIns, n) == bits
  {
    forall j: nat ensures RisesAt(scl, rise, j) { RisingEdges(scl, fall, rise, j); }
    forall m: nat ensures Follows(rxIns, scl, sda, m) {
      ReceiverInputs(rxIns, monIns, monRun, scl, sda, m);
    }
    assert RisesAt(scl, rise, |bits| - 1);
    OffersSentBits(bits, scl, sda, rise, rxIns, |bits|, n);
    assert bits[..|bits|] == bits;
  }

  /** The receiving side: its monitor, and the receiver behind it. */
  ghost predicate Receives(scl: Line, sda: Line, monIns: nat -> BusMonitor.In, monRun: nat -> BusMonitor.Regs,
                           rxIns: nat -> BusRxFlow.In, rxRun: nat -> BusRxFlow.Regs) {
    && Sees(monIns, scl, sda) && BusEvents.IsRun(monIns, monRun)
    && Feeds(rxIns, monIns, monRun) && BusRxFlow.IsRun(BusRxFlow.RESET, rxIns, rxRun)
  }

  lemma ReportsSampled(bits: seq<bool>, scl: Line, sda: Line, fall: nat -> nat, rise: nat -> nat,
                       monIns: nat -> BusMonitor.In, monRun: nat -> BusMonitor.Regs,
                       rxIns: nat -> BusRxFlow.In, rxRun: nat -> BusRxFlow.Regs, n: nat)
    requires bits != [] && n == rise(|bits| - 1) + 2
    requires Clocked(scl, fall, rise) && Samples(bits, sda, rise)
    requires Receives(scl, sda, monIns, monRun, rxIns, rxRun)
    ensures BusRxFlow.Reported(rxIns, rxRun, n) == Group(bits)
  {
    LinkOffers(bits, scl, sda, fall, rise, monIns, monRun, rxIns, n);
    ReceiverIsHeld(rxIns, monIns, monRun, scl, sda);
    forall m: nat ensures rxIns(m).reqByte && !rxIns(m).reqBit && BusRxFlow.Separate(rxIns, m) {}
    BusRxFlow.ReportsGroups(BusRxFlow.RESET, rxIns, rxRun, n);
  }

  /** The round trip: with low phases that are long enough, the receiver reports exactly the bytes that
      were handed to the sender, in order, by two clocks after the last rising edge. */
  lemma BytesArrive(items: seq<Item>, bytes: seq<Bits8>, tm: BusTx.Timing,
                    scl: Line, fall: nat -> nat, rise: nat -> nat, lag: nat,
                    start: BusTxFlow.Regs, sendRun: nat -> Sys,
                    monIns: nat -> BusMonitor.In, monRun: nat -> BusMonitor.Regs,
                    rxIns: nat -> BusRxFlow.In, rxRun: nat -> BusRxFlow.Regs, sent: Line)
    requires AreBytes(items, bytes) && bytes != []
    requires Clocked(scl, fall, rise) && LongLows(items, tm, fall, rise, lag)
    requires AtRest(start, tm) && IsRun(items, tm, scl, start, sendRun, sent)
    requires Receives(scl, Delayed(sent, lag), monIns, monRun, rxIns, rxRun)
    ensures BusRxFlow.Reported(rxIns, rxRun, rise(8 * |bytes| - 1) + 2) == bytes
  {
    var n := rise(8 * |bytes| - 1) + 2;
    var sda := Delayed(sent, lag);
    LinkSamples(items, bytes, tm, scl, fall, rise, lag, start, sendRun, sent);
    ReportsSampled(Concat(bytes), scl, sda, fall, rise, monIns, monRun, rxIns, rxRun, n);
    GroupConcat(bytes);
  }

  // ---------------------------------------------------------------- low phases of any length

  /** The `k`-th bit as it is read: with a low phase that is too short, what was on the line before it is read
      with it. */
  ghost predicate ReadBit(items: seq<Item>, tm: BusTx.Timing, fall: nat -> nat, rise: nat -> nat, lag: nat, k: nat)
    requires k < Total(items)
  {
    BitAt(items, k) || (rise(k) < fall(k) + LowNeeded(items, tm, k) + lag && Early(items, tm, k))
  }

  ghost function ReadBits(items: seq<Item>, tm: BusTx.Timing, fall: nat -> nat, rise: nat -> nat, lag: nat)
    : (s: seq<bool>)
    ensures |s| == Total(items)
  {
    seq(Total(items), k requires 0 <= k < Total(items) => ReadBit(items, tm, fall, rise, lag, k))
  }

  lemma LooserLows(items: seq<Item>, tm: BusTx.Timing, fall: nat -> nat, rise: nat -> nat, lag: nat)
    requires LooseLows(items, tm, fall, rise, lag)
    ensures LooseLows(items, tm, fall, rise, 0)
  {
    forall k: nat | k < Total(items)
      ensures Begins(tm, fall, k) + 0 <= rise(k) && Begins(tm, fall, k) + tm.SetupDelay() < fall(k + 1)
    {
      assert Begins(tm, fall, k) + lag <= rise(k);
    }
  }

  /** Only a setup time can keep the line from a bit for more than a clock. */
  lemma LongNeed(items: seq<Item>, tm: BusTx.Timing, fall: nat -> nat, k: nat, p: nat)
    requires k < Total(items) && Begins(tm, fall, k) <= p && p + 1 < fall(k) + LowNeeded(items, tm, k)
    ensures Early(items, tm, k)
  {
  }

  lemma ReadAt(items: seq<Item>, tm: BusTx.Timing, scl: Line, fall: nat -> nat, rise: nat -> nat,
               start: BusTxFlow.Regs, sendRun: nat -> Sys, sent: Line, k: nat, p: nat,
               need: nat, bit: bool, early: bool)
    requires Clocked(scl, fall, rise) && LooseLows(items, tm, fall, rise, 0)
    requires AtRest(start, tm) && IsRun(items, tm, scl, start, sendRun, sent)
    requires k < Total(items) && Begins(tm, fall, k) <= p < fall(k + 1)
    requires need == fall(k) + LowNeeded(items, tm, k) && bit == BitAt(items, k) && early == Early(items, tm, k)
    ensures (sent(p + 1) || sent(p)) == (bit || (p < need && early))
  {
    SlotReads(items, tm, scl, fall, rise, start, sendRun, sent, k, p);
    SlotReads(items, tm, scl, fall, rise, start, sendRun, sent, k, p + 1);
    if p + 1 < need { LongNeed(items, tm, fall, k, p); }
  }

  lemma LinkReads(items: seq<Item>, tm: BusTx.Timing, scl: Line, fall: nat -> nat, rise: nat -> nat, lag: nat,
                  start: BusTxFlow.Regs, sendRun: nat -> Sys, sent: Line)
    requires Clocked(scl, fall, rise) && LooseLows(items, tm, fall, rise, lag)
    requires AtRest(start, tm) && IsRun(items, tm, scl, start, sendRun, sent)
    ensures Samples(ReadBits(items, tm, fall, rise, lag), Delayed(sent, lag), rise)
  {
    var bits := ReadBits(items, tm, fall, rise, lag);
    var late := Delayed(sent, lag);
    LooserLows(items, tm, fall, rise, lag);
    forall k: nat | k < |bits| ensures SampleAt(bits, late, rise, k) {
      assert Begins(tm, fall, k) + lag <= rise(k) < fall(k + 1);
      var p := rise(k) - lag;
      ReadAt(items, tm, scl, fall, rise, start, sendRun, sent, k, p,
             fall(k) + LowNeeded(items, tm, k), BitAt(items, k), Early(items, tm, k));
      assert late(rise(k)) == sent(p) && late(rise(k) + 1) == sent(p + 1);
    }
  }

  /** The `k`-th bit is read as it was sent: its low phase is long enough, or it is a one, or what was on the line
      before it is a zero. */
  ghost predicate ReadRight(items: seq<Item>, tm: BusTx.Timing, fall: nat -> nat, rise: nat -> nat, lag: nat, k: nat)
    requires k < Total(items)
  {
    fall(k) + LowNeeded(items, tm, k) + lag <= rise(k) || BitAt(items, k) || !Early(items, tm, k)
  }

  /** Bits that fill bytes are told from each other by the bytes. */
  lemma {:induction false} GroupInjective(a: seq<bool>, b: seq<bool>)
    requires |a| == |b| && |a| % 8 == 0
    ensures Group(a) == Group(b) <==> a == b
  {
    if a != [] {
      GroupInjective(a[8..], b[8..]);
      assert a == a[..8] + a[8..] && b == b[..8] + b[8..];
      if Group(a) == Group(b) {
        assert Group(a)[0] == a[..8] && Group(b)[0] == b[..8];
        assert Group(a)[1..] == Group(a[8..]) && Group(b)[1..] == Group(b[8..]);
      }
    }
  }

  lemma ReadBitsIff(items: seq<Item>, bytes: seq<Bits8>, tm: BusTx.Timing, fall: nat -> nat, rise: nat -> nat, lag: nat)
    requires AreBytes(items, bytes)
    ensures Total(items) == 8 * |bytes|
    ensures Group(ReadBits(items, tm, fall, rise, lag)) == bytes
       <==> forall k: nat | k < Total(items) :: ReadRight(items, tm, fall, rise, lag, k)
  {
    var bits := ReadBits(items, tm, fall, rise, lag);
    BytesSlot(items, bytes, 0);
    forall k: nat | k < Total(items)
      ensures bits[k] == Concat(bytes)[k] <==> ReadRight(items, tm, fall, rise, lag, k)
    {
      BytesBits(items, bytes, k);
    }
    GroupConcat(bytes);
    GroupInjective(bits, Concat(bytes));
  }

  /** With low phases in which every bit starts, of any length beyond that: the receiver reports the bytes whose
      bits are read, and these are the bytes that were sent if and only if every bit is read right. */
  lemma BytesArriveIff(items: seq<Item>, bytes: seq<Bits8>, tm: BusTx.Timing,
                       scl: Line, fall: nat -> nat, rise: nat -> nat, lag: nat,
                       start: BusTxFlow.Regs, sendRun: nat -> Sys,
                       monIns: nat -> BusMonitor.In, monRun: nat -> BusMonitor.Regs,
                       rxIns: nat -> BusRxFlow.In, rxRun: nat -> BusRxFlow.Regs, sent: Line, n: nat)
    requires AreBytes(items, bytes) && bytes != [] && n == rise(8 * |bytes| - 1) + 2
    requires Clocked(scl, fall, rise) && LooseLows(items, tm, fall, rise, lag)
    requires AtRest(start, tm) && IsRun(items, tm, scl, start, sendRun, sent)
    requires Receives(scl, Delayed(sent, lag), monIns, monRun, rxIns, rxRun)
    ensures BusRxFlow.Reported(rxIns, rxRun, n) == Group(ReadBits(items, tm, fall, rise, lag))
    ensures BusRxFlow.Reported(rxIns, rxRun, n) == bytes
       <==> forall k: nat | k < Total(items) :: ReadRight(items, tm, fall, rise, lag, k)
  {
    var bits := ReadBits(items, tm, fall, rise, lag);
    ReadBitsIff(items, bytes, tm, fall, rise, lag);
    LinkReads(items, tm, scl, fall, rise, lag, start, sendRun, sent);
    ReportsSampled(bits, scl, Delayed(sent, lag), fall, rise, monIns, monRun, rxIns, rxRun, n);
  }

  // ---------------------------------------------------------------- bytes and single bits

  /** SDA as the monitor hands it on: a falling level is seen one clock late. */
  ghost function Seen(sda: Line): Line { (n: nat) => sda(n) || Prev(sda, n) }

  /** A single bit is taken at the edge itself, so its low phase is one clock longer. */
  ghost predicate LongerForBits(items: seq<Item>, tm: BusTx.Timing, fall: nat -> nat, rise: nat -> nat, lag: nat) {
    forall k: nat {:trigger rise(k)} | k < Total(items) && items[SlotAt(items, k).j].Bit? ::
      fall(k) + LowNeeded(items, tm, k) + lag + 1 <= rise(k)
  }

  /** The receiver answers the requests `items`, its edges and values coming from the monitor. */
  ghost predicate AnswersThrough(items: seq<Item>, monIns: nat -> BusMonitor.In, monRun: nat -> BusMonitor.Regs,
                                 run: nat -> RxSys) {
    RxStarts(run(0)) && forall n: nat :: AnswerStep(items, monIns, monRun, run, n)
  }

  ghost predicate AnswerStep(items: seq<Item>, monIns: nat -> BusMonitor.In, monRun: nat -> BusMonitor.Regs,
                             run: nat -> RxSys, n: nat) {
    var j := run(n).j;
    run(n + 1) == RxStep(|items|, BusRxFlow.In(BusEvents.SclAt(monIns, monRun, n).posEdge,
                                               BusEvents.SdaAt(monIns, monRun, n).value,
                                               j < |items| && items[j].Bit?, j < |items| && items[j].Byte?), run(n))
  }

  lemma MonitorWires(monIns: nat -> BusMonitor.In, monRun: nat -> BusMonitor.Regs, scl: Line, sda: Line, n: nat)
    requires Sees(monIns, scl, sda) && BusEvents.IsRun(monIns, monRun)
    ensures BusEvents.SclAt(monIns, monRun, n).posEdge == Rose(scl, n)
    ensures BusEvents.SdaAt(monIns, monRun, n).value == Seen(sda)(n)
  {
    assert BusEvents.ConstantDelays(monIns, 0, 0);
    BusEvents.ZeroDelayWires(monIns, monRun, n);
    assert BusEvents.SclLine(monIns)(n) == scl(n) && BusEvents.SdaLine(monIns)(n) == sda(n);
    assert n > 0 ==> BusEvents.SclLine(monIns)(n - 1) == scl(n - 1) && BusEvents.SdaLine(monIns)(n - 1) == sda(n - 1);
  }

  lemma AnswersAreRun(items: seq<Item>, monIns: nat -> BusMonitor.In, monRun: nat -> BusMonitor.Regs,
                      scl: Line, sda: Line, run: nat -> RxSys)
    requires Sees(monIns, scl, sda) && BusEvents.IsRun(monIns, monRun)
    requires AnswersThrough(items, monIns, monRun, run)
    ensures IsRxRun(items, scl, Seen(sda), run)
  {
    forall n: nat ensures RxStepsTo(items, scl, Seen(sda), run, n) {
      MonitorWires(monIns, monRun, scl, sda, n);
      assert AnswerStep(items, monIns, monRun, run, n);
    }
  }

  /** The monitor hands on what was sent `lag` clocks ago, if the line did not move in between. */
  lemma SeenSent(sent: Line, lag: nat, n: nat, bit: bool)
    requires lag < n && sent(n - lag) == bit && sent(n - 1 - lag) == bit
    ensures Seen(Delayed(sent, lag))(n) == bit
  {
    var late := Delayed(sent, lag);
    assert late(n) == bit && late(n - 1) == bit;
    assert Seen(late)(n) == (late(n) || Prev(late, n));
  }

  lemma LinkSampled(items: seq<Item>, tm: BusTx.Timing, scl: Line, fall: nat -> nat, rise: nat -> nat, lag: nat,
                    start: BusTxFlow.Regs, sendRun: nat -> Sys, sent: Line)
    requires Sending(items, tm, scl, fall, rise, start, sendRun, sent)
    requires LongLows(items, tm, fall, rise, lag) && LongerForBits(items, tm, fall, rise, lag)
    ensures AllSampled(items, Seen(Delayed(sent, lag)), rise)
  {
    forall k: nat | k < Total(items) ensures SampledAt(items, Seen(Delayed(sent, lag)), rise, k) {
      var n := if items[SlotAt(items, k).j].Byte? then rise(k) + 1 else rise(k);
      assert fall(k) + LowNeeded(items, tm, k) + lag <= rise(k) < fall(k + 1);
      var bit := BitAt(items, k);
      SlotWindow(items, tm, scl, fall, rise, start, sendRun, sent, k, bit, n - lag);
      SlotWindow(items, tm, scl, fall, rise, start, sendRun, sent, k, bit, n - 1 - lag);
      SeenSent(sent, lag, n, bit);
    }
  }

  /** The round trip of any mix of bytes and single bits: with low phases that are long enough, the receiver
      answers every request of the same list with what was sent, if and only if no edge comes while it is deaf. */
  lemma ItemsArriveIff(items: seq<Item>, tm: BusTx.Timing, scl: Line, fall: nat -> nat, rise: nat -> nat, lag: nat,
                       start: BusTxFlow.Regs, sendRun: nat -> Sys, sent: Line,
                       monIns: nat -> BusMonitor.In, monRun: nat -> BusMonitor.Regs, rxRun: nat -> RxSys)
    requires Clocked(scl, fall, rise) && AtRest(start, tm) && IsRun(items, tm, scl, start, sendRun, sent)
    requires LongLows(items, tm, fall, rise, lag) && LongerForBits(items, tm, fall, rise, lag)
    requires Sees(monIns, scl, Delayed(sent, lag)) && BusEvents.IsRun(monIns, monRun)
    requires AnswersThrough(items, monIns, monRun, rxRun) && items != []
    ensures rxRun(rise(Total(items) - 1) + 2).got == Answers(items) <==> Spaced(items, rise)
  {
    LongerLows(items, tm, fall, rise, lag);
    LinkSampled(items, tm, scl, fall, rise, lag, start, sendRun, sent);
    AnswersAreRun(items, monIns, monRun, scl, Delayed(sent, lag), rxRun);
    forall k: nat ensures RisesAt(scl, rise, k) { RisingEdges(scl, fall, rise, k); }
    ReceivedIff(items, scl, Seen(Delayed(sent, lag)), rise, rxRun);
  }

  // ---------------------------------------------------------------- what others see

  lemma EdgesWithinFirst(scl: Line, fall: nat -> nat, rise: nat -> nat)
    requires Clocked(scl, fall, rise) && fall(0) == 0
    ensures !scl(0)
  {
    assert fall(0) < rise(0) < fall(0 + 1);
    EdgesWithin(scl, fall, rise, 0, 0);
  }

  /** Whatever mix of bytes and single bits is sent, a monitor on the same bus detects no START,
      repeated START or STOP, in any clock of the run. */
  lemma SendingIsSilent(items: seq<Item>, tm: BusTx.Timing, scl: Line, fall: nat -> nat, rise: nat -> nat,
                        start: BusTxFlow.Regs, sendRun: nat -> Sys, sda: Line,
                        monIns: nat -> BusMonitor.In, monRun: nat -> BusMonitor.Regs, n: nat)
    requires Clocked(scl, fall, rise) && LongLows(items, tm, fall, rise, 0)
    requires AtRest(start, tm) && IsRun(items, tm, scl, start, sendRun, sda)
    requires Sees(monIns, scl, sda) && BusEvents.IsRun(monIns, monRun)
    ensures !BusEvents.Started(monIns, monRun, n) && !BusEvents.Stopped(monIns, monRun, n)
  {
    if fall(0) > 0 {
      ReleasedBefore(items, tm, scl, fall, rise, start, sendRun, sda, 0);
    } else {
      EdgesWithinFirst(scl, fall, rise);
    }
    forall m: nat ensures !MovesWhileHigh(BusEvents.SclLine(monIns), BusEvents.SdaLine(monIns), m) {
      NeverMovesWhileHigh(items, tm, scl, fall, rise, start, sendRun, sda, m);
      assert monIns(m).scl == scl(m) && monIns(m + 1).scl == scl(m + 1);
      assert monIns(m).sda == sda(m) && monIns(m + 1).sda == sda(m + 1);
    }
    assert monIns(0).scl == scl(0) && monIns(0).sda == sda(0);
    assert BusEvents.ConstantDelays(monIns, 0, 0);
    assert forall m: nat :: monIns(m).enable;
    BusEvents.SilentIffStill(monIns, monRun);
  }

  // ---------------------------------------------------------------- the low phase can not be shorter

  /** The deadline of a bit is exact: begun in cycle 0 and sampled after a rising edge at `p`, it reads
      as sent if and only if it is a one or its setup delay is over by then. */
  lemma ShortLowReadsOne(r0: BusTx.Regs, ins: nat -> BusTx.In, f: nat, tm: BusTx.Timing, value: bool, p: nat)
    requires BusTx.OneBit(r0, ins, f, tm, value) && tm.SetupDelay() < f && p < f
    ensures var sda := BusTxSafety.SdaLine(r0, ins);
            (sda(p) || sda(p + 1)) == value <==> value || tm.SetupDelay() <= p
  {
    BusTx.BitWindow(r0, ins, f, tm, value);
    var sda := BusTxSafety.SdaLine(r0, ins);
    assert p + 1 <= f + tm.hold;
    assert p < tm.SetupDelay() ==> sda(p);
    assert tm.SetupDelay() <= p ==> sda(p) == value && sda(p + 1) == value;
  }

  /** The extra clock of a byte that follows another request: with no setup delay, the decision state
      drives the least significant bit of the new byte for one clock, then the most significant one, so the
      byte starts in time if and only if the two are equal. */
  lemma DecisionDrivesLastBit(r: BusTxFlow.Regs, i: BusTxFlow.In, i2: BusTxFlow.In)
    requires r.state.NextTaskDecision? && r.bitCounter == 7
    requires r.tx.state.Idle? && r.tx.Settled(i.tm) && i.tm.SetupDelay() == 0
    requires i.reqByte && !i.reqBit && i.sclStableLow && i2.reqByte && !i2.reqBit
    ensures BusTxFlow.Sda(r, i) == i.reqValue[7]
    ensures BusTxFlow.Sda(BusTxFlow.Next(r, i), i2) == i.reqValue[0]
    ensures BusTxFlow.Sda(r, i) == i.reqValue[0] <==> i.reqValue[0] == i.reqValue[7]
  {
  }
}
