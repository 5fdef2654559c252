/** Whole sessions with the command receiver, from reset on: a START, the address byte, a packet; one after the
    other; and the packets that the test library sends. */
module RecoverySessions {
  import opened Pec
  import opened RecoveryFrame
  import opened RecoveryReceiver

  // ---------------------------------------------------------------- the receiver wakes up

  /** From reset on the receiver sleeps until a start or a pending transfer, and listens in the clock after. */
  lemma {:induction false} WakesAtFirst(ins: nat -> In, run: nat -> Regs, n: nat)
    requires IsRun(RESET, ins, run) && forall m: nat | m < n :: !ins(m).start && !ins(m).pending
    ensures run(n).state.Idle? && run(n).select && !run(n).startR
    ensures ins(n).start || ins(n).pending <==> run(n + 1).state.RxCmd?
    ensures run(n + 1).state.RxCmd? || run(n + 1).state.Idle?
  {
    assert StepsTo(ins, run, n);
    if n > 0 {
      WakesAtFirst(ins, run, n - 1);
      assert StepsTo(ins, run, n - 1);
    }
  }

  /** Between two commands, while one is executed, or waiting for one. */
  predicate Rested(r: Regs) {
    r.select && (r.state.Idle? || r.state.RxCmd? || r.state.CmdIsRd? || r.state.Cmd? || r.state.Busy?)
  }

  /** It stays so as long as no bytes come. */
  lemma {:induction false} StaysRested(ins: nat -> In, run: nat -> Regs, a: nat, n: nat)
    requires (forall m: nat :: StepsTo(ins, run, m)) && Rested(run(a)) && a <= n
    requires forall m: nat | a <= m < n :: !ins(m).valid
    ensures Rested(run(n)) && run(n).queued == run(a).queued
  {
    if a < n {
      StaysRested(ins, run, a, n - 1);
      assert StepsTo(ins, run, n - 1);
    }
  }

  /** A start was seen: the receiver listens, or will when the command under way is done. */
  predicate Called(r: Regs) {
    && r.select
    && (r.state.RxCmd? || (r.startR && (r.state.Idle? || r.state.CmdIsRd? || r.state.Cmd? || r.state.Busy?)))
  }

  /** One clock between the start and the packet: there is no further start and no stop, the address byte comes once,
      and bytes behind it have to wait while the receiver is not ready. */
  predicate Approaches(addr: Byte, i: In, r: Regs, isAddr: bool, behind: bool) {
    && !i.start && !i.stop && i.init == isAddr && (isAddr ==> i.addr == addr)
    && (i.valid ==> behind && i.pending && !r.dataReady)
  }

  lemma CallStep(addr: Byte, r: Regs, i: In, isAddr: bool, behind: bool)
    requires Called(r) && Approaches(addr, i, r, isAddr, behind)
    ensures var r' := Next(r, i);
            Called(r') && r'.queued == r.queued && r'.crc == if isAddr then Feed(ZERO, addr) else r.crc
    ensures r.state.RxCmd? ==> Next(r, i).state.RxCmd?
    ensures r.state.Idle? ==> Next(r, i).state.RxCmd?
    ensures r.state.Busy? && i.done ==> Next(r, i).state.Idle?
  {
  }

  ghost predicate ApproachesAt(addr: Byte, ins: nat -> In, run: nat -> Regs, c: nat, m: nat) {
    Approaches(addr, ins(m), run(m), m == c, c < m)
  }

  /** A start in clock `a`, the address byte in clock `c`, and from clock `b` on the bytes of a packet. */
  ghost predicate Calls(addr: Byte, ins: nat -> In, run: nat -> Regs, a: nat, c: nat, b: nat) {
    && a < c < b && ins(a).start && !ins(a).stop && !ins(a).valid
    && forall m: nat | a < m < b :: ApproachesAt(addr, ins, run, c, m)
  }

  /** Between start and packet. */
  lemma {:induction false} CallHolds(addr: Byte, ins: nat -> In, run: nat -> Regs, a: nat, c: nat, b: nat, n: nat)
    requires (forall m: nat :: StepsTo(ins, run, m)) && Rested(run(a)) && Calls(addr, ins, run, a, c, b) && a < n <= b
    ensures Called(run(n)) && run(n).queued == run(a).queued
    ensures run(n).crc == if c < n then Feed(ZERO, addr) else ZERO
    ensures run(a).state.Idle? || run(a).state.RxCmd? ==> run(n).state.RxCmd?
  {
    if n == a + 1 {
      assert StepsTo(ins, run, a);
    } else {
      CallHolds(addr, ins, run, a, c, b, n - 1);
      assert StepsTo(ins, run, n - 1) && ApproachesAt(addr, ins, run, c, n - 1);
      CallStep(addr, run(n - 1), ins(n - 1), n - 1 == c, c < n - 1);
    }
  }

  /** A start that falls while a command is executed is remembered: two clocks after that is done, in clock `d`, the
      receiver listens. */
  lemma BusyListens(addr: Byte, ins: nat -> In, run: nat -> Regs, a: nat, c: nat, b: nat, d: nat)
    requires (forall m: nat :: StepsTo(ins, run, m)) && Rested(run(a)) && Calls(addr, ins, run, a, c, b)
    requires a < d && d + 2 <= b && run(d).state.Busy? && ins(d).done
    ensures run(d + 1).state.Idle? && run(d + 2).state.RxCmd?
  {
    CallHolds(addr, ins, run, a, c, b, d);
    assert StepsTo(ins, run, d) && ApproachesAt(addr, ins, run, c, d);
    CallStep(addr, run(d), ins(d), d == c, c < d);
    CallHolds(addr, ins, run, a, c, b, d + 1);
    assert StepsTo(ins, run, d + 1) && ApproachesAt(addr, ins, run, c, d + 1);
    CallStep(addr, run(d + 1), ins(d + 1), d + 1 == c, c < d + 1);
  }

  /** Bytes that come while a read is executed are not kept: after a read the receiver is still ready for bytes, but
      nowhere to take them. */
  lemma BusyAfterReadSwallows(r: Regs, i: In)
    requires r.state.Busy? && r.select && r.dataReady && i.pending && i.valid
    ensures Takes(r, i) && Next(r, i).header == r.header && Next(r, i).queued == r.queued
    ensures Next(r, i).dcnt == r.dcnt && (Next(r, i).state.Busy? || Next(r, i).state.Idle?)
  {
  }

  // ---------------------------------------------------------------- sessions

  ghost function InsFrom(ins: nat -> In, c: nat): nat -> In { (n: nat) => ins(c + n) }
  ghost function RunFrom(run: nat -> Regs, c: nat): nat -> Regs { (n: nat) => run(c + n) }

  lemma CrcOfAddress(addr: Byte)
    ensures Feed(ZERO, addr) == Crc([addr])
  {
    assert [addr][..0] == [];
    assert CrcFrom(ZERO, [addr]) == Feed(CrcFrom(ZERO, []), addr);
  }

  lemma StepsFrom(ins: nat -> In, run: nat -> Regs, b: nat)
    requires forall m: nat :: StepsTo(ins, run, m)
    ensures forall n: nat :: StepsTo(InsFrom(ins, b), RunFrom(run, b), n)
  {
    forall n: nat ensures StepsTo(InsFrom(ins, b), RunFrom(run, b), n) { assert StepsTo(ins, run, b + n); }
  }

  /** A write: START in clock `a`, address byte in clock `c`, bytes from clock `b` on, in which the receiver listens. */
  ghost predicate WriteSession(w: Write, addr: Byte, ins: nat -> In, run: nat -> Regs, a: nat, c: nat, b: nat) {
    && Calls(addr, ins, run, a, c, b) && run(b).state.RxCmd?
    && w.Valid() && w.sum(0) == Crc([addr]) && w.before == run(a).queued
    && forall n: nat :: Serves(w, InsFrom(ins, b), RunFrom(run, b), n)
  }

  lemma SessionWrites(w: Write, addr: Byte, ins: nat -> In, run: nat -> Regs, a: nat, c: nat, b: nat)
    requires (forall m: nat :: StepsTo(ins, run, m)) && Rested(run(a)) && WriteSession(w, addr, ins, run, a, c, b)
    ensures Writes(w, InsFrom(ins, b), RunFrom(run, b))
  {
    CallHolds(addr, ins, run, a, c, b, b);
    CrcOfAddress(addr);
    StepsFrom(ins, run, b);
    assert ListensFor(w, RunFrom(run, b)(0));
  }

  ghost predicate FirstCommand(run: nat -> Regs, b: nat, n: nat) {
    b <= n && run(n).state.Cmd? && forall m: nat | b <= m < n :: !run(m).state.Cmd?
  }

  lemma FirstIsNotBefore(run: nat -> Regs, b: nat, n: nat)
    requires FirstCommand(run, b, n)
    ensures NotBefore(RunFrom(run, b), n - b) && RunFrom(run, b)(n - b).state.Cmd?
  {
  }

  lemma CommandFrom(run: nat -> Regs, b: nat)
    ensures (exists n: nat :: FirstCommand(run, b, n)) <==> (exists k: nat :: RunFrom(run, b)(k).state.Cmd?)
  {
    var run' := RunFrom(run, b);
    if n: nat :| FirstCommand(run, b, n) { assert run'(n - b).state.Cmd?; }
    if k: nat :| run'(k).state.Cmd? {
      var m := First(run', k);
      forall j: nat | b <= j < b + m ensures !run(j).state.Cmd? { assert !run'(j - b).state.Cmd?; }
      assert FirstCommand(run, b, b + m);
    }
  }

  /** No data byte comes too soon from clock `b` on, until the command. */
  ghost predicate KeptFrom(ins: nat -> In, run: nat -> Regs, b: nat) {
    NeverTooSoon(InsFrom(ins, b), RunFrom(run, b))
  }

  /** From wherever the receiver rests, a write that is called for is passed on, in some clock, if and only if it has
      data and none of them comes in the clock after the header. */
  lemma SessionComesIff(w: Write, addr: Byte, ins: nat -> In, run: nat -> Regs, a: nat, c: nat, b: nat)
    requires (forall m: nat :: StepsTo(ins, run, m)) && Rested(run(a)) && WriteSession(w, addr, ins, run, a, c, b)
    requires OffersAll(w, InsFrom(ins, b), RunFrom(run, b))
    ensures (exists n: nat :: FirstCommand(run, b, n)) <==> |w.bytes| > 4 && KeptFrom(ins, run, b)
  {
    SessionWrites(w, addr, ins, run, a, c, b);
    CommandComesIff(w, InsFrom(ins, b), RunFrom(run, b));
    CommandFrom(run, b);
  }

  /** What arrives, and that the receiver rests behind it. */
  lemma SessionArrives(w: Write, addr: Byte, ins: nat -> In, run: nat -> Regs, a: nat, c: nat, b: nat, n: nat)
    requires (forall m: nat :: StepsTo(ins, run, m)) && Rested(run(a)) && WriteSession(w, addr, ins, run, a, c, b)
    requires FirstCommand(run, b, n)
    ensures |w.bytes| > 4 && Delivered(w, run(n)) && Rested(run(n))
  {
    SessionWrites(w, addr, ins, run, a, c, b);
    FirstIsNotBefore(run, b, n);
    CommandArrives(w, InsFrom(ins, b), RunFrom(run, b), n - b);
  }

  /** Bytes that are offered while a write is executed wait: none is taken until the receiver listens again. */
  lemma {:induction false} BytesWait(ins: nat -> In, run: nat -> Regs, n: nat, m: nat)
    requires (forall k: nat :: StepsTo(ins, run, k)) && n <= m
    requires run(n).state.Cmd? && run(n).select && !run(n).dataReady
    requires forall k: nat | n <= k < m :: !run(k).state.RxCmd? && (ins(k).valid ==> ins(k).pending)
    ensures Rested(run(m)) && !run(m).dataReady && run(m).queued == run(n).queued
    ensures ins(m).valid && ins(m).pending ==> !Takes(run(m), ins(m))
  {
    if n < m {
      BytesWait(ins, run, n, m - 1);
      assert StepsTo(ins, run, m - 1);
    }
  }

  /** While no transfer to this device is pending, its receiver sees nothing of the bytes on the bus: they go into the
      queue, and header and checksum stay. */
  lemma {:induction false} NotAddressed(ins: nat -> In, run: nat -> Regs, a: nat, n: nat)
    requires (forall k: nat :: StepsTo(ins, run, k)) && Rested(run(a)) && a <= n
    requires forall k: nat | a <= k < n :: !ins(k).pending && !ins(k).start && !ins(k).init
    requires !run(a).state.CmdIsRd?
    ensures Rested(run(n)) && run(n).header == run(a).header && run(n).crc == run(a).crc && !run(n).state.CmdIsRd?
    ensures run(n).queued == run(a).queued + Passed(ins, a, n)
  {
    if a < n {
      NotAddressed(ins, run, a, n - 1);
      assert StepsTo(ins, run, n - 1) && !ins(n - 1).pending && !ins(n - 1).start && !ins(n - 1).init;
    }
  }

  /** The bytes that the queue takes. */
  ghost function Passed(ins: nat -> In, a: nat, n: nat): seq<Byte>
    requires a <= n
  {
    if a == n then []
    else Passed(ins, a, n - 1) + if ins(n - 1).valid && ins(n - 1).queueReady then [ins(n - 1).byte] else []
  }

  /** A stop before the command is complete ends it, unless data are expected: the receiver rests, and the next session
      is taken as if nothing had been. */
  lemma StopEndsCommand(ins: nat -> In, run: nat -> Regs, c: nat)
    requires (forall k: nat :: StepsTo(ins, run, k)) && Listens(run(c)) && !Deaf(run(c)) && !run(c).state.RxData?
    requires ins(c).stop && !ins(c).start && !RxFlow(run(c), ins(c))
    ensures Rested(run(c + 1))
    ensures !Rested(run(c)) || run(c).state.RxCmd? ==> run(c + 1).state.Idle?
  {
    assert StepsTo(ins, run, c);
  }

  /** Two writes in a row: the second arrives as the first has, wherever its start falls behind the first command,
      while that is still executed or later. */
  lemma TwoWrites(w1: Write, w2: Write, addr: Byte, ins: nat -> In, run: nat -> Regs,
                  a1: nat, c1: nat, b1: nat, n1: nat, a2: nat, c2: nat, b2: nat, n2: nat)
    requires IsRun(RESET, ins, run) && run(a1).state.Idle? && run(a1).select
    requires WriteSession(w1, addr, ins, run, a1, c1, b1) && FirstCommand(run, b1, n1)
    requires n1 <= a2 && forall m: nat | n1 <= m < a2 :: !ins(m).valid
    requires WriteSession(w2, addr, ins, run, a2, c2, b2) && FirstCommand(run, b2, n2)
    ensures Delivered(w1, run(n1)) && Delivered(w2, run(n2)) && Rested(run(n2))
    ensures run(n2).queued == w1.before + w1.bytes[3..|w1.bytes| - 1] + w2.bytes[3..|w2.bytes| - 1]
  {
    SessionArrives(w1, addr, ins, run, a1, c1, b1, n1);
    StaysRested(ins, run, n1, a2);
    SessionArrives(w2, addr, ins, run, a2, c2, b2, n2);
  }

  // ---------------------------------------------------------------- reads

  /** A read: START, address byte, and the two bytes from clock `b` on. */
  ghost predicate ReadSession(command: Byte, pec: Byte, addr: Byte, ins: nat -> In, run: nat -> Regs,
                              a: nat, c: nat, b: nat) {
    && Calls(addr, ins, run, a, c, b) && run(b).state.RxCmd?
    && forall n: nat :: ServesReadAt(command, pec, InsFrom(ins, b), RunFrom(run, b), n)
  }

  lemma SessionReads(command: Byte, pec: Byte, addr: Byte, ins: nat -> In, run: nat -> Regs, a: nat, c: nat, b: nat)
    requires (forall m: nat :: StepsTo(ins, run, m)) && Rested(run(a))
    requires ReadSession(command, pec, addr, ins, run, a, c, b)
    ensures Reads(command, pec, Crc([addr]), InsFrom(ins, b), RunFrom(run, b))
  {
    CallHolds(addr, ins, run, a, c, b, b);
    CrcOfAddress(addr);
    StepsFrom(ins, run, b);
  }

  lemma ReadPassed(command: Byte, pec: Byte, crc0: Byte, ins: nat -> In, run: nat -> Regs, n: nat)
    requires Reads(command, pec, crc0, ins, run) && RecoveryReceiver.Taken(ins, run, n) == 2 && ins(n).start
    requires forall m: nat | m < n :: NoStartAt(ins, run, m)
    ensures NotBefore(run, n + 2) && run(n + 2).state.Cmd?
  {
    ReadWaits(command, pec, crc0, ins, run, n);
    ReadComes(command, pec, crc0, ins, run, n);
  }

  lemma NotBeforeIsFirst(run: nat -> Regs, b: nat, k: nat)
    requires NotBefore(RunFrom(run, b), k) && RunFrom(run, b)(k).state.Cmd?
    ensures FirstCommand(run, b, b + k)
  {
    forall j: nat | b <= j < b + k ensures !run(j).state.Cmd? { assert !RunFrom(run, b)(j - b).state.Cmd?; }
  }

  /** From wherever the receiver rests, a read that is called for is passed on two clocks after the first start that
      follows its two bytes, and in no clock before. */
  lemma ReadSessionComes(command: Byte, pec: Byte, addr: Byte, ins: nat -> In, run: nat -> Regs,
                         a: nat, c: nat, b: nat, n: nat)
    requires (forall m: nat :: StepsTo(ins, run, m)) && Rested(run(a))
    requires ReadSession(command, pec, addr, ins, run, a, c, b)
    requires RecoveryReceiver.Taken(InsFrom(ins, b), RunFrom(run, b), n) == 2 && ins(b + n).start
    requires forall m: nat | m < n :: NoStartAt(InsFrom(ins, b), RunFrom(run, b), m)
    ensures FirstCommand(run, b, b + n + 2)
  {
    SessionReads(command, pec, addr, ins, run, a, c, b);
    ReadPassed(command, pec, Crc([addr]), InsFrom(ins, b), RunFrom(run, b), n);
    NotBeforeIsFirst(run, b, n + 2);
  }

  // ---------------------------------------------------------------- the packets of the library

  /** The checksums of the first bytes of a list. */
  function Sums(bytes: seq<Byte>, crc0: Byte): nat -> Byte {
    (k: nat) => if k <= |bytes| then CrcFrom(crc0, bytes[..k]) else ZERO
  }

  lemma SumsAt(bytes: seq<Byte>, crc0: Byte, k: nat)
    requires k < |bytes|
    ensures Sums(bytes, crc0)(k + 1) == Feed(Sums(bytes, crc0)(k), bytes[k])
  {
    assert bytes[..k + 1][..k] == bytes[..k];
  }

  /** The bytes of a write as the test library sends them, for a checksum that starts from `crc0`. */
  function Packet(command: Byte, data: seq<Byte>, pec: Byte, crc0: Byte, before: seq<Byte>): (w: Write)
    ensures w.bytes == Command(command, true, data) + [pec] && w.before == before
  {
    var bytes := Command(command, true, data) + [pec];
    Write(bytes, Val(OfNat(|data|)), Val(OfNat(|data| / 256)), Sums(bytes, crc0), before)
  }

  lemma PacketAt(command: Byte, data: seq<Byte>, pec: Byte, crc0: Byte, before: seq<Byte>, k: nat)
    requires k < |Packet(command, data, pec, crc0, before).bytes|
    ensures Packet(command, data, pec, crc0, before).ValidAt(k)
  {
    SumsAt(Packet(command, data, pec, crc0, before).bytes, crc0, k);
  }

  lemma PacketValid(command: Byte, data: seq<Byte>, pec: Byte, crc0: Byte, before: seq<Byte>)
    requires |data| < 0x1_0000
    ensures Packet(command, data, pec, crc0, before).Valid() && Packet(command, data, pec, crc0, before).sum(0) == crc0
  {
    var w := Packet(command, data, pec, crc0, before);
    LengthField(|data|);
    ValOfNat(|data|);
    ValOfNat(|data| / 256);
    forall k: nat | k < |w.bytes| ensures w.ValidAt(k) { PacketAt(command, data, pec, crc0, before, k); }
  }

  /** What the receiver has taken when a packet is delivered. */
  lemma PacketDelivered(command: Byte, data: seq<Byte>, pec: Byte, crc0: Byte, before: seq<Byte>, r: Regs)
    requires |data| < 0x1_0000 && Packet(command, data, pec, crc0, before).Valid()
    requires Delivered(Packet(command, data, pec, crc0, before), r)
    ensures r.header.cmd == command && r.queued == before + data && LengthOf(r.header.lenL, r.header.lenH) == |data|
    ensures r.Accepted() <==> pec == CrcFrom(crc0, Command(command, true, data))
  {
    var w := Packet(command, data, pec, crc0, before);
    LengthField(|data|);
    SumIsCrc(w, |w.bytes| - 1);
    assert w.bytes[..|w.bytes| - 1] == Command(command, true, data);
    assert w.bytes[3..|w.bytes| - 1] == data;
  }

  /** A write that the library sends to the address byte `addr`: the target executes the command it was given
      on the data it was given, and refuses it for its PEC unless that is the one with the address byte in it. */
  lemma TargetTakesWrite(addr: Byte, command: Byte, data: seq<Byte>, pec: Byte, before: seq<Byte>,
                         ins: nat -> In, run: nat -> Regs, a: nat, c: nat, b: nat, n: nat)
    requires (forall m: nat :: StepsTo(ins, run, m)) && Rested(run(a)) && |data| < 0x1_0000
    requires WriteSession(Packet(command, data, pec, Crc([addr]), before), addr, ins, run, a, c, b)
    requires FirstCommand(run, b, n)
    ensures data != [] && run(n).header.cmd == command && run(n).queued == run(a).queued + data
    ensures LengthOf(run(n).header.lenL, run(n).header.lenH) == |data|
    ensures run(n).Accepted() <==> pec == CrcFrom(Crc([addr]), Command(command, true, data))
  {
    SessionArrives(Packet(command, data, pec, Crc([addr]), before), addr, ins, run, a, c, b, n);
    PacketDelivered(command, data, pec, Crc([addr]), before, run(n));
  }

  /** And a read. */
  lemma TargetTakesRead(addr: Byte, command: Byte, pec: Byte, ins: nat -> In, run: nat -> Regs,
                        a: nat, c: nat, b: nat, n: nat)
    requires (forall m: nat :: StepsTo(ins, run, m)) && Rested(run(a))
    requires ReadSession(command, pec, addr, ins, run, a, c, b) && FirstCommand(run, b, n)
    ensures run(n).header.cmd == command && run(n).header.lenL == run(n).header.lenH == ZERO && Rested(run(n))
    ensures run(n).Accepted() <==> pec == CrcFrom(Crc([addr]), Command(command, false, []))
  {
    SessionReads(command, pec, addr, ins, run, a, c, b);
    FirstIsNotBefore(run, b, n);
    ReadHolds(command, pec, Crc([addr]), InsFrom(ins, b), RunFrom(run, b), n - b);
    assert [command][..0] == [];
    assert CrcFrom(Crc([addr]), [command]) == Feed(CrcFrom(Crc([addr]), []), command);
  }

  /** The library leaves the address byte out of the PEC, so the target accepts what it sends if and only if that
      byte is zero; and a packet with a forced error if and only if the random byte is the PEC with the address
      byte in it. */
  lemma TargetAcceptsIff(addr: Byte, command: Byte, isWrite: bool, data: seq<Byte>, forced: bool, random: Byte,
                         before: seq<Byte>, ins: nat -> In, run: nat -> Regs, a: nat, c: nat, b: nat, n: nat)
    requires (forall m: nat :: StepsTo(ins, run, m)) && Rested(run(a)) && |data| < 0x1_0000
    requires var pec := if forced then random else Crc(Command(command, isWrite, data));
             if isWrite then WriteSession(Packet(command, data, pec, Crc([addr]), before), addr, ins, run, a, c, b)
             else ReadSession(command, pec, addr, ins, run, a, c, b)
    requires FirstCommand(run, b, n)
    ensures run(n).Accepted() <==>
              if forced then random == CrcFrom(Crc([addr]), Command(command, isWrite, data)) else addr == ZERO
  {
    var body := Command(command, isWrite, data);
    var pec := if forced then random else Crc(body);
    if isWrite {
      TargetTakesWrite(addr, command, data, pec, before, ins, run, a, c, b, n);
    } else {
      TargetTakesRead(addr, command, pec, ins, run, a, c, b, n);
    }
    CrcFromInjective(Crc([addr]), ZERO, body);
    CrcOfOne(addr);
  }

  // ---------------------------------------------------------------- such sessions exist

  const NO_IN := In(false, false, false, false, ZERO, false, ZERO, true, false)
  const START_IN := NO_IN.(start := true)
  function AddressIn(addr: Byte): In { NO_IN.(init := true, addr := addr) }

  /** The registers after these clocks. */
  function Clocked(r0: Regs, pre: seq<In>, n: nat): Regs
    requires n <= |pre|
  {
    if n == 0 then r0 else Next(Clocked(r0, pre, n - 1), pre[n - 1])
  }

  /** Some clocks before a run. */
  ghost function PreIns(pre: seq<In>, ins: nat -> In): nat -> In {
    (n: nat) => if n < |pre| then pre[n] else ins(n - |pre|)
  }
  ghost function PreRun(r0: Regs, pre: seq<In>, run: nat -> Regs): nat -> Regs {
    (n: nat) => if n < |pre| then Clocked(r0, pre, n) else run(n - |pre|)
  }

  lemma PreSteps(r0: Regs, pre: seq<In>, ins: nat -> In, run: nat -> Regs)
    requires (forall m: nat :: StepsTo(ins, run, m)) && run(0) == Clocked(r0, pre, |pre|)
    ensures forall m: nat :: StepsTo(PreIns(pre, ins), PreRun(r0, pre, run), m)
  {
    var ins', run' := PreIns(pre, ins), PreRun(r0, pre, run);
    forall m: nat ensures StepsTo(ins', run', m) {
      if m >= |pre| {
        assert StepsTo(ins, run, m - |pre|);
      } else {
        assert Clocked(r0, pre, m + 1) == Next(Clocked(r0, pre, m), pre[m]);
      }
    }
  }

  /** Two runs agree in the first `n` clocks. */
  ghost predicate Same(ins: nat -> In, run: nat -> Regs, ins': nat -> In, run': nat -> Regs, n: nat) {
    forall m: nat | m < n :: ins'(m) == ins(m) && run'(m) == run(m)
  }

  lemma {:induction false} SameTaken(ins: nat -> In, run: nat -> Regs, ins': nat -> In, run': nat -> Regs, n: nat)
    requires Same(ins, run, ins', run', n)
    ensures RecoveryReceiver.Taken(ins', run', n) == RecoveryReceiver.Taken(ins, run, n)
  {
    if n > 0 { SameTaken(ins, run, ins', run', n - 1); }
  }

  /** A run that agrees up to the command serves the packet, too. */
  lemma SameServes(w: Write, ins: nat -> In, run: nat -> Regs, ins': nat -> In, run': nat -> Regs, k: nat)
    requires (forall m: nat :: Serves(w, ins, run, m)) && NotBefore(run, k) && run'(k).state.Cmd?
    requires Same(ins, run, ins', run', k)
    ensures forall m: nat :: Serves(w, ins', run', m)
  {
    forall m: nat ensures Serves(w, ins', run', m) {
      if NotBefore(run', m + 1) {
        assert m < k;
        SameTaken(ins, run, ins', run', m);
        assert Serves(w, ins, run, m);
      }
    }
  }

  /** The clocks of a call, as a list: START, address byte, and nothing that disturbs it. */
  predicate CallList(r0: Regs, addr: Byte, pre: seq<In>) {
    && |pre| >= 2 && pre[0] == START_IN
    && forall m: nat | 0 < m < |pre| :: Approaches(addr, pre[m], Clocked(r0, pre, m), m == 1, 1 < m)
  }

  /** Behind such a call the packet is sent in every second clock, and arrives. */
  lemma DeliversBehind(r0: Regs, addr: Byte, pre: seq<In>, w: Write) returns (ins: nat -> In, run: nat -> Regs, n: nat)
    requires CallList(r0, addr, pre) && Clocked(r0, pre, |pre|).state.RxCmd? && Rested(r0)
    requires w.Valid() && |w.bytes| > 4 && w.sum(0) == Crc([addr]) && w.before == r0.queued
    ensures (forall m: nat :: StepsTo(ins, run, m)) && run(0) == r0
    ensures forall m: nat | m < |pre| :: run(m) == Clocked(r0, pre, m) && ins(m) == pre[m]
    ensures WriteSession(w, addr, ins, run, 0, 1, |pre|) && FirstCommand(run, |pre|, n)
  {
    var r := Clocked(r0, pre, |pre|);
    ListensBehind(r0, addr, pre, w);
    var ins2, run2, k := EverySecondClock(r, w);
    PreSteps(r0, pre, ins2, run2);
    ins, run, n := PreIns(pre, ins2), PreRun(r0, pre, run2), |pre| + k;
    Behind(w, pre, r0, ins2, run2, k);
    CallsBehind(r0, addr, pre, ins2, run2);
  }

  lemma ListensBehind(r0: Regs, addr: Byte, pre: seq<In>, w: Write)
    requires CallList(r0, addr, pre) && Clocked(r0, pre, |pre|).state.RxCmd? && Rested(r0)
    requires w.sum(0) == Crc([addr]) && w.before == r0.queued
    ensures ListensFor(w, Clocked(r0, pre, |pre|))
  {
    CallListens(r0, addr, pre);
    CrcOfAddress(addr);
  }

  lemma CallsBehind(r0: Regs, addr: Byte, pre: seq<In>, ins: nat -> In, run: nat -> Regs)
    requires CallList(r0, addr, pre)
    ensures Calls(addr, PreIns(pre, ins), PreRun(r0, pre, run), 0, 1, |pre|)
  {
    var ins', run' := PreIns(pre, ins), PreRun(r0, pre, run);
    forall m: nat | 0 < m < |pre| ensures ApproachesAt(addr, ins', run', 1, m) {
      assert Approaches(addr, pre[m], Clocked(r0, pre, m), m == 1, 1 < m);
    }
  }

  /** The registers behind a call. */
  lemma CallListens(r0: Regs, addr: Byte, pre: seq<In>)
    requires CallList(r0, addr, pre) && Rested(r0)
    ensures var r := Clocked(r0, pre, |pre|); Called(r) && r.queued == r0.queued && r.crc == Feed(ZERO, addr)
  {
    CallListHolds(r0, addr, pre, |pre|);
  }

  lemma {:induction false} CallListHolds(r0: Regs, addr: Byte, pre: seq<In>, n: nat)
    requires CallList(r0, addr, pre) && Rested(r0) && 1 <= n <= |pre|
    ensures var r := Clocked(r0, pre, n);
            Called(r) && r.queued == r0.queued && r.crc == if n > 1 then Feed(ZERO, addr) else ZERO
  {
    if n > 1 {
      CallListHolds(r0, addr, pre, n - 1);
      CallStep(addr, Clocked(r0, pre, n - 1), pre[n - 1], n - 1 == 1, 1 < n - 1);
    } else {
      assert Clocked(r0, pre, 0) == r0;
    }
  }

  lemma Behind(w: Write, pre: seq<In>, r0: Regs, ins: nat -> In, run: nat -> Regs, k: nat)
    requires (forall m: nat :: Serves(w, ins, run, m)) && NotBefore(run, k) && run(k).state.Cmd?
    ensures var ins', run' := PreIns(pre, ins), PreRun(r0, pre, run);
            && (forall n: nat :: Serves(w, InsFrom(ins', |pre|), RunFrom(run', |pre|), n))
            && FirstCommand(run', |pre|, |pre| + k)
  {
    var b := |pre|;
    var ins', run' := PreIns(pre, ins), PreRun(r0, pre, run);
    assert Same(ins, run, InsFrom(ins', b), RunFrom(run', b), k);
    SameServes(w, ins, run, InsFrom(ins', b), RunFrom(run', b), k);
    forall j: nat | b <= j < b + k ensures !run'(j).state.Cmd? { assert !run(j - b).state.Cmd?; }
  }

  /** From a receiver that is asleep. */
  lemma Delivers(r0: Regs, addr: Byte, w: Write) returns (ins: nat -> In, run: nat -> Regs, n: nat)
    requires r0.state.Idle? && r0.select && w.Valid() && |w.bytes| > 4
    requires w.sum(0) == Crc([addr]) && w.before == r0.queued
    ensures (forall m: nat :: StepsTo(ins, run, m)) && run(0) == r0
    ensures WriteSession(w, addr, ins, run, 0, 1, 2) && FirstCommand(run, 2, n)
  {
    var pre := [START_IN, AddressIn(addr)];
    assert Clocked(r0, pre, 1) == Next(Clocked(r0, pre, 0), pre[0]);
    assert Clocked(r0, pre, 2) == Next(Clocked(r0, pre, 1), pre[1]);
    ins, run, n := DeliversBehind(r0, addr, pre, w);
  }

  /** From a receiver that passes on a command: START and address byte while that is still executed, and the packet
      once it is done. */
  lemma DeliversWhileBusy(r0: Regs, addr: Byte, w: Write) returns (ins: nat -> In, run: nat -> Regs, n: nat)
    requires r0.state.Cmd? && r0.select && w.Valid() && |w.bytes| > 4
    requires w.sum(0) == Crc([addr]) && w.before == r0.queued
    ensures (forall m: nat :: StepsTo(ins, run, m)) && run(0) == r0
    ensures WriteSession(w, addr, ins, run, 0, 1, 4) && FirstCommand(run, 4, n)
    ensures run(1).state.Busy? && run(2).state.Busy?
  {
    var pre := BusyCall(r0, addr);
    ins, run, n := DeliversBehind(r0, addr, pre, w);
  }

  lemma BusyCall(r0: Regs, addr: Byte) returns (pre: seq<In>)
    requires r0.state.Cmd? && r0.select
    ensures |pre| == 4 && CallList(r0, addr, pre) && Clocked(r0, pre, 4).state.RxCmd?
    ensures Clocked(r0, pre, 1).state.Busy? && Clocked(r0, pre, 2).state.Busy?
  {
    pre := [START_IN, AddressIn(addr), NO_IN.(done := true), NO_IN];
    assert Clocked(r0, pre, 1) == Next(r0, pre[0]) by { assert Clocked(r0, pre, 0) == r0; }
    assert Clocked(r0, pre, 2) == Next(Clocked(r0, pre, 1), pre[1]);
    assert Clocked(r0, pre, 3) == Next(Clocked(r0, pre, 2), pre[2]);
    assert Clocked(r0, pre, 4) == Next(Clocked(r0, pre, 3), pre[3]);
  }

  /** Every write of the library that has data is taken from reset on. */
  lemma LibraryDelivers(addr: Byte, command: Byte, data: seq<Byte>, pec: Byte)
    returns (ins: nat -> In, run: nat -> Regs, n: nat)
    requires 0 < |data| < 0x1_0000
    ensures IsRun(RESET, ins, run) && FirstCommand(run, 2, n)
    ensures WriteSession(Packet(command, data, pec, Crc([addr]), []), addr, ins, run, 0, 1, 2)
    ensures run(n).header.cmd == command && run(n).queued == data
  {
    PacketValid(command, data, pec, Crc([addr]), []);
    ins, run, n := Delivers(RESET, addr, Packet(command, data, pec, Crc([addr]), []));
    TargetTakesWrite(addr, command, data, pec, [], ins, run, 0, 1, 2, n);
  }

  /** Up to clock `c` as in one run, and from there on as in another. */
  ghost function ThenIns(c: nat, ins: nat -> In, ins2: nat -> In): nat -> In {
    (n: nat) => if n < c then ins(n) else ins2(n - c)
  }
  ghost function ThenRun(c: nat, run: nat -> Regs, run2: nat -> Regs): nat -> Regs {
    (n: nat) => if n < c then run(n) else run2(n - c)
  }

  lemma ThenSteps(c: nat, ins: nat -> In, run: nat -> Regs, ins2: nat -> In, run2: nat -> Regs)
    requires (forall m: nat :: StepsTo(ins, run, m)) && (forall m: nat :: StepsTo(ins2, run2, m)) && run2(0) == run(c)
    ensures forall m: nat :: StepsTo(ThenIns(c, ins, ins2), ThenRun(c, run, run2), m)
  {
    forall m: nat ensures StepsTo(ThenIns(c, ins, ins2), ThenRun(c, run, run2), m) {
      if m < c { assert StepsTo(ins, run, m); } else { assert StepsTo(ins2, run2, m - c); }
    }
  }

  /** The first session is the same in a run that goes on otherwise behind its command. */
  lemma FirstSession(w: Write, addr: Byte, ins: nat -> In, run: nat -> Regs, ins': nat -> In, run': nat -> Regs,
                     c: nat, b: nat, n: nat)
    requires WriteSession(w, addr, ins, run, 0, c, b) && FirstCommand(run, b, n)
    requires Same(ins, run, ins', run', n) && run'(n) == run(n)
    ensures WriteSession(w, addr, ins', run', 0, c, b) && FirstCommand(run', b, n)
  {
    forall m: nat | 0 < m < b ensures ApproachesAt(addr, ins', run', c, m) {
      assert ApproachesAt(addr, ins, run, c, m);
    }
    FirstIsNotBefore(run, b, n);
    assert Same(InsFrom(ins, b), RunFrom(run, b), InsFrom(ins', b), RunFrom(run', b), n - b);
    SameServes(w, InsFrom(ins, b), RunFrom(run, b), InsFrom(ins', b), RunFrom(run', b), n - b);
  }

  /** The second one is the same in a run that begins otherwise. */
  lemma SecondSession(w: Write, addr: Byte, ins: nat -> In, run: nat -> Regs, ins': nat -> In, run': nat -> Regs,
                      a: nat, b: nat, n: nat, c': nat, b': nat)
    requires WriteSession(w, addr, ins, run, 0, 1, b) && FirstCommand(run, b, n) && c' == a + 1 && b' == a + b
    requires forall m: nat | a <= m :: ins'(m) == ins(m - a) && run'(m) == run(m - a)
    ensures WriteSession(w, addr, ins', run', a, c', b') && FirstCommand(run', b', a + n)
  {
    forall m: nat | a < m < b' ensures ApproachesAt(addr, ins', run', c', m) {
      assert ApproachesAt(addr, ins, run, 1, m - a);
    }
    FirstIsNotBefore(run, b, n);
    assert Same(InsFrom(ins, b), RunFrom(run, b), InsFrom(ins', b'), RunFrom(run', b'), n - b);
    SameServes(w, InsFrom(ins, b), RunFrom(run, b), InsFrom(ins', b'), RunFrom(run', b'), n - b);
  }

  /** Two writes in a row from reset, the second called for while the first is still executed: both arrive. */
  lemma BothArrive(w1: Write, w2: Write, addr: Byte) returns (ins: nat -> In, run: nat -> Regs, n1: nat, n2: nat)
    requires w1.Valid() && |w1.bytes| > 4 && w1.sum(0) == Crc([addr]) && w1.before == []
    requires w2.Valid() && |w2.bytes| > 4 && w2.sum(0) == Crc([addr]) && w2.before == w1.bytes[3..|w1.bytes| - 1]
    ensures IsRun(RESET, ins, run) && run(n1 + 1).state.Busy? && run(n1 + 2).state.Busy?
    ensures WriteSession(w1, addr, ins, run, 0, 1, 2) && FirstCommand(run, 2, n1) && Delivered(w1, run(n1))
    ensures WriteSession(w2, addr, ins, run, n1, n1 + 1, n1 + 4) && FirstCommand(run, n1 + 4, n2)
    ensures Delivered(w2, run(n2))
  {
    var ins1, run1;
    ins1, run1, n1 := Delivers(RESET, addr, w1);
    SessionArrives(w1, addr, ins1, run1, 0, 1, 2, n1);
    assert run1(n1).queued == w2.before;
    var ins2, run2, k := DeliversWhileBusy(run1(n1), addr, w2);
    ins, run, n2 := ThenIns(n1, ins1, ins2), ThenRun(n1, run1, run2), n1 + k;
    ThenSteps(n1, ins1, run1, ins2, run2);
    FirstSession(w1, addr, ins1, run1, ins, run, 1, 2, n1);
    SecondSession(w2, addr, ins2, run2, ins, run, n1, 4, k, n1 + 1, n1 + 4);
    SessionArrives(w2, addr, ins, run, n1, n1 + 1, n1 + 4, n2);
    assert run(n1 + 1) == run2(1) && run(n1 + 2) == run2(2);
  }
}
