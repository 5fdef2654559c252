/** The packets of the recovery protocol as the test library builds and parses them
    (`verification/cocotb/top/lib_i3c_top/recovery_interface.py`). */
module RecoveryFrame {
  import opened Pec

  /** The number with these bits, the least significant first. */
  function BitsVal(bits: seq<bool>): nat {
    if bits == [] then 0 else (if bits[0] then 1 else 0) + 2 * BitsVal(bits[1..])
  }

  function LowBits(n: nat, k: nat): (bits: seq<bool>)
    ensures |bits| == k
  {
    if k == 0 then [] else [n % 2 == 1] + LowBits(n / 2, k - 1)
  }

  function ToBits(b: Byte): seq<bool> { [b.b0, b.b1, b.b2, b.b3, b.b4, b.b5, b.b6, b.b7] }

  function FromBits(s: seq<bool>): (b: Byte)
    requires |s| == 8
    ensures ToBits(b) == s
  {
    Byte(s[0], s[1], s[2], s[3], s[4], s[5], s[6], s[7])
  }

  function Val(b: Byte): nat { BitsVal(ToBits(b)) }

  /** The lowest eight bits of a number. */
  function OfNat(n: nat): Byte { FromBits(LowBits(n, 8)) }

  function Pow2(k: nat): nat { if k == 0 then 1 else 2 * Pow2(k - 1) }

  lemma {:induction false} LowBitsVal(n: nat, k: nat) returns (q: nat)
    ensures n == BitsVal(LowBits(n, k)) + Pow2(k) * q && BitsVal(LowBits(n, k)) < Pow2(k)
  {
    if k == 0 {
      q := n;
    } else {
      q := LowBitsVal(n / 2, k - 1);
      assert LowBits(n, k)[1..] == LowBits(n / 2, k - 1);
      assert Pow2(k) * q == 2 * (Pow2(k - 1) * q);
    }
  }

  lemma ValOfNat(n: nat)
    ensures Val(OfNat(n)) == n % 256
  {
    var q := LowBitsVal(n, 8);
    Pow2Of8();
    Remainder(n, Val(OfNat(n)), q);
  }

  lemma Remainder(n: nat, v: nat, q: nat)
    requires n == v + 256 * q && v < 256
    ensures n % 256 == v
  {
  }

  lemma Pow2Of8()
    ensures Pow2(8) == 256
  {
    assert Pow2(4) == 16;
  }

  /** `(hi << 8) | lo` */
  function LengthOf(lo: Byte, hi: Byte): nat { Val(hi) * 256 + Val(lo) }

  lemma LengthField(len: nat)
    ensures LengthOf(OfNat(len), OfNat(len / 256)) == len % 0x1_0000
    ensures len < 0x1_0000 ==> LengthOf(OfNat(len), OfNat(len / 256)) == len
  {
    ValOfNat(len);
    ValOfNat(len / 256);
    JoinBytes(len, Val(OfNat(len)), len / 256, Val(OfNat(len / 256)));
  }

  lemma JoinBytes(len: nat, lo: nat, h: nat, hi: nat)
    requires h == len / 256 && lo == len % 256 && hi == h % 256
    ensures hi * 256 + lo == len % 0x1_0000
    ensures len < 0x1_0000 ==> hi * 256 + lo == len
  {
    assert len == 0x1_0000 * (h / 256) + (256 * hi + lo);
  }

  // ---------------------------------------------------------------- command packets

  /** What a command packet carries before its PEC. */
  function Command(command: Byte, isWrite: bool, data: seq<Byte>): seq<Byte> {
    if isWrite then [command, OfNat(|data|), OfNat(|data| / 256)] + data else [command]
  }

  /** A command packet: the command, for a write the length and the data, and a PEC, which is a random byte
      when an error is to be forced. */
  method CommandPacket(command: Byte, isWrite: bool, data: seq<Byte>, forcePecError: bool, random: Byte)
    returns (xfer: seq<Byte>)
    requires !isWrite ==> data == []
    ensures var body := Command(command, isWrite, data);
            xfer == body + [if forcePecError then random else Crc(body)]
  {
    if isWrite {
      xfer := [command, OfNat(|data|), OfNat(|data| / 256)];
      if data != [] { xfer := xfer + data; }
    } else {
      xfer := [command];
    }
    assert xfer == Command(command, isWrite, data);
    var pec := random;
    if !forcePecError { pec := Checksum(xfer); }
    xfer := xfer + [pec];
  }

  /** The calculator, byte by byte. */
  method Checksum(bytes: seq<Byte>) returns (crc: Byte)
    ensures crc == Crc(bytes)
  {
    crc := ZERO;
    for k := 0 to |bytes|
      invariant crc == Crc(bytes[..k])
    {
      assert bytes[..k + 1][..k] == bytes[..k];
      crc := Feed(crc, bytes[k]);
    }
    assert bytes[..|bytes|] == bytes;
  }

  // ---------------------------------------------------------------- responses

  /** One received byte, and whether the target ended the transfer after it. */
  datatype Recv = Recv(byte: Byte, stop: bool)

  /** A response that ends early is an exception; otherwise its data, and whether the PEC was right. */
  datatype Response = Terminated | Data(data: seq<Byte>, pecOk: bool)

  /** Number of data bytes taken from position `k` on: up to the first after which the target stops. */
  function Taken(recv: nat -> Recv, k: nat, left: nat): (n: nat)
    ensures n <= left
    decreases left
  {
    if left == 0 then 0 else if recv(k).stop then 1 else 1 + Taken(recv, k + 1, left - 1)
  }

  /** `n` bytes after the length field. */
  function Bytes(recv: nat -> Recv, n: nat): (s: seq<Byte>)
    ensures |s| == n && forall k :: 0 <= k < n ==> s[k] == recv(2 + k).byte
  {
    seq(n, k requires 0 <= k => recv(2 + k).byte)
  }

  function ParseData(recv: nat -> Recv, n: nat): Response {
    var data := Bytes(recv, n);
    if recv(2 + n).stop then Terminated
    else Data(data, recv(2 + n).byte == Crc([recv(0).byte, recv(1).byte] + data))
  }

  function Parse(recv: nat -> Recv): Response {
    if recv(0).stop || recv(1).stop then Terminated
    else ParseData(recv, Taken(recv, 2, LengthOf(recv(0).byte, recv(1).byte)))
  }

  /** The data part: `length` bytes, unless the target stops before. */
  method ReadData(recv: nat -> Recv, length: nat) returns (data: seq<Byte>)
    ensures data == Bytes(recv, Taken(recv, 2, length))
  {
    data := [];
    var i := 0;
    while i < length
      invariant i <= length && data == Bytes(recv, i)
      invariant Taken(recv, 2, length) == i + Taken(recv, 2 + i, length - i)
    {
      var r := recv(2 + i);
      data := data + [r.byte];
      i := i + 1;
      if r.stop { break; }
    }
  }

  /** The length field. */
  method ReadLength(recv: nat -> Recv) returns (lenBytes: seq<Byte>, stopped: bool)
    ensures stopped <==> recv(0).stop || recv(1).stop
    ensures !stopped ==> lenBytes == [recv(0).byte, recv(1).byte]
  {
    lenBytes, stopped := [], false;
    for i := 0 to 2
      invariant |lenBytes| == i && forall j: nat | j < i :: lenBytes[j] == recv(j).byte && !recv(j).stop
    {
      var r := recv(i);
      lenBytes := lenBytes + [r.byte];
      if r.stop { return lenBytes, true; }
    }
  }

  /** `_i3c_recovery_read`, after the address header. */
  method ReadResponse(recv: nat -> Recv) returns (r: Response)
    ensures r == Parse(recv)
  {
    var lenBytes, stopped := ReadLength(recv);
    if stopped { return Terminated; }
    var data := ReadData(recv, LengthOf(lenBytes[0], lenBytes[1]));
    var pec := recv(2 + |data|);
    if pec.stop { return Terminated; }
    var pecCalc := Checksum(lenBytes + data);
    r := Data(data, pec.byte == pecCalc);
  }

  // ---------------------------------------------------------------- what arrives

  /** The target sends these bytes and does not stop before they are over. */
  ghost predicate Carries(recv: nat -> Recv, lo: Byte, hi: Byte, data: seq<Byte>, pec: Byte) {
    && recv(0) == Recv(lo, false) && recv(1) == Recv(hi, false) && recv(2 + |data|) == Recv(pec, false)
    && forall m: nat | 2 <= m < 2 + |data| :: recv(m) == Recv(data[m - 2], false)
  }

  lemma {:induction false} TakesAll(recv: nat -> Recv, k: nat, left: nat)
    requires forall m: nat | k <= m < k + left :: !recv(m).stop
    ensures Taken(recv, k, left) == left
    decreases left
  {
    if left > 0 { TakesAll(recv, k + 1, left - 1); }
  }

  /** What is parsed from bytes that begin with the length of the data they carry. */
  lemma ParsesCarried(recv: nat -> Recv, lo: Byte, hi: Byte, data: seq<Byte>, pec: Byte)
    requires Carries(recv, lo, hi, data, pec) && LengthOf(lo, hi) == |data|
    ensures Parse(recv) == Data(data, pec == Crc([lo, hi] + data))
  {
    TakesAll(recv, 2, |data|);
    assert Bytes(recv, |data|) == data;
  }

  /** The data ends after `n` bytes: they are as many as announced, or the target stops after the last of them; and it
      did not stop before. */
  ghost predicate DataEnds(recv: nat -> Recv, len: nat, n: nat) {
    && n <= len && (n == len || (n > 0 && recv(1 + n).stop))
    && forall m: nat | 2 <= m < 1 + n :: !recv(m).stop
  }

  lemma {:induction false} TakenUntilStop(recv: nat -> Recv, k: nat, left: nat)
    ensures var n := Taken(recv, k, left);
            && (n == left || (n > 0 && recv(k + n - 1).stop))
            && forall m: nat | k <= m < k + n - 1 :: !recv(m).stop
    decreases left
  {
    if left > 0 { TakenUntilStop(recv, k + 1, left - 1); }
  }

  /** Whatever arrives: it is an exception exactly when the target stops within the length field or after the byte that
      is read as PEC; otherwise the data is what came until it ended. */
  lemma ParsesUntilStop(recv: nat -> Recv) returns (n: nat)
    ensures DataEnds(recv, LengthOf(recv(0).byte, recv(1).byte), n)
    ensures Parse(recv).Terminated? <==> recv(0).stop || recv(1).stop || recv(2 + n).stop
    ensures Parse(recv).Data? ==>
              var data := Parse(recv).data;
              && |data| == n && (forall k: nat | k < n :: data[k] == recv(2 + k).byte)
              && (Parse(recv).pecOk <==> recv(2 + n).byte == Crc([recv(0).byte, recv(1).byte] + data))
  {
    var len := LengthOf(recv(0).byte, recv(1).byte);
    TakenUntilStop(recv, 2, len);
    n := Taken(recv, 2, len);
  }

  /** The response packet of `data`, its PEC calculation started from `crc0`. */
  ghost predicate Responds(recv: nat -> Recv, crc0: Byte, data: seq<Byte>) {
    var lo, hi := OfNat(|data|), OfNat(|data| / 256);
    Carries(recv, lo, hi, data, CrcFrom(crc0, [lo, hi] + data))
  }

  /** A response is parsed back to its data, with a right PEC, exactly when its length fits the 16-bit field. */
  lemma RoundTrip(recv: nat -> Recv, data: seq<Byte>)
    requires Responds(recv, ZERO, data)
    ensures Parse(recv) == Data(data, true) <==> |data| < 0x1_0000
  {
    var lo, hi := OfNat(|data|), OfNat(|data| / 256);
    LengthField(|data|);
    var len := |data| % 0x1_0000;
    if |data| < 0x1_0000 {
      ParsesCarried(recv, lo, hi, data, Crc([lo, hi] + data));
    } else {
      assert Carries(recv, lo, hi, data[..len], data[len]);
      ParsesCarried(recv, lo, hi, data[..len], data[len]);
    }
  }

  /** A response that arrives with errors in its data and PEC is parsed to as many data bytes, and its PEC
      is found right exactly when the checksum of the error is zero. */
  lemma ParsesWithErrors(recv: nat -> Recv, data: seq<Byte>, error: seq<Byte>, pecError: Byte)
    requires |data| == |error| < 0x1_0000
    requires var lo, hi := OfNat(|data|), OfNat(|data| / 256);
             Carries(recv, lo, hi, XorAll(data, error), Crc([lo, hi] + data).Xor(pecError))
    ensures Parse(recv) == Data(XorAll(data, error), Crc([ZERO, ZERO] + error + [pecError]) == ZERO)
  {
    var lo, hi := OfNat(|data|), OfNat(|data| / 256);
    var pec := Crc([lo, hi] + data);
    LengthField(|data|);
    ParsesCarried(recv, lo, hi, XorAll(data, error), pec.Xor(pecError));
    ErrorOfFrame(lo, hi, data, pec, error, pecError);
  }

  lemma ErrorOfFrame(lo: Byte, hi: Byte, data: seq<Byte>, pec: Byte, error: seq<Byte>, pecError: Byte)
    requires |data| == |error| && pec == Crc([lo, hi] + data)
    ensures pec.Xor(pecError) == Crc([lo, hi] + XorAll(data, error))
       <==> Crc([ZERO, ZERO] + error + [pecError]) == ZERO
  {
    XorZero(lo, ZERO);
    XorZero(hi, ZERO);
    assert XorAll([lo, hi] + data, [ZERO, ZERO] + error) == [lo, hi] + XorAll(data, error);
    MissedIffZero([lo, hi] + data, pec, [ZERO, ZERO] + error, pecError);
  }

  /** Any change confined to one data or PEC byte, any burst of up to eight bits, and any odd number of
      wrong bits makes the PEC check fail, at any length. */
  lemma RejectsErrors(recv: nat -> Recv, data: seq<Byte>, error: seq<Byte>, pecError: Byte, i: nat, s: nat)
    requires |data| == |error| < 0x1_0000
    requires var lo, hi := OfNat(|data|), OfNat(|data| / 256);
             Carries(recv, lo, hi, XorAll(data, error), Crc([lo, hi] + data).Xor(pecError))
    requires var wrong := [ZERO, ZERO] + error + [pecError];
             && i < |wrong| && wrong[i] != ZERO
             && ((ZeroBelow(wrong, i) && ZeroFrom(wrong, i + 1)) || Burst(wrong, s) || OddBits(wrong))
    ensures Parse(recv) == Data(XorAll(data, error), false)
  {
    var wrong := [ZERO, ZERO] + error + [pecError];
    ParsesWithErrors(recv, data, error, pecError);
    if ZeroBelow(wrong, i) && ZeroFrom(wrong, i + 1) {
      DetectsWrongByte(wrong, i);
    } else if Burst(wrong, s) {
      DetectsBursts(wrong, s, i);
    } else {
      DetectsOddErrors(wrong);
    }
  }

  /** Two wrong bits make the check fail unless a multiple of 127 bits lies between them. */
  lemma RejectsTwoBits(recv: nat -> Recv, data: seq<Byte>, error: seq<Byte>, pecError: Byte, p: nat, q: nat)
    requires |data| == |error| < 0x1_0000
    requires var lo, hi := OfNat(|data|), OfNat(|data| / 256);
             Carries(recv, lo, hi, XorAll(data, error), Crc([lo, hi] + data).Xor(pecError))
    requires DoubleError([ZERO, ZERO] + error + [pecError], p, q)
    ensures Parse(recv) == Data(XorAll(data, error), (q - p) % 127 == 0)
  {
    ParsesWithErrors(recv, data, error, pecError);
    DetectsDoubleErrors([ZERO, ZERO] + error + [pecError], p, q);
  }

  lemma {:induction false} CrcFromInjective(c1: Byte, c2: Byte, data: seq<Byte>)
    ensures CrcFrom(c1, data) == CrcFrom(c2, data) <==> c1 == c2
  {
    if data != [] {
      CrcFromInjective(c1, c2, data[..|data| - 1]);
      FeedInjective(CrcFrom(c1, data[..|data| - 1]), CrcFrom(c2, data[..|data| - 1]), data[|data| - 1]);
    }
  }

  lemma FeedInjective(c1: Byte, c2: Byte, d: Byte)
    ensures Feed(c1, d) == Feed(c2, d) <==> c1 == c2
  {
    FeedLinear(c1, c2, d, d);
    XorZero(d, d);
    XorZero(c1, c2);
    XorZero(Feed(c1, d), Feed(c2, d));
    FeedZero(c1.Xor(c2), ZERO);
  }

  /** A response whose PEC covers the address byte, as the hardware computes it, is found right exactly
      when that byte is zero: the parser leaves the address out. */
  lemma AddressInPec(recv: nat -> Recv, data: seq<Byte>, addr: Byte)
    requires |data| < 0x1_0000 && Responds(recv, Crc([addr]), data)
    ensures Parse(recv) == Data(data, addr == ZERO)
  {
    var lo, hi := OfNat(|data|), OfNat(|data| / 256);
    var body := [lo, hi] + data;
    LengthField(|data|);
    ParsesCarried(recv, lo, hi, data, CrcFrom(Crc([addr]), body));
    CrcFromInjective(Crc([addr]), ZERO, body);
    CrcOfOne(addr);
  }
}
