/** The packet error code of the recovery protocol: CRC-8 with polynomial 0x07 and initial value 0, as the
    test library configures it (`recovery_interface.py:25-32`) and as `src/recovery/recovery_pec.sv`
    computes it, and which errors it detects. */
module Pec {
  /** A byte as its eight wires. */
  datatype Byte = Byte(b0: bool, b1: bool, b2: bool, b3: bool, b4: bool, b5: bool, b6: bool, b7: bool) {
    function Xor(o: Byte): Byte {
      Byte(b0 != o.b0, b1 != o.b1, b2 != o.b2, b3 != o.b3, b4 != o.b4, b5 != o.b5, b6 != o.b6, b7 != o.b7)
    }

    /** One bit of long division by x^8 + x^2 + x + 1. */
    function ShiftBit(): Byte { Byte(b7, b0 != b7, b1 != b7, b2, b3, b4, b5, b6) }

    /** Whether an odd number of bits is set. */
    predicate Odd() { b0 != (b1 != (b2 != (b3 != (b4 != (b5 != (b6 != b7)))))) }

    /** The bits from the most significant one. */
    predicate Msb(k: nat)
      requires k < 8
    {
      match k
      case 0 => b7
      case 1 => b6
      case 2 => b5
      case 3 => b4
      case 4 => b3
      case 5 => b2
      case 6 => b1
      case 7 => b0
    }
  }

  const ZERO := Byte(false, false, false, false, false, false, false, false)

  function Shifts(c: Byte, n: nat): Byte { if n == 0 then c else Shifts(c, n - 1).ShiftBit() }

  function ShiftByte(c: Byte): Byte { Shifts(c, 8) }

  /** The checksum after one more byte. */
  function Feed(crc: Byte, d: Byte): Byte { ShiftByte(crc.Xor(d)) }

  function CrcFrom(crc: Byte, data: seq<Byte>): Byte {
    if data == [] then crc else Feed(CrcFrom(crc, data[..|data| - 1]), data[|data| - 1])
  }

  function Crc(data: seq<Byte>): Byte { CrcFrom(ZERO, data) }

  // ---------------------------------------------------------------- the hardware

  /** The XOR equations of the hardware, for the sum of checksum and data. */
  function Equations(x: Byte): Byte {
    Byte((x.b0 != x.b6) != x.b7,
         (x.b0 != x.b1) != x.b6,
         ((x.b0 != x.b1) != x.b2) != x.b6,
         ((x.b1 != x.b2) != x.b3) != x.b7,
         (x.b2 != x.b3) != x.b4,
         (x.b3 != x.b4) != x.b5,
         (x.b4 != x.b5) != x.b6,
         (x.b5 != x.b6) != x.b7)
  }

  /** Four steps of the division: the upper four bits come back times x^2 + x + 1. */
  function ShiftNibble(x: Byte): Byte {
    Byte(x.b4, x.b4 != x.b5, (x.b4 != x.b5) != x.b6, (x.b5 != x.b6) != x.b7,
         x.b0 != (x.b6 != x.b7), x.b1 != x.b7, x.b2, x.b3)
  }

  lemma NibbleDivides(x: Byte)
    ensures ShiftNibble(x) == x.ShiftBit().ShiftBit().ShiftBit().ShiftBit()
  {
  }

  lemma {:induction false} FourShifts(x: Byte, n: nat)
    ensures Shifts(x, n + 4) == ShiftNibble(Shifts(x, n))
  {
    assert Shifts(x, n + 2) == Shifts(x, n + 1).ShiftBit() == Shifts(x, n).ShiftBit().ShiftBit();
    assert Shifts(x, n + 4) == Shifts(x, n + 3).ShiftBit() == Shifts(x, n + 2).ShiftBit().ShiftBit();
    NibbleDivides(Shifts(x, n));
  }

  lemma EquationsAreNibbles(x: Byte)
    ensures Equations(x) == ShiftNibble(ShiftNibble(x))
  {
  }

  /** They are eight steps of the division at once. */
  lemma EquationsDivide(x: Byte)
    ensures Equations(x) == ShiftByte(x)
  {
    EquationsAreNibbles(x);
    FourShifts(x, 0);
    FourShifts(x, 4);
  }

  class RecoveryPec {
    var crcO: Byte

    constructor ()
      ensures crcO == ZERO
    {
      crcO := ZERO;
    }

    method Clock(softReset: bool, valid: bool, init: bool, dat: Byte)
      modifies this
      ensures crcO == if softReset then ZERO else if valid then Feed(if init then ZERO else old(crcO), dat)
                      else old(crcO)
    {
      var crcI := if init then ZERO else crcO;
      var crcX := Equations(crcI.Xor(dat));
      EquationsDivide(crcI.Xor(dat));
      if softReset { crcO := ZERO; } else if valid { crcO := crcX; }
    }
  }

  // ---------------------------------------------------------------- algebra

  lemma XorMixes(a: Byte, b: Byte, c: Byte, d: Byte)
    ensures a.Xor(b).Xor(c.Xor(d)) == a.Xor(c).Xor(b.Xor(d))
  {
  }

  lemma XorZero(a: Byte, b: Byte)
    ensures a.Xor(b) == ZERO <==> a == b
    ensures a.Xor(b) == a <==> b == ZERO
  {
  }

  lemma NibbleLinear(a: Byte, b: Byte)
    ensures ShiftNibble(a.Xor(b)) == ShiftNibble(a).Xor(ShiftNibble(b))
  {
  }

  lemma EquationsLinear(a: Byte, b: Byte)
    ensures Equations(a.Xor(b)) == Equations(a).Xor(Equations(b))
  {
    NibbleLinear(a, b);
    NibbleLinear(ShiftNibble(a), ShiftNibble(b));
    EquationsAreNibbles(a);
    EquationsAreNibbles(b);
    EquationsAreNibbles(a.Xor(b));
  }

  lemma FeedLinear(c1: Byte, c2: Byte, d1: Byte, d2: Byte)
    ensures Feed(c1.Xor(c2), d1.Xor(d2)) == Feed(c1, d1).Xor(Feed(c2, d2))
  {
    XorMixes(c1, c2, d1, d2);
    EquationsLinear(c1.Xor(d1), c2.Xor(d2));
    EquationsDivide(c1.Xor(d1));
    EquationsDivide(c2.Xor(d2));
    EquationsDivide(c1.Xor(d1).Xor(c2.Xor(d2)));
  }

  /** Division can be undone: only equal bytes give a zero remainder. */
  lemma FeedZero(c: Byte, d: Byte)
    ensures Feed(c, d) == ZERO <==> c == d
  {
    XorZero(c, d);
    EquationsDivide(c.Xor(d));
  }

  /** The polynomial has an even number of terms, so division keeps the parity. */
  lemma FeedParity(c: Byte, d: Byte)
    ensures Feed(c, d).Odd() <==> c.Odd() != d.Odd()
  {
    EquationsDivide(c.Xor(d));
  }

  lemma {:induction false} CrcConcat(c: Byte, a: seq<Byte>, b: seq<Byte>)
    ensures CrcFrom(c, a + b) == CrcFrom(CrcFrom(c, a), b)
  {
    if b == [] {
      assert a + b == a;
    } else {
      CrcConcat(c, a, b[..|b| - 1]);
      assert (a + b)[..|a + b| - 1] == a + b[..|b| - 1];
    }
  }

  function XorAll(a: seq<Byte>, b: seq<Byte>): (s: seq<Byte>)
    requires |a| == |b|
    ensures |s| == |a| && forall k :: 0 <= k < |a| ==> s[k] == a[k].Xor(b[k])
  {
    seq(|a|, k requires 0 <= k < |a| => a[k].Xor(b[k]))
  }

  lemma {:induction false} CrcLinear(c1: Byte, c2: Byte, a: seq<Byte>, b: seq<Byte>)
    requires |a| == |b|
    ensures CrcFrom(c1.Xor(c2), XorAll(a, b)) == CrcFrom(c1, a).Xor(CrcFrom(c2, b))
  {
    if a != [] {
      var n := |a| - 1;
      CrcLinear(c1, c2, a[..n], b[..n]);
      assert XorAll(a, b)[..n] == XorAll(a[..n], b[..n]);
      FeedLinear(CrcFrom(c1, a[..n]), CrcFrom(c2, b[..n]), a[n], b[n]);
    }
  }

  // ---------------------------------------------------------------- error detection

  /** An error in a packet and its PEC goes unnoticed exactly when its own checksum is zero, whatever was
      sent. */
  lemma MissedIffZero(body: seq<Byte>, pec: Byte, error: seq<Byte>, pecError: Byte)
    requires |error| == |body| && pec == Crc(body)
    ensures pec.Xor(pecError) == Crc(XorAll(body, error)) <==> Crc(error + [pecError]) == ZERO
  {
    CrcLinear(ZERO, ZERO, body, error);
    assert ZERO.Xor(ZERO) == ZERO;
    XorCancels(pec, pecError, Crc(error));
    assert (error + [pecError])[..|error|] == error;
    FeedZero(Crc(error), pecError);
  }

  lemma XorCancels(a: Byte, b: Byte, c: Byte)
    ensures a.Xor(b) == a.Xor(c) <==> b == c
  {
  }

  predicate ZeroBelow(error: seq<Byte>, n: nat) { forall k :: 0 <= k < |error| && k < n ==> error[k] == ZERO }
  predicate ZeroFrom(error: seq<Byte>, n: nat) { forall k :: n <= k < |error| ==> error[k] == ZERO }

  /** Zeros before and after the wrong bytes do not change whether the checksum is zero. */
  lemma {:induction false} ZerosDoNotMatter(error: seq<Byte>, n: nat, m: nat)
    requires n <= m <= |error| && ZeroBelow(error, n) && ZeroFrom(error, m)
    ensures Crc(error) == ZERO <==> Crc(error[n..m]) == ZERO
  {
    TrailingZeros(error, m);
    LeadingZeros(error[..m], n);
    assert error[..m][n..] == error[n..m];
  }

  lemma {:induction false} TrailingZeros(error: seq<Byte>, m: nat)
    requires m <= |error| && ZeroFrom(error, m)
    ensures Crc(error) == ZERO <==> Crc(error[..m]) == ZERO
  {
    if m < |error| {
      var front := error[..|error| - 1];
      TrailingZeros(front, m);
      assert front[..m] == error[..m];
      FeedZero(Crc(front), ZERO);
    } else {
      assert error[..m] == error;
    }
  }

  lemma {:induction false} LeadingZeros(error: seq<Byte>, n: nat)
    requires n <= |error| && ZeroBelow(error, n)
    ensures Crc(error) == Crc(error[n..])
  {
    CrcConcat(ZERO, error[..n], error[n..]);
    assert error[..n] + error[n..] == error;
    CrcOfZeros(error[..n]);
  }

  lemma {:induction false} CrcOfZeros(data: seq<Byte>)
    requires forall k :: 0 <= k < |data| ==> data[k] == ZERO
    ensures Crc(data) == ZERO
  {
    if data != [] {
      CrcOfZeros(data[..|data| - 1]);
      FeedZero(ZERO, ZERO);
    }
  }

  /** Bit `n` of a frame in the order of transmission. */
  predicate FrameBit(frame: seq<Byte>, n: nat)
    requires n < 8 * |frame|
  {
    frame[n / 8].Msb(n % 8)
  }

  /** All wrong bits lie within eight successive bits from `s` on. */
  ghost predicate Burst(error: seq<Byte>, s: nat) {
    forall n: nat | n < 8 * |error| && FrameBit(error, n) :: s <= n < s + 8
  }

  lemma ByteZeroIff(b: Byte)
    ensures b == ZERO <==> forall k: nat | k < 8 :: !b.Msb(k)
  {
    if forall k: nat | k < 8 :: !b.Msb(k) {
      assert !b.Msb(0) && !b.Msb(1) && !b.Msb(2) && !b.Msb(3) && !b.Msb(4) && !b.Msb(5) && !b.Msb(6) && !b.Msb(7);
    }
  }

  ghost predicate NoneBefore(b: Byte, k: nat) { forall j: nat | j < k && j < 8 :: !b.Msb(j) }
  ghost predicate NoneFrom(b: Byte, k: nat) { forall j: nat | k <= j < 8 :: !b.Msb(j) }

  /** A burst across two bytes: `x` has only its last `8 - k` bits, `y` only its first `k`. */
  lemma BurstAcross(x: Byte, y: Byte, k: nat)
    requires k < 8
    requires NoneBefore(x, k) && NoneFrom(y, k)
    requires x != ZERO || y != ZERO
    ensures ShiftByte(x) != y
  {
    EquationsDivide(x);
    if k > 0 { assert !x.Msb(0); }
    if k > 1 { assert !x.Msb(1); }
    if k > 2 { assert !x.Msb(2); }
    if k > 3 { assert !x.Msb(3); }
    if k > 4 { assert !x.Msb(4); }
    if k > 5 { assert !x.Msb(5); }
    if k > 6 { assert !x.Msb(6); }
    if k <= 7 { assert !y.Msb(7); }
    if k <= 6 { assert !y.Msb(6); }
    if k <= 5 { assert !y.Msb(5); }
    if k <= 4 { assert !y.Msb(4); }
    if k <= 3 { assert !y.Msb(3); }
    if k <= 2 { assert !y.Msb(2); }
    if k <= 1 { assert !y.Msb(1); }
    if k == 0 { assert !y.Msb(0); }
  }

  /** The wrong bits of a burst lie in at most two neighbouring bytes. */
  lemma BurstBytes(error: seq<Byte>, s: nat)
    requires Burst(error, s)
    ensures ZeroBelow(error, s / 8) && ZeroFrom(error, s / 8 + 2)
    ensures s / 8 < |error| ==> NoneBefore(error[s / 8], s % 8)
    ensures s / 8 + 1 < |error| ==> NoneFrom(error[s / 8 + 1], s % 8)
  {
    forall i: nat, j: nat | i < |error| && j < 8 && error[i].Msb(j) ensures s <= 8 * i + j < s + 8 {
      assert (8 * i + j) / 8 == i && (8 * i + j) % 8 == j;
      assert FrameBit(error, 8 * i + j);
    }
    forall i: nat | i < |error| && (i < s / 8 || s / 8 + 2 <= i) ensures error[i] == ZERO {
      ByteZeroIff(error[i]);
    }
  }

  lemma CrcOfOne(x: Byte)
    ensures Crc([x]) == ShiftByte(x)
    ensures Crc([x]) == ZERO <==> x == ZERO
  {
    assert [x][..0] == [];
    assert CrcFrom(ZERO, [x]) == Feed(CrcFrom(ZERO, []), x);
    FeedZero(ZERO, x);
    assert ZERO.Xor(x) == x;
  }

  lemma CrcOfTwo(x: Byte, y: Byte)
    ensures Crc([x, y]) == Feed(ShiftByte(x), y)
  {
    assert [x, y][..1] == [x];
    CrcOfOne(x);
  }

  lemma BurstOfTwo(x: Byte, y: Byte, k: nat)
    requires k < 8 && NoneBefore(x, k) && NoneFrom(y, k) && (x != ZERO || y != ZERO)
    ensures Crc([x, y]) != ZERO
  {
    BurstAcross(x, y, k);
    CrcOfTwo(x, y);
    FeedZero(ShiftByte(x), y);
  }

  lemma BurstInTwo(error: seq<Byte>, n: nat, k: nat)
    requires n + 1 < |error| && ZeroBelow(error, n) && ZeroFrom(error, n + 2)
    requires k < 8 && NoneBefore(error[n], k) && NoneFrom(error[n + 1], k)
    requires error[n] != ZERO || error[n + 1] != ZERO
    ensures Crc(error) != ZERO
  {
    ZerosDoNotMatter(error, n, n + 2);
    assert error[n..n + 2] == [error[n], error[n + 1]];
    BurstOfTwo(error[n], error[n + 1], k);
  }

  /** Every error confined to one byte is detected. */
  lemma DetectsWrongByte(error: seq<Byte>, i: nat)
    requires i < |error| && error[i] != ZERO && ZeroBelow(error, i) && ZeroFrom(error, i + 1)
    ensures Crc(error) != ZERO
  {
    ZerosDoNotMatter(error, i, i + 1);
    assert error[i..i + 1] == [error[i]];
    CrcOfOne(error[i]);
  }

  /** Every burst of at most eight bits is detected, at any place in a frame of any length. */
  lemma DetectsBursts(error: seq<Byte>, s: nat, i: nat)
    requires Burst(error, s) && i < |error| && error[i] != ZERO
    ensures Crc(error) != ZERO
  {
    var n := s / 8;
    BurstBytes(error, s);
    assert n <= i < n + 2;
    if n + 1 < |error| {
      BurstInTwo(error, n, s % 8);
    } else {
      DetectsWrongByte(error, n);
    }
  }

  /** Whether an odd number of bits is set in all bytes together. */
  predicate OddBits(data: seq<Byte>) {
    data != [] && (OddBits(data[..|data| - 1]) != data[|data| - 1].Odd())
  }

  /** Every error that flips an odd number of bits is detected. */
  lemma {:induction false} DetectsOddErrors(error: seq<Byte>)
    ensures Crc(error).Odd() <==> OddBits(error)
    ensures OddBits(error) ==> Crc(error) != ZERO
  {
    if error != [] {
      DetectsOddErrors(error[..|error| - 1]);
      FeedParity(Crc(error[..|error| - 1]), error[|error| - 1]);
    }
  }

  // ---------------------------------------------------------------- two wrong bits

  function Monomial(k: nat): Byte
    requires k < 8
  {
    Byte(k == 0, k == 1, k == 2, k == 3, k == 4, k == 5, k == 6, k == 7)
  }

  lemma {:induction false} ShiftsAdd(c: Byte, a: nat, b: nat)
    ensures Shifts(c, a + b) == Shifts(Shifts(c, a), b)
  {
    if b > 0 { ShiftsAdd(c, a, b - 1); }
  }

  lemma ShiftedMonomial(c: Byte, k: nat)
    requires 0 < k < 8
    ensures c.ShiftBit() == Monomial(k) <==> c == Monomial(k - 1)
  {
  }

  /** Below x^8 no division takes place. */
  lemma {:induction false} ShiftsToMonomial(c: Byte, n: nat, k: nat)
    requires n <= k < 8
    ensures Shifts(c, n) == Monomial(k) <==> c == Monomial(k - n)
  {
    if n > 0 {
      ShiftsToMonomial(c, n - 1, k - 1);
      ShiftedMonomial(Shifts(c, n - 1), k);
    }
  }

  /** x^7 times x^(8 q). */
  function Power(q: nat): Byte
    requires q <= 15
  {
    match q
    case 0 => Byte(false, false, false, false, false, false, false, true)
    case 1 => Byte(true, false, false, true, false, false, false, true)
    case 2 => Byte(false, true, true, false, true, true, false, true)
    case 3 => Byte(true, true, false, true, false, false, false, false)
    case 4 => Byte(true, false, false, false, true, true, false, false)
    case 5 => Byte(true, true, true, false, true, false, false, true)
    case 6 => Byte(false, false, true, true, false, true, true, true)
    case 7 => Byte(false, true, false, true, false, false, false, true)
    case 8 => Byte(true, true, true, true, true, true, false, true)
    case 9 => Byte(false, false, true, false, true, true, false, false)
    case 10 => Byte(false, false, true, true, false, false, false, true)
    case 11 => Byte(true, false, true, true, false, true, false, true)
    case 12 => Byte(false, true, false, true, false, false, true, false)
    case 13 => Byte(true, false, false, false, true, true, true, true)
    case 14 => Byte(true, false, false, true, true, false, true, true)
    case 15 => Byte(true, false, false, false, false, false, false, false)
  }

  lemma PowerStepLow(q: nat)
    requires q < 8
    ensures Equations(Power(q)) == Power(q + 1)
  {
    if q == 0 { assert Equations(Power(0)) == Power(1); }
    if q == 1 { assert Equations(Power(1)) == Power(2); }
    if q == 2 { assert Equations(Power(2)) == Power(3); }
    if q == 3 { assert Equations(Power(3)) == Power(4); }
    if q == 4 { assert Equations(Power(4)) == Power(5); }
    if q == 5 { assert Equations(Power(5)) == Power(6); }
    if q == 6 { assert Equations(Power(6)) == Power(7); }
    if q == 7 { assert Equations(Power(7)) == Power(8); }
  }

  lemma PowerStepHigh(q: nat)
    requires 8 <= q < 15
    ensures Equations(Power(q)) == Power(q + 1)
  {
    if q == 8 { assert Equations(Power(8)) == Power(9); }
    if q == 9 { assert Equations(Power(9)) == Power(10); }
    if q == 10 { assert Equations(Power(10)) == Power(11); }
    if q == 11 { assert Equations(Power(11)) == Power(12); }
    if q == 12 { assert Equations(Power(12)) == Power(13); }
    if q == 13 { assert Equations(Power(13)) == Power(14); }
    if q == 14 { assert Equations(Power(14)) == Power(15); }
  }

  lemma PowerStep(q: nat, c: Byte)
    requires q < 15 && c == Power(q)
    ensures ShiftByte(c) == Power(q + 1)
  {
    EquationsDivide(c);
    if q < 8 { PowerStepLow(q); } else { PowerStepHigh(q); }
  }

  lemma PowerMore(q: nat, n: nat, c: Byte)
    requires q < 15 && c == Power(q) && c == Shifts(Monomial(7), n)
    ensures Shifts(Monomial(7), n + 8) == Power(q + 1)
  {
    PowerStep(q, c);
    ShiftsAdd(Monomial(7), n, 8);
  }

  lemma {:induction false} PowerIsShifts(q: nat, n: nat)
    requires q <= 15 && n == 8 * q
    ensures Shifts(Monomial(7), n) == Power(q)
  {
    if q > 0 {
      PowerIsShifts(q - 1, n - 8);
      PowerMore(q - 1, n - 8, Power(q - 1));
    }
  }

  lemma OnlyMonomial(q: nat, k: nat)
    requires q <= 15 && k < 8
    ensures Power(q) == Monomial(k) <==> (q == 0 && k == 7) || (q == 15 && k == 0)
  {
  }

  lemma OrderWithin(d: nat)
    requires d <= 127
    ensures Shifts(Monomial(7), d) == Monomial(7) <==> d == 0 || d == 127
  {
    var q, r := d / 8, d % 8;
    PowerIsShifts(q, 8 * q);
    ShiftsAdd(Monomial(7), 8 * q, r);
    ShiftsToMonomial(Power(q), r, 7);
    OnlyMonomial(q, 7 - r);
  }

  /** The polynomial has order 127: a bit comes back after 127 divisions and not before. */
  lemma {:induction false} Order(d: nat)
    ensures Shifts(Monomial(7), d) == Monomial(7) <==> d % 127 == 0
  {
    if d <= 127 {
      OrderWithin(d);
    } else {
      OrderWithin(127);
      ShiftsAdd(Monomial(7), 127, d - 127);
      Order(d - 127);
    }
  }

  /** One power of x becomes another after `n` divisions exactly when their distance is a multiple of 127. */
  lemma MonomialsMeet(a: nat, b: nat, n: nat)
    requires a < 8 && b < 8 && n >= 8
    ensures Shifts(Monomial(a), n) == Monomial(b) <==> (n + a - b) % 127 == 0
  {
    ShiftsToMonomial(Monomial(a), 7 - a, 7);
    ShiftsAdd(Monomial(a), 7 - a, n + a - b);
    ShiftsAdd(Monomial(a), n, 7 - b);
    ShiftsToMonomial(Shifts(Monomial(a), n), 7 - b, 7);
    Order(n + a - b);
  }

  /** A wrong byte followed by right ones. */
  lemma {:induction false} CrcAfterOne(error: seq<Byte>, i: nat, m: nat, n: nat)
    requires i < m <= |error| && ZeroBelow(error, i) && (forall k :: i < k < m ==> error[k] == ZERO)
    requires n == 8 * (m - i)
    ensures Crc(error[..m]) == Shifts(error[i], n)
  {
    assert error[..m][..m - 1] == error[..m - 1];
    if m == i + 1 {
      CrcOfZeros(error[..i]);
      XorZero(error[i], ZERO);
      assert ZERO.Xor(error[i]) == error[i];
    } else {
      CrcAfterOne(error, i, m - 1, n - 8);
      FeedNothing(Shifts(error[i], n - 8));
      ShiftsAdd(error[i], n - 8, 8);
    }
  }

  lemma FeedNothing(c: Byte)
    ensures Feed(c, ZERO) == ShiftByte(c)
  {
    XorZero(c, ZERO);
  }

  lemma CrcToSecond(head: seq<Byte>, i: nat, j: nat, shifted: Byte)
    requires i < j && |head| == j + 1 && ZeroBelow(head, i) && (forall k :: i < k < j ==> head[k] == ZERO)
    requires shifted == Shifts(head[i], 8 * (j - i))
    ensures Crc(head) == ZERO <==> shifted == head[j]
  {
    CrcAfterOne(head, i, j, 8 * (j - i));
    FeedZero(shifted, head[j]);
  }

  /** Two wrong bytes are missed exactly when the first is divided to the second. */
  lemma TwoBytes(error: seq<Byte>, i: nat, j: nat, head: seq<Byte>, shifted: Byte)
    requires i < j < |error| && head == error[..j + 1] && shifted == Shifts(error[i], 8 * (j - i))
    requires forall k :: 0 <= k < |error| && k != i && k != j ==> error[k] == ZERO
    ensures Crc(error) == ZERO <==> shifted == error[j]
  {
    CrcToSecond(head, i, j, shifted);
    TrailingZeros(error, j + 1);
  }

  /** Exactly the bits `p` and `q` are wrong. */
  ghost predicate DoubleError(error: seq<Byte>, p: nat, q: nat) {
    p < q < 8 * |error| && forall n: nat | n < 8 * |error| :: FrameBit(error, n) <==> n == p || n == q
  }

  lemma OneBit(b: Byte, k: nat)
    requires k < 8 && forall j: nat | j < 8 :: b.Msb(j) <==> j == k
    ensures b == Monomial(7 - k)
  {
    assert b.Msb(0) <==> k == 0;
    assert b.Msb(1) <==> k == 1;
    assert b.Msb(2) <==> k == 2;
    assert b.Msb(3) <==> k == 3;
    assert b.Msb(4) <==> k == 4;
    assert b.Msb(5) <==> k == 5;
    assert b.Msb(6) <==> k == 6;
    assert b.Msb(7) <==> k == 7;
  }

  lemma DoubleErrorBytes(error: seq<Byte>, p: nat, q: nat)
    requires DoubleError(error, p, q)
    ensures forall i: nat, j: nat | i < |error| && j < 8 ::
              error[i].Msb(j) <==> (i == p / 8 && j == p % 8) || (i == q / 8 && j == q % 8)
    ensures forall k :: 0 <= k < |error| && k != p / 8 && k != q / 8 ==> error[k] == ZERO
  {
    forall i: nat, j: nat | i < |error| && j < 8
      ensures error[i].Msb(j) <==> (i == p / 8 && j == p % 8) || (i == q / 8 && j == q % 8)
    {
      assert (8 * i + j) / 8 == i && (8 * i + j) % 8 == j;
      assert FrameBit(error, 8 * i + j) <==> 8 * i + j == p || 8 * i + j == q;
    }
    forall k | 0 <= k < |error| && k != p / 8 && k != q / 8 ensures error[k] == ZERO {
      ByteZeroIff(error[k]);
    }
  }

  /** Two wrong bits are missed exactly when their distance is a multiple of 127 bits. */
  lemma DetectsDoubleErrors(error: seq<Byte>, p: nat, q: nat)
    requires DoubleError(error, p, q)
    ensures Crc(error) == ZERO <==> (q - p) % 127 == 0
  {
    DoubleErrorBytes(error, p, q);
    var i, j := p / 8, q / 8;
    if i == j {
      assert error[i].Msb(p % 8);
      ByteZeroIff(error[i]);
      DetectsWrongByte(error, i);
    } else {
      OneBit(error[i], p % 8);
      OneBit(error[j], q % 8);
      TwoBytes(error, i, j, error[..j + 1], Shifts(error[i], 8 * (j - i)));
      MonomialsMeet(7 - p % 8, 7 - q % 8, 8 * (j - i));
    }
  }
}
