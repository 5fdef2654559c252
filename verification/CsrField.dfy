/** Register access through byte lists and named fields (`verification/cocotb/common/bus2csr.py`). */
module CsrField {
  import opened Bitwise
  import opened Packing

  datatype Encoded = Refused | Encoded(bytes: seq<Octet>)

  /** `log2(value) <= byte_width * 8`, for positive values. */
  predicate Fits(value: nat, width: nat) { value == 0 || value <= Shl(1, 8 * width) }

  /** `int2bytes`: little-endian, `width` bytes. */
  method Int2Bytes(value: nat, width: nat) returns (r: Encoded)
    ensures r == if Fits(value, width) then Encoded(Lanes(value, width)) else Refused
  {
    if !Fits(value, width) { return Refused; }
    var bytes: seq<Octet> := [];
    for b := 0 to width
      invariant bytes == Lanes(value, b)
    {
      LaneIsOctet(value, b);
      bytes := bytes + [And(Shr(value, b * 8), 255)];
    }
    r := Encoded(bytes);
  }

  function Lanes(value: nat, width: nat): (bytes: seq<Octet>)
    ensures |bytes| == width
  {
    seq(width, b requires 0 <= b => Lane(value, b))
  }

  /** `bytes2int`: the sum of the shifted bytes, of no more than `width` of them. */
  method Bytes2Int(data: seq<Octet>, width: nat) returns (value: nat)
    ensures value == Sum(data, if |data| < width then |data| else width)
  {
    value := 0;
    var n := if |data| < width then |data| else width;
    for b := 0 to n
      invariant value == Sum(data, b)
    {
      value := value + Shl(data[b], b * 8);
    }
  }

  function Sum(data: seq<Octet>, n: nat): nat
    requires n <= |data|
  {
    if n == 0 then 0 else Sum(data, n - 1) + Shl(data[n - 1], (n - 1) * 8)
  }

  lemma PackBelow(data: seq<Octet>, n: nat)
    ensures Pack(data, 0, n) < Shl(1, 8 * n)
  {
    forall b: nat | b >= 8 * n ensures !Bit(Pack(data, 0, n), b) { BitPack(data, 0, n, b); }
    BelowPower(Pack(data, 0, n), 8 * n);
  }

  lemma {:induction false} SumIsPack(data: seq<Octet>, n: nat)
    requires n <= |data|
    ensures Sum(data, n) == Pack(data, 0, n)
  {
    if n > 0 {
      SumIsPack(data, n - 1);
      PackBelow(data, n - 1);
      AddIsOr(Pack(data, 0, n - 1), data[n - 1], 8 * (n - 1));
    }
  }

  /** Decoding what was encoded gives the lowest `width` bytes of the value. */
  lemma SumOfLanes(value: nat, width: nat)
    ensures Sum(Lanes(value, width), width) == And(value, Ones(8 * width))
  {
    var data := Lanes(value, width);
    SumIsPack(data, width);
    forall b: nat ensures Bit(Pack(data, 0, width), b) <==> Bit(And(value, Ones(8 * width)), b) {
      BitPack(data, 0, width, b);
      BitAnd(value, Ones(8 * width), b);
      BitOnes(8 * width, b);
      BitLane(value, b / 8, b % 8);
      assert 8 * (b / 8) + b % 8 == b;
    }
    SameBits(Pack(data, 0, width), And(value, Ones(8 * width)));
  }

  lemma AndOnes(value: nat, n: nat)
    ensures And(value, Ones(n)) == value <==> value < Shl(1, n)
  {
    BelowPower(value, n);
    forall b: nat ensures Bit(And(value, Ones(n)), b) <==> Bit(value, b) && b < n {
      BitAnd(value, Ones(n), b);
      BitOnes(n, b);
    }
    if value < Shl(1, n) { SameBits(And(value, Ones(n)), value); }
  }

  /** A value that is accepted is decoded to itself exactly when it is not 256^width: the range check lets
      that one value through, and it is encoded as zeros. */
  lemma RoundTrip(value: nat, width: nat)
    requires Fits(value, width)
    ensures Sum(Lanes(value, width), width) == value <==> value != Shl(1, 8 * width)
    ensures value == Shl(1, 8 * width) ==> Sum(Lanes(value, width), width) == 0
  {
    SumOfLanes(value, width);
    AndOnes(value, 8 * width);
    if value == Shl(1, 8 * width) {
      forall b: nat ensures Bit(And(value, Ones(8 * width)), b) <==> Bit(0, b) {
        BitAnd(value, Ones(8 * width), b);
        BitOnes(8 * width, b);
        BitShl(1, 8 * width, b);
        BitZero(b);
      }
      SameBits(And(value, Ones(8 * width)), 0);
    }
    PositivePower(8 * width);
  }

  /** So the values that are accepted and come back are those below 256^width, and one value is accepted and lost. */
  lemma KeptIff(value: nat, width: nat)
    ensures Fits(value, width) && Sum(Lanes(value, width), width) == value <==> value < Shl(1, 8 * width)
    ensures Fits(value, width) && Sum(Lanes(value, width), width) != value <==> value == Shl(1, 8 * width)
  {
    PositivePower(8 * width);
    if Fits(value, width) { RoundTrip(value, width); }
  }

  lemma {:induction false} PositivePower(n: nat)
    ensures Shl(1, n) > 0
  {
    if n > 0 { PositivePower(n - 1); }
  }

  /** Every list of bytes is encoded again from what it decodes to. */
  lemma LanesOfSum(data: seq<Octet>)
    ensures Lanes(Sum(data, |data|), |data|) == data
  {
    SumIsPack(data, |data|);
    forall k: nat | k < |data| ensures Lane(Pack(data, 0, |data|), k) == data[k] {
      LaneOfPack(data, 0, |data|, k);
    }
  }

  // ---------------------------------------------------------------- fields

  /** A contiguous field of a 32-bit register: its mask and its lowest bit. */
  datatype Field = Field(low: nat, width: nat) {
    predicate Valid() { low + width <= 32 }
    function Mask(): nat { Shl(Ones(width), low) }
    predicate Has(b: nat) { low <= b < low + width }
  }

  lemma BitMask(f: Field, b: nat)
    ensures Bit(f.Mask(), b) <==> f.Has(b)
  {
    BitShl(Ones(f.width), f.low, b);
    if b >= f.low { BitOnes(f.width, b - f.low); }
  }

  /** `(value & ~mask) | (data << low)` */
  function Put(value: nat, f: Field, data: nat): nat { Or(AndNot(value, f.Mask()), Shl(data, f.low)) }

  /** `(value & mask) >> low` */
  function Get(value: nat, f: Field): nat { Shr(And(value, f.Mask()), f.low) }

  /** A register as the bus sees it: four bytes. */
  class Register {
    var bytes: seq<Octet>

    ghost predicate Valid()
      reads this
    {
      |bytes| == 4
    }

    function Value(): nat
      requires Valid()
      reads this
    {
      Sum(bytes, 4)
    }

    constructor (bytes: seq<Octet>)
      requires |bytes| == 4
      ensures Valid() && this.bytes == bytes
    {
      this.bytes := bytes;
    }

    /** Read, modify, write; a value that does not fit the register is refused, and nothing is written. */
    method WriteCsrField(f: Field, data: nat) returns (ok: bool)
      requires Valid()
      modifies this
      ensures Valid()
      ensures ok <==> Fits(Put(old(Value()), f, data), 4)
      ensures bytes == if ok then Lanes(Put(old(Value()), f, data), 4) else old(bytes)
    {
      var value := Bytes2Int(bytes, 4);
      value := AndNot(value, f.Mask());
      value := Or(value, Shl(data, f.low));
      var encoded := Int2Bytes(value, 4);
      ok := encoded.Encoded?;
      if ok { bytes := encoded.bytes; }
    }

    method ReadCsrField(f: Field) returns (data: nat)
      requires Valid()
      ensures data == Get(Value(), f)
    {
      var value := Bytes2Int(bytes, 4);
      value := And(value, f.Mask());
      data := Shr(value, f.low);
    }
  }

  lemma BitPut(value: nat, f: Field, data: nat, b: nat)
    ensures Bit(Put(value, f, data), b) <==> (Bit(value, b) && !f.Has(b)) || (b >= f.low && Bit(data, b - f.low))
  {
    BitOr(AndNot(value, f.Mask()), Shl(data, f.low), b);
    BitAndNot(value, f.Mask(), b);
    BitMask(f, b);
    BitShl(data, f.low, b);
  }

  lemma BitGet(value: nat, f: Field, b: nat)
    ensures Bit(Get(value, f), b) <==> b < f.width && Bit(value, b + f.low)
  {
    BitShr(And(value, f.Mask()), f.low, b);
    BitAnd(value, f.Mask(), b + f.low);
    BitMask(f, b + f.low);
  }

  /** The register after a write, as a number. */
  function Stored(value: nat, f: Field, data: nat): nat { Sum(Lanes(Put(value, f, data), 4), 4) }

  lemma BitStored(value: nat, f: Field, data: nat, b: nat)
    ensures Bit(Stored(value, f, data), b) <==>
              b < 32 && ((Bit(value, b) && !f.Has(b)) || (b >= f.low && Bit(data, b - f.low)))
  {
    SumOfLanes(Put(value, f, data), 4);
    BitAnd(Put(value, f, data), Ones(32), b);
    BitOnes(32, b);
    BitPut(value, f, data, b);
  }

  /** A value that fits the field is accepted, and reading the field gives it back; a value that does not
      fit is never read back, even if the register takes it. */
  lemma GetPut(value: nat, f: Field, data: nat)
    requires value < Shl(1, 32) && f.Valid()
    ensures data < Shl(1, f.width) ==> Fits(Put(value, f, data), 4)
    ensures Get(Stored(value, f, data), f) == data <==> data < Shl(1, f.width)
  {
    BelowPower(data, f.width);
    BelowPower(value, 32);
    var got := Get(Stored(value, f, data), f);
    forall b: nat ensures Bit(got, b) <==> b < f.width && Bit(data, b) {
      BitGet(Stored(value, f, data), f, b);
      BitStored(value, f, data, b + f.low);
    }
    if data < Shl(1, f.width) {
      SameBits(got, data);
      forall b: nat | b >= 32 ensures !Bit(Put(value, f, data), b) { BitPut(value, f, data, b); }
      BelowPower(Put(value, f, data), 32);
    }
  }

  /** Writing a value that fits leaves every field with a disjoint mask as it was. */
  lemma OtherFieldsKept(value: nat, f: Field, g: Field, data: nat)
    requires f.Valid() && g.Valid() && data < Shl(1, f.width)
    requires And(f.Mask(), g.Mask()) == 0
    ensures Get(Stored(value, f, data), g) == Get(value, g)
  {
    BelowPower(data, f.width);
    forall b: nat ensures Bit(Get(Stored(value, f, data), g), b) <==> Bit(Get(value, g), b) {
      BitGet(Stored(value, f, data), g, b);
      BitGet(value, g, b);
      BitStored(value, f, data, b + g.low);
      BitAnd(f.Mask(), g.Mask(), b + g.low);
      BitMask(f, b + g.low);
      BitMask(g, b + g.low);
      BitZero(b + g.low);
    }
    SameBits(Get(Stored(value, f, data), g), Get(value, g));
  }

  /** Writing back what was read changes nothing, and of two writes to a field only the second counts. */
  lemma PutGetPutPut(value: nat, f: Field, data: nat, data2: nat)
    requires value < Shl(1, 32) && f.Valid() && data < Shl(1, f.width)
    ensures Stored(value, f, Get(value, f)) == value
    ensures Stored(Stored(value, f, data), f, data2) == Stored(value, f, data2)
  {
    BelowPower(value, 32);
    BelowPower(data, f.width);
    forall b: nat
      ensures Bit(Stored(value, f, Get(value, f)), b) <==> Bit(value, b)
      ensures Bit(Stored(Stored(value, f, data), f, data2), b) <==> Bit(Stored(value, f, data2), b)
    {
      BitStored(value, f, Get(value, f), b);
      if b >= f.low { BitGet(value, f, b - f.low); }
      BitStored(Stored(value, f, data), f, data2, b);
      BitStored(value, f, data, b);
      BitStored(value, f, data2, b);
    }
    SameBits(Stored(value, f, Get(value, f)), value);
    SameBits(Stored(Stored(value, f, data), f, data2), Stored(value, f, data2));
  }
}
