/** Little-endian packing of byte lists into 32-bit words, as the test library writes it three times:
    `split_into_dwords` and `format_ibi_data` (`verification/cocotb/common/utils.py`) and the bytes path of
    `write_to_indirect_fifo` (`verification/cocotb/top/lib_i3c_top/test_bypass.py`); and the byte loops of
    the queue interface (`verification/cocotb/block/lib_hci_queues/tti_queues.py`). */
module Packing {
  import opened Bitwise

  type Octet = n: nat | n < 256

  /** `or_null` */
  function At(data: seq<Octet>, k: nat): Octet { if k < |data| then data[k] else 0 }

  /** The word with octets `k`, `k + 1`, ... of the list in its lowest `n` lanes. */
  function Pack(data: seq<Octet>, k: nat, n: nat): nat {
    if n == 0 then 0 else Or(Pack(data, k, n - 1), Shl(At(data, k + n - 1), 8 * (n - 1)))
  }

  lemma OctetBits(d: Octet, k: nat)
    requires Bit(d, k)
    ensures k < 8
  {
    assert Shl(1, 4) == 16 && Shl(1, 8) == 256;
    BelowPower(d, 8);
  }

  lemma {:induction false} BitPack(data: seq<Octet>, k: nat, n: nat, b: nat)
    ensures Bit(Pack(data, k, n), b) <==> b / 8 < n && Bit(At(data, k + b / 8), b % 8)
  {
    if n == 0 {
      BitZero(b);
    } else {
      var d, s := At(data, k + n - 1), 8 * (n - 1);
      BitPack(data, k, n - 1, b);
      BitOr(Pack(data, k, n - 1), Shl(d, s), b);
      BitShl(d, s, b);
      if b >= s && Bit(d, b - s) { OctetBits(d, b - s); }
      assert b / 8 == n - 1 <==> s <= b < s + 8;
      assert s <= b < s + 8 ==> b % 8 == b - s;
    }
  }

  /** Four octets to a word, the last word filled up with zeros. */
  function Dwords(data: seq<Octet>): (words: seq<nat>)
    ensures |words| == (|data| + 3) / 4
    ensures forall j :: 0 <= j < |words| ==> words[j] == Pack(data, 4 * j, 4)
  {
    seq((|data| + 3) / 4, j requires 0 <= j => Pack(data, 4 * j, 4))
  }

  // ---------------------------------------------------------------- the three packers

  /** Or-ing four octets from the highest lane down. */
  function FromAbove(b0: Octet, b1: Octet, b2: Octet, b3: Octet): nat {
    Or(Or(Or(Shl(b3, 24), Shl(b2, 16)), Shl(b1, 8)), Shl(b0, 0))
  }

  lemma OrSwaps(a: nat, b: nat, c: nat)
    ensures Or(a, b) == Or(b, a)
    ensures Or(Or(a, b), c) == Or(a, Or(b, c))
  {
    forall k: nat
      ensures Bit(Or(a, b), k) <==> Bit(Or(b, a), k)
      ensures Bit(Or(Or(a, b), c), k) <==> Bit(Or(a, Or(b, c)), k)
    {
      BitOr(a, b, k);
      BitOr(b, a, k);
      BitOr(b, c, k);
      BitOr(Or(a, b), c, k);
      BitOr(a, Or(b, c), k);
    }
    SameBits(Or(a, b), Or(b, a));
    SameBits(Or(Or(a, b), c), Or(a, Or(b, c)));
  }

  lemma FromAboveIsPack(data: seq<Octet>, k: nat)
    ensures FromAbove(At(data, k), At(data, k + 1), At(data, k + 2), At(data, k + 3)) == Pack(data, k, 4)
  {
    var p0, p1 := Shl(At(data, k), 0), Shl(At(data, k + 1), 8);
    var p2, p3 := Shl(At(data, k + 2), 16), Shl(At(data, k + 3), 24);
    assert Pack(data, k, 1) == p0;
    assert Pack(data, k, 2) == Or(p0, p1);
    assert Pack(data, k, 3) == Or(Or(p0, p1), p2);
    assert Pack(data, k, 4) == Or(Or(Or(p0, p1), p2), p3);
    OrSwaps(p3, p2, p1);
    OrSwaps(p2, p1, p0);
    OrSwaps(Or(p3, p2), p1, p0);
    OrSwaps(p1, p0, p0);
    OrSwaps(p3, p2, Or(p0, p1));
    OrSwaps(p2, Or(p0, p1), p0);
    OrSwaps(p3, Or(Or(p0, p1), p2), p0);
  }

  /** The number of valid octets from `k` on, at most four. */
  function Valid(len: nat, k: nat): nat { if len <= k then 0 else if len - k < 4 then len - k else 4 }

  /** One round of `split_into_dwords`. */
  method SplitDword(data: seq<Octet>, byteIdx: nat) returns (dword: nat, mask: nat)
    requires byteIdx < |data|
    ensures dword == Pack(data, byteIdx, 4) && mask == Ones(8 * Valid(|data|, byteIdx))
  {
    dword := FromAbove(At(data, byteIdx), At(data, byteIdx + 1), At(data, byteIdx + 2), At(data, byteIdx + 3));
    FromAboveIsPack(data, byteIdx);
    var bits := 8 * (if |data| - byteIdx < 4 then |data| - byteIdx else 4);
    OnesIsPower(bits);
    mask := Shl(1, bits) - 1;
  }

  method SplitIntoDwords(data: seq<Octet>) returns (dwords: seq<nat>, masks: seq<nat>)
    ensures dwords == Dwords(data) && |masks| == |dwords|
    ensures forall j: nat, b: nat | j < |masks| :: Bit(masks[j], b) <==> b < 32 && 4 * j + b / 8 < |data|
  {
    dwords, masks := [], [];
    var byteIdx := 0;
    while byteIdx < |data|
      invariant byteIdx == 4 * |dwords| && |masks| == |dwords| <= (|data| + 3) / 4
      invariant forall j :: 0 <= j < |dwords| ==> dwords[j] == Pack(data, 4 * j, 4)
      invariant forall j :: 0 <= j < |dwords| ==> masks[j] == Ones(8 * Valid(|data|, 4 * j))
    {
      var dword, mask := SplitDword(data, byteIdx);
      dwords, masks := dwords + [dword], masks + [mask];
      byteIdx := byteIdx + 4;
    }
    forall j: nat, b: nat | j < |masks|
      ensures Bit(masks[j], b) <==> b < 32 && 4 * j + b / 8 < |data|
    {
      BitOnes(8 * Valid(|data|, 4 * j), b);
    }
  }

  lemma {:induction false} PackPastEnd(data: seq<Octet>, k: nat, n: nat, m: nat)
    requires n <= m && |data| <= k + n
    ensures Pack(data, k, m) == Pack(data, k, n)
  {
    if n < m {
      PackPastEnd(data, k, n, m - 1);
      ShlZero(8 * (m - 1));
    }
  }

  lemma {:induction false} ShlZero(n: nat)
    ensures Shl(0, n) == 0
  {
    if n > 0 { ShlZero(n - 1); }
  }

  /** The descriptor of an IBI: the mandatory data byte above the length. */
  function IbiDescriptor(mdb: Octet, len: nat): nat { Or(Shl(mdb, 24), len) }

  /** Byte and length can be told from the descriptor exactly when the length fits below the byte. */
  lemma DescriptorFields(mdb: Octet, len: nat)
    ensures var descr := IbiDescriptor(mdb, len);
            Shr(descr, 24) == mdb && And(descr, Ones(24)) == len <==> len < Shl(1, 24)
  {
    var descr := IbiDescriptor(mdb, len);
    BelowPower(len, 24);
    forall b: nat ensures Bit(And(descr, Ones(24)), b) <==> b < 24 && Bit(len, b) { BitLow(mdb, len, b); }
    if len < Shl(1, 24) {
      SameBits(And(descr, Ones(24)), len);
      forall b: nat ensures Bit(Shr(descr, 24), b) <==> Bit(mdb, b) {
        BitHigh(mdb, len, b);
        assert !Bit(len, b + 24);
      }
      SameBits(Shr(descr, 24), mdb);
    }
  }

  lemma BitLow(mdb: Octet, len: nat, b: nat)
    ensures Bit(And(IbiDescriptor(mdb, len), Ones(24)), b) <==> b < 24 && Bit(len, b)
  {
    BitAnd(IbiDescriptor(mdb, len), Ones(24), b);
    BitOnes(24, b);
    BitOr(Shl(mdb, 24), len, b);
    BitShl(mdb, 24, b);
  }

  lemma BitHigh(mdb: Octet, len: nat, b: nat)
    ensures Bit(Shr(IbiDescriptor(mdb, len), 24), b) <==> Bit(mdb, b) || Bit(len, b + 24)
  {
    BitShr(IbiDescriptor(mdb, len), 24, b);
    BitOr(Shl(mdb, 24), len, b + 24);
    BitShl(mdb, 24, b + 24);
  }

  /** `format_ibi_data`: the descriptor, then the words. */
  method FormatIbiData(mdb: Octet, data: seq<Octet>) returns (r: seq<nat>)
    ensures r == [IbiDescriptor(mdb, |data|)] + Dwords(data)
  {
    var words := FormatWords(data);
    var descr := Or(Shl(mdb, 24), |data|);
    r := [descr] + words;
  }

  /** The data words: each octet is or-ed into its lane. */
  method FormatWords(data: seq<Octet>) returns (words: seq<nat>)
    ensures words == Dwords(data)
  {
    var count := (|data| + 3) / 4;
    words := seq(count, _ => 0);
    var i, j := 0, 0;
    for k := 0 to |data|
      invariant k == 4 * j + i && i < 4 && |words| == count
      invariant forall m: nat | m < count :: words[m] == Pack(data, 4 * m, Valid(k, 4 * m))
    {
      words := words[j := Or(words[j], Shl(data[k], 8 * i))];
      i := i + 1;
      if i == 4 { i, j := 0, j + 1; }
    }
    forall m: nat | m < count ensures words[m] == Pack(data, 4 * m, 4) {
      if |data| < 4 * m + 4 { PackPastEnd(data, 4 * m, Valid(|data|, 4 * m), 4); }
    }
  }

  /** One octet more completes its word when it is the fourth, or the last of all. */
  lemma PackStep(data: seq<Octet>, m: nat, n: nat)
    requires 4 * m + n < |data| && n < 4
    ensures Or(Pack(data, 4 * m, n), Shl(data[4 * m + n], 8 * n)) == Pack(data, 4 * m, n + 1)
    ensures n == 3 || 4 * m + n == |data| - 1 ==> Pack(data, 4 * m, n + 1) == Pack(data, 4 * m, 4)
  {
    assert 4 * m + (n + 1) - 1 == 4 * m + n && (n + 1) - 1 == n;
    if 4 * m + n == |data| - 1 { PackPastEnd(data, 4 * m, n + 1, 4); }
  }

  datatype Written = EmptyRefused | Written(xfer: seq<nat>)

  /** The words that `write_to_indirect_fifo` writes for a list of octets; an empty list is refused. */
  method WriteOctets(data: seq<Octet>) returns (r: Written)
    ensures r == if data == [] then EmptyRefused else Written(Dwords(data))
  {
    if data == [] { return EmptyRefused; }
    var xfer: seq<nat>, dword := [], 0;
    for i := 0 to |data|
      invariant i < |data| ==> |xfer| == i / 4 && dword == Pack(data, 4 * (i / 4), i % 4)
      invariant i == |data| ==> |xfer| == (|data| + 3) / 4
      invariant forall j :: 0 <= j < |xfer| ==> xfer[j] == Pack(data, 4 * j, 4)
    {
      PackStep(data, i / 4, i % 4);
      dword := Or(dword, Shl(data[i], 8 * (i % 4)));
      if ((i + 1) % 4 == 0 && i != 0) || i == |data| - 1 {
        xfer := xfer + [dword];
        dword := 0;
      }
    }
    r := Written(xfer);
  }

  // ---------------------------------------------------------------- unpacking

  /** `(w >> 8 * lane) & 0xFF` */
  function Lane(w: nat, lane: nat): Octet {
    LaneIsOctet(w, lane);
    And(Shr(w, 8 * lane), 255)
  }

  lemma BitLane(w: nat, lane: nat, b: nat)
    ensures Bit(And(Shr(w, 8 * lane), 255), b) <==> b < 8 && Bit(w, 8 * lane + b)
  {
    BitAnd(Shr(w, 8 * lane), 255, b);
    BitShr(w, 8 * lane, b);
    assert Ones(4) == 15 && Ones(8) == 255;
    BitOnes(8, b);
  }

  lemma LaneIsOctet(w: nat, lane: nat)
    ensures And(Shr(w, 8 * lane), 255) < 256
  {
    var v := And(Shr(w, 8 * lane), 255);
    forall b: nat | b >= 8 ensures !Bit(v, b) { BitLane(w, lane, b); }
    assert Shl(1, 4) == 16 && Shl(1, 8) == 256;
    BelowPower(v, 8);
  }

  lemma LaneOfPack(data: seq<Octet>, k: nat, n: nat, lane: nat)
    requires lane < n
    ensures Lane(Pack(data, k, n), lane) == At(data, k + lane)
  {
    var w := Pack(data, k, n);
    forall b: nat ensures Bit(Lane(w, lane), b) <==> Bit(At(data, k + lane), b) {
      BitLane(w, lane, b);
      BitPack(data, k, n, 8 * lane + b);
      if Bit(At(data, k + lane), b) { OctetBits(At(data, k + lane), b); }
      assert b < 8 ==> (8 * lane + b) / 8 == lane && (8 * lane + b) % 8 == b;
    }
    SameBits(Lane(w, lane), At(data, k + lane));
  }

  function Unpack(words: seq<nat>, n: nat): (data: seq<Octet>)
    requires n <= 4 * |words|
    ensures |data| == n
    ensures forall k :: 0 <= k < n ==> data[k] == Lane(words[k / 4], k % 4)
  {
    seq(n, k requires 0 <= k < n => Lane(words[k / 4], k % 4))
  }

  /** Packing then unpacking gives every list back. */
  lemma UnpackDwords(data: seq<Octet>)
    ensures Unpack(Dwords(data), |data|) == data
  {
    forall k: nat | k < |data| ensures Lane(Dwords(data)[k / 4], k % 4) == data[k] {
      LaneOfPack(data, 4 * (k / 4), 4, k % 4);
    }
  }

  /** Unpacking then packing gives every list of 32-bit words back. */
  lemma DwordsUnpack(words: seq<nat>)
    requires forall j :: 0 <= j < |words| ==> words[j] < 0x1_0000_0000
    ensures Dwords(Unpack(words, 4 * |words|)) == words
  {
    var data := Unpack(words, 4 * |words|);
    forall j: nat | j < |words| ensures Pack(data, 4 * j, 4) == words[j] {
      PackOfLanes(data, 4 * j, words[j]);
    }
  }

  lemma PackOfLanes(data: seq<Octet>, k: nat, w: nat)
    requires w < 0x1_0000_0000 && k + 4 <= |data|
    requires forall lane: nat | lane < 4 :: data[k + lane] == Lane(w, lane)
    ensures Pack(data, k, 4) == w
  {
    Power32();
    BelowPower(w, 32);
    forall b: nat ensures Bit(Pack(data, k, 4), b) <==> Bit(w, b) {
      BitPack(data, k, 4, b);
      if b < 32 {
        BitLane(w, b / 8, b % 8);
        assert data[k + b / 8] == Lane(w, b / 8);
        assert 8 * (b / 8) + b % 8 == b;
      }
    }
    SameBits(Pack(data, k, 4), w);
  }

  lemma Power32()
    ensures Shl(1, 32) == 0x1_0000_0000
  {
    assert Shl(1, 4) == 16 && Shl(1, 8) == 0x100;
    assert Shl(1, 12) == 0x1000 && Shl(1, 16) == 0x1_0000;
    assert Shl(1, 20) == 0x10_0000 && Shl(1, 24) == 0x100_0000;
    assert Shl(1, 28) == 0x1000_0000;
  }

  // ---------------------------------------------------------------- byte-wide queues

  lemma {:induction false} ShrAdds(w: nat, m: nat, n: nat)
    ensures Shr(Shr(w, m), n) == Shr(w, m + n)
  {
    if m > 0 { ShrAdds(w / 2, m - 1, n); }
  }

  /** `put_rx_data`: the bytes driven on the queue for a word.  Zero counts as no word, and then a random
      one is taken. */
  method PutRxData(data: nat, random: nat) returns (bytes: seq<Octet>)
    ensures bytes == Unpack([if data == 0 then random else data], 4)
  {
    var rest := if data == 0 then random else data;
    ghost var word := rest;
    bytes := [];
    for i := 0 to 4
      invariant |bytes| == i && forall k: nat | k < i :: bytes[k] == Lane(word, k)
      invariant rest == Shr(word, 8 * i)
    {
      LaneIsOctet(word, i);
      var byte := And(rest, 255);
      bytes := bytes + [byte];
      ShrAdds(word, 8 * i, 8);
      rest := Shr(rest, 8);
    }
  }

  /** `get_tx_data`: the word made of the four bytes taken from the queue. */
  method GetTxData(bytes: seq<Octet>) returns (word: nat)
    requires |bytes| == 4
    ensures word == Pack(bytes, 0, 4)
  {
    word := 0;
    for i := 0 to 4
      invariant word == ShiftedIn(bytes, i)
    {
      word := Or(Shr(word, 8), Shl(bytes[i], 24));
    }
    ShiftedInIsPack(bytes);
  }

  /** The word after `n` bytes have been shifted in from above. */
  function ShiftedIn(bytes: seq<Octet>, n: nat): nat
    requires n <= |bytes|
  {
    if n == 0 then 0 else Or(Shr(ShiftedIn(bytes, n - 1), 8), Shl(bytes[n - 1], 24))
  }

  lemma BitOfShift(w: nat, d: Octet, b: nat)
    ensures Bit(Or(Shr(w, 8), Shl(d, 24)), b) <==> Bit(w, b + 8) || (b >= 24 && Bit(d, b - 24))
  {
    BitOr(Shr(w, 8), Shl(d, 24), b);
    BitShr(w, 8, b);
    BitShl(d, 24, b);
  }

  lemma {:induction false} BitShiftedIn(bytes: seq<Octet>, n: nat, b: nat)
    requires n <= |bytes| && n <= 4
    ensures Bit(ShiftedIn(bytes, n), b) <==> b < 32 && b / 8 + n >= 4 && Bit(bytes[b / 8 + n - 4], b % 8)
  {
    if n == 0 {
      BitZero(b);
    } else {
      var w, d := ShiftedIn(bytes, n - 1), bytes[n - 1];
      BitShiftedIn(bytes, n - 1, b + 8);
      assert (b + 8) / 8 == b / 8 + 1 && (b + 8) % 8 == b % 8;
      BitOfShift(w, d, b);
      if b >= 24 && Bit(d, b - 24) { OctetBits(d, b - 24); }
    }
  }

  lemma ShiftedInIsPack(bytes: seq<Octet>)
    requires |bytes| == 4
    ensures ShiftedIn(bytes, 4) == Pack(bytes, 0, 4)
  {
    forall b: nat ensures Bit(ShiftedIn(bytes, 4), b) <==> Bit(Pack(bytes, 0, 4), b) {
      BitShiftedIn(bytes, 4, b);
      BitPack(bytes, 0, 4, b);
    }
    SameBits(ShiftedIn(bytes, 4), Pack(bytes, 0, 4));
  }

  /** The two loops undo each other, for every 32-bit word and every four bytes. */
  lemma QueueRoundTrip(word: nat, bytes: seq<Octet>)
    requires word < 0x1_0000_0000 && |bytes| == 4
    ensures Pack(Unpack([word], 4), 0, 4) == word
    ensures Unpack([Pack(bytes, 0, 4)], 4) == bytes
  {
    PackOfLanes(Unpack([word], 4), 0, word);
    forall k: nat | k < 4 ensures Lane(Pack(bytes, 0, 4), k) == bytes[k] { LaneOfPack(bytes, 0, 4, k); }
  }
}
