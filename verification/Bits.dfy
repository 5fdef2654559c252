/** Bytes as eight bits, most significant first, as they travel on the bus. */
module Bits {
  type Bits8 = s: seq<bool> | |s| == 8 witness [false, false, false, false, false, false, false, false]

  const ZERO_BITS: Bits8 := [false, false, false, false, false, false, false, false]

  function Concat(bytes: seq<Bits8>): (bits: seq<bool>)
    ensures |bits| == 8 * |bytes|
  {
    if bytes == [] then [] else bytes[0] + Concat(bytes[1..])
  }

  lemma {:induction false} ConcatAt(bytes: seq<Bits8>, j: nat, b: nat)
    requires j < |bytes| && b < 8
    ensures Concat(bytes)[8 * j + b] == bytes[j][b]
  {
    if j > 0 {
      ConcatAt(bytes[1..], j - 1, b);
      assert Concat(bytes)[8 * j + b] == Concat(bytes[1..])[8 * (j - 1) + b];
    }
  }

  /** The complete groups of eight, in order. */
  function Group(bits: seq<bool>): (bytes: seq<Bits8>)
    ensures |bytes| == |bits| / 8
  {
    if |bits| < 8 then [] else [bits[..8]] + Group(bits[8..])
  }

  lemma {:induction false} GroupAt(bits: seq<bool>, j: nat)
    requires 8 * j + 8 <= |bits|
    ensures Group(bits)[j] == bits[8 * j..8 * j + 8]
  {
    if j == 0 {
    } else {
      GroupAt(bits[8..], j - 1);
      assert bits[8..][8 * (j - 1)..8 * (j - 1) + 8] == bits[8 * j..8 * j + 8];
    }
  }

  lemma {:induction false} GroupConcat(bytes: seq<Bits8>)
    ensures Group(Concat(bytes)) == bytes
  {
    if bytes != [] {
      GroupConcat(bytes[1..]);
      var bits := Concat(bytes);
      assert bits[..8] == bytes[0] && bits[8..] == Concat(bytes[1..]);
    }
  }

  lemma GroupFirst(bits: seq<bool>, bit: bool)
    requires |bits| < 8
    ensures Group(bits + [bit]) == if |bits| == 7 then [bits + [bit]] else []
  {
    var all := bits + [bit];
    if |bits| == 7 { assert all[..8] == all && Group(all[8..]) == []; }
  }

  lemma SliceSnoc(bits: seq<bool>, bit: bool)
    requires |bits| >= 8
    ensures (bits + [bit])[..8] == bits[..8] && (bits + [bit])[8..] == bits[8..] + [bit]
    ensures |bits| >= 15 ==> bits[8..][|bits| - 15..] == bits[|bits| - 7..]
  {
  }

  /** The bits after the last complete group, and one more. */
  function LastGroup(bits: seq<bool>, bit: bool): seq<Bits8> {
    if |bits| % 8 == 7 then [bits[|bits| - 7..] + [bit]] else []
  }

  /** One more bit completes a group or starts filling the next. */
  lemma {:induction false} GroupSnoc(bits: seq<bool>, bit: bool)
    ensures Group(bits + [bit]) == Group(bits) + LastGroup(bits, bit)
  {
    if |bits| < 8 {
      GroupFirst(bits, bit);
      assert |bits| == 7 ==> bits[|bits| - 7..] == bits;
    } else {
      SliceSnoc(bits, bit);
      GroupSnoc(bits[8..], bit);
      assert LastGroup(bits[8..], bit) == LastGroup(bits, bit);
      assert Group(bits + [bit]) == [bits[..8]] + Group(bits[8..] + [bit]);
    }
  }
}
