/** The bitwise operators of unbounded non-negative integers, and what they do to each bit. */
module Bitwise {
  predicate Bit(a: nat, k: nat) { if k == 0 then a % 2 == 1 else Bit(a / 2, k - 1) }

  function Or(a: nat, b: nat): nat {
    if a == 0 then b else if b == 0 then a
    else (if a % 2 == 1 || b % 2 == 1 then 1 else 0) + 2 * Or(a / 2, b / 2)
  }

  function And(a: nat, b: nat): nat {
    if a == 0 || b == 0 then 0
    else (if a % 2 == 1 && b % 2 == 1 then 1 else 0) + 2 * And(a / 2, b / 2)
  }

  /** `a & ~b` */
  function AndNot(a: nat, b: nat): nat {
    if a == 0 then 0 else if b == 0 then a
    else (if a % 2 == 1 && b % 2 == 0 then 1 else 0) + 2 * AndNot(a / 2, b / 2)
  }

  function Shl(a: nat, n: nat): nat { if n == 0 then a else 2 * Shl(a, n - 1) }

  function Shr(a: nat, n: nat): nat { if n == 0 then a else Shr(a / 2, n - 1) }

  /** `(1 << n) - 1` */
  function Ones(n: nat): nat { if n == 0 then 0 else 1 + 2 * Ones(n - 1) }

  lemma {:induction false} BitZero(k: nat)
    ensures !Bit(0, k)
  {
    if k > 0 { BitZero(k - 1); }
  }

  lemma {:induction false} BitOr(a: nat, b: nat, k: nat)
    ensures Bit(Or(a, b), k) <==> Bit(a, k) || Bit(b, k)
  {
    BitZero(k);
    if k > 0 && a != 0 && b != 0 { BitOr(a / 2, b / 2, k - 1); }
  }

  lemma {:induction false} BitAnd(a: nat, b: nat, k: nat)
    ensures Bit(And(a, b), k) <==> Bit(a, k) && Bit(b, k)
  {
    BitZero(k);
    if k > 0 && a != 0 && b != 0 { BitAnd(a / 2, b / 2, k - 1); }
  }

  lemma {:induction false} BitAndNot(a: nat, b: nat, k: nat)
    ensures Bit(AndNot(a, b), k) <==> Bit(a, k) && !Bit(b, k)
  {
    BitZero(k);
    if k > 0 && a != 0 && b != 0 { BitAndNot(a / 2, b / 2, k - 1); }
  }

  lemma {:induction false} BitShl(a: nat, n: nat, k: nat)
    ensures Bit(Shl(a, n), k) <==> k >= n && Bit(a, k - n)
  {
    if n > 0 && k > 0 {
      assert Shl(a, n) / 2 == Shl(a, n - 1);
      BitShl(a, n - 1, k - 1);
    }
  }

  lemma {:induction false} BitShr(a: nat, n: nat, k: nat)
    ensures Bit(Shr(a, n), k) <==> Bit(a, k + n)
  {
    if n > 0 { BitShr(a / 2, n - 1, k); }
  }

  lemma {:induction false} BitOnes(n: nat, k: nat)
    ensures Bit(Ones(n), k) <==> k < n
  {
    if n == 0 {
      BitZero(k);
    } else if k > 0 {
      assert Ones(n) / 2 == Ones(n - 1);
      BitOnes(n - 1, k - 1);
    }
  }

  lemma {:induction false} OnesIsPower(n: nat)
    ensures Ones(n) == Shl(1, n) - 1
  {
    if n > 0 { OnesIsPower(n - 1); }
  }

  /** A number is its bits. */
  lemma {:induction false} SameBits(a: nat, b: nat)
    requires forall k: nat :: Bit(a, k) <==> Bit(b, k)
    ensures a == b
    decreases a + b
  {
    if a + b > 0 {
      assert Bit(a, 0) <==> Bit(b, 0);
      forall k: nat ensures Bit(a / 2, k) <==> Bit(b / 2, k) {
        assert Bit(a, k + 1) <==> Bit(b, k + 1);
      }
      SameBits(a / 2, b / 2);
    }
  }

  ghost predicate NoBitsFrom(a: nat, n: nat) { forall k: nat | k >= n :: !Bit(a, k) }

  /** A number below a power of two has no bits from there on, and the other way round. */
  lemma {:induction false} BelowPower(a: nat, n: nat)
    ensures a < Shl(1, n) <==> NoBitsFrom(a, n)
  {
    if n == 0 {
      forall k: nat ensures !Bit(0, k) { BitZero(k); }
      if NoBitsFrom(a, 0) { SameBits(a, 0); }
    } else {
      BelowPower(a / 2, n - 1);
      assert a < Shl(1, n) <==> a / 2 < Shl(1, n - 1);
      if a < Shl(1, n) {
        forall k: nat | k >= n ensures !Bit(a, k) { assert !Bit(a / 2, k - 1); }
      } else {
        var k: nat :| k >= n - 1 && Bit(a / 2, k);
        assert Bit(a, k + 1);
      }
    }
  }

  /** Adding a number shifted above another is or-ing it. */
  lemma {:induction false} AddIsOr(a: nat, d: nat, n: nat)
    requires a < Shl(1, n)
    ensures a + Shl(d, n) == Or(a, Shl(d, n))
  {
    if n > 0 && a > 0 && Shl(d, n) > 0 {
      AddIsOr(a / 2, d, n - 1);
      assert Shl(d, n) / 2 == Shl(d, n - 1);
    }
  }
}
