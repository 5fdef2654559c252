/** The width of the timing registers and delay counters: 20 bits. */
module Counts {
  const COUNT_SPAN := 0x10_0000
  type Count = n: nat | n < 0x10_0000

  /** One more, wrapping at the register width. */
  function Succ(n: Count): Count { if n + 1 == COUNT_SPAN then 0 else n + 1 }
}

/** Sampled bus lines: a line is a function of the clock cycle, and before cycle 0 it has been high
    (the reset value of the sampling registers, `src/ctrl/bus_monitor.sv:51-66`). */
module Wave {
  type Line = nat -> bool

  ghost function Prev(line: Line, n: nat): bool { if n == 0 then true else line(n - 1) }

  ghost predicate Fell(line: Line, n: nat) { Prev(line, n) && !line(n) }

  ghost predicate Rose(line: Line, n: nat) { !Prev(line, n) && line(n) }

  /** The line is low in the `m` cycles from `n` on. */
  ghost predicate LowFor(line: Line, n: nat, m: nat) { forall k: nat | n <= k < n + m :: !line(k) }

  /** SDA moves between cycles `n` and `n + 1` while SCL is high in both: a START or a STOP to any observer. */
  ghost predicate MovesWhileHigh(scl: Line, sda: Line, n: nat) {
    scl(n) && scl(n + 1) && sda(n) != sda(n + 1)
  }

  /** A line as seen `lag` clocks later, through synchronisers that reset high. */
  ghost function Delayed(line: Line, lag: nat): Line {
    (n: nat) => if n < lag then true else line(n - lag)
  }

  /** SCL with its falling edges at `fall(0) < fall(1) < ...` and its rising edges at `rise(k)` in between. */
  ghost predicate Clocked(scl: Line, fall: nat -> nat, rise: nat -> nat) {
    && (forall n: nat | n < fall(0) :: scl(n))
    && (forall k: nat {:trigger rise(k)} :: fall(k) < rise(k) < fall(k + 1))
    && (forall k: nat, n: nat {:trigger rise(k), scl(n)} | fall(k) <= n < rise(k) :: !scl(n))
    && (forall k: nat, n: nat {:trigger rise(k), scl(n)} | rise(k) <= n < fall(k + 1) :: scl(n))
  }

  /** Every cycle lies before the first edge or in exactly one period of the clock. */
  lemma {:induction false} Period(scl: Line, fall: nat -> nat, rise: nat -> nat, n: nat) returns (k: nat)
    requires Clocked(scl, fall, rise) && fall(0) <= n
    ensures fall(k) <= n < fall(k + 1)
  {
    k := 0;
    while fall(k + 1) <= n
      invariant fall(k) <= n
      decreases n - fall(k)
    {
      assert fall(k) < rise(k) < fall(k + 1);
      k := k + 1;
    }
  }

  lemma {:induction false} FallsGrow(scl: Line, fall: nat -> nat, rise: nat -> nat, j: nat, k: nat)
    requires Clocked(scl, fall, rise) && j <= k
    ensures fall(j) + 2 * (k - j) <= fall(k)
  {
    if j < k {
      FallsGrow(scl, fall, rise, j, k - 1);
      assert fall(k - 1) < rise(k - 1) < fall(k - 1 + 1);
    }
  }

  /** Where the edges are, and that the line is low between them. */
  lemma EdgesWithin(scl: Line, fall: nat -> nat, rise: nat -> nat, k: nat, n: nat)
    requires Clocked(scl, fall, rise) && fall(k) <= n < fall(k + 1)
    ensures Fell(scl, n) <==> n == fall(k)
    ensures n == fall(k) ==> Prev(scl, n)
    ensures fall(k) < n ==> (Prev(scl, n) <==> rise(k) < n)
    ensures Rose(scl, n) <==> n == rise(k)
    ensures scl(n) <==> rise(k) <= n
  {
    assert fall(k) < rise(k) < fall(k + 1);
    if n == fall(k) {
      if k > 0 {
        var j := k - 1;
        assert fall(j) < rise(j) < fall(j + 1);
        assert n > 0 && rise(j) <= n - 1 < fall(j + 1);
        assert scl(n - 1);
      } else if n > 0 {
        assert scl(n - 1);
      }
    } else if n - 1 < rise(k) {
      assert !scl(n - 1);
    } else {
      assert scl(n - 1);
    }
  }

  /** Two high samples in a row, the second not before the first falling edge, lie in one high phase. */
  lemma HighPhase(scl: Line, fall: nat -> nat, rise: nat -> nat, n: nat) returns (k: nat)
    requires Clocked(scl, fall, rise) && scl(n) && scl(n + 1) && fall(0) <= n + 1
    ensures rise(k) <= n && n + 1 < fall(k + 1)
  {
    var j := Period(scl, fall, rise, n + 1);
    EdgesWithin(scl, fall, rise, j, n + 1);
    k := j;
  }

  /** Strictly between two rising edges, and before the first one, the line does not rise. */
  lemma NoRiseBetween(scl: Line, fall: nat -> nat, rise: nat -> nat, k: nat, p: nat)
    requires Clocked(scl, fall, rise) && (k > 0 ==> rise(k - 1) < p) && p < rise(k)
    ensures !Rose(scl, p)
  {
    if p >= fall(k) {
      assert rise(k) < fall(k + 1);
      EdgesWithin(scl, fall, rise, k, p);
    } else if k > 0 {
      assert fall(k - 1) < rise(k - 1);
      EdgesWithin(scl, fall, rise, k - 1, p);
    }
  }

  /** The rising edges are at `rise(0) < rise(1) < ...`, never in adjacent cycles, and nowhere else. */
  ghost predicate RisesAt(scl: Line, rise: nat -> nat, k: nat) {
    && 1 <= rise(k) && rise(k) + 2 <= rise(k + 1) && Rose(scl, rise(k))
    && (forall p: nat | (k > 0 ==> rise(k - 1) < p) && p < rise(k) :: !Rose(scl, p))
  }

  lemma RisingEdges(scl: Line, fall: nat -> nat, rise: nat -> nat, k: nat)
    requires Clocked(scl, fall, rise)
    ensures RisesAt(scl, rise, k)
  {
    assert fall(k) < rise(k) < fall(k + 1) && fall(k + 1) < rise(k + 1);
    EdgesWithin(scl, fall, rise, k, rise(k));
    forall p: nat | (k > 0 ==> rise(k - 1) < p) && p < rise(k) ensures !Rose(scl, p) {
      NoRiseBetween(scl, fall, rise, k, p);
    }
  }
}
