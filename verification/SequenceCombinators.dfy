/** What `|` and `&` of the sequence matcher mean, for any operands and any answers of their predicates. */
module SequenceCombinators {
  import opened SequenceMatch

  /** The cursor after it has been called in `n` cycles from `t` on; an exhausted one is not called any more. */
  function Steps(c: Cursor, t: nat, n: nat): Cursor {
    if n == 0 then c
    else var p := Steps(c, t, n - 1); if p.Exhausted() then p else p.After(t + n - 1)
  }

  /** Operand `b` when it is called only in the cycles in which `a`, on its own, does not answer or raise. */
  function Yielding(a: Cursor, b: Cursor, t: nat, n: nat): Cursor {
    if n == 0 then b
    else
      var p := Yielding(a, b, t, n - 1);
      if p.Exhausted() || !Steps(a, t, n - 1).Call(t + n - 1).Miss? then p else p.After(t + n - 1)
  }

  lemma {:induction false} ExhaustedStays(c: Cursor, t: nat, m: nat, n: nat)
    requires Steps(c, t, m).Exhausted() && m <= n
    ensures Steps(c, t, n) == Steps(c, t, m)
  {
    if m < n { ExhaustedStays(c, t, m, n - 1); }
  }

  /** In `a | b` the left operand progresses exactly as it does alone, the right one uses only the cycles
      that the left one leaves, and the whole ends when the first of them does. */
  lemma {:induction false} OrProgress(a: Cursor, b: Cursor, t: nat, n: nat)
    requires !a.Exhausted() && !b.Exhausted()
    requires forall m: nat | m < n :: !Steps(Or(a, b, false), t, m).Exhausted()
    ensures var left, right := Steps(a, t, n), Yielding(a, b, t, n);
            Steps(Or(a, b, false), t, n) == Or(left, right, left.Exhausted() || right.Exhausted())
  {
    if n > 0 {
      OrProgress(a, b, t, n - 1);
      assert !Steps(Or(a, b, false), t, n - 1).Exhausted();
    }
  }

  ghost predicate AnyExhausted(a: Cursor, b: Cursor, t: nat, n: nat) {
    Steps(a, t, n).Exhausted() || Yielding(a, b, t, n).Exhausted()
  }

  /** `a | b` is over exactly when one operand is: never later than `a` alone. */
  lemma {:induction false} OrEndsWithFirst(a: Cursor, b: Cursor, t: nat, n: nat)
    requires !a.Exhausted() && !b.Exhausted()
    ensures Steps(Or(a, b, false), t, n).Exhausted() <==> exists m: nat :: m <= n && AnyExhausted(a, b, t, m)
  {
    var c := Or(a, b, false);
    if n > 0 {
      OrEndsWithFirst(a, b, t, n - 1);
      if m: nat :| m <= n - 1 && AnyExhausted(a, b, t, m) {
        ExhaustedStays(c, t, n - 1, n);
      } else {
        forall m: nat | m < n ensures !Steps(c, t, m).Exhausted() {
          if Steps(c, t, m).Exhausted() { ExhaustedStays(c, t, m, n - 1); }
        }
        OrProgress(a, b, t, n);
        assert AnyExhausted(a, b, t, n) <==> Steps(c, t, n).Exhausted();
        forall m: nat | m <= n && AnyExhausted(a, b, t, m) ensures m == n {}
      }
    } else {
      assert !AnyExhausted(a, b, t, 0);
    }
  }

  // ---------------------------------------------------------------- matching a combination

  lemma {:induction false} StepsFront(c: Cursor, t: nat, n: nat)
    requires !c.Exhausted() && n > 0
    ensures Steps(c, t, n) == Steps(c.After(t), t + 1, n - 1)
  {
    if n > 1 {
      StepsFront(c, t, n - 1);
    } else {
      assert Steps(c, t, 0) == c;
    }
  }

  lemma NeverRaisesAnswers(c: Cursor, t: nat)
    requires c.NeverRaises() && !c.Exhausted()
    ensures c.Call(t).Pass? || c.Call(t).Miss?
  {
    match c {
      case Flat(rest, _) => assert AnswersAt(rest[0], t);
      case Or(a, b, _) =>
        if !a.Exhausted() { NeverRaisesAnswers(a, t); }
        if !b.Exhausted() { NeverRaisesAnswers(b, t); }
      case And(pairs, _) => if pairs != [] { assert AnswersAt(pairs[0], t); }
    }
  }

  lemma AnswersTail(checks: seq<Check>)
    requires Answers(checks)
    ensures checks != [] ==> Answers(checks[1..])
  {
    forall k: nat, t: nat | k + 1 < |checks| ensures AnswersAt(checks[1..][k], t) {
      assert AnswersAt(checks[k + 1], t);
    }
  }

  lemma NeverRaisesAfter(c: Cursor, t: nat)
    requires c.NeverRaises()
    ensures c.After(t).NeverRaises()
  {
    match c {
      case Flat(rest, _) => AnswersTail(rest);
      case Or(a, b, _) =>
        NeverRaisesAfter(a, t);
        NeverRaisesAfter(b, t);
      case And(pairs, _) => AnswersTail(pairs);
    }
  }

  /** A match that nothing raises ends in the first cycle in which the cursor is exhausted. */
  lemma {:induction false} MatchedWhenExhausted(start: Cursor, c: Cursor, t: nat, end: nat, count: nat, n: nat)
    requires c.NeverRaises() && t + n < end && Steps(c, t, n).Exhausted()
    ensures var r := Run(start, c, t, end, count); r.matched && t <= r.cycle <= t + n
    decreases n
  {
    if !c.Exhausted() {
      StepsFront(c, t, n);
      NeverRaisesAnswers(c, t);
      NeverRaisesAfter(c, t);
      MatchedWhenExhausted(start, c.After(t), t + 1, end, if c.Call(t).Pass? then count + 1 else count, n - 1);
    }
  }

  lemma {:induction false} ExhaustedWhenMatched(start: Cursor, c: Cursor, t: nat, end: nat, count: nat)
    requires c.NeverRaises() && Run(start, c, t, end, count).matched
    ensures var r := Run(start, c, t, end, count); t <= r.cycle < end && Steps(c, t, r.cycle - t).Exhausted()
    decreases end - t
  {
    if !c.Exhausted() {
      NeverRaisesAnswers(c, t);
      NeverRaisesAfter(c, t);
      ExhaustedWhenMatched(start, c.After(t), t + 1, end, if c.Call(t).Pass? then count + 1 else count);
      var r := Run(start, c, t, end, count);
      StepsFront(c, t, r.cycle - t);
    }
  }

  /** `a | b` matches exactly when, before the limit, `a` alone is over or `b` is over using only the
      cycles that `a` leaves; it matches whenever `a` does, and not later. */
  lemma OrMatches(start: Cursor, a: Cursor, b: Cursor, t: nat, end: nat, count: nat)
    requires !a.Exhausted() && !b.Exhausted() && a.NeverRaises() && b.NeverRaises()
    ensures Run(start, Or(a, b, false), t, end, count).matched
       <==> exists m: nat :: t + m < end && AnyExhausted(a, b, t, m)
    ensures Run(start, a, t, end, count).matched ==>
              Run(start, Or(a, b, false), t, end, count).cycle <= Run(start, a, t, end, count).cycle
  {
    var c := Or(a, b, false);
    var r, ra := Run(start, c, t, end, count), Run(start, a, t, end, count);
    if r.matched {
      ExhaustedWhenMatched(start, c, t, end, count);
      OrEndsWithFirst(a, b, t, r.cycle - t);
    }
    if m: nat :| t + m < end && AnyExhausted(a, b, t, m) {
      OrEndsWithFirst(a, b, t, m);
      MatchedWhenExhausted(start, c, t, end, count, m);
    }
    if ra.matched {
      ExhaustedWhenMatched(start, a, t, end, count);
      assert AnyExhausted(a, b, t, ra.cycle - t);
      OrEndsWithFirst(a, b, t, ra.cycle - t);
      MatchedWhenExhausted(start, c, t, end, count, ra.cycle - t);
    }
  }

  /** `a & b` on lists is the list of the conjunctions of their predicates, up to the shorter one. */
  lemma {:induction false} AndIsConjunction(start: Cursor, start': Cursor, pairs: seq<Check>,
                                            t: nat, end: nat, count: nat)
    requires pairs != [] && forall k: nat, u: nat | k < |pairs| :: NoRetry(pairs[k], u)
    ensures Run(start, And(pairs, false), t, end, count) == Run(start', Flat(pairs, true), t, end, count)
    decreases end - t
  {
    if t < end {
      assert NoRetry(pairs[0], t);
      if pairs[0](t).Pass? {
        if |pairs| > 1 {
          forall k: nat, u: nat | k < |pairs[1..]| ensures NoRetry(pairs[1..][k], u) {
            assert NoRetry(pairs[k + 1], u);
          }
          AndIsConjunction(start, start', pairs[1..], t + 1, end, count + 1);
        }
      } else if pairs[0](t).Miss? {
        AndIsConjunction(start, start', pairs, t + 1, end, count);
      }
    }
  }

  /** So it matches exactly when both operands can be met at common increasing cycles. */
  lemma AndMatches(start: Cursor, a: seq<Check>, b: seq<Check>, t: nat, end: nat, count: nat)
    requires a != [] && b != [] && Answers(a) && Answers(b) && t < end
    ensures Run(start, And(Zip(a, b), false), t, end, count).matched
       <==> exists ts: seq<nat> :: |ts| == |Zip(a, b)|
                                   && MetAt(a[..|ts|], ts, t, end - 2) && MetAt(b[..|ts|], ts, t, end - 2)
  {
    var pairs := Zip(a, b);
    forall k: nat, u: nat | k < |pairs| ensures AnswersAt(pairs[k], u) && NoRetry(pairs[k], u) {
      assert AnswersAt(a[k], u) && AnswersAt(b[k], u);
    }
    AndIsConjunction(start, start, pairs, t, end, count);
    MatchedIffMatchable(start, pairs, true, t, end, count);
    if Matchable(pairs, t, end - 2) {
      var ts :| MetAt(pairs, ts, t, end - 2);
      assert MetAt(a[..|ts|], ts, t, end - 2) && MetAt(b[..|ts|], ts, t, end - 2);
    }
    if ts: seq<nat> :| |ts| == |pairs| && MetAt(a[..|ts|], ts, t, end - 2) && MetAt(b[..|ts|], ts, t, end - 2) {
      assert forall k | 0 <= k < |ts| :: a[..|ts|][k] == a[k] && b[..|ts|][k] == b[k];
      assert MetAt(pairs, ts, t, end - 2);
    }
  }

  /** With an empty operand a combination takes one cycle, in which it counts a match, whatever the other
      operand says. */
  lemma EmptyOperand(start: Cursor, c: Cursor, t: nat, end: nat, count: nat)
    requires t < end && !c.Exhausted()
    requires || (c.And? && c.pairs == [])
             || (c.Or? && c.left.Exhausted())
             || (c.Or? && c.right.Exhausted() && (c.left.Call(t).Pass? || c.left.Call(t).Miss?))
    ensures Run(start, c, t, end, count) == Result(t + 1 < end, false, t + 1, count + 1)
  {
    assert c.Call(t).Pass? && c.After(t).Exhausted();
  }

  /** A sum of two sequences is met by meeting the first and then, from the next cycle on, the second. */
  lemma SumMatchable(a: seq<Check>, b: seq<Check>, from: nat, last: int)
    requires a != []
    ensures Matchable(a + b, from, last) <==>
              exists mid: nat :: mid <= last && Matchable(a, from, mid) && Matchable(b, mid + 1, last)
  {
    if Matchable(a + b, from, last) {
      var ts :| MetAt(a + b, ts, from, last);
      var mid := ts[|a| - 1];
      assert forall k | 0 <= k < |a| :: (a + b)[k] == a[k] && ts[k] <= mid;
      assert MetAt(a, ts[..|a|], from, mid);
      assert forall k | 0 <= k < |b| :: (a + b)[|a| + k] == b[k] && ts[|a|..][k] == ts[|a| + k];
      assert MetAt(b, ts[|a|..], mid + 1, last);
      assert Matchable(a, from, mid) && Matchable(b, mid + 1, last);
    }
    if mid: nat :| mid <= last && Matchable(a, from, mid) && Matchable(b, mid + 1, last) {
      var ts, us :| MetAt(a, ts, from, mid) && MetAt(b, us, mid + 1, last);
      assert from <= ts[0] <= mid;
      forall k | 0 <= k < |a + b| ensures from <= (ts + us)[k] <= last && (a + b)[k]((ts + us)[k]).Pass? {
        assert k < |a| || (a + b)[k] == b[k - |a|];
      }
      assert MetAt(a + b, ts + us, from, last);
    }
  }

  /** A retry does not start over what can be iterated over only once: it skips the predicate that asked
      for it. */
  lemma RetrySkips(start: Cursor, checks: seq<Check>, t: nat, end: nat, count: nat)
    requires start.Flat? && start.once && checks != [] && checks[0](t).Retry? && t < end
    ensures Run(start, Flat(checks, true), t, end, count) == Run(start, Flat(checks[1..], true), t + 1, end, count)
  {
  }

  // ---------------------------------------------------------------- combinations that may fail

  /** How many calls have passed in `n` cycles. */
  function Passes(c: Cursor, t: nat, n: nat): nat {
    if n == 0 then 0
    else
      var s := Steps(c, t, n - 1);
      Passes(c, t, n - 1) + (if !s.Exhausted() && s.Call(t + n - 1).Pass? then 1 else 0)
  }

  lemma {:induction false} PassesFront(c: Cursor, t: nat, n: nat)
    requires !c.Exhausted() && n > 0
    ensures Passes(c, t, n) == (if c.Call(t).Pass? then 1 else 0) + Passes(c.After(t), t + 1, n - 1)
  {
    if n > 1 {
      PassesFront(c, t, n - 1);
      StepsFront(c, t, n - 1);
    } else {
      assert Steps(c, t, 0) == c && Passes(c, t, 0) == 0;
    }
  }

  /** In cycle `t + n` the cursor is not over, and is called. */
  predicate CalledAt(c: Cursor, t: nat, n: nat) { !Steps(c, t, n).Exhausted() }

  /** It is called, and neither fails nor asks for a retry. */
  predicate AnswersCall(c: Cursor, t: nat, n: nat) {
    CalledAt(c, t, n) && (Steps(c, t, n).Call(t + n).Pass? || Steps(c, t, n).Call(t + n).Miss?)
  }

  /** It has answered every call before cycle `t + n`, and fails in that cycle. */
  ghost predicate FailsAfter(c: Cursor, t: nat, n: nat) {
    CalledAt(c, t, n) && Steps(c, t, n).Call(t + n).Fail? && forall m: nat | m < n :: AnswersCall(c, t, m)
  }

  /** It never asks for a retry. */
  ghost predicate AsksNoRetry(c: Cursor, t: nat) {
    forall n: nat :: CalledAt(c, t, n) ==> !Steps(c, t, n).Call(t + n).Retry?
  }

  lemma AnswersFront(c: Cursor, t: nat, n: nat)
    requires !c.Exhausted() && n > 0
    ensures CalledAt(c, t, n) <==> CalledAt(c.After(t), t + 1, n - 1)
    ensures AnswersCall(c, t, n) <==> AnswersCall(c.After(t), t + 1, n - 1)
    ensures Steps(c, t, n).Call(t + n) == Steps(c.After(t), t + 1, n - 1).Call(t + 1 + (n - 1))
  {
    StepsFront(c, t, n);
    assert t + 1 + (n - 1) == t + n;
  }

  lemma FailsFront(c: Cursor, t: nat, n: nat)
    requires !c.Exhausted() && n > 0
    ensures FailsAfter(c, t, n) <==> AnswersCall(c, t, 0) && FailsAfter(c.After(t), t + 1, n - 1)
  {
    var c', u := c.After(t), t + 1;
    AnswersFront(c, t, n);
    forall m: nat | 0 < m < n ensures AnswersCall(c, t, m) <==> AnswersCall(c', u, m - 1) { AnswersFront(c, t, m); }
    if FailsAfter(c, t, n) {
      forall m: nat | m < n - 1 ensures AnswersCall(c', u, m) { assert AnswersCall(c, t, m + 1); }
    }
    if AnswersCall(c, t, 0) && FailsAfter(c', u, n - 1) {
      forall m: nat | m < n ensures AnswersCall(c, t, m) { if m > 0 { assert AnswersCall(c', u, m - 1); } }
    }
  }

  /** Such a match ends there, not matched, and counts what passed before. */
  lemma {:induction false} RunFails(start: Cursor, c: Cursor, t: nat, end: nat, count: nat, n: nat)
    requires FailsAfter(c, t, n) && t + n < end
    ensures Run(start, c, t, end, count) == Result(false, true, t + n, count + Passes(c, t, n))
    decreases n
  {
    assert Steps(c, t, 0) == c;
    if n > 0 {
      assert AnswersCall(c, t, 0);
      FailsFront(c, t, n);
      PassesFront(c, t, n);
      RunFails(start, c.After(t), t + 1, end, if c.Call(t).Pass? then count + 1 else count, n - 1);
    }
  }

  lemma AsksNoRetryAfter(c: Cursor, t: nat)
    requires AsksNoRetry(c, t) && !c.Exhausted()
    ensures AsksNoRetry(c.After(t), t + 1)
  {
    var c', u := c.After(t), t + 1;
    forall n: nat | CalledAt(c', u, n) ensures !Steps(c', u, n).Call(u + n).Retry? {
      AnswersFront(c, t, n + 1);
      assert CalledAt(c, t, n + 1);
    }
  }

  lemma {:induction false} RunFailed(start: Cursor, c: Cursor, t: nat, end: nat, count: nat) returns (n: nat)
    requires AsksNoRetry(c, t) && Run(start, c, t, end, count).failed
    ensures t + n < end && FailsAfter(c, t, n)
    decreases end - t
  {
    n := 0;
    assert Steps(c, t, 0) == c && CalledAt(c, t, 0);
    if !c.Call(t).Fail? {
      AsksNoRetryAfter(c, t);
      n := RunFailed(start, c.After(t), t + 1, end, if c.Call(t).Pass? then count + 1 else count);
      FailsFront(c, t, n + 1);
      n := n + 1;
    }
  }

  /** A match of any sequence that asks for no retry fails if and only if the sequence, in some cycle below the limit,
      fails when it is called, having answered in all cycles before; the result tells that cycle, and the count. */
  lemma AnyFailedIff(start: Cursor, c: Cursor, t: nat, end: nat, count: nat)
    requires AsksNoRetry(c, t)
    ensures Run(start, c, t, end, count).failed <==> exists n: nat :: t + n < end && FailsAfter(c, t, n)
    ensures forall n: nat | t + n < end && FailsAfter(c, t, n) ::
              Run(start, c, t, end, count) == Result(false, true, t + n, count + Passes(c, t, n))
  {
    forall n: nat | t + n < end && FailsAfter(c, t, n)
      ensures Run(start, c, t, end, count) == Result(false, true, t + n, count + Passes(c, t, n))
    {
      RunFails(start, c, t, end, count, n);
    }
    if Run(start, c, t, end, count).failed { var n := RunFailed(start, c, t, end, count); }
  }

  /** What one operand, called after the other, makes of a call. */
  ghost predicate OperandFails(a: Cursor, b: Cursor, t: nat, n: nat) {
    var left, right := Steps(a, t, n).Call(t + n), Yielding(a, b, t, n).Call(t + n);
    left.Fail? || (left.Miss? && right.Fail?)
  }

  ghost predicate OperandsAnswer(a: Cursor, b: Cursor, t: nat, n: nat) {
    var left, right := Steps(a, t, n).Call(t + n), Yielding(a, b, t, n).Call(t + n);
    !AnyExhausted(a, b, t, n) && (left.Pass? || (left.Miss? && (right.Pass? || right.Miss?)))
  }

  lemma OrCalls(a: Cursor, b: Cursor, t: nat, n: nat)
    requires !a.Exhausted() && !b.Exhausted()
    requires forall m: nat | m <= n :: !AnyExhausted(a, b, t, m)
    ensures var c := Steps(Or(a, b, false), t, n);
            && !c.Exhausted() && c.Or? && c.left == Steps(a, t, n) && c.right == Yielding(a, b, t, n)
            && (c.Call(t + n).Fail? <==> OperandFails(a, b, t, n))
            && (c.Call(t + n).Pass? || c.Call(t + n).Miss? <==> OperandsAnswer(a, b, t, n))
  {
    forall m: nat | m < n ensures !Steps(Or(a, b, false), t, m).Exhausted() { OrEndsWithFirst(a, b, t, m); }
    OrProgress(a, b, t, n);
    assert !AnyExhausted(a, b, t, n);
  }

  /** `a | b` fails exactly in the first cycle in which, neither being over, `a` fails, or misses and `b` fails; they
      having answered in all cycles before. */
  lemma OrFailsIff(a: Cursor, b: Cursor, t: nat, n: nat)
    requires !a.Exhausted() && !b.Exhausted()
    ensures FailsAfter(Or(a, b, false), t, n)
       <==> !AnyExhausted(a, b, t, n) && OperandFails(a, b, t, n) && forall m: nat | m < n :: OperandsAnswer(a, b, t, m)
  {
    var c := Or(a, b, false);
    if FailsAfter(c, t, n) {
      forall m: nat | m <= n ensures !AnyExhausted(a, b, t, m) {
        OrEndsWithFirst(a, b, t, m);
        assert m < n ==> AnswersCall(c, t, m);
      }
      OrCalls(a, b, t, n);
      forall m: nat | m < n ensures OperandsAnswer(a, b, t, m) {
        OrCalls(a, b, t, m);
        assert AnswersCall(c, t, m);
      }
    }
    if !AnyExhausted(a, b, t, n) && OperandFails(a, b, t, n) && forall m: nat | m < n :: OperandsAnswer(a, b, t, m) {
      forall m: nat | m <= n ensures !AnyExhausted(a, b, t, m) { assert m < n ==> OperandsAnswer(a, b, t, m); }
      OrCalls(a, b, t, n);
      forall m: nat | m < n ensures AnswersCall(c, t, m) {
        OrCalls(a, b, t, m);
        assert OperandsAnswer(a, b, t, m);
      }
    }
  }

  /** `a & b` on lists fails exactly in the first cycle in which the pair that is waited for fails: `a` fails, or passes
      and `b` fails. */
  lemma AndFailedIff(start: Cursor, a: seq<Check>, b: seq<Check>, t: nat, end: nat, count: nat)
    requires a != [] && b != [] && NeverRetries(Zip(a, b))
    ensures Run(start, And(Zip(a, b), false), t, end, count).failed
       <==> exists ts: seq<nat>, c: nat :: FailsIn(Zip(a, b), ts, t, c, end)
    ensures forall ts: seq<nat>, c: nat | FailsIn(Zip(a, b), ts, t, c, end) ::
              && Run(start, And(Zip(a, b), false), t, end, count) == Result(false, true, c, count + |ts|)
              && (a[|ts|](c).Fail? || (a[|ts|](c).Pass? && b[|ts|](c).Fail?))
  {
    var pairs := Zip(a, b);
    forall k: nat, u: nat | k < |pairs| ensures NoRetry(pairs[k], u) {}
    AndIsConjunction(start, start, pairs, t, end, count);
    FailedIff(start, pairs, true, t, end, count);
  }

  // ---------------------------------------------------------------- exactly when

  /** With any operands, `a | b` is over exactly when one operand is, in every cycle, if and only if neither
      operand is empty: with an empty one it still takes a cycle. */
  lemma OrEndsWithFirstIff(a: Cursor, b: Cursor, t: nat)
    ensures (forall n: nat :: Steps(Or(a, b, false), t, n).Exhausted()
                              <==> exists m: nat :: m <= n && AnyExhausted(a, b, t, m))
       <==> !a.Exhausted() && !b.Exhausted()
  {
    if !a.Exhausted() && !b.Exhausted() {
      forall n: nat
        ensures Steps(Or(a, b, false), t, n).Exhausted() <==> exists m: nat :: m <= n && AnyExhausted(a, b, t, m)
      {
        OrEndsWithFirst(a, b, t, n);
      }
    } else {
      assert AnyExhausted(a, b, t, 0) && !Steps(Or(a, b, false), t, 0).Exhausted();
    }
  }

  /** `a & b` runs as the list of its conjunctions if and only if there is at least one. */
  lemma AndRunsAsListIff(start: Cursor, start': Cursor, pairs: seq<Check>, t: nat, end: nat, count: nat)
    requires t < end && forall k: nat, u: nat | k < |pairs| :: NoRetry(pairs[k], u)
    ensures Run(start, And(pairs, false), t, end, count) == Run(start', Flat(pairs, true), t, end, count)
       <==> pairs != []
  {
    if pairs != [] {
      AndIsConjunction(start, start', pairs, t, end, count);
    } else {
      EmptyOperand(start, And(pairs, false), t, end, count);
    }
  }

  /** Iterating again gives the whole sequence: no sum and no conjunction in it that still has something. */
  predicate Rewinds(start: Cursor) {
    match start
    case Flat(rest, once) => !once || rest == []
    case Or(a, b, ended) => !ended && Rewinds(a) && Rewinds(b)
    case And(pairs, ended) => !ended && pairs == []
  }

  /** A cursor that has been reached from `start`. */
  predicate ReachedFrom(start: Cursor, c: Cursor) {
    match start
    case Flat(rest, once) => c.Flat? && c.once == once && |c.rest| <= |rest|
    case Or(a, b, _) => c.Or? && ReachedFrom(a, c.left) && ReachedFrom(b, c.right)
    case And(pairs, _) => c.And? && |c.pairs| <= |pairs|
  }

  lemma ReachedFromItself(start: Cursor)
    ensures ReachedFrom(start, start)
  {
  }

  lemma CallsStayReached(start: Cursor, c: Cursor, t: nat)
    requires ReachedFrom(start, c)
    ensures ReachedFrom(start, c.After(t))
  {
  }

  lemma RestartStaysReached(start: Cursor, c: Cursor)
    requires ReachedFrom(start, c)
    ensures ReachedFrom(start, Restart(start, c))
  {
    match start {
      case Flat(_, _) =>
      case Or(a, b, _) =>
        RestartStaysReached(a, c.left);
        RestartStaysReached(b, c.right);
        ReachedFromItself(start);
      case And(_, _) =>
    }
  }

  /** A retry starts over, from wherever the match has got to, if and only if the sequence can be rewound;
      otherwise it goes on behind the predicates that were fetched. */
  lemma RetryStartsOverIff(start: Cursor, c: Cursor)
    requires ReachedFrom(start, c)
    ensures Restart(start, c) == start <==> Rewinds(start)
  {
    match start {
      case Flat(rest, once) => if once && rest != [] { assert |Restart(start, c).rest| < |rest|; }
      case Or(a, b, _) =>
        RetryStartsOverIff(a, c.left);
        RetryStartsOverIff(b, c.right);
      case And(pairs, _) => if pairs != [] { assert |Restart(start, c).pairs| < |pairs|; }
    }
  }

  /** In a conjunction the pair that asked for the retry is skipped, as in a sum. */
  lemma RetrySkipsPair(start: Cursor, pairs: seq<Check>, t: nat, end: nat, count: nat)
    requires start.And? && pairs != [] && pairs[0](t).Retry? && t < end
    ensures Run(start, And(pairs, false), t, end, count) == Run(start, And(pairs[1..], false), t + 1, end, count)
  {
  }
}
