/** The temporal sequence matcher of the test library (`verification/cocotb/common/utils.py`): a list of
    predicates to be met in strictly increasing clock cycles, and its combinators `|` and `&`. */
module SequenceMatch {
  /** A predicate passes, does not, or raises `SequenceFailed` or `SequenceRetry`. */
  datatype Outcome = Pass | Miss | Fail | Retry

  /** What the predicate answers when it is called in each clock cycle. */
  type Check = nat -> Outcome

  /** `p and q`: the second is called only when the first passes. */
  function Both(p: Check, q: Check): Check { (t: nat) => if p(t).Pass? then q(t) else p(t) }

  function Zip(a: seq<Check>, b: seq<Check>): (pairs: seq<Check>)
    ensures |pairs| == if |a| < |b| then |a| else |b|
    ensures forall k :: 0 <= k < |pairs| ==> pairs[k] == Both(a[k], b[k])
  {
    seq(if |a| < |b| then |a| else |b|, k requires 0 <= k < |a| && k < |b| => Both(a[k], b[k]))
  }

  /** An iterator over predicates, with the predicate it has fetched: the predicates of a list that
      are not met yet, or the two operands of `|`, or the pairs of `&`.  The combinators are over when
      `ended` is set, not when they run out of predicates.  A sum of sequences is a list that can be
      iterated over only `once`. */
  datatype Cursor =
    | Flat(rest: seq<Check>, once: bool)
    | Or(left: Cursor, right: Cursor, ended: bool)
    | And(pairs: seq<Check>, ended: bool)
  {
    predicate Exhausted() { if Flat? then rest == [] else ended }

    /** The outcome of calling the fetched predicate in cycle `t`. */
    function Call(t: nat): Outcome {
      match this
      case Flat(rest, _) => if rest == [] then Pass else rest[0](t)
      case Or(a, b, _) =>
        var o := if a.Exhausted() then Pass else a.Call(t);
        if o.Miss? then (if b.Exhausted() then Pass else b.Call(t)) else o
      case And(pairs, _) => if pairs == [] then Pass else pairs[0](t)
    }

    /** The iterator after that call: nothing changes unless the predicate passed. */
    function After(t: nat): Cursor {
      if !Call(t).Pass? then this
      else match this
           case Flat(rest, once) => if rest == [] then this else Flat(rest[1..], once)
           case Or(a, b, ended) =>
             var first := a.Exhausted() || a.Call(t).Pass?;
             var a', b' := if first && !a.Exhausted() then a.After(t) else a,
                           if !first && !b.Exhausted() then b.After(t) else b;
             Or(a', b', ended || a'.Exhausted() || b'.Exhausted())
           case And(pairs, ended) => And(if pairs == [] then [] else pairs[1..], ended || |pairs| <= 1)
    }

    /** No predicate raises anything, in any cycle. */
    ghost predicate NeverRaises() {
      match this
      case Flat(rest, _) => Answers(rest)
      case Or(a, b, _) => a.NeverRaises() && b.NeverRaises()
      case And(pairs, _) => Answers(pairs)
    }
  }

  ghost predicate AnswersAt(p: Check, t: nat) { p(t).Pass? || p(t).Miss? }

  ghost predicate Answers(checks: seq<Check>) {
    forall k: nat, t: nat | k < |checks| :: AnswersAt(checks[k], t)
  }

  /** What iterating over the sequence again gives, when cursor `c` has been reached from `start`: a list
      from its beginning, but of what can be iterated over only once, what comes after the fetched
      predicate. */
  function Restart(start: Cursor, c: Cursor): Cursor {
    match start
    case Flat(_, once) => if once && c.Flat? then Flat(if c.rest == [] then [] else c.rest[1..], true) else start
    case Or(a, b, _) => if c.Or? then Or(Restart(a, c.left), Restart(b, c.right), false) else start
    case And(_, _) => if c.And? then And(if c.pairs == [] then [] else c.pairs[1..], false) else start
  }

  datatype Result = Result(matched: bool, failed: bool, cycle: nat, count: nat)

  /** The rest of a match that is at cursor `c` in cycle `t`, with `count` predicates met. */
  function Run(start: Cursor, c: Cursor, t: nat, end: nat, count: nat): Result
    decreases end - t
  {
    if t >= end then Result(false, false, t, count)
    else if c.Exhausted() then Result(true, false, t, count)
    else match c.Call(t)
         case Pass => Run(start, c.After(t), t + 1, end, count + 1)
         case Miss => Run(start, c, t + 1, end, count)
         case Fail => Result(false, true, t, count)
         case Retry => Run(start, Restart(start, c), t + 1, end, count)
  }

  /** `match`.  Zero cycles is no limit; such a call returns only if the sequence ends one way or the
      other, which it then does before some cycle `horizon`. */
  method Match(start: Cursor, cycleCnt: nat, ghost horizon: nat) returns (r: Result)
    requires cycleCnt == 0 ==> Run(start, start, 0, horizon, 0).cycle < horizon
    ensures r == Run(start, start, 0, if cycleCnt == 0 then horizon else cycleCnt, 0)
  {
    ghost var end := if cycleCnt == 0 then horizon else cycleCnt;
    r := Result(false, false, 0, 0);
    var it, fetched := start, false;
    while cycleCnt == 0 || r.cycle < cycleCnt
      invariant !r.matched && !r.failed && r.cycle <= end
      invariant fetched ==> !it.Exhausted()
      invariant Run(start, it, r.cycle, end, r.count) == Run(start, start, 0, end, 0)
      decreases end - r.cycle
    {
      if !fetched {
        if it.Exhausted() { return r.(matched := true); }
        fetched := true;
      }
      match it.Call(r.cycle) {
        case Pass =>
          it, fetched := it.After(r.cycle), false;
          r := r.(count := r.count + 1);
        case Miss =>
        case Fail => return r.(failed := true);
        case Retry => it, fetched := Restart(start, it), false;
      }
      r := r.(cycle := r.cycle + 1);
    }
  }

  // ---------------------------------------------------------------- lists

  /** The predicates hold in order at the cycles `ts`, which increase strictly from `from` to at most `last`. */
  ghost predicate MetAt(checks: seq<Check>, ts: seq<nat>, from: nat, last: int) {
    && |ts| == |checks|
    && (forall k :: 0 <= k < |ts| ==> from <= ts[k] <= last && checks[k](ts[k]).Pass?)
    && (forall j, k :: 0 <= j < k < |ts| ==> ts[j] < ts[k])
  }

  ghost predicate Matchable(checks: seq<Check>, from: nat, last: int) {
    exists ts: seq<nat> :: MetAt(checks, ts, from, last)
  }

  /** Taking the first cycle in which a predicate holds loses nothing. */
  lemma MatchableStep(checks: seq<Check>, from: nat, last: int)
    requires checks != [] && from <= last
    ensures Matchable(checks, from, last) <==>
              if checks[0](from).Pass? then Matchable(checks[1..], from + 1, last)
              else Matchable(checks, from + 1, last)
  {
    if Matchable(checks, from, last) {
      var ts :| MetAt(checks, ts, from, last);
      if checks[0](from).Pass? {
        assert MetAt(checks[1..], ts[1..], from + 1, last);
      } else {
        assert MetAt(checks, ts, from + 1, last);
      }
    }
    if checks[0](from).Pass? {
      if Matchable(checks[1..], from + 1, last) {
        var ts :| MetAt(checks[1..], ts, from + 1, last);
        assert MetAt(checks, [from] + ts, from, last);
      }
    } else if Matchable(checks, from + 1, last) {
      var ts :| MetAt(checks, ts, from + 1, last);
      assert MetAt(checks, ts, from, last);
    }
  }

  lemma MatchableTooLate(checks: seq<Check>, from: nat, last: int)
    requires from > last
    ensures Matchable(checks, from, last) <==> checks == []
  {
    if checks == [] {
      assert MetAt(checks, [], from, last);
    } else {
      forall ts: seq<nat> ensures !MetAt(checks, ts, from, last) {
        assert ts != [] ==> !(from <= ts[0] <= last);
      }
    }
  }

  /** A match succeeds exactly when there are increasing cycles at which the predicates hold, the last of
      them at least two before the limit. */
  lemma {:induction false} MatchedIffMatchable(start: Cursor, checks: seq<Check>, once: bool,
                                               t: nat, end: nat, count: nat)
    requires Answers(checks) && t < end
    ensures Run(start, Flat(checks, once), t, end, count).matched <==> Matchable(checks, t, end - 2)
    decreases end - t
  {
    if checks == [] {
      assert MetAt(checks, [], t, end - 2);
    } else {
      assert AnswersAt(checks[0], t);
      if t > end - 2 {
        MatchableTooLate(checks, t, end - 2);
      } else {
        MatchableStep(checks, t, end - 2);
        MatchedIffMatchable(start, checks[1..], once, t + 1, end, count + 1);
        MatchedIffMatchable(start, checks, once, t + 1, end, count);
      }
    }
  }

  /** The reported count is the length of the longest prefix that can be met before the limit. */
  lemma {:induction false} CountIsLongestPrefix(start: Cursor, checks: seq<Check>, once: bool,
                                                t: nat, end: nat, count: nat, k: nat)
    requires Answers(checks) && k <= |checks|
    ensures count + k <= Run(start, Flat(checks, once), t, end, count).count <==> Matchable(checks[..k], t, end - 1)
    decreases end - t
  {
    if k == 0 {
      CountGrows(start, Flat(checks, once), t, end, count);
      assert MetAt(checks[..0], [], t, end - 1);
    } else if t >= end {
      MatchableTooLate(checks[..k], t, end - 1);
    } else {
      assert AnswersAt(checks[0], t);
      MatchableStep(checks[..k], t, end - 1);
      assert checks[..k][1..] == checks[1..][..k - 1];
      CountIsLongestPrefix(start, checks[1..], once, t + 1, end, count + 1, k - 1);
      CountIsLongestPrefix(start, checks, once, t + 1, end, count, k);
    }
  }

  lemma {:induction false} CountGrows(start: Cursor, c: Cursor, t: nat, end: nat, count: nat)
    ensures count <= Run(start, c, t, end, count).count
    decreases end - t
  {
    if t < end && !c.Exhausted() {
      match c.Call(t) {
        case Pass => CountGrows(start, c.After(t), t + 1, end, count + 1);
        case Miss => CountGrows(start, c, t + 1, end, count);
        case Fail =>
        case Retry => CountGrows(start, Restart(start, c), t + 1, end, count);
      }
    }
  }

  /** Without a limit, a call returns exactly when the sequence can be met at all, and then it has matched. */
  lemma UnlimitedReturnsIffMatchable(start: Cursor, checks: seq<Check>, once: bool)
    requires Answers(checks)
    ensures (exists end: nat :: Run(start, Flat(checks, once), 0, end, 0).cycle < end)
       <==> (exists last: nat :: Matchable(checks, 0, last))
    ensures forall end: nat | Run(start, Flat(checks, once), 0, end, 0).cycle < end ::
              Run(start, Flat(checks, once), 0, end, 0).matched
  {
    var c := Flat(checks, once);
    forall end: nat
      ensures Run(start, c, 0, end, 0).cycle < end <==> Run(start, c, 0, end, 0).matched
    {
      StopsEarlyIffMatched(start, checks, once, 0, end, 0);
    }
    if end: nat :| Run(start, c, 0, end, 0).cycle < end {
      MatchedIffMatchable(start, checks, once, 0, end, 0);
      var ts :| MetAt(checks, ts, 0, end - 2);
      assert MetAt(checks, ts, 0, end);
      assert Matchable(checks, 0, end);
    }
    if last: nat :| Matchable(checks, 0, last) {
      MatchedIffMatchable(start, checks, once, 0, last + 2, 0);
      assert Run(start, c, 0, last + 2, 0).cycle < last + 2;
    }
  }

  lemma {:induction false} StopsEarlyIffMatched(start: Cursor, checks: seq<Check>, once: bool,
                                                t: nat, end: nat, count: nat)
    requires Answers(checks) && t <= end
    ensures var r := Run(start, Flat(checks, once), t, end, count);
            r.cycle <= end && (r.cycle < end <==> r.matched) && !r.failed
    decreases end - t
  {
    if t < end && checks != [] {
      assert AnswersAt(checks[0], t);
      StopsEarlyIffMatched(start, checks[1..], once, t + 1, end, count + 1);
      StopsEarlyIffMatched(start, checks, once, t + 1, end, count);
    }
  }

  // ---------------------------------------------------------------- lists that may fail

  /** The first cycle in which predicate `j` is called, those before it having been met at `ts`. */
  function Begin(ts: seq<nat>, from: nat, j: nat): nat
    requires j <= |ts|
  {
    if j == 0 then from else ts[j - 1] + 1
  }

  /** The predicate is only missed from cycle `a` on, before cycle `b`. */
  ghost predicate MissedIn(check: Check, a: nat, b: nat) { forall u: nat | a <= u < b :: check(u).Miss? }

  /** Predicate `j` is met at `ts[j]`, having only been missed since it is called. */
  ghost predicate MetInTurn(checks: seq<Check>, ts: seq<nat>, from: nat, j: nat)
    requires j < |ts| <= |checks|
  {
    Begin(ts, from, j) <= ts[j] && checks[j](ts[j]).Pass? && MissedIn(checks[j], Begin(ts, from, j), ts[j])
  }

  ghost predicate AllInTurn(checks: seq<Check>, ts: seq<nat>, from: nat)
    requires |ts| <= |checks|
  {
    forall j: nat | j < |ts| :: MetInTurn(checks, ts, from, j)
  }

  /** In cycle `c` predicate `|ts|` is waited for: those before it were met at `ts`, one after the other, and it was
      only missed since then; or there is none left. */
  ghost predicate WaitsFor(checks: seq<Check>, ts: seq<nat>, from: nat, c: nat) {
    && |ts| <= |checks| && Begin(ts, from, |ts|) <= c && AllInTurn(checks, ts, from)
    && if |ts| < |checks| then MissedIn(checks[|ts|], Begin(ts, from, |ts|), c) else c == Begin(ts, from, |ts|)
  }

  /** It fails in that cycle, below the limit. */
  ghost predicate FailsIn(checks: seq<Check>, ts: seq<nat>, from: nat, c: nat, end: nat) {
    WaitsFor(checks, ts, from, c) && |ts| < |checks| && c < end && checks[|ts|](c).Fail?
  }

  /** All have been met before cycle `c`, the first after the last of them. */
  ghost predicate MeetsAll(checks: seq<Check>, ts: seq<nat>, from: nat, c: nat, end: nat) {
    WaitsFor(checks, ts, from, c) && |ts| == |checks| && c == Begin(ts, from, |ts|) && c < end
  }

  lemma {:induction false} BeginGrows(checks: seq<Check>, ts: seq<nat>, from: nat, n: nat)
    requires n <= |ts| <= |checks| && AllInTurn(checks, ts, from)
    ensures from <= Begin(ts, from, n) && (n > 0 ==> from <= ts[0] < Begin(ts, from, n))
  {
    if n > 0 {
      BeginGrows(checks, ts, from, n - 1);
      assert MetInTurn(checks, ts, from, n - 1);
    }
  }

  lemma WaitsForTail(checks: seq<Check>, ts: seq<nat>, from: nat, c: nat)
    requires WaitsFor(checks, ts, from, c) && ts != [] && ts[0] == from
    ensures WaitsFor(checks[1..], ts[1..], from + 1, c)
  {
    var cs, us := checks[1..], ts[1..];
    var later := from + 1;
    forall j: nat | j < |us| ensures MetInTurn(cs, us, later, j) {
      assert MetInTurn(checks, ts, from, j + 1);
      assert us[j] == ts[j + 1] && cs[j] == checks[j + 1] && Begin(us, from + 1, j) == Begin(ts, from, j + 1);
    }
    assert Begin(us, from + 1, |us|) == Begin(ts, from, |ts|);
    assert |us| < |cs| ==> cs[|us|] == checks[|ts|];
  }

  lemma WaitsForCons(checks: seq<Check>, ts: seq<nat>, from: nat, c: nat)
    requires checks != [] && checks[0](from).Pass? && WaitsFor(checks[1..], ts, from + 1, c)
    ensures WaitsFor(checks, [from] + ts, from, c)
    ensures Begin([from] + ts, from, |ts| + 1) == Begin(ts, from + 1, |ts|)
  {
    var us := [from] + ts;
    forall j: nat | j < |us| ensures MetInTurn(checks, us, from, j) {
      if j > 0 {
        assert MetInTurn(checks[1..], ts, from + 1, j - 1);
        assert us[j] == ts[j - 1] && checks[1..][j - 1] == checks[j];
        assert Begin(us, from, j) == Begin(ts, from + 1, j - 1);
      }
    }
    assert |ts| < |checks[1..]| ==> checks[1..][|ts|] == checks[|us|];
  }

  lemma MissedFrom(check: Check, from: nat, c: nat)
    requires from < c
    ensures MissedIn(check, from, c) <==> check(from).Miss? && MissedIn(check, from + 1, c)
  {
  }

  lemma MetLater(checks: seq<Check>, ts: seq<nat>, from: nat)
    requires 0 < |ts| <= |checks| && ts[0] != from
    ensures AllInTurn(checks, ts, from) <==> checks[0](from).Miss? && AllInTurn(checks, ts, from + 1)
  {
    var later := from + 1;
    forall j: nat | 0 < j < |ts| ensures MetInTurn(checks, ts, from, j) <==> MetInTurn(checks, ts, later, j) {}
    if from < ts[0] { MissedFrom(checks[0], from, ts[0]); }
    assert MetInTurn(checks, ts, from, 0) <==> checks[0](from).Miss? && MetInTurn(checks, ts, later, 0);
  }

  lemma WaitsForLater(checks: seq<Check>, ts: seq<nat>, from: nat, c: nat)
    requires from < c && |ts| <= |checks| && checks != [] && (ts == [] || ts[0] != from)
    ensures WaitsFor(checks, ts, from, c) <==> checks[0](from).Miss? && WaitsFor(checks, ts, from + 1, c)
  {
    if ts == [] {
      MissedFrom(checks[0], from, c);
    } else {
      MetLater(checks, ts, from);
      assert Begin(ts, from, |ts|) == Begin(ts, from + 1, |ts|);
    }
  }

  /** Where the match is in a cycle in which predicate `|ts|` is waited for. */
  lemma {:induction false} RunWaits(start: Cursor, checks: seq<Check>, once: bool, ts: seq<nat>, t: nat, c: nat,
                                    end: nat, count: nat)
    requires WaitsFor(checks, ts, t, c) && c < end
    ensures Run(start, Flat(checks, once), t, end, count)
         == Run(start, Flat(checks[|ts|..], once), c, end, count + |ts|)
    decreases c - t
  {
    BeginGrows(checks, ts, t, |ts|);
    if t == c {
      assert checks[0..] == checks;
    } else if ts != [] && ts[0] == t {
      assert MetInTurn(checks, ts, t, 0);
      WaitsForTail(checks, ts, t, c);
      RunWaits(start, checks[1..], once, ts[1..], t + 1, c, end, count + 1);
      assert checks[1..][|ts| - 1..] == checks[|ts|..];
    } else {
      WaitsForLater(checks, ts, t, c);
      RunWaits(start, checks, once, ts, t + 1, c, end, count);
    }
  }

  ghost predicate NeverRetries(checks: seq<Check>) {
    forall k: nat, t: nat | k < |checks| :: NoRetry(checks[k], t)
  }

  ghost predicate NoRetry(p: Check, t: nat) { !p(t).Retry? }

  /** How a match that did not run into its limit got there. */
  lemma {:induction false} RunWaited(start: Cursor, checks: seq<Check>, once: bool, t: nat, end: nat, count: nat)
    returns (ts: seq<nat>, c: nat)
    requires NeverRetries(checks)
    requires var r := Run(start, Flat(checks, once), t, end, count); r.failed || r.matched
    ensures if Run(start, Flat(checks, once), t, end, count).failed then FailsIn(checks, ts, t, c, end)
            else MeetsAll(checks, ts, t, c, end)
    decreases end - t
  {
    ts, c := [], t;
    if checks != [] {
      assert NoRetry(checks[0], t);
      if checks[0](t).Pass? {
        forall k: nat, u: nat | k < |checks[1..]| ensures NoRetry(checks[1..][k], u) {
          assert NoRetry(checks[k + 1], u);
        }
        ts, c := RunWaited(start, checks[1..], once, t + 1, end, count + 1);
        WaitsForCons(checks, ts, t, c);
        assert |ts| < |checks[1..]| ==> checks[1..][|ts|] == checks[|ts| + 1];
        ts := [t] + ts;
      } else if checks[0](t).Miss? {
        ts, c := RunWaited(start, checks, once, t + 1, end, count);
        BeginGrows(checks, ts, t + 1, |ts|);
        assert ts != [] ==> MetInTurn(checks, ts, t + 1, 0);
        WaitsForLater(checks, ts, t, c);
      }
    }
  }

  /** A match of a list fails if and only if, in some cycle below the limit, the predicate that is waited for fails;
      it ends in that cycle, not matched, and counts those that were met before. */
  lemma FailedIff(start: Cursor, checks: seq<Check>, once: bool, t: nat, end: nat, count: nat)
    requires NeverRetries(checks)
    ensures Run(start, Flat(checks, once), t, end, count).failed
       <==> exists ts: seq<nat>, c: nat :: FailsIn(checks, ts, t, c, end)
    ensures forall ts: seq<nat>, c: nat | FailsIn(checks, ts, t, c, end) ::
              Run(start, Flat(checks, once), t, end, count) == Result(false, true, c, count + |ts|)
  {
    forall ts: seq<nat>, c: nat | FailsIn(checks, ts, t, c, end)
      ensures Run(start, Flat(checks, once), t, end, count) == Result(false, true, c, count + |ts|)
    {
      RunWaits(start, checks, once, ts, t, c, end, count);
    }
    if Run(start, Flat(checks, once), t, end, count).failed {
      var ts, c := RunWaited(start, checks, once, t, end, count);
    }
  }

  /** It matches if and only if all predicates are met one after the other, each only missed until it is; and one that
      neither matches nor fails runs into its limit. */
  lemma MatchedIff(start: Cursor, checks: seq<Check>, once: bool, t: nat, end: nat, count: nat)
    requires NeverRetries(checks)
    ensures Run(start, Flat(checks, once), t, end, count).matched
       <==> exists ts: seq<nat>, c: nat :: MeetsAll(checks, ts, t, c, end)
    ensures forall ts: seq<nat>, c: nat | MeetsAll(checks, ts, t, c, end) ::
              Run(start, Flat(checks, once), t, end, count) == Result(true, false, c, count + |ts|)
    ensures var r := Run(start, Flat(checks, once), t, end, count);
            !(r.matched && r.failed) && (t <= end && !r.matched && !r.failed ==> r.cycle == end)
  {
    forall ts: seq<nat>, c: nat | MeetsAll(checks, ts, t, c, end)
      ensures Run(start, Flat(checks, once), t, end, count) == Result(true, false, c, count + |ts|)
    {
      RunWaits(start, checks, once, ts, t, c, end, count);
    }
    RunEnds(start, Flat(checks, once), t, end, count);
    if Run(start, Flat(checks, once), t, end, count).matched {
      var ts, c := RunWaited(start, checks, once, t, end, count);
    }
  }

  /** Every match ends one way or the other. */
  lemma {:induction false} RunEnds(start: Cursor, c: Cursor, t: nat, end: nat, count: nat)
    ensures var r := Run(start, c, t, end, count);
            !(r.matched && r.failed) && t <= r.cycle && (t <= end && !r.matched && !r.failed ==> r.cycle == end)
    decreases end - t
  {
    if t < end && !c.Exhausted() {
      match c.Call(t) {
        case Pass => RunEnds(start, c.After(t), t + 1, end, count + 1);
        case Miss => RunEnds(start, c, t + 1, end, count);
        case Fail =>
        case Retry => RunEnds(start, Restart(start, c), t + 1, end, count);
      }
    }
  }
}
