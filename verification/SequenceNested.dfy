/** Sums, alternatives and conjunctions of sequences that are themselves combined, as the tests of the repository
    nest them (`verification/cocotb/common/utils.py:174-263`): `(a | b) + tail`, and `repeat(p) & ...` of that.

    An iterator of `|` or `&` is its own element: calling it moves it on at once, even if the element is then not
    counted as met.  So a call and the fetching of the next element are two steps here. */
module SequenceNested {
  import opened SequenceMatch
  import SequenceCombinators

  /** An iterator with the element it has fetched: a list, a sum in its first or second part, an alternative, or a
      conjunction, which is `live` while it has a pair. */
  datatype Tree =
    | List(rest: seq<Check>)
    | Sum(first: Tree, second: Tree, inSecond: bool)
    | Either(left: Tree, right: Tree, ended: bool)
    | Joint(left: Tree, right: Tree, live: bool, ended: bool)
  {
    /** There is no further element. */
    predicate Over() {
      match this
      case List(rest) => rest == []
      case Sum(_, second, inSecond) => inSecond && second.Over()
      case Either(_, _, ended) => ended
      case Joint(_, _, _, ended) => ended
    }

    /** The outcome of calling the element in cycle `t`. */
    function Call(t: nat): Outcome {
      match this
      case List(rest) => if rest == [] then Pass else rest[0](t)
      case Sum(first, second, inSecond) => if inSecond then second.Call(t) else first.Call(t)
      case Either(a, b, _) =>
        var o := if a.Over() then Pass else a.Call(t);
        if o.Miss? then (if b.Over() then Pass else b.Call(t)) else o
      case Joint(a, b, live, _) => if !live then Pass else if a.Call(t).Pass? then b.Call(t) else a.Call(t)
    }

    /** What the call does to the element, passed or not. */
    function Touch(t: nat): Tree {
      match this
      case List(_) => this
      case Sum(first, second, inSecond) =>
        if inSecond then Sum(first, second.Touch(t), true) else Sum(first.Touch(t), second, false)
      case Either(a, b, ended) =>
        var o1 := if a.Over() then Pass else a.Call(t);
        var o2 := if b.Over() then Pass else b.Call(t);
        var a' := if a.Over() then a else if o1.Pass? then a.Touch(t).Fetch() else a.Touch(t);
        var b' := if b.Over() || !o1.Miss? then b else if o2.Pass? then b.Touch(t).Fetch() else b.Touch(t);
        Either(a', b', ended || (!Raises(t) && (a'.Over() || b'.Over())))
      case Joint(a, b, live, ended) =>
        if !live then Joint(a, b, false, true)
        else if !a.Call(t).Pass? then Joint(a.Touch(t), b, true, ended)
        else if !b.Call(t).Pass? then Joint(a.Touch(t), b.Touch(t), true, ended)
        else Pair(a.Touch(t).Fetch(), b.Touch(t), ended)
    }

    predicate Raises(t: nat) { Call(t).Fail? || Call(t).Retry? }

    /** The next element. */
    function Fetch(): Tree {
      match this
      case List(rest) => if rest == [] then this else List(rest[1..])
      case Sum(first, second, inSecond) =>
        if inSecond then Sum(first, second.Fetch(), true) else Sum(first.Fetch(), second, first.Fetch().Over())
      case _ => this
    }

    /** One cycle of a match. */
    function Step(t: nat): Tree {
      if Over() then this else if Call(t).Pass? then Touch(t).Fetch() else Touch(t)
    }
  }

  /** The next pair of `zip`, whose first operand has been moved on already. */
  function Pair(a: Tree, b: Tree, ended: bool): Tree {
    var b' := if a.Over() then b else b.Fetch();
    var live := !a.Over() && !b'.Over();
    Joint(a, b', live, ended || !live)
  }

  /** New iterators. */
  function SumOf(a: Tree, b: Tree): Tree { Sum(a, b, a.Over()) }
  function OrOf(a: Tree, b: Tree): Tree { Either(a, b, false) }
  function AndOf(a: Tree, b: Tree): Tree { Joint(a, b, !a.Over() && !b.Over(), false) }

  function Steps(c: Tree, t: nat, n: nat): Tree { if n == 0 then c else Steps(c, t, n - 1).Step(t + n - 1) }

  /** A sequence is over for the first time after `n` cycles. */
  ghost predicate FirstOver(c: Tree, t: nat, n: nat) {
    Steps(c, t, n).Over() && forall m: nat | m < n :: !Steps(c, t, m).Over()
  }

  /** Only a call that passes can be the last. */
  lemma MissIsNotOver(c: Tree, t: nat)
    requires !c.Over() && !c.Call(t).Pass?
    ensures !c.Touch(t).Over()
  {
    match c {
      case List(_) =>
      case Sum(first, second, inSecond) => if inSecond { MissIsNotOver(second, t); }
      case Either(a, b, _) =>
        if !c.Raises(t) {
          MissIsNotOver(a, t);
          MissIsNotOver(b, t);
        }
      case Joint(_, _, _, _) =>
    }
  }

  ghost predicate QuietAt(c: Tree, t: nat) { !Steps(c, 0, t).Raises(t) }

  /** `match` of a nested sequence that raises nothing: it has matched if and only if the sequence is over before
      the limit, in the first cycle in which it is. */
  method Match(start: Tree, cycleCnt: nat) returns (matched: bool, cycle: nat)
    requires forall n: nat :: QuietAt(start, n)
    ensures matched <==> exists m: nat :: m < cycleCnt && Steps(start, 0, m).Over()
    ensures matched ==> FirstOver(start, 0, cycle)
  {
    var it, fetched := start, false;
    matched, cycle := false, 0;
    while cycle < cycleCnt
      invariant cycle <= cycleCnt && it == Steps(start, 0, cycle) && !matched
      invariant forall m: nat | m < cycle :: !Steps(start, 0, m).Over()
      invariant fetched ==> !it.Over()
    {
      if !fetched {
        if it.Over() { return true, cycle; }
        fetched := true;
      }
      assert QuietAt(start, cycle);
      ghost var was := it;
      var passed := it.Call(cycle).Pass?;
      it := it.Touch(cycle);
      if passed {
        it, fetched := it.Fetch(), false;
      } else {
        MissIsNotOver(was, cycle);
      }
      cycle := cycle + 1;
    }
  }

  // ---------------------------------------------------------------- the cursors of the matcher

  /** Lists and alternatives of them, as nested iterators. */
  predicate Alternatives(c: Cursor) {
    match c
    case Flat(_, _) => true
    case Or(a, b, _) => Alternatives(a) && Alternatives(b)
    case And(_, _) => false
  }

  function Of(c: Cursor): Tree
    requires Alternatives(c)
  {
    match c
    case Flat(rest, _) => List(rest)
    case Or(a, b, ended) => Either(Of(a), Of(b), ended)
  }

  /** They are called and moved on as the cursors are. */
  lemma {:induction false} OfAfter(c: Cursor, t: nat)
    requires Alternatives(c)
    ensures Of(c).Over() == c.Exhausted() && Of(c).Call(t) == c.Call(t)
    ensures Alternatives(c.After(t))
    ensures if c.Call(t).Pass? then Of(c).Touch(t).Fetch() == Of(c.After(t))
            else !c.Exhausted() ==> Of(c).Touch(t) == Of(c)
  {
    match c {
      case Flat(_, _) =>
      case Or(a, b, _) =>
        OfAfter(a, t);
        OfAfter(b, t);
    }
  }

  lemma {:induction false} OfSteps(c: Cursor, t: nat, n: nat)
    requires Alternatives(c)
    ensures Alternatives(SequenceCombinators.Steps(c, t, n))
    ensures Steps(Of(c), t, n) == Of(SequenceCombinators.Steps(c, t, n))
  {
    if n > 0 {
      OfSteps(c, t, n - 1);
      OfAfter(SequenceCombinators.Steps(c, t, n - 1), t + n - 1);
    }
  }

  /** A conjunction of lists is the cursor of their pairs. */
  ghost predicate IsZip(c: Tree, p: Cursor) {
    && c.Joint? && p.And? && c.ended == p.ended && c.left.List? && c.right.List?
    && c.live == (p.pairs != []) && (c.live ==> p.pairs == Zip(c.left.rest, c.right.rest))
  }

  lemma ZipStep(c: Tree, p: Cursor, t: nat)
    requires IsZip(c, p) && !p.ended
    ensures IsZip(c.Step(t), p.After(t))
  {
    if c.live {
      var a, b := c.left.rest, c.right.rest;
      assert c.left.Call(t) == a[0](t) && c.right.Call(t) == b[0](t);
      assert c.left.Touch(t) == c.left && c.right.Touch(t) == c.right;
      assert Zip(a, b)[1..] == Zip(a[1..], b[1..]);
    }
  }

  lemma {:induction false} ZipSteps(a: seq<Check>, b: seq<Check>, t: nat, n: nat)
    ensures IsZip(Steps(AndOf(List(a), List(b)), t, n), SequenceCombinators.Steps(And(Zip(a, b), false), t, n))
  {
    if n > 0 {
      ZipSteps(a, b, t, n - 1);
      var p := SequenceCombinators.Steps(And(Zip(a, b), false), t, n - 1);
      if !p.ended { ZipStep(Steps(AndOf(List(a), List(b)), t, n - 1), p, t + n - 1); }
    }
  }

  // ---------------------------------------------------------------- sums

  /** Until its first part is over, a sum does what that does. */
  lemma {:induction false} SumInFirst(a: Tree, b: Tree, t: nat, n: nat)
    requires forall m: nat | m < n :: !Steps(a, t, m).Over()
    ensures Steps(SumOf(a, b), t, n) == SumOf(Steps(a, t, n), b)
  {
    if n > 0 {
      SumInFirst(a, b, t, n - 1);
      assert !Steps(a, t, n - 1).Over();
      SumStep(Steps(a, t, n - 1), b, t + n - 1);
    }
  }

  lemma SumStep(a: Tree, b: Tree, t: nat)
    requires !a.Over()
    ensures SumOf(a, b).Step(t) == SumOf(a.Step(t), b)
  {
    if !a.Call(t).Pass? { MissIsNotOver(a, t); }
  }

  /** Then it does what its second part does, begun in the cycle after the first was over. */
  lemma {:induction false} SumInSecond(a: Tree, b: Tree, t: nat, m: nat, n: nat)
    requires FirstOver(a, t, m)
    ensures Steps(SumOf(a, b), t, m + n) == Sum(Steps(a, t, m), Steps(b, t + m, n), true)
  {
    if n > 0 {
      SumInSecond(a, b, t, m, n - 1);
    } else {
      SumInFirst(a, b, t, m);
    }
  }

  lemma {:induction false} FindFirstOver(c: Tree, t: nat, n: nat) returns (m: nat)
    requires Steps(c, t, n).Over()
    ensures m <= n && FirstOver(c, t, m)
  {
    m := 0;
    while !Steps(c, t, m).Over()
      invariant m <= n && forall k: nat | k < m :: !Steps(c, t, k).Over()
      decreases n - m
    {
      m := m + 1;
    }
  }

  lemma FirstIsOne(c: Tree, t: nat, j: nat, m: nat)
    requires FirstOver(c, t, j) && FirstOver(c, t, m)
    ensures j == m
  {
  }

  /** The first part is over after `m` cycles, and the second, begun in the cycle after that, after `n` in all. */
  ghost predicate PartsOver(a: Tree, b: Tree, t: nat, n: nat, m: nat) {
    m <= n && FirstOver(a, t, m) && Steps(b, t + m, n - m).Over()
  }

  /** A sum of any two sequences is over exactly when its parts are, one after the other. */
  lemma SumOverIff(a: Tree, b: Tree, t: nat, n: nat)
    ensures Steps(SumOf(a, b), t, n).Over() <==> exists m: nat :: PartsOver(a, b, t, n, m)
  {
    if forall m: nat | m <= n :: !Steps(a, t, m).Over() {
      SumInFirst(a, b, t, n);
    } else {
      var k: nat :| k <= n && Steps(a, t, k).Over();
      var m := FindFirstOver(a, t, k);
      SumInSecond(a, b, t, m, n - m);
      forall j: nat | FirstOver(a, t, j) ensures j == m { FirstIsOne(a, t, j, m); }
      assert Steps(b, t + m, n - m).Over() ==> PartsOver(a, b, t, n, m);
    }
  }

  /** The sum of `a` and `b` is over for the first time when `b` is, begun behind `a`. */
  lemma FirstOfSum(a: Tree, b: Tree, t: nat, k: nat, j: nat)
    requires FirstOver(a, t, k)
    ensures FirstOver(SumOf(a, b), t, k + j) <==> FirstOver(b, t + k, j)
  {
    var u := t + k;
    forall m: nat | m < k ensures !Steps(SumOf(a, b), t, m).Over() { SumInFirst(a, b, t, m); }
    forall i: nat ensures Steps(SumOf(a, b), t, k + i).Over() <==> Steps(b, u, i).Over() { SumInSecond(a, b, t, k, i); }
    if FirstOver(b, u, j) {
      forall m: nat | m < k + j ensures !Steps(SumOf(a, b), t, m).Over() {
        if m >= k { assert !Steps(b, u, m - k).Over(); }
      }
    }
    if FirstOver(SumOf(a, b), t, k + j) {
      forall i: nat | i < j ensures !Steps(b, u, i).Over() { assert !Steps(SumOf(a, b), t, k + i).Over(); }
    }
  }

  lemma SumToRight(a: Tree, b: Tree, c: Tree, t: nat, n: nat, m: nat)
    requires PartsOver(SumOf(a, b), c, t, n, m)
    ensures Steps(SumOf(a, SumOf(b, c)), t, n).Over()
  {
    SumOverIff(a, b, t, m);
    var k: nat :| PartsOver(a, b, t, m, k);
    FirstOfSum(a, b, t, k, m - k);
    assert t + k + (m - k) == t + m && n - k - (m - k) == n - m;
    assert PartsOver(b, c, t + k, n - k, m - k);
    SumOverIff(b, c, t + k, n - k);
    assert PartsOver(a, SumOf(b, c), t, n, k);
    SumOverIff(a, SumOf(b, c), t, n);
  }

  lemma SumToLeft(a: Tree, b: Tree, c: Tree, t: nat, n: nat, k: nat)
    requires PartsOver(a, SumOf(b, c), t, n, k)
    ensures Steps(SumOf(SumOf(a, b), c), t, n).Over()
  {
    SumOverIff(b, c, t + k, n - k);
    var j: nat :| PartsOver(b, c, t + k, n - k, j);
    FirstOfSum(a, b, t, k, j);
    assert t + k + j == t + (k + j) && n - k - j == n - (k + j);
    assert PartsOver(SumOf(a, b), c, t, n, k + j);
    SumOverIff(SumOf(a, b), c, t, n);
  }

  /** Sums can be bracketed at will. */
  lemma SumAssociative(a: Tree, b: Tree, c: Tree, t: nat, n: nat)
    ensures Steps(SumOf(SumOf(a, b), c), t, n).Over() <==> Steps(SumOf(a, SumOf(b, c)), t, n).Over()
  {
    SumOverIff(SumOf(a, b), c, t, n);
    SumOverIff(a, SumOf(b, c), t, n);
    if m: nat :| PartsOver(SumOf(a, b), c, t, n, m) { SumToRight(a, b, c, t, n, m); }
    if k: nat :| PartsOver(a, SumOf(b, c), t, n, k) { SumToLeft(a, b, c, t, n, k); }
  }

  // ---------------------------------------------------------------- alternatives

  /** The second operand of an alternative: it is called only in the cycles in which the first one misses. */
  function Second(a: Tree, b: Tree, t: nat, n: nat): Tree {
    if n == 0 then b
    else
      var first, c := Steps(a, t, n - 1), Second(a, b, t, n - 1);
      if !first.Over() && first.Call(t + n - 1).Miss? then c.Step(t + n - 1) else c
  }

  ghost predicate QuietUntil(c: Tree, t: nat, n: nat) { forall m: nat | m < n :: !Steps(c, t, m).Raises(t + m) }

  ghost predicate OneOver(a: Tree, b: Tree, t: nat, m: nat) { Steps(a, t, m).Over() || Second(a, b, t, m).Over() }

  lemma EitherStep(a: Tree, b: Tree, t: nat)
    requires !OrOf(a, b).Raises(t)
    ensures var b' := if !a.Over() && a.Call(t).Miss? then b.Step(t) else b;
            OrOf(a, b).Step(t) == Either(a.Step(t), b', a.Step(t).Over() || b'.Over())
  {
  }

  /** An alternative that raises nothing: its first operand does what it does alone, on its misses the second one is
      moved on, and it is over with the first of them, in that cycle and for good. */
  lemma {:induction false} EitherOverIff(a: Tree, b: Tree, t: nat, n: nat)
    requires QuietUntil(OrOf(a, b), t, n)
    ensures Steps(OrOf(a, b), t, n).Over() <==> exists m: nat :: 0 < m <= n && OneOver(a, b, t, m)
    ensures !Steps(OrOf(a, b), t, n).Over() ==> Steps(OrOf(a, b), t, n) == OrOf(Steps(a, t, n), Second(a, b, t, n))
  {
    if n > 0 {
      EitherOverIff(a, b, t, n - 1);
      var c := Steps(OrOf(a, b), t, n - 1);
      assert !c.Raises(t + (n - 1));
      if !c.Over() {
        EitherStep(Steps(a, t, n - 1), Second(a, b, t, n - 1), t + n - 1);
        assert Steps(OrOf(a, b), t, n).Over() <==> OneOver(a, b, t, n);
      }
    }
  }

  // ---------------------------------------------------------------- conjunctions

  /** Lists and sums of them. */
  predicate Plain(c: Tree) {
    match c
    case List(_) => true
    case Sum(first, second, _) => Plain(first) && Plain(second)
    case _ => false
  }

  lemma PlainUntouched(c: Tree, t: nat)
    requires Plain(c)
    ensures c.Touch(t) == c
  {
  }

  /** A first operand without alternatives and conjunctions waits for the second one: it goes on when both have
      passed in one cycle, and not before. */
  lemma PlainWaits(a: Tree, b: Tree, t: nat)
    requires Plain(a)
    ensures var c := Joint(a, b, true, false);
            c.Step(t) == if !a.Call(t).Pass? then c
                         else if !b.Call(t).Pass? then Joint(a, b.Touch(t), true, false)
                         else Pair(a.Fetch(), b.Touch(t), false)
  {
    PlainUntouched(a, t);
  }

  /** `n` times the same predicate, as `repeat` gives it as long as it is asked. */
  function Repeat(p: Check, n: nat): (checks: seq<Check>)
    ensures |checks| == n
  {
    seq(n, k => p)
  }

  /** Sequence `b` when it is called only in the cycles in which `p` holds. */
  function Gated(p: Check, b: Tree, t: nat, n: nat): Tree {
    if n == 0 then b
    else var c := Gated(p, b, t, n - 1); if p(t + n - 1).Pass? then c.Step(t + n - 1) else c
  }

  /** The conjunction of `size` times `p`, and of `b`, which is live until `b` is over. */
  function GatedBy(p: Check, size: nat, b: Tree): Tree {
    Joint(List(Repeat(p, size)), b, !b.Over(), b.Over())
  }

  lemma GateStep(p: Check, size: nat, b: Tree, t: nat)
    requires size >= 2 && !b.Over()
    ensures GatedBy(p, size, b).Step(t)
         == if !p(t).Pass? then GatedBy(p, size, b)
            else if b.Call(t).Pass? then GatedBy(p, size - 1, b.Step(t))
            else GatedBy(p, size, b.Step(t))
  {
    var a := List(Repeat(p, size));
    assert a.Call(t) == p(t) && a.Touch(t) == a;
    assert Repeat(p, size)[1..] == Repeat(p, size - 1);
    assert a.Fetch() == List(Repeat(p, size - 1));
    var c := Joint(a, b, true, false);
    if p(t).Pass? {
      if b.Call(t).Pass? {
        assert c.Touch(t) == Pair(a.Fetch(), b.Touch(t), false);
      } else {
        assert c.Touch(t) == Joint(a, b.Touch(t), true, false);
        MissIsNotOver(b, t);
      }
    } else {
      assert c.Touch(t) == c;
    }
  }

  /** `repeat(p) & b`, with enough of `p`, is `b` in the cycles in which `p` holds: the two are never out of step. */
  lemma {:induction false} RepeatIsGate(p: Check, b: Tree, t: nat, n: nat, size: nat) returns (left: nat)
    requires n < size && !b.Over()
    ensures left >= size - n && Steps(AndOf(List(Repeat(p, size)), b), t, n) == GatedBy(p, left, Gated(p, b, t, n))
  {
    left := size;
    if n > 0 {
      left := RepeatIsGate(p, b, t, n - 1, size);
      var g, u := Gated(p, b, t, n - 1), t + n - 1;
      if !g.Over() {
        GateStep(p, left, g, u);
        if p(u).Pass? && g.Call(u).Pass? { left := left - 1; }
      }
    }
  }

  /** So it is over exactly when that is. */
  lemma RepeatOverIff(p: Check, b: Tree, t: nat, n: nat, size: nat)
    requires n < size && !b.Over()
    ensures Steps(AndOf(List(Repeat(p, size)), b), t, n).Over() <==> Gated(p, b, t, n).Over()
  {
    var left := RepeatIsGate(p, b, t, n, size);
  }

  ghost predicate PassesAt(p: Check, t: nat) { p(t).Pass? }

  /** A gate that is always open changes nothing. */
  lemma {:induction false} OpenGate(p: Check, b: Tree, t: nat, n: nat)
    requires forall u: nat | t <= u < t + n :: PassesAt(p, u)
    ensures Gated(p, b, t, n) == Steps(b, t, n)
  {
    if n > 0 {
      OpenGate(p, b, t, n - 1);
      assert PassesAt(p, t + n - 1);
    }
  }

  // ---------------------------------------------------------------- which operand comes first

  /** Holds in cycle `u` and in no other. */
  function In(u: nat): Check { (t: nat) => if t == u then Pass else Miss }

  /** Two alternatives that both hold in cycle `x` only; and what is left of them behind it. */
  function Twice(x: nat): Tree { OrOf(List([In(x)]), List([In(x)])) }
  function Met(x: nat): Tree { Either(List([]), List([In(x)]), true) }

  lemma EitherTouch(x: nat, t: nat)
    ensures Twice(x).Call(t) == In(x)(t) && Twice(x).Touch(t) == if t == x then Met(x) else Twice(x)
    ensures Met(x).Call(t) == Pass && Met(x).Touch(t) == Met(x)
  {
  }

  lemma JointStep(a: Tree, y: nat, t: nat)
    requires !a.Over() || a.Touch(t) == a
    ensures var c := Joint(a, List([In(y)]), true, false);
            if a.Call(t).Pass? && t == y then c.Step(t).Over()
            else c.Step(t) == Joint(a.Touch(t), List([In(y)]), true, false)
  {
    var b := List([In(y)]);
    assert b.Call(t) == In(y)(t) && b.Touch(t) == b && b.Fetch().Over();
  }

  /** The alternative as first operand: what it has met is not forgotten. */
  lemma {:induction false} Remembers(x: nat, y: nat, n: nat)
    requires x < y && n <= y
    ensures Steps(AndOf(Twice(x), List([In(y)])), 0, n)
         == Joint(if n <= x then Twice(x) else Met(x), List([In(y)]), true, false)
  {
    if n > 0 {
      Remembers(x, y, n - 1);
      EitherTouch(x, n - 1);
      JointStep(if n - 1 <= x then Twice(x) else Met(x), y, n - 1);
    }
  }

  /** As second operand it is called only when the first holds. */
  lemma {:induction false} Forgets(x: nat, y: nat, n: nat)
    requires x < y
    ensures Steps(AndOf(List([In(y)]), Twice(x)), 0, n) == AndOf(List([In(y)]), Twice(x))
  {
    if n > 0 {
      Forgets(x, y, n - 1);
      EitherTouch(x, n - 1);
      var c := AndOf(List([In(y)]), Twice(x));
      assert List([In(y)]).Call(n - 1) == In(y)(n - 1);
      assert c.Touch(n - 1) == c;
    }
  }

  /** An alternative that is the first operand is moved on by a call although the second operand misses, so the two
      need not hold in one cycle; with the operands exchanged they must. */
  lemma OrderMatters(x: nat, y: nat)
    requires x < y
    ensures Steps(AndOf(Twice(x), List([In(y)])), 0, y + 1).Over()
    ensures forall n: nat :: !Steps(AndOf(List([In(y)]), Twice(x)), 0, n).Over()
  {
    Remembers(x, y, y);
    EitherTouch(x, y);
    JointStep(Met(x), y, y);
    forall n: nat ensures !Steps(AndOf(List([In(y)]), Twice(x)), 0, n).Over() { Forgets(x, y, n); }
  }
}
