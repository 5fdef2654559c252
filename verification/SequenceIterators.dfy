/** The iterators of `|` and `&` over lists as the objects they are: each call moves the operands' iterators
    on and replaces the fetched predicates.  They are proved to be the cursors of the matcher. */
module SequenceIterators {
  import opened SequenceMatch

  datatype Option<T> = None | Some(value: T)

  class ListIter {
    const once: bool
    var left: seq<Check>

    constructor (checks: seq<Check>, once: bool)
      ensures left == checks && this.once == once
    {
      left, this.once := checks, once;
    }

    /** `_next_or_none`. */
    method NextOrNone() returns (p: Option<Check>)
      modifies this
      ensures old(left) == [] ==> p.None? && left == []
      ensures old(left) != [] ==> p == Some(old(left)[0]) && left == old(left)[1..]
    {
      if left == [] { return None; }
      p := Some(left[0]);
      left := left[1..];
    }
  }

  /** The cursor of a list iterator after it has fetched `p`. */
  ghost function Fetched(p: Option<Check>, left: seq<Check>, once: bool): Cursor {
    Flat(if p.None? then [] else [p.value] + left, once)
  }

  class OrIter {
    const i1: ListIter
    const i2: ListIter
    var p1: Option<Check>
    var p2: Option<Check>
    var more: bool

    ghost predicate Valid()
      reads this, i1, i2
    {
      i1 != i2 && (p1.None? ==> i1.left == []) && (p2.None? ==> i2.left == [])
    }

    ghost function Contents(): Cursor
      reads this, i1, i2
    {
      Or(Fetched(p1, i1.left, i1.once), Fetched(p2, i2.left, i2.once), !more)
    }

    constructor (i1: ListIter, i2: ListIter)
      requires i1 != i2
      modifies i1, i2
      ensures Valid() && this.i1 == i1 && this.i2 == i2
      ensures Contents() == Or(Flat(old(i1.left), i1.once), Flat(old(i2.left), i2.once), false)
    {
      this.i1, this.i2, more := i1, i2, true;
      p1, p2 := None, None;
      new;
      p1 := i1.NextOrNone();
      p2 := i2.NextOrNone();
      assert Fetched(p1, i1.left, i1.once).rest == old(i1.left);
      assert Fetched(p2, i2.left, i2.once).rest == old(i2.left);
    }

    method Call(t: nat) returns (o: Outcome)
      requires Valid()
      modifies this, i1, i2
      ensures Valid()
      ensures o == old(Contents()).Call(t)
      ensures Contents() == old(Contents()).After(t)
    {
      o := if p1.None? then Pass else p1.value(t);
      if o.Pass? {
        p1 := i1.NextOrNone();
      } else if o.Miss? {
        o := if p2.None? then Pass else p2.value(t);
        if o.Pass? { p2 := i2.NextOrNone(); }
      }
      if !o.Fail? && !o.Retry? && (p1.None? || p2.None?) { more := false; }
      ghost var was := old(Contents());
      assert was.left.rest != [] ==> was.left.rest[1..] == old(i1.left);
      assert was.right.rest != [] ==> was.right.rest[1..] == old(i2.left);
      assert Contents().left.rest == was.left.rest || Contents().left.rest == old(i1.left);
    }
  }

  class AndIter {
    const i1: ListIter
    const i2: ListIter
    var p: Option<(Check, Check)>
    var more: bool

    ghost predicate Valid()
      reads this, i1, i2
    {
      i1 != i2 && (p.None? ==> i1.left == [] || i2.left == [])
    }

    ghost function Contents(): Cursor
      reads this, i1, i2
    {
      And(if p.None? then [] else [Both(p.value.0, p.value.1)] + Zip(i1.left, i2.left), !more)
    }

    constructor (i1: ListIter, i2: ListIter)
      requires i1 != i2
      modifies i1, i2
      ensures Valid() && this.i1 == i1 && this.i2 == i2
      ensures Contents() == And(Zip(old(i1.left), old(i2.left)), false)
    {
      this.i1, this.i2, more, p := i1, i2, true, None;
      new;
      p := NextPair(i1, i2);
    }

    /** The next element of `zip`: a pair only while both operands have one. */
    static method NextPair(i1: ListIter, i2: ListIter) returns (pair: Option<(Check, Check)>)
      requires i1 != i2
      modifies i1, i2
      ensures pair.None? <==> Zip(old(i1.left), old(i2.left)) == []
      ensures pair.None? ==> i1.left == [] || i2.left == []
      ensures pair.Some? ==>
                Zip(old(i1.left), old(i2.left)) == [Both(pair.value.0, pair.value.1)] + Zip(i1.left, i2.left)
    {
      var a := i1.NextOrNone();
      if a.None? { return None; }
      var b := i2.NextOrNone();
      if b.None? { return None; }
      pair := Some((a.value, b.value));
    }

    method Call(t: nat) returns (o: Outcome)
      requires Valid()
      modifies this, i1, i2
      ensures Valid()
      ensures o == old(Contents()).Call(t)
      ensures Contents() == old(Contents()).After(t)
    {
      o := if p.None? then Pass else p.value.0(t);
      if p.Some? && o.Pass? { o := p.value.1(t); }
      if o.Pass? {
        p := NextPair(i1, i2);
        if p.None? { more := false; }
      }
    }
  }
}
