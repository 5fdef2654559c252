/** The scoreboard for a FIFO behind the AXI ID filter: `verify_data` in
    `verification/cocotb/block/axi_adapter_id_filter/test_bus_stress.py`, against the FIFO it judges. */
module IdFilter {
  /** Which transaction IDs may access the FIFO; with the filter off, all may. */
  datatype Filter = Filter(privIds: set<nat>, off: bool) {
    predicate Allows(id: nat) { off || id in privIds }
  }

  // ---------------------------------------------------------------- the scoreboard

  /** The written data that the filter lets through, the IDs being used in turn. */
  function Passed(f: Filter, data: seq<nat>, awids: seq<nat>, n: nat): seq<nat>
    requires n <= |data| && (f.off || awids != [] || n == 0)
  {
    if n == 0 then []
    else Passed(f, data, awids, n - 1)
         + (if f.off || InTurn(awids, n - 1) in f.privIds then [data[n - 1]] else [])
  }

  function InTurn(ids: seq<nat>, k: nat): (id: nat)
    requires ids != []
    ensures k < |ids| ==> id == ids[k]
  {
    ids[k % |ids|]
  }

  lemma MultipleIsFar(n: int, d: int)
    requires n >= 0
    ensures d >= 1 ==> n * d >= n
    ensures d <= -1 ==> n * d <= -n
  {
    if d >= 1 { assert n * d >= n * 1; }
    if d <= -1 { assert n * d <= n * -1; }
  }

  lemma RemainderIs(n: nat, k: nat, q: nat, m: nat)
    requires m < n && k == n * q + m
    ensures k % n == m
  {
    var d := q - k / n;
    assert n * d == k % n - m by {
      assert n * d == n * q - n * (k / n);
    }
    MultipleIsFar(n, d);
  }

  /** The IDs come again after their number, so that every ID has its turn in every round. */
  lemma InTurnRepeats(ids: seq<nat>, round: nat, m: nat)
    requires m < |ids|
    ensures InTurn(ids, |ids| * round + m) == ids[m]
  {
    RemainderIs(|ids|, |ids| * round + m, round, m);
  }

  lemma OneInTurn(id: nat, k: nat)
    ensures InTurn([id], k) == id
  {
    InTurnRepeats([id], k, 0);
  }

  /** A burst with one ID passes as a whole or not at all. */
  lemma {:induction false} BurstPasses(f: Filter, data: seq<nat>, id: nat, n: nat)
    requires n <= |data|
    ensures Passed(f, data, [id], n) == if f.Allows(id) then data[..n] else []
  {
    if n > 0 {
      BurstPasses(f, data, id, n - 1);
      OneInTurn(id, n - 1);
      assert data[..n - 1] + [data[n - 1]] == data[..n];
    }
  }

  /** Position in the filtered list after the first `n` reads. */
  function Taken(f: Filter, arids: seq<nat>, n: nat): (ptr: nat)
    requires n <= |arids|
    ensures ptr <= n
  {
    if n == 0 then 0 else Taken(f, arids, n - 1) + (if f.Allows(arids[n - 1]) then 1 else 0)
  }

  predicate ReadOk(f: Filter, passed: seq<nat>, readData: seq<nat>, arids: seq<nat>, i: nat)
    requires i < |arids|
  {
    && i < |readData|
    && (if f.Allows(arids[i])
        then Taken(f, arids, i) < |passed| && readData[i] == passed[Taken(f, arids, i)]
        else readData[i] == 0)
  }

  /** Accepted, or an assertion fails, or an index is out of range (or a remainder by zero is taken). */
  datatype Verdict = Accepted | AssertionFails | Raises

  /** The list comprehension. */
  method FilterWrites(writeData: seq<nat>, awids: seq<nat>, f: Filter) returns (passed: seq<nat>)
    requires f.off || awids != [] || writeData == []
    ensures passed == Passed(f, writeData, awids, |writeData|)
  {
    if f.off {
      AllPassed(f, writeData, awids, |writeData|);
      return writeData;
    }
    passed := [];
    for i := 0 to |writeData|
      invariant passed == Passed(f, writeData, awids, i)
    {
      if InTurn(awids, i) in f.privIds { passed := passed + [writeData[i]]; }
    }
  }

  ghost predicate ReadsOk(f: Filter, passed: seq<nat>, readData: seq<nat>, arids: seq<nat>, n: nat)
    requires n <= |arids|
  {
    forall i: nat | i < n :: ReadOk(f, passed, readData, arids, i)
  }

  /** Everything before read `i` is as expected, and there is no read `i`, or no word left for it. */
  ghost predicate RaisesAt(f: Filter, passed: seq<nat>, readData: seq<nat>, arids: seq<nat>, i: nat)
    requires i < |arids|
  {
    && ReadsOk(f, passed, readData, arids, i)
    && (i >= |readData| || (f.Allows(arids[i]) && Taken(f, arids, i) >= |passed|))
  }

  lemma NoRaiseAfterFailure(f: Filter, passed: seq<nat>, readData: seq<nat>, arids: seq<nat>, i: nat)
    requires i < |arids| && ReadsOk(f, passed, readData, arids, i) && !ReadOk(f, passed, readData, arids, i)
    requires !RaisesAt(f, passed, readData, arids, i)
    ensures forall j: nat | j < |arids| :: !RaisesAt(f, passed, readData, arids, j)
  {
    forall j: nat | j < |arids| ensures !RaisesAt(f, passed, readData, arids, j) {
      if j > i { assert !ReadsOk(f, passed, readData, arids, j); }
      if j < i { assert ReadOk(f, passed, readData, arids, j); }
    }
  }

  /** The loop over the reads. */
  method CheckReads(passed: seq<nat>, readData: seq<nat>, arids: seq<nat>, f: Filter) returns (v: Verdict)
    ensures v.Accepted? <==> ReadsOk(f, passed, readData, arids, |arids|)
    ensures v.Raises? <==> exists i: nat :: i < |arids| && RaisesAt(f, passed, readData, arids, i)
  {
    var ptr := 0;
    for i := 0 to |arids|
      invariant ptr == Taken(f, arids, i) && ReadsOk(f, passed, readData, arids, i)
    {
      ghost var ok := ReadOk(f, passed, readData, arids, i);
      if i >= |readData| {
        assert RaisesAt(f, passed, readData, arids, i);
        return Raises;
      }
      if arids[i] in f.privIds || f.off {
        if ptr >= |passed| {
          assert RaisesAt(f, passed, readData, arids, i);
          return Raises;
        }
        if readData[i] != passed[ptr] {
          NoRaiseAfterFailure(f, passed, readData, arids, i);
          return AssertionFails;
        }
        ptr := ptr + 1;
      } else if readData[i] != 0 {
        NoRaiseAfterFailure(f, passed, readData, arids, i);
        return AssertionFails;
      }
    }
    v := Accepted;
    forall j: nat | j < |arids| ensures !RaisesAt(f, passed, readData, arids, j) {
      assert ReadOk(f, passed, readData, arids, j);
    }
  }

  method VerifyData(writeData: seq<nat>, awids: seq<nat>, readData: seq<nat>, arids: seq<nat>, f: Filter)
    returns (v: Verdict)
    ensures v.Accepted? <==> Accepts(writeData, awids, readData, arids, f)
    ensures v.Raises? <==>
              && |writeData| == |readData|
              && ((!f.off && awids == [] && writeData != [])
                  || exists i: nat :: i < |arids|
                       && RaisesAt(f, Passed(f, writeData, awids, |writeData|), readData, arids, i))
  {
    if |writeData| != |readData| { return AssertionFails; }
    if !f.off && awids == [] && writeData != [] { return Raises; }
    var passed := FilterWrites(writeData, awids, f);
    v := CheckReads(passed, readData, arids, f);
  }

  ghost predicate Accepts(writeData: seq<nat>, awids: seq<nat>, readData: seq<nat>, arids: seq<nat>, f: Filter) {
    && |writeData| == |readData| && (f.off || awids != [] || writeData == [])
    && ReadsOk(f, Passed(f, writeData, awids, |writeData|), readData, arids, |arids|)
  }

  lemma {:induction false} AllPassed(f: Filter, data: seq<nat>, awids: seq<nat>, n: nat)
    requires f.off && n <= |data|
    ensures Passed(f, data, awids, n) == data[..n]
  {
    if n > 0 { AllPassed(f, data, awids, n - 1); }
  }

  // ---------------------------------------------------------------- the FIFO

  datatype Access = Write(id: nat, data: nat) | Read(id: nat)

  /** The filtered FIFO: a write that is not allowed is dropped; a read that is not allowed, or finds the
      FIFO empty, returns zero and takes nothing. */
  function Contents(f: Filter, ops: seq<Access>): seq<nat> {
    if ops == [] then []
    else
      var fifo, op := Contents(f, ops[..|ops| - 1]), ops[|ops| - 1];
      if !f.Allows(op.id) then fifo
      else match op
           case Write(_, d) => fifo + [d]
           case Read(_) => if fifo == [] then [] else fifo[1..]
  }

  /** The results of the reads, in order. */
  function Results(f: Filter, ops: seq<Access>): (data: seq<nat>)
    ensures |data| == |Arids(ops)|
  {
    if ops == [] then []
    else
      var before, op := ops[..|ops| - 1], ops[|ops| - 1];
      if op.Write? then Results(f, before)
      else Results(f, before) + [if f.Allows(op.id) && Contents(f, before) != [] then Contents(f, before)[0] else 0]
  }

  function Written(ops: seq<Access>): (data: seq<nat>)
    ensures |data| == |Awids(ops)|
  {
    if ops == [] then []
    else Written(ops[..|ops| - 1]) + (if ops[|ops| - 1].Write? then [ops[|ops| - 1].data] else [])
  }

  function Awids(ops: seq<Access>): seq<nat> {
    if ops == [] then []
    else Awids(ops[..|ops| - 1]) + (if ops[|ops| - 1].Write? then [ops[|ops| - 1].id] else [])
  }

  function Arids(ops: seq<Access>): seq<nat> {
    if ops == [] then []
    else Arids(ops[..|ops| - 1]) + (if ops[|ops| - 1].Read? then [ops[|ops| - 1].id] else [])
  }

  /** No allowed read finds the FIFO empty. */
  predicate NeverEmpty(f: Filter, ops: seq<Access>) {
    ops == []
    || (NeverEmpty(f, ops[..|ops| - 1])
        && (ops[|ops| - 1].Read? && f.Allows(ops[|ops| - 1].id) ==> Contents(f, ops[..|ops| - 1]) != []))
  }

  /** What the filter lets through of all writes so far. */
  function PassedOf(f: Filter, ops: seq<Access>): seq<nat> {
    Passed(f, Written(ops), Awids(ops), |Written(ops)|)
  }

  function TakenBy(f: Filter, ops: seq<Access>): nat { Taken(f, Arids(ops), |Arids(ops)|) }

  /** One ID for each write: no need to use them in turn. */
  function Through(f: Filter, data: seq<nat>, ids: seq<nat>): seq<nat>
    requires |data| == |ids|
  {
    if data == [] then []
    else
      var n := |data| - 1;
      Through(f, data[..n], ids[..n]) + (if f.Allows(ids[n]) then [data[n]] else [])
  }

  lemma ThroughSnoc(f: Filter, data: seq<nat>, ids: seq<nat>, d: nat, id: nat)
    requires |data| == |ids|
    ensures Through(f, data + [d], ids + [id]) == Through(f, data, ids) + (if f.Allows(id) then [d] else [])
  {
    assert (data + [d])[..|data|] == data && (ids + [id])[..|ids|] == ids;
  }

  lemma {:induction false} PassedIsThrough(f: Filter, data: seq<nat>, ids: seq<nat>, n: nat)
    requires n <= |data| == |ids|
    ensures Passed(f, data, ids, n) == Through(f, data[..n], ids[..n])
  {
    if n > 0 {
      PassedIsThrough(f, data, ids, n - 1);
      ThroughSnoc(f, data[..n - 1], ids[..n - 1], data[n - 1], ids[n - 1]);
      assert data[..n] == data[..n - 1] + [data[n - 1]] && ids[..n] == ids[..n - 1] + [ids[n - 1]];
    }
  }

  lemma PassedOfIs(f: Filter, ops: seq<Access>)
    ensures PassedOf(f, ops) == Through(f, Written(ops), Awids(ops))
  {
    var n := |Written(ops)|;
    PassedIsThrough(f, Written(ops), Awids(ops), n);
    assert Written(ops)[..n] == Written(ops) && Awids(ops)[..n] == Awids(ops);
  }

  lemma PassedStep(f: Filter, ops: seq<Access>)
    requires ops != []
    ensures var op := ops[|ops| - 1];
            PassedOf(f, ops) == PassedOf(f, ops[..|ops| - 1]) + (if op.Write? && f.Allows(op.id) then [op.data] else [])
  {
    var before := ops[..|ops| - 1];
    PassedOfIs(f, ops);
    PassedOfIs(f, before);
    var op := ops[|ops| - 1];
    if op.Write? {
      ThroughSnoc(f, Written(before), Awids(before), op.data, op.id);
    } else {
      assert Written(ops) == Written(before) && Awids(ops) == Awids(before);
    }
  }

  lemma {:induction false} TakenPrefix(f: Filter, arids: seq<nat>, arids': seq<nat>, n: nat)
    requires n <= |arids| && n <= |arids'| && arids[..n] == arids'[..n]
    ensures Taken(f, arids, n) == Taken(f, arids', n)
  {
    if n > 0 {
      assert arids[..n - 1] == arids[..n][..n - 1] && arids'[..n - 1] == arids'[..n][..n - 1];
      TakenPrefix(f, arids, arids', n - 1);
      assert arids[..n][n - 1] == arids'[..n][n - 1];
    }
  }

  lemma TakenStep(f: Filter, ops: seq<Access>)
    requires ops != []
    ensures var op := ops[|ops| - 1];
            TakenBy(f, ops) == TakenBy(f, ops[..|ops| - 1]) + (if op.Read? && f.Allows(op.id) then 1 else 0)
  {
    var before := ops[..|ops| - 1];
    TakenPrefix(f, Arids(ops), Arids(before), |Arids(before)|);
  }

  /** The FIFO holds what was let through and not yet taken. */
  lemma {:induction false} HoldsRest(f: Filter, ops: seq<Access>)
    requires NeverEmpty(f, ops)
    ensures TakenBy(f, ops) <= |PassedOf(f, ops)| && Contents(f, ops) == PassedOf(f, ops)[TakenBy(f, ops)..]
  {
    if ops != [] {
      HoldsRest(f, ops[..|ops| - 1]);
      PassedStep(f, ops);
      TakenStep(f, ops);
    }
  }

  /** Each read of the FIFO returned what the scoreboard expects of it. */
  lemma {:induction false} ResultsAreExpected(f: Filter, ops: seq<Access>, passed: seq<nat>)
    requires NeverEmpty(f, ops) && PassedOf(f, ops) <= passed
    ensures ReadsOk(f, passed, Results(f, ops), Arids(ops), |Arids(ops)|)
  {
    if ops != [] {
      var before, op := ops[..|ops| - 1], ops[|ops| - 1];
      PassedStep(f, ops);
      assert PassedOf(f, before) <= PassedOf(f, ops);
      ResultsAreExpected(f, before, passed);
      HoldsRest(f, before);
      var m := |Arids(before)|;
      forall i: nat | i < |Arids(ops)| ensures ReadOk(f, passed, Results(f, ops), Arids(ops), i) {
        TakenPrefix(f, Arids(ops), Arids(before), if i < m then i else m);
        if i < m { assert ReadOk(f, passed, Results(f, before), Arids(before), i); }
      }
    }
  }

  /** For every interleaving of accesses, with as many reads as writes and no allowed read of an empty FIFO,
      the scoreboard accepts exactly the results that the FIFO gives. */
  lemma AcceptsExactly(f: Filter, ops: seq<Access>, readData: seq<nat>)
    requires NeverEmpty(f, ops) && |Written(ops)| == |Arids(ops)|
    ensures Accepts(Written(ops), Awids(ops), readData, Arids(ops), f) <==> readData == Results(f, ops)
  {
    var passed := PassedOf(f, ops);
    var arids := Arids(ops);
    ResultsAreExpected(f, ops, passed);
    if Accepts(Written(ops), Awids(ops), readData, arids, f) {
      forall i: nat | i < |arids| ensures readData[i] == Results(f, ops)[i] {
        assert ReadOk(f, passed, readData, arids, i) && ReadOk(f, passed, Results(f, ops), arids, i);
      }
    }
  }

  /** With fewer IDs than reads the scoreboard looks at no more reads than IDs. */
  lemma ChecksOnlyAsManyAsIds(writeData: seq<nat>, awids: seq<nat>, readData: seq<nat>, other: seq<nat>,
                              arids: seq<nat>, f: Filter)
    requires |readData| == |other| && |arids| <= |readData| && readData[..|arids|] == other[..|arids|]
    ensures Accepts(writeData, awids, readData, arids, f) <==> Accepts(writeData, awids, other, arids, f)
  {
    var passed := if f.off || awids != [] || writeData == [] then Passed(f, writeData, awids, |writeData|) else [];
    forall i: nat | i < |arids|
      ensures ReadOk(f, passed, readData, arids, i) <==> ReadOk(f, passed, other, arids, i)
    {
      assert readData[..|arids|][i] == other[..|arids|][i];
    }
  }

  /** Results that are accepted are the only ones that would be if and only if there is an ID for each. */
  lemma JudgesAllIff(writeData: seq<nat>, awids: seq<nat>, readData: seq<nat>, arids: seq<nat>, f: Filter)
    requires Accepts(writeData, awids, readData, arids, f)
    ensures (forall other: seq<nat> :: Accepts(writeData, awids, other, arids, f) ==> other == readData)
       <==> |arids| >= |readData|
  {
    var passed := Passed(f, writeData, awids, |writeData|);
    if |arids| >= |readData| {
      forall other: seq<nat> | Accepts(writeData, awids, other, arids, f) ensures other == readData {
        forall i: nat | i < |readData| ensures other[i] == readData[i] {
          assert ReadOk(f, passed, readData, arids, i) && ReadOk(f, passed, other, arids, i);
        }
      }
    } else {
      var i := |arids|;
      var other := readData[i := readData[i] + 1];
      ChecksOnlyAsManyAsIds(writeData, awids, readData, other, arids, f);
      assert other[i] != readData[i];
    }
  }
}
