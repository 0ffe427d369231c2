// The circuit breaker of one agent loop (pkg/agent/circuit_breaker.go): it
// caps the L2+ operations of a session and the writes in a row.
module CircuitBreaker {

  datatype BreakerState = Closed | HalfOpen | Open

  /** The breaker as a value. */
  datatype Breaker = Breaker(maxL2Ops: nat, maxConsecWrites: nat,
                             l2Count: nat, consecutiveWrites: nat, totalOps: nat, failedOps: nat,
                             state: BreakerState)

  /** What is done to a breaker, in the order its mutex lets it through. */
  datatype Op = Allow(isWrite: bool, isL2Plus: bool) | Failure | Success | Reset

  /** A limit that is not positive is replaced by its default. */
  function Limit(n: int, default: nat): nat
  {
    if n <= 0 then default else n
  }

  function Fresh(maxL2Ops: nat, maxConsecWrites: nat): Breaker
  {
    Breaker(maxL2Ops, maxConsecWrites, 0, 0, 0, 0, Closed)
  }

  /** The breaker after `op`. */
  function Step(b: Breaker, op: Op): Breaker
  {
    match op
    case Allow(isWrite, isL2Plus) => AfterAllow(b, isWrite, isL2Plus)
    case Failure =>
      b.(failedOps := b.failedOps + 1, state := if b.failedOps + 1 >= 3 && b.l2Count > 0 then Open else b.state)
    case Success => b.(failedOps := 0)
    case Reset => Fresh(b.maxL2Ops, b.maxConsecWrites)
  }

  function AfterAllow(b: Breaker, isWrite: bool, isL2Plus: bool): Breaker
  {
    if isWrite && b.state != Closed then b else
    var c := if isL2Plus then b.(l2Count := b.l2Count + 1) else b;
    if isL2Plus && c.l2Count > c.maxL2Ops then c.(state := Open)
    else if isWrite then
      var d := c.(consecutiveWrites := c.consecutiveWrites + 1, totalOps := c.totalOps + 1);
      if d.consecutiveWrites > d.maxConsecWrites then d.(state := HalfOpen) else d
    else c.(consecutiveWrites := 0, state := if c.state == HalfOpen then Closed else c.state)
  }

  /** Whether `Allow` answers without an error. */
  predicate Admits(b: Breaker, isWrite: bool, isL2Plus: bool)
  {
    && (isWrite ==> b.state == Closed)
    && (isL2Plus ==> b.l2Count + 1 <= b.maxL2Ops)
    && (isWrite ==> b.consecutiveWrites + 1 <= b.maxConsecWrites)
  }

  class CircuitBreaker {
    const maxL2Ops: nat
    const maxConsecWrites: nat

    var l2Count: nat
    var consecutiveWrites: nat
    var totalOps: nat
    var failedOps: nat
    var state: BreakerState

    function Value(): Breaker
      reads this
    {
      Breaker(maxL2Ops, maxConsecWrites, l2Count, consecutiveWrites, totalOps, failedOps, state)
    }

    /** `NewCircuitBreaker` */
    constructor (maxL2Ops: int, maxConsecWrites: int)
      ensures Value() == Fresh(Limit(maxL2Ops, 5), Limit(maxConsecWrites, 3))
    {
      this.maxL2Ops := if maxL2Ops <= 0 then 5 else maxL2Ops;
      this.maxConsecWrites := if maxConsecWrites <= 0 then 3 else maxConsecWrites;
      l2Count, consecutiveWrites, totalOps, failedOps, state := 0, 0, 0, 0, Closed;
    }

    /** `Allow` */
    method Allow(isWrite: bool, isL2Plus: bool) returns (ok: bool)
      modifies this
      ensures Value() == Step(old(Value()), Op.Allow(isWrite, isL2Plus))
      ensures ok == Admits(old(Value()), isWrite, isL2Plus)
    {
      if state == Open && isWrite {
        return false;
      }
      if state == HalfOpen && isWrite {
        return false;
      }
      if isL2Plus {
        l2Count := l2Count + 1;
        if l2Count > maxL2Ops {
          state := Open;
          return false;
        }
      }
      if isWrite {
        consecutiveWrites := consecutiveWrites + 1;
        totalOps := totalOps + 1;
        if consecutiveWrites > maxConsecWrites {
          state := HalfOpen;
          return false;
        }
      } else {
        consecutiveWrites := 0;
        if state == HalfOpen {
          state := Closed;
        }
      }
      return true;
    }

    /** `RecordFailure` */
    method RecordFailure()
      modifies this
      ensures Value() == Step(old(Value()), Failure)
    {
      failedOps := failedOps + 1;
      if failedOps >= 3 && l2Count > 0 {
        state := Open;
      }
    }

    /** `RecordSuccess` */
    method RecordSuccess()
      modifies this
      ensures Value() == Step(old(Value()), Success)
    {
      failedOps := 0;
    }

    /** `Reset` */
    method Reset()
      modifies this
      ensures Value() == Step(old(Value()), Op.Reset)
    {
      l2Count, consecutiveWrites, totalOps, failedOps, state := 0, 0, 0, 0, Closed;
    }
  }

  // ----- Runs -----

  function Run(b: Breaker, ops: seq<Op>): Breaker
  {
    if ops == [] then b else Step(Run(b, ops[..|ops| - 1]), ops[|ops| - 1])
  }

  /** The call at `i` of a run was let through. */
  predicate AdmittedAt(b: Breaker, ops: seq<Op>, i: nat)
    requires i < |ops|
  {
    ops[i].Allow? && Admits(Run(b, ops[..i]), ops[i].isWrite, ops[i].isL2Plus)
  }

  /** How many L2+ calls a run let through. */
  function AdmittedL2(b: Breaker, ops: seq<Op>): nat
  {
    if ops == [] then 0 else
    var n := |ops| - 1;
    AdmittedL2(b, ops[..n]) + if AdmittedAt(b, ops, n) && ops[n].isL2Plus then 1 else 0
  }

  /** How many writes a run let through. */
  function AdmittedWrites(b: Breaker, ops: seq<Op>): nat
  {
    if ops == [] then 0 else
    var n := |ops| - 1;
    AdmittedWrites(b, ops[..n]) + if AdmittedAt(b, ops, n) && ops[n].isWrite then 1 else 0
  }

  /** One more call counts when it is let through. */
  lemma AdmittedL2Snoc(b: Breaker, ops: seq<Op>, op: Op)
    ensures AdmittedL2(b, ops + [op]) ==
            AdmittedL2(b, ops) +
            if op.Allow? && op.isL2Plus && Admits(Run(b, ops), op.isWrite, op.isL2Plus) then 1 else 0
    ensures Run(b, ops + [op]) == Step(Run(b, ops), op)
  {
    assert (ops + [op])[..|ops|] == ops;
  }

  /** What holds of every breaker in use. */
  ghost predicate Sound(b: Breaker)
  {
    && b.maxL2Ops > 0 && b.maxConsecWrites > 0
    && (b.l2Count > b.maxL2Ops ==> b.state == Open)
    && (b.state == Closed ==> b.consecutiveWrites <= b.maxConsecWrites)
    && (b.state == HalfOpen ==> b.consecutiveWrites == b.maxConsecWrites + 1)
  }

  lemma {:induction false} RunIsSound(b: Breaker, ops: seq<Op>)
    requires Sound(b)
    ensures Sound(Run(b, ops))
    ensures Run(b, ops).maxL2Ops == b.maxL2Ops && Run(b, ops).maxConsecWrites == b.maxConsecWrites
  {
    if ops != [] {
      RunIsSound(b, ops[..|ops| - 1]);
    }
  }

  lemma {:induction false} RunSplits(b: Breaker, first: seq<Op>, second: seq<Op>)
    ensures Run(b, first + second) == Run(Run(b, first), second)
    decreases |second|
  {
    if second == [] {
      assert first + second == first;
    } else {
      var n := |second| - 1;
      RunSplits(b, first, second[..n]);
      assert (first + second)[..|first| + n] == first + second[..n];
    }
  }

  /** Where the calls after the last `Reset` begin. */
  function LastReset(ops: seq<Op>): (k: nat)
    ensures k <= |ops| && (k > 0 ==> ops[k - 1] == Op.Reset)
    ensures forall i :: k <= i < |ops| ==> ops[i] != Op.Reset
  {
    if ops == [] then 0 else
    var n := |ops| - 1;
    if ops[n] == Op.Reset then |ops| else
    var k := LastReset(ops[..n]);
    assert forall i :: k <= i < n ==> ops[..n][i] == ops[i];
    k
  }

  /** The calls of a run from its last `Reset` on, or all of them. */
  function SinceReset(ops: seq<Op>): (r: seq<Op>)
    ensures Op.Reset !in r
  {
    ops[LastReset(ops)..]
  }

  lemma {:induction false} LimitsStay(b: Breaker, ops: seq<Op>)
    ensures Run(b, ops).maxL2Ops == b.maxL2Ops && Run(b, ops).maxConsecWrites == b.maxConsecWrites
  {
    if ops != [] {
      LimitsStay(b, ops[..|ops| - 1]);
    }
  }

  /** Only what came after the last `Reset` matters. */
  lemma ResetForgets(maxL2Ops: nat, maxConsecWrites: nat, ops: seq<Op>)
    ensures var b := Fresh(maxL2Ops, maxConsecWrites); Run(b, ops) == Run(b, SinceReset(ops))
  {
    var b, k := Fresh(maxL2Ops, maxConsecWrites), LastReset(ops);
    RunSplits(b, ops[..k], ops[k..]);
    assert ops[..k] + ops[k..] == ops;
    if k > 0 {
      RunToReset(maxL2Ops, maxConsecWrites, ops[..k]);
    }
  }

  lemma RunToReset(maxL2Ops: nat, maxConsecWrites: nat, ops: seq<Op>)
    requires ops != [] && ops[|ops| - 1] == Op.Reset
    ensures Run(Fresh(maxL2Ops, maxConsecWrites), ops) == Fresh(maxL2Ops, maxConsecWrites)
  {
    LimitsStay(Fresh(maxL2Ops, maxConsecWrites), ops[..|ops| - 1]);
  }

  /** Without a `Reset`, the L2+ counter covers every L2+ call let through. */
  lemma {:induction false} L2Counted(b: Breaker, ops: seq<Op>)
    requires b.l2Count <= b.maxL2Ops && Op.Reset !in ops
    ensures Run(b, ops).maxL2Ops == b.maxL2Ops
    ensures b.l2Count + AdmittedL2(b, ops) <= Run(b, ops).l2Count
    ensures b.l2Count + AdmittedL2(b, ops) <= b.maxL2Ops
  {
    if ops != [] {
      var n := |ops| - 1;
      L2Counted(b, ops[..n]);
      assert ops[n] in ops;
      assert ops[..n] <= ops;
    }
  }

  /** Since construction or the last `Reset`, at most `maxL2Ops` L2+ calls were let through. */
  lemma L2Bounded(maxL2Ops: nat, maxConsecWrites: nat, ops: seq<Op>)
    ensures AdmittedL2(Fresh(maxL2Ops, maxConsecWrites), SinceReset(ops)) <= maxL2Ops
  {
    L2Counted(Fresh(maxL2Ops, maxConsecWrites), SinceReset(ops));
  }

  /** No call that is not a write was let through, and there was no `Reset`. */
  ghost predicate OnlyWritesPass(b: Breaker, ops: seq<Op>)
  {
    forall i :: 0 <= i < |ops| ==> ops[i] != Op.Reset && (AdmittedAt(b, ops, i) ==> ops[i].isWrite)
  }

  lemma {:induction false} WritesCounted(b: Breaker, ops: seq<Op>)
    requires OnlyWritesPass(b, ops)
    ensures Run(b, ops).maxConsecWrites == b.maxConsecWrites
    ensures Run(b, ops).consecutiveWrites >= b.consecutiveWrites + AdmittedWrites(b, ops)
    ensures AdmittedWrites(b, ops) == 0 || b.consecutiveWrites + AdmittedWrites(b, ops) <= b.maxConsecWrites
  {
    if ops != [] {
      var n := |ops| - 1;
      assert forall i :: 0 <= i < n ==> ops[..n][..i] == ops[..i] && ops[..n][i] == ops[i];
      assert forall i :: 0 <= i < n ==> AdmittedAt(b, ops[..n], i) == AdmittedAt(b, ops, i);
      WritesCounted(b, ops[..n]);
      assert ops[n] != Op.Reset;
      assert AdmittedAt(b, ops, n) ==> ops[n].isWrite;
    }
  }

  /** At most `maxConsecWrites` writes are let through between two other calls let through. */
  lemma WritesBounded(maxL2Ops: nat, maxConsecWrites: nat, before: seq<Op>, ops: seq<Op>)
    requires OnlyWritesPass(Run(Fresh(maxL2Ops, maxConsecWrites), before), ops)
    ensures AdmittedWrites(Run(Fresh(maxL2Ops, maxConsecWrites), before), ops) <= maxConsecWrites
  {
    LimitsStay(Fresh(maxL2Ops, maxConsecWrites), before);
    WritesCounted(Run(Fresh(maxL2Ops, maxConsecWrites), before), ops);
  }

  /** An open breaker stays open, and lets no write through, until it is reset. */
  lemma {:induction false} OpenBlocksWrites(b: Breaker, ops: seq<Op>)
    requires b.state == Open && Op.Reset !in ops
    ensures Run(b, ops).state == Open && AdmittedWrites(b, ops) == 0
  {
    if ops != [] {
      var n := |ops| - 1;
      OpenBlocksWrites(b, ops[..n]);
      assert ops[n] in ops;
    }
  }

  /** A plain read is let through in every state, and ends a row of writes: in a breaker that is not open, a write
      below L2 is let through right after it. */
  lemma ReadReopens(b: Breaker)
    requires Sound(b)
    ensures Admits(b, false, false)
    ensures Admits(Step(b, Allow(false, false)), true, false) <==> b.state != Open
  {
  }

  // ----- What is let through -----

  /** The L2+ calls of a run. */
  function L2Calls(ops: seq<Op>): nat
  {
    if ops == [] then 0 else
    L2Calls(ops[..|ops| - 1]) + if ops[|ops| - 1].Allow? && ops[|ops| - 1].isL2Plus then 1 else 0
  }

  /** The writes at the end of a run, with no other call among them. */
  function WritesInARow(ops: seq<Op>): nat
  {
    if ops == [] || !ops[|ops| - 1].Allow? || !ops[|ops| - 1].isWrite then 0 else WritesInARow(ops[..|ops| - 1]) + 1
  }

  ghost predicate AllAdmitted(b: Breaker, ops: seq<Op>)
  {
    forall i :: 0 <= i < |ops| ==> AdmittedAt(b, ops, i)
  }

  /** At most so many L2+ calls, and nowhere more writes in a row than that. */
  ghost predicate WithinLimits(maxL2Ops: nat, maxConsecWrites: nat, ops: seq<Op>)
  {
    L2Calls(ops) <= maxL2Ops && forall i :: 0 <= i <= |ops| ==> WritesInARow(ops[..i]) <= maxConsecWrites
  }

  lemma LimitsOfFront(maxL2Ops: nat, maxConsecWrites: nat, ops: seq<Op>)
    requires ops != []
    ensures var front := ops[..|ops| - 1];
      WithinLimits(maxL2Ops, maxConsecWrites, ops) <==>
      WithinLimits(maxL2Ops, maxConsecWrites, front) && L2Calls(ops) <= maxL2Ops && WritesInARow(ops) <= maxConsecWrites
  {
    var n := |ops| - 1;
    assert ops[..n + 1] == ops;
    assert forall i :: 0 <= i <= n ==> ops[..n][..i] == ops[..i];
  }

  lemma AdmittedOfFront(b: Breaker, ops: seq<Op>)
    requires ops != []
    ensures AllAdmitted(b, ops) <==> AllAdmitted(b, ops[..|ops| - 1]) && AdmittedAt(b, ops, |ops| - 1)
  {
    var n := |ops| - 1;
    forall i | 0 <= i < n
      ensures AdmittedAt(b, ops, i) == AdmittedAt(b, ops[..n], i)
    {
      assert ops[..n][..i] == ops[..i];
    }
  }

  /** A new or reset breaker lets every call of a run through exactly when the run keeps to both limits; until then it
      is closed and counts each call. */
  lemma {:induction false} AllAdmittedIff(maxL2Ops: nat, maxConsecWrites: nat, ops: seq<Op>)
    requires forall i :: 0 <= i < |ops| ==> ops[i].Allow?
    ensures var b := Fresh(maxL2Ops, maxConsecWrites);
      && (AllAdmitted(b, ops) <==> WithinLimits(maxL2Ops, maxConsecWrites, ops))
      && (AllAdmitted(b, ops) ==>
            Run(b, ops).(totalOps := 0) ==
            Breaker(maxL2Ops, maxConsecWrites, L2Calls(ops), WritesInARow(ops), 0, 0, Closed))
  {
    if ops != [] {
      AllAdmittedIff(maxL2Ops, maxConsecWrites, ops[..|ops| - 1]);
      LimitsOfFront(maxL2Ops, maxConsecWrites, ops);
      AdmittedOfFront(Fresh(maxL2Ops, maxConsecWrites), ops);
    }
  }

  // ----- What opens the breaker -----

  /** The L2+ calls of a run that got past the state test, let through or not. */
  function CountedL2(b: Breaker, ops: seq<Op>): nat
  {
    if ops == [] then 0 else
    var n := |ops| - 1;
    CountedL2(b, ops[..n]) +
      if ops[n].Allow? && ops[n].isL2Plus && (ops[n].isWrite ==> Run(b, ops[..n]).state == Closed) then 1 else 0
  }

  /** The failures at the end of a run, with no success among them. */
  function FailuresInARow(ops: seq<Op>): nat
  {
    if ops == [] || ops[|ops| - 1] == Success then 0
    else FailuresInARow(ops[..|ops| - 1]) + if ops[|ops| - 1] == Failure then 1 else 0
  }

  /** The operation at `n` pushes the breaker open: one L2+ call too many, or a third failure after an L2+ call. */
  ghost predicate Trips(b: Breaker, ops: seq<Op>, n: nat)
    requires n < |ops|
  {
    || (ops[n].Allow? && CountedL2(b, ops[..n + 1]) == CountedL2(b, ops[..n]) + 1
        && CountedL2(b, ops[..n + 1]) > b.maxL2Ops)
    || (ops[n] == Failure && FailuresInARow(ops[..n + 1]) >= 3 && CountedL2(b, ops[..n]) > 0)
  }

  lemma {:induction false} CountersCount(maxL2Ops: nat, maxConsecWrites: nat, ops: seq<Op>)
    requires Op.Reset !in ops
    ensures var b := Fresh(maxL2Ops, maxConsecWrites);
      Run(b, ops).l2Count == CountedL2(b, ops) && Run(b, ops).failedOps == FailuresInARow(ops)
      && Run(b, ops).maxL2Ops == maxL2Ops
  {
    if ops != [] {
      CountersCount(maxL2Ops, maxConsecWrites, ops[..|ops| - 1]);
      assert ops[|ops| - 1] in ops;
    }
  }

  /** A breaker is open exactly when some operation since the last `Reset` tripped it. */
  lemma {:induction false} OpenIffTripped(maxL2Ops: nat, maxConsecWrites: nat, ops: seq<Op>)
    requires Op.Reset !in ops
    ensures Run(Fresh(maxL2Ops, maxConsecWrites), ops).state == Open <==>
            exists n :: 0 <= n < |ops| && Trips(Fresh(maxL2Ops, maxConsecWrites), ops, n)
  {
    var b := Fresh(maxL2Ops, maxConsecWrites);
    if ops != [] {
      var n := |ops| - 1;
      var front := ops[..n];
      OpenIffTripped(maxL2Ops, maxConsecWrites, front);
      CountersCount(maxL2Ops, maxConsecWrites, front);
      CountersCount(maxL2Ops, maxConsecWrites, ops);
      assert ops[..n + 1] == ops && ops[n] in ops;
      forall i | 0 <= i < n
        ensures Trips(b, ops, i) == Trips(b, front, i)
      {
        assert front[..i] == ops[..i] && front[..i + 1] == ops[..i + 1];
      }
      assert Run(b, ops).state == Open <==> Run(b, front).state == Open || Trips(b, ops, n);
    }
  }

  /** Nothing but calls of `Allow`, with every L2+ call a write. */
  ghost predicate OnlyCalls(ops: seq<Op>)
  {
    forall i :: 0 <= i < |ops| ==> ops[i].Allow? && (ops[i].isL2Plus ==> ops[i].isWrite)
  }

  lemma OnlyCallsAppend(first: seq<Op>, second: seq<Op>)
    requires OnlyCalls(first) && OnlyCalls(second)
    ensures OnlyCalls(first + second)
  {
  }

  /** Used for calls alone, the breaker is open exactly when one L2+ call more than the limit was counted, none is
      counted after that one, and the failure rule plays no part. */
  lemma {:induction false} OpenIffOverLimit(maxL2Ops: nat, maxConsecWrites: nat, ops: seq<Op>)
    requires OnlyCalls(ops)
    ensures var b := Fresh(maxL2Ops, maxConsecWrites);
      (Run(b, ops).state == Open <==> CountedL2(b, ops) > maxL2Ops) && CountedL2(b, ops) <= maxL2Ops + 1
      && Run(b, ops).failedOps == 0
  {
    if ops != [] {
      var n := |ops| - 1;
      OpenIffOverLimit(maxL2Ops, maxConsecWrites, ops[..n]);
      CountersCount(maxL2Ops, maxConsecWrites, ops[..n]);
      assert ops[n].Allow?;
    }
  }
}
