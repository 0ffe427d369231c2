// How the agent loop executes the tool calls of one reply (executeTools and
// executeSingleTool in pkg/agent/loop.go). The model, the security gateway, the
// user, the snapshotter and the tools answer through functions of the position
// of the call, so every possible behaviour of theirs is covered.
module CallExecution {
  import opened CircuitBreaker

  /** `Other` is any level outside the five: a write, but not L2+. */
  datatype Risk = L0 | L1 | L2 | L3 | L4 | Other

  /** A parsed tool call; `namesResource` says that its arguments name a resource a snapshot can be taken of. */
  datatype Call = Call(name: string, arguments: string, id: string, namesResource: bool)

  /** The gateway's answer, with the user's where it asks for one. */
  datatype Verdict = EvaluationError | Denied | NeedsConfirmation(confirmed: bool) | Allowed

  datatype Outcome = BreakerBlocked | EvaluationFailed | SecurityBlocked | CancelledByUser
                   | NotFound | DryRun | Ran(ok: bool)

  datatype ExecResult = ExecResult(toolName: string, arguments: string, callId: string, outcome: Outcome)

  /** What the loop does to the outside while it executes calls. */
  datatype Effect = Captured(call: Call, ok: bool) | Executed(call: Call, risk: Risk, ok: bool) | Restored(call: Call)

  /** What stays the same while the loop executes. */
  datatype Setup = Setup(dryRun: bool, autoSnapshot: bool, autoRollback: bool,
                         hasGateway: bool, hasHandler: bool, hasSnapshotter: bool, registry: map<string, Risk>)

  /** What the outside answers for the call at position `j` of a reply. */
  datatype Answers = Answers(verdict: nat -> Verdict, snapshotOk: nat -> bool, toolOk: nat -> bool)

  predicate IsWrite(s: Setup, c: Call)
  {
    c.name in s.registry && s.registry[c.name] != L0
  }

  predicate IsL2Plus(s: Setup, c: Call)
  {
    c.name in s.registry && RiskIsL2Plus(s.registry[c.name])
  }

  predicate RiskIsL2Plus(r: Risk)
  {
    r == L2 || r == L3 || r == L4
  }

  /** The question the breaker is asked about a call; an unknown tool counts as a read. */
  function Asked(s: Setup, c: Call): Op
  {
    Op.Allow(IsWrite(s, c), IsL2Plus(s, c))
  }

  /** The gateway, and the user where asked, let the call pass. */
  predicate Cleared(s: Setup, v: Verdict)
  {
    s.hasGateway ==> v == Allowed || (v == NeedsConfirmation(true) && s.hasHandler)
  }

  predicate TakesSnapshot(s: Setup, c: Call)
  {
    s.autoSnapshot && s.hasSnapshotter && c.name in s.registry &&
    (s.registry[c.name] == L2 || s.registry[c.name] == L3) && c.namesResource
  }

  function OutcomeOf(s: Setup, admitted: bool, c: Call, v: Verdict, toolOk: bool): Outcome
  {
    if !admitted then BreakerBlocked
    else if s.hasGateway && v == EvaluationError then EvaluationFailed
    else if s.hasGateway && v == Denied then SecurityBlocked
    else if !Cleared(s, v) then CancelledByUser
    else if c.name !in s.registry then NotFound
    else if s.dryRun && s.registry[c.name] != L0 then DryRun
    else Ran(toolOk)
  }

  /** The result reported for a call. A failed risk evaluation is reported without the call's id. */
  function Report(c: Call, o: Outcome): ExecResult
  {
    ExecResult(c.name, c.arguments, if o == EvaluationFailed then "" else c.id, o)
  }

  /** The snapshot taken before a call, if any. */
  function Capture(s: Setup, c: Call, snapshotOk: bool): seq<Effect>
  {
    if TakesSnapshot(s, c) then [Captured(c, snapshotOk)] else []
  }

  function EffectsOf(s: Setup, c: Call, o: Outcome, snapshotOk: bool): seq<Effect>
  {
    match o
    case Ran(ok) =>
      Capture(s, c, snapshotOk) +
      (if c.name in s.registry then [Executed(c, s.registry[c.name], ok)] else []) +
      (if !ok && s.autoRollback && TakesSnapshot(s, c) && snapshotOk then [Restored(c)] else [])
    case NotFound => Capture(s, c, snapshotOk)
    case DryRun => Capture(s, c, snapshotOk)
    case _ => []
  }

  /** What executing a list of calls amounts to. */
  datatype Batch = Batch(breaker: Breaker, ops: seq<Op>, results: seq<ExecResult>, effects: seq<Effect>)

  function HandleCall(s: Setup, b: Batch, c: Call, v: Verdict, snapshotOk: bool, toolOk: bool): Batch
  {
    var op := Asked(s, c);
    var o := OutcomeOf(s, Admits(b.breaker, op.isWrite, op.isL2Plus), c, v, toolOk);
    Batch(Step(b.breaker, op), b.ops + [op], b.results + [Report(c, o)], b.effects + EffectsOf(s, c, o, snapshotOk))
  }

  /** The first `n` calls. */
  function HandleCalls(s: Setup, b: Breaker, calls: seq<Call>, a: Answers, n: nat): (r: Batch)
    requires n <= |calls|
    ensures |r.results| == |r.ops| == n
  {
    if n == 0 then Batch(b, [], [], [])
    else HandleCall(s, HandleCalls(s, b, calls, a, n - 1), calls[n - 1],
                    a.verdict(n - 1), a.snapshotOk(n - 1), a.toolOk(n - 1))
  }

  function ExecuteCalls(s: Setup, b: Breaker, calls: seq<Call>, a: Answers): Batch
  {
    HandleCalls(s, b, calls, a, |calls|)
  }

  // ----- One result per call, and what runs -----

  function AskedAll(s: Setup, calls: seq<Call>): (r: seq<Op>)
    ensures |r| == |calls| && forall j :: 0 <= j < |calls| ==> r[j] == Asked(s, calls[j])
  {
    seq(|calls|, j requires 0 <= j < |calls| => Asked(s, calls[j]))
  }

  /** The breaker is asked about every call, in order. */
  lemma {:induction false} AsksAll(s: Setup, b: Breaker, calls: seq<Call>, a: Answers, n: nat)
    requires n <= |calls|
    ensures HandleCalls(s, b, calls, a, n).ops == AskedAll(s, calls[..n])
  {
    if n > 0 {
      AsksAll(s, b, calls, a, n - 1);
      assert AskedAll(s, calls[..n]) == AskedAll(s, calls[..n - 1]) + [Asked(s, calls[n - 1])];
    }
  }

  lemma {:induction false} BatchIsRun(s: Setup, b: Breaker, calls: seq<Call>, a: Answers, n: nat)
    requires n <= |calls|
    ensures HandleCalls(s, b, calls, a, n).breaker == Run(b, HandleCalls(s, b, calls, a, n).ops)
  {
    if n > 0 {
      BatchIsRun(s, b, calls, a, n - 1);
      AdmittedL2Snoc(b, HandleCalls(s, b, calls, a, n - 1).ops, Asked(s, calls[n - 1]));
    }
  }

  /** The outcome of the call at `j`, given what the calls before it did to the breaker. */
  function OutcomeAt(s: Setup, b: Breaker, calls: seq<Call>, a: Answers, j: nat): Outcome
    requires j < |calls|
  {
    var h, op := HandleCalls(s, b, calls, a, j), Asked(s, calls[j]);
    OutcomeOf(s, Admits(h.breaker, op.isWrite, op.isL2Plus), calls[j], a.verdict(j), a.toolOk(j))
  }

  lemma {:induction false} ResultAt(s: Setup, b: Breaker, calls: seq<Call>, a: Answers, n: nat, j: nat)
    requires j < n <= |calls|
    ensures HandleCalls(s, b, calls, a, n).results[j] == Report(calls[j], OutcomeAt(s, b, calls, a, j))
  {
    if j < n - 1 {
      ResultAt(s, b, calls, a, n - 1, j);
    }
  }

  lemma AdmittedAsked(s: Setup, b: Breaker, calls: seq<Call>, a: Answers, j: nat)
    requires j < |calls|
    ensures AdmittedAt(b, AskedAll(s, calls), j) <==>
            Admits(HandleCalls(s, b, calls, a, j).breaker, IsWrite(s, calls[j]), IsL2Plus(s, calls[j]))
  {
    AsksAll(s, b, calls, a, j);
    BatchIsRun(s, b, calls, a, j);
    assert AskedAll(s, calls)[..j] == AskedAll(s, calls[..j]);
  }

  /** Every call has one result, in order; it carries the call's id unless risk evaluation failed. */
  ghost predicate AnswersCalls(calls: seq<Call>, results: seq<ExecResult>)
  {
    |results| == |calls| &&
    forall j :: 0 <= j < |calls| ==> AnswersCall(calls[j], results[j])
  }

  predicate AnswersCall(c: Call, r: ExecResult)
  {
    r.toolName == c.name && r.arguments == c.arguments &&
    r.callId == if r.outcome == EvaluationFailed then "" else c.id
  }

  lemma AnswersAppend(c1: seq<Call>, r1: seq<ExecResult>, c2: seq<Call>, r2: seq<ExecResult>)
    requires AnswersCalls(c1, r1) && AnswersCalls(c2, r2)
    ensures AnswersCalls(c1 + c2, r1 + r2)
  {
  }

  lemma ResultsAnswerCalls(s: Setup, b: Breaker, calls: seq<Call>, a: Answers)
    ensures AnswersCalls(calls, ExecuteCalls(s, b, calls, a).results)
  {
    forall j | 0 <= j < |calls|
      ensures AnswersCall(calls[j], ExecuteCalls(s, b, calls, a).results[j])
    {
      ResultAt(s, b, calls, a, |calls|, j);
    }
  }

  /** A call runs exactly when its tool is known, the breaker admits it after the calls before it, the gateway and the
      user clear it, and a dry run does not hold it back. */
  lemma RunsIff(s: Setup, b: Breaker, calls: seq<Call>, a: Answers, j: nat)
    requires j < |calls|
    ensures ExecuteCalls(s, b, calls, a).results[j].outcome.Ran? <==>
            && calls[j].name in s.registry
            && AdmittedAt(b, AskedAll(s, calls), j)
            && Cleared(s, a.verdict(j))
            && (s.dryRun ==> s.registry[calls[j].name] == L0)
  {
    ResultAt(s, b, calls, a, |calls|, j);
    AdmittedAsked(s, b, calls, a, j);
    OutcomeRuns(s, AdmittedAt(b, AskedAll(s, calls), j), calls[j], a.verdict(j), a.toolOk(j));
  }

  lemma OutcomeRuns(s: Setup, admitted: bool, c: Call, v: Verdict, toolOk: bool)
    ensures OutcomeOf(s, admitted, c, v, toolOk).Ran? <==>
            admitted && c.name in s.registry && Cleared(s, v) && (s.dryRun ==> s.registry[c.name] == L0)
  {
  }

  /** Which result each call gets, of all that can become of it. */
  lemma OutcomesAre(s: Setup, b: Breaker, calls: seq<Call>, a: Answers, j: nat)
    requires j < |calls|
    ensures var c, r := calls[j], ExecuteCalls(s, b, calls, a).results[j].outcome;
      var v, known := a.verdict(j), c.name in s.registry;
      var admitted := AdmittedAt(b, AskedAll(s, calls), j);
      var cleared := !s.hasGateway || v == Allowed || (v.NeedsConfirmation? && s.hasHandler && v.confirmed);
      && (r == BreakerBlocked <==> !admitted)
      && (r == EvaluationFailed <==> admitted && s.hasGateway && v == EvaluationError)
      && (r == SecurityBlocked <==> admitted && s.hasGateway && v == Denied)
      && (r == CancelledByUser <==> admitted && s.hasGateway && v.NeedsConfirmation? && !(s.hasHandler && v.confirmed))
      && (r == NotFound <==> admitted && cleared && !known)
      && (r == DryRun <==> admitted && cleared && known && s.dryRun && s.registry[c.name] != L0)
      && (r.Ran? ==> r.ok == a.toolOk(j))
    ensures var c := calls[j];
      AskedAll(s, calls)[j] == if c.name !in s.registry then Op.Allow(false, false)
                               else Op.Allow(s.registry[c.name] != L0, s.registry[c.name] in {L2, L3, L4})
  {
    ResultAt(s, b, calls, a, |calls|, j);
    AdmittedAsked(s, b, calls, a, j);
  }

  /** The tools that ran, in order. */
  function ExecutedCalls(effects: seq<Effect>): seq<(Call, bool)>
  {
    if effects == [] then [] else
    var e := effects[|effects| - 1];
    ExecutedCalls(effects[..|effects| - 1]) + if e.Executed? then [(e.call, e.ok)] else []
  }

  /** The calls whose results say that they ran. */
  function ReportedRuns(calls: seq<Call>, results: seq<ExecResult>): seq<(Call, bool)>
    requires |calls| == |results|
  {
    if calls == [] then [] else
    var n := |calls| - 1;
    ReportedRuns(calls[..n], results[..n]) + if results[n].outcome.Ran? then [(calls[n], results[n].outcome.ok)] else []
  }

  lemma {:induction false} RanAppend(a: seq<Effect>, b: seq<Effect>)
    ensures ExecutedCalls(a + b) == ExecutedCalls(a) + ExecutedCalls(b)
    decreases |b|
  {
    if b == [] {
      assert a + b == a;
    } else {
      RanAppend(a, b[..|b| - 1]);
      assert (a + b)[..|a| + |b| - 1] == a + b[..|b| - 1];
    }
  }

  lemma RanOne(e: Effect)
    ensures ExecutedCalls([e]) == if e.Executed? then [(e.call, e.ok)] else []
  {
    assert [e][..0] == [];
  }

  lemma RanOfCall(s: Setup, c: Call, o: Outcome, snapshotOk: bool)
    requires o.Ran? ==> c.name in s.registry
    ensures ExecutedCalls(EffectsOf(s, c, o, snapshotOk)) == if o.Ran? then [(c, o.ok)] else []
  {
    if o.Ran? {
      var first := Capture(s, c, snapshotOk);
      var second := if c.name in s.registry then [Executed(c, s.registry[c.name], o.ok)] else [];
      var third := if !o.ok && s.autoRollback && TakesSnapshot(s, c) && snapshotOk then [Restored(c)] else [];
      RanAppend(first + second, third);
      RanAppend(first, second);
      if first != [] { RanOne(first[0]); }
      if second != [] { RanOne(second[0]); }
      if third != [] { RanOne(third[0]); }
    } else if TakesSnapshot(s, c) {
      RanOne(Captured(c, snapshotOk));
    }
  }

  /** The results tell exactly which tools ran: nothing runs unreported, and nothing is reported that did not run. */
  ghost predicate Truthful(calls: seq<Call>, h: Batch)
  {
    |h.results| == |calls| && ExecutedCalls(h.effects) == ReportedRuns(calls, h.results)
  }

  lemma ReportStep(s: Setup, before: Batch, calls: seq<Call>, c: Call, v: Verdict, snapshotOk: bool, toolOk: bool)
    requires Truthful(calls, before)
    ensures Truthful(calls + [c], HandleCall(s, before, c, v, snapshotOk, toolOk))
  {
    var h, op := HandleCall(s, before, c, v, snapshotOk, toolOk), Asked(s, c);
    var o := OutcomeOf(s, Admits(before.breaker, op.isWrite, op.isL2Plus), c, v, toolOk);
    assert h.results[..|calls|] == before.results && (calls + [c])[..|calls|] == calls;
    RanAppend(before.effects, EffectsOf(s, c, o, snapshotOk));
    RanOfCall(s, c, o, snapshotOk);
  }

  lemma {:induction false} ReportsAreTrue(s: Setup, b: Breaker, calls: seq<Call>, a: Answers, n: nat)
    requires n <= |calls|
    ensures Truthful(calls[..n], HandleCalls(s, b, calls, a, n))
  {
    if n > 0 {
      var before, c := HandleCalls(s, b, calls, a, n - 1), calls[n - 1];
      assert Truthful(calls[..n - 1], before) by {
        ReportsAreTrue(s, b, calls, a, n - 1);
      }
      assert calls[..n] == calls[..n - 1] + [c];
      ReportStep(s, before, calls[..n - 1], c, a.verdict(n - 1), a.snapshotOk(n - 1), a.toolOk(n - 1));
    }
  }

  // ----- Limits on what runs -----

  /** How many L2+ tools ran. */
  function L2Runs(effects: seq<Effect>): nat
  {
    if effects == [] then 0 else
    var e := effects[|effects| - 1];
    L2Runs(effects[..|effects| - 1]) + if e.Executed? && RiskIsL2Plus(e.risk) then 1 else 0
  }

  lemma {:induction false} L2RunsAppend(a: seq<Effect>, b: seq<Effect>)
    ensures L2Runs(a + b) == L2Runs(a) + L2Runs(b)
    decreases |b|
  {
    if b == [] {
      assert a + b == a;
    } else {
      L2RunsAppend(a, b[..|b| - 1]);
      assert (a + b)[..|a| + |b| - 1] == a + b[..|b| - 1];
    }
  }

  lemma L2RunsOne(e: Effect)
    ensures L2Runs([e]) == if e.Executed? && RiskIsL2Plus(e.risk) then 1 else 0
  {
    assert [e][..0] == [];
  }

  lemma L2RunsOfCall(s: Setup, c: Call, o: Outcome, snapshotOk: bool)
    ensures L2Runs(EffectsOf(s, c, o, snapshotOk)) == if o.Ran? && IsL2Plus(s, c) then 1 else 0
  {
    if o.Ran? {
      var first := Capture(s, c, snapshotOk);
      var second := if c.name in s.registry then [Executed(c, s.registry[c.name], o.ok)] else [];
      var third := if !o.ok && s.autoRollback && TakesSnapshot(s, c) && snapshotOk then [Restored(c)] else [];
      L2RunsAppend(first + second, third);
      L2RunsAppend(first, second);
      if first != [] { L2RunsOne(first[0]); }
      if second != [] { L2RunsOne(second[0]); }
      if third != [] { L2RunsOne(third[0]); }
    } else if TakesSnapshot(s, c) {
      L2RunsOne(Captured(c, snapshotOk));
    }
  }

  /** The L2+ tools that ran are among the L2+ calls that the breaker `b` admitted. */
  ghost predicate L2RunsCounted(b: Breaker, batch: Batch)
  {
    && batch.breaker == Run(b, batch.ops) && OnlyCalls(batch.ops)
    && L2Runs(batch.effects) <= AdmittedL2(b, batch.ops)
  }

  lemma L2RunsStep(s: Setup, b: Breaker, before: Batch, c: Call, v: Verdict, snapshotOk: bool, toolOk: bool)
    requires L2RunsCounted(b, before)
    ensures L2RunsCounted(b, HandleCall(s, before, c, v, snapshotOk, toolOk))
  {
    var op := Asked(s, c);
    var o := OutcomeOf(s, Admits(before.breaker, op.isWrite, op.isL2Plus), c, v, toolOk);
    AdmittedL2Snoc(b, before.ops, op);
    L2RunsAppend(before.effects, EffectsOf(s, c, o, snapshotOk));
    L2RunsOfCall(s, c, o, snapshotOk);
  }

  lemma {:induction false} L2RunsAdmitted(s: Setup, b: Breaker, calls: seq<Call>, a: Answers, n: nat)
    requires n <= |calls|
    ensures L2RunsCounted(b, HandleCalls(s, b, calls, a, n))
  {
    if n > 0 {
      L2RunsAdmitted(s, b, calls, a, n - 1);
      L2RunsStep(s, b, HandleCalls(s, b, calls, a, n - 1), calls[n - 1],
                 a.verdict(n - 1), a.snapshotOk(n - 1), a.toolOk(n - 1));
    }
  }

  /** Only L0 tools run, and nothing is rolled back. */
  ghost predicate OnlyReadsRun(effects: seq<Effect>)
  {
    forall i :: 0 <= i < |effects| ==> Harmless(effects[i])
  }

  predicate Harmless(e: Effect)
  {
    (e.Executed? ==> e.risk == L0) && !e.Restored?
  }

  lemma DryRunCall(s: Setup, admitted: bool, c: Call, v: Verdict, snapshotOk: bool, toolOk: bool)
    requires s.dryRun
    ensures OnlyReadsRun(EffectsOf(s, c, OutcomeOf(s, admitted, c, v, toolOk), snapshotOk))
  {
  }

  lemma {:induction false} DryRunOnlyReads(s: Setup, b: Breaker, calls: seq<Call>, a: Answers, n: nat)
    requires n <= |calls| && s.dryRun
    ensures OnlyReadsRun(HandleCalls(s, b, calls, a, n).effects)
  {
    if n > 0 {
      DryRunOnlyReads(s, b, calls, a, n - 1);
      var before, op := HandleCalls(s, b, calls, a, n - 1), Asked(s, calls[n - 1]);
      DryRunCall(s, Admits(before.breaker, op.isWrite, op.isL2Plus), calls[n - 1],
                 a.verdict(n - 1), a.snapshotOk(n - 1), a.toolOk(n - 1));
    }
  }

  // ----- Rollback -----

  /** A rollback comes right after a run of the same call that failed, which comes right after its snapshot. */
  ghost predicate RollsBackFailures(effects: seq<Effect>)
  {
    forall i :: 0 <= i < |effects| ==> effects[i].Restored? ==>
      i >= 2 && RestoresAt(effects, i)
  }

  ghost predicate RestoresAt(effects: seq<Effect>, i: nat)
    requires 2 <= i < |effects|
  {
    && effects[i] == Restored(effects[i].call)
    && effects[i - 1].Executed? && effects[i - 1].call == effects[i].call && !effects[i - 1].ok
    && effects[i - 2] == Captured(effects[i].call, true)
  }

  lemma RollbackAppend(a: seq<Effect>, b: seq<Effect>)
    requires RollsBackFailures(a) && RollsBackFailures(b)
    ensures RollsBackFailures(a + b)
  {
    var c := a + b;
    forall i | 0 <= i < |c| && c[i].Restored?
      ensures i >= 2 && RestoresAt(c, i)
    {
      if i < |a| {
        assert RestoresAt(a, i);
      } else {
        assert b[i - |a|].Restored?;
        assert RestoresAt(b, i - |a|);
      }
    }
  }

  lemma {:induction false} RollbackIsOrderly(s: Setup, b: Breaker, calls: seq<Call>, a: Answers, n: nat)
    requires n <= |calls|
    ensures RollsBackFailures(HandleCalls(s, b, calls, a, n).effects)
  {
    if n > 0 {
      RollbackIsOrderly(s, b, calls, a, n - 1);
      var o := HandleCalls(s, b, calls, a, n).results[n - 1].outcome;
      RollbackAppend(HandleCalls(s, b, calls, a, n - 1).effects, EffectsOf(s, calls[n - 1], o, a.snapshotOk(n - 1)));
    }
  }

  // ----- What is done for one call -----

  lemma {:induction false} EffectsGrow(s: Setup, b: Breaker, calls: seq<Call>, a: Answers, j: nat, n: nat)
    requires j <= n <= |calls|
    ensures HandleCalls(s, b, calls, a, j).effects <= HandleCalls(s, b, calls, a, n).effects
  {
    if j < n {
      EffectsGrow(s, b, calls, a, j, n - 1);
    }
  }

  /** Where in the effects what is done for call `j` begins. */
  function EffectsFrom(s: Setup, b: Breaker, calls: seq<Call>, a: Answers, j: nat): nat
    requires j <= |calls|
  {
    |HandleCalls(s, b, calls, a, j).effects|
  }

  /** What is done for call `j`: the effects up to where what is done for the next one begins. */
  ghost function DoneFor(s: Setup, b: Breaker, calls: seq<Call>, a: Answers, j: nat): seq<Effect>
    requires j < |calls|
  {
    EffectsGrow(s, b, calls, a, j, j + 1);
    EffectsGrow(s, b, calls, a, j + 1, |calls|);
    ExecuteCalls(s, b, calls, a).effects[EffectsFrom(s, b, calls, a, j)..EffectsFrom(s, b, calls, a, j + 1)]
  }

  lemma DoneInBatch(s: Setup, b: Breaker, calls: seq<Call>, a: Answers, j: nat)
    requires j < |calls|
    ensures IsPart(ExecuteCalls(s, b, calls, a).effects, EffectsFrom(s, b, calls, a, j), DoneFor(s, b, calls, a, j))
  {
    EffectsGrow(s, b, calls, a, j, j + 1);
    EffectsGrow(s, b, calls, a, j + 1, |calls|);
    var from, upTo := EffectsFrom(s, b, calls, a, j), EffectsFrom(s, b, calls, a, j + 1);
    SliceIsPart(ExecuteCalls(s, b, calls, a).effects, from, upTo);
  }

  /** `part` stands in `all` at position `at`. */
  ghost predicate IsPart(all: seq<Effect>, at: nat, part: seq<Effect>)
  {
    at + |part| <= |all| && all[at..at + |part|] == part
  }

  lemma SliceIsPart(all: seq<Effect>, from: nat, upTo: nat)
    requires from <= upTo <= |all|
    ensures IsPart(all, from, all[from..upTo])
  {
  }

  lemma DoneIsEffects(s: Setup, b: Breaker, calls: seq<Call>, a: Answers, j: nat)
    requires j < |calls|
    ensures var o := ExecuteCalls(s, b, calls, a).results[j].outcome;
      DoneFor(s, b, calls, a, j) == EffectsOf(s, calls[j], o, a.snapshotOk(j))
  {
    ResultAt(s, b, calls, a, |calls|, j);
    EffectsGrow(s, b, calls, a, j + 1, |calls|);
    NextEffects(s, b, calls, a, j);
    MiddlePart(HandleCalls(s, b, calls, a, j).effects,
               EffectsOf(s, calls[j], OutcomeAt(s, b, calls, a, j), a.snapshotOk(j)),
               ExecuteCalls(s, b, calls, a).effects);
  }

  lemma NextEffects(s: Setup, b: Breaker, calls: seq<Call>, a: Answers, j: nat)
    requires j < |calls|
    ensures HandleCalls(s, b, calls, a, j + 1).effects == HandleCalls(s, b, calls, a, j).effects +
            EffectsOf(s, calls[j], OutcomeAt(s, b, calls, a, j), a.snapshotOk(j))
  {
  }

  lemma MiddlePart(before: seq<Effect>, part: seq<Effect>, all: seq<Effect>)
    requires before + part <= all
    ensures all[|before|..|before + part|] == part
  {
    var upTo := before + part;
    assert all[..|upTo|] == upTo && all[|before|..|upTo|] == upTo[|before|..];
  }

  /**
    * `done` is what should be done for the call `c` with outcome `o`: a
    * snapshot is tried exactly for a call that gets as far as its tool, if
    * snapshots are on and the tool is L2 or L3 with a resource named; a tool
    * that fails is rolled back exactly if its snapshot was taken and rollbacks
    * are on, right after it ran.
    */
  ghost predicate SavedAndRestored(s: Setup, c: Call, o: Outcome, snapshotOk: bool, done: seq<Effect>)
  {
    var known := c.name in s.registry;
    var guarded := s.autoSnapshot && s.hasSnapshotter && known && s.registry[c.name] in {L2, L3} && c.namesResource;
    var tried := guarded && (o == NotFound || o == DryRun || o.Ran?);
    && (Captured(c, snapshotOk) in done <==> tried) && Captured(c, !snapshotOk) !in done
    && (Restored(c) in done <==> tried && snapshotOk && s.autoRollback && o == Ran(false))
    && (Restored(c) in done ==> done == [Captured(c, true), Executed(c, s.registry[c.name], false), Restored(c)])
    && (forall r, ok :: Executed(c, r, ok) in done <==> known && o == Ran(ok) && r == s.registry[c.name])
  }

  lemma EffectsSaveAndRestore(s: Setup, c: Call, o: Outcome, snapshotOk: bool)
    requires o.Ran? ==> c.name in s.registry
    ensures SavedAndRestored(s, c, o, snapshotOk, EffectsOf(s, c, o, snapshotOk))
  {
  }

  /** `done` is what should be done for call `j`, which ended as its result says. */
  ghost predicate CallIsSaved(s: Setup, b: Breaker, calls: seq<Call>, a: Answers, j: nat, done: seq<Effect>)
    requires j < |calls|
  {
    SavedAndRestored(s, calls[j], ExecuteCalls(s, b, calls, a).results[j].outcome, a.snapshotOk(j), done)
  }

  lemma RolledBackIff(s: Setup, b: Breaker, calls: seq<Call>, a: Answers, j: nat)
    requires j < |calls|
    ensures CallIsSaved(s, b, calls, a, j, DoneFor(s, b, calls, a, j))
  {
    DoneIsEffects(s, b, calls, a, j);
    RunsIff(s, b, calls, a, j);
    EffectsSaveAndRestore(s, calls[j], ExecuteCalls(s, b, calls, a).results[j].outcome, a.snapshotOk(j));
  }

  /** A half-open breaker closes exactly at a call that is no known write, whether or not a diagnostic then runs: a call
      of an unknown tool, or one that the gateway stops, closes it as well. */
  lemma HalfOpenClosesIff(s: Setup, before: Batch, c: Call, v: Verdict, snapshotOk: bool, toolOk: bool)
    requires before.breaker.state == HalfOpen
    ensures HandleCall(s, before, c, v, snapshotOk, toolOk).breaker.state == Closed <==> !IsWrite(s, c)
    ensures c.name !in s.registry ==>
      var h := HandleCall(s, before, c, v, snapshotOk, toolOk);
      h.breaker.consecutiveWrites == 0 && ExecutedCalls(h.effects) == ExecutedCalls(before.effects)
  {
    var op := Asked(s, c);
    var o := OutcomeOf(s, Admits(before.breaker, op.isWrite, op.isL2Plus), c, v, toolOk);
    RanAppend(before.effects, EffectsOf(s, c, o, snapshotOk));
    if c.name !in s.registry {
      RanOfCall(s, c, o, snapshotOk);
    }
  }
}
