// The workflow interpreter (pkg/workflow/engine.go). The engine moves through
// the steps by assigning the current step; the reference below computes where
// each step leads from its text alone.
module Workflow {
  import opened Common

  // ----- Workflows -----

  /** A variable as the engine uses it: its printed form and its numeric form. */
  datatype Value = Value(text: string, number: real)

  datatype ConditionType = Always | Equals | NotEquals | Contains | Matches | Greater | Less | UnknownCondition

  datatype Condition = Condition(kind: ConditionType, variable: string, expected: Value, invert: bool)

  datatype ActionType = ToolCall(toolName: string) | Delay | Log
                        | SetVariable(name: string, value: Value) | Exit | UnknownAction

  datatype Action = Action(kind: ActionType, nextStep: string)

  datatype Step = Step(id: string, condition: Option<Condition>, actions: seq<Action>,
                       nextStep: string, onFailure: string)

  datatype WorkFlow = WorkFlow(id: string, steps: map<string, Step>, startStep: string, variables: map<string, Value>)

  datatype ToolResult = ToolResult(data: Option<map<string, Value>>)

  datatype Status = Running | Completed | Failed | Cancelled

  datatype Failure = ContextDone | NoSuchAction | NoSuchTool(name: string) | ToolError(name: string)

  /** The outside: whether the context is done at the `i`-th check, what the `i`-th tool call returns (`None` for an
      error), which tools there are, and the regular expressions. */
  datatype Outside = Outside(done: nat -> bool, tool: nat -> Option<ToolResult>, tools: set<string>,
                             matches: (string, string) -> bool)

  predicate IsInfix(part: string, text: string)
  {
    exists i :: 0 <= i <= |text| && part <= text[i..]
  }

  /** `evaluateCondition` */
  predicate Holds(o: Outside, c: Condition, vars: map<string, Value>)
  {
    if c.kind == Always then true
    else if c.variable !in vars then c.invert
    else
      var v := vars[c.variable];
      var result := match c.kind
        case Equals => v.text == c.expected.text
        case NotEquals => v.text != c.expected.text
        case Contains => IsInfix(c.expected.text, v.text)
        case Matches => o.matches(c.expected.text, v.text)
        case Greater => v.number > c.expected.number
        case Less => v.number < c.expected.number
        case _ => false;
      if c.invert then !result else result
  }

  predicate Enters(o: Outside, step: Step, vars: map<string, Value>)
  {
    step.condition.Some? ==> Holds(o, step.condition.value, vars)
  }

  // ----- The reference: where a step leads -----

  /** Where the first action with a next step points. */
  function Jump(actions: seq<Action>): Option<string>
  {
    if actions == [] then None
    else if actions[0].nextStep != "" then Some(actions[0].nextStep)
    else Jump(actions[1..])
  }

  predicate HasExit(actions: seq<Action>)
  {
    exists i :: 0 <= i < |actions| && actions[i].kind == Exit
  }

  /** Where the step stored under `key` leads once its actions are done. A jump overrides an exit, and a jump to the
      step's own id is taken for no jump. */
  function Successor(key: string, step: Step): string
  {
    var target := match Jump(step.actions)
      case Some(next) => next
      case None => if HasExit(step.actions) then "" else key;
    if target == step.id then step.nextStep else target
  }

  /** The action at `i` is the first with a next step, or there is none if `i` is the number of actions. */
  ghost predicate FirstJump(actions: seq<Action>, i: nat)
  {
    && i <= |actions| && (forall j :: 0 <= j < i ==> actions[j].nextStep == "")
    && (i < |actions| ==> actions[i].nextStep != "")
  }

  lemma {:induction false} JumpIsFirst(actions: seq<Action>, i: nat)
    requires FirstJump(actions, i)
    ensures Jump(actions) == if i < |actions| then Some(actions[i].nextStep) else None
  {
    if i > 0 {
      JumpIsFirst(actions[1..], i - 1);
    }
  }

  /** Where a step stored under its id leads: to the next step of its first action that has one, unless that is the step
      itself; without one nowhere if some action is an exit; and else, or after a jump to itself, to its next step. */
  lemma StepLeads(key: string, step: Step, i: nat)
    requires key == step.id != "" && FirstJump(step.actions, i)
    ensures i < |step.actions| && step.actions[i].nextStep != key ==> Successor(key, step) == step.actions[i].nextStep
    ensures i == |step.actions| && (exists a :: a in step.actions && a.kind == Exit) ==> Successor(key, step) == ""
    ensures (i < |step.actions| && step.actions[i].nextStep == key) ||
            (i == |step.actions| && forall a :: a in step.actions ==> a.kind != Exit) ==>
              Successor(key, step) == step.nextStep
  {
    JumpIsFirst(step.actions, i);
  }

  /** A step repeats only if it is its own next step: no action can jump back to it. */
  lemma RepeatsByNextStep(key: string, step: Step)
    requires step.id == key && Successor(key, step) == key
    ensures step.nextStep == key
  {
  }

  /** Step `a` can be followed by step `b`. */
  ghost predicate Edge(wf: WorkFlow, a: string, b: string)
  {
    a in wf.steps && b in wf.steps &&
    var step := wf.steps[a];
    (b != "" && b == Successor(a, step)) ||
    (step.condition.Some? && step.condition.value.kind != Always && b == step.nextStep)
  }

  /** The rank falls along every edge. */
  ghost predicate Ranked(wf: WorkFlow, rank: string -> nat)
  {
    forall a, b :: Edge(wf, a, b) ==> rank(b) < rank(a)
  }

  /** What a run has besides its place: variables, results, and how often the outside was asked. */
  datatype Data = Data(variables: map<string, Value>, results: map<string, ToolResult>, checks: nat, calls: nat)

  /** `executeAction` on the data: the new data, or the failure. */
  function Effect(o: Outside, a: ActionType, d: Data): (Data, Option<Failure>)
  {
    match a
    case ToolCall(name) =>
      if name !in o.tools then (d, Some(NoSuchTool(name)))
      else if o.tool(d.calls).None? then (d.(calls := d.calls + 1), Some(ToolError(name)))
      else
        var result := o.tool(d.calls).value;
        (Data(if result.data.Some? then d.variables + result.data.value else d.variables,
              d.results[name := result], d.checks, d.calls + 1), None)
    case Delay => (d, None)
    case Log => (d, None)
    case SetVariable(name, value) => (d.(variables := d.variables[name := value]), None)
    case Exit => (d, None)
    case UnknownAction => (d, Some(NoSuchAction))
  }

  /** What the actions from `i` on do, up to the first that jumps or fails; `stopped` is where they failed. */
  datatype Performed = Performed(data: Data, failure: Option<Failure>, stopped: nat)

  function Perform(o: Outside, actions: seq<Action>, i: nat, d: Data): (r: Performed)
    requires i <= |actions|
    ensures i <= r.stopped <= |actions|
    decreases |actions| - i
  {
    if i == |actions| then Performed(d, None, i)
    else if o.done(d.checks) then Performed(d.(checks := d.checks + 1), Some(ContextDone), i)
    else
      var (next, failure) := Effect(o, actions[i].kind, d.(checks := d.checks + 1));
      if failure.Some? then Performed(next, failure, i)
      else if actions[i].nextStep != "" then Performed(next, None, i + 1)
      else Perform(o, actions, i + 1, next)
  }

  /** How a run ends, and the steps whose turn came, in order. */
  datatype End = End(status: Status, currentStep: string, data: Data, error: Option<Failure>, visited: seq<string>)

  function Measure(wf: WorkFlow, rank: string -> nat, key: string): nat
  {
    if key in wf.steps then rank(key) + 1 else 0
  }

  /** The status that goes with a failure. */
  function StatusOf(f: Failure): Status
  {
    if f == ContextDone then Cancelled else Failed
  }

  /** The reference interpreter: the end of the run from the step `key` on, if it takes at most `n` turns. */
  ghost function Meaning(o: Outside, wf: WorkFlow, n: nat, key: string, d: Data): Option<End>
  {
    if n == 0 then None else
    var d1 := d.(checks := d.checks + 1);
    if o.done(d.checks) then Some(End(Cancelled, key, d1, Some(ContextDone), []))
    else if key !in wf.steps then Some(End(Completed, key, d1, None, []))
    else
      var step := wf.steps[key];
      if !Enters(o, step, d1.variables) then Visiting([key], Meaning(o, wf, n - 1, step.nextStep, d1))
      else
        var done := Perform(o, step.actions, 0, d1);
        if done.failure.Some? then
          Some(End(StatusOf(done.failure.value), if HasExit(step.actions[..done.stopped]) then "" else key,
                   done.data, done.failure, [key]))
        else
          var next := Successor(key, step);
          if next == "" then Some(End(Completed, "", done.data, None, [key]))
          else Visiting([key], Meaning(o, wf, n - 1, next, done.data))
  }

  function Visiting(visited: seq<string>, e: Option<End>): Option<End>
  {
    if e.None? then None else Some(e.value.(visited := visited + e.value.visited))
  }

  lemma VisitingJoins(a: seq<string>, b: seq<string>, e: Option<End>)
    ensures Visiting(a, Visiting(b, e)) == Visiting(a + b, e) && Visiting([], e) == e
  {
    if e.Some? {
      PlusIsAssociative(a, b, e.value.visited);
      assert [] + e.value.visited == e.value.visited;
    }
  }

  // ----- What the reference says -----

  /** More turns than it takes make no difference. */
  lemma {:induction false} MeaningStays(o: Outside, wf: WorkFlow, m: nat, n: nat, key: string, d: Data)
    requires m <= n && Meaning(o, wf, m, key, d).Some?
    ensures Meaning(o, wf, n, key, d) == Meaning(o, wf, m, key, d)
  {
    var next := Move(o, wf, key, d);
    if next.Some? {
      MeaningStays(o, wf, m - 1, n - 1, next.value.0, next.value.1);
    }
  }

  /** A run completes exactly when it has no error, and is cancelled exactly when the context stopped it. */
  lemma {:induction false} CompletedIffNoError(o: Outside, wf: WorkFlow, n: nat, key: string, d: Data)
    requires Meaning(o, wf, n, key, d).Some?
    ensures var e := Meaning(o, wf, n, key, d).value;
      && (e.status == Completed <==> e.error == None)
      && (e.status == Cancelled <==> e.error == Some(ContextDone))
      && e.status != Running
  {
    var next := Move(o, wf, key, d);
    if next.Some? {
      CompletedIffNoError(o, wf, n - 1, next.value.0, next.value.1);
    }
  }

  /** The rank falls along the steps of a run. */
  ghost predicate Falling(wf: WorkFlow, rank: string -> nat, visited: seq<string>)
  {
    (forall i :: 0 <= i < |visited| ==> visited[i] in wf.steps) &&
    forall i, j :: 0 <= i < j < |visited| ==> rank(visited[j]) < rank(visited[i])
  }

  lemma FallingPrepends(wf: WorkFlow, rank: string -> nat, key: string, visited: seq<string>)
    requires Falling(wf, rank, visited) && key in wf.steps
    requires visited != [] ==> rank(visited[0]) < rank(key)
    ensures Falling(wf, rank, [key] + visited)
  {
    var all := [key] + visited;
    forall i, j | 0 <= i < j < |all|
      ensures rank(all[j]) < rank(all[i])
    {
      assert all[j] == visited[j - 1];
      assert i > 0 ==> all[i] == visited[i - 1];
      assert rank(visited[j - 1]) <= rank(visited[0]);
    }
  }

  lemma {:induction false} VisitsFall(o: Outside, wf: WorkFlow, rank: string -> nat, n: nat, key: string, d: Data)
    requires Ranked(wf, rank) && Meaning(o, wf, n, key, d).Some?
    ensures var v := Meaning(o, wf, n, key, d).value.visited;
      Falling(wf, rank, v) && (v != [] ==> v[0] == key)
  {
    var next := Move(o, wf, key, d);
    if next.Some? {
      assert next.value.0 in wf.steps ==> Edge(wf, key, next.value.0);
      VisitsFall(o, wf, rank, n - 1, next.value.0, next.value.1);
      FallingPrepends(wf, rank, key, Meaning(o, wf, n - 1, next.value.0, next.value.1).value.visited);
    }
  }

  /** No step has its turn twice. */
  lemma VisitsOnce(o: Outside, wf: WorkFlow, rank: string -> nat, n: nat, key: string, d: Data)
    requires Ranked(wf, rank) && Meaning(o, wf, n, key, d).Some?
    ensures Distinct(Meaning(o, wf, n, key, d).value.visited)
  {
    VisitsFall(o, wf, rank, n, key, d);
  }

  /** The workflow with other failure steps. */
  function WithOnFailure(wf: WorkFlow, f: string -> string): WorkFlow
  {
    wf.(steps := map k | k in wf.steps :: wf.steps[k].(onFailure := f(k)))
  }

  /** The failure step of a step makes no difference: a failed step ends the run. */
  lemma {:induction false} OnFailureIsIgnored(o: Outside, wf: WorkFlow, f: string -> string, n: nat,
                                              key: string, d: Data)
    ensures Meaning(o, WithOnFailure(wf, f), n, key, d) == Meaning(o, wf, n, key, d)
  {
    if n > 0 {
      var next := Move(o, wf, key, d);
      if next.Some? {
        OnFailureIsIgnored(o, wf, f, n - 1, next.value.0, next.value.1);
      }
    }
  }

  // ----- When a run ends -----

  /** Where one turn of the loop leads, if it leads on. */
  function Move(o: Outside, wf: WorkFlow, key: string, d: Data): Option<(string, Data)>
  {
    var d1 := d.(checks := d.checks + 1);
    if o.done(d.checks) || key !in wf.steps then None
    else
      var step := wf.steps[key];
      if !Enters(o, step, d1.variables) then Some((step.nextStep, d1))
      else
        var done := Perform(o, step.actions, 0, d1);
        if done.failure.Some? || Successor(key, step) == "" then None else Some((Successor(key, step), done.data))
  }

  /** Where a run is after `n` turns, if it still goes on. */
  function RunFor(o: Outside, wf: WorkFlow, key: string, d: Data, n: nat): Option<(string, Data)>
  {
    if n == 0 then Some((key, d))
    else match RunFor(o, wf, key, d, n - 1)
      case None => None
      case Some(place) => Move(o, wf, place.0, place.1)
  }

  lemma {:induction false} FirstMove(o: Outside, wf: WorkFlow, key: string, d: Data, n: nat)
    requires n > 0
    ensures RunFor(o, wf, key, d, n) ==
      match Move(o, wf, key, d)
      case None => None
      case Some(next) => RunFor(o, wf, next.0, next.1, n - 1)
  {
    if n > 1 {
      FirstMove(o, wf, key, d, n - 1);
    }
  }

  /** The reference has no end to give within `n` turns exactly when the run still goes on after them. */
  lemma {:induction false} EndsWithinIff(o: Outside, wf: WorkFlow, n: nat, key: string, d: Data)
    ensures Meaning(o, wf, n, key, d).None? <==> RunFor(o, wf, key, d, n).Some?
  {
    if n > 0 {
      FirstMove(o, wf, key, d, n);
      var next := Move(o, wf, key, d);
      if next.Some? {
        EndsWithinIff(o, wf, n - 1, next.value.0, next.value.1);
      }
    }
  }

  /** The run comes to an end. */
  ghost predicate Ends(o: Outside, wf: WorkFlow, key: string, d: Data)
  {
    exists n :: Meaning(o, wf, n, key, d).Some?
  }

  ghost predicate RunsForever(o: Outside, wf: WorkFlow, key: string, d: Data)
  {
    forall n: nat :: RunFor(o, wf, key, d, n).Some?
  }

  lemma EndsIffNotForever(o: Outside, wf: WorkFlow, key: string, d: Data)
    ensures Ends(o, wf, key, d) <==> !RunsForever(o, wf, key, d)
  {
    forall n: nat
      ensures Meaning(o, wf, n, key, d).None? <==> RunFor(o, wf, key, d, n).Some?
    {
      EndsWithinIff(o, wf, n, key, d);
    }
  }

  /** A run through a ranked workflow ends, whatever the tools, the variables and the context do. */
  lemma {:induction false} RankedRunsEnd(o: Outside, wf: WorkFlow, rank: string -> nat, key: string, d: Data, n: nat)
    requires Ranked(wf, rank) && RunFor(o, wf, key, d, n).Some?
    ensures Measure(wf, rank, RunFor(o, wf, key, d, n).value.0) + n <= Measure(wf, rank, key)
  {
    if n > 0 {
      RankedRunsEnd(o, wf, rank, key, d, n - 1);
      var place := RunFor(o, wf, key, d, n - 1).value;
      var next := Move(o, wf, place.0, place.1).value.0;
      assert next in wf.steps ==> Edge(wf, place.0, next);
    }
  }

  lemma RankedEnds(o: Outside, wf: WorkFlow, rank: string -> nat, key: string, d: Data)
    requires Ranked(wf, rank)
    ensures Ends(o, wf, key, d)
  {
    var n := Measure(wf, rank, key) + 1;
    if RunFor(o, wf, key, d, n).Some? {
      RankedRunsEnd(o, wf, rank, key, d, n);
      assert false;
    }
    EndsWithinIff(o, wf, n, key, d);
  }

  /** A workflow that nothing interferes with: no conditions, nothing fails, the context is never done. */
  ghost predicate Calm(o: Outside, wf: WorkFlow)
  {
    && (forall i: nat :: !o.done(i)) && (forall i: nat :: o.tool(i).Some?)
    && forall k :: k in wf.steps ==> CalmStep(o, wf.steps[k])
  }

  ghost predicate CalmStep(o: Outside, step: Step)
  {
    step.condition == None && forall i :: 0 <= i < |step.actions| ==> CalmAction(o, step.actions[i].kind)
  }

  predicate CalmAction(o: Outside, a: ActionType)
  {
    !a.UnknownAction? && (a.ToolCall? ==> a.toolName in o.tools)
  }

  lemma {:induction false} CalmPerforms(o: Outside, step: Step, i: nat, d: Data)
    requires (forall i: nat :: !o.done(i)) && (forall i: nat :: o.tool(i).Some?) &&
             CalmStep(o, step) && i <= |step.actions|
    ensures Perform(o, step.actions, i, d).failure == None
    decreases |step.actions| - i
  {
    if i < |step.actions| {
      assert CalmAction(o, step.actions[i].kind);
      assert o.tool(d.calls).Some?;
      CalmPerforms(o, step, i + 1, Effect(o, step.actions[i].kind, d.(checks := d.checks + 1)).0);
    }
  }

  /** The steps in the order in which their successors link them. */
  function Follow(wf: WorkFlow, key: string, n: nat): Option<string>
  {
    if n == 0 then Some(key)
    else match Follow(wf, key, n - 1)
      case None => None
      case Some(k) => if k in wf.steps && Successor(k, wf.steps[k]) != "" then Some(Successor(k, wf.steps[k])) else None
  }

  /** Without interference a run goes where the successors lead. */
  lemma {:induction false} CalmRunFollows(o: Outside, wf: WorkFlow, key: string, d: Data, n: nat)
    requires Calm(o, wf)
    ensures var r, f := RunFor(o, wf, key, d, n), Follow(wf, key, n);
      (r.Some? <==> f.Some?) && (r.Some? ==> r.value.0 == f.value)
  {
    if n > 0 {
      CalmRunFollows(o, wf, key, d, n - 1);
      var r := RunFor(o, wf, key, d, n - 1);
      if r.Some? && r.value.0 in wf.steps {
        CalmPerforms(o, wf.steps[r.value.0], 0, r.value.1.(checks := r.value.1.checks + 1));
      }
    }
  }

  /** The successors of the steps in `loop` are in `loop`. */
  ghost predicate Closed(wf: WorkFlow, loop: set<string>)
  {
    loop <= wf.steps.Keys &&
    forall k :: k in loop ==> Successor(k, wf.steps[k]) != "" && Successor(k, wf.steps[k]) in loop
  }

  lemma {:induction false} StaysInLoop(wf: WorkFlow, loop: set<string>, key: string, n: nat)
    requires Closed(wf, loop) && key in loop
    ensures Follow(wf, key, n).Some? && Follow(wf, key, n).value in loop
  {
    if n > 0 {
      StaysInLoop(wf, loop, key, n - 1);
    }
  }

  ghost predicate InLoop(wf: WorkFlow, key: string)
  {
    exists loop :: Closed(wf, loop) && key in loop
  }

  ghost predicate FollowsForever(wf: WorkFlow, key: string)
  {
    forall n: nat :: Follow(wf, key, n).Some?
  }

  lemma SuccessorReached(wf: WorkFlow, key: string, k: string)
    requires FollowsForever(wf, key) && Reached(wf, key, k)
    ensures k in wf.steps && Successor(k, wf.steps[k]) != "" && Reached(wf, key, Successor(k, wf.steps[k]))
  {
    var n: nat :| Follow(wf, key, n) == Some(k);
    assert Follow(wf, key, n + 1).Some?;
    assert Follow(wf, key, n + 1) == Some(Successor(k, wf.steps[k]));
  }

  lemma FollowsForeverIffInLoop(wf: WorkFlow, key: string)
    ensures FollowsForever(wf, key) <==> InLoop(wf, key)
  {
    if InLoop(wf, key) {
      var loop :| Closed(wf, loop) && key in loop;
      forall n: nat
        ensures Follow(wf, key, n).Some?
      {
        StaysInLoop(wf, loop, key, n);
      }
    }
    if FollowsForever(wf, key) {
      assert Follow(wf, key, 0) == Some(key);
      SuccessorReached(wf, key, key);
      var loop := set k | k in wf.steps.Keys && Reached(wf, key, k);
      forall k | k in loop
        ensures Successor(k, wf.steps[k]) != "" && Successor(k, wf.steps[k]) in loop
      {
        SuccessorReached(wf, key, k);
        SuccessorReached(wf, key, Successor(k, wf.steps[k]));
      }
      assert Closed(wf, loop) && key in loop;
    }
  }

  /** Without interference a run goes on for ever exactly when it starts in a set of steps it cannot leave. */
  lemma ForeverIffInLoop(o: Outside, wf: WorkFlow, key: string, d: Data)
    requires Calm(o, wf)
    ensures RunsForever(o, wf, key, d) <==> InLoop(wf, key)
  {
    forall n: nat
      ensures RunFor(o, wf, key, d, n).Some? <==> Follow(wf, key, n).Some?
    {
      CalmRunFollows(o, wf, key, d, n);
    }
    FollowsForeverIffInLoop(wf, key);
  }

  ghost predicate Reached(wf: WorkFlow, from: string, to: string)
  {
    exists n: nat :: Follow(wf, from, n) == Some(to)
  }

  // ----- What guards and actions mean -----

  /** The step of a turn that comes and is not cancelled, with the guard `c`. */
  ghost predicate GuardedTurn(o: Outside, wf: WorkFlow, key: string, d: Data, c: Condition)
  {
    key in wf.steps && wf.steps[key].condition == Some(c) && !o.done(d.checks)
  }

  /** The turn goes as if the step had no guard. */
  ghost predicate ActsAt(o: Outside, wf: WorkFlow, key: string, d: Data)
    requires key in wf.steps
  {
    var open := wf.(steps := wf.steps[key := wf.steps[key].(condition := None)]);
    Move(o, wf, key, d) == Move(o, open, key, d) && Stop(o, wf, key, d) == Stop(o, open, key, d)
  }

  /** The turn passes the step over: on to the next step, with nothing done. */
  ghost predicate SkipsAt(o: Outside, wf: WorkFlow, key: string, d: Data)
    requires key in wf.steps
  {
    Move(o, wf, key, d) == Some((wf.steps[key].nextStep, d.(checks := d.checks + 1)))
  }

  /** Numbers: strictly above the expected one, or strictly below it. */
  lemma NumberGuards(o: Outside, wf: WorkFlow, key: string, d: Data, c: Condition)
    requires GuardedTurn(o, wf, key, d, c) && c.variable in d.variables && !c.invert
    ensures var n := d.variables[c.variable].number;
      && (c.kind == Greater ==> if n > c.expected.number then ActsAt(o, wf, key, d) else SkipsAt(o, wf, key, d))
      && (c.kind == Less ==> if n < c.expected.number then ActsAt(o, wf, key, d) else SkipsAt(o, wf, key, d))
  {
  }

  /** Texts: the expected one or another one, the expected one somewhere in it, or what the expression matches. */
  lemma TextGuards(o: Outside, wf: WorkFlow, key: string, d: Data, c: Condition)
    requires GuardedTurn(o, wf, key, d, c) && c.variable in d.variables && !c.invert
    ensures var text, expected := d.variables[c.variable].text, c.expected.text;
      && (c.kind == Equals ==> if text == expected then ActsAt(o, wf, key, d) else SkipsAt(o, wf, key, d))
      && (c.kind == NotEquals ==> if text != expected then ActsAt(o, wf, key, d) else SkipsAt(o, wf, key, d))
      && (c.kind == Contains ==>
            if exists a, b :: text == a + expected + b then ActsAt(o, wf, key, d) else SkipsAt(o, wf, key, d))
      && (c.kind == Matches ==>
            if o.matches(expected, text) then ActsAt(o, wf, key, d) else SkipsAt(o, wf, key, d))
  {
    InfixIsMiddle(c.expected.text, d.variables[c.variable].text);
  }

  lemma InfixIsMiddle(part: string, text: string)
    ensures IsInfix(part, text) <==> exists a, b :: text == a + part + b
  {
    if IsInfix(part, text) {
      var i :| 0 <= i <= |text| && part <= text[i..];
      var a, b := text[..i], text[i..][|part|..];
      assert text == a + part + b;
    }
    if a, b :| text == a + part + b {
      assert part <= text[|a|..];
    }
  }

  /** A guard without its variable, and one of no known type, let the step act exactly if they are inverted; one that
      always holds lets it act in any case. */
  lemma OtherGuards(o: Outside, wf: WorkFlow, key: string, d: Data, c: Condition)
    requires GuardedTurn(o, wf, key, d, c)
    ensures c.kind == Always ==> ActsAt(o, wf, key, d)
    ensures c.kind == UnknownCondition || (c.kind != Always && c.variable !in d.variables) ==>
      if c.invert then ActsAt(o, wf, key, d) else SkipsAt(o, wf, key, d)
  {
  }

  /** With its variable present, an inverted guard lets the step act exactly where the plain one passes it over. */
  lemma InvertedGuards(o: Outside, wf: WorkFlow, inverted: WorkFlow, key: string, d: Data, c: Condition)
    requires GuardedTurn(o, wf, key, d, c) && c.variable in d.variables && c.kind != Always
    requires inverted == wf.(steps := wf.steps[key := wf.steps[key].(condition := Some(c.(invert := !c.invert)))])
    ensures (ActsAt(o, wf, key, d) && SkipsAt(o, inverted, key, d)) ||
            (SkipsAt(o, wf, key, d) && ActsAt(o, inverted, key, d))
  {
    var open := wf.steps[key].(condition := None);
    assert inverted.steps[key := open] == wf.steps[key := open];
  }

  /** The step of the built-in restart diagnosis that looks at the restart count. */
  const CHECK_RESTART_COUNT := Step("check_restart_count",
    Some(Condition(Greater, "restart_count", Value("0", 0.0), false)),
    [Action(SetVariable("has_issues", Value("true", 0.0)), ""), Action(Log, "")], "get_pod_logs", "no_issues")

  /** It finds issues for three restarts and none for zero, and goes on in both cases. */
  lemma RestartsAreIssues(o: Outside, wf: WorkFlow, d: Data, count: Value)
    requires (forall i: nat :: !o.done(i)) && "check_restart_count" in wf.steps
    requires wf.steps["check_restart_count"] == CHECK_RESTART_COUNT
    requires "restart_count" in d.variables && d.variables["restart_count"] == count
    ensures var next := Move(o, wf, "check_restart_count", d);
      && next.Some? && next.value.0 == "get_pod_logs"
      && (count.number == 3.0 ==> next.value.1.variables == d.variables["has_issues" := Value("true", 0.0)])
      && (count.number == 0.0 ==> next.value.1.variables == d.variables)
  {
    var key, step := "check_restart_count", CHECK_RESTART_COUNT;
    NumberGuards(o, wf, key, d, step.condition.value);
    if count.number > 0.0 {
      var d1 := d.(checks := d.checks + 1);
      PerformPlain(o, step.actions, 0, d1);
      assert !HasExit(step.actions) && Jump(step.actions) == None by {
        JumpSkips(step.actions, 2);
      }
    }
  }

  lemma PerformPlain(o: Outside, actions: seq<Action>, i: nat, d: Data)
    requires (forall i: nat :: !o.done(i)) && i < |actions| && actions[i].nextStep == ""
    ensures var (next, failure) := Effect(o, actions[i].kind, d.(checks := d.checks + 1));
      failure == None ==> Perform(o, actions, i, d) == Perform(o, actions, i + 1, next)
  {
  }

  /** A tool that answers has its result kept, and its data go over the variables of the same names; one that is unknown
      or fails changes neither. */
  lemma ToolCallEffect(o: Outside, name: string, d: Data)
    ensures var (next, failure) := Effect(o, ToolCall(name), d);
      && (failure == Some(NoSuchTool(name)) <==> name !in o.tools)
      && (failure == Some(ToolError(name)) <==> name in o.tools && o.tool(d.calls) == None)
      && (failure.Some? ==> next.variables == d.variables && next.results == d.results)
      && (failure == None ==>
            name in o.tools && o.tool(d.calls).Some? && Answered(d, next, name, o.tool(d.calls).value))
  {
  }

  /** The reply of a tool is kept, and nothing else is changed. */
  ghost predicate Answered(d: Data, next: Data, name: string, reply: ToolResult)
  {
    var data := if reply.data.Some? then reply.data.value else map[];
    && name in next.results && next.results[name] == reply
    && (forall k :: k != name ==> (k in next.results <==> k in d.results))
    && (forall k :: k != name && k in d.results ==> next.results[k] == d.results[k])
    && next.variables.Keys == d.variables.Keys + data.Keys
    && forall k :: k in next.variables ==> next.variables[k] == if k in data then data[k] else d.variables[k]
  }

  /** The context is checked once before every action, and the first check that finds it done ends the step. */
  lemma {:induction false} ActionsAreChecked(o: Outside, actions: seq<Action>, i: nat, d: Data)
    requires i <= |actions|
    ensures var r := Perform(o, actions, i, d);
      && r.data.checks == d.checks + (r.stopped - i) + (if r.failure.Some? then 1 else 0)
      && (r.failure == Some(ContextDone) <==> r.data.checks > d.checks && o.done(r.data.checks - 1))
      && forall k :: d.checks <= k < r.data.checks - 1 ==> !o.done(k)
    decreases |actions| - i
  {
    if i < |actions| && !o.done(d.checks) {
      var (next, failure) := Effect(o, actions[i].kind, d.(checks := d.checks + 1));
      assert next.checks == d.checks + 1 && failure != Some(ContextDone);
      if failure == None && actions[i].nextStep == "" {
        ActionsAreChecked(o, actions, i + 1, next);
      }
    }
  }

  /** A run is cancelled exactly at the first check that finds the context done, before a step or before an action. */
  lemma {:induction false} CancelledAtFirstDone(o: Outside, wf: WorkFlow, n: nat, key: string, d: Data)
    requires Meaning(o, wf, n, key, d).Some?
    ensures var e := Meaning(o, wf, n, key, d).value;
      && e.data.checks > d.checks && (e.status == Cancelled <==> o.done(e.data.checks - 1))
      && forall k :: d.checks <= k < e.data.checks - 1 ==> !o.done(k)
  {
    var next := Move(o, wf, key, d);
    if key in wf.steps {
      ActionsAreChecked(o, wf.steps[key].actions, 0, d.(checks := d.checks + 1));
    }
    if next.Some? {
      CancelledAtFirstDone(o, wf, n - 1, next.value.0, next.value.1);
    }
  }

  /** What the other actions do. */
  lemma OtherEffects(o: Outside, name: string, value: Value, d: Data)
    ensures var (next, failure) := Effect(o, SetVariable(name, value), d);
      && failure == None && next.results == d.results && name in next.variables && next.variables[name] == value
      && (forall k :: k != name ==> (k in next.variables <==> k in d.variables))
      && (forall k :: k != name && k in d.variables ==> next.variables[k] == d.variables[k])
    ensures forall a :: a in {Delay, Log, Exit} ==> Effect(o, a, d) == (d, None)
    ensures Effect(o, UnknownAction, d) == (d, Some(NoSuchAction))
  {
  }

  // ----- The engine -----

  class WorkFlowInstance {
    var status: Status
    var currentStep: string
    var variables: map<string, Value>
    var results: map<string, ToolResult>
    var error: Option<Failure>

    // How often the outside was asked.
    var checks: nat
    var calls: nat

    function Now(): Data
      reads this
    {
      Data(variables, results, checks, calls)
    }

    constructor (startStep: string)
      ensures status == Running && currentStep == startStep && error == None && Now() == Data(map[], map[], 0, 0)
    {
      status, currentStep, variables, results, error := Running, startStep, map[], map[], None;
      checks, calls := 0, 0;
    }
  }

  lemma {:induction false} JumpSkips(actions: seq<Action>, i: nat)
    requires i <= |actions| && forall j :: 0 <= j < i ==> actions[j].nextStep == ""
    ensures Jump(actions) == Jump(actions[i..])
    decreases i
  {
    if i > 0 {
      JumpSkips(actions, i - 1);
      assert actions[i - 1..][1..] == actions[i..];
    }
  }

  lemma HasExitSnoc(actions: seq<Action>, i: nat)
    requires i < |actions|
    ensures HasExit(actions[..i + 1]) <==> HasExit(actions[..i]) || actions[i].kind == Exit
  {
    assert actions[..i + 1] == actions[..i] + [actions[i]];
    if HasExit(actions[..i]) {
      var j :| 0 <= j < i && actions[..i][j].kind == Exit;
      assert actions[..i + 1][j].kind == Exit;
    }
    if actions[i].kind == Exit {
      assert actions[..i + 1][i].kind == Exit;
    }
  }

  class WorkFlowEngine {
    const outside: Outside
    var workflows: map<string, WorkFlow>

    constructor (outside: Outside)
      ensures this.outside == outside && workflows == map[]
    {
      this.outside, workflows := outside, map[];
    }

    /** `RegisterWorkFlow` */
    method RegisterWorkFlow(wf: WorkFlow) returns (ok: bool)
      modifies this
      ensures ok == (wf.id != "" && wf.startStep in wf.steps)
      ensures workflows == if ok then old(workflows)[wf.id := wf] else old(workflows)
    {
      if wf.id == "" || wf.startStep !in wf.steps {
        return false;
      }
      workflows := workflows[wf.id := wf];
      return true;
    }

    /** `executeAction` with `executeToolCall` */
    method ExecuteAction(a: ActionType, inst: WorkFlowInstance) returns (err: Option<Failure>)
      modifies inst
      ensures (inst.Now(), err) == Effect(outside, a, old(inst.Now()))
      ensures inst.currentStep == if a == Exit then "" else old(inst.currentStep)
      ensures inst.status == old(inst.status) && inst.error == old(inst.error)
    {
      match a
      case ToolCall(name) =>
        if name !in outside.tools {
          return Some(NoSuchTool(name));
        }
        var reply := outside.tool(inst.calls);
        inst.calls := inst.calls + 1;
        if reply.None? {
          return Some(ToolError(name));
        }
        inst.results := inst.results[name := reply.value];
        if reply.value.data.Some? {
          inst.variables := inst.variables + reply.value.data.value;
        }
        return None;
      case Delay => return None;
      case Log => return None;
      case SetVariable(name, value) =>
        inst.variables := inst.variables[name := value];
        return None;
      case Exit =>
        inst.currentStep := "";
        return None;
      case UnknownAction => return Some(NoSuchAction);
    }

    /** The actions of a step. */
    method ExecuteActions(actions: seq<Action>, inst: WorkFlowInstance) returns (err: Option<Failure>)
      modifies inst
      ensures var p := Perform(outside, actions, 0, old(inst.Now()));
        && inst.Now() == p.data && err == p.failure
        && inst.currentStep ==
           if err.None? && Jump(actions).Some? then Jump(actions).value
           else if HasExit(if err.None? then actions else actions[..p.stopped]) then "" else old(inst.currentStep)
      ensures inst.status == old(inst.status) && inst.error == old(inst.error)
    {
      ghost var p := Perform(outside, actions, 0, inst.Now());
      for i := 0 to |actions|
        invariant Perform(outside, actions, i, inst.Now()) == p
        invariant forall j :: 0 <= j < i ==> actions[j].nextStep == ""
        invariant inst.currentStep == if HasExit(actions[..i]) then "" else old(inst.currentStep)
        invariant inst.status == old(inst.status) && inst.error == old(inst.error)
      {
        var done := outside.done(inst.checks);
        inst.checks := inst.checks + 1;
        if done {
          return Some(ContextDone);
        }
        HasExitSnoc(actions, i);
        err := ExecuteAction(actions[i].kind, inst);
        if err.Some? {
          return;
        }
        if actions[i].nextStep != "" {
          JumpSkips(actions, i);
          inst.currentStep := actions[i].nextStep;
          return;
        }
      }
      JumpSkips(actions, |actions|);
      assert actions[..|actions|] == actions;
      return None;
    }

    /** One turn of the loop of `Execute`; the result is `None` when the run goes on. */
    method Turn(wf: WorkFlow, inst: WorkFlowInstance) returns (end: Option<(Status, Option<Failure>)>)
      requires inst.status == Running && inst.error == None
      modifies inst
      ensures inst.status == Running && inst.error == None
      ensures end.None? <==> Move(outside, wf, old(inst.currentStep), old(inst.Now())).Some?
      ensures end.None? ==>
        (inst.currentStep, inst.Now()) == Move(outside, wf, old(inst.currentStep), old(inst.Now())).value
      ensures end.Some? ==>
        Stop(outside, wf, old(inst.currentStep), old(inst.Now())) ==
          End(end.value.0, inst.currentStep, inst.Now(), end.value.1,
              Visit(outside, wf, old(inst.currentStep), old(inst.Now())))
    {
      var done := outside.done(inst.checks);
      inst.checks := inst.checks + 1;
      if done {
        return Some((Cancelled, Some(ContextDone)));
      }
      var key := inst.currentStep;
      if key !in wf.steps {
        return Some((Completed, None));
      }
      var step := wf.steps[key];
      if step.condition.Some? && !Holds(outside, step.condition.value, inst.variables) {
        inst.currentStep := step.nextStep;
        return None;
      }
      var err := ExecuteActions(step.actions, inst);
      if err.Some? {
        return Some((if err.value == ContextDone then Cancelled else Failed, err));
      }
      if inst.currentStep == step.id {
        inst.currentStep := step.nextStep;
      }
      if inst.currentStep == "" {
        return Some((Completed, None));
      }
      return None;
    }

    /** `Execute`, for every run that ends: it agrees with the reference interpreter. `turns` is how many it took. */
    method Execute(id: string, initialVars: map<string, Value>)
      returns (r: Result<WorkFlowInstance>, ghost visited: seq<string>, ghost turns: nat)
      requires id in workflows ==>
        var wf := workflows[id]; Ends(outside, wf, wf.startStep, Data(wf.variables + initialVars, map[], 0, 0))
      ensures r.Err? <==> id !in workflows
      ensures r.Ok? ==> fresh(r.value)
      ensures r.Ok? ==>
        var wf, inst := workflows[id], r.value;
        Meaning(outside, wf, turns, wf.startStep, Data(wf.variables + initialVars, map[], 0, 0)) ==
          Some(End(inst.status, inst.currentStep, inst.Now(), inst.error, visited))
    {
      if id !in workflows {
        return Err, [], 0;
      }
      var wf := workflows[id];
      var inst := new WorkFlowInstance(wf.startStep);
      inst.variables := wf.variables + initialVars;
      ghost var meaning := (n: nat, key: string, d: Data) => Meaning(outside, wf, n, key, d);
      turns :| Meaning(outside, wf, turns, inst.currentStep, inst.Now()).Some?;
      visited := Loop(wf, inst, turns, meaning);
      return Ok(inst), visited, turns;
    }

    method Loop(wf: WorkFlow, inst: WorkFlowInstance, ghost turns: nat,
                ghost meaning: (nat, string, Data) -> Option<End>)
      returns (ghost visited: seq<string>)
      requires IsMeaning(outside, wf, meaning) && meaning(turns, inst.currentStep, inst.Now()).Some?
      requires inst.status == Running && inst.error == None
      modifies inst
      ensures Some(End(inst.status, inst.currentStep, inst.Now(), inst.error, visited)) ==
              meaning(turns, old(inst.currentStep), old(inst.Now()))
    {
      visited := [];
      ghost var left := turns;
      ghost var all := meaning(turns, inst.currentStep, inst.Now());
      VisitingJoins([], [], all);
      while true
        invariant inst.status == Running && inst.error == None
        invariant meaning(left, inst.currentStep, inst.Now()).Some?
        invariant all == Visiting(visited, meaning(left, inst.currentStep, inst.Now()))
        decreases left
      {
        var end;
        ghost var visit;
        end, visit := MeantTurn(wf, inst, left, meaning);
        VisitingJoins(visited, visit, if end.Some? then None else meaning(left - 1, inst.currentStep, inst.Now()));
        visited := visited + visit;
        if end.Some? {
          inst.status, inst.error := end.value.0, end.value.1;
          return;
        }
        left := left - 1;
      }
    }

    /** A turn does what the reference says. */
    method MeantTurn(wf: WorkFlow, inst: WorkFlowInstance, ghost n: nat,
                     ghost meaning: (nat, string, Data) -> Option<End>)
      returns (end: Option<(Status, Option<Failure>)>, ghost visit: seq<string>)
      requires IsMeaning(outside, wf, meaning) && meaning(n, inst.currentStep, inst.Now()).Some?
      requires inst.status == Running && inst.error == None
      modifies inst
      ensures inst.status == Running && inst.error == None && n > 0
      ensures end.None? ==>
        && meaning(n - 1, inst.currentStep, inst.Now()).Some?
        && meaning(n, old(inst.currentStep), old(inst.Now())) ==
           Visiting(visit, meaning(n - 1, inst.currentStep, inst.Now()))
      ensures end.Some? ==>
        meaning(n, old(inst.currentStep), old(inst.Now())) ==
        Some(End(end.value.0, inst.currentStep, inst.Now(), end.value.1, visit))
    {
      ghost var key, d := inst.currentStep, inst.Now();
      assert meaning(n, key, d) == Meaning(outside, wf, n, key, d);
      MeaningMoves(outside, wf, n, key, d);
      visit := Visit(outside, wf, key, d);
      end := Turn(wf, inst);
      assert meaning(n - 1, inst.currentStep, inst.Now()) == Meaning(outside, wf, n - 1, inst.currentStep, inst.Now());
    }
  }

  /** The function `meaning` is the reference interpreter of the workflow. */
  ghost predicate IsMeaning(o: Outside, wf: WorkFlow, meaning: (nat, string, Data) -> Option<End>)
  {
    forall n: nat, key: string, d: Data {:trigger Meaning(o, wf, n, key, d)} ::
      meaning(n, key, d) == Meaning(o, wf, n, key, d)
  }

  /** The step whose turn it is, if there is one. */
  function Visit(o: Outside, wf: WorkFlow, key: string, d: Data): seq<string>
  {
    if !o.done(d.checks) && key in wf.steps then [key] else []
  }

  /** How a run ends whose turn at `key` leads nowhere. */
  function Stop(o: Outside, wf: WorkFlow, key: string, d: Data): End
  {
    var d1 := d.(checks := d.checks + 1);
    if o.done(d.checks) then End(Cancelled, key, d1, Some(ContextDone), [])
    else if key !in wf.steps then End(Completed, key, d1, None, [])
    else
      var step := wf.steps[key];
      var done := Perform(o, step.actions, 0, d1);
      if done.failure.None? then End(Completed, "", done.data, None, [key])
      else End(StatusOf(done.failure.value), if HasExit(step.actions[..done.stopped]) then "" else key,
               done.data, done.failure, [key])
  }

  /** The reference follows the moves of the loop. */
  lemma MeaningMoves(o: Outside, wf: WorkFlow, n: nat, key: string, d: Data)
    ensures Meaning(o, wf, n, key, d) ==
      if n == 0 then None else
      match Move(o, wf, key, d)
      case None => Some(Stop(o, wf, key, d))
      case Some(next) => Visiting(Visit(o, wf, key, d), Meaning(o, wf, n - 1, next.0, next.1))
  {
  }
}
