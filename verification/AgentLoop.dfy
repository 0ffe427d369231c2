// The reasoning loop of the agent (ExecuteWithTools in pkg/agent/loop.go): ask
// the model, execute the tool calls it asks for, put the results into the
// context window, until it answers without tool calls or something stops it.
module AgentLoop {
  import opened Common
  import opened CircuitBreaker
  import opened ContextWindow
  import opened CallExecution
  import opened AgentRun

  // ----- The loop -----

  datatype LoopResult = LoopResult(state: State, finalResponse: string,
                                  toolResults: seq<ExecResult>, totalIterations: nat)

  /** The registry after `tools` are registered; a later tool of the same name replaces an earlier one. */
  function Registered(registry: map<string, Risk>, tools: seq<(string, Risk)>): map<string, Risk>
  {
    if tools == [] then registry
    else Registered(registry, tools[..|tools| - 1])[tools[|tools| - 1].0 := tools[|tools| - 1].1]
  }

  /** What a run began with. */
  datatype Begin = Begin(body: Body, room: Room, breaker: Breaker,
                        ops: seq<Op>, effects: seq<Effect>, start: seq<Message>)

  class AgentLoop {
    const limit: nat
    const hasGateway: bool
    const breaker: CircuitBreaker
    const context: ContextManager

    var config: Config
    var hasSnapshotter: bool
    var registry: map<string, Risk>

    // Everything the breaker was asked and everything done to the outside since construction.
    ghost var ops: seq<Op>
    ghost var effects: seq<Effect>

    function TheSetup(): Setup
      reads this
    {
      Setup(config.dryRun, config.autoSnapshot, config.autoRollback, hasGateway,
            config.hasHandler, hasSnapshotter, registry)
    }

    ghost predicate Valid()
      reads this, breaker, context
    {
      && context.Valid()
      && RunCounted(Fresh(breaker.maxL2Ops, breaker.maxConsecWrites), ops, effects, breaker.Value())
    }

    /** `NewDefaultAgentLoop` */
    constructor (config: Config, hasGateway: bool, hasSnapshotter: bool, registry: map<string, Risk>)
      ensures Valid() && fresh(breaker) && fresh(context) && effects == []
      ensures this.config == Effective(config) && limit == IterationLimit(config)
      ensures this.hasGateway == hasGateway && this.hasSnapshotter == hasSnapshotter && this.registry == registry
      ensures breaker.maxL2Ops == Limit(Effective(config).maxL2Operations, 5)
      ensures breaker.maxConsecWrites == Limit(Effective(config).maxConsecutiveWrite, 3)
    {
      var effective := if config.maxIterations == 0 then DEFAULT else config;
      this.config, this.hasGateway, this.hasSnapshotter, this.registry :=
        effective, hasGateway, hasSnapshotter, registry;
      limit := if effective.maxIterations <= 0 then 10 else effective.maxIterations;
      breaker := new CircuitBreaker(effective.maxL2Operations, effective.maxConsecutiveWrite);
      context := new ContextManager(effective.maxTokens);
      ops, effects := [], [];
    }

    /** Over all runs of one loop, at most the breaker's limit of L2+ tools ever run. */
    lemma L2RunsBounded()
      requires Valid()
      ensures L2Runs(effects) <= breaker.maxL2Ops
    {
      L2Counted(Fresh(breaker.maxL2Ops, breaker.maxConsecWrites), ops);
    }

    /** Over all runs of one loop, what opens its breaker is one L2+ call beyond the limit, and no failure. */
    lemma OpenIffOneTooMany()
      requires Valid()
      ensures var b := Fresh(breaker.maxL2Ops, breaker.maxConsecWrites);
        breaker.state == BreakerState.Open <==> CountedL2(b, ops) == breaker.maxL2Ops + 1
    {
      OpenIffOverLimit(breaker.maxL2Ops, breaker.maxConsecWrites, ops);
    }

    /** `executeSingleTool` */
    method ExecuteSingleTool(c: Call, toolOk: bool) returns (r: ExecResult)
      modifies `effects
      ensures r == Report(c, if c.name !in registry then NotFound
                             else if config.dryRun && registry[c.name] != L0 then DryRun else Ran(toolOk))
      ensures effects == old(effects) + if r.outcome.Ran? then [Executed(c, registry[c.name], toolOk)] else []
    {
      if c.name !in registry {
        return ExecResult(c.name, c.arguments, c.id, NotFound);
      }
      if config.dryRun && registry[c.name] != L0 {
        return ExecResult(c.name, c.arguments, c.id, DryRun);
      }
      effects := effects + [Executed(c, registry[c.name], toolOk)];
      return ExecResult(c.name, c.arguments, c.id, Ran(toolOk));
    }

    /** The part of a turn of `executeTools` after the gateway. */
    method RunGuarded(c: Call, snapshotOk: bool, toolOk: bool, ghost v: Verdict) returns (r: ExecResult)
      requires Cleared(TheSetup(), v)
      modifies `effects
      ensures r == Report(c, OutcomeOf(TheSetup(), true, c, v, toolOk))
      ensures effects == old(effects) + EffectsOf(TheSetup(), c, OutcomeOf(TheSetup(), true, c, v, toolOk), snapshotOk)
    {
      var captured := TakeSnapshot(c, snapshotOk);
      r := ExecuteSingleTool(c, toolOk);
      if (r.outcome == NotFound || r.outcome == Ran(false)) && config.autoRollback && captured {
        effects := effects + [Restored(c)];
      }
    }

    /** The snapshot before an L2 or L3 tool. */
    method TakeSnapshot(c: Call, snapshotOk: bool) returns (captured: bool)
      modifies `effects
      ensures captured == (TakesSnapshot(TheSetup(), c) && snapshotOk)
      ensures effects == old(effects) + Capture(TheSetup(), c, snapshotOk)
    {
      if config.autoSnapshot && hasSnapshotter && c.name in registry &&
         (registry[c.name] == L2 || registry[c.name] == L3) && c.namesResource {
        effects := effects + [Captured(c, snapshotOk)];
        return snapshotOk;
      }
      return false;
    }

    /** One turn of the loop of `executeTools`. */
    method ExecuteCall(c: Call, v: Verdict, snapshotOk: bool, toolOk: bool) returns (r: ExecResult)
      modifies `ops, `effects, breaker
      ensures var s, op := TheSetup(), Asked(TheSetup(), c);
        var outcome := OutcomeOf(s, Admits(old(breaker.Value()), op.isWrite, op.isL2Plus), c, v, toolOk);
        && r == Report(c, outcome)
        && breaker.Value() == Step(old(breaker.Value()), op) && ops == old(ops) + [op]
        && effects == old(effects) + EffectsOf(s, c, outcome, snapshotOk)
    {
      var isWrite := c.name in registry && registry[c.name] != L0;
      var isL2Plus := c.name in registry &&
        (registry[c.name] == L2 || registry[c.name] == L3 || registry[c.name] == L4);
      ops := ops + [Op.Allow(isWrite, isL2Plus)];
      var admitted := breaker.Allow(isWrite, isL2Plus);
      if !admitted {
        return ExecResult(c.name, c.arguments, c.id, BreakerBlocked);
      }
      if hasGateway {
        if v == EvaluationError {
          return ExecResult(c.name, c.arguments, "", EvaluationFailed);
        }
        if v == Denied {
          return ExecResult(c.name, c.arguments, c.id, SecurityBlocked);
        }
        if v.NeedsConfirmation? {
          var confirmed := false;
          if config.hasHandler {
            confirmed := v.confirmed;
          }
          if !confirmed {
            return ExecResult(c.name, c.arguments, c.id, CancelledByUser);
          }
        }
      }
      r := RunGuarded(c, snapshotOk, toolOk, v);
    }

    /** The breaker and the records are where `batch` leaves them. */
    ghost predicate Follows(batch: Batch, ops0: seq<Op>, effects0: seq<Effect>)
      reads this, breaker
    {
      breaker.Value() == batch.breaker && ops == ops0 + batch.ops && effects == effects0 + batch.effects
    }

    /** A turn of the loop takes the breaker and the records from `batch` to `next`. */
    method ExecuteAfter(c: Call, v: Verdict, snapshotOk: bool, toolOk: bool,
                        ghost batch: Batch, ghost next: Batch, ghost ops0: seq<Op>, ghost effects0: seq<Effect>)
      returns (r: ExecResult)
      requires Follows(batch, ops0, effects0)
      requires next == HandleCall(TheSetup(), batch, c, v, snapshotOk, toolOk)
      modifies `ops, `effects, breaker
      ensures Follows(next, ops0, effects0) && next.results == batch.results + [r]
    {
      r := ExecuteCall(c, v, snapshotOk, toolOk);
    }

    /** `executeTools` */
    method ExecuteTools(calls: seq<Call>, a: Answers, ghost all: Batch) returns (results: seq<ExecResult>)
      requires all == ExecuteCalls(TheSetup(), breaker.Value(), calls, a)
      modifies `ops, `effects, breaker
      ensures results == all.results && Follows(all, old(ops), old(effects))
    {
      results := [];
      ghost var path := Batches(TheSetup(), breaker.Value(), calls, a);
      for j := 0 to |calls|
        invariant ArePath(path, TheSetup(), calls, a) && path[|calls|] == all
        invariant results == path[j].results && Follows(path[j], old(ops), old(effects))
      {
        assert Handled(path, TheSetup(), calls, a, j);
        var r := ExecuteAfter(calls[j], a.verdict(j), a.snapshotOk(j), a.toolOk(j),
                              path[j], path[j + 1], old(ops), old(effects));
        results := results + [r];
      }
    }

    /** The tool calls of iteration `k`. */
    method ExecuteTurn(calls: seq<Call>, o: Outside, k: nat, ghost body: Body) returns (results: seq<ExecResult>)
      requires calls == CallsAt(o, k) && IsBody(body, TheSetup(), o)
      modifies `ops, `effects, breaker
      ensures results == body(old(breaker.Value()), k).batch.results
      ensures Follows(body(old(breaker.Value()), k).batch, old(ops), old(effects))
    {
      ghost var it := Iterate(TheSetup(), o, breaker.Value(), k);
      results := ExecuteTools(calls, o.answers(k), it.batch);
    }

    /** The overflow check after a reply. */
    method CheckOverflow(outputTokens: int, ghost room: Room)
      requires context.Valid() && IsRoom(room, config.maxTokens)
      modifies context`messages, context`currentTokens
      ensures context.Valid() && context.messages == room(old(context.messages), outputTokens)
    {
      assert room(context.messages, outputTokens) == RoomAfter(config.maxTokens, context.messages, outputTokens);
      if context.currentTokens + outputTokens > config.maxTokens {
        var target := config.maxTokens - outputTokens;
        if target < Quarter(config.maxTokens) {
          target := Quarter(config.maxTokens);
        }
        context.TrimContext(target);
      }
    }

    /** Calls without an id get one. */
    method WithIds(o: Outside, k: nat) returns (calls: seq<Call>)
      requires o.reply(k).Reply?
      ensures calls == CallsAt(o, k)
    {
      calls := o.reply(k).calls;
      for j := 0 to |calls|
        invariant |calls| == |CallsAt(o, k)|
        invariant forall i :: 0 <= i < |calls| ==> calls[i] == if i < j then CallsAt(o, k)[i] else o.reply(k).calls[i]
      {
        if calls[j].id == "" {
          calls := calls[j := calls[j].(id := o.freshId(k, j))];
        }
      }
    }

    /** The assistant message of iteration `k`. */
    method Announce(calls: seq<Call>, o: Outside, k: nat, ghost body: Body, ghost b: Breaker)
      requires context.Valid() && o.reply(k).Reply? && calls == CallsAt(o, k) && IsBody(body, TheSetup(), o)
      modifies context`messages, context`currentTokens
      ensures context.Valid() && body(b, k).turn.messages != []
      ensures context.messages == old(context.messages) + [body(b, k).turn.messages[0]]
    {
      var reply := o.reply(k);
      context.AddAssistantWithToolCalls(reply.content, Wire(calls), reply.reasoning);
      assert Iterate(TheSetup(), o, b, k).turn.messages[0] ==
             AssistantMessage(reply.content, Wire(calls), reply.reasoning);
    }

    /** The tool messages of iteration `k`. */
    method Observe(results: seq<ExecResult>, o: Outside, k: nat, ghost body: Body, ghost b: Breaker)
      requires context.Valid() && o.reply(k).Reply? && IsBody(body, TheSetup(), o)
      requires results == body(b, k).batch.results && body(b, k).turn.messages != []
      modifies context`messages, context`currentTokens
      ensures context.Valid() && context.messages == old(context.messages) + body(b, k).turn.messages[1..]
    {
      assert Iterate(TheSetup(), o, b, k).turn.messages[1..] == Observations(results, o, k);
      AddObservations(results, o, k);
    }

    method AddObservations(results: seq<ExecResult>, o: Outside, k: nat)
      requires context.Valid()
      modifies context`messages, context`currentTokens
      ensures context.Valid() && context.messages == old(context.messages) + Observations(results, o, k)
    {
      for j := 0 to |results|
        invariant context.Valid() && context.messages == old(context.messages) + Observations(results[..j], o, k)
      {
        assert results[..j + 1][..j] == results[..j];
        context.AddToolResult(results[j].toolName, o.text(k, j), results[j].callId);
      }
      assert results[..|results|] == results;
    }

    /** Iteration `k` from the parsed tool calls on. */
    method Act(o: Outside, k: nat, ghost body: Body) returns (results: seq<ExecResult>)
      requires context.Valid() && o.reply(k).Reply? && IsBody(body, TheSetup(), o)
      modifies `ops, `effects, breaker, context`messages, context`currentTokens
      ensures results == body(old(breaker.Value()), k).batch.results
      ensures Follows(body(old(breaker.Value()), k).batch, old(ops), old(effects))
      ensures context.Valid()
      ensures context.messages == old(context.messages) + body(old(breaker.Value()), k).turn.messages
    {
      ghost var b := breaker.Value();
      var calls := WithIds(o, k);
      Announce(calls, o, k, body, b);
      results := ExecuteTurn(calls, o, k, body);
      Observe(results, o, k, body, b);
      ghost var ms := body(b, k).turn.messages;
      assert [ms[0]] + ms[1..] == ms;
    }

    /** The loop is at iteration `k` of the run that began as `f` says. */
    ghost predicate At(f: Begin, k: nat, p: Progress)
      reads this, breaker, context
    {
      && context.Valid() && p == ProgressAt(f.body, f.breaker, k)
      && breaker.Value() == p.breaker && ops == f.ops + p.ops && effects == f.effects + p.effects
      && context.messages == Window(f.room, f.start, p.turns)
    }

    /** The functions of `f` are the loop body and the overflow check. */
    ghost predicate Fixed(f: Begin, o: Outside)
      reads this
    {
      IsBody(f.body, TheSetup(), o) && IsRoom(f.room, config.maxTokens)
    }

    /** Iteration `k`, when it acts: the overflow check, the assistant message, the tools, their results. */
    method Iterated(o: Outside, k: nat, ghost f: Begin, ghost p: Progress)
      returns (results: seq<ExecResult>, ghost next: Progress)
      requires At(f, k, p) && Fixed(f, o) && o.reply(k).Reply?
      modifies `ops, `effects, breaker, context`messages, context`currentTokens
      ensures At(f, k + 1, next)
      ensures next.results == p.results + results
    {
      CheckOverflow(o.reply(k).outputTokens, f.room);
      results := Act(o, k, f.body);
      next := Proceed(p, f.body(p.breaker, k));
      TurnTokens(f.body, o, p.breaker, k, TheSetup());
      Advances(f, k, p);
    }

    /** `RegisterTool` for the tools of one run. */
    method RegisterTools(tools: seq<(string, Risk)>)
      modifies `registry
      ensures registry == Registered(old(registry), tools)
    {
      for i := 0 to |tools|
        invariant registry == Registered(old(registry), tools[..i])
      {
        assert tools[..i + 1][..i] == tools[..i];
        registry := registry[tools[i].0 := tools[i].1];
      }
      assert tools[..|tools|] == tools;
    }

    /** A run begins: the window is reset to the runbooks found and the input. */
    method Open(o: Outside, input: string)
      requires context.Valid()
      modifies context
      ensures context.Valid() && context.messages == Opening(o, input)
    {
      context.Reset();
      if o.runbooks.Some? {
        context.AddMessage(System, o.runbooks.value);
      }
      context.AddMessage(User, input);
    }

    /** The end of a run whose reply at iteration `n` has no tool calls. */
    method Answer(o: Outside, n: nat, ghost room: Room)
      requires context.Valid() && IsRoom(room, config.maxTokens)
      requires n < limit && !o.cancelled(n) && !o.timedOut(n) && o.reply(n).Reply?
      modifies context`messages, context`currentTokens
      ensures context.Valid() && context.messages == FinalWindow(room, limit, o, n, old(context.messages))
    {
      CheckOverflow(o.reply(n).outputTokens, room);
      context.AddMessage(Assistant, o.reply(n).content);
    }

    /** `ExecuteWithTools`: one run. `sent` are the windows sent to the model, `n` is the iteration that stops the run,
        and `p` what the iterations before it did. */
    method ExecuteWithTools(o: Outside, input: string, extraTools: seq<(string, Risk)>)
      returns (r: LoopResult, ghost sent: seq<seq<Message>>, ghost n: nat, ghost p: Progress)
      requires Valid()
      modifies `registry, `ops, `effects, breaker, context
      ensures Valid() && registry == Registered(old(registry), extraTools)
      ensures StopsAt(limit, o, n) && |sent| == RepliesAsked(limit, o, n) <= limit
      ensures AreSent(sent, LoopBody(TheSetup(), o), old(breaker.Value()), RoomOf(config.maxTokens), Opening(o, input))
      ensures r == LoopResult(EndState(limit, o, n), FinalResponse(limit, o, n), p.results, n)
      ensures p == ProgressAt(LoopBody(TheSetup(), o), old(breaker.Value()), n)
      ensures breaker.Value() == p.breaker && effects == old(effects) + p.effects
      ensures var room := RoomOf(config.maxTokens);
        context.messages == FinalWindow(room, limit, o, n, Window(room, Opening(o, input), p.turns))
    {
      Open(o, input);
      RegisterTools(extraTools);
      ghost var s, b := TheSetup(), breaker.Value();
      ghost var f := Begin(LoopBody(s, o), RoomOf(config.maxTokens), b, ops, effects, context.messages);
      r, sent, n, p := Loop(o, f);
      RunIsCounted(s, o, b, n);
      CountsAppend(Fresh(breaker.maxL2Ops, breaker.maxConsecWrites), old(ops), old(effects),
                   b, p.ops, p.effects, p.breaker);
    }

    /** The tests before the model is asked. */
    method Check(o: Outside, k: nat, results: seq<ExecResult>) returns (r: Option<LoopResult>)
      requires k <= limit
      ensures r.None? <==> RepliesAsked(limit, o, k) == k + 1
      ensures r.Some? ==> r.value == LoopResult(EndState(limit, o, k), FinalResponse(limit, o, k), results, k)
      ensures r.Some? ==> !Acts(limit, o, k)
    {
      if o.cancelled(k) {
        return Some(LoopResult(Cancelled, "", results, k));
      }
      if o.timedOut(k) {
        return Some(LoopResult(Timeout, "", results, k));
      }
      if k >= limit {
        return Some(LoopResult(Completed, AT_LIMIT, results, k));
      }
      return None;
    }

    /** The reply to a request, when it ends the run. */
    method Finish(o: Outside, k: nat, results: seq<ExecResult>, ghost room: Room) returns (r: Option<LoopResult>)
      requires context.Valid() && IsRoom(room, config.maxTokens) && RepliesAsked(limit, o, k) == k + 1
      modifies context`messages, context`currentTokens
      ensures context.Valid() && (r.None? <==> Acts(limit, o, k))
      ensures r.None? ==> o.reply(k).Reply? && context.messages == old(context.messages)
      ensures r.Some? ==> r.value == LoopResult(EndState(limit, o, k), FinalResponse(limit, o, k), results, k)
      ensures r.Some? ==> context.messages == FinalWindow(room, limit, o, k, old(context.messages))
    {
      if o.reply(k).Failed? {
        return Some(LoopResult(Error, "", results, k));
      }
      if o.reply(k).calls == [] {
        Answer(o, k, room);
        return Some(LoopResult(Completed, o.reply(k).content, results, k));
      }
      return None;
    }

    /** Iteration `k` up to the parsed reply: it ends the run or goes on to act. */
    method Think(o: Outside, k: nat, results: seq<ExecResult>, ghost room: Room)
      returns (r: Option<LoopResult>, ghost asked: nat)
      requires context.Valid() && IsRoom(room, config.maxTokens) && k <= limit
      modifies context`messages, context`currentTokens
      ensures context.Valid() && (r.None? <==> Acts(limit, o, k)) && k + asked == RepliesAsked(limit, o, k)
      ensures r.None? ==> o.reply(k).Reply? && k < limit && asked == 1 && context.messages == old(context.messages)
      ensures r.Some? ==> r.value == LoopResult(EndState(limit, o, k), FinalResponse(limit, o, k), results, k)
      ensures r.Some? ==> context.messages == FinalWindow(room, limit, o, k, old(context.messages))
    {
      r := Check(o, k, results);
      asked := 0;
      if r.None? {
        asked := 1;
        r := Finish(o, k, results, room);
      }
    }

    /** A run that began as `f` says ended at iteration `n`. */
    ghost predicate Ended(f: Begin, o: Outside, n: nat, p: Progress)
      reads this, breaker, context
    {
      && context.Valid() && p == ProgressAt(f.body, f.breaker, n)
      && breaker.Value() == p.breaker && ops == f.ops + p.ops && effects == f.effects + p.effects
      && context.messages == FinalWindow(f.room, limit, o, n, Window(f.room, f.start, p.turns))
    }

    /** One iteration of the main loop, after `k` that acted. */
    method Round(o: Outside, k: nat, results: seq<ExecResult>, ghost f: Begin, ghost p: Progress)
      returns (end: Option<LoopResult>, more: seq<ExecResult>, ghost asked: nat, ghost next: Progress)
      requires At(f, k, p) && Fixed(f, o) && k <= limit && AllAct(limit, o, k)
      modifies `ops, `effects, breaker, context`messages, context`currentTokens
      ensures end.None? ==> k < limit && asked == 1 && At(f, k + 1, next) && next.results == p.results + more
      ensures end.None? ==> AllAct(limit, o, k + 1)
      ensures asked <= 1
      ensures end.Some? ==> StopsAt(limit, o, k) && k + asked == RepliesAsked(limit, o, k) <= limit
      ensures end.Some? ==> end.value == LoopResult(EndState(limit, o, k), FinalResponse(limit, o, k), results, k)
      ensures end.Some? ==> Ended(f, o, k, p)
    {
      more, next := [], p;
      end, asked := Think(o, k, results, f.room);
      if end.None? {
        more, next := Iterated(o, k, f, p);
      }
    }

    /** The main loop. */
    method Loop(o: Outside, ghost f: Begin)
      returns (r: LoopResult, ghost sent: seq<seq<Message>>, ghost n: nat, ghost p: Progress)
      requires At(f, 0, ProgressAt(f.body, f.breaker, 0)) && Fixed(f, o)
      modifies `ops, `effects, breaker, context`messages, context`currentTokens
      ensures StopsAt(limit, o, n) && |sent| == RepliesAsked(limit, o, n) <= limit
      ensures AreSent(sent, f.body, f.breaker, f.room, f.start)
      ensures r == LoopResult(EndState(limit, o, n), FinalResponse(limit, o, n), p.results, n)
      ensures Ended(f, o, n, p)
    {
      n, sent, p := 0, [], ProgressAt(f.body, f.breaker, 0);
      var k: nat := 0;
      var results: seq<ExecResult> := [];
      while true
        invariant k <= limit && |sent| == n == k && results == p.results
        invariant AllAct(limit, o, k) && Fixed(f, o) && At(f, k, p)
        invariant AreSent(sent, f.body, f.breaker, f.room, f.start)
        decreases limit - k
      {
        var end, more;
        ghost var request, next;
        ghost var window := context.messages;
        end, more, request, next := Round(o, k, results, f, p);
        if request == 1 {
          SentGrows(sent, f.body, f.breaker, f.room, f.start, window);
          sent := sent + [window];
        }
        if end.Some? {
          return end.value, sent, n, p;
        }
        k, n, p, results := k + 1, n + 1, next, results + more;
      }
    }

    /** `SetConfirmationHandler` and `SetSnapshotter` wire what runs ask. */
    method SetConfirmationHandler()
      requires Valid()
      modifies `config
      ensures Valid() && config == old(config).(hasHandler := true)
    {
      config := config.(hasHandler := true);
    }

    method SetSnapshotter()
      requires Valid()
      modifies `hasSnapshotter
      ensures Valid() && hasSnapshotter
    {
      hasSnapshotter := true;
    }
  }

  /** `path` holds what was done after no call, after the first, after the second, and so on. */
  ghost predicate ArePath(path: seq<Batch>, s: Setup, calls: seq<Call>, a: Answers)
  {
    |path| == |calls| + 1 && forall j :: 0 <= j < |calls| ==> Handled(path, s, calls, a, j)
  }

  ghost predicate Handled(path: seq<Batch>, s: Setup, calls: seq<Call>, a: Answers, j: nat)
    requires j < |calls| && |path| == |calls| + 1
  {
    path[j + 1] == HandleCall(s, path[j], calls[j], a.verdict(j), a.snapshotOk(j), a.toolOk(j))
  }

  lemma Batches(s: Setup, b: Breaker, calls: seq<Call>, a: Answers) returns (path: seq<Batch>)
    ensures ArePath(path, s, calls, a)
    ensures path[0] == Batch(b, [], [], []) && path[|calls|] == ExecuteCalls(s, b, calls, a)
  {
    path := seq(|calls| + 1, n requires 0 <= n <= |calls| => HandleCalls(s, b, calls, a, n));
  }

  /** The values of the next iteration fit those of this one. */
  lemma Advances(f: Begin, k: nat, p: Progress)
    requires p == ProgressAt(f.body, f.breaker, k)
    ensures var it, next := f.body(p.breaker, k), Proceed(p, f.body(p.breaker, k));
      && next == ProgressAt(f.body, f.breaker, k + 1)
      && Window(f.room, f.start, next.turns) ==
         f.room(Window(f.room, f.start, p.turns), it.turn.outputTokens) + it.turn.messages
      && f.ops + p.ops + it.batch.ops == f.ops + next.ops
      && f.effects + p.effects + it.batch.effects == f.effects + next.effects
  {
    WindowGrows(f.room, f.start, p.turns, f.body(p.breaker, k).turn);
  }

  lemma TurnTokens(body: Body, o: Outside, b: Breaker, k: nat, s: Setup)
    requires IsBody(body, s, o) && o.reply(k).Reply?
    ensures body(b, k).turn.outputTokens == o.reply(k).outputTokens
  {
    assert body(b, k) == Iterate(s, o, b, k);
  }
}
