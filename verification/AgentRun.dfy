// What a run of the agent loop does (ExecuteWithTools in pkg/agent/loop.go), as
// values: its turns, its window, and what holds of every run.
module AgentRun {
  import opened Common
  import opened CircuitBreaker
  import opened ContextWindow
  import opened CallExecution

  // ----- Configuration -----

  datatype Config = Config(maxIterations: int, maxTokens: int, dryRun: bool, maxL2Operations: int,
                           maxConsecutiveWrite: int, autoSnapshot: bool, autoRollback: bool, hasHandler: bool)

  const DEFAULT := Config(10, 100000, false, 5, 3, true, true, false)

  /** The configuration in force: a missing iteration limit replaces the whole of it by the default. */
  function Effective(c: Config): Config
  {
    if c.maxIterations == 0 then DEFAULT else c
  }

  function IterationLimit(c: Config): nat
  {
    Limit(Effective(c).maxIterations, 10)
  }

  /** A dry run is one only if an iteration limit was configured as well. */
  lemma DryRunSurvivesIff(c: Config)
    ensures Effective(c).dryRun <==> c.dryRun && c.maxIterations != 0
  {
  }

  /** The limits in force: those configured, if they are positive and an iteration limit was configured. */
  lemma LimitsInForce(c: Config)
    ensures IterationLimit(c) == if c.maxIterations > 0 then c.maxIterations else 10
    ensures Effective(c).maxTokens == if c.maxIterations != 0 then c.maxTokens else 100000
    ensures c.maxIterations == 0 ==>
              Limit(Effective(c).maxL2Operations, 5) == 5 && Limit(Effective(c).maxConsecutiveWrite, 3) == 3
    ensures c.maxIterations != 0 && c.maxL2Operations > 0 ==>
              Limit(Effective(c).maxL2Operations, 5) == c.maxL2Operations
  {
  }

  // ----- The outside -----

  /** A reply of the model, with its tool calls parsed. */
  datatype Reply = Failed | Reply(content: string, reasoning: string, calls: seq<Call>, outputTokens: int)

  /** What the outside does: its behaviour at iteration `k`, and at the call at `j` of that iteration. */
  datatype Outside = Outside(
    reply: nat -> Reply, cancelled: nat -> bool, timedOut: nat -> bool,
    answers: nat -> Answers, freshId: (nat, nat) -> string, text: (nat, nat) -> string, runbooks: Option<string>)

  /** The calls of iteration `k`, where those without an id get one. */
  function CallsAt(o: Outside, k: nat): (r: seq<Call>)
    ensures |r| == if o.reply(k).Reply? then |o.reply(k).calls| else 0
  {
    if o.reply(k).Failed? then [] else
    var calls := o.reply(k).calls;
    seq(|calls|, j requires 0 <= j < |calls| =>
      if calls[j].id == "" then calls[j].(id := o.freshId(k, j)) else calls[j])
  }

  // ----- What the loop does -----

  datatype State = Completed | Error | Timeout | Cancelled

  /** One iteration that executed tool calls, and the messages it put into the window. */
  datatype Turn = Turn(outputTokens: int, calls: seq<Call>, results: seq<ExecResult>, messages: seq<Message>)

  /** The loop goes on to execute the tool calls of iteration `k`. */
  predicate Acts(limit: nat, o: Outside, k: nat)
  {
    !o.cancelled(k) && !o.timedOut(k) && k < limit && o.reply(k).Reply? && o.reply(k).calls != []
  }

  /** Iteration `n` is the one that stops the loop. */
  ghost predicate StopsAt(limit: nat, o: Outside, n: nat)
  {
    !Acts(limit, o, n) && AllAct(limit, o, n)
  }

  ghost predicate AllAct(limit: nat, o: Outside, n: nat)
  {
    forall k :: 0 <= k < n ==> Acts(limit, o, k)
  }

  /** How the loop ends when iteration `n` stops it. */
  function EndState(limit: nat, o: Outside, n: nat): State
  {
    if o.cancelled(n) then Cancelled
    else if o.timedOut(n) then Timeout
    else if n >= limit then Completed
    else if o.reply(n).Failed? then Error
    else Completed
  }

  const AT_LIMIT := "Reached maximum iterations. Task may not be fully completed."

  function FinalResponse(limit: nat, o: Outside, n: nat): string
  {
    if EndState(limit, o, n) != Completed then "" else if n >= limit then AT_LIMIT else o.reply(n).content
  }

  /** How often the model was asked. */
  function RepliesAsked(limit: nat, o: Outside, n: nat): nat
  {
    if o.cancelled(n) || o.timedOut(n) || n >= limit then n else n + 1
  }

  /** The calls as the window keeps them. */
  function Wire(calls: seq<Call>): (r: seq<ToolCall>)
    ensures |r| == |calls| && forall j :: 0 <= j < |calls| ==>
      r[j] == ToolCall(calls[j].id, calls[j].name, calls[j].arguments)
  {
    seq(|calls|, j requires 0 <= j < |calls| => ToolCall(calls[j].id, calls[j].name, calls[j].arguments))
  }

  /** The tool messages of iteration `k`. */
  function Observations(results: seq<ExecResult>, o: Outside, k: nat): (r: seq<Message>)
    ensures |r| == |results|
    ensures forall j :: 0 <= j < |r| ==> r[j].role == Tool && r[j].toolCallId == results[j].callId && !r[j].isKey
  {
    if results == [] then [] else
    var n := |results| - 1;
    Observations(results[..n], o, k) + [ToolMessage(results[n].toolName, o.text(k, n), results[n].callId)]
  }

  function MakeTurn(o: Outside, k: nat, results: seq<ExecResult>): Turn
    requires o.reply(k).Reply?
  {
    var r, calls := o.reply(k), CallsAt(o, k);
    Turn(r.outputTokens, calls, results,
         [AssistantMessage(r.content, Wire(calls), r.reasoning)] + Observations(results, o, k))
  }

  /** One iteration that acts, from the breaker on. */
  datatype Iteration = Iteration(batch: Batch, turn: Turn)

  function Iterate(s: Setup, o: Outside, b: Breaker, k: nat): Iteration
  {
    var batch := ExecuteCalls(s, b, CallsAt(o, k), o.answers(k));
    Iteration(batch, if o.reply(k).Reply? then MakeTurn(o, k, batch.results) else Turn(0, [], [], []))
  }

  type Body = (Breaker, nat) -> Iteration

  function LoopBody(s: Setup, o: Outside): Body
  {
    (b: Breaker, k: nat) => Iterate(s, o, b, k)
  }

  /** The function `body` is the loop body. */
  ghost predicate IsBody(body: Body, s: Setup, o: Outside)
  {
    forall b: Breaker, k: nat {:trigger Iterate(s, o, b, k)} :: body(b, k) == Iterate(s, o, b, k)
  }

  /** The loop after some iterations: the breaker, what it was asked, the turns, the results and what was done. */
  datatype Progress = Progress(breaker: Breaker, ops: seq<Op>, turns: seq<Turn>,
                              results: seq<ExecResult>, effects: seq<Effect>)

  function Proceed(p: Progress, it: Iteration): Progress
  {
    Progress(it.batch.breaker, p.ops + it.batch.ops, p.turns + [it.turn], p.results + it.batch.results,
             p.effects + it.batch.effects)
  }

  function ProgressAt(body: Body, b: Breaker, n: nat): Progress
  {
    if n == 0 then Progress(b, [], [], [], [])
    else Proceed(ProgressAt(body, b, n - 1), body(ProgressAt(body, b, n - 1).breaker, n - 1))
  }

  // ----- Results over whole runs -----

  /** The calls of all turns. */
  ghost function Requested(turns: seq<Turn>): seq<Call>
  {
    if turns == [] then [] else Requested(turns[..|turns| - 1]) + turns[|turns| - 1].calls
  }

  lemma RequestedGrows(turns: seq<Turn>, t: Turn)
    ensures Requested(turns + [t]) == Requested(turns) + t.calls
  {
    assert (turns + [t])[..|turns|] == turns;
  }

  ghost predicate BodyAnswers(body: Body)
  {
    forall b: Breaker, k: nat :: AnswersCalls(body(b, k).turn.calls, body(b, k).batch.results)
  }

  lemma {:induction false} ProgressAnswers(body: Body, b: Breaker, n: nat)
    requires BodyAnswers(body)
    ensures var p := ProgressAt(body, b, n); AnswersCalls(Requested(p.turns), p.results)
  {
    if n > 0 {
      ProgressAnswers(body, b, n - 1);
      var p := ProgressAt(body, b, n - 1);
      var it := body(p.breaker, n - 1);
      RequestedGrows(p.turns, it.turn);
      AnswersAppend(Requested(p.turns), p.results, it.turn.calls, it.batch.results);
    }
  }

  // ----- Limits over whole runs -----

  ghost predicate RunCounted(b: Breaker, ops: seq<Op>, effects: seq<Effect>, now: Breaker)
  {
    now == Run(b, ops) && OnlyCalls(ops) && L2Runs(effects) <= AdmittedL2(b, ops)
  }

  ghost predicate BodyCounted(body: Body)
  {
    forall b: Breaker, k: nat :: L2RunsCounted(b, body(b, k).batch)
  }

  lemma {:induction false} AdmittedL2Append(b: Breaker, first: seq<Op>, second: seq<Op>)
    ensures AdmittedL2(b, first + second) == AdmittedL2(b, first) + AdmittedL2(Run(b, first), second)
    ensures Run(b, first + second) == Run(Run(b, first), second)
    decreases |second|
  {
    if second == [] {
      assert first + second == first;
    } else {
      var n := |second| - 1;
      var front, op := second[..n], second[n];
      AdmittedL2Append(b, first, front);
      assert second == front + [op];
      assert first + second == first + front + [op];
      OneMoreAdmitted(b, first, front, op);
    }
  }

  lemma OneMoreAdmitted(b: Breaker, first: seq<Op>, front: seq<Op>, op: Op)
    requires AdmittedL2(b, first + front) == AdmittedL2(b, first) + AdmittedL2(Run(b, first), front)
    requires Run(b, first + front) == Run(Run(b, first), front)
    ensures AdmittedL2(b, first + front + [op]) == AdmittedL2(b, first) + AdmittedL2(Run(b, first), front + [op])
    ensures Run(b, first + front + [op]) == Run(Run(b, first), front + [op])
  {
    AdmittedL2Snoc(b, first + front, op);
    AdmittedL2Snoc(Run(b, first), front, op);
  }

  /** Two stretches of use of one breaker, one after the other. */
  lemma CountsAppend(b: Breaker, ops: seq<Op>, effects: seq<Effect>, mid: Breaker,
                     moreOps: seq<Op>, moreEffects: seq<Effect>, now: Breaker)
    requires RunCounted(b, ops, effects, mid) && RunCounted(mid, moreOps, moreEffects, now)
    ensures RunCounted(b, ops + moreOps, effects + moreEffects, now)
  {
    AdmittedL2Append(b, ops, moreOps);
    OnlyCallsAppend(ops, moreOps);
    L2RunsAppend(effects, moreEffects);
  }

  lemma {:induction false} ProgressCounted(body: Body, b: Breaker, n: nat)
    requires BodyCounted(body)
    ensures var p := ProgressAt(body, b, n); RunCounted(b, p.ops, p.effects, p.breaker)
  {
    if n > 0 {
      ProgressCounted(body, b, n - 1);
      var p := ProgressAt(body, b, n - 1);
      var batch := body(p.breaker, n - 1).batch;
      assert L2RunsCounted(p.breaker, batch);
      CountsAppend(b, p.ops, p.effects, p.breaker, batch.ops, batch.effects, batch.breaker);
    }
  }

  ghost predicate BodyOnlyReads(body: Body)
  {
    forall b: Breaker, k: nat :: OnlyReadsRun(body(b, k).batch.effects)
  }

  lemma {:induction false} ProgressOnlyReads(body: Body, b: Breaker, n: nat)
    requires BodyOnlyReads(body)
    ensures OnlyReadsRun(ProgressAt(body, b, n).effects)
  {
    if n > 0 {
      ProgressOnlyReads(body, b, n - 1);
      assert OnlyReadsRun(body(ProgressAt(body, b, n - 1).breaker, n - 1).batch.effects);
    }
  }

  ghost predicate BodyRollsBack(body: Body)
  {
    forall b: Breaker, k: nat :: RollsBackFailures(body(b, k).batch.effects)
  }

  lemma {:induction false} ProgressRollsBack(body: Body, b: Breaker, n: nat)
    requires BodyRollsBack(body)
    ensures RollsBackFailures(ProgressAt(body, b, n).effects)
  {
    if n > 0 {
      ProgressRollsBack(body, b, n - 1);
      var p := ProgressAt(body, b, n - 1);
      RollbackAppend(p.effects, body(p.breaker, n - 1).batch.effects);
    }
  }

  // ----- The window -----

  /** Division that truncates toward zero. */
  function Quarter(n: int): int
  {
    if n >= 0 then n / 4 else -(-n / 4)
  }

  /** What a reply of `outputTokens` leaves room for, but no less than a quarter. */
  function TrimTarget(maxTokens: int, outputTokens: int): int
  {
    var target := maxTokens - outputTokens;
    if target < Quarter(maxTokens) then Quarter(maxTokens) else target
  }

  /** The window after the overflow check that follows a reply. */
  function RoomAfter(maxTokens: int, before: seq<Message>, outputTokens: int): seq<Message>
  {
    if Sum(before) + outputTokens > maxTokens then TrimmedTo(before, TrimTarget(maxTokens, outputTokens)) else before
  }

  /** After the check the window is within the target; together with a reply of at most three quarters of the budget it
      is within the budget. */
  lemma RoomIsEnough(maxTokens: int, before: seq<Message>, outputTokens: int)
    requires maxTokens >= 0
    ensures Sum(RoomAfter(maxTokens, before, outputTokens)) <= TrimTarget(maxTokens, outputTokens)
    ensures outputTokens <= maxTokens - maxTokens / 4 ==>
              Sum(RoomAfter(maxTokens, before, outputTokens)) + outputTokens <= maxTokens
  {
    if Sum(before) + outputTokens > maxTokens {
      TrimEndsWithin(before, TrimTarget(maxTokens, outputTokens));
    }
  }

  /** What a reply leaves of the budget, or a quarter of it. */
  predicate LeavesRoom(size: int, maxTokens: nat, outputTokens: int)
  {
    size <= maxTokens - outputTokens || size <= maxTokens / 4
  }

  /** The check changes a window without key messages only if the next request would exceed the budget, and then it
      drops the shortest beginning that leaves room. */
  lemma RoomDropsFront(maxTokens: nat, before: seq<Message>, outputTokens: int) returns (k: nat)
    requires Unmarked(before)
    ensures k <= |before| && RoomAfter(maxTokens, before, outputTokens) == before[k..]
    ensures Sum(before) + outputTokens <= maxTokens ==> k == 0
    ensures LeavesRoom(Sum(before[k..]), maxTokens, outputTokens)
    ensures forall i :: 0 <= i < k ==> !LeavesRoom(Sum(before[i..]), maxTokens, outputTokens)
  {
    var target := TrimTarget(maxTokens, outputTokens);
    if Sum(before) <= target || Sum(before) + outputTokens <= maxTokens {
      k := 0;
      assert before[0..] == before;
    } else {
      ClassOfUniform(before, false);
      k := TrimDropsShortestPrefix(before, target);
      assert before[k..] + [] == before[k..];
      ShortestLeaves(before, target, k);
    }
  }

  lemma ShortestLeaves(before: seq<Message>, target: int, k: nat)
    requires ShortestPrefix(before, Sum(before) - target, k) && target >= 0
    ensures Sum(before[k..]) <= target && forall i :: 0 <= i < k ==> Sum(before[i..]) > target
  {
    forall i | 0 <= i <= |before|
      ensures Sum(before) == Sum(before[..i]) + Sum(before[i..])
    {
      SumAppend(before[..i], before[i..]);
      assert before[..i] + before[i..] == before;
    }
    assert before[|before|..] == [];
  }

  type Room = (seq<Message>, int) -> seq<Message>

  function RoomOf(maxTokens: int): Room
  {
    (before: seq<Message>, outputTokens: int) => RoomAfter(maxTokens, before, outputTokens)
  }

  /** The function `room` is the overflow check. */
  ghost predicate IsRoom(room: Room, maxTokens: int)
  {
    forall before: seq<Message>, outputTokens: int {:trigger RoomAfter(maxTokens, before, outputTokens)} ::
      room(before, outputTokens) == RoomAfter(maxTokens, before, outputTokens)
  }

  /** What `turns` make of the window `start`: before each turn the overflow check, then its messages. */
  ghost function Window(room: Room, start: seq<Message>, turns: seq<Turn>): seq<Message>
  {
    if turns == [] then start else
    var t := turns[|turns| - 1];
    room(Window(room, start, turns[..|turns| - 1]), t.outputTokens) + t.messages
  }

  /** The window sent to the model in iteration `k`. */
  ghost function SentAt(body: Body, b: Breaker, room: Room, start: seq<Message>, k: nat): seq<Message>
  {
    Window(room, start, ProgressAt(body, b, k).turns)
  }

  /** `sent` are the windows of the first iterations. */
  ghost predicate AreSent(sent: seq<seq<Message>>, body: Body, b: Breaker, room: Room, start: seq<Message>)
  {
    forall k :: 0 <= k < |sent| ==> sent[k] == SentAt(body, b, room, start, k)
  }

  lemma SentGrows(sent: seq<seq<Message>>, body: Body, b: Breaker, room: Room, start: seq<Message>, w: seq<Message>)
    requires AreSent(sent, body, b, room, start) && w == SentAt(body, b, room, start, |sent|)
    ensures AreSent(sent + [w], body, b, room, start)
  {
  }

  lemma WindowGrows(room: Room, start: seq<Message>, turns: seq<Turn>, t: Turn)
    ensures Window(room, start, turns + [t]) == room(Window(room, start, turns), t.outputTokens) + t.messages
  {
    assert (turns + [t])[..|turns|] == turns;
  }

  /** The message list a run starts from. */
  function Opening(o: Outside, input: string): seq<Message>
  {
    (if o.runbooks.Some? then [PlainMessage(System, o.runbooks.value)] else []) + [PlainMessage(User, input)]
  }

  /** The window at the end of a run that stopped at iteration `n` with the window `before`: a final answer is checked
      for overflow like any reply, and added. */
  function FinalWindow(room: Room, limit: nat, o: Outside, n: nat, before: seq<Message>): seq<Message>
  {
    if o.cancelled(n) || o.timedOut(n) || n >= limit || o.reply(n).Failed? then before
    else room(before, o.reply(n).outputTokens) + [PlainMessage(Assistant, o.reply(n).content)]
  }

  // ----- What reaches the model and the user -----

  /** The first request ends with the input of the user, as it is; the runbooks found come before it. */
  lemma InputIsSent(body: Body, b: Breaker, room: Room, o: Outside, input: string)
    ensures var sent := SentAt(body, b, room, Opening(o, input), 0);
      && |sent| == (if o.runbooks.Some? then 2 else 1)
      && sent[|sent| - 1].role == User && sent[|sent| - 1].content == input
      && (o.runbooks.Some? ==> sent[0].role == System && sent[0].content == o.runbooks.value)
  {
  }

  lemma {:induction false} ObservationAt(results: seq<ExecResult>, o: Outside, k: nat, j: nat)
    requires j < |results|
    ensures Observations(results, o, k)[j] == ToolMessage(results[j].toolName, o.text(k, j), results[j].callId)
  {
    if j < |results| - 1 {
      ObservationAt(results[..|results| - 1], o, k, j);
    }
  }

  /** What an iteration adds to the window for its reply: the text, the reasoning and the calls, word by word. */
  ghost predicate TellsReply(m: Message, r: Reply, calls: seq<Call>)
    requires r.Reply?
  {
    && m.role == Assistant && m.content == r.content && m.reasoning == r.reasoning && |m.toolCalls| == |calls|
    && forall j :: 0 <= j < |calls| ==>
      m.toolCalls[j] == ToolCall(calls[j].id, calls[j].name, calls[j].arguments)
  }

  /** And for a result: the name of the tool and the whole text it gave. */
  ghost predicate TellsResult(m: Message, r: ExecResult, text: string)
  {
    && m.role == Tool && m.toolCallId == r.callId && m.name == r.toolName
    && m.content == "Tool " + r.toolName + " result: " + text
  }

  /** `ms` tells the reply, and then every result in order. */
  ghost predicate TellsTurn(ms: seq<Message>, o: Outside, k: nat, results: seq<ExecResult>)
    requires o.reply(k).Reply?
  {
    && |results| == |CallsAt(o, k)| && |ms| == 1 + |results| && TellsReply(ms[0], o.reply(k), CallsAt(o, k))
    && forall j :: 0 <= j < |results| ==> TellsResult(ms[1 + j], results[j], o.text(k, j))
  }

  lemma TurnTells(o: Outside, k: nat, results: seq<ExecResult>)
    requires o.reply(k).Reply? && |results| == |CallsAt(o, k)|
    ensures TellsTurn(MakeTurn(o, k, results).messages, o, k, results)
  {
    forall j | 0 <= j < |results|
      ensures TellsResult(MakeTurn(o, k, results).messages[1 + j], results[j], o.text(k, j))
    {
      ObservationAt(results, o, k, j);
    }
  }

  /** The request after an iteration that acted is the one before, with room made for the reply, then the reply, then
      the text of every result in order: nothing the model asked for is kept from it. */
  lemma ResultsAreSent(s: Setup, o: Outside, b: Breaker, room: Room, start: seq<Message>, k: nat)
    requires o.reply(k).Reply?
    ensures var body := LoopBody(s, o);
      var kept := room(SentAt(body, b, room, start, k), o.reply(k).outputTokens);
      var sent, results := SentAt(body, b, room, start, k + 1), body(ProgressAt(body, b, k).breaker, k).batch.results;
      kept <= sent && TellsTurn(sent[|kept|..], o, k, results)
  {
    var p := ProgressAt(LoopBody(s, o), b, k);
    var it := LoopBody(s, o)(p.breaker, k);
    WindowGrows(room, start, p.turns, it.turn);
    ResultsAnswerCalls(s, p.breaker, CallsAt(o, k), o.answers(k));
    TurnTells(o, k, it.batch.results);
    BehindPrefix(room(SentAt(LoopBody(s, o), b, room, start, k), o.reply(k).outputTokens), it.turn.messages);
  }

  lemma BehindPrefix(kept: seq<Message>, more: seq<Message>)
    ensures kept <= kept + more && (kept + more)[|kept|..] == more
  {
  }

  /** How a run ends, by what stops it, and what the user is told: the text of the last reply, which is also the last
      message of the window; a fixed text at the iteration limit; and nothing otherwise. */
  lemma AnswerIsLastReply(room: Room, limit: nat, o: Outside, n: nat, before: seq<Message>)
    ensures var asked := !o.cancelled(n) && !o.timedOut(n) && n < limit;
      var state, answer, w := EndState(limit, o, n), FinalResponse(limit, o, n), FinalWindow(room, limit, o, n, before);
      && (asked && o.reply(n).Reply? ==>
            && state == Completed && answer == o.reply(n).content
            && w == room(before, o.reply(n).outputTokens) + [w[|w| - 1]]
            && w[|w| - 1].role == Assistant && w[|w| - 1].content == answer && w[|w| - 1].toolCalls == [])
      && (asked && o.reply(n).Failed? ==> state == Error)
      && (!o.cancelled(n) && !o.timedOut(n) && n >= limit ==> state == Completed && answer == AT_LIMIT)
      && (o.cancelled(n) <==> state == Cancelled) && (o.timedOut(n) && !o.cancelled(n) <==> state == Timeout)
      && (state != Completed ==> answer == "") && (!asked || o.reply(n).Failed? ==> w == before)
  {
  }

  // ----- What holds of every run -----

  /** Every requested call of a run has one result, in request order. */
  lemma EveryCallAnswered(s: Setup, o: Outside, b: Breaker, n: nat)
    ensures var p := ProgressAt(LoopBody(s, o), b, n); AnswersCalls(Requested(p.turns), p.results)
  {
    forall b: Breaker, k: nat
      ensures AnswersCalls(LoopBody(s, o)(b, k).turn.calls, LoopBody(s, o)(b, k).batch.results)
    {
      ResultsAnswerCalls(s, b, CallsAt(o, k), o.answers(k));
    }
    ProgressAnswers(LoopBody(s, o), b, n);
  }

  lemma RunIsCounted(s: Setup, o: Outside, b: Breaker, n: nat)
    ensures var p := ProgressAt(LoopBody(s, o), b, n); RunCounted(b, p.ops, p.effects, p.breaker)
  {
    forall b: Breaker, k: nat
      ensures L2RunsCounted(b, LoopBody(s, o)(b, k).batch)
    {
      L2RunsAdmitted(s, b, CallsAt(o, k), o.answers(k), |CallsAt(o, k)|);
    }
    ProgressCounted(LoopBody(s, o), b, n);
  }

  lemma {:induction false} ProgressGrows(body: Body, b: Breaker, k: nat, n: nat)
    requires k <= n
    ensures ProgressAt(body, b, k).effects <= ProgressAt(body, b, n).effects
  {
    if k < n {
      ProgressGrows(body, b, k, n - 1);
    }
  }

  /** The effects of iteration `k` stand in the effects of the run right behind those of the iterations before. */
  lemma EffectsOfIteration(s: Setup, o: Outside, b: Breaker, k: nat, n: nat)
    requires k < n
    ensures var before, all := ProgressAt(LoopBody(s, o), b, k), ProgressAt(LoopBody(s, o), b, n).effects;
      before.effects + ExecuteCalls(s, before.breaker, CallsAt(o, k), o.answers(k)).effects <= all
  {
    ProgressGrows(LoopBody(s, o), b, k + 1, n);
  }

  lemma DoneInRun(s: Setup, now: Breaker, calls: seq<Call>, a: Answers, j: nat, before: seq<Effect>, all: seq<Effect>)
    requires j < |calls| && before + ExecuteCalls(s, now, calls, a).effects <= all
    ensures IsPart(all, |before| + EffectsFrom(s, now, calls, a, j), DoneFor(s, now, calls, a, j))
  {
    DoneInBatch(s, now, calls, a, j);
    PartOfPart(before, ExecuteCalls(s, now, calls, a).effects, all, EffectsFrom(s, now, calls, a, j),
               DoneFor(s, now, calls, a, j));
  }

  /** What is done for call `j` of iteration `k` stands in the effects of the run, and is what should be done for it: it
      is rolled back exactly if it ran and failed, its snapshot was taken and rollbacks are on. */
  lemma RunRollsBackIff(s: Setup, o: Outside, b: Breaker, n: nat, k: nat, j: nat) returns (at: nat, done: seq<Effect>)
    requires k < n && j < |CallsAt(o, k)|
    ensures IsPart(ProgressAt(LoopBody(s, o), b, n).effects, at, done)
    ensures var now := ProgressAt(LoopBody(s, o), b, k).breaker;
      CallIsSaved(s, now, CallsAt(o, k), o.answers(k), j, done)
  {
    var before := ProgressAt(LoopBody(s, o), b, k);
    EffectsOfIteration(s, o, b, k, n);
    at, done := CallIsDone(s, before.breaker, CallsAt(o, k), o.answers(k), j, before.effects,
                           ProgressAt(LoopBody(s, o), b, n).effects);
  }

  lemma CallIsDone(s: Setup, now: Breaker, calls: seq<Call>, a: Answers, j: nat, before: seq<Effect>, all: seq<Effect>)
    returns (at: nat, done: seq<Effect>)
    requires j < |calls| && before + ExecuteCalls(s, now, calls, a).effects <= all
    ensures IsPart(all, at, done) && CallIsSaved(s, now, calls, a, j, done)
  {
    at, done := |before| + EffectsFrom(s, now, calls, a, j), DoneFor(s, now, calls, a, j);
    DoneInRun(s, now, calls, a, j, before, all);
    RolledBackIff(s, now, calls, a, j);
  }

  lemma PartOfPart(before: seq<Effect>, batch: seq<Effect>, all: seq<Effect>, from: nat, part: seq<Effect>)
    requires before + batch <= all && IsPart(batch, from, part)
    ensures IsPart(all, |before| + from, part)
  {
    assert all[..|before + batch|] == before + batch;
    assert forall i :: 0 <= i < |batch| ==> all[|before| + i] == batch[i];
  }

  /** Under a dry run only L0 tools run, and nothing is rolled back. */
  lemma DryRunsOnlyRead(s: Setup, o: Outside, b: Breaker, n: nat)
    requires s.dryRun
    ensures OnlyReadsRun(ProgressAt(LoopBody(s, o), b, n).effects)
  {
    forall b: Breaker, k: nat
      ensures OnlyReadsRun(LoopBody(s, o)(b, k).batch.effects)
    {
      DryRunOnlyReads(s, b, CallsAt(o, k), o.answers(k), |CallsAt(o, k)|);
    }
    ProgressOnlyReads(LoopBody(s, o), b, n);
  }

  /** Every rollback of a run restores the snapshot taken right before a call that ran and failed. */
  lemma RollbacksFollowFailures(s: Setup, o: Outside, b: Breaker, n: nat)
    ensures RollsBackFailures(ProgressAt(LoopBody(s, o), b, n).effects)
  {
    forall b: Breaker, k: nat
      ensures RollsBackFailures(LoopBody(s, o)(b, k).batch.effects)
    {
      RollbackIsOrderly(s, b, CallsAt(o, k), o.answers(k), |CallsAt(o, k)|);
    }
    ProgressRollsBack(LoopBody(s, o), b, n);
  }
}
