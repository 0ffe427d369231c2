// Whether the messages of a run answer its tool calls: an assistant message with
// calls, then one tool message for each, through trimming of the window.
module MessagePairing {
  import opened Common
  import opened CircuitBreaker
  import opened ContextWindow
  import opened CallExecution
  import opened AgentRun

  // ----- The conversation -----

  /** Everything the turns append. */
  ghost function Conversation(turns: seq<Turn>): seq<Message>
  {
    if turns == [] then [] else Conversation(turns[..|turns| - 1]) + turns[|turns| - 1].messages
  }

  /** What the protocol asks: an assistant message with tool calls is followed at once by one tool message for each of
      them, with their ids in their order, and there is no other tool message. */
  predicate Paired(ms: seq<Message>)
    decreases |ms|
  {
    if ms == [] then true
    else if ms[0].role == Assistant && ms[0].toolCalls != [] then
      var n := |ms[0].toolCalls|;
      n < |ms| && Answered(ms[0].toolCalls, ms[1..n + 1]) && Paired(ms[n + 1..])
    else ms[0].role != Tool && Paired(ms[1..])
  }

  predicate Answered(calls: seq<ToolCall>, ms: seq<Message>)
  {
    |ms| == |calls| &&
    forall j :: 0 <= j < |calls| ==> ms[j].role == Tool && ms[j].toolCallId == calls[j].id
  }

  /** No risk evaluation failed. */
  ghost predicate AllEvaluated(results: seq<ExecResult>)
  {
    forall j :: 0 <= j < |results| ==> results[j].outcome != EvaluationFailed
  }

  /** The turn has calls, all with ids, its results answer them, and its messages are the assistant's with the calls
      and one for each result. */
  ghost predicate Regular(t: Turn)
  {
    && t.calls != [] && AnswersCalls(t.calls, t.results)
    && (forall j :: 0 <= j < |t.calls| ==> t.calls[j].id != "")
    && |t.messages| == 1 + |t.results|
    && t.messages[0].role == Assistant && t.messages[0].toolCalls == Wire(t.calls)
    && Unmarked(t.messages)
    && forall j :: 0 <= j < |t.results| ==>
         t.messages[1 + j].role == Tool && t.messages[1 + j].toolCallId == t.results[j].callId
  }

  ghost predicate AllRegular(turns: seq<Turn>)
  {
    forall i :: 0 <= i < |turns| ==> Regular(turns[i])
  }

  ghost predicate EachEvaluated(turns: seq<Turn>)
  {
    forall i :: 0 <= i < |turns| ==> AllEvaluated(turns[i].results)
  }

  lemma TurnAnswered(t: Turn)
    requires Regular(t)
    ensures Answered(Wire(t.calls), t.messages[1..]) <==> AllEvaluated(t.results)
  {
    var ms := t.messages[1..];
    forall j | 0 <= j < |t.calls|
      ensures ms[j].role == Tool && (ms[j].toolCallId == Wire(t.calls)[j].id <==>
          t.results[j].outcome != EvaluationFailed)
    {
      assert AnswersCall(t.calls[j], t.results[j]) && ms[j] == t.messages[1 + j];
    }
  }

  lemma TurnPaired(t: Turn, rest: seq<Message>)
    requires Regular(t)
    ensures Paired(t.messages + rest) <==> AllEvaluated(t.results) && Paired(rest)
  {
    var ms, n := t.messages + rest, |t.calls|;
    TurnAnswered(t);
    assert ms[1..n + 1] == t.messages[1..] && ms[n + 1..] == rest && ms[0] == t.messages[0];
  }

  ghost predicate BodyRegular(body: Body, n: nat)
  {
    forall b: Breaker, k: nat :: k < n ==> Regular(body(b, k).turn)
  }

  lemma {:induction false} ProgressRegular(body: Body, b: Breaker, n: nat)
    requires BodyRegular(body, n)
    ensures AllRegular(ProgressAt(body, b, n).turns)
  {
    if n > 0 {
      ProgressRegular(body, b, n - 1);
      assert Regular(body(ProgressAt(body, b, n - 1).breaker, n - 1).turn);
    }
  }

  lemma RegularParts(t: Turn, first: Message, others: seq<Message>)
    requires t.messages == [first] + others && first.role == Assistant && first.toolCalls == Wire(t.calls)
             && !first.isKey
    requires t.calls != [] && AnswersCalls(t.calls, t.results) && |others| == |t.results|
    requires forall j :: 0 <= j < |t.calls| ==> t.calls[j].id != ""
    requires forall j :: 0 <= j < |others| ==>
      others[j].role == Tool && others[j].toolCallId == t.results[j].callId && !others[j].isKey
    ensures Regular(t)
  {
    forall i | 0 < i < |t.messages|
      ensures t.messages[i] == others[i - 1] && !t.messages[i].isKey
    {
    }
    forall j | 0 <= j < |t.results|
      ensures t.messages[1 + j].role == Tool && t.messages[1 + j].toolCallId == t.results[j].callId
    {
      assert t.messages[1 + j] == others[j];
    }
  }

  lemma MadeTurnIsRegular(o: Outside, k: nat, results: seq<ExecResult>)
    requires o.reply(k).Reply? && o.reply(k).calls != [] && AnswersCalls(CallsAt(o, k), results)
    requires forall j: nat :: o.freshId(k, j) != ""
    ensures Regular(MakeTurn(o, k, results))
  {
    var t, r := MakeTurn(o, k, results), o.reply(k);
    RegularParts(t, AssistantMessage(r.content, Wire(t.calls), r.reasoning), Observations(results, o, k));
  }

  /** A conversation without trimming is paired exactly when no risk evaluation failed in it. */
  lemma {:induction false} ConversationPaired(turns: seq<Turn>, rest: seq<Message>)
    requires AllRegular(turns)
    ensures Paired(Conversation(turns) + rest) <==> EachEvaluated(turns) && Paired(rest)
  {
    if turns == [] {
      assert Conversation(turns) + rest == rest;
    } else {
      var front, t := turns[..|turns| - 1], turns[|turns| - 1];
      ConversationPaired(front, t.messages + rest);
      TurnPaired(t, rest);
      ConversationThen(turns, rest);
      EvaluatedSnoc(turns);
    }
  }

  lemma ConversationThen(turns: seq<Turn>, rest: seq<Message>)
    requires turns != []
    ensures var n := |turns| - 1;
      Conversation(turns) + rest == Conversation(turns[..n]) + (turns[n].messages + rest)
  {
    var n := |turns| - 1;
    var before := Conversation(turns[..n]);
    assert Conversation(turns) == before + turns[n].messages;
    PlusIsAssociative(before, turns[n].messages, rest);
  }

  lemma EvaluatedSnoc(turns: seq<Turn>)
    requires turns != []
    ensures EachEvaluated(turns) <==> EachEvaluated(turns[..|turns| - 1]) && AllEvaluated(turns[|turns| - 1].results)
  {
    var n := |turns| - 1;
    assert forall i :: 0 <= i < n ==> turns[..n][i] == turns[i];
  }

  // ----- What trimming leaves -----

  /** The overflow check only takes messages off the front. */
  ghost predicate OnlyShortens(room: Room)
  {
    forall before: seq<Message>, outputTokens: int :: Unmarked(before) ==> IsSuffix(room(before, outputTokens), before)
  }

  ghost predicate IsSuffix(ms: seq<Message>, all: seq<Message>)
  {
    |ms| <= |all| && ms == all[|all| - |ms|..]
  }

  lemma CheckOnlyShortens(maxTokens: int)
    ensures OnlyShortens(RoomOf(maxTokens))
  {
    forall before: seq<Message>, outputTokens: int | Unmarked(before)
      ensures IsSuffix(RoomOf(maxTokens)(before, outputTokens), before)
    {
      if Sum(before) + outputTokens > maxTokens {
        var k := TrimLeavesSuffix(before, TrimTarget(maxTokens, outputTokens));
      }
    }
  }

  lemma SuffixGrows(ms: seq<Message>, before: seq<Message>, all: seq<Message>, more: seq<Message>)
    requires IsSuffix(ms, before) && IsSuffix(before, all)
    ensures IsSuffix(ms + more, all + more)
  {
    assert before == all[|all| - |before|..];
    assert ms + more == (all + more)[|all| - |ms|..];
  }

  lemma SuffixUnmarked(ms: seq<Message>, all: seq<Message>)
    requires IsSuffix(ms, all) && Unmarked(all)
    ensures Unmarked(ms)
  {
    assert forall i :: 0 <= i < |ms| ==> ms[i] == all[|all| - |ms| + i];
  }

  lemma {:induction false} ConversationUnmarked(turns: seq<Turn>)
    requires AllRegular(turns)
    ensures Unmarked(Conversation(turns))
  {
    if turns != [] {
      ConversationUnmarked(turns[..|turns| - 1]);
      assert Regular(turns[|turns| - 1]);
    }
  }

  /** The window is always the end of the whole conversation. */
  lemma {:induction false} WindowIsSuffix(room: Room, start: seq<Message>, turns: seq<Turn>)
    requires OnlyShortens(room) && Unmarked(start) && AllRegular(turns)
    ensures IsSuffix(Window(room, start, turns), start + Conversation(turns))
  {
    if turns == [] {
      assert start + Conversation(turns) == start;
    } else {
      var front, t := turns[..|turns| - 1], turns[|turns| - 1];
      WindowIsSuffix(room, start, front);
      var all, before := start + Conversation(front), Window(room, start, front);
      ConversationUnmarked(front);
      SuffixUnmarked(before, all);
      assert IsSuffix(room(before, t.outputTokens), before);
      SuffixGrows(room(before, t.outputTokens), before, all, t.messages);
      assert start + Conversation(turns) == all + t.messages;
    }
  }

  /** Nothing is done to windows that leave room for the reply. */
  ghost predicate KeepsWhatFits(room: Room, maxTokens: int)
  {
    forall before: seq<Message>, outputTokens: int ::
      Sum(before) + outputTokens <= maxTokens ==> room(before, outputTokens) == before
  }

  /** The whole conversation never comes near the budget. */
  ghost predicate NeverTrims(maxTokens: int, start: seq<Message>, turns: seq<Turn>)
  {
    forall k :: 0 <= k < |turns| ==> Fits(maxTokens, start, turns, k)
  }

  ghost predicate Fits(maxTokens: int, start: seq<Message>, turns: seq<Turn>, k: nat)
    requires k < |turns|
  {
    Sum(start + Conversation(turns[..k])) + turns[k].outputTokens <= maxTokens
  }

  lemma FrontNeverTrims(maxTokens: int, start: seq<Message>, turns: seq<Turn>)
    requires turns != [] && NeverTrims(maxTokens, start, turns)
    ensures NeverTrims(maxTokens, start, turns[..|turns| - 1])
  {
    var front := turns[..|turns| - 1];
    forall k | 0 <= k < |front|
      ensures Fits(maxTokens, start, front, k)
    {
      assert Fits(maxTokens, start, turns, k) && front[..k] == turns[..k];
    }
  }

  /** Then the window is the whole conversation. */
  lemma {:induction false} UntrimmedWindow(room: Room, maxTokens: int, start: seq<Message>, turns: seq<Turn>)
    requires KeepsWhatFits(room, maxTokens) && NeverTrims(maxTokens, start, turns)
    ensures Window(room, start, turns) == start + Conversation(turns)
  {
    if turns == [] {
      assert start + Conversation(turns) == start;
    } else {
      var front, t := turns[..|turns| - 1], turns[|turns| - 1];
      FrontNeverTrims(maxTokens, start, turns);
      UntrimmedWindow(room, maxTokens, start, front);
      var before := start + Conversation(front);
      assert Fits(maxTokens, start, turns, |front|);
      assert room(before, t.outputTokens) == before;
      assert start + Conversation(turns) == before + t.messages;
    }
  }

  /** So a conversation from which nothing was trimmed is paired exactly when no risk evaluation failed. */
  lemma UntrimmedPairedIff(maxTokens: int, start: seq<Message>, turns: seq<Turn>)
    requires Plain(start) && AllRegular(turns) && NeverTrims(maxTokens, start, turns)
    ensures Paired(Window(RoomOf(maxTokens), start, turns)) <==> EachEvaluated(turns)
  {
    UntrimmedWindow(RoomOf(maxTokens), maxTokens, start, turns);
    PlainPaired(start, Conversation(turns));
    ConversationPaired(turns, []);
    assert Conversation(turns) + [] == Conversation(turns);
  }

  /** No risk evaluation failed in the turns that are still whole when the first `c` messages of all turns are gone. */
  ghost predicate WholeTurnsEvaluated(turns: seq<Turn>, c: int)
  {
    forall i :: 0 <= i < |turns| && c <= TurnAt(turns, i) ==> AllEvaluated(turns[i].results)
  }

  /** Where turn `i` begins among the messages of all turns. */
  ghost function TurnAt(turns: seq<Turn>, i: nat): nat
    requires i <= |turns|
  {
    |Conversation(turns[..i])|
  }

  lemma TurnAtFront(turns: seq<Turn>, i: nat)
    requires turns != [] && i < |turns|
    ensures TurnAt(turns[..|turns| - 1], i) == TurnAt(turns, i)
  {
    assert turns[..|turns| - 1][..i] == turns[..i];
  }

  lemma {:induction false} TurnsGrow(turns: seq<Turn>, i: nat)
    requires AllRegular(turns) && i < |turns|
    ensures TurnAt(turns, i) < |Conversation(turns)|
    decreases |turns|
  {
    var n := |turns| - 1;
    assert Regular(turns[n]);
    if i < n {
      TurnsGrow(turns[..n], i);
      TurnAtFront(turns, i);
    }
  }

  lemma WholeTurnsSnoc(turns: seq<Turn>, c: int)
    requires turns != []
    ensures var n := |turns| - 1;
      WholeTurnsEvaluated(turns, c) <==>
      WholeTurnsEvaluated(turns[..n], c) && (c <= |Conversation(turns[..n])| ==> AllEvaluated(turns[n].results))
  {
    var n := |turns| - 1;
    forall i | 0 <= i < n
      ensures TurnAt(turns[..n], i) == TurnAt(turns, i) && turns[..n][i] == turns[i]
    {
      TurnAtFront(turns, i);
    }
  }

  lemma NoWholeTurn(turns: seq<Turn>, c: int)
    requires AllRegular(turns) && c >= |Conversation(turns)|
    ensures WholeTurnsEvaluated(turns, c)
  {
    forall i | 0 <= i < |turns|
      ensures c > TurnAt(turns, i)
    {
      TurnsGrow(turns, i);
    }
  }

  /** Cut inside a turn, the rest begins with a tool message without its assistant message. */
  lemma CutInsideTurn(t: Turn, rest: seq<Message>, k: nat)
    requires Regular(t) && 0 < k < |t.messages|
    ensures var w := (t.messages + rest)[k..]; w[0].role == Tool && !Paired(w)
  {
    var j, w := k - 1, (t.messages + rest)[k..];
    assert t.messages[1 + j].toolCallId == t.results[j].callId && w[0] == t.messages[1 + j];
  }

  /** A conversation cut somewhere is paired exactly when it does not begin with a tool message, no risk evaluation
      failed in the turns left whole, and what follows is paired. */
  lemma {:induction false} CutConversationPaired(turns: seq<Turn>, rest: seq<Message>, c: nat)
    requires AllRegular(turns) && c < |Conversation(turns)|
    ensures var w := (Conversation(turns) + rest)[c..];
      Paired(w) <==> w[0].role != Tool && WholeTurnsEvaluated(turns, c) && Paired(rest)
  {
    var n := |turns| - 1;
    var front, t := turns[..n], turns[n];
    assert Regular(t);
    ConversationThen(turns, rest);
    WholeTurnsSnoc(turns, c);
    if c < |Conversation(front)| {
      CutConversationPaired(front, t.messages + rest, c);
      TurnPaired(t, rest);
    } else {
      NoWholeTurn(front, c);
      CutInTurn(Conversation(front), t, rest, c);
    }
  }

  lemma CutInTurn(before: seq<Message>, t: Turn, rest: seq<Message>, c: nat)
    requires Regular(t) && |before| <= c < |before| + |t.messages|
    ensures var w := (before + (t.messages + rest))[c..];
      Paired(w) <==> w[0].role != Tool && (c <= |before| ==> AllEvaluated(t.results)) && Paired(rest)
  {
    var after := t.messages + rest;
    assert (before + after)[c..] == after[c - |before|..];
    if c == |before| {
      assert after[0..] == after;
      TurnPaired(t, rest);
    } else {
      CutInsideTurn(t, rest, c - |before|);
    }
  }

  /** Messages that neither call tools nor answer calls. */
  ghost predicate Plain(ms: seq<Message>)
  {
    forall i :: 0 <= i < |ms| ==> ms[i].role != Tool && ms[i].toolCalls == []
  }

  /** The same with plain messages after. */
  lemma CutTalkPaired(turns: seq<Turn>, last: seq<Message>, c: nat)
    requires Plain(last) && AllRegular(turns) && c <= |Conversation(turns)| + |last|
    ensures var w := (Conversation(turns) + last)[c..];
      Paired(w) <==> (w == [] || w[0].role != Tool) && WholeTurnsEvaluated(turns, c)
  {
    var talk := Conversation(turns);
    if c < |talk| {
      PlainPaired(last, []);
      assert last + [] == last;
      CutConversationPaired(turns, last, c);
    } else {
      var w := last[c - |talk|..];
      assert (talk + last)[c..] == w;
      PlainPaired(w, []);
      assert w + [] == w;
      NoWholeTurn(turns, c);
    }
  }

  /** The same with plain messages before as well. */
  lemma CutWindowPaired(start: seq<Message>, turns: seq<Turn>, last: seq<Message>, c: nat)
    requires Plain(start) && Plain(last) && AllRegular(turns)
    requires c <= |start| + |Conversation(turns)| + |last|
    ensures var w := (start + Conversation(turns) + last)[c..];
      Paired(w) <==> (w == [] || w[0].role != Tool) && WholeTurnsEvaluated(turns, c - |start|)
  {
    var rest := Conversation(turns) + last;
    PlusIsAssociative(start, Conversation(turns), last);
    if c <= |start| {
      CutBefore(start, rest, c);
      WholeTalkPaired(start[c..], turns, last);
      AllTurnsWhole(turns, c - |start|);
    } else {
      CutBehind(start, rest, c);
      CutTalkPaired(turns, last, c - |start|);
    }
  }

  lemma CutBefore(a: seq<Message>, b: seq<Message>, c: nat)
    requires c <= |a|
    ensures (a + b)[c..] == a[c..] + b
  {
  }

  lemma CutBehind(a: seq<Message>, b: seq<Message>, c: nat)
    requires |a| <= c <= |a| + |b|
    ensures (a + b)[c..] == b[c - |a|..]
  {
  }

  lemma WholeTalkPaired(start: seq<Message>, turns: seq<Turn>, last: seq<Message>)
    requires Plain(start) && Plain(last) && AllRegular(turns)
    ensures var w := start + (Conversation(turns) + last);
      (w == [] || w[0].role != Tool) && (Paired(w) <==> EachEvaluated(turns))
  {
    PlainPaired(start, Conversation(turns) + last);
    PlainPaired(last, []);
    assert last + [] == last;
    ConversationPaired(turns, last);
    BeginsPlain(start, turns, last);
  }

  lemma BeginsPlain(start: seq<Message>, turns: seq<Turn>, last: seq<Message>)
    requires Plain(start) && Plain(last) && AllRegular(turns)
    ensures var w := start + (Conversation(turns) + last); w == [] || w[0].role != Tool
  {
    if turns != [] {
      FirstOfConversation(turns);
    }
  }

  lemma AllTurnsWhole(turns: seq<Turn>, c: int)
    requires c <= 0
    ensures WholeTurnsEvaluated(turns, c) <==> EachEvaluated(turns)
  {
    assert forall i :: 0 <= i < |turns| ==> c <= TurnAt(turns, i);
  }

  lemma {:induction false} FirstOfConversation(turns: seq<Turn>)
    requires AllRegular(turns) && turns != []
    ensures Conversation(turns) != [] && Conversation(turns)[0].role == Assistant
  {
    var front := turns[..|turns| - 1];
    assert Regular(turns[|turns| - 1]);
    if front != [] {
      FirstOfConversation(front);
    }
  }

  lemma {:induction false} PlainPaired(ms: seq<Message>, rest: seq<Message>)
    requires Plain(ms)
    ensures Paired(ms + rest) <==> Paired(rest)
    decreases |ms|
  {
    if ms == [] {
      assert ms + rest == rest;
    } else {
      PlainPaired(ms[1..], rest);
      assert (ms + rest)[1..] == ms[1..] + rest;
    }
  }

  // ----- Whole runs -----

  lemma RunIsRegular(s: Setup, limit: nat, o: Outside, b: Breaker, n: nat)
    requires forall k: nat, j: nat :: o.freshId(k, j) != ""
    requires AllAct(limit, o, n)
    ensures AllRegular(ProgressAt(LoopBody(s, o), b, n).turns)
  {
    forall b: Breaker, k: nat | k < n
      ensures Regular(LoopBody(s, o)(b, k).turn)
    {
      assert Acts(limit, o, k);
      ResultsAnswerCalls(s, b, CallsAt(o, k), o.answers(k));
      MadeTurnIsRegular(o, k, ExecuteCalls(s, b, CallsAt(o, k), o.answers(k)).results);
    }
    ProgressRegular(LoopBody(s, o), b, n);
  }

  /** The final answer of a run, if it ends with one. */
  function FinalMessages(limit: nat, o: Outside, n: nat): seq<Message>
  {
    if o.cancelled(n) || o.timedOut(n) || n >= limit || o.reply(n).Failed? then []
    else [PlainMessage(Assistant, o.reply(n).content)]
  }

  /**
    * The window a run leaves is what trimming left of the whole conversation:
    * all but its first `c` messages. It is paired exactly when it does not
    * begin with a tool message and no risk evaluation failed in a turn that is
    * still whole.
    */
  lemma RunPairedIff(s: Setup, limit: nat, o: Outside, b: Breaker, n: nat, maxTokens: int, input: string)
    returns (c: nat)
    requires forall k: nat, j: nat :: o.freshId(k, j) != ""
    requires AllAct(limit, o, n)
    ensures var turns, start := ProgressAt(LoopBody(s, o), b, n).turns, Opening(o, input);
      var all := start + Conversation(turns) + FinalMessages(limit, o, n);
      var w := FinalWindow(RoomOf(maxTokens), limit, o, n, Window(RoomOf(maxTokens), start, turns));
      && c <= |all| && w == all[c..]
      && (Paired(w) <==> (w == [] || w[0].role != Tool) && WholeTurnsEvaluated(turns, c - |start|))
  {
    RunIsRegular(s, limit, o, b, n);
    OpeningIsPlain(o, input);
    c := TurnsPairedIff(limit, o, n, maxTokens, Opening(o, input), ProgressAt(LoopBody(s, o), b, n).turns);
  }

  /**
    * The same of the window sent to the model in each iteration `k` of a run:
    * it is an end of the conversation so far, and paired exactly when it does
    * not begin with a tool message and no risk evaluation failed in a turn
    * that is still whole.
    */
  lemma SentPairedIff(s: Setup, limit: nat, o: Outside, b: Breaker, k: nat, maxTokens: int, input: string)
    returns (c: nat)
    requires forall k: nat, j: nat :: o.freshId(k, j) != ""
    requires AllAct(limit, o, k)
    ensures var turns, start := ProgressAt(LoopBody(s, o), b, k).turns, Opening(o, input);
      var w := SentAt(LoopBody(s, o), b, RoomOf(maxTokens), start, k);
      && c <= |start + Conversation(turns)| && w == (start + Conversation(turns))[c..]
      && (Paired(w) <==> (w == [] || w[0].role != Tool) && WholeTurnsEvaluated(turns, c - |start|))
  {
    var turns, start := ProgressAt(LoopBody(s, o), b, k).turns, Opening(o, input);
    RunIsRegular(s, limit, o, b, k);
    OpeningIsPlain(o, input);
    c := TurnsPairedIff(k, o, k, maxTokens, start, turns);
    assert start + Conversation(turns) + [] == start + Conversation(turns);
  }

  lemma TurnsPairedIff(limit: nat, o: Outside, n: nat, maxTokens: int, start: seq<Message>, turns: seq<Turn>)
    returns (c: nat)
    requires Plain(start) && Unmarked(start) && AllRegular(turns)
    ensures var all := start + Conversation(turns) + FinalMessages(limit, o, n);
      var w := FinalWindow(RoomOf(maxTokens), limit, o, n, Window(RoomOf(maxTokens), start, turns));
      && c <= |all| && w == all[c..]
      && (Paired(w) <==> (w == [] || w[0].role != Tool) && WholeTurnsEvaluated(turns, c - |start|))
  {
    var w := FinalIsSuffix(RoomOf(maxTokens), maxTokens, limit, o, n, start, turns);
    c := |start + Conversation(turns) + FinalMessages(limit, o, n)| - |w|;
    CutWindowPaired(start, turns, FinalMessages(limit, o, n), c);
  }

  lemma OpeningIsPlain(o: Outside, input: string)
    ensures Plain(Opening(o, input)) && Unmarked(Opening(o, input))
  {
  }

  lemma FinalIsSuffix(room: Room, maxTokens: int, limit: nat, o: Outside, n: nat, start: seq<Message>, turns: seq<Turn>)
    returns (w: seq<Message>)
    requires room == RoomOf(maxTokens) && Unmarked(start) && AllRegular(turns)
    ensures w == FinalWindow(room, limit, o, n, Window(room, start, turns))
    ensures IsSuffix(w, start + Conversation(turns) + FinalMessages(limit, o, n))
    ensures Plain(FinalMessages(limit, o, n))
  {
    CheckOnlyShortens(maxTokens);
    WindowIsSuffix(room, start, turns);
    var all, before, last := start + Conversation(turns), Window(room, start, turns), FinalMessages(limit, o, n);
    w := FinalWindow(room, limit, o, n, before);
    if last == [] {
      assert all + last == all;
    } else {
      ConversationUnmarked(turns);
      SuffixUnmarked(before, all);
      assert IsSuffix(room(before, o.reply(n).outputTokens), before);
      SuffixGrows(room(before, o.reply(n).outputTokens), before, all, last);
    }
  }

  // ----- A run whose overflow check leaves an orphan -----

  /** One tool call, then a final answer that reports eight output tokens. */
  function Orphaning(): Outside
  {
    Outside(k => if k == 0 then Reply("", "", [Call("t", "", "x", false)], 0) else Reply("", "", [], 8),
            k => false, k => false, k => Answers(j => Allowed, j => false, j => true),
            (k, j) => "call_0", (k, j) => "", None)
  }

  /** The only turn of that run: an assistant message of one token and a tool message of four. */
  lemma OrphaningTurn(s: Setup, b: Breaker) returns (t: Turn)
    ensures ProgressAt(LoopBody(s, Orphaning()), b, 1).turns == [t] && t.outputTokens == 0
    ensures |t.messages| == 2 && t.messages[0].tokenCount == 1 && t.messages[1].tokenCount == 4
    ensures t.messages[1].role == Tool && Unmarked(t.messages)
  {
    var o := Orphaning();
    var calls := CallsAt(o, 0);
    assert calls == [Call("t", "", "x", false)];
    var results := ExecuteCalls(s, b, calls, o.answers(0)).results;
    ResultsAnswerCalls(s, b, calls, o.answers(0));
    assert AnswersCall(calls[0], results[0]);
    t := MakeTurn(o, 0, results);
    OrphaningMessages(o, results[0]);
    assert results == [results[0]] && Observations(results, o, 0) == [ToolMessage("t", "", results[0].callId)];
    assert Wire(calls) == [ToolCall("x", "t", "")];
  }

  lemma OrphaningMessages(o: Outside, r: ExecResult)
    ensures AssistantMessage("", [ToolCall("x", "t", "")], "").tokenCount == 1
    ensures ToolMessage("t", "", r.callId).tokenCount == 4
  {
    assert "t" + "" == "t";
    PlainTextTokens("t");
    var content := "Tool " + "t" + " result: " + "";
    assert |content| == 15;
    PlainTextTokens(content);
  }

  /** Three messages of 0, 1 and 4 tokens trimmed to four lose the first two. */
  lemma TrimToLast(ms: seq<Message>)
    requires |ms| == 3 && Unmarked(ms)
    requires ms[0].tokenCount == 0 && ms[1].tokenCount == 1 && ms[2].tokenCount == 4
    ensures Sum(ms) == 5 && TrimmedTo(ms, 4) == ms[2..]
  {
    assert ms[..3] == ms && ms[..2][..1] == ms[..1] && ms[..1][..0] == [];
    assert Sum(ms[..1]) == 0 && Sum(ms[..2]) == 1;
    ClassOfUniform(ms, false);
    var k := TrimDropsShortestPrefix(ms, 4);
  }

  lemma OrphanWindow(start: seq<Message>, t: Turn)
    requires start == [PlainMessage(User, "")] && t.outputTokens == 0
    requires |t.messages| == 2 && t.messages[0].tokenCount == 1 && t.messages[1].tokenCount == 4 && Unmarked(t.messages)
    ensures RoomOf(12)(Window(RoomOf(12), start, [t]), 8) == [t.messages[1]]
  {
    var ms := start + t.messages;
    FirstWindow(start, t);
    TrimToLast(ms);
    assert ms[2..] == [t.messages[1]];
  }

  /** Nothing is trimmed before the first turn. */
  lemma FirstWindow(start: seq<Message>, t: Turn)
    requires start == [PlainMessage(User, "")] && t.outputTokens == 0
    ensures Window(RoomOf(12), start, [t]) == start + t.messages
  {
    assert [t][..0] == [] && start[..0] == [];
    assert Window(RoomOf(12), start, []) == start && Sum(start) == 0;
  }

  lemma OrphanFirst(limit: nat, turns: seq<Turn>, t: Turn)
    requires limit > 1 && turns == [t] && t.outputTokens == 0
    requires |t.messages| == 2 && t.messages[0].tokenCount == 1 && t.messages[1].tokenCount == 4
    requires t.messages[1].role == Tool && Unmarked(t.messages)
    ensures var w := FinalWindow(RoomOf(12), limit, Orphaning(), 1,
          Window(RoomOf(12), Opening(Orphaning(), ""), turns));
      w != [] && w[0].role == Tool && !Paired(w)
  {
    var start := Opening(Orphaning(), "");
    assert start == [PlainMessage(User, "")];
    OrphanWindow(start, t);
    OrphanIsUnpaired(t.messages[1], PlainMessage(Assistant, Orphaning().reply(1).content));
  }

  lemma OrphanIsUnpaired(orphan: Message, last: Message)
    requires orphan.role == Tool
    ensures !Paired([orphan] + [last])
  {
  }

  lemma OrphaningStops(limit: nat)
    requires limit > 1
    ensures StopsAt(limit, Orphaning(), 1)
  {
    assert Acts(limit, Orphaning(), 0);
  }

  /** Whatever the setup, this run ends with a window that begins with a tool message whose call is gone. */
  lemma TrimmingOrphans(s: Setup, limit: nat, b: Breaker, turns: seq<Turn>)
    requires limit > 1 && turns == ProgressAt(LoopBody(s, Orphaning()), b, 1).turns
    ensures StopsAt(limit, Orphaning(), 1)
    ensures var w := FinalWindow(RoomOf(12), limit, Orphaning(), 1,
          Window(RoomOf(12), Opening(Orphaning(), ""), turns));
      w != [] && w[0].role == Tool && !Paired(w)
  {
    OrphaningStops(limit);
    var t := OrphaningTurn(s, b);
    OrphanFirst(limit, turns, t);
  }
}
