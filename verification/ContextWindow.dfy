// The token-budgeted message window of the agent loop (pkg/agent/context.go).
module ContextWindow {
  import opened Common

  datatype Role = System | User | Assistant | Tool

  datatype ToolCall = ToolCall(id: string, name: string, arguments: string)

  /** A message of the window; `tokenCount` is the estimate made when it was added. */
  datatype Message = Message(role: Role, content: string, tokenCount: nat, isKey: bool,
                             toolCalls: seq<ToolCall>, toolCallId: string, name: string, reasoning: string)

  // ----- Token estimates -----

  /** The bytes of a character in UTF-8. */
  function Utf8Width(c: char): nat
  {
    if c as int < 0x80 then 1 else if c as int < 0x800 then 2 else if c as int < 0x1_0000 then 3 else 4
  }

  function ByteLength(s: string): nat
  {
    if s == "" then 0 else ByteLength(s[..|s| - 1]) + Utf8Width(s[|s| - 1])
  }

  predicate IsChinese(c: char)
  {
    0x4e00 <= c as int <= 0x9fff
  }

  function ChineseChars(s: string): (r: nat)
    ensures 3 * r <= ByteLength(s)
  {
    if s == "" then 0 else ChineseChars(s[..|s| - 1]) + if IsChinese(s[|s| - 1]) then 1 else 0
  }

  /** `estimateTokens`: half a token for a Chinese character, a quarter for every other byte, and one. The length is
      in bytes, so the other two bytes of a Chinese character count too. */
  function EstimateTokens(content: string): (r: nat)
    ensures r == 0 <==> content == ""
  {
    if content == "" then 0 else
    var chinese := ChineseChars(content);
    chinese / 2 + (ByteLength(content) - chinese) / 4 + 1
  }

  /** A quarter of a token for a character of plain text. */
  lemma {:induction false} PlainTextTokens(s: string)
    requires forall i :: 0 <= i < |s| ==> s[i] as int < 0x80
    ensures ByteLength(s) == |s| && ChineseChars(s) == 0
    ensures s != "" ==> EstimateTokens(s) == |s| / 4 + 1
  {
    if s != "" {
      PlainTextTokens(s[..|s| - 1]);
    }
  }

  /** Of plain text and Chinese, in any order: half a token for each Chinese character and a quarter for each of its
      other two bytes and for each plain character, rounded down, and one. */
  lemma {:induction false} MixedTextTokens(s: string)
    requires forall i :: 0 <= i < |s| ==> s[i] as int < 0x80 || IsChinese(s[i])
    ensures ByteLength(s) == |s| + 2 * ChineseChars(s)
    ensures s != "" ==> EstimateTokens(s) == ChineseChars(s) / 2 + (|s| + ChineseChars(s)) / 4 + 1
  {
    if s != "" {
      MixedTextTokens(s[..|s| - 1]);
    }
  }

  function EstimateCalls(calls: seq<ToolCall>): nat
  {
    if calls == [] then 0 else
    var last := calls[|calls| - 1];
    EstimateCalls(calls[..|calls| - 1]) + EstimateTokens(last.name + last.arguments)
  }

  // ----- Lists of messages -----

  function Sum(ms: seq<Message>): nat
  {
    if ms == [] then 0 else Sum(ms[..|ms| - 1]) + ms[|ms| - 1].tokenCount
  }

  /** The key messages (`key`), or the others, in order. */
  function Class(ms: seq<Message>, key: bool): seq<Message>
  {
    if ms == [] then []
    else Class(ms[..|ms| - 1], key) + if ms[|ms| - 1].isKey == key then [ms[|ms| - 1]] else []
  }

  lemma {:induction false} SumAppend(a: seq<Message>, b: seq<Message>)
    ensures Sum(a + b) == Sum(a) + Sum(b)
    decreases |b|
  {
    if b == [] {
      assert a + b == a;
    } else {
      SumAppend(a, b[..|b| - 1]);
      assert (a + b)[..|a| + |b| - 1] == a + b[..|b| - 1];
    }
  }

  lemma SumSplit(ms: seq<Message>, k: nat)
    requires k <= |ms|
    ensures Sum(ms) == Sum(ms[..k]) + Sum(ms[k..])
  {
    assert ms == ms[..k] + ms[k..];
    SumAppend(ms[..k], ms[k..]);
  }

  lemma SumPrepend(m: Message, ms: seq<Message>)
    ensures Sum([m]) == m.tokenCount && Sum([m] + ms) == m.tokenCount + Sum(ms)
  {
    assert [m][..0] == [];
    SumAppend([m], ms);
  }

  lemma {:induction false} SumOfClasses(ms: seq<Message>)
    ensures Sum(ms) == Sum(Class(ms, true)) + Sum(Class(ms, false))
  {
    if ms != [] {
      var front, last := ms[..|ms| - 1], ms[|ms| - 1];
      SumOfClasses(front);
      SumPrepend(last, []);
      SumAppend(Class(front, last.isKey), [last]);
      assert Class(ms, last.isKey) == Class(front, last.isKey) + [last];
      assert Class(ms, !last.isKey) == Class(front, !last.isKey);
    }
  }

  lemma {:induction false} ClassAppend(a: seq<Message>, b: seq<Message>, key: bool)
    ensures Class(a + b, key) == Class(a, key) + Class(b, key)
    decreases |b|
  {
    if b == [] {
      assert a + b == a;
    } else {
      ClassAppend(a, b[..|b| - 1], key);
      assert (a + b)[..|a| + |b| - 1] == a + b[..|b| - 1];
    }
  }

  lemma {:induction false} ClassOfUniform(ms: seq<Message>, key: bool)
    requires forall i :: 0 <= i < |ms| ==> ms[i].isKey == key
    ensures Class(ms, key) == ms && Class(ms, !key) == []
  {
    if ms != [] {
      var front := ms[..|ms| - 1];
      ClassOfUniform(front, key);
      assert front + [ms[|ms| - 1]] == ms;
    }
  }

  lemma {:induction false} ClassIsUniform(ms: seq<Message>, key: bool)
    ensures forall i :: 0 <= i < |Class(ms, key)| ==> Class(ms, key)[i].isKey == key
  {
    if ms != [] {
      ClassIsUniform(ms[..|ms| - 1], key);
    }
  }

  // ----- How much goes -----

  /** The length of the shortest prefix with at least `target` tokens, or everything. */
  ghost predicate ShortestPrefix(ms: seq<Message>, target: int, k: nat)
  {
    && k <= |ms|
    && (forall j :: 0 <= j < k ==> Sum(ms[..j]) < target)
    && (k == |ms| || Sum(ms[..k]) >= target)
  }

  /** Where the longest suffix with at most `max` tokens begins. */
  ghost predicate LongestSuffix(ms: seq<Message>, max: int, i: nat)
  {
    && i <= |ms|
    && (i < |ms| ==> Sum(ms[i..]) <= max)
    && (forall j :: 0 <= j < i ==> Sum(ms[j..]) > max)
  }

  /** The prefix length counted up from `k`. */
  function PrefixFrom(ms: seq<Message>, target: int, k: nat): (r: nat)
    requires k <= |ms|
    ensures k <= r <= |ms|
    decreases |ms| - k
  {
    if k == |ms| || Sum(ms[..k]) >= target then k else PrefixFrom(ms, target, k + 1)
  }

  /** The suffix start counted down from `i`. */
  function SuffixFrom(ms: seq<Message>, max: int, i: nat): (r: nat)
    requires i <= |ms|
    ensures r <= i
    decreases i
  {
    if i == 0 || Sum(ms[i - 1..]) > max then i else SuffixFrom(ms, max, i - 1)
  }

  lemma {:induction false} PrefixFromShortest(ms: seq<Message>, target: int, k: nat)
    requires k <= |ms| && forall j :: 0 <= j < k ==> Sum(ms[..j]) < target
    ensures ShortestPrefix(ms, target, PrefixFrom(ms, target, k))
    decreases |ms| - k
  {
    if k < |ms| && Sum(ms[..k]) < target {
      PrefixFromShortest(ms, target, k + 1);
    }
  }

  lemma {:induction false} SuffixFromLongest(ms: seq<Message>, max: int, i: nat)
    requires i <= |ms| && (i < |ms| ==> Sum(ms[i..]) <= max)
    ensures LongestSuffix(ms, max, SuffixFrom(ms, max, i))
    decreases i
  {
    if i > 0 && Sum(ms[i - 1..]) <= max {
      SuffixFromLongest(ms, max, i - 1);
    } else if i > 0 {
      forall j | 0 <= j < i
        ensures Sum(ms[j..]) > max
      {
        SumGrowsDown(ms, j, i - 1);
      }
    }
  }

  lemma SumGrowsDown(ms: seq<Message>, j: nat, i: nat)
    requires j <= i <= |ms|
    ensures Sum(ms[i..]) <= Sum(ms[j..])
  {
    SumSplit(ms[j..], i - j);
    assert ms[j..][i - j..] == ms[i..];
  }

  /** The newest messages that fit. */
  function FitSuffix(ms: seq<Message>, max: int): seq<Message>
  {
    ms[SuffixFrom(ms, max, |ms|)..]
  }

  lemma {:induction false} SuffixFromAll(ms: seq<Message>, max: int, i: nat)
    requires i <= |ms| && Sum(ms) <= max
    ensures SuffixFrom(ms, max, i) == 0
  {
    if i > 0 {
      SumGrowsDown(ms, 0, i - 1);
      assert ms[0..] == ms;
      SuffixFromAll(ms, max, i - 1);
    }
  }

  /** The removal loop of `TrimContext`. */
  method DropOldest(ms: seq<Message>, target: int) returns (rest: seq<Message>, removed: nat)
    ensures var k := PrefixFrom(ms, target, 0);
      rest == ms[k..] && removed == Sum(ms[..k])
  {
    rest, removed := [], 0;
    ghost var k: nat := 0;
    for i := 0 to |ms|
      invariant k <= i && removed == Sum(ms[..k]) && rest == ms[k..i]
      invariant if k == i then PrefixFrom(ms, target, 0) == PrefixFrom(ms, target, i)
                else removed >= target && k == PrefixFrom(ms, target, 0)
    {
      assert ms[..i + 1][..i] == ms[..i];
      if removed < target {
        removed := removed + ms[i].tokenCount;
        k := i + 1;
      } else {
        rest := rest + [ms[i]];
      }
    }
  }

  /** The loop of `truncateKeyMessages` and `trimPreserveRecent`: from the newest back, while it fits. */
  method KeepRecent(ms: seq<Message>, max: int) returns (kept: seq<Message>, total: nat)
    ensures kept == FitSuffix(ms, max) && total == Sum(kept)
  {
    kept, total := [], 0;
    var n := |ms|;
    while n > 0
      invariant 0 <= n <= |ms| && kept == ms[n..] && total == Sum(kept)
      invariant SuffixFrom(ms, max, |ms|) == SuffixFrom(ms, max, n)
    {
      SumPrepend(ms[n - 1], kept);
      assert [ms[n - 1]] + kept == ms[n - 1..];
      if total + ms[n - 1].tokenCount > max {
        break;
      }
      kept, total, n := [ms[n - 1]] + kept, total + ms[n - 1].tokenCount, n - 1;
    }
  }

  // ----- What trimming leaves -----

  /** What `TrimContext` leaves: nothing changes within the budget. Otherwise the oldest non-key messages go until the
      excess is covered, the key messages move behind the rest, and the newest messages that fit stay. */
  function TrimmedTo(before: seq<Message>, max: int): seq<Message>
  {
    if Sum(before) <= max then before
    else TrimmedParts(Class(before, true), Class(before, false), Sum(before) - max, max)
  }

  function TrimmedParts(keys: seq<Message>, others: seq<Message>, target: int, max: int): seq<Message>
  {
    FitSuffix(others[PrefixFrom(others, target, 0)..] + keys, max)
  }

  /** `mergeMessages` after the `k` oldest non-key messages are gone. */
  function Merged(before: seq<Message>, k: nat): seq<Message>
  {
    (if k <= |Class(before, false)| then Class(before, false)[k..] else []) + Class(before, true)
  }

  /** Once the excess is gone, the rest is over the budget exactly when the key messages alone are; nothing else is
      left then. */
  lemma MergedFits(before: seq<Message>, max: int, k: nat)
    requires ShortestPrefix(Class(before, false), Sum(before) - max, k)
    ensures Sum(Merged(before, k)) == Sum(before) - Sum(Class(before, false)[..k])
    ensures Sum(Merged(before, k)) <= max <==> Sum(Class(before, true)) <= max
    ensures Sum(Class(before, true)) > max ==> Merged(before, k) == Class(before, true)
  {
    var others, keys := Class(before, false), Class(before, true);
    SumOfClasses(before);
    SumSplit(others, k);
    SumAppend(others[k..], keys);
    if k == |others| {
      assert others[k..] + keys == keys && others[..k] == others;
    }
  }

  lemma SuffixFits(ms: seq<Message>, max: int, i: nat)
    requires LongestSuffix(ms, max, i)
    ensures i == 0 <==> Sum(ms) <= max || ms == []
    ensures max >= 0 ==> Sum(ms[i..]) <= max
    ensures max < 0 ==> ms[i..] == []
  {
    assert ms[0..] == ms;
  }

  lemma TrimSteps(before: seq<Message>, max: int) returns (k: nat, i: nat)
    requires Sum(before) > max
    ensures ShortestPrefix(Class(before, false), Sum(before) - max, k)
    ensures LongestSuffix(Merged(before, k), max, i) && TrimmedTo(before, max) == Merged(before, k)[i..]
    ensures Sum(Class(before, true)) <= max ==> i == 0
    ensures Sum(Class(before, true)) > max ==> Merged(before, k) == Class(before, true)
  {
    k := PrefixFrom(Class(before, false), Sum(before) - max, 0);
    PrefixFromShortest(Class(before, false), Sum(before) - max, 0);
    i := FitIsLongest(Merged(before, k), max);
    MergedFits(before, max, k);
    SuffixFits(Merged(before, k), max, i);
  }

  lemma FitIsLongest(ms: seq<Message>, max: int) returns (i: nat)
    ensures LongestSuffix(ms, max, i) && FitSuffix(ms, max) == ms[i..]
  {
    i := SuffixFrom(ms, max, |ms|);
    SuffixFromLongest(ms, max, |ms|);
  }

  /** The part of `TrimContext` after the messages are separated. */
  method TrimParts(keys: seq<Message>, others: seq<Message>, tokens: int, max: int)
    returns (ms: seq<Message>, left: int)
    requires tokens == Sum(keys) + Sum(others)
    ensures ms == TrimmedParts(keys, others, tokens - max, max) && left == Sum(ms)
  {
    var rest, removed := DropOldest(others, tokens - max);
    SumSplit(others, PrefixFrom(others, tokens - max, 0));
    SumAppend(rest, keys);
    ms, left := rest + keys, tokens - removed;
    if left > max {
      ms, left := KeepRecent(ms, max);
    } else {
      SuffixFromAll(ms, max, |ms|);
    }
  }

  /** Trimming ends within every budget that is not negative; below zero it ends empty. */
  lemma TrimEndsWithin(before: seq<Message>, max: int)
    ensures Sum(TrimmedTo(before, max)) <= max <==> max >= 0
    ensures max < 0 ==> TrimmedTo(before, max) == []
  {
    if Sum(before) > max {
      var k, i := TrimSteps(before, max);
      SuffixFits(Merged(before, k), max, i);
    }
  }

  /** While the key messages fit, all of them stay, and of the others all but the shortest prefix that makes room. */
  lemma TrimDropsShortestPrefix(before: seq<Message>, max: int) returns (k: nat)
    requires Sum(Class(before, true)) <= max
    ensures ShortestPrefix(Class(before, false), Sum(before) - max, k)
    ensures Class(TrimmedTo(before, max), true) == Class(before, true)
    ensures Class(TrimmedTo(before, max), false) == Class(before, false)[k..]
    ensures Sum(before) > max ==> TrimmedTo(before, max) == Class(before, false)[k..] + Class(before, true)
  {
    var others, keys := Class(before, false), Class(before, true);
    if Sum(before) <= max {
      k := 0;
      assert others[0..] == others;
    } else {
      var i: nat;
      k, i := TrimSteps(before, max);
      ClassIsUniform(before, false);
      ClassesOfMerged(before, others[k..], keys);
    }
  }

  /** Non-key messages followed by key messages fall apart into the two again. */
  lemma ClassesOfMerged(before: seq<Message>, others: seq<Message>, keys: seq<Message>)
    requires keys == Class(before, true)
    requires forall i :: 0 <= i < |others| ==> !others[i].isKey
    ensures Class(others + keys, true) == keys && Class(others + keys, false) == others
  {
    ClassIsUniform(before, true);
    ClassOfUniform(keys, true);
    ClassOfUniform(others, false);
    ClassAppend(others, keys, true);
    ClassAppend(others, keys, false);
  }

  /** When the key messages alone are over the budget, only the longest suffix of them that fits stays. */
  lemma TrimKeepsNewestKeys(before: seq<Message>, max: int) returns (i: nat)
    requires Sum(Class(before, true)) > max
    ensures LongestSuffix(Class(before, true), max, i) && TrimmedTo(before, max) == Class(before, true)[i..]
  {
    SumOfClasses(before);
    var k: nat;
    k, i := TrimSteps(before, max);
  }

  /** A key message is lost exactly when there are some and they are over the budget on their own. */
  lemma KeysLostIff(before: seq<Message>, max: int)
    ensures Class(TrimmedTo(before, max), true) != Class(before, true) <==>
            Class(before, true) != [] && Sum(Class(before, true)) > max
  {
    var keys := Class(before, true);
    if Sum(keys) <= max {
      var k := TrimDropsShortestPrefix(before, max);
    } else {
      var i := TrimKeepsNewestKeys(before, max);
      SuffixFits(keys, max, i);
      ClassIsUniform(before, true);
      ClassOfUniform(keys[i..], true);
    }
  }

  /** No message is key context. */
  ghost predicate Unmarked(ms: seq<Message>)
  {
    forall i :: 0 <= i < |ms| ==> !ms[i].isKey
  }

  /** Without key messages, trimming leaves a suffix. */
  lemma TrimLeavesSuffix(before: seq<Message>, max: int) returns (k: nat)
    requires Unmarked(before)
    ensures k <= |before| && TrimmedTo(before, max) == before[k..]
  {
    if Sum(before) <= max {
      k := 0;
    } else {
      ClassOfUniform(before, false);
      var dropped := PrefixFrom(before, Sum(before) - max, 0);
      var rest := before[dropped..];
      assert rest + [] == rest;
      k := dropped + SuffixFrom(rest, max, |rest|);
    }
  }

  /** Messages marked as key context. */
  function Marked(ms: seq<Message>, indices: seq<int>): (r: seq<Message>)
    ensures |r| == |ms|
    ensures forall i :: 0 <= i < |ms| ==> r[i] == if i in indices then ms[i].(isKey := true) else ms[i]
  {
    seq(|ms|, i requires 0 <= i < |ms| => if i in indices then ms[i].(isKey := true) else ms[i])
  }

  /** Marking changes no token count. */
  lemma {:induction false} SumOfMarked(ms: seq<Message>, indices: seq<int>)
    ensures Sum(Marked(ms, indices)) == Sum(ms)
  {
    if ms != [] {
      var n := |ms| - 1;
      SumOfMarked(ms[..n], indices);
      assert Marked(ms, indices)[..n] == Marked(ms[..n], indices);
    }
  }

  // ----- The managers -----

  class ContextManager {
    const maxTokens: int
    var currentTokens: int
    var messages: seq<Message>
    var systemPrompt: string

    /** The running count is the sum over the messages. */
    ghost predicate Valid()
      reads this
    {
      currentTokens == Sum(messages)
    }

    /** `NewDefaultContextManager` */
    constructor (maxTokens: int)
      ensures Valid() && messages == [] && systemPrompt == "" && this.maxTokens == maxTokens
    {
      this.maxTokens := maxTokens;
      currentTokens, messages, systemPrompt := 0, [], "";
    }

    method Append(m: Message)
      requires Valid()
      modifies `messages, `currentTokens
      ensures Valid() && messages == old(messages) + [m] && currentTokens == old(currentTokens) + m.tokenCount
    {
      messages := messages + [m];
      currentTokens := currentTokens + m.tokenCount;
    }

    /** `AddMessage` */
    method AddMessage(role: Role, content: string)
      requires Valid()
      modifies `messages, `currentTokens
      ensures Valid() && messages == old(messages) + [PlainMessage(role, content)]
    {
      Append(Message(role, content, EstimateTokens(content), false, [], "", "", ""));
    }

    /** `AddAssistantWithToolCalls` */
    method AddAssistantWithToolCalls(content: string, toolCalls: seq<ToolCall>, reasoning: string)
      requires Valid()
      modifies `messages, `currentTokens
      ensures Valid() && messages == old(messages) + [AssistantMessage(content, toolCalls, reasoning)]
    {
      var tokens: nat := EstimateTokens(content);
      for i := 0 to |toolCalls|
        invariant tokens == EstimateTokens(content) + EstimateCalls(toolCalls[..i])
      {
        assert toolCalls[..i + 1][..i] == toolCalls[..i];
        tokens := tokens + EstimateTokens(toolCalls[i].name + toolCalls[i].arguments);
      }
      assert toolCalls[..|toolCalls|] == toolCalls;
      tokens := tokens + EstimateTokens(reasoning);
      Append(Message(Assistant, content, tokens, false, toolCalls, "", "", reasoning));
    }

    /** `AddToolResult` */
    method AddToolResult(toolName: string, result: string, toolCallId: string)
      requires Valid()
      modifies `messages, `currentTokens
      ensures Valid() && messages == old(messages) + [ToolMessage(toolName, result, toolCallId)]
    {
      var content := "Tool " + toolName + " result: " + result;
      Append(Message(Tool, content, EstimateTokens(content), false, [], toolCallId, toolName, ""));
    }

    /** `MarkKeyContext`: indices out of range are ignored. */
    method MarkKeyContext(indices: seq<int>)
      requires Valid()
      modifies `messages
      ensures Valid() && messages == Marked(old(messages), indices)
    {
      for n := 0 to |indices|
        invariant messages == Marked(old(messages), indices[..n])
      {
        var i := indices[n];
        assert indices[..n + 1] == indices[..n] + [i];
        if 0 <= i < |messages| {
          messages := messages[i := messages[i].(isKey := true)];
        }
      }
      assert indices[..|indices|] == indices;
      SumOfMarked(old(messages), indices);
    }

    /** `Reset` */
    method Reset()
      modifies this
      ensures Valid() && messages == [] && currentTokens == 0 && systemPrompt == ""
    {
      messages, currentTokens, systemPrompt := [], 0, "";
    }

    /** `TrimContext` */
    method TrimContext(max: int)
      requires Valid()
      modifies `messages, `currentTokens
      ensures Valid() && messages == TrimmedTo(old(messages), max)
    {
      if currentTokens <= max {
        return;
      }
      var keys, others := Separate(messages);
      SumOfClasses(messages);
      messages, currentTokens := TrimParts(keys, others, currentTokens, max);
    }
  }

  function PlainMessage(role: Role, content: string): Message
  {
    Message(role, content, EstimateTokens(content), false, [], "", "", "")
  }

  function AssistantMessage(content: string, toolCalls: seq<ToolCall>, reasoning: string): Message
  {
    Message(Assistant, content, EstimateTokens(content) + EstimateCalls(toolCalls) + EstimateTokens(reasoning),
            false, toolCalls, "", "", reasoning)
  }

  function ToolMessage(toolName: string, result: string, toolCallId: string): Message
  {
    var content := "Tool " + toolName + " result: " + result;
    Message(Tool, content, EstimateTokens(content), false, [], toolCallId, toolName, "")
  }

  /** The first loop of `TrimContext`. */
  method Separate(ms: seq<Message>) returns (keys: seq<Message>, others: seq<Message>)
    ensures keys == Class(ms, true) && others == Class(ms, false)
  {
    keys, others := [], [];
    for i := 0 to |ms|
      invariant keys == Class(ms[..i], true) && others == Class(ms[..i], false)
    {
      assert ms[..i + 1][..i] == ms[..i];
      if ms[i].isKey {
        keys := keys + [ms[i]];
      } else {
        others := others + [ms[i]];
      }
    }
    assert ms[..|ms|] == ms;
  }

  datatype Strategy = PreserveRecent | PreserveKey | Summary | SlidingWindow | Unknown

  class AdvancedContextManager {
    const base: ContextManager
    const strategy: Strategy
    var windowSize: int
    var summarize: Option<seq<Message> -> Option<string>>

    ghost predicate Valid()
      reads base
    {
      base.Valid()
    }

    /** `NewAdvancedContextManager` */
    constructor (maxTokens: int, strategy: Strategy)
      ensures Valid() && fresh(base) && base.messages == [] && base.maxTokens == maxTokens
      ensures this.strategy == strategy && windowSize == 10 && summarize == None
    {
      base := new ContextManager(maxTokens);
      this.strategy, windowSize, summarize := strategy, 10, None;
    }

    /** `TrimContext`: what each strategy leaves. A negative window makes the sliding strategy index past the end. */
    method TrimContext(max: int) returns (ok: bool)
      requires Valid() && (strategy == SlidingWindow ==> windowSize >= 0)
      modifies base`messages, base`currentTokens
      ensures Valid()
      ensures ok == !(strategy == Summary && summarize.Some? && Sum(old(base.messages)) > max &&
                      summarize.value(OlderHalf(old(base.messages))).None?)
      ensures base.messages == if ok then Left(this, old(base.messages), max) else old(base.messages)
    {
      match strategy
      case SlidingWindow => TrimSlidingWindow(); return true;
      case Summary => ok := TrimWithSummary(max);
      case PreserveKey => base.TrimContext(max); return true;
      case PreserveRecent => TrimPreserveRecent(max); return true;
      case Unknown => base.TrimContext(max); return true;
    }

    /** `trimSlidingWindow` */
    method TrimSlidingWindow()
      requires Valid() && windowSize >= 0
      modifies base`messages, base`currentTokens
      ensures Valid() && base.messages == Newest(old(base.messages), windowSize)
    {
      var ms := base.messages;
      if |ms| <= windowSize {
        return;
      }
      var start := |ms| - windowSize;
      var removed := Total(ms[..start]);
      SumSplit(ms, start);
      base.messages := ms[start..];
      base.currentTokens := base.currentTokens - removed;
    }

    /** `trimWithSummary`: the older half is replaced by its summary, marked as key context. */
    method TrimWithSummary(max: int) returns (ok: bool)
      requires Valid()
      modifies base`messages, base`currentTokens
      ensures Valid()
      ensures summarize.None? ==> ok && base.messages == TrimmedTo(old(base.messages), max)
      ensures summarize.Some? ==>
        if Sum(old(base.messages)) <= max then ok && base.messages == old(base.messages)
        else match summarize.value(OlderHalf(old(base.messages)))
          case None => !ok && base.messages == old(base.messages)
          case Some(text) => ok && base.messages == Summarized(old(base.messages), text)
    {
      if summarize.None? {
        base.TrimContext(max);
        return true;
      }
      if base.currentTokens <= max {
        return true;
      }
      var ms := base.messages;
      var half := |ms| / 2;
      var summary := summarize.value(ms[..half]);
      if summary.None? {
        return false;
      }
      var m := Message(System, summary.value, EstimateTokens(summary.value), true, [], "", "", "");
      var removed := Total(ms[..half]);
      SumSplit(ms, half);
      SumPrepend(m, ms[half..]);
      base.messages := [m] + ms[half..];
      base.currentTokens := base.currentTokens - removed + m.tokenCount;
      return true;
    }

    /** `trimPreserveRecent` */
    method TrimPreserveRecent(max: int)
      requires Valid()
      modifies base`messages, base`currentTokens
      ensures Valid() && base.messages == RecentTo(old(base.messages), max)
    {
      if base.currentTokens <= max {
        return;
      }
      base.messages, base.currentTokens := KeepRecent(base.messages, max);
    }
  }

  method Total(ms: seq<Message>) returns (total: nat)
    ensures total == Sum(ms)
  {
    total := 0;
    for i := 0 to |ms|
      invariant total == Sum(ms[..i])
    {
      assert ms[..i + 1][..i] == ms[..i];
      total := total + ms[i].tokenCount;
    }
    assert ms[..|ms|] == ms;
  }

  function OlderHalf(ms: seq<Message>): seq<Message>
  {
    ms[..|ms| / 2]
  }

  function Summarized(ms: seq<Message>, text: string): seq<Message>
  {
    [Message(System, text, EstimateTokens(text), true, [], "", "", "")] + ms[|ms| / 2..]
  }

  /** What `trimPreserveRecent` leaves. */
  function RecentTo(before: seq<Message>, max: int): seq<Message>
  {
    if Sum(before) <= max then before else FitSuffix(before, max)
  }

  /** What the strategy of `acm` leaves when it succeeds. */
  function Left(acm: AdvancedContextManager, before: seq<Message>, max: int): seq<Message>
    reads acm
  {
    match acm.strategy
    case SlidingWindow => if acm.windowSize >= 0 then Newest(before, acm.windowSize) else before
    case Summary =>
      if acm.summarize.None? then TrimmedTo(before, max)
      else if Sum(before) <= max || acm.summarize.value(OlderHalf(before)).None? then before
      else Summarized(before, acm.summarize.value(OlderHalf(before)).value)
    case PreserveKey => TrimmedTo(before, max)
    case PreserveRecent => RecentTo(before, max)
    case Unknown => TrimmedTo(before, max)
  }

  /** Keeping the most recent messages keeps the longest suffix that fits, and ends within the budget exactly when it is
      not negative. */
  lemma RecentEndsWithin(before: seq<Message>, max: int) returns (i: nat)
    ensures Sum(before) > max ==> LongestSuffix(before, max, i)
    ensures i <= |before| && RecentTo(before, max) == before[i..]
    ensures Sum(RecentTo(before, max)) <= max <==> max >= 0
  {
    if Sum(before) <= max {
      i := 0;
    } else {
      i := FitIsLongest(before, max);
      SuffixFits(before, max, i);
    }
  }

  /** A summary is no promise: the window is within the budget afterwards exactly when the summary is no longer than
      what the newer half leaves free. */
  lemma SummaryEndsWithin(before: seq<Message>, text: string, max: int)
    ensures Sum(Summarized(before, text)) <= max <==> EstimateTokens(text) <= max - Sum(before[|before| / 2..])
  {
    SumPrepend(Message(System, text, EstimateTokens(text), true, [], "", "", ""), before[|before| / 2..]);
  }
}
