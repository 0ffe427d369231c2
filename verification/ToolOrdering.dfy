// Running a batch of tool calls (pkg/agent/parallel.go): inferred dependencies,
// their topological sort, and the execution strategies.
module ToolOrdering {
  import opened Common
  import opened DependencyGraph

  /** Arguments are untyped; the code only ever asks whether one is a string. */
  datatype Value = Str(text: string) | Other

  datatype ToolCall = ToolCall(name: Name, args: map<string, Value>, callId: string)

  datatype ToolDependency = ToolDependency(tool: ToolCall, dependsOn: seq<Name>)

  function Names(calls: seq<ToolCall>): (r: seq<Name>)
    ensures |r| == |calls| && forall i :: 0 <= i < |calls| ==> r[i] == calls[i].name
  {
    seq(|calls|, i requires 0 <= i < |calls| => calls[i].name)
  }

  function NodeNames(graph: seq<ToolDependency>): (r: seq<Name>)
    ensures |r| == |graph| && forall i :: 0 <= i < |graph| ==> r[i] == graph[i].tool.name
  {
    seq(|graph|, i requires 0 <= i < |graph| => graph[i].tool.name)
  }

  // ----- Inferred dependencies -----

  function StringArg(tc: ToolCall, key: string): string
  {
    if key in tc.args && tc.args[key].Str? then tc.args[key].text else ""
  }

  predicate IsChange(name: Name)
  {
    name == "k8s_scale" || name == "k8s_restart" || name == "k8s_patch" || name == "k8s_rollout"
  }

  predicate IsLookup(name: Name)
  {
    name == "k8s_get" || name == "k8s_describe" || name == "k8s_status"
  }

  /** A change waits for lookups of the resource it names, logs for the events of their pod. */
  predicate HasDependency(tc: ToolCall, other: ToolCall)
  {
    || (IsChange(tc.name) && IsLookup(other.name) &&
        StringArg(tc, "name") == StringArg(other, "name") != "")
    || (tc.name == "k8s_logs" && other.name == "k8s_events" &&
        StringArg(tc, "pod_name") == StringArg(other, "name") != "")
  }

  /** The argument `key` of the call is the text `t`. */
  predicate HasText(tc: ToolCall, key: string, t: string)
  {
    key in tc.args && tc.args[key] == Str(t)
  }

  /** The pairs of calls that depend: a change on a lookup with the same non-empty `name`, and logs on events whose
      `name` is their `pod_name`. No other names, arguments or kinds of values count. */
  lemma DependsIff(tc: ToolCall, other: ToolCall)
    ensures HasDependency(tc, other) <==>
      exists t :: t != "" && HasText(other, "name", t) &&
        ((tc.name in {"k8s_scale", "k8s_restart", "k8s_patch", "k8s_rollout"} &&
          other.name in {"k8s_get", "k8s_describe", "k8s_status"} && HasText(tc, "name", t)) ||
         (tc.name == "k8s_logs" && other.name == "k8s_events" && HasText(tc, "pod_name", t)))
  {
    var t := StringArg(other, "name");
    if HasDependency(tc, other) {
      assert HasText(other, "name", t);
    }
  }

  /** The names of the calls of `all`, in order, that `tc` depends on. */
  function DependencyNames(tc: ToolCall, all: seq<ToolCall>): (r: seq<Name>)
    ensures forall d :: d in r <==> exists o :: o in all && o.name == d && o.name != tc.name && HasDependency(tc, o)
  {
    if all == [] then []
    else
      var before, last := all[..|all| - 1], all[|all| - 1];
      assert all == before + [last];
      if last.name != tc.name && HasDependency(tc, last) then DependencyNames(tc, before) + [last.name]
      else DependencyNames(tc, before)
  }

  method InferDependencies(tc: ToolCall, allCalls: seq<ToolCall>) returns (deps: seq<Name>)
    ensures deps == DependencyNames(tc, allCalls)
  {
    deps := [];
    for i := 0 to |allCalls|
      invariant deps == DependencyNames(tc, allCalls[..i])
    {
      var other := allCalls[i];
      assert allCalls[..i + 1][..i] == allCalls[..i];
      if other.name == tc.name {
        continue;
      }
      if HasDependency(tc, other) {
        deps := deps + [other.name];
      }
    }
    assert allCalls[..|allCalls|] == allCalls;
  }

  method BuildDependencyGraph(calls: seq<ToolCall>) returns (graph: seq<ToolDependency>)
    ensures |graph| == |calls|
    ensures forall i :: 0 <= i < |calls| ==> graph[i] == ToolDependency(calls[i], DependencyNames(calls[i], calls))
  {
    graph := [];
    for i := 0 to |calls|
      invariant |graph| == i
      invariant forall j :: 0 <= j < i ==> graph[j] == ToolDependency(calls[j], DependencyNames(calls[j], calls))
    {
      var deps := InferDependencies(calls[i], calls);
      graph := graph + [ToolDependency(calls[i], deps)];
    }
  }

  /** A rank that falls along inferred dependencies: lookups before changes, events before logs. */
  ghost function Rank(name: Name): nat
  {
    if IsChange(name) || name == "k8s_logs" then 1 else 0
  }

  lemma InferredRankFalls(tc: ToolCall, other: ToolCall)
    requires HasDependency(tc, other)
    ensures Rank(other.name) < Rank(tc.name)
  {
  }

  // ----- Topological sort -----

  /** The graph Kahn's algorithm works on: of entries with one name the last counts. */
  ghost function GraphOf(graph: seq<ToolDependency>): Graph
  {
    if graph == [] then map[] else
    var n := |graph| - 1;
    GraphOf(graph[..n])[graph[n].tool.name := graph[n].dependsOn]
  }

  /** The tool of each name. */
  ghost function ToolsOf(graph: seq<ToolDependency>): map<Name, ToolCall>
  {
    if graph == [] then map[] else
    var n := |graph| - 1;
    ToolsOf(graph[..n])[graph[n].tool.name := graph[n].tool]
  }

  /** No later entry has the name of entry `i`. */
  ghost predicate IsLastEntry(graph: seq<ToolDependency>, i: nat)
    requires i < |graph|
  {
    forall j :: i < j < |graph| ==> graph[j].tool.name != graph[i].tool.name
  }

  lemma {:induction false} NamesOfGraph(graph: seq<ToolDependency>, n: Name)
    ensures n in GraphOf(graph) <==> n in NodeNames(graph)
    ensures n in ToolsOf(graph) <==> n in NodeNames(graph)
  {
    if graph != [] {
      var k := |graph| - 1;
      NamesOfGraph(graph[..k], n);
      assert NodeNames(graph) == NodeNames(graph[..k]) + [graph[k].tool.name];
    }
  }

  /** The entry that stands for a name. */
  lemma {:induction false} EntryOf(graph: seq<ToolDependency>, n: Name) returns (i: nat)
    requires n in GraphOf(graph)
    ensures i < |graph| && IsLastEntry(graph, i) && graph[i].tool.name == n
    ensures GraphOf(graph)[n] == graph[i].dependsOn && n in ToolsOf(graph) && ToolsOf(graph)[n] == graph[i].tool
  {
    var k := |graph| - 1;
    if graph[k].tool.name == n {
      i := k;
    } else {
      i := EntryOf(graph[..k], n);
      assert graph[..k][i] == graph[i];
      forall j | i < j < |graph|
        ensures graph[j].tool.name != n
      {
        if j < k {
          assert graph[..k][j].tool.name != n;
        }
      }
    }
  }

  function Neighbors(adj: map<Name, seq<Name>>, d: Name): seq<Name>
  {
    if d in adj then adj[d] else []
  }

  /** `adj` reverses the edges of `g`, keeping multiplicities. */
  ghost predicate Reversed(g: Graph, adj: map<Name, seq<Name>>)
  {
    forall d, n :: Occurrences(Neighbors(adj, d), n) == if n in g then Occurrences(g[n], d) else 0
  }

  ghost predicate NeighborsIn(adj: map<Name, seq<Name>>, names: set<Name>)
  {
    forall d, n :: n in Neighbors(adj, d) ==> n in names
  }

  lemma NeighborsInGrows(adj: map<Name, seq<Name>>, names: set<Name>, d: Name, n: Name)
    requires NeighborsIn(adj, names) && n in names
    ensures NeighborsIn(adj[d := Neighbors(adj, d) + [n]], names)
  {
    var adj' := adj[d := Neighbors(adj, d) + [n]];
    forall e, m | m in Neighbors(adj', e) ensures m in names {
      assert m in Neighbors(adj, e) || m == n;
    }
  }

  /** `adj` has every edge of `g` reversed, and maybe more. */
  ghost predicate Covers(g: Graph, adj: map<Name, seq<Name>>)
  {
    forall d, n :: Occurrences(Neighbors(adj, d), n) >= if n in g then Occurrences(g[n], d) else 0
  }

  /** `adj` is `adj0` with `name` added once more to the neighbours of each of `deps`. */
  ghost predicate EdgesAdded(adj0: map<Name, seq<Name>>, adj: map<Name, seq<Name>>, name: Name, deps: seq<Name>)
  {
    forall d, n :: Occurrences(Neighbors(adj, d), n) ==
                   Occurrences(Neighbors(adj0, d), n) + if n == name then Occurrences(deps, d) else 0
  }

  lemma NoEdgeAdded(adj: map<Name, seq<Name>>, name: Name)
    ensures EdgesAdded(adj, adj, name, [])
  {
    assert forall d: Name :: Occurrences([], d) == 0;
  }

  lemma OneEdgeMore(adj0: map<Name, seq<Name>>, adj: map<Name, seq<Name>>, name: Name, deps: seq<Name>, dep: Name)
    requires EdgesAdded(adj0, adj, name, deps)
    ensures EdgesAdded(adj0, adj[dep := Neighbors(adj, dep) + [name]], name, deps + [dep])
  {
    var adj' := adj[dep := Neighbors(adj, dep) + [name]];
    forall d, n
      ensures Occurrences(Neighbors(adj', d), n) ==
              Occurrences(Neighbors(adj0, d), n) + if n == name then Occurrences(deps + [dep], d) else 0
    {
      OccurrencesOfAppended(Neighbors(adj, dep), name, n);
      OccurrencesOfAppended(deps, dep, d);
    }
  }

  /** The inner loop of the first pass: `name` becomes a neighbour of each of its dependencies. */
  method AddEdges(name: Name, deps: seq<Name>, adj0: map<Name, seq<Name>>, ghost names: set<Name>)
    returns (adj: map<Name, seq<Name>>)
    requires NeighborsIn(adj0, names)
    ensures NeighborsIn(adj, names + {name}) && EdgesAdded(adj0, adj, name, deps)
  {
    adj := adj0;
    NoEdgeAdded(adj, name);
    assert deps[..0] == [];
    for j := 0 to |deps|
      invariant NeighborsIn(adj, names + {name}) && EdgesAdded(adj0, adj, name, deps[..j])
    {
      OneEdgeMore(adj0, adj, name, deps[..j], deps[j]);
      assert deps[..j] + [deps[j]] == deps[..j + 1];
      NeighborsInGrows(adj, names + {name}, deps[j], name);
      adj := adj[deps[j] := Neighbors(adj, deps[j]) + [name]];
    }
    assert deps[..|deps|] == deps;
  }

  ghost predicate Degrees(g: Graph, inDegree: map<Name, int>)
  {
    inDegree.Keys == g.Keys && forall n :: n in g ==> inDegree[n] == |g[n]|
  }

  /** The tables of the first pass: exact if no name comes twice, else with edges left over from earlier entries. */
  ghost predicate Tables(graph: seq<ToolDependency>, adj: map<Name, seq<Name>>, inDegree: map<Name, int>)
  {
    var g := GraphOf(graph);
    && Degrees(g, inDegree) && NeighborsIn(adj, g.Keys) && Covers(g, adj)
    && (Distinct(NodeNames(graph)) ==> Reversed(g, adj))
  }

  lemma TablesGrow(graph: seq<ToolDependency>, dep: ToolDependency, adj: map<Name, seq<Name>>,
                   adj': map<Name, seq<Name>>, inDegree: map<Name, int>)
    requires Tables(graph, adj, inDegree) && EdgesAdded(adj, adj', dep.tool.name, dep.dependsOn)
    requires NeighborsIn(adj', inDegree.Keys + {dep.tool.name})
    ensures Tables(graph + [dep], adj', inDegree[dep.tool.name := |dep.dependsOn|])
  {
    var all, g, name := graph + [dep], GraphOf(graph), dep.tool.name;
    assert all[..|graph|] == graph;
    assert GraphOf(all) == g[name := dep.dependsOn];
    assert GraphOf(all).Keys == g.Keys + {name};
    if Distinct(NodeNames(all)) {
      NameIsNew(graph, dep);
    }
    EdgesStillCover(g, adj, adj', name, dep.dependsOn);
  }

  lemma NameIsNew(graph: seq<ToolDependency>, dep: ToolDependency)
    requires Distinct(NodeNames(graph + [dep]))
    ensures Distinct(NodeNames(graph)) && dep.tool.name !in GraphOf(graph)
  {
    var names := NodeNames(graph + [dep]);
    assert forall i :: 0 <= i < |graph| ==> NodeNames(graph)[i] == names[i] != names[|graph|];
    NamesOfGraph(graph, dep.tool.name);
  }

  lemma EdgesStillCover(g: Graph, adj: map<Name, seq<Name>>, adj': map<Name, seq<Name>>, name: Name, deps: seq<Name>)
    requires Covers(g, adj) && EdgesAdded(adj, adj', name, deps)
    ensures Covers(g[name := deps], adj')
    ensures Reversed(g, adj) && name !in g ==> Reversed(g[name := deps], adj')
  {
  }

  lemma OneEntryMore(graph: seq<ToolDependency>, i: nat, adj: map<Name, seq<Name>>, adj': map<Name, seq<Name>>,
                     inDegree: map<Name, int>)
    requires i < |graph| && Tables(graph[..i], adj, inDegree)
    requires EdgesAdded(adj, adj', graph[i].tool.name, graph[i].dependsOn)
    requires NeighborsIn(adj', inDegree.Keys + {graph[i].tool.name})
    ensures Tables(graph[..i + 1], adj', inDegree[graph[i].tool.name := |graph[i].dependsOn|])
    ensures ToolsOf(graph[..i + 1]) == ToolsOf(graph[..i])[graph[i].tool.name := graph[i].tool]
  {
    assert graph[..i + 1] == graph[..i] + [graph[i]] && graph[..i + 1][..i] == graph[..i];
    TablesGrow(graph[..i], graph[i], adj, adj', inDegree);
  }

  /** The first loop: reversed edges, in-degrees and the tool of each name; a later entry of the same name wins. */
  method BuildTables(graph: seq<ToolDependency>)
    returns (adj: map<Name, seq<Name>>, inDegree: map<Name, int>, toolMap: map<Name, ToolCall>)
    ensures toolMap == ToolsOf(graph) && Tables(graph, adj, inDegree)
  {
    adj, inDegree, toolMap := map[], map[], map[];
    for i := 0 to |graph|
      invariant toolMap == ToolsOf(graph[..i]) && Tables(graph[..i], adj, inDegree)
    {
      var dep := graph[i];
      ghost var adj0 := adj;
      adj := AddEdges(dep.tool.name, dep.dependsOn, adj, inDegree.Keys);
      OneEntryMore(graph, i, adj0, adj, inDegree);
      toolMap := toolMap[dep.tool.name := dep.tool];
      inDegree := inDegree[dep.tool.name := |dep.dependsOn|];
    }
    assert graph[..|graph|] == graph;
  }

  /** A name is queued or done once its in-degree is used up, and never queued again. */
  ghost predicate Scheduled(inDegree: map<Name, int>, done: seq<Name>, queue: seq<Name>)
  {
    && Distinct(done + queue)
    && forall n :: n in done + queue <==> n in inDegree && inDegree[n] <= 0
  }

  /** The in-degrees count the dependencies still pending, and everything done came after its own. */
  ghost predicate Counted(g: Graph, inDegree: map<Name, int>, done: seq<Name>)
  {
    && inDegree.Keys == g.Keys
    && (forall n :: n in g ==> inDegree[n] == Pending(g[n], Elements(done)))
    && (forall i :: 0 <= i < |done| ==> done[i] in g && AllIn(g[done[i]], Elements(done[..i])))
  }

  /** The in-degrees count no more than the dependencies still pending. */
  ghost predicate AtMostPending(g: Graph, inDegree: map<Name, int>, done: seq<Name>)
  {
    inDegree.Keys == g.Keys && forall n :: n in g ==> inDegree[n] <= Pending(g[n], Elements(done))
  }

  /** The inner loop of the main pass: `current` is done, so its dependents wait for one tool less. */
  method Release(neighbors: seq<Name>, inDegree0: map<Name, int>, queue0: seq<Name>, ghost done: seq<Name>)
    returns (inDegree: map<Name, int>, queue: seq<Name>)
    requires Scheduled(inDegree0, done, queue0) && forall n :: n in neighbors ==> n in inDegree0
    ensures Scheduled(inDegree, done, queue) && queue0 <= queue && inDegree.Keys == inDegree0.Keys
    ensures forall n :: n in inDegree ==> inDegree[n] == inDegree0[n] - Occurrences(neighbors, n)
  {
    inDegree, queue := inDegree0, queue0;
    for i := 0 to |neighbors|
      invariant Scheduled(inDegree, done, queue) && queue0 <= queue && inDegree.Keys == inDegree0.Keys
      invariant forall n :: n in inDegree ==> inDegree[n] == inDegree0[n] - Occurrences(neighbors[..i], n)
    {
      var neighbor := neighbors[i];
      forall n ensures Occurrences(neighbors[..i + 1], n) ==
               Occurrences(neighbors[..i], n) + if n == neighbor then 1 else 0 {
        OccurrencesOfAppended(neighbors[..i], neighbor, n);
        assert neighbors[..i + 1] == neighbors[..i] + [neighbor];
      }
      ghost var before := queue;
      inDegree := inDegree[neighbor := inDegree[neighbor] - 1];
      if inDegree[neighbor] == 0 {
        queue := queue + [neighbor];
        assert done + queue == done + before + [neighbor];
      }
    }
    assert neighbors[..|neighbors|] == neighbors;
  }

  /** Dequeuing `current` and releasing its dependents keeps the count. */
  lemma CountedStep(g: Graph, adj: map<Name, seq<Name>>, done: seq<Name>, current: Name,
                    inDegree: map<Name, int>, inDegree': map<Name, int>)
    requires Counted(g, inDegree, done) && Reversed(g, adj)
    requires current in g && inDegree[current] <= 0 && current !in done
    requires inDegree'.Keys == inDegree.Keys
    requires forall n :: n in inDegree ==> inDegree'[n] == inDegree[n] - Occurrences(Neighbors(adj, current), n)
    ensures Counted(g, inDegree', done + [current])
  {
    var done' := done + [current];
    assert Elements(done') == Elements(done) + {current};
    forall n | n in g ensures inDegree'[n] == Pending(g[n], Elements(done')) {
      PendingAfter(g[n], Elements(done), current);
      assert Occurrences(Neighbors(adj, current), n) == Occurrences(g[n], current);
    }
    assert AllIn(g[current], Elements(done)) by {
      assert Pending(g[current], Elements(done)) == 0;
    }
    forall i | 0 <= i < |done'| ensures AllIn(g[done'[i]], Elements(done'[..i])) {
      assert done'[..i] == done[..i];
      if i == |done| {
        assert done[..i] == done;
      }
    }
  }

  lemma AtMostPendingStep(g: Graph, adj: map<Name, seq<Name>>, done: seq<Name>, current: Name,
                          inDegree: map<Name, int>, inDegree': map<Name, int>)
    requires AtMostPending(g, inDegree, done) && Covers(g, adj) && current !in done
    requires inDegree'.Keys == inDegree.Keys
    requires forall n :: n in inDegree ==> inDegree'[n] == inDegree[n] - Occurrences(Neighbors(adj, current), n)
    ensures AtMostPending(g, inDegree', done + [current])
  {
    assert Elements(done + [current]) == Elements(done) + {current};
    forall n | n in g ensures inDegree'[n] <= Pending(g[n], Elements(done + [current])) {
      PendingAfter(g[n], Elements(done), current);
      assert Occurrences(Neighbors(adj, current), n) >= Occurrences(g[n], current);
    }
  }

  /** `topologicalSort`; the first queue is filled in any order, as Go ranges over a map in any order. */
  method TopologicalSort(graph: seq<ToolDependency>) returns (result: seq<ToolCall>)
    ensures TakenFrom(ToolsOf(graph), result) && IsClosedOrder(GraphOf(graph), Names(result))
    ensures Distinct(NodeNames(graph)) ==> IsDependencyOrder(GraphOf(graph), Names(result))
  {
    var adj, inDegree, toolMap := BuildTables(graph);
    var queue := ReadyNames(inDegree);
    ToolsHaveNames(graph);
    result := ProcessQueue(adj, inDegree, toolMap, queue, GraphOf(graph), Distinct(NodeNames(graph)));
  }

  lemma ToolsHaveNames(graph: seq<ToolDependency>)
    ensures ToolsOf(graph).Keys == GraphOf(graph).Keys
    ensures forall n :: n in ToolsOf(graph) ==> ToolsOf(graph)[n].name == n
  {
    forall n
      ensures n in ToolsOf(graph) <==> n in GraphOf(graph)
      ensures n in ToolsOf(graph) ==> ToolsOf(graph)[n].name == n
    {
      NamesOfGraph(graph, n);
      if n in GraphOf(graph) {
        var i := EntryOf(graph, n);
      }
    }
  }

  /** What the main loop keeps. */
  ghost predicate Progress(g: Graph, inDegree: map<Name, int>, done: seq<Name>, queue: seq<Name>, free: seq<Name>,
                           distinct: bool)
  {
    && Scheduled(inDegree, done, queue) && AtMostPending(g, inDegree, done) && free <= done + queue
    && (distinct ==> Counted(g, inDegree, done))
  }

  lemma ProgressGrows(g: Graph, adj: map<Name, seq<Name>>, done: seq<Name>, queue: seq<Name>, free: seq<Name>,
                      inDegree: map<Name, int>, inDegree': map<Name, int>, queue': seq<Name>, distinct: bool)
    requires Progress(g, inDegree, done, queue, free, distinct) && queue != []
    requires Covers(g, adj) && (distinct ==> Reversed(g, adj))
    requires Scheduled(inDegree', done + [queue[0]], queue') && queue[1..] <= queue'
    requires inDegree'.Keys == inDegree.Keys
    requires forall n :: n in inDegree ==> inDegree'[n] == inDegree[n] - Occurrences(Neighbors(adj, queue[0]), n)
    ensures Progress(g, inDegree', done + [queue[0]], queue', free, distinct)
  {
    Dequeue(inDegree, done, queue);
    AtMostPendingStep(g, adj, done, queue[0], inDegree, inDegree');
    if distinct {
      CountedStep(g, adj, done, queue[0], inDegree, inDegree');
    }
    StillBegins(free, done, queue, queue');
  }

  lemma StillBegins(free: seq<Name>, done: seq<Name>, queue: seq<Name>, queue': seq<Name>)
    requires queue != [] && free <= done + queue && queue[1..] <= queue'
    ensures free <= done + [queue[0]] + queue'
  {
    assert done + queue == done + [queue[0]] + queue[1..];
    assert done + [queue[0]] + queue[1..] <= done + [queue[0]] + queue';
  }

  /** The main loop. */
  method ProcessQueue(adj: map<Name, seq<Name>>, inDegree0: map<Name, int>,
                      toolMap: map<Name, ToolCall>, queue0: seq<Name>, ghost g: Graph, ghost distinct: bool)
    returns (result: seq<ToolCall>)
    requires toolMap.Keys == g.Keys && (forall n :: n in toolMap ==> toolMap[n].name == n)
    requires Degrees(g, inDegree0) && NeighborsIn(adj, g.Keys) && Covers(g, adj) && (distinct ==> Reversed(g, adj))
    requires Scheduled(inDegree0, [], queue0)
    ensures TakenFrom(toolMap, result) && IsClosedOrder(g, Names(result))
    ensures distinct ==> IsDependencyOrder(g, Names(result))
  {
    var inDegree, queue := inDegree0, queue0;
    ghost var done: seq<Name> := [];
    CountedInitially(g, inDegree);
    assert done + queue == queue0;
    result := [];
    while queue != []
      invariant Lists(toolMap, done, result) && Progress(g, inDegree, done, queue, queue0, distinct)
      decreases |toolMap| - |done|
    {
      var current := queue[0];
      ghost var done0, inDegree1, queue1 := done, inDegree, queue;
      Dequeue(inDegree, done, queue);
      ListsGrow(toolMap, done, result, current);
      queue := queue[1..];
      result := result + [toolMap[current]];
      done := done + [current];
      inDegree, queue := Release(Neighbors(adj, current), inDegree, queue, done);
      ProgressGrows(g, adj, done0, queue1, queue0, inDegree1, inDegree, queue, distinct);
    }
    assert done + [] == done;
    Finished(inDegree0, inDegree, done, queue0, g, distinct);
  }

  ghost predicate Lists(toolMap: map<Name, ToolCall>, done: seq<Name>, result: seq<ToolCall>)
  {
    done == Names(result) && TakenFrom(toolMap, result)
  }

  lemma ListsGrow(toolMap: map<Name, ToolCall>, done: seq<Name>, result: seq<ToolCall>, n: Name)
    requires Lists(toolMap, done, result) && n in toolMap && toolMap[n].name == n
    ensures Lists(toolMap, done + [n], result + [toolMap[n]])
  {
  }

  ghost predicate TakenFrom(toolMap: map<Name, ToolCall>, result: seq<ToolCall>)
  {
    forall i :: 0 <= i < |result| ==> result[i].name in toolMap && toolMap[result[i].name] == result[i]
  }

  /** With an empty queue, every name whose dependencies are done is done. */
  lemma Finished(inDegree0: map<Name, int>, inDegree: map<Name, int>, done: seq<Name>, free: seq<Name>,
                 g: Graph, distinct: bool)
    requires Degrees(g, inDegree0) && Scheduled(inDegree0, [], free) && free <= done
    requires Scheduled(inDegree, done, []) && AtMostPending(g, inDegree, done)
    requires distinct ==> Counted(g, inDegree, done)
    ensures IsClosedOrder(g, done) && (distinct ==> IsDependencyOrder(g, done))
  {
    assert done + [] == done && [] + free == free;
    assert forall i :: 0 <= i < |done| ==> done[i] in g;
    FreeAreFirst(g, inDegree0, free, done);
    forall n | n in g && AllIn(g[n], Elements(done))
      ensures n in done
    {
      assert inDegree[n] <= Pending(g[n], Elements(done)) == 0;
    }
  }

  lemma FreeAreFirst(g: Graph, inDegree: map<Name, int>, free: seq<Name>, done: seq<Name>)
    requires Degrees(g, inDegree) && (forall n :: n in free <==> n in inDegree && inDegree[n] <= 0)
    requires free <= done && Distinct(done) && forall i :: 0 <= i < |done| ==> done[i] in g
    ensures FreeFirst(g, done)
  {
    forall i, j | 0 <= i < j < |done| && g[done[j]] == []
      ensures g[done[i]] == []
    {
      assert done[j] in free;
      var k :| 0 <= k < |free| && free[k] == done[j];
      assert done[k] == done[j] && k == j;
      assert done[i] == free[i];
    }
  }

  lemma CountedInitially(g: Graph, inDegree: map<Name, int>)
    requires Degrees(g, inDegree)
    ensures Counted(g, inDegree, []) && AtMostPending(g, inDegree, [])
  {
    forall n | n in g ensures Pending(g[n], Elements([])) == |g[n]| {
      PendingInitially(g[n]);
      assert Elements<Name>([]) == {};
    }
  }

  lemma Dequeue(inDegree: map<Name, int>, done: seq<Name>, queue: seq<Name>)
    requires Scheduled(inDegree, done, queue) && queue != []
    ensures Scheduled(inDegree, done + [queue[0]], queue[1..])
    ensures queue[0] in inDegree && inDegree[queue[0]] <= 0 && queue[0] !in done
    ensures |done| + 1 <= |inDegree|
  {
    var all := done + queue;
    assert done + [queue[0]] + queue[1..] == all;
    assert all[|done|] == queue[0];
    assert queue[0] !in done by {
      assert forall i :: 0 <= i < |done| ==> all[i] == done[i];
    }
    DistinctSize(all);
    SubsetSize(Elements(all), inDegree.Keys);
  }

  /** The names without dependencies, in an arbitrary order. */
  method ReadyNames(inDegree: map<Name, int>) returns (queue: seq<Name>)
    requires forall n :: n in inDegree ==> inDegree[n] >= 0
    ensures Scheduled(inDegree, [], queue)
  {
    queue := [];
    var rest := inDegree.Keys;
    while rest != {}
      invariant rest <= inDegree.Keys && Distinct(queue)
      invariant forall n :: n in queue <==> n in inDegree && n !in rest && inDegree[n] == 0
      decreases rest
    {
      var name :| name in rest;
      rest := rest - {name};
      if inDegree[name] == 0 {
        queue := queue + [name];
      }
    }
    assert [] + queue == queue;
  }

  // ----- The order used by executeDependent -----

  ghost function InferredGraph(calls: seq<ToolCall>): (graph: seq<ToolDependency>)
    ensures NodeNames(graph) == Names(calls)
  {
    seq(|calls|, i requires 0 <= i < |calls| => ToolDependency(calls[i], DependencyNames(calls[i], calls)))
  }

  /** No call depends on one that comes later. */
  ghost predicate RespectsDependencies(order: seq<ToolCall>)
  {
    forall i, j :: 0 <= i < j < |order| ==> !HasDependency(order[i], order[j])
  }

  /** No later call has the name of call `i`. */
  ghost predicate IsLastCall(calls: seq<ToolCall>, i: nat)
    requires i < |calls|
  {
    forall j :: i < j < |calls| ==> calls[j].name != calls[i].name
  }

  ghost predicate IsLastOfName(calls: seq<ToolCall>, tc: ToolCall)
  {
    exists i :: 0 <= i < |calls| && IsLastCall(calls, i) && calls[i] == tc
  }

  /** What the sort returns for inferred dependencies. */
  ghost predicate SortedCalls(calls: seq<ToolCall>, order: seq<ToolCall>)
  {
    TakenFrom(ToolsOf(InferredGraph(calls)), order) && IsClosedOrder(GraphOf(InferredGraph(calls)), Names(order))
  }

  /** `g` is the inferred graph, where the last call of a name stands for it. */
  ghost predicate Infers(calls: seq<ToolCall>, g: Graph)
  {
    && (forall i :: 0 <= i < |calls| ==> calls[i].name in g)
    && (forall n :: n in g ==> exists i :: Stands(calls, g, n, i))
  }

  ghost predicate Stands(calls: seq<ToolCall>, g: Graph, n: Name, i: int)
    requires n in g
  {
    && 0 <= i < |calls| && IsLastCall(calls, i) && calls[i].name == n
    && g[n] == DependencyNames(calls[i], calls)
  }

  /** The call that stands for a name. */
  lemma InferredEntry(calls: seq<ToolCall>, n: Name) returns (i: nat)
    requires n in GraphOf(InferredGraph(calls))
    ensures Stands(calls, GraphOf(InferredGraph(calls)), n, i)
    ensures var tools := ToolsOf(InferredGraph(calls)); n in tools && tools[n] == calls[i]
  {
    var graph := InferredGraph(calls);
    i := EntryOf(graph, n);
    assert forall j :: 0 <= j < |calls| ==> graph[j].tool == calls[j];
  }

  lemma GraphOfInferred(calls: seq<ToolCall>)
    ensures Infers(calls, GraphOf(InferredGraph(calls)))
  {
    var graph := InferredGraph(calls);
    forall i | 0 <= i < |calls|
      ensures calls[i].name in GraphOf(graph)
    {
      assert NodeNames(graph)[i] == calls[i].name;
      NamesOfGraph(graph, calls[i].name);
    }
    forall n | n in GraphOf(graph)
      ensures exists i :: Stands(calls, GraphOf(graph), n, i)
    {
      var i := InferredEntry(calls, n);
    }
  }

  lemma DependencyIsInferred(calls: seq<ToolCall>, g: Graph, a: Name, d: Name)
    requires Infers(calls, g) && a in g && d in g[a]
    ensures d in g && exists i, j :: DependsAt(calls, i, j) && calls[i].name == a && calls[j].name == d
  {
    var i :| Stands(calls, g, a, i);
    var o :| o in calls && o.name == d && o.name != calls[i].name && HasDependency(calls[i], o);
    var j :| 0 <= j < |calls| && calls[j] == o;
    assert DependsAt(calls, i, j);
  }

  ghost predicate DependsAt(calls: seq<ToolCall>, i: int, j: int)
  {
    0 <= i < |calls| && 0 <= j < |calls| && HasDependency(calls[i], calls[j])
  }

  /** The inferred relation has no cycles. */
  lemma InferredGraphIsRanked(calls: seq<ToolCall>, g: Graph) returns (rank: map<Name, nat>)
    requires Infers(calls, g)
    ensures rank.Keys == g.Keys
    ensures forall a, d :: a in g && d in g[a] ==> d in g && rank[d] < rank[a]
  {
    rank := map m | m in g :: Rank(m);
    forall a, d | a in g && d in g[a] ensures d in g && rank[d] < rank[a] {
      DependencyIsInferred(calls, g, a, d);
      var i, j :| DependsAt(calls, i, j) && calls[i].name == a && calls[j].name == d;
      InferredRankFalls(calls[i], calls[j]);
    }
  }

  /** Nothing depends on a call that depends on something. */
  lemma InferredGraphIsFlat(calls: seq<ToolCall>, g: Graph)
    requires Infers(calls, g)
    ensures IsFlat(g)
  {
    forall a, d | a in g && d in g[a] ensures d in g && g[d] == [] {
      DependencyIsInferred(calls, g, a, d);
      var i, j :| DependsAt(calls, i, j) && calls[i].name == a && calls[j].name == d;
      InferredRankFalls(calls[i], calls[j]);
      if g[d] != [] {
        DependencyIsInferred(calls, g, d, g[d][0]);
        var k, l :| DependsAt(calls, k, l) && calls[k].name == d && calls[l].name == g[d][0];
        InferredRankFalls(calls[k], calls[l]);
      }
    }
  }

  /** Whatever names come twice, each emitted tool comes after all it depends on, and none is left out. */
  lemma SortIsDependencyOrder(calls: seq<ToolCall>, order: seq<ToolCall>)
    requires SortedCalls(calls, order)
    ensures IsDependencyOrder(GraphOf(InferredGraph(calls)), Names(order))
  {
    GraphOfInferred(calls);
    InferredGraphIsFlat(calls, GraphOf(InferredGraph(calls)));
    FlatOrder(GraphOf(InferredGraph(calls)), Names(order));
  }

  /** So every name is emitted. */
  lemma InferredGraphIsEmitted(calls: seq<ToolCall>, g: Graph, order: seq<Name>, n: Name)
    requires Infers(calls, g) && IsDependencyOrder(g, order) && n in g
    ensures n in order
  {
    var rank := InferredGraphIsRanked(calls, g);
    RankedIsEmitted(g, order, rank, n);
  }

  lemma NamesDetermineCalls(calls: seq<ToolCall>, order: seq<ToolCall>)
    requires Distinct(Names(calls)) && Distinct(Names(order))
    requires forall tc :: tc in order <==> tc in calls
    ensures multiset(order) == multiset(calls)
  {
    forall tc ensures multiset(order)[tc] == multiset(calls)[tc] {
      OnceByName(order, tc);
      OnceByName(calls, tc);
    }
  }

  lemma {:induction false} OnceByName(calls: seq<ToolCall>, tc: ToolCall)
    requires Distinct(Names(calls))
    ensures multiset(calls)[tc] == if tc in calls then 1 else 0
  {
    if calls != [] {
      var rest := calls[1..];
      assert calls == [calls[0]] + rest;
      assert forall i :: 0 <= i < |rest| ==> Names(rest)[i] == Names(calls)[i + 1];
      OnceByName(rest, tc);
      if tc in rest {
        var i :| 0 <= i < |rest| && rest[i] == tc;
        assert Names(calls)[0] != Names(calls)[i + 1];
      }
    }
  }

  lemma OneLastCall(calls: seq<ToolCall>, i: nat, j: nat)
    requires i < |calls| && j < |calls| && calls[i].name == calls[j].name
    requires IsLastCall(calls, i) && IsLastCall(calls, j)
    ensures i == j
  {
  }

  lemma SortedIsLast(calls: seq<ToolCall>, order: seq<ToolCall>, i: nat) returns (k: nat)
    requires SortedCalls(calls, order) && i < |order|
    ensures Stands(calls, GraphOf(InferredGraph(calls)), Names(order)[i], k) && calls[k] == order[i]
  {
    k := InferredEntry(calls, Names(order)[i]);
  }

  lemma LastIsSorted(calls: seq<ToolCall>, order: seq<ToolCall>, k: nat)
    requires SortedCalls(calls, order) && k < |calls| && IsLastCall(calls, k)
    ensures calls[k] in order
  {
    GraphOfInferred(calls);
    SortIsDependencyOrder(calls, order);
    InferredGraphIsEmitted(calls, GraphOf(InferredGraph(calls)), Names(order), calls[k].name);
    var i :| 0 <= i < |order| && Names(order)[i] == calls[k].name;
    var l := SortedIsLast(calls, order, i);
    OneLastCall(calls, k, l);
  }

  /** What is run is the last call of each name, once. */
  lemma LastCallsAreRun(calls: seq<ToolCall>, order: seq<ToolCall>)
    requires SortedCalls(calls, order)
    ensures forall tc :: tc in order <==> IsLastOfName(calls, tc)
    ensures Distinct(Names(order))
  {
    forall tc
      ensures tc in order <==> IsLastOfName(calls, tc)
    {
      if tc in order {
        var i :| 0 <= i < |order| && order[i] == tc;
        var k := SortedIsLast(calls, order, i);
      }
      if IsLastOfName(calls, tc) {
        var k :| 0 <= k < |calls| && IsLastCall(calls, k) && calls[k] == tc;
        LastIsSorted(calls, order, k);
      }
    }
  }

  /** Each name asked for is run. */
  lemma EachNameIsRun(calls: seq<ToolCall>, order: seq<ToolCall>)
    requires SortedCalls(calls, order)
    ensures Elements(Names(order)) == Elements(Names(calls))
  {
    GraphOfInferred(calls);
    SortIsDependencyOrder(calls, order);
    var g := GraphOf(InferredGraph(calls));
    forall n
      ensures n in Names(order) <==> n in Names(calls)
    {
      NamesOfGraph(InferredGraph(calls), n);
      if n in g {
        InferredGraphIsEmitted(calls, g, Names(order), n);
      }
    }
  }

  lemma DistinctAreLast(calls: seq<ToolCall>)
    requires Distinct(Names(calls))
    ensures forall i :: 0 <= i < |calls| ==> IsLastCall(calls, i)
  {
    forall i, j | 0 <= i < j < |calls|
      ensures calls[j].name != calls[i].name
    {
      assert Names(calls)[i] != Names(calls)[j];
    }
  }

  /** No call is lost, and none invented, exactly when no two calls share a name. */
  lemma SortIsPermutation(calls: seq<ToolCall>, order: seq<ToolCall>)
    requires SortedCalls(calls, order)
    ensures multiset(order) == multiset(calls) <==> Distinct(Names(calls))
  {
    LastCallsAreRun(calls, order);
    if Distinct(Names(calls)) {
      DistinctAreLast(calls);
      forall tc
        ensures tc in order <==> tc in calls
      {
        assert tc in order <==> IsLastOfName(calls, tc);
        if tc in calls {
          var i :| 0 <= i < |calls| && calls[i] == tc;
          assert IsLastCall(calls, i);
        }
      }
      NamesDetermineCalls(calls, order);
    } else {
      ShorterIfRepeated(calls, order);
      assert |multiset(order)| == |order| && |multiset(calls)| == |calls|;
    }
  }

  lemma ShorterIfRepeated(calls: seq<ToolCall>, order: seq<ToolCall>)
    requires SortedCalls(calls, order) && !Distinct(Names(calls))
    ensures |order| < |calls|
  {
    EachNameIsRun(calls, order);
    DistinctSize(Names(order));
    RepeatedSize(Names(calls));
  }

  /** Two calls of one tool, with whatever arguments: just the second is run. */
  lemma SecondOfTwoRuns(name: Name, args: map<string, Value>, moreArgs: map<string, Value>, order: seq<ToolCall>)
    requires SortedCalls([ToolCall(name, args, "1"), ToolCall(name, moreArgs, "2")], order)
    ensures order == [ToolCall(name, moreArgs, "2")]
  {
    var calls := [ToolCall(name, args, "1"), ToolCall(name, moreArgs, "2")];
    assert Names(calls)[0] == Names(calls)[1];
    ShorterIfRepeated(calls, order);
    LastIsSorted(calls, order, 1);
  }

  /** No call that is run comes before one it depends on. */
  lemma SortRespectsDependencies(calls: seq<ToolCall>, order: seq<ToolCall>)
    requires SortedCalls(calls, order)
    ensures RespectsDependencies(order)
  {
    forall i, j | 0 <= i < j < |order| ensures !HasDependency(order[i], order[j]) {
      LaterIsNoDependency(calls, order, i, j);
    }
  }

  /** A lookup of what a change names comes before it, and events of a pod before its logs. */
  lemma LookupsComeFirst(calls: seq<ToolCall>, order: seq<ToolCall>, i: nat, j: nat, t: string)
    requires SortedCalls(calls, order) && i < |order| && j < |order| && t != "" && HasText(order[j], "name", t)
    requires (order[i].name in {"k8s_scale", "k8s_restart", "k8s_patch", "k8s_rollout"} &&
              order[j].name in {"k8s_get", "k8s_describe", "k8s_status"} && HasText(order[i], "name", t)) ||
             (order[i].name == "k8s_logs" && order[j].name == "k8s_events" && HasText(order[i], "pod_name", t))
    ensures j < i
  {
    SortRespectsDependencies(calls, order);
    DependsIff(order[i], order[j]);
  }

  lemma LaterIsNoDependency(calls: seq<ToolCall>, order: seq<ToolCall>, i: nat, j: nat)
    requires SortedCalls(calls, order) && i < j < |order|
    ensures !HasDependency(order[i], order[j])
  {
    var g, names := GraphOf(InferredGraph(calls)), Names(order);
    SortIsDependencyOrder(calls, order);
    var k := SortedIsLast(calls, order, i);
    var l := SortedIsLast(calls, order, j);
    assert names[i] != names[j] && order[j] in calls;
    assert names[j] !in Elements(names[..i]);
    assert AllIn(g[names[i]], Elements(names[..i]));
  }

  // ----- Execution -----

  datatype Outcome = NotFound | Ran(ok: bool)

  /** One entry of the result list: the call it answers and what came of it. */
  datatype ExecResult = ExecResult(call: ToolCall, outcome: Outcome)

  /** `executeSingle`; what the tool itself does is left to `ok`. */
  function ExecuteSingle(tc: ToolCall, registry: set<Name>, ok: bool): ExecResult
  {
    ExecResult(tc, if tc.name in registry then Ran(ok) else NotFound)
  }

  ghost function Answers(calls: seq<ToolCall>, registry: set<Name>, ok: nat -> bool): (r: seq<ExecResult>)
    ensures |r| == |calls|
    ensures forall i :: 0 <= i < |calls| ==> r[i] == ExecuteSingle(calls[i], registry, ok(i))
  {
    seq(|calls|, i requires 0 <= i < |calls| => ExecuteSingle(calls[i], registry, ok(i)))
  }

  /** In every list of answers, whole or cut short, a registered tool was run and an unknown one was not found, and
      each answer names its own call. */
  lemma RegisteredAreRun(calls: seq<ToolCall>, registry: set<Name>, ok: nat -> bool, results: seq<ExecResult>, i: nat)
    requires results <= Answers(calls, registry, ok) && i < |results|
    ensures results[i].call == calls[i]
    ensures results[i].outcome == Ran(ok(i)) <==> calls[i].name in registry
    ensures results[i].outcome == NotFound <==> calls[i].name !in registry
  {
  }

  function Indices(n: nat): (s: set<int>)
    ensures forall i :: i in s <==> 0 <= i < n
  {
    if n == 0 then {} else Indices(n - 1) + {n - 1}
  }

  /** Concurrent execution: whatever order the calls finish in, answer `i` belongs to call `i`. */
  method ExecuteConcurrent(calls: seq<ToolCall>, registry: set<Name>, ok: nat -> bool)
    returns (results: seq<ExecResult>)
    ensures results == Answers(calls, registry, ok)
  {
    var slots := new ExecResult[|calls|](_ => ExecResult(ToolCall("", map[], ""), NotFound));
    var running := Indices(|calls|);
    while running != {}
      invariant forall i :: i in running ==> 0 <= i < |calls|
      invariant forall i :: 0 <= i < |calls| && i !in running ==> slots[i] == ExecuteSingle(calls[i], registry, ok(i))
      decreases running
    {
      var idx :| idx in running;
      slots[idx] := ExecuteSingle(calls[idx], registry, ok(idx));
      running := running - {idx};
    }
    results := slots[..];
  }

  /** The context was not done after any of the first `n` batches. */
  ghost predicate Uncancelled(cancelled: nat -> bool, maxParallel: nat, n: nat)
  {
    n == 0 || (Uncancelled(cancelled, maxParallel, n - 1) && !cancelled((n - 1) * maxParallel))
  }

  /** Batches: the answers form a prefix of all answers, ending at a batch boundary, cut short only by cancellation. */
  method ExecuteInBatches(calls: seq<ToolCall>, maxParallel: int, registry: set<Name>,
                          ok: nat -> bool, cancelled: nat -> bool)
    returns (results: seq<ExecResult>, ghost batches: nat)
    requires maxParallel > 0
    ensures results <= Answers(calls, registry, ok)
    ensures |results| == if batches * maxParallel <= |calls| then batches * maxParallel else |calls|
    ensures results == Answers(calls, registry, ok) || (batches > 0 && cancelled((batches - 1) * maxParallel))
    ensures batches > 0 ==> Uncancelled(cancelled, maxParallel, batches - 1)
  {
    results := [];
    batches := 0;
    var i := 0;
    while i < |calls|
      invariant i == batches * maxParallel
      invariant results <= Answers(calls, registry, ok)
      invariant |results| == if i <= |calls| then i else |calls|
      invariant Uncancelled(cancelled, maxParallel, batches)
    {
      var end := if i + maxParallel > |calls| then |calls| else i + maxParallel;
      var from := i;
      var batch := ExecuteConcurrent(calls[i..end], registry, (j: nat) => ok(from + j));
      results := results + batch;
      batches := batches + 1;
      if cancelled(i) {
        return;
      }
      i := i + maxParallel;
    }
  }

  /** One call at a time, in the order given, until done or cancelled. */
  method ExecuteSequential(calls: seq<ToolCall>, registry: set<Name>, ok: nat -> bool, cancelled: nat -> bool)
    returns (results: seq<ExecResult>)
    ensures results <= Answers(calls, registry, ok)
    ensures |results| == |calls| || (results != [] && cancelled(|results| - 1))
    ensures forall i :: 0 <= i < |results| - 1 ==> !cancelled(i)
  {
    results := [];
    for i := 0 to |calls|
      invariant results == Answers(calls, registry, ok)[..i]
      invariant forall j :: 0 <= j < i ==> !cancelled(j)
    {
      results := results + [ExecuteSingle(calls[i], registry, ok(i))];
      if cancelled(i) {
        return;
      }
    }
  }

  /** The order in which `executeDependent` takes the calls. */
  method SortCalls(calls: seq<ToolCall>) returns (order: seq<ToolCall>)
    ensures SortedCalls(calls, order)
  {
    var graph := BuildDependencyGraph(calls);
    order := TopologicalSort(graph);
    assert graph == InferredGraph(calls);
  }

  /** The execution loop of `executeDependent`. */
  method ExecuteInOrder(ordered: seq<ToolCall>, registry: set<Name>, ok: nat -> bool, cancelled: nat -> bool)
    returns (results: seq<ExecResult>)
    ensures results <= Answers(ordered, registry, ok)
    ensures |results| == |ordered| || (results != [] && cancelled(|results| - 1))
    ensures forall i :: 0 <= i < |results| - 1 ==> !cancelled(i)
  {
    results := [];
    for i := 0 to |ordered|
      invariant results == Answers(ordered, registry, ok)[..i]
      invariant forall j :: 0 <= j < i ==> !cancelled(j)
    {
      results := results + [ExecuteSingle(ordered[i], registry, ok(i))];
      if cancelled(i) {
        return;
      }
    }
  }

  /**
    * Dependent execution: the last call of each name, once, after everything
    * it depends on, up to the first cancellation.
    */
  method ExecuteDependent(calls: seq<ToolCall>, registry: set<Name>, ok: nat -> bool, cancelled: nat -> bool)
    returns (results: seq<ExecResult>, order: seq<ToolCall>)
    ensures results <= Answers(order, registry, ok)
    ensures |results| == |order| || (results != [] && cancelled(|results| - 1))
    ensures forall i :: 0 <= i < |results| - 1 ==> !cancelled(i)
    ensures Distinct(Names(order)) && forall tc :: tc in order <==> IsLastOfName(calls, tc)
    ensures RespectsDependencies(order)
    ensures multiset(order) == multiset(calls) <==> Distinct(Names(calls))
  {
    order := SortCalls(calls);
    LastCallsAreRun(calls, order);
    SortRespectsDependencies(calls, order);
    SortIsPermutation(calls, order);
    results := ExecuteInOrder(order, registry, ok, cancelled);
  }
}
