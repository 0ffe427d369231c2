// What an order of tools that respects dependencies is, on any graph: names
// with the list of names each depends on.
module DependencyGraph {
  import opened Common

  type Name = string

  /** The names a tool depends on, in the order and multiplicity recorded. */
  type Graph = map<Name, seq<Name>>

  ghost predicate AllIn(deps: seq<Name>, s: set<Name>)
  {
    forall d :: d in deps ==> d in s
  }

  /**
    * `order` lists names of the graph, each once and after everything it
    * depends on, and leaves out only names that depend on something left out.
    */
  ghost predicate IsDependencyOrder(g: Graph, order: seq<Name>)
  {
    && Distinct(order)
    && (forall i :: 0 <= i < |order| ==> order[i] in g && AllIn(g[order[i]], Elements(order[..i])))
    && (forall n :: n in g && AllIn(g[n], Elements(order)) ==> n in order)
  }

  /** Names that depend on nothing come before all others. */
  ghost predicate FreeFirst(g: Graph, order: seq<Name>)
    requires forall i :: 0 <= i < |order| ==> order[i] in g
  {
    forall i, j :: 0 <= i < j < |order| && g[order[j]] == [] ==> g[order[i]] == []
  }

  /**
    * `order` lists names of the graph, each once, first those that depend on
    * nothing, and leaves out only names that depend on something left out.
    */
  ghost predicate IsClosedOrder(g: Graph, order: seq<Name>)
  {
    && Distinct(order)
    && (forall i :: 0 <= i < |order| ==> order[i] in g) && FreeFirst(g, order)
    && (forall n :: n in g && AllIn(g[n], Elements(order)) ==> n in order)
  }

  /** Nothing depends on a name that depends on something. */
  ghost predicate IsFlat(g: Graph)
  {
    forall a, d :: a in g && d in g[a] ==> d in g && g[d] == []
  }

  /** On a flat graph, having the free names first is enough. */
  lemma FlatOrder(g: Graph, order: seq<Name>)
    requires IsFlat(g) && IsClosedOrder(g, order)
    ensures IsDependencyOrder(g, order)
  {
    forall i, d | 0 <= i < |order| && d in g[order[i]]
      ensures d in Elements(order[..i])
    {
      assert AllIn(g[d], Elements(order));
      var k: nat :| k < |order| && order[k] == d;
      assert k < i;
      assert order[..i][k] == d;
    }
  }

  /** Each entry of `path` depends on the next. */
  ghost predicate IsPath(g: Graph, path: seq<Name>)
  {
    |path| > 0 && forall i :: 0 <= i < |path| - 1 ==> path[i] in g && path[i + 1] in g[path[i]]
  }

  /** Following dependencies from `n` leads to a name that is not in the graph, or around a cycle. */
  ghost predicate IsBlocked(g: Graph, n: Name)
  {
    exists path :: IsPath(g, path) && path[0] == n && (path[|path| - 1] !in g || !Distinct(path))
  }

  /** From an emitted name, dependencies lead to ever earlier emitted names. */
  lemma {:induction false} PathGoesBack(g: Graph, order: seq<Name>, path: seq<Name>, at: seq<nat>, k: nat)
    requires IsDependencyOrder(g, order) && IsPath(g, path) && |at| == k + 1 <= |path|
    requires forall i :: 0 <= i <= k ==> at[i] < |order| && order[at[i]] == path[i]
    requires forall i, j :: 0 <= i < j <= k ==> at[i] > at[j]
    ensures Distinct(path) && path[|path| - 1] in g
    decreases |path| - k
  {
    if k == |path| - 1 {
      assert path[k] == order[at[k]];
    } else {
      assert path[k + 1] in g[path[k]];
      assert path[k + 1] in Elements(order[..at[k]]);
      var next: nat :| next < at[k] && order[next] == path[k + 1];
      PathGoesBack(g, order, path, at + [next], k + 1);
    }
  }

  /** From a name left out, dependencies can be followed through names left out, or to one not in the graph. */
  lemma {:induction false} LeftOutPath(g: Graph, order: seq<Name>, n: Name, k: nat) returns (path: seq<Name>)
    requires IsDependencyOrder(g, order) && n in g && n !in order
    ensures IsPath(g, path) && path[0] == n
    ensures forall i :: 0 <= i < |path| - 1 ==> path[i] in g
    ensures path[|path| - 1] !in g || |path| == k + 1
    decreases k
  {
    if k == 0 {
      path := [n];
    } else {
      assert !AllIn(g[n], Elements(order));
      var d :| d in g[n] && d !in order;
      if d !in g {
        path := [n, d];
      } else {
        var rest := LeftOutPath(g, order, d, k - 1);
        path := [n] + rest;
      }
    }
  }

  /** The tools emitted are exactly those that do not transitively depend on a cycle or on a missing name. */
  lemma EmittedIsUnblocked(g: Graph, order: seq<Name>, n: Name)
    requires IsDependencyOrder(g, order)
    ensures n in order <==> n in g && !IsBlocked(g, n)
  {
    if n in order {
      var i: nat :| i < |order| && order[i] == n;
      forall path | IsPath(g, path) && path[0] == n ensures path[|path| - 1] in g && Distinct(path) {
        PathGoesBack(g, order, path, [i], 0);
      }
    } else if n in g {
      var path := LeftOutPath(g, order, n, |g|);
      if path[|path| - 1] in g && Distinct(path) {
        DistinctSize(path);
        SubsetSize(Elements(path), g.Keys);
        assert false;
      }
    }
  }

  /** Any two dependency orders of a graph emit the same tools. */
  lemma OrdersEmitTheSame(g: Graph, a: seq<Name>, b: seq<Name>)
    requires IsDependencyOrder(g, a) && IsDependencyOrder(g, b)
    ensures Elements(a) == Elements(b) && |a| == |b|
  {
    forall n ensures n in a <==> n in b {
      EmittedIsUnblocked(g, a, n);
      EmittedIsUnblocked(g, b, n);
    }
    DistinctSize(a);
    DistinctSize(b);
  }

  /** A rank that falls along every dependency, all of them in the graph, lets everything be emitted. */
  lemma {:induction false} RankedIsEmitted(g: Graph, order: seq<Name>, rank: map<Name, nat>, n: Name)
    requires IsDependencyOrder(g, order) && n in g && g.Keys <= rank.Keys
    requires forall a, d :: a in g && d in g[a] ==> d in g && rank[d] < rank[a]
    ensures n in order
    decreases rank[n]
  {
    forall d | d in g[n] ensures d in Elements(order) {
      RankedIsEmitted(g, order, rank, d);
    }
  }

  // ----- Counting dependencies still pending -----

  /** How many entries of `deps` are not in `done`. */
  ghost function Pending(deps: seq<Name>, done: set<Name>): (n: nat)
    ensures n == 0 <==> AllIn(deps, done)
  {
    if deps == [] then 0
    else (if deps[0] in done then 0 else 1) + Pending(deps[1..], done)
  }

  ghost function Occurrences(s: seq<Name>, x: Name): nat
  {
    if s == [] then 0 else (if s[0] == x then 1 else 0) + Occurrences(s[1..], x)
  }

  lemma {:induction false} OccurrencesOfAppended(s: seq<Name>, y: Name, x: Name)
    ensures Occurrences(s + [y], x) == Occurrences(s, x) + if y == x then 1 else 0
  {
    if s != [] {
      assert (s + [y])[1..] == s[1..] + [y];
      OccurrencesOfAppended(s[1..], y, x);
    }
  }

  lemma {:induction false} OccursIfPresent(s: seq<Name>, x: Name)
    ensures Occurrences(s, x) > 0 <==> x in s
  {
    if s != [] {
      OccursIfPresent(s[1..], x);
    }
  }

  lemma {:induction false} PendingAfter(deps: seq<Name>, done: set<Name>, c: Name)
    requires c !in done
    ensures Pending(deps, done + {c}) == Pending(deps, done) - Occurrences(deps, c)
  {
    if deps != [] {
      PendingAfter(deps[1..], done, c);
    }
  }

  lemma {:induction false} PendingInitially(deps: seq<Name>)
    ensures Pending(deps, {}) == |deps|
  {
    if deps != [] {
      PendingInitially(deps[1..]);
    }
  }
}
