// Parent pointers as a graph: every node has at most one parent, cycles allowed.
module SessionGraph {
  import opened Common

  type Id = string

  /** `parent` holds the stored pointers; `listed` the nodes their parent's listing shows. */
  datatype Graph = Graph(parent: map<Id, Id>, listed: set<Id>)

  /** `y` lists `x` as a child. */
  ghost predicate Link(g: Graph, y: Id, x: Id)
  {
    x in g.listed && x in g.parent && g.parent[x] == y
  }

  /** Each entry of `w` lists the next one as a child. */
  ghost predicate IsWalk(g: Graph, w: seq<Id>)
  {
    |w| > 0 && forall i :: 0 <= i < |w| - 1 ==> Link(g, w[i], w[i + 1])
  }

  ghost predicate IsWalkFromTo(g: Graph, w: seq<Id>, p: Id, x: Id)
  {
    IsWalk(g, w) && w[0] == p && w[|w| - 1] == x
  }

  /** `n` pointers lead from `x` up to `p`, not meeting `p` before. */
  ghost predicate Ascends(g: Graph, p: Id, x: Id, n: nat)
    decreases n
  {
    if n == 0 then x == p else x != p && x in g.parent && Ascends(g, p, g.parent[x], n - 1)
  }

  /** The same over listed links only; `n` is then the distance of `x` from `p`. */
  ghost predicate Descends(g: Graph, p: Id, x: Id, n: nat)
    decreases n
  {
    if n == 0 then x == p else
    x != p && x in g.parent && x in g.listed && Descends(g, p, g.parent[x], n - 1)
  }

  ghost predicate IsAncestor(g: Graph, p: Id, x: Id)
  {
    exists n: nat :: Ascends(g, p, x, n)
  }

  ghost predicate IsDescendant(g: Graph, p: Id, x: Id)
  {
    x != p && exists n: nat :: Descends(g, p, x, n)
  }

  lemma {:induction false} DescendsAscends(g: Graph, p: Id, x: Id, n: nat)
    requires Descends(g, p, x, n)
    ensures Ascends(g, p, x, n)
    decreases n
  {
    if n > 0 {
      DescendsAscends(g, p, g.parent[x], n - 1);
    }
  }

  lemma {:induction false} AscentIsUnique(g: Graph, p: Id, x: Id, m: nat, n: nat)
    requires Ascends(g, p, x, m) && Ascends(g, p, x, n)
    ensures m == n
    decreases m
  {
    if m > 0 && n > 0 {
      AscentIsUnique(g, p, g.parent[x], m - 1, n - 1);
    }
  }

  lemma DescentIsUnique(g: Graph, p: Id, x: Id, m: nat, n: nat)
    requires Descends(g, p, x, m) && Descends(g, p, x, n)
    ensures m == n
  {
    DescendsAscends(g, p, x, m);
    DescendsAscends(g, p, x, n);
    AscentIsUnique(g, p, x, m, n);
  }

  lemma {:induction false} DescentGivesWalk(g: Graph, p: Id, x: Id, n: nat) returns (w: seq<Id>)
    requires Descends(g, p, x, n)
    ensures IsWalkFromTo(g, w, p, x) && |w| == n + 1
    decreases n
  {
    if n == 0 {
      w := [p];
    } else {
      var up := DescentGivesWalk(g, p, g.parent[x], n - 1);
      w := up + [x];
    }
  }

  /** No walk is shorter than the descent it ends in. */
  lemma {:induction false} WalkGivesDescent(g: Graph, w: seq<Id>) returns (n: nat)
    requires IsWalk(g, w)
    ensures n < |w| && Descends(g, w[0], w[|w| - 1], n)
  {
    var x := w[|w| - 1];
    if x == w[0] {
      n := 0;
    } else {
      var up := w[..|w| - 1];
      assert Link(g, w[|w| - 2], w[|w| - 1]);
      var m := WalkGivesDescent(g, up);
      n := m + 1;
    }
  }

  /** Descendants are what walks over listed links reach. */
  lemma DescendantsAreReached(g: Graph, p: Id, x: Id)
    ensures IsDescendant(g, p, x) <==> x != p && exists w :: IsWalkFromTo(g, w, p, x)
  {
    if IsDescendant(g, p, x) {
      var n: nat :| Descends(g, p, x, n);
      var w := DescentGivesWalk(g, p, x, n);
    }
    if w :| x != p && IsWalkFromTo(g, w, p, x) {
      var m := WalkGivesDescent(g, w);
    }
  }

  /** `Descends` gives the number of links of a shortest walk. */
  lemma DescentIsShortest(g: Graph, p: Id, x: Id, n: nat)
    requires Descends(g, p, x, n)
    ensures exists w :: IsWalkFromTo(g, w, p, x) && |w| == n + 1
    ensures forall w :: IsWalkFromTo(g, w, p, x) ==> |w| >= n + 1
  {
    var shortest := DescentGivesWalk(g, p, x, n);
    forall w | IsWalkFromTo(g, w, p, x) ensures |w| >= n + 1 {
      var m := WalkGivesDescent(g, w);
      DescentIsUnique(g, p, x, m, n);
    }
  }

  // ----- Sets closed under links hold everything reached from their members -----

  ghost predicate ClosedDown(g: Graph, s: set<Id>)
  {
    forall x :: x in g.listed && x in g.parent && g.parent[x] in s ==> x in s
  }

  lemma {:induction false} ClosedHoldsDescendants(g: Graph, s: set<Id>, p: Id, x: Id, n: nat)
    requires ClosedDown(g, s) && p in s && Descends(g, p, x, n)
    ensures x in s
    decreases n
  {
    if n > 0 {
      ClosedHoldsDescendants(g, s, p, g.parent[x], n - 1);
    }
  }

  // ----- Breadth-first exploration -----

  /** The discovery order `order`, starting at `p`, with the distances `d` along it. */
  ghost predicate Frontier(g: Graph, p: Id, order: seq<Id>, d: seq<nat>)
  {
    && |order| == |d| > 0
    && order[0] == p
    && Distinct(order)
    && (forall i :: 0 < i < |order| ==> order[i] in g.listed)
    && (forall i :: 0 <= i < |order| ==> Descends(g, p, order[i], d[i]))
    && (forall i, j :: 0 <= i <= j < |order| ==> d[i] <= d[j])
  }

  /** Everything listed below the first `k` of `order` has been discovered. */
  ghost predicate Expanded(g: Graph, order: seq<Id>, k: nat)
    requires k <= |order|
  {
    forall x :: x in g.listed && x in g.parent && g.parent[x] in order[..k] ==> x in order
  }

  lemma FrontierSize(g: Graph, p: Id, order: seq<Id>, d: seq<nat>)
    requires Frontier(g, p, order, d)
    ensures |order| <= |g.listed| + 1
  {
    DistinctSize(order);
    SubsetSize(Elements(order), g.listed + {p});
  }

  /** A node found below `order[k]` goes to the end of the order. */
  lemma FrontierGrows(g: Graph, p: Id, order: seq<Id>, d: seq<nat>, k: nat, x: Id)
    requires Frontier(g, p, order, d) && k < |order| && d[|d| - 1] <= d[k] + 1
    requires Link(g, order[k], x) && x !in order
    ensures Frontier(g, p, order + [x], d + [d[k] + 1])
  {
    assert x != order[0];
    assert Descends(g, p, x, d[k] + 1);
  }

  lemma FrontierIsSorted(g: Graph, p: Id, order: seq<Id>, d: seq<nat>, i: nat, j: nat, m: nat, n: nat)
    requires Frontier(g, p, order, d) && i <= j < |order|
    requires Descends(g, p, order[i], m) && Descends(g, p, order[j], n)
    ensures m <= n
  {
    DescentIsUnique(g, p, order[i], m, d[i]);
    DescentIsUnique(g, p, order[j], n, d[j]);
  }

  lemma ExpandedGrows(g: Graph, before: seq<Id>, order: seq<Id>, k: nat)
    requires k < |before| && before <= order && Expanded(g, before, k)
    requires forall x :: Link(g, order[k], x) ==> x in order
    ensures Expanded(g, order, k + 1)
  {
    assert order[..k + 1] == before[..k] + [order[k]];
    forall x | x in g.listed && x in g.parent && g.parent[x] in order[..k + 1] ensures x in order {
      if g.parent[x] == order[k] {
        assert Link(g, order[k], x);
      }
    }
  }

  /** Once the queue is empty, the order holds `p` and its descendants, no others. */
  lemma FrontierIsComplete(g: Graph, p: Id, order: seq<Id>, d: seq<nat>, x: Id)
    requires Frontier(g, p, order, d) && Expanded(g, order, |order|)
    ensures x in order[1..] <==> IsDescendant(g, p, x)
  {
    if x in order[1..] {
      var i :| 0 < i < |order| && order[i] == x;
      assert x != order[0];
      assert Descends(g, p, x, d[i]);
    }
    if IsDescendant(g, p, x) {
      var n: nat :| Descends(g, p, x, n);
      assert order[..|order|] == order;
      ClosedHoldsDescendants(g, Elements(order), p, x, n);
    }
  }

  // ----- The way up -----

  /** `up` follows the pointers from its first entry and never repeats. */
  ghost predicate Climbs(g: Graph, up: seq<Id>)
  {
    Distinct(up) && forall i :: 0 <= i < |up| - 1 ==> up[i] in g.parent && up[i + 1] == g.parent[up[i]]
  }

  lemma {:induction false} ClimbAscends(g: Graph, up: seq<Id>, i: nat, j: nat)
    requires Climbs(g, up) && j <= i < |up|
    ensures Ascends(g, up[i], up[j], i - j)
    decreases i - j
  {
    if j < i {
      ClimbAscends(g, up, i, j + 1);
    }
  }

  /** A set whose members point into it, or at nothing in `known`, holds the known ancestors of its members. */
  lemma {:induction false} ClosedHoldsAncestors(g: Graph, s: set<Id>, known: set<Id>, p: Id, x: Id, n: nat)
    requires x in s && p in known && g.parent.Keys <= known && Ascends(g, p, x, n)
    requires forall a :: a in s && a in g.parent ==> g.parent[a] in s || g.parent[a] !in known
    ensures p in s
    decreases n
  {
    if n > 0 {
      ClosedHoldsAncestors(g, s, known, p, g.parent[x], n - 1);
    }
  }

  /** A climb that cannot go on has met exactly the known ancestors of its start. */
  lemma ClimbIsComplete(g: Graph, up: seq<Id>, known: set<Id>, x: Id, p: Id)
    requires Climbs(g, up) && g.parent.Keys <= known
    requires forall i :: 0 <= i < |up| ==> up[i] in known
    requires if up == [] then x !in known else up[0] == x
    requires up != [] && up[|up| - 1] in g.parent ==>
      g.parent[up[|up| - 1]] in up || g.parent[up[|up| - 1]] !in known
    ensures p in up <==> p in known && IsAncestor(g, p, x)
  {
    if p in up {
      var i :| 0 <= i < |up| && up[i] == p;
      ClimbAscends(g, up, i, 0);
    }
    if p in known && IsAncestor(g, p, x) {
      var n: nat :| Ascends(g, p, x, n);
      if up != [] {
        forall a | a in up && a in g.parent ensures g.parent[a] in up || g.parent[a] !in known {
          var i :| 0 <= i < |up| && up[i] == a;
          assert i < |up| - 1 ==> up[i + 1] in up;
        }
        ClosedHoldsAncestors(g, Elements(up), known, p, x, n);
      }
    }
  }

  // ----- Duality -----

  /** Every pointer on the way from `x` up `n` steps is a listed one. */
  ghost predicate ListedUpTo(g: Graph, x: Id, n: nat)
    decreases n
  {
    n == 0 || (x in g.listed && x in g.parent && ListedUpTo(g, g.parent[x], n - 1))
  }

  /** Going down is going up over listed pointers. */
  lemma {:induction false} DescentIsListedAscent(g: Graph, p: Id, x: Id, n: nat)
    ensures Descends(g, p, x, n) <==> Ascends(g, p, x, n) && ListedUpTo(g, x, n)
    decreases n
  {
    if n > 0 && x in g.parent {
      DescentIsListedAscent(g, p, g.parent[x], n - 1);
    }
  }

  /** No listing of `p` or of a descendant of `p` hides a child other than `p`. */
  ghost predicate NothingHidden(g: Graph, p: Id)
  {
    forall x :: x in g.parent && x != p && (g.parent[x] == p || IsDescendant(g, p, g.parent[x])) ==> x in g.listed
  }

  lemma {:induction false} NothingHiddenDescends(g: Graph, p: Id, x: Id, n: nat)
    requires NothingHidden(g, p) && Ascends(g, p, x, n)
    ensures Descends(g, p, x, n)
    decreases n
  {
    if n > 0 {
      NothingHiddenDescends(g, p, g.parent[x], n - 1);
      assert g.parent[x] == p || IsDescendant(g, p, g.parent[x]);
    }
  }

  /** The two traversals are dual exactly when no listing on the way down is cut short. */
  lemma Duality(g: Graph, p: Id)
    ensures (forall x :: IsDescendant(g, p, x) <==> x != p && IsAncestor(g, p, x)) <==> NothingHidden(g, p)
  {
    forall x | IsDescendant(g, p, x) ensures IsAncestor(g, p, x) {
      var n: nat :| Descends(g, p, x, n);
      DescendsAscends(g, p, x, n);
    }
    if NothingHidden(g, p) {
      forall x | x != p && IsAncestor(g, p, x) ensures IsDescendant(g, p, x) {
        var n: nat :| Ascends(g, p, x, n);
        NothingHiddenDescends(g, p, x, n);
      }
    }
    if x :| x in g.parent && x != p && x !in g.listed && (g.parent[x] == p || IsDescendant(g, p, g.parent[x])) {
      var n := HiddenIsAncestor(g, p, x);
      assert IsAncestor(g, p, x) && !IsDescendant(g, p, x);
    }
  }

  lemma HiddenIsAncestor(g: Graph, p: Id, x: Id) returns (n: nat)
    requires x in g.parent && x != p && (g.parent[x] == p || IsDescendant(g, p, g.parent[x]))
    ensures Ascends(g, p, x, n)
  {
    if g.parent[x] == p {
      n := 1;
      assert Ascends(g, p, p, 0);
    } else {
      var m: nat :| Descends(g, p, g.parent[x], m);
      DescendsAscends(g, p, g.parent[x], m);
      n := m + 1;
    }
  }
}
