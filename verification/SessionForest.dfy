// Traversals of the session table (pkg/session/session.go): the descendants of
// a session, breadth first, and the chain of its ancestors.
module SessionForest {
  import opened Common
  import opened SessionGraph

  const DEFAULT_LIST_LIMIT: int := 50
  const MAX_LIST_LIMIT: int := 500

  /** One row; only the key and the parent pointer matter to the traversals. */
  datatype Session = Session(id: Id, parent: Option<Id>)

  /**
    * The table, its rows in listing order (newest first), and the identifiers
    * whose queries fail. A traversal asks about each identifier at most once,
    * so failing per identifier covers every pattern of query errors.
    */
  datatype Database = Database(rows: seq<Session>, listFails: set<Id>, getFails: set<Id>) {

    // session_id is a primary key and never empty.
    ghost predicate Valid()
    {
      && (forall i, j :: 0 <= i < j < |rows| ==> rows[i].id != rows[j].id)
      && (forall s :: s in rows ==> s.id != "")
    }

    ghost function Ids(): set<Id>
    {
      set s | s in rows :: s.id
    }
  }

  /** All rows whose parent is `p`, in listing order. */
  function ChildrenOf(rows: seq<Session>, p: Id): (r: seq<Session>)
    ensures forall s :: s in r <==> s in rows && s.parent == Some(p)
  {
    if rows == [] then []
    else if rows[0].parent == Some(p) then [rows[0]] + ChildrenOf(rows[1..], p)
    else ChildrenOf(rows[1..], p)
  }

  function Min(a: int, b: int): int { if a <= b then a else b }

  datatype Page = Page(sessions: seq<Session>, total: nat, hasMore: bool)

  /** `List` filtered by parent, with its clamping of limit and offset. */
  function ListChildren(db: Database, p: Id, limit: int, offset: int): Result<Page>
  {
    if p in db.listFails then Err else
    var all := ChildrenOf(db.rows, p);
    var lim := if limit <= 0 then DEFAULT_LIST_LIMIT else Min(limit, MAX_LIST_LIMIT);
    var off := if offset < 0 then 0 else offset;
    var from := Min(off, |all|);
    var page := all[from..Min(from + lim, |all|)];
    Ok(Page(page, |all|, off + |page| < |all|))
  }

  /** A page holds the children from its offset on, in order: as many as asked for, but 50 if no positive number is
      asked for and never more than 500. It is shorter only at the end, and says whether there are more. */
  lemma PageHolds(db: Database, p: Id, limit: int, offset: nat)
    requires p !in db.listFails && offset <= |ChildrenOf(db.rows, p)|
    ensures var all, page := ChildrenOf(db.rows, p), ListChildren(db, p, limit, offset).value;
      var end, asked := offset + |page.sessions|, if limit <= 0 then 50 else if limit > 500 then 500 else limit;
      && end <= |all| && page.sessions == all[offset..end] && page.total == |all|
      && (page.hasMore <==> end < |all|) && |page.sessions| <= asked && (page.hasMore ==> |page.sessions| == asked)
  {
  }

  /** What the traversals see below `p`: the listing without an explicit limit. */
  function Listed(db: Database, p: Id): (r: seq<Session>)
  {
    match ListChildren(db, p, 0, 0)
    case Err => []
    case Ok(page) => page.sessions
  }

  /** `Get`: the row with this key, unless absent or the query fails. */
  function Fetch(db: Database, id: Id): (r: Option<Session>)
    ensures r.Some? ==> id != "" && id !in db.getFails && r.value in db.rows && r.value.id == id
    ensures r.None? && id != "" && id !in db.getFails ==> forall s :: s in db.rows ==> s.id != id
  {
    if id == "" || id in db.getFails then None else Find(db.rows, id)
  }

  function Find(rows: seq<Session>, id: Id): (r: Option<Session>)
    ensures r.Some? ==> r.value in rows && r.value.id == id
    ensures r.None? ==> forall s :: s in rows ==> s.id != id
  {
    if rows == [] then None
    else if rows[0].id == id then Some(rows[0])
    else Find(rows[1..], id)
  }

  // ----- Paging -----

  /** Asking for page after page, from offset `off` while HasMore holds, yields every child once, in order. */
  ghost function AllPages(db: Database, p: Id, limit: int, off: nat): seq<Session>
    requires p !in db.listFails
    decreases |ChildrenOf(db.rows, p)| - off
  {
    var page := ListChildren(db, p, limit, off).value;
    if page.hasMore then page.sessions + AllPages(db, p, limit, off + |page.sessions|) else page.sessions
  }

  lemma {:induction false} PagingIsComplete(db: Database, p: Id, limit: int, off: nat)
    requires p !in db.listFails && off <= |ChildrenOf(db.rows, p)|
    ensures AllPages(db, p, limit, off) == ChildrenOf(db.rows, p)[off..]
    decreases |ChildrenOf(db.rows, p)| - off
  {
    var page := ListChildren(db, p, limit, off).value;
    if page.hasMore {
      PagingIsComplete(db, p, limit, off + |page.sessions|);
    }
  }

  // ----- The table as a graph -----

  /** The pointers as stored, and which sessions their parent's listing shows. */
  ghost function Down(db: Database): Graph
    requires db.Valid()
  {
    Graph(map s | s in db.rows && s.parent.Some? :: s.id := s.parent.value,
          set s | s in db.rows && s.parent.Some? && s in Listed(db, s.parent.value) :: s.id)
  }

  /** The pointers a walk up can read. */
  ghost function Up(db: Database): Graph
    requires db.Valid()
  {
    Graph(map s | s in db.rows && s.parent.Some? && s.id !in db.getFails :: s.id := s.parent.value, {})
  }

  ghost function Known(db: Database): set<Id>
  {
    set s | s in db.rows && s.id !in db.getFails :: s.id
  }

  lemma ListedAreChildren(db: Database, y: Id, s: Session)
    requires s in Listed(db, y)
    ensures s in db.rows && s.parent == Some(y)
  {
    assert s in ChildrenOf(db.rows, y);
  }

  lemma ListedAreLinks(db: Database, y: Id, i: nat)
    requires db.Valid() && i < |Listed(db, y)|
    ensures Link(Down(db), y, Listed(db, y)[i].id)
  {
    ListedAreChildren(db, y, Listed(db, y)[i]);
  }

  lemma LinksAreListed(db: Database, y: Id, x: Id)
    requires db.Valid() && Link(Down(db), y, x)
    ensures HasId(Listed(db, y), x)
  {
    var s := ShownRow(db, x);
    assert Down(db).parent[s.id] == s.parent.value;
    HasItsId(Listed(db, y), s);
  }

  lemma ShownRow(db: Database, x: Id) returns (s: Session)
    requires db.Valid() && x in Down(db).listed
    ensures s in db.rows && s.parent.Some? && s in Listed(db, s.parent.value) && s.id == x
  {
    s :| s in db.rows && s.parent.Some? && s in Listed(db, s.parent.value) && s.id == x;
  }

  lemma HasItsId(sessions: seq<Session>, s: Session)
    requires s in sessions
    ensures HasId(sessions, s.id)
  {
  }

  /** The listing below `y` shows exactly the nodes that link to it. */
  lemma ListedAreLinked(db: Database, y: Id)
    requires db.Valid()
    ensures Shows(Down(db), y, Listed(db, y))
  {
    var g, sessions := Down(db), Listed(db, y);
    forall x ensures HasId(sessions, x) <==> Link(g, y, x) {
      if HasId(sessions, x) {
        var i :| 0 <= i < |sessions| && sessions[i].id == x;
        ListedAreLinks(db, y, i);
      }
      if Link(g, y, x) {
        LinksAreListed(db, y, x);
      }
    }
  }

  /** `sessions` shows exactly the children linked to `y`. */
  ghost predicate Shows(g: Graph, y: Id, sessions: seq<Session>)
  {
    forall x :: HasId(sessions, x) <==> Link(g, y, x)
  }

  // ----- GetChildren -----

  ghost predicate DistinctIds(s: seq<Session>)
  {
    forall i, j :: 0 <= i < j < |s| ==> s[i].id != s[j].id
  }

  ghost predicate HasId(s: seq<Session>, id: Id)
  {
    exists i :: 0 <= i < |s| && s[i].id == id
  }

  /** Stored rows, the descendants of `p`, each once, nearest first. */
  ghost predicate InBreadthFirstOrder(g: Graph, rows: seq<Session>, p: Id, out: seq<Session>)
  {
    && (forall s :: s in out ==> s in rows)
    && DistinctIds(out)
    && (forall x :: HasId(out, x) <==> IsDescendant(g, p, x))
    && (forall i, j, m: nat, n: nat ::
          0 <= i <= j < |out| && Descends(g, p, out[i].id, m) && Descends(g, p, out[j].id, n)
          ==> m <= n)
  }

  /** What the recursive listing below `p` must be. */
  ghost predicate BreadthFirst(db: Database, p: Id, out: seq<Session>)
    requires db.Valid()
  {
    InBreadthFirstOrder(Down(db), db.rows, p, out)
  }

  method GetChildren(db: Database, parentId: Id, recursive: bool) returns (r: Result<seq<Session>>)
    requires db.Valid()
    ensures parentId == "" ==> r == Err
    ensures parentId != "" && !recursive ==>
      r == if parentId in db.listFails then Err else Ok(Listed(db, parentId))
    ensures parentId != "" && recursive ==> r.Ok? && BreadthFirst(db, parentId, r.value)
  {
    if parentId == "" {
      return Err;
    }
    if !recursive {
      match ListChildren(db, parentId, 0, 0)
      case Err => return Err;
      case Ok(page) => return Ok(page.sessions);
    }
    var all := Descendants(db, parentId);
    r := Ok(all);
  }

  /** `order` is `p` followed by the keys of `all`. */
  ghost predicate Follows(order: seq<Id>, p: Id, all: seq<Session>)
  {
    |order| == |all| + 1 && order[0] == p && forall i :: 0 <= i < |all| ==> order[i + 1] == all[i].id
  }

  /** The sessions found so far, in step with the keys discovered. */
  ghost predicate Found(g: Graph, rows: seq<Session>, p: Id, order: seq<Id>, d: seq<nat>, all: seq<Session>)
  {
    Frontier(g, p, order, d) && Follows(order, p, all) && forall s :: s in all ==> s in rows
  }

  lemma FoundGrows(g: Graph, rows: seq<Session>, p: Id, order: seq<Id>, d: seq<nat>,
                   all: seq<Session>, k: nat, s: Session)
    requires Found(g, rows, p, order, d, all) && k < |order| && d[|d| - 1] <= d[k] + 1
    requires s in rows && Link(g, order[k], s.id) && s.id !in order
    ensures Found(g, rows, p, order + [s.id], d + [d[k] + 1], all + [s])
  {
    FrontierGrows(g, p, order, d, k, s.id);
  }

  lemma FoundIsBreadthFirst(g: Graph, rows: seq<Session>, p: Id, order: seq<Id>, d: seq<nat>, all: seq<Session>)
    requires Found(g, rows, p, order, d, all) && Expanded(g, order, |order|)
    ensures InBreadthFirstOrder(g, rows, p, all)
  {
    forall i, j | 0 <= i < j < |all| ensures all[i].id != all[j].id {
      assert order[i + 1] != order[j + 1];
    }
    forall x ensures HasId(all, x) <==> IsDescendant(g, p, x) {
      FrontierIsComplete(g, p, order, d, x);
      assert x in order[1..] <==> HasId(all, x) by {
        assert forall i :: 0 <= i < |all| ==> order[1..][i] == all[i].id;
      }
    }
    forall i, j, m: nat, n: nat | 0 <= i <= j < |all| &&
      Descends(g, p, all[i].id, m) && Descends(g, p, all[j].id, n)
      ensures m <= n
    {
      assert all[i].id == order[i + 1] && all[j].id == order[j + 1];
      FrontierIsSorted(g, p, order, d, i + 1, j + 1, m, n);
    }
  }

  /** The query of one step of the traversal. */
  method ListStep(db: Database, y: Id) returns (r: Result<seq<Session>>)
    ensures Listed(db, y) == if r.Ok? then r.value else []
    ensures r.Ok? ==> forall i :: 0 <= i < |r.value| ==> r.value[i] in db.rows
  {
    match ListChildren(db, y, 0, 0)
    case Err => return Err;
    case Ok(page) =>
      assert forall i :: 0 <= i < |page.sessions| ==> page.sessions[i] in ChildrenOf(db.rows, y);
      return Ok(page.sessions);
  }

  /** The recursive branch. */
  method Descendants(db: Database, p: Id) returns (all: seq<Session>)
    requires db.Valid()
    ensures BreadthFirst(db, p, all)
  {
    ghost var g := Down(db);
    forall y ensures Shows(g, y, Listed(db, y)) {
      ListedAreLinked(db, y);
    }
    ghost var order, d;
    all, order, d := Explore(db, p, g);
    FoundIsBreadthFirst(g, db.rows, p, order, d, all);
  }

  /** The outer loop: dequeue a session, query its children, queue the new ones. */
  method Explore(db: Database, p: Id, ghost g: Graph)
    returns (all: seq<Session>, ghost order: seq<Id>, ghost d: seq<nat>)
    requires forall y :: Shows(g, y, Listed(db, y))
    ensures Found(g, db.rows, p, order, d, all) && Expanded(g, order, |order|)
  {
    all := [];
    var queue := [p];
    var visited := {p};
    order, d := [p], [0];
    ghost var k := 0;
    while queue != []
      invariant k <= |order| && Found(g, db.rows, p, order, d, all)
      invariant queue == order[k..] && visited == Elements(order)
      invariant Expanded(g, order, k)
      invariant k < |order| ==> d[|d| - 1] <= d[k] + 1
      decreases |g.listed| + 1 - k
    {
      FrontierSize(g, p, order, d);
      var current := queue[0];
      queue := queue[1..];
      ghost var before := order;
      assert Shows(g, current, Listed(db, current));
      var result := ListStep(db, current);
      if result.Ok? {
        queue, visited, all, order, d := Enqueue(g, db.rows, p, k, result.value, queue, visited, all, order, d);
      }
      ExpandedGrows(g, before, order, k);
      k := k + 1;
    }
  }

  /** The inner loop: the children not seen before are visited, returned and queued. */
  method Enqueue(ghost g: Graph, ghost rows: seq<Session>, ghost p: Id, ghost k: nat, sessions: seq<Session>,
                 queue0: seq<Id>, visited0: set<Id>, all0: seq<Session>, ghost order0: seq<Id>, ghost d0: seq<nat>)
    returns (queue: seq<Id>, visited: set<Id>, all: seq<Session>, ghost order: seq<Id>, ghost d: seq<nat>)
    requires k < |order0| && Found(g, rows, p, order0, d0, all0) && d0[|d0| - 1] <= d0[k] + 1
    requires queue0 == order0[k + 1..] && visited0 == Elements(order0)
    requires forall i :: 0 <= i < |sessions| ==> sessions[i] in rows && Link(g, order0[k], sessions[i].id)
    ensures order0 <= order && d0 <= d
    ensures Found(g, rows, p, order, d, all) && d[|d| - 1] <= d[k] + 1
    ensures queue == order[k + 1..] && visited == Elements(order)
    ensures forall i :: 0 <= i < |sessions| ==> sessions[i].id in order
  {
    queue, visited, all, order, d := queue0, visited0, all0, order0, d0;
    for i := 0 to |sessions|
      invariant order0 <= order && d0 <= d
      invariant Found(g, rows, p, order, d, all) && d[|d| - 1] <= d[k] + 1
      invariant queue == order[k + 1..] && visited == Elements(order)
      invariant forall j :: 0 <= j < i ==> sessions[j].id in order
    {
      var child := sessions[i];
      if child.id !in visited {
        FoundGrows(g, rows, p, order, d, all, k, child);
        visited := visited + {child.id};
        all := all + [child];
        queue := queue + [child.id];
        order, d := order + [child.id], d + [d[k] + 1];
      }
    }
  }

  // ----- GetParentChain -----

  /** `p` is on the chain of `x`. */
  ghost predicate InChain(db: Database, p: Id, x: Id)
    requires db.Valid()
  {
    p in Known(db) && IsAncestor(Up(db), p, x)
  }

  /**
    * The chain of `x`, root first: stored rows, none twice, each the parent of
    * the next, ending in `x`, and beginning where the walk up cannot go on.
    */
  ghost predicate IsParentChain(db: Database, x: Id, chain: seq<Session>)
    requires db.Valid()
  {
    && (forall s :: s in chain ==> s in db.rows)
    && DistinctIds(chain)
    && (forall i :: 0 <= i < |chain| - 1 ==> chain[i + 1].parent == Some(chain[i].id))
    && (if chain == [] then x !in Known(db) else chain[|chain| - 1].id == x)
    && (chain != [] && chain[0].parent.Some? ==>
          HasId(chain, chain[0].parent.value) || chain[0].parent.value !in Known(db))
    && (forall p :: HasId(chain, p) <==> InChain(db, p, x))
  }

  /** `up` lists the keys of `chain` from the end. */
  ghost predicate Reverses(up: seq<Id>, chain: seq<Session>)
  {
    |up| == |chain| && forall i :: 0 <= i < |up| ==> up[i] == chain[|chain| - 1 - i].id
  }

  lemma FetchIsKnown(db: Database, id: Id)
    requires db.Valid()
    ensures Fetch(db, id).Some? <==> id in Known(db)
    ensures Fetch(db, id).Some? ==>
      var parent := Fetch(db, id).value.parent;
      if parent.Some? then id in Up(db).parent && Up(db).parent[id] == parent.value else id !in Up(db).parent
  {
  }

  lemma HasReversed(up: seq<Id>, chain: seq<Session>, x: Id)
    requires Reverses(up, chain)
    ensures x in up <==> HasId(chain, x)
  {
    if i :| 0 <= i < |chain| && chain[i].id == x {
      assert up[|chain| - 1 - i] == x;
    }
  }

  /** `Get` answers for the sessions in `known`, and `g` holds the pointers it shows. */
  ghost predicate Reads(db: Database, id: Id, g: Graph, known: set<Id>)
  {
    match Fetch(db, id)
    case None => id !in known
    case Some(s) =>
      && id in known
      && match s.parent { case None => id !in g.parent case Some(y) => id in g.parent && g.parent[id] == y }
  }

  method GetParentChain(db: Database, sessionId: Id) returns (chain: seq<Session>)
    requires db.Valid()
    ensures IsParentChain(db, sessionId, chain)
  {
    ghost var g, known := Up(db), Known(db);
    forall id ensures Reads(db, id, g, known) {
      FetchIsKnown(db, id);
    }
    ghost var up;
    chain, up := Climb(db, sessionId, g, known);
    ClimbIsParentChain(db, sessionId, up, chain);
  }

  /** The loop went as far up as it could: `up` are the keys met, `chain` their rows, root first. */
  ghost predicate Climbed(db: Database, x: Id, g: Graph, known: set<Id>, up: seq<Id>, chain: seq<Session>)
  {
    && Climbs(g, up) && Reverses(up, chain)
    && (forall i :: 0 <= i < |up| ==> up[i] in known)
    && (forall i :: 0 <= i < |chain| ==> chain[i] in db.rows)
    && (forall i :: 0 <= i < |chain| - 1 ==> chain[i + 1].parent == Some(chain[i].id))
    && (up != [] ==> up[0] == x)
    && (up != [] ==> match chain[0].parent {
          case None => up[|up| - 1] !in g.parent
          case Some(y) => up[|up| - 1] in g.parent && g.parent[up[|up| - 1]] == y
        })
  }

  lemma ClimbIsParentChain(db: Database, x: Id, up: seq<Id>, chain: seq<Session>)
    requires db.Valid() && Climbed(db, x, Up(db), Known(db), up, chain)
    requires if up == [] then x !in Known(db)
             else chain[0].parent.Some? ==> chain[0].parent.value in up || chain[0].parent.value !in Known(db)
    ensures IsParentChain(db, x, chain)
  {
    forall p ensures HasId(chain, p) <==> InChain(db, p, x) {
      ClimbIsComplete(Up(db), up, Known(db), x, p);
      HasReversed(up, chain, p);
    }
    forall i, j | 0 <= i < j < |chain| ensures chain[i].id != chain[j].id {
      assert up[|chain| - 1 - i] != up[|chain| - 1 - j];
    }
    if chain != [] && chain[0].parent.Some? {
      HasReversed(up, chain, chain[0].parent.value);
    }
  }

  lemma ClimbedGrows(db: Database, x: Id, g: Graph, known: set<Id>, up: seq<Id>, chain: seq<Session>, s: Session)
    requires Climbed(db, x, g, known, up, chain)
    requires s in db.rows && Fetch(db, s.id) == Some(s) && Reads(db, s.id, g, known) && s.id !in up
    requires if up == [] then s.id == x else chain[0].parent == Some(s.id)
    ensures Climbed(db, x, g, known, up + [s.id], [s] + chain)
  {
    var up', chain' := up + [s.id], [s] + chain;
    assert Climbs(g, up');
    forall i | 0 <= i < |up'| ensures up'[i] == chain'[|chain'| - 1 - i].id {
      if i < |up| {
        assert up[i] == chain[|chain| - 1 - i].id;
      }
    }
  }

  lemma VisitCounts(known: set<Id>, visited: set<Id>, up: seq<Id>, id: Id)
    requires visited == Elements(up) <= known && id in known && id !in visited
    ensures visited + {id} == Elements(up + [id]) <= known
    ensures |known - (visited + {id})| < |known - visited|
  {
    assert known - (visited + {id}) == (known - visited) - {id};
  }

  method Climb(db: Database, x: Id, ghost g: Graph, ghost known: set<Id>)
    returns (chain: seq<Session>, ghost up: seq<Id>)
    requires forall id :: Reads(db, id, g, known)
    ensures Climbed(db, x, g, known, up, chain)
    ensures if up == [] then x !in known
            else chain[0].parent.Some? ==> chain[0].parent.value in up || chain[0].parent.value !in known
  {
    chain, up := [], [];
    var currentId := x;
    var visited: set<Id> := {};
    while currentId != ""
      invariant Climbed(db, x, g, known, up, chain)
      invariant visited == Elements(up) <= known
      invariant if up == [] then currentId == x else chain[0].parent == Some(currentId)
      decreases |known - visited|
    {
      if currentId in visited {
        return;
      }
      assert Reads(db, currentId, g, known);
      var got := Fetch(db, currentId);
      if got.None? {
        return;
      }
      ClimbedGrows(db, x, g, known, up, chain, got.value);
      VisitCounts(known, visited, up, currentId);
      visited := visited + {currentId};
      chain := [got.value] + chain;
      up := up + [currentId];
      if got.value.parent.None? {
        return;
      }
      currentId := got.value.parent.value;
    }
    assert Reads(db, "", g, known);
  }

  // ----- The two traversals against each other -----

  /**
    * Below `p` and each session returned, no query failed and the fifty rows
    * of the listing leave out no child, `p` itself excepted.
    */
  ghost predicate NoChildCutOff(db: Database, p: Id)
    requires db.Valid()
  {
    forall y, i :: (y == p || IsDescendant(Down(db), p, y)) && CutOffFrom(db, y) <= i < |ChildrenOf(db.rows, y)| ==>
      ChildrenOf(db.rows, y)[i].id == p
  }

  ghost function CutOffFrom(db: Database, y: Id): nat
  {
    if y in db.listFails then 0 else 50
  }

  lemma {:induction false} ChildrenAreDistinct(rows: seq<Session>, y: Id)
    requires forall i, j :: 0 <= i < j < |rows| ==> rows[i].id != rows[j].id
    ensures DistinctIds(ChildrenOf(rows, y))
  {
    if rows != [] {
      ChildrenAreDistinct(rows[1..], y);
      forall s | s in ChildrenOf(rows[1..], y) ensures s.id != rows[0].id {
        var i :| 0 <= i < |rows[1..]| && rows[1..][i] == s;
        assert rows[i + 1] == s;
      }
    }
  }

  /** The listing shows the child at position `i` iff `i` is before the cut. */
  lemma ListedBeforeCut(db: Database, y: Id, i: nat)
    requires db.Valid() && i < |ChildrenOf(db.rows, y)|
    ensures ChildrenOf(db.rows, y)[i] in Listed(db, y) <==> i < CutOffFrom(db, y)
  {
    ChildrenAreDistinct(db.rows, y);
    var all, listed := ChildrenOf(db.rows, y), Listed(db, y);
    assert y !in db.listFails ==> listed == all[..Min(50, |all|)];
    assert i < CutOffFrom(db, y) ==> i < |listed| && listed[i] == all[i];
    forall j | 0 <= j < |listed| && j != i ensures listed[j] != all[i] {
      assert listed[j] == all[j] && (if j < i then all[j].id != all[i].id else all[i].id != all[j].id);
    }
  }

  lemma RowsAreUnique(db: Database, s: Session, t: Session)
    requires db.Valid() && s in db.rows && t in db.rows && s.id == t.id
    ensures s == t
  {
  }

  lemma ListedMeansBeforeCut(db: Database, g: Graph, y: Id, i: nat)
    requires db.Valid() && g == Down(db) && i < |ChildrenOf(db.rows, y)|
    ensures var x := ChildrenOf(db.rows, y)[i].id;
      x in g.parent && g.parent[x] == y && (x in g.listed <==> i < CutOffFrom(db, y))
  {
    var s := ChildrenOf(db.rows, y)[i];
    assert s in db.rows && s.parent == Some(y);
    ListedBeforeCut(db, y, i);
    if s.id in g.listed {
      var t :| t in db.rows && t.parent.Some? && t in Listed(db, t.parent.value) && t.id == s.id;
      RowsAreUnique(db, s, t);
    }
  }

  lemma PointersAreChildren(db: Database, g: Graph, x: Id) returns (i: nat)
    requires db.Valid() && g == Down(db) && x in g.parent
    ensures i < |ChildrenOf(db.rows, g.parent[x])| && ChildrenOf(db.rows, g.parent[x])[i].id == x
  {
    var s :| s in db.rows && s.parent.Some? && s.id == x;
    assert s in ChildrenOf(db.rows, g.parent[x]);
    i :| 0 <= i < |ChildrenOf(db.rows, g.parent[x])| && ChildrenOf(db.rows, g.parent[x])[i] == s;
  }

  lemma HiddenMeansCutOff(db: Database, p: Id)
    requires db.Valid()
    ensures NothingHidden(Down(db), p) <==> NoChildCutOff(db, p)
  {
    var g := Down(db);
    if NothingHidden(g, p) {
      forall y, i | (y == p || IsDescendant(g, p, y)) && CutOffFrom(db, y) <= i < |ChildrenOf(db.rows, y)|
        ensures ChildrenOf(db.rows, y)[i].id == p
      {
        ListedMeansBeforeCut(db, g, y, i);
      }
    }
    if NoChildCutOff(db, p) {
      forall x | x in g.parent && x != p && (g.parent[x] == p || IsDescendant(g, p, g.parent[x]))
        ensures x in g.listed
      {
        var i := PointersAreChildren(db, g, x);
        ListedMeansBeforeCut(db, g, g.parent[x], i);
      }
    }
  }

  lemma {:induction false} AscendsByPointers(g: Graph, h: Graph, p: Id, x: Id, n: nat)
    requires g.parent == h.parent
    ensures Ascends(g, p, x, n) <==> Ascends(h, p, x, n)
    decreases n
  {
    if n > 0 && x in g.parent {
      AscendsByPointers(g, h, p, g.parent[x], n - 1);
    }
  }

  lemma AllCanBeFetched(db: Database)
    requires db.Valid() && db.getFails == {}
    ensures Up(db).parent == Down(db).parent && Known(db) == db.Ids()
  {
  }

  /**
    * For a stored session `p` and no failing lookups, the sessions below `p`
    * are those with `p` on their chain exactly when no listing on the way down
    * is cut short.
    */
  lemma TraversalsAreDual(db: Database, p: Id)
    requires db.Valid() && db.getFails == {} && p in db.Ids()
    ensures (forall c :: c != p ==> (IsDescendant(Down(db), p, c) <==> InChain(db, p, c))) <==> NoChildCutOff(db, p)
  {
    var g := Down(db);
    AllCanBeFetched(db);
    forall c ensures InChain(db, p, c) <==> IsAncestor(g, p, c) {
      forall n: nat ensures Ascends(g, p, c, n) <==> Ascends(Up(db), p, c, n) {
        AscendsByPointers(g, Up(db), p, c, n);
      }
    }
    Duality(g, p);
    HiddenMeansCutOff(db, p);
  }

  /** With failing lookups too, nothing is listed below a session that is not above it. */
  lemma ListedBelowIsAbove(db: Database, p: Id, c: Id)
    requires db.Valid() && IsDescendant(Down(db), p, c)
    ensures IsAncestor(Down(db), p, c)
  {
    var n: nat :| Descends(Down(db), p, c, n);
    DescendsAscends(Down(db), p, c, n);
  }

  /** From the 51st child on, nothing of a listing is found below its session, although all have it on their chains. */
  lemma LaterChildrenAreMissed(db: Database, p: Id, i: nat)
    requires db.Valid() && db.getFails == {} && p in db.Ids()
    requires 50 <= i < |ChildrenOf(db.rows, p)| && ChildrenOf(db.rows, p)[i].id != p
    ensures var c := ChildrenOf(db.rows, p)[i].id;
      InChain(db, p, c) && !IsDescendant(Down(db), p, c)
  {
    var g := Down(db);
    ListedMeansBeforeCut(db, g, p, i);
    AllCanBeFetched(db);
    UnlistedIsAboveOnly(g, Up(db), p, ChildrenOf(db.rows, p)[i].id);
  }

  lemma UnlistedIsAboveOnly(g: Graph, h: Graph, p: Id, c: Id)
    requires c in g.parent && g.parent[c] == p && c != p && c !in g.listed && h.parent == g.parent
    ensures IsAncestor(h, p, c) && !IsDescendant(g, p, c)
  {
    assert Ascends(h, p, p, 0) && Ascends(h, p, c, 1);
  }

  /** The session "a" and its children "aa", "aaa", and so on, `n` of them. */
  function Family(n: nat): Database
  {
    Database([Session("a", None)] + seq(n, i requires 0 <= i < n => Session(Letters(i + 2), Some("a"))), {}, {})
  }

  function Letters(n: nat): (r: string)
    ensures |r| == n
  {
    seq(n, _ => 'a')
  }

  lemma {:induction false} AllAreChildren(rows: seq<Session>, p: Id)
    requires forall i :: 0 <= i < |rows| ==> rows[i].parent == Some(p)
    ensures ChildrenOf(rows, p) == rows
  {
    if rows != [] {
      AllAreChildren(rows[1..], p);
    }
  }

  /** With 51 children the last is missed. */
  lemma LastOfFamilyIsMissed()
    ensures var db, c := Family(51), Letters(52);
      db.Valid() && |ChildrenOf(db.rows, "a")| == 51 && InChain(db, "a", c) && !IsDescendant(Down(db), "a", c)
  {
    var db := Family(51);
    FamilyIsValid(51);
    LaterChildrenAreMissed(db, "a", 50);
  }

  lemma FamilyIsValid(n: nat)
    ensures var db := Family(n);
      db.Valid() && "a" in db.Ids() && ChildrenOf(db.rows, "a") == db.rows[1..]
    ensures forall i :: 0 <= i < n ==> Family(n).rows[1..][i].id == Letters(i + 2)
  {
    var rows := Family(n).rows;
    assert |Letters(1)| == 1 && "a" == Letters(1);
    forall i, j | 0 <= i < j < |rows|
      ensures rows[i].id != rows[j].id
    {
      assert |rows[i].id| == i + 1 && |rows[j].id| == j + 1;
    }
    AllAreChildren(rows[1..], "a");
    assert rows[0] in rows && rows[0].id == "a";
  }
}
