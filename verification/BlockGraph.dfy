/**
 * The block graph of block.c: nodes linked by edges (BdrvChild), each kept both
 * in its parent's `children` list and in its target's `parents` list.
 */
module BlockGraph {
  import opened Common

  type Node = nat
  type Edge = nat

  datatype Perm = ConsistentRead | Write | WriteUnchanged | Resize

  type Perms = set<Perm>

  const ALL_PERMS: Perms := {ConsistentRead, Write, WriteUnchanged, Resize}

  /** Who uses a node through an edge. Edges of block jobs have stay_at_node. */
  datatype Parent = OfNode(node: Node) | OfJob(job: nat) | OfUser(user: nat)

  datatype Role = Filtered | Cow | Storage(metadata: bool, data: bool)

  datatype Child = Child(bs: Option<Node>, parent: Parent, role: Role, perm: Perms, shared: Perms, frozen: bool)

  datatype Graph = Graph(
    edges: map<Edge, Child>,
    children: map<Node, seq<Edge>>,
    parents: map<Node, seq<Edge>>)

  // --------------------------------------------------------------------------
  // Consistency of the two kinds of lists with the edges

  /** The end points of an edge are nodes of the graph. */
  predicate EndsOk(g: Graph, c: Child) {
    && (c.bs.Some? ==> c.bs.value in g.parents)
    && (c.parent.OfNode? ==> c.parent.node in g.children)
  }

  /** An edge with a target is in the lists it belongs to. */
  predicate EdgeOk(g: Graph, e: Edge)
    requires e in g.edges
  {
    var c := g.edges[e];
    && EndsOk(g, c)
    && (c.bs.Some? ==> e in g.parents[c.bs.value])
    && (c.bs.Some? && c.parent.OfNode? ==> e in g.children[c.parent.node])
  }

  /** The parents list of n holds edges to n only, and each once. */
  ghost predicate ParentsOk(g: Graph, n: Node)
    requires n in g.parents
  {
    NoDup(g.parents[n]) && forall e :: e in g.parents[n] ==> e in g.edges && g.edges[e].bs == Some(n)
  }

  ghost predicate ChildrenOk(g: Graph, u: Node)
    requires u in g.children
  {
    && NoDup(g.children[u])
    && forall e :: e in g.children[u] ==> e in g.edges && g.edges[e].parent == OfNode(u) && g.edges[e].bs.Some?
  }

  ghost predicate Consistent(g: Graph) {
    && g.children.Keys == g.parents.Keys
    && (forall e {:trigger EdgeOk(g, e)} :: e in g.edges ==> EdgeOk(g, e))
    && (forall n {:trigger ParentsOk(g, n)} :: n in g.parents ==> ParentsOk(g, n))
    && (forall u {:trigger ChildrenOk(g, u)} :: u in g.children ==> ChildrenOk(g, u))
  }

  /** The lists are determined by the edges, up to the order of siblings. */
  lemma ListsFollowEdges(g: Graph, h: Graph, n: Node)
    requires Consistent(g) && Consistent(h) && g.edges == h.edges && n in g.parents && n in h.parents
    ensures multiset(g.parents[n]) == multiset(h.parents[n])
    ensures multiset(g.children[n]) == multiset(h.children[n])
  {
    assert ParentsOk(g, n) && ParentsOk(h, n) && ChildrenOk(g, n) && ChildrenOk(h, n);
    forall e | e in g.edges
      ensures EdgeOk(g, e) && EdgeOk(h, e)
    {
    }
    SameElements(g.parents[n], h.parents[n]);
    SameElements(g.children[n], h.children[n]);
  }

  lemma SameElements<T>(s: seq<T>, t: seq<T>)
    requires NoDup(s) && NoDup(t) && forall x :: x in s <==> x in t
    ensures multiset(s) == multiset(t)
  {
    forall x
      ensures multiset(s)[x] == multiset(t)[x]
    {
      CountOne(s, x);
      CountOne(t, x);
    }
  }

  lemma {:induction false} CountOne<T>(s: seq<T>, x: T)
    requires NoDup(s)
    ensures multiset(s)[x] == if x in s then 1 else 0
  {
    if s != [] {
      assert s == [s[0]] + s[1..];
      CountOne(s[1..], x);
    }
  }

  // --------------------------------------------------------------------------
  // bdrv_replace_child_noperm

  /** QLIST_REMOVE */
  function Unlink(s: seq<Edge>, e: Edge): seq<Edge> {
    if s == [] then [] else if s[0] == e then s[1..] else [s[0]] + Unlink(s[1..], e)
  }

  lemma NoDupCons<T>(x: T, s: seq<T>)
    requires NoDup(s) && x !in s
    ensures NoDup([x] + s)
  {
  }

  lemma {:induction false} UnlinkRemoves(s: seq<Edge>, e: Edge)
    requires NoDup(s)
    ensures NoDup(Unlink(s, e)) && forall x :: x in Unlink(s, e) <==> x in s && x != e
    ensures e in s ==> |Unlink(s, e)| == |s| - 1
  {
    if s != [] {
      assert s == [s[0]] + s[1..];
      UnlinkRemoves(s[1..], e);
      if s[0] != e { NoDupCons(s[0], Unlink(s[1..], e)); }
    }
  }

  /** QLIST_INSERT_HEAD into, or QLIST_REMOVE from, the children list of the edge's parent node. */
  function ParentLists(g: Graph, e: Edge, insert: bool): map<Node, seq<Edge>>
    requires e in g.edges && EndsOk(g, g.edges[e])
  {
    match g.edges[e].parent
    case OfNode(u) => g.children[u := if insert then [e] + g.children[u] else Unlink(g.children[u], e)]
    case _ => g.children
  }

  function Detach(g: Graph, e: Edge): Graph
    requires e in g.edges && EndsOk(g, g.edges[e])
  {
    match g.edges[e].bs
    case None => g
    case Some(n) =>
      Graph(g.edges[e := g.edges[e].(bs := None)],
            ParentLists(g, e, false),
            g.parents[n := Unlink(g.parents[n], e)])
  }

  function AttachTo(g: Graph, e: Edge, n: Node): Graph
    requires e in g.edges && n in g.parents && EndsOk(g, g.edges[e])
  {
    Graph(g.edges[e := g.edges[e].(bs := Some(n))],
          ParentLists(g, e, true),
          g.parents[n := [e] + g.parents[n]])
  }

  /** bdrv_replace_child_noperm: the edge is moved between the lists, its permissions stay. */
  function ReplaceChild(g: Graph, e: Edge, bs: Option<Node>): Graph
    requires Consistent(g) && e in g.edges && (bs.Some? ==> bs.value in g.parents)
  {
    DetachKeeps(g, e);
    var h := Detach(g, e);
    if bs.Some? then AttachTo(h, e, bs.value) else h
  }

  lemma DetachParents(g: Graph, e: Edge, x: Node)
    requires e in g.edges && g.edges[e].bs.Some? && EndsOk(g, g.edges[e])
    requires x in g.parents && ParentsOk(g, x)
    ensures ParentsOk(Detach(g, e), x)
  {
    UnlinkRemoves(g.parents[x], e);
  }

  lemma DetachChildren(g: Graph, e: Edge, u: Node)
    requires e in g.edges && g.edges[e].bs.Some? && EndsOk(g, g.edges[e])
    requires u in g.children && ChildrenOk(g, u)
    ensures ChildrenOk(Detach(g, e), u)
  {
    UnlinkRemoves(g.children[u], e);
  }

  lemma AttachParents(g: Graph, e: Edge, n: Node, x: Node)
    requires e in g.edges && g.edges[e].bs.None? && n in g.parents && EndsOk(g, g.edges[e])
    requires x in g.parents && ParentsOk(g, x)
    ensures ParentsOk(AttachTo(g, e, n), x)
  {
    NoDupCons(e, g.parents[x]);
  }

  lemma AttachChildren(g: Graph, e: Edge, n: Node, u: Node)
    requires e in g.edges && g.edges[e].bs.None? && n in g.parents && EndsOk(g, g.edges[e])
    requires u in g.children && ChildrenOk(g, u)
    ensures ChildrenOk(AttachTo(g, e, n), u)
  {
    NoDupCons(e, g.children[u]);
  }

  lemma DetachEdge(g: Graph, e: Edge, x: Edge)
    requires Consistent(g) && e in g.edges && EdgeOk(g, e) && g.edges[e].bs.Some? && x in g.edges
    ensures EdgeOk(Detach(g, e), x)
  {
    assert EdgeOk(g, x) && ParentsOk(g, g.edges[e].bs.value);
    if g.edges[e].parent.OfNode? { assert ChildrenOk(g, g.edges[e].parent.node); }
    UnlinkRemoves(g.parents[g.edges[e].bs.value], e);
    if g.edges[e].parent.OfNode? { UnlinkRemoves(g.children[g.edges[e].parent.node], e); }
  }

  lemma AttachEdge(g: Graph, e: Edge, n: Node, x: Edge)
    requires Consistent(g) && e in g.edges && EdgeOk(g, e) && g.edges[e].bs.None? && n in g.parents && x in g.edges
    ensures EdgeOk(AttachTo(g, e, n), x)
  {
    assert EdgeOk(g, x);
  }

  lemma DetachKeeps(g: Graph, e: Edge)
    requires Consistent(g) && e in g.edges
    ensures EdgeOk(g, e)
    ensures Consistent(Detach(g, e)) && Detach(g, e).edges == g.edges[e := g.edges[e].(bs := None)]
    ensures Detach(g, e).parents.Keys == g.parents.Keys
  {
    assert EdgeOk(g, e);
    if g.edges[e].bs.Some? {
      forall x | x in g.parents
        ensures ParentsOk(Detach(g, e), x) && ChildrenOk(Detach(g, e), x)
      {
        DetachParents(g, e, x);
        DetachChildren(g, e, x);
      }
      forall x | x in g.edges
        ensures EdgeOk(Detach(g, e), x)
      {
        DetachEdge(g, e, x);
      }
    } else {
      assert g.edges[e := g.edges[e].(bs := None)] == g.edges;
    }
  }

  lemma AttachKeeps(g: Graph, e: Edge, n: Node)
    requires Consistent(g) && e in g.edges && g.edges[e].bs.None? && n in g.parents
    ensures EdgeOk(g, e) && Consistent(AttachTo(g, e, n))
  {
    assert EdgeOk(g, e);
    forall x | x in g.parents
      ensures ParentsOk(AttachTo(g, e, n), x) && ChildrenOk(AttachTo(g, e, n), x)
    {
      AttachParents(g, e, n, x);
      AttachChildren(g, e, n, x);
    }
    forall x | x in g.edges
      ensures EdgeOk(AttachTo(g, e, n), x)
    {
      AttachEdge(g, e, n, x);
    }
  }

  lemma UpdateTwice<K, V>(m: map<K, V>, k: K, v: V, w: V)
    ensures m[k := v][k := w] == m[k := w]
  {
  }

  /** Replacing the target keeps the lists consistent, and changes nothing but the target. */
  lemma ReplaceChildKeeps(g: Graph, e: Edge, bs: Option<Node>)
    requires Consistent(g) && e in g.edges && (bs.Some? ==> bs.value in g.parents)
    ensures Consistent(ReplaceChild(g, e, bs))
    ensures ReplaceChild(g, e, bs).edges == g.edges[e := g.edges[e].(bs := bs)]
    ensures ReplaceChild(g, e, bs).parents.Keys == g.parents.Keys
  {
    DetachKeeps(g, e);
    if bs.Some? {
      AttachKeeps(Detach(g, e), e, bs.value);
      UpdateTwice(g.edges, e, g.edges[e].(bs := None), g.edges[e].(bs := bs));
    }
  }

  /** bdrv_child_set_perm */
  function WithPerm(g: Graph, e: Edge, perm: Perms, shared: Perms): Graph
    requires e in g.edges
  {
    g.(edges := g.edges[e := g.edges[e].(perm := perm, shared := shared)])
  }

  // --------------------------------------------------------------------------
  // Reachability and acyclicity

  /** u has an edge to v. */
  ghost predicate Points(g: Graph, u: Node, v: Node) {
    exists e :: e in g.edges && g.edges[e].parent == OfNode(u) && g.edges[e].bs == Some(v)
  }

  /** The nodes of `path`, in order, lead from u to v. */
  ghost predicate Leads(g: Graph, u: Node, path: seq<Node>, v: Node)
    decreases path
  {
    if path == [] then u == v else Points(g, u, path[0]) && Leads(g, path[0], path[1..], v)
  }

  ghost predicate Reaches(g: Graph, u: Node, v: Node) {
    exists path :: Leads(g, u, path, v)
  }

  lemma ReachesSelf(g: Graph, u: Node)
    ensures Reaches(g, u, u)
  {
    assert Leads(g, u, [], u);
  }

  lemma ReachesStep(g: Graph, u: Node, v: Node, w: Node)
    requires Points(g, u, v) && Reaches(g, v, w)
    ensures Reaches(g, u, w)
  {
    var path :| Leads(g, v, path, w);
    assert ([v] + path)[1..] == path;
    assert Leads(g, u, [v] + path, w);
  }

  lemma {:induction false} LeadsThen(g: Graph, u: Node, path: seq<Node>, v: Node, w: Node)
    requires Leads(g, u, path, v) && Points(g, v, w)
    ensures Reaches(g, u, w)
    decreases path
  {
    if path == [] {
      ReachesSelf(g, w);
      ReachesStep(g, u, w, w);
    } else {
      LeadsThen(g, path[0], path[1..], v, w);
      ReachesStep(g, u, path[0], w);
    }
  }

  lemma ReachesThen(g: Graph, u: Node, v: Node, w: Node)
    requires Reaches(g, u, v) && Points(g, v, w)
    ensures Reaches(g, u, w)
  {
    var path :| Leads(g, u, path, v);
    LeadsThen(g, u, path, v, w);
  }

  /** Every edge between nodes goes down. */
  ghost predicate Ranked(g: Graph, rank: map<Node, nat>) {
    && rank.Keys == g.parents.Keys
    && forall u, v :: Points(g, u, v) ==> u in rank && v in rank && rank[v] < rank[u]
  }

  ghost predicate Acyclic(g: Graph) {
    exists rank :: Ranked(g, rank)
  }

  lemma {:induction false} PathsGoDown(g: Graph, rank: map<Node, nat>, u: Node, path: seq<Node>, v: Node)
    requires Ranked(g, rank) && u in rank && Leads(g, u, path, v)
    ensures v in rank && rank[v] <= rank[u] && (path != [] ==> rank[v] < rank[u])
    decreases path
  {
    if path != [] {
      PathsGoDown(g, rank, path[0], path[1..], v);
    }
  }

  /** In an acyclic graph no path leads from a node back to itself. */
  lemma NoCycles(g: Graph, u: Node, path: seq<Node>)
    requires Acyclic(g) && path != []
    ensures !Leads(g, u, path, u)
  {
    var rank :| Ranked(g, rank);
    if Leads(g, u, path, u) {
      PathsGoDown(g, rank, u, path, u);
    }
  }

  /** Adding one edge u -> v keeps the graph acyclic if v does not reach u. */
  lemma AddingEdge(g: Graph, h: Graph, u: Node, v: Node)
    requires Acyclic(g) && h.parents.Keys == g.parents.Keys && u in g.parents && v in g.parents
    requires forall x, y :: Points(h, x, y) ==> Points(g, x, y) || (x == u && y == v)
    requires !Reaches(g, v, u)
    ensures Acyclic(h)
  {
    var rank :| Ranked(g, rank);
    var rank' := map x | x in rank :: if Reaches(g, x, u) then rank[x] + rank[v] + 1 else rank[x];
    ReachesSelf(g, u);
    forall x, y | Points(h, x, y)
      ensures x in rank' && y in rank' && rank'[y] < rank'[x]
    {
      if Points(g, x, y) && Reaches(g, y, u) { ReachesStep(g, x, y, u); }
    }
    assert Ranked(h, rank');
  }

  lemma RemovingEdges(g: Graph, h: Graph)
    requires Acyclic(g) && h.parents.Keys == g.parents.Keys
    requires forall x, y :: Points(h, x, y) ==> Points(g, x, y)
    ensures Acyclic(h)
  {
    var rank :| Ranked(g, rank);
    assert Ranked(h, rank);
  }

  // --------------------------------------------------------------------------
  // bdrv_recurse_has_child

  /** The target of an edge in a children list. */
  function Target(g: Graph, e: Edge): Node
    requires e in g.edges && g.edges[e].bs.Some?
  {
    g.edges[e].bs.value
  }

  lemma ChildPoints(g: Graph, u: Node, e: Edge)
    requires Consistent(g) && u in g.children && e in g.children[u]
    ensures e in g.edges && g.edges[e].bs.Some? && Target(g, e) in g.children && Points(g, u, Target(g, e))
  {
    assert ChildrenOk(g, u) && EdgeOk(g, e);
  }

  lemma PointsChild(g: Graph, u: Node, v: Node) returns (e: Edge)
    requires Consistent(g) && Points(g, u, v)
    ensures u in g.children && e in g.children[u] && e in g.edges && g.edges[e].bs == Some(v)
  {
    e :| e in g.edges && g.edges[e].parent == OfNode(u) && g.edges[e].bs == Some(v);
    assert EdgeOk(g, e);
  }

  /** bdrv_recurse_has_child; the rank is the reason the recursion ends. */
  predicate RecurseHasChild(g: Graph, ghost rank: map<Node, nat>, bs: Node, child: Node)
    requires Consistent(g) && Ranked(g, rank) && bs in g.children
    decreases rank[bs]
  {
    bs == child ||
    exists e :: e in g.children[bs] && (ChildPoints(g, bs, e); RecurseHasChild(g, rank, Target(g, e), child))
  }

  lemma {:induction false} RecurseFindsPath(g: Graph, rank: map<Node, nat>, bs: Node, child: Node)
    requires Consistent(g) && Ranked(g, rank) && bs in g.children && RecurseHasChild(g, rank, bs, child)
    ensures Reaches(g, bs, child)
    decreases rank[bs]
  {
    if bs == child {
      ReachesSelf(g, bs);
    } else {
      var e :| e in g.children[bs] && (ChildPoints(g, bs, e); RecurseHasChild(g, rank, Target(g, e), child));
      ChildPoints(g, bs, e);
      RecurseFindsPath(g, rank, Target(g, e), child);
      ReachesStep(g, bs, Target(g, e), child);
    }
  }

  lemma {:induction false} PathIsFound(g: Graph, rank: map<Node, nat>, bs: Node, path: seq<Node>, child: Node)
    requires Consistent(g) && Ranked(g, rank) && bs in g.children && Leads(g, bs, path, child)
    ensures RecurseHasChild(g, rank, bs, child)
    decreases path
  {
    if path != [] {
      var e := PointsChild(g, bs, path[0]);
      ChildPoints(g, bs, e);
      PathIsFound(g, rank, path[0], path[1..], child);
    }
  }

  /** bdrv_recurse_has_child computes reachability. */
  lemma RecurseIsReaches(g: Graph, rank: map<Node, nat>, bs: Node, child: Node)
    requires Consistent(g) && Ranked(g, rank) && bs in g.children
    ensures RecurseHasChild(g, rank, bs, child) <==> Reaches(g, bs, child)
  {
    if RecurseHasChild(g, rank, bs, child) {
      RecurseFindsPath(g, rank, bs, child);
    }
    forall path | Leads(g, bs, path, child)
      ensures RecurseHasChild(g, rank, bs, child)
    {
      PathIsFound(g, rank, bs, path, child);
    }
  }

  // --------------------------------------------------------------------------
  // should_update_child

  /** Edge c hangs off a node that `to` reaches. */
  ghost predicate InSubtree(g: Graph, c: Edge, to: Node) {
    c in g.edges && g.edges[c].parent.OfNode? && g.edges[c].bs.Some? && Reaches(g, to, g.edges[c].parent.node)
  }

  predicate Seen(g: Graph, e: Edge, found: set<Node>, c: Edge) {
    e != c && e in g.edges && g.edges[e].bs.Some? && Target(g, e) in found
  }

  /** The edges of u lead into `found`, and none of them is c. */
  ghost predicate NodeExplored(g: Graph, u: Node, found: set<Node>, c: Edge)
    requires u in g.children
  {
    forall e :: e in g.children[u] ==> Seen(g, e, found, c)
  }

  ghost predicate Explored(g: Graph, done: set<Node>, found: set<Node>, c: Edge) {
    forall u :: u in done && u in g.children ==> NodeExplored(g, u, found, c)
  }

  lemma {:induction false} ExploredIsClosed(g: Graph, found: set<Node>, c: Edge, u: Node, path: seq<Node>, v: Node)
    requires Consistent(g) && Explored(g, found, found, c) && u in found && Leads(g, u, path, v)
    ensures v in found
    decreases path
  {
    if path != [] {
      var e := PointsChild(g, u, path[0]);
      assert NodeExplored(g, u, found, c) && Seen(g, e, found, c);
      ExploredIsClosed(g, found, c, path[0], path[1..], v);
    }
  }

  /** The search below `to`: what was found is reachable, and is either done or queued. */
  ghost predicate Searching(g: Graph, to: Node, found: set<Node>, queue: seq<Node>, done: set<Node>) {
    && to in found && found <= g.children.Keys && NoDup(queue)
    && (forall n :: n in found <==> n in done || n in queue)
    && (forall n :: n in queue ==> n !in done)
    && (forall n :: n in found ==> Reaches(g, to, n))
  }

  lemma Enqueue(g: Graph, to: Node, found: set<Node>, queue: seq<Node>, done: set<Node>, n: Node)
    requires Searching(g, to, found, queue, done) && n !in found && n in g.children && Reaches(g, to, n)
    ensures Searching(g, to, found + {n}, queue + [n], done)
  {
  }

  lemma Dequeue(g: Graph, to: Node, found: set<Node>, queue: seq<Node>, done: set<Node>)
    requires Searching(g, to, found, queue, done) && queue != []
    ensures queue[0] in found && queue[0] !in done && Searching(g, to, found, queue[1..], done + {queue[0]})
  {
    assert queue == [queue[0]] + queue[1..];
  }

  /** The inner loop: queue the children of v that are new. `hit` if c is among v's edges. */
  method Explore(g: Graph, c: Edge, to: Node, v: Node, found0: set<Node>, queue0: seq<Node>, ghost done: set<Node>)
    returns (hit: bool, found: set<Node>, queue: seq<Node>)
    requires Consistent(g) && v in done && v in found0 && Searching(g, to, found0, queue0, done)
    ensures Searching(g, to, found, queue, done) && found0 <= found
    ensures hit ==> InSubtree(g, c, to)
    ensures v in g.children && (!hit ==> NodeExplored(g, v, found, c))
  {
    hit, found, queue := false, found0, queue0;
    assert ChildrenOk(g, v);
    for i := 0 to |g.children[v]|
      invariant Searching(g, to, found, queue, done) && found0 <= found
      invariant forall j :: 0 <= j < i ==> Seen(g, g.children[v][j], found, c)
    {
      var c2 := g.children[v][i];
      ChildPoints(g, v, c2);
      if c2 == c {
        hit := true;
        return;
      }
      if Target(g, c2) !in found {
        ReachesThen(g, to, v, Target(g, c2));
        Enqueue(g, to, found, queue, done, Target(g, c2));
        queue := queue + [Target(g, c2)];
        found := found + {Target(g, c2)};
      }
    }
  }

  /**
   * Breadth-first search below `to`: true unless the edge must stay where it
   * is or hangs off a node of the subtree of `to`, so that redirecting it to
   * `to` would close a cycle.
   */
  method ShouldUpdateChild(g: Graph, c: Edge, to: Node) returns (ret: bool)
    requires Consistent(g) && c in g.edges && to in g.children
    ensures ret <==> !g.edges[c].parent.OfJob? && !InSubtree(g, c, to)
  {
    if g.edges[c].parent.OfJob? { return false; }
    ret := true;
    var found, queue := {to}, [to];
    ghost var done: set<Node> := {};
    ReachesSelf(g, to);
    while queue != []
      invariant Searching(g, to, found, queue, done) && done <= g.children.Keys
      invariant ret ==> Explored(g, done, found, c)
      invariant !ret ==> InSubtree(g, c, to)
      decreases g.children.Keys - done
    {
      var v := queue[0];
      Dequeue(g, to, found, queue, done);
      done := done + {v};
      var hit;
      hit, found, queue := Explore(g, c, to, v, found, queue[1..], done);
      if hit {
        ret := false;
      }
    }
    if ret && g.edges[c].parent.OfNode? && g.edges[c].bs.Some? {
      SearchIsComplete(g, c, to, found);
    }
  }

  lemma SearchIsComplete(g: Graph, c: Edge, to: Node, found: set<Node>)
    requires Consistent(g) && to in found && Explored(g, found, found, c)
    requires c in g.edges && g.edges[c].parent.OfNode? && g.edges[c].bs.Some?
    ensures !Reaches(g, to, g.edges[c].parent.node)
  {
    var u := g.edges[c].parent.node;
    assert EdgeOk(g, c) && c in g.children[u] && !Seen(g, c, found, c);
    assert !NodeExplored(g, u, found, c);
    forall path
      ensures !Leads(g, to, path, u)
    {
      if Leads(g, to, path, u) { ExploredIsClosed(g, found, c, to, path, u); }
    }
  }
}
