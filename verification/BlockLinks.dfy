/**
 * What the graph operations of block.c do to the edges, and when they succeed:
 * which edges a replacement moves, and what has to be possible for a request,
 * an attachment, a replacement or an append to go through.
 */
module BlockLinks {
  import opened BlockGraph
  import opened BlockPerm
  import opened BlockRefresh
  import opened BlockTran
  import opened Common

  // --------------------------------------------------------------------------
  // When the operations succeed

  function Requested(g: Graph, e: Edge, perm: Perms, shared: Perms): map<Edge, Child>
    requires e in g.edges
  {
    g.edges[e := g.edges[e].(perm := perm, shared := shared)]
  }

  /** The graph can be right with these permissions on the edge. */
  ghost predicate MaySet(d: Drivers, g: Graph, e: Edge, perm: Perms, shared: Perms)
    requires e in g.edges && g.edges[e].bs.Some?
  {
    CanRefresh(d, g.parents.Keys, Requested(g, e, perm, shared), {g.edges[e].bs.value})
  }

  /** The edge has the permissions, edges have changed in permissions only, and all below the edge is right. */
  ghost predicate SetAs(d: Drivers, g: Graph, h: Graph, e: Edge, perm: Perms, shared: Perms)
    requires e in g.edges && g.edges[e].bs.Some?
  {
    && PermsDiffer(g, h, g.edges.Keys) && h.edges[e].perm == perm && h.edges[e].shared == shared
    && RightBelow(d, h, g.edges[e].bs.value)
  }

  /** Less is required, and more is shared. */
  predicate Loosens(g: Graph, e: Edge, perm: Perms, shared: Perms)
    requires e in g.edges
  {
    perm <= g.edges[e].perm && g.edges[e].shared <= shared
  }

  /** Writing is asked of a node that is not writable. */
  predicate Refused(d: Drivers, n: Node, perm: Perms) {
    n !in d.writable && (Write in perm || WriteUnchanged in perm)
  }

  /** An edge that writes, in a graph that is right below it, points to a writable node. */
  lemma RightIsWritable(d: Drivers, g: Graph, e: Edge)
    requires e in g.edges && g.edges[e].bs.Some?
    requires RightBelow(d, g, g.edges[e].bs.value)
    ensures !Refused(d, g.edges[e].bs.value, g.edges[e].perm)
  {
    ReachesSelf(g, g.edges[e].bs.value);
    assert e in Users(g, g.edges[e].bs.value);
  }

  /** bdrv_attach_child_noperm accepts the edge. */
  ghost predicate Admits(d: Drivers, g: Graph, parent: Node, child: Node, role: Role)
    requires parent in g.parents
  {
    && !Reaches(g, child, parent)
    && !(child in d.inactive && parent !in d.inactive)
    && !(child in d.inactive && Wanted(d, g, parent, child, role).0 - {ConsistentRead} != {})
  }

  /** No cycle; an inactive child needs an inactive parent, whose driver asks for no more than consistent reads. */
  lemma AdmitsIff(d: Drivers, g: Graph, parent: Node, child: Node, role: Role)
    requires Consistent(g) && parent in g.parents
    ensures Admits(d, g, parent, child, role) <==>
            && !Reaches(g, child, parent)
            && (child in d.inactive ==>
                  && parent in d.inactive
                  && d.childPerm(parent, None, role, Needed(g, parent), Tolerated(g, parent)).0 <= {ConsistentRead})
  {
    CumulativeIs(g, parent);
  }

  function NewChild(d: Drivers, g: Graph, parent: Node, child: Node, role: Role): Child
    requires parent in g.parents
  {
    var (perm, shared) := Wanted(d, g, parent, child, role);
    Child(Some(child), OfNode(parent), role, perm, shared, false)
  }

  ghost predicate MayAttach(d: Drivers, g: Graph, parent: Node, child: Node, role: Role)
    requires parent in g.parents
  {
    && Admits(d, g, parent, child, role)
    && CanRefresh(d, g.parents.Keys, g.edges[FreshEdge(g) := NewChild(d, g, parent, child, role)], {parent})
  }

  ghost predicate MayRootAttach(d: Drivers, g: Graph, child: Node, parent: Parent, role: Role,
                                perm: Perms, shared: Perms)
  {
    && !(child in d.inactive && perm - {ConsistentRead} != {})
    && var c := Child(Some(child), parent, role, perm, shared, false);
       CanRefresh(d, g.parents.Keys, g.edges[FreshEdge(g) := c], {child})
  }

  /** The edges after the movable users of `from` have moved. */
  ghost function MovedEdges(g: Graph, from: Node, to: Node): map<Edge, Child> {
    map e | e in g.edges :: if Uses(g, e, from) && Movable(g, e, to) then g.edges[e].(bs := Some(to)) else g.edges[e]
  }

  ghost predicate MayReplace(d: Drivers, g: Graph, from: Node, to: Node, autoSkip: bool) {
    && (forall e :: Uses(g, e, from) ==> Proceeds(g, e, to, autoSkip))
    && CanRefresh(d, g.parents.Keys, MovedEdges(g, from, to), {from, to})
  }

  ghost predicate MayAppend(d: Drivers, g: Graph, bsNew: Node, top: Node, role: Role)
    requires bsNew in g.parents
  {
    && Admits(d, g, bsNew, top, role)
    && (forall e :: Uses(g, e, top) ==> Proceeds(g, e, bsNew, true))
    && var c := NewChild(d, g, bsNew, top, role);
       CanRefresh(d, g.parents.Keys, MovedEdges(g, top, bsNew)[FreshEdge(g) := c], {bsNew})
  }

  /** What parent's driver asks for on a new edge to child. */
  function Wanted(d: Drivers, g: Graph, parent: Node, child: Node, role: Role): (Perms, Perms)
    requires parent in g.parents
  {
    var (perm, shared) := Cumulative(g, parent);
    ChildPerm(d, parent, child, None, role, perm, shared)
  }

  /** Without the edge, the permissions below its target can be made right. */
  ghost predicate MayRefreshWithout(d: Drivers, g: Graph, e: Edge)
    requires e in g.edges && g.edges[e].bs.Some?
  {
    CanRefresh(d, g.parents.Keys, g.edges - {e}, {g.edges[e].bs.value})
  }

  /** The edge is gone, others have changed in permissions only, and all below its target is right. */
  ghost predicate UnlinkedAs(d: Drivers, g: Graph, h: Graph, e: Edge)
    requires e in g.edges && g.edges[e].bs.Some?
  {
    && h.edges.Keys == g.edges.Keys - {e}
    && (forall x {:trigger SameLink(g, h, x)} :: x in h.edges ==> SameLink(g, h, x))
    && RightBelow(d, h, g.edges[e].bs.value)
  }

  lemma UnlinkEnds(d: Drivers, g: Graph, h: Graph, n: Node)
    requires Consistent(g) && Acyclic(g) && n in g.parents && Solves(d, g, h, Under(g, {n}))
    ensures h.edges.Keys == g.edges.Keys && forall x :: x in h.edges ==> SameLink(g, h, x)
    ensures RightBelow(d, h, n)
  {
    SolvedBelow(d, g, h, {n}, n);
  }

  lemma UnlinkKeepsAcyclic(g: Graph, h: Graph, e: Edge)
    requires Acyclic(g) && h.edges == g.edges - {e} && h.parents.Keys == g.parents.Keys
    ensures Acyclic(h)
  {
    forall x: Node, y: Node | Points(h, x, y)
      ensures Points(g, x, y)
    {
      var f :| f in h.edges && h.edges[f].parent == OfNode(x) && h.edges[f].bs == Some(y);
      assert f in g.edges && g.edges[f].parent == OfNode(x) && g.edges[f].bs == Some(y);
    }
    RemovingEdges(g, h);
  }

  /** What the refresh of the edge's target leaves of a request. */
  lemma SetEnds(d: Drivers, g0: Graph, g1: Graph, g: Graph, e: Edge, perm: Perms, shared: Perms)
    requires Consistent(g1) && Acyclic(g1)
    requires e in g0.edges && g0.edges[e].bs.Some? && g0.edges[e].bs.value in g1.parents
    requires g1 == WithPerm(g0, e, perm, shared) && Solves(d, g1, g, Under(g1, {g0.edges[e].bs.value}))
    ensures SetAs(d, g0, g, e, perm, shared)
  {
    var n := g0.edges[e].bs.value;
    OwnEdgeIsAbove(g1, e);
    SolvedBelow(d, g1, g, {n}, n);
  }

  /** An edge does not hang below its own target. */
  lemma OwnEdgeIsAbove(g: Graph, e: Edge)
    requires Acyclic(g) && e in g.edges && g.edges[e].bs.Some?
    ensures g.edges[e].parent.OfNode? ==> !IsUnder(g, {g.edges[e].bs.value}, g.edges[e].parent.node)
  {
    var n := g.edges[e].bs.value;
    if g.edges[e].parent.OfNode? && IsUnder(g, {n}, g.edges[e].parent.node) {
      var u := g.edges[e].parent.node;
      assert Points(g, u, n);
      var path :| Leads(g, n, path, u);
      assert ([n] + path)[1..] == path;
      NoCycles(g, u, [n] + path);
    }
  }

  lemma ReachedIsNode(g: Graph, bs: Node, n: Node)
    requires Acyclic(g) && bs in g.parents && Reaches(g, bs, n)
    ensures n in g.parents
  {
    var rank :| Ranked(g, rank);
    var path :| Leads(g, bs, path, n);
    PathsGoDown(g, rank, bs, path, n);
  }

  lemma ListUnderOne(g: Graph, list: seq<Node>, bs: Node)
    requires Acyclic(g) && bs in g.parents && TopoSorted(g, list) && bs in list
    requires forall n :: n in list ==> Reaches(g, bs, n)
    ensures Listed(list) == Under(g, {bs}) && forall n :: n in list ==> n in g.parents
  {
    forall n | n in list
      ensures n in g.parents && IsUnder(g, {bs}, n)
    {
      ReachedIsNode(g, bs, n);
    }
    ListIsUnder(g, list, {bs});
  }

  lemma ListUnderTwo(g: Graph, first: seq<Node>, list: seq<Node>, from: Node, to: Node)
    requires Acyclic(g) && from in g.parents && to in g.parents && TopoSorted(g, list) && from in list && to in list
    requires forall n :: n in first ==> Reaches(g, from, n)
    requires forall n :: n in list && n !in first ==> Reaches(g, to, n)
    ensures Listed(list) == Under(g, {from, to}) && forall n :: n in list ==> n in g.parents
  {
    forall n | n in list
      ensures n in g.parents && IsUnder(g, {from, to}, n)
    {
      ReachedIsNode(g, if n in first then from else to, n);
    }
    ListIsUnder(g, list, {from, to});
  }

  /** The edge is the same, except perhaps for its permissions. */
  predicate SameLink(g: Graph, h: Graph, x: Edge) {
    && x in g.edges && x in h.edges
    && h.edges[x] == g.edges[x].(perm := h.edges[x].perm, shared := h.edges[x].shared)
  }

  /** One new edge; the others are the same, except perhaps for their permissions. */
  ghost predicate Linked(g: Graph, h: Graph, e: Edge, child: Node, parent: Parent, role: Role) {
    && e !in g.edges && h.edges.Keys == g.edges.Keys + {e}
    && h.edges[e] == Child(Some(child), parent, role, h.edges[e].perm, h.edges[e].shared, false)
    && forall x {:trigger SameLink(g, h, x)} :: x in g.edges ==> SameLink(g, h, x)
  }

  lemma LinksAfter(d: Drivers, g: Graph, h: Graph, k: Graph, e: Edge, roots: set<Node>, root: Node)
    requires e !in g.edges && e in h.edges && h.edges == g.edges[e := h.edges[e]] && h.edges[e].bs.Some?
    requires !h.edges[e].frozen && Consistent(h) && Acyclic(h) && Solves(d, h, k, Under(h, roots))
    requires root in roots && root in h.parents
    ensures Linked(g, k, e, h.edges[e].bs.value, h.edges[e].parent, h.edges[e].role)
    ensures !h.edges[e].parent.OfNode? ==> k.edges[e] == h.edges[e]
    ensures RightBelow(d, k, root)
  {
    SolvedBelow(d, h, k, roots, root);
  }

  // --------------------------------------------------------------------------
  // Which edges a replacement moves

  predicate Uses(g: Graph, e: Edge, n: Node) { e in g.edges && g.edges[e].bs == Some(n) }

  /** The edge may be redirected to `to`: it is no job's, and no cycle closes. */
  ghost predicate Movable(g: Graph, e: Edge, to: Node) {
    e in g.edges && !g.edges[e].parent.OfJob? && !InSubtree(g, e, to)
  }

  ghost predicate Proceeds(g: Graph, e: Edge, to: Node, autoSkip: bool) {
    e in g.edges && if Movable(g, e, to) then !g.edges[e].frozen else autoSkip
  }

  /** A movable edge of `from`, if it is among es, points to `to` now; any other is unchanged. */
  ghost predicate MovedAt(g: Graph, h: Graph, from: Node, to: Node, es: set<Edge>, e: Edge)
    requires e in g.edges && e in h.edges
  {
    if e in es && g.edges[e].bs == Some(from) && Movable(g, e, to)
    then h.edges[e] == g.edges[e].(bs := Some(to))
    else h.edges[e] == g.edges[e]
  }

  ghost predicate Moved(g: Graph, h: Graph, from: Node, to: Node, es: set<Edge>) {
    && h.edges.Keys == g.edges.Keys
    && forall e {:trigger MovedAt(g, h, from, to, es, e)} :: e in g.edges ==> MovedAt(g, h, from, to, es, e)
  }

  function Among(es: seq<Edge>): set<Edge> { set e | e in es }

  /** `to` reaches the same nodes in both graphs. */
  ghost predicate SameBelow(g: Graph, h: Graph, to: Node) {
    forall n {:trigger Reaches(h, to, n)} :: Reaches(g, to, n) <==> Reaches(h, to, n)
  }

  /** The loop of bdrv_replace_node_noperm has dealt with the first i edges. */
  ghost predicate Replacing(g0: Graph, g: Graph, from: Node, to: Node, autoSkip: bool, es: seq<Edge>, i: nat) {
    && i <= |es| && NoDup(es) && (forall e :: e in es <==> Uses(g0, e, from))
    && Moved(g0, g, from, to, Among(es[..i])) && SameBelow(g0, g, to)
    && forall j {:trigger Proceeds(g0, es[j], to, autoSkip)} :: 0 <= j < i ==> Proceeds(g0, es[j], to, autoSkip)
  }

  lemma ReplacingStarts(g: Graph, from: Node, to: Node, autoSkip: bool)
    requires Consistent(g) && from in g.parents
    ensures Replacing(g, g, from, to, autoSkip, g.parents[from], 0)
  {
    assert ParentsOk(g, from);
    forall e: Edge | Uses(g, e, from)
      ensures e in g.parents[from]
    {
      assert EdgeOk(g, e);
    }
  }

  lemma ReplacingNext(g0: Graph, g: Graph, from: Node, to: Node, autoSkip: bool, es: seq<Edge>, i: nat)
    requires Replacing(g0, g, from, to, autoSkip, es, i) && i < |es|
    ensures es[i] in g0.edges && es[i] in g.edges && g.edges[es[i]] == g0.edges[es[i]]
    ensures g0.edges[es[i]].bs == Some(from)
    ensures Movable(g0, es[i], to) <==> Movable(g, es[i], to)
  {
    assert es[i] in es;
    assert MovedAt(g0, g, from, to, Among(es[..i]), es[i]);
    if g0.edges[es[i]].parent.OfNode? {
      assert Reaches(g, to, g0.edges[es[i]].parent.node) <==> Reaches(g0, to, g0.edges[es[i]].parent.node);
    }
  }

  lemma ReplacingSkips(g0: Graph, g: Graph, from: Node, to: Node, autoSkip: bool, es: seq<Edge>, i: nat)
    requires Replacing(g0, g, from, to, autoSkip, es, i) && i < |es| && autoSkip && !Movable(g, es[i], to)
    ensures Replacing(g0, g, from, to, autoSkip, es, i + 1)
  {
    ReplacingNext(g0, g, from, to, autoSkip, es, i);
    assert es[..i + 1] == es[..i] + [es[i]];
    forall e | e in g0.edges
      ensures MovedAt(g0, g, from, to, Among(es[..i + 1]), e)
    {
      assert MovedAt(g0, g, from, to, Among(es[..i]), e);
    }
  }

  lemma ReplacingMoves(g0: Graph, g: Graph, h: Graph, from: Node, to: Node, autoSkip: bool, es: seq<Edge>, i: nat)
    requires Replacing(g0, g, from, to, autoSkip, es, i) && i < |es| && Movable(g, es[i], to) && !g.edges[es[i]].frozen
    requires h.edges == g.edges[es[i] := g.edges[es[i]].(bs := Some(to))]
    ensures Replacing(g0, h, from, to, autoSkip, es, i + 1)
  {
    ReplacingNext(g0, g, from, to, autoSkip, es, i);
    assert es[..i + 1] == es[..i] + [es[i]];
    forall e | e in g0.edges
      ensures MovedAt(g0, h, from, to, Among(es[..i + 1]), e)
    {
      assert MovedAt(g0, g, from, to, Among(es[..i]), e);
    }
    MovingKeepsBelow(g, h, es[i], to);
    forall n: Node
      ensures Reaches(g0, to, n) <==> Reaches(h, to, n)
    {
      assert Reaches(g, to, n) <==> Reaches(h, to, n);
    }
  }

  lemma ReplacingEnds(g0: Graph, g: Graph, from: Node, to: Node, autoSkip: bool, es: seq<Edge>)
    requires Replacing(g0, g, from, to, autoSkip, es, |es|)
    ensures Moved(g0, g, from, to, g0.edges.Keys)
    ensures forall e :: Uses(g0, e, from) ==> Proceeds(g0, e, to, autoSkip)
  {
    assert es[..|es|] == es;
    forall e | e in g0.edges
      ensures MovedAt(g0, g, from, to, g0.edges.Keys, e)
    {
      assert MovedAt(g0, g, from, to, Among(es[..|es|]), e);
    }
    forall e: Edge | Uses(g0, e, from)
      ensures Proceeds(g0, e, to, autoSkip)
    {
      var j :| 0 <= j < |es| && es[j] == e;
      assert Proceeds(g0, es[j], to, autoSkip);
    }
  }

  /** Apart from its permissions, the edge is what the replacement makes of it. */
  ghost predicate MovedLink(g: Graph, h: Graph, from: Node, to: Node, e: Edge) {
    && e in g.edges && e in h.edges
    && var bs := if Uses(g, e, from) && Movable(g, e, to) then Some(to) else g.edges[e].bs;
       h.edges[e] == g.edges[e].(bs := bs, perm := h.edges[e].perm, shared := h.edges[e].shared)
  }

  ghost predicate LinksFollow(g: Graph, h: Graph, from: Node, to: Node) {
    forall e {:trigger MovedLink(g, h, from, to, e)} :: e in g.edges ==> MovedLink(g, h, from, to, e)
  }

  /**
   * A user of `from` that is a job, or a node below `to`, stays and is one that
   * may be skipped; every other user is not frozen and has become a user of `to`.
   */
  ghost predicate UsersMoved(g: Graph, h: Graph, from: Node, to: Node, autoSkip: bool) {
    forall e :: e in g.edges && g.edges[e].bs == Some(from) ==>
      && e in h.edges
      && if g.edges[e].parent.OfJob? || (g.edges[e].parent.OfNode? && Reaches(g, to, g.edges[e].parent.node))
         then autoSkip && h.edges[e].bs == Some(from)
         else !g.edges[e].frozen && h.edges[e].bs == Some(to)
  }

  lemma UsersHaveMoved(g: Graph, h: Graph, from: Node, to: Node, autoSkip: bool)
    requires LinksFollow(g, h, from, to) && forall e :: Uses(g, e, from) ==> Proceeds(g, e, to, autoSkip)
    ensures UsersMoved(g, h, from, to, autoSkip)
  {
    forall e | e in g.edges && g.edges[e].bs == Some(from)
      ensures MovedLink(g, h, from, to, e) && Proceeds(g, e, to, autoSkip)
    {
      assert MovedLink(g, h, from, to, e) && Uses(g, e, from);
    }
  }

  lemma MovedIsMovedEdges(g: Graph, h: Graph, from: Node, to: Node)
    requires Moved(g, h, from, to, g.edges.Keys)
    ensures h.edges == MovedEdges(g, from, to)
  {
    forall e | e in g.edges
      ensures h.edges[e] == MovedEdges(g, from, to)[e]
    {
      assert MovedAt(g, h, from, to, g.edges.Keys, e);
    }
  }

  lemma LinksMoved(d: Drivers, g: Graph, h: Graph, k: Graph, from: Node, to: Node)
    requires Moved(g, h, from, to, g.edges.Keys) && Consistent(h) && Acyclic(h) && from in h.parents && to in h.parents
    requires Solves(d, h, k, Under(h, {from, to}))
    ensures k.edges.Keys == g.edges.Keys && LinksFollow(g, k, from, to)
    ensures RightBelow(d, k, from) && RightBelow(d, k, to)
  {
    SolvedBelow(d, h, k, {from, to}, from);
    SolvedBelow(d, h, k, {from, to}, to);
    forall e | e in g.edges
      ensures MovedLink(g, k, from, to, e)
    {
      assert MovedAt(g, h, from, to, g.edges.Keys, e);
    }
  }

  /** e is the one new edge, from u to v, and others may have moved. */
  ghost predicate NewLink(g: Graph, h: Graph, e: Edge, u: Node, v: Node, role: Role) {
    && e !in g.edges && h.edges.Keys == g.edges.Keys + {e}
    && h.edges[e] == Child(Some(v), OfNode(u), role, h.edges[e].perm, h.edges[e].shared, false)
  }

  lemma {:induction false} LeadsBefore(g: Graph, h: Graph, e: Edge, c: Child, u: Node, path: seq<Node>, p: Node)
    requires e !in g.edges && h.edges == g.edges[e := c] && c.bs.Some?
    requires Acyclic(h) && Points(h, p, c.bs.value) && Leads(h, u, path, p)
    ensures Leads(g, u, path, p)
    decreases path
  {
    if path != [] {
      var f :| f in h.edges && h.edges[f].parent == OfNode(u) && h.edges[f].bs == Some(path[0]);
      if f == e {
        var top := c.bs.value;
        var cycle := [top] + path[1..];
        assert cycle[1..] == path[1..];
        assert Leads(h, p, cycle, p);
        NoCycles(h, p, cycle);
      } else {
        assert g.edges[f].parent == OfNode(u) && g.edges[f].bs == Some(path[0]);
        LeadsBefore(g, h, e, c, path[0], path[1..], p);
      }
    }
  }

  lemma {:induction false} LeadsAfter(g: Graph, h: Graph, u: Node, path: seq<Node>, v: Node)
    requires (forall e :: e in g.edges ==> e in h.edges && h.edges[e] == g.edges[e]) && Leads(g, u, path, v)
    ensures Leads(h, u, path, v)
    decreases path
  {
    if path != [] {
      var e :| e in g.edges && g.edges[e].parent == OfNode(u) && g.edges[e].bs == Some(path[0]);
      assert h.edges[e].parent == OfNode(u) && h.edges[e].bs == Some(path[0]);
      LeadsAfter(g, h, path[0], path[1..], v);
    }
  }

  /** A new edge to `top` does not change which users of `top` may move to its parent. */
  lemma MovableBefore(g: Graph, h: Graph, e: Edge, c: Child, to: Node, x: Edge)
    requires e !in g.edges && h.edges == g.edges[e := c] && Acyclic(h)
    requires x in g.edges && c.bs.Some? && g.edges[x].bs == c.bs
    ensures Movable(g, x, to) <==> Movable(h, x, to)
  {
    if g.edges[x].parent.OfNode? {
      var p := g.edges[x].parent.node;
      assert h.edges[x].parent == OfNode(p) && h.edges[x].bs == Some(c.bs.value);
      forall path | Leads(h, to, path, p)
        ensures Reaches(g, to, p)
      {
        LeadsBefore(g, h, e, c, to, path, p);
      }
      forall path | Leads(g, to, path, p)
        ensures Reaches(h, to, p)
      {
        LeadsAfter(g, h, to, path, p);
      }
    }
  }

  /** The new edge does not move, and whether the others may go on is as it was without it. */
  lemma AppendProceeds(g: Graph, h: Graph, e: Edge, bsNew: Node, top: Node)
    requires e !in g.edges && e in h.edges && h.edges == g.edges[e := h.edges[e]] && Acyclic(h)
    requires h.edges[e].bs == Some(top) && h.edges[e].parent == OfNode(bsNew)
    ensures (forall x :: Uses(h, x, top) ==> Proceeds(h, x, bsNew, true)) <==>
            (forall x :: Uses(g, x, top) ==> Proceeds(g, x, bsNew, true))
    ensures !Movable(h, e, bsNew)
    ensures forall x :: Uses(g, x, top) ==> (Movable(g, x, bsNew) <==> Movable(h, x, bsNew))
  {
    ReachesSelf(h, bsNew);
    forall x: Edge | Uses(g, x, top)
      ensures Movable(g, x, bsNew) <==> Movable(h, x, bsNew)
    {
      MovableBefore(g, h, e, h.edges[e], bsNew, x);
    }
    assert Proceeds(h, e, bsNew, true);
    forall x: Edge
      ensures (Uses(h, x, top) ==> Proceeds(h, x, bsNew, true)) <==>
              (Uses(g, x, top) ==> Proceeds(g, x, bsNew, true))
    {
      if x != e { assert x in g.edges <==> x in h.edges; }
    }
  }

  lemma AppendedEdges(g: Graph, h: Graph, k: Graph, e: Edge, bsNew: Node, top: Node)
    requires e !in g.edges && e in h.edges && h.edges == g.edges[e := h.edges[e]] && Acyclic(h)
    requires h.edges[e].bs == Some(top) && h.edges[e].parent == OfNode(bsNew)
    requires Moved(h, k, top, bsNew, h.edges.Keys)
    ensures k.edges == MovedEdges(g, top, bsNew)[e := h.edges[e]]
  {
    MovedIsMovedEdges(h, k, top, bsNew);
    AppendProceeds(g, h, e, bsNew, top);
    forall x | x in h.edges
      ensures k.edges[x] == MovedEdges(g, top, bsNew)[e := h.edges[e]][x]
    {
      assert x != e ==> (Uses(g, x, top) <==> Uses(h, x, top));
    }
  }

  lemma LinksAppended(d: Drivers, g: Graph, h: Graph, k: Graph, l: Graph, e: Edge, bsNew: Node, top: Node, role: Role)
    requires e !in g.edges && e in h.edges && h.edges == g.edges[e := h.edges[e]] && Acyclic(h)
    requires h.edges[e] == Child(Some(top), OfNode(bsNew), role, h.edges[e].perm, h.edges[e].shared, false)
    requires Moved(h, k, top, bsNew, h.edges.Keys) && Consistent(k) && Acyclic(k) && bsNew in k.parents
    requires Solves(d, k, l, Under(k, {bsNew}))
    ensures NewLink(g, l, e, bsNew, top, role) && LinksFollow(g, l, top, bsNew)
    ensures RightBelow(d, l, bsNew)
  {
    AppendedEdges(g, h, k, e, bsNew, top);
    forall x | x in g.edges
      ensures MovedLink(g, l, top, bsNew, x)
    {
      assert k.edges[x] == MovedEdges(g, top, bsNew)[x];
    }
    SolvedBelow(d, k, l, {bsNew}, bsNew);
  }

  lemma {:induction false} LeadsAround(g: Graph, h: Graph, c: Edge, u: Node, path: seq<Node>, v: Node)
    requires c in g.edges && c in h.edges
    requires forall e :: e in g.edges && e != c ==> e in h.edges && h.edges[e] == g.edges[e]
    requires g.edges[c].parent.OfNode? ==> !Reaches(g, u, g.edges[c].parent.node)
    requires Leads(g, u, path, v)
    ensures Leads(h, u, path, v)
    decreases path
  {
    if path != [] {
      var e :| e in g.edges && g.edges[e].parent == OfNode(u) && g.edges[e].bs == Some(path[0]);
      ReachesSelf(g, u);
      assert h.edges[e].parent == OfNode(u) && h.edges[e].bs == Some(path[0]);
      if g.edges[c].parent.OfNode? && Reaches(g, path[0], g.edges[c].parent.node) {
        ReachesStep(g, u, path[0], g.edges[c].parent.node);
      }
      LeadsAround(g, h, c, path[0], path[1..], v);
    }
  }

  /** Redirecting an edge that hangs off no node below `to` changes nothing below `to`. */
  lemma MovingKeepsBelow(g: Graph, h: Graph, c: Edge, to: Node)
    requires c in g.edges && h.edges == g.edges[c := g.edges[c].(bs := Some(to))]
    requires g.edges[c].parent.OfNode? ==> !Reaches(g, to, g.edges[c].parent.node)
    ensures SameBelow(g, h, to)
  {
    forall n, path | Leads(g, to, path, n)
      ensures Reaches(h, to, n)
    {
      LeadsAround(g, h, c, to, path, n);
    }
    if g.edges[c].parent.OfNode? {
      forall path | Leads(h, to, path, g.edges[c].parent.node)
        ensures false
      {
        StaysAround(g, h, c, to, path);
      }
    }
    forall n, path | Leads(h, to, path, n)
      ensures Reaches(g, to, n)
    {
      LeadsAround(h, g, c, to, path, n);
    }
  }

  /** A path of h from outside the reach of c's node does not come to c's node either. */
  lemma {:induction false} StaysAround(g: Graph, h: Graph, c: Edge, u: Node, path: seq<Node>)
    requires c in g.edges && c in h.edges && g.edges[c].parent.OfNode? && h.edges[c].parent == g.edges[c].parent
    requires forall e :: e in h.edges && e != c ==> e in g.edges && h.edges[e] == g.edges[e]
    requires !Reaches(g, u, g.edges[c].parent.node)
    ensures !Leads(h, u, path, g.edges[c].parent.node)
    decreases path
  {
    ReachesSelf(g, u);
    if path != [] && Points(h, u, path[0]) {
      var e :| e in h.edges && h.edges[e].parent == OfNode(u) && h.edges[e].bs == Some(path[0]);
      assert g.edges[e].parent == OfNode(u) && g.edges[e].bs == Some(path[0]);
      if Reaches(g, path[0], g.edges[c].parent.node) {
        ReachesStep(g, u, path[0], g.edges[c].parent.node);
      }
      StaysAround(g, h, c, path[0], path[1..]);
    }
  }

  /** An identity for a new edge: the least that is free. */
  function FreshEdge(g: Graph): (e: Edge)
    ensures e !in g.edges
  {
    FreshFrom(g, 0)
  }

  function FreshFrom(g: Graph, e: Edge): (r: Edge)
    ensures r !in g.edges
    decreases TakenFrom(g, e)
  {
    if e !in g.edges then e
    else
      assert e in TakenFrom(g, e) && e !in TakenFrom(g, e + 1);
      FreshFrom(g, e + 1)
  }

  function TakenFrom(g: Graph, e: Edge): set<Edge> { set x | x in g.edges && x >= e }

  lemma AttachKeepsAcyclic(g: Graph, e: Edge, c: Child, n: Node)
    requires Consistent(g) && Acyclic(g) && e !in g.edges && c.bs.None? && EndsOk(g, c) && n in g.parents
    requires c.parent.OfNode? ==> !Reaches(g, n, c.parent.node)
    ensures Acyclic(AttachNew(g, e, c, n))
  {
    var h := AttachNew(g, e, c, n);
    NewEdgeKeeps(g, e, c);
    ReplaceChildKeeps(NewEdge(g, e, c), e, Some(n));
    forall x: Node, y: Node | Points(h, x, y)
      ensures Points(g, x, y) || (c.parent == OfNode(x) && y == n)
    {
      var f :| f in h.edges && h.edges[f].parent == OfNode(x) && h.edges[f].bs == Some(y);
      if f != e { assert g.edges[f].parent == OfNode(x) && g.edges[f].bs == Some(y); }
    }
    if c.parent.OfNode? { AddingEdge(g, h, c.parent.node, n); } else { RemovingEdges(g, h); }
  }
}
