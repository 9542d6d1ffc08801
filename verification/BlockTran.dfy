/**
 * Graph transactions of block.c: the records that undo each change, and the
 * references that are parked in them.
 */
module BlockTran {
  import opened BlockGraph
  import opened Common

  /** One record of a Transaction, with what its abort and commit callbacks need. */
  datatype Action =
    | SetPerm(edge: Edge, perm: Perms, shared: Perms)  // bdrv_child_set_perm: the old permissions
    | DrvSetPerm(node: Node)                           // bdrv_drv_set_perm
    | Replaced(edge: Edge, bs: Option<Node>)           // bdrv_replace_child_tran: the old target
    | Attached(edge: Edge)                             // bdrv_attach_child_common

  // --------------------------------------------------------------------------
  // Undoing

  /** What the abort callback does to the edges. */
  function UndoEdges(edges: map<Edge, Child>, a: Action): map<Edge, Child> {
    match a
    case SetPerm(e, perm, shared) => if e in edges then edges[e := edges[e].(perm := perm, shared := shared)] else edges
    case DrvSetPerm(_) => edges
    case Replaced(e, bs) => if e in edges then edges[e := edges[e].(bs := bs)] else edges
    case Attached(e) => edges - {e}
  }

  /** The abort callback finds what it expects. */
  predicate Undoable(nodes: set<Node>, edges: map<Edge, Child>, a: Action) {
    match a
    case SetPerm(e, _, _) => e in edges
    case DrvSetPerm(_) => true
    case Replaced(e, bs) => e in edges && !edges[e].frozen && edges[e].bs != bs && (bs.Some? ==> bs.value in nodes)
    case Attached(e) => e in edges && edges[e].bs.Some?
  }

  /** Aborting the records, the last one first, leads back to `base`. */
  ghost predicate Restorable(nodes: set<Node>, edges: map<Edge, Child>, tran: seq<Action>, base: map<Edge, Child>)
    decreases tran
  {
    if tran == [] then edges == base
    else
      var last := tran[|tran| - 1];
      Undoable(nodes, edges, last) && Restorable(nodes, UndoEdges(edges, last), tran[..|tran| - 1], base)
  }

  lemma RestorablePush(nodes: set<Node>, before: map<Edge, Child>, after: map<Edge, Child>, tran: seq<Action>,
                       base: map<Edge, Child>, a: Action)
    requires Restorable(nodes, before, tran, base) && Undoable(nodes, after, a) && UndoEdges(after, a) == before
    ensures Restorable(nodes, after, tran + [a], base)
  {
    assert (tran + [a])[..|tran|] == tran;
  }

  // --------------------------------------------------------------------------
  // References

  /** References that sit in transaction records: the old targets of replaced edges. */
  function Parked(tran: seq<Action>, n: Node): nat {
    if tran == [] then 0
    else Parked(tran[..|tran| - 1], n) + Holding(tran[|tran| - 1], n)
  }

  function Holding(a: Action, n: Node): nat {
    if a.Replaced? && a.bs == Some(n) then 1 else 0
  }

  lemma ParkedPush(tran: seq<Action>, a: Action, n: Node)
    ensures Parked(tran + [a], n) == Parked(tran, n) + Holding(a, n)
  {
    assert (tran + [a])[..|tran|] == tran;
  }

  /**
   * Every reference is accounted for: by an edge, by a holder outside the
   * graph, by a transaction record, or by an unref that is still scheduled.
   */
  ghost predicate Accounted(g: Graph, refcnt: map<Node, int>, external: multiset<Node>, tran: seq<Action>,
                            scheduled: multiset<Node>)
  {
    && refcnt.Keys == g.parents.Keys
    && forall n {:trigger AccountedAt(g, refcnt, external, tran, scheduled, n)} ::
         n in g.parents ==> AccountedAt(g, refcnt, external, tran, scheduled, n)
  }

  predicate AccountedAt(g: Graph, refcnt: map<Node, int>, external: multiset<Node>, tran: seq<Action>,
                        scheduled: multiset<Node>, n: Node)
    requires n in g.parents && n in refcnt
  {
    refcnt[n] == |g.parents[n]| + external[n] + Parked(tran, n) + scheduled[n]
  }

  function Is(bs: Option<Node>, n: Node): nat { if bs == Some(n) then 1 else 0 }

  /** Redirecting an edge moves one entry between the parents lists. */
  lemma ReplaceCounts(g: Graph, e: Edge, bs: Option<Node>, n: Node)
    requires Consistent(g) && e in g.edges && (bs.Some? ==> bs.value in g.parents) && n in g.parents
    ensures n in ReplaceChild(g, e, bs).parents
    ensures |ReplaceChild(g, e, bs).parents[n]| == |g.parents[n]| - Is(g.edges[e].bs, n) + Is(bs, n)
  {
    assert EdgeOk(g, e) && ParentsOk(g, n);
    if g.edges[e].bs.Some? {
      UnlinkRemoves(g.parents[n], e);
    }
  }

  // --------------------------------------------------------------------------
  // Changes of the graph

  lemma WithPermKeeps(g: Graph, e: Edge, perm: Perms, shared: Perms)
    requires Consistent(g) && e in g.edges
    ensures Consistent(WithPerm(g, e, perm, shared))
    ensures forall u, v :: Points(WithPerm(g, e, perm, shared), u, v) ==> Points(g, u, v)
  {
    var h := WithPerm(g, e, perm, shared);
    forall n | n in g.parents
      ensures ParentsOk(h, n) && ChildrenOk(h, n)
    {
      assert ParentsOk(g, n) && ChildrenOk(g, n);
    }
    forall x | x in h.edges
      ensures EdgeOk(h, x)
    {
      assert EdgeOk(g, x);
    }
    forall u: Node, v: Node | Points(h, u, v)
      ensures Points(g, u, v)
    {
      var x :| x in h.edges && h.edges[x].parent == OfNode(u) && h.edges[x].bs == Some(v);
      assert g.edges[x].parent == OfNode(u) && g.edges[x].bs == Some(v);
    }
  }

  /** A new edge that is not linked anywhere. */
  function NewEdge(g: Graph, e: Edge, c: Child): Graph {
    g.(edges := g.edges[e := c])
  }

  lemma NewEdgeKeeps(g: Graph, e: Edge, c: Child)
    requires Consistent(g) && e !in g.edges && c.bs.None? && EndsOk(g, c)
    ensures Consistent(NewEdge(g, e, c))
  {
    var h := NewEdge(g, e, c);
    forall n | n in g.parents
      ensures ParentsOk(h, n) && ChildrenOk(h, n)
    {
      assert ParentsOk(g, n) && ChildrenOk(g, n);
    }
    forall x | x in h.edges
      ensures EdgeOk(h, x)
    {
      if x != e { assert EdgeOk(g, x); }
    }
  }

  /** bdrv_child_free of an unlinked edge. */
  function FreeEdge(g: Graph, e: Edge): Graph {
    g.(edges := g.edges - {e})
  }

  lemma FreeEdgeKeeps(g: Graph, e: Edge)
    requires Consistent(g) && e in g.edges && g.edges[e].bs.None?
    ensures Consistent(FreeEdge(g, e))
  {
    var h := FreeEdge(g, e);
    forall n | n in g.parents
      ensures ParentsOk(h, n) && ChildrenOk(h, n)
    {
      assert ParentsOk(g, n) && ChildrenOk(g, n);
    }
    forall x | x in h.edges
      ensures EdgeOk(h, x)
    {
      assert EdgeOk(g, x);
    }
  }

  /** What the abort callback does to the graph. */
  function Undo(g: Graph, a: Action): Graph
    requires Consistent(g) && Undoable(g.parents.Keys, g.edges, a)
  {
    match a
    case SetPerm(e, perm, shared) => WithPerm(g, e, perm, shared)
    case DrvSetPerm(_) => g
    case Replaced(e, bs) => ReplaceChild(g, e, bs)
    case Attached(e) => FreeEdge(ReplaceChild(g, e, None), e)
  }

  lemma UndoKeeps(g: Graph, a: Action)
    requires Consistent(g) && Undoable(g.parents.Keys, g.edges, a)
    ensures Consistent(Undo(g, a)) && Undo(g, a).parents.Keys == g.parents.Keys
    ensures Undo(g, a).edges == UndoEdges(g.edges, a)
  {
    match a
    case SetPerm(e, perm, shared) => WithPermKeeps(g, e, perm, shared);
    case DrvSetPerm(_) =>
    case Replaced(e, bs) => ReplaceChildKeeps(g, e, bs);
    case Attached(e) =>
      ReplaceChildKeeps(g, e, None);
      FreeEdgeKeeps(ReplaceChild(g, e, None), e);
      assert g.edges[e := g.edges[e].(bs := None)] - {e} == g.edges - {e};
  }

  /** References after the abort callback: the current target of a replaced edge is released. */
  function UndoRefs(g: Graph, refcnt: map<Node, int>, a: Action): map<Node, int> {
    if a.Replaced? && a.edge in g.edges && g.edges[a.edge].bs.Some? && g.edges[a.edge].bs.value in refcnt
    then refcnt[g.edges[a.edge].bs.value := refcnt[g.edges[a.edge].bs.value] - 1]
    else refcnt
  }

  /** Unrefs scheduled by the abort callback: the target of an edge that is taken back. */
  function UndoSchedule(g: Graph, scheduled: multiset<Node>, a: Action): multiset<Node> {
    if a.Attached? && a.edge in g.edges && g.edges[a.edge].bs.Some?
    then scheduled + multiset{g.edges[a.edge].bs.value}
    else scheduled
  }

  lemma UndoAccountsAt(g: Graph, refcnt: map<Node, int>, a: Action, scheduled: multiset<Node>, n: Node)
    requires Consistent(g) && Undoable(g.parents.Keys, g.edges, a) && refcnt.Keys == g.parents.Keys && n in g.parents
    ensures n in Undo(g, a).parents
    ensures UndoRefs(g, refcnt, a)[n] - |Undo(g, a).parents[n]| - UndoSchedule(g, scheduled, a)[n]
         == refcnt[n] - |g.parents[n]| - scheduled[n] - Holding(a, n)
  {
    match a
    case SetPerm(_, _, _) =>
    case DrvSetPerm(_) =>
    case Replaced(e, bs) =>
      assert EdgeOk(g, e);
      ReplaceCounts(g, e, bs, n);
    case Attached(e) => ReplaceCounts(g, e, None, n);
  }

  lemma UndoAccounts(g: Graph, refcnt: map<Node, int>, external: multiset<Node>, tran: seq<Action>, a: Action,
                     scheduled: multiset<Node>)
    requires Consistent(g) && Undoable(g.parents.Keys, g.edges, a)
    requires Accounted(g, refcnt, external, tran + [a], scheduled)
    ensures Accounted(Undo(g, a), UndoRefs(g, refcnt, a), external, tran, UndoSchedule(g, scheduled, a))
  {
    UndoKeeps(g, a);
    if a.Replaced? { assert EdgeOk(g, a.edge); }
    forall n | n in g.parents
      ensures AccountedAt(Undo(g, a), UndoRefs(g, refcnt, a), external, tran, UndoSchedule(g, scheduled, a), n)
    {
      assert AccountedAt(g, refcnt, external, tran + [a], scheduled, n);
      ParkedPush(tran, a, n);
      UndoAccountsAt(g, refcnt, a, scheduled, n);
    }
  }

  /** Redirecting an edge of u to a node that does not reach u keeps the graph acyclic. */
  lemma RedirectKeepsAcyclic(g: Graph, e: Edge, bs: Option<Node>)
    requires Consistent(g) && Acyclic(g) && e in g.edges && (bs.Some? ==> bs.value in g.parents)
    requires bs.Some? && g.edges[e].parent.OfNode? ==> !Reaches(g, bs.value, g.edges[e].parent.node)
    ensures Acyclic(ReplaceChild(g, e, bs))
  {
    var h := ReplaceChild(g, e, bs);
    ReplaceChildKeeps(g, e, bs);
    assert EdgeOk(g, e);
    forall x: Node, y: Node | Points(h, x, y)
      ensures Points(g, x, y) || (bs == Some(y) && g.edges[e].parent == OfNode(x))
    {
      var f :| f in h.edges && h.edges[f].parent == OfNode(x) && h.edges[f].bs == Some(y);
      if f != e { assert g.edges[f].parent == OfNode(x) && g.edges[f].bs == Some(y); }
    }
    if bs.Some? && g.edges[e].parent.OfNode? {
      AddingEdge(g, h, g.edges[e].parent.node, bs.value);
    } else {
      RemovingEdges(g, h);
    }
  }

  lemma SameEdgesAcyclic(g: Graph, h: Graph)
    requires Acyclic(g) && h.edges == g.edges && h.parents.Keys == g.parents.Keys
    ensures Acyclic(h)
  {
    forall x: Node, y: Node | Points(h, x, y)
      ensures Points(g, x, y)
    {
      var f :| f in h.edges && h.edges[f].parent == OfNode(x) && h.edges[f].bs == Some(y);
      assert g.edges[f].parent == OfNode(x) && g.edges[f].bs == Some(y);
    }
    RemovingEdges(g, h);
  }

  // --------------------------------------------------------------------------
  // Transactions

  /** A transaction over these nodes: aborting it leads back to `base`, and references are accounted for. */
  ghost predicate Open(nodes: set<Node>, g: Graph, refcnt: map<Node, int>, external: multiset<Node>,
                       tran: seq<Action>, scheduled: multiset<Node>, base: map<Edge, Child>)
  {
    && Consistent(g) && g.parents.Keys == nodes && Accounted(g, refcnt, external, tran, scheduled)
    && Restorable(nodes, g.edges, tran, base)
  }

  /** The abort callback of the last record. */
  lemma AbortStep(nodes: set<Node>, g: Graph, refcnt: map<Node, int>, external: multiset<Node>,
                  tran: seq<Action>, scheduled: multiset<Node>, base: map<Edge, Child>)
    requires Open(nodes, g, refcnt, external, tran, scheduled, base) && tran != []
    ensures Undoable(nodes, g.edges, tran[|tran| - 1])
    ensures var a := tran[|tran| - 1];
            Open(nodes, Undo(g, a), UndoRefs(g, refcnt, a), external,
                 tran[..|tran| - 1], UndoSchedule(g, scheduled, a), base)
  {
    var a := tran[|tran| - 1];
    assert tran == tran[..|tran| - 1] + [a];
    UndoKeeps(g, a);
    UndoAccounts(g, refcnt, external, tran[..|tran| - 1], a, scheduled);
  }

  /** Unrefs scheduled by the commit callback: the reference in the record. */
  function CommitSchedule(scheduled: multiset<Node>, a: Action): multiset<Node> {
    if a.Replaced? && a.bs.Some? then scheduled + multiset{a.bs.value} else scheduled
  }

  /** The commit callback of the last record. */
  lemma CommitStep(g: Graph, refcnt: map<Node, int>, external: multiset<Node>,
                   tran: seq<Action>, scheduled: multiset<Node>)
    requires Accounted(g, refcnt, external, tran, scheduled) && tran != []
    ensures Accounted(g, refcnt, external, tran[..|tran| - 1], CommitSchedule(scheduled, tran[|tran| - 1]))
  {
    forall n | n in g.parents
      ensures AccountedAt(g, refcnt, external, tran[..|tran| - 1], CommitSchedule(scheduled, tran[|tran| - 1]), n)
    {
      assert AccountedAt(g, refcnt, external, tran, scheduled, n);
    }
  }

  lemma PushKeepsAccounts(g: Graph, refcnt: map<Node, int>, external: multiset<Node>, tran: seq<Action>, a: Action,
                          scheduled: multiset<Node>)
    requires Accounted(g, refcnt, external, tran, scheduled) && !a.Replaced?
    ensures Accounted(g, refcnt, external, tran + [a], scheduled)
  {
    forall n | n in g.parents
      ensures AccountedAt(g, refcnt, external, tran + [a], scheduled, n)
    {
      assert AccountedAt(g, refcnt, external, tran, scheduled, n);
      ParkedPush(tran, a, n);
    }
  }

  function Referenced(refcnt: map<Node, int>, bs: Option<Node>): map<Node, int> {
    if bs.Some? && bs.value in refcnt then refcnt[bs.value := refcnt[bs.value] + 1] else refcnt
  }

  lemma ReplaceAccounts(g: Graph, refcnt: map<Node, int>, external: multiset<Node>, tran: seq<Action>,
                        scheduled: multiset<Node>, e: Edge, bs: Option<Node>)
    requires Consistent(g) && e in g.edges && (bs.Some? ==> bs.value in g.parents)
    requires Accounted(g, refcnt, external, tran, scheduled)
    ensures Accounted(ReplaceChild(g, e, bs), Referenced(refcnt, bs), external,
                      tran + [Replaced(e, g.edges[e].bs)], scheduled)
  {
    var h, a := ReplaceChild(g, e, bs), Replaced(e, g.edges[e].bs);
    ReplaceChildKeeps(g, e, bs);
    forall n | n in h.parents
      ensures AccountedAt(h, Referenced(refcnt, bs), external, tran + [a], scheduled, n)
    {
      assert AccountedAt(g, refcnt, external, tran, scheduled, n);
      ParkedPush(tran, a, n);
      ReplaceCounts(g, e, bs, n);
    }
  }

  lemma ReplaceRestorable(nodes: set<Node>, edges: map<Edge, Child>, tran: seq<Action>, base: map<Edge, Child>,
                          e: Edge, bs: Option<Node>)
    requires Restorable(nodes, edges, tran, base) && e in edges && !edges[e].frozen && edges[e].bs != bs
    requires edges[e].bs.Some? ==> edges[e].bs.value in nodes
    ensures Restorable(nodes, edges[e := edges[e].(bs := bs)], tran + [Replaced(e, edges[e].bs)], base)
  {
    var after, a := edges[e := edges[e].(bs := bs)], Replaced(e, edges[e].bs);
    UpdateTwice(edges, e, edges[e].(bs := bs), edges[e]);
    assert UndoEdges(after, a) == edges;
    RestorablePush(nodes, edges, after, tran, base, a);
  }

  lemma AttachRestorable(nodes: set<Node>, edges: map<Edge, Child>, tran: seq<Action>, base: map<Edge, Child>,
                         e: Edge, c: Child)
    requires Restorable(nodes, edges, tran, base) && e !in edges && c.bs.Some?
    ensures Restorable(nodes, edges[e := c], tran + [Attached(e)], base)
  {
    assert UndoEdges(edges[e := c], Attached(e)) == edges;
    RestorablePush(nodes, edges, edges[e := c], tran, base, Attached(e));
  }

  /** bdrv_replace_child_tran */
  lemma ReplaceStep(nodes: set<Node>, g: Graph, refcnt: map<Node, int>, external: multiset<Node>,
                    tran: seq<Action>, scheduled: multiset<Node>, base: map<Edge, Child>, e: Edge, bs: Option<Node>)
    requires Open(nodes, g, refcnt, external, tran, scheduled, base)
    requires e in g.edges && !g.edges[e].frozen && g.edges[e].bs != bs && (bs.Some? ==> bs.value in nodes)
    ensures ReplaceChild(g, e, bs).edges == g.edges[e := g.edges[e].(bs := bs)]
    ensures Open(nodes, ReplaceChild(g, e, bs), Referenced(refcnt, bs), external, tran + [Replaced(e, g.edges[e].bs)],
                 scheduled, base)
  {
    ReplaceChildKeeps(g, e, bs);
    ReplaceAccounts(g, refcnt, external, tran, scheduled, e, bs);
    assert EdgeOk(g, e);
    ReplaceRestorable(nodes, g.edges, tran, base, e, bs);
  }

  /** bdrv_child_set_perm */
  lemma SetPermStep(nodes: set<Node>, g: Graph, refcnt: map<Node, int>, external: multiset<Node>,
                    tran: seq<Action>, scheduled: multiset<Node>, base: map<Edge, Child>,
                    e: Edge, perm: Perms, shared: Perms)
    requires Open(nodes, g, refcnt, external, tran, scheduled, base) && e in g.edges
    ensures Open(nodes, WithPerm(g, e, perm, shared), refcnt, external,
                 tran + [SetPerm(e, g.edges[e].perm, g.edges[e].shared)], scheduled, base)
  {
    var h, a := WithPerm(g, e, perm, shared), SetPerm(e, g.edges[e].perm, g.edges[e].shared);
    WithPermKeeps(g, e, perm, shared);
    UpdateTwice(g.edges, e, g.edges[e].(perm := perm, shared := shared), g.edges[e]);
    assert UndoEdges(h.edges, a) == g.edges;
    RestorablePush(nodes, g.edges, h.edges, tran, base, a);
    PushKeepsAccounts(g, refcnt, external, tran, a, scheduled);
    forall n | n in h.parents
      ensures AccountedAt(h, refcnt, external, tran + [a], scheduled, n)
    {
      assert AccountedAt(g, refcnt, external, tran + [a], scheduled, n);
    }
  }

  /** bdrv_attach_child_common: a new edge e with target n. */
  function AttachNew(g: Graph, e: Edge, c: Child, n: Node): Graph
    requires Consistent(g) && e !in g.edges && c.bs.None? && EndsOk(g, c) && n in g.parents
  {
    NewEdgeKeeps(g, e, c);
    ReplaceChild(NewEdge(g, e, c), e, Some(n))
  }

  lemma AttachCounts(g: Graph, e: Edge, c: Child, n: Node, x: Node)
    requires Consistent(g) && e !in g.edges && c.bs.None? && EndsOk(g, c) && n in g.parents && x in g.parents
    ensures AttachNew(g, e, c, n).parents.Keys == g.parents.Keys
    ensures |AttachNew(g, e, c, n).parents[x]| == |g.parents[x]| + Is(Some(n), x)
  {
    NewEdgeKeeps(g, e, c);
    ReplaceChildKeeps(NewEdge(g, e, c), e, Some(n));
    ReplaceCounts(NewEdge(g, e, c), e, Some(n), x);
  }

  lemma AttachAccounts(g: Graph, refcnt: map<Node, int>, external: multiset<Node>, tran: seq<Action>,
                       scheduled: multiset<Node>, e: Edge, c: Child, n: Node)
    requires Consistent(g) && e !in g.edges && c.bs.None? && EndsOk(g, c) && n in g.parents
    requires Accounted(g, refcnt, external, tran, scheduled)
    ensures Accounted(AttachNew(g, e, c, n), Referenced(refcnt, Some(n)), external, tran, scheduled)
  {
    AttachCounts(g, e, c, n, n);
    forall x | x in g.parents
      ensures AccountedAt(AttachNew(g, e, c, n), Referenced(refcnt, Some(n)), external, tran, scheduled, x)
    {
      assert AccountedAt(g, refcnt, external, tran, scheduled, x);
      AttachCounts(g, e, c, n, x);
    }
  }

  lemma AttachStep(nodes: set<Node>, g: Graph, refcnt: map<Node, int>, external: multiset<Node>,
                   tran: seq<Action>, scheduled: multiset<Node>, base: map<Edge, Child>, e: Edge, c: Child, n: Node)
    requires Open(nodes, g, refcnt, external, tran, scheduled, base)
    requires e !in g.edges && c.bs.None? && EndsOk(g, c) && n in nodes
    ensures AttachNew(g, e, c, n).edges == g.edges[e := c.(bs := Some(n))]
    ensures Open(nodes, AttachNew(g, e, c, n), Referenced(refcnt, Some(n)), external,
                 tran + [Attached(e)], scheduled, base)
  {
    NewEdgeKeeps(g, e, c);
    ReplaceChildKeeps(NewEdge(g, e, c), e, Some(n));
    UpdateTwice(g.edges, e, c, c.(bs := Some(n)));
    AttachRestorable(nodes, g.edges, tran, base, e, c.(bs := Some(n)));
    AttachAccounts(g, refcnt, external, tran, scheduled, e, c, n);
    PushKeepsAccounts(AttachNew(g, e, c, n), Referenced(refcnt, Some(n)), external, tran, Attached(e), scheduled);
  }
}
