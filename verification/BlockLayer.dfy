/**
 * The graph operations of block.c: attaching a child, replacing a node,
 * appending a node, and changing permissions, each in one transaction that is
 * either committed or rolled back.
 */
module BlockLayer {
  import opened BlockGraph
  import opened BlockLinks
  import opened BlockPerm
  import opened BlockRefresh
  import opened BlockTran
  import opened Common

  class BlockLayer {
    const d: Drivers
    var g: Graph
    var tran: seq<Action>
    var refcnt: map<Node, int>
    var scheduled: multiset<Node>       // unrefs scheduled for later
    ghost var external: multiset<Node>  // references held outside the graph
    ghost var base: Graph               // the graph when the transaction began

    /** The lists fit the edges, there are no cycles, and every reference is accounted for. */
    ghost predicate Valid()
      reads this
    {
      Consistent(g) && Acyclic(g) && Accounted(g, refcnt, external, tran, scheduled)
    }

    /** Inside a transaction: aborting it leads back to `base`. */
    ghost predicate Since()
      reads this
    {
      && Acyclic(g) && Acyclic(base) && Consistent(base)
      && Open(base.parents.Keys, g, refcnt, external, tran, scheduled, base.edges)
    }

    constructor (d: Drivers, g: Graph, refcnt: map<Node, int>, ghost external: multiset<Node>)
      requires Consistent(g) && Acyclic(g) && Accounted(g, refcnt, external, [], multiset{})
      ensures Valid() && tran == [] && scheduled == multiset{}
      ensures this.d == d && this.g == g && this.refcnt == refcnt && this.external == external
    {
      this.d, this.g, this.refcnt, this.external, this.base := d, g, refcnt, external, g;
      tran, scheduled := [], multiset{};
    }

    /** tran_new */
    ghost method Begin()
      requires Valid() && tran == []
      modifies this`base
      ensures Since() && base == g
    {
      base := g;
    }

    // ------------------------------------------------------------------------
    // Ending a transaction

    /** tran_abort: undo the records, the last one first. */
    method Abort()
      requires Since()
      modifies this`g, this`tran, this`refcnt, this`scheduled
      ensures Valid() && tran == []
      ensures g.edges == base.edges && g.parents.Keys == old(g).parents.Keys
    {
      var h, refs, unrefs := RollBack(g, refcnt, tran, scheduled, external, base);
      SameEdgesAcyclic(base, h);
      g, refcnt, tran, scheduled := h, refs, [], unrefs;
    }

    /** The loop of tran_abort over the records. */
    static method RollBack(g: Graph, refcnt: map<Node, int>, tran: seq<Action>, scheduled: multiset<Node>,
                           ghost external: multiset<Node>, ghost base: Graph)
      returns (h: Graph, refs: map<Node, int>, unrefs: multiset<Node>)
      requires Open(base.parents.Keys, g, refcnt, external, tran, scheduled, base.edges)
      ensures Consistent(h) && h.parents.Keys == base.parents.Keys && h.edges == base.edges
      ensures Accounted(h, refs, external, [], unrefs)
    {
      h, refs, unrefs := g, refcnt, scheduled;
      var todo := tran;
      while todo != []
        invariant Open(base.parents.Keys, h, refs, external, todo, unrefs, base.edges)
        decreases |todo|
      {
        AbortStep(base.parents.Keys, h, refs, external, todo, unrefs, base.edges);
        var a := todo[|todo| - 1];
        h, refs, unrefs := Undo(h, a), UndoRefs(h, refs, a), UndoSchedule(h, unrefs, a);
        todo := todo[..|todo| - 1];
      }
    }

    /** tran_commit: the references in the records become scheduled unrefs. */
    method Commit()
      requires Since()
      modifies this`tran, this`scheduled
      ensures Valid() && tran == []
    {
      while tran != []
        invariant Accounted(g, refcnt, external, tran, scheduled)
        decreases |tran|
      {
        CommitStep(g, refcnt, external, tran, scheduled);
        scheduled := CommitSchedule(scheduled, tran[|tran| - 1]);
        tran := tran[..|tran| - 1];
      }
    }

    /** tran_finalize */
    method Finalize(ok: bool)
      requires Since()
      modifies this`g, this`tran, this`refcnt, this`scheduled
      ensures Valid() && tran == []
      ensures ok ==> g == old(g)
      ensures !ok ==> g.edges == base.edges && g.parents.Keys == old(g).parents.Keys
    {
      if ok { Commit(); } else { Abort(); }
    }

    // ------------------------------------------------------------------------
    // The changes a transaction consists of

    /** bdrv_child_set_perm */
    method ChildSetPerm(e: Edge, perm: Perms, shared: Perms)
      requires Since() && e in g.edges
      modifies this`g, this`tran
      ensures Since() && g == WithPerm(old(g), e, perm, shared)
    {
      SetPermStep(base.parents.Keys, g, refcnt, external, tran, scheduled, base.edges, e, perm, shared);
      WithPermKeeps(g, e, perm, shared);
      RemovingEdges(g, WithPerm(g, e, perm, shared));
      tran := tran + [SetPerm(e, g.edges[e].perm, g.edges[e].shared)];
      g := WithPerm(g, e, perm, shared);
    }

    /** bdrv_replace_child_tran; the reference of the old target moves into the record. */
    method ReplaceChildTran(e: Edge, bs: Option<Node>)
      requires Since() && e in g.edges && !g.edges[e].frozen && g.edges[e].bs != bs
      requires bs.Some? ==> bs.value in g.parents
      requires bs.Some? && g.edges[e].parent.OfNode? ==> !Reaches(g, bs.value, g.edges[e].parent.node)
      modifies this`g, this`tran, this`refcnt
      ensures Since() && g.edges == old(g).edges[e := old(g).edges[e].(bs := bs)]
      ensures g.parents.Keys == old(g).parents.Keys
    {
      var h, refs, records := Redirect(g, refcnt, tran, e, bs, scheduled, external, base);
      g, refcnt, tran := h, refs, records;
    }

    static method Redirect(g: Graph, refcnt: map<Node, int>, tran: seq<Action>, e: Edge, bs: Option<Node>,
                           ghost scheduled: multiset<Node>, ghost external: multiset<Node>, ghost base: Graph)
      returns (h: Graph, refs: map<Node, int>, records: seq<Action>)
      requires Open(base.parents.Keys, g, refcnt, external, tran, scheduled, base.edges) && Acyclic(g)
      requires e in g.edges && !g.edges[e].frozen && g.edges[e].bs != bs
      requires bs.Some? ==> bs.value in g.parents
      requires bs.Some? && g.edges[e].parent.OfNode? ==> !Reaches(g, bs.value, g.edges[e].parent.node)
      ensures Open(base.parents.Keys, h, refs, external, records, scheduled, base.edges) && Acyclic(h)
      ensures h.edges == g.edges[e := g.edges[e].(bs := bs)]
    {
      ReplaceStep(base.parents.Keys, g, refcnt, external, tran, scheduled, base.edges, e, bs);
      RedirectKeepsAcyclic(g, e, bs);
      h, refs, records := ReplaceChild(g, e, bs), Referenced(refcnt, bs), tran + [Replaced(e, g.edges[e].bs)];
    }

    /** bdrv_attach_child_common: a new edge from `parent` to `child`. */
    method AttachCommon(child: Node, parent: Parent, role: Role, perm: Perms, shared: Perms)
      returns (e: Option<Edge>)
      requires Since() && child in g.parents && (parent.OfNode? ==> parent.node in g.children)
      requires parent.OfNode? ==> !Reaches(g, child, parent.node)
      modifies this`g, this`tran, this`refcnt
      ensures Since() && g.parents.Keys == old(g).parents.Keys
      ensures e.None? <==> child in d.inactive && perm - {ConsistentRead} != {}
      ensures e.None? ==> g == old(g) && tran == old(tran)
      ensures e.Some? ==> e.value == FreshEdge(old(g))
      ensures e.Some? ==> g.edges == old(g).edges[e.value := Child(Some(child), parent, role, perm, shared, false)]
    {
      if child in d.inactive && perm - {ConsistentRead} != {} {
        return None;
      }
      var id := AttachTran(Child(Some(child), parent, role, perm, shared, false));
      e := Some(id);
    }

    method AttachTran(c: Child) returns (e: Edge)
      requires Since() && c.bs.Some? && EndsOk(g, c)
      requires c.parent.OfNode? ==> !Reaches(g, c.bs.value, c.parent.node)
      modifies this`g, this`tran, this`refcnt
      ensures Since() && g.parents.Keys == old(g).parents.Keys
      ensures e == FreshEdge(old(g)) && g.edges == old(g).edges[e := c]
    {
      e := FreshEdge(g);
      var h, refs, records := Attach(g, refcnt, tran, e, c, scheduled, external, base);
      g, refcnt, tran := h, refs, records;
    }

    static method Attach(g: Graph, refcnt: map<Node, int>, tran: seq<Action>, e: Edge, c: Child,
                         ghost scheduled: multiset<Node>, ghost external: multiset<Node>, ghost base: Graph)
      returns (h: Graph, refs: map<Node, int>, records: seq<Action>)
      requires Open(base.parents.Keys, g, refcnt, external, tran, scheduled, base.edges) && Acyclic(g)
      requires e !in g.edges && c.bs.Some? && EndsOk(g, c)
      requires c.parent.OfNode? ==> !Reaches(g, c.bs.value, c.parent.node)
      ensures Open(base.parents.Keys, h, refs, external, records, scheduled, base.edges) && Acyclic(h)
      ensures h.edges == g.edges[e := c]
    {
      var n, unlinked := c.bs.value, c.(bs := None);
      AttachStep(base.parents.Keys, g, refcnt, external, tran, scheduled, base.edges, e, unlinked, n);
      AttachKeepsAcyclic(g, e, unlinked, n);
      h, refs, records := AttachNew(g, e, unlinked, n), Referenced(refcnt, Some(n)), tran + [Attached(e)];
      assert unlinked.(bs := Some(n)) == c;
    }

    // ------------------------------------------------------------------------
    // Permissions

    /** bdrv_drv_set_perm, after the driver accepted. */
    method DrvSetPermTran(n: Node)
      requires Since()
      modifies this`tran
      ensures Since()
    {
      RestorablePush(base.parents.Keys, g.edges, g.edges, tran, base.edges, DrvSetPerm(n));
      PushKeepsAccounts(g, refcnt, external, tran, DrvSetPerm(n), scheduled);
      tran := tran + [DrvSetPerm(n)];
    }

    /** The loop of bdrv_node_refresh_perm: every child edge gets what the driver asks for. */
    method SetChildPerms(n: Node, perm: Perms, shared: Perms)
      requires Since() && n in g.children
      modifies this`g, this`tran
      ensures Since() && Asking(d, old(g), g, n, perm, shared, |old(g).children[n]|)
    {
      ghost var g0 := g;
      var es := g.children[n];
      for i := 0 to |es|
        invariant Since() && Asking(d, g0, g, n, perm, shared, i)
      {
        var c := es[i];
        AskingNext(d, g0, g, n, perm, shared, i);
        var (p, s) := ChildPerm(d, n, g.edges[c].bs.value, Some(c), g.edges[c].role, perm, shared);
        ChildSetPerm(c, p, s);
      }
    }

    /** bdrv_node_refresh_perm, after the check of the parents. */
    method NodeRefreshPerm(n: Node) returns (ok: bool)
      requires Since() && n in g.parents && ParentsAgree(g, n)
      modifies this`g, this`tran
      ensures Since() && (ok <==> Permitted(d, old(g), n))
      ensures if ok then NodeDone(d, old(g), g, n) else g == old(g)
    {
      ghost var g0 := g;
      var (perm, shared) := Cumulative(g, n);
      PassesIff(d, g, n);
      BelowIsSettable(d, g, n);
      if !MayWrite(d, n, perm) { return false; }
      if n !in d.driver {
        RefreshedOk(d, g0, g, n);
        return true;
      }
      if !d.checkPerm(n, perm, shared) { return false; }
      DrvSetPermTran(n);
      SetChildPerms(n, perm, shared);
      RefreshedOk(d, g0, g, n);
      return true;
    }

    /** bdrv_do_refresh_perms: it succeeds exactly if there is a solution, and then it finds the only one. */
    method DoRefreshPerms(list: seq<Node>) returns (ok: bool)
      requires Since() && TopoSorted(g, list) && forall n :: n in list ==> n in g.parents
      modifies this`g, this`tran
      ensures Since()
      ensures ok <==> exists h :: Solves(d, old(g), h, Listed(list))
      ensures ok ==> forall h :: Solves(d, old(g), h, Listed(list)) <==> h == g
      ensures forall n :: n !in list && NodeOk(d, old(g), n) ==> NodeOk(d, g, n)
    {
      ghost var g0 := g;
      RefreshingStarts(d, g, list);
      for i := 0 to |list|
        invariant Since() && Refreshing(d, g0, g, list, i)
      {
        ghost var g1 := g;
        var conflict := ParentPermsConflict(g, list[i]);
        var done := false;
        PassesIff(d, g, list[i]);
        if !conflict { done := NodeRefreshPerm(list[i]); }
        if !done {
          RefreshingFails(d, g0, g, list, i);
          return false;
        }
        RefreshingNext(d, g0, g1, g, list, i);
      }
      RefreshingEnds(d, g0, g, list);
      return true;
    }

    /** bdrv_refresh_perms: everything below bs is right afterwards, if that is possible. */
    method RefreshPerms(bs: Node) returns (ok: bool)
      requires Since() && bs in g.parents
      modifies this`g, this`tran
      ensures Since()
      ensures ok <==> CanRefresh(d, old(g).parents.Keys, old(g).edges, {bs})
      ensures ok ==> Solves(d, old(g), g, Under(old(g), {bs})) && RightBelow(d, g, bs)
    {
      ghost var g0 := g;
      ghost var rank :| Ranked(g, rank);
      var list, _ := TopologicalDfs(g, [], {}, bs, rank);
      ListUnderOne(g, list, bs);
      ok := DoRefreshPerms(list);
      CanRefreshIff(d, g0, {bs});
      if ok { SolvedBelow(d, g0, g, {bs}, bs); }
    }

    /** bdrv_list_refresh_perms, for the two nodes of a replacement. */
    method ListRefreshPerms(from: Node, to: Node) returns (ok: bool)
      requires Since() && from in g.parents && to in g.parents
      modifies this`g, this`tran
      ensures Since()
      ensures ok <==> CanRefresh(d, old(g).parents.Keys, old(g).edges, {from, to})
      ensures ok ==> Solves(d, old(g), g, Under(old(g), {from, to}))
      ensures ok ==> RightBelow(d, g, from) && RightBelow(d, g, to)
    {
      ghost var g0 := g;
      ghost var rank :| Ranked(g, rank);
      var list, found := TopologicalDfs(g, [], {}, from, rank);
      ghost var first := list;
      list, found := TopologicalDfs(g, list, found, to, rank);
      ListUnderTwo(g, first, list, from, to);
      ok := DoRefreshPerms(list);
      CanRefreshIff(d, g0, {from, to});
      if ok {
        SolvedBelow(d, g0, g, {from, to}, from);
        SolvedBelow(d, g0, g, {from, to}, to);
      }
    }

    /**
     * bdrv_child_try_set_perm. If the permissions can be set, they are, and
     * everything below is right. If not, nothing changes, and the failure is
     * hidden from the caller exactly if the request only loosens.
     */
    method ChildTrySetPerm(e: Edge, perm: Perms, shared: Perms) returns (ok: bool)
      requires Valid() && tran == [] && e in g.edges && g.edges[e].bs.Some?
      modifies this`g, this`tran, this`refcnt, this`scheduled, this`base
      ensures Valid() && tran == []
      ensures MaySet(d, old(g), e, perm, shared) ==> ok && SetAs(d, old(g), g, e, perm, shared)
      ensures !MaySet(d, old(g), e, perm, shared) ==>
                && g.edges == old(g).edges
                && (ok <==> perm <= old(g).edges[e].perm && old(g).edges[e].shared <= shared)
      ensures Refused(d, old(g).edges[e].bs.value, perm) ==> g.edges == old(g).edges
    {
      Begin();
      ok := TrySetTran(e, perm, shared);
      if ok { RightIsWritable(d, g, e); }
      Finalize(ok);
      if !ok && Loosens(g, e, perm, shared) { ok := true; }
    }

    method TrySetTran(e: Edge, perm: Perms, shared: Perms) returns (ok: bool)
      requires Since() && e in g.edges && g.edges[e].bs.Some?
      modifies this`g, this`tran
      ensures Since() && (ok <==> MaySet(d, old(g), e, perm, shared))
      ensures ok ==> SetAs(d, old(g), g, e, perm, shared)
    {
      ghost var g0 := g;
      assert EdgeOk(g, e);
      ChildSetPerm(e, perm, shared);
      ghost var g1 := g;
      ok := RefreshPerms(g.edges[e].bs.value);
      if ok { SetEnds(d, g0, g1, g, e, perm, shared); }
    }

    // ------------------------------------------------------------------------
    // Attaching

    /** bdrv_attach_child_noperm */
    method AttachChildNoperm(parent: Node, child: Node, role: Role) returns (e: Option<Edge>)
      requires Since() && child in g.parents && parent in g.children && parent in d.driver
      modifies this`g, this`tran, this`refcnt
      ensures Since() && g.parents.Keys == old(g).parents.Keys
      ensures e.Some? <==> Admits(d, old(g), parent, child, role)
      ensures e.Some? ==> !Reaches(old(g), child, parent) && (child in d.inactive ==> parent in d.inactive)
      ensures e.None? ==> g == old(g)
      ensures e.Some? ==> e.value == FreshEdge(old(g))
      ensures e.Some? ==> g.edges == old(g).edges[e.value := NewChild(d, old(g), parent, child, role)]
    {
      ghost var rank :| Ranked(g, rank);
      RecurseIsReaches(g, rank, child, parent);
      if RecurseHasChild(g, rank, child, parent) { return None; }
      if child in d.inactive && parent !in d.inactive { return None; }
      var (perm, shared) := Wanted(d, g, parent, child, role);
      e := AttachCommon(child, OfNode(parent), role, perm, shared);
    }

    /** bdrv_schedule_unref of a reference that the caller gives up. */
    method GiveUp(n: Node)
      requires Valid() && tran == [] && n in external && n in g.parents
      modifies this`scheduled, this`external
      ensures Valid() && external == old(external) - multiset{n} && scheduled == old(scheduled) + multiset{n}
    {
      forall x | x in g.parents
        ensures AccountedAt(g, refcnt, external - multiset{n}, tran, scheduled + multiset{n}, x)
      {
        assert AccountedAt(g, refcnt, external, tran, scheduled, x);
      }
      external, scheduled := external - multiset{n}, scheduled + multiset{n};
    }

    method AttachChildTran(parent: Node, child: Node, role: Role) returns (e: Option<Edge>)
      requires Since() && child in g.parents && parent in g.children && parent in d.driver
      modifies this`g, this`tran, this`refcnt
      ensures Since() && (e.Some? <==> MayAttach(d, old(g), parent, child, role))
      ensures e.Some? ==> e.value == FreshEdge(old(g))
      ensures e.Some? ==> Linked(old(g), g, e.value, child, OfNode(parent), role)
      ensures e.Some? ==> RightBelow(d, g, parent)
    {
      ghost var g0 := g;
      e := AttachChildNoperm(parent, child, role);
      if e.Some? {
        ghost var g1 := g;
        var ok := RefreshPerms(parent);
        if ok {
          LinksAfter(d, g0, g1, g, e.value, {parent}, parent);
        } else {
          e := None;
        }
      }
    }

    /** bdrv_attach_child: the caller's reference to the child is dropped in any case. */
    method AttachChild(parent: Node, child: Node, role: Role) returns (e: Option<Edge>)
      requires Valid() && tran == [] && child in g.parents && parent in g.children && parent in d.driver
      requires child in external
      modifies this`g, this`tran, this`refcnt, this`scheduled, this`base, this`external
      ensures Valid() && tran == [] && external == old(external) - multiset{child}
      ensures e.Some? <==> MayAttach(d, old(g), parent, child, role)
      ensures e.None? ==> g.edges == old(g).edges
      ensures e.Some? ==> Linked(old(g), g, e.value, child, OfNode(parent), role)
      ensures e.Some? ==> RightBelow(d, g, parent)
    {
      e := AttachOrRollBack(parent, child, role);
      GiveUp(child);
    }

    method AttachOrRollBack(parent: Node, child: Node, role: Role) returns (e: Option<Edge>)
      requires Valid() && tran == [] && child in g.parents && parent in g.children && parent in d.driver
      modifies this`g, this`tran, this`refcnt, this`scheduled, this`base
      ensures Valid() && tran == [] && g.parents.Keys == old(g).parents.Keys
      ensures e.Some? <==> MayAttach(d, old(g), parent, child, role)
      ensures e.None? ==> g.edges == old(g).edges
      ensures e.Some? ==> Linked(old(g), g, e.value, child, OfNode(parent), role) && RightBelow(d, g, parent)
    {
      Begin();
      e := AttachChildTran(parent, child, role);
      Finalize(e.Some?);
    }

    method RootAttachTran(child: Node, parent: Parent, role: Role, perm: Perms, shared: Perms) returns (e: Option<Edge>)
      requires Since() && child in g.parents && !parent.OfNode?
      modifies this`g, this`tran, this`refcnt
      ensures Since() && (e.Some? <==> MayRootAttach(d, old(g), child, parent, role, perm, shared))
      ensures e.Some? ==> Linked(old(g), g, e.value, child, parent, role)
      ensures e.Some? ==> g.edges[e.value].perm == perm && g.edges[e.value].shared == shared
      ensures e.Some? ==> RightBelow(d, g, child)
    {
      ghost var g0 := g;
      e := AttachCommon(child, parent, role, perm, shared);
      if e.Some? {
        ghost var g1 := g;
        var ok := RefreshPerms(child);
        if ok {
          LinksAfter(d, g0, g1, g, e.value, {child}, child);
        } else {
          e := None;
        }
      }
    }

    /** bdrv_root_attach_child, for a job or a user outside the graph. */
    method RootAttachChild(child: Node, parent: Parent, role: Role, perm: Perms, shared: Perms)
      returns (e: Option<Edge>)
      requires Valid() && tran == [] && child in g.parents && child in external && !parent.OfNode?
      modifies this`g, this`tran, this`refcnt, this`scheduled, this`base, this`external
      ensures Valid() && tran == [] && external == old(external) - multiset{child}
      ensures e.Some? <==> MayRootAttach(d, old(g), child, parent, role, perm, shared)
      ensures e.None? ==> g.edges == old(g).edges
      ensures e.Some? ==> Linked(old(g), g, e.value, child, parent, role)
      ensures e.Some? ==> g.edges[e.value].perm == perm && g.edges[e.value].shared == shared
      ensures e.Some? ==> RightBelow(d, g, child)
      ensures Refused(d, child, perm) ==> e.None?
    {
      e := RootAttachOrRollBack(child, parent, role, perm, shared);
      if e.Some? { RightIsWritable(d, g, e.value); }
      GiveUp(child);
    }

    method RootAttachOrRollBack(child: Node, parent: Parent, role: Role, perm: Perms, shared: Perms)
      returns (e: Option<Edge>)
      requires Valid() && tran == [] && child in g.parents && !parent.OfNode?
      modifies this`g, this`tran, this`refcnt, this`scheduled, this`base
      ensures Valid() && tran == [] && g.parents.Keys == old(g).parents.Keys
      ensures e.Some? <==> MayRootAttach(d, old(g), child, parent, role, perm, shared)
      ensures e.None? ==> g.edges == old(g).edges
      ensures e.Some? ==> Linked(old(g), g, e.value, child, parent, role) && RightBelow(d, g, child)
      ensures e.Some? ==> g.edges[e.value].perm == perm && g.edges[e.value].shared == shared
    {
      Begin();
      e := RootAttachTran(child, parent, role, perm, shared);
      Finalize(e.Some?);
    }

    /**
     * bdrv_root_unref_child: the edge goes, its reference becomes a scheduled
     * unref, and the node it pointed to is refreshed if that is possible.  There
     * is such a node, since the source asserts that the target changes.
     */
    method RootUnrefChild(e: Edge)
      requires Valid() && tran == [] && e in g.edges && !g.edges[e].frozen && g.edges[e].bs.Some?
      modifies this`g, this`tran, this`refcnt, this`scheduled, this`base
      ensures Valid() && tran == []
      ensures if MayRefreshWithout(d, old(g), e) then UnlinkedAs(d, old(g), g, e) else g.edges == old(g).edges - {e}
    {
      var n := g.edges[e].bs.value;
      Unlink(e);
      Begin();
      ghost var g1 := g;
      var ok := RefreshPerms(n);
      if ok { UnlinkEnds(d, g1, g, n); }
      Finalize(ok);
    }

    /** The edge is taken out of the graph and freed. */
    method Unlink(e: Edge)
      requires Valid() && tran == [] && e in g.edges && g.edges[e].bs.Some?
      modifies this`g, this`scheduled
      ensures Valid() && g.edges == old(g).edges - {e} && g.parents.Keys == old(g).parents.Keys
      ensures scheduled == old(scheduled) + multiset{old(g).edges[e].bs.value} && old(g).edges[e].bs.value in g.parents
    {
      assert EdgeOk(g, e);
      PushKeepsAccounts(g, refcnt, external, [], Attached(e), scheduled);
      UndoAccounts(g, refcnt, external, [], Attached(e), scheduled);
      UndoKeeps(g, Attached(e));
      UnlinkKeepsAcyclic(g, Undo(g, Attached(e)), e);
      scheduled := scheduled + multiset{g.edges[e].bs.value};
      g := FreeEdge(ReplaceChild(g, e, None), e);
    }

    /** bdrv_unref of a scheduled reference. A node that loses its last reference is not in use. */
    method RunScheduledUnref(n: Node) returns (unused: bool)
      requires Valid() && n in scheduled && n in g.parents
      modifies this`refcnt, this`scheduled
      ensures Valid() && scheduled == old(scheduled) - multiset{n} && old(refcnt)[n] > 0
      ensures unused ==> g.parents[n] == [] && n !in external && Parked(tran, n) == 0 && n !in scheduled
      ensures !unused ==> refcnt[n] > 0
    {
      assert AccountedAt(g, refcnt, external, tran, scheduled, n);
      forall x | x in g.parents
        ensures AccountedAt(g, refcnt[n := refcnt[n] - 1], external, tran, scheduled - multiset{n}, x)
      {
        assert AccountedAt(g, refcnt, external, tran, scheduled, x);
      }
      refcnt, scheduled := refcnt[n := refcnt[n] - 1], scheduled - multiset{n};
      unused := refcnt[n] == 0;
    }

    // ------------------------------------------------------------------------
    // Replacing a node

    /**
     * bdrv_replace_node_noperm: whether an edge moves is decided on the graph as
     * updated so far, but the answer is the one for the graph at the beginning.
     */
    method ReplaceNodeNoperm(from: Node, to: Node, autoSkip: bool) returns (ok: bool)
      requires Since() && from in g.parents && to in g.parents && from != to
      modifies this`g, this`tran, this`refcnt
      ensures Since() && g.parents.Keys == old(g).parents.Keys
      ensures ok <==> forall e :: Uses(old(g), e, from) ==> Proceeds(old(g), e, to, autoSkip)
      ensures ok ==> Moved(old(g), g, from, to, old(g).edges.Keys)
    {
      ghost var g0 := g;
      var es := g.parents[from];
      ReplacingStarts(g, from, to, autoSkip);
      for i := 0 to |es|
        invariant Since() && g.parents.Keys == g0.parents.Keys && Replacing(g0, g, from, to, autoSkip, es, i)
      {
        var done := ReplaceParent(from, to, autoSkip, es, i, g0);
        if !done {
          assert Uses(g0, es[i], from);
          return false;
        }
      }
      ReplacingEnds(g0, g, from, to, autoSkip, es);
      return true;
    }

    /** The body of the loop of bdrv_replace_node_noperm. */
    method ReplaceParent(from: Node, to: Node, autoSkip: bool, es: seq<Edge>, i: nat, ghost g0: Graph)
      returns (ok: bool)
      requires Since() && to in g.parents && from != to && i < |es| && Replacing(g0, g, from, to, autoSkip, es, i)
      modifies this`g, this`tran, this`refcnt
      ensures Since() && g.parents.Keys == old(g).parents.Keys && Uses(g0, es[i], from)
      ensures ok <==> Proceeds(g0, es[i], to, autoSkip)
      ensures ok ==> Replacing(g0, g, from, to, autoSkip, es, i + 1)
    {
      ReplacingNext(g0, g, from, to, autoSkip, es, i);
      var c := es[i];
      var moves := ShouldUpdateChild(g, c, to);
      if !moves {
        if autoSkip { ReplacingSkips(g0, g, from, to, autoSkip, es, i); }
        return autoSkip;
      }
      if g.edges[c].frozen { return false; }
      ghost var g1 := g;
      ReplaceChildTran(c, Some(to));
      ReplacingMoves(g0, g1, g, from, to, autoSkip, es, i);
      return true;
    }

    method ReplaceNodeTran(from: Node, to: Node, autoSkip: bool) returns (ok: bool)
      requires Since() && from in g.parents && to in g.parents && from != to
      modifies this`g, this`tran, this`refcnt
      ensures Since() && (ok <==> MayReplace(d, old(g), from, to, autoSkip))
      ensures ok ==> LinksFollow(old(g), g, from, to) && g.edges.Keys == old(g).edges.Keys
      ensures ok ==> RightBelow(d, g, from) && RightBelow(d, g, to)
    {
      ghost var g0 := g;
      ok := ReplaceNodeNoperm(from, to, autoSkip);
      if ok {
        ghost var g1 := g;
        MovedIsMovedEdges(g0, g, from, to);
        ok := ListRefreshPerms(from, to);
        if ok { LinksMoved(d, g0, g1, g, from, to); }
      }
    }

    /** bdrv_replace_node_common: the users of `from` become users of `to`, or nothing changes. */
    method ReplaceNode(from: Node, to: Node, autoSkip: bool) returns (ok: bool)
      requires Valid() && tran == [] && from in g.parents && to in g.parents && from != to
      modifies this`g, this`tran, this`refcnt, this`scheduled, this`base
      ensures Valid() && tran == [] && g.parents.Keys == old(g).parents.Keys
      ensures ok <==> MayReplace(d, old(g), from, to, autoSkip)
      ensures !ok ==> g.edges == old(g).edges
      ensures ok ==> LinksFollow(old(g), g, from, to) && g.edges.Keys == old(g).edges.Keys
      ensures ok ==> RightBelow(d, g, from) && RightBelow(d, g, to)
      ensures ok ==> UsersMoved(old(g), g, from, to, autoSkip)
    {
      Begin();
      ok := ReplaceNodeTran(from, to, autoSkip);
      if ok { UsersHaveMoved(base, g, from, to, autoSkip); }
      Finalize(ok);
    }

    method AppendTran(bsNew: Node, top: Node, role: Role) returns (ok: bool)
      requires Since() && bsNew in g.parents && top in g.parents && bsNew in d.driver
      modifies this`g, this`tran, this`refcnt
      ensures Since() && (ok <==> MayAppend(d, old(g), bsNew, top, role))
      ensures ok ==> LinksFollow(old(g), g, top, bsNew) && NewLink(old(g), g, FreshEdge(old(g)), bsNew, top, role)
      ensures ok ==> RightBelow(d, g, bsNew)
    {
      ghost var g0 := g;
      var e := AttachChildNoperm(bsNew, top, role);
      if e.None? { return false; }
      ghost var g1 := g;
      ReachesSelf(g0, top);
      AppendProceeds(g0, g1, e.value, bsNew, top);
      ok := ReplaceNodeNoperm(top, bsNew, true);
      if ok {
        ghost var g2 := g;
        AppendedEdges(g0, g1, g2, e.value, bsNew, top);
        ok := RefreshPerms(bsNew);
        if ok { LinksAppended(d, g0, g1, g2, g, e.value, bsNew, top, role); }
      }
    }

    /**
     * bdrv_append: `top` becomes a child of the new node, whose users are those
     * that `top` had before, other than jobs and nodes below the new node.
     */
    method Append(bsNew: Node, top: Node, role: Role) returns (ok: bool)
      requires Valid() && tran == [] && bsNew in g.parents && top in g.parents && bsNew in d.driver
      modifies this`g, this`tran, this`refcnt, this`scheduled, this`base
      ensures Valid() && tran == [] && g.parents.Keys == old(g).parents.Keys
      ensures ok <==> MayAppend(d, old(g), bsNew, top, role)
      ensures !ok ==> g.edges == old(g).edges
      ensures ok ==> LinksFollow(old(g), g, top, bsNew) && NewLink(old(g), g, FreshEdge(old(g)), bsNew, top, role)
      ensures ok ==> RightBelow(d, g, bsNew) && UsersMoved(old(g), g, top, bsNew, true)
    {
      Begin();
      ok := AppendTran(bsNew, top, role);
      if ok { UsersHaveMoved(base, g, top, bsNew, true); }
      Finalize(ok);
    }
  }

  // --------------------------------------------------------------------------
  // A hidden failure

  /** One writable node of odd size; drivers ask for nothing and accept everything. */
  const ODD_SIZE: Drivers := Drivers((_, _, _, _, _) => ({}, ALL_PERMS), (_, _, _) => true, {0}, {0}, {}, {}, {})

  /** One user that may write and resize the node. */
  const ONE_USER: Graph := Graph(
    map[0 := Child(Some(0), OfUser(0), Storage(false, true), {Write, Resize}, ALL_PERMS, false)],
    map[0 := []],
    map[0 := [0]])

  lemma OneUserIsOk()
    ensures Consistent(ONE_USER) && Acyclic(ONE_USER)
    ensures Accounted(ONE_USER, map[0 := 1], multiset{}, [], multiset{})
  {
    assert ParentsOk(ONE_USER, 0) && ChildrenOk(ONE_USER, 0) && EdgeOk(ONE_USER, 0);
    assert Ranked(ONE_USER, map[0 := 0]);
    assert AccountedAt(ONE_USER, map[0 := 1], multiset{}, [], multiset{}, 0);
  }

  /** Without Resize no write permission can be had, since the size of the node is not aligned. */
  lemma OddSizeNeedsResize()
    ensures !MaySet(ODD_SIZE, ONE_USER, 0, {Write}, ALL_PERMS)
  {
    var want := WithPerm(ONE_USER, 0, {Write}, ALL_PERMS);
    OneUserIsOk();
    WithPermKeeps(ONE_USER, 0, {Write}, ALL_PERMS);
    CanRefreshIff(ODD_SIZE, want, {0});
    ReachesSelf(want, 0);
    assert IsUnder(want, {0}, 0) && 0 in Under(want, {0});
    forall h
      ensures !Solves(ODD_SIZE, want, h, Under(want, {0}))
    {
      if PermsDiffer(want, h, Settable(ODD_SIZE, want, Under(want, {0}))) {
        assert h.edges[0] == want.edges[0] && h.parents[0] == [0];
        CumulativeMeaning(h, [0], Write);
        CumulativeMeaning(h, [0], Resize);
        assert !NodeOk(ODD_SIZE, h, 0);
      }
    }
  }

  /** A request to give up Resize reports success, and the edge keeps Resize. */
  method HiddenFailure() returns (layer: BlockLayer, ok: bool)
    ensures ok && layer.Valid() && layer.g.edges == ONE_USER.edges && Resize in layer.g.edges[0].perm
  {
    OneUserIsOk();
    OddSizeNeedsResize();
    layer := new BlockLayer(ODD_SIZE, ONE_USER, map[0 := 1], multiset{});
    ok := layer.ChildTrySetPerm(0, {Write}, ALL_PERMS);
  }
}
