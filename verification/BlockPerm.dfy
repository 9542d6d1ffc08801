/**
 * Permissions in the block graph: the topological order in which they are
 * recomputed, and what a successful recomputation establishes.
 */
module BlockPerm {
  import opened BlockGraph
  import opened Common

  /** What block drivers and node state contribute; everything else is computed. */
  datatype Drivers = Drivers(
    childPerm: (Node, Option<Edge>, Role, Perms, Perms) -> (Perms, Perms),  // .bdrv_child_perm
    checkPerm: (Node, Perms, Perms) -> bool,                                // .bdrv_check_perm accepts
    driver: set<Node>,       // nodes with a driver
    writable: set<Node>,     // bdrv_is_writable_after_reopen
    sizeAligned: set<Node>,  // the image size is a multiple of the request alignment
    forceShare: set<Node>,
    inactive: set<Node>)

  /** bdrv_child_perm */
  function ChildPerm(d: Drivers, bs: Node, childBs: Node, e: Option<Edge>, role: Role, perm: Perms, shared: Perms)
    : (Perms, Perms)
  {
    var (nperm, nshared) := d.childPerm(bs, e, role, perm, shared);
    (nperm, if childBs in d.forceShare then ALL_PERMS else nshared)
  }

  // --------------------------------------------------------------------------
  // bdrv_get_cumulative_perm

  function Required(g: Graph, es: seq<Edge>): Perms {
    if es == [] then {} else (if es[0] in g.edges then g.edges[es[0]].perm else {}) + Required(g, es[1..])
  }

  function Shared(g: Graph, es: seq<Edge>): Perms {
    if es == [] then ALL_PERMS else (if es[0] in g.edges then g.edges[es[0]].shared else ALL_PERMS) * Shared(g, es[1..])
  }

  function Cumulative(g: Graph, n: Node): (Perms, Perms)
    requires n in g.parents
  {
    (Required(g, g.parents[n]), Shared(g, g.parents[n]))
  }

  /** A permission is required if some user requires it, and shared if every user shares it. */
  lemma {:induction false} CumulativeMeaning(g: Graph, es: seq<Edge>, p: Perm)
    requires forall e :: e in es ==> e in g.edges
    ensures p in Required(g, es) <==> exists e :: e in es && p in g.edges[e].perm
    ensures p in Shared(g, es) <==> p in ALL_PERMS && forall e :: e in es ==> p in g.edges[e].shared
  {
    if es != [] {
      CumulativeMeaning(g, es[1..], p);
      assert es == [es[0]] + es[1..];
    }
  }

  predicate SamePerms(g: Graph, h: Graph, e: Edge) {
    && e in g.edges && e in h.edges
    && g.edges[e].perm == h.edges[e].perm && g.edges[e].shared == h.edges[e].shared
  }

  lemma {:induction false} CumulativeFrame(g: Graph, h: Graph, es: seq<Edge>)
    requires forall e :: e in es ==> SamePerms(g, h, e)
    ensures Required(g, es) == Required(h, es) && Shared(g, es) == Shared(h, es)
  {
    if es != [] {
      assert SamePerms(g, h, es[0]);
      CumulativeFrame(g, h, es[1..]);
    }
  }

  // --------------------------------------------------------------------------
  // What it means for the permissions at a node to be right

  /** bdrv_a_allow_b: edge a tolerates what edge b does. */
  predicate Allows(g: Graph, a: Edge, b: Edge)
    requires a in g.edges && b in g.edges
  {
    g.edges[b].perm * g.edges[a].shared == g.edges[b].perm
  }

  ghost predicate ParentsAgree(g: Graph, n: Node)
    requires n in g.parents
  {
    forall a, b :: a in g.parents[n] && b in g.parents[n] && a != b && a in g.edges && b in g.edges ==> Allows(g, a, b)
  }

  predicate MayWrite(d: Drivers, n: Node, perm: Perms) {
    perm * {Write, WriteUnchanged} != {} ==>
      n in d.writable && (Resize !in perm ==> n in d.sizeAligned)
  }

  /** The edge carries exactly what its parent's driver asks for, given the parent's cumulative permissions. */
  ghost predicate EdgeFollows(d: Drivers, g: Graph, n: Node, e: Edge)
    requires n in g.parents
  {
    && e in g.edges && g.edges[e].bs.Some?
    && (g.edges[e].perm, g.edges[e].shared) ==
         ChildPerm(d, n, g.edges[e].bs.value, Some(e), g.edges[e].role, Cumulative(g, n).0, Cumulative(g, n).1)
  }

  ghost predicate NodeOk(d: Drivers, g: Graph, n: Node) {
    && n in g.parents && n in g.children
    && ParentsAgree(g, n)
    && MayWrite(d, n, Cumulative(g, n).0)
    && (n in d.driver ==>
          && d.checkPerm(n, Cumulative(g, n).0, Cumulative(g, n).1)
          && forall e :: e in g.children[n] ==> EdgeFollows(d, g, n, e))
  }

  // --------------------------------------------------------------------------
  // The same, said of the edges alone

  /** The edges to the node. */
  function Users(g: Graph, n: Node): set<Edge> { set e | e in g.edges && g.edges[e].bs == Some(n) }

  /** What some user needs. */
  function Needed(g: Graph, n: Node): Perms { set e, p | e in Users(g, n) && p in g.edges[e].perm :: p }

  /** What every user tolerates. */
  function Tolerated(g: Graph, n: Node): Perms { set p | p in ALL_PERMS && AllTolerate(g, n, p) }

  predicate AllTolerate(g: Graph, n: Node, p: Perm) { forall e :: e in Users(g, n) ==> p in g.edges[e].shared }

  /**
   * The users of the node tolerate each other; if one of them writes, the node
   * is writable and, unless one of them may resize it, of aligned size; and its
   * driver, if there is one, agrees.
   */
  ghost predicate Permitted(d: Drivers, g: Graph, n: Node) {
    && (forall a, b :: a in Users(g, n) && b in Users(g, n) && a != b ==> g.edges[b].perm <= g.edges[a].shared)
    && (forall e :: e in Users(g, n) && (Write in g.edges[e].perm || WriteUnchanged in g.edges[e].perm) ==>
          n in d.writable && (n in d.sizeAligned || exists f :: f in Users(g, n) && Resize in g.edges[f].perm))
    && (n in d.driver ==> d.checkPerm(n, Needed(g, n), Tolerated(g, n)))
  }

  /** Besides, the edges of the node carry what its driver asks for; children that force sharing share everything. */
  ghost predicate Right(d: Drivers, g: Graph, n: Node) {
    && Permitted(d, g, n)
    && forall e :: e in g.edges && n in d.driver && g.edges[e].parent == OfNode(n) && g.edges[e].bs.Some? ==>
         var (perm, shared) := d.childPerm(n, Some(e), g.edges[e].role, Needed(g, n), Tolerated(g, n));
         && g.edges[e].perm == perm
         && (g.edges[e].bs.value !in d.forceShare ==> g.edges[e].shared == shared)
         && (g.edges[e].bs.value in d.forceShare ==> forall p: Perm :: p in g.edges[e].shared)
  }

  lemma AllPerms(p: Perm)
    ensures p in ALL_PERMS
  {
  }

  lemma UsersAreListed(g: Graph, n: Node)
    requires Consistent(g) && n in g.parents
    ensures forall e :: e in g.parents[n] <==> e in Users(g, n)
  {
    assert ParentsOk(g, n);
    forall e | e in Users(g, n)
      ensures e in g.parents[n]
    {
      assert EdgeOk(g, e);
    }
  }

  lemma CumulativeIs(g: Graph, n: Node)
    requires Consistent(g) && n in g.parents
    ensures Cumulative(g, n) == (Needed(g, n), Tolerated(g, n))
  {
    UsersAreListed(g, n);
    forall p: Perm
      ensures p in Cumulative(g, n).0 <==> p in Needed(g, n)
      ensures p in Cumulative(g, n).1 <==> p in Tolerated(g, n)
    {
      CumulativeMeaning(g, g.parents[n], p);
    }
    assert Cumulative(g, n).0 == Needed(g, n) && Cumulative(g, n).1 == Tolerated(g, n);
  }

  lemma ParentsAgreeIff(g: Graph, n: Node)
    requires Consistent(g) && n in g.parents
    ensures ParentsAgree(g, n) <==>
            forall a, b :: a in Users(g, n) && b in Users(g, n) && a != b ==> g.edges[b].perm <= g.edges[a].shared
  {
    UsersAreListed(g, n);
    forall a, b | a in Users(g, n) && b in Users(g, n)
      ensures Allows(g, a, b) <==> g.edges[b].perm <= g.edges[a].shared
    {
    }
  }

  lemma MayWriteIff(d: Drivers, g: Graph, n: Node)
    ensures MayWrite(d, n, Needed(g, n)) <==>
            forall e :: e in Users(g, n) && (Write in g.edges[e].perm || WriteUnchanged in g.edges[e].perm) ==>
              n in d.writable && (n in d.sizeAligned || exists f :: f in Users(g, n) && Resize in g.edges[f].perm)
  {
    var perm := Needed(g, n);
    assert perm * {Write, WriteUnchanged} != {} <==> Write in perm || WriteUnchanged in perm by {
      if Write in perm { assert Write in perm * {Write, WriteUnchanged}; }
      if WriteUnchanged in perm { assert WriteUnchanged in perm * {Write, WriteUnchanged}; }
    }
  }

  lemma EdgesFollowIff(d: Drivers, g: Graph, n: Node)
    requires Consistent(g) && n in g.parents
    ensures (forall e :: e in g.children[n] ==> EdgeFollows(d, g, n, e)) <==>
            forall e :: e in g.edges && g.edges[e].parent == OfNode(n) && g.edges[e].bs.Some? ==>
              EdgeFollows(d, g, n, e)
  {
    assert ChildrenOk(g, n);
    forall e | e in g.edges
      ensures EdgeOk(g, e)
    {
    }
  }

  /** The checks on the lists are these conditions on the edges. */
  lemma NodeOkIsRight(d: Drivers, g: Graph, n: Node)
    requires Consistent(g) && n in g.parents
    ensures NodeOk(d, g, n) <==> Right(d, g, n)
  {
    CumulativeIs(g, n);
    ParentsAgreeIff(g, n);
    MayWriteIff(d, g, n);
    EdgesFollowIff(d, g, n);
    forall e | e in g.edges && g.edges[e].bs.Some?
      ensures forall p: Perm :: p in ALL_PERMS
      ensures g.edges[e].shared == ALL_PERMS <==> forall p: Perm :: p in g.edges[e].shared
    {
      forall p: Perm
        ensures p in ALL_PERMS
      {
        AllPerms(p);
      }
    }
  }

  // --------------------------------------------------------------------------
  // Changing permissions leaves the shape of the graph alone

  /** h differs from g at most in perm and shared of the edges in es. */
  ghost predicate PermsDiffer(g: Graph, h: Graph, es: set<Edge>) {
    && h.children == g.children && h.parents == g.parents && h.edges.Keys == g.edges.Keys
    && forall e :: e in g.edges ==>
         if e in es then h.edges[e] == g.edges[e].(perm := h.edges[e].perm, shared := h.edges[e].shared)
         else h.edges[e] == g.edges[e]
  }

  lemma PermsKeepPoints(g: Graph, h: Graph, es: set<Edge>, u: Node, v: Node)
    requires PermsDiffer(g, h, es)
    ensures Points(h, u, v) <==> Points(g, u, v)
  {
    if Points(g, u, v) {
      var e :| e in g.edges && g.edges[e].parent == OfNode(u) && g.edges[e].bs == Some(v);
      assert h.edges[e].parent == OfNode(u) && h.edges[e].bs == Some(v);
    }
    if Points(h, u, v) {
      var e :| e in h.edges && h.edges[e].parent == OfNode(u) && h.edges[e].bs == Some(v);
      assert g.edges[e].parent == OfNode(u) && g.edges[e].bs == Some(v);
    }
  }

  lemma CumulativeUnchanged(g: Graph, h: Graph, es: set<Edge>, n: Node)
    requires Consistent(g) && PermsDiffer(g, h, es) && n in g.parents
    requires forall e :: e in g.parents[n] ==> e !in es
    ensures Cumulative(g, n) == Cumulative(h, n)
  {
    assert ParentsOk(g, n);
    forall e | e in g.parents[n]
      ensures SamePerms(g, h, e)
    {
    }
    CumulativeFrame(g, h, g.parents[n]);
  }

  lemma ParentsAgreeFrame(g: Graph, h: Graph, es: set<Edge>, n: Node)
    requires PermsDiffer(g, h, es) && n in g.parents && ParentsAgree(g, n)
    requires forall e :: e in g.parents[n] ==> e !in es
    ensures ParentsAgree(h, n)
  {
    forall a, b | a in h.parents[n] && b in h.parents[n] && a != b && a in h.edges && b in h.edges
      ensures Allows(h, a, b)
    {
      assert Allows(g, a, b);
    }
  }

  /** The permissions at a node depend on its own edges only. */
  lemma NodeOkFrame(d: Drivers, g: Graph, h: Graph, es: set<Edge>, n: Node)
    requires Consistent(g) && PermsDiffer(g, h, es) && NodeOk(d, g, n)
    requires forall e :: e in g.parents[n] ==> e !in es
    requires forall e :: e in g.children[n] ==> e !in es
    ensures NodeOk(d, h, n)
  {
    CumulativeUnchanged(g, h, es, n);
    ParentsAgreeFrame(g, h, es, n);
    forall e | n in d.driver && e in g.children[n]
      ensures EdgeFollows(d, h, n, e)
    {
      assert EdgeFollows(d, g, n, e);
    }
  }

  // --------------------------------------------------------------------------
  // bdrv_topological_dfs

  /** Everything that list[i] points to comes later in the list. */
  ghost predicate ChildrenLater(g: Graph, list: seq<Node>, i: nat)
    requires i < |list|
  {
    forall v :: Points(g, list[i], v) ==> v in list[i + 1..]
  }

  /** No duplicates, closed under children, parents first. */
  ghost predicate TopoSorted(g: Graph, list: seq<Node>) {
    NoDup(list) && forall i :: 0 <= i < |list| ==> ChildrenLater(g, list, i)
  }

  lemma TopoCons(g: Graph, n: Node, list: seq<Node>)
    requires TopoSorted(g, list) && n !in list && forall v :: Points(g, n, v) ==> v in list
    ensures TopoSorted(g, [n] + list)
  {
    NoDupCons(n, list);
    var l := [n] + list;
    forall i | 0 <= i < |l|
      ensures ChildrenLater(g, l, i)
    {
      if i > 0 {
        assert ChildrenLater(g, list, i - 1);
        assert l[i + 1..] == list[i..];
      } else {
        assert l[1..] == list;
      }
    }
  }

  /**
   * Puts bs and all that it reaches in front of the list, parents first.
   * `found` also holds the nodes on the way from the start to bs, which all
   * rank above bs.
   */
  method TopologicalDfs(g: Graph, list0: seq<Node>, found0: set<Node>, bs: Node, ghost rank: map<Node, nat>)
    returns (list: seq<Node>, found: set<Node>)
    requires Consistent(g) && Ranked(g, rank) && bs in g.children && TopoSorted(g, list0)
    requires forall n :: n in list0 ==> n in found0
    requires forall n :: n in found0 && n !in list0 ==> n in rank && rank[n] > rank[bs]
    ensures TopoSorted(g, list) && bs in list
    ensures forall n :: n in list0 ==> n in list
    ensures forall n :: n in list && n !in list0 ==> Reaches(g, bs, n)
    ensures forall n :: n in found && n !in list <==> n in found0 && n !in list0
    ensures forall n :: n in list ==> n in found
    decreases rank[bs]
  {
    list, found := list0, found0;
    if bs in found { return; }
    found := found + {bs};
    for i := 0 to |g.children[bs]|
      invariant TopoSorted(g, list)
      invariant forall n :: n in list0 ==> n in list
      invariant forall n :: n in list && n !in list0 ==> Reaches(g, bs, n)
      invariant forall n :: n in found && n !in list <==> n == bs || (n in found0 && n !in list0)
      invariant forall n :: n in list ==> n in found
      invariant forall j :: 0 <= j < i ==> TargetIn(g, g.children[bs][j], list)
    {
      var child := g.children[bs][i];
      ChildPoints(g, bs, child);
      ghost var before := list;
      list, found := TopologicalDfs(g, list, found, Target(g, child), rank);
      forall n | n in list && n !in before
        ensures Reaches(g, bs, n)
      {
        ReachesStep(g, bs, Target(g, child), n);
      }
    }
    forall v | Points(g, bs, v)
      ensures v in list
    {
      var e := PointsChild(g, bs, v);
      var j :| 0 <= j < |g.children[bs]| && g.children[bs][j] == e;
      assert TargetIn(g, g.children[bs][j], list);
    }
    TopoCons(g, bs, list);
    ReachesSelf(g, bs);
    list := [bs] + list;
  }

  predicate TargetIn(g: Graph, e: Edge, list: seq<Node>) {
    e in g.edges && g.edges[e].bs.Some? && Target(g, e) in list
  }

  /** A sorted list holds everything its members reach. */
  lemma {:induction false} TopoClosed(g: Graph, list: seq<Node>, u: Node, path: seq<Node>, v: Node)
    requires TopoSorted(g, list) && u in list && Leads(g, u, path, v)
    ensures v in list
    decreases path
  {
    if path != [] {
      var i :| 0 <= i < |list| && list[i] == u;
      assert ChildrenLater(g, list, i);
      TopoClosed(g, list, path[0], path[1..], v);
    }
  }

  // --------------------------------------------------------------------------
  // Going through a sorted list

  lemma PermsCompose(g: Graph, h: Graph, k: Graph, es: set<Edge>, fs: set<Edge>)
    requires PermsDiffer(g, h, es) && PermsDiffer(h, k, fs)
    ensures PermsDiffer(g, k, es + fs)
  {
  }

  /** The edges below a node. */
  function Below(g: Graph, n: Node): set<Edge> {
    if n in g.children then set e | e in g.children[n] else {}
  }

  /** An edge below a node of a sorted list is neither above nor below an earlier node, nor of one outside the list. */
  lemma BelowIsApart(g: Graph, list: seq<Node>, i: nat, n: Node, e: Edge)
    requires Consistent(g) && TopoSorted(g, list) && i < |list| && e in Below(g, list[i])
    requires n in g.parents && (n in list[..i] || n !in list)
    ensures e !in g.parents[n] && e !in g.children[n]
  {
    assert ChildrenOk(g, list[i]) && ChildrenOk(g, n) && ParentsOk(g, n) && ChildrenLater(g, list, i);
    ChildPoints(g, list[i], e);
    var k :| i + 1 <= k < |list| && list[k] == Target(g, e);
    if n in list[..i] {
      var j :| 0 <= j < i && list[j] == n;
    }
  }

  /** Refreshing one node of a sorted list leaves alone what was established at the earlier ones. */
  lemma RefreshKeeps(d: Drivers, g: Graph, h: Graph, list: seq<Node>, i: nat, n: Node)
    requires Consistent(g) && TopoSorted(g, list) && i < |list| && PermsDiffer(g, h, Below(g, list[i]))
    requires NodeOk(d, g, n) && (n in list[..i] || n !in list)
    ensures NodeOk(d, h, n)
  {
    forall e | e in Below(g, list[i])
      ensures e !in g.parents[n] && e !in g.children[n]
    {
      BelowIsApart(g, list, i, n, e);
    }
    NodeOkFrame(d, g, h, Below(g, list[i]), n);
  }

  lemma TopoFrame(g: Graph, h: Graph, es: set<Edge>, list: seq<Node>)
    requires PermsDiffer(g, h, es) && TopoSorted(g, list)
    ensures TopoSorted(h, list)
  {
    forall i | 0 <= i < |list|
      ensures ChildrenLater(h, list, i)
    {
      assert ChildrenLater(g, list, i);
      forall v: Node | Points(h, list[i], v)
        ensures v in list[i + 1..]
      {
        PermsKeepPoints(g, h, es, list[i], v);
      }
    }
  }

  lemma {:induction false} LeadsFrame(g: Graph, h: Graph, es: set<Edge>, u: Node, path: seq<Node>, v: Node)
    requires PermsDiffer(g, h, es) && Leads(h, u, path, v)
    ensures Leads(g, u, path, v)
    decreases path
  {
    if path != [] {
      PermsKeepPoints(g, h, es, u, path[0]);
      LeadsFrame(g, h, es, path[0], path[1..], v);
    }
  }

  /** bdrv_parent_perms_conflict: all pairs of parents, in both directions. */
  method ParentPermsConflict(g: Graph, n: Node) returns (conflict: bool)
    requires Consistent(g) && n in g.parents
    ensures conflict <==> !ParentsAgree(g, n)
  {
    var es := g.parents[n];
    assert ParentsOk(g, n);
    for i := 0 to |es|
      invariant forall j, k :: 0 <= j < i && 0 <= k < |es| && es[j] != es[k] ==> Allows(g, es[j], es[k])
    {
      for k := 0 to |es|
        invariant forall j :: 0 <= j < k && es[i] != es[j] ==> Allows(g, es[i], es[j])
      {
        if es[i] != es[k] && !Allows(g, es[i], es[k]) { return true; }
      }
    }
    return false;
  }
}
