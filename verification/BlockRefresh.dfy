/**
 * When a permission refresh succeeds: exactly if the permissions of the edges
 * that it may set can be chosen so that every node it visits is right.
 */
module BlockRefresh {
  import opened BlockGraph
  import opened BlockPerm
  import opened Common

  // --------------------------------------------------------------------------
  // Solutions

  /** The edges whose permissions the refresh of these nodes sets. */
  function Settable(d: Drivers, g: Graph, nodes: set<Node>): set<Edge> {
    set e | e in g.edges && SetBy(d, g.edges[e], nodes)
  }

  predicate SetBy(d: Drivers, c: Child, nodes: set<Node>) {
    c.bs.Some? && c.parent.OfNode? && c.parent.node in nodes && c.parent.node in d.driver
  }

  /** h is the graph with permissions on the settable edges that make all these nodes right. */
  ghost predicate Solves(d: Drivers, g: Graph, h: Graph, nodes: set<Node>) {
    && PermsDiffer(g, h, Settable(d, g, nodes))
    && forall n {:trigger NodeOk(d, h, n)} :: n in nodes ==> NodeOk(d, h, n)
  }

  function Listed(list: seq<Node>): set<Node> { set n | n in list }

  /** The nodes that one of the roots reaches. */
  ghost function Under(g: Graph, roots: set<Node>): set<Node> {
    set n | n in g.parents && IsUnder(g, roots, n)
  }

  ghost predicate IsUnder(g: Graph, roots: set<Node>, n: Node) {
    exists r :: r in roots && Reaches(g, r, n)
  }

  ghost predicate Refreshable(d: Drivers, g: Graph, roots: set<Node>) {
    exists h :: Solves(d, g, h, Under(g, roots))
  }

  /** The same, for any graph with these nodes and edges: the order of siblings does not matter. */
  ghost predicate CanRefresh(d: Drivers, nodes: set<Node>, edges: map<Edge, Child>, roots: set<Node>) {
    exists k :: HasEdges(k, nodes, edges) && Refreshable(d, k, roots)
  }

  ghost predicate HasEdges(k: Graph, nodes: set<Node>, edges: map<Edge, Child>) {
    Consistent(k) && k.parents.Keys == nodes && k.edges == edges
  }

  // --------------------------------------------------------------------------
  // The refresh finds the solution

  /** On the edges below the nodes that are done, g is like h; elsewhere it is as at the start. */
  ghost predicate Agree(d: Drivers, g0: Graph, g: Graph, h: Graph, done: set<Node>) {
    forall e {:trigger AgreeAt(d, g0, g, h, done, e)} :: e in g0.edges ==> AgreeAt(d, g0, g, h, done, e)
  }

  predicate AgreeAt(d: Drivers, g0: Graph, g: Graph, h: Graph, done: set<Node>, e: Edge)
    requires e in g0.edges
  {
    && e in g.edges && e in h.edges
    && g.edges[e] == if SetBy(d, g0.edges[e], done) then h.edges[e] else g0.edges[e]
  }

  /** Where n = list[i] is next, all that uses n is as in the solution. */
  lemma ParentsAsSolved(d: Drivers, g0: Graph, g: Graph, h: Graph, list: seq<Node>, i: nat, e: Edge)
    requires Consistent(g0) && TopoSorted(g0, list) && i < |list| && list[i] in g0.parents
    requires Solves(d, g0, h, Listed(list)) && Agree(d, g0, g, h, Listed(list[..i])) && e in g0.parents[list[i]]
    ensures e in g.edges && e in h.edges && g.edges[e] == h.edges[e]
  {
    var n := list[i];
    assert ParentsOk(g0, n);
    assert AgreeAt(d, g0, g, h, Listed(list[..i]), e);
    if SetBy(d, g0.edges[e], Listed(list)) {
      var u := g0.edges[e].parent.node;
      var j :| 0 <= j < |list| && list[j] == u;
      assert Points(g0, u, n);
      assert ChildrenLater(g0, list, j);
      var k :| j + 1 <= k < |list| && list[k] == n;
      assert list[..i][j] == u;
    }
  }

  /** So the checks at n have the same result as in the solution. */
  lemma ChecksAsSolved(d: Drivers, g0: Graph, g: Graph, h: Graph, list: seq<Node>, i: nat)
    requires Consistent(g0) && TopoSorted(g0, list) && i < |list| && list[i] in g0.parents
    requires PermsDiffer(g0, g, g0.edges.Keys)
    requires Solves(d, g0, h, Listed(list)) && Agree(d, g0, g, h, Listed(list[..i]))
    ensures Cumulative(g, list[i]) == Cumulative(h, list[i])
    ensures ParentsAgree(g, list[i]) <==> ParentsAgree(h, list[i])
  {
    var n := list[i];
    forall e | e in g0.parents[n]
      ensures e in g.edges && e in h.edges && g.edges[e] == h.edges[e] && SamePerms(g, h, e)
    {
      ParentsAsSolved(d, g0, g, h, list, i, e);
    }
    CumulativeFrame(g, h, g0.parents[n]);
    if ParentsAgree(g, n) { AgreeFrame(g, h, n); }
    if ParentsAgree(h, n) { AgreeFrame(h, g, n); }
  }

  lemma AgreeFrame(g: Graph, h: Graph, n: Node)
    requires n in g.parents && n in h.parents && g.parents[n] == h.parents[n] && ParentsAgree(g, n)
    requires forall e :: e in g.parents[n] ==> SamePerms(g, h, e)
    ensures ParentsAgree(h, n)
  {
    forall a, b | a in h.parents[n] && b in h.parents[n] && a != b && a in h.edges && b in h.edges
      ensures Allows(h, a, b)
    {
      assert SamePerms(g, h, a) && SamePerms(g, h, b);
      assert Allows(g, a, b);
    }
  }

  /** Every solution agrees with the graph so far. */
  ghost predicate Tracks(d: Drivers, g0: Graph, g: Graph, list: seq<Node>, i: nat)
    requires i <= |list|
  {
    forall h {:trigger Solves(d, g0, h, Listed(list))} ::
      Solves(d, g0, h, Listed(list)) ==> Agree(d, g0, g, h, Listed(list[..i]))
  }

  lemma TracksStart(d: Drivers, g: Graph, list: seq<Node>)
    ensures Tracks(d, g, g, list, 0)
  {
    forall h | Solves(d, g, h, Listed(list))
      ensures Agree(d, g, g, h, Listed(list[..0]))
    {
      forall e | e in g.edges
        ensures AgreeAt(d, g, g, h, Listed(list[..0]), e)
      {
      }
    }
  }

  /** The checks of bdrv_parent_perms_conflict and bdrv_node_refresh_perm. */
  ghost predicate Passes(d: Drivers, g: Graph, n: Node) {
    && n in g.parents && ParentsAgree(g, n) && MayWrite(d, n, Cumulative(g, n).0)
    && (n in d.driver ==> d.checkPerm(n, Cumulative(g, n).0, Cumulative(g, n).1))
  }

  lemma PassesIff(d: Drivers, g: Graph, n: Node)
    requires Consistent(g) && n in g.parents
    ensures Passes(d, g, n) <==> Permitted(d, g, n)
  {
    CumulativeIs(g, n);
    ParentsAgreeIff(g, n);
    MayWriteIff(d, g, n);
  }

  /** If a check fails, there is no solution. */
  lemma TracksFails(d: Drivers, g0: Graph, g: Graph, list: seq<Node>, i: nat)
    requires Consistent(g0) && TopoSorted(g0, list) && i < |list| && list[i] in g0.parents
    requires PermsDiffer(g0, g, g0.edges.Keys) && Tracks(d, g0, g, list, i) && !Passes(d, g, list[i])
    ensures forall h :: !Solves(d, g0, h, Listed(list))
  {
    forall h
      ensures !Solves(d, g0, h, Listed(list))
    {
      if Solves(d, g0, h, Listed(list)) { SolutionPasses(d, g0, g, h, list, i); }
    }
  }

  lemma SolutionPasses(d: Drivers, g0: Graph, g: Graph, h: Graph, list: seq<Node>, i: nat)
    requires Consistent(g0) && TopoSorted(g0, list) && i < |list| && list[i] in g0.parents
    requires PermsDiffer(g0, g, g0.edges.Keys)
    requires Solves(d, g0, h, Listed(list)) && Agree(d, g0, g, h, Listed(list[..i]))
    ensures Passes(d, g, list[i])
  {
    ChecksAsSolved(d, g0, g, h, list, i);
    assert NodeOk(d, h, list[i]);
  }

  /** What the refresh of a node that passes makes of the graph. */
  ghost predicate NodeDone(d: Drivers, g: Graph, k: Graph, n: Node) {
    PermsDiffer(g, k, Settable(d, g, {n})) && NodeOk(d, k, n)
  }

  lemma TracksNext(d: Drivers, g0: Graph, g: Graph, k: Graph, list: seq<Node>, i: nat)
    requires Consistent(g0) && Acyclic(g0) && TopoSorted(g0, list) && i < |list| && list[i] in g0.parents
    requires PermsDiffer(g0, g, g0.edges.Keys) && Tracks(d, g0, g, list, i) && NodeDone(d, g, k, list[i])
    ensures Tracks(d, g0, k, list, i + 1)
  {
    forall h | Solves(d, g0, h, Listed(list))
      ensures Agree(d, g0, k, h, Listed(list[..i + 1]))
    {
      ChecksAsSolved(d, g0, g, h, list, i);
      SameCumulative(d, g0, g, k, list[i]);
      assert NodeOk(d, h, list[i]);
      forall e | e in g0.edges
        ensures AgreeAt(d, g0, k, h, Listed(list[..i + 1]), e)
      {
        AgreesNext(d, g0, g, k, h, list, i, e);
      }
    }
  }

  /** Setting the edges below n does not change the cumulative permissions of n. */
  lemma SameCumulative(d: Drivers, g0: Graph, g: Graph, k: Graph, n: Node)
    requires Consistent(g0) && Acyclic(g0) && n in g0.parents
    requires PermsDiffer(g0, g, g0.edges.Keys) && PermsDiffer(g, k, Settable(d, g, {n}))
    ensures Cumulative(k, n) == Cumulative(g, n)
  {
    assert ParentsOk(g0, n);
    forall e | e in g.parents[n]
      ensures SamePerms(g, k, e)
    {
      NoSelfEdge(g0, e, n);
    }
    CumulativeFrame(g, k, g.parents[n]);
  }

  lemma NoSelfEdge(g: Graph, e: Edge, n: Node)
    requires Acyclic(g) && e in g.edges && g.edges[e].bs == Some(n)
    ensures g.edges[e].parent != OfNode(n)
  {
    var rank :| Ranked(g, rank);
    assert !Points(g, n, n);
  }

  lemma AgreesNext(d: Drivers, g0: Graph, g: Graph, k: Graph, h: Graph, list: seq<Node>, i: nat, e: Edge)
    requires Consistent(g0) && i < |list| && list[i] in g0.parents && e in g0.edges
    requires PermsDiffer(g0, g, g0.edges.Keys) && NodeDone(d, g, k, list[i]) && NodeOk(d, h, list[i])
    requires PermsDiffer(g0, h, g0.edges.Keys) && Cumulative(k, list[i]) == Cumulative(h, list[i])
    requires Agree(d, g0, g, h, Listed(list[..i]))
    ensures AgreeAt(d, g0, k, h, Listed(list[..i + 1]), e)
  {
    var n := list[i];
    assert list[..i + 1] == list[..i] + [n];
    assert AgreeAt(d, g0, g, h, Listed(list[..i]), e);
    if SetBy(d, g0.edges[e], {n}) {
      assert EdgeOk(g0, e) && e in g0.children[n];
      assert EdgeFollows(d, k, n, e) && EdgeFollows(d, h, n, e);
    }
  }

  /** In the end the graph is the only solution. */
  lemma TracksEnd(d: Drivers, g0: Graph, g: Graph, list: seq<Node>)
    requires Tracks(d, g0, g, list, |list|) && Solves(d, g0, g, Listed(list))
    ensures forall h :: Solves(d, g0, h, Listed(list)) ==> h == g
  {
    assert list[..|list|] == list;
    forall h | Solves(d, g0, h, Listed(list))
      ensures h == g
    {
      forall e | e in g0.edges
        ensures h.edges[e] == g.edges[e]
      {
        assert AgreeAt(d, g0, g, h, Listed(list), e);
      }
      assert h.edges == g.edges;
    }
  }

  // --------------------------------------------------------------------------
  // The order of siblings does not matter

  lemma {:induction false} LeadsByEdges(g: Graph, k: Graph, u: Node, path: seq<Node>, v: Node)
    requires g.edges == k.edges && Leads(g, u, path, v)
    ensures Leads(k, u, path, v)
    decreases path
  {
    if path != [] {
      var e :| e in g.edges && g.edges[e].parent == OfNode(u) && g.edges[e].bs == Some(path[0]);
      assert e in k.edges && k.edges[e].parent == OfNode(u) && k.edges[e].bs == Some(path[0]);
      LeadsByEdges(g, k, path[0], path[1..], v);
    }
  }

  lemma UnderByEdges(g: Graph, k: Graph, roots: set<Node>)
    requires g.edges == k.edges && g.parents.Keys == k.parents.Keys
    ensures Under(g, roots) == Under(k, roots)
  {
    forall n: Node
      ensures IsUnder(g, roots, n) <==> IsUnder(k, roots, n)
    {
      if IsUnder(g, roots, n) {
        var r :| r in roots && Reaches(g, r, n);
        var path :| Leads(g, r, path, n);
        LeadsByEdges(g, k, r, path, n);
      }
      if IsUnder(k, roots, n) {
        var r :| r in roots && Reaches(k, r, n);
        var path :| Leads(k, r, path, n);
        LeadsByEdges(k, g, r, path, n);
      }
    }
  }

  lemma CumulativeByEdges(g: Graph, k: Graph, n: Node)
    requires n in g.parents && n in k.parents && g.edges == k.edges
    requires forall e :: e in g.parents[n] <==> e in k.parents[n]
    requires forall e :: e in g.parents[n] ==> e in g.edges
    ensures Cumulative(g, n) == Cumulative(k, n)
  {
    forall p: Perm
      ensures p in Cumulative(g, n).0 <==> p in Cumulative(k, n).0
      ensures p in Cumulative(g, n).1 <==> p in Cumulative(k, n).1
    {
      CumulativeMeaning(g, g.parents[n], p);
      CumulativeMeaning(k, k.parents[n], p);
    }
    assert Cumulative(g, n).0 == Cumulative(k, n).0 && Cumulative(g, n).1 == Cumulative(k, n).1;
  }

  /** Two lists of the same edges. */
  ghost predicate SameLists(g: Graph, k: Graph, n: Node) {
    && n in g.parents && n in k.parents && n in g.children && n in k.children
    && (forall e :: e in g.parents[n] <==> e in k.parents[n])
    && (forall e :: e in g.children[n] <==> e in k.children[n])
    && (forall e :: e in g.parents[n] ==> e in g.edges)
  }

  lemma ListsByEdges(g: Graph, k: Graph, n: Node)
    requires Consistent(g) && Consistent(k) && g.edges == k.edges && n in g.parents && n in k.parents
    ensures SameLists(g, k, n)
  {
    assert ParentsOk(g, n) && ParentsOk(k, n) && ChildrenOk(g, n) && ChildrenOk(k, n);
    forall e | e in g.edges
      ensures EdgeOk(g, e) && EdgeOk(k, e)
    {
    }
  }

  lemma NodeOkByEdges(d: Drivers, g: Graph, k: Graph, n: Node)
    requires g.edges == k.edges && SameLists(g, k, n) && NodeOk(d, g, n)
    ensures NodeOk(d, k, n)
  {
    CumulativeByEdges(g, k, n);
    forall e | n in d.driver && e in k.children[n]
      ensures EdgeFollows(d, k, n, e)
    {
      assert EdgeFollows(d, g, n, e);
    }
  }

  /** A solution for one order of siblings is one for any other. */
  lemma SolvesByEdges(d: Drivers, g: Graph, k: Graph, h: Graph, nodes: set<Node>)
    requires Consistent(g) && Consistent(k) && g.edges == k.edges && g.parents.Keys == k.parents.Keys
    requires Solves(d, g, h, nodes)
    ensures Solves(d, k, k.(edges := h.edges), nodes)
  {
    var l := k.(edges := h.edges);
    forall n | n in nodes
      ensures NodeOk(d, l, n)
    {
      assert NodeOk(d, h, n);
      ListsByEdges(g, k, n);
      NodeOkByEdges(d, h, l, n);
    }
  }

  lemma RefreshableByEdges(d: Drivers, g: Graph, k: Graph, roots: set<Node>)
    requires Consistent(g) && Consistent(k) && g.edges == k.edges && g.parents.Keys == k.parents.Keys
    requires Refreshable(d, g, roots)
    ensures Refreshable(d, k, roots)
  {
    var h :| Solves(d, g, h, Under(g, roots));
    UnderByEdges(g, k, roots);
    SolvesByEdges(d, g, k, h, Under(g, roots));
  }

  lemma CanRefreshIff(d: Drivers, g: Graph, roots: set<Node>)
    requires Consistent(g)
    ensures CanRefresh(d, g.parents.Keys, g.edges, roots) <==> Refreshable(d, g, roots)
  {
    if CanRefresh(d, g.parents.Keys, g.edges, roots) {
      var k :| HasEdges(k, g.parents.Keys, g.edges) && Refreshable(d, k, roots);
      RefreshableByEdges(d, k, g, roots);
    }
    assert HasEdges(g, g.parents.Keys, g.edges);
  }

  // --------------------------------------------------------------------------
  // One node, and one after the other

  /** The edge carries what n's driver asks for, given these cumulative permissions. */
  predicate Asks(d: Drivers, g: Graph, n: Node, e: Edge, perm: Perms, shared: Perms) {
    && e in g.edges && g.edges[e].bs.Some?
    && (g.edges[e].perm, g.edges[e].shared) ==
         ChildPerm(d, n, g.edges[e].bs.value, Some(e), g.edges[e].role, perm, shared)
  }

  /** The first i child edges of n carry what its driver asks for, and nothing else has changed. */
  ghost predicate Asking(d: Drivers, g0: Graph, g: Graph, n: Node, perm: Perms, shared: Perms, i: nat) {
    && n in g0.children && i <= |g0.children[n]| && ChildrenOk(g0, n) && PermsDiffer(g0, g, Below(g0, n))
    && forall j {:trigger Asks(d, g, n, g0.children[n][j], perm, shared)} ::
         0 <= j < i ==> Asks(d, g, n, g0.children[n][j], perm, shared)
  }

  lemma AskingNext(d: Drivers, g0: Graph, g: Graph, n: Node, perm: Perms, shared: Perms, i: nat)
    requires Asking(d, g0, g, n, perm, shared, i) && i < |g0.children[n]|
    ensures var c := g0.children[n][i];
            && c in g.edges && g.edges[c].bs.Some?
            && var (p, s) := ChildPerm(d, n, g.edges[c].bs.value, Some(c), g.edges[c].role, perm, shared);
               Asking(d, g0, WithPerm(g, c, p, s), n, perm, shared, i + 1)
  {
    var es := g0.children[n];
    var c := es[i];
    assert c in es;
    var (p, s) := ChildPerm(d, n, g.edges[c].bs.value, Some(c), g.edges[c].role, perm, shared);
    var h := WithPerm(g, c, p, s);
    forall j | 0 <= j < i + 1
      ensures Asks(d, h, n, es[j], perm, shared)
    {
      if j < i { assert Asks(d, g, n, es[j], perm, shared); }
    }
  }

  lemma BelowIsSettable(d: Drivers, g: Graph, n: Node)
    requires Consistent(g) && n in g.children
    ensures Settable(d, g, {n}) == if n in d.driver then Below(g, n) else {}
  {
    assert ChildrenOk(g, n);
    forall e | e in g.edges
      ensures EdgeOk(g, e)
    {
    }
  }

  lemma PermsDifferMore(g: Graph, h: Graph, es: set<Edge>, fs: set<Edge>)
    requires PermsDiffer(g, h, es) && es <= fs
    ensures PermsDiffer(g, h, fs)
  {
  }

  lemma RefreshedParents(d: Drivers, g: Graph, h: Graph, n: Node)
    requires Consistent(g) && Acyclic(g) && n in g.parents && ParentsAgree(g, n)
    requires PermsDiffer(g, h, Settable(d, g, {n}))
    ensures ParentsAgree(h, n) && Cumulative(h, n) == Cumulative(g, n)
  {
    PermsDifferMore(g, g, {}, g.edges.Keys);
    SameCumulative(d, g, g, h, n);
    assert ParentsOk(g, n);
    forall e | e in g.parents[n]
      ensures SamePerms(g, h, e)
    {
      NoSelfEdge(g, e, n);
    }
    AgreeFrame(g, h, n);
  }

  /** A node that passes its checks is right once its child edges carry what its driver asks for. */
  lemma RefreshedOk(d: Drivers, g: Graph, h: Graph, n: Node)
    requires Consistent(g) && Acyclic(g) && Passes(d, g, n) && PermsDiffer(g, h, Settable(d, g, {n}))
    requires n in d.driver ==>
               Asking(d, g, h, n, Cumulative(g, n).0, Cumulative(g, n).1, |g.children[n]|)
    ensures NodeDone(d, g, h, n)
  {
    RefreshedParents(d, g, h, n);
    forall e | n in d.driver && e in h.children[n]
      ensures EdgeFollows(d, h, n, e)
    {
      var j :| 0 <= j < |g.children[n]| && g.children[n][j] == e;
      assert Asks(d, h, n, g.children[n][j], Cumulative(g, n).0, Cumulative(g, n).1);
    }
  }

  /** The state of the refresh before node i of the list. */
  ghost predicate Refreshing(d: Drivers, g0: Graph, g: Graph, list: seq<Node>, i: nat) {
    && i <= |list| && Consistent(g0) && Acyclic(g0)
    && TopoSorted(g0, list) && (forall n :: n in list ==> n in g0.parents)
    && PermsDiffer(g0, g, Settable(d, g0, Listed(list[..i]))) && Tracks(d, g0, g, list, i)
    && (forall n {:trigger NodeOk(d, g, n)} :: n in list[..i] ==> NodeOk(d, g, n))
    && (forall n {:trigger NodeOk(d, g, n)} :: n !in list && NodeOk(d, g0, n) ==> NodeOk(d, g, n))
  }

  lemma RefreshingStarts(d: Drivers, g: Graph, list: seq<Node>)
    requires Consistent(g) && Acyclic(g) && TopoSorted(g, list) && forall n :: n in list ==> n in g.parents
    ensures Refreshing(d, g, g, list, 0)
  {
    TracksStart(d, g, list);
  }

  lemma RefreshingNext(d: Drivers, g0: Graph, g: Graph, k: Graph, list: seq<Node>, i: nat)
    requires Refreshing(d, g0, g, list, i) && i < |list| && Consistent(g) && NodeDone(d, g, k, list[i])
    ensures Refreshing(d, g0, k, list, i + 1)
  {
    assert list[..i + 1] == list[..i] + [list[i]];
    PermsDifferMore(g0, g, Settable(d, g0, Listed(list[..i])), g0.edges.Keys);
    TracksNext(d, g0, g, k, list, i);
    PermsCompose(g0, g, k, Settable(d, g0, Listed(list[..i])), Settable(d, g, {list[i]}));
    assert Settable(d, g0, Listed(list[..i])) + Settable(d, g, {list[i]}) == Settable(d, g0, Listed(list[..i + 1]));
    OthersStay(d, g0, g, k, list, i);
  }

  lemma OthersStay(d: Drivers, g0: Graph, g: Graph, k: Graph, list: seq<Node>, i: nat)
    requires Refreshing(d, g0, g, list, i) && i < |list| && Consistent(g) && NodeDone(d, g, k, list[i])
    ensures forall n {:trigger NodeOk(d, k, n)} :: n in list[..i + 1] ==> NodeOk(d, k, n)
    ensures forall n {:trigger NodeOk(d, k, n)} :: n !in list && NodeOk(d, g0, n) ==> NodeOk(d, k, n)
  {
    assert list[..i + 1] == list[..i] + [list[i]];
    TopoFrame(g0, g, Settable(d, g0, Listed(list[..i])), list);
    BelowIsSettable(d, g, list[i]);
    PermsDifferMore(g, k, Settable(d, g, {list[i]}), Below(g, list[i]));
    forall n: Node | n in list[..i] || (n !in list && NodeOk(d, g0, n))
      ensures NodeOk(d, k, n)
    {
      assert NodeOk(d, g, n);
      RefreshKeeps(d, g, k, list, i, n);
    }
  }

  lemma RefreshingFails(d: Drivers, g0: Graph, g: Graph, list: seq<Node>, i: nat)
    requires Refreshing(d, g0, g, list, i) && i < |list| && !Passes(d, g, list[i])
    ensures forall h :: !Solves(d, g0, h, Listed(list))
  {
    PermsDifferMore(g0, g, Settable(d, g0, Listed(list[..i])), g0.edges.Keys);
    TracksFails(d, g0, g, list, i);
  }

  lemma RefreshingEnds(d: Drivers, g0: Graph, g: Graph, list: seq<Node>)
    requires Refreshing(d, g0, g, list, |list|)
    ensures Solves(d, g0, g, Listed(list)) && forall h :: Solves(d, g0, h, Listed(list)) ==> h == g
  {
    assert list[..|list|] == list;
    forall n | n in Listed(list)
      ensures NodeOk(d, g, n)
    {
    }
    TracksEnd(d, g0, g, list);
  }

  /** A sorted list that holds the roots, and only what they reach, holds all that is under them. */
  lemma ListIsUnder(g: Graph, list: seq<Node>, roots: set<Node>)
    requires TopoSorted(g, list) && (forall r :: r in roots ==> r in list)
    requires forall n :: n in list ==> n in g.parents && IsUnder(g, roots, n)
    ensures Listed(list) == Under(g, roots)
  {
    forall n: Node | IsUnder(g, roots, n)
      ensures n in list
    {
      var r :| r in roots && Reaches(g, r, n);
      var path :| Leads(g, r, path, n);
      TopoClosed(g, list, r, path, n);
    }
  }

  /** In the solved graph everything under the roots is right. */
  lemma SolvedUnder(d: Drivers, g: Graph, h: Graph, roots: set<Node>, r: Node, n: Node)
    requires Consistent(g) && Acyclic(g) && Solves(d, g, h, Under(g, roots))
    requires r in roots && r in g.parents && Reaches(h, r, n)
    ensures Right(d, h, n)
  {
    var path :| Leads(h, r, path, n);
    LeadsFrame(g, h, Settable(d, g, Under(g, roots)), r, path, n);
    var rank :| Ranked(g, rank);
    PathsGoDown(g, rank, r, path, n);
    assert IsUnder(g, roots, n) && n in Under(g, roots);
    PermsKeepLists(g, h, Settable(d, g, Under(g, roots)));
    NodeOkIsRight(d, h, n);
  }

  /** The permissions are right at every node that r reaches. */
  ghost predicate RightBelow(d: Drivers, g: Graph, r: Node) {
    forall n :: Reaches(g, r, n) ==> Right(d, g, n)
  }

  lemma SolvedBelow(d: Drivers, g: Graph, h: Graph, roots: set<Node>, r: Node)
    requires Consistent(g) && Acyclic(g) && Solves(d, g, h, Under(g, roots)) && r in roots && r in g.parents
    ensures RightBelow(d, h, r)
  {
    forall n | Reaches(h, r, n)
      ensures Right(d, h, n)
    {
      SolvedUnder(d, g, h, roots, r, n);
    }
  }

  lemma PermsKeepLists(g: Graph, h: Graph, es: set<Edge>)
    requires Consistent(g) && PermsDiffer(g, h, es)
    ensures Consistent(h)
  {
    forall e | e in h.edges
      ensures EdgeOk(h, e)
    {
      assert EdgeOk(g, e);
    }
    forall n | n in h.parents
      ensures ParentsOk(h, n) && ChildrenOk(h, n)
    {
      assert ParentsOk(g, n) && ChildrenOk(g, n);
    }
  }

  /** A solution, said of the edges alone. */
  lemma SolvesIff(d: Drivers, g: Graph, h: Graph, nodes: set<Node>)
    requires Consistent(g) && nodes <= g.parents.Keys
    ensures Solves(d, g, h, nodes) <==>
            && h.children == g.children && h.parents == g.parents && h.edges.Keys == g.edges.Keys
            && (forall e :: e in g.edges ==>
                  && h.edges[e] == g.edges[e].(perm := h.edges[e].perm, shared := h.edges[e].shared)
                  && (h.edges[e] != g.edges[e] ==>
                        && g.edges[e].bs.Some? && g.edges[e].parent.OfNode?
                        && g.edges[e].parent.node in nodes && g.edges[e].parent.node in d.driver))
            && forall n :: n in nodes ==> Right(d, h, n)
  {
    if PermsDiffer(g, h, Settable(d, g, nodes)) {
      PermsKeepLists(g, h, Settable(d, g, nodes));
      forall n | n in nodes
        ensures NodeOk(d, h, n) <==> Right(d, h, n)
      {
        NodeOkIsRight(d, h, n);
      }
    }
  }
}
