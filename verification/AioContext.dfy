/**
 * Changing the AioContext of a node and of all that is connected to it
 * (block.c, blockjob.c). The recursion only collects what has to move; nothing
 * moves before every user has agreed.
 */
module AioContext {
  import opened BlockGraph
  import opened Common

  type Context = nat
  type Job = nat

  /** A record of the transaction, run on commit only. */
  datatype Move = MoveNode(node: Node) | MoveJob(job: Job)

  /** The block graph, the edges of each job, and the users that can change their context. */
  datatype World = World(g: Graph, jobs: map<Job, seq<Edge>>, willing: set<nat>)

  ghost predicate JobListed(w: World, e: Edge)
    requires e in w.g.edges
  {
    w.g.edges[e].bs.Some? && w.g.edges[e].parent.OfJob? ==>
      w.g.edges[e].parent.job in w.jobs && e in w.jobs[w.g.edges[e].parent.job]
  }

  ghost predicate JobOk(w: World, j: Job)
    requires j in w.jobs
  {
    forall e :: e in w.jobs[j] ==> e in w.g.edges && w.g.edges[e].bs.Some? && w.g.edges[e].parent == OfJob(j)
  }

  /** The lists of the graph and of the jobs fit the edges. */
  ghost predicate Formed(w: World) {
    && Consistent(w.g)
    && (forall e {:trigger JobListed(w, e)} :: e in w.g.edges ==> JobListed(w, e))
    && (forall j {:trigger JobOk(w, j)} :: j in w.jobs ==> JobOk(w, j))
  }

  // --------------------------------------------------------------------------
  // Connected nodes

  ghost predicate Targets(w: World, e: Edge, n: Node) {
    e in w.g.edges && w.g.edges[e].bs == Some(n)
  }

  /** The parent of both edges is one job. */
  ghost predicate OneJob(w: World, e: Edge, f: Edge)
    requires e in w.g.edges && f in w.g.edges
  {
    w.g.edges[e].parent.OfJob? && w.g.edges[e].parent == w.g.edges[f].parent
  }

  /** A job uses both nodes. */
  ghost predicate Siblings(w: World, n: Node, m: Node) {
    exists e, f :: Targets(w, e, n) && Targets(w, f, m) && OneJob(w, e, f)
  }

  ghost predicate Adjacent(w: World, n: Node, m: Node) {
    Points(w.g, n, m) || Points(w.g, m, n) || Siblings(w, n, m)
  }

  ghost predicate Joined(w: World, n: Node, path: seq<Node>, m: Node)
    decreases path
  {
    if path == [] then n == m else Adjacent(w, n, path[0]) && Joined(w, path[0], path[1..], m)
  }

  ghost predicate Connected(w: World, n: Node, m: Node) {
    exists path :: Joined(w, n, path, m)
  }

  lemma {:induction false} JoinedThen(w: World, n: Node, path: seq<Node>, m: Node, k: Node)
    requires Joined(w, n, path, m) && Adjacent(w, m, k)
    ensures Joined(w, n, path + [k], k)
    decreases path
  {
    if path == [] {
      assert Joined(w, k, [], k);
      assert (path + [k])[1..] == [];
    } else {
      JoinedThen(w, path[0], path[1..], m, k);
      assert (path + [k])[1..] == path[1..] + [k];
    }
  }

  lemma AdjacentIsConnected(w: World, n: Node, m: Node, k: Node)
    requires Connected(w, n, m) && Adjacent(w, m, k)
    ensures Connected(w, n, k)
  {
    var path :| Joined(w, n, path, m);
    JoinedThen(w, n, path, m, k);
  }

  lemma {:induction false} ClosedHoldsAll(w: World, s: set<Node>, n: Node, path: seq<Node>, m: Node)
    requires (forall x, y :: x in s && Adjacent(w, x, y) ==> y in s) && n in s && Joined(w, n, path, m)
    ensures m in s
    decreases path
  {
    if path != [] {
      ClosedHoldsAll(w, s, path[0], path[1..], m);
    }
  }

  // --------------------------------------------------------------------------
  // The state of the search

  /** A node that is queued to move, or whose edges are being gone through. */
  predicate NodeSeen(tran: seq<Move>, sn: set<Node>, n: Node) { MoveNode(n) in tran || n in sn }

  predicate JobSeen(tran: seq<Move>, sj: set<Job>, j: Job) { MoveJob(j) in tran || j in sj }

  /** Both ends of a visited edge have been seen. */
  ghost predicate EdgeSeen(w: World, tran: seq<Move>, sn: set<Node>, sj: set<Job>, e: Edge) {
    && e in w.g.edges && w.g.edges[e].bs.Some? && NodeSeen(tran, sn, w.g.edges[e].bs.value)
    && match w.g.edges[e].parent
       case OfNode(u) => NodeSeen(tran, sn, u)
       case OfJob(j) => JobSeen(tran, sj, j)
       case OfUser(u) => u in w.willing
  }

  predicate EdgesOf(w: World, m: Move, e: Edge) {
    match m
    case MoveNode(n) => (n in w.g.parents && e in w.g.parents[n]) || (n in w.g.children && e in w.g.children[n])
    case MoveJob(j) => j in w.jobs && e in w.jobs[j]
  }

  /** All edges of what is queued to move have been visited, and it belongs to the component. */
  ghost predicate MoveSeen(w: World, visited: set<Edge>, start: Node, m: Move) {
    && (forall e :: EdgesOf(w, m, e) ==> e in visited)
    && Belongs(w, start, m)
  }

  /** The node or job is part of the component of `start`. */
  ghost predicate Belongs(w: World, start: Node, m: Move) {
    match m
    case MoveNode(n) => n in w.g.parents && Connected(w, start, n)
    case MoveJob(j) => exists e :: JobEdgeIn(w, start, j, e)
  }

  ghost predicate JobEdgeIn(w: World, start: Node, j: Job, e: Edge) {
    && j in w.jobs && e in w.jobs[j]
    && e in w.g.edges && w.g.edges[e].bs.Some? && Connected(w, start, w.g.edges[e].bs.value)
  }

  /** sn and sj are the nodes and jobs that the recursion is in the middle of. */
  ghost predicate Collecting(w: World, start: Node, visited: set<Edge>, tran: seq<Move>, sn: set<Node>, sj: set<Job>) {
    && visited <= w.g.edges.Keys
    && (forall e {:trigger EdgeSeen(w, tran, sn, sj, e)} :: e in visited ==> EdgeSeen(w, tran, sn, sj, e))
    && (forall m {:trigger MoveSeen(w, visited, start, m)} :: m in tran ==> MoveSeen(w, visited, start, m))
  }

  /** Marking an edge as visited, while its ends are being dealt with. */
  lemma Visit(w: World, start: Node, visited: set<Edge>, tran: seq<Move>, sn: set<Node>, sj: set<Job>,
              sn': set<Node>, sj': set<Job>, e: Edge)
    requires Collecting(w, start, visited, tran, sn, sj) && sn <= sn' && sj <= sj' && EdgeSeen(w, tran, sn', sj', e)
    ensures Collecting(w, start, visited + {e}, tran, sn', sj')
  {
    forall x | x in visited
      ensures EdgeSeen(w, tran, sn', sj', x)
    {
      assert EdgeSeen(w, tran, sn, sj, x);
    }
    forall m | m in tran
      ensures MoveSeen(w, visited + {e}, start, m)
    {
      assert MoveSeen(w, visited, start, m);
    }
  }

  /** Queueing a node or job whose edges have all been visited. */
  lemma Finish(w: World, start: Node, visited: set<Edge>, tran: seq<Move>, sn: set<Node>, sj: set<Job>,
               sn': set<Node>, sj': set<Job>, m: Move)
    requires Collecting(w, start, visited, tran, sn', sj') && MoveSeen(w, visited, start, m)
    requires sn' == if m.MoveNode? then sn + {m.node} else sn
    requires sj' == if m.MoveJob? then sj + {m.job} else sj
    ensures Collecting(w, start, visited, tran + [m], sn, sj)
  {
    forall x | x in visited
      ensures EdgeSeen(w, tran + [m], sn, sj, x)
    {
      assert EdgeSeen(w, tran, sn', sj', x);
    }
  }

  /** When the search is over, what was found is the whole component. */
  lemma FoundAll(w: World, start: Node, visited: set<Edge>, tran: seq<Move>, n: Node)
    requires Formed(w) && Collecting(w, start, visited, tran, {}, {}) && MoveNode(start) in tran
    ensures Connected(w, start, n) ==> MoveNode(n) in tran
  {
    var found := set m | m in tran && m.MoveNode? :: m.node;
    forall x, y | x in found && Adjacent(w, x, y)
      ensures y in found
    {
      FoundIsClosed(w, start, visited, tran, x, y);
    }
    forall path | Joined(w, start, path, n)
      ensures n in found
    {
      ClosedHoldsAll(w, found, start, path, n);
    }
  }

  lemma FoundIsClosed(w: World, start: Node, visited: set<Edge>, tran: seq<Move>, x: Node, y: Node)
    requires Formed(w) && Collecting(w, start, visited, tran, {}, {}) && MoveNode(x) in tran && Adjacent(w, x, y)
    ensures MoveNode(y) in tran
  {
    assert MoveSeen(w, visited, start, MoveNode(x));
    if Points(w.g, x, y) {
      var e := PointsChild(w.g, x, y);
      assert EdgesOf(w, MoveNode(x), e);
      assert EdgeSeen(w, tran, {}, {}, e);
    } else if Points(w.g, y, x) {
      var e :| e in w.g.edges && w.g.edges[e].parent == OfNode(y) && w.g.edges[e].bs == Some(x);
      assert EdgeOk(w.g, e);
      assert EdgesOf(w, MoveNode(x), e);
      assert EdgeSeen(w, tran, {}, {}, e);
    } else {
      var e, f :| Targets(w, e, x) && Targets(w, f, y) && OneJob(w, e, f);
      assert EdgeOk(w.g, e) && EdgesOf(w, MoveNode(x), e);
      assert EdgeSeen(w, tran, {}, {}, e);
      var j := w.g.edges[e].parent.job;
      assert MoveSeen(w, visited, start, MoveJob(j));
      assert JobListed(w, f) && EdgesOf(w, MoveJob(j), f);
      assert EdgeSeen(w, tran, {}, {}, f);
    }
  }

  // --------------------------------------------------------------------------
  // The recursion

  /** Connected nodes share one context, and so do a job and its nodes. */
  ghost predicate Uniform(w: World, ctx: map<Node, Context>, jobCtx: map<Job, Context>) {
    && ctx.Keys == w.g.parents.Keys && jobCtx.Keys == w.jobs.Keys
    && (forall n, m :: n in ctx && m in ctx && Adjacent(w, n, m) ==> ctx[n] == ctx[m])
    && (forall e {:trigger JobFollows(w, ctx, jobCtx, e)} :: e in w.g.edges ==> JobFollows(w, ctx, jobCtx, e))
  }

  ghost predicate JobFollows(w: World, ctx: map<Node, Context>, jobCtx: map<Job, Context>, e: Edge)
    requires e in w.g.edges
  {
    w.g.edges[e].parent.OfJob? && w.g.edges[e].bs.Some? ==>
      && w.g.edges[e].parent.job in jobCtx && w.g.edges[e].bs.value in ctx
      && jobCtx[w.g.edges[e].parent.job] == ctx[w.g.edges[e].bs.value]
  }

  lemma AdjacentAreNodes(w: World, n: Node, m: Node)
    requires Formed(w) && Adjacent(w, n, m)
    ensures n in w.g.parents && m in w.g.parents
  {
    forall e | e in w.g.edges
      ensures EdgeOk(w.g, e)
    {
    }
  }

  lemma {:induction false} JoinedShare(w: World, ctx: map<Node, Context>, jobCtx: map<Job, Context>,
                                       n: Node, path: seq<Node>, m: Node)
    requires Formed(w) && Uniform(w, ctx, jobCtx) && n in ctx && Joined(w, n, path, m)
    ensures m in ctx && ctx[m] == ctx[n]
    decreases path
  {
    if path != [] {
      AdjacentAreNodes(w, n, path[0]);
      JoinedShare(w, ctx, jobCtx, path[0], path[1..], m);
    }
  }

  lemma ConnectedShare(w: World, ctx: map<Node, Context>, jobCtx: map<Job, Context>, n: Node, m: Node)
    requires Formed(w) && Uniform(w, ctx, jobCtx) && n in ctx && Connected(w, n, m)
    ensures m in ctx && ctx[m] == ctx[n]
  {
    var path :| Joined(w, n, path, m);
    JoinedShare(w, ctx, jobCtx, n, path, m);
  }

  /** An edge of a user that cannot change its context, in the component of `start`. */
  ghost predicate Refuses(w: World, start: Node, e: Edge) {
    && e in w.g.edges && w.g.edges[e].bs.Some? && Connected(w, start, w.g.edges[e].bs.value)
    && w.g.edges[e].parent.OfUser? && w.g.edges[e].parent.user !in w.willing
  }

  class ContextChange {
    const w: World
    const newCtx: Context
    var ctx: map<Node, Context>
    var jobCtx: map<Job, Context>
    var visited: set<Edge>
    var tran: seq<Move>

    constructor (w: World, newCtx: Context, ctx: map<Node, Context>, jobCtx: map<Job, Context>)
      ensures this.w == w && this.newCtx == newCtx && this.ctx == ctx && this.jobCtx == jobCtx
      ensures visited == {} && tran == []
    {
      this.w, this.newCtx, this.ctx, this.jobCtx, this.visited, this.tran := w, newCtx, ctx, jobCtx, {}, [];
    }

    ghost predicate Ready(start: Node)
      reads this
    {
      Formed(w) && Uniform(w, ctx, jobCtx) && start in ctx
    }

    /**
     * bdrv_change_aio_context. It may come back to a node that it is in the
     * middle of; every level of the recursion visits a new edge.
     */
    method ChangeNode(bs: Node, ghost start: Node, ghost sn: set<Node>, ghost sj: set<Job>) returns (ok: bool)
      requires Ready(start) && Connected(w, start, bs) && Collecting(w, start, visited, tran, sn + {bs}, sj)
      modifies this`visited, this`tran
      ensures old(visited) <= visited
      ensures ctx[start] == newCtx ==> ok && visited == old(visited) && tran == old(tran)
      ensures ok && ctx[start] != newCtx ==> Collecting(w, start, visited, tran, sn, sj) && MoveNode(bs) in tran
      ensures !ok ==> exists e :: Refuses(w, start, e)
      decreases w.g.edges.Keys - visited, 1
    {
      ConnectedShare(w, ctx, jobCtx, start, bs);
      if ctx[bs] == newCtx { return true; }
      var parents, children := w.g.parents[bs], w.g.children[bs];
      assert ParentsOk(w.g, bs) && ChildrenOk(w.g, bs);
      for i := 0 to |parents|
        invariant old(visited) <= visited && Collecting(w, start, visited, tran, sn + {bs}, sj)
        invariant forall k :: 0 <= k < i ==> parents[k] in visited
      {
        ok := ChangeParent(parents[i], start, sn + {bs}, sj);
        if !ok { return false; }
      }
      for i := 0 to |children|
        invariant old(visited) <= visited && Collecting(w, start, visited, tran, sn + {bs}, sj)
        invariant forall k :: 0 <= k < |parents| ==> parents[k] in visited
        invariant forall k :: 0 <= k < i ==> children[k] in visited
      {
        ChildIsConnected(w, start, bs, children[i]);
        ok := ChangeChild(children[i], start, sn + {bs}, sj);
        if !ok { return false; }
      }
      Finish(w, start, visited, tran, sn, sj, sn + {bs}, sj, MoveNode(bs));
      tran := tran + [MoveNode(bs)];
      return true;
    }

    /** bdrv_parent_change_aio_context */
    method ChangeParent(c: Edge, ghost start: Node, ghost sn: set<Node>, ghost sj: set<Job>) returns (ok: bool)
      requires Ready(start) && ctx[start] != newCtx && Collecting(w, start, visited, tran, sn, sj)
      requires c in w.g.edges && w.g.edges[c].bs.Some? && w.g.edges[c].bs.value in sn
      requires Connected(w, start, w.g.edges[c].bs.value)
      modifies this`visited, this`tran
      ensures old(visited) <= visited
      ensures ok ==> c in visited && Collecting(w, start, visited, tran, sn, sj)
      ensures !ok ==> exists e :: Refuses(w, start, e)
      decreases w.g.edges.Keys - visited, 0
    {
      if c in visited { return true; }
      match w.g.edges[c].parent
      case OfNode(u) =>
        Visit(w, start, visited, tran, sn, sj, sn + {u}, sj, c);
        ParentIsConnected(w, start, c);
        visited := visited + {c};
        ok := ChangeNode(u, start, sn, sj);
      case OfJob(j) =>
        Visit(w, start, visited, tran, sn, sj, sn, sj + {j}, c);
        assert JobListed(w, c);
        visited := visited + {c};
        ok := ChangeJob(j, start, c, sn, sj);
      case OfUser(u) =>
        if u !in w.willing {
          assert Refuses(w, start, c);
          return false;
        }
        Visit(w, start, visited, tran, sn, sj, sn, sj, c);
        visited := visited + {c};
        ok := true;
    }

    /** bdrv_child_change_aio_context */
    method ChangeChild(c: Edge, ghost start: Node, ghost sn: set<Node>, ghost sj: set<Job>) returns (ok: bool)
      requires Ready(start) && ctx[start] != newCtx && Collecting(w, start, visited, tran, sn, sj)
      requires c in w.g.edges && w.g.edges[c].bs.Some? && Connected(w, start, w.g.edges[c].bs.value)
      requires match w.g.edges[c].parent
               case OfNode(u) => u in sn
               case OfJob(j) => j in sj
               case OfUser(u) => u in w.willing
      modifies this`visited, this`tran
      ensures old(visited) <= visited
      ensures ok ==> c in visited && Collecting(w, start, visited, tran, sn, sj)
      ensures !ok ==> exists e :: Refuses(w, start, e)
      decreases w.g.edges.Keys - visited, 0
    {
      if c in visited { return true; }
      var bs := w.g.edges[c].bs.value;
      Visit(w, start, visited, tran, sn, sj, sn + {bs}, sj, c);
      visited := visited + {c};
      ok := ChangeNode(bs, start, sn, sj);
    }

    /** child_job_change_aio_ctx: all nodes of the job have to move with it. */
    method ChangeJob(j: Job, ghost start: Node, ghost c: Edge, ghost sn: set<Node>, ghost sj: set<Job>)
      returns (ok: bool)
      requires Ready(start) && ctx[start] != newCtx && Collecting(w, start, visited, tran, sn, sj + {j})
      requires JobEdgeIn(w, start, j, c) && c in visited
      modifies this`visited, this`tran
      ensures old(visited) <= visited
      ensures ok ==> Collecting(w, start, visited, tran, sn, sj)
      ensures !ok ==> exists e :: Refuses(w, start, e)
      decreases w.g.edges.Keys - visited, 1
    {
      var nodes := w.jobs[j];
      assert JobOk(w, j);
      for i := 0 to |nodes|
        invariant old(visited) <= visited && Collecting(w, start, visited, tran, sn, sj + {j})
        invariant forall k :: 0 <= k < i ==> nodes[k] in visited
      {
        SiblingIsConnected(w, start, j, c, nodes[i]);
        ok := ChangeChild(nodes[i], start, sn, sj + {j});
        if !ok { return false; }
      }
      Finish(w, start, visited, tran, sn, sj, sn, sj + {j}, MoveJob(j));
      tran := tran + [MoveJob(j)];
      return true;
    }

    /** tran_commit: run the collected moves, the last one first. */
    method Commit()
      requires forall m :: m in tran ==> if m.MoveNode? then m.node in ctx else m.job in jobCtx
      modifies this`ctx, this`jobCtx, this`tran
      ensures tran == []
      ensures ctx == After(old(ctx), newCtx, old(tran)) && jobCtx == JobsAfter(old(jobCtx), newCtx, old(tran))
    {
      ghost var all := tran;
      while tran != []
        invariant |tran| <= |all| && tran == all[..|tran|]
        invariant Ran(old(ctx), old(jobCtx), newCtx, all[|tran|..], ctx, jobCtx)
        decreases |tran|
      {
        var m := tran[|tran| - 1];
        MoreRan(old(ctx), old(jobCtx), newCtx, all, |tran|, ctx, jobCtx);
        match m {
          case MoveNode(n) => ctx := ctx[n := newCtx];
          case MoveJob(j) => jobCtx := jobCtx[j := newCtx];
        }
        tran := tran[..|tran| - 1];
      }
      assert all[0..] == all;
    }

    /**
     * bdrv_try_change_aio_context_locked: either the whole component of bs moves,
     * or nothing does. It fails exactly if a user in the component refuses.
     */
    method TryChange(bs: Node) returns (ok: bool)
      requires Ready(bs) && visited == {} && tran == []
      modifies this`ctx, this`jobCtx, this`visited, this`tran
      ensures Uniform(w, ctx, jobCtx)
      ensures ok <==> old(ctx)[bs] == newCtx || !exists e :: Refuses(w, bs, e)
      ensures ok ==> forall n :: n in ctx ==> ctx[n] == if Connected(w, bs, n) then newCtx else old(ctx)[n]
      ensures !ok ==> ctx == old(ctx) && jobCtx == old(jobCtx)
      ensures visited == {} && tran == []
    {
      assert Joined(w, bs, [], bs);
      ok := ChangeNode(bs, bs, {}, {});
      ghost var edges := visited;
      visited := {};
      if !ok {
        tran := [];
        return;
      }
      if ctx[bs] == newCtx {
        forall n | n in ctx
          ensures ctx[n] == if Connected(w, bs, n) then newCtx else old(ctx)[n]
        {
          if Connected(w, bs, n) { ConnectedShare(w, ctx, jobCtx, bs, n); }
        }
        return;
      }
      MovedWhole(w, bs, edges, tran, ctx, jobCtx, newCtx);
      Commit();
    }
  }

  predicate Listed(moves: seq<Move>, m: Move) { m in moves }

  function After(ctx: map<Node, Context>, newCtx: Context, moves: seq<Move>): map<Node, Context> {
    map n | n in ctx :: if Listed(moves, MoveNode(n)) then newCtx else ctx[n]
  }

  function JobsAfter(jobCtx: map<Job, Context>, newCtx: Context, moves: seq<Move>): map<Job, Context> {
    map j | j in jobCtx :: if Listed(moves, MoveJob(j)) then newCtx else jobCtx[j]
  }

  lemma OneMoreMove(ctx: map<Node, Context>, jobCtx: map<Job, Context>, newCtx: Context, m: Move, moves: seq<Move>)
    requires if m.MoveNode? then m.node in ctx else m.job in jobCtx
    ensures After(ctx, newCtx, [m] + moves) ==
              if m.MoveNode? then After(ctx, newCtx, moves)[m.node := newCtx] else After(ctx, newCtx, moves)
    ensures JobsAfter(jobCtx, newCtx, [m] + moves) ==
              if m.MoveJob? then JobsAfter(jobCtx, newCtx, moves)[m.job := newCtx] else JobsAfter(jobCtx, newCtx, moves)
  {
  }

  /** The moves have been run. */
  ghost predicate Ran(ctx0: map<Node, Context>, jobCtx0: map<Job, Context>, newCtx: Context, moves: seq<Move>,
                      ctx: map<Node, Context>, jobCtx: map<Job, Context>)
  {
    ctx == After(ctx0, newCtx, moves) && jobCtx == JobsAfter(jobCtx0, newCtx, moves)
  }

  lemma MoreRan(ctx0: map<Node, Context>, jobCtx0: map<Job, Context>, newCtx: Context, all: seq<Move>, k: nat,
                ctx: map<Node, Context>, jobCtx: map<Job, Context>)
    requires 0 < k <= |all| && Ran(ctx0, jobCtx0, newCtx, all[k..], ctx, jobCtx)
    requires if all[k - 1].MoveNode? then all[k - 1].node in ctx0 else all[k - 1].job in jobCtx0
    ensures match all[k - 1]
            case MoveNode(n) => Ran(ctx0, jobCtx0, newCtx, all[k - 1..], ctx[n := newCtx], jobCtx)
            case MoveJob(j) => Ran(ctx0, jobCtx0, newCtx, all[k - 1..], ctx, jobCtx[j := newCtx])
  {
    assert all[k - 1..] == [all[k - 1]] + all[k..];
    OneMoreMove(ctx0, jobCtx0, newCtx, all[k - 1], all[k..]);
  }

  /** What was collected is exactly the component, so that moving it keeps contexts uniform. */
  lemma MovedWhole(w: World, start: Node, visited: set<Edge>, moves: seq<Move>,
                   ctx: map<Node, Context>, jobCtx: map<Job, Context>, newCtx: Context)
    requires Formed(w) && Uniform(w, ctx, jobCtx) && start in ctx
    requires Collecting(w, start, visited, moves, {}, {}) && MoveNode(start) in moves
    ensures forall m :: m in moves ==> if m.MoveNode? then m.node in ctx else m.job in jobCtx
    ensures forall n :: n in ctx ==> (Listed(moves, MoveNode(n)) <==> Connected(w, start, n))
    ensures Uniform(w, After(ctx, newCtx, moves), JobsAfter(jobCtx, newCtx, moves))
    ensures forall e :: !Refuses(w, start, e)
  {
    forall m | m in moves
      ensures MoveSeen(w, visited, start, m)
    {
    }
    forall n: Node
      ensures MoveNode(n) in moves <==> Connected(w, start, n)
    {
      FoundAll(w, start, visited, moves, n);
    }
    var ctx', jobCtx' := After(ctx, newCtx, moves), JobsAfter(jobCtx, newCtx, moves);
    forall n, m | n in ctx' && m in ctx' && Adjacent(w, n, m)
      ensures ctx'[n] == ctx'[m]
    {
      AdjacentBack(w, n, m);
      if Connected(w, start, n) { AdjacentIsConnected(w, start, n, m); }
      if Connected(w, start, m) { AdjacentIsConnected(w, start, m, n); }
    }
    forall e | e in w.g.edges
      ensures JobFollows(w, ctx', jobCtx', e) && !Refuses(w, start, e)
    {
      EdgeMoves(w, start, visited, moves, e);
      assert JobFollows(w, ctx, jobCtx, e);
    }
  }

  lemma AdjacentBack(w: World, n: Node, m: Node)
    requires Adjacent(w, n, m)
    ensures Adjacent(w, m, n)
  {
    if Siblings(w, n, m) {
      var e, f :| Targets(w, e, n) && Targets(w, f, m) && OneJob(w, e, f);
      assert Targets(w, f, m) && Targets(w, e, n) && OneJob(w, f, e);
    }
  }

  /** A job moves if and only if the target of any of its edges does; a user in the component is willing. */
  lemma EdgeMoves(w: World, start: Node, visited: set<Edge>, moves: seq<Move>, e: Edge)
    requires Formed(w) && e in w.g.edges
    requires Collecting(w, start, visited, moves, {}, {}) && MoveNode(start) in moves
    ensures w.g.edges[e].parent.OfJob? && w.g.edges[e].bs.Some? ==>
              (Listed(moves, MoveJob(w.g.edges[e].parent.job)) <==> Connected(w, start, w.g.edges[e].bs.value))
    ensures !Refuses(w, start, e)
  {
    if w.g.edges[e].bs.Some? {
      var n := w.g.edges[e].bs.value;
      assert EdgeOk(w.g, e);
      if Connected(w, start, n) {
        FoundAll(w, start, visited, moves, n);
        assert MoveSeen(w, visited, start, MoveNode(n)) && EdgesOf(w, MoveNode(n), e);
        assert EdgeSeen(w, moves, {}, {}, e);
      } else if w.g.edges[e].parent.OfJob? && MoveJob(w.g.edges[e].parent.job) in moves {
        var j := w.g.edges[e].parent.job;
        assert MoveSeen(w, visited, start, MoveJob(j));
        var c :| JobEdgeIn(w, start, j, c);
        assert JobListed(w, e);
        SiblingIsConnected(w, start, j, c, e);
      }
    }
  }

  lemma ChildIsConnected(w: World, start: Node, bs: Node, c: Edge)
    requires Formed(w) && Connected(w, start, bs) && bs in w.g.children && c in w.g.children[bs]
    ensures c in w.g.edges && w.g.edges[c].bs.Some? && Connected(w, start, w.g.edges[c].bs.value)
  {
    ChildPoints(w.g, bs, c);
    AdjacentIsConnected(w, start, bs, w.g.edges[c].bs.value);
  }

  lemma ParentIsConnected(w: World, start: Node, c: Edge)
    requires Formed(w) && c in w.g.edges && w.g.edges[c].bs.Some? && w.g.edges[c].parent.OfNode?
    requires Connected(w, start, w.g.edges[c].bs.value)
    ensures Connected(w, start, w.g.edges[c].parent.node)
  {
    assert Points(w.g, w.g.edges[c].parent.node, w.g.edges[c].bs.value);
    AdjacentIsConnected(w, start, w.g.edges[c].bs.value, w.g.edges[c].parent.node);
  }

  lemma SiblingIsConnected(w: World, start: Node, j: Job, c: Edge, e: Edge)
    requires Formed(w) && JobEdgeIn(w, start, j, c) && e in w.jobs[j]
    ensures e in w.g.edges && w.g.edges[e].bs.Some? && w.g.edges[e].parent == OfJob(j)
    ensures Connected(w, start, w.g.edges[e].bs.value)
  {
    assert JobOk(w, j);
    assert Targets(w, c, w.g.edges[c].bs.value) && Targets(w, e, w.g.edges[e].bs.value);
    AdjacentIsConnected(w, start, w.g.edges[c].bs.value, w.g.edges[e].bs.value);
  }
}
