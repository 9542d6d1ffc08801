/**
 * `qemu-img convert`: the cooperating coroutines of convert_co_do_copy.  One
 * step takes one coroutine to its next possible yield point (the query of the
 * block status under s->lock, a read, a wait, each of the writes of a chunk);
 * any coroutine may take the next step, so the runs are all interleavings.
 */
module ConvertCo {
  import opened Common
  import opened Convert

  /** Where a coroutine is; k is the index of the chunk it has claimed. */
  datatype Co =
    | NotStarted
    | AtLoop
    | Claiming                   // holds s->lock while the next chunk is determined
    | Reading(k: nat)
    | Checking(k: nat)           // the wait condition for in-order writes is evaluated next
    | Sleeping(k: nat)           // yielded, wait_sector_num is the start of chunk k
    | Writing(k: nat, done: nat) // the first `done` sectors of the chunk are written
    | Wrote(k: nat)              // the write is over; wr_offs is published next
    | Exited

  datatype Claim = Claim(start: nat, n: nat, status: Status, owner: nat, finished: bool)
  {
    function End(): nat { start + n }
  }

  datatype Ret = InProgress | Success | Failed

  /** `running` is the set of coroutines that running_coroutines counts; `claims` is a history. */
  datatype State = State(
    cos: seq<Co>,
    lock: Option<nat>,     // the coroutine that holds s->lock
    sector: nat,           // sector_num, the next sector to claim
    claims: seq<Claim>,
    wrOffs: nat,
    ret: Ret,
    running: set<nat>,
    target: seq<Sector>)
  {
    function At(i: nat, co: Co): State
      requires i < |cos|
    {
      this.(cos := cos[i := co])
    }
  }

  predicate Holds(co: Co) {
    co.Reading? || co.Checking? || co.Sleeping? || co.Writing? || co.Wrote?
  }

  // --------------------------------------------------------------------------
  // Steps

  ghost predicate Init(c: Config, s: State) {
    && (forall i :: 0 <= i < |s.cos| ==> s.cos[i] == NotStarted)
    && s.lock.None? && s.sector == 0 && s.claims == [] && s.wrOffs == 0 && s.ret == InProgress && s.running == {}
    && Untouched(c, s.target, 0, c.Total())
  }

  /** The end of convert_co_do_copy. */
  function Exit(s: State, i: nat): State
    requires i < |s.cos|
  {
    s.At(i, Exited).(
      running := s.running - {i},
      ret := if s.running - {i} == {} && s.ret == InProgress then Success else s.ret)
  }

  /** The test at the head of the loop, made as soon as s->lock is free. */
  predicate TestStep(c: Config, s: State, s': State, i: nat)
    requires i < |s.cos|
  {
    && s.lock.None?
    && s' == if s.ret != InProgress || s.sector >= c.Total() then Exit(s, i)
             else s.At(i, Claiming).(lock := Some(i))
  }

  /** The status of the next sectors is known, or asking for it failed; another coroutine may have failed meanwhile. */
  ghost predicate ClaimStep(c: Config, s: State, s': State, i: nat)
    requires i < |s.cos|
  {
    || s' == Exit(s.(ret := Failed, lock := None), i)
    || (exists n: nat, status: Status :: ClaimOk(c, s.sector, n, status) && s' == Claimed(s, i, n, status))
  }

  /** Chunk and status are saved, and other coroutines go on behind the chunk. */
  function Claimed(s: State, i: nat, n: nat, status: Status): State
    requires i < |s.cos|
  {
    s.At(i, Reading(|s.claims|)).(
      lock := None,
      sector := s.sector + n,
      claims := s.claims + [Claim(s.sector, n, status, i, false)])
  }

  /** The target may be damaged inside the chunk only. */
  ghost predicate Damaged(before: seq<Sector>, after: seq<Sector>, sector: nat, n: nat) {
    |after| == |before| && forall k :: 0 <= k < |before| && !(sector <= k < sector + n) ==> after[k] == before[k]
  }

  /** m more sectors of the chunk are written. */
  function Progress(s: State, i: nat, k: nat, done: nat, m: nat, t: seq<Sector>): State
    requires i < |s.cos| && k < |s.claims|
  {
    s.At(i, if done + m == s.claims[k].n then Wrote(k) else Writing(k, done + m)).(target := t)
  }

  /** One turn of the loop of convert_co_write. */
  ghost predicate WriteStep(c: Config, s: State, s': State, i: nat, k: nat, done: nat)
    requires i < |s.cos| && k < |s.claims|
  {
    var q := s.claims[k];
    || (exists m: nat, t ::
          && 0 < m && done + m <= q.n && Copied(c, s.target, t, q.start + done, m)
          && s' == Progress(s, i, k, done, m, t))
    || (exists t :: Damaged(s.target, t, q.start, q.n) && s' == s.At(i, Wrote(k)).(target := t, ret := Failed))
  }

  /** The sleeper that waits for this offset, if any, goes on. */
  function Wake(s: State, offs: nat): seq<Co> {
    seq(|s.cos|, j requires 0 <= j < |s.cos| =>
      if s.cos[j].Sleeping? && s.cos[j].k < |s.claims| && s.claims[s.cos[j].k].start == offs
      then Checking(s.cos[j].k) else s.cos[j])
  }

  function Publish(s: State, i: nat, k: nat, inOrder: bool): State
    requires i < |s.cos| && k < |s.claims|
  {
    var q := s.claims[k];
    var done := s.(claims := s.claims[k := q.(finished := true)]);
    if inOrder then done.(wrOffs := q.End(), cos := Wake(s, q.End())[i := AtLoop])
    else done.At(i, AtLoop)
  }

  ghost predicate Step(c: Config, inOrder: bool, s: State, s': State, i: nat) {
    && i < |s.cos|
    && (Holds(s.cos[i]) ==> s.cos[i].k < |s.claims|)
    && match s.cos[i]
       case NotStarted => s' == s.At(i, AtLoop).(running := s.running + {i})
       case AtLoop => TestStep(c, s, s', i)
       case Claiming => ClaimStep(c, s, s', i)
       case Reading(k) => s' == s.At(i, Checking(k)) || s' == s.At(i, Checking(k)).(ret := Failed)
       case Checking(k) =>
         s' == s.At(i, if inOrder && s.wrOffs != s.claims[k].start && s.ret == InProgress then Sleeping(k)
                       else if s.ret == InProgress then Writing(k, 0)
                       else Wrote(k))
       case Sleeping(k) => false
       case Writing(k, done) => WriteStep(c, s, s', i, k, done)
       case Wrote(k) => s' == Publish(s, i, k, inOrder)
       case Exited => false
  }

  ghost predicate Next(c: Config, inOrder: bool, s: State, s': State) {
    exists i :: Step(c, inOrder, s, s', i)
  }

  ghost predicate IsRun(c: Config, inOrder: bool, run: seq<State>) {
    && |run| > 0 && Init(c, run[0])
    && forall t, u {:trigger Next(c, inOrder, run[t], run[u])} ::
         0 <= t && u == t + 1 < |run| ==> Next(c, inOrder, run[t], run[u])
  }

  // --------------------------------------------------------------------------
  // The invariant

  /** The claimed chunks tile the image up to `sector`. */
  ghost predicate Tiling(c: Config, claims: seq<Claim>, sector: nat) {
    && sector <= c.Total()
    && (forall k :: 0 <= k < |claims| ==> ClaimOk(c, claims[k].start, claims[k].n, claims[k].status))
    && (claims == [] ==> sector == 0)
    && (|claims| > 0 ==> claims[0].start == 0 && claims[|claims| - 1].End() == sector)
    && (forall k :: 0 < k < |claims| ==> claims[k].start == claims[k - 1].End())
  }

  lemma {:induction false} ChunksAscend(c: Config, claims: seq<Claim>, sector: nat, j: nat, k: nat)
    requires Tiling(c, claims, sector) && j < k < |claims|
    ensures claims[j].End() <= claims[k].start
  {
    if j < k - 1 {
      ChunksAscend(c, claims, sector, j, k - 1);
    }
  }

  lemma {:induction false} ChunkBelow(c: Config, claims: seq<Claim>, sector: nat, k: nat)
    requires Tiling(c, claims, sector) && k < |claims|
    ensures claims[k].End() <= sector
  {
    if k < |claims| - 1 {
      ChunksAscend(c, claims, sector, k, |claims| - 1);
    }
  }

  /** Every sector below the frontier belongs to some claimed chunk. */
  lemma {:induction false} ChunkOf(c: Config, claims: seq<Claim>, sector: nat, x: nat) returns (k: nat)
    requires Tiling(c, claims, sector) && x < sector
    ensures k < |claims| && claims[k].start <= x < claims[k].End()
  {
    k := |claims| - 1;
    while x < claims[k].start
      invariant k < |claims| && x < claims[k].End()
    {
      k := k - 1;
    }
  }

  ghost predicate OwnersOk(s: State) {
    && (forall i :: 0 <= i < |s.cos| && Holds(s.cos[i]) ==>
          && s.cos[i].k < |s.claims| && s.claims[s.cos[i].k].owner == i && !s.claims[s.cos[i].k].finished
          && (s.cos[i].Writing? ==> s.cos[i].done < s.claims[s.cos[i].k].n))
    && (forall k :: 0 <= k < |s.claims| && !s.claims[k].finished ==>
          s.claims[k].owner < |s.cos| && Holds(s.cos[s.claims[k].owner]) && s.cos[s.claims[k].owner].k == k)
  }

  ghost predicate RunningOk(c: Config, s: State) {
    && (forall i :: i in s.running ==> i < |s.cos|)
    && (forall i :: 0 <= i < |s.cos| ==> (i in s.running <==> !s.cos[i].NotStarted? && !s.cos[i].Exited?))
    && (s.ret == Success ==> s.sector == c.Total() && forall k :: 0 <= k < |s.claims| ==> s.claims[k].finished)
    && (s.ret == InProgress && s.sector < c.Total() ==> forall i :: 0 <= i < |s.cos| ==> !s.cos[i].Exited?)
  }

  /** Whoever claims holds the lock, and then there is something to claim. */
  ghost predicate LockOk(c: Config, s: State) {
    && (forall i :: 0 <= i < |s.cos| ==> (s.cos[i].Claiming? <==> s.lock == Some(i)))
    && (s.lock.Some? ==> s.lock.value < |s.cos| && s.sector < c.Total() && s.ret != Success)
  }

  /** How many sectors of chunk k have reached the target. */
  function Landed(s: State, k: nat): nat
    requires k < |s.claims|
  {
    var q := s.claims[k];
    if q.finished then q.n
    else if q.owner < |s.cos| && s.cos[q.owner] == Wrote(k) then q.n
    else if q.owner < |s.cos| && s.cos[q.owner].Writing? && s.cos[q.owner].k == k then s.cos[q.owner].done
    else 0
  }

  ghost predicate ContentOk(c: Config, s: State) {
    && |s.target| == c.Total()
    && (s.ret != Failed ==>
          && s.sector <= c.Total() && Untouched(c, s.target, s.sector, c.Total() - s.sector)
          && forall k :: 0 <= k < |s.claims| ==> ChunkContent(c, s.target, s.claims[k], Landed(s, k)))
  }

  /** The first `done` sectors of the chunk are the source's, the others as at the start. */
  ghost predicate ChunkContent(c: Config, target: seq<Sector>, q: Claim, done: nat) {
    && done <= q.n
    && Untouched(c, target, q.start + done, q.n - done)
    && forall x :: q.start <= x < q.start + done ==> target[x] == c.Source(x)
  }

  /** With in-order writes and no error, the first p chunks are finished and wrOffs is the start of the next. */
  ghost predicate OrderOk(s: State, p: nat) {
    && p <= |s.claims|
    && s.wrOffs == (if p < |s.claims| then s.claims[p].start else s.sector)
    && (forall k :: 0 <= k < |s.claims| ==> (s.claims[k].finished <==> k < p))
    && (forall i :: 0 <= i < |s.cos| && (s.cos[i].Writing? || s.cos[i].Wrote?) ==> s.cos[i].k == p)
  }

  /** A sleeper's predecessor has not finished, so it will still wake the sleeper. */
  ghost predicate SleepOk(s: State, inOrder: bool) {
    forall i :: 0 <= i < |s.cos| && s.cos[i].Sleeping? ==>
      inOrder && 0 < s.cos[i].k <= |s.claims| && !s.claims[s.cos[i].k - 1].finished
  }

  ghost predicate Inv(c: Config, inOrder: bool, s: State, p: nat) {
    && Tiling(c, s.claims, s.sector) && OwnersOk(s) && RunningOk(c, s) && LockOk(c, s) && ContentOk(c, s)
    && (inOrder && s.ret != Failed ==> OrderOk(s, p)) && SleepOk(s, inOrder)
  }

  function Finished(s: State, p: nat, i: nat): nat
    requires i < |s.cos|
  {
    if s.cos[i].Wrote? then p + 1 else p
  }

  // --------------------------------------------------------------------------
  // Every step keeps the invariant

  /** A coroutine that neither was nor is in its write leaves the contents as they are. */
  lemma ContentUnmoved(c: Config, s: State, s': State, i: nat, co: Co)
    requires ContentOk(c, s) && OwnersOk(s) && i < |s.cos| && !s.cos[i].Writing? && !s.cos[i].Wrote?
    requires s'.cos == s.cos[i := co] && s'.target == s.target && s'.claims == s.claims && s'.sector == s.sector
    requires s'.ret == Failed || (s.ret != Failed && !co.Wrote? && (co.Writing? ==> co.done == 0))
    ensures ContentOk(c, s')
  {
    forall k | s'.ret != Failed && 0 <= k < |s.claims|
      ensures ChunkContent(c, s'.target, s'.claims[k], Landed(s', k))
    {
      assert ChunkContent(c, s.target, s.claims[k], Landed(s, k));
      assert Landed(s', k) == Landed(s, k);
    }
  }

  lemma OwnersUnmoved(s: State, s': State, i: nat, co: Co)
    requires OwnersOk(s) && i < |s.cos| && s'.cos == s.cos[i := co] && s'.claims == s.claims
    requires Holds(co) == Holds(s.cos[i]) && (Holds(co) ==> co.k == s.cos[i].k)
    requires co.Writing? ==> co.k < |s.claims| && co.done < s.claims[co.k].n
    ensures OwnersOk(s')
  {
  }

  lemma LockUnmoved(c: Config, s: State, s': State, i: nat, co: Co)
    requires LockOk(c, s) && i < |s.cos| && s'.cos == s.cos[i := co] && s'.sector == s.sector
    requires !s.cos[i].Claiming? && !co.Claiming? && s'.lock == s.lock
    requires s'.ret == s.ret || s'.ret == Failed
    ensures LockOk(c, s')
  {
  }

  /** Entering, reading, and the wait condition: only the coroutine itself moves. */
  lemma MoveKeepsInv(c: Config, inOrder: bool, s: State, s': State, i: nat, p: nat)
    requires Inv(c, inOrder, s, p) && Step(c, inOrder, s, s', i)
    requires s.cos[i].NotStarted? || s.cos[i].Reading? || s.cos[i].Checking?
    ensures Inv(c, inOrder, s', p)
  {
    MoveOwners(c, inOrder, s, s', i, p);
    MoveSleep(c, inOrder, s, s', i, p);
    MoveContent(c, inOrder, s, s', i, p);
    LockUnmoved(c, s, s', i, s'.cos[i]);
  }

  lemma MoveContent(c: Config, inOrder: bool, s: State, s': State, i: nat, p: nat)
    requires Inv(c, inOrder, s, p) && Step(c, inOrder, s, s', i)
    requires s.cos[i].NotStarted? || s.cos[i].Reading? || s.cos[i].Checking?
    ensures ContentOk(c, s')
  {
    assert s.ret == Success ==> !Holds(s.cos[i]);
    ContentUnmoved(c, s, s', i, s'.cos[i]);
  }

  lemma MoveOwners(c: Config, inOrder: bool, s: State, s': State, i: nat, p: nat)
    requires Inv(c, inOrder, s, p) && Step(c, inOrder, s, s', i)
    requires s.cos[i].NotStarted? || s.cos[i].Reading? || s.cos[i].Checking?
    ensures OwnersOk(s') && RunningOk(c, s')
  {
    OwnersUnmoved(s, s', i, s'.cos[i]);
    if !s.cos[i].NotStarted? { RunningUnmoved(c, s, s', i, s'.cos[i]); }
  }

  lemma SleepUnmoved(s: State, s': State, i: nat, co: Co, inOrder: bool)
    requires SleepOk(s, inOrder) && i < |s.cos| && s'.cos == s.cos[i := co] && s'.claims == s.claims
    requires co.Sleeping? ==> inOrder && 0 < co.k <= |s.claims| && !s.claims[co.k - 1].finished
    ensures SleepOk(s', inOrder)
  {
  }

  lemma OrderUnmoved(s: State, s': State, i: nat, co: Co, p: nat)
    requires OrderOk(s, p) && i < |s.cos| && s'.cos == s.cos[i := co]
    requires s'.claims == s.claims && s'.wrOffs == s.wrOffs && s'.sector == s.sector
    requires co.Writing? || co.Wrote? ==> co.k == p
    ensures OrderOk(s', p)
  {
  }

  lemma RunningUnmoved(c: Config, s: State, s': State, i: nat, co: Co)
    requires RunningOk(c, s) && i < |s.cos| && s'.cos == s.cos[i := co]
    requires s'.claims == s.claims && s'.running == s.running && s'.sector == s.sector
    requires s'.ret == s.ret || s'.ret == Failed
    requires !s.cos[i].NotStarted? && !s.cos[i].Exited? && !co.NotStarted? && !co.Exited?
    ensures RunningOk(c, s')
  {
  }

  lemma MoveSleep(c: Config, inOrder: bool, s: State, s': State, i: nat, p: nat)
    requires Inv(c, inOrder, s, p) && Step(c, inOrder, s, s', i)
    requires s.cos[i].NotStarted? || s.cos[i].Reading? || s.cos[i].Checking?
    ensures SleepOk(s', inOrder) && (inOrder && s'.ret != Failed ==> OrderOk(s', p))
  {
    var co := s'.cos[i];
    if s.cos[i].Checking? {
      CheckedOk(c, inOrder, s, i, p, co);
    }
    SleepUnmoved(s, s', i, co, inOrder);
    if inOrder && s'.ret != Failed { OrderUnmoved(s, s', i, co, p); }
  }

  /** The wait condition lets a coroutine through exactly if its chunk is the first unfinished one. */
  lemma CheckedOk(c: Config, inOrder: bool, s: State, i: nat, p: nat, co: Co)
    requires Inv(c, inOrder, s, p) && i < |s.cos| && s.cos[i].Checking? && s.cos[i].k < |s.claims|
    requires co == if inOrder && s.wrOffs != s.claims[s.cos[i].k].start && s.ret == InProgress
                   then Sleeping(s.cos[i].k)
                   else if s.ret == InProgress then Writing(s.cos[i].k, 0) else Wrote(s.cos[i].k)
    ensures co.Sleeping? ==> inOrder && 0 < co.k <= |s.claims| && !s.claims[co.k - 1].finished
    ensures inOrder && s.ret != Failed && (co.Writing? || co.Wrote?) ==> co.k == p
  {
    assert s.ret != Success by { assert !s.claims[s.cos[i].k].finished; }
    if inOrder && s.ret == InProgress {
      StartsDiffer(c, s, s.cos[i].k, p);
    }
  }

  /** Only the first unfinished chunk starts at wr_offs. */
  lemma StartsDiffer(c: Config, s: State, k: nat, p: nat)
    requires Tiling(c, s.claims, s.sector) && OrderOk(s, p) && k < |s.claims|
    ensures s.wrOffs == s.claims[k].start <==> k == p
  {
    if p < |s.claims| {
      if k < p { ChunksAscend(c, s.claims, s.sector, k, p); }
      if p < k { ChunksAscend(c, s.claims, s.sector, p, k); }
    } else {
      ChunkBelow(c, s.claims, s.sector, k);
    }
  }

  /** The two ways out of the loop. */
  predicate Leaves(c: Config, s: State, s': State, i: nat)
    requires i < |s.cos|
  {
    || (s.cos[i].AtLoop? && s.lock.None? && s' == Exit(s, i) && (s.ret != InProgress || s.sector >= c.Total()))
    || (s.cos[i].Claiming? && s' == Exit(s.(ret := Failed, lock := None), i))
  }

  lemma ExitKeepsInv(c: Config, inOrder: bool, s: State, s': State, i: nat, p: nat)
    requires Inv(c, inOrder, s, p) && i < |s.cos| && Leaves(c, s, s', i)
    ensures Inv(c, inOrder, s', p)
  {
    ContentUnmoved(c, s, s', i, Exited);
    OwnersUnmoved(s, s', i, Exited);
    ExitRunning(c, inOrder, s, s', i, p);
    SleepUnmoved(s, s', i, Exited, inOrder);
    if inOrder && s'.ret != Failed { OrderUnmoved(s, s', i, Exited, p); }
  }

  /** When the last running coroutine leaves, every chunk is finished. */
  lemma ExitRunning(c: Config, inOrder: bool, s: State, s': State, i: nat, p: nat)
    requires Inv(c, inOrder, s, p) && i < |s.cos| && Leaves(c, s, s', i)
    ensures RunningOk(c, s')
  {
    if s'.ret == Success && s.ret == InProgress {
      forall k | 0 <= k < |s.claims|
        ensures s.claims[k].finished
      {
        var q := s.claims[k];
        assert q.finished || q.owner in s.running - {i};
      }
    }
  }

  /** Taking the lock for a claim. */
  lemma EnterKeepsInv(c: Config, inOrder: bool, s: State, s': State, i: nat, p: nat)
    requires Inv(c, inOrder, s, p) && i < |s.cos| && s.cos[i].AtLoop? && s.lock.None?
    requires s.ret == InProgress && s.sector < c.Total() && s' == s.At(i, Claiming).(lock := Some(i))
    ensures Inv(c, inOrder, s', p)
  {
    ContentUnmoved(c, s, s', i, Claiming);
    OwnersUnmoved(s, s', i, Claiming);
    RunningUnmoved(c, s, s', i, Claiming);
    SleepUnmoved(s, s', i, Claiming, inOrder);
    if inOrder { OrderUnmoved(s, s', i, Claiming, p); }
  }

  lemma ClaimKeepsInv(c: Config, inOrder: bool, s: State, i: nat, n: nat, status: Status, p: nat)
    requires Inv(c, inOrder, s, p) && i < |s.cos| && s.cos[i].Claiming? && ClaimOk(c, s.sector, n, status)
    ensures Inv(c, inOrder, Claimed(s, i, n, status), p)
  {
    ClaimContent(c, s, i, n, status);
    ClaimOwners(c, s, i, n, status);
    ClaimOrder(s, i, n, status, inOrder, p);
    ClaimTiles(c, s, i, n, status);
  }

  lemma ClaimTiles(c: Config, s: State, i: nat, n: nat, status: Status)
    requires Tiling(c, s.claims, s.sector) && i < |s.cos| && ClaimOk(c, s.sector, n, status)
    ensures Tiling(c, Claimed(s, i, n, status).claims, Claimed(s, i, n, status).sector)
  {
  }

  lemma ClaimOwners(c: Config, s: State, i: nat, n: nat, status: Status)
    requires OwnersOk(s) && RunningOk(c, s) && LockOk(c, s) && i < |s.cos| && s.cos[i].Claiming?
    requires ClaimOk(c, s.sector, n, status)
    ensures OwnersOk(Claimed(s, i, n, status)) && RunningOk(c, Claimed(s, i, n, status))
    ensures LockOk(c, Claimed(s, i, n, status))
  {
  }

  lemma ClaimOrder(s: State, i: nat, n: nat, status: Status, inOrder: bool, p: nat)
    requires i < |s.cos| && s.cos[i].Claiming? && SleepOk(s, inOrder) && OwnersOk(s)
    ensures SleepOk(Claimed(s, i, n, status), inOrder)
    ensures OrderOk(s, p) ==> OrderOk(Claimed(s, i, n, status), p)
  {
  }

  lemma ClaimContent(c: Config, s: State, i: nat, n: nat, status: Status)
    requires ContentOk(c, s) && OwnersOk(s) && i < |s.cos| && s.cos[i].Claiming?
    requires ClaimOk(c, s.sector, n, status)
    ensures ContentOk(c, Claimed(s, i, n, status))
  {
    var s' := Claimed(s, i, n, status);
    forall k | s.ret != Failed && 0 <= k < |s'.claims|
      ensures ChunkContent(c, s'.target, s'.claims[k], Landed(s', k))
    {
      if k < |s.claims| {
        assert ChunkContent(c, s.target, s.claims[k], Landed(s, k));
        assert s.claims[k].owner == i ==> s.claims[k].finished;
      }
    }
  }

  /** Writing a part of a chunk touches no other chunk. */
  lemma WriteKeepsInv(c: Config, inOrder: bool, s: State, s': State, i: nat, p: nat)
    requires Inv(c, inOrder, s, p) && Step(c, inOrder, s, s', i) && s.cos[i].Writing?
    ensures Inv(c, inOrder, s', p)
  {
    var co := s'.cos[i];
    WriteMoves(c, s, s', i, s.cos[i].k, s.cos[i].done);
    if s'.ret != Failed { WriteContent(c, inOrder, s, s', i, p); }
    OwnersUnmoved(s, s', i, co);
    LockUnmoved(c, s, s', i, co);
    RunningUnmoved(c, s, s', i, co);
    SleepUnmoved(s, s', i, co, inOrder);
    if inOrder && s'.ret != Failed { OrderUnmoved(s, s', i, co, p); }
  }

  /** What a turn of the write loop leaves alone. */
  lemma WriteMoves(c: Config, s: State, s': State, i: nat, k: nat, done: nat)
    requires i < |s.cos| && k < |s.claims| && WriteStep(c, s, s', i, k, done)
    ensures s'.cos == s.cos[i := s'.cos[i]] && s' == s.(cos := s'.cos, target := s'.target, ret := s'.ret)
    ensures |s'.target| == |s.target| && (s'.ret == s.ret || s'.ret == Failed)
    ensures s'.cos[i] == Wrote(k) || exists m: nat :: s'.cos[i] == Writing(k, m) && done < m < s.claims[k].n
  {
  }

  lemma WriteContent(c: Config, inOrder: bool, s: State, s': State, i: nat, p: nat)
    requires Inv(c, inOrder, s, p) && Step(c, inOrder, s, s', i) && s.cos[i].Writing? && s'.ret != Failed
    ensures ContentOk(c, s')
  {
    var me, done := s.cos[i].k, s.cos[i].done;
    var m: nat, t :| 0 < m && done + m <= s.claims[me].n
                     && Copied(c, s.target, t, s.claims[me].start + done, m) && s' == Progress(s, i, me, done, m, t);
    PartWritten(c, s, i, m, t);
  }

  lemma PartWritten(c: Config, s: State, i: nat, m: nat, t: seq<Sector>)
    requires Tiling(c, s.claims, s.sector) && OwnersOk(s) && ContentOk(c, s) && s.ret != Failed
    requires i < |s.cos| && s.cos[i].Writing? && s.cos[i].done + m <= s.claims[s.cos[i].k].n
    requires Copied(c, s.target, t, s.claims[s.cos[i].k].start + s.cos[i].done, m)
    ensures ContentOk(c, Progress(s, i, s.cos[i].k, s.cos[i].done, m, t))
  {
    var s' := Progress(s, i, s.cos[i].k, s.cos[i].done, m, t);
    ChunkBelow(c, s.claims, s.sector, s.cos[i].k);
    forall k | 0 <= k < |s.claims|
      ensures ChunkContent(c, s'.target, s'.claims[k], Landed(s', k))
    {
      WriteChunk(c, s, i, m, t, k);
    }
  }

  lemma WriteChunk(c: Config, s: State, i: nat, m: nat, t: seq<Sector>, k: nat)
    requires Tiling(c, s.claims, s.sector) && OwnersOk(s) && i < |s.cos| && s.cos[i].Writing? && k < |s.claims|
    requires s.cos[i].done + m <= s.claims[s.cos[i].k].n
    requires Copied(c, s.target, t, s.claims[s.cos[i].k].start + s.cos[i].done, m)
    requires ChunkContent(c, s.target, s.claims[k], Landed(s, k))
    ensures ChunkContent(c, t, s.claims[k], Landed(Progress(s, i, s.cos[i].k, s.cos[i].done, m, t), k))
  {
    LandedMoves(s, i, m, t, k);
    if k == s.cos[i].k {
      PartCopied(c, s.target, t, s.claims[k], s.cos[i].done, m);
    } else {
      OtherChunk(c, s.claims, s.sector, s.target, t, s.cos[i].k, s.cos[i].done, m, k, Landed(s, k));
    }
  }

  lemma LandedMoves(s: State, i: nat, m: nat, t: seq<Sector>, k: nat)
    requires OwnersOk(s) && i < |s.cos| && s.cos[i].Writing? && k < |s.claims|
    ensures Landed(Progress(s, i, s.cos[i].k, s.cos[i].done, m, t), k)
         == if k == s.cos[i].k then s.cos[i].done + m else Landed(s, k)
    ensures Landed(s, s.cos[i].k) == s.cos[i].done
  {
  }

  lemma PartCopied(c: Config, before: seq<Sector>, after: seq<Sector>, q: Claim, done: nat, m: nat)
    requires ChunkContent(c, before, q, done) && done + m <= q.n && Copied(c, before, after, q.start + done, m)
    ensures ChunkContent(c, after, q, done + m)
  {
  }

  lemma OtherChunk(c: Config, claims: seq<Claim>, sector: nat, before: seq<Sector>, after: seq<Sector>,
                   me: nat, done: nat, m: nat, k: nat, landed: nat)
    requires Tiling(c, claims, sector) && me < |claims| && k < |claims| && k != me && done + m <= claims[me].n
    requires Copied(c, before, after, claims[me].start + done, m) && ChunkContent(c, before, claims[k], landed)
    ensures ChunkContent(c, after, claims[k], landed)
  {
    if k < me { ChunksAscend(c, claims, sector, k, me); }
    if me < k { ChunksAscend(c, claims, sector, me, k); }
  }

  lemma PublishKeepsInv(c: Config, inOrder: bool, s: State, i: nat, p: nat)
    requires Inv(c, inOrder, s, p) && i < |s.cos| && s.cos[i].Wrote? && s.cos[i].k < |s.claims|
    ensures Inv(c, inOrder, Publish(s, i, s.cos[i].k, inOrder), p + 1)
  {
    PublishTiles(c, s, i, s.cos[i].k, inOrder);
    PublishContent(c, inOrder, s, i, p);
    PublishOwners(c, inOrder, s, i, p);
    PublishRunning(c, s, i, s.cos[i].k, inOrder);
    PublishSleep(c, inOrder, s, i, p);
    if inOrder && s.ret != Failed { PublishOrder(c, inOrder, s, i, p); }
  }

  lemma PublishTiles(c: Config, s: State, i: nat, k: nat, inOrder: bool)
    requires Tiling(c, s.claims, s.sector) && i < |s.cos| && k < |s.claims|
    ensures Tiling(c, Publish(s, i, k, inOrder).claims, Publish(s, i, k, inOrder).sector)
  {
  }

  lemma PublishContent(c: Config, inOrder: bool, s: State, i: nat, p: nat)
    requires Inv(c, inOrder, s, p) && i < |s.cos| && s.cos[i].Wrote? && s.cos[i].k < |s.claims|
    ensures ContentOk(c, Publish(s, i, s.cos[i].k, inOrder))
  {
    var s' := Publish(s, i, s.cos[i].k, inOrder);
    forall k | s'.ret != Failed && 0 <= k < |s.claims|
      ensures ChunkContent(c, s'.target, s'.claims[k], Landed(s', k))
    {
      assert ChunkContent(c, s.target, s.claims[k], Landed(s, k));
      assert Landed(s', k) == Landed(s, k);
    }
  }

  lemma PublishOwners(c: Config, inOrder: bool, s: State, i: nat, p: nat)
    requires Inv(c, inOrder, s, p) && i < |s.cos| && s.cos[i].Wrote? && s.cos[i].k < |s.claims|
    ensures OwnersOk(Publish(s, i, s.cos[i].k, inOrder))
  {
  }

  lemma PublishRunning(c: Config, s: State, i: nat, k: nat, inOrder: bool)
    requires RunningOk(c, s) && LockOk(c, s) && i < |s.cos| && s.cos[i].Wrote? && k < |s.claims|
    ensures RunningOk(c, Publish(s, i, k, inOrder)) && LockOk(c, Publish(s, i, k, inOrder))
  {
  }

  /** The one sleeper whose predecessor finishes is woken. */
  lemma PublishSleep(c: Config, inOrder: bool, s: State, i: nat, p: nat)
    requires Inv(c, inOrder, s, p) && i < |s.cos| && s.cos[i].Wrote? && s.cos[i].k < |s.claims|
    ensures SleepOk(Publish(s, i, s.cos[i].k, inOrder), inOrder)
  {
  }

  lemma PublishOrder(c: Config, inOrder: bool, s: State, i: nat, p: nat)
    requires Inv(c, inOrder, s, p) && i < |s.cos| && s.cos[i].Wrote? && s.cos[i].k < |s.claims|
    requires inOrder && s.ret != Failed
    ensures OrderOk(Publish(s, i, s.cos[i].k, inOrder), p + 1)
  {
  }

  lemma StepKeepsInv(c: Config, inOrder: bool, s: State, s': State, i: nat, p: nat)
    requires Inv(c, inOrder, s, p) && Step(c, inOrder, s, s', i)
    ensures Inv(c, inOrder, s', Finished(s, p, i))
  {
    match s.cos[i]
    case NotStarted | Reading(_) | Checking(_) => MoveKeepsInv(c, inOrder, s, s', i, p);
    case AtLoop =>
      if s.ret != InProgress || s.sector >= c.Total() {
        ExitKeepsInv(c, inOrder, s, s', i, p);
      } else {
        EnterKeepsInv(c, inOrder, s, s', i, p);
      }
    case Claiming =>
      if s' == Exit(s.(ret := Failed, lock := None), i) {
        ExitKeepsInv(c, inOrder, s, s', i, p);
      } else {
        var n: nat, status: Status :| ClaimOk(c, s.sector, n, status) && s' == Claimed(s, i, n, status);
        ClaimKeepsInv(c, inOrder, s, i, n, status, p);
      }
    case Writing(_, _) => WriteKeepsInv(c, inOrder, s, s', i, p);
    case Wrote(_) => PublishKeepsInv(c, inOrder, s, i, p);
  }

  lemma InitInv(c: Config, inOrder: bool, s: State)
    requires Init(c, s)
    ensures Inv(c, inOrder, s, 0)
  {
  }

  lemma NextKeepsInv(c: Config, inOrder: bool, s: State, s': State, p: nat) returns (p': nat)
    requires Inv(c, inOrder, s, p) && Next(c, inOrder, s, s')
    ensures Inv(c, inOrder, s', p')
  {
    var i :| Step(c, inOrder, s, s', i);
    StepKeepsInv(c, inOrder, s, s', i, p);
    p' := Finished(s, p, i);
  }

  lemma {:induction false} RunInv(c: Config, inOrder: bool, run: seq<State>, t: nat) returns (p: nat)
    requires IsRun(c, inOrder, run) && t < |run|
    ensures Inv(c, inOrder, run[t], p)
  {
    if t == 0 {
      InitInv(c, inOrder, run[0]);
      p := 0;
    } else {
      p := RunInv(c, inOrder, run, t - 1);
      assert Next(c, inOrder, run[t - 1], run[t]);
      p := NextKeepsInv(c, inOrder, run[t - 1], run[t], p);
    }
  }

  // --------------------------------------------------------------------------
  // What the copy is for

  /** When the result is 0, the target is the concatenation of the sources. */
  lemma CopyIsComplete(c: Config, inOrder: bool, run: seq<State>, t: nat)
    requires IsRun(c, inOrder, run) && t < |run| && run[t].ret == Success
    ensures run[t].target == Concat(c.src)
  {
    var s := run[t];
    var p := RunInv(c, inOrder, run, t);
    forall x | 0 <= x < c.Total()
      ensures s.target[x] == c.Source(x)
    {
      var k := ChunkOf(c, s.claims, s.sector, x);
      assert ChunkContent(c, s.target, s.claims[k], Landed(s, k));
    }
  }

  /** Claimed chunks are disjoint, and together they are exactly the sectors below sector_num. */
  lemma ChunksTile(c: Config, inOrder: bool, run: seq<State>, t: nat, x: nat)
    requires IsRun(c, inOrder, run) && t < |run|
    ensures x < run[t].sector <==>
      exists k :: 0 <= k < |run[t].claims| && run[t].claims[k].start <= x < run[t].claims[k].End()
    ensures forall j, k :: 0 <= j < k < |run[t].claims| ==> run[t].claims[j].End() <= run[t].claims[k].start
  {
    var s := run[t];
    var p := RunInv(c, inOrder, run, t);
    if x < s.sector {
      var k := ChunkOf(c, s.claims, s.sector, x);
    }
    forall k | 0 <= k < |s.claims|
      ensures s.claims[k].End() <= s.sector
    {
      ChunkBelow(c, s.claims, s.sector, k);
    }
    forall j, k | 0 <= j < k < |s.claims|
      ensures s.claims[j].End() <= s.claims[k].start
    {
      ChunksAscend(c, s.claims, s.sector, j, k);
    }
  }

  /**
   * With in-order writes and no error so far: whoever writes, writes the first
   * unfinished chunk, and that chunk starts at wr_offs.
   */
  lemma WritesInOrder(c: Config, run: seq<State>, t: nat, i: nat)
    requires IsRun(c, true, run) && t < |run| && run[t].ret != Failed
    requires i < |run[t].cos| && run[t].cos[i].Writing?
    ensures run[t].cos[i].k < |run[t].claims|
    ensures run[t].claims[run[t].cos[i].k].start == run[t].wrOffs
    ensures forall k :: 0 <= k < |run[t].claims| ==> (run[t].claims[k].finished <==> k < run[t].cos[i].k)
  {
    var p := RunInv(c, true, run, t);
  }

  /** The precondition of a turn of the write loop holds whenever a coroutine is about to make one. */
  lemma WriterFindsChunkUntouched(c: Config, inOrder: bool, run: seq<State>, t: nat, i: nat)
    requires IsRun(c, inOrder, run) && t < |run| && run[t].ret != Failed
    requires i < |run[t].cos| && run[t].cos[i].Writing?
    ensures run[t].cos[i].k < |run[t].claims|
    ensures var q, done := run[t].claims[run[t].cos[i].k], run[t].cos[i].done;
            && done < q.n && ClaimOk(c, q.start, q.n, q.status)
            && Untouched(c, run[t].target, q.start + done, q.n - done)
            && AllTrue(c, q.status, q.start + done, q.n - done)
  {
    var p := RunInv(c, inOrder, run, t);
    var k := run[t].cos[i].k;
    assert ChunkContent(c, run[t].target, run[t].claims[k], Landed(run[t], k));
  }

  /**
   * No sleeper is forgotten, in runs with and without errors: the chunk before
   * the sleeper's is still held, and publishing it wakes the sleeper.  Below
   * every sleeper there is a coroutine that holds a chunk and is not asleep.
   */
  lemma {:induction false} SleeperWillBeWoken(c: Config, run: seq<State>, t: nat, i: nat) returns (j: nat)
    requires IsRun(c, true, run) && t < |run| && i < |run[t].cos| && run[t].cos[i].Sleeping?
    ensures j < |run[t].cos| && Holds(run[t].cos[j]) && !run[t].cos[j].Sleeping?
    ensures run[t].cos[j].k < run[t].cos[i].k
    decreases run[t].cos[i].k
  {
    var p := RunInv(c, true, run, t);
    j := run[t].claims[run[t].cos[i].k - 1].owner;
    if run[t].cos[j].Sleeping? {
      j := SleeperWillBeWoken(c, run, t, j);
    }
  }

  lemma PublishWakesSuccessor(c: Config, run: seq<State>, t: nat, i: nat, j: nat)
    requires IsRun(c, true, run) && t < |run| && i < |run[t].cos| && j < |run[t].cos|
    requires run[t].cos[i].Sleeping? && run[t].cos[j].Wrote? && run[t].cos[j].k == run[t].cos[i].k - 1
    ensures run[t].cos[j].k < |run[t].claims|
    ensures Publish(run[t], j, run[t].cos[j].k, true).cos[i] == Checking(run[t].cos[i].k)
    ensures Publish(run[t], j, run[t].cos[j].k, true).wrOffs == run[t].claims[run[t].cos[j].k + 1].start
  {
    var p := RunInv(c, true, run, t);
  }

  // --------------------------------------------------------------------------
  // The copy ends with a result

  /** The steps a coroutine can still take before it needs another chunk, and one more for each time it is woken. */
  function Weight(claims: seq<Claim>, co: Co): nat {
    var n := if Holds(co) && co.k < |claims| then claims[co.k].n else 0;
    match co
    case NotStarted => 4
    case AtLoop => 3
    case Claiming => 2
    case Reading(_) => n + 8
    case Checking(_) => n + 7
    case Sleeping(_) => n + 6
    case Writing(_, done) => if done <= n then n - done + 5 else 5
    case Wrote(_) => 5
    case Exited => 0
  }

  function Weights(s: State): seq<nat> {
    seq(|s.cos|, i requires 0 <= i < |s.cos| => Weight(s.claims, s.cos[i]))
  }

  function Sum(a: seq<nat>): nat {
    if a == [] then 0 else Sum(a[..|a| - 1]) + a[|a| - 1]
  }

  /** Every unclaimed sector is worth a chunk of its own. */
  function Measure(c: Config, s: State): int {
    8 * (c.Total() - s.sector) + Sum(Weights(s))
  }

  /** Item i drops by x or more, item j grows by y at most, and no other item grows. */
  lemma {:induction false} SumDrops(a: seq<nat>, b: seq<nat>, i: nat, x: int, j: nat, y: nat)
    requires |a| == |b| && i != j
    requires forall k :: 0 <= k < |a| ==> b[k] <= (if k == i then a[k] - x else if k == j then a[k] + y else a[k])
    ensures Sum(b) <= Sum(a) - (if i < |a| then x else 0) + (if j < |a| then y else 0)
  {
    if a == [] {
    } else {
      SumDrops(a[..|a| - 1], b[..|b| - 1], i, x, j, y);
    }
  }

  lemma {:induction false} SumOf(a: seq<nat>, x: nat)
    requires forall k :: 0 <= k < |a| ==> a[k] == x
    ensures Sum(a) == x * |a|
  {
    if a == [] {
    } else {
      SumOf(a[..|a| - 1], x);
    }
  }

  lemma MoveShrinks(c: Config, inOrder: bool, s: State, s': State, i: nat, p: nat)
    requires Inv(c, inOrder, s, p) && Step(c, inOrder, s, s', i)
    requires !s.cos[i].Claiming? && !s.cos[i].Wrote?
    ensures Measure(c, s') < Measure(c, s)
  {
    if s.cos[i].Writing? { WriteMoves(c, s, s', i, s.cos[i].k, s.cos[i].done); }
    SumDrops(Weights(s), Weights(s'), i, 1, |s.cos|, 0);
  }

  lemma ClaimShrinks(c: Config, inOrder: bool, s: State, s': State, i: nat, p: nat)
    requires Inv(c, inOrder, s, p) && Step(c, inOrder, s, s', i) && s.cos[i].Claiming?
    ensures Measure(c, s') < Measure(c, s)
  {
    if s'.sector == s.sector {
      SumDrops(Weights(s), Weights(s'), i, 1, |s.cos|, 0);
    } else {
      var n := s'.sector - s.sector;
      SumDrops(Weights(s), Weights(s'), i, -n - 6, |s.cos|, 0);
    }
  }

  /** At most one coroutine is woken, because chunks start at different sectors. */
  lemma PublishShrinks(c: Config, inOrder: bool, s: State, i: nat, p: nat)
    requires Inv(c, inOrder, s, p) && i < |s.cos| && s.cos[i].Wrote? && s.cos[i].k < |s.claims|
    ensures Measure(c, Publish(s, i, s.cos[i].k, inOrder)) < Measure(c, s)
  {
    var s' := Publish(s, i, s.cos[i].k, inOrder);
    var j := Woken(c, s, i, inOrder);
    SumDrops(Weights(s), Weights(s'), i, 2, j, 1);
  }

  lemma Woken(c: Config, s: State, i: nat, inOrder: bool) returns (j: nat)
    requires Tiling(c, s.claims, s.sector) && OwnersOk(s) && i < |s.cos| && s.cos[i].Wrote?
    requires s.cos[i].k < |s.claims|
    ensures j != i
    ensures forall x :: 0 <= x < |s.cos| && x != i && x != j ==> Publish(s, i, s.cos[i].k, inOrder).cos[x] == s.cos[x]
    ensures j < |s.cos| ==>
      var co := Publish(s, i, s.cos[i].k, inOrder).cos[j];
      co == s.cos[j] || (s.cos[j].Sleeping? && co == Checking(s.cos[j].k))
  {
    var k := s.cos[i].k;
    j := if k + 1 < |s.claims| then s.claims[k + 1].owner else |s.cos|;
    if j == i { j := |s.cos|; }
    forall x | 0 <= x < |s.cos| && x != i && s.cos[x].Sleeping? && s.claims[s.cos[x].k].start == s.claims[k].End()
      ensures x == j
    {
      StartsAtEnd(c, s.claims, s.sector, k, s.cos[x].k);
    }
  }

  lemma StartsAtEnd(c: Config, claims: seq<Claim>, sector: nat, k: nat, l: nat)
    requires Tiling(c, claims, sector) && k < |claims| && l < |claims| && claims[l].start == claims[k].End()
    ensures l == k + 1
  {
    if l < k { ChunksAscend(c, claims, sector, l, k); }
    if k + 1 < l { ChunksAscend(c, claims, sector, k + 1, l); }
  }

  lemma StepShrinks(c: Config, inOrder: bool, s: State, s': State, i: nat, p: nat)
    requires Inv(c, inOrder, s, p) && Step(c, inOrder, s, s', i)
    ensures Measure(c, s') < Measure(c, s)
  {
    if s.cos[i].Claiming? {
      ClaimShrinks(c, inOrder, s, s', i, p);
    } else if s.cos[i].Wrote? {
      PublishShrinks(c, inOrder, s, i, p);
    } else {
      MoveShrinks(c, inOrder, s, s', i, p);
    }
  }

  lemma {:induction false} RunShrinks(c: Config, inOrder: bool, run: seq<State>, t: nat)
    requires IsRun(c, inOrder, run) && t < |run|
    ensures t + Measure(c, run[t]) <= 8 * c.Total() + 4 * |run[0].cos|
  {
    if t == 0 {
      SumOf(Weights(run[0]), 4);
    } else {
      RunShrinks(c, inOrder, run, t - 1);
      var p := RunInv(c, inOrder, run, t - 1);
      assert Next(c, inOrder, run[t - 1], run[t]);
      var i :| Step(c, inOrder, run[t - 1], run[t], i);
      StepShrinks(c, inOrder, run[t - 1], run[t], i, p);
    }
  }

  /** No run is longer than this, whatever the interleaving, the sizes of the chunks and the errors. */
  lemma RunsEnd(c: Config, inOrder: bool, run: seq<State>)
    requires IsRun(c, inOrder, run)
    ensures |run| <= 8 * c.Total() + 4 * |run[0].cos| + 1
  {
    var t := |run| - 1;
    RunShrinks(c, inOrder, run, t);
    var p := RunInv(c, inOrder, run, t);
  }

  /** Whoever neither sleeps nor waits for the lock can go on. */
  lemma AwakeMoves(c: Config, inOrder: bool, s: State, i: nat, p: nat) returns (s': State)
    requires Inv(c, inOrder, s, p) && c.Valid() && i < |s.cos| && !s.cos[i].Exited? && !s.cos[i].Sleeping?
    requires s.cos[i].AtLoop? ==> s.lock.None?
    ensures Step(c, inOrder, s, s', i) && (s'.ret == Failed ==> s.ret == Failed)
  {
    match s.cos[i]
    case NotStarted => s' := s.At(i, AtLoop).(running := s.running + {i});
    case AtLoop =>
      s' := if s.ret != InProgress || s.sector >= c.Total() then Exit(s, i)
            else s.At(i, Claiming).(lock := Some(i));
    case Claiming =>
      s' := Claimed(s, i, 1, Data);
      assert ClaimOk(c, s.sector, 1, Data);
    case Reading(k) => s' := s.At(i, Checking(k));
    case Checking(k) =>
      s' := s.At(i, if inOrder && s.wrOffs != s.claims[k].start && s.ret == InProgress then Sleeping(k)
                    else if s.ret == InProgress then Writing(k, 0)
                    else Wrote(k));
    case Writing(k, done) => s' := FinishWrite(c, inOrder, s, i, p);
    case Wrote(k) => s' := Publish(s, i, k, inOrder);
  }

  lemma FinishWrite(c: Config, inOrder: bool, s: State, i: nat, p: nat) returns (s': State)
    requires Inv(c, inOrder, s, p) && i < |s.cos| && s.cos[i].Writing?
    ensures Step(c, inOrder, s, s', i) && s'.ret == s.ret
  {
    var k, done := s.cos[i].k, s.cos[i].done;
    var q := s.claims[k];
    ChunkBelow(c, s.claims, s.sector, k);
    var t := seq(c.Total(), x requires 0 <= x < c.Total() =>
      if q.start + done <= x < q.End() then c.Source(x) else s.target[x]);
    assert Copied(c, s.target, t, q.start + done, q.n - done);
    s' := Progress(s, i, k, done, q.n - done, t);
  }

  /** Unless every coroutine has exited, one of them can go on, and without an error. */
  lemma SomeoneMoves(c: Config, inOrder: bool, run: seq<State>, t: nat) returns (s': State)
    requires IsRun(c, inOrder, run) && c.Valid() && t < |run|
    requires exists i :: 0 <= i < |run[t].cos| && !run[t].cos[i].Exited?
    ensures Next(c, inOrder, run[t], s') && (s'.ret == Failed ==> run[t].ret == Failed)
  {
    var s := run[t];
    var p := RunInv(c, inOrder, run, t);
    var i :| 0 <= i < |s.cos| && !s.cos[i].Exited?;
    if s.cos[i].AtLoop? && s.lock.Some? {
      i := s.lock.value;
    } else if s.cos[i].Sleeping? {
      i := SleeperWillBeWoken(c, run, t, i);
    }
    s' := AwakeMoves(c, inOrder, s, i, p);
  }

  /** Once all have exited there is a result. */
  lemma ExitedHaveResult(c: Config, inOrder: bool, run: seq<State>, t: nat)
    requires IsRun(c, inOrder, run) && t < |run| && |run[t].cos| > 0
    requires forall i :: 0 <= i < |run[t].cos| ==> run[t].cos[i].Exited?
    ensures run[t].ret == Failed || (run[t].ret == Success && run[t].target == Concat(c.src))
  {
    assert t > 0 by { assert run[t].cos[0].Exited?; }
    var p := RunInv(c, inOrder, run, t);
    assert Next(c, inOrder, run[t - 1], run[t]);
    var i :| Step(c, inOrder, run[t - 1], run[t], i);
    LastExit(c, inOrder, run[t - 1], run[t], i);
    if run[t].ret == Success { CopyIsComplete(c, inOrder, run, t); }
  }

  lemma LastExit(c: Config, inOrder: bool, s: State, s': State, i: nat)
    requires Step(c, inOrder, s, s', i) && RunningOk(c, s')
    requires forall j :: 0 <= j < |s'.cos| ==> s'.cos[j].Exited?
    ensures s'.ret != InProgress
  {
    assert s'.running == {};
    assert s'.cos[i].Exited?;
  }

  /** A run that cannot go on has exited everywhere and has a result; if that is 0, the copy is complete. */
  lemma StuckIsDone(c: Config, inOrder: bool, run: seq<State>, t: nat)
    requires IsRun(c, inOrder, run) && c.Valid() && t < |run| && |run[t].cos| > 0
    requires forall s' :: !Next(c, inOrder, run[t], s')
    ensures forall i :: 0 <= i < |run[t].cos| ==> run[t].cos[i].Exited?
    ensures run[t].ret == Failed || (run[t].ret == Success && run[t].target == Concat(c.src))
  {
    if exists i :: 0 <= i < |run[t].cos| && !run[t].cos[i].Exited? {
      var s' := SomeoneMoves(c, inOrder, run, t);
      assert false;
    }
    ExitedHaveResult(c, inOrder, run, t);
  }
}
