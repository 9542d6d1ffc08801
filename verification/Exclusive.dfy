/**
 * The vCPU exclusive-section protocol of cpu-common.c.
 *
 * Every vCPU thread runs one program: it may enter the guest through
 * cpu_exec_start / cpu_exec_end, or request exclusivity through
 * start_exclusive / end_exclusive.  One step of the relation below is one
 * shared-memory access, one lock acquisition, or one condition-variable
 * operation, and any thread may take the next step, so the runs of the model
 * are all interleavings under sequential consistency.
 */
module Exclusive {

  // --------------------------------------------------------------------------
  // Program counters

  /** Inside cpu_exec_start. */
  datatype EnterPc =
    | ReadPending | LockList | CheckWaiter | ClearRunning
    | Idle | Sleep | Woken | SetRunning | UnlockList

  /** Inside cpu_exec_end. */
  datatype LeavePc =
    | EndReadPending | EndLock | EndCheckWaiter | EndClearWaiter
    | EndDecrement | EndTest | EndUnlock

  /** start_exclusive up to the write pending_cpus = 1. */
  datatype RequestPc = ReqLock | ReqIdle | ReqSleep | ReqWoken | ReqSetOne

  /** The scan over all CPUs; `count` is running_cpus. */
  datatype ScanPc = Look(next: nat, count: nat) | Mark(next: nat, count: nat) | SetCount(count: nat)

  /** The wait for the counted CPUs, to the end of start_exclusive. */
  datatype AwaitPc = Test | Wait | Signalled | AwaitUnlock | SetContext

  /** end_exclusive, once the outermost section is left. */
  datatype FinishPc = FinishLock | Reset | Broadcast | FinishUnlock

  datatype Pc =
    | Outside
    | Enter(enter: EnterPc)
    | Guest              // cpu_exec_start has returned
    | Leave(leave: LeavePc)
    | Request(request: RequestPc)
    | Scan(scan: ScanPc)
    | Await(await: AwaitPc)
    | InSection          // start_exclusive has returned
    | AtomicGuest        // the owner of the section executes guest code itself
    | Finish(finish: FinishPc)

  // --------------------------------------------------------------------------
  // States and steps

  datatype Lock = Free | HeldBy(cpu: nat)

  /** `running` and `hasWaiter` are the sets of CPUs whose flag is set. */
  datatype State = State(
    pc: seq<Pc>,
    running: set<nat>,
    hasWaiter: set<nat>,
    nesting: seq<nat>,
    pending: int,
    lock: Lock)
  {
    function At(t: nat, p: Pc): State
      requires t < |pc|
    {
      this.(pc := pc[t := p])
    }
  }

  predicate WellFormed(s: State) {
    |s.nesting| == |s.pc|
  }

  predicate Init(s: State) {
    && WellFormed(s)
    && (forall t :: 0 <= t < |s.pc| ==> s.pc[t] == Outside && s.nesting[t] == 0)
    && s.running == {} && s.hasWaiter == {} && s.pending == 0 && s.lock == Free
  }

  predicate Acquire(s: State, s': State, t: nat, p: Pc)
    requires t < |s.pc|
  {
    s.lock == Free && s' == s.At(t, p).(lock := HeldBy(t))
  }

  /** cpu_exec_start */
  predicate EnterStep(s: State, s': State, t: nat, e: EnterPc)
    requires t < |s.pc|
  {
    match e
    case ReadPending => s' == s.At(t, if s.pending != 0 then Enter(LockList) else Guest)
    case LockList => Acquire(s, s', t, Enter(CheckWaiter))
    case CheckWaiter => s' == s.At(t, Enter(if t in s.hasWaiter then UnlockList else ClearRunning))
    case ClearRunning => s' == s.At(t, Enter(Idle)).(running := s.running - {t})
    case Idle =>
      if s.pending != 0 then s' == s.At(t, Enter(Sleep)).(lock := Free)
      else s' == s.At(t, Enter(SetRunning))
    case Sleep => s' == s.At(t, Enter(Woken))  // spurious wake-up
    case Woken => Acquire(s, s', t, Enter(Idle))
    case SetRunning => s' == s.At(t, Enter(UnlockList)).(running := s.running + {t})
    case UnlockList => s' == s.At(t, Guest).(lock := Free)
  }

  /** qemu_cond_signal(&exclusive_cond): one sleeper wakes, if there is one. */
  predicate SignalAndMove(s: State, s': State, t: nat, p: Pc)
    requires t < |s.pc|
  {
    || (Await(Wait) !in s.pc && s' == s.At(t, p))
    || (exists w :: 0 <= w < |s.pc| && s.pc[w] == Await(Wait) && s' == s.At(w, Await(Signalled)).At(t, p))
  }

  /** cpu_exec_end */
  predicate LeaveStep(s: State, s': State, t: nat, e: LeavePc)
    requires t < |s.pc|
  {
    match e
    case EndReadPending => s' == s.At(t, if s.pending != 0 then Leave(EndLock) else Outside)
    case EndLock => Acquire(s, s', t, Leave(EndCheckWaiter))
    case EndCheckWaiter => s' == s.At(t, Leave(if t in s.hasWaiter then EndClearWaiter else EndUnlock))
    case EndClearWaiter => s' == s.At(t, Leave(EndDecrement)).(hasWaiter := s.hasWaiter - {t})
    case EndDecrement => s' == s.At(t, Leave(EndTest)).(pending := s.pending - 1)
    case EndTest =>
      if s.pending == 1 then SignalAndMove(s, s', t, Leave(EndUnlock))
      else s' == s.At(t, Leave(EndUnlock))
    case EndUnlock => s' == s.At(t, Outside).(lock := Free)
  }

  /** start_exclusive, up to pending_cpus = 1 */
  predicate RequestStep(s: State, s': State, t: nat, r: RequestPc)
    requires t < |s.pc|
  {
    match r
    case ReqLock => Acquire(s, s', t, Request(ReqIdle))
    case ReqIdle =>
      if s.pending != 0 then s' == s.At(t, Request(ReqSleep)).(lock := Free)
      else s' == s.At(t, Request(ReqSetOne))
    case ReqSleep => s' == s.At(t, Request(ReqWoken))  // spurious wake-up
    case ReqWoken => Acquire(s, s', t, Request(ReqIdle))
    case ReqSetOne => s' == s.At(t, Scan(Look(0, 0))).(pending := 1)
  }

  /** The CPU_FOREACH loop of start_exclusive, one CPU at a time */
  predicate ScanStep(s: State, s': State, t: nat, c: ScanPc)
    requires t < |s.pc|
  {
    match c
    case Look(i, n) =>
      if i < |s.pc|
      then s' == s.At(t, Scan(if i in s.running then Mark(i, n) else Look(i + 1, n)))
      else s' == s.At(t, Scan(SetCount(n)))
    case Mark(i, n) => s' == s.At(t, Scan(Look(i + 1, n + 1))).(hasWaiter := s.hasWaiter + {i})
    case SetCount(n) => s' == s.At(t, Await(Test)).(pending := n + 1)
  }

  /** The wait loop of start_exclusive, and its return */
  predicate AwaitStep(s: State, s': State, t: nat, a: AwaitPc)
    requires WellFormed(s) && t < |s.pc|
  {
    match a
    case Test =>
      if s.pending > 1 then s' == s.At(t, Await(Wait)).(lock := Free)
      else s' == s.At(t, Await(AwaitUnlock))
    case Wait => s' == s.At(t, Await(Signalled))  // spurious wake-up
    case Signalled => Acquire(s, s', t, Await(Test))
    case AwaitUnlock => s' == s.At(t, Await(SetContext)).(lock := Free)
    case SetContext => s' == s.At(t, InSection).(nesting := s.nesting[t := 1])
  }

  /** What a step says about the calls of its thread: start_exclusive has returned, or end_exclusive is called. */
  datatype Call = Started | Ended | Silent

  /** Nested start_exclusive, end_exclusive, and guest execution by the owner */
  predicate SectionStep(s: State, s': State, t: nat, call: Call)
    requires WellFormed(s) && t < |s.pc|
  {
    match call
    case Started => s' == s.(nesting := s.nesting[t := s.nesting[t] + 1])
    case Ended =>
      && s.nesting[t] > 0
      && var left := s.(nesting := s.nesting[t := s.nesting[t] - 1]);
         s' == if left.nesting[t] > 0 then left else left.At(t, Finish(FinishLock))
    case Silent => s' == s.At(t, AtomicGuest).(running := s.running + {t})
  }

  /** qemu_cond_broadcast(&exclusive_resume) */
  function WakeIdlers(pc: seq<Pc>): seq<Pc> {
    seq(|pc|, i requires 0 <= i < |pc| =>
      if pc[i] == Enter(Sleep) then Enter(Woken)
      else if pc[i] == Request(ReqSleep) then Request(ReqWoken)
      else pc[i])
  }

  /** end_exclusive, outermost */
  predicate FinishStep(s: State, s': State, t: nat, f: FinishPc)
    requires t < |s.pc|
  {
    match f
    case FinishLock => Acquire(s, s', t, Finish(Reset))
    case Reset => s' == s.At(t, Finish(Broadcast)).(pending := 0)
    case Broadcast => s' == s.(pc := WakeIdlers(s.pc)[t := Finish(FinishUnlock)])
    case FinishUnlock => s' == s.At(t, Outside).(lock := Free)
  }

  /** Thread t takes the action its program counter stands for. */
  predicate Step(s: State, s': State, t: nat)
    requires WellFormed(s)
  {
    && t < |s.pc|
    && match s.pc[t]
       case Outside =>
         || s' == s.At(t, Enter(ReadPending)).(running := s.running + {t})
         || s' == s.At(t, Request(ReqLock))
       case Enter(e) => EnterStep(s, s', t, e)
       case Guest => s' == s.At(t, Leave(EndReadPending)).(running := s.running - {t})
       case Leave(e) => LeaveStep(s, s', t, e)
       case Request(r) => RequestStep(s, s', t, r)
       case Scan(c) => ScanStep(s, s', t, c)
       case Await(a) => AwaitStep(s, s', t, a)
       case InSection =>
         SectionStep(s, s', t, Started) || SectionStep(s, s', t, Ended) || SectionStep(s, s', t, Silent)
       case AtomicGuest => s' == s.At(t, InSection).(running := s.running - {t})
       case Finish(f) => FinishStep(s, s', t, f)
  }

  /** The same, with what happens to the calls of start_exclusive and end_exclusive. */
  predicate Acts(s: State, s': State, t: nat, call: Call)
    requires WellFormed(s)
  {
    && Step(s, s', t)
    && if s.pc[t].InSection? then SectionStep(s, s', t, call)
       else call == if s.pc[t] == Await(SetContext) then Started else Silent
  }

  ghost predicate Next(s: State, s': State) {
    WellFormed(s) && exists t :: Step(s, s', t)
  }

  ghost predicate IsRun(run: seq<State>) {
    && |run| > 0 && Init(run[0])
    && forall j, k {:trigger Next(run[j], run[k])} :: 0 <= j && k == j + 1 < |run| ==> Next(run[j], run[k])
  }

  // --------------------------------------------------------------------------
  // Classes of program counters

  /** The thread holds qemu_cpu_list_lock. */
  predicate HoldsLock(p: Pc) {
    match p
    case Enter(e) => e.CheckWaiter? || e.ClearRunning? || e.Idle? || e.SetRunning? || e.UnlockList?
    case Leave(e) => !e.EndReadPending? && !e.EndLock?
    case Request(r) => r.ReqIdle? || r.ReqSetOne?
    case Scan(_) => true
    case Await(a) => a.Test? || a.AwaitUnlock?
    case Finish(f) => !f.FinishLock?
    case _ => false
  }

  /** `running` is set for a thread at p. */
  predicate Runs(p: Pc) {
    || (p.Enter? && !(p.enter.Idle? || p.enter.Sleep? || p.enter.Woken? || p.enter.SetRunning?))
    || p.Guest? || p.AtomicGuest?
  }

  /** The thread has set pending_cpus and not yet reset it. */
  predicate Owns(p: Pc) {
    p.Scan? || p.Await? || p.InSection? || p.AtomicGuest?
    || (p.Finish? && (p.finish.FinishLock? || p.finish.Reset?))
  }

  /** start_exclusive is past its wait: the section is really exclusive. */
  predicate Entered(p: Pc) {
    Owns(p) && !p.Scan? && (p.Await? ==> p.await.AwaitUnlock? || p.await.SetContext?)
  }

  /** Where a CPU with has_waiter set can be; none of these places is in exclusive_idle. */
  predicate MayBeCounted(p: Pc) {
    || (p.Enter? && (p.enter.ReadPending? || p.enter.LockList? || p.enter.CheckWaiter? || p.enter.UnlockList?))
    || p.Guest?
    || (p.Leave? && !(p.leave.EndDecrement? || p.leave.EndTest? || p.leave.EndUnlock?))
  }

  /** Where a CPU seen running can get to before the scanner marks it. */
  predicate Markable(p: Pc) {
    MayBeCounted(p) && !HoldsLock(p)
  }

  predicate InGuestOrAboutTo(p: Pc) {
    p.Guest? || p == Enter(UnlockList)
  }

  predicate Sleeping(p: Pc) {
    p == Enter(Sleep) || p == Request(ReqSleep)
  }

  /** The scan of start_exclusive, standing at p, has dealt with CPU t. */
  predicate Passed(p: Pc, t: nat) {
    p.Scan? && !p.scan.SetCount? ==> t < p.scan.next
  }

  // --------------------------------------------------------------------------
  // The invariant, relative to the thread that owns the section

  datatype Owner = Nobody | Thread(cpu: nat)

  predicate LockHolderAt(s: State, p: Pc) {
    s.lock.HeldBy? && s.lock.cpu < |s.pc| && s.pc[s.lock.cpu] == p
  }

  /** What holds of thread t alone, given the shared variables and the owner's position. */
  predicate Local(s: State, o: Owner, t: nat)
    requires WellFormed(s) && t < |s.pc|
    requires o.Thread? ==> o.cpu < |s.pc|
  {
    var p := s.pc[t];
    && (HoldsLock(p) <==> s.lock == HeldBy(t))
    && (Owns(p) <==> o == Thread(t))
    && (Runs(p) <==> t in s.running)
    && (s.nesting[t] > 0 <==> p.InSection? || p.AtomicGuest?)
    && (t in s.hasWaiter ==> MayBeCounted(p))
    && (p == Leave(EndClearWaiter) ==> t in s.hasWaiter)
    && (p == Enter(SetRunning) || p == Request(ReqSetOne) ==> s.pending == 0)
    && (p == Leave(EndTest) ==> s.pending != 0)
       // no lost wake-up: a sleeper's condition still holds, or the waker is on its way
    && (Sleeping(p) ==> s.pending != 0 || LockHolderAt(s, Finish(Broadcast)))
    && (p == Await(Wait) ==> s.pending > 1 || LockHolderAt(s, Leave(EndTest)))
    && LocalScan(s, o, t)
  }

  /** A CPU that the scan has passed runs guest code only if it is counted. */
  predicate LocalScan(s: State, o: Owner, t: nat)
    requires t < |s.pc|
    requires o.Thread? ==> o.cpu < |s.pc|
  {
    match o
    case Nobody => t !in s.hasWaiter
    case Thread(c) =>
      && (Passed(s.pc[c], t) && InGuestOrAboutTo(s.pc[t]) ==> t in s.hasWaiter)
      && (t in s.hasWaiter ==> Passed(s.pc[c], t))
      && (s.pc[c].Scan? && s.pc[c].scan.Mark? && s.pc[c].scan.next == t ==> Markable(s.pc[t]))
  }

  /** A counted CPU that has cleared has_waiter but not yet decremented pending_cpus. */
  function Decrementing(s: State): nat {
    if LockHolderAt(s, Leave(EndDecrement)) then 1 else 0
  }

  ghost predicate Global(s: State, o: Owner) {
    && WellFormed(s)
    && (s.lock.HeldBy? ==> s.lock.cpu < |s.pc|)
    && (forall t :: t in s.hasWaiter ==> t < |s.pc|)
    && (o.Nobody? <==> s.pending == 0)
    && (o.Nobody? ==> s.hasWaiter == {} && Decrementing(s) == 0)
    && (o.Thread? ==> o.cpu < |s.pc| && CountOk(s, s.pc[o.cpu]))
  }

  /** pending_cpus against the has_waiter flags, with the owner at p. */
  predicate CountOk(s: State, p: Pc) {
    if p.Scan? then
      && s.pending == 1 && p.scan.count == |s.hasWaiter|
      && (p.scan.Look? ==> p.scan.next <= |s.pc|)
      && (p.scan.Mark? ==> p.scan.next < |s.pc|)
    else
      && s.pending == 1 + |s.hasWaiter| + Decrementing(s)
      && (Entered(p) ==> s.pending == 1)
  }

  ghost predicate Inv(s: State, o: Owner) {
    Global(s, o) && forall t :: 0 <= t < |s.pc| ==> Local(s, o, t)
  }

  /** The part of the invariant that a step of thread t needs. */
  ghost predicate InvAt(s: State, o: Owner, t: nat) {
    && Global(s, o) && t < |s.pc| && Local(s, o, t)
    && (o.Thread? ==> Local(s, o, o.cpu))
  }

  function OwnerAfter(s: State, o: Owner, t: nat): Owner
    requires t < |s.pc|
  {
    if s.pc[t] == Request(ReqSetOne) then Thread(t) else if s.pc[t] == Finish(Reset) then Nobody else o
  }

  // --------------------------------------------------------------------------
  // Quiet steps: by a thread that does not own the section, touching only its own flags and the lock

  predicate Watched(p: Pc) {
    p == Leave(EndDecrement) || p == Leave(EndTest) || p == Finish(Broadcast)
  }

  ghost predicate Quiet(s: State, s': State, t: nat, q: Pc)
    requires t < |s.pc|
  {
    && !Owns(s.pc[t]) && !Owns(q) && !Watched(s.pc[t]) && !Watched(q)
    && s'.pc == s.pc[t := q] && s'.nesting == s.nesting
    && s'.pending == s.pending && s'.hasWaiter == s.hasWaiter
    && (forall u :: u != t ==> (u in s'.running <==> u in s.running))
    && s'.lock == (if HoldsLock(q) then HeldBy(t) else if HoldsLock(s.pc[t]) then Free else s.lock)
    && (HoldsLock(q) ==> HoldsLock(s.pc[t]) || s.lock.Free?)
  }

  predicate QuietAt(p: Pc) {
    match p
    case Outside | Enter(_) | Guest => true
    case Leave(e) => !e.EndClearWaiter? && !e.EndDecrement? && !e.EndTest?
    case Request(r) => !r.ReqSetOne?
    case Finish(f) => f.FinishUnlock?
    case _ => false
  }

  lemma QuietEnter(s: State, s': State, t: nat, e: EnterPc)
    requires t < |s.pc| && s.pc[t] == Enter(e) && EnterStep(s, s', t, e)
    requires HoldsLock(s.pc[t]) <==> s.lock == HeldBy(t)
    ensures t < |s'.pc| && Quiet(s, s', t, s'.pc[t])
  {
  }

  lemma QuietLeave(s: State, s': State, t: nat, e: LeavePc)
    requires t < |s.pc| && s.pc[t] == Leave(e) && LeaveStep(s, s', t, e) && QuietAt(s.pc[t])
    requires HoldsLock(s.pc[t]) <==> s.lock == HeldBy(t)
    ensures t < |s'.pc| && Quiet(s, s', t, s'.pc[t])
  {
  }

  lemma QuietRequest(s: State, s': State, t: nat, r: RequestPc)
    requires t < |s.pc| && s.pc[t] == Request(r) && RequestStep(s, s', t, r) && QuietAt(s.pc[t])
    requires HoldsLock(s.pc[t]) <==> s.lock == HeldBy(t)
    ensures t < |s'.pc| && Quiet(s, s', t, s'.pc[t])
  {
  }

  lemma QuietShape(s: State, s': State, t: nat)
    requires WellFormed(s) && Step(s, s', t) && QuietAt(s.pc[t])
    requires HoldsLock(s.pc[t]) <==> s.lock == HeldBy(t)
    ensures t < |s'.pc| && Quiet(s, s', t, s'.pc[t])
  {
    match s.pc[t]
    case Enter(e) => QuietEnter(s, s', t, e);
    case Leave(e) => QuietLeave(s, s', t, e);
    case Request(r) => QuietRequest(s, s', t, r);
    case _ =>
  }

  lemma QuietOther(s: State, s': State, t: nat, o: Owner, q: Pc, u: nat)
    requires InvAt(s, o, t) && Quiet(s, s', t, q)
    requires u < |s.pc| && u != t && Local(s, o, u)
    ensures Local(s', o, u)
  {
  }

  lemma QuietGlobal(s: State, s': State, t: nat, o: Owner, q: Pc)
    requires InvAt(s, o, t) && Quiet(s, s', t, q)
    ensures Global(s', o)
  {
  }

  lemma EdgeMover(s: State, s': State, t: nat, o: Owner)
    requires InvAt(s, o, t) && (s.pc[t].Outside? || s.pc[t].Guest?) && Step(s, s', t) && Global(s', o)
    ensures Local(s', o, t)
  {
  }

  lemma EnterMover(s: State, s': State, t: nat, o: Owner)
    requires InvAt(s, o, t) && s.pc[t].Enter? && EnterStep(s, s', t, s.pc[t].enter) && Global(s', o)
    ensures Local(s', o, t)
  {
    if HoldsLock(s.pc[t]) { EnterMoverLocked(s, s', t, o); } else { EnterMoverUnlocked(s, s', t, o); }
  }

  lemma EnterMoverLocked(s: State, s': State, t: nat, o: Owner)
    requires InvAt(s, o, t) && s.pc[t].Enter? && EnterStep(s, s', t, s.pc[t].enter) && Global(s', o)
    requires HoldsLock(s.pc[t])
    ensures Local(s', o, t)
  {
  }

  lemma EnterMoverUnlocked(s: State, s': State, t: nat, o: Owner)
    requires InvAt(s, o, t) && s.pc[t].Enter? && EnterStep(s, s', t, s.pc[t].enter) && Global(s', o)
    requires !HoldsLock(s.pc[t])
    ensures Local(s', o, t)
  {
  }

  lemma LeaveMover(s: State, s': State, t: nat, o: Owner)
    requires InvAt(s, o, t) && s.pc[t].Leave? && LeaveStep(s, s', t, s.pc[t].leave) && Global(s', o)
    requires QuietAt(s.pc[t])
    ensures Local(s', o, t)
  {
  }

  lemma RequestMover(s: State, s': State, t: nat, o: Owner)
    requires InvAt(s, o, t) && s.pc[t].Request? && RequestStep(s, s', t, s.pc[t].request)
    requires Global(s', OwnerAfter(s, o, t))
    ensures Local(s', OwnerAfter(s, o, t), t)
  {
    if s.pc[t] == Request(ReqSetOne) { SetOneMover(s, s', t, o); } else { RequestMoverIdle(s, s', t, o); }
  }

  lemma RequestMoverIdle(s: State, s': State, t: nat, o: Owner)
    requires InvAt(s, o, t) && s.pc[t].Request? && RequestStep(s, s', t, s.pc[t].request)
    requires !s.pc[t].request.ReqSetOne? && Global(s', OwnerAfter(s, o, t))
    ensures Local(s', OwnerAfter(s, o, t), t)
  {
  }

  lemma SetOneMover(s: State, s': State, t: nat, o: Owner)
    requires InvAt(s, o, t) && s.pc[t] == Request(ReqSetOne) && RequestStep(s, s', t, ReqSetOne)
    requires Global(s', OwnerAfter(s, o, t))
    ensures Local(s', OwnerAfter(s, o, t), t)
  {
  }

  // --------------------------------------------------------------------------
  // The other steps: releasing a counted CPU, and everything the owner does

  predicate ReleasesAt(p: Pc) {
    p == Leave(EndClearWaiter) || p == Leave(EndDecrement)
  }

  lemma ReleaseGlobal(s: State, s': State, t: nat, o: Owner)
    requires InvAt(s, o, t) && ReleasesAt(s.pc[t]) && LeaveStep(s, s', t, s.pc[t].leave)
    ensures Global(s', o)
  {
  }

  lemma ReleaseMover(s: State, s': State, t: nat, o: Owner)
    requires InvAt(s, o, t) && ReleasesAt(s.pc[t]) && LeaveStep(s, s', t, s.pc[t].leave) && Global(s', o)
    ensures Local(s', o, t)
  {
  }

  lemma ReleaseOther(s: State, s': State, t: nat, o: Owner, u: nat)
    requires InvAt(s, o, t) && ReleasesAt(s.pc[t]) && LeaveStep(s, s', t, s.pc[t].leave)
    requires Global(s', o) && u < |s.pc| && u != t && Local(s, o, u)
    ensures Local(s', o, u)
  {
  }

  /** qemu_cond_signal reaches the owner, the only thread that can wait on exclusive_cond. */
  lemma TestShape(s: State, s': State, t: nat, o: Owner)
    requires Inv(s, o) && t < |s.pc| && s.pc[t] == Leave(EndTest) && LeaveStep(s, s', t, EndTest)
    ensures o.Thread? && o.cpu != t
    ensures s' == if s.pending == 1 && s.pc[o.cpu] == Await(Wait)
                  then s.At(o.cpu, Await(Signalled)).At(t, Leave(EndUnlock))
                  else s.At(t, Leave(EndUnlock))
  {
    assert Local(s, o, t);
    if s.pending == 1 && Await(Wait) in s.pc {
      var w :| 0 <= w < |s.pc| && s.pc[w] == Await(Wait) && s' == s.At(w, Await(Signalled)).At(t, Leave(EndUnlock));
      assert Local(s, o, w);
    }
  }

  lemma TestKeepsInv(s: State, s': State, t: nat, o: Owner, u: nat)
    requires Inv(s, o) && t < |s.pc| && s.pc[t] == Leave(EndTest) && LeaveStep(s, s', t, EndTest)
    requires u < |s.pc|
    ensures Global(s', o) && Local(s', o, u)
  {
    TestShape(s, s', t, o);
    assert Local(s, o, t) && Local(s, o, u) && Local(s, o, o.cpu);
  }

  lemma SetOneGlobal(s: State, s': State, t: nat, o: Owner)
    requires InvAt(s, o, t) && s.pc[t] == Request(ReqSetOne) && RequestStep(s, s', t, ReqSetOne)
    ensures Global(s', Thread(t))
  {
  }

  lemma SetOneOther(s: State, s': State, t: nat, o: Owner, u: nat)
    requires InvAt(s, o, t) && s.pc[t] == Request(ReqSetOne) && RequestStep(s, s', t, ReqSetOne)
    requires Global(s', Thread(t)) && u < |s.pc| && u != t && Local(s, o, u)
    ensures Local(s', Thread(t), u)
  {
  }

  lemma ScanGlobal(s: State, s': State, t: nat, o: Owner)
    requires Inv(s, o) && t < |s.pc| && s.pc[t].Scan? && ScanStep(s, s', t, s.pc[t].scan)
    ensures Global(s', o)
  {
    assert Local(s, o, t) && (s.pc[t].scan.Mark? ==> Local(s, o, s.pc[t].scan.next));
  }

  lemma ScanMover(s: State, s': State, t: nat, o: Owner)
    requires InvAt(s, o, t) && s.pc[t].Scan? && ScanStep(s, s', t, s.pc[t].scan)
    requires Global(s', o)
    ensures Local(s', o, t)
  {
  }

  lemma ScanOther(s: State, s': State, t: nat, o: Owner, u: nat)
    requires InvAt(s, o, t) && s.pc[t].Scan? && ScanStep(s, s', t, s.pc[t].scan)
    requires Global(s', o) && u < |s.pc| && u != t && Local(s, o, u)
    ensures Local(s', o, u)
  {
  }

  lemma AwaitGlobal(s: State, s': State, t: nat, o: Owner)
    requires InvAt(s, o, t) && s.pc[t].Await? && AwaitStep(s, s', t, s.pc[t].await)
    ensures Global(s', o)
  {
  }

  lemma AwaitMover(s: State, s': State, t: nat, o: Owner)
    requires InvAt(s, o, t) && s.pc[t].Await? && AwaitStep(s, s', t, s.pc[t].await)
    requires Global(s', o)
    ensures Local(s', o, t)
  {
  }

  lemma AwaitOther(s: State, s': State, t: nat, o: Owner, u: nat)
    requires InvAt(s, o, t) && s.pc[t].Await? && AwaitStep(s, s', t, s.pc[t].await)
    requires Global(s', o) && u < |s.pc| && u != t && Local(s, o, u)
    ensures Local(s', o, u)
  {
  }

  lemma SectionGlobal(s: State, s': State, t: nat, o: Owner)
    requires InvAt(s, o, t) && (s.pc[t].InSection? || s.pc[t].AtomicGuest?) && Step(s, s', t)
    ensures Global(s', o)
  {
  }

  lemma SectionMover(s: State, s': State, t: nat, o: Owner)
    requires InvAt(s, o, t) && (s.pc[t].InSection? || s.pc[t].AtomicGuest?) && Step(s, s', t)
    requires Global(s', o)
    ensures Local(s', o, t)
  {
  }

  lemma SectionOther(s: State, s': State, t: nat, o: Owner, u: nat)
    requires InvAt(s, o, t) && (s.pc[t].InSection? || s.pc[t].AtomicGuest?) && Step(s, s', t)
    requires Global(s', o) && u < |s.pc| && u != t && Local(s, o, u)
    ensures Local(s', o, u)
  {
  }

  lemma FinishGlobal(s: State, s': State, t: nat, o: Owner)
    requires InvAt(s, o, t) && (s.pc[t] == Finish(FinishLock) || s.pc[t] == Finish(Reset))
    requires FinishStep(s, s', t, s.pc[t].finish)
    ensures Global(s', OwnerAfter(s, o, t))
  {
  }

  lemma FinishMover(s: State, s': State, t: nat, o: Owner)
    requires InvAt(s, o, t) && (s.pc[t] == Finish(FinishLock) || s.pc[t] == Finish(Reset))
    requires FinishStep(s, s', t, s.pc[t].finish)
    requires Global(s', OwnerAfter(s, o, t))
    ensures Local(s', OwnerAfter(s, o, t), t)
  {
  }

  lemma FinishOther(s: State, s': State, t: nat, o: Owner, u: nat)
    requires InvAt(s, o, t) && (s.pc[t] == Finish(FinishLock) || s.pc[t] == Finish(Reset))
    requires FinishStep(s, s', t, s.pc[t].finish)
    requires Global(s', OwnerAfter(s, o, t)) && u < |s.pc| && u != t && Local(s, o, u)
    ensures Local(s', OwnerAfter(s, o, t), u)
  {
  }

  lemma BroadcastGlobal(s: State, s': State, t: nat, o: Owner)
    requires InvAt(s, o, t) && (s.pc[t] == Finish(Broadcast) || s.pc[t] == Finish(FinishUnlock))
    requires FinishStep(s, s', t, s.pc[t].finish)
    ensures Global(s', o)
  {
  }

  lemma BroadcastMover(s: State, s': State, t: nat, o: Owner)
    requires InvAt(s, o, t) && (s.pc[t] == Finish(Broadcast) || s.pc[t] == Finish(FinishUnlock))
    requires FinishStep(s, s', t, s.pc[t].finish)
    requires Global(s', o)
    ensures Local(s', o, t)
  {
  }

  lemma BroadcastOther(s: State, s': State, t: nat, o: Owner, u: nat)
    requires InvAt(s, o, t) && (s.pc[t] == Finish(Broadcast) || s.pc[t] == Finish(FinishUnlock))
    requires FinishStep(s, s', t, s.pc[t].finish)
    requires Global(s', o) && u < |s.pc| && u != t && Local(s, o, u)
    ensures Local(s', o, u)
  {
  }

  // --------------------------------------------------------------------------
  // Every step keeps the invariant

  lemma StepKeepsGlobal(s: State, s': State, t: nat, o: Owner)
    requires Inv(s, o) && Step(s, s', t)
    ensures Global(s', OwnerAfter(s, o, t))
  {
    assert Local(s, o, t) && (o.Thread? ==> Local(s, o, o.cpu));
    var p := s.pc[t];
    if QuietAt(p) { QuietShape(s, s', t); QuietGlobal(s, s', t, o, s'.pc[t]); }
    else if p.Leave? { if ReleasesAt(p) { ReleaseGlobal(s, s', t, o); } else { TestKeepsInv(s, s', t, o, t); } }
    else if p.Request? { SetOneGlobal(s, s', t, o); }
    else if p.Scan? { ScanGlobal(s, s', t, o); }
    else if p.Await? { AwaitGlobal(s, s', t, o); }
    else if p == Finish(Broadcast) { BroadcastGlobal(s, s', t, o); }
    else if p.Finish? { FinishGlobal(s, s', t, o); }
    else { SectionGlobal(s, s', t, o); }
  }

  lemma StepKeepsMover(s: State, s': State, t: nat, o: Owner)
    requires Inv(s, o) && Step(s, s', t) && Global(s', OwnerAfter(s, o, t))
    ensures Local(s', OwnerAfter(s, o, t), t)
  {
    assert Local(s, o, t) && (o.Thread? ==> Local(s, o, o.cpu));
    match s.pc[t]
    case Outside | Guest => EdgeMover(s, s', t, o);
    case Enter(_) => EnterMover(s, s', t, o);
    case Leave(_) =>
      if QuietAt(s.pc[t]) { LeaveMover(s, s', t, o); }
      else if ReleasesAt(s.pc[t]) { ReleaseMover(s, s', t, o); }
      else { TestKeepsInv(s, s', t, o, t); }
    case Request(_) => RequestMover(s, s', t, o);
    case Scan(_) => ScanMover(s, s', t, o);
    case Await(_) => AwaitMover(s, s', t, o);
    case Finish(f) =>
      if f.FinishLock? || f.Reset? { FinishMover(s, s', t, o); } else { BroadcastMover(s, s', t, o); }
    case _ => SectionMover(s, s', t, o);
  }

  lemma StepKeepsOther(s: State, s': State, t: nat, o: Owner, u: nat)
    requires Inv(s, o) && Step(s, s', t) && Global(s', OwnerAfter(s, o, t)) && u < |s.pc| && u != t
    ensures Local(s', OwnerAfter(s, o, t), u)
  {
    assert Local(s, o, t) && (o.Thread? ==> Local(s, o, o.cpu)) && Local(s, o, u);
    var p := s.pc[t];
    if QuietAt(p) { QuietShape(s, s', t); QuietOther(s, s', t, o, s'.pc[t], u); }
    else if p.Leave? { if ReleasesAt(p) { ReleaseOther(s, s', t, o, u); } else { TestKeepsInv(s, s', t, o, u); } }
    else if p.Request? { SetOneOther(s, s', t, o, u); }
    else if p.Scan? { ScanOther(s, s', t, o, u); }
    else if p.Await? { AwaitOther(s, s', t, o, u); }
    else if p == Finish(Broadcast) { BroadcastOther(s, s', t, o, u); }
    else if p.Finish? { FinishOther(s, s', t, o, u); }
    else { SectionOther(s, s', t, o, u); }
  }

  lemma StepKeepsInv(s: State, s': State, t: nat, o: Owner)
    requires Inv(s, o) && Step(s, s', t)
    ensures |s'.pc| == |s.pc| && Inv(s', OwnerAfter(s, o, t))
  {
    StepKeepsGlobal(s, s', t, o);
    StepKeepsMover(s, s', t, o);
    StepKeepsLength(s, s', t);
    forall u | 0 <= u < |s.pc| && u != t
      ensures Local(s', OwnerAfter(s, o, t), u)
    {
      StepKeepsOther(s, s', t, o, u);
    }
  }

  lemma StepKeepsLength(s: State, s': State, t: nat)
    requires WellFormed(s) && Step(s, s', t)
    ensures |s'.pc| == |s.pc|
  {
  }

  /** Every state of every run satisfies the invariant, for the owner of that moment. */
  lemma {:induction false} RunInv(run: seq<State>, k: nat) returns (o: Owner)
    requires IsRun(run) && k < |run|
    ensures |run[k].pc| == |run[0].pc| && Inv(run[k], o)
  {
    if k == 0 {
      o := Nobody;
    } else {
      var o0 := RunInv(run, k - 1);
      assert Next(run[k - 1], run[k]);
      var t :| Step(run[k - 1], run[k], t);
      StepKeepsInv(run[k - 1], run[k], t, o0);
      o := OwnerAfter(run[k - 1], o0, t);
    }
  }

  // --------------------------------------------------------------------------
  // What the protocol is for

  /**
   * While a thread is past start_exclusive and has not ended the section, no
   * other CPU executes guest code and no other thread is in a section.
   */
  lemma MutualExclusion(run: seq<State>, k: nat, t: nat, u: nat)
    requires IsRun(run) && k < |run|
    requires t < |run[k].pc| && u < |run[k].pc| && t != u
    requires Entered(run[k].pc[t])
    ensures !run[k].pc[u].Guest? && !Owns(run[k].pc[u])
    ensures run[k].pending == 1 && run[k].hasWaiter == {}
  {
    var o := RunInv(run, k);
    assert Local(run[k], o, t) && Local(run[k], o, u);
  }

  /**
   * Outside the scan, pending_cpus is 0 and no has_waiter flag is set, or it
   * is 1 plus the number of flags (plus the one CPU that has cleared its flag
   * and is about to decrement).  A flagged CPU is never in exclusive_idle.
   */
  lemma PendingCounts(run: seq<State>, k: nat)
    requires IsRun(run) && k < |run|
    requires forall t :: 0 <= t < |run[k].pc| ==> !run[k].pc[t].Scan?
    ensures run[k].pending == 0 ==> run[k].hasWaiter == {}
    ensures run[k].pending != 0 ==> run[k].pending == 1 + |run[k].hasWaiter| + Decrementing(run[k])
    ensures forall u :: u in run[k].hasWaiter ==> u < |run[k].pc| && MayBeCounted(run[k].pc[u])
  {
    var o := RunInv(run, k);
    forall u | u in run[k].hasWaiter
      ensures u < |run[k].pc| && MayBeCounted(run[k].pc[u])
    {
      assert Local(run[k], o, u);
    }
  }

  /** A requester that waits for pending_cpus to drop has a CPU that must still decrement it. */
  lemma WaiterHasReleaser(run: seq<State>, k: nat, t: nat) returns (u: nat)
    requires IsRun(run) && k < |run| && t < |run[k].pc|
    requires run[k].pc[t].Await? && run[k].pending > 1
    ensures u < |run[k].pc| && u != t
    ensures run[k].pc[u] == Leave(EndDecrement) || (u in run[k].hasWaiter && MayBeCounted(run[k].pc[u]))
  {
    var s := run[k];
    var o := RunInv(run, k);
    assert Local(s, o, t);
    if Decrementing(s) == 1 {
      u := s.lock.cpu;
    } else {
      u :| u in s.hasWaiter;
      assert Local(s, o, u);
    }
  }

  // --------------------------------------------------------------------------
  // Nested sections: a run with its calls

  datatype Event = Event(cpu: nat, call: Call)

  ghost predicate Labelled(s: State, s': State, e: Event) {
    WellFormed(s) && Acts(s, s', e.cpu, e.call)
  }

  /** trace[k] is the step from run[k] to the next state. */
  ghost predicate IsTraced(run: seq<State>, trace: seq<Event>) {
    && |run| == |trace| + 1 && Init(run[0])
    && forall k, l {:trigger Labelled(run[k], run[l], trace[k])} ::
         0 <= k < |trace| && l == k + 1 ==> Labelled(run[k], run[l], trace[k])
  }

  /** How often t has made this call. */
  function Calls(trace: seq<Event>, t: nat, call: Call): nat {
    if trace == [] then 0
    else Calls(trace[..|trace| - 1], t, call) + if trace[|trace| - 1] == Event(t, call) then 1 else 0
  }

  /** The sections that t has started and not yet ended, after k steps. */
  function Unended(trace: seq<Event>, k: nat, t: nat): int
    requires k <= |trace|
  {
    Calls(trace[..k], t, Started) - Calls(trace[..k], t, Ended)
  }

  lemma UnendedNext(trace: seq<Event>, k: nat, t: nat)
    requires k < |trace|
    ensures Unended(trace, k + 1, t) == Unended(trace, k, t) +
              if trace[k] == Event(t, Started) then 1 else if trace[k] == Event(t, Ended) then -1 else 0
  {
    assert trace[..k + 1][..k] == trace[..k];
  }

  lemma TracedIsRun(run: seq<State>, trace: seq<Event>)
    requires IsTraced(run, trace)
    ensures IsRun(run)
  {
    forall j, k {:trigger Next(run[j], run[k])} | 0 <= j && k == j + 1 < |run|
      ensures Next(run[j], run[k])
    {
      assert Labelled(run[j], run[k], trace[j]);
    }
  }

  /** Every run has a trace. */
  lemma {:induction false} RunIsTraced(run: seq<State>) returns (trace: seq<Event>)
    requires IsRun(run)
    ensures IsTraced(run, trace)
  {
    trace := [];
    while |trace| + 1 < |run|
      invariant |trace| + 1 <= |run| && IsTraced(run[..|trace| + 1], trace)
    {
      var k := |trace|;
      assert Next(run[k], run[k + 1]);
      var t :| Step(run[k], run[k + 1], t);
      var call := LabelOf(run[k], run[k + 1], t);
      TraceMore(run, trace, Event(t, call));
      trace := trace + [Event(t, call)];
    }
    assert run[..|trace| + 1] == run;
  }

  lemma LabelOf(s: State, s': State, t: nat) returns (call: Call)
    requires WellFormed(s) && Step(s, s', t)
    ensures Acts(s, s', t, call)
  {
    call := if s.pc[t] == Await(SetContext) then Started else Silent;
    if s.pc[t].InSection? {
      if SectionStep(s, s', t, Started) { call := Started; }
      else if SectionStep(s, s', t, Ended) { call := Ended; }
    }
  }

  lemma TraceMore(run: seq<State>, trace: seq<Event>, e: Event)
    requires |trace| + 1 < |run| && IsTraced(run[..|trace| + 1], trace)
    requires Labelled(run[|trace|], run[|trace| + 1], e)
    ensures IsTraced(run[..|trace| + 2], trace + [e])
  {
    var n := |trace|;
    var more, longer := run[..n + 2], trace + [e];
    forall k, l {:trigger Labelled(more[k], more[l], longer[k])} | 0 <= k < |longer| && l == k + 1
      ensures Labelled(more[k], more[l], longer[k])
    {
      if k < n { assert Labelled(run[..n + 1][k], run[..n + 1][l], trace[k]); }
    }
  }

  /** The count changes with the calls of its own thread only. */
  lemma ActsOnNesting(s: State, s': State, t: nat, call: Call, o: Owner, u: nat)
    requires Inv(s, o) && Acts(s, s', t, call) && u < |s.pc|
    ensures |s'.nesting| == |s.nesting|
    ensures s'.nesting[u] == s.nesting[u] +
              if u != t then 0 else if call.Started? then 1 else if call.Ended? then -1 else 0
  {
    assert Local(s, o, t);
  }

  /** exclusive_context_count is the number of sections started and not yet ended. */
  lemma {:induction false} NestingCounts(run: seq<State>, trace: seq<Event>, k: nat, t: nat)
    requires IsTraced(run, trace) && k < |run| && t < |run[0].pc|
    ensures |run[k].nesting| == |run[k].pc| == |run[0].pc|
    ensures run[k].nesting[t] == Unended(trace, k, t)
  {
    TracedIsRun(run, trace);
    var o := RunInv(run, k);
    if k > 0 {
      NestingCounts(run, trace, k - 1, t);
      o := RunInv(run, k - 1);
      assert Labelled(run[k - 1], run[k], trace[k - 1]);
      ActsOnNesting(run[k - 1], run[k], trace[k - 1].cpu, trace[k - 1].call, o, t);
      UnendedNext(trace, k - 1, t);
    }
  }

  /** As long as t has a section that is not ended, no other CPU is in the guest or has such a section. */
  lemma UnendedIsExclusive(run: seq<State>, trace: seq<Event>, k: nat, t: nat, u: nat)
    requires IsTraced(run, trace) && k < |run| && t < |run[0].pc| && u < |run[0].pc| && t != u
    requires Unended(trace, k, t) > 0
    ensures |run[k].pc| == |run[0].pc| && (run[k].pc[t].InSection? || run[k].pc[t].AtomicGuest?)
    ensures run[k].pending == 1 && !run[k].pc[u].Guest? && Unended(trace, k, u) == 0
  {
    TracedIsRun(run, trace);
    NestingCounts(run, trace, k, t);
    NestingCounts(run, trace, k, u);
    var o := RunInv(run, k);
    assert Local(run[k], o, t) && Local(run[k], o, u);
    MutualExclusion(run, k, t, u);
  }

  /** A section is left by the end_exclusive that leaves nothing unended, and by no other step. */
  lemma LeftByLastEnd(run: seq<State>, trace: seq<Event>, k: nat, t: nat)
    requires IsTraced(run, trace) && k < |trace| && t < |run[0].pc|
    ensures |run[k].pc| == |run[k + 1].pc| == |run[0].pc|
    ensures !run[k].pc[t].Finish? && run[k + 1].pc[t].Finish?
        <==> trace[k] == Event(t, Ended) && Unended(trace, k, t) == 1
    ensures Unended(trace, k, t) > 0 && Unended(trace, k + 1, t) == 0
        <==> trace[k] == Event(t, Ended) && Unended(trace, k, t) == 1
    ensures trace[k] == Event(t, Ended) && Unended(trace, k, t) > 1 ==>
              run[k + 1] == run[k].(nesting := run[k + 1].nesting)
  {
    TracedIsRun(run, trace);
    NestingCounts(run, trace, k, t);
    NestingCounts(run, trace, k + 1, t);
    UnendedNext(trace, k, t);
    var o := RunInv(run, k);
    assert Labelled(run[k], run[k + 1], trace[k]);
    assert Local(run[k], o, t) && Local(run[k], o, trace[k].cpu);
    FinishFrom(run[k], run[k + 1], trace[k].cpu, trace[k].call, t);
  }

  lemma FinishFrom(s: State, s': State, t: nat, call: Call, u: nat)
    requires WellFormed(s) && Acts(s, s', t, call) && u < |s.pc|
    ensures |s'.pc| == |s.pc|
    ensures !s.pc[u].Finish? && s'.pc[u].Finish? <==> u == t && call == Ended && s.nesting[t] == 1
    ensures call == Ended && s.nesting[t] > 1 ==> s' == s.(nesting := s'.nesting)
    ensures call == Ended ==> s.pc[t].InSection?
  {
    if !s.pc[t].InSection? { NoFinishFrom(s, s', t, u); }
  }

  /** Outside a section, nobody gets to the end of one. */
  lemma NoFinishFrom(s: State, s': State, t: nat, u: nat)
    requires WellFormed(s) && Step(s, s', t) && !s.pc[t].InSection? && u < |s.pc|
    ensures |s'.pc| == |s.pc| && (s'.pc[u].Finish? ==> s.pc[u].Finish?)
  {
  }

  // --------------------------------------------------------------------------
  // One run of two CPUs, from start_exclusive to the section

  function Two(p0: Pc, p1: Pc, running: set<nat>, hasWaiter: set<nat>, pending: int, lock: Lock): State {
    State([p0, p1], running, hasWaiter, [0, 0], pending, lock)
  }

  lemma Then(run: seq<State>, s: State, t: nat) returns (more: seq<State>)
    requires IsRun(run) && WellFormed(run[|run| - 1]) && Step(run[|run| - 1], s, t)
    ensures more == run + [s] && IsRun(more)
  {
    more := run + [s];
    forall j, k {:trigger Next(more[j], more[k])} | 0 <= j && k == j + 1 < |more|
      ensures Next(more[j], more[k])
    {
      if k < |run| { assert Next(run[j], run[k]); }
    }
  }

  /** CPU 1 executes guest code when CPU 0 requests the section. */
  lemma RequesterStarts() returns (run: seq<State>)
    ensures IsRun(run) && |run| == 5
    ensures run[4] == Two(Request(ReqIdle), Guest, {1}, {}, 0, HeldBy(0))
  {
    run := [Two(Outside, Outside, {}, {}, 0, Free)];
    run := Then(run, Two(Outside, Enter(ReadPending), {1}, {}, 0, Free), 1);
    run := Then(run, Two(Outside, Guest, {1}, {}, 0, Free), 1);
    run := Then(run, Two(Request(ReqLock), Guest, {1}, {}, 0, Free), 0);
    run := Then(run, Two(Request(ReqIdle), Guest, {1}, {}, 0, HeldBy(0)), 0);
  }

  /** CPU 0 scans the CPUs. */
  lemma RequesterScans() returns (run: seq<State>)
    ensures IsRun(run) && |run| == 9
    ensures run[8] == Two(Scan(Mark(1, 0)), Guest, {1}, {}, 1, HeldBy(0))
  {
    run := RequesterStarts();
    run := Then(run, Two(Request(ReqSetOne), Guest, {1}, {}, 0, HeldBy(0)), 0);
    run := Then(run, Two(Scan(Look(0, 0)), Guest, {1}, {}, 1, HeldBy(0)), 0);
    run := Then(run, Two(Scan(Look(1, 0)), Guest, {1}, {}, 1, HeldBy(0)), 0);
    run := Then(run, Two(Scan(Mark(1, 0)), Guest, {1}, {}, 1, HeldBy(0)), 0);
  }

  /** CPU 0 counts CPU 1 and waits for it. */
  lemma RequesterWaits() returns (run: seq<State>)
    ensures IsRun(run) && |run| == 13
    ensures run[12] == Two(Await(Wait), Guest, {1}, {1}, 2, Free)
  {
    run := RequesterScans();
    run := Then(run, Two(Scan(Look(2, 1)), Guest, {1}, {1}, 1, HeldBy(0)), 0);
    run := Then(run, Two(Scan(SetCount(1)), Guest, {1}, {1}, 1, HeldBy(0)), 0);
    run := Then(run, Two(Await(Test), Guest, {1}, {1}, 2, HeldBy(0)), 0);
    run := Then(run, Two(Await(Wait), Guest, {1}, {1}, 2, Free), 0);
  }

  /** CPU 1 leaves the guest and clears its flag. */
  lemma GuestLeaves() returns (run: seq<State>)
    ensures IsRun(run) && |run| == 18
    ensures run[17] == Two(Await(Wait), Leave(EndDecrement), {}, {}, 2, HeldBy(1))
  {
    run := RequesterWaits();
    run := Then(run, Two(Await(Wait), Leave(EndReadPending), {}, {1}, 2, Free), 1);
    run := Then(run, Two(Await(Wait), Leave(EndLock), {}, {1}, 2, Free), 1);
    run := Then(run, Two(Await(Wait), Leave(EndCheckWaiter), {}, {1}, 2, HeldBy(1)), 1);
    run := Then(run, Two(Await(Wait), Leave(EndClearWaiter), {}, {1}, 2, HeldBy(1)), 1);
    run := Then(run, Two(Await(Wait), Leave(EndDecrement), {}, {}, 2, HeldBy(1)), 1);
  }

  /** CPU 1 decrements pending_cpus and wakes CPU 0. */
  lemma GuestSignals() returns (run: seq<State>)
    ensures IsRun(run) && |run| == 20
    ensures run[17] == Two(Await(Wait), Leave(EndDecrement), {}, {}, 2, HeldBy(1))
    ensures run[19] == Two(Await(Signalled), Leave(EndUnlock), {}, {}, 1, HeldBy(1))
  {
    run := GuestLeaves();
    run := Then(run, Two(Await(Wait), Leave(EndTest), {}, {}, 1, HeldBy(1)), 1);
    var s := Two(Await(Signalled), Leave(EndUnlock), {}, {}, 1, HeldBy(1));
    assert s == run[18].At(0, Await(Signalled)).At(1, Leave(EndUnlock));
    run := Then(run, s, 1);
  }

  /**
   * A run in which pending_cpus is for a moment not 1 plus the number of
   * has_waiter flags (after step 17 it is 2 and no flag is set), and which
   * ends inside the section.
   */
  lemma LateDecrement() returns (run: seq<State>)
    ensures IsRun(run) && |run| == 23
    ensures |run[17].pc| == 2 && run[17].pc[1] == Leave(EndDecrement) && Decrementing(run[17]) == 1
    ensures run[17].pending == 2 && run[17].hasWaiter == {}
    ensures |run[22].pc| == 2 && Entered(run[22].pc[0]) && run[22].pending == 1
  {
    run := GuestSignals();
    run := Then(run, Two(Await(Signalled), Outside, {}, {}, 1, Free), 1);
    run := Then(run, Two(Await(Test), Outside, {}, {}, 1, HeldBy(0)), 0);
    run := Then(run, Two(Await(AwaitUnlock), Outside, {}, {}, 1, HeldBy(0)), 0);
  }

  // --------------------------------------------------------------------------
  // No deadlock and no lost wake-up

  /** The thread decides for itself when to go on. */
  predicate AtRest(p: Pc) {
    p.Outside? || p.Guest? || p.InSection? || p.AtomicGuest?
  }

  predicate WantsLock(p: Pc) {
    || p == Enter(LockList) || p == Enter(Woken) || p == Leave(EndLock) || p == Request(ReqLock)
    || p == Request(ReqWoken) || p == Await(Signalled) || p == Finish(FinishLock)
  }

  predicate Asleep(p: Pc) {
    Sleeping(p) || p == Await(Wait)
  }

  /** Inside the protocol and able to move without a spurious wake-up. */
  predicate Ready(s: State, t: nat) {
    && t < |s.pc| && !AtRest(s.pc[t]) && !Asleep(s.pc[t])
    && (WantsLock(s.pc[t]) ==> s.lock.Free?)
  }

  lemma ReadyCanStep(s: State, t: nat) returns (s': State)
    requires WellFormed(s) && Ready(s, t)
    ensures Step(s, s', t)
  {
    var next := s.(lock := HeldBy(t));
    match s.pc[t]
    case Enter(e) =>
      match e {
        case ReadPending => s' := s.At(t, if s.pending != 0 then Enter(LockList) else Guest);
        case LockList => s' := next.At(t, Enter(CheckWaiter));
        case CheckWaiter => s' := s.At(t, Enter(if t in s.hasWaiter then UnlockList else ClearRunning));
        case ClearRunning => s' := s.At(t, Enter(Idle)).(running := s.running - {t});
        case Idle => s' := if s.pending != 0 then s.At(t, Enter(Sleep)).(lock := Free) else s.At(t, Enter(SetRunning));
        case Woken => s' := next.At(t, Enter(Idle));
        case SetRunning => s' := s.At(t, Enter(UnlockList)).(running := s.running + {t});
        case UnlockList => s' := s.At(t, Guest).(lock := Free);
      }
    case Leave(e) =>
      match e {
        case EndReadPending => s' := s.At(t, if s.pending != 0 then Leave(EndLock) else Outside);
        case EndLock => s' := next.At(t, Leave(EndCheckWaiter));
        case EndCheckWaiter => s' := s.At(t, Leave(if t in s.hasWaiter then EndClearWaiter else EndUnlock));
        case EndClearWaiter => s' := s.At(t, Leave(EndDecrement)).(hasWaiter := s.hasWaiter - {t});
        case EndDecrement => s' := s.At(t, Leave(EndTest)).(pending := s.pending - 1);
        case EndTest =>
          s' := s.At(t, Leave(EndUnlock));
          if s.pending == 1 && Await(Wait) in s.pc {
            var w :| 0 <= w < |s.pc| && s.pc[w] == Await(Wait);
            s' := s.At(w, Await(Signalled)).At(t, Leave(EndUnlock));
          }
        case EndUnlock => s' := s.At(t, Outside).(lock := Free);
      }
    case Request(r) =>
      match r {
        case ReqLock | ReqWoken => s' := next.At(t, Request(ReqIdle));
        case ReqIdle =>
          s' := if s.pending != 0 then s.At(t, Request(ReqSleep)).(lock := Free) else s.At(t, Request(ReqSetOne));
        case ReqSetOne => s' := s.At(t, Scan(Look(0, 0))).(pending := 1);
      }
    case Scan(c) =>
      match c {
        case Look(i, n) =>
          s' := s.At(t, Scan(if i >= |s.pc| then SetCount(n)
                             else if i in s.running then Mark(i, n) else Look(i + 1, n)));
        case Mark(i, n) => s' := s.At(t, Scan(Look(i + 1, n + 1))).(hasWaiter := s.hasWaiter + {i});
        case SetCount(n) => s' := s.At(t, Await(Test)).(pending := n + 1);
      }
    case Await(a) =>
      match a {
        case Test => s' := if s.pending > 1 then s.At(t, Await(Wait)).(lock := Free) else s.At(t, Await(AwaitUnlock));
        case Signalled => s' := next.At(t, Await(Test));
        case AwaitUnlock => s' := s.At(t, Await(SetContext)).(lock := Free);
        case SetContext => s' := s.At(t, InSection).(nesting := s.nesting[t := 1]);
      }
    case Finish(f) =>
      match f {
        case FinishLock => s' := next.At(t, Finish(Reset));
        case Reset => s' := s.At(t, Finish(Broadcast)).(pending := 0);
        case Broadcast => s' := s.(pc := WakeIdlers(s.pc)[t := Finish(FinishUnlock)]);
        case FinishUnlock => s' := s.At(t, Outside).(lock := Free);
      }
  }

  /**
   * Whenever some thread is inside the protocol, one such thread can take a
   * step that is not a spurious wake-up, unless everybody waits for a section
   * that is really in progress or for a CPU that was kicked out of the guest.
   */
  lemma NoDeadlock(run: seq<State>, k: nat, t: nat) returns (u: nat)
    requires IsRun(run) && k < |run| && t < |run[k].pc| && !AtRest(run[k].pc[t])
    ensures u < |run[k].pc|
    ensures || Ready(run[k], u)
            || run[k].pc[u].InSection? || run[k].pc[u].AtomicGuest?
            || (run[k].pc[u].Guest? && u in run[k].hasWaiter)
  {
    var s := run[k];
    var o := RunInv(run, k);
    assert Local(s, o, t);
    u := t;
    if s.lock.HeldBy? {
      u := s.lock.cpu;
      assert Local(s, o, u);
    } else if Asleep(s.pc[t]) {
      u := o.cpu;
      assert Local(s, o, u);
      if s.pc[u] == Await(Wait) {
        u := WaiterHasReleaser(run, k, u);
        assert Local(s, o, u);
      }
    }
  }
}
