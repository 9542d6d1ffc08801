/**
 * Jobs (job.c), with the pause sources and the I/O status of block jobs
 * (blockjob.c): what holds for each job, and for the jobs of one transaction.
 */
module Jobs {
  import opened Common

  type JobId = nat

  datatype Status =
    Undefined | Created | Running | Paused | Ready | Standby | Waiting | Pending | Aborting | Concluded | Null

  datatype Verb = Cancel | Pause | Resume | SetSpeed | Complete | Finalize | Dismiss | Change

  /** JobSTT: the status changes that are allowed. */
  predicate Allowed(s0: Status, s1: Status) {
    match s0
    case Undefined => s1.Created?
    case Created => s1.Running? || s1.Aborting? || s1.Null?
    case Running => s1.Paused? || s1.Ready? || s1.Waiting? || s1.Aborting?
    case Paused => s1.Running?
    case Ready => s1.Standby? || s1.Waiting? || s1.Aborting?
    case Standby => s1.Ready?
    case Waiting => s1.Pending? || s1.Aborting?
    case Pending => s1.Aborting? || s1.Concluded?
    case Aborting => s1.Aborting? || s1.Concluded?
    case Concluded => s1.Null?
    case Null => false
  }

  /** JobVerbTable: the statuses in which a command is accepted. */
  predicate Accepts(s: Status, verb: Verb) {
    match verb
    case Cancel => s.Created? || s.Running? || s.Paused? || s.Ready? || s.Standby? || s.Waiting? || s.Pending?
    case Complete => s.Ready? || s.Standby?
    case Finalize => s.Pending?
    case Dismiss => s.Concluded?
    case _ => s.Created? || s.Running? || s.Paused? || s.Ready? || s.Standby?
  }

  /** The tables as job.c has them: a row for each status or verb, a column for each status. */
  const STATUSES: seq<Status> := [
    Undefined, Created, Running, Paused, Ready, Standby, Waiting, Pending, Aborting, Concluded, Null]

  const VERBS: seq<Verb> := [Cancel, Pause, Resume, SetSpeed, Complete, Finalize, Dismiss, Change]

  const JOB_STT: seq<string> := [
    "01000000000", "00100000101", "00011010100", "00100000000", "00000110100", "00001000000",
    "00000001100", "00000000110", "00000000110", "00000000001", "00000000000"]

  const JOB_VERB_TABLE: seq<string> := [
    "01111111000", "01111100000", "01111100000", "01111100000",
    "00001100000", "00000001000", "00000000010", "01111100000"]

  lemma StatusTable(k: nat, i: nat)
    requires k < |STATUSES| && i < |STATUSES|
    ensures |JOB_STT[k]| == |STATUSES| && (Allowed(STATUSES[k], STATUSES[i]) <==> JOB_STT[k][i] == '1')
  {
  }

  lemma VerbTable(k: nat, i: nat)
    requires k < |VERBS| && i < |STATUSES|
    ensures |JOB_VERB_TABLE[k]| == |STATUSES| && (Accepts(STATUSES[i], VERBS[k]) <==> JOB_VERB_TABLE[k][i] == '1')
  {
  }

  /** Started or about to be, and .run has not returned. */
  predicate InProgress(s: Status) { s in {Created, Running, Paused, Ready, Standby} }

  /** job_is_ready_locked */
  predicate IsReady(s: Status) { s.Ready? || s.Standby? }

  /** job_is_completed_locked */
  predicate IsCompleted(s: Status) { s.Waiting? || s.Pending? || s.Aborting? || s.Concluded? || s.Null? }

  /** Where the job's coroutine is. */
  datatype Co =
    | NotStarted
    | InRun                       // executing .run
    | Asleep                      // in job_yield or job_sleep_ns
    | AtPausePoint(saved: Status) // yielded in job_pause_point_locked
    | Returned                    // .run has returned, job_exit is scheduled
    | Exited                      // job_exit has run

  /** Why the job should pause; `drains` counts the drained sections it is in. */
  datatype Pauses = Pauses(count: int, user: bool, drains: nat, ioError: bool)

  /** How often each driver callback has been called. */
  datatype Calls = Calls(commits: nat, aborts: nat, cleans: nat)

  datatype Job = Job(
    status: Status, co: Co, ret: int, busy: bool, paused: bool, deferred: bool,
    cancelled: bool, forceCancel: bool, autoFinalize: bool, autoDismiss: bool, pauses: Pauses, calls: Calls)

  const ECANCELED := -125

  // --------------------------------------------------------------------------
  // What holds for every job

  /** Status and flags fit the place where the coroutine is. */
  predicate CoOk(co: Co, status: Status, busy: bool, paused: bool, deferred: bool) {
    match co
    case NotStarted =>
      && (status.Created? || status.Aborting? || status.Null?)
      && !busy && (paused <==> !status.Null?) && (deferred <==> status.Null?)
    case InRun => (status.Running? || status.Ready?) && busy && !paused && !deferred
    case Asleep => (status.Running? || status.Ready?) && !paused && !deferred
    case AtPausePoint(saved) =>
      && ((saved.Running? && status.Paused?) || (saved.Ready? && status.Standby?))
      && paused && !deferred
    case Returned => (status.Running? || status.Ready?) && busy && !paused && deferred
    case Exited => IsCompleted(status) && !busy && !paused && deferred
  }

  /** Every pause has a source, so that the assertions of resume, cancel and iostatus reset hold. */
  predicate PausesOk(p: Pauses, started: bool) {
    && p.count == (if started then 0 else 1) + (if p.user then 1 else 0) + p.drains
    && (p.ioError ==> p.user)
  }

  /** The return value fits the status: no error before .run returns, none on the way to success. */
  predicate RetOk(status: Status, co: Co, ret: int) {
    match status
    case Aborting => ret != 0
    case Concluded => true
    case Null => true
    case _ => co.Returned? || ret == 0
  }

  /** Before its end no callback has been called; at its end exactly one of commit and abort, and clean. */
  predicate CallbacksOk(status: Status, ret: int, forceCancel: bool, calls: Calls) {
    if status.Concluded? || status.Null? then
      && calls == (if ret == 0 then Calls(1, 0, 1) else Calls(0, 1, 1))
      && (forceCancel ==> ret != 0)
    else calls == Calls(0, 0, 0)
  }

  predicate JobOk(job: Job) {
    && CoOk(job.co, job.status, job.busy, job.paused, job.deferred)
    && PausesOk(job.pauses, !job.co.NotStarted?)
    && RetOk(job.status, job.co, job.ret)
    && CallbacksOk(job.status, job.ret, job.forceCancel, job.calls)
    && (job.forceCancel ==> job.cancelled)
    && !job.status.Undefined?
  }

  // --------------------------------------------------------------------------
  // What holds for the members of a transaction

  datatype Phase =
    | Working                                // not all members have completed
    | AllPending                             // all have succeeded, and wait for a finalize command
    | Succeeding                             // all are being, or have been, committed
    | Failing(initiator: JobId, late: bool)  // aborting; late if all members had completed before

  predicate MemberOk(phase: Phase, j: JobId, job: Job) {
    match phase
    case Working =>
      && !job.status.Pending? && !job.status.Aborting? && !job.status.Concluded? && !job.status.Null?
      && (job.status.Waiting? ==> !job.forceCancel)
    case AllPending => job.status.Pending? && !job.forceCancel
    case Succeeding => job.status.Pending? && !job.forceCancel
    case Failing(initiator, late) =>
      && !job.status.Concluded? && !job.status.Null?
      && (if late then IsCompleted(job.status) else !job.status.Pending?)
      && (job.forceCancel || (j == initiator && (job.status.Pending? || job.status.Aborting?)))
  }

  /** A job that has left the transaction. */
  predicate GoneOk(phase: Phase, j: JobId, job: Job) {
    match phase
    case Working => false
    case AllPending => false
    case Succeeding => (job.status.Concluded? || job.status.Null?) && job.calls.commits == 1
    case Failing(initiator, _) =>
      (job.status.Concluded? || job.status.Null?) && (j != initiator ==> job.calls.aborts == 1)
  }

  predicate PlaceOk(phase: Phase, members: seq<JobId>, j: JobId, job: Job) {
    JobOk(job) && if j in members then MemberOk(phase, j, job) else GoneOk(phase, j, job)
  }

  ghost predicate AllOk(jobs: map<JobId, Job>, members: seq<JobId>, phase: Phase) {
    && NoDup(members) && (forall j :: j in members ==> j in jobs)
    && (forall j {:trigger PlaceOk(phase, members, j, jobs[j])} :: j in jobs ==> PlaceOk(phase, members, j, jobs[j]))
  }

  /** Changing one job. */
  lemma Changed(jobs: map<JobId, Job>, members: seq<JobId>, phase: Phase, j: JobId, job: Job)
    requires AllOk(jobs, members, phase) && j in jobs && PlaceOk(phase, members, j, job)
    ensures AllOk(jobs[j := job], members, phase)
  {
    var jobs' := jobs[j := job];
    forall k | k in jobs'
      ensures PlaceOk(phase, members, k, jobs'[k])
    {
      if k != j { assert PlaceOk(phase, members, k, jobs[k]); }
    }
  }

  // --------------------------------------------------------------------------
  // Steps of a single job

  /** job_state_transition_locked, with its assertion */
  function Transition(job: Job, s: Status): Job
    requires Allowed(job.status, s)
  {
    job.(status := s)
  }

  /** job_enter_cond_locked: wake the coroutine if it sleeps. */
  function Enter(job: Job): Job {
    if job.co.NotStarted? || job.deferred || job.busy then job else job.(busy := true)
  }

  /** job_update_rc_locked */
  function UpdateRc(job: Job): Job
    requires job.ret != 0 || job.forceCancel ==> Allowed(job.status, Aborting)
  {
    var updated := if job.ret == 0 && job.forceCancel then job.(ret := ECANCELED) else job;
    if updated.ret != 0 then Transition(updated, Aborting) else updated
  }

  /** block_job_iostatus_reset_locked, with its assertion */
  function IostatusReset(p: Pauses): Pauses
    requires p.ioError ==> p.user && p.count > 0
  {
    p.(ioError := false)
  }

  /** The end of a pause by the user, or for an I/O error. */
  function UserResumed(p: Pauses): Pauses
    requires (p.user ==> p.count > 0) && (p.ioError ==> p.user)
  {
    if p.user then IostatusReset(p).(user := false, count := p.count - 1) else p
  }

  /** job_cancel_async_locked; `answer` is what .cancel returns for a soft request to a ready job. */
  function CancelAsync(job: Job, force: bool, answer: bool): Job
    requires PausesOk(job.pauses, !job.co.NotStarted?)
  {
    var hard := force || !IsReady(job.status) || answer;
    var resumed := job.(pauses := UserResumed(job.pauses));
    if hard || !resumed.deferred
    then resumed.(cancelled := true, forceCancel := resumed.forceCancel || hard)
    else resumed
  }

  /** job_do_dismiss_locked, apart from leaving the transaction */
  function DoDismiss(job: Job): Job
    requires Allowed(job.status, Null)
  {
    Transition(job.(busy := false, paused := false, deferred := true), Null)
  }

  /** job_finalize_single_locked, apart from leaving the transaction: commit or abort, clean, conclude. */
  function FinalizeSingle(job: Job): Job
    requires JobOk(job) && IsCompleted(job.status) && !job.status.Concluded? && !job.status.Null?
    requires job.status.Waiting? ==> job.forceCancel
  {
    var updated := UpdateRc(job);
    var calls := if updated.ret == 0 then updated.calls.(commits := updated.calls.commits + 1)
                 else updated.calls.(aborts := updated.calls.aborts + 1);
    var concluded := Transition(updated.(calls := calls.(cleans := calls.cleans + 1)), Concluded);
    if concluded.autoDismiss || concluded.co.NotStarted? then DoDismiss(concluded) else concluded
  }

  /** A job ends with exactly one of commit and abort: abort if and only if it failed or was force-cancelled. */
  lemma FinalizeOutcome(job: Job)
    requires JobOk(job) && IsCompleted(job.status) && !job.status.Concluded? && !job.status.Null?
    requires job.status.Waiting? ==> job.forceCancel
    ensures JobOk(FinalizeSingle(job))
    ensures var end := FinalizeSingle(job);
            && (end.status.Concluded? || end.status.Null?)
            && end.calls == (if job.ret != 0 || job.forceCancel then Calls(0, 1, 1) else Calls(1, 0, 1))
            && end.ret == (if job.ret == 0 && job.forceCancel then ECANCELED else job.ret)
            && (end.status.Null? <==> job.autoDismiss || job.co.NotStarted?)
  {
  }

  /** A cancel request changes flags and pauses only. */
  lemma CancelFields(job: Job, force: bool, answer: bool)
    requires PausesOk(job.pauses, !job.co.NotStarted?) && (job.forceCancel ==> job.cancelled)
    ensures var after := CancelAsync(job, force, answer);
            && after == job.(pauses := UserResumed(job.pauses),
                             cancelled := after.cancelled, forceCancel := after.forceCancel)
            && (after.forceCancel ==> after.cancelled)
            && (force || !IsReady(job.status) ==> after.forceCancel)
            && PausesOk(after.pauses, !job.co.NotStarted?)
  {
  }

  lemma CancelKeeps(job: Job, force: bool, answer: bool)
    requires JobOk(job) && !job.status.Concluded? && !job.status.Null?
    ensures JobOk(CancelAsync(job, force, answer))
    ensures force || !IsReady(job.status) ==> CancelAsync(job, force, answer).forceCancel
  {
    CancelFields(job, force, answer);
    var after := CancelAsync(job, force, answer);
    FlagsKeepOk(job, after);
  }

  lemma FlagsKeepOk(job: Job, after: Job)
    requires JobOk(job) && !job.status.Concluded? && !job.status.Null?
    requires after == job.(pauses := after.pauses, cancelled := after.cancelled, forceCancel := after.forceCancel)
    requires PausesOk(after.pauses, !job.co.NotStarted?) && (after.forceCancel ==> after.cancelled)
    ensures JobOk(after)
  {
  }

  // --------------------------------------------------------------------------
  // Steps of a transaction

  /** What a job must be like when its transaction begins to abort. */
  predicate Abortable(initiator: JobId, late: bool, j: JobId, job: Job) {
    && JobOk(job) && !job.status.Concluded? && !job.status.Null?
    && (if late then IsCompleted(job.status) else !job.status.Pending?)
    && (j == initiator ==> job.forceCancel || job.status.Pending? || job.status.Aborting?)
  }

  ghost predicate AllAbortable(jobs: map<JobId, Job>, members: seq<JobId>, initiator: JobId, late: bool) {
    && NoDup(members) && initiator in members && (forall m :: m in members <==> m in jobs)
    && forall m {:trigger Abortable(initiator, late, m, jobs[m])} ::
         m in jobs ==> Abortable(initiator, late, m, jobs[m])
  }

  predicate Cancelled(initiator: JobId, late: bool, j: JobId, job: Job) {
    JobOk(job) && MemberOk(Failing(initiator, late), j, job) && (j != initiator ==> job.forceCancel)
  }

  lemma CancelledMemberOk(initiator: JobId, late: bool, j: JobId, job: Job)
    requires Abortable(initiator, late, j, job)
    ensures JobOk(job)
    ensures Cancelled(initiator, late, j, if j == initiator then job else CancelAsync(job, true, false))
  {
    CancelKeeps(job, true, false);
  }

  lemma AllCancelled(jobs: map<JobId, Job>, members: seq<JobId>, initiator: JobId, late: bool)
    requires NoDup(members) && (forall m :: m in members <==> m in jobs)
    requires forall k {:trigger Cancelled(initiator, late, members[k], jobs[members[k]])} ::
               0 <= k < |members| ==> Cancelled(initiator, late, members[k], jobs[members[k]])
    ensures AllOk(jobs, members, Failing(initiator, late))
    ensures forall m :: m in jobs && m != initiator ==> jobs[m].forceCancel
  {
    forall m | m in jobs
      ensures Cancelled(initiator, late, m, jobs[m]) && PlaceOk(Failing(initiator, late), members, m, jobs[m])
    {
      var k :| 0 <= k < |members| && members[k] == m;
      assert Cancelled(initiator, late, members[k], jobs[members[k]]);
    }
  }

  /** The first member is finalized and leaves. */
  lemma FirstLeaves(jobs: map<JobId, Job>, members: seq<JobId>, phase: Phase)
    requires AllOk(jobs, members, phase) && members != [] && (phase.Succeeding? || phase.Failing?)
    requires IsCompleted(jobs[members[0]].status)
    ensures var job := jobs[members[0]];
            && JobOk(job) && !job.status.Concluded? && !job.status.Null? && (job.status.Waiting? ==> job.forceCancel)
            && AllOk(jobs[members[0] := FinalizeSingle(job)], members[1..], phase)
            && FinalizeSingle(job).calls == Outcome(job)
  {
    var first := members[0];
    assert PlaceOk(phase, members, first, jobs[first]);
    FinalizeOutcome(jobs[first]);
    var jobs', rest := jobs[first := FinalizeSingle(jobs[first])], members[1..];
    assert members == [first] + rest;
    forall k | k in jobs'
      ensures PlaceOk(phase, rest, k, jobs'[k])
    {
      if k != first { assert PlaceOk(phase, members, k, jobs[k]); }
    }
  }

  /** How a job ends that has this return value and these flags. */
  function Outcome(job: Job): Calls {
    if job.ret != 0 || job.forceCancel then Calls(0, 1, 1) else Calls(1, 0, 1)
  }

  /** A member is as before; one that has left has got its callbacks. */
  predicate UnwoundAt(members: seq<JobId>, j: JobId, before: Job, after: Job) {
    if j in members then after == before else after.calls == Outcome(before)
  }

  ghost predicate Unwound(jobs0: map<JobId, Job>, members0: seq<JobId>, jobs: map<JobId, Job>, members: seq<JobId>) {
    forall j {:trigger UnwoundAt(members, j, jobs0[j], jobs[j])} ::
      j in members0 && j in jobs0 && j in jobs ==> UnwoundAt(members, j, jobs0[j], jobs[j])
  }

  lemma UnwoundStep(jobs0: map<JobId, Job>, members0: seq<JobId>, jobs: map<JobId, Job>, members: seq<JobId>, end: Job)
    requires NoDup(members) && members != [] && members[0] in jobs && end.calls == Outcome(jobs[members[0]])
    requires Unwound(jobs0, members0, jobs, members)
    ensures Unwound(jobs0, members0, jobs[members[0] := end], members[1..])
  {
    var first := members[0];
    var jobs', rest := jobs[first := end], members[1..];
    assert members == [first] + rest;
    forall j | j in members0 && j in jobs0 && j in jobs'
      ensures UnwoundAt(rest, j, jobs0[j], jobs'[j])
    {
      assert UnwoundAt(members, j, jobs0[j], jobs[j]);
    }
  }

  /** The abort waits for the first member, which has not completed but has been cancelled. */
  predicate Awaited(jobs: map<JobId, Job>, members: seq<JobId>, phase: Phase) {
    && members != [] && members[0] in jobs && phase.Failing? && !phase.late
    && !IsCompleted(jobs[members[0]].status) && jobs[members[0]].cancelled
  }

  lemma FirstIsAwaited(jobs: map<JobId, Job>, members: seq<JobId>, phase: Phase)
    requires AllOk(jobs, members, phase) && (phase.Succeeding? || phase.Failing?)
    requires members != [] && !IsCompleted(jobs[members[0]].status)
    ensures Awaited(jobs, members, phase)
  {
    assert PlaceOk(phase, members, members[0], jobs[members[0]]);
  }

  /** After an abort: the initiator ends according to its own result, every other member aborts. */
  ghost predicate AbortOutcome(jobs0: map<JobId, Job>, jobs: map<JobId, Job>, initiator: JobId) {
    forall m :: m in jobs0 && m in jobs ==>
      jobs[m].calls == if m == initiator then Outcome(jobs0[m]) else Calls(0, 1, 1)
  }

  lemma AbortEnds(jobs0: map<JobId, Job>, members0: seq<JobId>, jobs1: map<JobId, Job>, jobs: map<JobId, Job>,
                  initiator: JobId)
    requires Unwound(jobs1, members0, jobs, []) && jobs1.Keys == jobs0.Keys == jobs.Keys
    requires forall m :: m in jobs0 ==> m in members0
    requires initiator in jobs0 && jobs1[initiator] == jobs0[initiator]
    requires forall m :: m in jobs1 && m != initiator ==> jobs1[m].forceCancel
    ensures AbortOutcome(jobs0, jobs, initiator)
  {
    forall m | m in jobs0
      ensures jobs[m].calls == if m == initiator then Outcome(jobs0[m]) else Calls(0, 1, 1)
    {
      assert UnwoundAt([], m, jobs1[m], jobs[m]);
    }
  }

  /** A pending job whose .prepare failed. */
  function PrepareFailed(job: Job, ret: int): Job { job.(ret := ret, status := Aborting) }

  lemma PendingPrepares(jobs: map<JobId, Job>, members: seq<JobId>, m: JobId, ret: int)
    requires AllOk(jobs, members, AllPending) && m in members
    ensures jobs[m].status.Pending?
    ensures UpdateRc(jobs[m].(ret := ret)) == if ret == 0 then jobs[m] else PrepareFailed(jobs[m], ret)
  {
    assert PlaceOk(AllPending, members, m, jobs[m]);
  }

  lemma FailedIsAbortable(jobs: map<JobId, Job>, members: seq<JobId>, j: JobId, k: nat, ret: int)
    requires AllOk(jobs, members, AllPending) && j in members && k < |members| && ret != 0
    ensures AllAbortable(jobs[members[k] := PrepareFailed(jobs[members[k]], ret)], members, j, true)
    ensures Outcome(jobs[j]) == Calls(1, 0, 1)
  {
    var jobs' := jobs[members[k] := PrepareFailed(jobs[members[k]], ret)];
    assert PlaceOk(AllPending, members, j, jobs[j]);
    forall m | m in jobs'
      ensures Abortable(j, true, m, jobs'[m]) && m in members
    {
      assert PlaceOk(AllPending, members, m, jobs[m]);
    }
  }

  lemma PendingSucceed(jobs: map<JobId, Job>, members: seq<JobId>)
    requires AllOk(jobs, members, AllPending)
    ensures AllOk(jobs, members, Succeeding)
  {
    forall m | m in jobs
      ensures PlaceOk(Succeeding, members, m, jobs[m])
    {
      assert PlaceOk(AllPending, members, m, jobs[m]);
    }
  }

  lemma AllCommitted(jobs: map<JobId, Job>)
    requires AllOk(jobs, [], Succeeding)
    ensures forall m :: m in jobs ==> jobs[m].calls == Calls(1, 0, 1)
  {
    forall m | m in jobs
      ensures jobs[m].calls == Calls(1, 0, 1)
    {
      assert PlaceOk(Succeeding, [], m, jobs[m]);
    }
  }

  ghost predicate AllPrepare(members: seq<JobId>, prepare: JobId -> int) {
    forall m :: m in members ==> prepare(m) == 0
  }

  /** members[k] is the first member whose .prepare fails. */
  ghost predicate FirstToFail(members: seq<JobId>, prepare: JobId -> int, k: int) {
    0 <= k < |members| && prepare(members[k]) != 0 && forall i :: 0 <= i < k ==> prepare(members[i]) == 0
  }

  lemma {:induction false} SomeoneFailsFirst(members: seq<JobId>, prepare: JobId -> int) returns (k: nat)
    ensures if AllPrepare(members, prepare) then k == |members| else FirstToFail(members, prepare, k)
  {
    k := 0;
    while k < |members| && prepare(members[k]) == 0
      invariant k <= |members| && forall i :: 0 <= i < k ==> prepare(members[i]) == 0
    {
      k := k + 1;
    }
  }

  /**
   * How a finalized transaction ends. If all members can be prepared, all are
   * committed. Otherwise all are aborted, except that the job on which finalize
   * was called is committed if it was another one that failed first.
   */
  ghost predicate FinalizedAs(jobs: map<JobId, Job>, j: JobId, members: seq<JobId>, prepare: JobId -> int) {
    && (AllPrepare(members, prepare) ==> forall m :: m in jobs ==> jobs[m].calls == Calls(1, 0, 1))
    && forall k {:trigger FirstToFail(members, prepare, k)} :: FirstToFail(members, prepare, k) ==>
         forall m :: m in jobs ==>
           jobs[m].calls == if m == j && members[k] != j then Calls(1, 0, 1) else Calls(0, 1, 1)
  }

  /** All commit if and only if all can be prepared. */
  lemma CommittedIff(jobs: map<JobId, Job>, j: JobId, members: seq<JobId>, prepare: JobId -> int)
    requires FinalizedAs(jobs, j, members, prepare) && forall m :: m in members ==> m in jobs
    ensures (forall m :: m in jobs ==> jobs[m].calls == Calls(1, 0, 1)) <==>
            forall m :: m in members ==> prepare(m) == 0
  {
    var k := SomeoneFailsFirst(members, prepare);
    if k < |members| {
      assert jobs[members[k]].calls == Calls(0, 1, 1);
    }
  }

  /** The record of a job that is about to be completed: by job_exit, or cancelled before it was started. */
  predicate Completing(before: Job, job: Job) {
    || (before.co.Returned? && job == before.(busy := false, co := Exited))
    || (before.co.NotStarted? && before.status.Created? && job == before && job.forceCancel)
  }

  lemma CompletingKeeps(before: Job, job: Job)
    requires JobOk(before) && Completing(before, job)
    ensures job.status.Created? || job.status.Running? || job.status.Ready?
    ensures JobOk(UpdateRc(job)) || (job.ret == 0 && !job.forceCancel)
    ensures job.ret != 0 || job.forceCancel ==>
              UpdateRc(job).status.Aborting? && UpdateRc(job).forceCancel == job.forceCancel
    ensures job.ret == 0 && !job.forceCancel ==> !job.status.Created? && JobOk(Transition(job, Waiting))
  {
  }

  lemma MayFail(jobs: map<JobId, Job>, members: seq<JobId>, phase: Phase, j: JobId, job: Job)
    requires AllOk(jobs, members, phase) && j in members && Completing(jobs[j], job)
    ensures Allowed(job.status, Aborting)
    ensures UpdateRc(job) == if job.ret == 0 && !job.forceCancel then job
                             else job.(ret := if job.ret == 0 then ECANCELED else job.ret, status := Aborting)
  {
    assert PlaceOk(phase, members, j, jobs[j]);
    CompletingKeeps(jobs[j], job);
  }

  /** A member of an aborting transaction cannot complete successfully. */
  lemma CompletedFails(jobs: map<JobId, Job>, members: seq<JobId>, phase: Phase, j: JobId, job: Job)
    requires AllOk(jobs, members, phase) && phase.Failing? && j in members && Completing(jobs[j], job)
    ensures job.forceCancel && Allowed(job.status, Aborting) && AllOk(jobs[j := UpdateRc(job)], members, phase)
    ensures !phase.late
  {
    assert PlaceOk(phase, members, j, jobs[j]);
    CompletingKeeps(jobs[j], job);
    Changed(jobs, members, phase, j, UpdateRc(job));
  }

  lemma CompletedStartsAbort(jobs: map<JobId, Job>, members: seq<JobId>, phase: Phase, j: JobId, job: Job)
    requires AllOk(jobs, members, phase) && !phase.Failing? && j in members && Completing(jobs[j], job)
    requires job.ret != 0 || job.forceCancel
    ensures Allowed(job.status, Aborting) && AllAbortable(jobs[j := UpdateRc(job)], members, j, false)
  {
    assert PlaceOk(phase, members, j, jobs[j]);
    CompletingKeeps(jobs[j], job);
    var jobs' := jobs[j := UpdateRc(job)];
    forall m | m in jobs'
      ensures Abortable(j, false, m, jobs'[m]) && m in members
    {
      assert PlaceOk(phase, members, m, jobs[m]);
    }
  }

  lemma CompletedSucceeds(jobs: map<JobId, Job>, members: seq<JobId>, phase: Phase, j: JobId, job: Job)
    requires AllOk(jobs, members, phase) && j in members && Completing(jobs[j], job) && job.ret == 0 && !job.forceCancel
    ensures phase.Working? && Allowed(job.status, Waiting) && Transition(job, Waiting) == Waits(jobs[j])
    ensures AllOk(jobs[j := Waits(jobs[j])], members, phase)
  {
    assert PlaceOk(phase, members, j, jobs[j]);
    CompletingKeeps(jobs[j], job);
    Changed(jobs, members, phase, j, Transition(job, Waiting));
  }

  lemma CompletedIsWaiting(jobs: map<JobId, Job>, members: seq<JobId>, m: JobId)
    requires AllOk(jobs, members, Working) && m in members
    ensures IsCompleted(jobs[m].status) ==> jobs[m].status.Waiting? && jobs[m].ret == 0
  {
    assert PlaceOk(Working, members, m, jobs[m]);
  }

  lemma WaitingToPending(jobs0: map<JobId, Job>, jobs: map<JobId, Job>, members: seq<JobId>)
    requires AllOk(jobs0, members, Working) && jobs.Keys == jobs0.Keys
    requires forall m :: m in members ==> jobs0[m].status.Waiting? && jobs[m] == jobs0[m].(status := Pending)
    ensures AllOk(jobs, members, AllPending)
  {
    forall m | m in jobs
      ensures PlaceOk(AllPending, members, m, jobs[m])
    {
      assert PlaceOk(Working, members, m, jobs0[m]);
    }
  }

  lemma ReturnedIsMember(jobs: map<JobId, Job>, members: seq<JobId>, phase: Phase, j: JobId)
    requires AllOk(jobs, members, phase) && j in jobs && jobs[j].co.Returned?
    ensures j in members
  {
    assert PlaceOk(phase, members, j, jobs[j]);
  }

  lemma OthersCompleted(jobs: map<JobId, Job>, members: seq<JobId>, j: JobId)
    requires j in members && forall m :: m in members ==> m in jobs
    ensures (forall m :: m in members ==> IsCompleted(jobs[j := Waits(jobs[j])][m].status)) <==>
            !exists m :: m in members && m != j && !IsCompleted(jobs[m].status)
    ensures forall m :: m in members ==> jobs[j := Waits(jobs[j])][m].autoFinalize == jobs[m].autoFinalize
  {
  }

  /** The job has its error and is aborting; the other jobs are the same. */
  predicate FailedAs(before: map<JobId, Job>, after: map<JobId, Job>, j: JobId, job: Job) {
    after == before[j := job.(ret := if job.ret == 0 then ECANCELED else job.ret, status := Aborting)]
  }

  /** A job that has succeeded and waits for the other members. */
  function Waits(job: Job): Job { job.(status := Waiting, busy := false, co := Exited) }

  /** All jobs wait for a finalize command, j as the last that has succeeded. */
  ghost predicate PendingAs(jobs0: map<JobId, Job>, jobs: map<JobId, Job>, j: JobId) {
    && jobs.Keys == jobs0.Keys
    && forall m :: m in jobs ==> jobs[m] == (if m == j then Waits(jobs0[m]) else jobs0[m]).(status := Pending)
  }

  lemma BecamePending(jobs0: map<JobId, Job>, members: seq<JobId>, phase: Phase, j: JobId, jobs: map<JobId, Job>)
    requires AllOk(jobs0, members, phase) && phase.Working? && j in members && jobs.Keys == jobs0.Keys
    requires forall m :: m in members ==> jobs[m] == jobs0[j := Waits(jobs0[j])][m].(status := Pending)
    ensures PendingAs(jobs0, jobs, j)
  {
    forall m | m in jobs0
      ensures m in members
    {
      assert PlaceOk(phase, members, m, jobs0[m]);
    }
  }

  /** What follows when j completes successfully. */
  ghost predicate SuccessOutcome(jobs0: map<JobId, Job>, members0: seq<JobId>,
                                 jobs: map<JobId, Job>, members: seq<JobId>,
                                 phase: Phase, j: JobId, prepare: JobId -> int)
    requires forall m :: m in members0 ==> m in jobs0
  {
    if exists m :: m in members0 && m != j && !IsCompleted(jobs0[m].status) then
      phase.Working? && members == members0 && j in jobs0 && jobs == jobs0[j := Waits(jobs0[j])]
    else if exists m :: m in members0 && !jobs0[m].autoFinalize then
      phase.AllPending? && members == members0 && PendingAs(jobs0, jobs, j)
    else
      members == [] && FinalizedAs(jobs, j, members0, prepare)
  }

  lemma EnterKeeps(phase: Phase, members: seq<JobId>, j: JobId, job: Job)
    requires PlaceOk(phase, members, j, job)
    ensures PlaceOk(phase, members, j, Enter(job))
  {
  }

  lemma AcceptedIsMember(members: seq<JobId>, phase: Phase, j: JobId, job: Job)
    requires PlaceOk(phase, members, j, job) && Accepts(job.status, Cancel)
    ensures j in members
  {
  }

  /** What a cancel request changes: perhaps flags and pauses, but not where the job is. */
  predicate CancelStep(before: Job, job: Job) {
    && job.status == before.status && job.co == before.co && job.deferred == before.deferred
    && (before.forceCancel ==> job.forceCancel)
  }

  lemma CancelBecomesHard(before: Job, force: bool, answer: bool)
    requires JobOk(before) && Accepts(before.status, Cancel)
    ensures JobOk(CancelAsync(before, force, answer)) && CancelStep(before, CancelAsync(before, force, answer))
    ensures force || !IsReady(before.status) ==> CancelAsync(before, force, answer).forceCancel
    ensures before.co.NotStarted? ==> before.status.Created?
    ensures IsCompleted(before.status) ==> before.deferred && !before.co.NotStarted?
  {
    CancelKeeps(before, force, answer);
  }

  /**
   * What becomes of a job that is cancelled while its coroutine exists: a pause
   * by the user ends, and the job is woken to find out. The request is a hard
   * one if it is forced, if the job is not ready, or if the driver says so.
   */
  predicate CancelledAs(before: Job, after: Job, force: bool, answer: bool) {
    var p := before.pauses;
    after == before.(
      pauses := if p.user then Pauses(p.count - 1, false, p.drains, false) else p,
      cancelled := true,
      forceCancel := before.forceCancel || force || answer || !(before.status.Ready? || before.status.Standby?),
      busy := true)
  }

  /** Unless it has completed, a job that is cancelled stays a member in the same phase. */
  lemma CancelInPlace(members: seq<JobId>, phase: Phase, j: JobId, before: Job, job: Job)
    requires PlaceOk(phase, members, j, before) && j in members && JobOk(job) && CancelStep(before, job)
    requires phase.Failing? || !job.forceCancel || !IsCompleted(before.status)
    ensures PlaceOk(phase, members, j, job)
  {
  }

  lemma CancelAtEnd(members: seq<JobId>, phase: Phase, j: JobId, before: Job, job: Job)
    requires PlaceOk(phase, members, j, before) && j in members && JobOk(job) && CancelStep(before, job)
    requires !phase.Failing? && job.forceCancel && (phase.Succeeding? ==> members == [])
    ensures Abortable(j, phase.AllPending?, j, job)
  {
  }

  /** A forced cancel of a job that has already completed makes its transaction abort. */
  lemma CancelAborts(jobs: map<JobId, Job>, members: seq<JobId>, phase: Phase, j: JobId, job: Job)
    requires AllOk(jobs, members, phase) && j in members && !phase.Failing? && Abortable(j, phase.AllPending?, j, job)
    requires phase.Succeeding? ==> members == []
    ensures AllAbortable(jobs[j := job], members, j, phase.AllPending?)
  {
    var jobs' := jobs[j := job];
    forall m | m in jobs'
      ensures Abortable(j, phase.AllPending?, m, jobs'[m]) && m in members
    {
      assert PlaceOk(phase, members, m, jobs[m]);
    }
  }

  lemma PendingIsMember(jobs: map<JobId, Job>, members: seq<JobId>, phase: Phase, j: JobId)
    requires AllOk(jobs, members, phase) && j in jobs && jobs[j].status.Pending?
    requires (phase.Succeeding? ==> members == []) && (phase.Failing? && members != [] ==> !phase.late)
    ensures j in members && phase.AllPending?
  {
    assert PlaceOk(phase, members, j, jobs[j]);
  }

  /** job_pause_locked, for the reason that has been added to p. */
  function PausedBy(job: Job, p: Pauses): Job {
    var more := job.(pauses := p.(count := p.count + 1));
    if more.paused then more else Enter(more)
  }

  /** job_resume_locked, with its assertion, for the reason that has been removed from p. */
  function ResumedBy(job: Job, p: Pauses, timerPending: bool): Job
    requires p.count > 0
  {
    var fewer := job.(pauses := p.(count := p.count - 1));
    if fewer.pauses.count == 0 && !timerPending then Enter(fewer) else fewer
  }

  /** job_create */
  function NewJob(autoFinalize: bool, autoDismiss: bool): Job {
    Transition(
      Job(Undefined, NotStarted, 0, false, true, false, false, false, autoFinalize, autoDismiss,
          Pauses(1, false, 0, false), Calls(0, 0, 0)),
      Created)
  }

  /** Nothing but the record of j has changed. */
  ghost predicate OthersSame(before: map<JobId, Job>, after: map<JobId, Job>, j: JobId) {
    j in after && after == before[j := after[j]]
  }

  /** Only the pauses have changed; the coroutine, if there is one, is woken if so wanted. */
  predicate OnlyPauses(before: Job, after: Job, p: Pauses, woken: bool) {
    after == before.(pauses := p, busy := before.busy || (woken && !before.co.NotStarted? && !before.deferred))
  }

  lemma PausesChange(jobs: map<JobId, Job>, members: seq<JobId>, phase: Phase, j: JobId, p: Pauses)
    requires AllOk(jobs, members, phase) && j in jobs && PausesOk(p, !jobs[j].co.NotStarted?)
    ensures AllOk(jobs[j := jobs[j].(pauses := p)], members, phase)
    ensures AllOk(jobs[j := Enter(jobs[j].(pauses := p))], members, phase)
  {
    assert PlaceOk(phase, members, j, jobs[j]);
    Changed(jobs, members, phase, j, jobs[j].(pauses := p));
    Changed(jobs, members, phase, j, Enter(jobs[j].(pauses := p)));
  }

  lemma PausesStayOk(jobs: map<JobId, Job>, members: seq<JobId>, phase: Phase, j: JobId)
    requires AllOk(jobs, members, phase) && j in jobs
    ensures PausesOk(jobs[j].pauses, !jobs[j].co.NotStarted?)
  {
    assert PlaceOk(phase, members, j, jobs[j]);
  }

  lemma PausedKeeps(jobs: map<JobId, Job>, members: seq<JobId>, phase: Phase, j: JobId, p: Pauses)
    requires AllOk(jobs, members, phase) && j in jobs && PausesOk(p.(count := p.count + 1), !jobs[j].co.NotStarted?)
    ensures AllOk(jobs[j := PausedBy(jobs[j], p)], members, phase)
  {
    PausesChange(jobs, members, phase, j, p.(count := p.count + 1));
  }

  lemma ResumedKeeps(jobs: map<JobId, Job>, members: seq<JobId>, phase: Phase, j: JobId, p: Pauses, timerPending: bool)
    requires AllOk(jobs, members, phase) && j in jobs && p.count > 0
    requires PausesOk(p.(count := p.count - 1), !jobs[j].co.NotStarted?)
    ensures AllOk(jobs[j := ResumedBy(jobs[j], p, timerPending)], members, phase)
  {
    PausesChange(jobs, members, phase, j, p.(count := p.count - 1));
  }

  lemma SetErrorKeeps(jobs: map<JobId, Job>, members: seq<JobId>, phase: Phase, j: JobId)
    requires AllOk(jobs, members, phase) && j in jobs && jobs[j].pauses.user
    ensures AllOk(jobs[j := jobs[j].(pauses := jobs[j].pauses.(ioError := true))], members, phase)
  {
    PausesStayOk(jobs, members, phase, j);
    PausesChange(jobs, members, phase, j, jobs[j].pauses.(ioError := true));
  }

  ghost predicate NoneStarted(jobs: map<JobId, Job>) {
    forall j :: j in jobs ==> jobs[j].co.NotStarted?
  }

  lemma MemberJoins(jobs: map<JobId, Job>, members: seq<JobId>, j: JobId, job: Job)
    requires AllOk(jobs, members, Working) && j !in jobs && JobOk(job) && job.status.Created?
    ensures AllOk(jobs[j := job], [j] + members, Working)
  {
    var jobs', members' := jobs[j := job], [j] + members;
    forall m | m in jobs'
      ensures PlaceOk(Working, members', m, jobs'[m])
    {
      if m != j { assert PlaceOk(Working, members, m, jobs[m]); }
    }
  }

  /** A created job of a transaction that is not aborting is a member, and the transaction is still working. */
  lemma CreatedIsMember(jobs: map<JobId, Job>, members: seq<JobId>, phase: Phase, j: JobId)
    requires AllOk(jobs, members, phase) && !phase.Failing? && j in jobs && jobs[j].status.Created?
    ensures j in members && phase.Working?
  {
    assert PlaceOk(phase, members, j, jobs[j]);
  }

  lemma MemberVanishes(jobs: map<JobId, Job>, members: seq<JobId>, k: nat)
    requires AllOk(jobs, members, Working) && k < |members|
    ensures AllOk(jobs - {members[k]}, members[..k] + members[k + 1..], Working)
  {
    var j, rest := members[k], members[..k] + members[k + 1..];
    assert members == members[..k] + [j] + members[k + 1..];
    forall m | m in jobs - {j}
      ensures PlaceOk(Working, rest, m, jobs[m])
    {
      assert PlaceOk(Working, members, m, jobs[m]);
    }
  }

  /** The end of an aborted transaction: all abort but perhaps the initiator, and each is cleaned once. */
  lemma AbortedOutcome(jobs: map<JobId, Job>, initiator: JobId, late: bool, j: JobId)
    requires AllOk(jobs, [], Failing(initiator, late)) && j in jobs
    ensures jobs[j].calls == Calls(0, 1, 1) || jobs[j].calls == Calls(1, 0, 1)
    ensures j != initiator ==> jobs[j].calls == Calls(0, 1, 1)
    ensures jobs[j].calls == Calls(0, 1, 1) <==> jobs[j].ret != 0
    ensures jobs[j].forceCancel ==> jobs[j].ret != 0
  {
    assert PlaceOk(Failing(initiator, late), [], j, jobs[j]);
  }

  ghost predicate Agree(jobs: map<JobId, Job>) {
    forall m, n :: m in jobs && n in jobs ==> jobs[m].calls == jobs[n].calls
  }

  /**
   * Finalizing is all or nothing if and only if no .prepare fails, or the first
   * one that fails is that of the job on which finalize was called.
   */
  lemma AllOrNothing(jobs: map<JobId, Job>, j: JobId, members: seq<JobId>, prepare: JobId -> int)
    requires FinalizedAs(jobs, j, members, prepare) && j in members && forall m :: m in members ==> m in jobs
    ensures Agree(jobs) <==>
            || (forall m :: m in members ==> prepare(m) == 0)
            || (exists k :: FirstToFail(members, prepare, k) && members[k] == j)
  {
    var k := SomeoneFailsFirst(members, prepare);
    if k < |members| && members[k] != j {
      assert jobs[j].calls != jobs[members[k]].calls;
      forall i | FirstToFail(members, prepare, i)
        ensures i == k
      {
      }
    }
  }
}
