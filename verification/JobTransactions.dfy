/**
 * Transactions of jobs (job.c): one transaction, whose methods are the monitor
 * commands and the events of its jobs' coroutines, each run under the job lock.
 */
module JobTransactions {
  import opened Common
  import opened Jobs

  class JobTxn {
    var jobs: map<JobId, Job>
    var members: seq<JobId>
    var aborting: bool
    var unwinding: bool    // job_completed_txn_abort_locked waits for members[0] to complete
    var refcnt: int
    var held: bool         // by the creator of the transaction
    ghost var phase: Phase

    ghost predicate Counted()
      reads this
    {
      && AllOk(jobs, members, phase) && aborting == phase.Failing?
      && refcnt == |members| + (if held then 1 else 0) + (if unwinding then 1 else 0)
    }

    /** Between events. */
    ghost predicate Valid()
      reads this
    {
      && Counted()
      && (phase.AllPending? ==> members != []) && (phase.Succeeding? ==> members == [])
      && (unwinding <==> phase.Failing? && members != [])
      && (unwinding ==> !phase.late)
    }

    /** job_txn_new */
    constructor ()
      ensures Valid() && jobs == map[] && members == [] && held && phase == Working
    {
      jobs, members, aborting, unwinding, refcnt, held, phase := map[], [], false, false, 1, true, Working;
    }

    // ------------------------------------------------------------------------
    // Completion

    /** Finalize members, from the first, as long as they have completed. */
    static method FinalizeCompleted(jobs0: map<JobId, Job>, members0: seq<JobId>, ghost phase: Phase)
      returns (jobs: map<JobId, Job>, members: seq<JobId>)
      requires AllOk(jobs0, members0, phase) && (phase.Succeeding? || phase.Failing?)
      ensures AllOk(jobs, members, phase) && jobs.Keys == jobs0.Keys && |members| <= |members0|
      ensures Unwound(jobs0, members0, jobs, members)
      ensures members != [] ==> Awaited(jobs, members, phase)
      ensures members0 != [] && IsCompleted(jobs0[members0[0]].status) ==> |members| < |members0|
    {
      jobs, members := jobs0, members0;
      while members != [] && IsCompleted(jobs[members[0]].status)
        invariant |members| == |members0| ==> members == members0 && jobs == jobs0
        invariant AllOk(jobs, members, phase) && jobs.Keys == jobs0.Keys && |members| <= |members0|
        invariant Unwound(jobs0, members0, jobs, members)
        decreases |members|
      {
        FirstLeaves(jobs, members, phase);
        var end := FinalizeSingle(jobs[members[0]]);
        UnwoundStep(jobs0, members0, jobs, members, end);
        jobs, members := jobs[members[0] := end], members[1..];
      }
      if members != [] { FirstIsAwaited(jobs, members, phase); }
    }

    /** The loop of job_completed_txn_abort_locked, until it has to wait for a member or is done. */
    method Unwind()
      requires Counted() && phase.Failing? && unwinding
      modifies this`jobs, this`members, this`refcnt, this`unwinding
      ensures Valid() && jobs.Keys == old(jobs).Keys
      ensures Unwound(old(jobs), old(members), jobs, members)
      ensures members != [] ==> Awaited(jobs, members, phase)
      ensures old(members) != [] && IsCompleted(old(jobs)[old(members)[0]].status) ==> |members| < |old(members)|
    {
      var left := |members|;
      jobs, members := FinalizeCompleted(jobs, members, phase);
      refcnt := refcnt - (left - |members|);
      if members == [] {
        unwinding, refcnt := false, refcnt - 1;
      }
    }

    /** job_completed_txn_abort_locked, if the transaction is not aborting yet. */
    method TxnAbort(j: JobId, ghost late: bool)
      requires !aborting && !unwinding && refcnt == |members| + (if held then 1 else 0)
      requires AllAbortable(jobs, members, j, late)
      modifies this
      ensures Valid() && phase == Failing(j, late) && held == old(held) && jobs.Keys == old(jobs).Keys
      ensures late ==> members == [] && AbortOutcome(old(jobs), jobs, j)
    {
      ghost var jobs0, members0 := jobs, members;
      aborting, unwinding, refcnt, phase := true, true, refcnt + 1, Failing(j, late);
      jobs := CancelOthers(jobs, members, j, late);
      ghost var jobs1 := jobs;
      Unwind();
      if late { AbortEnds(jobs0, members0, jobs1, jobs, j); }
    }

    static method CancelOthers(jobs0: map<JobId, Job>, members: seq<JobId>, j: JobId, ghost late: bool)
      returns (jobs: map<JobId, Job>)
      requires AllAbortable(jobs0, members, j, late)
      ensures jobs.Keys == jobs0.Keys && AllOk(jobs, members, Failing(j, late))
      ensures jobs[j] == jobs0[j] && forall m :: m in jobs && m != j ==> jobs[m].forceCancel
    {
      jobs := jobs0;
      for i := 0 to |members|
        invariant jobs.Keys == jobs0.Keys && jobs[j] == jobs0[j]
        invariant forall k {:trigger Cancelled(j, late, members[k], jobs[members[k]])} ::
                    0 <= k < i ==> Cancelled(j, late, members[k], jobs[members[k]])
        invariant forall k :: i <= k < |members| ==> jobs[members[k]] == jobs0[members[k]]
      {
        var other := members[i];
        CancelledMemberOk(j, late, other, jobs[other]);
        if other != j {
          jobs := jobs[other := CancelAsync(jobs[other], true, false)];
        }
      }
      AllCancelled(jobs, members, j, late);
    }

    /** job_txn_apply_locked with job_prepare_locked: the index of the first failure, if any. */
    static method Prepare(jobs0: map<JobId, Job>, members: seq<JobId>, prepare: JobId -> int)
      returns (k: nat, jobs: map<JobId, Job>)
      requires AllOk(jobs0, members, AllPending)
      ensures k <= |members| && forall i :: 0 <= i < k ==> prepare(members[i]) == 0
      ensures k == |members| ==> jobs == jobs0
      ensures k < |members| ==> members[k] in jobs0 && prepare(members[k]) != 0
      ensures k < |members| ==> jobs == jobs0[members[k] := PrepareFailed(jobs0[members[k]], prepare(members[k]))]
    {
      jobs, k := jobs0, 0;
      while k < |members|
        invariant 0 <= k <= |members| && jobs == jobs0
        invariant forall i :: 0 <= i < k ==> prepare(members[i]) == 0
      {
        var m := members[k];
        PendingPrepares(jobs, members, m, prepare(m));
        jobs := jobs[m := UpdateRc(jobs[m].(ret := prepare(m)))];
        if prepare(m) != 0 { return; }
        assert jobs == jobs0;
        k := k + 1;
      }
    }

    /** job_do_finalize_locked; `prepare` is what the drivers' .prepare callbacks return. */
    method DoFinalize(j: JobId, prepare: JobId -> int)
      requires Counted() && phase.AllPending? && !unwinding && j in members
      modifies this
      ensures Valid() && members == [] && held == old(held) && jobs.Keys == old(jobs).Keys
      ensures FinalizedAs(jobs, j, old(members), prepare)
      ensures (forall m :: m in jobs ==> jobs[m].calls == Calls(1, 0, 1)) <==>
              forall m :: m in old(members) ==> prepare(m) == 0
    {
      ghost var jobs0, members0 := jobs, members;
      var k;
      k, jobs := Prepare(jobs, members, prepare);
      if k < |members| {
        FailedIsAbortable(jobs0, members, j, k, prepare(members[k]));
        TxnAbort(j, true);
      } else {
        CommitAll();
      }
      CommittedIff(jobs, j, members0, prepare);
    }

    /** job_txn_apply_locked with job_finalize_single_locked. */
    method CommitAll()
      requires Counted() && phase.AllPending? && !unwinding
      modifies this
      ensures Valid() && phase.Succeeding? && members == [] && held == old(held) && jobs.Keys == old(jobs).Keys
      ensures forall m :: m in jobs ==> jobs[m].calls == Calls(1, 0, 1)
    {
      PendingSucceed(jobs, members);
      phase := Succeeding;
      var left := |members|;
      jobs, members := FinalizeCompleted(jobs, members, phase);
      refcnt := refcnt - left;
      AllCommitted(jobs);
    }

    /** job_completed_locked, where `job` is the record of j when it is called. */
    method Completed(j: JobId, job: Job, prepare: JobId -> int)
      requires Valid() && j in members && Completing(jobs[j], job)
      modifies this
      ensures Valid() && held == old(held) && jobs.Keys == old(jobs).Keys
      ensures job.ret != 0 || job.forceCancel ==>
                if old(aborting) then phase == old(phase) && FailedAs(old(jobs), jobs, j, job)
                else phase == Failing(j, false)
      ensures job.ret == 0 && !job.forceCancel ==>
                SuccessOutcome(old(jobs), old(members), jobs, members, phase, j, prepare)
    {
      if job.ret != 0 || job.forceCancel {
        TxnFailure(j, job);
      } else {
        MayFail(jobs, members, phase, j, job);
        TxnSuccess(j, UpdateRc(job), prepare);
      }
    }

    /** job_completed_locked for a job with an error, or a forced cancel, which is an error. */
    method TxnFailure(j: JobId, job: Job)
      requires Valid() && j in members && Completing(jobs[j], job) && (job.ret != 0 || job.forceCancel)
      modifies this
      ensures Valid() && held == old(held) && jobs.Keys == old(jobs).Keys
      ensures if old(aborting) then phase == old(phase) && FailedAs(old(jobs), jobs, j, job)
              else phase == Failing(j, false)
    {
      MayFail(jobs, members, phase, j, job);
      if aborting {
        CompletedFails(jobs, members, phase, j, job);
        jobs := jobs[j := UpdateRc(job)];
      } else {
        CompletedStartsAbort(jobs, members, phase, j, job);
        jobs := jobs[j := UpdateRc(job)];
        TxnAbort(j, false);
      }
    }

    /** job_completed_txn_success_locked */
    method TxnSuccess(j: JobId, job: Job, prepare: JobId -> int)
      requires Valid() && j in members && Completing(jobs[j], job) && job.ret == 0 && !job.forceCancel
      modifies this
      ensures Valid() && held == old(held) && jobs.Keys == old(jobs).Keys
      ensures SuccessOutcome(old(jobs), old(members), jobs, members, phase, j, prepare)
    {
      CompletedSucceeds(jobs, members, phase, j, job);
      ghost var jobs0 := jobs;
      jobs := jobs[j := Waits(jobs[j])];
      var done := AllCompleted(jobs, members);
      OthersCompleted(jobs0, members, j);
      if done { AllSucceeded(j, prepare, jobs0); }
    }

    /** The end of job_completed_txn_success_locked, when j was the last to complete. */
    method AllSucceeded(j: JobId, prepare: JobId -> int, ghost jobs0: map<JobId, Job>)
      requires Counted() && phase.Working? && !unwinding && j in members && AllOk(jobs0, members, Working)
      requires jobs == jobs0[j := Waits(jobs0[j])] && forall m :: m in members ==> jobs[m].status.Waiting?
      modifies this
      ensures Valid() && held == old(held) && jobs.Keys == old(jobs).Keys
      ensures if exists m :: m in old(members) && !jobs0[m].autoFinalize
              then phase.AllPending? && members == old(members) && PendingAs(jobs0, jobs, j)
              else members == [] && FinalizedAs(jobs, j, old(members), prepare)
    {
      var auto;
      jobs, auto := ToPending(jobs, members);
      BecamePending(jobs0, members, phase, j, jobs);
      phase := AllPending;
      if auto { DoFinalize(j, prepare); }
    }

    /** The loop of job_completed_txn_success_locked: when all have completed, all are waiting. */
    static method AllCompleted(jobs: map<JobId, Job>, members: seq<JobId>) returns (all: bool)
      requires AllOk(jobs, members, Working)
      ensures all <==> forall m :: m in members ==> IsCompleted(jobs[m].status)
      ensures all ==> forall m :: m in members ==> jobs[m].status.Waiting?
    {
      for i := 0 to |members|
        invariant forall k :: 0 <= k < i ==> jobs[members[k]].status.Waiting?
      {
        CompletedIsWaiting(jobs, members, members[i]);
        if !IsCompleted(jobs[members[i]].status) { return false; }
        assert jobs[members[i]].ret == 0;
      }
      return true;
    }

    /** job_txn_apply_locked with job_transition_to_pending_locked, then with job_needs_finalize_locked. */
    static method ToPending(jobs0: map<JobId, Job>, members: seq<JobId>) returns (jobs: map<JobId, Job>, auto: bool)
      requires AllOk(jobs0, members, Working) && forall m :: m in members ==> jobs0[m].status.Waiting?
      ensures AllOk(jobs, members, AllPending) && jobs.Keys == jobs0.Keys
      ensures forall m :: m in members ==> jobs[m] == jobs0[m].(status := Pending)
      ensures auto <==> forall m :: m in members ==> jobs0[m].autoFinalize
    {
      jobs, auto := jobs0, true;
      for i := 0 to |members|
        invariant jobs.Keys == jobs0.Keys && (auto <==> forall k :: 0 <= k < i ==> jobs0[members[k]].autoFinalize)
        invariant forall k :: 0 <= k < i ==> jobs[members[k]] == jobs0[members[k]].(status := Pending)
        invariant forall k :: i <= k < |members| ==> jobs[members[k]] == jobs0[members[k]]
      {
        auto := auto && jobs0[members[i]].autoFinalize;
        jobs := jobs[members[i] := Transition(jobs[members[i]], Pending)];
      }
      WaitingToPending(jobs0, jobs, members);
    }

    /** job_exit: runs in the main loop once .run has returned. */
    method Exit(j: JobId, prepare: JobId -> int)
      requires Valid() && j in jobs && jobs[j].co.Returned?
      modifies this
      ensures Valid() && held == old(held) && jobs.Keys == old(jobs).Keys
      ensures old(jobs)[j].ret != 0 || old(jobs)[j].forceCancel ==>
                if old(aborting)
                then phase == old(phase) && FailedAs(old(jobs), jobs, j, old(jobs)[j].(busy := false, co := Exited))
                else phase == Failing(j, false)
      ensures old(jobs)[j].ret == 0 && !old(jobs)[j].forceCancel ==>
                SuccessOutcome(old(jobs), old(members), jobs, members, phase, j, prepare)
    {
      ReturnedIsMember(jobs, members, phase, j);
      Completed(j, jobs[j].(busy := false, co := Exited), prepare);
    }

    /** job_completed_txn_abort_locked goes on when the job it waits for has completed. */
    method ContinueAbort()
      requires Valid() && unwinding && IsCompleted(jobs[members[0]].status)
      modifies this`jobs, this`members, this`refcnt, this`unwinding
      ensures Valid() && jobs.Keys == old(jobs).Keys && |members| < |old(members)|
      ensures Unwound(old(jobs), old(members), jobs, members)
    {
      Unwind();
    }

    // ------------------------------------------------------------------------
    // Commands

    /** job_user_cancel_locked; `answer` is the driver's choice for a soft request to a ready job. */
    method UserCancel(j: JobId, force: bool, answer: bool, prepare: JobId -> int) returns (ok: bool)
      requires Valid() && j in jobs
      modifies this
      ensures Valid() && held == old(held) && jobs.Keys == old(jobs).Keys
      ensures ok <==> old(jobs)[j].status in {Created, Running, Paused, Ready, Standby, Waiting, Pending}
      ensures !ok ==> unchanged(this)
      ensures ok && (old(jobs)[j].co.NotStarted? || old(jobs)[j].status in {Waiting, Pending}) ==> phase.Failing?
      ensures ok && old(jobs)[j].deferred ==>
                (phase.Failing? <==> old(phase).Failing? || old(jobs)[j].forceCancel || force || answer
                                     || old(jobs)[j].status !in {Ready, Standby})
      ensures phase != old(phase) ==> phase == Failing(j, old(phase).AllPending?)
      ensures ok && !old(jobs)[j].co.NotStarted? && !old(jobs)[j].deferred ==>
                OthersSame(old(jobs), jobs, j) && CancelledAs(old(jobs)[j], jobs[j], force, answer)
      ensures ok && old(phase).AllPending? ==>
                members == [] && forall m :: m in jobs ==> jobs[m].calls == Calls(0, 1, 1)
    {
      if !Accepts(jobs[j].status, Cancel) { return false; }
      assert PlaceOk(phase, members, j, jobs[j]);
      AcceptedIsMember(members, phase, j, jobs[j]);
      CancelBecomesHard(jobs[j], force, answer);
      if jobs[j].co.NotStarted? {
        CancelCreated(j, force, answer, prepare);
      } else if !jobs[j].deferred {
        CancelRunning(j, force, answer);
      } else {
        CancelReturned(j, force, answer);
      }
      return true;
    }

    method CancelCreated(j: JobId, force: bool, answer: bool, prepare: JobId -> int)
      requires Valid() && j in members && Accepts(jobs[j].status, Cancel) && jobs[j].co.NotStarted?
      modifies this
      ensures Valid() && held == old(held) && jobs.Keys == old(jobs).Keys && phase.Failing?
      ensures phase != old(phase) ==> phase == Failing(j, false)
    {
      assert PlaceOk(phase, members, j, jobs[j]);
      CancelBecomesHard(jobs[j], force, answer);
      var job := CancelAsync(jobs[j], force, answer);
      CancelInPlace(members, phase, j, jobs[j], job);
      Changed(jobs, members, phase, j, job);
      jobs := jobs[j := job];
      Completed(j, job, prepare);
    }

    method CancelRunning(j: JobId, force: bool, answer: bool)
      requires Valid() && j in members && Accepts(jobs[j].status, Cancel)
      requires !jobs[j].co.NotStarted? && !jobs[j].deferred
      modifies this`jobs
      ensures Valid() && OthersSame(old(jobs), jobs, j) && CancelledAs(old(jobs)[j], jobs[j], force, answer)
    {
      assert PlaceOk(phase, members, j, jobs[j]);
      CancelBecomesHard(jobs[j], force, answer);
      var job := CancelAsync(jobs[j], force, answer);
      CancelInPlace(members, phase, j, jobs[j], job);
      EnterKeeps(phase, members, j, job);
      Changed(jobs, members, phase, j, Enter(job));
      jobs := jobs[j := Enter(job)];
    }

    /** A job whose .run has returned. */
    method CancelReturned(j: JobId, force: bool, answer: bool)
      requires Valid() && j in members && Accepts(jobs[j].status, Cancel)
      requires !jobs[j].co.NotStarted? && jobs[j].deferred
      modifies this
      ensures Valid() && held == old(held) && jobs.Keys == old(jobs).Keys
      ensures phase.Failing? <==> old(phase).Failing? || old(jobs)[j].forceCancel || force || answer
                                  || !IsReady(old(jobs)[j].status)
      ensures phase != old(phase) ==> phase == Failing(j, old(phase).AllPending?)
      ensures old(phase).AllPending? ==> members == [] && forall m :: m in jobs ==> jobs[m].calls == Calls(0, 1, 1)
    {
      assert PlaceOk(phase, members, j, jobs[j]);
      CancelBecomesHard(jobs[j], force, answer);
      var job := CancelAsync(jobs[j], force, answer);
      if aborting || !job.forceCancel {
        CancelInPlace(members, phase, j, jobs[j], job);
        Changed(jobs, members, phase, j, job);
        jobs := jobs[j := job];
      } else {
        CancelAtEnd(members, phase, j, jobs[j], job);
        CancelAborts(jobs, members, phase, j, job);
        jobs := jobs[j := job];
        TxnAbort(j, phase.AllPending?);
      }
    }

    /** job_finalize_locked */
    method UserFinalize(j: JobId, prepare: JobId -> int) returns (ok: bool)
      requires Valid() && j in jobs
      modifies this
      ensures Valid() && held == old(held) && jobs.Keys == old(jobs).Keys
      ensures ok <==> old(jobs)[j].status.Pending?
      ensures !ok ==> unchanged(this)
      ensures ok ==> members == [] && FinalizedAs(jobs, j, old(members), prepare)
      ensures ok ==> ((forall m :: m in jobs ==> jobs[m].calls == Calls(1, 0, 1)) <==>
                      forall m :: m in old(members) ==> prepare(m) == 0)
    {
      if !Accepts(jobs[j].status, Finalize) { return false; }
      PendingIsMember(jobs, members, phase, j);
      DoFinalize(j, prepare);
      return true;
    }

    /** job_dismiss_locked */
    method UserDismiss(j: JobId) returns (ok: bool)
      requires Valid() && j in jobs
      modifies this`jobs
      ensures Valid() && (ok <==> old(jobs)[j].status.Concluded?)
      ensures OthersSame(old(jobs), jobs, j) && (!ok ==> jobs == old(jobs))
      ensures ok ==> jobs[j].status.Null? && jobs[j].calls == old(jobs)[j].calls
    {
      if !Accepts(jobs[j].status, Dismiss) { return false; }
      assert PlaceOk(phase, members, j, jobs[j]);
      Store(j, DoDismiss(jobs[j]));
      return true;
    }

    /** job_user_pause_locked */
    method UserPause(j: JobId) returns (ok: bool)
      requires Valid() && j in jobs
      modifies this`jobs
      ensures Valid() && (ok <==> InProgress(old(jobs)[j].status) && !old(jobs)[j].pauses.user)
      ensures OthersSame(old(jobs), jobs, j) && (!ok ==> jobs == old(jobs))
      ensures ok ==>
                var p := old(jobs)[j].pauses;
                OnlyPauses(old(jobs)[j], jobs[j], p.(count := p.count + 1, user := true), !old(jobs)[j].paused)
    {
      if !Accepts(jobs[j].status, Pause) || jobs[j].pauses.user { return false; }
      var p := jobs[j].pauses.(user := true);
      PausesStayOk(jobs, members, phase, j);
      AddPause(j, p);
      return true;
    }

    /** job_user_resume_locked */
    method UserResume(j: JobId, timerPending: bool) returns (ok: bool)
      requires Valid() && j in jobs
      modifies this`jobs
      ensures Valid() && (ok <==> InProgress(old(jobs)[j].status) && old(jobs)[j].pauses.user)
      ensures OthersSame(old(jobs), jobs, j) && (!ok ==> jobs == old(jobs))
      ensures ok ==>
                var p := old(jobs)[j].pauses;
                OnlyPauses(old(jobs)[j], jobs[j], Pauses(p.count - 1, false, p.drains, false),
                           p.count == 1 && !timerPending)
    {
      PausesStayOk(jobs, members, phase, j);
      if !jobs[j].pauses.user || jobs[j].pauses.count <= 0 { return false; }
      if !Accepts(jobs[j].status, Resume) { return false; }
      var p := IostatusReset(jobs[j].pauses).(user := false);
      RemovePause(j, p, timerPending);
      return true;
    }

    /** job_pause_locked, where p has the new reason. */
    method AddPause(j: JobId, p: Pauses)
      requires Valid() && j in jobs && PausesOk(p.(count := p.count + 1), !jobs[j].co.NotStarted?)
      modifies this`jobs
      ensures Valid() && OthersSame(old(jobs), jobs, j)
      ensures OnlyPauses(old(jobs)[j], jobs[j], p.(count := p.count + 1), !old(jobs)[j].paused)
    {
      PausedKeeps(jobs, members, phase, j, p);
      jobs := jobs[j := PausedBy(jobs[j], p)];
    }

    /** job_resume_locked, where p no longer has the reason. */
    method RemovePause(j: JobId, p: Pauses, timerPending: bool)
      requires Valid() && j in jobs && p.count > 0 && PausesOk(p.(count := p.count - 1), !jobs[j].co.NotStarted?)
      modifies this`jobs
      ensures Valid() && OthersSame(old(jobs), jobs, j)
      ensures OnlyPauses(old(jobs)[j], jobs[j], p.(count := p.count - 1), p.count == 1 && !timerPending)
    {
      ResumedKeeps(jobs, members, phase, j, p, timerPending);
      jobs := jobs[j := ResumedBy(jobs[j], p, timerPending)];
    }

    // ------------------------------------------------------------------------
    // Drained sections and I/O errors

    /** child_job_drained_begin */
    method DrainBegin(j: JobId)
      requires Valid() && j in jobs
      modifies this`jobs
      ensures Valid() && OthersSame(old(jobs), jobs, j)
      ensures var p := old(jobs)[j].pauses;
              OnlyPauses(old(jobs)[j], jobs[j], p.(drains := p.drains + 1, count := p.count + 1), !old(jobs)[j].paused)
    {
      PausesStayOk(jobs, members, phase, j);
      var p := jobs[j].pauses.(drains := jobs[j].pauses.drains + 1);
      AddPause(j, p);
    }

    /** child_job_drained_end */
    method DrainEnd(j: JobId, timerPending: bool)
      requires Valid() && j in jobs && jobs[j].pauses.drains > 0
      modifies this`jobs
      ensures Valid() && OthersSame(old(jobs), jobs, j)
      ensures var p := old(jobs)[j].pauses;
              OnlyPauses(old(jobs)[j], jobs[j], p.(drains := p.drains - 1, count := p.count - 1),
                         p.count == 1 && !timerPending)
    {
      var p := jobs[j].pauses.(drains := jobs[j].pauses.drains - 1);
      PausesStayOk(jobs, members, phase, j);
      RemovePause(j, p, timerPending);
    }

    /** block_job_iostatus_set_err_locked */
    method SetIoError(j: JobId)
      requires Valid() && j in jobs && jobs[j].pauses.user
      modifies this`jobs
      ensures Valid() && jobs == old(jobs)[j := old(jobs)[j].(pauses := old(jobs)[j].pauses.(ioError := true))]
    {
      SetErrorKeeps(jobs, members, phase, j);
      jobs := jobs[j := jobs[j].(pauses := jobs[j].pauses.(ioError := true))];
    }

    /** block_job_error_action with BLOCK_ERROR_ACTION_STOP, from within .run */
    method ErrorStop(j: JobId)
      requires Valid() && j in jobs && !jobs[j].co.NotStarted? && !jobs[j].deferred
      modifies this`jobs
      ensures Valid() && OthersSame(old(jobs), jobs, j)
      ensures var p := old(jobs)[j].pauses;
              OnlyPauses(old(jobs)[j], jobs[j], Pauses(if p.user then p.count else p.count + 1, true, p.drains, true),
                         !p.user && !old(jobs)[j].paused)
    {
      PausesStayOk(jobs, members, phase, j);
      if !jobs[j].pauses.user {
        var p := jobs[j].pauses.(user := true);
        AddPause(j, p);
      }
      SetIoError(j);
    }

    // ------------------------------------------------------------------------
    // The coroutine

    /** job_start */
    method Start(j: JobId)
      requires Valid() && j in jobs && jobs[j].co.NotStarted? && jobs[j].status.Created?
      modifies this`jobs
      ensures Valid() && OthersSame(old(jobs), jobs, j)
      ensures var p := old(jobs)[j].pauses;
              jobs[j] == old(jobs)[j].(co := InRun, status := Running, busy := true, paused := false,
                                       pauses := p.(count := p.count - 1))
    {
      assert PlaceOk(phase, members, j, jobs[j]);
      var p := jobs[j].pauses.(count := jobs[j].pauses.count - 1);
      Store(j, Transition(jobs[j].(co := InRun, pauses := p, busy := true, paused := false), Running));
    }

    /** job_pause_point_locked, up to its yield. */
    method PausePoint(j: JobId)
      requires Valid() && j in jobs && jobs[j].co.InRun?
      modifies this`jobs
      ensures Valid() && OthersSame(old(jobs), jobs, j)
      ensures old(jobs)[j].pauses.count == 0 || old(jobs)[j].forceCancel ==> jobs == old(jobs)
      ensures old(jobs)[j].pauses.count > 0 && !old(jobs)[j].forceCancel ==>
                var status := old(jobs)[j].status;
                && (status.Ready? || status.Running?)
                && jobs[j] == old(jobs)[j].(status := if status.Ready? then Standby else Paused,
                                            paused := true, busy := false, co := AtPausePoint(status))
    {
      assert PlaceOk(phase, members, j, jobs[j]);
      var job := jobs[j];
      if job.pauses.count > 0 && !job.forceCancel {
        var stopped := Transition(job, if job.status.Ready? then Standby else Paused);
        Store(j, stopped.(paused := true, busy := false, co := AtPausePoint(job.status)));
      }
    }

    /** job_pause_point_locked, from its yield on: the status is the one before the pause. */
    method PauseReturns(j: JobId)
      requires Valid() && j in jobs && jobs[j].co.AtPausePoint? && jobs[j].busy
      modifies this`jobs
      ensures Valid()
      ensures jobs == old(jobs)[j := old(jobs)[j].(paused := false, co := InRun, status := old(jobs)[j].co.saved)]
    {
      assert PlaceOk(phase, members, j, jobs[j]);
      Store(j, Transition(jobs[j].(paused := false, co := InRun), jobs[j].co.saved));
    }

    /** job_yield and job_sleep_ns, up to their yield. */
    method Sleep(j: JobId)
      requires Valid() && j in jobs && jobs[j].co.InRun?
      modifies this`jobs
      ensures Valid() && OthersSame(old(jobs), jobs, j)
      ensures jobs[j] == if old(jobs)[j].pauses.count == 0 && !old(jobs)[j].forceCancel
                         then old(jobs)[j].(busy := false, co := Asleep) else old(jobs)[j]
    {
      assert PlaceOk(phase, members, j, jobs[j]);
      if !jobs[j].forceCancel && jobs[j].pauses.count <= 0 {
        Store(j, jobs[j].(busy := false, co := Asleep));
      }
    }

    method SleepReturns(j: JobId)
      requires Valid() && j in jobs && jobs[j].co.Asleep? && jobs[j].busy
      modifies this`jobs
      ensures Valid() && jobs == old(jobs)[j := old(jobs)[j].(co := InRun)]
    {
      assert PlaceOk(phase, members, j, jobs[j]);
      Store(j, jobs[j].(co := InRun));
    }

    /** job_enter, by a timer, by a driver, or while the abort waits for the job. */
    method Wake(j: JobId)
      requires Valid() && j in jobs
      modifies this`jobs
      ensures Valid() && OthersSame(old(jobs), jobs, j)
      ensures OnlyPauses(old(jobs)[j], jobs[j], old(jobs)[j].pauses, true)
    {
      assert PlaceOk(phase, members, j, jobs[j]);
      Store(j, Enter(jobs[j]));
    }

    /** job_transition_to_ready; drivers call it at most once, from running. */
    method ToReady(j: JobId)
      requires Valid() && j in jobs && jobs[j].co.InRun? && jobs[j].status.Running?
      modifies this`jobs
      ensures Valid() && jobs == old(jobs)[j := old(jobs)[j].(status := Ready)]
    {
      assert PlaceOk(phase, members, j, jobs[j]);
      Store(j, Transition(jobs[j], Ready));
    }

    /** The end of job_co_entry: .run has returned. */
    method RunReturns(j: JobId, ret: int)
      requires Valid() && j in jobs && jobs[j].co.InRun?
      modifies this`jobs
      ensures Valid() && jobs == old(jobs)[j := old(jobs)[j].(ret := ret, deferred := true, co := Returned)]
    {
      assert PlaceOk(phase, members, j, jobs[j]);
      Store(j, jobs[j].(ret := ret, deferred := true, busy := true, co := Returned));
    }

    method Store(j: JobId, job: Job)
      requires Valid() && j in jobs && PlaceOk(phase, members, j, job)
      modifies this`jobs
      ensures Valid() && jobs == old(jobs)[j := job]
    {
      Changed(jobs, members, phase, j, job);
      jobs := jobs[j := job];
    }

    /**
     * Between events, every pause has a source: the start that has not happened
     * yet, the user or an I/O error, and the drained sections.
     */
    lemma PausesHaveSources(j: JobId)
      requires Valid() && j in jobs
      ensures var p := jobs[j].pauses;
              && p.count == (if jobs[j].co.NotStarted? then 1 else 0) + (if p.user then 1 else 0) + p.drains
              && (p.ioError ==> p.user)
    {
      PausesStayOk(jobs, members, phase, j);
    }

    // ------------------------------------------------------------------------
    // Membership

    /** job_create with this transaction, before any member is started. */
    method Create(j: JobId, autoFinalize: bool, autoDismiss: bool)
      requires Valid() && j !in jobs && phase.Working? && NoneStarted(jobs)
      modifies this`jobs, this`members, this`refcnt
      ensures Valid() && members == [j] + old(members) && NoneStarted(jobs)
      ensures jobs == old(jobs)[j := NewJob(autoFinalize, autoDismiss)]
      ensures jobs[j].autoFinalize == autoFinalize && jobs[j].autoDismiss == autoDismiss
      ensures jobs[j].status.Created? && jobs[j].co.NotStarted? && jobs[j].paused && jobs[j].pauses.count == 1
    {
      var job := NewJob(autoFinalize, autoDismiss);
      MemberJoins(jobs, members, j, job);
      jobs, members, refcnt := jobs[j := job], [j] + members, refcnt + 1;
    }

    /** job_early_fail: a job whose creation could not be finished; the transaction has not failed. */
    method EarlyFail(j: JobId)
      requires Valid() && !aborting && j in jobs && jobs[j].status.Created?
      modifies this`jobs, this`members, this`refcnt
      ensures Valid() && jobs == old(jobs) - {j} && refcnt == old(refcnt) - 1
      ensures exists k :: 0 <= k < |old(members)| && old(members)[k] == j
                && members == old(members)[..k] + old(members)[k + 1..]
    {
      assert Allowed(jobs[j].status, Null);
      CreatedIsMember(jobs, members, phase, j);
      var k :| 0 <= k < |members| && members[k] == j;
      MemberVanishes(jobs, members, k);
      jobs, members, refcnt := jobs - {j}, members[..k] + members[k + 1..], refcnt - 1;
    }

    /** job_txn_unref by the creator. */
    method Release()
      requires Valid() && held
      modifies this`held, this`refcnt
      ensures Valid() && !held && refcnt == old(refcnt) - 1
    {
      held, refcnt := false, refcnt - 1;
    }
  }

  // --------------------------------------------------------------------------
  // A transaction that is neither committed nor aborted as a whole

  /** A job as created for manual finalization, and then as started, and as returned with success. */
  function Manual(co: Co, status: Status): Job {
    NewJob(false, false).(co := co, status := status, busy := co.InRun? || co.Returned?, paused := co.NotStarted?,
                          deferred := co.Returned?, pauses := Pauses(if co.NotStarted? then 1 else 0, false, 0, false))
  }

  /** Two jobs of one transaction, both of which have returned with success. */
  method TwoReturned() returns (t: JobTxn)
    ensures fresh(t) && t.Valid() && t.members == [0, 1] && t.phase.Working?
    ensures t.jobs == map[0 := Manual(Returned, Running), 1 := Manual(Returned, Running)]
  {
    t := TwoStarted();
    t.RunReturns(0, 0);
    t.RunReturns(1, 0);
  }

  method TwoStarted() returns (t: JobTxn)
    ensures fresh(t) && t.Valid() && t.members == [0, 1] && t.phase.Working?
    ensures t.jobs == map[0 := Manual(InRun, Running), 1 := Manual(InRun, Running)]
  {
    t := new JobTxn();
    t.Create(1, false, false);
    t.Create(0, false, false);
    assert t.jobs == map[0 := Manual(NotStarted, Created), 1 := Manual(NotStarted, Created)];
    t.Start(0);
    t.Start(1);
  }

  method TwoPending(prepare: JobId -> int) returns (t: JobTxn)
    ensures fresh(t) && t.Valid() && t.members == [0, 1] && t.phase.AllPending?
  {
    t := TwoReturned();
    ghost var jobs0 := t.jobs;
    assert 1 in t.members && !IsCompleted(jobs0[1].status);
    t.Exit(0, prepare);
    assert t.jobs == map[0 := Waits(Manual(Returned, Running)), 1 := Manual(Returned, Running)];
    t.Exit(1, prepare);
  }

  /** The second of two jobs cannot be prepared when the first is told to finalize: one commits, one aborts. */
  method InitiatorCommitsAlone() returns (t: JobTxn)
    ensures t.Valid() && t.members == [] && 0 in t.jobs && 1 in t.jobs
    ensures t.jobs[0].calls == Calls(1, 0, 1) && t.jobs[1].calls == Calls(0, 1, 1)
  {
    var prepare := (m: JobId) => if m == 1 then -5 else 0;
    t := TwoPending(prepare);
    PendingPrepares(t.jobs, t.members, 0, 0);
    assert FirstToFail([0, 1], prepare, 1);
    var _ := t.UserFinalize(0, prepare);
  }
}
