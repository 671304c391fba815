/** Background jobs: life cycle, pausing, cancelling and transactions (`qemu/job.c`,
    `qemu/blockjob.c`).  The job lock is held throughout, but for the callback in `UserResume`;
    driver callbacks are answers that a method is given, they do not call back into this
    interface. */
module Jobs {

  import opened Wrappers
  import opened JobState
  import opened JobWindow

  class JobManager {
    var jobs: map<JobId, Job>                 // all jobs that have not been freed
    var members: map<TxnId, seq<JobId>>       // txn->jobs
    var aborting: set<TxnId>                  // transactions with txn->aborting set

    ghost var drains: map<JobId, nat>
    ghost var holds: multiset<JobId>
    ghost var log: Log

    ghost function Now(): Snap
      reads this
    {
      Snap(jobs, members, aborting, drains, holds, log)
    }

    ghost predicate Valid()
      reads this
    {
      Inv(Now())
    }

    constructor ()
      ensures Valid() && jobs == map[] && members == map[] && aborting == {} && log == map[]
    {
      jobs, members, aborting := map[], map[], {};
      drains, holds, log := map[], multiset{}, map[];
    }

    // -------------------------------------------------------------------------
    // The job's coroutine
    // -------------------------------------------------------------------------

    /** `job_start`. */
    method Start(j: JobId)
      requires Valid() && j in jobs && jobs[j].status == Created
      modifies `jobs
      ensures Valid() && jobs == old(jobs)[j := Started(old(jobs)[j])]
      ensures InCoroutine(jobs[j]) && jobs[j].status == Running
    {
      hide Inv;
      JobFacts(Now(), j);
      assert !jobs[j].started && jobs[j].paused;
      assert Allowed(jobs[j].status, Running);
      SetJobInv(Now(), j, Started(jobs[j]));
      jobs := jobs[j := Started(jobs[j])];
    }

    /** `job_pause_point_locked` up to its yield: the job rests if there is a reason to pause and
        it is not cancelled. */
    method PausePoint(j: JobId)
      requires Valid() && j in jobs && InCoroutine(jobs[j])
      modifies `jobs
      ensures Stable(old(Now()), Now())
      ensures Valid() && jobs == old(jobs)[j := AtPausePoint(old(jobs)[j])]
      ensures Resting(jobs[j].status) <==> old(jobs)[j].pauseCount > 0 && !old(jobs)[j].forceCancel
      ensures Resting(jobs[j].status) ==>
                !jobs[j].busy && (jobs[j].status == Standby <==> old(jobs)[j].status == Ready)
      ensures !Resting(jobs[j].status) ==> jobs[j] == old(jobs)[j]
    {
      hide Stable;
      hide Inv;
      JobFacts(Now(), j);
      assert WillPause(jobs[j]) ==> Allowed(jobs[j].status, AtPausePoint(jobs[j]).status);
      SetJobInv(Now(), j, AtPausePoint(jobs[j]));
      jobs := jobs[j := AtPausePoint(jobs[j])];
    }

    /** The rest of `job_pause_point_locked`, when the resting coroutine has been entered again. */
    method AfterPause(j: JobId)
      requires Valid() && j in jobs && Resting(jobs[j].status) && jobs[j].busy
      modifies `jobs
      ensures Stable(old(Now()), Now())
      ensures Valid() && jobs == old(jobs)[j := Rested(old(jobs)[j])] && InCoroutine(jobs[j])
      ensures jobs[j].status == Ready <==> old(jobs)[j].status == Standby
    {
      hide Stable;
      hide Inv;
      JobFacts(Now(), j);
      assert Allowed(jobs[j].status, Rested(jobs[j]).status);
      SetJobInv(Now(), j, Rested(jobs[j]));
      jobs := jobs[j := Rested(jobs[j])];
    }

    /** `job_yield` and `job_sleep_ns` up to their yield. */
    method Sleep(j: JobId)
      requires Valid() && j in jobs && InCoroutine(jobs[j])
      modifies `jobs
      ensures Stable(old(Now()), Now())
      ensures Valid() && jobs == old(jobs)[j := Asleep(old(jobs)[j])]
      ensures jobs[j] == old(jobs)[j].(busy := old(jobs)[j].forceCancel || old(jobs)[j].pauseCount > 0)
    {
      hide Stable;
      hide Inv;
      JobFacts(Now(), j);
      SetJobInv(Now(), j, Asleep(jobs[j]));
      jobs := jobs[j := Asleep(jobs[j])];
    }

    /** `job_enter`. */
    method Enter(j: JobId)
      requires Valid() && j in jobs
      modifies `jobs
      ensures Stable(old(Now()), Now())
      ensures Valid() && jobs == old(jobs)[j := Entered(old(jobs)[j], true)]
      ensures jobs[j].busy <==> old(jobs)[j].busy || (old(jobs)[j].started && !old(jobs)[j].deferred)
    {
      hide Stable;
      hide Inv;
      JobFacts(Now(), j);
      SetJobInv(Now(), j, Entered(jobs[j], true));
      jobs := jobs[j := Entered(jobs[j], true)];
    }

    /** `job_transition_to_ready`, which a driver calls at most once. */
    method TransitionToReady(j: JobId)
      requires Valid() && j in jobs && InCoroutine(jobs[j]) && jobs[j].status == Running
      modifies `jobs
      ensures Stable(old(Now()), Now())
      ensures Valid() && jobs == old(jobs)[j := NowReady(old(jobs)[j])]
      ensures jobs[j] == old(jobs)[j].(status := Ready)
    {
      hide Stable;
      hide Inv;
      JobFacts(Now(), j);
      assert Allowed(jobs[j].status, Ready);
      SetJobInv(Now(), j, NowReady(jobs[j]));
      jobs := jobs[j := NowReady(jobs[j])];
    }

    /** The end of `job_co_entry`: the driver's run callback has returned. */
    method RunReturns(j: JobId, ret: int)
      requires Valid() && j in jobs && InCoroutine(jobs[j])
      modifies `jobs
      ensures Stable(old(Now()), Now())
      ensures Valid() && jobs == old(jobs)[j := Returned(old(jobs)[j], ret)]
      ensures jobs[j] == old(jobs)[j].(ret := ret, deferred := true, busy := true)
    {
      hide Stable;
      hide Inv;
      JobFacts(Now(), j);
      SetJobInv(Now(), j, Returned(jobs[j], ret));
      jobs := jobs[j := Returned(jobs[j], ret)];
    }

    // -------------------------------------------------------------------------
    // Pausing
    // -------------------------------------------------------------------------

    /** `child_job_drained_begin`, that is `job_pause`. */
    method DrainedBegin(j: JobId)
      requires Valid() && j in jobs
      modifies `jobs, `drains
      ensures Stable(old(Now()), Now())
      ensures Valid() && j in old(drains)
      ensures Now() == WithJob(old(Now()), j, PauseMore(old(jobs)[j]), old(drains)[j] + 1)
      ensures jobs[j].pauseCount == old(jobs)[j].pauseCount + 1
      ensures AtWork(jobs[j].status) && !jobs[j].deferred ==> InCoroutine(jobs[j])
    {
      hide Stable;
      hide Inv;
      JobFacts(Now(), j);
      StandingInv(Now(), j, PauseMore(jobs[j]), drains[j] + 1);
      jobs := jobs[j := PauseMore(jobs[j])];
      drains := drains[j := drains[j] + 1];
    }

    /** `child_job_drained_end`, that is `job_resume`. */
    method DrainedEnd(j: JobId, idle: bool)
      requires Valid() && j in jobs && j in drains && drains[j] > 0
      modifies `jobs, `drains
      ensures Stable(old(Now()), Now())
      ensures Valid() && Now() == WithJob(old(Now()), j, PauseLess(old(jobs)[j], idle), old(drains)[j] - 1)
      ensures jobs[j].pauseCount == old(jobs)[j].pauseCount - 1
      ensures Resting(jobs[j].status) && idle && jobs[j].pauseCount == 0 ==> jobs[j].busy
      ensures jobs[j].busy ==> old(jobs)[j].busy || (idle && jobs[j].pauseCount == 0)
    {
      hide Stable;
      hide Inv;
      JobFacts(Now(), j);
      assert jobs[j].pauseCount > 0;
      StandingInv(Now(), j, PauseLess(jobs[j], idle), drains[j] - 1);
      jobs := jobs[j := PauseLess(jobs[j], idle)];
      drains := drains[j := drains[j] - 1];
    }

    /** `job_user_pause_locked`. */
    method UserPause(j: JobId) returns (ok: bool)
      requires Valid() && j in jobs
      modifies `jobs
      ensures Valid() && (ok <==> !Completed(old(jobs)[j].status) && !old(jobs)[j].userPaused)
      ensures jobs == if ok then old(jobs)[j := UserPaused(old(jobs)[j])] else old(jobs)
      ensures ok ==> jobs[j].userPaused && jobs[j].pauseCount == old(jobs)[j].pauseCount + 1
      ensures ok && AtWork(old(jobs)[j].status) && !old(jobs)[j].deferred ==> InCoroutine(jobs[j])
    {
      hide Inv;
      JobFacts(Now(), j);
      if !Accepts(Pause, jobs[j].status) || jobs[j].userPaused {
        return false;
      }
      SetJobInv(Now(), j, UserPaused(jobs[j]));
      jobs := jobs[j := UserPaused(jobs[j])];
      ok := true;
    }

    /** `job_user_resume_locked`.  While the driver's callback runs, the lock is not held and the job
        becomes `j2`.  All is in order afterwards exactly if no error has stopped the job since the
        callback reset its iostatus. */
    method UserResume(j: JobId, idle: bool, ghost before: seq<Step>, ghost j1: Job, ghost d1: nat,
                      ghost after: seq<Step>, j2: Job, ghost d2: nat) returns (ok: bool)
      requires Valid() && j in jobs && j in drains
      requires jobs[j].userPaused && !Completed(jobs[j].status) ==>
                 Window(jobs[j], drains[j], before, j1, d1, after, j2, d2)
      modifies `jobs, `drains
      ensures ok <==> old(jobs)[j].userPaused && !Completed(old(jobs)[j].status)
      ensures Now() == if ok then WithJob(old(Now()), j, ResumeEnd(j2, idle), d2) else old(Now())
      ensures Valid() <==> !ok || ErrorStop !in after
    {
      hide Inv;
      hide Window;
      JobFacts(Now(), j);
      if !jobs[j].userPaused || jobs[j].pauseCount <= 0 || !Accepts(Resume, jobs[j].status) {
        return false;
      }
      WindowStanding(jobs[j], drains[j], holds[j], log[j], before, j1, d1, after, j2, d2);
      WindowAsserts(jobs[j], drains[j], holds[j], log[j], before, j1, d1, after, j2, d2);
      ResumeIff(jobs[j], drains[j], holds[j], log[j], before, j1, d1, after, j2, d2, idle);
      assert j2.pauseCount > 0;
      if ErrorStop !in after {
        StandingInv(Now(), j, ResumeEnd(j2, idle), d2);
      }
      jobs := jobs[j := ResumeEnd(j2, idle)];
      drains := drains[j := d2];
      if Valid() {
        JobFacts(Now(), j);
      }
      ok := true;
    }

    /** `block_job_error_action` with the action to stop the job. */
    method ErrorAction(j: JobId)
      requires Valid() && j in jobs
      modifies `jobs
      ensures Stable(old(Now()), Now())
      ensures Valid() && jobs == old(jobs)[j := ErrorStopped(old(jobs)[j])]
      ensures jobs[j].userPaused && !jobs[j].ioOk
      ensures jobs[j].pauseCount == old(jobs)[j].pauseCount + (if old(jobs)[j].userPaused then 0 else 1)
    {
      hide Stable;
      hide Inv;
      JobFacts(Now(), j);
      SetJobInv(Now(), j, ErrorStopped(jobs[j]));
      jobs := jobs[j := ErrorStopped(jobs[j])];
    }

    /** `block_job_iostatus_reset_locked`. */
    method IostatusReset(j: JobId)
      requires Valid() && j in jobs
      modifies `jobs
      ensures Valid() && jobs == old(jobs)[j := IoReset(old(jobs)[j])]
      ensures jobs[j] == old(jobs)[j].(ioOk := true)
    {
      hide Inv;
      JobFacts(Now(), j);
      assert jobs[j].ioOk || (jobs[j].userPaused && jobs[j].pauseCount > 0);
      SetJobInv(Now(), j, IoReset(jobs[j]));
      jobs := jobs[j := IoReset(jobs[j])];
    }

    // -------------------------------------------------------------------------
    // Completion
    // -------------------------------------------------------------------------

    /** `job_ref_locked`. */
    method Ref(j: JobId)
      requires Valid() && j in jobs
      modifies this
      ensures Valid() && Now() == Held(old(Now()), j)
    {
      hide Inv;
      HeldInv(Now(), j);
      jobs := jobs[j := jobs[j].(refcnt := jobs[j].refcnt + 1)];
      holds := holds + multiset{j};
    }

    /** `job_unref_locked`, by a holder that is not the first one: a job is freed only in status
        NULL and outside of any transaction. */
    method Unref(j: JobId) returns (freed: bool)
      requires Valid() && j in holds
      modifies this
      ensures j in old(jobs) && Valid() && Now() == Released(old(Now()), j)
      ensures freed <==> j !in jobs
      ensures freed ==> old(jobs)[j].status == Null && old(jobs)[j].txn == None
    {
      hide Inv;
      ReleasedInv(Now(), j);
      freed := jobs[j].refcnt == 1;
      if freed {
        assert jobs[j].status == Null && jobs[j].txn == None;
        jobs := jobs - {j};
      } else {
        jobs := jobs[j := jobs[j].(refcnt := jobs[j].refcnt - 1)];
      }
      holds := holds - multiset{j};
    }

    /** `job_finalize_single_locked`. */
    method FinalizeOne(j: JobId)
      requires Base(Now()) && j in jobs && jobs[j].txn.Some? && Completed(jobs[j].status)
      requires Doomed(jobs[j]) || jobs[j].status == Pending
      modifies this
      ensures j in old(log) && Base(Now()) && Now() == FinalizeSingle(old(Now()), j)
      ensures log == old(log)[j := old(log)[j] +
                                   (if Doomed(old(jobs)[j]) then [Aborted, Cleaned] else [Committed, Cleaned])]
      ensures j in jobs ==> jobs[j].txn == None && (jobs[j].ret != 0 <==> Doomed(old(jobs)[j]))
      ensures j in jobs && old(jobs)[j].ret != 0 ==> jobs[j].ret == old(jobs)[j].ret
      ensures j in jobs && old(jobs)[j].ret == 0 && old(jobs)[j].forceCancel ==> jobs[j].ret == -ECANCELED
      ensures j in jobs && jobs[j].status == Null ==> jobs[j].deferred && !jobs[j].busy && !jobs[j].paused
      ensures j in jobs ==> (jobs[j].status == Concluded <==> old(jobs)[j].started && !old(jobs)[j].autoDismiss)
    {
      hide Base;
      FinalizeSingleOk(Now(), j);
      FinalizeAllowed(Now(), j);
      assert Doomed(jobs[j]) ==> Allowed(jobs[j].status, Aborting);
      assert Allowed(UpdateRc(jobs[j]).status, Concluded) && Allowed(Concluded, Null);
      log := log[j := log[j] + Verdict(Rc(jobs[j]))];   // commit or abort, and clean
      members := TxnDel(members, j, jobs[j].txn);
      jobs := Store(jobs, j, Finalized(jobs[j]));
    }

    /** The first loop of `job_completed_txn_abort_locked`. */
    method CancelOthersAsync(j: JobId, t: TxnId)
      requires Base(Now()) && t in members
      modifies `jobs
      ensures jobs == CancelOthers(old(jobs), members[t], j)
    {
      hide Base;
      hide CancelOthers;
      var ms := members[t];
      BaseDistinct(Now(), t);
      assert jobs == CancelOthers(jobs, ms[..0], j) by { CancelNone(jobs, j); }
      for i := 0 to |ms|
        invariant jobs == CancelOthers(old(jobs), ms[..i], j)
      {
        CancelNext(old(jobs), ms, i, j);
        BaseFacts(old(Now()), t, ms[i]);
        if ms[i] != j {
          assert jobs[ms[i]].userPaused ==> jobs[ms[i]].pauseCount > 0;
          jobs := jobs[ms[i] := CancelAsync(jobs[ms[i]], true)];
        }
      }
      assert ms[..|ms|] == ms;
    }

    /** One round of the second loop of `job_completed_txn_abort_locked`. */
    method AbortFirst(j: JobId, prepare: JobId -> int, t: TxnId, ghost held: Snap, ghost doomed: bool,
                      ghost log0: Log, ghost ms: seq<JobId>, ghost n: nat)
      requires AbortLoop(held, Now(), j, t, doomed) && t in members && n < |ms| && members[t] == ms[n..]
      requires Verdicts(log0, log, ms, n, j, doomed) && AllThrough(Now(), ms, n) && Distinct(ms)
      modifies this
      ensures AbortLoop(held, Now(), j, t, doomed) && t in members && members[t] == ms[n + 1..]
      ensures Verdicts(log0, log, ms, n + 1, j, doomed) && AllThrough(Now(), ms, n + 1)
      decreases |Incomplete(Now())|, 6
    {
      hide AbortLoop;
      hide Verdicts;
      hide AllThrough;
      hide Stable;
      hide Inv;
      hide Base;
      hide FinalizeSingle;
      var m := members[t][0];
      assert m == ms[n];
      LoopMember(held, Now(), j, t, doomed, m);
      if !Completed(jobs[m].status) {
        assert jobs[m].cancelled;
        ghost var before := Now();
        LoopInv(held, before, j, t);
        LoopSet(held, before, j, t, doomed);
        FinishSync(m, prepare, t);
        LoopWaits(held, before, Now(), j, t);
        VerdictsWait(log0, before, Now(), t, ms, n, j, doomed);
        LoopMember(held, Now(), j, t, doomed, m);
      }
      LoopFinalizes(held, Now(), j, t, doomed, m);
      LoopBase(held, Now(), j, t, doomed);
      VerdictsNext(log0, Now(), ms, n, j, doomed);
      RemoveFirst(members[t]);
      FinalizeOne(m);
    }

    /** `job_completed_txn_abort_locked`.  If the transaction is not being aborted already, every
        member is finalized: aborted and cleaned, but for a job that is neither cancelled nor
        failed and only learnt of the failure of another one. */
    method TxnAbort(j: JobId, prepare: JobId -> int, ghost t: TxnId)
      requires Base(Now()) && OthersOk(Now(), Some(t)) && j in jobs && jobs[j].txn == Some(t) && t in members
      requires if t in aborting then AbortingOk(Now(), t) else MayAbort(Now(), j, t)
      modifies this
      ensures Valid() && Stable(old(Now()), Now())
      ensures t in old(aborting) ==> Now() == old(Now())
      ensures t !in old(aborting) ==>
                t in members && members[t] == [] && AllThrough(Now(), old(members[t]), |old(members[t])|)
      ensures t !in old(aborting) ==>
                Verdicts(old(log), log, old(members[t]), |old(members[t])|, j, Doomed(old(jobs)[j]))
      decreases |Incomplete(Now())|, 7
    {
      hide Base;
      hide OthersOk;
      hide MayAbort;
      hide AbortingOk;
      hide AbortLoop;
      hide Verdicts;
      hide AllThrough;
      hide Stable;
      hide Inv;
      hide Incomplete;
      hide CancelOthers;
      var txn := jobs[j].txn.value;
      if txn in aborting {
        AllInOrder(Now(), t);
        StableRefl(Now());
        return;
      }
      ghost var doomed, held, ms := Doomed(jobs[j]), Held(Now(), j), members[txn];
      HeldMayAbort(Now(), j, t);
      HoldIncomplete(Now(), j);
      LoopStarts(held, j, t);
      BaseDistinct(held, t);
      VerdictsStart(log, BeginAbort(held, j, t), ms, j, doomed);
      BeginTxnAbort(j, txn);
      ghost var n := 0;
      while members[txn] != []
        invariant AbortLoop(held, Now(), j, t, doomed) && txn in members && n <= |ms| && members[txn] == ms[n..]
        invariant Verdicts(old(log), log, ms, n, j, doomed) && AllThrough(Now(), ms, n)
        decreases |ms| - n
      {
        LoopBase(held, Now(), j, t, doomed);
        AbortFirst(j, prepare, txn, held, doomed, old(log), ms, n);
        n := n + 1;
      }
      LoopEnds(held, Now(), j, t, doomed);
      LoopBase(held, Now(), j, t, doomed);
      HeldStable(old(Now()), Now(), j);
      ThroughReleased(Now(), ms, j);
      var freed := Unref(j);
    }

    /** `job_completed_txn_abort_locked` for a job that failed or was cancelled, if member `m` of its
        transaction has never been started: after any number of rounds of its loop, in which the event
        loop may do whatever it does, the loop has not come to its end and still waits for `m`. */
    method TxnAbortHangs(j: JobId, prepare: JobId -> int, t: TxnId, ghost m: JobId, rounds: nat)
      requires Base(Now()) && OthersOk(Now(), Some(t)) && Aborts(Now(), j, t) && t !in aborting && Doomed(jobs[j])
      requires m in members[t] && m in jobs && m != j && jobs[m].status == Created
      modifies this
      ensures Stuck(Now(), t, m) && t in members && members[t] != []
    {
      hide Base;
      hide OthersOk;
      hide Aborts;
      hide Stuck;
      hide BeginAbort;
      AbortsTxnOf(Now(), j, t);
      HeldAborts(Now(), j, t);
      StuckStarts(Held(Now(), j), j, t, m);
      BeginTxnAbort(j, t);
      AbortRounds(prepare, t, m, rounds);
      StuckList(Now(), t, m);
    }

    /** The beginning of `job_completed_txn_abort_locked`. */
    method BeginTxnAbort(j: JobId, t: TxnId)
      requires Base(Now()) && j in jobs && t in members
      modifies this
      ensures Now() == BeginAbort(Held(old(Now()), j), j, t)
    {
      hide Base;
      hide CancelOthers;
      HeldBase(Now(), j);
      jobs := jobs[j := jobs[j].(refcnt := jobs[j].refcnt + 1)];
      holds := holds + multiset{j};
      CancelOthersAsync(j, t);
      aborting := aborting + {t};
    }

    /** Rounds of its loop, while member `m` is not started. */
    method AbortRounds(prepare: JobId -> int, t: TxnId, ghost m: JobId, rounds: nat)
      requires Stuck(Now(), t, m)
      modifies this
      ensures Stuck(Now(), t, m)
    {
      hide Stuck;
      hide Base;
      hide Stable;
      hide Inv;
      hide FinalizeSingle;
      for i := 0 to rounds
        invariant Stuck(Now(), t, m)
      {
        StuckList(Now(), t, m);
        AbortRound(members[t][0], prepare, t, m);
      }
    }

    method AbortRound(k: JobId, prepare: JobId -> int, ghost t: TxnId, ghost m: JobId)
      requires Stuck(Now(), t, m) && t in members && k in members[t]
      modifies this
      ensures Stuck(Now(), t, m)
    {
      hide Stuck;
      hide Base;
      hide Stable;
      hide Inv;
      hide FinalizeSingle;
      ghost var before := Now();
      StuckList(before, t, m);
      StuckFacts(before, t, m, k);
      if Completed(jobs[k].status) {
        StuckFinalizes(before, t, m, k);
        FinalizeOne(k);
      } else {
        Poll(prepare);                    // job_finish_sync_locked
        StuckWaits(before, Now(), t, m);
      }
    }

    /** `job_prepare_locked` for all members: the index of the first that fails, if any. */
    method PrepareAll(t: TxnId, prepare: JobId -> int) returns (failed: bool, ghost f: nat)
      requires t in members && Base(Now()) && OthersOk(Now(), Some(t)) && AllPending(Now(), t)
      modifies this
      ensures f <= |old(members[t])| && (failed <==> f < |old(members[t])|)
      ensures forall k :: 0 <= k < f ==> prepare(old(members[t])[k]) == 0
      ensures failed ==> prepare(old(members[t])[f]) != 0 && old(members[t])[f] in old(jobs)
      ensures failed ==> var m := old(members[t])[f];
                         m in jobs && jobs[m] == old(jobs)[m].(ret := prepare(m), status := Aborting)
      ensures Now() ==
                if failed then AfterFailure(old(Now()), t, f, prepare) else AfterPrepare(old(Now()), t, f, prepare)
    {
      hide Base;
      hide OthersOk;
      hide AllPending;
      hide PreparedLog;
      var ms := members[t];
      f := 0;
      BaseDistinct(Now(), t);
      if ms != [] { PreparedNext(log, ms, 0, prepare); } else { PreparedNone(log, prepare); }
      for i := 0 to |ms|
        invariant f == i && Now() == AfterPrepare(old(Now()), t, i, prepare)
        invariant forall k :: 0 <= k < i ==> prepare(ms[k]) == 0
      {
        PendingMember(old(Now()), t, ms[i]);
        PreparedNext(old(log), ms, i, prepare);
        var rc := prepare(ms[i]);
        log := log[ms[i] := log[ms[i]] + [Prepared(rc)]];
        if rc != 0 {
          assert Allowed(jobs[ms[i]].status, Aborting);
          jobs := jobs[ms[i] := PrepareFailed(jobs[ms[i]], rc)];
          return true, f;
        }
        f := f + 1;
      }
      failed := false;
    }

    /** The second half of `job_do_finalize_locked` when all have prepared. */
    method CommitAll(t: TxnId, ghost s0: Snap)
      requires t in members && Base(s0) && OthersOk(s0, Some(t)) && AllPending(s0, t)
      requires members == s0.members && jobs == s0.jobs
      requires aborting == s0.aborting && Base(Now()) && OthersOk(Now(), Some(t)) && Stable(s0, Now())
      modifies this
      ensures Valid() && Stable(s0, Now()) && t in members && members[t] == []
      ensures Commits(old(log), log, s0.members[t], |s0.members[t]|)
    {
      hide Base;
      hide OthersOk;
      hide AllPending;
      hide CommitLoop;
      hide Commits;
      hide Stable;
      hide Inv;
      hide FinalizeSingle;
      var ms := members[t];
      CommitStarts(s0, Now(), t);
      BaseDistinct(Now(), t);
      for i := 0 to |ms|
        invariant CommitLoop(s0, Now(), t, ms, i) && Commits(old(log), log, ms, i)
      {
        CommitMember(s0, Now(), t, ms, i);
        CommitNext(s0, Now(), t, ms, i);
        CommitsNext(old(log), Now(), ms, i);
        FinalizeOne(ms[i]);
      }
      CommitEnds(s0, Now(), t, ms);
      SameKeys(s0, Now());
    }

    /** `job_do_finalize_locked`.  If all prepare callbacks succeed then all members commit.  If
        one fails then all members abort, but for the driving job `j` if it is another one. */
    method DoFinalize(j: JobId, prepare: JobId -> int, ghost t: TxnId) returns (ghost f: nat)
      requires Valid() && j in jobs && jobs[j].status == Pending && jobs[j].txn == Some(t)
      requires t in members && t !in aborting
      modifies this
      ensures Valid() && Stable(old(Now()), Now()) && t in members && members[t] == []
      ensures f <= |old(members[t])| && forall k :: 0 <= k < f ==> prepare(old(members[t])[k]) == 0
      ensures f < |old(members[t])| ==> prepare(old(members[t])[f]) != 0
      ensures FinalizeLog(log, old(members[t]), f, j, prepare)
      decreases |Incomplete(Now())|, 8
    {
      hide Base;
      hide OthersOk;
      hide AllPending;
      hide AfterPrepare;
      hide AfterFailure;
      hide MayAbort;
      hide Verdicts;
      hide Commits;
      hide FinalizeLog;
      hide Stable;
      hide Incomplete;
      ghost var s0 := Now();
      PendingTogether(s0, j, t);
      Parts(s0, t);
      TxnOf(s0, j);
      BaseDistinct(s0, t);
      var txn := jobs[j].txn.value;
      var failed;
      failed, f := PrepareAll(txn, prepare);
      if failed {
        AfterFailureOk(s0, j, t, f, prepare);
        FailureFacts(s0, t, f, prepare);
        StableCount(s0, Now());
        ghost var s1 := Now();
        TxnAbort(j, prepare, t);
        StableTransitive(s0, s1, Now());
        AbortLog(s0, log, t, f, j, prepare);
      } else {
        AfterPrepareOk(s0, t, f, prepare);
        PrepareFacts(s0, t, f, prepare);
        CommitAll(txn, s0);
        CommitLog(s0, log, t, j, prepare);
      }
    }

    /** The loop over the members in `job_completed_txn_success_locked`. */
    method AllCompleted(t: TxnId) returns (all: bool)
      requires t in members && forall m :: m in members[t] ==> m in jobs
      requires forall m :: m in members[t] && m in jobs && Completed(jobs[m].status) ==> jobs[m].ret == 0
      ensures all <==> forall m :: m in members[t] && m in jobs ==> Completed(jobs[m].status)
    {
      var ms := members[t];
      for i := 0 to |ms|
        invariant forall k :: 0 <= k < i ==> Completed(jobs[ms[k]].status)
      {
        if !Completed(jobs[ms[i]].status) {
          assert ms[i] in members[t];
          return false;
        }
        assert jobs[ms[i]].ret == 0;
      }
      all := true;
    }

    /** `job_transition_to_pending_locked` for all members; the result tells whether some member
        asks for a manual finalize. */
    method AllToPending(t: TxnId) returns (manual: bool)
      requires t in members && Base(Now()) && AllWaiting(Now(), t)
      modifies `jobs
      ensures jobs == MakePending(old(jobs), members[t])
      ensures manual <==> exists m :: m in members[t] && m in old(jobs) && !old(jobs)[m].autoFinalize
    {
      hide Base;
      hide MakePending;
      var ms := members[t];
      BaseDistinct(Now(), t);
      manual := false;
      if ms != [] { PendingNext(jobs, ms, 0); } else { PendingNone(jobs); }
      for i := 0 to |ms|
        invariant jobs == MakePending(old(jobs), ms[..i])
        invariant manual <==> exists k :: 0 <= k < i && !old(jobs)[ms[k]].autoFinalize
      {
        PendingNext(old(jobs), ms, i);
        assert Allowed(jobs[ms[i]].status, Pending);
        manual := manual || !jobs[ms[i]].autoFinalize;
        jobs := jobs[ms[i] := jobs[ms[i]].(status := Pending)];
      }
      assert ms[..|ms|] == ms;
      assert manual <==> exists k :: 0 <= k < |ms| && !old(jobs)[ms[k]].autoFinalize;
    }

    /** `job_completed_txn_success_locked`. */
    method TxnSuccess(j: JobId, prepare: JobId -> int, ghost t: TxnId) returns (ghost done: bool, ghost f: nat)
      requires Valid() && j in jobs && jobs[j].txn == Some(t) && t in members && t !in aborting
      requires ExitDue(jobs[j]) && !Doomed(jobs[j])
      modifies this
      ensures Valid() && Stable(old(Now()), Now()) && (j in jobs ==> Completed(jobs[j].status)) && t in members
      ensures done <==> old(LastAndAutomatic(Now(), j, t))
      ensures done ==> members[t] == [] && FinalizedAll(log, old(members[t]), f, j, prepare)
      ensures !done ==> log == old(log) && members == old(members)
      ensures old(OthersAtWork(Now(), j, t)) ==> OnlyWaits(old(Now()), Now(), j)
      decreases |Incomplete(Now())|, 0
    {
      hide Base;
      hide OthersOk;
      hide Stable;
      hide Inv;
      hide Incomplete;
      hide AllWaiting;
      hide FinalizedAll;
      done, f := false, 0;
      var txn := jobs[j].txn.value;
      WaitingReady(Now(), j, t);
      Parts(Now(), t);
      TxnOf(Now(), j);
      assert Allowed(jobs[j].status, Waiting);
      ghost var s0 := Now();
      jobs := jobs[j := Waits(jobs[j])];
      ghost var s1 := Now();
      BaseDistinct(s1, t);
      StillAtWork(s0, s1, j, t);
      var all := AllCompleted(txn);
      if all {
        done, f := LastCompletes(j, prepare, t);
        StableTransitive(s0, s1, Now());
      }
      LastIs(s0, s1, j, t);
    }

    /** The end of `job_completed_txn_success_locked`, when all members have completed. */
    method LastCompletes(j: JobId, prepare: JobId -> int, ghost t: TxnId) returns (ghost done: bool, ghost f: nat)
      requires t in members && Base(Now()) && OthersOk(Now(), Some(t)) && AllWaiting(Now(), t)
      requires j in jobs && jobs[j].txn == Some(t) && j in members[t]
      modifies this
      ensures Valid() && Stable(old(Now()), Now()) && (j in jobs ==> Completed(jobs[j].status)) && t in members
      ensures done <==> forall m :: m in old(members[t]) && m in old(jobs) ==> old(jobs)[m].autoFinalize
      ensures done ==> members[t] == [] && FinalizedAll(log, old(members[t]), f, j, prepare)
      ensures !done ==> log == old(log) && members == old(members)
      decreases |Incomplete(Now())|, 9
    {
      hide Base;
      hide OthersOk;
      hide Stable;
      hide Inv;
      hide Incomplete;
      hide AllWaiting;
      hide FinalizeLog;
      hide MakePending;
      done, f := false, 0;
      ghost var s1 := Now();
      var txn := jobs[j].txn.value;
      PendingReady(s1, t);
      MakePendingFacts(jobs, members[t]);
      WaitingNotAborting(s1, t);
      var manual := AllToPending(txn);
      if !manual {
        ghost var s2 := Now();
        f := DoFinalize(j, prepare, t);
        StableTransitive(s1, s2, Now());
        StaysComplete(s2, Now(), j);
        done := true;
      }
    }

    /** `job_completed_locked` for a job that failed or was cancelled. */
    method CompletedInFailure(j: JobId, prepare: JobId -> int, ghost t: TxnId)
      requires Valid() && j in jobs && jobs[j].txn == Some(t) && t in members
      requires CanComplete(jobs[j]) && (t !in aborting ==> OthersStarted(Now(), j, t))
      requires Doomed(jobs[j])
      modifies this
      ensures Valid() && (j in jobs ==> Completed(jobs[j].status)) && t in members
      ensures old(NotWaitedFor(Now(), j)) ==> Stable(old(Now()), Now())
      ensures t in old(aborting) ==> aborting == old(aborting)
      ensures t in old(aborting) ==> log == old(log) && members == old(members)
      ensures t !in old(aborting) ==>
                members[t] == [] && Verdicts(old(log), log, old(members[t]), |old(members[t])|, j, true)
      decreases |Incomplete(Now())|, 0
    {
      hide Base;
      hide OthersOk;
      hide AbortingOk;
      hide MayAbort;
      hide OthersStarted;
      hide NotWaitedFor;
      hide Stable;
      hide Inv;
      hide Incomplete;
      hide Verdicts;
      hide AllThrough;
      ghost var s0 := Now();
      UpdateRcReady(s0, j, t);
      assert Allowed(jobs[j].status, Aborting);
      jobs := jobs[j := UpdateRc(jobs[j])];
      ghost var s1 := Now();
      TxnAbort(j, prepare, t);
      if NotWaitedFor(s0, j) { StableTransitive(s0, s1, Now()); }
      StaysComplete(s1, Now(), j);
      SameKeys(s1, Now());
    }

    /** `job_completed_locked`. */
    method CompletedJob(j: JobId, prepare: JobId -> int, ghost t: TxnId) returns (ghost f: nat)
      requires Valid() && j in jobs && jobs[j].txn == Some(t) && t in members
      requires CanComplete(jobs[j]) && (Doomed(jobs[j]) && t !in aborting ==> OthersStarted(Now(), j, t))
      modifies this
      ensures Valid() && (j in jobs ==> Completed(jobs[j].status))
      ensures old(NotWaitedFor(Now(), j)) ==> Stable(old(Now()), Now())
      ensures t in members && Completion(old(Now()), Now(), j, t, f, prepare)
      decreases |Incomplete(Now())|, 1
    {
      hide Base;
      hide OthersOk;
      hide OthersStarted;
      hide Stable;
      hide Inv;
      hide Incomplete;
      hide Verdicts;
      hide FinalizedAll;
      hide LastAndAutomatic;
      hide Completion;
      assert !Completed(jobs[j].status);
      f := 0;
      Parts(Now(), t);
      TxnOf(Now(), j);
      if t in aborting { AbortingDooms(Now(), j, t); }
      if Doomed(jobs[j]) {
        CompletedInFailure(j, prepare, t);
        FailedCompletion(old(Now()), Now(), j, t, f, prepare);
      } else {
        ghost var done;
        done, f := TxnSuccess(j, prepare, t);
        GoodCompletion(old(Now()), Now(), j, t, f, prepare);
      }
    }

    /** The bottom half `job_exit`. */
    method Exit(j: JobId, prepare: JobId -> int, ghost t: TxnId) returns (ghost f: nat)
      requires Valid() && j in jobs && jobs[j].txn == Some(t) && t in members && ExitDue(jobs[j])
      requires Doomed(jobs[j]) && t !in aborting ==> OthersStarted(Now(), j, t)
      modifies this
      ensures Valid() && Stable(old(Now()), Now()) && (j in jobs ==> Completed(jobs[j].status))
      ensures t in members && Completion(old(Now()), Now(), j, t, f, prepare)
      decreases |Incomplete(Now())|, 2
    {
      hide Base;
      hide Stable;
      hide Inv;
      hide Incomplete;
      hide OthersStarted;
      hide Completion;
      Parts(Now(), t);
      HeldExitOk(Now(), j, t);
      Ref(j);
      ghost var h := Now();
      jobs := jobs[j := Exiting(jobs[j])];
      ghost var h' := Now();
      f := CompletedJob(j, prepare, t);
      ghost var s1 := Now();
      StableTransitive(h, h', s1);
      HeldStable(old(Now()), s1, j);
      LastRefIsNull(s1, j);
      CompletionHeld(old(Now()), s1, Released(s1, j), j, t, f, prepare);
      var freed := Unref(j);
    }

    /** The coroutine of a cancelled job is woken and gets to its end. */
    method RunsToEnd(j: JobId, ghost t: TxnId)
      requires Valid() && t in aborting && t in members && j in members[t] && j in jobs && !Completed(jobs[j].status)
      requires jobs[j].started
      modifies `jobs
      ensures Valid() && Stable(old(Now()), Now()) && j in jobs && ExitDue(jobs[j])
    {
      hide Stable;
      hide Inv;
      CancelledMember(Now(), j, t);
      Enter(j);
      if Resting(jobs[j].status) {
        ghost var s1 := Now();
        AfterPause(j);
        StableTransitive(old(Now()), s1, Now());
      }
      if !jobs[j].deferred {
        ghost var s2 := Now();
        var ret: int := *;
        RunReturns(j, ret);
        StableTransitive(old(Now()), s2, Now());
      }
    }

    /** The coroutine of a cancelled job gets to its end, and its bottom half runs. */
    method GetsToItsEnd(j: JobId, prepare: JobId -> int, ghost t: TxnId)
      requires Valid() && t in aborting && t in members && j in members[t] && j in jobs && !Completed(jobs[j].status)
      requires jobs[j].started
      modifies this
      ensures Valid() && Stable(old(Now()), Now()) && j in jobs && Completed(jobs[j].status)
      decreases |Incomplete(Now())|, 3
    {
      hide Stable;
      hide Inv;
      hide Incomplete;
      hide OthersStarted;
      hide Completion;
      RunsToEnd(j, t);
      ghost var s1 := Now();
      StableCount(old(Now()), s1);
      StillMember(old(Now()), s1, j, t);
      CancelledMember(s1, j, t);
      ghost var f := Exit(j, prepare, t);
      StableTransitive(old(Now()), s1, Now());
      StillMember(old(Now()), Now(), j, t);
    }

    /** `job_finish_sync_locked` without a finish callback: the event loop runs until the job has
        completed.  Other jobs may complete meanwhile, even abort transactions of their own. */
    method FinishSync(j: JobId, prepare: JobId -> int, ghost t: TxnId)
      requires Valid() && t in aborting && t in members && j in members[t] && j in jobs && !Completed(jobs[j].status)
      requires jobs[j].started
      modifies this
      ensures Valid() && Stable(old(Now()), Now()) && j in jobs && Completed(jobs[j].status)
      decreases |Incomplete(Now())|, 5
    {
      hide Stable;
      hide Inv;
      hide Base;
      hide Incomplete;
      Parts(Now(), t);
      HoldIncomplete(Now(), j);
      Ref(j);
      ghost var h := Now();
      StableSelf(h);
      var events: nat := *;
      while events > 0 && !Completed(jobs[j].status)
        invariant Valid() && Stable(h, Now()) && j in jobs && jobs[j].started
        decreases events
      {
        ghost var s1 := Now();
        StableCount(h, s1);
        Poll(prepare);
        StableTransitive(h, s1, Now());
        StillMember(h, Now(), j, t);
        events := events - 1;
      }
      if !Completed(jobs[j].status) {
        ghost var s2 := Now();
        StillMember(h, s2, j, t);
        StableCount(h, s2);
        GetsToItsEnd(j, prepare, t);
        StableTransitive(h, s2, Now());
      }
      HeldStable(old(Now()), Now(), j);
      StillMember(old(Now()), Released(Now(), j), j, t);
      ReleasedStatus(Now(), j);
      var freed := Unref(j);
    }

    /** One round of the event loop: some job's coroutine or bottom half runs, or a drain section
        of a node that it uses begins or ends. */
    method Poll(prepare: JobId -> int)
      requires Valid()
      modifies this
      ensures Valid() && Stable(old(Now()), Now())
      decreases |Incomplete(Now())|, 4
    {
      hide Stable;
      hide Inv;
      hide Incomplete;
      hide OthersStarted;
      hide Completion;
      StableSelf(Now());
      var k: JobId := *;
      if k !in jobs {
        return;
      }
      JobFacts(Now(), k);
      if {
        case InCoroutine(jobs[k]) => PausePoint(k);
        case InCoroutine(jobs[k]) => Sleep(k);
        case InCoroutine(jobs[k]) => var ret: int := *; RunReturns(k, ret);
        case InCoroutine(jobs[k]) && jobs[k].status == Running => TransitionToReady(k);
        case InCoroutine(jobs[k]) => ErrorAction(k);
        case Resting(jobs[k].status) && jobs[k].busy => AfterPause(k);
        case true => Enter(k);
        case true => DrainedBegin(k);
        case true => DrainEndsIfOpen(k);
        case ExitDue(jobs[k]) => ExitUnlessItHangs(k, prepare);
      }
    }

    /** A drain section on the job ends, if one is open. */
    method DrainEndsIfOpen(j: JobId)
      requires Valid() && j in jobs
      modifies this
      ensures Valid() && Stable(old(Now()), Now())
    {
      hide Stable;
      hide Inv;
      JobFacts(Now(), j);
      StableSelf(Now());
      if jobs[j].pauseCount > One(jobs[j].userPaused) + One(!jobs[j].started) {
        var idle: bool := *;
        DrainedEnd(j, idle);
      }
    }

    /** The bottom half of the job runs, unless it would wait for a job that nobody has started. */
    method ExitUnlessItHangs(j: JobId, prepare: JobId -> int)
      requires Valid() && j in jobs && ExitDue(jobs[j])
      modifies this
      ensures Valid() && Stable(old(Now()), Now())
      decreases |Incomplete(Now())|, 3
    {
      hide Stable;
      hide Inv;
      hide Base;
      hide Incomplete;
      hide Completion;
      Parts(Now(), 0);
      TxnOf(Now(), j);
      StableSelf(Now());
      var t := jobs[j].txn.value;
      var unstarted := set m | m in members[t] && m in jobs && m != j && !Completed(jobs[m].status) && !jobs[m].started;
      assert unstarted == {} ==> OthersStarted(Now(), j, t) by {
        assert forall m :: m in members[t] && m in jobs && m != j && !Completed(jobs[m].status) ==>
                             jobs[m].started || m in unstarted;
      }
      if !Doomed(jobs[j]) || t in aborting || unstarted == {} {
        ghost var f := Exit(j, prepare, t);
      }
    }

    // -------------------------------------------------------------------------
    // From the end of a run to the callbacks
    // -------------------------------------------------------------------------

    /** One member of a transaction fails: its run returns an error, and its bottom half runs.  Whatever
        the other members are doing, all of them are aborted and cleaned, once, and nobody commits. */
    method FailedRunAborts(j: JobId, ret: int, prepare: JobId -> int, ghost t: TxnId)
      requires Valid() && t in members && t !in aborting && j in members[t] && j in jobs && InCoroutine(jobs[j])
      requires ret != 0 && OthersStarted(Now(), j, t)
      modifies this
      ensures Valid() && t in members && members[t] == []
      ensures forall m :: m in old(members[t]) ==> m in log && log[m] == [Aborted, Cleaned]
    {
      hide Inv;
      hide Stable;
      hide Completion;
      hide Verdicts;
      hide OthersStarted;
      FreshMembers(Now(), j, t);
      ghost var s0 := Now();
      RunReturns(j, ret);
      StartedAfter(s0, Now(), j, t);
      ghost var s1 := Now();
      ghost var f := Exit(j, prepare, t);
      FailedLog(s1, Now(), j, t, f, prepare);
    }

    /** All members of a transaction succeed: their runs return without an error, in whatever order,
        and nobody asks for a manual finalize.  If they can prepare, all of them commit and are
        cleaned, once. */
    method GoodRunsCommit(order: seq<JobId>, prepare: JobId -> int, ghost t: TxnId)
      requires Valid() && t in members && t !in aborting && order != [] && Distinct(order)
      requires forall m :: m in order <==> m in members[t]
      requires forall m :: m in order ==> m in jobs && Willing(jobs[m]) && prepare(m) == 0
      modifies this
      ensures Valid() && t in members && members[t] == []
      ensures forall m :: m in order ==> m in log && log[m] == [Prepared(0), Committed, Cleaned]
    {
      hide Inv;
      hide Stable;
      hide Completion;
      hide SomeEnded;
      SomeStart(Now(), order, t);
      var last := |order| - 1;
      for i := 0 to last
        invariant Valid() && t in members && members == old(members) && SomeEnded(Now(), order, i, t)
      {
        EndOne(order, i, prepare, t);
      }
      EndLast(order, prepare, t);
    }

    /** A member comes to its end, and others are still at work. */
    method EndOne(order: seq<JobId>, i: nat, prepare: JobId -> int, ghost t: TxnId)
      requires Valid() && t in members && i + 1 < |order| && Distinct(order)
      requires (forall m :: m in order <==> m in members[t]) && SomeEnded(Now(), order, i, t)
      modifies this
      ensures Valid() && members == old(members) && t in members && SomeEnded(Now(), order, i + 1, t)
    {
      hide Inv;
      hide Stable;
      hide Completion;
      hide SomeEnded;
      NextToEnd(Now(), order, i, t);
      ghost var s0 := Now();
      RunReturns(order[i], 0);
      ghost var s1 := Now();
      StillWilling(s0, s1, order, i, t);
      ghost var f := Exit(order[i], prepare, t);
      OneMoreEnded(s0, s1, Now(), order, i, t, f, prepare);
    }

    /** The last member comes to its end. */
    method EndLast(order: seq<JobId>, prepare: JobId -> int, ghost t: TxnId)
      requires Valid() && t in members && order != [] && Distinct(order)
      requires forall m :: m in order ==> prepare(m) == 0
      requires (forall m :: m in order <==> m in members[t]) && SomeEnded(Now(), order, |order| - 1, t)
      modifies this
      ensures Valid() && t in members && members[t] == []
      ensures forall m :: m in order ==> m in log && log[m] == [Prepared(0), Committed, Cleaned]
    {
      hide Inv;
      hide Stable;
      hide Completion;
      hide SomeEnded;
      var i := |order| - 1;
      NextToEnd(Now(), order, i, t);
      ghost var s0 := Now();
      RunReturns(order[i], 0);
      ghost var s1 := Now();
      LastIsLast(s0, s1, order, t);
      ghost var f := Exit(order[i], prepare, t);
      GoodLog(s1, Now(), order, t, f, prepare);
    }

    // -------------------------------------------------------------------------
    // The user's commands
    // -------------------------------------------------------------------------

    /** `job_create`: the job joins transaction `t`, or is alone in the new transaction `t`.  All is in
        order exactly if the transaction is neither being aborted nor about to be finalized. */
    method Create(j: JobId, t: TxnId, autoFinalize: bool, autoDismiss: bool)
      requires Valid() && j !in log
      modifies this
      ensures Now() == WithNewJob(old(Now()), j, t, NewJob(t, autoFinalize, autoDismiss))
      ensures j in jobs && jobs[j].status == Created && jobs[j].txn == Some(t) && jobs[j].refcnt == 1
      ensures jobs[j].pauseCount == 1 && jobs[j].paused && jobs[j].ioOk && !jobs[j].userPaused && jobs[j].ret == 0
      ensures jobs[j].autoFinalize == autoFinalize && jobs[j].autoDismiss == autoDismiss
      ensures Valid() <==> old(MayJoin(Now(), t))
      ensures Valid() && old(Idle(Now())) ==> Idle(Now())
    {
      hide Inv;
      hide Idle;
      hide MayJoin;
      if MayJoin(Now(), t) {
        WithNewJobInv(Now(), j, t, autoFinalize, autoDismiss);
      } else {
        JoinsTooLate(Now(), j, t, autoFinalize, autoDismiss);
      }
      assert Allowed(Undefined, Created);
      members := members[t := [j] + (if t in members then members[t] else [])];
      jobs := jobs[j := NewJob(t, autoFinalize, autoDismiss)];
      drains := drains[j := 0];
      log := log[j := []];
    }

    /** `job_do_dismiss_locked`.  All is in order exactly if no completed members wait for the job
        alone. */
    method DismissJob(j: JobId)
      requires Valid() && j in jobs && (jobs[j].status == Concluded || jobs[j].status == Created)
      modifies this
      ensures Now() == DoDismiss(old(Now()), j) && (old(Idle(Now())) ==> Idle(Now()))
      ensures Valid() <==> (old(jobs)[j].txn.Some? ==> old(MayLeave(Now(), j, jobs[j].txn.value)))
      ensures j in jobs ==> jobs[j].status == Null && jobs[j].deferred && !jobs[j].busy && !jobs[j].paused
      ensures j in jobs <==> old(jobs)[j].refcnt != 1
    {
      hide Inv, MayLeave, Store, Dismissed;
      JobFacts(Now(), j);
      DismissFacts(Now(), j);
      if jobs[j].txn.Some? ==> MayLeave(Now(), j, jobs[j].txn.value) {
        DoDismissInv(Now(), j);
      } else {
        LeavesTooLate(Now(), j);
      }
      assert Allowed(jobs[j].status, Null);
      members := TxnDel(members, j, jobs[j].txn);
      jobs := Store(jobs, j, Dismissed(jobs[j]));
    }

    /** `job_dismiss_locked`. */
    method UserDismiss(j: JobId) returns (ok: bool)
      requires Valid() && j in jobs
      modifies this
      ensures Valid() && (ok <==> old(jobs)[j].status == Concluded)
      ensures Now() == (if ok then DoDismiss(old(Now()), j) else old(Now())) && (old(Idle(Now())) ==> Idle(Now()))
    {
      hide Inv;
      JobFacts(Now(), j);
      ok := Accepts(Dismiss, jobs[j].status);
      if ok {
        DismissJob(j);
      }
    }

    /** `job_early_fail`. */
    method EarlyFail(j: JobId)
      requires Valid() && j in jobs && jobs[j].status == Created
      modifies this
      ensures Now() == DoDismiss(old(Now()), j) && (old(Idle(Now())) ==> Idle(Now()))
      ensures Valid() <==> (old(jobs)[j].txn.Some? ==> old(MayLeave(Now(), j, jobs[j].txn.value)))
    {
      hide Inv;
      hide MayLeave;
      DismissJob(j);
    }

    /** `job_finalize_locked`.  A pending job is not finalized while an abort loop works through its
        transaction; when the state is idle there is none (`IdleJob`). */
    method UserFinalize(j: JobId, prepare: JobId -> int) returns (ok: bool, ghost f: nat)
      requires Valid() && j in jobs
      requires jobs[j].status == Pending && jobs[j].txn.Some? ==> jobs[j].txn.value !in aborting
      modifies this
      ensures Valid() && (!ok ==> Now() == old(Now())) && (old(Idle(Now())) ==> Idle(Now()))
      ensures ok <==> old(jobs)[j].status == Pending
      ensures ok ==> old(jobs)[j].txn.Some? && old(jobs)[j].txn.value in old(members)
      ensures ok ==> FinalizedAll(log, old(members[jobs[j].txn.value]), f, j, prepare)
    {
      hide Inv;
      hide Base;
      hide Stable;
      hide FinalizeLog;
      f := 0;
      Parts(Now(), 0);
      JobFacts(Now(), j);
      ok := Accepts(Finalize, jobs[j].status);
      if ok {
        TxnOf(Now(), j);
        f := DoFinalize(j, prepare, jobs[j].txn.value);
        if old(Idle(Now())) { StableIdle(old(Now()), Now()); }
      }
    }

    /** `job_cancel_locked` for a job that has not been started. */
    method CancelUnstarted(j: JobId, prepare: JobId -> int, ghost t: TxnId)
      requires Valid() && j in jobs && jobs[j].status == Created && jobs[j].txn == Some(t) && t in members
      requires t !in aborting ==> OthersStarted(Now(), j, t)
      modifies this
      ensures Valid() && t in members && (old(Idle(Now())) ==> Idle(Now()))
      ensures t !in old(aborting) ==>
                members[t] == [] && Verdicts(old(log), log, old(members[t]), |old(members[t])|, j, true)
    {
      hide Inv;
      hide Stable;
      hide OthersStarted;
      hide Verdicts;
      JobFacts(Now(), j);
      CancelKept(Now(), j, true);
      if t !in aborting { CancelledOthers(Now(), j, t); }
      if Idle(Now()) { IdleJob(Now(), j); }
      jobs := jobs[j := CancelAsync(jobs[j], true)];
      ghost var s1 := Now();
      CompletedInFailure(j, prepare, t);
      if Idle(s1) { StableIdle(s1, Now()); }
    }

    /** `job_cancel_locked` for a job whose coroutine is at its end. */
    method CancelDone(j: JobId, force: bool, prepare: JobId -> int, ghost t: TxnId)
      requires Valid() && j in jobs && jobs[j].txn == Some(t) && t in members && jobs[j].started && jobs[j].deferred
      requires (force || jobs[j].forceCancel) && t !in aborting ==> OthersStarted(Now(), j, t)
      modifies this
      ensures Valid() && t in members && (old(Idle(Now())) ==> Idle(Now()))
      ensures !force && !old(jobs)[j].forceCancel ==> Now() == SetJob(old(Now()), j, CancelAsync(old(jobs)[j], false))
      ensures t !in old(aborting) && (force || old(jobs)[j].forceCancel) ==>
                members[t] == [] && Verdicts(old(log), log, old(members[t]), |old(members[t])|, j, true)
    {
      hide Inv;
      hide Base;
      hide OthersOk;
      hide MayAbort;
      hide AbortingOk;
      hide Stable;
      hide OthersStarted;
      hide Verdicts;
      hide AllThrough;
      JobFacts(Now(), j);
      if force || jobs[j].forceCancel {
        CancelReady(Now(), j, t, force);
        jobs := jobs[j := CancelAsync(jobs[j], force)];
        ghost var s1 := Now();
        TxnAbort(j, prepare, t);
        SameKeys(s1, Now());
        if Idle(s1) { StableIdle(s1, Now()); }
      } else {
        CancelKept(Now(), j, false);
        jobs := jobs[j := CancelAsync(jobs[j], false)];
      }
    }

    /** `job_cancel_locked`; `answer` is what the driver's cancel callback makes of `force`, or
        true where there is none. */
    method CancelJob(j: JobId, answer: bool, prepare: JobId -> int)
      requires Valid() && j in jobs && jobs[j].status != Null
      requires (!jobs[j].started ==> answer && jobs[j].status == Created)
      requires AbortsTxn(jobs[j], answer) && InWorkingTxn(Now(), j) ==> OthersStarted(Now(), j, jobs[j].txn.value)
      modifies this
      ensures Valid() && (old(Idle(Now())) ==> Idle(Now()))
      ensures old(jobs)[j].status == Concluded ==> Now() == DoDismiss(old(Now()), j)
      ensures !Completed(old(jobs)[j].status) && old(jobs)[j].started && !old(jobs)[j].deferred ==>
                Now() == SetJob(old(Now()), j, Entered(CancelAsync(old(jobs)[j], answer), true))
      ensures var job := old(jobs)[j];
              job.txn.Some? && job.txn.value in old(members) && job.txn.value !in old(aborting) &&
              AbortsTxn(job, answer) ==>
                && job.txn.value in members && members[job.txn.value] == []
                && Verdicts(old(log), log, old(members[jobs[j].txn.value]), |old(members[jobs[j].txn.value])|, j, true)
    {
      hide Inv;
      hide Base;
      hide OthersStarted;
      hide Verdicts;
      hide Stable;
      Parts(Now(), 0);
      JobFacts(Now(), j);
      if jobs[j].status == Concluded {
        DismissJob(j);
        return;
      }
      TxnOf(Now(), j);
      var t := jobs[j].txn.value;
      if !jobs[j].started {
        CancelUnstarted(j, prepare, t);
      } else if jobs[j].deferred {
        CancelDone(j, answer, prepare, t);
      } else {
        CancelKept(Now(), j, answer);
        jobs := jobs[j := CancelAsync(jobs[j], answer)];
        Enter(j);
      }
    }

    /** `job_user_cancel_locked`. */
    method UserCancel(j: JobId, answer: bool, prepare: JobId -> int) returns (ok: bool)
      requires Valid() && j in jobs && (!jobs[j].started ==> answer)
      requires AbortsTxn(jobs[j], answer) && InWorkingTxn(Now(), j) ==> OthersStarted(Now(), j, jobs[j].txn.value)
      modifies this
      ensures Valid() && (old(Idle(Now())) ==> Idle(Now()))
      ensures ok <==> old(jobs)[j].status !in {Aborting, Concluded, Null}
      ensures !ok ==> Now() == old(Now())
    {
      hide Inv;
      hide OthersStarted;
      hide Verdicts;
      JobFacts(Now(), j);
      ok := Accepts(Cancel, jobs[j].status);
      if ok {
        CancelJob(j, answer, prepare);
      }
    }
  }

  // ---------------------------------------------------------------------------
  // All or nothing
  // ---------------------------------------------------------------------------

  /** All jobs of the transaction commit, or all of them abort. */
  ghost predicate AllOrNothing(log: Log, ms: seq<JobId>)
  {
    || (forall k :: 0 <= k < |ms| ==> ms[k] in log && Committed in log[ms[k]])
    || (forall k :: 0 <= k < |ms| ==> ms[k] in log && Committed !in log[ms[k]])
  }

  /** Finalizing is all or nothing exactly if no prepare callback fails, or if the first to fail
      belongs to the job that drives the finalization. */
  lemma AllOrNothingIff(log: Log, ms: seq<JobId>, f: nat, j: JobId, prepare: JobId -> int)
    requires FinalizedAll(log, ms, f, j, prepare) && j in ms && Distinct(ms)
    ensures AllOrNothing(log, ms) <==> f == |ms| || ms[f] == j
  {
    if f < |ms| && ms[f] != j {
      var d :| 0 <= d < |ms| && ms[d] == j;
      assert FinalizeLogAt(log, ms, f, j, prepare, d) && FinalizeLogAt(log, ms, f, j, prepare, f);
      assert log[ms[d]] == (if d <= f then [Prepared(prepare(ms[d]))] else []) + [Committed, Cleaned];
      assert Committed in log[ms[d]];
      assert log[ms[f]] == [Prepared(prepare(ms[f]))] + [Aborted, Cleaned];
      assert Committed !in log[ms[f]];
    } else {
      forall k | 0 <= k < |ms| ensures ms[k] in log && (Committed in log[ms[k]] <==> f == |ms|) {
        assert FinalizeLogAt(log, ms, f, j, prepare, k);
        assert f < |ms| && ms[k] == j ==> k == f;
        var head := if k <= f then [Prepared(prepare(ms[k]))] else [];
        assert log[ms[k]] == head + (if f == |ms| then [Committed, Cleaned] else [Aborted, Cleaned]);
        assert f == |ms| ==> log[ms[k]][|head|] == Committed;
      }
    }
  }

  /** Two jobs of one transaction. */
  method TwoJobs() returns (mgr: JobManager)
    ensures fresh(mgr) && mgr.Valid() && mgr.members == map[0 := [2, 1]] && mgr.aborting == {}
    ensures mgr.jobs == map[1 := NewJob(0, true, true), 2 := NewJob(0, true, true)]
  {
    hide Inv;
    hide Idle;
    mgr := new JobManager();
    mgr.Create(1, 0, true, true);
    assert mgr.members[0] == [1];
    mgr.Create(2, 0, true, true);
    assert mgr.members[0] == [2, 1];
  }

  /** A new job runs and comes to its end. */
  method RunJob(mgr: JobManager, j: JobId)
    requires mgr.Valid() && j in mgr.jobs && mgr.jobs[j] == NewJob(0, true, true)
    modifies mgr`jobs
    ensures mgr.Valid() && mgr.jobs == old(mgr.jobs)[j := Returned(Started(NewJob(0, true, true)), 0)]
  {
    hide Inv;
    hide Stable;
    mgr.Start(j);
    mgr.RunReturns(j, 0);
  }

  /** Job 1 cannot prepare; job 2 is the last to complete, drives the finalization and commits all
      the same. */
  method PrepareFailureSplits() returns (mgr: JobManager)
    ensures fresh(mgr) && mgr.Valid() && 1 in mgr.log && 2 in mgr.log
    ensures mgr.log[1] == [Prepared(-5), Aborted, Cleaned] && mgr.log[2] == [Prepared(0), Committed, Cleaned]
    ensures !AllOrNothing(mgr.log, [2, 1])
  {
    hide Inv;
    hide Stable;
    hide FinalizeLog;
    hide AllOrNothing;
    var prepare: JobId -> int := j => if j == 1 then -5 else 0;
    mgr := TwoJobs();
    RunJob(mgr, 1);
    RunJob(mgr, 2);
    assert ExitDue(mgr.jobs[1]) && !Doomed(mgr.jobs[1]) && mgr.jobs[1].autoFinalize && mgr.jobs[1].txn == Some(0);
    assert ExitDue(mgr.jobs[2]) && !Doomed(mgr.jobs[2]) && mgr.jobs[2].autoFinalize && mgr.jobs[2].txn == Some(0);
    ghost var f := mgr.Exit(1, prepare, 0);
    f := mgr.Exit(2, prepare, 0);
    SplitLog(mgr.log, f, prepare);
  }

  lemma SplitLog(log: Log, f: nat, prepare: JobId -> int)
    requires FinalizedAll(log, [2, 1], f, 2, prepare) && prepare(1) == -5 && prepare(2) == 0
    ensures 1 in log && 2 in log
    ensures log[1] == [Prepared(-5), Aborted, Cleaned] && log[2] == [Prepared(0), Committed, Cleaned]
    ensures !AllOrNothing(log, [2, 1])
  {
    var ms: seq<JobId> := [2, 1];
    assert ms[0] == 2 && ms[1] == 1;
    assert f == 1;
    assert FinalizeLogAt(log, ms, f, 2, prepare, 0) && FinalizeLogAt(log, ms, f, 2, prepare, 1);
    assert log[2] == [Prepared(0)] + [Committed, Cleaned] && log[1] == [Prepared(-5)] + [Aborted, Cleaned];
    AllOrNothingIff(log, ms, f, 2, prepare);
  }

  /** If all prepare callbacks succeed then every member commits and is cleaned, once. */
  lemma AllCommit(log: Log, ms: seq<JobId>, f: nat, j: JobId, prepare: JobId -> int, k: nat)
    requires FinalizedAll(log, ms, f, j, prepare) && (forall m :: m in ms ==> prepare(m) == 0) && k < |ms|
    ensures ms[k] in log && log[ms[k]] == [Prepared(0), Committed, Cleaned]
  {
    assert f == |ms| && FinalizeLogAt(log, ms, f, j, prepare, k);
    assert ms[k] in ms;
    assert log[ms[k]] == [Prepared(0)] + [Committed, Cleaned];
  }
}
