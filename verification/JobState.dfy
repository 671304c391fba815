/** Background jobs and their transactions as values (`qemu/job.c`, `qemu/blockjob.c`).

    A snapshot holds all jobs, the member lists of the transactions and what the proofs
    remember.  `JobOk` is what holds of every job at all times, `AbortingOk` and `WorkingOk`
    what holds of a transaction whenever other code may run.  The lemmas follow the steps of
    the code: a job changes, completes, is cancelled or finalized; a transaction is aborted,
    prepared or committed.  `Stable` is what a waiting abort loop may rely on. */
module JobState {

  import opened Wrappers

  type JobId = nat
  type TxnId = nat

  datatype Status = Undefined | Created | Running | Paused | Ready | Standby | Waiting | Pending
                  | Aborting | Concluded | Null

  /** JobSTT. */
  predicate Allowed(s0: Status, s1: Status)
  {
    match s0
    case Undefined => s1.Created?
    case Created => s1.Running? || s1.Aborting? || s1.Null?
    case Running => s1.Paused? || s1.Ready? || s1.Waiting? || s1.Aborting?
    case Paused => s1.Running?
    case Ready => s1.Standby? || s1.Waiting? || s1.Aborting?
    case Standby => s1.Ready?
    case Waiting => s1.Pending? || s1.Aborting?
    case Pending => s1.Aborting? || s1.Concluded?
    case Aborting => s1.Aborting? || s1.Concluded?
    case Concluded => s1.Null?
    case Null => false
  }

  datatype Verb = Cancel | Pause | Resume | SetSpeed | Complete | Finalize | Dismiss | Change

  /** JobVerbTable. */
  predicate Accepts(verb: Verb, s: Status)
  {
    match verb
    case Cancel => s.Created? || AtWork(s) || Resting(s) || s.Waiting? || s.Pending?
    case Pause | Resume | SetSpeed | Change => s.Created? || AtWork(s) || Resting(s)
    case Complete => s.Ready? || s.Standby?
    case Finalize => s.Pending?
    case Dismiss => s.Concluded?
  }

  predicate AtWork(s: Status)
  {
    s.Running? || s.Ready?
  }

  predicate Resting(s: Status)
  {
    s.Paused? || s.Standby?
  }

  predicate Over(s: Status)
  {
    s.Concluded? || s.Null?
  }

  /** `job_is_completed_locked`. */
  predicate Completed(s: Status)
  {
    s.Waiting? || s.Pending? || s.Aborting? || Over(s)
  }

  /** `started` is job->co, `deferred` job->deferred_to_main_loop, `ioOk` the iostatus of the
      block job. */
  datatype Job = Job(status: Status, refcnt: int, pauseCount: int, paused: bool, busy: bool, started: bool,
                     deferred: bool, userPaused: bool, cancelled: bool, forceCancel: bool, ret: int,
                     txn: Option<TxnId>, autoFinalize: bool, autoDismiss: bool, ioOk: bool)

  /** The driver callbacks that a job has seen. */
  datatype Callback = Prepared(rc: int) | Committed | Aborted | Cleaned

  type Log = map<JobId, seq<Callback>>

  const ECANCELED: int := 125

  /** A snapshot.  `drains` counts the open drain sections on a job, `holds` the references that
      are held besides the first one, and `log` the callbacks, also those of freed jobs. */
  datatype Snap = Snap(jobs: map<JobId, Job>, members: map<TxnId, seq<JobId>>, aborting: set<TxnId>,
                       drains: map<JobId, nat>, holds: multiset<JobId>, log: Log)

  function One(b: bool): int
  {
    if b then 1 else 0
  }

  // ---------------------------------------------------------------------------
  // What holds of every job
  // ---------------------------------------------------------------------------

  /** The coroutine is executing job code. */
  predicate InCoroutine(j: Job)
  {
    j.started && j.busy && !j.deferred && AtWork(j.status)
  }

  /** The pause counter has one entry per reason to pause. */
  predicate PausesOk(j: Job, drains: nat)
  {
    && j.pauseCount == One(j.userPaused) + One(!j.started) + drains
    && (!j.ioOk ==> j.userPaused)
    && (j.paused <==> (!j.started && j.status != Null) || Resting(j.status))
  }

  predicate PhaseOk(j: Job)
  {
    && j.status != Undefined
    && (AtWork(j.status) || Resting(j.status) || j.status.Waiting? || j.status.Pending? ==> j.started)
    && (j.status == Created ==> !j.started)
    && (j.started && Completed(j.status) ==> j.deferred)
    && (j.deferred && !Completed(j.status) ==> AtWork(j.status))
    && (j.forceCancel ==> j.cancelled)
    && (j.txn.None? <==> Over(j.status))
  }

  predicate RetOk(j: Job)
  {
    && (!Completed(j.status) && !j.deferred ==> j.ret == 0)
    && (j.status.Waiting? || j.status.Pending? ==> j.ret == 0)
    && (j.status == Aborting ==> j.ret != 0)
  }

  /** Nothing, or at most one prepare. */
  predicate Fresh(log: seq<Callback>)
  {
    log == [] || (|log| == 1 && log[0].Prepared?)
  }

  /** Callbacks so far: possibly a prepare; then, once, commit or abort followed by clean. */
  predicate LogOk(status: Status, ret: int, log: seq<Callback>)
  {
    match status
    case Concluded => Finished(log, ret)
    case Null => log == [] || Finished(log, ret)
    case _ => Fresh(log) && (log != [] ==> status.Pending? || status.Aborting?)
  }

  predicate Finished(log: seq<Callback>, ret: int)
  {
    && |log| >= 2 && Fresh(log[..|log| - 2])
    && log[|log| - 2..] == Verdict(ret)
  }

  function Verdict(ret: int): seq<Callback>
  {
    if ret == 0 then [Committed, Cleaned] else [Aborted, Cleaned]
  }

  predicate JobOk(j: Job, drains: nat, holds: nat, log: seq<Callback>)
  {
    && PausesOk(j, drains) && PhaseOk(j) && RetOk(j) && LogOk(j.status, j.ret, log)
    && j.refcnt == holds + One(j.status != Null)
    && j.refcnt >= 1
  }

  // ---------------------------------------------------------------------------
  // What holds of every transaction
  // ---------------------------------------------------------------------------

  ghost predicate JobOkAt(s: Snap, j: JobId)
    requires j in s.jobs
  {
    j in s.drains && j in s.log && JobOk(s.jobs[j], s.drains[j], s.holds[j], s.log[j])
  }

  ghost predicate JobsOk(s: Snap)
  {
    forall j {:trigger JobOkAt(s, j)} :: j in s.jobs ==> JobOkAt(s, j)
  }

  predicate Distinct(ms: seq<JobId>)
  {
    forall a, b :: 0 <= a < b < |ms| ==> ms[a] != ms[b]
  }

  ghost predicate ListOk(s: Snap, t: TxnId)
    requires t in s.members
  {
    Distinct(s.members[t]) && forall m :: m in s.members[t] ==> m in s.jobs && s.jobs[m].txn == Some(t)
  }

  ghost predicate Listed(s: Snap, j: JobId)
    requires j in s.jobs
  {
    s.jobs[j].txn.Some? ==> s.jobs[j].txn.value in s.members && j in s.members[s.jobs[j].txn.value]
  }

  ghost predicate ListsOk(s: Snap)
  {
    && (forall t {:trigger ListOk(s, t)} :: t in s.members ==> ListOk(s, t))
    && (forall j {:trigger Listed(s, j)} :: j in s.jobs ==> Listed(s, j))
    && s.aborting <= s.members.Keys
    && s.jobs.Keys <= s.log.Keys && (forall j :: j in s.holds ==> j in s.jobs)
  }

  /** The job will abort when it is finalized. */
  predicate Doomed(j: Job)
  {
    j.ret != 0 || j.forceCancel
  }

  /** An aborting transaction: every member will abort. */
  ghost predicate AbortingOk(s: Snap, t: TxnId)
    requires t in s.members
  {
    forall m :: m in s.members[t] && m in s.jobs ==> s.jobs[m].forceCancel || s.jobs[m].status == Aborting
  }

  /** Whoever is not done is running. */
  ghost predicate AllStarted(s: Snap, t: TxnId)
    requires t in s.members
  {
    forall m :: m in s.members[t] && m in s.jobs && !Completed(s.jobs[m].status) ==> s.jobs[m].started
  }

  /** A transaction at work: either all members are pending, or none is and one is not done. */
  ghost predicate WorkingOk(s: Snap, t: TxnId)
    requires t in s.members
  {
    && (forall m :: m in s.members[t] && m in s.jobs && m in s.log ==>
          s.jobs[m].status != Aborting && (Completed(s.jobs[m].status) ==> !s.jobs[m].forceCancel) && s.log[m] == [])
    && ((forall m :: m in s.members[t] && m in s.jobs ==> s.jobs[m].status == Pending) ||
        ((forall m :: m in s.members[t] && m in s.jobs ==> s.jobs[m].status != Pending) &&
         exists m :: m in s.members[t] && m in s.jobs && !Completed(s.jobs[m].status)))
  }

  ghost predicate TxnOk(s: Snap, t: TxnId)
    requires t in s.members
  {
    if t in s.aborting then AbortingOk(s, t) else WorkingOk(s, t)
  }

  ghost predicate Base(s: Snap)
  {
    JobsOk(s) && ListsOk(s)
  }

  /** All transactions but `t` are in order. */
  ghost predicate OthersOk(s: Snap, t: Option<TxnId>)
  {
    forall u {:trigger TxnOk(s, u)} :: u in s.members && Some(u) != t ==> TxnOk(s, u)
  }

  ghost predicate Inv(s: Snap)
  {
    Base(s) && OthersOk(s, None)
  }

  // ---------------------------------------------------------------------------
  // Steps of one job
  // ---------------------------------------------------------------------------

  /** The return value after `job_update_rc_locked`. */
  function Rc(j: Job): int
  {
    if j.ret == 0 && j.forceCancel then -ECANCELED else j.ret
  }

  /** A job after `job_update_rc_locked`. */
  function UpdateRc(j: Job): Job
  {
    j.(ret := Rc(j), status := if Rc(j) != 0 then Aborting else j.status)
  }

  /** A job after `job_cancel_async_locked`, where the driver has had its say on `force`.  A
      pause by the user is over, and `user_resume` has reset the iostatus of a block job. */
  function CancelAsync(j: Job, force: bool): Job
  {
    j.(userPaused := false, pauseCount := j.pauseCount - One(j.userPaused), ioOk := j.ioOk || j.userPaused,
       cancelled := j.cancelled || force || !j.deferred, forceCancel := j.forceCancel || force)
  }

  lemma CancelAsyncOk(j: Job, force: bool, drains: nat, holds: nat, log: seq<Callback>)
    requires JobOk(j, drains, holds, log)
    ensures JobOk(CancelAsync(j, force), drains, holds, log) && (j.userPaused ==> j.pauseCount > 0)
  {
    hide LogOk;
  }

  lemma UpdateRcOk(j: Job, drains: nat, holds: nat, log: seq<Callback>)
    requires JobOk(j, drains, holds, log) && j.txn.Some? && !Resting(j.status)
    requires Doomed(j) && !Completed(j.status) ==> j.deferred || !j.started
    ensures JobOk(UpdateRc(j), drains, holds, log)
    ensures UpdateRc(j).ret != 0 <==> Doomed(j)
    ensures j.ret != 0 ==> UpdateRc(j).ret == j.ret
    ensures j.ret == 0 && j.forceCancel ==> UpdateRc(j).ret == -ECANCELED
    ensures Doomed(j) ==> Allowed(j.status, Aborting) && UpdateRc(j).status == Aborting
    ensures !Doomed(j) ==> UpdateRc(j) == j
  {}

  function Remove(ms: seq<JobId>, j: JobId): seq<JobId>
  {
    if ms == [] then [] else if ms[0] == j then ms[1..] else [ms[0]] + Remove(ms[1..], j)
  }

  lemma {:induction false} RemoveElems(ms: seq<JobId>, j: JobId)
    requires Distinct(ms)
    ensures Distinct(Remove(ms, j)) && forall m :: m in Remove(ms, j) <==> m in ms && m != j
    ensures j !in ms ==> Remove(ms, j) == ms
  {
    if ms != [] {
      var rest := ms[1..];
      assert ms == [ms[0]] + rest && ms[0] !in rest && Distinct(rest) by {
        assert forall a :: 0 <= a < |rest| ==> rest[a] == ms[a + 1] && rest[a] != ms[0];
      }
      RemoveElems(rest, j);
      if ms[0] != j { DistinctCons(ms[0], Remove(rest, j)); }
    }
  }

  lemma DistinctCons(m: JobId, ms: seq<JobId>)
    requires Distinct(ms) && m !in ms
    ensures Distinct([m] + ms)
  {}

  // ---------------------------------------------------------------------------
  // Steps of the job list
  // ---------------------------------------------------------------------------

  function SetJob(s: Snap, j: JobId, job: Job): Snap
  {
    s.(jobs := s.jobs[j := job])
  }

  /** Store a job after dropping a reference to it. */
  function Store(jobs: map<JobId, Job>, j: JobId, job: Job): map<JobId, Job>
  {
    if job.refcnt == 0 then jobs - {j} else jobs[j := job]
  }

  /** The lists after `job_txn_del_job_locked`. */
  function TxnDel(members: map<TxnId, seq<JobId>>, j: JobId, txn: Option<TxnId>): map<TxnId, seq<JobId>>
  {
    if txn.Some? && txn.value in members then members[txn.value := Remove(members[txn.value], j)] else members
  }

  /** A job after `job_do_dismiss_locked`. */
  function Dismissed(job: Job): Job
  {
    job.(busy := false, paused := false, deferred := true, txn := None, status := Null, refcnt := job.refcnt - 1)
  }

  /** The job does not wait to be dismissed by the user. */
  predicate DismissesItself(job: Job)
  {
    job.autoDismiss || !job.started
  }

  /** A job after `job_finalize_single_locked`. */
  function Finalized(job: Job): Job
  {
    var gone := DismissesItself(job);
    job.(ret := Rc(job), txn := None, status := if gone then Null else Concluded, busy := job.busy && !gone,
         paused := job.paused && !gone, deferred := job.deferred || gone, refcnt := job.refcnt - One(gone))
  }

  function DoDismiss(s: Snap, j: JobId): Snap
    requires j in s.jobs
  {
    s.(jobs := Store(s.jobs, j, Dismissed(s.jobs[j])), members := TxnDel(s.members, j, s.jobs[j].txn))
  }

  /** A job that somebody still refers to is kept when it is dismissed. */
  lemma DismissFacts(s: Snap, j: JobId)
    requires j in s.jobs
    ensures var jobs := DoDismiss(s, j).jobs;
            && (j in jobs ==> jobs[j].status == Null && jobs[j].deferred && !jobs[j].busy && !jobs[j].paused)
            && (j in jobs <==> s.jobs[j].refcnt != 1)
  {}

  function FinalizeSingle(s: Snap, j: JobId): Snap
    requires j in s.jobs && j in s.log
  {
    s.(jobs := Store(s.jobs, j, Finalized(s.jobs[j])), members := TxnDel(s.members, j, s.jobs[j].txn),
       log := s.log[j := s.log[j] + Verdict(Rc(s.jobs[j]))])
  }

  /** Job `j` has left its transaction, and nothing about other jobs has changed. */
  ghost predicate Leaves(s: Snap, s': Snap, j: JobId)
    requires j in s.jobs
  {
    && s' == s.(jobs := s'.jobs, members := TxnDel(s.members, j, s.jobs[j].txn), log := s'.log)
    && s'.jobs.Keys + {j} == s.jobs.Keys && s'.log.Keys == s.log.Keys
    && (forall k :: k in s.jobs && k != j ==> s'.jobs[k] == s.jobs[k])
    && (forall k :: k in s.log && k != j ==> s'.log[k] == s.log[k])
    && (j in s'.jobs ==> s'.jobs[j].txn == None && Over(s'.jobs[j].status))
    && (j !in s'.jobs ==> j !in s.holds)
  }

  lemma LeavesLists(s: Snap, s': Snap, j: JobId)
    requires ListsOk(s) && j in s.jobs && Leaves(s, s', j)
    ensures ListsOk(s')
  {
    assert Listed(s, j);
    forall t | t in s'.members ensures ListOk(s', t) {
      assert ListOk(s, t);
      RemoveElems(s.members[t], j);
    }
    forall k | k in s'.jobs ensures Listed(s', k) {
      assert Listed(s, k);
      if s.jobs[k].txn.Some? {
        assert ListOk(s, s.jobs[k].txn.value);
        RemoveElems(s.members[s.jobs[k].txn.value], j);
      }
    }
  }

  lemma LeavesJobs(s: Snap, s': Snap, j: JobId)
    requires JobsOk(s) && j in s.jobs && Leaves(s, s', j) && (j in s'.jobs ==> JobOkAt(s', j))
    ensures JobsOk(s')
  {
    forall k | k in s'.jobs ensures JobOkAt(s', k) {
      if k != j { assert JobOkAt(s, k); }
    }
  }

  lemma FinalizedOk(job: Job, drains: nat, holds: nat, log: seq<Callback>)
    requires JobOk(job, drains, holds, log) && job.txn.Some? && Completed(job.status)
    requires Doomed(job) || job.status == Pending
    ensures Finalized(job).refcnt >= 0 && (Finalized(job).refcnt == 0 ==> holds == 0)
    ensures Finalized(job).refcnt > 0 ==> JobOk(Finalized(job), drains, holds, log + Verdict(Rc(job)))
    ensures Allowed(UpdateRc(job).status, Concluded) && (Doomed(job) ==> Allowed(job.status, Aborting))
  {
    hide LogOk, Verdict, Finished;
    VerdictFinishes(job, log);
  }

  /** The verdict ends the callbacks of a job, whether it is then dismissed or not. */
  lemma VerdictFinishes(job: Job, log: seq<Callback>)
    requires LogOk(job.status, job.ret, log) && job.txn.Some? && PhaseOk(job) && Completed(job.status)
    ensures LogOk(Null, Rc(job), log + Verdict(Rc(job))) && LogOk(Concluded, Rc(job), log + Verdict(Rc(job)))
  {
    var log' := log + Verdict(Rc(job));
    assert log'[..|log'| - 2] == log && log'[|log'| - 2..] == Verdict(Rc(job));
  }

  /** Finalizing a completed job keeps all jobs and lists in order. */
  lemma FinalizeSingleOk(s: Snap, j: JobId)
    requires Base(s) && j in s.jobs && s.jobs[j].txn.Some? && Completed(s.jobs[j].status)
    requires Doomed(s.jobs[j]) || s.jobs[j].status == Pending
    ensures j in s.log && Leaves(s, FinalizeSingle(s, j), j) && Base(FinalizeSingle(s, j))
  {
    assert JobOkAt(s, j);
    var s' := FinalizeSingle(s, j);
    FinalizedOk(s.jobs[j], s.drains[j], s.holds[j], s.log[j]);
    assert Leaves(s, s', j);
    LeavesLists(s, s', j);
    LeavesJobs(s, s', j);
  }

  // ---------------------------------------------------------------------------
  // Steps that leave the transactions in order
  // ---------------------------------------------------------------------------

  /** To its transaction the job looks the same. */
  predicate SameStanding(a: Job, b: Job)
  {
    && b.txn == a.txn && (a.started ==> b.started) && (a.forceCancel ==> b.forceCancel)
    && (Completed(a.status) ==> b.status == a.status && b.forceCancel == a.forceCancel)
    && (!Completed(a.status) ==> !Completed(b.status))
  }

  /** A job of `s` was changed and may have got a drain section more or less. */
  function WithJob(s: Snap, j: JobId, job: Job, drains: nat): Snap
  {
    s.(jobs := s.jobs[j := job], drains := s.drains[j := drains])
  }

  lemma StandingLists(s: Snap, j: JobId, job: Job, drains: nat)
    requires ListsOk(s) && j in s.jobs && job.txn == s.jobs[j].txn
    ensures ListsOk(WithJob(s, j, job, drains))
  {
    var s' := WithJob(s, j, job, drains);
    forall t | t in s'.members ensures ListOk(s', t) { assert ListOk(s, t); }
    forall k | k in s'.jobs ensures Listed(s', k) { assert Listed(s, k); }
  }

  lemma StandingTxn(s: Snap, j: JobId, job: Job, drains: nat, t: TxnId)
    requires ListsOk(s) && j in s.jobs && SameStanding(s.jobs[j], job) && t in s.members && TxnOk(s, t)
    ensures TxnOk(WithJob(s, j, job, drains), t)
  {
    assert ListOk(s, t);
    var s' := WithJob(s, j, job, drains);
    if t !in s.aborting {
      assert WorkingOk(s, t);
      if m :| m in s.members[t] && m in s.jobs && !Completed(s.jobs[m].status) {
        assert !Completed(s'.jobs[m].status);
      }
    }
  }

  lemma StandingInv(s: Snap, j: JobId, job: Job, drains: nat)
    requires Inv(s) && j in s.jobs && SameStanding(s.jobs[j], job) && j in s.log
    requires JobOk(job, drains, s.holds[j], s.log[j])
    ensures Inv(WithJob(s, j, job, drains))
    ensures (s.jobs[j].status == Created ==> job.status == Created) ==> Stable(s, WithJob(s, j, job, drains))
  {
    var s' := WithJob(s, j, job, drains);
    if s.jobs[j].status == Created ==> job.status == Created { StandingStable(s, j, job, drains); }
    StandingLists(s, j, job, drains);
    forall k | k in s'.jobs ensures JobOkAt(s', k) {
      if k != j { assert JobOkAt(s, k); }
    }
    forall t | t in s'.members ensures TxnOk(s', t) {
      assert TxnOk(s, t);
      StandingTxn(s, j, job, drains, t);
    }
  }

  lemma JobFacts(s: Snap, j: JobId)
    requires Inv(s) && j in s.jobs
    ensures j in s.drains && j in s.log && JobOk(s.jobs[j], s.drains[j], s.holds[j], s.log[j])
  {
    assert JobOkAt(s, j);
  }

  // ---------------------------------------------------------------------------
  // What the entry points do to a job
  // ---------------------------------------------------------------------------

  function Entered(j: Job, ready: bool): Job
  {
    j.(busy := j.busy || (j.started && !j.deferred && ready))
  }

  function Started(j: Job): Job
  {
    j.(started := true, pauseCount := j.pauseCount - 1, busy := true, paused := false, status := Running)
  }

  /** The job has a reason to pause and will do so. */
  predicate WillPause(j: Job)
  {
    j.pauseCount > 0 && !j.forceCancel
  }

  function AtPausePoint(j: Job): Job
  {
    j.(paused := j.paused || WillPause(j), busy := j.busy && !WillPause(j),
       status := if !WillPause(j) then j.status else if j.status == Ready then Standby else Paused)
  }

  /** The coroutine has been re-entered after it rested. */
  function Rested(j: Job): Job
  {
    j.(paused := false, status := if j.status == Standby then Ready else Running)
  }

  /** `job_yield` and `job_sleep_ns` up to their yield. */
  function Asleep(j: Job): Job
  {
    j.(busy := j.busy && (j.forceCancel || j.pauseCount > 0))
  }

  function Returned(j: Job, ret: int): Job
  {
    j.(ret := ret, deferred := true, busy := true)
  }

  function NowReady(j: Job): Job
  {
    j.(status := Ready)
  }

  /** `job_pause_locked`. */
  function PauseMore(j: Job): Job
  {
    j.(pauseCount := j.pauseCount + 1, busy := j.busy || (!j.paused && j.started && !j.deferred))
  }

  /** `job_resume_locked`; `idle` tells that no timer is pending. */
  function PauseLess(j: Job, idle: bool): Job
  {
    j.(pauseCount := j.pauseCount - 1, busy := j.busy || (j.pauseCount == 1 && j.started && !j.deferred && idle))
  }

  function UserPaused(j: Job): Job
  {
    j.(pauseCount := PauseMore(j).pauseCount, busy := PauseMore(j).busy, userPaused := true)
  }

  /** `job_user_resume_locked`, with the `user_resume` callback of a block job. */
  function UserResumed(j: Job, idle: bool): Job
  {
    j.(pauseCount := PauseLess(j, idle).pauseCount, busy := PauseLess(j, idle).busy, userPaused := false, ioOk := true)
  }

  /** `block_job_error_action` when the action is to stop. */
  function ErrorStopped(j: Job): Job
  {
    j.(pauseCount := j.pauseCount + One(!j.userPaused), userPaused := true, ioOk := false,
       busy := j.busy || (!j.userPaused && !j.paused && j.started && !j.deferred))
  }

  /** `block_job_iostatus_reset_locked`. */
  function IoReset(j: Job): Job
  {
    j.(ioOk := true)
  }

  lemma SetJobInv(s: Snap, j: JobId, job: Job)
    requires Inv(s) && j in s.jobs && SameStanding(s.jobs[j], job) && j in s.log && j in s.drains
    requires JobOk(job, s.drains[j], s.holds[j], s.log[j])
    ensures Inv(SetJob(s, j, job))
    ensures (s.jobs[j].status == Created ==> job.status == Created) ==> Stable(s, SetJob(s, j, job))
  {
    StandingInv(s, j, job, s.drains[j]);
    assert s.drains[j := s.drains[j]] == s.drains;
  }

  // ---------------------------------------------------------------------------
  // While the main loop waits for a job
  // ---------------------------------------------------------------------------

  ghost function Incomplete(s: Snap): set<JobId>
  {
    set j | j in s.jobs && !Completed(s.jobs[j].status)
  }

  /** A transaction that is being aborted keeps its members, nothing but the abort loop itself calls
      back into their drivers, and nobody starts a member or lets one that is not started go. */
  ghost predicate StableTxn(s: Snap, s': Snap, t: TxnId)
  {
    && t in s.members && t in s'.members && s'.members[t] == s.members[t] && t in s'.aborting
    && forall m :: m in s.members[t] ==>
         && m in s.jobs && m in s'.jobs && m in s.log && m in s'.log && s'.log[m] == s.log[m]
         && (Completed(s.jobs[m].status) ==> Completed(s'.jobs[m].status))
         && (s.jobs[m].started ==> s'.jobs[m].started)
         && (s.jobs[m].status == Created ==> s'.jobs[m].status == Created)
  }

  /** The job has been freed or at least left its transaction. */
  ghost predicate Through(s: Snap, k: JobId)
  {
    k in s.log && (k in s.jobs ==> Over(s.jobs[k].status))
  }

  /** A job that is through stays so and sees no more callbacks. */
  ghost predicate StableLog(s: Snap, s': Snap, k: JobId)
  {
    Through(s, k) ==> Through(s', k) && s'.log[k] == s.log[k]
  }

  /** Abort loops that have begun since, but for that of `t`, are through with their members. */
  ghost predicate AbortsDone(s: Snap, s': Snap, t: Option<TxnId>)
  {
    forall u :: u in s'.aborting && u !in s.aborting && Some(u) != t ==> u in s'.members && s'.members[u] == []
  }

  ghost predicate StableBut(s: Snap, s': Snap, t: Option<TxnId>)
  {
    && s'.members.Keys == s.members.Keys && s'.holds == s.holds && Incomplete(s') <= Incomplete(s)
    && (forall k {:trigger StableLog(s, s', k)} :: StableLog(s, s', k))
    && (forall u {:trigger StableTxn(s, s', u)} :: u in s.aborting ==> StableTxn(s, s', u))
    && AbortsDone(s, s', t)
  }

  /** What may happen while the event loop runs: no abort loop in progress is disturbed, and
      those that begin also end. */
  ghost predicate Stable(s: Snap, s': Snap)
  {
    StableBut(s, s', None)
  }

  /** No abort loop is in progress. */
  ghost predicate Idle(s: Snap)
  {
    forall t :: t in s.aborting && t in s.members ==> s.members[t] == []
  }

  lemma StableIdle(s: Snap, s': Snap)
    requires Stable(s, s') && Idle(s)
    ensures Idle(s')
  {
    forall t | t in s'.aborting && t in s'.members ensures s'.members[t] == [] {
      if t in s.aborting { assert StableTxn(s, s', t); }
    }
  }

  /** The job of an idle transaction is not being aborted. */
  lemma IdleJob(s: Snap, j: JobId)
    requires Inv(s) && Idle(s) && j in s.jobs && s.jobs[j].txn.Some?
    ensures s.jobs[j].txn.value !in s.aborting
  {
    assert Listed(s, j);
  }

  lemma StableRefl(s: Snap)
    requires Base(s)
    ensures Stable(s, s)
  {
    forall t | t in s.aborting ensures StableTxn(s, s, t) {
      assert ListOk(s, t);
      forall m | m in s.members[t] ensures m in s.log { assert JobOkAt(s, m); }
    }
  }

  lemma StableTransitive(a: Snap, b: Snap, c: Snap)
    requires Stable(a, b) && Stable(b, c)
    ensures Stable(a, c)
  {
    StableThen(a, b, c, None);
  }

  lemma StableThen(a: Snap, b: Snap, c: Snap, t: Option<TxnId>)
    requires StableBut(a, b, t) && Stable(b, c)
    ensures StableBut(a, c, t)
  {
    forall u | u in c.aborting && u !in a.aborting && Some(u) != t ensures u in c.members && c.members[u] == [] {
      if u in b.aborting { assert StableTxn(b, c, u); }
    }
    forall t | t in a.aborting ensures StableTxn(a, c, t) {
      assert StableTxn(a, b, t) && StableTxn(b, c, t);
    }
    forall k ensures StableLog(a, c, k) {
      assert StableLog(a, b, k) && StableLog(b, c, k);
    }
  }

  lemma StandingStable(s: Snap, j: JobId, job: Job, drains: nat)
    requires Base(s) && j in s.jobs && SameStanding(s.jobs[j], job)
    requires s.jobs[j].status == Created ==> job.status == Created
    ensures Stable(s, WithJob(s, j, job, drains)) && Stable(s, SetJob(s, j, job))
  {
    hide StableTxn;
    hide StableLog;
    hide Incomplete;
    hide SameStanding;
    hide Base;
    StableRefl(s);
    forall t | t in s.aborting
      ensures StableTxn(s, WithJob(s, j, job, drains), t) && StableTxn(s, SetJob(s, j, job), t)
    {
      assert StableTxn(s, s, t);
      StandingStableTxn(s, SetJob(s, j, job), j, t);
      StandingStableTxn(s, WithJob(s, j, job, drains), j, t);
    }
    StandingStableSets(s, SetJob(s, j, job), j);
    StandingStableSets(s, WithJob(s, j, job, drains), j);
  }

  lemma StandingStableTxn(s: Snap, s': Snap, j: JobId, t: TxnId)
    requires StableTxn(s, s, t) && j in s.jobs && s' == s.(jobs := s'.jobs, drains := s'.drains) && t in s.aborting
    requires s'.jobs.Keys == s.jobs.Keys && forall k :: k in s.jobs && k != j ==> s'.jobs[k] == s.jobs[k]
    requires SameStanding(s.jobs[j], s'.jobs[j]) && (s.jobs[j].status == Created ==> s'.jobs[j].status == Created)
    ensures StableTxn(s, s', t)
  {}

  lemma StandingStableSets(s: Snap, s': Snap, j: JobId)
    requires j in s.jobs && s' == s.(jobs := s'.jobs, drains := s'.drains)
    requires s'.jobs.Keys == s.jobs.Keys && forall k :: k in s.jobs && k != j ==> s'.jobs[k] == s.jobs[k]
    requires SameStanding(s.jobs[j], s'.jobs[j])
    ensures Incomplete(s') <= Incomplete(s) && forall k :: StableLog(s, s', k)
  {
    forall k ensures StableLog(s, s', k) {}
  }

  /** A completed job that leaves a transaction disturbs no other transaction. */
  lemma LeavesStable(s0: Snap, s: Snap, s': Snap, j: JobId, t: TxnId, but: Option<TxnId>)
    requires Base(s) && StableBut(s0, s, but) && t !in s0.aborting && j in s.jobs && s.jobs[j].txn == Some(t)
    requires Leaves(s, s', j) && (j in s'.jobs ==> Completed(s'.jobs[j].status)) && (t in s.aborting ==> but == Some(t))
    ensures StableBut(s0, s', but)
  {
    forall u | u in s0.aborting ensures StableTxn(s0, s', u) {
      assert StableTxn(s0, s, u) && ListOk(s, u);
    }
    assert JobOkAt(s, j);
    forall k ensures StableLog(s0, s', k) {
      assert StableLog(s0, s, k);
    }
  }

  /** Other transactions do not notice that a job leaves its own. */
  lemma LeavesOthers(s: Snap, s': Snap, j: JobId, t: TxnId)
    requires Base(s) && OthersOk(s, Some(t)) && j in s.jobs && s.jobs[j].txn == Some(t) && Leaves(s, s', j)
    ensures OthersOk(s', Some(t))
  {
    forall u | u in s'.members && u != t ensures TxnOk(s', u) {
      assert TxnOk(s, u) && ListOk(s, u);
      SameTxn(s, s', u);
    }
  }

  /** A transaction whose members have not changed is as it was. */
  lemma SameTxn(s: Snap, s': Snap, t: TxnId)
    requires t in s.members && t in s'.members && s'.members[t] == s.members[t]
    requires (t in s.aborting <==> t in s'.aborting)
    requires forall m :: m in s.members[t] ==> m in s.jobs && m in s'.jobs && s'.jobs[m] == s.jobs[m]
    requires forall m :: m in s.members[t] ==> (m in s.log <==> m in s'.log) && (m in s.log ==> s'.log[m] == s.log[m])
    requires TxnOk(s, t)
    ensures TxnOk(s', t)
  {
    if t !in s.aborting {
      assert WorkingOk(s, t);
      if m :| m in s.members[t] && m in s.jobs && !Completed(s.jobs[m].status) {
        assert !Completed(s'.jobs[m].status);
      }
    }
  }

  // ---------------------------------------------------------------------------
  // Aborting a transaction
  // ---------------------------------------------------------------------------

  /** Every member but `j` has been cancelled. */
  function CancelOthers(jobs: map<JobId, Job>, ms: seq<JobId>, j: JobId): map<JobId, Job>
  {
    map m | m in jobs :: if m in ms && m != j then CancelAsync(jobs[m], true) else jobs[m]
  }

  function BeginAbort(s: Snap, j: JobId, t: TxnId): Snap
    requires t in s.members
  {
    s.(aborting := s.aborting + {t}, jobs := CancelOthers(s.jobs, s.members[t], j))
  }

  /** Job `j` aborts its transaction, and the abort loop will get to its end: whoever is not done is
      running. */
  ghost predicate MayAbort(s: Snap, j: JobId, t: TxnId)
  {
    Aborts(s, j, t) && AllStarted(s, t)
  }

  /** Job `j` aborts its transaction; if `j` itself does not abort then everybody is done. */
  ghost predicate Aborts(s: Snap, j: JobId, t: TxnId)
  {
    && j in s.jobs && s.jobs[j].txn == Some(t) && t in s.members
    && (!Completed(s.jobs[j].status) ==> s.jobs[j].forceCancel)
    && (!Doomed(s.jobs[j]) ==> s.jobs[j].status == Pending)
    && (!Doomed(s.jobs[j]) ==> forall m :: m in s.members[t] && m in s.jobs ==> Completed(s.jobs[m].status))
  }

  lemma BeginAbortBase(s: Snap, j: JobId, t: TxnId)
    requires Base(s) && Aborts(s, j, t)
    ensures Base(BeginAbort(s, j, t))
  {
    var s' := BeginAbort(s, j, t);
    forall k | k in s'.jobs ensures JobOkAt(s', k) {
      assert JobOkAt(s, k);
      CancelAsyncOk(s.jobs[k], true, s.drains[k], s.holds[k], s.log[k]);
    }
    forall u | u in s'.members ensures ListOk(s', u) { assert ListOk(s, u); }
    forall k | k in s'.jobs ensures Listed(s', k) { assert Listed(s, k); }
  }

  lemma BeginAbortTxns(s: Snap, j: JobId, t: TxnId)
    requires Base(s) && OthersOk(s, Some(t)) && Aborts(s, j, t) && t !in s.aborting
    ensures OthersOk(BeginAbort(s, j, t), Some(t))
    ensures Doomed(s.jobs[j]) ==> AbortingOk(BeginAbort(s, j, t), t)
  {
    var s' := BeginAbort(s, j, t);
    forall u | u in s'.members && u != t ensures TxnOk(s', u) {
      assert TxnOk(s, u) && ListOk(s, u) && ListOk(s, t);
      SameTxn(s, s', u);
    }
    assert JobOkAt(s, j);
  }

  lemma BeginAbortStable(s: Snap, j: JobId, t: TxnId)
    requires Base(s) && Aborts(s, j, t) && t !in s.aborting
    ensures StableBut(s, BeginAbort(s, j, t), Some(t))
  {
    var s' := BeginAbort(s, j, t);
    StableRefl(s);
    forall u | u in s.aborting ensures StableTxn(s, s', u) {
      assert StableTxn(s, s, u) && ListOk(s, u) && ListOk(s, t);
    }
  }

  /** What holds while the abort loop of `j` works through its transaction. */
  ghost predicate AbortLoop(s0: Snap, s: Snap, j: JobId, t: TxnId, doomed: bool)
  {
    && Base(s) && OthersOk(s, Some(t)) && t in s.members && t in s.aborting && t !in s0.aborting
    && StableBut(s0, s, Some(t)) && AllStarted(s, t) && (doomed ==> AbortingOk(s, t))
    && (!doomed ==> forall m :: m in s.members[t] && m in s.jobs ==>
          && Completed(s.jobs[m].status)
          && (if m == j then s.jobs[m].status == Pending && !Doomed(s.jobs[m]) else Doomed(s.jobs[m])))
  }

  lemma LoopStarts(s: Snap, j: JobId, t: TxnId)
    requires Base(s) && OthersOk(s, Some(t)) && MayAbort(s, j, t) && t !in s.aborting
    ensures AbortLoop(s, BeginAbort(s, j, t), j, t, Doomed(s.jobs[j]))
  {
    BeginAbortBase(s, j, t);
    BeginAbortTxns(s, j, t);
    BeginAbortStable(s, j, t);
  }

  /** During the loop everything is in order if all members are going to abort. */
  lemma LoopInv(s0: Snap, s: Snap, j: JobId, t: TxnId)
    requires AbortLoop(s0, s, j, t, true)
    ensures Inv(s)
  {
    forall u | u in s.members ensures TxnOk(s, u) {
      if u == t { assert AbortingOk(s, t); }
    }
  }

  /** Waiting for a member keeps the loop in order. */
  lemma LoopWaits(s0: Snap, s: Snap, s': Snap, j: JobId, t: TxnId)
    requires AbortLoop(s0, s, j, t, true) && Inv(s') && Stable(s, s')
    ensures AbortLoop(s0, s', j, t, true) && s'.members[t] == s.members[t]
  {
    StableThen(s0, s, s', Some(t));
    assert StableTxn(s, s', t);
    assert TxnOk(s', t);
  }

  /** Finalizing the first member keeps the loop in order. */
  lemma LoopFinalizes(s0: Snap, s: Snap, j: JobId, t: TxnId, doomed: bool, m: JobId)
    requires AbortLoop(s0, s, j, t, doomed) && m in s.members[t] && m in s.jobs && Completed(s.jobs[m].status)
    ensures m in s.log && s.jobs[m].txn == Some(t) && (Doomed(s.jobs[m]) || s.jobs[m].status == Pending)
    ensures Doomed(s.jobs[m]) <==> doomed || m != j
    ensures AbortLoop(s0, FinalizeSingle(s, m), j, t, doomed)
    ensures FinalizeSingle(s, m).members[t] == Remove(s.members[t], m)
  {
    assert ListOk(s, t) && JobOkAt(s, m);
    var s' := FinalizeSingle(s, m);
    FinalizeSingleOk(s, m);
    LeavesStable(s0, s, s', m, t, Some(t));
    LeavesOthers(s, s', m, t);
    RemoveElems(s.members[t], m);
    LoopRest(s, s', j, t, doomed, m);
  }

  lemma LoopRest(s: Snap, s': Snap, j: JobId, t: TxnId, doomed: bool, m: JobId)
    requires Base(s) && m in s.jobs && s.jobs[m].txn == Some(t) && t in s.members && Leaves(s, s', m)
    requires forall k :: k in Remove(s.members[t], m) <==> k in s.members[t] && k != m
    ensures (doomed && AbortingOk(s, t) ==> AbortingOk(s', t)) && (AllStarted(s, t) ==> AllStarted(s', t))
  {}

  /** The callbacks of the members `ms`, of which the first `n` have been finalized: each of them
      has been aborted and cleaned, but for `j` if that was not going to abort. */
  ghost predicate Verdicts(log0: Log, log: Log, ms: seq<JobId>, n: nat,
                           j: JobId, doomed: bool)
  {
    && (forall k {:trigger ms[k]} :: 0 <= k < |ms| ==> ms[k] in log0 && ms[k] in log)
    && forall k {:trigger ms[k]} :: 0 <= k < |ms| ==>
         log[ms[k]] == if k >= n then log0[ms[k]]
                       else log0[ms[k]] + (if ms[k] == j && !doomed then [Committed, Cleaned] else [Aborted, Cleaned])
  }

  /** The first `n` members are through. */
  ghost predicate AllThrough(s: Snap, ms: seq<JobId>, n: nat)
  {
    forall k {:trigger ms[k]} :: 0 <= k < n && k < |ms| ==> Through(s, ms[k])
  }

  lemma VerdictsWait(log0: Log, s: Snap, s': Snap, t: TxnId, ms: seq<JobId>, n: nat, j: JobId, doomed: bool)
    requires Verdicts(log0, s.log, ms, n, j, doomed) && AllThrough(s, ms, n) && Stable(s, s')
    requires t in s.members && t in s.aborting && n <= |ms| && s.members[t] == ms[n..]
    ensures Verdicts(log0, s'.log, ms, n, j, doomed) && AllThrough(s', ms, n)
  {
    assert StableTxn(s, s', t);
    forall k | 0 <= k < |ms|
      ensures ms[k] in s'.log && s'.log[ms[k]] == s.log[ms[k]] && (k < n ==> Through(s', ms[k]))
    {
      if k < n {
        assert StableLog(s, s', ms[k]);
      } else {
        assert ms[k] == s.members[t][k - n];
      }
    }
  }

  lemma VerdictsNext(log0: Log, s: Snap, ms: seq<JobId>, n: nat, j: JobId, doomed: bool)
    requires Verdicts(log0, s.log, ms, n, j, doomed) && AllThrough(s, ms, n) && n < |ms| && Distinct(ms)
    requires ms[n] in s.jobs && Base(s) && s.jobs[ms[n]].txn.Some? && Completed(s.jobs[ms[n]].status)
    requires Doomed(s.jobs[ms[n]]) || s.jobs[ms[n]].status == Pending
    requires Doomed(s.jobs[ms[n]]) <==> doomed || ms[n] != j
    ensures Verdicts(log0, FinalizeSingle(s, ms[n]).log, ms, n + 1, j, doomed)
    ensures AllThrough(FinalizeSingle(s, ms[n]), ms, n + 1)
  {
    FinalizeSingleOk(s, ms[n]);
    var s' := FinalizeSingle(s, ms[n]);
    forall k | 0 <= k < |ms| && k != n ensures s'.log[ms[k]] == s.log[ms[k]] && (k < n ==> Through(s', ms[k])) {
      assert ms[k] != ms[n];
      assert k < n ==> Through(s, ms[k]);
    }
  }

  lemma RemoveFirst(ms: seq<JobId>)
    requires ms != []
    ensures Remove(ms, ms[0]) == ms[1..]
  {}

  lemma FinalizeAllowed(s: Snap, j: JobId)
    requires Base(s) && j in s.jobs && s.jobs[j].txn.Some? && Completed(s.jobs[j].status)
    requires Doomed(s.jobs[j]) || s.jobs[j].status == Pending
    ensures Doomed(s.jobs[j]) ==> Allowed(s.jobs[j].status, Aborting)
    ensures Allowed(UpdateRc(s.jobs[j]).status, Concluded)
  {
    assert JobOkAt(s, j);
    FinalizedOk(s.jobs[j], s.drains[j], s.holds[j], s.log[j]);
  }

  // ---------------------------------------------------------------------------
  // References
  // ---------------------------------------------------------------------------

  function Held(s: Snap, j: JobId): Snap
    requires j in s.jobs
  {
    s.(jobs := s.jobs[j := s.jobs[j].(refcnt := s.jobs[j].refcnt + 1)], holds := s.holds + multiset{j})
  }

  function Released(s: Snap, j: JobId): Snap
    requires j in s.jobs
  {
    s.(jobs := if s.jobs[j].refcnt == 1 then s.jobs - {j} else s.jobs[j := s.jobs[j].(refcnt := s.jobs[j].refcnt - 1)],
       holds := s.holds - multiset{j})
  }

  /** Only the reference count of `j` has changed, or `j` has been freed after it was over. */
  ghost predicate OnlyRefs(s: Snap, s': Snap, j: JobId)
    requires j in s.jobs
  {
    && s' == s.(jobs := s'.jobs, holds := s'.holds) && s'.jobs.Keys + {j} == s.jobs.Keys
    && (forall k :: k in s.jobs && k != j ==> s'.jobs[k] == s.jobs[k] && s'.holds[k] == s.holds[k])
    && (forall k :: k in s'.holds ==> k in s'.jobs)
    && (j in s'.jobs ==> s'.jobs[j] == s.jobs[j].(refcnt := s'.jobs[j].refcnt) && s'.jobs[j].refcnt >= 1)
    && (j in s'.jobs ==> s'.jobs[j].refcnt - s'.holds[j] == s.jobs[j].refcnt - s.holds[j])
    && (j !in s'.jobs ==> s.jobs[j].txn == None)
  }

  lemma OnlyRefsInv(s: Snap, s': Snap, j: JobId)
    requires Inv(s) && j in s.jobs && OnlyRefs(s, s', j)
    ensures Inv(s')
  {
    forall k | k in s'.jobs ensures JobOkAt(s', k) && Listed(s', k) { assert JobOkAt(s, k) && Listed(s, k); }
    forall t | t in s'.members ensures ListOk(s', t) && TxnOk(s', t) {
      assert ListOk(s, t) && TxnOk(s, t);
      OnlyRefsTxn(s, s', j, t);
    }
  }

  lemma OnlyRefsTxn(s: Snap, s': Snap, j: JobId, t: TxnId)
    requires j in s.jobs && OnlyRefs(s, s', j) && t in s.members && ListOk(s, t) && TxnOk(s, t)
    ensures TxnOk(s', t)
  {
    if t !in s.aborting {
      assert WorkingOk(s, t);
      if m :| m in s.members[t] && m in s.jobs && !Completed(s.jobs[m].status) {
        assert !Completed(s'.jobs[m].status);
      }
    }
  }

  lemma HeldInv(s: Snap, j: JobId)
    requires Inv(s) && j in s.jobs
    ensures Inv(Held(s, j))
  {
    assert JobOkAt(s, j);
    OnlyRefsInv(s, Held(s, j), j);
  }

  lemma ReleasedInv(s: Snap, j: JobId)
    requires Inv(s) && j in s.holds
    ensures j in s.jobs && Inv(Released(s, j))
    ensures s.jobs[j].refcnt == 1 ==> s.jobs[j].status == Null && s.jobs[j].txn == None
  {
    assert j in s.jobs;
    assert JobOkAt(s, j);
    OnlyRefsInv(s, Released(s, j), j);
  }

  /** Holding a reference across something that keeps abort loops stable. */
  lemma HeldStable(s0: Snap, s: Snap, j: JobId)
    requires Base(s0) && j in s0.jobs && Stable(Held(s0, j), s) && Inv(s)
    ensures j in s.jobs && j in s.holds && Stable(s0, Released(s, j))
  {
    hide Inv;
    hide Base;
    hide StableTxn;
    hide Incomplete;
    var h := Held(s0, j);
    assert j in s.holds;
    ReleasedInv(s, j);
    var s' := Released(s, j);
    HeldStableSets(s0, s, j);
    forall t | t in s0.aborting ensures StableTxn(s0, s', t) {
      assert StableTxn(h, s, t);
      HeldStableTxn(s0, s, j, t);
    }
    forall k ensures StableLog(s0, s', k) {
      assert StableLog(h, s, k);
    }
  }

  lemma HeldStableSets(s0: Snap, s: Snap, j: JobId)
    requires j in s0.jobs && j in s.jobs && s.holds == Held(s0, j).holds && Incomplete(s) <= Incomplete(Held(s0, j))
    ensures Released(s, j).holds == s0.holds && Incomplete(Released(s, j)) <= Incomplete(s0)
  {
    HoldIncomplete(s0, j);
    assert Incomplete(Released(s, j)) <= Incomplete(s);
  }

  lemma HeldStableTxn(s0: Snap, s: Snap, j: JobId, t: TxnId)
    requires Base(s0) && j in s0.jobs && Inv(s) && StableTxn(Held(s0, j), s, t) && j in s.jobs
    requires s.jobs[j].refcnt == 1 ==> s.jobs[j].txn == None
    ensures StableTxn(s0, Released(s, j), t)
  {
    assert ListOk(s0, t) && ListOk(s, t);
  }

  lemma HeldMayAbort(s: Snap, j: JobId, t: TxnId)
    requires Base(s) && OthersOk(s, Some(t)) && MayAbort(s, j, t)
    ensures Base(Held(s, j)) && OthersOk(Held(s, j), Some(t)) && MayAbort(Held(s, j), j, t)
    ensures Doomed(Held(s, j).jobs[j]) == Doomed(s.jobs[j])
  {
    HeldAborts(s, j, t);
  }

  lemma HeldAborts(s: Snap, j: JobId, t: TxnId)
    requires Base(s) && OthersOk(s, Some(t)) && Aborts(s, j, t)
    ensures Base(Held(s, j)) && OthersOk(Held(s, j), Some(t)) && Aborts(Held(s, j), j, t)
    ensures AllStarted(s, t) ==> AllStarted(Held(s, j), t)
    ensures Doomed(Held(s, j).jobs[j]) == Doomed(s.jobs[j])
  {
    hide JobOk;
    HeldBase(s, j);
    var s' := Held(s, j);
    forall u | u in s'.members && u != t ensures TxnOk(s', u) {
      assert ListOk(s, u) && TxnOk(s, u);
      SameTxn(s, s', u);
    }
  }

  lemma HeldBase(s: Snap, j: JobId)
    requires Base(s) && j in s.jobs
    ensures Base(Held(s, j))
  {
    var s' := Held(s, j);
    forall k | k in s'.jobs ensures JobOkAt(s', k) && Listed(s', k) { assert JobOkAt(s, k) && Listed(s, k); }
    forall u | u in s'.members ensures ListOk(s', u) { assert ListOk(s, u); }
  }

  lemma CancelNext(jobs: map<JobId, Job>, ms: seq<JobId>, i: nat, j: JobId)
    requires i < |ms| && Distinct(ms) && ms[i] in jobs
    ensures var before := CancelOthers(jobs, ms[..i], j);
            && ms[i] in before && before[ms[i]] == jobs[ms[i]]
            && CancelOthers(jobs, ms[..i + 1], j) ==
                 if ms[i] == j then before else before[ms[i] := CancelAsync(jobs[ms[i]], true)]
  {
    assert ms[..i + 1] == ms[..i] + [ms[i]];
  }

  lemma LoopEnds(s0: Snap, s: Snap, j: JobId, t: TxnId, doomed: bool)
    requires AbortLoop(s0, s, j, t, doomed) && s.members[t] == []
    ensures Inv(s) && Stable(s0, s)
  {
    forall u | u in s.members ensures TxnOk(s, u) {
      if u == t { assert AbortingOk(s, t); }
    }
  }

  lemma BaseFacts(s: Snap, t: TxnId, m: JobId)
    requires Base(s) && t in s.members && m in s.members[t]
    ensures m in s.jobs && s.jobs[m].txn == Some(t) && m in s.drains && m in s.log && Distinct(s.members[t])
    ensures JobOk(s.jobs[m], s.drains[m], s.holds[m], s.log[m])
  {
    assert ListOk(s, t) && JobOkAt(s, m);
  }

  lemma BaseDistinct(s: Snap, t: TxnId)
    requires Base(s) && t in s.members
    ensures Distinct(s.members[t]) && forall m :: m in s.members[t] ==> m in s.jobs && m in s.log
  {
    assert ListOk(s, t);
  }

  lemma CancelNone(jobs: map<JobId, Job>, j: JobId)
    ensures CancelOthers(jobs, [], j) == jobs
  {}

  lemma AllInOrder(s: Snap, t: TxnId)
    requires Base(s) && OthersOk(s, Some(t)) && (t in s.members ==> TxnOk(s, t))
    ensures Inv(s)
  {
    forall u | u in s.members ensures TxnOk(s, u) {}
  }

  lemma HoldIncomplete(s: Snap, j: JobId)
    requires j in s.jobs
    ensures Incomplete(Held(s, j)) == Incomplete(s)
  {}

  lemma StableCount(s: Snap, s': Snap)
    requires Stable(s, s')
    ensures |Incomplete(s')| <= |Incomplete(s)|
  {
    SubsetCard(Incomplete(s'), Incomplete(s));
  }

  lemma {:induction false} SubsetCard(a: set<JobId>, b: set<JobId>)
    requires a <= b
    ensures |a| <= |b|
  {
    if x :| x in a {
      SubsetCard(a - {x}, b - {x});
    }
  }

  lemma VerdictsStart(log: Log, s: Snap, ms: seq<JobId>, j: JobId, doomed: bool)
    requires forall m :: m in ms ==> m in log
    ensures Verdicts(log, log, ms, 0, j, doomed) && AllThrough(s, ms, 0)
  {}

  lemma LoopMember(s0: Snap, s: Snap, j: JobId, t: TxnId, doomed: bool, m: JobId)
    requires AbortLoop(s0, s, j, t, doomed) && m in s.members[t]
    ensures m in s.jobs && s.jobs[m].txn == Some(t)
    ensures !Completed(s.jobs[m].status) ==> doomed && s.jobs[m].cancelled && s.jobs[m].started
  {
    assert ListOk(s, t) && JobOkAt(s, m);
  }

  lemma LoopBase(s0: Snap, s: Snap, j: JobId, t: TxnId, doomed: bool)
    requires AbortLoop(s0, s, j, t, doomed)
    ensures Base(s) && |Incomplete(s)| <= |Incomplete(s0)|
  {
    SubsetCard(Incomplete(s), Incomplete(s0));
  }

  lemma ThroughReleased(s: Snap, ms: seq<JobId>, j: JobId)
    requires Inv(s) && j in s.jobs && AllThrough(s, ms, |ms|)
    ensures AllThrough(Released(s, j), ms, |ms|)
  {
    forall k | 0 <= k < |ms| ensures Through(Released(s, j), ms[k]) {
      assert Through(s, ms[k]);
    }
  }

  lemma LoopSet(s0: Snap, s: Snap, j: JobId, t: TxnId, doomed: bool)
    requires AbortLoop(s0, s, j, t, doomed)
    ensures t in s.aborting
  {}

  // ---------------------------------------------------------------------------
  // A job completes
  // ---------------------------------------------------------------------------

  /** Whoever else is not done is running. */
  ghost predicate OthersStarted(s: Snap, j: JobId, t: TxnId)
    requires t in s.members
  {
    forall m :: m in s.members[t] && m in s.jobs && m != j && !Completed(s.jobs[m].status) ==> s.jobs[m].started
  }

  /** The job can complete: its coroutine is at its end, or it was cancelled before it started. */
  predicate CanComplete(j: Job)
  {
    if j.started then j.deferred && AtWork(j.status) else j.status == Created && j.forceCancel
  }

  /** The bottom half `job_exit` of the job is due. */
  predicate ExitDue(j: Job)
  {
    j.started && j.deferred && AtWork(j.status)
  }

  lemma TxnOf(s: Snap, j: JobId)
    requires Base(s) && j in s.jobs && !Over(s.jobs[j].status)
    ensures s.jobs[j].txn.Some? && s.jobs[j].txn.value in s.members && j in s.members[s.jobs[j].txn.value]
  {
    assert JobOkAt(s, j) && Listed(s, j);
  }

  /** The record of one job changes, other transactions do not notice. */
  lemma OneJobBase(s: Snap, j: JobId, job: Job, t: TxnId)
    requires Inv(s) && j in s.jobs && s.jobs[j].txn == Some(t) && job.txn == Some(t) && t in s.members
    requires j in s.drains && j in s.log && JobOk(job, s.drains[j], s.holds[j], s.log[j])
    ensures Base(SetJob(s, j, job)) && OthersOk(SetJob(s, j, job), Some(t))
  {
    var s' := SetJob(s, j, job);
    forall k | k in s'.jobs ensures JobOkAt(s', k) && Listed(s', k) { assert JobOkAt(s, k) && Listed(s, k); }
    forall u | u in s'.members ensures ListOk(s', u) { assert ListOk(s, u); }
    forall u | u in s'.members && u != t ensures TxnOk(s', u) {
      assert TxnOk(s, u) && ListOk(s, u);
      SameTxn(s, s', u);
    }
  }

  /** A job becomes complete. */
  lemma CompleteStable(s: Snap, j: JobId, job: Job)
    requires Base(s) && j in s.jobs && !Completed(s.jobs[j].status) && Completed(job.status) && !Over(job.status)
    requires s.jobs[j].started ==> job.started
    ensures |Incomplete(SetJob(s, j, job))| < |Incomplete(s)|
    ensures NotWaitedFor(s, j) ==> Stable(s, SetJob(s, j, job))
  {
    var s' := SetJob(s, j, job);
    StableRefl(s);
    assert Incomplete(s') == Incomplete(s) - {j};
    if NotWaitedFor(s, j) {
      forall t | t in s.aborting ensures StableTxn(s, s', t) { assert StableTxn(s, s, t) && ListOk(s, t); }
      forall k ensures StableLog(s, s', k) { assert StableLog(s, s, k); }
    }
  }

  /** No abort loop waits for job `j` to be started. */
  ghost predicate NotWaitedFor(s: Snap, j: JobId)
    requires j in s.jobs
  {
    s.jobs[j].status == Created && s.jobs[j].txn.Some? ==> s.jobs[j].txn.value !in s.aborting
  }

  lemma UpdateRcReady(s: Snap, j: JobId, t: TxnId)
    requires Inv(s) && j in s.jobs && s.jobs[j].txn == Some(t) && CanComplete(s.jobs[j])
    requires Doomed(s.jobs[j]) && t in s.members
    requires t !in s.aborting ==> OthersStarted(s, j, t)
    ensures Allowed(s.jobs[j].status, Aborting)
    ensures var s' := SetJob(s, j, UpdateRc(s.jobs[j]));
            && Base(s') && OthersOk(s', Some(t)) && |Incomplete(s')| < |Incomplete(s)|
            && (NotWaitedFor(s, j) ==> Stable(s, s'))
            && (if t in s'.aborting then AbortingOk(s', t) else MayAbort(s', j, t)) && Doomed(s'.jobs[j])
  {
    JobFacts(s, j);
    UpdateRcOk(s.jobs[j], s.drains[j], s.holds[j], s.log[j]);
    OneJobBase(s, j, UpdateRc(s.jobs[j]), t);
    CompleteStable(s, j, UpdateRc(s.jobs[j]));
    assert TxnOk(s, t);
  }

  /** A member of a transaction that is being aborted has been cancelled. */
  lemma AbortingDooms(s: Snap, j: JobId, t: TxnId)
    requires Inv(s) && t in s.members && t in s.aborting && j in s.members[t] && j in s.jobs
    requires !Completed(s.jobs[j].status)
    ensures s.jobs[j].forceCancel
  {
    assert TxnOk(s, t);
  }

  // ---------------------------------------------------------------------------
  // A transaction succeeds
  // ---------------------------------------------------------------------------

  function Waits(j: Job): Job
  {
    j.(status := Waiting)
  }

  /** All members have completed and none has failed. */
  ghost predicate AllWaiting(s: Snap, t: TxnId)
  {
    && t in s.members && t !in s.aborting
    && forall m :: m in s.members[t] ==>
         m in s.jobs && m in s.log && s.jobs[m].status == Waiting && !s.jobs[m].forceCancel && s.log[m] == []
  }

  lemma WaitingReady(s: Snap, j: JobId, t: TxnId)
    requires Inv(s) && j in s.jobs && s.jobs[j].txn == Some(t) && ExitDue(s.jobs[j])
    requires !Doomed(s.jobs[j]) && t in s.members
    requires t !in s.aborting
    ensures Allowed(s.jobs[j].status, Waiting)
    ensures var s' := SetJob(s, j, Waits(s.jobs[j]));
            && Base(s') && OthersOk(s', Some(t)) && Stable(s, s') && |Incomplete(s')| < |Incomplete(s)|
            && (forall m :: m in s'.members[t] && m in s'.jobs && Completed(s'.jobs[m].status) ==> s'.jobs[m].ret == 0)
            && ((exists m :: m in s'.members[t] && m in s'.jobs && !Completed(s'.jobs[m].status)) ==> Inv(s'))
            && ((forall m :: m in s'.members[t] && m in s'.jobs ==> Completed(s'.jobs[m].status)) ==> AllWaiting(s', t))
  {
    JobFacts(s, j);
    var s' := SetJob(s, j, Waits(s.jobs[j]));
    OneJobBase(s, j, Waits(s.jobs[j]), t);
    CompleteStable(s, j, Waits(s.jobs[j]));
    WaitingMembers(s, j, t);
    if m :| m in s'.members[t] && m in s'.jobs && !Completed(s'.jobs[m].status) {
      assert WorkingOk(s', t);
      AllInOrder(s', t);
    }
  }

  lemma WaitingMembers(s: Snap, j: JobId, t: TxnId)
    requires Inv(s) && j in s.jobs && s.jobs[j].txn == Some(t) && ExitDue(s.jobs[j])
    requires t in s.members && t !in s.aborting && j in s.log
    ensures forall m :: m in s.members[t] ==>
              && m in s.jobs && m in s.log && s.log[m] == []
              && s.jobs[m].status != Pending && s.jobs[m].status != Aborting && !Over(s.jobs[m].status)
              && (Completed(s.jobs[m].status) ==> s.jobs[m].ret == 0 && !s.jobs[m].forceCancel)
  {
    assert TxnOk(s, t) && Listed(s, j);
    forall m | m in s.members[t]
      ensures m in s.jobs && m in s.log && s.log[m] == [] && s.jobs[m].status != Pending && s.jobs[m].status != Aborting
      ensures !Over(s.jobs[m].status) && (Completed(s.jobs[m].status) ==> s.jobs[m].ret == 0 && !s.jobs[m].forceCancel)
    {
      BaseFacts(s, t, m);
    }
  }

  /** The members `ms` are pending. */
  function MakePending(jobs: map<JobId, Job>, ms: seq<JobId>): map<JobId, Job>
  {
    map m | m in jobs :: if m in ms then jobs[m].(status := Pending) else jobs[m]
  }

  lemma PendingNext(jobs: map<JobId, Job>, ms: seq<JobId>, i: nat)
    requires i < |ms| && Distinct(ms) && ms[i] in jobs
    ensures MakePending(jobs, ms[..0]) == jobs
    ensures var before := MakePending(jobs, ms[..i]);
            && ms[i] in before && before[ms[i]] == jobs[ms[i]]
            && MakePending(jobs, ms[..i + 1]) == before[ms[i] := jobs[ms[i]].(status := Pending)]
  {
    assert ms[..i + 1] == ms[..i] + [ms[i]];
  }

  lemma PendingReady(s: Snap, t: TxnId)
    requires Base(s) && OthersOk(s, Some(t)) && AllWaiting(s, t)
    ensures var s' := s.(jobs := MakePending(s.jobs, s.members[t]));
            Inv(s') && Stable(s, s') && Incomplete(s') == Incomplete(s) &&
            forall m :: m in s'.members[t] ==> m in s'.jobs && s'.jobs[m].status == Pending
  {
    var s' := s.(jobs := MakePending(s.jobs, s.members[t]));
    PendingBase(s, t);
    forall u | u in s'.members && u != t ensures TxnOk(s', u) {
      assert TxnOk(s, u) && ListOk(s, u) && ListOk(s, t);
      SameTxn(s, s', u);
    }
    assert WorkingOk(s', t);
    AllInOrder(s', t);
    PendingStable(s, t);
  }

  lemma PendingBase(s: Snap, t: TxnId)
    requires Base(s) && AllWaiting(s, t)
    ensures Base(s.(jobs := MakePending(s.jobs, s.members[t])))
  {
    var s' := s.(jobs := MakePending(s.jobs, s.members[t]));
    forall k | k in s'.jobs ensures JobOkAt(s', k) && Listed(s', k) { assert JobOkAt(s, k) && Listed(s, k); }
    forall u | u in s'.members ensures ListOk(s', u) { assert ListOk(s, u); }
  }

  lemma PendingStable(s: Snap, t: TxnId)
    requires Base(s) && AllWaiting(s, t)
    ensures var s' := s.(jobs := MakePending(s.jobs, s.members[t])); Stable(s, s') && Incomplete(s') == Incomplete(s)
  {
    var s' := s.(jobs := MakePending(s.jobs, s.members[t]));
    StableRefl(s);
    assert Incomplete(s') == Incomplete(s);
    forall u | u in s.aborting ensures StableTxn(s, s', u) {
      assert StableTxn(s, s, u) && ListOk(s, u) && ListOk(s, t);
    }
    forall k ensures StableLog(s, s', k) { assert StableLog(s, s, k); }
  }

  // ---------------------------------------------------------------------------
  // Finalizing a transaction
  // ---------------------------------------------------------------------------

  /** The jobs `ms` have been asked to prepare. */
  function PreparedLog(log: Log, ms: seq<JobId>, prepare: JobId -> int): Log
  {
    map m | m in log :: if m in ms then log[m] + [Prepared(prepare(m))] else log[m]
  }

  lemma PreparedNext(log: Log, ms: seq<JobId>, i: nat, prepare: JobId -> int)
    requires i < |ms| && Distinct(ms) && ms[i] in log
    ensures PreparedLog(log, ms[..0], prepare) == log
    ensures var before := PreparedLog(log, ms[..i], prepare);
            && ms[i] in before && before[ms[i]] == log[ms[i]]
            && PreparedLog(log, ms[..i + 1], prepare) == before[ms[i] := log[ms[i]] + [Prepared(prepare(ms[i]))]]
  {
    assert ms[..i + 1] == ms[..i] + [ms[i]];
  }

  /** All members are pending and none has been asked to prepare. */
  ghost predicate AllPending(s: Snap, t: TxnId)
  {
    && t in s.members && t !in s.aborting
    && forall m :: m in s.members[t] ==>
         m in s.jobs && m in s.log && s.jobs[m].status == Pending && !Doomed(s.jobs[m]) && s.log[m] == []
  }

  lemma PendingTogether(s: Snap, j: JobId, t: TxnId)
    requires Inv(s) && j in s.jobs && s.jobs[j].status == Pending && s.jobs[j].txn == Some(t) && t !in s.aborting
    ensures AllPending(s, t)
  {
    TxnOf(s, j);
    assert TxnOk(s, t);
    forall m | m in s.members[t]
      ensures m in s.jobs && m in s.log && s.jobs[m].status == Pending && !Doomed(s.jobs[m]) && s.log[m] == []
    {
      BaseFacts(s, t, m);
    }
  }

  function PrepareFailed(j: Job, rc: int): Job
  {
    j.(ret := rc, status := Aborting)
  }

  /** The state after the `n`-th member was asked to prepare; `rc` is its answer. */
  function AfterPrepare(s: Snap, t: TxnId, n: nat, prepare: JobId -> int): Snap
    requires t in s.members && n <= |s.members[t]|
  {
    s.(log := PreparedLog(s.log, s.members[t][..n], prepare))
  }

  lemma AfterPrepareOk(s: Snap, t: TxnId, n: nat, prepare: JobId -> int)
    requires Base(s) && OthersOk(s, Some(t)) && AllPending(s, t) && n <= |s.members[t]|
    ensures var s' := AfterPrepare(s, t, n, prepare); Base(s') && OthersOk(s', Some(t)) && Stable(s, s')
  {
    var s' := AfterPrepare(s, t, n, prepare);
    forall k | k in s'.jobs ensures JobOkAt(s', k) && Listed(s', k) { assert JobOkAt(s, k) && Listed(s, k); }
    forall u | u in s'.members ensures ListOk(s', u) { assert ListOk(s, u); }
    forall u | u in s'.members && u != t ensures TxnOk(s', u) {
      assert TxnOk(s, u) && ListOk(s, u) && ListOk(s, t);
      SameTxn(s, s', u);
    }
    AfterPrepareStable(s, t, n, prepare);
  }

  lemma AfterPrepareStable(s: Snap, t: TxnId, n: nat, prepare: JobId -> int)
    requires Base(s) && AllPending(s, t) && n <= |s.members[t]|
    ensures Stable(s, AfterPrepare(s, t, n, prepare))
  {
    var s' := AfterPrepare(s, t, n, prepare);
    StableRefl(s);
    assert Incomplete(s') == Incomplete(s);
    forall u | u in s.aborting ensures StableTxn(s, s', u) {
      assert StableTxn(s, s, u) && ListOk(s, u) && ListOk(s, t);
    }
    forall k ensures StableLog(s, s', k) { assert StableLog(s, s, k); }
  }

  /** The state in which the failure of the prepare callback of member `f` is acted upon. */
  function AfterFailure(s: Snap, t: TxnId, f: nat, prepare: JobId -> int): Snap
    requires t in s.members && f < |s.members[t]| && s.members[t][f] in s.jobs
  {
    var m := s.members[t][f];
    SetJob(AfterPrepare(s, t, f + 1, prepare), m, PrepareFailed(s.jobs[m], prepare(m)))
  }

  lemma AfterFailureOk(s: Snap, j: JobId, t: TxnId, f: nat, prepare: JobId -> int)
    requires Base(s) && OthersOk(s, Some(t)) && AllPending(s, t) && f < |s.members[t]| && prepare(s.members[t][f]) != 0
    requires j in s.members[t] && s.members[t][f] in s.jobs
    ensures var s' := AfterFailure(s, t, f, prepare);
            && Base(s') && OthersOk(s', Some(t)) && Stable(s, s') && MayAbort(s', j, t)
            && (Doomed(s'.jobs[j]) <==> j == s.members[t][f])
  {
    hide Base, OthersOk, Stable, PreparedLog;
    var s1, s', m := AfterPrepare(s, t, f + 1, prepare), AfterFailure(s, t, f, prepare), s.members[t][f];
    AfterPrepareOk(s, t, f + 1, prepare);
    BaseFacts(s, t, m);
    BaseFacts(s, t, j);
    FailureBase(s1, t, m, prepare(m));
    FailureStable(s1, t, m, prepare(m));
    StableTransitive(s, s1, s');
  }

  lemma FailureBase(s: Snap, t: TxnId, m: JobId, rc: int)
    requires Base(s) && OthersOk(s, Some(t)) && t in s.members && m in s.members[t] && m in s.jobs
    requires s.jobs[m].status == Pending && rc != 0
    ensures Base(SetJob(s, m, PrepareFailed(s.jobs[m], rc)))
    ensures OthersOk(SetJob(s, m, PrepareFailed(s.jobs[m], rc)), Some(t))
  {
    var s' := SetJob(s, m, PrepareFailed(s.jobs[m], rc));
    assert ListOk(s, t);
    forall k | k in s'.jobs ensures JobOkAt(s', k) && Listed(s', k) { assert JobOkAt(s, k) && Listed(s, k); }
    forall u | u in s'.members ensures ListOk(s', u) { assert ListOk(s, u); }
    forall u | u in s'.members && u != t ensures TxnOk(s', u) {
      assert TxnOk(s, u) && ListOk(s, u);
      SameTxn(s, s', u);
    }
  }

  lemma FailureStable(s: Snap, t: TxnId, m: JobId, rc: int)
    requires Base(s) && t in s.members && m in s.members[t] && m in s.jobs
    requires s.jobs[m].status == Pending && t !in s.aborting
    ensures Stable(s, SetJob(s, m, PrepareFailed(s.jobs[m], rc)))
  {
    var s' := SetJob(s, m, PrepareFailed(s.jobs[m], rc));
    StableRefl(s);
    assert Incomplete(s') == Incomplete(s);
    forall u | u in s.aborting ensures StableTxn(s, s', u) { assert StableTxn(s, s, u); }
    forall k ensures StableLog(s, s', k) { assert StableLog(s, s, k); }
  }

  /** What holds while the members of a transaction are committed one by one. */
  ghost predicate CommitLoop(s0: Snap, s: Snap, t: TxnId, ms: seq<JobId>, n: nat)
  {
    && Base(s) && OthersOk(s, Some(t)) && Stable(s0, s) && t in s.members && t !in s.aborting && t !in s0.aborting
    && n <= |ms| && s.members[t] == ms[n..]
    && forall m :: m in s.members[t] && m in s.jobs ==> s.jobs[m].status == Pending && !Doomed(s.jobs[m])
  }

  ghost predicate Commits(log0: Log, log: Log, ms: seq<JobId>, n: nat)
  {
    && (forall k {:trigger ms[k]} :: 0 <= k < |ms| ==> ms[k] in log0 && ms[k] in log)
    && forall k {:trigger ms[k]} :: 0 <= k < |ms| ==>
         log[ms[k]] == log0[ms[k]] + (if k < n then [Committed, Cleaned] else [])
  }

  lemma CommitNext(s0: Snap, s: Snap, t: TxnId, ms: seq<JobId>, n: nat)
    requires CommitLoop(s0, s, t, ms, n) && n < |ms|
    ensures ms[n] in s.jobs && ms[n] in s.log && s.jobs[ms[n]].txn == Some(t) && s.jobs[ms[n]].status == Pending
    ensures CommitLoop(s0, FinalizeSingle(s, ms[n]), t, ms, n + 1)
  {
    var m := ms[n];
    assert m == s.members[t][0];
    BaseFacts(s, t, m);
    FinalizeSingleOk(s, m);
    var s' := FinalizeSingle(s, m);
    LeavesStable(s0, s, s', m, t, None);
    LeavesOthers(s, s', m, t);
    RemoveFirst(s.members[t]);
  }

  lemma CommitsNext(log0: Log, s: Snap, ms: seq<JobId>, n: nat)
    requires Commits(log0, s.log, ms, n) && n < |ms| && Distinct(ms) && ms[n] in s.jobs
    requires ms[n] in s.log && !Doomed(s.jobs[ms[n]])
    ensures Commits(log0, FinalizeSingle(s, ms[n]).log, ms, n + 1)
  {
    forall k | 0 <= k < |ms| && k != n ensures ms[k] != ms[n] {}
  }

  lemma CommitEnds(s0: Snap, s: Snap, t: TxnId, ms: seq<JobId>)
    requires CommitLoop(s0, s, t, ms, |ms|)
    ensures Inv(s) && Stable(s0, s) && s.members[t] == []
  {
    assert WorkingOk(s, t);
    AllInOrder(s, t);
  }

  lemma CommitStarts(s0: Snap, s: Snap, t: TxnId)
    requires Base(s0) && OthersOk(s0, Some(t)) && AllPending(s0, t) && s.members == s0.members && s.jobs == s0.jobs
    requires s.aborting == s0.aborting && Base(s) && OthersOk(s, Some(t)) && Stable(s0, s)
    ensures CommitLoop(s0, s, t, s.members[t], 0) && Commits(s.log, s.log, s.members[t], 0)
  {
    assert ListOk(s, t);
  }

  lemma CommitMember(s0: Snap, s: Snap, t: TxnId, ms: seq<JobId>, n: nat)
    requires CommitLoop(s0, s, t, ms, n) && n < |ms|
    ensures Base(s) && ms[n] in s.jobs && ms[n] in s.log && !Doomed(s.jobs[ms[n]]) && s.jobs[ms[n]].status == Pending
    ensures s.jobs[ms[n]].txn == Some(t)
  {
    assert ms[n] == s.members[t][0];
    BaseFacts(s, t, ms[n]);
  }

  lemma PendingMember(s: Snap, t: TxnId, m: JobId)
    requires AllPending(s, t) && m in s.members[t]
    ensures m in s.jobs && m in s.log && s.jobs[m].status == Pending && s.jobs[m].ret == 0
    ensures !s.jobs[m].forceCancel && s.log[m] == []
  {}

  /** What members `ms` see when the `f`-th is the first whose prepare callback fails; `j` is the
      job whose completion or finalization drives this. */
  ghost predicate FinalizeLog(log: Log, ms: seq<JobId>, f: nat, j: JobId, prepare: JobId -> int)
  {
    forall k {:trigger FinalizeLogAt(log, ms, f, j, prepare, k)} ::
      0 <= k < |ms| ==> FinalizeLogAt(log, ms, f, j, prepare, k)
  }

  ghost predicate FinalizeLogAt(log: Log, ms: seq<JobId>, f: nat, j: JobId, prepare: JobId -> int, k: nat)
    requires k < |ms|
  {
    && ms[k] in log
    && log[ms[k]] == (if k <= f then [Prepared(prepare(ms[k]))] else []) +
                     (if f == |ms| || (ms[k] == j && k != f) then [Committed, Cleaned] else [Aborted, Cleaned])
  }

  lemma CommitLog(s: Snap, log: Log, t: TxnId, j: JobId, prepare: JobId -> int)
    requires AllPending(s, t) && Commits(PreparedLog(s.log, s.members[t], prepare), log, s.members[t], |s.members[t]|)
    ensures FinalizeLog(log, s.members[t], |s.members[t]|, j, prepare)
  {
    var ms := s.members[t];
    forall k | 0 <= k < |ms| ensures FinalizeLogAt(log, ms, |ms|, j, prepare, k) {
      assert ms[k] in ms && ms[k] in log;
    }
  }

  lemma AbortLog(s: Snap, log: Log, t: TxnId, f: nat, j: JobId, prepare: JobId -> int)
    requires AllPending(s, t) && f < |s.members[t]| && Distinct(s.members[t])
    requires var ms := s.members[t];
             Verdicts(PreparedLog(s.log, ms[..f + 1], prepare), log, ms, |ms|, j, j == ms[f])
    ensures FinalizeLog(log, s.members[t], f, j, prepare)
  {
    forall k | 0 <= k < |s.members[t]| ensures FinalizeLogAt(log, s.members[t], f, j, prepare, k) {
      AbortLogAt(s, log, t, f, j, prepare, k);
    }
  }

  lemma AbortLogAt(s: Snap, log: Log, t: TxnId, f: nat, j: JobId, prepare: JobId -> int, k: nat)
    requires AllPending(s, t) && f < |s.members[t]| && Distinct(s.members[t]) && k < |s.members[t]|
    requires var ms := s.members[t];
             Verdicts(PreparedLog(s.log, ms[..f + 1], prepare), log, ms, |ms|, j, j == ms[f])
    ensures FinalizeLogAt(log, s.members[t], f, j, prepare, k)
  {
    var ms := s.members[t];
    InPrefix(ms, f + 1, k);
    var before := PreparedLog(s.log, ms[..f + 1], prepare);
    assert ms[k] in ms;
    assert before[ms[k]] == if k <= f then [Prepared(prepare(ms[k]))] else [];
    SameJob(ms, j, k, f);
  }

  lemma SameJob(ms: seq<JobId>, j: JobId, k: nat, f: nat)
    requires Distinct(ms) && k < |ms| && f < |ms|
    ensures ms[k] == j && j != ms[f] <==> ms[k] == j && k != f
  {}

  lemma InPrefix(ms: seq<JobId>, n: nat, k: nat)
    requires Distinct(ms) && n <= |ms| && k < |ms|
    ensures ms[k] in ms[..n] <==> k < n
  {
    if k < n {
      assert ms[..n][k] == ms[k];
    } else {
      forall i | 0 <= i < |ms[..n]| ensures ms[..n][i] != ms[k] {}
    }
  }

  lemma PreparedNone(log: Log, prepare: JobId -> int)
    ensures PreparedLog(log, [], prepare) == log
  {}

  lemma Parts(s: Snap, t: TxnId)
    requires Inv(s)
    ensures Base(s) && OthersOk(s, Some(t))
  {}

  lemma FailureFacts(s: Snap, t: TxnId, f: nat, prepare: JobId -> int)
    requires t in s.members && f < |s.members[t]| && s.members[t][f] in s.jobs
    ensures var s' := AfterFailure(s, t, f, prepare);
            && s'.members == s.members && s'.aborting == s.aborting
            && s'.log == PreparedLog(s.log, s.members[t][..f + 1], prepare)
            && (forall k :: k in s.jobs ==> k in s'.jobs && s'.jobs[k].txn == s.jobs[k].txn)
  {}

  lemma PrepareFacts(s: Snap, t: TxnId, f: nat, prepare: JobId -> int)
    requires t in s.members && f == |s.members[t]|
    ensures AfterPrepare(s, t, f, prepare) == s.(log := PreparedLog(s.log, s.members[t], prepare))
  {
    assert s.members[t][..f] == s.members[t];
  }

  lemma SameKeys(s: Snap, s': Snap)
    requires Stable(s, s')
    ensures s'.members.Keys == s.members.Keys && s'.holds == s.holds
  {}

  /** All other members have completed, and none asks for a manual finalize. */
  ghost predicate LastAndAutomatic(s: Snap, j: JobId, t: TxnId)
    requires t in s.members
  {
    forall m :: m in s.members[t] && m in s.jobs ==> (m == j || Completed(s.jobs[m].status)) && s.jobs[m].autoFinalize
  }

  /** What `job_do_finalize_locked` has done to the callbacks of `ms`. */
  ghost predicate FinalizedAll(log: Log, ms: seq<JobId>, f: nat, j: JobId, prepare: JobId -> int)
  {
    && f <= |ms| && (forall k :: 0 <= k < f ==> prepare(ms[k]) == 0) && (f < |ms| ==> prepare(ms[f]) != 0)
    && FinalizeLog(log, ms, f, j, prepare)
  }

  lemma PendingNone(jobs: map<JobId, Job>)
    ensures MakePending(jobs, []) == jobs
  {}

  lemma MakePendingFacts(jobs: map<JobId, Job>, ms: seq<JobId>)
    ensures forall m :: m in jobs ==>
              && m in MakePending(jobs, ms) && MakePending(jobs, ms)[m].autoFinalize == jobs[m].autoFinalize
              && MakePending(jobs, ms)[m].txn == jobs[m].txn
              && (m in ms ==> MakePending(jobs, ms)[m].status == Pending)
  {}

  lemma StaysComplete(s: Snap, s': Snap, j: JobId)
    requires Stable(s, s') && (j in s.jobs ==> Completed(s.jobs[j].status))
    ensures j in s'.jobs ==> Completed(s'.jobs[j].status)
  {
    assert j !in Incomplete(s);
    assert j !in Incomplete(s');
  }

  lemma WaitingNotAborting(s: Snap, t: TxnId)
    requires AllWaiting(s, t)
    ensures t !in s.aborting
  {}

  lemma LastIs(s: Snap, s': Snap, j: JobId, t: TxnId)
    requires t in s.members && j in s.jobs && s' == SetJob(s, j, Waits(s.jobs[j]))
    ensures LastAndAutomatic(s, j, t) <==>
            && (forall m :: m in s'.members[t] && m in s'.jobs ==> Completed(s'.jobs[m].status))
            && (forall m :: m in s'.members[t] && m in s'.jobs ==> s'.jobs[m].autoFinalize)
  {
    forall m | m in s'.jobs
      ensures s'.jobs[m].autoFinalize == s.jobs[m].autoFinalize
      ensures Completed(s'.jobs[m].status) <==> m == j || Completed(s.jobs[m].status)
    {}
  }

  /** Some other member is still at work. */
  ghost predicate OthersAtWork(s: Snap, j: JobId, t: TxnId)
    requires t in s.members
  {
    exists m :: m in s.members[t] && m in s.jobs && m != j && !Completed(s.jobs[m].status)
  }

  /** Job `j` waits for the others, and nothing else has changed. */
  ghost predicate OnlyWaits(s: Snap, s': Snap, j: JobId)
    requires j in s.jobs
  {
    && s'.log == s.log && s'.members == s.members && s'.aborting == s.aborting && j in s'.jobs
    && s'.jobs == s.jobs[j := s'.jobs[j]]
    && s'.jobs[j] == s.jobs[j].(status := Waiting, busy := s'.jobs[j].busy, refcnt := s'.jobs[j].refcnt)
  }

  /** What the completion of job `j` means for its transaction `t`: nothing yet if it is being
      aborted already or if others are still at work; all members abort if `j` failed or was
      cancelled; otherwise they are finalized together, if nobody asks for a manual finalize. */
  ghost predicate Completion(s: Snap, s': Snap, j: JobId, t: TxnId, f: nat, prepare: JobId -> int)
    requires j in s.jobs && t in s.members
  {
    var ms := s.members[t];
    && t in s'.members
    && (t in s.aborting ==> s'.log == s.log && s'.members == s.members)
    && (t !in s.aborting && Doomed(s.jobs[j]) ==> s'.members[t] == [] && Verdicts(s.log, s'.log, ms, |ms|, j, true))
    && (t !in s.aborting && !Doomed(s.jobs[j]) && LastAndAutomatic(s, j, t) ==>
          s'.members[t] == [] && FinalizedAll(s'.log, ms, f, j, prepare))
    && (t !in s.aborting && !Doomed(s.jobs[j]) && !LastAndAutomatic(s, j, t) ==>
          s'.log == s.log && s'.members == s.members)
    && (t !in s.aborting && !Doomed(s.jobs[j]) && OthersAtWork(s, j, t) ==> OnlyWaits(s, s', j))
  }

  lemma StillAtWork(s: Snap, s': Snap, j: JobId, t: TxnId)
    requires t in s.members && j in s.jobs && s' == SetJob(s, j, Waits(s.jobs[j]))
    ensures OnlyWaits(s, s', j)
    ensures OthersAtWork(s, j, t) ==> exists m :: m in s'.members[t] && m in s'.jobs && !Completed(s'.jobs[m].status)
  {
    if m :| m in s.members[t] && m in s.jobs && m != j && !Completed(s.jobs[m].status) {
      assert !Completed(s'.jobs[m].status);
    }
  }

  /** Reference counts and the busy flag do not matter for that. */
  lemma CompletionHeld(s: Snap, s': Snap, s'': Snap, j: JobId, t: TxnId, f: nat, prepare: JobId -> int)
    requires j in s.jobs && t in s.members && Completion(HeldExit(s, j), s', j, t, f, prepare)
    requires j in s'.jobs && s'' == Released(s', j) && (s'.jobs[j].refcnt == 1 ==> s'.jobs[j].status == Null)
    ensures Completion(s, s'', j, t, f, prepare)
  {
    hide Verdicts;
    hide FinalizedAll;
    var h := HeldExit(s, j);
    assert Doomed(h.jobs[j]) == Doomed(s.jobs[j]);
    assert LastAndAutomatic(h, j, t) == LastAndAutomatic(s, j, t) by {
      forall m | m in s.jobs
        ensures h.jobs[m].autoFinalize == s.jobs[m].autoFinalize && h.jobs[m].status == s.jobs[m].status
      {}
    }
    if OthersAtWork(s, j, t) {
      assert OthersAtWork(h, j, t);
      if OnlyWaits(h, s', j) { ReleasedWaits(s, s', j); }
    }
  }

  lemma LastRefIsNull(s: Snap, j: JobId)
    requires Inv(s) && j in s.holds
    ensures j in s.jobs && (s.jobs[j].refcnt == 1 ==> s.jobs[j].status == Null)
  {
    assert j in s.jobs && JobOkAt(s, j);
  }

  lemma ReleasedWaits(s: Snap, s': Snap, j: JobId)
    requires j in s.jobs && OnlyWaits(HeldExit(s, j), s', j) && (s'.jobs[j].refcnt == 1 ==> s'.jobs[j].status == Null)
    ensures OnlyWaits(s, Released(s', j), j)
  {
    var h, s'' := HeldExit(s, j), Released(s', j);
    assert s''.jobs == s.jobs[j := s''.jobs[j]];
  }

  /** The job in the bottom half `job_exit`. */
  function Exiting(j: Job): Job
  {
    j.(busy := false)
  }

  /** A reference is held on the exiting job. */
  function HeldExit(s: Snap, j: JobId): Snap
    requires j in s.jobs
  {
    SetJob(Held(s, j), j, Exiting(Held(s, j).jobs[j]))
  }

  lemma HeldExitOk(s: Snap, j: JobId, t: TxnId)
    requires Inv(s) && j in s.jobs && s.jobs[j].txn == Some(t) && t in s.members
    requires ExitDue(s.jobs[j]) && (Doomed(s.jobs[j]) && t !in s.aborting ==> OthersStarted(s, j, t))
    ensures var h := HeldExit(s, j);
            && Inv(h) && Stable(Held(s, j), h) && Incomplete(h) == Incomplete(s)
            && (Doomed(h.jobs[j]) && t !in h.aborting ==> OthersStarted(h, j, t))
            && h.jobs[j].txn == Some(t) && CanComplete(h.jobs[j])
  {
    HeldInv(s, j);
    var g := Held(s, j);
    JobFacts(g, j);
    SetJobInv(g, j, Exiting(g.jobs[j]));
    HeldExitSets(s, j, t);
  }

  lemma HeldExitSets(s: Snap, j: JobId, t: TxnId)
    requires j in s.jobs && t in s.members
    ensures Incomplete(HeldExit(s, j)) == Incomplete(s)
    ensures (OthersStarted(s, j, t) ==> OthersStarted(HeldExit(s, j), j, t))
  {}

  lemma FailedCompletion(s: Snap, s': Snap, j: JobId, t: TxnId, f: nat, prepare: JobId -> int)
    requires j in s.jobs && t in s.members && Doomed(s.jobs[j]) && t in s'.members
    requires t in s.aborting ==> s'.log == s.log && s'.members == s.members
    requires t !in s.aborting ==> s'.members[t] == [] && Verdicts(s.log, s'.log, s.members[t], |s.members[t]|, j, true)
    ensures Completion(s, s', j, t, f, prepare)
  {}

  lemma GoodCompletion(s: Snap, s': Snap, j: JobId, t: TxnId, f: nat, prepare: JobId -> int)
    requires j in s.jobs && t in s.members && !Doomed(s.jobs[j]) && t in s'.members && t !in s.aborting
    requires LastAndAutomatic(s, j, t) ==> s'.members[t] == [] && FinalizedAll(s'.log, s.members[t], f, j, prepare)
    requires !LastAndAutomatic(s, j, t) ==> s'.log == s.log && s'.members == s.members
    requires OthersAtWork(s, j, t) ==> OnlyWaits(s, s', j)
    ensures Completion(s, s', j, t, f, prepare)
  {}

  /** What a member of a transaction that is being aborted keeps while the event loop runs. */
  lemma StillMember(s: Snap, s': Snap, j: JobId, t: TxnId)
    requires Stable(s, s') && t in s.aborting && t in s.members && j in s.members[t]
    ensures t in s'.aborting && t in s'.members && s'.members[t] == s.members[t] && j in s.jobs && j in s'.jobs
    ensures s.jobs[j].started ==> s'.jobs[j].started
    ensures s.jobs[j].status == Created ==> s'.jobs[j].status == Created
  {
    assert StableTxn(s, s', t);
  }

  /** What is known of a cancelled member that has not completed. */
  lemma CancelledMember(s: Snap, j: JobId, t: TxnId)
    requires Inv(s) && t in s.aborting && t in s.members && j in s.members[t] && j in s.jobs
    requires !Completed(s.jobs[j].status) && s.jobs[j].started
    ensures s.jobs[j].txn == Some(t) && s.jobs[j].forceCancel
    ensures Resting(s.jobs[j].status) || AtWork(s.jobs[j].status)
    ensures Resting(s.jobs[j].status) ==> !s.jobs[j].deferred
  {
    BaseFacts(s, t, j);
    AbortingDooms(s, j, t);
  }

  lemma StableSelf(s: Snap)
    requires Inv(s)
    ensures Stable(s, s)
  {
    StableRefl(s);
  }

  lemma ReleasedStatus(s: Snap, j: JobId)
    requires j in s.jobs
    ensures j in Released(s, j).jobs ==> Released(s, j).jobs[j].status == s.jobs[j].status
  {}

  // ---------------------------------------------------------------------------
  // Creation, dismissal and cancellation
  // ---------------------------------------------------------------------------

  function NewJob(t: TxnId, autoFinalize: bool, autoDismiss: bool): Job
  {
    Job(Created, 1, 1, true, false, false, false, false, false, false, 0, Some(t), autoFinalize, autoDismiss, true)
  }

  /** The state after `job_create`; an unknown transaction is a new one. */
  function WithNewJob(s: Snap, j: JobId, t: TxnId, job: Job): Snap
  {
    s.(jobs := s.jobs[j := job], members := s.members[t := [j] + (if t in s.members then s.members[t] else [])],
       drains := s.drains[j := 0], log := s.log[j := []])
  }

  /** Jobs may still join the transaction: it is neither being aborted nor about to be finalized. */
  ghost predicate MayJoin(s: Snap, t: TxnId)
  {
    t in s.members ==> t !in s.aborting && forall m :: m in s.members[t] && m in s.jobs ==> s.jobs[m].status != Pending
  }

  /** Job `j` may leave the transaction: it is not the only one that others are waiting for. */
  ghost predicate MayLeave(s: Snap, j: JobId, t: TxnId)
  {
    t in s.members ==>
      || t in s.aborting
      || (forall m :: m in s.members[t] ==> m == j)
      || (exists m :: m in s.members[t] && m in s.jobs && m != j && !Completed(s.jobs[m].status))
  }

  lemma WithNewJobInv(s: Snap, j: JobId, t: TxnId, autoFinalize: bool, autoDismiss: bool)
    requires Inv(s) && j !in s.log && MayJoin(s, t)
    ensures Inv(WithNewJob(s, j, t, NewJob(t, autoFinalize, autoDismiss)))
    ensures Idle(s) ==> Idle(WithNewJob(s, j, t, NewJob(t, autoFinalize, autoDismiss)))
  {
    var s' := WithNewJob(s, j, t, NewJob(t, autoFinalize, autoDismiss));
    forall k | k in s'.jobs ensures JobOkAt(s', k) {
      if k != j { assert JobOkAt(s, k); }
    }
    NewJobLists(s, j, t, NewJob(t, autoFinalize, autoDismiss));
    forall u | u in s'.members ensures TxnOk(s', u) {
      if u in s.members { assert ListOk(s, u) && TxnOk(s, u); }
      if u == t { NewJobTxn(s, j, t, NewJob(t, autoFinalize, autoDismiss)); } else { SameTxn(s, s', u); }
    }
  }

  /** A job that joins a transaction which is being aborted or about to be finalized does not fit in. */
  lemma JoinsTooLate(s: Snap, j: JobId, t: TxnId, autoFinalize: bool, autoDismiss: bool)
    requires Inv(s) && j !in s.log && !MayJoin(s, t)
    ensures !Inv(WithNewJob(s, j, t, NewJob(t, autoFinalize, autoDismiss)))
  {
    var s' := WithNewJob(s, j, t, NewJob(t, autoFinalize, autoDismiss));
    assert ListOk(s, t);
    assert j in s'.members[t] && s'.jobs[j].status == Created;
    if t !in s.aborting {
      var m :| m in s.members[t] && m in s.jobs && s.jobs[m].status == Pending;
      assert m in s'.members[t] && s'.jobs[m].status == Pending;
    }
    assert Inv(s') ==> TxnOk(s', t);
    assert !TxnOk(s', t);
  }

  lemma NewJobLists(s: Snap, j: JobId, t: TxnId, job: Job)
    requires ListsOk(s) && j !in s.log && job.txn == Some(t)
    ensures ListsOk(WithNewJob(s, j, t, job))
  {
    var s' := WithNewJob(s, j, t, job);
    forall u | u in s'.members ensures ListOk(s', u) {
      if u in s.members {
        assert ListOk(s, u);
        DistinctCons(j, s.members[u]);
      }
    }
    forall k | k in s'.jobs ensures Listed(s', k) {
      if k != j { assert Listed(s, k); }
    }
  }

  lemma NewJobTxn(s: Snap, j: JobId, t: TxnId, job: Job)
    requires Inv(s) && j !in s.log && job.txn == Some(t) && job.status == Created && MayJoin(s, t)
    ensures t in WithNewJob(s, j, t, job).members && TxnOk(WithNewJob(s, j, t, job), t)
  {
    var s' := WithNewJob(s, j, t, job);
    if t in s.members { assert TxnOk(s, t) && ListOk(s, t); }
    assert j in s'.members[t] && !Completed(s'.jobs[j].status);
    assert WorkingOk(s', t);
  }

  lemma DismissedOk(job: Job, drains: nat, holds: nat, log: seq<Callback>)
    requires JobOk(job, drains, holds, log) && (job.status == Concluded || job.status == Created)
    ensures Allowed(job.status, Null) && Dismissed(job).refcnt >= 0 && (Dismissed(job).refcnt == 0 ==> holds == 0)
    ensures Dismissed(job).refcnt > 0 ==> JobOk(Dismissed(job), drains, holds, log)
  {
    hide LogOk;
    DismissedLog(job.status, job.ret, log);
    assert PhaseOk(Dismissed(job)) && RetOk(Dismissed(job));
    assert PausesOk(Dismissed(job), drains);
  }

  lemma DismissedLog(status: Status, ret: int, log: seq<Callback>)
    requires LogOk(status, ret, log) && (status == Concluded || status == Created)
    ensures LogOk(Null, ret, log)
  {}

  /** `job_do_dismiss_locked`, of a concluded job or of one whose transaction has not got
      anywhere yet. */
  lemma DoDismissInv(s: Snap, j: JobId)
    requires Inv(s) && j in s.jobs && (s.jobs[j].status == Concluded || s.jobs[j].status == Created)
    requires s.jobs[j].txn.Some? ==> MayLeave(s, j, s.jobs[j].txn.value)
    ensures Inv(DoDismiss(s, j)) && Allowed(s.jobs[j].status, Null)
    ensures j !in DoDismiss(s, j).jobs || DoDismiss(s, j).jobs[j].status == Null
  {
    JobFacts(s, j);
    var s' := DoDismiss(s, j);
    DismissedOk(s.jobs[j], s.drains[j], s.holds[j], s.log[j]);
    assert Leaves(s, s', j);
    LeavesLists(s, s', j);
    LeavesJobs(s, s', j);
    forall u | u in s'.members ensures TxnOk(s', u) {
      assert TxnOk(s, u) && ListOk(s, u);
      if s.jobs[j].txn == Some(u) {
        FewerMembers(s, s', j, u);
      } else {
        SameTxn(s, s', u);
      }
    }
  }

  /** If the only job leaves that completed members wait for, then nobody finalizes them. */
  lemma LeavesTooLate(s: Snap, j: JobId)
    requires Inv(s) && j in s.jobs && s.jobs[j].status == Created && s.jobs[j].txn.Some?
    requires !MayLeave(s, j, s.jobs[j].txn.value)
    ensures !Inv(DoDismiss(s, j))
  {
    var s', t := DoDismiss(s, j), s.jobs[j].txn.value;
    JobFacts(s, j);
    assert Listed(s, j) && ListOk(s, t) && TxnOk(s, t);
    RemoveElems(s.members[t], j);
    var k :| k in s.members[t] && k != j;
    assert k in s'.members[t] && k in s'.jobs && s'.jobs[k] == s.jobs[k];
    if Inv(s') {
      assert TxnOk(s', t);
      assert s'.jobs[k].status != Pending;
      forall m | m in s'.members[t] && m in s'.jobs ensures Completed(s'.jobs[m].status) {
        assert m in s.members[t] && m != j;
      }
      assert false;
    }
  }

  lemma FewerWorking(s: Snap, s': Snap, j: JobId, t: TxnId)
    requires ListsOk(s) && j in s.jobs && s.jobs[j].txn == Some(t) && t in s.members && t in s'.members
    requires WorkingOk(s, t) && t !in s.aborting
    requires MayLeave(s, j, t) && s.jobs[j].status == Created && Leaves(s, s', j)
    requires forall m :: m in s'.members[t] <==> m in s.members[t] && m != j
    ensures WorkingOk(s', t)
  {
    assert Listed(s, j) && ListOk(s, t);
    if m :| m in s.members[t] && m in s.jobs && m != j && !Completed(s.jobs[m].status) {
      assert m in s'.members[t] && m in s'.jobs && !Completed(s'.jobs[m].status);
    }
  }

  lemma FewerMembers(s: Snap, s': Snap, j: JobId, t: TxnId)
    requires ListsOk(s) && j in s.jobs && s.jobs[j].txn == Some(t) && t in s.members && TxnOk(s, t)
    requires MayLeave(s, j, t) && s.jobs[j].status == Created && JobOkAt(s, j)
    requires Leaves(s, s', j)
    ensures TxnOk(s', t)
  {
    assert ListOk(s, t);
    RemoveElems(s.members[t], j);
    if t in s.aborting {
      assert AbortingOk(s', t);
    } else {
      FewerWorking(s, s', j, t);
    }
  }

  /** Cancelling the job makes its transaction abort at once: it has not been started, or its
      coroutine is at its end and the cancel is by force. */
  predicate AbortsTxn(j: Job, force: bool)
  {
    if j.started then j.deferred && (force || j.forceCancel) else true
  }

  /** The job belongs to a transaction that is not being aborted. */
  ghost predicate InWorkingTxn(s: Snap, j: JobId)
    requires j in s.jobs
  {
    s.jobs[j].txn.Some? && s.jobs[j].txn.value in s.members && s.jobs[j].txn.value !in s.aborting
  }

  /** A job that is done, or is about to be, is cancelled by force. */
  lemma CancelReady(s: Snap, j: JobId, t: TxnId, force: bool)
    requires Inv(s) && j in s.jobs && s.jobs[j].txn == Some(t) && t in s.members
    requires s.jobs[j].started && s.jobs[j].deferred
    requires (t !in s.aborting ==> OthersStarted(s, j, t)) && (force || s.jobs[j].forceCancel)
    ensures var s' := SetJob(s, j, CancelAsync(s.jobs[j], force));
            && Base(s') && OthersOk(s', Some(t)) && Doomed(s'.jobs[j])
            && (if t in s'.aborting then AbortingOk(s', t) else MayAbort(s', j, t))
  {
    JobFacts(s, j);
    CancelAsyncOk(s.jobs[j], force, s.drains[j], s.holds[j], s.log[j]);
    OneJobBase(s, j, CancelAsync(s.jobs[j], force), t);
    assert TxnOk(s, t);
  }

  /** A cancel request that the job will notice itself, or that comes too late to matter. */
  lemma CancelKept(s: Snap, j: JobId, force: bool)
    requires Inv(s) && j in s.jobs && (Completed(s.jobs[j].status) ==> s.jobs[j].deferred && !force)
    ensures Inv(SetJob(s, j, CancelAsync(s.jobs[j], force)))
    ensures s.jobs[j].userPaused ==> s.jobs[j].pauseCount > 0
  {
    JobFacts(s, j);
    CancelAsyncOk(s.jobs[j], force, s.drains[j], s.holds[j], s.log[j]);
    SetJobInv(s, j, CancelAsync(s.jobs[j], force));
  }

  lemma CancelledOthers(s: Snap, j: JobId, t: TxnId)
    requires j in s.jobs && t in s.members && OthersStarted(s, j, t)
    ensures OthersStarted(SetJob(s, j, CancelAsync(s.jobs[j], true)), j, t)
  {}

  // ---------------------------------------------------------------------------
  // An abort loop that waits for a job which nobody has started
  // ---------------------------------------------------------------------------

  /** The abort loop of transaction `t` has not got past member `m`, which is not started. */
  ghost predicate Stuck(s: Snap, t: TxnId, m: JobId)
  {
    && Inv(s) && t in s.aborting && t in s.members && m in s.members[t] && m in s.jobs && s.jobs[m].status == Created
  }

  lemma StuckStarts(s: Snap, j: JobId, t: TxnId, m: JobId)
    requires Base(s) && OthersOk(s, Some(t)) && Aborts(s, j, t) && t !in s.aborting && Doomed(s.jobs[j])
    requires m in s.members[t] && m in s.jobs && m != j && s.jobs[m].status == Created
    ensures Stuck(BeginAbort(s, j, t), t, m)
  {
    BeginAbortBase(s, j, t);
    BeginAbortTxns(s, j, t);
    AllInOrder(BeginAbort(s, j, t), t);
  }

  lemma StuckList(s: Snap, t: TxnId, m: JobId)
    requires Stuck(s, t, m)
    ensures Base(s) && Inv(s) && t in s.members && s.members[t] != []
  {}

  lemma AbortsTxnOf(s: Snap, j: JobId, t: TxnId)
    requires Aborts(s, j, t)
    ensures j in s.jobs && s.jobs[j].txn == Some(t) && t in s.members
  {}

  lemma StuckWaits(s: Snap, s': Snap, t: TxnId, m: JobId)
    requires Stuck(s, t, m) && Inv(s') && Stable(s, s')
    ensures Stuck(s', t, m)
  {
    assert StableTxn(s, s', t);
  }

  lemma StuckFacts(s: Snap, t: TxnId, m: JobId, k: JobId)
    requires Stuck(s, t, m) && k in s.members[t]
    ensures k in s.jobs && s.jobs[k].txn == Some(t) && (Completed(s.jobs[k].status) ==> Doomed(s.jobs[k]) && k != m)
  {
    assert ListOk(s, t) && JobOkAt(s, k) && TxnOk(s, t);
  }

  lemma StuckFinalizes(s: Snap, t: TxnId, m: JobId, k: JobId)
    requires Stuck(s, t, m) && k in s.members[t] && k in s.jobs && Completed(s.jobs[k].status)
    ensures k in s.log && Stuck(FinalizeSingle(s, k), t, m)
  {
    hide JobOk;
    StuckFacts(s, t, m, k);
    Parts(s, t);
    FinalizeSingleOk(s, k);
    var s' := FinalizeSingle(s, k);
    LeavesOthers(s, s', k, t);
    assert ListOk(s, t) && TxnOk(s, t);
    RemoveElems(s.members[t], k);
    LoopRest(s, s', k, t, true, k);
    AllInOrder(s', t);
  }

  // ---------------------------------------------------------------------------
  // From the end of a run to the callbacks
  // ---------------------------------------------------------------------------

  /** No member of a transaction at work has seen a callback. */
  lemma FreshMembers(s: Snap, j: JobId, t: TxnId)
    requires Inv(s) && t in s.members && t !in s.aborting && j in s.members[t]
    ensures j in s.jobs && s.jobs[j].txn == Some(t)
    ensures forall m :: m in s.members[t] ==> m in s.jobs && m in s.log && s.log[m] == []
  {
    assert TxnOk(s, t) && ListOk(s, t);
    forall m | m in s.members[t] ensures m in s.jobs && m in s.log && s.log[m] == [] { BaseFacts(s, t, m); }
  }

  lemma StartedAfter(s: Snap, s': Snap, j: JobId, t: TxnId)
    requires t in s.members && j in s.jobs && s' == s.(jobs := s'.jobs) && OthersStarted(s, j, t)
    requires s'.jobs.Keys == s.jobs.Keys && forall k :: k in s.jobs && k != j ==> s'.jobs[k] == s.jobs[k]
    ensures OthersStarted(s', j, t)
  {}

  lemma FailedLog(s: Snap, s': Snap, j: JobId, t: TxnId, f: nat, prepare: JobId -> int)
    requires j in s.jobs && t in s.members && t !in s.aborting && s.jobs[j].ret != 0
    requires Completion(s, s', j, t, f, prepare) && forall m :: m in s.members[t] ==> m in s.log && s.log[m] == []
    ensures t in s'.members && s'.members[t] == []
    ensures forall m :: m in s.members[t] ==> m in s'.log && s'.log[m] == [Aborted, Cleaned]
  {
    var ms := s.members[t];
    forall m | m in ms ensures m in s'.log && s'.log[m] == [Aborted, Cleaned] {
      var k :| 0 <= k < |ms| && ms[k] == m;
    }
  }

  /** The job is at work, has not been cancelled by force and does not ask for a manual finalize. */
  predicate Willing(j: Job)
  {
    InCoroutine(j) && !j.forceCancel && j.autoFinalize
  }

  /** Of the members `order`, the first `i` have come to their end and wait for the others. */
  ghost predicate SomeEnded(s: Snap, order: seq<JobId>, i: nat, t: TxnId)
  {
    && t in s.members && t !in s.aborting && i <= |order|
    && (forall k {:trigger order[k]} :: 0 <= k < |order| ==> order[k] in s.jobs && order[k] in s.log)
    && (forall k {:trigger order[k]} :: 0 <= k < |order| ==>
          && s.jobs[order[k]].txn == Some(t) && s.log[order[k]] == [] && s.jobs[order[k]].autoFinalize
          && (if k < i then s.jobs[order[k]].status == Waiting else Willing(s.jobs[order[k]])))
  }

  lemma SomeStart(s: Snap, order: seq<JobId>, t: TxnId)
    requires Inv(s) && t in s.members && t !in s.aborting && order != []
    requires forall m :: m in order <==> m in s.members[t]
    requires forall m :: m in order ==> m in s.jobs && Willing(s.jobs[m])
    ensures SomeEnded(s, order, 0, t)
  {
    forall k | 0 <= k < |order|
      ensures order[k] in s.jobs && order[k] in s.log && s.jobs[order[k]].txn == Some(t) && s.log[order[k]] == []
    {
      assert order[k] in order;
      FreshMembers(s, order[k], t);
    }
  }

  lemma NextToEnd(s: Snap, order: seq<JobId>, i: nat, t: TxnId)
    requires Inv(s) && SomeEnded(s, order, i, t) && i < |order|
    ensures t !in s.aborting && order[i] in s.jobs && s.jobs[order[i]].txn == Some(t) && Willing(s.jobs[order[i]])
    ensures s.jobs[order[i]].ret == 0
  {
    JobFacts(s, order[i]);
  }

  /** The run of member `order[i]` has returned. */
  ghost predicate RunEnded(s: Snap, s': Snap, order: seq<JobId>, i: nat)
  {
    && i < |order| && order[i] in s.jobs && order[i] in s'.jobs
    && s' == s.(jobs := s.jobs[order[i] := s'.jobs[order[i]]])
    && s'.jobs[order[i]].ret == 0 && s'.jobs[order[i]].forceCancel == s.jobs[order[i]].forceCancel
    && s'.jobs[order[i]].txn == s.jobs[order[i]].txn && s'.jobs[order[i]].autoFinalize == s.jobs[order[i]].autoFinalize
  }

  lemma StillWilling(s: Snap, s': Snap, order: seq<JobId>, i: nat, t: TxnId)
    requires SomeEnded(s, order, i, t) && i + 1 < |order| && Distinct(order) && RunEnded(s, s', order, i)
    requires forall m :: m in order <==> m in s.members[t]
    ensures !Doomed(s'.jobs[order[i]]) && OthersAtWork(s', order[i], t)
  {
    var m := order[i + 1];
    assert m in order && order[i] != m;
    assert m in s'.members[t] && m in s'.jobs && !Completed(s'.jobs[m].status);
  }

  lemma OneMoreEnded(s0: Snap, s: Snap, s': Snap, order: seq<JobId>, i: nat, t: TxnId, f: nat, prepare: JobId -> int)
    requires SomeEnded(s0, order, i, t) && i + 1 < |order| && Distinct(order) && RunEnded(s0, s, order, i)
    requires OthersAtWork(s, order[i], t) && Completion(s, s', order[i], t, f, prepare)
    ensures s'.members == s0.members && SomeEnded(s', order, i + 1, t)
  {
    var j := order[i];
    assert OnlyWaits(s, s', j);
    forall k | 0 <= k < |order|
      ensures order[k] in s'.jobs && order[k] in s'.log
      ensures s'.jobs[order[k]].txn == Some(t) && s'.log[order[k]] == [] && s'.jobs[order[k]].autoFinalize
      ensures if k <= i then s'.jobs[order[k]].status == Waiting else Willing(s'.jobs[order[k]])
    {
      if k != i { assert order[k] != j && s'.jobs[order[k]] == s0.jobs[order[k]]; }
    }
  }

  lemma LastIsLast(s: Snap, s': Snap, order: seq<JobId>, t: TxnId)
    requires order != [] && Distinct(order)
    requires SomeEnded(s, order, |order| - 1, t) && RunEnded(s, s', order, |order| - 1)
    requires forall m :: m in order <==> m in s.members[t]
    ensures !Doomed(s'.jobs[order[|order| - 1]]) && LastAndAutomatic(s', order[|order| - 1], t)
  {
    forall m | m in s'.members[t] && m in s'.jobs
      ensures (m == order[|order| - 1] || Completed(s'.jobs[m].status)) && s'.jobs[m].autoFinalize
    {
      assert m in order;
      var k :| 0 <= k < |order| && order[k] == m;
    }
  }

  lemma GoodLog(s: Snap, s': Snap, order: seq<JobId>, t: TxnId, f: nat, prepare: JobId -> int)
    requires order != [] && order[|order| - 1] in s.jobs && t in s.members && t !in s.aborting
    requires var j := order[|order| - 1];
             !Doomed(s.jobs[j]) && LastAndAutomatic(s, j, t) && Completion(s, s', j, t, f, prepare)
    requires (forall m :: m in order <==> m in s.members[t]) && forall m :: m in order ==> prepare(m) == 0
    ensures t in s'.members && s'.members[t] == []
    ensures forall m :: m in order ==> m in s'.log && s'.log[m] == [Prepared(0), Committed, Cleaned]
  {
    var j, ms := order[|order| - 1], s.members[t];
    assert forall k :: 0 <= k < |ms| ==> prepare(ms[k]) == 0;
    assert FinalizedAll(s'.log, ms, f, j, prepare);
    forall m | m in order ensures m in s'.log && s'.log[m] == [Prepared(0), Committed, Cleaned] {
      var k :| 0 <= k < |ms| && ms[k] == m;
      assert FinalizeLogAt(s'.log, ms, f, j, prepare, k);
      assert s'.log[m] == [Prepared(0)] + [Committed, Cleaned];
    }
  }

  // ---------------------------------------------------------------------------
  // The tables of transitions and verbs
  // ---------------------------------------------------------------------------

  /** The steps that change the status of a job. */
  datatype StatusChange = Starting | Pausing | Unpausing | Readying | Finishing | BecomingPending | Failing | Concluding
                  | Dismissing

  /** The step can be made: a job in this state gets there. */
  predicate Applies(c: StatusChange, j: Job)
  {
    && PhaseOk(j) && RetOk(j)
    && match c
       case Starting => j.status == Created
       case Pausing => InCoroutine(j) && WillPause(j)
       case Unpausing => Resting(j.status)
       case Readying => InCoroutine(j) && j.status == Running
       case Finishing => ExitDue(j) && !Doomed(j)
       case BecomingPending => j.status == Waiting
       case Failing => Doomed(j) && (CanComplete(j) || (Completed(j.status) && !Over(j.status)))
       case Concluding => j.status == Aborting || (j.status == Pending && !Doomed(j))
       case Dismissing => j.status == Created || j.status == Concluded
  }

  function StatusAfter(c: StatusChange, j: Job): Status
  {
    match c
    case Starting => Started(j).status
    case Pausing => AtPausePoint(j).status
    case Unpausing => Rested(j).status
    case Readying => NowReady(j).status
    case Finishing => Waits(j).status
    case BecomingPending => Pending
    case Failing => UpdateRc(j).status
    case Concluding => Finalized(j.(started := true, autoDismiss := false)).status
    case Dismissing => Dismissed(j).status
  }

  /** A job in status `s`; its run is at its end if `deferred`, and it has failed if `failed`. */
  function Sample(s: Status, deferred: bool, failed: bool): Job
  {
    var started := s != Created;
    Job(s, 1, 1, false, !Resting(s), started, deferred, false, s == Created, s == Created, if failed then -1 else 0,
        if Over(s) then None else Some(0), true, true, true)
  }

  /** Which step makes an allowed transition, and of which job. */
  lemma Reachable(s0: Status, s1: Status) returns (c: StatusChange, j: Job)
    requires s0 != Undefined && Allowed(s0, s1)
    ensures Applies(c, j) && j.status == s0 && StatusAfter(c, j) == s1
  {
    match s1 {
      case Running => c, j := if s0 == Created then Starting else Unpausing, Sample(s0, false, false);
      case Paused => c, j := Pausing, Sample(s0, false, false);
      case Standby => c, j := Pausing, Sample(s0, false, false);
      case Ready => c, j := if s0 == Standby then Unpausing else Readying, Sample(s0, false, false);
      case Waiting => c, j := Finishing, Sample(s0, true, false);
      case Pending => c, j := BecomingPending, Sample(s0, true, false);
      case Aborting =>
        c, j := Failing, Sample(s0, s0 != Created, s0 == Aborting || AtWork(s0));
        if s0 == Waiting || s0 == Pending {
          j := j.(cancelled := true, forceCancel := true);
        }
      case Concluded => c, j := Concluding, Sample(s0, true, s0 == Aborting);
      case Null => c, j := Dismissing, Sample(s0, s0 != Created, false);
    }
  }

  lemma ChangeAllowed(c: StatusChange, j: Job)
    requires Applies(c, j)
    ensures j.status != Undefined && Allowed(j.status, StatusAfter(c, j))
  {
    match c
    case Pausing =>
    case Failing =>
    case _ =>
  }

  /** JobSTT has exactly the transitions that the steps of a job make. */
  lemma TransitionsExact(s0: Status, s1: Status)
    requires s0 != Undefined
    ensures Allowed(s0, s1) <==> exists c, j :: Applies(c, j) && j.status == s0 && StatusAfter(c, j) == s1
  {
    hide Applies, StatusAfter, Allowed;
    if Allowed(s0, s1) {
      var c, j := Reachable(s0, s1);
    }
    forall c, j | Applies(c, j) && j.status == s0 && StatusAfter(c, j) == s1
      ensures Allowed(s0, s1)
    {
      ChangeAllowed(c, j);
    }
  }

  /** JobVerbTable: a job can be cancelled until it aborts or is over, paused and changed until it has
      completed, completed once it is ready, finalized before it is concluded, and dismissed then. */
  lemma VerbsExact(s: Status)
    requires s != Undefined
    ensures Accepts(Cancel, s) <==> s != Aborting && !Over(s)
    ensures forall v :: v in {Pause, Resume, SetSpeed, Change} ==> (Accepts(v, s) <==> !Completed(s))
    ensures Accepts(Complete, s) <==> Allowed(s, Standby) || (Resting(s) && Allowed(s, Ready))
    ensures Accepts(Finalize, s) <==> Allowed(s, Concluded) && s != Aborting
    ensures Accepts(Dismiss, s) <==> Allowed(s, Null) && s != Created
  {}
}
