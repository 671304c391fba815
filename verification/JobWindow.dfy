/** While the driver's `user_resume` callback runs, the job lock is not held: other threads may
    change the job between the decision to end the user's pause and the end of that pause
    (`job_user_resume_locked` and `job_cancel_async_locked` in `qemu/job.c`). */
module JobWindow {

  import opened Wrappers
  import opened JobState

  /** What may happen to a job while the lock is not held. */
  datatype Step = DrainBegin | DrainEnd(idle: bool) | ToPause | FromPause | Yield | Wake | ToReady
                | ErrorStop | RunReturn(ret: int)

  predicate Enabled(j: Job, drains: nat, step: Step)
  {
    match step
    case DrainBegin | Wake | ErrorStop => true
    case DrainEnd(_) => drains > 0
    case ToPause | Yield | RunReturn(_) => InCoroutine(j)
    case FromPause => Resting(j.status) && j.busy
    case ToReady => InCoroutine(j) && j.status == Running
  }

  function JobAfter(j: Job, step: Step): Job
  {
    match step
    case DrainBegin => PauseMore(j)
    case DrainEnd(idle) => PauseLess(j, idle)
    case ToPause => AtPausePoint(j)
    case FromPause => Rested(j)
    case Yield => Asleep(j)
    case Wake => Entered(j, true)
    case ToReady => NowReady(j)
    case ErrorStop => ErrorStopped(j)
    case RunReturn(ret) => Returned(j, ret)
  }

  function DrainsAfter(drains: nat, step: Step): nat
    requires step.DrainEnd? ==> drains > 0
  {
    match step
    case DrainBegin => drains + 1
    case DrainEnd(_) => drains - 1
    case _ => drains
  }

  /** The steps can happen in this order, and lead to `j'` with `drains'` open drain sections. */
  predicate Run(j: Job, drains: nat, steps: seq<Step>, j': Job, drains': nat)
    decreases |steps|
  {
    if steps == [] then j' == j && drains' == drains
    else
      && Enabled(j, drains, steps[0])
      && Run(JobAfter(j, steps[0]), DrainsAfter(drains, steps[0]), steps[1..], j', drains')
  }

  /** The rest of `job_user_resume_locked` after the callback. */
  function ResumeEnd(j: Job, idle: bool): Job
  {
    j.(pauseCount := PauseLess(j, idle).pauseCount, busy := PauseLess(j, idle).busy, userPaused := false)
  }

  /** The rest of `job_cancel_async_locked` after the callback. */
  function CancelEnd(j: Job, force: bool): Job
  {
    j.(userPaused := false, pauseCount := j.pauseCount - 1,
       cancelled := j.cancelled || force || !j.deferred, forceCancel := j.forceCancel || force)
  }

  /** The job is in order and paused by the user. */
  predicate HeldByUser(j: Job, drains: nat, holds: nat, log: seq<Callback>)
  {
    JobOk(j, drains, holds, log) && j.userPaused
  }

  lemma StepKeeps(j: Job, drains: nat, holds: nat, log: seq<Callback>, step: Step)
    requires HeldByUser(j, drains, holds, log) && Enabled(j, drains, step)
    ensures HeldByUser(JobAfter(j, step), DrainsAfter(drains, step), holds, log)
    ensures JobAfter(j, step).ioOk <==> j.ioOk && step != ErrorStop
    ensures JobAfter(j, step).txn == j.txn && JobAfter(j, step).started == j.started
    ensures JobAfter(j, step).forceCancel == j.forceCancel
    ensures !Completed(j.status) ==> !Completed(JobAfter(j, step).status)
  {
  }

  lemma {:induction false} RunKeeps(j: Job, drains: nat, holds: nat, log: seq<Callback>, steps: seq<Step>,
                                    j': Job, drains': nat)
    requires HeldByUser(j, drains, holds, log) && Run(j, drains, steps, j', drains')
    ensures HeldByUser(j', drains', holds, log) && (j'.ioOk <==> j.ioOk && ErrorStop !in steps)
    ensures j'.txn == j.txn && j'.started == j.started && j'.forceCancel == j.forceCancel
    ensures !Completed(j.status) ==> !Completed(j'.status)
    decreases |steps|
  {
    if steps != [] {
      StepKeeps(j, drains, holds, log, steps[0]);
      RunKeeps(JobAfter(j, steps[0]), DrainsAfter(drains, steps[0]), holds, log, steps[1..], j', drains');
      assert steps == [steps[0]] + steps[1..];
    }
  }

  /** The lock was given up: steps `before` ran before the callback reset the iostatus, steps
      `after` between that and the end of the callback. */
  predicate Window(j: Job, drains: nat, before: seq<Step>, j1: Job, d1: nat, after: seq<Step>, j2: Job, d2: nat)
  {
    Run(j, drains, before, j1, d1) && Run(IoReset(j1), d1, after, j2, d2)
  }

  /** The iostatus tells of an error that stops the job, but the job is not paused for it. */
  predicate StopLost(j: Job, drains: nat)
  {
    !j.ioOk && !j.userPaused && j.pauseCount == One(!j.started) + drains
  }

  /** Whatever happens meanwhile, the assertions about the pause counter hold: the one in
      `block_job_iostatus_reset_locked` and those at the end of the user's pause. */
  lemma WindowAsserts(j: Job, drains: nat, holds: nat, log: seq<Callback>,
                      before: seq<Step>, j1: Job, d1: nat, after: seq<Step>, j2: Job, d2: nat)
    requires HeldByUser(j, drains, holds, log) && Window(j, drains, before, j1, d1, after, j2, d2)
    ensures j1.userPaused && j1.pauseCount > 0
    ensures HeldByUser(j2, d2, holds, log) && j2.pauseCount > 0 && (j2.ioOk <==> ErrorStop !in after)
  {
    RunKeeps(j, drains, holds, log, before, j1, d1);
    RunKeeps(IoReset(j1), d1, holds, log, after, j2, d2);
  }

  /** To its transaction the job looks the same afterwards. */
  lemma WindowStanding(j: Job, drains: nat, holds: nat, log: seq<Callback>,
                       before: seq<Step>, j1: Job, d1: nat, after: seq<Step>, j2: Job, d2: nat)
    requires HeldByUser(j, drains, holds, log) && Window(j, drains, before, j1, d1, after, j2, d2)
    requires !Completed(j.status)
    ensures SameStanding(j, j2)
  {
    RunKeeps(j, drains, holds, log, before, j1, d1);
    RunKeeps(IoReset(j1), d1, holds, log, after, j2, d2);
  }

  /** The job is in order after the user has resumed it exactly if no error has stopped it
      since the callback reset its iostatus; otherwise that stop is lost. */
  lemma ResumeIff(j: Job, drains: nat, holds: nat, log: seq<Callback>,
                  before: seq<Step>, j1: Job, d1: nat, after: seq<Step>, j2: Job, d2: nat, idle: bool)
    requires HeldByUser(j, drains, holds, log) && Window(j, drains, before, j1, d1, after, j2, d2)
    ensures JobOk(ResumeEnd(j2, idle), d2, holds, log) <==> ErrorStop !in after
    ensures StopLost(ResumeEnd(j2, idle), d2) <==> ErrorStop in after
  {
    WindowAsserts(j, drains, holds, log, before, j1, d1, after, j2, d2);
  }

  /** The same for a job that is cancelled while the user has paused it. */
  lemma CancelIff(j: Job, drains: nat, holds: nat, log: seq<Callback>,
                  before: seq<Step>, j1: Job, d1: nat, after: seq<Step>, j2: Job, d2: nat, force: bool)
    requires HeldByUser(j, drains, holds, log) && Window(j, drains, before, j1, d1, after, j2, d2)
    ensures JobOk(CancelEnd(j2, force), d2, holds, log) <==> ErrorStop !in after
    ensures StopLost(CancelEnd(j2, force), d2) <==> ErrorStop in after
  {
    WindowAsserts(j, drains, holds, log, before, j1, d1, after, j2, d2);
  }

  /** If nothing happens meanwhile, these are the steps that `UserResumed` and `CancelAsync` make. */
  lemma EmptyWindow(j: Job, drains: nat, idle: bool, force: bool)
    ensures Window(j, drains, [], j, drains, [], IoReset(j), drains)
    ensures ResumeEnd(IoReset(j), idle) == UserResumed(j, idle)
    ensures j.userPaused ==> CancelEnd(IoReset(j), force) == CancelAsync(j, force)
  {}

  /** The stop can get lost: the job is still on its way to its pause point. */
  lemma StopCanGetLost() returns (j: Job, j2: Job)
    ensures HeldByUser(j, 0, 0, []) && InCoroutine(j) && Window(j, 0, [], j, 0, [ErrorStop], j2, 0)
    ensures StopLost(ResumeEnd(j2, true), 0) && StopLost(CancelEnd(j2, true), 0)
  {
    j := Job(Running, 1, 1, false, true, true, false, true, false, false, 0, Some(0), true, true, true);
    j2 := ErrorStopped(IoReset(j));
    var after := [ErrorStop];
    assert after[1..] == [];
    assert Run(j2, 0, [], j2, 0);
    assert Run(IoReset(j), 0, after, j2, 0);
  }
}
