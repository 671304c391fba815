/** The stop-the-world handshake between virtual CPUs (`qemu/cpu-common.c`). */
module Exclusive {

  // Every access to a shared variable is one atomic step, so an interleaving of the real
  // threads is a sequence of steps.  `smp_mb()` on both sides of the handshake makes
  // sequential consistency the right memory model.  The number of CPUs is arbitrary; CPU
  // `i` is the thread that runs `cpus[i]`.

  import opened Wrappers

  /** Where a thread is.  Each constructor names the next thing the thread will do. */
  datatype Pc =
    | Idle                           // outside every function of the protocol
      // cpu_exec_start
    | StartCheck                     // `running` is set; next: read pending_cpus
    | StartLock                      // next: take the list lock
    | StartLocked                    // next: look at has_waiter
    | StartIdleTest                  // exclusive_idle: next: test pending_cpus
    | StartSleep(woken: bool)        // waits on exclusive_resume
    | StartUnlock                    // next: release the list lock
    | Executing                      // between cpu_exec_start and cpu_exec_end
      // cpu_exec_end
    | EndCheck                       // `running` is clear; next: read pending_cpus
    | EndLock
    | EndLocked                      // next: look at has_waiter, count down
    | EndSignal                      // next: signal exclusive_cond
    | EndUnlock
      // start_exclusive
    | ExclLock
    | ExclIdleTest                   // exclusive_idle: next: test pending_cpus
    | ExclSleep(woken: bool)         // waits on exclusive_resume
    | ExclScan(next: nat, seen: nat) // next: read cpus[next].running
    | ExclWaitTest                   // next: test pending_cpus > 1
    | ExclWait(woken: bool)          // waits on exclusive_cond
    | ExclUnlock
    | InExclusive                    // between start_exclusive and end_exclusive
      // end_exclusive
    | FinishLock
    | FinishLocked                   // next: reset pending_cpus
    | FinishBroadcast                // next: broadcast exclusive_resume
    | FinishUnlock

  datatype Cpu = Cpu(pc: Pc, running: bool, hasWaiter: bool, depth: nat)

  datatype State = State(cpus: seq<Cpu>, pending: int, holder: Option<nat>)

  // ---------------------------------------------------------------------------
  // Steps
  // ---------------------------------------------------------------------------

  ghost function Put(s: State, i: nat, c: Cpu): State
    requires i < |s.cpus|
  {
    s.(cpus := s.cpus[i := c])
  }

  ghost function Goto(s: State, i: nat, pc: Pc): State
    requires i < |s.cpus|
  {
    Put(s, i, s.cpus[i].(pc := pc))
  }

  /** `qemu_mutex_lock`, also the end of `qemu_cond_wait`. */
  ghost function Acquire(s: State, i: nat, pc: Pc): State
    requires i < |s.cpus|
  {
    Goto(s, i, pc).(holder := Some(i))
  }

  /** `qemu_mutex_unlock`, also the beginning of `qemu_cond_wait`. */
  ghost function Release(s: State, i: nat, pc: Pc): State
    requires i < |s.cpus|
  {
    Goto(s, i, pc).(holder := None)
  }

  ghost function Resumed(c: Cpu): Cpu
  {
    match c.pc
    case StartSleep(_) => c.(pc := StartSleep(true))
    case ExclSleep(_) => c.(pc := ExclSleep(true))
    case _ => c
  }

  /** The effect of `qemu_cond_broadcast(&exclusive_resume)`. */
  ghost function Broadcast(cpus: seq<Cpu>): (r: seq<Cpu>)
    ensures |r| == |cpus|
    ensures forall j :: 0 <= j < |cpus| ==> r[j] == Resumed(cpus[j])
  {
    seq(|cpus|, j requires 0 <= j < |cpus| => Resumed(cpus[j]))
  }

  /** One iteration of the CPU_FOREACH loop of `start_exclusive`. */
  ghost function Scanned(s: State, i: nat, k: nat, seen: nat): State
    requires i < |s.cpus| && k < |s.cpus|
  {
    if s.cpus[k].running
    then Goto(Put(s, k, s.cpus[k].(hasWaiter := true)), i, ExclScan(k + 1, seen + 1))
    else Goto(s, i, ExclScan(k + 1, seen))
  }

  /** Thread `i` is neither idle nor blocked on the lock or on a condition variable. */
  ghost predicate Enabled(s: State, i: nat)
    requires i < |s.cpus|
  {
    match s.cpus[i].pc
    case Idle => false
    case StartLock | EndLock | ExclLock | FinishLock => s.holder == None
    case StartSleep(woken) => woken && s.holder == None
    case ExclSleep(woken) => woken && s.holder == None
    case ExclWait(woken) => woken && s.holder == None
    case InExclusive => s.cpus[i].depth > 0
    case _ => true
  }

  /** What the next step of thread `i` does, apart from the wake-up of a signal. */
  ghost function After(s: State, i: nat): State
    requires i < |s.cpus| && Enabled(s, i)
  {
    var c := s.cpus[i];
    match c.pc
    case StartCheck => Goto(s, i, if s.pending != 0 then StartLock else Executing)
    case StartLock => Acquire(s, i, StartLocked)
    case StartLocked =>
      if c.hasWaiter then Goto(s, i, StartUnlock)
      else Put(s, i, c.(pc := StartIdleTest, running := false))
    case StartIdleTest =>
      if s.pending != 0 then Release(s, i, StartSleep(false))
      else Put(s, i, c.(pc := StartUnlock, running := true))
    case StartSleep(_) => Acquire(s, i, StartIdleTest)
    case StartUnlock => Release(s, i, Executing)
    case Executing => Put(s, i, c.(pc := EndCheck, running := false))
    case EndCheck => Goto(s, i, if s.pending != 0 then EndLock else Idle)
    case EndLock => Acquire(s, i, EndLocked)
    case EndLocked =>
      if c.hasWaiter
      then Put(s, i, c.(hasWaiter := false, pc := if s.pending == 2 then EndSignal else EndUnlock))
           .(pending := s.pending - 1)
      else Goto(s, i, EndUnlock)
    case EndSignal => Goto(s, i, EndUnlock)   // see Internal
    case EndUnlock => Release(s, i, Idle)
    case ExclLock => Acquire(s, i, ExclIdleTest)
    case ExclIdleTest =>
      if s.pending != 0 then Release(s, i, ExclSleep(false))
      else Goto(s, i, ExclScan(0, 0)).(pending := 1)
    case ExclSleep(_) => Acquire(s, i, ExclIdleTest)
    case ExclScan(k, seen) =>
      if k < |s.cpus| then Scanned(s, i, k, seen) else Goto(s, i, ExclWaitTest).(pending := seen + 1)
    case ExclWaitTest =>
      if s.pending > 1 then Release(s, i, ExclWait(false)) else Goto(s, i, ExclUnlock)
    case ExclWait(_) => Acquire(s, i, ExclWaitTest)
    case ExclUnlock => Put(s, i, c.(pc := InExclusive, depth := 1)).(holder := None)
    case InExclusive =>
      Put(s, i, c.(depth := c.depth - 1, pc := if c.depth == 1 then FinishLock else InExclusive))
    case FinishLock => Acquire(s, i, FinishLocked)
    case FinishLocked => Goto(s, i, FinishBroadcast).(pending := 0)
    case FinishBroadcast => Goto(s.(cpus := Broadcast(s.cpus)), i, FinishUnlock)
    case FinishUnlock => Release(s, i, Idle)
  }

  /** `qemu_cond_signal(&exclusive_cond)` wakes one of the sleepers, if there is one. */
  ghost predicate Signalled(s: State, w: Option<nat>)
  {
    match w
    case Some(j) => j < |s.cpus| && s.cpus[j].pc == ExclWait(false)
    case None => forall j :: 0 <= j < |s.cpus| ==> s.cpus[j].pc != ExclWait(false)
  }

  ghost function Wake(s: State, w: Option<nat>): State
    requires Signalled(s, w)
  {
    match w
    case Some(j) => Goto(s, j, ExclWait(true))
    case None => s
  }

  /** A step of thread `i` inside the protocol, including the calls that leave
      guest execution (`cpu_exec_end`) or an exclusive section (`end_exclusive`). */
  ghost predicate Internal(s: State, s': State, i: nat)
    requires i < |s.cpus|
  {
    && Enabled(s, i)
    && if s.cpus[i].pc.EndSignal?
       then exists w: Option<nat> :: Signalled(s, w) && s' == Goto(Wake(s, w), i, EndUnlock)
       else s' == After(s, i)
  }

  /** A thread calls `cpu_exec_start`. */
  ghost predicate CallsExecStart(s: State, s': State, i: nat)
    requires i < |s.cpus|
  {
    s.cpus[i].pc == Idle && s' == Put(s, i, s.cpus[i].(pc := StartCheck, running := true))
  }

  /** A thread calls `start_exclusive`, possibly inside an exclusive section. */
  ghost predicate CallsStartExclusive(s: State, s': State, i: nat)
    requires i < |s.cpus|
  {
    var c := s.cpus[i];
    || (c.pc == Idle && s' == Goto(s, i, ExclLock))
    || (c.pc == InExclusive && s' == Put(s, i, c.(depth := c.depth + 1)))
  }

  /** A thread starts something new. */
  ghost predicate Call(s: State, s': State, i: nat)
    requires i < |s.cpus|
  {
    CallsExecStart(s, s', i) || CallsStartExclusive(s, s', i)
  }

  /** Condition variables may wake a sleeper for no reason. */
  ghost predicate Spurious(s: State, s': State, i: nat)
    requires i < |s.cpus|
  {
    match s.cpus[i].pc
    case StartSleep(_) => s' == Goto(s, i, StartSleep(true))
    case ExclSleep(_) => s' == Goto(s, i, ExclSleep(true))
    case ExclWait(_) => s' == Goto(s, i, ExclWait(true))
    case _ => false
  }

  ghost predicate Next(s: State, s': State)
  {
    exists i: nat :: i < |s.cpus| && (Internal(s, s', i) || Call(s, s', i) || Spurious(s, s', i))
  }

  ghost predicate Init(s: State)
  {
    s.pending == 0 && s.holder == None &&
    forall i :: 0 <= i < |s.cpus| ==> s.cpus[i] == Cpu(Idle, false, false, 0)
  }

  ghost predicate IsRun(run: seq<State>)
  {
    |run| > 0 && Init(run[0]) && forall t {:trigger StepAt(run, t)} :: 0 < t < |run| ==> StepAt(run, t)
  }

  ghost predicate StepAt(run: seq<State>, t: nat)
    requires 0 < t < |run|
  {
    Next(run[t - 1], run[t])
  }

  // ---------------------------------------------------------------------------
  // What the protocol promises
  // ---------------------------------------------------------------------------

  /** Between the return of `start_exclusive` and the reset in `end_exclusive`. */
  predicate InsideExclusive(pc: Pc)
  {
    pc.InExclusive? || pc.FinishLock? || pc.FinishLocked?
  }

  ghost predicate MutualExclusion(s: State)
  {
    forall i, j :: 0 <= i < |s.cpus| && 0 <= j < |s.cpus| && InsideExclusive(s.cpus[i].pc) ==>
      !s.cpus[j].pc.Executing? && (i != j ==> !InsideExclusive(s.cpus[j].pc))
  }

  function CountWaiters(cpus: seq<Cpu>): nat
  {
    if cpus == [] then 0
    else CountWaiters(cpus[..|cpus| - 1]) + (if cpus[|cpus| - 1].hasWaiter then 1 else 0)
  }

  /** The thread still has its `pending_cpus` decrement in `cpu_exec_end` ahead of it. */
  predicate DecrementAhead(pc: Pc)
  {
    pc.StartCheck? || pc.StartLock? || pc.StartLocked? || pc.StartUnlock? || pc.Executing? ||
    pc.EndCheck? || pc.EndLock? || pc.EndLocked?
  }

  ghost predicate Accounting(s: State)
  {
    && (s.holder == None ==> (s.pending == 0 && CountWaiters(s.cpus) == 0) ||
                             s.pending == 1 + CountWaiters(s.cpus))
    && forall i :: 0 <= i < |s.cpus| && s.cpus[i].hasWaiter ==> DecrementAhead(s.cpus[i].pc)
  }

  // ---------------------------------------------------------------------------
  // The inductive invariant
  // ---------------------------------------------------------------------------

  predicate Holds(pc: Pc)
  {
    pc.StartLocked? || pc.StartIdleTest? || pc.StartUnlock? ||
    pc.EndLocked? || pc.EndSignal? || pc.EndUnlock? ||
    pc.ExclIdleTest? || pc.ExclScan? || pc.ExclWaitTest? || pc.ExclUnlock? ||
    pc.FinishLocked? || pc.FinishBroadcast? || pc.FinishUnlock?
  }

  /** From the moment `start_exclusive` sets `pending_cpus` until `end_exclusive` resets it. */
  predicate Owns(pc: Pc)
  {
    pc.ExclScan? || pc.ExclWaitTest? || pc.ExclWait? || pc.ExclUnlock? || InsideExclusive(pc)
  }

  /** Nothing stops the thread any more from executing guest code. */
  predicate Committed(pc: Pc)
  {
    pc.Executing? || pc.StartUnlock?
  }

  /** How `running`, `has_waiter` and the nesting depth depend on the program point alone. */
  predicate LocalInv(c: Cpu)
  {
    && (c.running <==> c.pc.StartCheck? || c.pc.StartLock? || c.pc.StartLocked? || Committed(c.pc))
    && (c.hasWaiter ==> DecrementAhead(c.pc))
    && (c.depth > 0 <==> c.pc.InExclusive?)
  }

  /** What holds for the other CPUs while thread `i` owns the exclusive section. */
  ghost predicate OwnerInv(s: State, i: nat)
    requires i < |s.cpus|
  {
    var pc := s.cpus[i].pc;
    var scanned := if pc.ExclScan? then pc.next else |s.cpus|;
    && scanned <= |s.cpus|
    && (if pc.ExclScan? then pc.seen == CountWaiters(s.cpus) && s.pending == 1
        else s.pending == 1 + CountWaiters(s.cpus))
    && (pc.ExclUnlock? || InsideExclusive(pc) ==> s.pending == 1)
    && (forall j :: 0 <= j < scanned && Committed(s.cpus[j].pc) ==> s.cpus[j].hasWaiter)
    && (forall j :: scanned <= j < |s.cpus| ==> !s.cpus[j].hasWaiter)
  }

  /** No wakeup is lost: who sleeps will be woken, or the waker is on its way. */
  ghost predicate WakeInv(s: State, i: nat)
    requires i < |s.cpus|
  {
    match s.cpus[i].pc
    case StartSleep(woken) => woken || ResumeDue(s)
    case ExclSleep(woken) => woken || ResumeDue(s)
    case ExclWait(woken) => woken || SignalDue(s)
    case _ => true
  }

  ghost predicate ResumeDue(s: State) { s.pending != 0 || HolderIs(s, FinishBroadcast) }

  ghost predicate SignalDue(s: State) { s.pending > 1 || HolderIs(s, EndSignal) }

  ghost predicate HolderIs(s: State, pc: Pc)
  {
    s.holder.Some? && s.holder.value < |s.cpus| && s.cpus[s.holder.value].pc == pc
  }

  /** Everything that is known about thread `i` when `owner` owns the exclusive section. */
  ghost predicate ThreadInv(s: State, owner: Option<nat>, i: nat)
    requires i < |s.cpus|
  {
    var c := s.cpus[i];
    && LocalInv(c)
    && (Holds(c.pc) <==> s.holder == Some(i))
    && (Owns(c.pc) <==> owner == Some(i))
    && WakeInv(s, i)
  }

  ghost predicate SectionInv(s: State, owner: Option<nat>)
  {
    match owner
    case None => s.pending == 0 && CountWaiters(s.cpus) == 0
    case Some(i) => i < |s.cpus| && OwnerInv(s, i)
  }

  ghost predicate Inv(s: State, owner: Option<nat>)
  {
    && (forall i {:trigger ThreadInv(s, owner, i)} :: 0 <= i < |s.cpus| ==> ThreadInv(s, owner, i))
    && (s.holder.Some? ==> s.holder.value < |s.cpus|)
    && SectionInv(s, owner)
  }

  // ---------------------------------------------------------------------------
  // Counting
  // ---------------------------------------------------------------------------

  function Bit(c: Cpu): nat { if c.hasWaiter then 1 else 0 }

  lemma {:induction false} CountUpdate(cpus: seq<Cpu>, i: nat, c: Cpu)
    requires i < |cpus|
    ensures CountWaiters(cpus[i := c]) == CountWaiters(cpus) - Bit(cpus[i]) + Bit(c)
  {
    var last := |cpus| - 1;
    if i == last {
      assert cpus[i := c][..last] == cpus[..last];
    } else {
      assert cpus[i := c][..last] == cpus[..last][i := c];
      CountUpdate(cpus[..last], i, c);
    }
  }

  lemma {:induction false} CountZero(cpus: seq<Cpu>)
    ensures CountWaiters(cpus) == 0 <==> forall j :: 0 <= j < |cpus| ==> !cpus[j].hasWaiter
  {
    if cpus != [] {
      var last := |cpus| - 1;
      CountZero(cpus[..last]);
      if CountWaiters(cpus) == 0 {
        forall j | 0 <= j < |cpus| ensures !cpus[j].hasWaiter {
          if j < last { assert cpus[..last][j] == cpus[j]; }
        }
      }
    }
  }

  lemma {:induction false} CountSame(cpus: seq<Cpu>, cpus': seq<Cpu>)
    requires |cpus| == |cpus'|
    requires forall j :: 0 <= j < |cpus| ==> cpus[j].hasWaiter == cpus'[j].hasWaiter
    ensures CountWaiters(cpus) == CountWaiters(cpus')
  {
    if cpus != [] {
      CountSame(cpus[..|cpus| - 1], cpus'[..|cpus| - 1]);
    }
  }

  // ---------------------------------------------------------------------------
  // Preservation
  // ---------------------------------------------------------------------------


  /** The owner after a step of thread `i`. */
  ghost function OwnerAfter(s: State, owner: Option<nat>, i: nat): Option<nat>
    requires i < |s.cpus|
  {
    if s.cpus[i].pc.ExclIdleTest? && s.pending == 0 then Some(i)
    else if s.cpus[i].pc.FinishLocked? then None
    else owner
  }

  ghost predicate MovesOnly(o: Option<nat>, o': Option<nat>, i: nat)
  {
    o' == o || (o in {None, Some(i)} && o' in {None, Some(i)})
  }

  /** A step that touches only thread `i` needs to be checked only there. */
  lemma OneThreadMoved(s: State, owner: Option<nat>, s': State, owner': Option<nat>, i: nat)
    requires Inv(s, owner) && i < |s.cpus| == |s'.cpus|
    requires s'.cpus == s.cpus[i := s'.cpus[i]]
    requires ThreadInv(s', owner', i) && SectionInv(s', owner')
    requires MovesOnly(s.holder, s'.holder, i) && MovesOnly(owner, owner', i)
    requires forall j {:trigger WakeInv(s', j)} :: 0 <= j < |s.cpus| ==> WakeInv(s', j)
    ensures Inv(s', owner')
  {
    forall j | 0 <= j < |s.cpus| ensures ThreadInv(s', owner', j) {
      assert ThreadInv(s, owner, j);
    }
  }

  lemma WakeKept(s: State, owner: Option<nat>, s': State, i: nat)
    requires Inv(s, owner) && i < |s.cpus| == |s'.cpus|
    requires s'.cpus == s.cpus[i := s'.cpus[i]] && WakeInv(s', i)
    requires (ResumeDue(s) ==> ResumeDue(s')) && (SignalDue(s) ==> SignalDue(s'))
    ensures forall j {:trigger WakeInv(s', j)} :: 0 <= j < |s.cpus| ==> WakeInv(s', j)
  {
    forall j | 0 <= j < |s.cpus| ensures WakeInv(s', j) {
      assert ThreadInv(s, owner, j);
    }
  }

  /** A step of a thread that owns nothing and leaves the counters alone. */
  lemma BystanderMoved(s: State, owner: Option<nat>, s': State, i: nat)
    requires Inv(s, owner) && i < |s.cpus| == |s'.cpus|
    requires s'.cpus == s.cpus[i := s'.cpus[i]] && s'.pending == s.pending
    requires MovesOnly(s.holder, s'.holder, i)
    requires var c, c' := s.cpus[i], s'.cpus[i];
             && !Owns(c.pc) && !Owns(c'.pc) && c.hasWaiter == c'.hasWaiter
             && LocalInv(c') && (Holds(c'.pc) <==> s'.holder == Some(i)) && WakeInv(s', i)
             && c.pc != EndSignal && c.pc != FinishBroadcast
             && (Committed(c'.pc) ==> Committed(c.pc) || c.hasWaiter || s.pending == 0)
    ensures Inv(s', owner)
  {
    assert ThreadInv(s, owner, i);
    CountUpdate(s.cpus, i, s'.cpus[i]);
    if owner.Some? {
      assert ThreadInv(s, owner, owner.value);
      assert OwnerInv(s', owner.value);
    }
    WakeKept(s, owner, s', i);
    OneThreadMoved(s, owner, s', owner, i);
  }

  /** A step of the owner after the scan that leaves the counters alone. */
  lemma OwnerMoved(s: State, s': State, i: nat)
    requires Inv(s, Some(i)) && i < |s.cpus| == |s'.cpus|
    requires s'.cpus == s.cpus[i := s'.cpus[i]] && s'.pending == s.pending
    requires MovesOnly(s.holder, s'.holder, i)
    requires var c, c' := s.cpus[i], s'.cpus[i];
             && !c.pc.ExclScan? && !c'.pc.ExclScan? && Owns(c'.pc) && c.hasWaiter == c'.hasWaiter
             && LocalInv(c') && (Holds(c'.pc) <==> s'.holder == Some(i)) && WakeInv(s', i)
             && (c'.pc.ExclUnlock? || InsideExclusive(c'.pc) ==> s.pending == 1)
    ensures Inv(s', Some(i))
  {
    assert ThreadInv(s, Some(i), i);
    CountUpdate(s.cpus, i, s'.cpus[i]);
    WakeKept(s, Some(i), s', i);
    OneThreadMoved(s, Some(i), s', Some(i), i);
  }

  lemma StartKeepsInv(s: State, owner: Option<nat>, s': State, i: nat)
    requires Inv(s, owner) && i < |s.cpus| && Internal(s, s', i)
    requires var pc := s.cpus[i].pc; pc.StartCheck? || pc.StartLock? || pc.StartLocked?
    ensures Inv(s', owner)
  {
    assert ThreadInv(s, owner, i);
    BystanderMoved(s, owner, s', i);
  }

  lemma IdleKeepsInv(s: State, owner: Option<nat>, s': State, i: nat)
    requires Inv(s, owner) && i < |s.cpus| && Internal(s, s', i)
    requires var pc := s.cpus[i].pc; pc.StartIdleTest? || pc.StartSleep? || pc.StartUnlock?
    ensures Inv(s', owner)
  {
    assert ThreadInv(s, owner, i);
    BystanderMoved(s, owner, s', i);
  }

  lemma EndKeepsInv(s: State, owner: Option<nat>, s': State, i: nat)
    requires Inv(s, owner) && i < |s.cpus| && Internal(s, s', i)
    requires var pc := s.cpus[i].pc; pc.Executing? || pc.EndCheck? || pc.EndLock? || pc.EndUnlock?
    ensures Inv(s', owner)
  {
    assert ThreadInv(s, owner, i);
    if s.cpus[i].pc.EndCheck? && s.pending == 0 {
      CountZero(s.cpus);
    }
    BystanderMoved(s, owner, s', i);
  }

  lemma CountDownKeepsInv(s: State, owner: Option<nat>, s': State, i: nat)
    requires Inv(s, owner) && i < |s.cpus| && Internal(s, s', i)
    requires var pc := s.cpus[i].pc; pc.EndLocked?
    ensures Inv(s', owner)
  {
    assert ThreadInv(s, owner, i);
    if s.cpus[i].hasWaiter {
      CountZero(s.cpus);
      CountUpdate(s.cpus, i, s'.cpus[i]);
      assert ThreadInv(s, owner, owner.value);
      WakeKept(s, owner, s', i);
      OneThreadMoved(s, owner, s', owner, i);
    } else {
      BystanderMoved(s, owner, s', i);
    }
  }

  lemma ExclKeepsInv(s: State, owner: Option<nat>, s': State, i: nat)
    requires Inv(s, owner) && i < |s.cpus| && Internal(s, s', i)
    requires var pc := s.cpus[i].pc; pc.ExclLock? || pc.ExclIdleTest? || pc.ExclSleep?
    ensures Inv(s', OwnerAfter(s, owner, i))
  {
    assert ThreadInv(s, owner, i);
    if s.cpus[i].pc.ExclIdleTest? && s.pending == 0 {
      SectionBegins(s, owner, s', i);
    } else {
      BystanderMoved(s, owner, s', i);
    }
  }

  lemma SectionBegins(s: State, owner: Option<nat>, s': State, i: nat)
    requires Inv(s, owner) && i < |s.cpus| && s.cpus[i].pc.ExclIdleTest? && s.pending == 0
    requires s' == Goto(s, i, ExclScan(0, 0)).(pending := 1)
    ensures Inv(s', Some(i))
  {
    assert ThreadInv(s, owner, i);
    CountUpdate(s.cpus, i, s'.cpus[i]);
    CountZero(s.cpus);
    WakeKept(s, owner, s', i);
    OneThreadMoved(s, owner, s', Some(i), i);
  }

  lemma SectionEnds(s: State, owner: Option<nat>, s': State, i: nat)
    requires Inv(s, owner) && i < |s.cpus| && s.cpus[i].pc.FinishLocked?
    requires s' == Goto(s, i, FinishBroadcast).(pending := 0)
    ensures Inv(s', None)
  {
    assert ThreadInv(s, owner, i);
    CountUpdate(s.cpus, i, s'.cpus[i]);
    WakeKept(s, owner, s', i);
    OneThreadMoved(s, owner, s', None, i);
  }

  lemma WaitKeepsInv(s: State, owner: Option<nat>, s': State, i: nat)
    requires Inv(s, owner) && i < |s.cpus| && Internal(s, s', i)
    requires var pc := s.cpus[i].pc; pc.ExclWaitTest? || pc.ExclWait? || pc.ExclUnlock?
    ensures Inv(s', owner)
  {
    assert ThreadInv(s, owner, i);
    assert owner == Some(i);
    OwnerMoved(s, s', i);
  }

  lemma FinishKeepsInv(s: State, owner: Option<nat>, s': State, i: nat)
    requires Inv(s, owner) && i < |s.cpus| && Internal(s, s', i)
    requires var pc := s.cpus[i].pc; pc.InExclusive? || pc.FinishLock? || pc.FinishLocked? || pc.FinishUnlock?
    ensures Inv(s', OwnerAfter(s, owner, i))
  {
    assert ThreadInv(s, owner, i);
    if s.cpus[i].pc.FinishLocked? {
      SectionEnds(s, owner, s', i);
    } else if s.cpus[i].pc.FinishUnlock? {
      BystanderMoved(s, owner, s', i);
    } else {
      assert owner == Some(i);
      OwnerMoved(s, s', i);
    }
  }

  lemma SignalKeepsInv(s: State, owner: Option<nat>, s': State, i: nat)
    requires Inv(s, owner) && i < |s.cpus| && Internal(s, s', i)
    requires s.cpus[i].pc.EndSignal?
    ensures Inv(s', owner)
  {
    var w: Option<nat> :| Signalled(s, w) && s' == Goto(Wake(s, w), i, EndUnlock);
    if w.Some? {
      SignalWakes(s, owner, w.value);
    }
    SignalDone(Wake(s, w), owner, s', i);
  }

  lemma SignalWakes(s: State, owner: Option<nat>, w: nat)
    requires Inv(s, owner) && w < |s.cpus| && s.cpus[w].pc == ExclWait(false)
    ensures owner == Some(w) && Inv(Goto(s, w, ExclWait(true)), owner)
  {
    assert ThreadInv(s, owner, w);
    OwnerMoved(s, Goto(s, w, ExclWait(true)), w);
  }

  lemma SignalDone(s: State, owner: Option<nat>, s': State, i: nat)
    requires Inv(s, owner) && i < |s.cpus| && s.cpus[i].pc.EndSignal?
    requires s' == Goto(s, i, EndUnlock)
    requires owner.Some? ==> s.cpus[owner.value].pc != ExclWait(false)
    ensures Inv(s', owner)
  {
    assert ThreadInv(s, owner, i);
    CountUpdate(s.cpus, i, s'.cpus[i]);
    forall j | 0 <= j < |s.cpus| ensures WakeInv(s', j) {
      assert ThreadInv(s, owner, j);
    }
    if owner.Some? { assert OwnerInv(s', owner.value); }
    OneThreadMoved(s, owner, s', owner, i);
  }

  lemma ScanKeepsInv(s: State, owner: Option<nat>, s': State, i: nat)
    requires Inv(s, owner) && i < |s.cpus| && Internal(s, s', i)
    requires s.cpus[i].pc.ExclScan?
    ensures Inv(s', owner)
  {
    var k := s.cpus[i].pc.next;
    assert ThreadInv(s, owner, i);
    if k < |s.cpus| {
      assert ThreadInv(s, owner, k);
      if s.cpus[k].running {
        ScanFound(s, s', i, k);
      } else {
        ScanPassed(s, s', i, k);
      }
    } else {
      ScanEnds(s, s', i);
    }
  }

  lemma ScanPassed(s: State, s': State, i: nat, k: nat)
    requires Inv(s, Some(i)) && i < |s.cpus| && k < |s.cpus|
    requires s.cpus[i].pc.ExclScan? && s.cpus[i].pc.next == k && !s.cpus[k].running
    requires s' == Goto(s, i, ExclScan(k + 1, s.cpus[i].pc.seen))
    ensures Inv(s', Some(i))
  {
    assert ThreadInv(s, Some(i), i) && ThreadInv(s, Some(i), k);
    CountUpdate(s.cpus, i, s'.cpus[i]);
    WakeKept(s, Some(i), s', i);
    OneThreadMoved(s, Some(i), s', Some(i), i);
  }

  lemma ScanEnds(s: State, s': State, i: nat)
    requires Inv(s, Some(i)) && i < |s.cpus| && s.cpus[i].pc.ExclScan? && s.cpus[i].pc.next == |s.cpus|
    requires s' == Goto(s, i, ExclWaitTest).(pending := s.cpus[i].pc.seen + 1)
    ensures Inv(s', Some(i))
  {
    assert ThreadInv(s, Some(i), i);
    CountUpdate(s.cpus, i, s'.cpus[i]);
    WakeKept(s, Some(i), s', i);
    OneThreadMoved(s, Some(i), s', Some(i), i);
  }

  lemma ScanFound(s: State, s': State, i: nat, k: nat)
    requires Inv(s, Some(i)) && i < |s.cpus| && k < |s.cpus| && k != i
    requires s.cpus[i].pc.ExclScan? && s.cpus[i].pc.next == k && s.cpus[k].running
    requires s' == Scanned(s, i, k, s.cpus[i].pc.seen)
    ensures Inv(s', Some(i))
  {
    assert ThreadInv(s, Some(i), i) && ThreadInv(s, Some(i), k);
    var mid := Put(s, k, s.cpus[k].(hasWaiter := true));
    CountUpdate(s.cpus, k, mid.cpus[k]);
    CountUpdate(mid.cpus, i, s'.cpus[i]);
    forall j | 0 <= j < |s.cpus| ensures ThreadInv(s', Some(i), j) {
      assert ThreadInv(s, Some(i), j);
    }
  }

  /** Being woken changes nothing but the wake-up itself. */
  lemma ResumedSame(c: Cpu)
    ensures var c' := Resumed(c);
            && c'.(pc := c.pc) == c && Owns(c'.pc) == Owns(c.pc) && Holds(c'.pc) == Holds(c.pc)
            && Committed(c'.pc) == Committed(c.pc) && LocalInv(c') == LocalInv(c)
            && (Owns(c.pc) ==> c' == c)
  {}

  lemma BroadcastKeepsInv(s: State, owner: Option<nat>, s': State, i: nat)
    requires Inv(s, owner) && i < |s.cpus| && Internal(s, s', i)
    requires s.cpus[i].pc.FinishBroadcast?
    ensures Inv(s', owner)
  {
    assert ThreadInv(s, owner, i);
    forall j | 0 <= j < |s.cpus| ensures ThreadInv(s', owner, j) {
      assert ThreadInv(s, owner, j);
      ResumedSame(s.cpus[j]);
    }
    BroadcastKeepsSection(s, owner, s', i);
  }

  lemma BroadcastKeepsSection(s: State, owner: Option<nat>, s': State, i: nat)
    requires Inv(s, owner) && i < |s.cpus| && s.cpus[i].pc.FinishBroadcast?
    requires s' == Goto(s.(cpus := Broadcast(s.cpus)), i, FinishUnlock)
    ensures SectionInv(s', owner)
  {
    forall j | 0 <= j < |s.cpus|
      ensures s'.cpus[j].hasWaiter == s.cpus[j].hasWaiter
      ensures Committed(s'.cpus[j].pc) == Committed(s.cpus[j].pc)
      ensures owner == Some(j) ==> s'.cpus[j] == s.cpus[j]
    {
      assert ThreadInv(s, owner, j);
      ResumedSame(s.cpus[j]);
    }
    CountSame(s.cpus, s'.cpus);
  }

  lemma CallKeepsInv(s: State, owner: Option<nat>, s': State, i: nat)
    requires Inv(s, owner) && i < |s.cpus| && (Call(s, s', i) || Spurious(s, s', i))
    ensures Inv(s', owner)
  {
    assert ThreadInv(s, owner, i);
    if Owns(s.cpus[i].pc) {
      OwnerMoved(s, s', i);
    } else {
      BystanderMoved(s, owner, s', i);
    }
  }

  lemma NextKeepsInv(s: State, owner: Option<nat>, s': State) returns (owner': Option<nat>)
    requires Inv(s, owner) && Next(s, s')
    ensures Inv(s', owner')
  {
    var i: nat :| i < |s.cpus| && (Internal(s, s', i) || Call(s, s', i) || Spurious(s, s', i));
    owner' := owner;
    if Internal(s, s', i) {
      owner' := OwnerAfter(s, owner, i);
      match s.cpus[i].pc
      case StartCheck | StartLock | StartLocked => StartKeepsInv(s, owner, s', i);
      case StartIdleTest | StartSleep(_) | StartUnlock => IdleKeepsInv(s, owner, s', i);
      case Executing | EndCheck | EndLock | EndUnlock => EndKeepsInv(s, owner, s', i);
      case EndLocked => CountDownKeepsInv(s, owner, s', i);
      case EndSignal => SignalKeepsInv(s, owner, s', i);
      case ExclScan(_, _) => ScanKeepsInv(s, owner, s', i);
      case ExclLock | ExclIdleTest | ExclSleep(_) => ExclKeepsInv(s, owner, s', i);
      case ExclWaitTest | ExclWait(_) | ExclUnlock => WaitKeepsInv(s, owner, s', i);
      case InExclusive | FinishLock | FinishLocked | FinishUnlock => FinishKeepsInv(s, owner, s', i);
      case FinishBroadcast => BroadcastKeepsInv(s, owner, s', i);
      case Idle =>
    } else {
      CallKeepsInv(s, owner, s', i);
    }
  }

  lemma {:induction false} RunKeepsInv(run: seq<State>, t: nat) returns (owner: Option<nat>)
    requires IsRun(run) && t < |run|
    ensures Inv(run[t], owner)
  {
    if t == 0 {
      CountZero(run[0].cpus);
      owner := None;
    } else {
      owner := RunKeepsInv(run, t - 1);
      assert StepAt(run, t);
      owner := NextKeepsInv(run[t - 1], owner, run[t]);
    }
  }

  // ---------------------------------------------------------------------------
  // Safety over every run
  // ---------------------------------------------------------------------------

  /** While one thread is inside an exclusive section, no CPU executes guest code and
      no other thread is inside an exclusive section. */
  lemma ExclusionOnEveryRun(run: seq<State>, t: nat)
    requires IsRun(run) && t < |run|
    ensures MutualExclusion(run[t])
  {
    var s := run[t];
    var owner := RunKeepsInv(run, t);
    CountZero(s.cpus);
    forall i, j | 0 <= i < |s.cpus| && 0 <= j < |s.cpus| && InsideExclusive(s.cpus[i].pc)
      ensures !s.cpus[j].pc.Executing? && (i != j ==> !InsideExclusive(s.cpus[j].pc))
    {
      assert ThreadInv(s, owner, i) && ThreadInv(s, owner, j);
    }
  }

  /** `pending_cpus` counts the exclusive section and the CPUs it waits for, and each of
      those CPUs still has its decrement ahead of it. */
  lemma AccountingOnEveryRun(run: seq<State>, t: nat)
    requires IsRun(run) && t < |run|
    ensures Accounting(run[t])
  {
    var s := run[t];
    var owner := RunKeepsInv(run, t);
    forall i | 0 <= i < |s.cpus| ensures s.cpus[i].hasWaiter ==> DecrementAhead(s.cpus[i].pc) {
      assert ThreadInv(s, owner, i);
    }
    if owner.Some? { assert ThreadInv(s, owner, owner.value); }
  }

  // ---------------------------------------------------------------------------
  // Progress
  // ---------------------------------------------------------------------------

  lemma EnabledCanStep(s: State, i: nat) returns (s': State)
    requires i < |s.cpus| && Enabled(s, i)
    ensures Internal(s, s', i)
  {
    if s.cpus[i].pc.EndSignal? {
      if w: nat :| w < |s.cpus| && s.cpus[w].pc == ExclWait(false) {
        assert Signalled(s, Some(w));
        s' := Goto(Wake(s, Some(w)), i, EndUnlock);
      } else {
        assert Signalled(s, None);
        s' := Goto(Wake(s, None), i, EndUnlock);
      }
    } else {
      s' := After(s, i);
    }
  }

  /** Unless all threads are idle, one of them is enabled: the lock holder, the owner of
      the section, or a CPU that the owner waits for. */
  lemma SomeoneEnabled(s: State, owner: Option<nat>, busy: nat) returns (i: nat)
    requires Inv(s, owner) && busy < |s.cpus| && !s.cpus[busy].pc.Idle?
    ensures i < |s.cpus| && Enabled(s, i)
  {
    assert ThreadInv(s, owner, busy);
    if s.holder.Some? {
      i := s.holder.value;
      assert ThreadInv(s, owner, i);
    } else if Enabled(s, busy) {
      i := busy;
    } else {
      i := owner.value;
      assert ThreadInv(s, owner, i);
      if !Enabled(s, i) {
        CountZero(s.cpus);
        i :| 0 <= i < |s.cpus| && s.cpus[i].hasWaiter;
        assert ThreadInv(s, owner, i);
      }
    }
  }

  /** No reachable state is deadlocked, even if no new call is ever made and no
      condition variable wakes up spuriously. */
  lemma NoDeadlock(run: seq<State>, t: nat, busy: nat)
    requires IsRun(run) && t < |run| && busy < |run[t].cpus| && !run[t].cpus[busy].pc.Idle?
    ensures !Quiescent(run[t])
  {
    var owner := RunKeepsInv(run, t);
    var i := SomeoneEnabled(run[t], owner, busy);
    assert ThreadInv(run[t], owner, i);
    var s' := EnabledCanStep(run[t], i);
    assert InternalStep(run[t], s');
  }

  /** An upper bound for the number of steps thread `c` and the sleepers it wakes can take. */
  function Rank(c: Cpu, n: nat): nat
  {
    match c.pc
    case Idle => 0
    case EndUnlock => 1
    case EndSignal => 4
    case EndLocked => 5
    case EndLock => 6
    case EndCheck => 7
    case Executing => 8
    case StartUnlock => 9
    case StartSleep(woken) => if woken then 11 else 9
    case StartIdleTest => 10
    case StartLocked => 11
    case StartLock => 12
    case StartCheck => 13
    case FinishUnlock => 1
    case FinishBroadcast => 2 + 2 * n
    case FinishLocked => 3 + 2 * n
    case FinishLock => 4 + 2 * n
    case InExclusive => 4 + 2 * n + c.depth
    case ExclUnlock => 6 + 2 * n
    case ExclWait(woken) => (if woken then 8 else 6) + 2 * n
    case ExclWaitTest => 7 + 2 * n
    case ExclScan(k, _) => 8 + 2 * n + (if k <= n then n - k else 0)
    case ExclSleep(woken) => (if woken then 10 else 8) + 3 * n
    case ExclIdleTest => 9 + 3 * n
    case ExclLock => 10 + 3 * n
  }

  function Potential(cpus: seq<Cpu>, n: nat): nat
  {
    if cpus == [] then 0
    else Potential(cpus[..|cpus| - 1], n) + Rank(cpus[|cpus| - 1], n)
  }

  lemma {:induction false} PotentialUpdate(cpus: seq<Cpu>, n: nat, i: nat, c: Cpu)
    requires i < |cpus|
    ensures Potential(cpus[i := c], n) == Potential(cpus, n) - Rank(cpus[i], n) + Rank(c, n)
  {
    var last := |cpus| - 1;
    if i == last {
      assert cpus[i := c][..last] == cpus[..last];
    } else {
      assert cpus[i := c][..last] == cpus[..last][i := c];
      PotentialUpdate(cpus[..last], n, i, c);
    }
  }

  lemma TwoUpdates(cpus: seq<Cpu>, n: nat, k: nat, ck: Cpu, i: nat, ci: Cpu)
    requires k < |cpus| && i < |cpus| && k != i
    ensures Potential(cpus[k := ck][i := ci], n) ==
            Potential(cpus, n) - Rank(cpus[k], n) + Rank(ck, n) - Rank(cpus[i], n) + Rank(ci, n)
  {
    PotentialUpdate(cpus, n, k, ck);
    PotentialUpdate(cpus[k := ck], n, i, ci);
  }

  lemma {:induction false} PotentialBroadcast(cpus: seq<Cpu>, n: nat)
    ensures Potential(Broadcast(cpus), n) <= Potential(cpus, n) + 2 * |cpus|
  {
    if cpus != [] {
      var last := |cpus| - 1;
      PotentialBroadcast(cpus[..last], n);
      assert Broadcast(cpus)[..last] == Broadcast(cpus[..last]);
    }
  }

  /** Every step inside the protocol uses up potential; only a new call adds some. */
  lemma StepUsesPotential(s: State, s': State, i: nat)
    requires i < |s.cpus| && Internal(s, s', i)
    requires s.cpus[i].pc.ExclScan? ==> s.cpus[i].pc.next <= |s.cpus|
    ensures |s'.cpus| == |s.cpus| && Potential(s'.cpus, |s.cpus|) < Potential(s.cpus, |s.cpus|)
  {
    var pc := s.cpus[i].pc;
    if pc.FinishBroadcast? {
      BroadcastUsesPotential(s, s', i);
    } else if pc.EndSignal? {
      SignalUsesPotential(s, s', i);
    } else if pc.ExclScan? {
      ScanUsesPotential(s, s', i);
    } else {
      if InExec(pc) {
        RankDropsInExec(s, s', i);
      } else if Owns(pc) {
        RankDropsForOwner(s, s', i);
      } else {
        RankDropsElsewhere(s, s', i);
      }
      PotentialUpdate(s.cpus, |s.cpus|, i, s'.cpus[i]);
    }
  }

  lemma BroadcastUsesPotential(s: State, s': State, i: nat)
    requires i < |s.cpus| && s.cpus[i].pc.FinishBroadcast? && Internal(s, s', i)
    ensures |s'.cpus| == |s.cpus| && Potential(s'.cpus, |s.cpus|) < Potential(s.cpus, |s.cpus|)
  {
    var all := Broadcast(s.cpus);
    PotentialBroadcast(s.cpus, |s.cpus|);
    assert s'.cpus == all[i := s'.cpus[i]];
    PotentialUpdate(all, |s.cpus|, i, s'.cpus[i]);
  }

  predicate InExec(pc: Pc)
  {
    pc.StartCheck? || pc.StartLock? || pc.StartLocked? || pc.StartIdleTest? || pc.StartSleep? ||
    pc.StartUnlock? || pc.Executing? || pc.EndCheck? || pc.EndLock? || pc.EndLocked? || pc.EndUnlock?
  }

  lemma RankDropsForOwner(s: State, s': State, i: nat)
    requires i < |s.cpus| && Internal(s, s', i)
    requires var pc := s.cpus[i].pc; Owns(pc) && !pc.ExclScan?
    ensures |s'.cpus| == |s.cpus| && s'.cpus == s.cpus[i := s'.cpus[i]]
    ensures Rank(s'.cpus[i], |s.cpus|) < Rank(s.cpus[i], |s.cpus|)
  {
    match s.cpus[i].pc
    case ExclWaitTest => assert s'.cpus[i].pc.ExclWait? || s'.cpus[i].pc.ExclUnlock?;
    case ExclWait(_) => assert s'.cpus[i].pc.ExclWaitTest?;
    case ExclUnlock => assert s'.cpus[i].pc.InExclusive?;
    case InExclusive => assert s'.cpus[i].pc.InExclusive? || s'.cpus[i].pc.FinishLock?;
    case FinishLock => assert s'.cpus[i].pc.FinishLocked?;
    case FinishLocked => assert s'.cpus[i].pc.FinishBroadcast?;
  }

  lemma RankDropsElsewhere(s: State, s': State, i: nat)
    requires i < |s.cpus| && Internal(s, s', i)
    requires var pc := s.cpus[i].pc; !InExec(pc) && !Owns(pc) && !pc.EndSignal? && !pc.FinishBroadcast?
    ensures |s'.cpus| == |s.cpus| && s'.cpus == s.cpus[i := s'.cpus[i]]
    ensures Rank(s'.cpus[i], |s.cpus|) < Rank(s.cpus[i], |s.cpus|)
  {}

  lemma RankDropsInExec(s: State, s': State, i: nat)
    requires i < |s.cpus| && Internal(s, s', i)
    requires InExec(s.cpus[i].pc)
    ensures |s'.cpus| == |s.cpus| && s'.cpus == s.cpus[i := s'.cpus[i]]
    ensures Rank(s'.cpus[i], |s.cpus|) < Rank(s.cpus[i], |s.cpus|)
  {}

  lemma ScanUsesPotential(s: State, s': State, i: nat)
    requires i < |s.cpus| && s.cpus[i].pc.ExclScan? && Internal(s, s', i) && s.cpus[i].pc.next <= |s.cpus|
    ensures |s'.cpus| == |s.cpus| && Potential(s'.cpus, |s.cpus|) < Potential(s.cpus, |s.cpus|)
  {
    hide Potential;
    var n, k := |s.cpus|, s.cpus[i].pc.next;
    if k < n && s.cpus[k].running {
      if k == i {
        assert s'.cpus == s.cpus[i := s'.cpus[i]];
        PotentialUpdate(s.cpus, n, i, s'.cpus[i]);
      } else {
        TwoUpdates(s.cpus, n, k, s.cpus[k].(hasWaiter := true), i, s'.cpus[i]);
      }
    } else {
      PotentialUpdate(s.cpus, n, i, s'.cpus[i]);
    }
  }

  lemma SignalUsesPotential(s: State, s': State, i: nat)
    requires i < |s.cpus| && s.cpus[i].pc.EndSignal? && Internal(s, s', i)
    ensures |s'.cpus| == |s.cpus| && Potential(s'.cpus, |s.cpus|) < Potential(s.cpus, |s.cpus|)
  {
    var w: Option<nat> :| Signalled(s, w) && s' == Goto(Wake(s, w), i, EndUnlock);
    SignalPotential(s, w, i);
  }

  lemma SignalPotential(s: State, w: Option<nat>, i: nat)
    requires i < |s.cpus| && s.cpus[i].pc.EndSignal? && Signalled(s, w)
    ensures Potential(Goto(Wake(s, w), i, EndUnlock).cpus, |s.cpus|) < Potential(s.cpus, |s.cpus|)
  {
    var done := s.cpus[i].(pc := EndUnlock);
    if w.Some? {
      TwoUpdates(s.cpus, |s.cpus|, w.value, s.cpus[w.value].(pc := ExclWait(true)), i, done);
    } else {
      PotentialUpdate(s.cpus, |s.cpus|, i, done);
    }
  }

  ghost predicate InternalStep(s: State, s': State)
  {
    exists i: nat :: i < |s.cpus| && Internal(s, s', i)
  }

  /** No thread can take a step unless a new call is made. */
  ghost predicate Quiescent(s: State)
  {
    forall s' :: !InternalStep(s, s')
  }

  lemma InternalStepUsesPotential(s: State, owner: Option<nat>, s': State)
    requires Inv(s, owner) && InternalStep(s, s')
    ensures |s'.cpus| == |s.cpus| && Potential(s'.cpus, |s.cpus|) < Potential(s.cpus, |s.cpus|)
  {
    var i: nat :| i < |s.cpus| && Internal(s, s', i);
    assert ThreadInv(s, owner, i);
    StepUsesPotential(s, s', i);
  }

  ghost predicate CallFreeAt(run: seq<State>, t: nat)
    requires 0 < t < |run|
  {
    InternalStep(run[t - 1], run[t])
  }

  /** From time `from` to time `until` no new call is made. */
  ghost predicate NoCalls(run: seq<State>, from: nat, until: nat)
    requires until < |run|
  {
    forall t {:trigger CallFreeAt(run, t)} :: from < t <= until ==> CallFreeAt(run, t)
  }

  /** Once no new call is made, a run lasts at most `Potential` steps more. */
  lemma {:induction false} DrainIsBounded(run: seq<State>, from: nat, until: nat)
    requires IsRun(run) && from <= until < |run| && NoCalls(run, from, until)
    ensures |run[until].cpus| == |run[from].cpus|
    ensures (until - from) + Potential(run[until].cpus, |run[until].cpus|) <=
            Potential(run[from].cpus, |run[from].cpus|)
    decreases until
  {
    if from < until {
      DrainIsBounded(run, from, until - 1);
      var owner := RunKeepsInv(run, until - 1);
      assert CallFreeAt(run, until);
      InternalStepUsesPotential(run[until - 1], owner, run[until]);
    }
  }

  /** A run that has gone on for as long as it can without new calls leaves every thread
      idle: every waiting thread was let through. */
  lemma EveryoneGetsThrough(run: seq<State>, t: nat)
    requires IsRun(run) && t < |run| && Quiescent(run[t])
    ensures forall i :: 0 <= i < |run[t].cpus| ==> run[t].cpus[i].pc.Idle?
  {
    forall i | 0 <= i < |run[t].cpus| ensures run[t].cpus[i].pc.Idle? {
      if !run[t].cpus[i].pc.Idle? {
        NoDeadlock(run, t, i);
      }
    }
  }
}
