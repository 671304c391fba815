/** How long the owner of the exclusive section has to wait (`qemu/cpu-common.c`). */
module ExclusiveEntry {

  // Between the moment `start_exclusive` has set `pending_cpus` and its return, the other
  // threads may go on calling `cpu_exec_start`, `cpu_exec_end` and `start_exclusive`.  Each of
  // them gets stuck after a bounded number of steps, so the owner gets in.

  import opened Wrappers
  import opened Exclusive

  /** The thread has announced an exclusive section and is not inside yet. */
  predicate Claims(pc: Pc)
  {
    pc.ExclScan? || pc.ExclWaitTest? || pc.ExclWait? || pc.ExclUnlock?
  }

  /** How many steps a thread can take before it is stuck or inside, while somebody claims the
      section; `n` is the number of threads.  Going on from Idle is a new call. */
  function Steps(c: Cpu, n: nat): nat
  {
    match c.pc
    case StartSleep(woken) => if woken then 2 else 0
    case StartIdleTest => 1
    case StartLocked => if c.hasWaiter then 15 else 2
    case StartLock => if c.hasWaiter then 16 else 3
    case StartCheck => if c.hasWaiter then 17 else 4
    case ExclSleep(woken) => if woken then 2 else 0
    case ExclIdleTest => 1
    case ExclLock => 2
    case Idle => 5
    case EndUnlock => 6
    case EndSignal => 9
    case EndLocked => 10
    case EndLock => 11
    case EndCheck => 12
    case Executing => 13
    case StartUnlock => 14
    case FinishUnlock => 6
    case FinishBroadcast => 7 + 2 * n
    case ExclUnlock => 1
    case ExclWait(woken) => if woken then 3 else 1
    case ExclWaitTest => 2
    case ExclScan(k, _) => 3 + 14 * (if k <= n then n - k else 0)
    case InExclusive | FinishLock | FinishLocked => 0
  }

  function AllSteps(cpus: seq<Cpu>, n: nat): nat
  {
    if cpus == [] then 0 else AllSteps(cpus[..|cpus| - 1], n) + Steps(cpus[|cpus| - 1], n)
  }

  lemma {:induction false} StepsUpdate(cpus: seq<Cpu>, n: nat, i: nat, c: Cpu)
    requires i < |cpus|
    ensures AllSteps(cpus[i := c], n) == AllSteps(cpus, n) - Steps(cpus[i], n) + Steps(c, n)
  {
    var last := |cpus| - 1;
    if i == last {
      assert cpus[i := c][..last] == cpus[..last];
    } else {
      assert cpus[i := c][..last] == cpus[..last][i := c];
      StepsUpdate(cpus[..last], n, i, c);
    }
  }

  lemma StepsTwice(cpus: seq<Cpu>, n: nat, k: nat, ck: Cpu, i: nat, ci: Cpu)
    requires k < |cpus| && i < |cpus| && k != i
    ensures AllSteps(cpus[k := ck][i := ci], n) ==
            AllSteps(cpus, n) - Steps(cpus[k], n) + Steps(ck, n) - Steps(cpus[i], n) + Steps(ci, n)
  {
    StepsUpdate(cpus, n, k, ck);
    StepsUpdate(cpus[k := ck], n, i, ci);
  }

  lemma {:induction false} StepsBroadcast(cpus: seq<Cpu>, n: nat)
    ensures AllSteps(Broadcast(cpus), n) <= AllSteps(cpus, n) + 2 * |cpus|
  {
    if cpus != [] {
      var last := |cpus| - 1;
      StepsBroadcast(cpus[..last], n);
      assert Broadcast(cpus)[..last] == Broadcast(cpus[..last]);
    }
  }

  /** Somebody claims the section: the counter is not zero, and no one else is inside. */
  ghost predicate Claimed(s: State, o: nat)
  {
    Inv(s, Some(o)) && o < |s.cpus| && Claims(s.cpus[o].pc)
  }

  lemma ClaimedFacts(s: State, o: nat, i: nat)
    requires Claimed(s, o) && i < |s.cpus|
    ensures s.pending != 0 && LocalInv(s.cpus[i]) && (Owns(s.cpus[i].pc) ==> i == o && Claims(s.cpus[i].pc))
    ensures s.cpus[i].pc.ExclScan? ==> s.cpus[i].pc.next <= |s.cpus|
    ensures s.cpus[i].pc.StartIdleTest? ==> !s.cpus[i].hasWaiter
  {
    assert ThreadInv(s, Some(o), i) && ThreadInv(s, Some(o), o);
  }

  /** A new call uses up a step. */
  lemma CallUsesStep(s: State, s': State, o: nat, i: nat)
    requires Claimed(s, o) && i < |s.cpus| && Call(s, s', i)
    ensures |s'.cpus| == |s.cpus| && AllSteps(s'.cpus, |s.cpus|) < AllSteps(s.cpus, |s.cpus|)
  {
    ClaimedFacts(s, o, i);
    StepsUpdate(s.cpus, |s.cpus|, i, s'.cpus[i]);
    assert s'.cpus == s.cpus[i := s'.cpus[i]];
  }

  /** A step that changes one thread only. */
  lemma OwnStep(s: State, s': State, o: nat, i: nat)
    requires Claimed(s, o) && i < |s.cpus| && Internal(s, s', i)
    requires var pc := s.cpus[i].pc; !pc.ExclScan? && !pc.EndSignal? && !pc.FinishBroadcast?
    ensures |s'.cpus| == |s.cpus| && s'.cpus == s.cpus[i := s'.cpus[i]]
    ensures Steps(s'.cpus[i], |s.cpus|) < Steps(s.cpus[i], |s.cpus|)
  {
    hide Claimed;
    ClaimedFacts(s, o, i);
  }

  lemma ScanStep(s: State, s': State, o: nat, i: nat)
    requires Claimed(s, o) && i < |s.cpus| && Internal(s, s', i) && s.cpus[i].pc.ExclScan?
    ensures |s'.cpus| == |s.cpus| && AllSteps(s'.cpus, |s.cpus|) < AllSteps(s.cpus, |s.cpus|)
  {
    hide AllSteps;
    hide Claimed;
    ClaimedFacts(s, o, i);
    var n, k := |s.cpus|, s.cpus[i].pc.next;
    if k < n && s.cpus[k].running {
      ClaimedFacts(s, o, k);
      StepsTwice(s.cpus, n, k, s.cpus[k].(hasWaiter := true), i, s'.cpus[i]);
    } else {
      assert s'.cpus == s.cpus[i := s'.cpus[i]];
      StepsUpdate(s.cpus, n, i, s'.cpus[i]);
    }
  }

  lemma SignalStep(s: State, s': State, i: nat)
    requires i < |s.cpus| && Internal(s, s', i) && s.cpus[i].pc.EndSignal?
    ensures |s'.cpus| == |s.cpus| && AllSteps(s'.cpus, |s.cpus|) < AllSteps(s.cpus, |s.cpus|)
  {
    var w: Option<nat> :| Signalled(s, w) && s' == Goto(Wake(s, w), i, EndUnlock);
    SignalUsesSteps(s, w, i);
  }

  lemma SignalUsesSteps(s: State, w: Option<nat>, i: nat)
    requires i < |s.cpus| && s.cpus[i].pc.EndSignal? && Signalled(s, w)
    ensures AllSteps(Goto(Wake(s, w), i, EndUnlock).cpus, |s.cpus|) < AllSteps(s.cpus, |s.cpus|)
  {
    hide AllSteps;
    var done := s.cpus[i].(pc := EndUnlock);
    if w.Some? {
      StepsTwice(s.cpus, |s.cpus|, w.value, s.cpus[w.value].(pc := ExclWait(true)), i, done);
    } else {
      StepsUpdate(s.cpus, |s.cpus|, i, done);
    }
  }

  lemma BroadcastStep(s: State, s': State, i: nat)
    requires i < |s.cpus| && Internal(s, s', i) && s.cpus[i].pc.FinishBroadcast?
    ensures |s'.cpus| == |s.cpus| && AllSteps(s'.cpus, |s.cpus|) < AllSteps(s.cpus, |s.cpus|)
  {
    BroadcastUsesSteps(s, i);
  }

  lemma BroadcastUsesSteps(s: State, i: nat)
    requires i < |s.cpus| && s.cpus[i].pc.FinishBroadcast?
    ensures AllSteps(Goto(s.(cpus := Broadcast(s.cpus)), i, FinishUnlock).cpus, |s.cpus|) < AllSteps(s.cpus, |s.cpus|)
  {
    hide AllSteps;
    var all := Broadcast(s.cpus);
    StepsBroadcast(s.cpus, |s.cpus|);
    assert all[i] == s.cpus[i];
    StepsUpdate(all, |s.cpus|, i, all[i].(pc := FinishUnlock));
  }

  /** While the section is claimed, every step of every thread uses up one of its steps, even a new
      call. */
  lemma EveryStepCounts(s: State, s': State, o: nat, i: nat)
    requires Claimed(s, o) && i < |s.cpus| && (Internal(s, s', i) || Call(s, s', i))
    ensures |s'.cpus| == |s.cpus| && AllSteps(s'.cpus, |s.cpus|) < AllSteps(s.cpus, |s.cpus|)
  {
    if Call(s, s', i) {
      CallUsesStep(s, s', o, i);
    } else if s.cpus[i].pc.ExclScan? {
      ScanStep(s, s', o, i);
    } else if s.cpus[i].pc.EndSignal? {
      SignalStep(s, s', i);
    } else if s.cpus[i].pc.FinishBroadcast? {
      BroadcastStep(s, s', i);
    } else {
      OwnStep(s, s', o, i);
      StepsUpdate(s.cpus, |s.cpus|, i, s'.cpus[i]);
    }
  }

  /** A spurious wakeup gives its thread two steps. */
  lemma SpuriousAdds(s: State, s': State, i: nat)
    requires i < |s.cpus| && Spurious(s, s', i)
    ensures |s'.cpus| == |s.cpus| && AllSteps(s'.cpus, |s.cpus|) <= AllSteps(s.cpus, |s.cpus|) + 2
  {
    StepsUpdate(s.cpus, |s.cpus|, i, s'.cpus[i]);
    assert s'.cpus == s.cpus[i := s'.cpus[i]];
  }

  /** A step inside the protocol or a new call. */
  ghost predicate Useful(s: State, s': State)
  {
    exists i: nat :: i < |s.cpus| && (Internal(s, s', i) || Call(s, s', i))
  }

  /** How many of the steps between `from` and `until` are spurious wakeups. */
  ghost function Wakeups(run: seq<State>, from: nat, until: nat): nat
    requires from <= until < |run|
    decreases until
  {
    if from == until then 0
    else Wakeups(run, from, until - 1) + (if Useful(run[until - 1], run[until]) then 0 else 1)
  }

  /** Thread `o` claims the section from `from` on, up to `until`. */
  ghost predicate ClaimsUntil(run: seq<State>, o: nat, from: nat, until: nat)
    requires until < |run|
  {
    forall t {:trigger run[t]} :: from <= t < until ==> o < |run[t].cpus| && Claims(run[t].cpus[o].pc)
  }

  lemma ClaimedAt(run: seq<State>, o: nat, t: nat)
    requires IsRun(run) && t < |run| && o < |run[t].cpus| && Claims(run[t].cpus[o].pc)
    ensures Claimed(run[t], o)
  {
    var owner := RunKeepsInv(run, t);
    assert ThreadInv(run[t], owner, o);
  }

  /** The steps taken while `o` waits, even with new calls, and those still to come are bounded by
      the steps at the beginning and the number of spurious wakeups. */
  lemma {:induction false} WaitingUsesSteps(run: seq<State>, o: nat, from: nat, until: nat)
    requires IsRun(run) && from <= until < |run| && ClaimsUntil(run, o, from, until)
    ensures |run[until].cpus| == |run[from].cpus|
    ensures (until - from) + AllSteps(run[until].cpus, |run[until].cpus|) <=
            AllSteps(run[from].cpus, |run[from].cpus|) + 3 * Wakeups(run, from, until)
    decreases until
  {
    hide AllSteps;
    hide Claimed;
    hide Next;
    hide Useful;
    hide Init;
    if from < until {
      WaitingUsesSteps(run, o, from, until - 1);
      ClaimedAt(run, o, until - 1);
      assert StepAt(run, until);
      OneStep(run[until - 1], run[until], o);
    }
  }

  lemma OneStep(s: State, s': State, o: nat)
    requires Claimed(s, o) && Next(s, s')
    ensures |s'.cpus| == |s.cpus|
    ensures AllSteps(s'.cpus, |s.cpus|) + 1 <= AllSteps(s.cpus, |s.cpus|) + (if Useful(s, s') then 0 else 3)
  {
    if Useful(s, s') {
      var i: nat :| i < |s.cpus| && (Internal(s, s', i) || Call(s, s', i));
      EveryStepCounts(s, s', o, i);
    } else {
      var i: nat :| i < |s.cpus| && Spurious(s, s', i);
      SpuriousAdds(s, s', i);
    }
  }

  /** One thread may be scanning, one may be about to broadcast, all others have few steps. */
  lemma {:induction false} FewSteps(s: State, o: nat, k: nat)
    requires Claimed(s, o) && k <= |s.cpus|
    ensures AllSteps(s.cpus[..k], |s.cpus|) <=
            17 * k + (if o < k then 3 + 14 * |s.cpus| else 0) +
            (if s.holder.Some? && s.holder.value < k then 7 + 2 * |s.cpus| else 0)
  {
    if k > 0 {
      FewSteps(s, o, k - 1);
      assert s.cpus[..k][..k - 1] == s.cpus[..k - 1];
      assert ThreadInv(s, Some(o), k - 1);
    }
  }

  /** Once `start_exclusive` has set `pending_cpus`, it waits for at most 33 steps per thread, even
      if the other threads go on making new calls, and for three more per spurious wakeup. */
  lemma EntryIsBounded(run: seq<State>, o: nat, from: nat, until: nat)
    requires IsRun(run) && from < until < |run| && ClaimsUntil(run, o, from, until)
    ensures until - from <= 33 * |run[from].cpus| + 10 + 3 * Wakeups(run, from, until)
  {
    WaitingUsesSteps(run, o, from, until);
    assert Claims(run[from].cpus[o].pc);
    ClaimedAt(run, o, from);
    var n := |run[from].cpus|;
    FewSteps(run[from], o, n);
    assert run[from].cpus[..n] == run[from].cpus;
  }

  /** And it does not get stuck: as long as it waits, some thread can go on without a new call. */
  lemma EntryIsPossible(run: seq<State>, o: nat, t: nat)
    requires IsRun(run) && t < |run| && o < |run[t].cpus| && Claims(run[t].cpus[o].pc)
    ensures exists s' :: InternalStep(run[t], s')
  {
    NoDeadlock(run, t, o);
  }
}
