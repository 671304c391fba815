/** The calls that a thread makes (`qemu/cpu-common.c`). */
module ExclusiveCalls {

  // An exclusive section may be entered again inside of it.  The laws here count calls: they say
  // what a caller can rely on, and nothing about how the protocol keeps track of the nesting.

  import opened Wrappers
  import opened Exclusive

  datatype Event = ExecStart | ExecEnd | ExclStart | ExclEnd | Other

  /** The step from `s` to `s'` is one of thread `i`, and a call of the given kind. */
  ghost predicate Happens(s: State, s': State, i: nat, event: Event)
  {
    i < |s.cpus| &&
    match event
    case ExecStart => CallsExecStart(s, s', i)
    case ExclStart => CallsStartExclusive(s, s', i)
    case ExecEnd => s.cpus[i].pc.Executing? && Internal(s, s', i)
    case ExclEnd => s.cpus[i].pc.InExclusive? && Internal(s, s', i)
    case Other =>
      || (Internal(s, s', i) && !s.cpus[i].pc.Executing? && !s.cpus[i].pc.InExclusive?)
      || Spurious(s, s', i)
  }

  ghost predicate EventAt(run: seq<State>, events: seq<(nat, Event)>, t: nat)
    requires t < |events| && t + 1 < |run|
  {
    Happens(run[t], run[t + 1], events[t].0, events[t].1)
  }

  /** A run, together with the thread and the call of every step. */
  ghost predicate IsHistory(run: seq<State>, events: seq<(nat, Event)>)
  {
    && |run| == |events| + 1 && Init(run[0])
    && forall t {:trigger EventAt(run, events, t)} :: 0 <= t < |events| ==> EventAt(run, events, t)
  }

  /** How often thread `i` has made a call of the given kind before time `t`. */
  function Calls(events: seq<(nat, Event)>, i: nat, event: Event, t: nat): nat
    requires t <= |events|
  {
    if t == 0 then 0
    else Calls(events, i, event, t - 1) + (if events[t - 1] == (i, event) then 1 else 0)
  }

  /** Every run has such a history. */
  lemma {:induction false} EveryRunHasEvents(run: seq<State>) returns (events: seq<(nat, Event)>)
    requires IsRun(run)
    ensures IsHistory(run, events)
    decreases |run|
  {
    if |run| == 1 {
      events := [];
    } else {
      var last := |run| - 1;
      var before := run[..last];
      forall t | 0 < t < |before| ensures StepAt(before, t) { assert StepAt(run, t); }
      var rest := EveryRunHasEvents(before);
      assert StepAt(run, last);
      var e := StepHasEvent(run[last - 1], run[last]);
      events := rest + [e];
      forall t | 0 <= t < |events| ensures EventAt(run, events, t) {
        if t < |rest| { assert EventAt(before, rest, t); }
      }
    }
  }

  lemma StepHasEvent(s: State, s': State) returns (e: (nat, Event))
    requires Next(s, s')
    ensures Happens(s, s', e.0, e.1)
  {
    var i: nat :| i < |s.cpus| && (Internal(s, s', i) || Call(s, s', i) || Spurious(s, s', i));
    if CallsExecStart(s, s', i) {
      e := (i, ExecStart);
    } else if CallsStartExclusive(s, s', i) {
      e := (i, ExclStart);
    } else if Internal(s, s', i) && s.cpus[i].pc.Executing? {
      e := (i, ExecEnd);
    } else if Internal(s, s', i) && s.cpus[i].pc.InExclusive? {
      e := (i, ExclEnd);
    } else {
      e := (i, Other);
    }
  }

  lemma EventIsStep(s: State, s': State, i: nat, event: Event)
    requires Happens(s, s', i, event)
    ensures Next(s, s')
  {
    assert Internal(s, s', i) || Call(s, s', i) || Spurious(s, s', i);
  }

  lemma HistoryIsRun(run: seq<State>, events: seq<(nat, Event)>)
    requires IsHistory(run, events)
    ensures IsRun(run)
  {
    forall t | 0 < t < |run| ensures StepAt(run, t) {
      assert EventAt(run, events, t - 1);
      EventIsStep(run[t - 1], run[t], events[t - 1].0, events[t - 1].1);
    }
  }

  /** The thread is inside of `start_exclusive`, which has not returned yet. */
  predicate Entering(pc: Pc)
  {
    pc.ExclLock? || pc.ExclIdleTest? || pc.ExclSleep? || pc.ExclScan? || pc.ExclWaitTest? || pc.ExclWait? ||
    pc.ExclUnlock?
  }

  /** The thread is inside of `cpu_exec_start`, which has not returned yet. */
  predicate Starting(pc: Pc)
  {
    pc.StartCheck? || pc.StartLock? || pc.StartLocked? || pc.StartIdleTest? || pc.StartSleep? || pc.StartUnlock?
  }

  /** How many exclusive sections of the thread are open. */
  function Sections(c: Cpu): nat
  {
    c.depth + (if Entering(c.pc) then 1 else 0)
  }

  /** Whether the thread is between `cpu_exec_start` and `cpu_exec_end`. */
  function Executions(c: Cpu): nat
  {
    if Starting(c.pc) || c.pc.Executing? then 1 else 0
  }

  /** Thread `i` has got on by one event, if that is one of its own. */
  ghost predicate Counted(c: Cpu, c': Cpu, event: Event)
  {
    && Sections(c') == Sections(c) + (if event == ExclStart then 1 else if event == ExclEnd then -1 else 0)
    && Executions(c') == Executions(c) + (if event == ExecStart then 1 else if event == ExecEnd then -1 else 0)
  }

  lemma OwnCall(s: State, s': State, i: nat, event: Event)
    requires Happens(s, s', i, event) && LocalInv(s.cpus[i]) && event in {ExecStart, ExclStart, ExecEnd, ExclEnd}
    ensures |s'.cpus| == |s.cpus| && Counted(s.cpus[i], s'.cpus[i], event)
  {}

  lemma OwnSpurious(s: State, s': State, i: nat)
    requires i < |s.cpus| && Spurious(s, s', i)
    ensures |s'.cpus| == |s.cpus| && Counted(s.cpus[i], s'.cpus[i], Other)
  {}

  lemma OwnSignal(s: State, s': State, i: nat)
    requires i < |s.cpus| && s.cpus[i].pc.EndSignal? && Internal(s, s', i)
    ensures |s'.cpus| == |s.cpus| && Counted(s.cpus[i], s'.cpus[i], Other)
    ensures forall j :: 0 <= j < |s.cpus| && j != i ==> Counted(s.cpus[j], s'.cpus[j], Other)
  {
    var w: Option<nat> :| Signalled(s, w) && s' == Goto(Wake(s, w), i, EndUnlock);
  }

  lemma OwnExec(s: State, s': State, i: nat)
    requires i < |s.cpus| && InExec(s.cpus[i].pc) && !s.cpus[i].pc.Executing? && Internal(s, s', i)
    ensures |s'.cpus| == |s.cpus| && Counted(s.cpus[i], s'.cpus[i], Other)
  {}

  lemma OwnElse(s: State, s': State, i: nat)
    requires i < |s.cpus| && Internal(s, s', i) && LocalInv(s.cpus[i])
    requires var pc := s.cpus[i].pc; !InExec(pc) && !pc.EndSignal? && !pc.InExclusive?
    ensures |s'.cpus| == |s.cpus| && Counted(s.cpus[i], s'.cpus[i], Other)
  {}

  lemma OwnEvent(s: State, s': State, i: nat, event: Event)
    requires Happens(s, s', i, event) && LocalInv(s.cpus[i])
    ensures |s'.cpus| == |s.cpus| && Counted(s.cpus[i], s'.cpus[i], event)
  {
    hide Counted;
    hide Internal;
    hide Spurious;
    hide LocalInv;
    if event != Other {
      OwnCall(s, s', i, event);
    } else if Spurious(s, s', i) {
      OwnSpurious(s, s', i);
    } else if s.cpus[i].pc.EndSignal? {
      OwnSignal(s, s', i);
    } else if InExec(s.cpus[i].pc) {
      OwnExec(s, s', i);
    } else {
      OwnElse(s, s', i);
    }
  }

  lemma OthersScan(s: State, s': State, i: nat, j: nat)
    requires i < |s.cpus| && j < |s.cpus| && j != i && Internal(s, s', i)
    requires s.cpus[i].pc.ExclScan? || s.cpus[i].pc.FinishBroadcast?
    ensures |s'.cpus| == |s.cpus| && Counted(s.cpus[j], s'.cpus[j], Other)
  {}

  lemma OthersStay(s: State, s': State, i: nat, event: Event, j: nat)
    requires Happens(s, s', i, event) && j < |s.cpus| && j != i
    requires var pc := s.cpus[i].pc; !pc.ExclScan? && !pc.FinishBroadcast? && !pc.EndSignal?
    ensures |s'.cpus| == |s.cpus| && s'.cpus[j] == s.cpus[j]
  {}

  lemma OthersEvent(s: State, s': State, i: nat, event: Event, j: nat)
    requires Happens(s, s', i, event) && j < |s.cpus| && j != i
    ensures |s'.cpus| == |s.cpus| && Counted(s.cpus[j], s'.cpus[j], Other)
  {
    hide Counted;
    hide Internal;
    hide CallsExecStart;
    hide CallsStartExclusive;
    if s.cpus[i].pc.EndSignal? {
      SignalOnly(s, s', i, event);
      OwnSignal(s, s', i);
    } else if s.cpus[i].pc.ExclScan? || s.cpus[i].pc.FinishBroadcast? {
      SignalOnly(s, s', i, event);
      OthersScan(s, s', i, j);
    } else {
      OthersStay(s, s', i, event, j);
      NothingCounted(s.cpus[j]);
    }
  }

  lemma NothingCounted(c: Cpu)
    ensures Counted(c, c, Other)
  {}

  lemma SignalOnly(s: State, s': State, i: nat, event: Event)
    requires Happens(s, s', i, event)
    requires s.cpus[i].pc.ExclScan? || s.cpus[i].pc.FinishBroadcast? || s.cpus[i].pc.EndSignal?
    ensures Internal(s, s', i)
  {}

  lemma {:induction false} CallsBalance(run: seq<State>, events: seq<(nat, Event)>, t: nat, i: nat)
    requires IsHistory(run, events) && t < |run| && i < |run[0].cpus|
    ensures |run[t].cpus| == |run[0].cpus|
    ensures Calls(events, i, ExclStart, t) == Calls(events, i, ExclEnd, t) + Sections(run[t].cpus[i])
    ensures Calls(events, i, ExecStart, t) == Calls(events, i, ExecEnd, t) + Executions(run[t].cpus[i])
  {
    if t > 0 {
      CallsBalance(run, events, t - 1, i);
      assert EventAt(run, events, t - 1);
      var s, e := run[t - 1], events[t - 1];
      if e.0 == i {
        HistoryIsRun(run, events);
        var owner := RunKeepsInv(run, t - 1);
        assert ThreadInv(s, owner, i);
        OwnEvent(s, run[t], i, e.1);
      } else {
        OthersEvent(s, run[t], e.0, e.1, i);
      }
    }
  }

  /** A thread that has called `start_exclusive` more often than `end_exclusive` is inside its
      exclusive section, or on its way in; no other thread is. */
  lemma NestingOnEveryRun(run: seq<State>, events: seq<(nat, Event)>, t: nat, i: nat)
    requires IsHistory(run, events) && t < |run| && i < |run[t].cpus|
    ensures Calls(events, i, ExclEnd, t) <= Calls(events, i, ExclStart, t)
    ensures Calls(events, i, ExclEnd, t) < Calls(events, i, ExclStart, t) <==>
            Entering(run[t].cpus[i].pc) || run[t].cpus[i].pc.InExclusive?
  {
    SameCpus(run, events, t);
    CallsBalance(run, events, t, i);
    HistoryIsRun(run, events);
    var owner := RunKeepsInv(run, t);
    assert ThreadInv(run[t], owner, i);
  }

  /** As long as a thread has returned from `start_exclusive` more often than it has called
      `end_exclusive`, no CPU executes guest code and no other thread is inside a section. */
  lemma NestedExclusion(run: seq<State>, events: seq<(nat, Event)>, t: nat, i: nat, j: nat)
    requires IsHistory(run, events) && t < |run| && i < |run[t].cpus| && j < |run[t].cpus|
    requires Calls(events, i, ExclEnd, t) < Calls(events, i, ExclStart, t) && !Entering(run[t].cpus[i].pc)
    ensures run[t].cpus[i].pc.InExclusive? && !run[t].cpus[j].pc.Executing?
    ensures j != i ==> !InsideExclusive(run[t].cpus[j].pc)
    ensures j != i && Calls(events, j, ExclEnd, t) < Calls(events, j, ExclStart, t) ==> Entering(run[t].cpus[j].pc)
  {
    NestingOnEveryRun(run, events, t, i);
    NestingOnEveryRun(run, events, t, j);
    HistoryIsRun(run, events);
    ExclusionOnEveryRun(run, t);
  }

  /** A thread that has called `cpu_exec_start` once more than `cpu_exec_end` executes guest code, or
      waits to do so; the calls alternate. */
  lemma ExecutionOnEveryRun(run: seq<State>, events: seq<(nat, Event)>, t: nat, i: nat)
    requires IsHistory(run, events) && t < |run| && i < |run[t].cpus|
    ensures Calls(events, i, ExecStart, t) == Calls(events, i, ExecEnd, t) +
            (if Starting(run[t].cpus[i].pc) || run[t].cpus[i].pc.Executing? then 1 else 0)
  {
    SameCpus(run, events, t);
    CallsBalance(run, events, t, i);
  }

  lemma {:induction false} SameCpus(run: seq<State>, events: seq<(nat, Event)>, t: nat)
    requires IsHistory(run, events) && t < |run|
    ensures |run[t].cpus| == |run[0].cpus|
  {
    if t > 0 {
      SameCpus(run, events, t - 1);
      assert EventAt(run, events, t - 1);
      HistoryIsRun(run, events);
      var owner := RunKeepsInv(run, t - 1);
      var i := events[t - 1].0;
      assert ThreadInv(run[t - 1], owner, i);
      OwnEvent(run[t - 1], run[t], i, events[t - 1].1);
    }
  }

  // ---------------------------------------------------------------------------
  // What the protocol costs
  // ---------------------------------------------------------------------------

  /** Nobody waits, nobody holds the lock, and nobody is on the way to it. */
  ghost predicate LockFree(s: State)
  {
    && s.holder == None && s.pending == 0
    && forall i :: 0 <= i < |s.cpus| ==>
         var pc := s.cpus[i].pc; pc.Idle? || pc.StartCheck? || pc.Executing? || pc.EndCheck?
  }

  lemma StaysLockFree(s: State, s': State, i: nat, event: Event)
    requires LockFree(s) && Happens(s, s', i, event) && event != ExclStart
    ensures LockFree(s')
  {}

  /** As long as nobody has called `start_exclusive`, no CPU takes the lock or waits for another. */
  lemma {:induction false} NoLockWithoutExclusive(run: seq<State>, events: seq<(nat, Event)>, t: nat)
    requires IsHistory(run, events) && t < |run| && forall m :: 0 <= m < t ==> events[m].1 != ExclStart
    ensures LockFree(run[t])
  {
    if t > 0 {
      NoLockWithoutExclusive(run, events, t - 1);
      assert EventAt(run, events, t - 1);
      StaysLockFree(run[t - 1], run[t], events[t - 1].0, events[t - 1].1);
    }
  }

  ghost predicate StepOf(s: State, s': State, j: nat)
  {
    j < |s.cpus| && (Internal(s, s', j) || Call(s, s', j) || Spurious(s, s', j))
  }

  lemma OnlyHolderCounts(s: State, s': State, j: nat)
    requires StepOf(s, s', j) && !Holds(s.cpus[j].pc)
    ensures s'.pending == s.pending
  {}

  /** Who is about to signal from now on has just counted down to one. */
  lemma LastCountsDown(s: State, s': State, i: nat, j: nat)
    requires StepOf(s, s', j) && i < |s.cpus| == |s'.cpus| && !s.cpus[i].pc.EndSignal? && s'.cpus[i].pc.EndSignal?
    ensures s'.pending == 1
  {
    hide Internal, Call, Spurious;
    if j == i {
      OwnCountDown(s, s', i);
    } else if s.cpus[j].pc.EndSignal? {
      SignalledStays(s, s', i, j);
    } else {
      OtherStays(s, s', i, j);
    }
  }

  lemma OwnCountDown(s: State, s': State, i: nat)
    requires StepOf(s, s', i) && |s.cpus| == |s'.cpus| && !s.cpus[i].pc.EndSignal? && s'.cpus[i].pc.EndSignal?
    ensures s'.pending == 1
  {}

  lemma SignalledStays(s: State, s': State, i: nat, j: nat)
    requires StepOf(s, s', j) && j != i < |s.cpus| == |s'.cpus| && s.cpus[j].pc.EndSignal?
    ensures s'.cpus[i].pc.EndSignal? ==> s.cpus[i].pc.EndSignal?
  {}

  lemma OtherStays(s: State, s': State, i: nat, j: nat)
    requires StepOf(s, s', j) && j != i < |s.cpus| == |s'.cpus| && !s.cpus[j].pc.EndSignal?
    ensures s'.cpus[i].pc.EndSignal? ==> s.cpus[i].pc.EndSignal?
  {}

  lemma SameNumber(s: State, s': State, j: nat)
    requires StepOf(s, s', j)
    ensures |s'.cpus| == |s.cpus|
  {}

  lemma StaysLast(s: State, s': State, owner: Option<nat>, i: nat, j: nat)
    requires Inv(s, owner) && StepOf(s, s', j) && i < |s.cpus| == |s'.cpus|
    requires s.cpus[i].pc.EndSignal? && s'.cpus[i].pc.EndSignal?
    ensures s'.pending == s.pending
  {
    hide Internal, Call, Spurious;
    assert ThreadInv(s, owner, i) && ThreadInv(s, owner, j);
    if j == i {
      SignalsOnce(s, s', i);
    } else {
      OnlyHolderCounts(s, s', j);
    }
  }

  lemma SignalsOnce(s: State, s': State, i: nat)
    requires StepOf(s, s', i) && s.cpus[i].pc.EndSignal? && |s'.cpus| == |s.cpus|
    ensures !s'.cpus[i].pc.EndSignal?
  {}

  /** Only the last CPU that has to leave signals: nobody else is left to wait for. */
  lemma {:induction false} LastOneSignals(run: seq<State>, t: nat, i: nat)
    requires IsRun(run) && t < |run| && i < |run[t].cpus| && run[t].cpus[i].pc.EndSignal?
    ensures run[t].pending == 1 && forall j :: 0 <= j < |run[t].cpus| ==> !run[t].cpus[j].hasWaiter
  {
    hide Internal, Call, Spurious;
    var owner := RunKeepsInv(run, t);
    assert ThreadInv(run[t], owner, i);
    if t > 0 {
      assert StepAt(run, t);
      var s, s' := run[t - 1], run[t];
      var before := RunKeepsInv(run, t - 1);
      var j: nat :| j < |s.cpus| && (Internal(s, s', j) || Call(s, s', j) || Spurious(s, s', j));
      SameNumber(s, s', j);
      if s.cpus[i].pc.EndSignal? {
        LastOneSignals(run, t - 1, i);
        StaysLast(s, s', before, i, j);
      } else {
        LastCountsDown(s, s', i, j);
      }
      assert ThreadInv(s', owner, owner.value);
      CountZero(s'.cpus);
    }
  }
}
