/** The coroutines of `convert_do_copy` as a step machine (`qemu/qemu-img.c`). */
module ConvertRun {

  // A step is what a coroutine does between two points at which another one may run; any
  // coroutine that can go on may be the next, which allows every order in which the event
  // loop may run them.

  import opened Wrappers
  import opened Align
  import opened Buffers
  import opened Convert

  /** A stretch of sectors that a coroutine has claimed; `finished` once its owner has
      announced the end of its write. */
  datatype Chunk = Chunk(start: nat, len: nat, status: Status, owner: nat, finished: bool)

  /** Where a coroutine is in `convert_co_do_copy`; `k` is the chunk that it works on. */
  datatype Phase =
    | Unborn                            // not created yet
    | AtLock                            // at the top of the loop
    | Claiming                          // inside the lock, asking for the block status
    | StatusFailed                      // the status could not be read; lock given back
    | Reading(k: nat)
    | Ordering(k: nat, woken: bool)     // about to test whose turn it is to write
    | Parked(k: nat)                    // has yielded until it is its turn
    | Writing(k: nat, pos: nat)         // the sectors before pos are written
    | Finishing(k: nat)
    | Leaving                           // out of the loop
    | Gone

  datatype Ret = InProgress | Success | Failed

  /** `chunks` and `passed` are not in ImgConvertState: the chunks claimed so far, oldest first,
      and how many writes have been announced. */
  datatype State = State(co: seq<Phase>, wait: seq<int>, lock: Option<nat>, running: int,
                         sectorNum: nat, wrOffs: nat, ret: Ret, target: seq<Sector>,
                         chunks: seq<Chunk>, passed: nat)

  /** How `convert_co_write` deals with a piece of a chunk. */
  datatype How = WriteData | WriteZeroes | Leave

  datatype Step =
    | Enter(i: nat)
    | Lock(i: nat)
    | Claim(i: nat, n: nat, status: Status)
    | StatusError(i: nat)
    | ReportStatus(i: nat)
    | Read(i: nat, ok: bool)
    | Order(i: nat)
    | Write(i: nat, n: nat, how: How)
    | WriteError(i: nat, n: nat, garbage: seq<Sector>)
    | Finish(i: nat)
    | Exit(i: nat)

  datatype Setup = Setup(job: Job, inOrder: bool)

  ghost function Total(u: Setup): nat
  {
    |Source(u.job)|
  }

  function End(c: Chunk): nat
  {
    c.start + c.len
  }

  predicate HasChunk(p: Phase)
  {
    p.Reading? || p.Ordering? || p.Parked? || p.Writing? || p.Finishing?
  }

  /** The coroutine is in s->co and counted in s->running_coroutines. */
  predicate Alive(p: Phase)
  {
    !p.Unborn? && !p.Gone?
  }

  // ---------------------------------------------------------------------------
  // Steps
  // ---------------------------------------------------------------------------

  ghost predicate Init(u: Setup, s: State)
  {
    && GoodJob(u.job) && |s.co| >= 1 && |s.wait| == |s.co|
    && (forall i :: 0 <= i < |s.co| ==> s.co[i] == Unborn)
    && s.lock == None && s.running == 0 && s.sectorNum == 0 && s.wrOffs == 0 && s.ret == InProgress
    && s.target == u.job.before && s.chunks == [] && s.passed == 0
  }

  function Go(s: State, i: nat, p: Phase): State
    requires i < |s.co|
  {
    s.(co := s.co[i := p])
  }

  /** The first coroutine that waits for `offset`. */
  function Waiter(s: State, offset: nat, from: nat): Option<nat>
    requires from <= |s.co| == |s.wait|
    decreases |s.co| - from
  {
    if from == |s.co| then None
    else if Alive(s.co[from]) && s.wait[from] == offset then Some(from)
    else Waiter(s, offset, from + 1)
  }

  /** Step `t` is a step of the phase its coroutine is in. */
  ghost predicate Enabled(u: Setup, s: State, t: Step)
  {
    && t.i < |s.co| == |s.wait| && (HasChunk(s.co[t.i]) ==> s.co[t.i].k < |s.chunks|)
    && var p := s.co[t.i];
       match t
       case Enter(i) => p == Unborn && forall j :: 0 <= j < i ==> s.co[j] != Unborn
       case Lock(_) => p == AtLock && s.lock == None
       case Claim(_, n, status) =>
         p == Claiming && s.sectorNum + n <= Total(u) == |u.job.before| && CanClaim(u.job, s.sectorNum, n, status)
       case StatusError(_) => p == Claiming
       case ReportStatus(_) => p == StatusFailed
       case Read(_, ok) => p.Reading? && (s.chunks[p.k].status != Data ==> ok)
       case Order(_) => p.Ordering?
       case Write(_, n, how) =>
         && p.Writing? && 1 <= n && p.pos + n <= End(s.chunks[p.k]) <= Total(u) == |s.target|
         && CanDo(u.job, s.chunks[p.k].status, p.pos, n, how)
       case WriteError(_, n, garbage) =>
         && p.Writing? && 1 <= n == |garbage| && p.pos + n <= End(s.chunks[p.k]) <= |s.target|
         && s.chunks[p.k].status != Backing
       case Finish(_) => p.Finishing?
       case Exit(_) => p == Leaving
  }

  /** At least one sector, of which the status holds, and no more than fit into the buffer if
      they are going to be written from there. */
  ghost predicate CanClaim(j: Job, sectorNum: nat, n: nat, status: Status)
    requires sectorNum + n <= |Source(j)| == |j.before|
  {
    1 <= n && StatusHolds(j, status, sectorNum, n) && (WriteAs(j, status) == Data ==> n <= j.bufSectors)
  }

  /** As what a chunk is written: zeroes are data if the target is to be fully allocated. */
  function WriteAs(j: Job, status: Status): Status
  {
    if status == Zero && j.minSparse == 0 then Data else status
  }

  /** The cases of `convert_co_write`: data is written, also for a chunk of zeroes if the target
      is to be fully allocated, or zeroes for sectors that are zero; nothing is written to a
      target that starts out zeroed or shows its backing file. */
  ghost predicate CanDo(j: Job, status: Status, pos: nat, n: nat, how: How)
    requires pos + n <= |Source(j)|
  {
    match how
    case WriteData => status == Data || (status == Zero && j.minSparse == 0)
    case WriteZeroes => status != Backing && ZeroIn(Source(j), pos, pos + n) && !j.zeroInit
    case Leave => status == Backing || (ZeroIn(Source(j), pos, pos + n) && j.zeroInit)
  }

  /** The target after a piece has been dealt with. */
  ghost function Dealt(j: Job, target: seq<Sector>, pos: nat, n: nat, how: How): seq<Sector>
    requires pos + n <= |target| == |Source(j)|
  {
    match how
    case WriteData => Overwrite(target, pos, Source(j)[pos..pos + n])
    case WriteZeroes => Overwrite(target, pos, Zeroes(n))
    case Leave => target
  }

  ghost function After(u: Setup, s: State, t: Step): State
    requires Enabled(u, s, t)
  {
    var p, i := s.co[t.i], t.i;
    match t
    case Enter(_) => Go(s, i, AtLock).(wait := s.wait[i := -1], running := s.running + 1)
    case Lock(_) =>
      if s.ret != InProgress || s.sectorNum >= Total(u) then Go(s, i, Leaving)
      else Go(s, i, Claiming).(lock := Some(i))
    case Claim(_, n, status) =>
      Go(s, i, Reading(|s.chunks|)).(lock := None, sectorNum := s.sectorNum + n,
                                     chunks := s.chunks + [Chunk(s.sectorNum, n, status, i, false)])
    case StatusError(_) => Go(s, i, StatusFailed).(lock := None)
    case ReportStatus(_) => Go(s, i, Leaving).(ret := Failed)
    case Read(_, ok) =>
      var s1 := Go(s, i, Ordering(p.k, false));
      if ok then s1 else s1.(ret := Failed)
    case Order(_) =>
      if u.inOrder && s.wrOffs != s.chunks[p.k].start && s.ret == InProgress
      then Go(s, i, Parked(p.k)).(wait := s.wait[i := s.chunks[p.k].start])
      else Go(s, i, if s.ret == InProgress then Writing(p.k, s.chunks[p.k].start) else Finishing(p.k))
             .(wait := s.wait[i := -1])
    case Write(_, n, how) =>
      Go(s, i, if p.pos + n == End(s.chunks[p.k]) then Finishing(p.k) else Writing(p.k, p.pos + n))
        .(target := Dealt(u.job, s.target, p.pos, n, how))
    case WriteError(_, n, garbage) =>
      Go(s, i, Finishing(p.k)).(ret := Failed, target := Overwrite(s.target, p.pos, garbage))
    case Finish(_) =>
      var s1 := Go(s, i, AtLock).(chunks := s.chunks[p.k := s.chunks[p.k].(finished := true)], passed := s.passed + 1);
      if u.inOrder then Wake(s1.(wrOffs := End(s.chunks[p.k]))) else s1
    case Exit(_) =>
      var s1 := Go(s, i, Gone).(running := s.running - 1);
      if s1.running == 0 && s.ret == InProgress then s1.(ret := Success) else s1
  }

  /** Enter the coroutine that waits for `wrOffs`, if there is one. */
  function Wake(s: State): State
    requires |s.co| == |s.wait|
  {
    match Waiter(s, s.wrOffs, 0)
    case None => s
    case Some(w) => if w < |s.co| && s.co[w].Parked? then Go(s, w, Ordering(s.co[w].k, true)) else s
  }

  // ---------------------------------------------------------------------------
  // The invariant
  // ---------------------------------------------------------------------------

  /** The chunks tile the sectors before `sectorNum`. */
  ghost predicate Tiles(u: Setup, s: State)
  {
    && s.sectorNum == (if s.chunks == [] then 0 else End(s.chunks[|s.chunks| - 1])) <= Total(u)
    && forall k {:trigger TileAt(u, s, k)} :: 0 <= k < |s.chunks| ==> TileAt(u, s, k)
  }

  ghost predicate TileAt(u: Setup, s: State, k: nat)
    requires k < |s.chunks|
  {
    && s.chunks[k].len >= 1
    && s.chunks[k].start == (if k == 0 then 0 else End(s.chunks[k - 1]))
    && End(s.chunks[k]) <= s.sectorNum
    && End(s.chunks[k]) <= Total(u) == |u.job.before|
    && StatusHolds(u.job, s.chunks[k].status, s.chunks[k].start, s.chunks[k].len)
  }

  /** Coroutine `i` and the shared variables fit together. */
  ghost predicate CoOk(u: Setup, s: State, i: nat)
    requires i < |s.co| == |s.wait|
  {
    var p := s.co[i];
    && (HasChunk(p) ==> p.k < |s.chunks| && s.chunks[p.k].owner == i && !s.chunks[p.k].finished)
    && (p.Writing? ==> s.chunks[p.k].start <= p.pos < End(s.chunks[p.k]))
    && (p.Writing? && u.inOrder && s.ret == InProgress ==> p.k == s.passed)
    && (p.Finishing? && u.inOrder && s.ret == InProgress ==> p.k == s.passed)
    && (p.Parked? ==> u.inOrder && p.k >= 1 && !s.chunks[p.k - 1].finished && s.wait[i] == s.chunks[p.k].start)
    && (Alive(p) && !p.Parked? && !(p.Ordering? && p.woken) ==> s.wait[i] == -1)
    && (p.Ordering? && p.woken ==>
          && u.inOrder && s.wait[i] == s.chunks[p.k].start && p.k >= 1 && s.chunks[p.k - 1].finished
          && (s.ret != InProgress || s.wrOffs == s.chunks[p.k].start))
    && (p == Claiming <==> s.lock == Some(i))
    && (p == Leaving || p == Gone ==> s.ret != InProgress || s.sectorNum >= Total(u))
  }

  /** An unfinished chunk has an owner that works on it. */
  ghost predicate ChunkOk(s: State, k: nat)
    requires k < |s.chunks|
  {
    var c := s.chunks[k];
    !c.finished ==> c.owner < |s.co| && HasChunk(s.co[c.owner]) && s.co[c.owner].k == k
  }

  /** With ordered writes the chunks are finished one after the other. */
  ghost predicate InTurn(u: Setup, s: State)
  {
    u.inOrder && s.ret == InProgress ==>
      && s.passed <= |s.chunks|
      && s.wrOffs == (if s.passed == 0 then 0 else End(s.chunks[s.passed - 1]))
      && forall k {:trigger s.chunks[k]} :: 0 <= k < |s.chunks| ==> (s.chunks[k].finished <==> k < s.passed)
  }

  /** The end of the part of chunk `k` that has been dealt with. */
  ghost function Frontier(s: State, k: nat): nat
    requires k < |s.chunks|
  {
    var c := s.chunks[k];
    if c.finished then End(c)
    else if c.owner < |s.co| && s.co[c.owner].Writing? then s.co[c.owner].pos
    else if c.owner < |s.co| && s.co[c.owner].Finishing? then End(c)
    else c.start
  }

  /** What has been dealt with has been copied, unless something failed; the rest of the
      target is untouched. */
  ghost predicate ChunkContent(u: Setup, s: State, k: nat)
    requires k < |s.chunks| && |s.target| == |u.job.before| == Total(u)
  {
    forall x: nat :: s.chunks[k].start <= x < End(s.chunks[k]) && x < |s.target| ==>
      && (x < Frontier(s, k) && s.ret == InProgress ==> s.target[x] == Source(u.job)[x])
      && (x >= Frontier(s, k) ==> s.target[x] == u.job.before[x])
  }

  ghost predicate Content(u: Setup, s: State)
    requires Tiles(u, s)
  {
    && |s.target| == |u.job.before| == Total(u)
    && (forall x :: s.sectorNum <= x < Total(u) ==> s.target[x] == u.job.before[x])
    && (forall k {:trigger ChunkContent(u, s, k)} :: 0 <= k < |s.chunks| ==> ChunkContent(u, s, k))
  }

  ghost function Living(s: State): set<nat>
  {
    set i | 0 <= i < |s.co| && Alive(s.co[i])
  }

  ghost predicate Shape(u: Setup, s: State)
  {
    && GoodJob(u.job) && |s.co| == |s.wait| && s.running == |Living(s)|
    && (s.lock.Some? ==> s.lock.value < |s.co|)
    && (s.ret == InProgress && Living(s) == {} ==> forall i :: 0 <= i < |s.co| ==> s.co[i] == Unborn)
    && (s.ret == Success ==> s.target == Source(u.job))
    && (s.ret == Success ==> forall i :: 0 <= i < |s.co| ==>
          !HasChunk(s.co[i]) && s.co[i] != Claiming && s.co[i] != StatusFailed)
  }

  ghost predicate AllCoOk(u: Setup, s: State)
  {
    |s.co| == |s.wait| && forall i {:trigger CoOk(u, s, i)} :: 0 <= i < |s.co| ==> CoOk(u, s, i)
  }

  ghost predicate AllChunkOk(s: State)
  {
    forall k {:trigger ChunkOk(s, k)} :: 0 <= k < |s.chunks| ==> ChunkOk(s, k)
  }

  ghost predicate Inv(u: Setup, s: State)
  {
    && Shape(u, s) && Tiles(u, s) && InTurn(u, s) && Content(u, s)
    && AllCoOk(u, s) && AllChunkOk(s)
  }

  // ---------------------------------------------------------------------------
  // Chunks
  // ---------------------------------------------------------------------------

  lemma {:induction false} TileOrder(u: Setup, s: State, j: nat, k: nat)
    requires Tiles(u, s) && j < k < |s.chunks|
    ensures End(s.chunks[j]) <= s.chunks[k].start
  {
    assert TileAt(u, s, k) && TileAt(u, s, k - 1);
    if j < k - 1 { TileOrder(u, s, j, k - 1); }
  }

  lemma SameStart(u: Setup, s: State, j: nat, k: nat)
    requires Tiles(u, s) && j < |s.chunks| && k < |s.chunks| && s.chunks[j].start == s.chunks[k].start
    ensures j == k
  {
    assert TileAt(u, s, j) && TileAt(u, s, k);
    if j < k { TileOrder(u, s, j, k); }
    if k < j { TileOrder(u, s, k, j); }
  }

  /** Every claimed sector belongs to a chunk. */
  lemma {:induction false} ChunkOf(u: Setup, s: State, x: nat, n: nat) returns (k: nat)
    requires Tiles(u, s) && 0 < n <= |s.chunks| && x < End(s.chunks[n - 1])
    ensures k < n && s.chunks[k].start <= x < End(s.chunks[k])
    decreases n
  {
    assert TileAt(u, s, n - 1);
    if s.chunks[n - 1].start <= x {
      k := n - 1;
    } else {
      k := ChunkOf(u, s, x, n - 1);
    }
  }

  lemma {:induction false} WaiterFound(s: State, offset: nat, from: nat)
    requires from <= |s.co| == |s.wait|
    ensures var w := Waiter(s, offset, from);
            && (w.Some? ==> from <= w.value < |s.co| && Alive(s.co[w.value]) && s.wait[w.value] == offset)
            && (w.None? ==> forall j :: from <= j < |s.co| && Alive(s.co[j]) ==> s.wait[j] != offset)
    decreases |s.co| - from
  {
    if from < |s.co| && !(Alive(s.co[from]) && s.wait[from] == offset) {
      WaiterFound(s, offset, from + 1);
    }
  }

  // ---------------------------------------------------------------------------
  // Every step keeps the invariant
  // ---------------------------------------------------------------------------

  /** A step changes the phase of its coroutine and may turn one parked coroutine loose. */
  lemma OtherPhases(u: Setup, s: State, t: Step, j: nat)
    requires Enabled(u, s, t) && j < |s.co| && j != t.i
    ensures var s' := After(u, s, t);
            && |s'.co| == |s.co| && |s'.wait| == |s.wait| && s'.wait[j] == s.wait[j]
            && (s'.co[j] == s.co[j] ||
                (t.Finish? && u.inOrder && s.co[j].Parked? && s'.co[j] == Ordering(s.co[j].k, true)))
  {}

  lemma StepTiles(u: Setup, s: State, t: Step)
    requires Enabled(u, s, t) && Tiles(u, s)
    ensures Tiles(u, After(u, s, t))
  {
    hide After;
    hide StatusHolds;
    OwnPhase(u, s, t);
    SectorNumAfter(u, s, t);
    var s' := After(u, s, t);
    forall k | 0 <= k < |s'.chunks| ensures TileAt(u, s', k) {
      if k < |s.chunks| { assert TileAt(u, s, k); }
      if 0 < k <= |s.chunks| { assert TileAt(u, s, k - 1); }
    }
  }

  lemma StepInTurn(u: Setup, s: State, t: Step)
    requires Enabled(u, s, t) && InTurn(u, s) && AllCoOk(u, s)
    ensures InTurn(u, After(u, s, t))
  {
    assert CoOk(u, s, t.i);
  }

  /** The coroutine that a Finish step enters is the one that waits for the next chunk. */
  lemma WokenIsNext(u: Setup, s: State, i: nat, w: nat)
    requires Tiles(u, s) && AllCoOk(u, s) && AllChunkOk(s)
    requires i < |s.co| && s.co[i].Finishing? && s.co[i].k < |s.chunks| && w < |s.co| && w != i && Alive(s.co[w])
    requires s.wait[w] == End(s.chunks[s.co[i].k])
    ensures HasChunk(s.co[w]) && s.co[w].k == s.co[i].k + 1
  {
    assert CoOk(u, s, i) && CoOk(u, s, w);
    var k, kw := s.co[i].k, s.co[w].k;
    assert TileAt(u, s, k) && TileAt(u, s, kw);
    if kw < k {
      TileOrder(u, s, kw, k);
    } else if k < kw {
      assert TileAt(u, s, k + 1);
      SameStart(u, s, k + 1, kw);
    }
  }

  lemma StepChunkOk(u: Setup, s: State, t: Step)
    requires Enabled(u, s, t) && AllCoOk(u, s) && AllChunkOk(s)
    ensures AllChunkOk(After(u, s, t))
  {
    hide After;
    var s' := After(u, s, t);
    OwnPhase(u, s, t);
    assert CoOk(u, s, t.i);
    forall k | 0 <= k < |s'.chunks| ensures ChunkOk(s', k) {
      if k < |s.chunks| && !s.chunks[k].finished {
        assert ChunkOk(s, k);
        if s.chunks[k].owner != t.i { OtherPhases(u, s, t, s.chunks[k].owner); }
      }
    }
  }

  /** What a step does to the phase of its own coroutine and to the chunks. */
  lemma OwnPhase(u: Setup, s: State, t: Step)
    requires Enabled(u, s, t)
    ensures var p, p' := s.co[t.i], After(u, s, t).co[t.i]; var cs' := After(u, s, t).chunks;
            && |After(u, s, t).co| == |s.co|
            && (!t.Claim? && !t.Finish? ==>
                  cs' == s.chunks && HasChunk(p') == HasChunk(p) && (HasChunk(p) ==> p'.k == p.k))
            && (t.Claim? ==> !HasChunk(p) && cs' == s.chunks + [Chunk(s.sectorNum, t.n, t.status, t.i, false)]
                             && p' == Reading(|s.chunks|))
            && (t.Finish? ==> p.Finishing? && p' == AtLock && cs' == s.chunks[p.k := s.chunks[p.k].(finished := true)])
  {
    if t.Finish? && u.inOrder {
      var k := s.co[t.i].k;
      var s1 := Go(s, t.i, AtLock).(chunks := s.chunks[k := s.chunks[k].(finished := true)], passed := s.passed + 1)
                  .(wrOffs := End(s.chunks[k]));
      assert s1.co[t.i] == AtLock;
    }
  }

  ghost predicate Core(u: Setup, s: State)
  {
    Tiles(u, s) && InTurn(u, s) && AllCoOk(u, s) && AllChunkOk(s)
  }

  lemma OwnCoOk(u: Setup, s: State, t: Step)
    requires Enabled(u, s, t) && Core(u, s)
    ensures CoOk(u, After(u, s, t), t.i)
  {
    var p, s' := s.co[t.i], After(u, s, t);
    assert CoOk(u, s, t.i);
    OwnPhase(u, s, t);
    match t {
      case Order(_) =>
        assert TileAt(u, s, p.k);
        if u.inOrder && s.ret == InProgress { Turn(u, s, p.k); }
      case _ =>
    }
  }

  /** In order and without a failure, it is the turn of the chunk that starts at `wrOffs`, and
      the predecessor of any later chunk is unfinished. */
  lemma Turn(u: Setup, s: State, k: nat)
    requires Tiles(u, s) && InTurn(u, s) && u.inOrder && s.ret == InProgress && k < |s.chunks| && !s.chunks[k].finished
    ensures s.chunks[k].start == s.wrOffs <==> k == s.passed
    ensures k != s.passed ==> k >= 1 && !s.chunks[k - 1].finished
  {
    assert TileAt(u, s, k) && TileAt(u, s, s.passed);
    if k != s.passed {
      TileOrder(u, s, s.passed, k);
    }
  }

  lemma OtherCoOk(u: Setup, s: State, t: Step, j: nat)
    requires Enabled(u, s, t) && Core(u, s) && j < |s.co| && j != t.i && !t.Finish?
    ensures CoOk(u, After(u, s, t), j)
  {
    assert CoOk(u, s, t.i) && CoOk(u, s, j);
    OtherPhases(u, s, t, j);
  }

  /** The state in which a Finish step looks for a coroutine to enter. */
  ghost function Announced(u: Setup, s: State, i: nat): State
    requires i < |s.co| && s.co[i].Finishing? && s.co[i].k < |s.chunks|
  {
    var k := s.co[i].k;
    Go(s, i, AtLock).(chunks := s.chunks[k := s.chunks[k].(finished := true)], passed := s.passed + 1,
                      wrOffs := if u.inOrder then End(s.chunks[k]) else s.wrOffs)
  }

  /** Only a parked coroutine is ever entered, and if the owner of the next chunk is parked
      then it is the one. */
  lemma EntersNextOnly(u: Setup, s: State, i: nat)
    requires Core(u, s) && i < |s.co| && s.co[i].Finishing? && u.inOrder && s.co[i].k < |s.chunks|
    ensures var w := Waiter(Announced(u, s, i), End(s.chunks[s.co[i].k]), 0);
            && (w.Some? ==>
                  w.value < |s.co| && s.co[w.value].Parked? && s.co[w.value].k == s.co[i].k + 1 && w.value != i)
            && (forall j :: 0 <= j < |s.co| && s.co[j].Parked? && s.co[j].k == s.co[i].k + 1 ==> w == Some(j))
  {
    var k, s1 := s.co[i].k, Announced(u, s, i);
    var w := Waiter(s1, End(s.chunks[k]), 0);
    assert CoOk(u, s, i);
    WaiterFound(s1, End(s.chunks[k]), 0);
    if w.Some? {
      assert CoOk(u, s, w.value);
      assert w.value != i;
      WokenIsNext(u, s, i, w.value);
      assert !s.chunks[k].finished;
    }
    forall j | 0 <= j < |s.co| && s.co[j].Parked? && s.co[j].k == k + 1 ensures w == Some(j) {
      assert CoOk(u, s, j) && TileAt(u, s, k + 1);
      assert s1.wait[j] == End(s.chunks[k]) && Alive(s1.co[j]);
    }
  }

  lemma FinishIs(u: Setup, s: State, t: Step)
    requires Enabled(u, s, t) && t.Finish?
    ensures After(u, s, t) == if u.inOrder then Wake(Announced(u, s, t.i)) else Announced(u, s, t.i)
  {}

  lemma AnnouncedCoOk(u: Setup, s: State, i: nat, j: nat)
    requires Core(u, s) && i < |s.co| && s.co[i].Finishing? && s.co[i].k < |s.chunks| && j < |s.co| && j != i
    requires !(s.co[j].Parked? && s.co[j].k == s.co[i].k + 1)
    ensures CoOk(u, Announced(u, s, i), j)
  {
    assert CoOk(u, s, i) && CoOk(u, s, j);
    if HasChunk(s.co[j]) {
      DifferentChunk(u, s, i, j);
      if u.inOrder && s.ret == InProgress {
        Turn(u, s, s.co[i].k);
        Turn(u, s, s.co[j].k);
      }
    }
  }

  lemma WokenCoOk(u: Setup, s: State, i: nat, j: nat)
    requires Core(u, s) && i < |s.co| && s.co[i].Finishing? && s.co[i].k < |s.chunks| && j < |s.co| && j != i
    requires u.inOrder && s.co[j].Parked? && s.co[j].k == s.co[i].k + 1
    ensures CoOk(u, Go(Announced(u, s, i), j, Ordering(s.co[j].k, true)), j)
  {
    assert CoOk(u, s, i) && CoOk(u, s, j) && TileAt(u, s, s.co[j].k);
  }

  lemma FinishCoOk(u: Setup, s: State, t: Step, j: nat)
    requires Enabled(u, s, t) && Core(u, s) && j < |s.co| && j != t.i && t.Finish?
    ensures CoOk(u, After(u, s, t), j)
  {
    hide After;
    hide Core;
    FinishIs(u, s, t);
    var s1 := Announced(u, s, t.i);
    if s.co[j].Parked? && s.co[j].k == s.co[t.i].k + 1 {
      assert u.inOrder by { ParkedInOrder(u, s, j); }
      EntersNextOnly(u, s, t.i);
      WokenCoOk(u, s, t.i, j);
    } else {
      AnnouncedCoOk(u, s, t.i, j);
      if u.inOrder { EntersNextOnly(u, s, t.i); }
    }
  }

  lemma ParkedInOrder(u: Setup, s: State, j: nat)
    requires Core(u, s) && j < |s.co| && s.co[j].Parked?
    ensures u.inOrder
  {
    assert CoOk(u, s, j);
  }

  lemma DifferentChunk(u: Setup, s: State, i: nat, j: nat)
    requires Core(u, s) && i < |s.co| && j < |s.co| && i != j && HasChunk(s.co[i]) && HasChunk(s.co[j])
    ensures s.co[i].k != s.co[j].k
  {
    assert CoOk(u, s, i) && CoOk(u, s, j);
  }

  lemma StepCoOk(u: Setup, s: State, t: Step)
    requires Enabled(u, s, t) && Core(u, s)
    ensures AllCoOk(u, After(u, s, t))
  {
    hide After;
    hide CoOk;
    hide Core;
    OwnPhase(u, s, t);
    OwnCoOk(u, s, t);
    SameLength(u, s, t);
    forall j | 0 <= j < |s.co| ensures CoOk(u, After(u, s, t), j) {
      if j != t.i {
        if t.Finish? { FinishCoOk(u, s, t, j); } else { OtherCoOk(u, s, t, j); }
      }
    }
  }

  lemma SameLength(u: Setup, s: State, t: Step)
    requires Enabled(u, s, t)
    ensures |After(u, s, t).co| == |s.co| == |After(u, s, t).wait|
  {}

  // ---------------------------------------------------------------------------
  // Contents
  // ---------------------------------------------------------------------------

  /** A piece that has been dealt with holds what the source holds, whichever way it was done. */
  lemma DealtIsSource(j: Job, c: Chunk, target: seq<Sector>, pos: nat, n: nat, how: How)
    requires GoodJob(j) && c.start <= pos && pos + n <= End(c) <= |Source(j)| == |target|
    requires StatusHolds(j, c.status, c.start, c.len) && CanDo(j, c.status, pos, n, how)
    requires forall x :: pos <= x < pos + n ==> target[x] == j.before[x]
    ensures OnlyWithin(target, Dealt(j, target, pos, n, how), pos, pos + n)
    ensures forall x :: pos <= x < pos + n ==> Dealt(j, target, pos, n, how)[x] == Source(j)[x]
  {
    hide Concat;
    forall x | pos <= x < pos + n ensures Dealt(j, target, pos, n, how)[x] == Source(j)[x] {
      assert Source(j)[pos..pos + n][x - pos] == Source(j)[x];
    }
  }

  lemma PieceCopied(u: Setup, s: State, t: Step)
    requires Enabled(u, s, t) && t.Write? && Core(u, s) && GoodJob(u.job) && Content(u, s)
    ensures var pos, s' := s.co[t.i].pos, After(u, s, t);
            && OnlyWithin(s.target, s'.target, pos, pos + t.n)
            && forall x: nat :: pos <= x < pos + t.n ==> s'.target[x] == Source(u.job)[x]
  {
    hide Dealt;
    hide CanDo;
    var p := s.co[t.i];
    assert CoOk(u, s, t.i) && TileAt(u, s, p.k) && ChunkContent(u, s, p.k);
    assert Frontier(s, p.k) == p.pos;
    DealtIsSource(u.job, s.chunks[p.k], s.target, p.pos, t.n, t.how);
  }

  /** Other steps leave the target alone, but for a failed write. */
  lemma TargetKept(u: Setup, s: State, t: Step)
    requires Enabled(u, s, t)
    ensures !t.Write? && !t.WriteError? ==> After(u, s, t).target == s.target
    ensures t.WriteError? ==> OnlyWithin(s.target, After(u, s, t).target, s.co[t.i].pos, s.co[t.i].pos + t.n)
    ensures After(u, s, t).ret == InProgress ==> s.ret == InProgress && !t.WriteError?
  {}

  /** The part of a chunk in which the target may change in this step. */
  ghost predicate WritesIn(u: Setup, s: State, s': State, t: Step)
    requires t.i < |s.co|
  {
    if t.Write? || t.WriteError? then
      && s.co[t.i].Writing? && s.co[t.i].k < |s.chunks|
      && OnlyWithin(s.target, s'.target, s.chunks[s.co[t.i].k].start, End(s.chunks[s.co[t.i].k]))
    else s'.target == s.target
  }

  lemma StepWritesIn(u: Setup, s: State, t: Step)
    requires Enabled(u, s, t) && Core(u, s) && GoodJob(u.job) && Content(u, s)
    ensures WritesIn(u, s, After(u, s, t), t)
  {
    hide After;
    assert CoOk(u, s, t.i);
    TargetKept(u, s, t);
    if t.Write? { PieceCopied(u, s, t); }
  }

  lemma OtherFrontier(u: Setup, s: State, t: Step, k: nat)
    requires Enabled(u, s, t) && Core(u, s) && k < |s.chunks| && !(HasChunk(s.co[t.i]) && s.co[t.i].k == k)
    ensures var s' := After(u, s, t);
            k < |s'.chunks| && s'.chunks[k] == s.chunks[k] && Frontier(s', k) == Frontier(s, k)
  {
    hide After;
    assert ChunkOk(s, k) && CoOk(u, s, t.i);
    OwnPhase(u, s, t);
    if !s.chunks[k].finished { OtherPhases(u, s, t, s.chunks[k].owner); }
  }

  lemma OtherContent(u: Setup, s: State, t: Step, k: nat)
    requires Enabled(u, s, t) && Core(u, s) && GoodJob(u.job) && Content(u, s)
    requires k < |s.chunks| && !(HasChunk(s.co[t.i]) && s.co[t.i].k == k)
    ensures var s' := After(u, s, t); k < |s'.chunks| && |s'.target| == |s.target| && ChunkContent(u, s', k)
  {
    hide After;
    hide Frontier;
    StepWritesIn(u, s, t);
    OtherFrontier(u, s, t, k);
    TargetKept(u, s, t);
    assert ChunkContent(u, s, k);
    if t.Write? || t.WriteError? {
      var k' := s.co[t.i].k;
      if k' < k { TileOrder(u, s, k', k); } else { TileOrder(u, s, k, k'); }
    }
  }

  /** How far the chunk of the stepping coroutine has got. */
  lemma OwnFrontier(u: Setup, s: State, t: Step)
    requires Enabled(u, s, t) && Core(u, s) && HasChunk(s.co[t.i])
    ensures var k, s' := s.co[t.i].k, After(u, s, t); var c := s.chunks[k];
            && k < |s'.chunks| && s'.chunks[k] == c.(finished := t.Finish?)
            && Frontier(s', k) == (if t.Write? then s.co[t.i].pos + t.n
                                   else if t.WriteError? || (t.Order? && s.ret != InProgress) then End(c)
                                   else Frontier(s, k))
            && (t.Write? || t.WriteError? ==> Frontier(s, k) == s.co[t.i].pos)
  {
    hide After;
    assert CoOk(u, s, t.i);
    OwnPhase(u, s, t);
    if !t.Finish? { OwnNext(u, s, t); }
  }

  lemma OwnNext(u: Setup, s: State, t: Step)
    requires Enabled(u, s, t) && HasChunk(s.co[t.i]) && !t.Finish?
    ensures var p, p', c := s.co[t.i], After(u, s, t).co[t.i], s.chunks[s.co[t.i].k];
            match t
            case Read(_, _) => p.Reading? && p' == Ordering(p.k, false)
            case Order(_) =>
              p.Ordering? &&
              (p' == Parked(p.k) || p' == if s.ret == InProgress then Writing(p.k, c.start) else Finishing(p.k))
              && (p'.Parked? ==> s.ret == InProgress)
            case Write(_, n, _) =>
              p.Writing? && p' == if p.pos + n == End(c) then Finishing(p.k) else Writing(p.k, p.pos + n)
            case WriteError(_, _, _) => p.Writing? && p' == Finishing(p.k)
            case _ => false
  {}

  lemma OwnContent(u: Setup, s: State, t: Step)
    requires Enabled(u, s, t) && Core(u, s) && GoodJob(u.job) && Content(u, s) && HasChunk(s.co[t.i])
    ensures var k, s' := s.co[t.i].k, After(u, s, t);
            k < |s'.chunks| && |s'.target| == |s.target| && ChunkContent(u, s', k)
  {
    hide After;
    hide Frontier;
    var k := s.co[t.i].k;
    assert CoOk(u, s, t.i) && ChunkContent(u, s, k);
    OwnFrontier(u, s, t);
    TargetKept(u, s, t);
    if t.Write? { PieceCopied(u, s, t); }
  }

  lemma StepContent(u: Setup, s: State, t: Step)
    requires Enabled(u, s, t) && Core(u, s) && GoodJob(u.job) && Content(u, s)
    ensures Tiles(u, After(u, s, t)) && Content(u, After(u, s, t))
  {
    hide After;
    hide CoOk;
    hide Frontier;
    var s' := After(u, s, t);
    StepTiles(u, s, t);
    StepWritesIn(u, s, t);
    OwnPhase(u, s, t);
    SectorNumAfter(u, s, t);
    if t.Write? || t.WriteError? { assert TileAt(u, s, s.co[t.i].k); }
    forall k | 0 <= k < |s'.chunks| ensures ChunkContent(u, s', k) {
      if k == |s.chunks| {
        NewFrontier(u, s, t);
      } else if HasChunk(s.co[t.i]) && s.co[t.i].k == k {
        OwnContent(u, s, t);
      } else {
        OtherContent(u, s, t, k);
      }
    }
  }

  lemma SectorNumAfter(u: Setup, s: State, t: Step)
    requires Enabled(u, s, t)
    ensures After(u, s, t).sectorNum == if t.Claim? then s.sectorNum + t.n else s.sectorNum
  {}

  lemma NewFrontier(u: Setup, s: State, t: Step)
    requires Enabled(u, s, t) && t.Claim?
    ensures Frontier(After(u, s, t), |s.chunks|) == s.sectorNum
  {}

  // ---------------------------------------------------------------------------
  // Success
  // ---------------------------------------------------------------------------

  /** When nobody works on a chunk any more and nothing failed, everything has been copied. */
  lemma AllCopied(u: Setup, s: State)
    requires Core(u, s) && Content(u, s) && s.ret == InProgress && s.sectorNum >= Total(u)
    requires forall i :: 0 <= i < |s.co| ==> !HasChunk(s.co[i])
    ensures s.target == Source(u.job)
  {
    forall x | 0 <= x < Total(u) ensures s.target[x] == Source(u.job)[x] {
      var k := ChunkOf(u, s, x, |s.chunks|);
      assert ChunkOk(s, k) && ChunkContent(u, s, k);
    }
  }

  lemma StepRunning(u: Setup, s: State, t: Step)
    requires Enabled(u, s, t) && s.running == |Living(s)|
    ensures After(u, s, t).running == |Living(After(u, s, t))|
  {
    hide After;
    var s' := After(u, s, t);
    SameLength(u, s, t);
    LifeAfter(u, s, t);
    forall j | 0 <= j < |s.co| && j != t.i ensures Alive(s'.co[j]) == Alive(s.co[j]) {
      OtherPhases(u, s, t, j);
    }
    if t.Enter? {
      assert Living(s') == Living(s) + {t.i};
    } else if t.Exit? {
      assert Living(s') == Living(s) - {t.i};
    } else {
      assert Living(s') == Living(s);
    }
  }

  lemma LifeAfter(u: Setup, s: State, t: Step)
    requires Enabled(u, s, t)
    ensures Alive(s.co[t.i]) == !t.Enter? && Alive(After(u, s, t).co[t.i]) == !t.Exit?
    ensures After(u, s, t).running == s.running + (if t.Enter? then 1 else if t.Exit? then -1 else 0)
  {}

  /** Only the last coroutine to leave announces success, and only if nothing failed. */
  lemma RetAfter(u: Setup, s: State, t: Step)
    requires Enabled(u, s, t)
    ensures var s' := After(u, s, t);
            && (s'.ret == Success && s.ret != Success ==> t.Exit? && s.ret == InProgress && s'.running == 0)
            && (s.ret == Success && s'.ret != Success ==> HasChunk(s.co[t.i]) || s.co[t.i] == StatusFailed)
            && (s.ret == Success && !HasChunk(s.co[t.i]) && s.co[t.i] != Claiming && s.co[t.i] != StatusFailed ==>
                  !HasChunk(s'.co[t.i]) && s'.co[t.i] != Claiming && s'.co[t.i] != StatusFailed)
            && (s'.lock.Some? ==> s'.lock.value < |s'.co| || s'.lock == s.lock)
            && (t.Exit? && s'.running == 0 ==> s'.ret != InProgress)
  {}

  lemma StepShape(u: Setup, s: State, t: Step)
    requires Enabled(u, s, t) && Core(u, s) && Shape(u, s) && Content(u, s)
    ensures Shape(u, After(u, s, t))
  {
    hide After;
    hide Core;
    var s' := After(u, s, t);
    SameLength(u, s, t);
    StepRunning(u, s, t);
    RetAfter(u, s, t);
    LifeAfter(u, s, t);
    TargetKept(u, s, t);
    if Living(s') == {} { assert t.i !in Living(s'); }
    if s'.ret == Success {
      forall j | 0 <= j < |s.co| && j != t.i ensures s'.co[j] == s.co[j] || s.co[j].Parked? {
        OtherPhases(u, s, t, j);
      }
      if s.ret != Success {
        Emptied(s');
        LastLeaves(u, s, t);
      }
    }
  }

  lemma Emptied(s: State)
    requires |Living(s)| == 0
    ensures forall i :: 0 <= i < |s.co| ==> !Alive(s.co[i])
  {
    assert Living(s) == {};
    forall i | 0 <= i < |s.co| ensures !Alive(s.co[i]) {
      assert i !in Living(s);
    }
  }

  lemma LastLeaves(u: Setup, s: State, t: Step)
    requires Enabled(u, s, t) && t.Exit? && Core(u, s) && Content(u, s) && s.ret == InProgress
    requires forall j :: 0 <= j < |s.co| ==> !Alive(After(u, s, t).co[j])
    ensures s.target == Source(u.job)
  {
    assert CoOk(u, s, t.i);
    forall j | 0 <= j < |s.co| ensures !HasChunk(s.co[j]) {
      if j != t.i { OtherPhases(u, s, t, j); }
    }
    AllCopied(u, s);
  }

  /** Every step keeps the invariant. */
  lemma NextKeepsInv(u: Setup, s: State, t: Step)
    requires Inv(u, s) && Enabled(u, s, t)
    ensures Inv(u, After(u, s, t))
  {
    hide After;
    hide Shape;
    hide CoOk;
    GoodShape(u, s);
    StepInTurn(u, s, t);
    StepChunkOk(u, s, t);
    StepCoOk(u, s, t);
    StepContent(u, s, t);
    StepShape(u, s, t);
  }

  lemma GoodShape(u: Setup, s: State)
    requires Shape(u, s)
    ensures GoodJob(u.job)
  {}

  lemma InitInv(u: Setup, s: State)
    requires Init(u, s)
    ensures Inv(u, s)
  {
    assert Living(s) == {};
    forall i | 0 <= i < |s.co| ensures CoOk(u, s, i) {}
  }

  // ---------------------------------------------------------------------------
  // Whole runs
  // ---------------------------------------------------------------------------

  /** `run` holds the states between the steps. */
  ghost predicate IsRun(u: Setup, run: seq<State>, steps: seq<Step>)
  {
    && |run| == |steps| + 1 && Init(u, run[0])
    && forall n {:trigger StepAt(u, run, steps, n)} :: 0 <= n < |steps| ==> StepAt(u, run, steps, n)
  }

  ghost predicate StepAt(u: Setup, run: seq<State>, steps: seq<Step>, n: nat)
    requires n < |steps| && |run| == |steps| + 1
  {
    Enabled(u, run[n], steps[n]) && run[n + 1] == After(u, run[n], steps[n])
  }

  lemma {:induction false} RunKeepsInv(u: Setup, run: seq<State>, steps: seq<Step>, n: nat)
    requires IsRun(u, run, steps) && n < |run|
    ensures Inv(u, run[n])
  {
    if n == 0 {
      InitInv(u, run[0]);
    } else {
      RunKeepsInv(u, run, steps, n - 1);
      assert StepAt(u, run, steps, n - 1);
      NextKeepsInv(u, run[n - 1], steps[n - 1]);
    }
  }

  /** A read, a write or a status query that fails. */
  predicate Fault(t: Step)
  {
    t.ReportStatus? || (t.Read? && !t.ok) || t.WriteError?
  }

  ghost predicate AllGone(s: State)
  {
    forall i :: 0 <= i < |s.co| ==> s.co[i] == Gone
  }

  lemma FaultFails(u: Setup, s: State, t: Step)
    requires Inv(u, s) && Enabled(u, s, t)
    ensures After(u, s, t).ret == Failed <==> s.ret == Failed || Fault(t)
  {}

  lemma {:induction false} FailedIff(u: Setup, run: seq<State>, steps: seq<Step>, n: nat)
    requires IsRun(u, run, steps) && n < |run|
    ensures run[n].ret == Failed <==> exists m :: 0 <= m < n && Fault(steps[m])
  {
    if n > 0 {
      FailedIff(u, run, steps, n - 1);
      RunKeepsInv(u, run, steps, n - 1);
      assert StepAt(u, run, steps, n - 1);
      FaultFails(u, run[n - 1], steps[n - 1]);
    }
  }

  /** When all coroutines are gone, the result is success exactly if nothing failed on the way,
      and then the target holds what the sources hold. */
  lemma CopyIsCorrect(u: Setup, run: seq<State>, steps: seq<Step>)
    requires IsRun(u, run, steps) && AllGone(run[|steps|])
    ensures var last := run[|steps|];
            && last.ret != InProgress
            && (last.ret == Success <==> forall m :: 0 <= m < |steps| ==> !Fault(steps[m]))
            && (last.ret == Success ==> last.target == Source(u.job))
  {
    var last := run[|steps|];
    RunKeepsInv(u, run, steps, |steps|);
    FailedIff(u, run, steps, |steps|);
    assert Living(last) == {};
    RunLength(u, run, steps, |steps|);
    assert last.co[0] == Gone;
  }

  lemma {:induction false} RunLength(u: Setup, run: seq<State>, steps: seq<Step>, n: nat)
    requires IsRun(u, run, steps) && n < |run|
    ensures |run[n].co| >= 1
  {
    if n > 0 {
      RunLength(u, run, steps, n - 1);
      assert StepAt(u, run, steps, n - 1);
      SameLength(u, run[n - 1], steps[n - 1]);
    }
  }

  /** The chunks that have been claimed are a partition of the sectors before `sectorNum`. */
  lemma ClaimsPartition(u: Setup, run: seq<State>, steps: seq<Step>, n: nat, x: nat)
    requires IsRun(u, run, steps) && n < |run|
    ensures x < run[n].sectorNum <==> exists k :: 0 <= k < |run[n].chunks| && InChunk(run[n].chunks[k], x)
    ensures forall j, k :: 0 <= j < |run[n].chunks| && 0 <= k < |run[n].chunks| ==>
              (InChunk(run[n].chunks[j], x) && InChunk(run[n].chunks[k], x) ==> j == k)
  {
    var s := run[n];
    RunKeepsInv(u, run, steps, n);
    if x < s.sectorNum {
      var k := ChunkOf(u, s, x, |s.chunks|);
      assert InChunk(s.chunks[k], x);
    }
    forall k | 0 <= k < |s.chunks| && InChunk(s.chunks[k], x) ensures x < s.sectorNum {
      assert TileAt(u, s, k);
    }
    forall j, k | 0 <= j < |s.chunks| && 0 <= k < |s.chunks| && InChunk(s.chunks[j], x) && InChunk(s.chunks[k], x)
      ensures j == k
    {
      if j < k { TileOrder(u, s, j, k); } else if k < j { TileOrder(u, s, k, j); }
    }
  }

  predicate InChunk(c: Chunk, x: nat)
  {
    c.start <= x < End(c)
  }

  /** With ordered writes and without a failure, a write goes exactly where everything before
      has been copied and nothing after it has been touched. */
  lemma WritesAreSequential(u: Setup, s: State, t: Step)
    requires Inv(u, s) && Enabled(u, s, t) && u.inOrder && s.ret == InProgress && (t.Write? || t.WriteError?)
    ensures s.target == Source(u.job)[..s.co[t.i].pos] + u.job.before[s.co[t.i].pos..]
  {
    var p := s.co[t.i];
    assert CoOk(u, s, t.i) && TileAt(u, s, p.k);
    forall x | 0 <= x < Total(u) ensures s.target[x] == if x < p.pos then Source(u.job)[x] else u.job.before[x] {
      if x < s.sectorNum {
        var k := ChunkOf(u, s, x, |s.chunks|);
        assert ChunkContent(u, s, k) && ChunkOk(s, k);
        FrontierInOrder(u, s, p.k, k);
      }
    }
  }

  lemma FrontierInOrder(u: Setup, s: State, k: nat, j: nat)
    requires Inv(u, s) && u.inOrder && s.ret == InProgress && k == s.passed < |s.chunks| && j < |s.chunks|
    ensures j < k ==> Frontier(s, j) == End(s.chunks[j]) <= s.chunks[k].start
    ensures j > k ==> Frontier(s, j) == s.chunks[j].start >= End(s.chunks[k])
  {
    assert ChunkOk(s, j);
    if j < k {
      TileOrder(u, s, j, k);
    } else if j > k {
      TileOrder(u, s, k, j);
      assert CoOk(u, s, s.chunks[j].owner);
    }
  }

  // ---------------------------------------------------------------------------
  // Progress
  // ---------------------------------------------------------------------------

  /** Whoever is parked waits, directly or not, for a coroutine that is not. */
  lemma {:induction false} WaitsForRunner(u: Setup, s: State, j: nat) returns (i: nat)
    requires Inv(u, s) && j < |s.co| && s.co[j].Parked?
    ensures i < |s.co| && HasChunk(s.co[i]) && !s.co[i].Parked? && s.co[i].k < s.co[j].k
    decreases s.co[j].k
  {
    assert CoOk(u, s, j);
    var before := s.co[j].k - 1;
    assert ChunkOk(s, before);
    i := s.chunks[before].owner;
    if s.co[i].Parked? {
      i := WaitsForRunner(u, s, i);
    }
  }

  /** The owner of the first unfinished chunk is not parked. */
  lemma FirstIsNotParked(u: Setup, s: State, k: nat)
    requires Inv(u, s) && k < |s.chunks| && !s.chunks[k].finished
    requires forall j :: 0 <= j < k ==> s.chunks[j].finished
    ensures s.chunks[k].owner < |s.co| && HasChunk(s.co[s.chunks[k].owner]) && !s.co[s.chunks[k].owner].Parked?
  {
    assert ChunkOk(s, k);
    assert CoOk(u, s, s.chunks[k].owner);
  }

  /** A coroutine that is neither parked nor gone nor waiting for the lock can go on. */
  lemma CanGoOn(u: Setup, s: State, i: nat) returns (t: Step)
    requires Inv(u, s) && i < |s.co| && Alive(s.co[i]) && !s.co[i].Parked? && (s.co[i] == AtLock ==> s.lock == None)
    ensures Enabled(u, s, t) && t.i == i
  {
    assert CoOk(u, s, i);
    match s.co[i] {
      case AtLock => t := Lock(i);
      case Claiming => t := StatusError(i);
      case StatusFailed => t := ReportStatus(i);
      case Reading(k) => t := Read(i, true);
      case Ordering(k, _) => t := Order(i);
      case Writing(k, pos) =>
        assert TileAt(u, s, k);
        t := Write(i, 1, AWayToDo(u.job, s.chunks[k].status));
        ZeroSector(u.job, s.chunks[k], pos);
      case Finishing(k) => t := Finish(i);
      case Leaving => t := Exit(i);
    }
  }

  function AWayToDo(j: Job, status: Status): How
  {
    match status
    case Data => WriteData
    case Zero => if j.zeroInit then Leave else WriteZeroes
    case Backing => Leave
  }

  lemma ZeroSector(j: Job, c: Chunk, pos: nat)
    requires c.start <= pos < End(c) <= |Source(j)| == |j.before| && StatusHolds(j, c.status, c.start, c.len)
    ensures CanDo(j, c.status, pos, 1, AWayToDo(j, c.status))
  {
    StatusPart(j, c.status, c.start, End(c), pos, pos + 1);
  }

  /** As long as a coroutine is left, one of them can go on: the copy cannot get stuck, not
      even after a failure. */
  lemma NoDeadlock(u: Setup, s: State) returns (t: Step)
    requires Inv(u, s) && !AllGone(s)
    ensures Enabled(u, s, t)
  {
    if s.lock.Some? {
      assert CoOk(u, s, s.lock.value);
      t := CanGoOn(u, s, s.lock.value);
    } else if i :| 0 <= i < |s.co| && Alive(s.co[i]) {
      if s.co[i].Parked? {
        var r := WaitsForRunner(u, s, i);
        t := CanGoOn(u, s, r);
      } else {
        t := CanGoOn(u, s, i);
      }
    } else {
      var i :| 0 <= i < |s.co| && s.co[i] != Gone;
      var first := FirstUnborn(s, i);
      t := Enter(first);
    }
  }

  lemma {:induction false} FirstUnborn(s: State, i: nat) returns (first: nat)
    requires i < |s.co| && s.co[i] == Unborn
    ensures first < |s.co| && s.co[first] == Unborn && forall j :: 0 <= j < first ==> s.co[j] != Unborn
    decreases i
  {
    if j :| 0 <= j < i && s.co[j] == Unborn {
      first := FirstUnborn(s, j);
    } else {
      first := i;
    }
  }

  /** Steps left for a coroutine until it next comes to the top of the loop. */
  ghost function Weight(s: State, p: Phase): nat
  {
    match p
    case Gone => 0
    case Leaving => 1
    case StatusFailed => 2
    case Claiming => 3
    case AtLock => 4
    case Unborn => 5
    case Finishing(_) => 5
    case Writing(k, pos) => if k < |s.chunks| && pos <= End(s.chunks[k]) then 5 + End(s.chunks[k]) - pos else 5
    case Ordering(k, woken) => (if woken then 6 else 8) + Length(s, k)
    case Parked(k) => 7 + Length(s, k)
    case Reading(k) => 9 + Length(s, k)
  }

  ghost function Length(s: State, k: nat): nat
  {
    if k < |s.chunks| then s.chunks[k].len else 0
  }

  ghost function Weights(s: State, n: nat): nat
    requires n <= |s.co|
  {
    if n == 0 then 0 else Weights(s, n - 1) + Weight(s, s.co[n - 1])
  }

  /** A bound on the number of steps that are left. */
  ghost function Potential(u: Setup, s: State): nat
    requires s.sectorNum <= Total(u)
  {
    10 * (Total(u) - s.sectorNum) + Weights(s, |s.co|)
  }

  /** If at most the weight of `i` grows, by no more than `d`, then so does their sum. */
  lemma {:induction false} WeightsAfter(s: State, s': State, i: nat, d: int, n: nat)
    requires n <= |s.co| == |s'.co| && i < |s.co|
    requires forall j :: 0 <= j < |s.co| && j != i ==> Weight(s', s'.co[j]) <= Weight(s, s.co[j])
    requires Weight(s', s'.co[i]) <= Weight(s, s.co[i]) + d
    ensures Weights(s', n) <= Weights(s, n) + (if i < n then d else 0)
  {
    if n > 0 {
      WeightsAfter(s, s', i, d, n - 1);
    }
  }

  lemma OwnWeight(u: Setup, s: State, t: Step)
    requires Inv(u, s) && Enabled(u, s, t)
    ensures var s' := After(u, s, t);
            Weight(s', s'.co[t.i]) <= Weight(s, s.co[t.i]) + (if t.Claim? then 6 + t.n else -1)
  {
    assert CoOk(u, s, t.i);
    OwnPhase(u, s, t);
    if HasChunk(s.co[t.i]) {
      assert TileAt(u, s, s.co[t.i].k);
      if !t.Finish? { OwnNext(u, s, t); }
      if t.Order? && u.inOrder && s.ret == InProgress { Turn(u, s, s.co[t.i].k); }
    }
  }

  lemma OtherWeight(u: Setup, s: State, t: Step, j: nat)
    requires Inv(u, s) && Enabled(u, s, t) && j < |s.co| && j != t.i
    ensures var s' := After(u, s, t); j < |s'.co| && Weight(s', s'.co[j]) <= Weight(s, s.co[j])
  {
    hide After;
    assert CoOk(u, s, j);
    OwnPhase(u, s, t);
    OtherPhases(u, s, t, j);
  }

  /** Every step uses potential up. */
  lemma StepUsesPotential(u: Setup, s: State, t: Step)
    requires Inv(u, s) && Enabled(u, s, t)
    ensures After(u, s, t).sectorNum <= Total(u) && Potential(u, After(u, s, t)) < Potential(u, s)
  {
    hide After;
    hide Inv;
    hide Weight;
    var s' := After(u, s, t);
    InvTiles(u, s);
    NextKeepsInv(u, s, t);
    InvTiles(u, s');
    SameLength(u, s, t);
    SectorNumAfter(u, s, t);
    OwnWeight(u, s, t);
    forall j | 0 <= j < |s.co| && j != t.i ensures Weight(s', s'.co[j]) <= Weight(s, s.co[j]) {
      OtherWeight(u, s, t, j);
    }
    ClaimPositive(u, s, t);
    WeightsAfter(s, s', t.i, if t.Claim? then 6 + t.n else -1, |s.co|);
  }

  lemma ClaimPositive(u: Setup, s: State, t: Step)
    requires Enabled(u, s, t)
    ensures t.Claim? ==> t.n >= 1
  {}

  lemma InvTiles(u: Setup, s: State)
    requires Inv(u, s)
    ensures s.sectorNum <= Total(u)
  {}

  /** The copy ends: a run has at most as many steps as the potential it starts with. */
  lemma {:induction false} RunsAreBounded(u: Setup, run: seq<State>, steps: seq<Step>, n: nat)
    requires IsRun(u, run, steps) && n < |run|
    ensures run[n].sectorNum <= Total(u) && n + Potential(u, run[n]) <= 10 * Total(u) + 5 * |run[0].co|
  {
    RunKeepsInv(u, run, steps, n);
    InvTiles(u, run[n]);
    if n == 0 {
      InitialWeights(run[0], |run[0].co|);
    } else {
      RunsAreBounded(u, run, steps, n - 1);
      RunKeepsInv(u, run, steps, n - 1);
      assert StepAt(u, run, steps, n - 1);
      StepUsesPotential(u, run[n - 1], steps[n - 1]);
    }
  }

  lemma {:induction false} InitialWeights(s: State, n: nat)
    requires n <= |s.co| && forall i :: 0 <= i < |s.co| ==> s.co[i] == Unborn
    ensures Weights(s, n) == 5 * n
  {
    if n > 0 {
      InitialWeights(s, n - 1);
    }
  }

  // ---------------------------------------------------------------------------
  // What is read and written
  // ---------------------------------------------------------------------------

  lemma ChunksAfter(u: Setup, s: State, t: Step, k: nat)
    requires Enabled(u, s, t) && k < |After(u, s, t).chunks|
    ensures k < |s.chunks| ==> After(u, s, t).chunks[k] == s.chunks[k].(finished := After(u, s, t).chunks[k].finished)
    ensures k >= |s.chunks| ==>
              t.Claim? && After(u, s, t).chunks[k].len == t.n && After(u, s, t).chunks[k].status == t.status
  {}

  /** On every run, a chunk that is read or written through the buffer fits into it. */
  lemma {:induction false} ChunksFitBuffer(u: Setup, run: seq<State>, steps: seq<Step>, n: nat, k: nat)
    requires IsRun(u, run, steps) && n < |run| && k < |run[n].chunks|
    requires run[n].chunks[k].status == Data || (run[n].chunks[k].status == Zero && u.job.minSparse == 0)
    ensures 1 <= run[n].chunks[k].len <= u.job.bufSectors
  {
    if n > 0 {
      assert StepAt(u, run, steps, n - 1);
      ChunksAfter(u, run[n - 1], steps[n - 1], k);
      if k < |run[n - 1].chunks| {
        ChunksFitBuffer(u, run, steps, n - 1, k);
      }
    }
  }

  /** On every run, zeroes are written neither to a target that starts out zeroed nor where it is
      meant to show its backing file. */
  lemma ZeroesOnlyIfNeeded(u: Setup, run: seq<State>, steps: seq<Step>, n: nat)
    requires IsRun(u, run, steps) && n < |steps| && steps[n].Write? && steps[n].how == WriteZeroes
    ensures var s, i := run[n], steps[n].i;
            && !u.job.zeroInit && i < |s.co| && s.co[i].Writing? && s.co[i].k < |s.chunks|
            && s.chunks[s.co[i].k].status != Backing
  {
    assert StepAt(u, run, steps, n);
  }

  // ---------------------------------------------------------------------------
  // The sequential code takes these steps
  // ---------------------------------------------------------------------------

  /** What a coroutine does inside the lock is a Claim step or a StatusError step. */
  method NextChunk(cache: StatusCache, sectorNum: nat) returns (ok: bool, n: nat)
    requires cache.Valid(sectorNum) && sectorNum < |Source(cache.job)|
    modifies cache
    ensures (forall p: nat, m: nat {:trigger cache.blockStatus(p, m)} :: cache.blockStatus(p, m).Some?) ==> ok
    ensures ok ==> sectorNum + n <= |Source(cache.job)| == |cache.job.before|
    ensures ok ==> CanClaim(cache.job, sectorNum, n, cache.status) && cache.Valid(sectorNum + n)
  {
    hide Concat;
    ok, n := cache.IterationSectors(sectorNum);
    if !ok {
      return;
    }
    ghost var m := n;
    if cache.job.minSparse == 0 && cache.status == Zero {
      n := Min(n, cache.job.bufSectors);
    }
    StatusPart(cache.job, cache.status, sectorNum, sectorNum + m, sectorNum, sectorNum + n);
  }

  /** Reading a chunk is a Read step, and afterwards the buffer holds what is to be written. */
  method ReadChunk(j: Job, c: Chunk, mayFail: bool) returns (ok: bool, buf: seq<Sector>, status: Status)
    requires End(c) <= |Source(j)| == |j.before| && StatusHolds(j, c.status, c.start, c.len)
    ensures (c.status != Data || !mayFail ==> ok) && status == WriteAs(j, c.status)
    ensures ok && status == Data ==> buf == Source(j)[c.start..End(c)]
  {
    ok, buf, status := true, [], c.status;
    if status == Data {
      ok, buf := CoRead(j.parts, c.start, c.len, mayFail);
    } else if j.minSparse == 0 && status == Zero {
      status := Data;
      buf := Zeroes(c.len);
      assert forall i :: 0 <= i < c.len ==> buf[i] == Source(j)[c.start..End(c)][i];
    }
  }

  /** What an iteration of `convert_co_write` does with the piece that NextPiece chose. */
  function Choice(j: Job, status: Status, write: bool): How
  {
    if status == Backing then Leave
    else if write then WriteData
    else if j.zeroInit then Leave
    else WriteZeroes
  }

  /** An iteration of `Convert.CoWrite` on a chunk that ReadChunk has read is a Write step of this
      machine, and what it writes is what that step writes. */
  lemma IterationIsWriteStep(j: Job, c: Chunk, pos: nat, n: nat, buf: seq<Sector>, write: bool)
    requires c.start <= pos && 1 <= n && pos + n <= End(c) <= |Source(j)| == |j.before|
    requires StatusHolds(j, c.status, c.start, c.len)
    requires WriteAs(j, c.status) == Data ==> buf == Source(j)[pos..End(c)] && (j.minSparse == 0 ==> write)
    requires write ==> WriteAs(j, c.status) == Data
    requires WriteAs(j, c.status) == Data && !write ==> AllZero(buf[..n])
    ensures CanDo(j, c.status, pos, n, Choice(j, WriteAs(j, c.status), write))
    ensures write ==> buf[..n] == Source(j)[pos..pos + n]
  {
    if WriteAs(j, c.status) == Data && !write {
      forall x | pos <= x < pos + n ensures Source(j)[x] == ZERO {
        assert buf[..n][x - pos] == Source(j)[x];
      }
    }
    StatusPart(j, c.status, c.start, End(c), pos, pos + n);
  }

  /** A run that cannot go on has ended: all coroutines are gone, and the result is right. */
  lemma MaximalRunIsCorrect(u: Setup, run: seq<State>, steps: seq<Step>)
    requires IsRun(u, run, steps) && forall t: Step :: !Enabled(u, run[|steps|], t)
    ensures |steps| <= 10 * Total(u) + 5 * |run[0].co|
    ensures var last := run[|steps|];
            && AllGone(last) && last.ret != InProgress
            && (last.ret == Success <==> forall m :: 0 <= m < |steps| ==> !Fault(steps[m]))
            && (last.ret == Success ==> last.target == Source(u.job))
  {
    var last := run[|steps|];
    RunKeepsInv(u, run, steps, |steps|);
    RunsAreBounded(u, run, steps, |steps|);
    if !AllGone(last) {
      var t := NoDeadlock(u, last);
    }
    CopyIsCorrect(u, run, steps);
  }
}
