/** The sequential parts of copying an image: which sectors to copy next, reading them and
    writing them (`qemu/qemu-img.c`).  Offsets and lengths are in sectors. */
module Convert {

  import opened Wrappers
  import opened Align
  import opened Buffers

  /** The contents of a sector; zero stands for a sector of zeroes. */
  type Sector = int

  const ZERO: Sector := 0

  /** The sectors from `a` to `b` are zero. */
  ghost predicate ZeroIn(s: seq<Sector>, a: nat, b: nat)
  {
    forall x :: a <= x < b && x < |s| ==> s[x] == ZERO
  }

  /** The sectors from `a` to `b` are the same. */
  ghost predicate SameIn(s: seq<Sector>, s': seq<Sector>, a: nat, b: nat)
  {
    forall x :: a <= x < b && x < |s| && x < |s'| ==> s[x] == s'[x]
  }

  function Zeroes(n: nat): seq<Sector>
  {
    seq(n, i => ZERO)
  }

  /** `target` with `data` written at `pos`. */
  function Overwrite(target: seq<Sector>, pos: nat, data: seq<Sector>): seq<Sector>
    requires pos + |data| <= |target|
  {
    target[..pos] + data + target[pos + |data|..]
  }

  // ---------------------------------------------------------------------------
  // Looking for zeroes in a buffer
  // ---------------------------------------------------------------------------

  /** How many sectors at the beginning are all zero, or all not zero. */
  function Uniform(buf: seq<Sector>): (c: nat)
    requires buf != []
    ensures 1 <= c <= |buf| && forall j :: 0 <= j < c ==> (buf[j] == ZERO <==> buf[0] == ZERO)
    ensures c < |buf| ==> (buf[c] == ZERO <==> buf[0] != ZERO)
  {
    if |buf| == 1 || (buf[1] == ZERO) != (buf[0] == ZERO) then 1 else 1 + Uniform(buf[1..])
  }

  lemma UniformIs(buf: seq<Sector>, i: nat)
    requires 1 <= i <= |buf| && forall j :: 0 <= j < i ==> (buf[j] == ZERO <==> buf[0] == ZERO)
    requires i < |buf| ==> (buf[i] == ZERO <==> buf[0] != ZERO)
    ensures Uniform(buf) == i
  {
    hide Uniform;
    var c := Uniform(buf);
    assert !(c < i) && !(i < c);
  }

  /** The first `n` sectors are data without a gap, but for less than a block at either end. */
  ghost predicate Solid(buf: seq<Sector>, n: nat, alignment: nat)
  {
    exists a: nat, b: nat :: a <= b < n <= |buf| && SolidBetween(buf, n, alignment, a, b)
  }

  ghost predicate SolidBetween(buf: seq<Sector>, n: nat, alignment: nat, a: nat, b: nat)
    requires b < |buf|
  {
    a < alignment && n - b <= alignment && forall j :: a <= j <= b ==> buf[j] != ZERO
  }

  /** `is_allocated_sectors`.  If the whole buffer is zero or data, so is the answer.  Otherwise the
      answer is about the part before the first change: zeroes that fill no block count as data, an
      answer of data is rounded up to the end of a block or of the buffer, an answer of zeroes is
      rounded down.  An alignment is a power of two, so the mask of the code takes the remainder. */
  method IsAllocatedSectors(buf: seq<Sector>, sectorNum: nat, alignment: nat) returns (used: bool, pnum: nat)
    requires alignment > 0
    ensures buf == [] ==> !used && pnum == 0
    ensures buf != [] ==> 1 <= pnum <= |buf|
    ensures !used ==> AllZero(buf[..pnum])
    ensures used ==> !AllZero(buf[..pnum])
    ensures pnum < |buf| ==> (sectorNum + pnum) % alignment == 0
    ensures buf != [] && Uniform(buf) == |buf| ==> (used <==> buf[0] != ZERO) && pnum == |buf|
    ensures buf != [] && Uniform(buf) < |buf| ==>
              var c := Uniform(buf);
              && (used <==> buf[0] != ZERO || c <= (sectorNum + c) % alignment)
              && (if used then c <= pnum < c + alignment else pnum <= c < pnum + alignment)
    ensures used ==> Solid(buf, pnum, alignment)
    ensures !used && pnum < |buf| ==> exists j :: pnum <= j < |buf| && j < pnum + alignment && buf[j] != ZERO
  {
    hide Uniform;
    if buf == [] {
      return false, 0;
    }
    var isZero := buf[0] == ZERO;
    var i := 1;
    while i < |buf| && isZero == (buf[i] == ZERO)
      invariant 1 <= i <= |buf|
      invariant forall j :: 0 <= j < i ==> isZero == (buf[j] == ZERO)
    {
      i := i + 1;
    }
    UniformIs(buf, i);
    if i == |buf| {
      if !isZero { assert SolidBetween(buf, i, alignment, 0, i - 1); }
      return !isZero, i;
    }
    ghost var change := i;
    var tail := (sectorNum + i) % alignment;
    if tail != 0 {
      if isZero && i <= tail {
        isZero := false;
      }
      if !isZero {
        AlignUp(sectorNum + i, alignment);
        i := i + alignment - tail;
        i := if i < |buf| then i else |buf|;
      } else {
        AlignDown(sectorNum + i, alignment);
        i := i - tail;
      }
    }
    used, pnum := !isZero, i;
    if used {
      assert buf[..pnum][0] != ZERO || buf[..pnum][change] != ZERO;
      if buf[0] != ZERO {
        assert SolidBetween(buf, pnum, alignment, 0, change - 1);
      } else {
        assert SolidBetween(buf, pnum, alignment, change, change);
      }
    } else {
      assert pnum <= change < pnum + alignment && buf[change] != ZERO;
    }
  }

  /** No stretch of zeroes before `n` is as long as `bound`. */
  ghost predicate ShortGaps(buf: seq<Sector>, n: nat, bound: nat)
  {
    forall x: nat, y: nat :: x <= y <= n && n <= |buf| && ZeroIn(buf, x, y) ==> y - x < bound
  }

  /** The last data sector before `n` is in the block before `n`. */
  ghost predicate EndsWithData(buf: seq<Sector>, n: nat, alignment: nat)
  {
    exists d: nat :: d < n <= |buf| && n - d <= alignment && buf[d] != ZERO
  }

  lemma NotInGap(buf: seq<Sector>, x: nat, y: nat, k: nat)
    requires k < |buf| && buf[k] != ZERO && ZeroIn(buf, x, y)
    ensures !(x <= k < y)
  {}

  lemma FirstGaps(buf: seq<Sector>, n: nat, alignment: nat, least: nat)
    requires Solid(buf, n, alignment)
    ensures ShortGaps(buf, n, least + 2 * alignment) && EndsWithData(buf, n, alignment)
  {
    var a: nat, b: nat :| a <= b < n <= |buf| && SolidBetween(buf, n, alignment, a, b);
    forall x: nat, y: nat | x <= y <= n && ZeroIn(buf, x, y) ensures y - x < least + 2 * alignment {
      NotInGap(buf, x, y, a);
      if a < x <= b { NotInGap(buf, x, y, x); }
    }
    assert buf[b] != ZERO;
  }

  /** After a gap shorter than `least` comes a piece of data. */
  lemma MoreGaps(buf: seq<Sector>, used: nat, checked: nat, m: nat, alignment: nat, least: nat)
    requires used <= checked && checked + m <= |buf| && (checked == used || checked - used < least)
    requires ShortGaps(buf, used, least + 2 * alignment) && EndsWithData(buf, used, alignment)
    requires Solid(buf[checked..], m, alignment)
    ensures ShortGaps(buf, checked + m, least + 2 * alignment) && EndsWithData(buf, checked + m, alignment)
  {
    var rest, n := buf[checked..], checked + m;
    var a: nat, b: nat :| a <= b < m <= |rest| && SolidBetween(rest, m, alignment, a, b);
    var d: nat :| d < used <= |buf| && used - d <= alignment && buf[d] != ZERO;
    assert forall j :: a <= j <= b ==> buf[checked + j] == rest[j];
    assert forall j :: checked + a <= j <= checked + b ==> buf[j] != ZERO by {
      forall j | checked + a <= j <= checked + b ensures buf[j] != ZERO { assert buf[j] == rest[j - checked]; }
    }
    forall x: nat, y: nat | x <= y <= n && ZeroIn(buf, x, y) ensures y - x < least + 2 * alignment {
      NotInGap(buf, x, y, d);
      NotInGap(buf, x, y, checked + a);
      if checked + a < x <= checked + b { NotInGap(buf, x, y, x); }
    }
    assert buf[checked + b] != ZERO;
  }

  /** Zeroes that end at a block boundary, before the end of the buffer, are followed by data. */
  lemma DataFollows(rest: seq<Sector>, sectorNum: nat, alignment: nat, j: nat)
    requires alignment > 0 && sectorNum % alignment == 0 && j < |rest| && j < alignment && rest[j] != ZERO
    ensures rest[0] != ZERO || (Uniform(rest) < |rest| && Uniform(rest) <= (sectorNum + Uniform(rest)) % alignment)
  {
    var c := Uniform(rest);
    if rest[0] == ZERO {
      assert c <= j;
      SmallRemainder(sectorNum, c, alignment);
    }
  }

  lemma SmallRemainder(x: nat, c: nat, a: nat)
    requires a > 0 && x % a == 0 && c < a
    ensures (x + c) % a == c
  {
    AlignDown(x + c, a);
    var b := x + c - (x + c) % a;
    if b < x { CloseMultiples(a, b, x); } else { CloseMultiples(a, x, b); }
  }

  /** The state of the loop of `is_allocated_sectors_min`: the answer covers `used` sectors so far,
      and the rest up to `checked` is a gap. */
  ghost predicate Scanned(buf: seq<Sector>, sectorNum: nat, alignment: nat, least: nat, used: nat, checked: nat)
    requires alignment > 0
  {
    && 1 <= used <= checked <= |buf|
    && (used < |buf| ==> (sectorNum + used) % alignment == 0)
    && (checked < |buf| ==> (sectorNum + checked) % alignment == 0)
    && ZeroIn(buf, used, checked) && (used == checked || checked == |buf| || checked - used < least)
    && (used < checked < |buf| ==> exists j: nat :: checked <= j < |buf| && j < checked + alignment && buf[j] != ZERO)
    && ShortGaps(buf, used, least + 2 * alignment) && EndsWithData(buf, used, alignment)
  }

  lemma ScanStarts(buf: seq<Sector>, sectorNum: nat, alignment: nat, least: nat, n: nat)
    requires alignment > 0 && 1 <= n <= |buf| && Solid(buf, n, alignment)
    requires n < |buf| ==> (sectorNum + n) % alignment == 0
    ensures Scanned(buf, sectorNum, alignment, least, n, n)
  {
    FirstGaps(buf, n, alignment, least);
  }

  /** A gap that does not reach the end of the buffer is followed by data. */
  lemma GapThenData(buf: seq<Sector>, sectorNum: nat, alignment: nat, least: nat, used: nat, checked: nat)
    requires alignment > 0 && Scanned(buf, sectorNum, alignment, least, used, checked) && used < checked < |buf|
    ensures var rest := buf[checked..];
            || rest[0] != ZERO
            || (Uniform(rest) < |rest| && Uniform(rest) <= (sectorNum + checked + Uniform(rest)) % alignment)
  {
    var rest := buf[checked..];
    var j: nat :| checked <= j < |buf| && j < checked + alignment && buf[j] != ZERO;
    assert rest[j - checked] == buf[j];
    DataFollows(rest, sectorNum + checked, alignment, j - checked);
  }

  lemma ScanData(buf: seq<Sector>, sectorNum: nat, alignment: nat, least: nat, used: nat, checked: nat, m: nat)
    requires alignment > 0 && Scanned(buf, sectorNum, alignment, least, used, checked)
    requires checked < |buf| && 1 <= m && checked + m <= |buf| && Solid(buf[checked..], m, alignment)
    requires checked + m < |buf| ==> (sectorNum + checked + m) % alignment == 0
    ensures Scanned(buf, sectorNum, alignment, least, checked + m, checked + m)
  {
    hide Solid;
    hide ShortGaps;
    hide EndsWithData;
    MoreGaps(buf, used, checked, m, alignment, least);
  }

  lemma ScanZeroes(buf: seq<Sector>, sectorNum: nat, alignment: nat, least: nat, used: nat, m: nat)
    requires alignment > 0 && Scanned(buf, sectorNum, alignment, least, used, used)
    requires used < |buf| && 1 <= m && used + m <= |buf| && AllZero(buf[used..][..m])
    requires used + m < |buf| ==> (sectorNum + used + m) % alignment == 0
    requires used + m < |buf| ==>
               exists j :: m <= j < |buf[used..]| && j < m + alignment && buf[used..][j] != ZERO
    ensures ZeroIn(buf, used, used + m)
    ensures m < least || used + m == |buf| ==> Scanned(buf, sectorNum, alignment, least, used, used + m)
  {
    hide ShortGaps;
    hide EndsWithData;
    forall x | used <= x < used + m ensures buf[x] == ZERO { assert buf[used..][..m][x - used] == ZERO; }
    if used + m < |buf| {
      var j :| m <= j < |buf[used..]| && j < m + alignment && buf[used..][j] != ZERO;
      assert buf[used + j] != ZERO;
    }
  }

  lemma ScanEnds(buf: seq<Sector>, sectorNum: nat, alignment: nat, minSparse: nat, least: nat,
                 used: nat, known: nat, checked: nat)
    requires alignment > 0 && Scanned(buf, sectorNum, alignment, least, used, known)
    requires least <= minSparse && (minSparse <= |buf| ==> least == minSparse) && (minSparse > |buf| ==> least == |buf|)
    requires used <= checked <= |buf| && ZeroIn(buf, used, checked) && (checked == |buf| || checked - used >= least)
    ensures used < |buf| ==> (sectorNum + used) % alignment == 0
    ensures ShortGaps(buf, used, minSparse + 2 * alignment) && EndsWithData(buf, used, alignment)
    ensures ZeroIn(buf, used, used + minSparse) || used == |buf|
    ensures !AllZero(buf[..used])
  {
    var d: nat :| d < used <= |buf| && used - d <= alignment && buf[d] != ZERO;
    assert buf[..used][d] != ZERO;
  }

  /** `is_allocated_sectors_min`.  Zeroes are left out of an answer of data exactly where the buffer
      ends with them or where they are at least `minSparse` sectors; shorter gaps are taken in,
      give or take the rest of a block at either end. */
  method IsAllocatedSectorsMin(buf: seq<Sector>, minSparse: nat, sectorNum: nat, alignment: nat)
    returns (used: bool, pnum: nat)
    requires alignment > 0
    ensures buf == [] ==> !used && pnum == 0
    ensures buf != [] ==> 1 <= pnum <= |buf|
    ensures !used ==> AllZero(buf[..pnum])
    ensures used ==> !AllZero(buf[..pnum])
    ensures pnum < |buf| ==> (sectorNum + pnum) % alignment == 0
    ensures used ==> ShortGaps(buf, pnum, minSparse + 2 * alignment) && EndsWithData(buf, pnum, alignment)
    ensures used && pnum < |buf| ==> ZeroIn(buf, pnum, pnum + minSparse)
  {
    hide Solid;
    hide ShortGaps;
    hide EndsWithData;
    hide Scanned;
    hide Uniform;
    var least := if |buf| < minSparse then |buf| else minSparse;
    used, pnum := IsAllocatedSectors(buf, sectorNum, alignment);
    if !used {
      return;
    }
    ScanStarts(buf, sectorNum, alignment, least, pnum);
    var numUsed, checked := pnum, pnum;
    ghost var known := pnum;
    while checked < |buf|
      invariant 1 <= numUsed <= checked <= |buf| && Scanned(buf, sectorNum, alignment, least, numUsed, checked)
      invariant known == checked && ZeroIn(buf, numUsed, checked)
    {
      if numUsed < checked { GapThenData(buf, sectorNum, alignment, least, numUsed, checked); }
      var more, m := IsAllocatedSectors(buf[checked..], sectorNum + checked, alignment);
      if more {
        ScanData(buf, sectorNum, alignment, least, numUsed, checked, m);
      } else {
        ScanZeroes(buf, sectorNum, alignment, least, numUsed, m);
      }
      checked := checked + m;
      if more {
        numUsed := checked;
      } else if m >= least {
        break;
      }
      known := checked;
    }
    pnum := numUsed;
    ScanEnds(buf, sectorNum, alignment, minSparse, least, pnum, known, checked);
  }

  lemma SliceOfSlice(s: seq<Sector>, a: nat, b: nat, c: nat, d: nat)
    requires a <= b <= |s| && c <= d <= b - a
    ensures s[a..b][c..d] == s[a + c..a + d]
  {
    forall i | 0 <= i < d - c ensures s[a..b][c..d][i] == s[a + c..a + d][i] {
      assert s[a..b][c + i] == s[a + c + i];
    }
  }

  lemma SliceMore(s: seq<Sector>, a: nat, b: nat, c: nat)
    requires a <= b <= c <= |s|
    ensures s[a..b] + s[b..c] == s[a..c]
  {}

  // ---------------------------------------------------------------------------
  // Sources
  // ---------------------------------------------------------------------------

  /** What the sources hold together, one after the other. */
  ghost function Concat(parts: seq<seq<Sector>>): seq<Sector>
  {
    if parts == [] then [] else Concat(parts[..|parts| - 1]) + parts[|parts| - 1]
  }

  ghost function Offset(parts: seq<seq<Sector>>, k: nat): nat
    requires k <= |parts|
  {
    |Concat(parts[..k])|
  }

  lemma {:induction false} PartAt(parts: seq<seq<Sector>>, k: nat)
    requires k < |parts|
    ensures Offset(parts, k + 1) == Offset(parts, k) + |parts[k]| <= |Concat(parts)|
    ensures Concat(parts)[Offset(parts, k)..Offset(parts, k + 1)] == parts[k]
    decreases |parts|
  {
    var init, last := parts[..|parts| - 1], parts[|parts| - 1];
    if k == |parts| - 1 {
      assert parts[..k + 1] == parts && parts[..k] == init;
    } else {
      PartAt(init, k);
      assert init[..k] == parts[..k] && init[..k + 1] == parts[..k + 1];
      assert Concat(parts)[..|Concat(init)|] == Concat(init);
      assert Concat(parts)[Offset(parts, k)..Offset(parts, k + 1)] ==
             Concat(init)[Offset(parts, k)..Offset(parts, k + 1)];
    }
  }

  /** `convert_select_part`; the assertion on `src_cur` holds for every sector in range. */
  method SelectPart(parts: seq<seq<Sector>>, sectorNum: nat) returns (cur: nat, offset: nat)
    requires sectorNum < |Concat(parts)|
    ensures cur < |parts| && offset == Offset(parts, cur) && offset <= sectorNum < offset + |parts[cur]|
  {
    cur, offset := 0, 0;
    assert parts[..0] == [] && parts[..|parts|] == parts;
    while sectorNum - offset >= |parts[cur]|
      invariant cur < |parts| && offset == Offset(parts, cur) && offset <= sectorNum
      decreases |parts| - cur
    {
      PartAt(parts, cur);
      offset := offset + |parts[cur]|;
      cur := cur + 1;
      assert cur < |parts|;
    }
  }

  /** `convert_co_read`, without salvage; reads fail only if they may.  The buffer holds what the
      sources hold, even where the request spans several of them. */
  method CoRead(parts: seq<seq<Sector>>, sectorNum: nat, nbSectors: nat, mayFail: bool)
    returns (ok: bool, buf: seq<Sector>)
    requires sectorNum + nbSectors <= |Concat(parts)|
    ensures !mayFail ==> ok
    ensures ok ==> buf == Concat(parts)[sectorNum..sectorNum + nbSectors]
  {
    hide Concat;
    buf := [];
    while |buf| < nbSectors
      invariant |buf| <= nbSectors && buf == Concat(parts)[sectorNum..sectorNum + |buf|]
    {
      var pos := sectorNum + |buf|;
      var cur, offset := SelectPart(parts, pos);
      PartAt(parts, cur);
      var left, here := nbSectors - |buf|, |parts[cur]| - (pos - offset);
      var n := if left < here then left else here;
      if mayFail {
        if * {
          return false, buf;              // blk_co_pread failed
        }
      }
      SliceOfSlice(Concat(parts), offset, offset + |parts[cur]|, pos - offset, pos - offset + n);
      SliceMore(Concat(parts), sectorNum, pos, pos + n);
      buf := buf + parts[cur][pos - offset..pos - offset + n];
    }
    ok := true;
  }

  // ---------------------------------------------------------------------------
  // What to copy next
  // ---------------------------------------------------------------------------

  datatype Status = Data | Zero | Backing

  /** The outcome of `bdrv_block_status_above`. */
  datatype Answer = Answer(zero: bool, data: bool, count: nat)

  datatype Job = Job(parts: seq<seq<Sector>>, srcAlignment: seq<nat>,
                     before: seq<Sector>,         // what a reader of the target saw before
                     hasBacking: bool, backingSectors: Option<nat>,
                     zeroInit: bool, compressed: bool,
                     clusterSectors: nat, bufSectors: nat, minSparse: nat, alignment: nat)

  const REQUEST_MAX_SECTORS: nat := 0x3fffff

  ghost function Source(j: Job): seq<Sector>
  {
    Concat(j.parts)
  }

  /** What the options promise: a target without backing file that starts out zeroed does so,
      and one with a backing file reads as zeroes past the end of that. */
  ghost predicate GoodJob(j: Job)
  {
    && |j.before| == |Source(j)| && |j.srcAlignment| == |j.parts| && j.bufSectors > 0 && j.alignment > 0
    && (forall i :: 0 <= i < |j.srcAlignment| ==> j.srcAlignment[i] > 0)
    && (j.compressed ==> j.bufSectors == j.clusterSectors)
    && (j.zeroInit ==> !j.hasBacking && AllZero(j.before))
    && (j.backingSectors.Some? ==> j.hasBacking && ZeroIn(j.before, j.backingSectors.value, |j.before|))
  }

  /** What a status says about `n` sectors at `pos`. */
  ghost predicate StatusHolds(j: Job, status: Status, pos: nat, n: nat)
    requires pos + n <= |Source(j)| == |j.before|
  {
    && (status == Zero ==> ZeroIn(Source(j), pos, pos + n))
    && (status == Backing ==> j.hasBacking && SameIn(Source(j), j.before, pos, pos + n))
  }

  /** The contract of `bdrv_block_status_above`: ZERO is said of zero sectors only, and what is
      unallocated above the common backing file reads the same through the target. */
  ghost predicate GoodAnswer(j: Job, pos: nat, n: nat, a: Answer)
    requires pos + n <= |Source(j)| == |j.before|
  {
    && 1 <= a.count <= n
    && (a.zero ==> ZeroIn(Source(j), pos, pos + a.count))
    && (j.hasBacking && !a.zero && !a.data ==> SameIn(Source(j), j.before, pos, pos + a.count))
  }

  lemma StatusPart(j: Job, status: Status, a: nat, b: nat, c: nat, d: nat)
    requires a <= c <= d <= b <= |Source(j)| == |j.before| && StatusHolds(j, status, a, b - a)
    ensures StatusHolds(j, status, c, d - c)
  {
    hide Concat;
  }

  /** Sector `pos` is past the end of the target's backing file. */
  predicate PastBacking(j: Job, pos: nat)
  {
    j.backingSectors.Some? && j.backingSectors.value <= pos
  }

  /** A request reaches to the end of the sources, to the end of the target's backing file if it
      begins before that, or to the largest size that requests have. */
  ghost function Limit(j: Job, pos: nat): int
  {
    var end := if j.backingSectors.Some? && !PastBacking(j, pos) then Min(j.backingSectors.value, |Source(j)|)
               else |Source(j)|;
    Min(end - pos, REQUEST_MAX_SECTORS)
  }

  /** How the copy deals with sectors of which the block status is known: zeroes need not be copied
      where the target shows its backing file or what is past its end, and what is in no source
      image is left to the backing file, if there is one. */
  ghost predicate StatusFits(j: Job, pos: nat, a: Answer, status: Status)
  {
    match status
    case Zero => a.zero && !PastBacking(j, pos)
    case Backing => if a.zero then PastBacking(j, pos) else !a.data && j.hasBacking
    case Data => !a.zero && (a.data || !j.hasBacking)
  }

  /** An answer is not used up to the middle of a source block, unless it does not reach any
      further than that; nothing else of it is thrown away. */
  ghost predicate Trimmed(j: Job, pos: nat, count: nat, n: nat)
  {
    exists k: nat {:trigger Offset(j.parts, k)} ::
      && k < |j.parts| && k < |j.srcAlignment| && j.srcAlignment[k] > 0
      && Offset(j.parts, k) <= pos < Offset(j.parts, k) + |j.parts[k]|
      && (if (pos - Offset(j.parts, k) + n) % j.srcAlignment[k] == 0 then n <= count < n + j.srcAlignment[k]
          else n == count < j.srcAlignment[k])
  }

  lemma TailCut(j: Job, pos: nat, count: nat, k: nat, n: nat)
    requires k < |j.parts| && k < |j.srcAlignment| && j.srcAlignment[k] > 0
    requires Offset(j.parts, k) <= pos < Offset(j.parts, k) + |j.parts[k]|
    requires var tail := (pos - Offset(j.parts, k) + count) % j.srcAlignment[k];
             n == if count > tail then count - tail else count
    ensures Trimmed(j, pos, count, n)
  {
    AlignDown(pos - Offset(j.parts, k) + count, j.srcAlignment[k]);
  }

  /** The part of ImgConvertState that remembers the last block status. */
  class StatusCache {
    const job: Job
    const blockStatus: (nat, nat) -> Option<Answer>   // sector and length; None is an error
    var status: Status
    var nextStatus: nat                               // s->sector_next_status

    constructor (job: Job, blockStatus: (nat, nat) -> Option<Answer>)
      ensures this.job == job && this.blockStatus == blockStatus && nextStatus == 0
    {
      this.job := job;
      this.blockStatus := blockStatus;
      status, nextStatus := Data, 0;
    }

    /** The cached status holds for the sectors from `pos` on that it is cached for. */
    ghost predicate Valid(pos: nat)
      reads this
    {
      && GoodJob(job) && pos <= |Source(job)| && nextStatus <= |Source(job)|
      && (forall p: nat, n: nat {:trigger blockStatus(p, n)} ::
            n >= 1 && p + n <= |Source(job)| && blockStatus(p, n).Some? ==>
              GoodAnswer(job, p, n, blockStatus(p, n).value))
      && (nextStatus > pos ==> StatusHolds(job, status, pos, nextStatus - pos))
    }

    /** The largest request that does not cross the end of the target's backing file. */
    method RequestLimit(sectorNum: nat) returns (n: nat, postBackingZero: bool)
      requires GoodJob(job) && sectorNum < |Source(job)|
      ensures 1 <= n <= |Source(job)| - sectorNum && n == Limit(job, sectorNum)
      ensures postBackingZero <==> PastBacking(job, sectorNum)
      ensures postBackingZero ==> job.hasBacking && ZeroIn(job.before, sectorNum, sectorNum + n)
    {
      var total := TotalSectors();
      n := Min(total - sectorNum, REQUEST_MAX_SECTORS);
      postBackingZero := false;
      if job.backingSectors.Some? {
        if sectorNum >= job.backingSectors.value {
          postBackingZero := true;
        } else if sectorNum + n > job.backingSectors.value {
          n := job.backingSectors.value - sectorNum;
        }
      }
    }

    method TotalSectors() returns (total: nat)
      ensures total == |Source(job)|
    {
      total := 0;
      assert job.parts[..0] == [] && job.parts[..|job.parts|] == job.parts;
      for k := 0 to |job.parts|
        invariant total == Offset(job.parts, k)
      {
        PartAt(job.parts, k);
        total := total + |job.parts[k]|;
      }
    }

    /** Ask for the status at `sectorNum` and remember it. */
    method Refill(sectorNum: nat, limit: nat, postBackingZero: bool) returns (ok: bool, n: nat)
      requires Valid(sectorNum) && sectorNum < |Source(job)| && 1 <= limit <= |Source(job)| - sectorNum
      requires postBackingZero ==> job.hasBacking && ZeroIn(job.before, sectorNum, sectorNum + limit)
      modifies this
      ensures ok ==> Valid(sectorNum) && nextStatus == sectorNum + n && 1 <= n <= limit
      ensures !ok <==> blockStatus(sectorNum, limit).None?
      ensures ok && (postBackingZero <==> PastBacking(job, sectorNum)) ==>
                StatusFits(job, sectorNum, blockStatus(sectorNum, limit).value, status)
      ensures ok ==> Trimmed(job, sectorNum, blockStatus(sectorNum, limit).value.count, n)
    {
      hide Concat;
      var answer := blockStatus(sectorNum, limit);
      if answer.None? {
        return false, 0;
      }
      var a := answer.value;
      n := a.count;
      var cur, offset := SelectPart(job.parts, sectorNum);
      var tail := (sectorNum - offset + n) % job.srcAlignment[cur];
      if n > tail {
        n := n - tail;
      }
      TailCut(job, sectorNum, a.count, cur, n);
      if a.zero {
        status := if postBackingZero then Backing else Zero;
      } else if a.data {
        status := Data;
      } else {
        status := if job.hasBacking then Backing else Data;
      }
      nextStatus := sectorNum + n;
      ok := true;
    }

    /** `convert_iteration_sectors`: at least one sector, never past the end, and what the
        status says holds for all of them.  Whole clusters are taken for compressed targets. */
    method IterationSectors(sectorNum: nat) returns (ok: bool, n: nat)
      requires Valid(sectorNum) && sectorNum < |Source(job)|
      modifies this
      ensures (forall p: nat, m: nat {:trigger blockStatus(p, m)} :: blockStatus(p, m).Some?) ==> ok
      ensures ok ==> 1 <= n <= |Source(job)| - sectorNum
      ensures ok ==> StatusHolds(job, status, sectorNum, n)
      ensures ok ==> (status == Data ==> n <= job.bufSectors)
      ensures !ok <==> old(nextStatus) <= sectorNum && blockStatus(sectorNum, Limit(job, sectorNum)).None?
      ensures ok && !job.compressed && old(nextStatus) > sectorNum ==> status == old(status)
      ensures ok && !job.compressed && old(nextStatus) <= sectorNum ==>
                StatusFits(job, sectorNum, blockStatus(sectorNum, Limit(job, sectorNum)).value, status)
      ensures ok && old(nextStatus) <= sectorNum ==>
                && nextStatus > sectorNum
                && Trimmed(job, sectorNum, blockStatus(sectorNum, Limit(job, sectorNum)).value.count,
                           nextStatus - sectorNum)
      ensures ok && !job.compressed ==>
                n == Limit(job, sectorNum) || sectorNum + n == nextStatus || (status == Data && n == job.bufSectors)
      ensures ok && job.compressed ==> n % job.clusterSectors == 0 || sectorNum + n == |Source(job)|
      ensures ok ==> forall p: nat :: sectorNum <= p <= sectorNum + n ==> Valid(p)
    {
      hide Concat;
      var limit, postBackingZero := RequestLimit(sectorNum);
      n := limit;
      ok := true;
      if nextStatus <= sectorNum {
        ok, n := Refill(sectorNum, limit, postBackingZero);
        if !ok {
          return;
        }
      }
      n := Min(n, nextStatus - sectorNum);
      StatusPart(job, status, sectorNum, nextStatus, sectorNum, sectorNum + n);
      if status == Data {
        n := Min(n, job.bufSectors);
      }
      if job.compressed {
        n := WholeClusters(sectorNum, n);
      }
      forall p: nat | sectorNum <= p <= sectorNum + n ensures Valid(p) {
        ValidLater(sectorNum, p);
      }
    }

    /** Compressed images are written in complete clusters. */
    method WholeClusters(sectorNum: nat, some: nat) returns (n: nat)
      requires Valid(sectorNum) && job.compressed && 1 <= some && sectorNum + some <= nextStatus
      modifies `status
      ensures Valid(sectorNum) && 1 <= n <= |Source(job)| - sectorNum
      ensures StatusHolds(job, status, sectorNum, n) && (status == Data && old(status) != Data ==> n <= job.bufSectors)
      ensures n <= some || n <= job.bufSectors
      ensures some < job.clusterSectors ==> status == Data && n == Min(job.clusterSectors, |Source(job)| - sectorNum)
      ensures some >= job.clusterSectors ==> status == old(status) && n <= some < n + job.clusterSectors
      ensures n % job.clusterSectors == 0 || sectorNum + n == |Source(job)|
    {
      hide Concat;
      var total := TotalSectors();
      if some < job.clusterSectors {
        n := Min(job.clusterSectors, total - sectorNum);
        status := Data;
      } else {
        AlignDown(some, job.clusterSectors);
        n := some - some % job.clusterSectors;
        StatusPart(job, status, sectorNum, nextStatus, sectorNum, sectorNum + n);
      }
    }

    lemma ValidLater(pos: nat, p: nat)
      requires Valid(pos) && pos <= p <= |Source(job)|
      ensures Valid(p)
    {
      if nextStatus > p {
        StatusPart(job, status, pos, nextStatus, p, nextStatus);
      }
    }
  }

  // ---------------------------------------------------------------------------
  // Writing
  // ---------------------------------------------------------------------------

  class Target {
    var content: seq<Sector>

    constructor (content: seq<Sector>)
      ensures this.content == content
    {
      this.content := content;
    }

    /** `blk_co_pwrite` and `blk_co_pwrite_zeroes`; a failed write may leave anything in the
        sectors it was meant for. */
    method Write(pos: nat, data: seq<Sector>, mayFail: bool) returns (ok: bool)
      requires pos + |data| <= |content|
      modifies this
      ensures !mayFail ==> ok
      ensures |content| == |old(content)| && OnlyWithin(old(content), content, pos, pos + |data|)
      ensures ok ==> content == Overwrite(old(content), pos, data)
    {
      ok := *;
      ok := ok || !mayFail;
      if ok {
        content := Overwrite(content, pos, data);
      } else {
        var garbage: seq<Sector> := *;
        if |garbage| == |data| {
          content := Overwrite(content, pos, garbage);
        }
      }
    }
  }

  /** Nothing outside `[from, until)` has changed. */
  ghost predicate OnlyWithin(s: seq<Sector>, s': seq<Sector>, from: nat, until: nat)
  {
    |s'| == |s| && forall x :: 0 <= x < |s| && !(from <= x < until) ==> s'[x] == s[x]
  }

  /** What a reader shall find in the target after `n` sectors of the given status were written. */
  ghost function Wanted(j: Job, status: Status, pos: nat, n: nat, buf: seq<Sector>): seq<Sector>
    requires pos + n <= |j.before| && (status == Data ==> |buf| == n)
  {
    match status
    case Data => buf
    case Zero => Zeroes(n)
    case Backing => j.before[pos..pos + n]
  }

  /** The piece that one iteration of `convert_co_write` deals with, and whether its data has
      to be written. */
  method NextPiece(j: Job, status: Status, pos: nat, left: nat, buf: seq<Sector>) returns (n: nat, write: bool)
    requires j.alignment > 0 && left > 0 && (status == Data ==> |buf| == left)
    ensures 1 <= n <= left
    ensures write ==> status == Data
    ensures status == Data && !write ==> AllZero(buf[..n])
    ensures status == Data && j.minSparse != 0 ==> (write <==> !AllZero(buf[..n]))
    ensures status == Data && j.compressed ==> n == left
    ensures status == Data && j.minSparse == 0 ==> write && n == left
  {
    n, write := left, false;
    if status == Data {
      if j.minSparse == 0 {
        write := true;
      } else if !j.compressed {
        write, n := IsAllocatedSectorsMin(buf, j.minSparse, pos, j.alignment);
      } else {
        var k := 0;
        while k < left && buf[k] == ZERO
          invariant k <= left && AllZero(buf[..k])
        {
          k := k + 1;
        }
        write := k < left;
        assert write ==> buf[..n][k] != ZERO;
        assert buf[..n] == buf;
      }
    }
  }

  lemma GoodTarget(j: Job)
    requires GoodJob(j)
    ensures j.alignment > 0 && (j.zeroInit ==> !j.hasBacking && AllZero(j.before))
  {}

  lemma WantedLength(j: Job, status: Status, pos: nat, n: nat, buf: seq<Sector>)
    requires pos + n <= |j.before| && (status == Data ==> |buf| == n)
    ensures |Wanted(j, status, pos, n, buf)| == n
  {}

  lemma SliceEqual(a: seq<Sector>, b: seq<Sector>, from: nat, until: nat)
    requires from <= until <= |a| == |b| && a[from..until] == b[from..until]
    ensures forall i :: from <= i < until ==> a[i] == b[i]
  {
    forall i | from <= i < until ensures a[i] == b[i] { assert a[from..until][i - from] == b[from..until][i - from]; }
  }

  /** After one iteration a reader finds what was wanted in the piece it dealt with. */
  lemma PieceDone(j: Job, status: Status, start: nat, size: nat, buf: seq<Sector>, before: seq<Sector>,
                  after: seq<Sector>, done: nat, n: nat, write: bool)
    requires start + size <= |j.before| == |before| && (status == Data ==> |buf| == size) && done + n <= size
    requires forall i :: start + done <= i < start + size ==> before[i] == j.before[i]
    requires j.zeroInit ==> AllZero(j.before)
    requires status == Data && !write ==> AllZero(buf[done..][..n])
    requires write ==> status == Data
    requires after == if status == Backing || (!write && j.zeroInit) then before
                      else Overwrite(before, start + done, if write then buf[done..done + n] else Zeroes(n))
    ensures |after| == |before| && OnlyWithin(before, after, start + done, start + done + n)
    ensures |Wanted(j, status, start, size, buf)| == size
    ensures forall i :: done <= i < done + n ==> after[start + i] == Wanted(j, status, start, size, buf)[i]
  {
    forall i | done <= i < done + n ensures after[start + i] == Wanted(j, status, start, size, buf)[i] {
      assert status == Data && !write ==> buf[done..][..n][i - done] == ZERO;
    }
  }

  /** The first `done` sectors of the request have been dealt with, nothing else has changed. */
  ghost predicate WrittenSoFar(orig: seq<Sector>, cur: seq<Sector>, start: nat, done: nat, want: seq<Sector>)
  {
    && done <= |want| && start + |want| <= |orig| && OnlyWithin(orig, cur, start, start + done)
    && forall i :: 0 <= i < done ==> cur[start + i] == want[i]
  }

  lemma WrittenMore(orig: seq<Sector>, cur: seq<Sector>, cur': seq<Sector>, start: nat, done: nat, n: nat,
                    want: seq<Sector>)
    requires WrittenSoFar(orig, cur, start, done, want) && done + n <= |want|
    requires OnlyWithin(cur, cur', start + done, start + done + n)
    ensures OnlyWithin(orig, cur', start, start + |want|)
    ensures (forall i :: done <= i < done + n ==> cur'[start + i] == want[i]) ==>
              WrittenSoFar(orig, cur', start, done + n, want)
  {}

  lemma WrittenAll(orig: seq<Sector>, cur: seq<Sector>, start: nat, want: seq<Sector>)
    requires WrittenSoFar(orig, cur, start, |want|, want)
    ensures cur == Overwrite(orig, start, want) && OnlyWithin(orig, cur, start, start + |want|)
  {}

  /** `convert_co_write`: every sector of the request is dealt with once, and afterwards a
      reader finds what was wanted there; nothing else changes, even if a write fails. */
  method CoWrite(j: Job, t: Target, sectorNum: nat, nbSectors: nat, buf: seq<Sector>, status: Status, mayFail: bool)
    returns (ok: bool)
    requires GoodJob(j) && sectorNum + nbSectors <= |t.content| == |j.before|
    requires (status == Data ==> |buf| == nbSectors) && (status == Backing ==> j.hasBacking)
    requires t.content[sectorNum..sectorNum + nbSectors] == j.before[sectorNum..sectorNum + nbSectors]
    modifies t
    ensures OnlyWithin(old(t.content), t.content, sectorNum, sectorNum + nbSectors) && (!mayFail ==> ok)
    ensures ok ==> t.content == Overwrite(old(t.content), sectorNum, Wanted(j, status, sectorNum, nbSectors, buf))
  {
    hide Wanted;
    hide GoodJob;
    hide WrittenSoFar;
    GoodTarget(j);
    WantedLength(j, status, sectorNum, nbSectors, buf);
    SliceEqual(t.content, j.before, sectorNum, sectorNum + nbSectors);
    ghost var orig, want := t.content, Wanted(j, status, sectorNum, nbSectors, buf);
    var done := 0;
    WrittenNothing(orig, sectorNum, want);
    while done < nbSectors
      invariant done <= nbSectors && |t.content| == |orig| && WrittenSoFar(orig, t.content, sectorNum, done, want)
    {
      ghost var before := t.content;
      var n, write;
      ok, n, write := WriteOne(j, t, sectorNum, nbSectors, buf, status, done, mayFail);
      WrittenMore(orig, before, t.content, sectorNum, done, n, want);
      if !ok {
        return;
      }
      UntouchedRest(orig, before, j.before, sectorNum, done, want);
      PieceDone(j, status, sectorNum, nbSectors, buf, before, t.content, done, n, write);
      done := done + n;
    }
    WrittenAll(orig, t.content, sectorNum, want);
    ok := true;
  }

  lemma WrittenNothing(orig: seq<Sector>, start: nat, want: seq<Sector>)
    requires start + |want| <= |orig|
    ensures WrittenSoFar(orig, orig, start, 0, want)
  {}

  lemma UntouchedRest(orig: seq<Sector>, cur: seq<Sector>, first: seq<Sector>, start: nat, done: nat, want: seq<Sector>)
    requires WrittenSoFar(orig, cur, start, done, want) && |first| == |orig|
    requires forall i :: start <= i < start + |want| ==> orig[i] == first[i]
    ensures forall i :: start + done <= i < start + |want| ==> cur[i] == first[i]
  {}

  /** One iteration of `convert_co_write`. */
  method WriteOne(j: Job, t: Target, sectorNum: nat, nbSectors: nat, buf: seq<Sector>, status: Status, done: nat,
                  mayFail: bool)
    returns (ok: bool, n: nat, write: bool)
    requires j.alignment > 0 && (j.zeroInit ==> !j.hasBacking)
    requires sectorNum + nbSectors <= |t.content| && done < nbSectors
    requires (status == Data ==> |buf| == nbSectors) && (status == Backing ==> j.hasBacking)
    modifies t
    ensures 1 <= n <= nbSectors - done && (write ==> status == Data) && (!mayFail ==> ok)
    ensures status == Data && !write ==> AllZero(buf[done..][..n])
    ensures OnlyWithin(old(t.content), t.content, sectorNum + done, sectorNum + done + n)
    ensures ok && (status == Backing || (!write && j.zeroInit)) ==> t.content == old(t.content)
    ensures ok && !(status == Backing || (!write && j.zeroInit)) ==>
              t.content == Overwrite(old(t.content), sectorNum + done, if write then buf[done..done + n] else Zeroes(n))
  {
    ok := true;
    n, write := NextPiece(j, status, sectorNum + done, nbSectors - done, if status == Data then buf[done..] else []);
    if status == Backing {
      assert j.hasBacking;
    } else if write {
      ok := t.Write(sectorNum + done, buf[done..done + n], mayFail);
    } else if j.zeroInit {
      assert !j.hasBacking;
    } else {
      ok := t.Write(sectorNum + done, Zeroes(n), mayFail);
    }
  }
}
