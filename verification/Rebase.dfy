/** Moving an image to another backing file without changing what it shows
    (`qemu/qemu-img.c`, `img_rebase`). */
module Rebase {

  import opened Wrappers
  import opened Align
  import opened Compare

  /** What the overlay holds itself; the rest shows through from its backing file. */
  type Clusters = seq<Option<Byte>>

  /** A backing file that is too short reads as zeroes. */
  function ByteAt(backing: seq<Byte>, x: nat): Byte
  {
    if x < |backing| then backing[x] else 0
  }

  function View(data: Clusters, backing: seq<Byte>, x: nat): Byte
    requires x < |data|
  {
    if data[x].Some? then data[x].value else ByteAt(backing, x)
  }

  /** A reader sees no difference. */
  ghost predicate SameView(data: Clusters, data': Clusters, backing: seq<Byte>, backing': seq<Byte>)
  {
    |data'| == |data| && forall x: nat :: x < |data| ==> View(data', backing', x) == View(data, backing, x)
  }

  // ---------------------------------------------------------------------------
  // Blocks
  // ---------------------------------------------------------------------------

  /** The overlay allocates whole blocks of `a` bytes. */
  ghost predicate AlignedAlloc(data: Clusters, a: nat)
    requires a > 0
  {
    forall x: nat, y: nat :: x < |data| && y < |data| && x / a == y / a ==> data[x].Some? == data[y].Some?
  }

  /** `[from, until)` is made of whole blocks, but for the end of the image. */
  predicate WholeBlocks(from: nat, until: nat, a: nat, size: nat)
    requires a > 0
  {
    from % a == 0 && from <= until <= size && (until % a == 0 || until == size)
  }

  lemma BlockStart(x: nat, a: nat)
    requires a > 0
    ensures a * (x / a) <= x < a * (x / a) + a && (a * (x / a)) % a == 0
  {
    MultipleOf(a, x / a);
  }

  lemma BlockOf(b: nat, x: nat, a: nat)
    requires a > 0 && b % a == 0 && b <= x < b + a
    ensures x / a == b / a
  {
    BlockStart(x, a);
    BlockStart(b, a);
    var c := a * (x / a);
    if c < b {
      CloseMultiples(a, c, b);
    } else {
      CloseMultiples(a, b, c);
      assert a * (x / a) == a * (b / a);
      SameFactor(a, x / a, b / a);
    }
  }

  lemma SameFactor(a: nat, x: nat, y: nat)
    requires a > 0 && a * x == a * y
    ensures x == y
  {
    assert a * (x - y) == 0;
    AtLeastOnce(a, x - y);
  }

  /** Bytes of one block are both inside or both outside of whole blocks. */
  lemma BlockInside(from: nat, until: nat, a: nat, size: nat, x: nat, y: nat)
    requires a > 0 && WholeBlocks(from, until, a, size) && x < size && y < size && x / a == y / a
    ensures from <= x < until <==> from <= y < until
  {
    var b := a * (x / a);
    BlockStart(x, a);
    BlockStart(y, a);
    if from <= x < until { MultipleBelow(a, from, b, x); MultipleAbove(a, until, b, x, size); }
    if from <= y < until { MultipleBelow(a, from, b, y); MultipleAbove(a, until, b, y, size); }
  }

  lemma MultipleBelow(a: nat, from: nat, b: nat, x: nat)
    requires a > 0 && from % a == 0 && b % a == 0 && from <= x < b + a && b <= x
    ensures from <= b
  {
    if b < from { CloseMultiples(a, b, from); }
  }

  lemma MultipleAbove(a: nat, until: nat, b: nat, x: nat, size: nat)
    requires a > 0 && b % a == 0 && b <= x < until && (until % a == 0 || until == size)
    ensures b + a <= until || until == size
  {
    if until % a == 0 && until < b + a { CloseMultiples(a, b, until); }
  }

  /** Allocating whole blocks keeps the allocation in whole blocks. */
  lemma StillAligned(data: Clusters, data': Clusters, from: nat, until: nat, a: nat)
    requires a > 0 && AlignedAlloc(data, a) && |data'| == |data| && WholeBlocks(from, until, a, |data|)
    requires forall x: nat :: x < |data| ==> data'[x].Some? == (data[x].Some? || from <= x < until)
    ensures AlignedAlloc(data', a)
  {
    forall x: nat, y: nat | x < |data| && y < |data| && x / a == y / a ensures data'[x].Some? == data'[y].Some? {
      BlockInside(from, until, a, |data|, x, y);
    }
  }

  // ---------------------------------------------------------------------------
  // The overlay
  // ---------------------------------------------------------------------------

  /** `data` with `bytes` stored at `pos`. */
  function Stored(data: Clusters, pos: nat, bytes: seq<Byte>): Clusters
    requires pos + |bytes| <= |data|
  {
    seq(|data|, i requires 0 <= i < |data| => if pos <= i < pos + |bytes| then Some(bytes[i - pos]) else data[i])
  }

  class Overlay {
    var data: Clusters

    constructor (data: Clusters)
      ensures this.data == data
    {
      this.data := data;
    }

    /** `blk_pwrite` and `blk_pwrite_zeroes`.  A write that fails, or is cut short by a crash,
        may have stored any of its bytes. */
    method Write(pos: nat, bytes: seq<Byte>, mayFail: bool) returns (ok: bool)
      requires pos + |bytes| <= |data|
      modifies this
      ensures |data| == |old(data)| && (!mayFail ==> ok)
      ensures ok ==> data == Stored(old(data), pos, bytes)
      ensures forall x: nat :: x < |data| ==>
                data[x] == old(data)[x] || (pos <= x < pos + |bytes| && data[x] == Some(bytes[x - pos]))
    {
      ok := *;
      ok := ok || !mayFail;
      var done := Stored(data, pos, bytes);
      if ok {
        data := done;
      } else {
        var was := data;
        var kept: set<nat> := *;
        data := seq(|was|, i requires 0 <= i < |was| => if i in kept then was[i] else done[i]);
      }
    }

    /** `bdrv_is_allocated`: an answer for some bytes from `offset` on, not necessarily all that
        it could be given for unless queries are `full`. */
    method IsAllocated(offset: nat, bytes: nat, full: bool) returns (used: bool, n: nat)
      requires bytes > 0 && offset + bytes <= |data|
      ensures 1 <= n <= bytes
      ensures forall x: nat :: offset <= x < offset + n ==> data[x].Some? == used
      ensures full ==> n == bytes || data[offset + n].Some? != used
    {
      used := data[offset].Some?;
      n := 1;
      while n < bytes && data[offset + n].Some? == used
        invariant 1 <= n <= bytes
        invariant forall x: nat :: offset <= x < offset + n ==> data[x].Some? == used
      {
        n := n + 1;
        if !full {
          if * {
            break;
          }
        }
      }
    }
  }

  // ---------------------------------------------------------------------------
  // Copying what the new backing file would change
  // ---------------------------------------------------------------------------

  function Chunk(backing: seq<Byte>, start: nat, n: nat): (buf: seq<Byte>)
    ensures |buf| == n
  {
    seq(n, i requires 0 <= i < n => ByteAt(backing, start + i))
  }

  /** The bytes from `from` to `until` need no backing file, or either will do. */
  ghost predicate Settled(data: Clusters, older: seq<Byte>, newer: seq<Byte>, from: nat, until: nat)
  {
    forall x: nat :: from <= x < until && x < |data| ==> data[x].Some? || ByteAt(older, x) == ByteAt(newer, x)
  }

  /** Bytes outside of `[from, until)` are as they were. */
  ghost predicate OnlyIn(data: Clusters, data': Clusters, from: nat, until: nat)
  {
    |data'| == |data| && forall x: nat :: x < |data| && !(from <= x < until) ==> data'[x] == data[x]
  }

  /** The backing files differ somewhere in the block of byte `x`. */
  ghost predicate BlockDiffers(older: seq<Byte>, newer: seq<Byte>, a: nat, size: nat, x: nat)
    requires a > 0
  {
    exists y: nat :: y < size && y / a == x / a && ByteAt(older, y) != ByteAt(newer, y)
  }

  /** What `data'` holds and `data` does not lies in blocks in which the backing files differ. */
  ghost predicate GrowsWhereDifferent(data: Clusters, data': Clusters, older: seq<Byte>, newer: seq<Byte>, a: nat)
    requires a > 0
  {
    |data'| == |data| && forall x: nat {:trigger data'[x]} :: x < |data| && data[x].None? && data'[x].Some? ==>
      BlockDiffers(older, newer, a, |data|, x)
  }

  lemma NoGrowth(data: Clusters, older: seq<Byte>, newer: seq<Byte>, a: nat)
    requires a > 0
    ensures GrowsWhereDifferent(data, data, older, newer, a)
  {}

  lemma GrowthTransitive(a: Clusters, b: Clusters, c: Clusters, older: seq<Byte>, newer: seq<Byte>, align: nat)
    requires align > 0
    requires GrowsWhereDifferent(a, b, older, newer, align) && GrowsWhereDifferent(b, c, older, newer, align)
    ensures GrowsWhereDifferent(a, c, older, newer, align)
  {
    hide BlockDiffers;
    forall x: nat | x < |a| && a[x].None? && c[x].Some? ensures BlockDiffers(older, newer, align, |a|, x) {
      if b[x].Some? { assert BlockDiffers(older, newer, align, |a|, x); }
    }
  }

  /** A piece that is stored differs in each of its blocks. */
  lemma PieceDiffers(before: Clusters, data: Clusters, older: seq<Byte>, newer: seq<Byte>,
                     start: nat, n: nat, written: nat, pnum: nat, a: nat, p: seq<Byte>, q: seq<Byte>)
    requires a > 0 && start + n <= |before| && written + pnum <= n
    requires WholeBlocks(start + written, start + written + pnum, a, |before|)
    requires OnlyIn(before, data, start + written, start + written + pnum)
    requires p == Chunk(older, start, n)[written..] && q == Chunk(newer, start, n)[written..]
    requires forall c: nat {:trigger Differs(p, q, c, a)} :: c < pnum && c % a == 0 ==> Differs(p, q, c, a)
    ensures GrowsWhereDifferent(before, data, older, newer, a)
  {
    forall x: nat | x < |before| && before[x].None? && data[x].Some?
      ensures BlockDiffers(older, newer, a, |before|, x)
    {
      var pos := start + written;
      assert pos <= x < pos + pnum;
      var c := (x - pos) - (x - pos) % a;
      AlignDown(x - pos, a);
      ChunkDiffers(older, newer, start, n, written, c, a);
      var y: nat :| pos + c <= y < pos + c + a && y < start + n && ByteAt(older, y) != ByteAt(newer, y);
      SumOfMultiples(pos, c, a);
      BlockOf(pos + c, x, a);
      BlockOf(pos + c, y, a);
    }
  }

  lemma ChunkDiffers(older: seq<Byte>, newer: seq<Byte>, start: nat, n: nat, written: nat, c: nat, a: nat)
    requires a > 0 && written <= n
    requires Differs(Chunk(older, start, n)[written..], Chunk(newer, start, n)[written..], c, a)
    ensures exists y: nat :: start + written + c <= y < start + written + c + a && y < start + n &&
              ByteAt(older, y) != ByteAt(newer, y)
  {
    var p, q := Chunk(older, start, n)[written..], Chunk(newer, start, n)[written..];
    var end := Min(c + a, |p|);
    var i :| 0 <= i < end - c && p[c..end][i] != q[c..end][i];
    var y := start + written + c + i;
    assert p[c..end][i] == ByteAt(older, y) && q[c..end][i] == ByteAt(newer, y);
  }

  /** Store what the old backing file shows at `[pos, pos + n)`; `eof` if it has ended there. */
  method StorePiece(ov: Overlay, older: seq<Byte>, pos: nat, n: nat, eof: bool, mayFail: bool) returns (ok: bool)
    requires pos + n <= |ov.data| && (eof ==> pos >= |older|)
    requires forall x: nat :: pos <= x < pos + n ==> ov.data[x].None?
    modifies ov
    ensures OnlyIn(old(ov.data), ov.data, pos, pos + n) && SameView(old(ov.data), ov.data, older, older)
    ensures !mayFail ==> ok
    ensures ok ==> forall x: nat :: x < |ov.data| ==> ov.data[x].Some? == (old(ov.data)[x].Some? || pos <= x < pos + n)
  {
    var bytes := if eof then seq(n, i => 0) else Chunk(older, pos, n);
    ok := ov.Write(pos, bytes, mayFail);
  }

  /** The inner loop: every block of the unallocated region in which the backing files differ
      gets what the old one shows there. */
  method CopyDifferences(ov: Overlay, older: seq<Byte>, newer: seq<Byte>, start: nat, n: nat, writeAlign: nat,
                         mayFail: bool)
    returns (ok: bool)
    requires writeAlign > 0 && 0 < n <= IO_BUF_SIZE && start + n <= |ov.data|
    requires WholeBlocks(start, start + n, writeAlign, |ov.data|)
    requires forall x: nat :: start <= x < start + n ==> ov.data[x].None?
    modifies ov
    ensures OnlyIn(old(ov.data), ov.data, start, start + n) && SameView(old(ov.data), ov.data, older, older)
    ensures !mayFail ==> ok
    ensures ok ==> Settled(ov.data, older, newer, start, start + n)
    ensures ok && AlignedAlloc(old(ov.data), writeAlign) ==> AlignedAlloc(ov.data, writeAlign)
    ensures GrowsWhereDifferent(old(ov.data), ov.data, older, newer, writeAlign)
  {
    hide AlignedAlloc;
    hide SameView;
    hide Settled;
    hide WholeBlocks;
    hide Differs;
    hide Chunk;
    hide GrowsWhereDifferent;
    NoGrowth(ov.data, older, newer, writeAlign);
    var bufOld, bufNew := Chunk(older, start, n), Chunk(newer, start, n);
    var eof := start >= |older|;
    var written := 0;
    Unchanged(ov.data, older, newer, start);
    while written < n
      invariant 0 <= written <= n && (written == n || written % writeAlign == 0)
      invariant eof ==> start + written >= |older|
      invariant OnlyIn(old(ov.data), ov.data, start, start + written)
      invariant SameView(old(ov.data), ov.data, older, older)
      invariant Settled(ov.data, older, newer, start, start + written)
      invariant AlignedAlloc(old(ov.data), writeAlign) ==> AlignedAlloc(ov.data, writeAlign)
      invariant GrowsWhereDifferent(old(ov.data), ov.data, older, newer, writeAlign)
    {
      var differ, pnum := CompareBuffers(bufOld[written..], bufNew[written..], writeAlign);
      ghost var before := ov.data;
      var pos := start + written;
      PieceAligned(start, written, pnum, n, writeAlign, |ov.data|);
      if differ {
        assert written + pnum <= IO_BUF_SIZE;
        ok := StorePiece(ov, older, pos, pnum, eof, mayFail);
        SameViewTransitive(old(ov.data), before, ov.data, older);
        PieceDiffers(before, ov.data, older, newer, start, n, written, pnum, writeAlign,
                     bufOld[written..], bufNew[written..]);
        GrowthTransitive(old(ov.data), before, ov.data, older, newer, writeAlign);
        if !ok {
          return;
        }
        if AlignedAlloc(before, writeAlign) {
          StillAligned(before, ov.data, pos, pos + pnum, writeAlign);
        }
      }
      PieceSettled(before, ov.data, older, newer, start, n, written, pnum, differ);
      written := written + pnum;
      if start + written >= |older| {
        eof := true;
      }
    }
    ok := true;
  }

  lemma Unchanged(data: Clusters, older: seq<Byte>, newer: seq<Byte>, start: nat)
    ensures SameView(data, data, older, older) && Settled(data, older, newer, start, start)
  {}

  lemma SameViewTransitive(a: Clusters, b: Clusters, c: Clusters, backing: seq<Byte>)
    requires SameView(a, b, backing, backing) && SameView(b, c, backing, backing)
    ensures SameView(a, c, backing, backing)
  {
    forall x: nat | x < |a| ensures View(c, backing, x) == View(a, backing, x) {
      assert View(b, backing, x) == View(a, backing, x);
    }
  }

  lemma PieceSettled(before: Clusters, data: Clusters, older: seq<Byte>, newer: seq<Byte>,
                     start: nat, n: nat, written: nat, pnum: nat, differ: bool)
    requires |data| == |before| && start + n <= |data| && written + pnum <= n
    requires Settled(before, older, newer, start, start + written)
    requires forall x: nat :: x < |data| ==>
               data[x].Some? == (before[x].Some? || (differ && start + written <= x < start + written + pnum))
    requires !differ ==> Chunk(older, start, n)[written..][..pnum] == Chunk(newer, start, n)[written..][..pnum]
    ensures Settled(data, older, newer, start, start + written + pnum)
  {
    forall x: nat | start <= x < start + written + pnum ensures data[x].Some? || ByteAt(older, x) == ByteAt(newer, x) {
      if x >= start + written && !differ {
        assert Chunk(older, start, n)[written..][..pnum][x - start - written] == ByteAt(older, x);
        assert Chunk(newer, start, n)[written..][..pnum][x - start - written] == ByteAt(newer, x);
      }
    }
  }

  lemma PieceAligned(start: nat, written: nat, pnum: nat, n: nat, a: nat, size: nat)
    requires a > 0 && WholeBlocks(start, start + n, a, size) && written % a == 0
    requires 1 <= pnum && written + pnum <= n && (written + pnum == n || pnum % a == 0)
    ensures WholeBlocks(start + written, start + written + pnum, a, size)
    ensures written + pnum == n || (written + pnum) % a == 0
  {
    SumOfMultiples(start, written, a);
    if pnum % a == 0 {
      SumOfMultiples(written, pnum, a);
      SumOfMultiples(start, written + pnum, a);
    }
  }

  // ---------------------------------------------------------------------------
  // The outer loop
  // ---------------------------------------------------------------------------

  /** Aborted stands for the failed assertion that the region to copy is unallocated, TooLong for
      a region that does not fit into the buffers. */
  datatype Outcome = Done | IoError | Aborted | TooLong

  /** An answer of `bdrv_is_allocated_above`: none of the images between the overlay and the new
      backing file has changed the `n` bytes, or one of them has.  `n` is zero past their end. */
  datatype Above = Above(changed: bool, n: nat)

  /** The images between the overlay and the new backing file: what a query answers, which bytes
      one of them has changed, and where the topmost of them ends. */
  datatype Chain = Chain(answer: (nat, nat) -> Option<Above>, changed: nat -> bool, end: nat)

  /** Where no image of the chain has changed anything, both backing files show the same; queries
      tell the truth, and fail only if they may. */
  ghost predicate GoodChain(chain: Chain, older: seq<Byte>, newer: seq<Byte>, mayFail: bool)
  {
    && (forall x: nat :: !chain.changed(x) && x < chain.end ==> ByteAt(older, x) == ByteAt(newer, x))
    && forall offset: nat, n: nat {:trigger chain.answer(offset, n)} :: n > 0 ==>
         if chain.answer(offset, n).Some? then GoodAnswer(chain, offset, n, chain.answer(offset, n).value) else mayFail
  }

  ghost predicate GoodAnswer(chain: Chain, offset: nat, n: nat, a: Above)
  {
    && a.n <= n && (a.n == 0 <==> offset >= chain.end) && (a.n == 0 ==> !a.changed)
    && (a.n > 0 ==> offset + a.n <= chain.end)
    && (forall x: nat :: offset <= x < offset + a.n ==> chain.changed(x) == a.changed)
  }

  /** Queries answer for as many bytes as they can. */
  ghost predicate FullAnswers(chain: Chain)
  {
    forall offset: nat, n: nat {:trigger chain.answer(offset, n)} :: n > 0 && chain.answer(offset, n).Some? ==>
      var a := chain.answer(offset, n).value;
      a.n == 0 || a.n == n || offset + a.n == chain.end || chain.changed(offset + a.n) != a.changed
  }

  /** A query tells the bytes before the end of the chain from those behind it. */
  predicate SameSide(chain: Option<Chain>, x: nat, y: nat)
  {
    chain.Some? ==> (x < chain.value.end <==> y < chain.value.end)
  }

  /** Byte `x` shows through from the old backing file, and nobody knows that the new one shows
      the same there. */
  ghost predicate Needs(data: Clusters, chain: Option<Chain>, x: nat)
    requires x < |data|
  {
    data[x].None? && (chain.Some? ==> chain.value.changed(x) || x >= chain.value.end)
  }

  /** The next `n` bytes have to be copied; queries would not have told of more, if they are full. */
  ghost predicate NextToCopy(data: Clusters, chain: Option<Chain>, offset: nat, n: nat, full: bool)
  {
    && 0 < n <= IO_BUF_SIZE && offset + n <= |data|
    && (forall x: nat :: offset <= x < offset + n ==> Needs(data, chain, x) && SameSide(chain, offset, x))
    && (full ==> n == IO_BUF_SIZE || offset + n == |data|
                 || !(Needs(data, chain, offset + n) && SameSide(chain, offset, offset + n)))
  }

  /** Find out how many bytes can be handled next, and whether they can be skipped. */
  method NextRegion(ov: Overlay, older: seq<Byte>, newer: seq<Byte>, chain: Option<Chain>, offset: nat, full: bool,
                    mayFail: bool)
    returns (ok: bool, skip: bool, n: nat)
    requires offset < |ov.data| && (chain.Some? ==> GoodChain(chain.value, older, newer, mayFail))
    requires chain.Some? && full ==> FullAnswers(chain.value)
    ensures !mayFail ==> ok
    ensures ok ==> 1 <= n <= |ov.data| - offset
    ensures ok && skip ==> Settled(ov.data, older, newer, offset, offset + n)
    ensures ok && skip ==> forall x: nat :: offset <= x < offset + n ==> !Needs(ov.data, chain, x)
    ensures ok && !skip ==> NextToCopy(ov.data, chain, offset, n, full)
  {
    ok := *;
    ok := ok || !mayFail;
    skip, n := false, 0;
    if !ok {
      return;                             // the metadata could not be read
    }
    skip, n := ov.IsAllocated(offset, Min(IO_BUF_SIZE, |ov.data| - offset), full);
    if skip {
      return;
    }
    if chain.Some? {
      var bytes := n;
      var answer := chain.value.answer(offset, n);
      if answer.None? {
        ok := false;
        return;
      }
      n := answer.value.n;
      if !answer.value.changed && n != 0 {
        skip := true;
        return;
      }
      if n == 0 {
        n := bytes;
      }
    }
  }

  /** Where the block of byte `x` ends. */
  function BlockEnd(x: nat, a: nat): nat
    requires a > 0
  {
    a * (x / a) + a
  }

  lemma LastBlock(end: nat, aligned: nat, a: nat)
    requires a > 0 && end > 0 && end <= aligned < end + a && aligned % a == 0
    ensures aligned == BlockEnd(end - 1, a)
  {
    var m := a * ((end - 1) / a);
    BlockStart(end - 1, a);
    NextMultiple(m, a);
    if m + a <= aligned { CloseMultiples(a, m + a, aligned); } else { CloseMultiples(a, aligned, m + a); }
  }

  /** The end of the blocks from `start` on that fit into a buffer as a whole. */
  function LastFit(start: int, a: nat): int
    requires a > 0
  {
    start + IO_BUF_SIZE - IO_BUF_SIZE % a
  }

  lemma FitsIff(start: nat, end: nat, aligned: nat, a: nat)
    requires a > 0 && start % a == 0 && end <= aligned < end + a && aligned % a == 0
    ensures aligned > start + IO_BUF_SIZE <==> end > LastFit(start, a)
  {
    AlignDown(IO_BUF_SIZE, a);
    SumOfMultiples(start, IO_BUF_SIZE - IO_BUF_SIZE % a, a);
    var last := LastFit(start, a);
    NextMultiple(last, a);
    if end <= last && aligned > last { CloseMultiples(a, last, aligned); }
    if end > last && aligned < last + a { CloseMultiples(a, last, aligned); }
  }

  /** `[offset, offset + n)` extended to whole blocks. */
  method Extend(offset: nat, n: nat, writeAlign: nat, size: nat) returns (start: nat, len: nat)
    requires writeAlign > 0 && n > 0 && offset + n <= size
    ensures start == offset - offset % writeAlign
    ensures start <= offset && offset + n <= start + len <= size && WholeBlocks(start, start + len, writeAlign, size)
    ensures start + len <= BlockEnd(offset + n - 1, writeAlign)
    ensures len > IO_BUF_SIZE <==> offset + n > LastFit(start, writeAlign) && size - start > IO_BUF_SIZE
  {
    AlignDown(offset, writeAlign);
    len := n + offset % writeAlign;
    start := offset - offset % writeAlign;
    AlignUp(start + len, writeAlign);
    var tail := (start + len) % writeAlign;
    if tail != 0 {
      len := len + writeAlign - tail;
    }
    LastBlock(offset + n, start + len, writeAlign);
    FitsIff(start, offset + n, start + len, writeAlign);
    len := Min(len, size - start);
  }

  lemma InLastBlock(y: nat, x: nat, a: nat)
    requires a > 0 && y <= x < BlockEnd(y, a)
    ensures x / a == y / a
  {
    BlockStart(y, a);
    BlockOf(a * (y / a), y, a);
    BlockOf(a * (y / a), x, a);
  }

  /** Every byte before `until` that needs the old backing file lies in a block of which nothing
      is allocated. */
  ghost predicate NeedyWhole(data: Clusters, chain: Option<Chain>, a: nat, until: nat)
    requires a > 0
  {
    forall x: nat, y: nat :: x < |data| && y < |data| && x < until && x / a == y / a && Needs(data, chain, x) ==>
      data[y].None?
  }

  /** Nothing but whole blocks can be copied. */
  ghost predicate CanCopy(data: Clusters, chain: Option<Chain>, a: nat)
    requires a > 0
  {
    NeedyWhole(data, chain, a, |data|)
  }

  /** Without a common chain that means that the overlay allocates whole blocks; with one it is
      enough if it does. */
  lemma CanCopyIff(data: Clusters, chain: Option<Chain>, a: nat)
    requires a > 0
    ensures AlignedAlloc(data, a) ==> CanCopy(data, chain, a)
    ensures chain.None? && CanCopy(data, chain, a) ==> AlignedAlloc(data, a)
  {
    if chain.None? && CanCopy(data, chain, a) {
      forall x: nat, y: nat | x < |data| && y < |data| && x / a == y / a ensures data[x].Some? == data[y].Some? {
        assert Needs(data, chain, x) <==> data[x].None?;
        assert Needs(data, chain, y) <==> data[y].None?;
      }
    }
  }

  /** Byte `s` is the first of its block that needs the old backing file. */
  ghost predicate FirstNeedy(data: Clusters, chain: Option<Chain>, a: nat, s: nat)
    requires a > 0 && s < |data|
  {
    Needs(data, chain, s) && forall x: nat :: s - s % a <= x < s ==> !Needs(data, chain, x)
  }

  /** What has to be copied from byte `s` on reaches past the last block that fits into a buffer
      together with the block of `s`, nothing of which is allocated before `s`, and the image goes
      on further than the buffer. */
  ghost predicate LongAt(data: Clusters, chain: Option<Chain>, a: nat, s: nat)
    requires a > 0 && s < |data|
  {
    var last := LastFit(s - s % a, a);
    && FirstNeedy(data, chain, a, s) && last < s + IO_BUF_SIZE && |data| - (s - s % a) > IO_BUF_SIZE
    && (forall x: nat :: s - s % a <= x < s ==> data[x].None?)
    && forall x: nat :: s <= x <= last && x < |data| ==> Needs(data, chain, x) && SameSide(chain, s, x)
  }

  /** Before `until` there is a region that does not fit into the buffers once it is extended. */
  ghost predicate LongRegion(data: Clusters, chain: Option<Chain>, a: nat, until: nat)
    requires a > 0
  {
    exists s: nat :: s < |data| && s < until && LongAt(data, chain, a, s)
  }

  /** The region that starts at `s` is too long exactly if it reaches that far. */
  lemma LongIff(data: Clusters, chain: Option<Chain>, a: nat, s: nat, n: nat, full: bool)
    requires a > 0 && n > 0 && s + n <= |data| && n <= IO_BUF_SIZE
    requires forall x: nat :: s <= x < s + n ==> Needs(data, chain, x) && SameSide(chain, s, x)
    requires forall x: nat :: s - s % a <= x < s ==> !Needs(data, chain, x)
    requires forall x: nat :: s - s % a <= x < s ==> data[x].None?
    requires full && n != IO_BUF_SIZE && s + n != |data| ==>
               !(Needs(data, chain, s + n) && SameSide(chain, s, s + n))
    ensures s + n > LastFit(s - s % a, a) && |data| - (s - s % a) > IO_BUF_SIZE ==> LongAt(data, chain, a, s)
    ensures (full || a > IO_BUF_SIZE) && LongAt(data, chain, a, s) ==> s + n > LastFit(s - s % a, a)
  {
    AlignDown(s, a);
    var last := LastFit(s - s % a, a);
    if a > IO_BUF_SIZE {
      assert IO_BUF_SIZE % a == IO_BUF_SIZE;
    } else if full && s + n < |data| {
      assert n == IO_BUF_SIZE || !(Needs(data, chain, s + n) && SameSide(chain, s, s + n));
    }
  }

  /** If a later block of the region starts a long one, then so does the region itself. */
  lemma LongFromHere(data: Clusters, chain: Option<Chain>, a: nat, s: nat, n: nat, t: nat)
    requires a > 0 && n > 0 && s + n <= |data|
    requires forall x: nat :: s <= x < s + n ==> Needs(data, chain, x) && SameSide(chain, s, x)
    requires forall x: nat :: s - s % a <= x < s ==> !Needs(data, chain, x) && data[x].None?
    requires s < t < s + n && t % a == 0 && LongAt(data, chain, a, t)
    ensures LongAt(data, chain, a, s)
  {
    AlignDown(s, a);
    var last := LastFit(s - s % a, a);
    forall x: nat | s <= x <= last && x < |data| ensures Needs(data, chain, x) && SameSide(chain, s, x) {
      if x >= t { assert SameSide(chain, t, x) && SameSide(chain, s, t); }
    }
  }

  /** A block that starts behind the block of `s`, but before the end of the blocks of
      `[s, s + n)`, starts inside of `[s, s + n)`. */
  lemma LaterStart(s: nat, n: nat, c: nat, a: nat)
    requires a > 0 && n > 0 && c % a == 0 && s - s % a < c < BlockEnd(s + n - 1, a)
    ensures s < c < s + n
  {
    hide BlockEnd;
    AlignDown(s, a);
    var end := BlockEnd(s + n - 1, a);
    EndOfBlock(s + n - 1, a);
    if c <= s { CloseMultiples(a, s - s % a, c); }
    if end < c + a { CloseMultiples(a, c, end); }
  }

  lemma EndOfBlock(x: nat, a: nat)
    requires a > 0
    ensures BlockEnd(x, a) % a == 0 && x < BlockEnd(x, a) <= x + a
  {
    BlockStart(x, a);
    NextMultiple(a * (x / a), a);
  }

  /** The first byte of a block in the region that needs copying is where the region starts, or
      the block lies inside it. */
  lemma FirstInRegion(data: Clusters, chain: Option<Chain>, a: nat, s: nat, n: nat, end: nat, t: nat)
    requires a > 0 && n > 0 && s + n <= end <= |data| && end <= BlockEnd(s + n - 1, a)
    requires forall x: nat :: s <= x < s + n ==> Needs(data, chain, x)
    requires s - s % a <= t < end && FirstNeedy(data, chain, a, t)
    requires forall x: nat :: s - s % a <= x < s ==> !Needs(data, chain, x)
    ensures t == s || (s < t < s + n && t % a == 0)
  {
    hide BlockEnd;
    var b, c := s - s % a, t - t % a;
    AlignDown(s, a);
    AlignDown(t, a);
    LaterBlock(b, t, a);
    MultipleIsStart(b, a);
    if c > b {
      LaterStart(s, n, c, a);
      assert Needs(data, chain, c);
    } else {
      assert Needs(data, chain, s);
    }
  }

  lemma MultipleIsStart(b: nat, a: nat)
    requires a > 0 && b % a == 0
    ensures b - b % a == b
  {}

  /** From the block of `offset` on the overlay is as it was. */
  ghost predicate RestUntouched(orig: Clusters, data: Clusters, a: nat, offset: nat)
    requires a > 0 && |data| == |orig|
  {
    offset < |orig| ==> forall x: nat :: offset - offset % a <= x < |orig| ==> data[x] == orig[x]
  }

  /** What the loop knows at `offset` about the overlay `data`, which was `orig` at first. */
  ghost predicate Progress(orig: Clusters, data: Clusters, older: seq<Byte>, newer: seq<Byte>, a: nat,
                           chain: Option<Chain>, strict: bool, offset: nat)
    requires a > 0
  {
    && |data| == |orig| && offset <= |orig|
    && SameView(orig, data, older, older)
    && Settled(data, older, newer, 0, offset)
    && RestUntouched(orig, data, a, offset)
    && NeedyWhole(orig, chain, a, offset)
    && (offset < |orig| ==> forall x: nat :: offset - offset % a <= x < offset ==> !Needs(orig, chain, x))
    && (strict ==> !LongRegion(orig, chain, a, offset))
  }

  lemma SkippedProgress(orig: Clusters, data: Clusters, older: seq<Byte>, newer: seq<Byte>, a: nat,
                        chain: Option<Chain>, strict: bool, offset: nat, n: nat)
    requires a > 0 && Progress(orig, data, older, newer, a, chain, strict, offset) && n > 0 && offset + n <= |data|
    requires Settled(data, older, newer, offset, offset + n)
    requires forall x: nat :: offset <= x < offset + n ==> !Needs(data, chain, x)
    ensures Progress(orig, data, older, newer, a, chain, strict, offset + n)
  {
    hide SameView;
    LaterBlock(offset, offset + n, a);
    forall x: nat | offset <= x < offset + n ensures !Needs(orig, chain, x) {
      assert !Needs(data, chain, x) && data[x] == orig[x];
    }
    if s: nat :| s < |orig| && s < offset + n && LongAt(orig, chain, a, s) {
      assert Needs(orig, chain, s);
    }
  }

  lemma LaterBlock(x: nat, y: nat, a: nat)
    requires a > 0 && x <= y
    ensures 0 <= x - x % a <= y - y % a
  {
    AlignDown(x, a);
    AlignDown(y, a);
    if y - y % a < x - x % a { CloseMultiples(a, y - y % a, x - x % a); }
  }

  lemma NextInOrig(orig: Clusters, data: Clusters, older: seq<Byte>, newer: seq<Byte>, a: nat, chain: Option<Chain>,
                   strict: bool, offset: nat, n: nat, full: bool)
    requires a > 0 && Progress(orig, data, older, newer, a, chain, strict, offset)
    requires NextToCopy(data, chain, offset, n, full)
    requires forall x: nat :: offset - offset % a <= x < offset ==> data[x].None?
    ensures NextToCopy(orig, chain, offset, n, full)
    ensures forall x: nat :: offset - offset % a <= x < offset ==> !Needs(orig, chain, x) && orig[x].None?
  {
    hide SameView;
    hide Settled;
    AlignDown(offset, a);
    forall x: nat | offset <= x < |orig| ensures data[x] == orig[x] {}
    forall x: nat | offset <= x < offset + n ensures Needs(orig, chain, x) && SameSide(chain, offset, x) {
      assert Needs(data, chain, x);
    }
  }

  /** Copying a region that fits into the buffers leaves no long region behind. */
  lemma NoLongRegion(orig: Clusters, chain: Option<Chain>, a: nat, offset: nat, n: nat, start: nat, len: nat,
                     full: bool)
    requires a > 0 && NextToCopy(orig, chain, offset, n, full) && (full || a > IO_BUF_SIZE)
    requires forall x: nat :: offset - offset % a <= x < offset ==> !Needs(orig, chain, x) && orig[x].None?
    requires start == offset - offset % a && offset + n <= start + len <= |orig|
    requires start + len <= BlockEnd(offset + n - 1, a)
    requires offset + n <= LastFit(start, a) || |orig| - start <= IO_BUF_SIZE
    requires !LongRegion(orig, chain, a, offset)
    ensures !LongRegion(orig, chain, a, start + len)
  {
    AlignDown(offset, a);
    if s: nat :| s < |orig| && s < start + len && LongAt(orig, chain, a, s) {
      if s >= start {
        FirstInRegion(orig, chain, a, offset, n, start + len, s);
        if s != offset { LongFromHere(orig, chain, a, offset, n, s); }
        LongIff(orig, chain, a, offset, n, full);
        assert false;
      }
    }
  }

  lemma CopiedProgress(orig: Clusters, data: Clusters, data': Clusters, older: seq<Byte>, newer: seq<Byte>, a: nat,
                       chain: Option<Chain>, strict: bool, offset: nat, start: nat, len: nat)
    requires a > 0 && Progress(orig, data, older, newer, a, chain, strict, offset)
    requires start == offset - offset % a && start <= offset < start + len <= |data|
    requires WholeBlocks(start, start + len, a, |data|)
    requires forall x: nat :: start <= x < start + len ==> data[x].None?
    requires OnlyIn(data, data', start, start + len) && SameView(data, data', older, older)
    requires Settled(data', older, newer, start, start + len)
    requires strict ==> !LongRegion(orig, chain, a, start + len)
    ensures Progress(orig, data', older, newer, a, chain, strict, start + len)
  {
    hide SameView;
    hide LongRegion;
    SameViewTransitive(orig, data, data', older);
    forall x: nat, y: nat | x < |orig| && y < |orig| && x < start + len && x / a == y / a && Needs(orig, chain, x)
      ensures orig[y].None?
    {
      if x >= start { BlockInside(start, start + len, a, |data|, x, y); }
    }
  }

  /** If the extended region holds an allocated byte, then a block of it is mixed. */
  lemma MixedBlock(orig: Clusters, data: Clusters, older: seq<Byte>, newer: seq<Byte>, a: nat, chain: Option<Chain>,
                   strict: bool, offset: nat, n: nat, full: bool, start: nat, len: nat, y: nat)
    requires a > 0 && Progress(orig, data, older, newer, a, chain, strict, offset)
    requires NextToCopy(data, chain, offset, n, full)
    requires start == offset - offset % a && start <= offset && offset + n <= start + len <= |data|
    requires start + len <= BlockEnd(offset + n - 1, a)
    requires start <= y < start + len && data[y].Some?
    ensures !CanCopy(orig, chain, a)
  {
    hide SameView;
    hide Settled;
    hide LongRegion;
    AlignDown(offset, a);
    if y < offset {
      BlockOf(start, y, a);
      BlockOf(start, offset, a);
      assert Needs(data, chain, offset) && data[offset] == orig[offset] && data[y] == orig[y];
      assert Needs(orig, chain, offset) && offset / a == y / a && orig[y].Some?;
    } else {
      assert !(offset <= y < offset + n) by { assert offset <= y < offset + n ==> Needs(data, chain, y); }
      InLastBlock(offset + n - 1, y, a);
      assert Needs(data, chain, offset + n - 1) && data[offset + n - 1] == orig[offset + n - 1] && data[y] == orig[y];
      assert Needs(orig, chain, offset + n - 1) && (offset + n - 1) / a == y / a && orig[y].Some?;
    }
  }

  lemma FinalProgress(orig: Clusters, data: Clusters, older: seq<Byte>, newer: seq<Byte>, a: nat, chain: Option<Chain>,
                      strict: bool)
    requires a > 0 && Progress(orig, data, older, newer, a, chain, strict, |orig|)
    ensures SameView(orig, data, older, newer) && CanCopy(orig, chain, a)
    ensures strict ==> !LongRegion(orig, chain, a, |orig|)
  {
    hide LongRegion;
    forall x: nat | x < |orig| ensures View(data, newer, x) == View(orig, older, x) {
      assert View(data, older, x) == View(orig, older, x);
    }
  }

  /** Every region to copy consists of blocks of which nothing is allocated, and fits into the
      buffers once it is extended to whole blocks. */
  ghost predicate GetsDone(data: Clusters, chain: Option<Chain>, a: nat)
    requires a > 0
  {
    CanCopy(data, chain, a) && !LongRegion(data, chain, a, |data|)
  }

  /** The copy loop of `img_rebase`.  Whatever happens, the overlay shows the same over the old
      backing file as before, and only blocks in which the backing files differ have been stored.
      When the loop is done it shows the same over the new one.  Queries,
      reads and writes fail only if they may.  The loop stops at the assertion only if a block to
      copy is partly allocated, and at a region that is too long only if there is one; if queries
      answer for as many bytes as they can, or blocks are larger than the buffers, it gets to its
      end exactly if there is neither. */
  method CopyLoop(ov: Overlay, older: seq<Byte>, newer: seq<Byte>, chain: Option<Chain>, writeAlign: nat, full: bool,
                  mayFail: bool)
    returns (r: Outcome)
    requires writeAlign > 0 && (chain.Some? ==> GoodChain(chain.value, older, newer, mayFail))
    requires chain.Some? && full ==> FullAnswers(chain.value)
    modifies ov
    ensures SameView(old(ov.data), ov.data, older, older)
    ensures r == Done ==> SameView(old(ov.data), ov.data, older, newer)
    ensures GrowsWhereDifferent(old(ov.data), ov.data, older, newer, writeAlign)
    ensures r == IoError ==> mayFail
    ensures r == Done ==> CanCopy(old(ov.data), chain, writeAlign)
    ensures r == Aborted ==> !CanCopy(old(ov.data), chain, writeAlign)
    ensures r == TooLong ==> LongRegion(old(ov.data), chain, writeAlign, |old(ov.data)|)
    ensures !mayFail && (full || writeAlign > IO_BUF_SIZE) ==>
              (r == Done <==> GetsDone(old(ov.data), chain, writeAlign))
    ensures AlignedAlloc(old(ov.data), writeAlign) ==> r != Aborted
    ensures chain.None? && IO_BUF_SIZE % writeAlign == 0 ==>
              r != TooLong && (!mayFail ==> (r == Done <==> AlignedAlloc(old(ov.data), writeAlign)))
  {
    hide AlignedAlloc;
    hide SameView;
    hide Settled;
    hide WholeBlocks;
    hide CanCopy;
    hide LongRegion;
    hide LongAt;
    hide Progress;
    hide GoodChain;
    hide FullAnswers;
    hide NextToCopy;
    hide GrowsWhereDifferent;
    NoGrowth(ov.data, older, newer, writeAlign);
    var offset := 0;
    ghost var orig := ov.data;
    ghost var strict := full || writeAlign > IO_BUF_SIZE;
    StartProgress(orig, older, newer, writeAlign, chain, strict);
    CanCopyIff(orig, chain, writeAlign);
    if IO_BUF_SIZE % writeAlign == 0 { NeverLong(orig, writeAlign); }
    while offset < |ov.data|
      invariant |ov.data| == |orig| && offset <= |orig|
      invariant Progress(orig, ov.data, older, newer, writeAlign, chain, strict, offset)
      invariant SameView(orig, ov.data, older, older) && GrowsWhereDifferent(orig, ov.data, older, newer, writeAlign)
      decreases |orig| - offset
    {
      var ok, skip, n := NextRegion(ov, older, newer, chain, offset, full, mayFail);
      if !ok {
        return IoError;
      }
      if skip {
        SkippedProgress(orig, ov.data, older, newer, writeAlign, chain, strict, offset, n);
        offset := offset + n;
        continue;
      }
      var start, len := Extend(offset, n, writeAlign, |ov.data|);
      if !(forall x | start <= x < start + len :: ov.data[x].None?) {
        ghost var y: nat :| start <= y < start + len && ov.data[y].Some?;
        MixedBlock(orig, ov.data, older, newer, writeAlign, chain, strict, offset, n, full, start, len, y);
        return Aborted;
      }
      NextInOrig(orig, ov.data, older, newer, writeAlign, chain, strict, offset, n, full);
      RegionFits(orig, chain, writeAlign, offset, n, start, len, full);
      if len > IO_BUF_SIZE {
        return TooLong;
      }
      if mayFail {
        if * {
          return IoError;                 // a backing file could not be read
        }
      }
      ghost var before := ov.data;
      ok := CopyDifferences(ov, older, newer, start, len, writeAlign, mayFail);
      SameViewTransitive(orig, before, ov.data, older);
      GrowthTransitive(orig, before, ov.data, older, newer, writeAlign);
      if !ok {
        return IoError;
      }
      ProgressFacts(orig, before, older, newer, writeAlign, chain, strict, offset);
      if strict {
        NoLongRegion(orig, chain, writeAlign, offset, n, start, len, full);
      }
      CopiedProgress(orig, before, ov.data, older, newer, writeAlign, chain, strict, offset, start, len);
      offset := start + len;
    }
    FinalProgress(orig, ov.data, older, newer, writeAlign, chain, strict);
    r := Done;
  }

  lemma StartProgress(data: Clusters, older: seq<Byte>, newer: seq<Byte>, a: nat, chain: Option<Chain>, strict: bool)
    requires a > 0
    ensures Progress(data, data, older, newer, a, chain, strict, 0) && SameView(data, data, older, older)
  {}

  lemma ProgressFacts(orig: Clusters, data: Clusters, older: seq<Byte>, newer: seq<Byte>, a: nat, chain: Option<Chain>,
                      strict: bool, offset: nat)
    requires a > 0 && Progress(orig, data, older, newer, a, chain, strict, offset)
    ensures strict ==> !LongRegion(orig, chain, a, offset)
  {}

  /** A region that is too long is a long region of the image. */
  lemma RegionFits(orig: Clusters, chain: Option<Chain>, a: nat, offset: nat, n: nat, start: nat, len: nat, full: bool)
    requires a > 0 && NextToCopy(orig, chain, offset, n, full) && start == offset - offset % a
    requires forall x: nat :: offset - offset % a <= x < offset ==> !Needs(orig, chain, x) && orig[x].None?
    requires len > IO_BUF_SIZE <==> offset + n > LastFit(start, a) && |orig| - start > IO_BUF_SIZE
    ensures len > IO_BUF_SIZE ==> LongRegion(orig, chain, a, |orig|)
  {
    LongIff(orig, chain, a, offset, n, full);
  }

  /** Without a common chain, in an overlay that allocates whole blocks, a region is too long exactly
      if blocks do not divide the buffers and more bytes in a row are unallocated than a buffer
      holds. */
  lemma LongWithoutChain(data: Clusters, a: nat)
    requires a > 0 && AlignedAlloc(data, a)
    ensures LongRegion(data, None, a, |data|) <==> IO_BUF_SIZE % a != 0 && LongHole(data)
  {
    if s: nat :| s < |data| && LongAt(data, None, a, s) {
      LongIsHole(data, a, s);
    }
    if IO_BUF_SIZE % a == 0 { NeverLong(data, a); }
    if IO_BUF_SIZE % a != 0 && LongHole(data) {
      var p: nat :| HoleAt(data, p);
      HoleIsLong(data, a, p);
    }
  }

  /** More bytes in a row than a buffer holds are unallocated from `p` on. */
  ghost predicate HoleAt(data: Clusters, p: nat)
  {
    p + IO_BUF_SIZE < |data| && forall x: nat :: p <= x <= p + IO_BUF_SIZE ==> data[x].None?
  }

  ghost predicate LongHole(data: Clusters)
  {
    exists p: nat :: HoleAt(data, p)
  }

  lemma SameAlloc(data: Clusters, a: nat, x: nat, y: nat)
    requires a > 0 && AlignedAlloc(data, a) && x < |data| && y < |data| && x / a == y / a
    ensures data[x].Some? == data[y].Some?
  {}

  /** Without a common chain a long region starts at the start of a block. */
  lemma LongAtStart(data: Clusters, a: nat, s: nat)
    requires a > 0 && s < |data| && LongAt(data, None, a, s)
    ensures s % a == 0
  {
    var b := s - s % a;
    AlignDown(s, a);
    assert Needs(data, None, b) <==> data[b].None?;
  }

  /** Without a common chain no region is too long if blocks divide the buffers. */
  lemma NeverLong(data: Clusters, a: nat)
    requires a > 0 && IO_BUF_SIZE % a == 0
    ensures !LongRegion(data, None, a, |data|)
  {
    forall s: nat | s < |data| ensures !LongAt(data, None, a, s) {
      if LongAt(data, None, a, s) { LongAtStart(data, a, s); }
    }
  }

  lemma LongIsHole(data: Clusters, a: nat, s: nat)
    requires a > 0 && AlignedAlloc(data, a) && s < |data| && LongAt(data, None, a, s)
    ensures LongHole(data)
  {
    hide AlignedAlloc;
    LongAtStart(data, a, s);
    var last := LastFit(s, a);
    AlignDown(IO_BUF_SIZE, a);
    SumOfMultiples(s, IO_BUF_SIZE - IO_BUF_SIZE % a, a);
    forall x: nat | s <= x <= s + IO_BUF_SIZE ensures data[x].None? {
      if x > last {
        BlockOf(last, last, a);
        BlockOf(last, x, a);
        SameAlloc(data, a, last, x);
        assert Needs(data, None, last);
      } else {
        assert Needs(data, None, x);
      }
    }
    assert HoleAt(data, s);
  }

  lemma HoleIsLong(data: Clusters, a: nat, p: nat)
    requires a > 0 && AlignedAlloc(data, a) && IO_BUF_SIZE % a != 0 && HoleAt(data, p)
    ensures LongRegion(data, None, a, |data|)
  {
    hide AlignedAlloc;
    var s := p - p % a;
    AlignDown(p, a);
    var last := LastFit(s, a);
    forall x: nat | s <= x <= last && x < |data| ensures Needs(data, None, x) && SameSide(None, s, x) {
      if x < p {
        BlockOf(s, x, a);
        BlockOf(s, p, a);
        SameAlloc(data, a, x, p);
      }
    }
    assert s % a == 0 && Needs(data, None, s);
    assert LongAt(data, None, a, s);
  }

  /** If blocks divide the buffers and what needs copying is made of whole blocks, then every region
      fits. */
  lemma AlignedNeedsFit(data: Clusters, chain: Option<Chain>, a: nat)
    requires a > 0 && IO_BUF_SIZE % a == 0
    requires forall x: nat, y: nat :: x < |data| && y < |data| && x / a == y / a ==>
               (Needs(data, chain, x) <==> Needs(data, chain, y))
    ensures !LongRegion(data, chain, a, |data|)
  {
    forall s: nat | s < |data| && FirstNeedy(data, chain, a, s) ensures s % a == 0 {
      var b := s - s % a;
      AlignDown(s, a);
      BlockOf(b, b, a);
      BlockOf(b, s, a);
      assert Needs(data, chain, b) <==> Needs(data, chain, s);
    }
  }

  // ---------------------------------------------------------------------------
  // Images on which the loop stops
  // ---------------------------------------------------------------------------

  /** The assertion can fail: compressed writes are aligned to clusters, but a qcow2 image with
      subclusters allocates less.  Here every byte is a subcluster, two of them make a cluster,
      and one of the two is allocated. */
  method MixedClusterAborts() returns (r: Outcome)
    ensures r == Aborted
  {
    var ov := new Overlay([None, Some(0)]);
    ghost var data := ov.data;
    assert 0 / 2 == 1 / 2;
    assert Needs(data, None, 0) && data[1].Some?;
    assert !CanCopy(data, None, 2);
    if LongRegion(data, None, 2, |data|) {
      assert false;
    }
    r := CopyLoop(ov, [], [], None, 2, true, false);
  }

  /** An empty overlay whose clusters are larger than the buffers. */
  method LargeClusterIsTooLong() returns (r: Outcome)
    ensures r == TooLong
  {
    var a := 2 * IO_BUF_SIZE;
    var ov := new Overlay(seq(a, i => None));
    ghost var data := ov.data;
    assert HoleAt(data, 0);
    assert AlignedAlloc(data, a);
    assert IO_BUF_SIZE % a == IO_BUF_SIZE;
    LongWithoutChain(data, a);
    CanCopyIff(data, None, a);
    r := CopyLoop(ov, [], [], None, a, false, false);
  }

  const CLUSTER: nat := 64 * 1024

  /** One of the images of the chain has changed everything but the first eighth of a cluster. */
  function LateChange(end: nat): Chain
    requires end >= CLUSTER
  {
    Chain((offset: nat, n: nat) => Some(LateAnswer(offset, n, end)), (x: nat) => x >= CLUSTER / 8, end)
  }

  function LateAnswer(offset: nat, n: nat, end: nat): Above
    requires end >= CLUSTER
  {
    if offset >= end then Above(false, 0)
    else if offset >= CLUSTER / 8 then Above(true, Min(n, end - offset))
    else Above(false, Min(n, CLUSTER / 8 - offset))
  }

  /** An empty overlay with ordinary clusters; what has to be copied starts inside of the first. */
  method UnalignedChangeIsTooLong() returns (r: Outcome)
    ensures r == TooLong
  {
    var size := IO_BUF_SIZE + CLUSTER;
    var ov := new Overlay(seq(size, i => None));
    var chain := LateChange(size);
    ghost var data := ov.data;
    LateIsLong(data, size);
    r := CopyLoop(ov, [], [], Some(chain), CLUSTER, true, false);
  }

  lemma LateIsLong(data: Clusters, size: nat)
    requires size == IO_BUF_SIZE + CLUSTER == |data| && forall x: nat :: x < size ==> data[x].None?
    ensures GoodChain(LateChange(size), [], [], false) && FullAnswers(LateChange(size))
    ensures CanCopy(data, Some(LateChange(size)), CLUSTER) && LongRegion(data, Some(LateChange(size)), CLUSTER, |data|)
  {
    var chain, s := LateChange(size), CLUSTER / 8;
    assert s % CLUSTER == s && IO_BUF_SIZE % CLUSTER == 0;
    assert LongAt(data, Some(chain), CLUSTER, s);
  }
}
