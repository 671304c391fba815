/** Comparing two images (`qemu/qemu-img.c`). */
module Compare {

  import opened Wrappers
  import opened Align
  import opened Buffers

  type Byte = int

  const SECTOR_SIZE: nat := 512
  const IO_BUF_SIZE: nat := 2 * 1024 * 1024

  // ---------------------------------------------------------------------------
  // Buffers
  // ---------------------------------------------------------------------------

  /** `find_nonzero`: the first sector boundary at which a sector, or the rest of the buffer,
      has a byte that is not zero. */
  method FindNonzero(buf: seq<Byte>) returns (idx: Option<nat>)
    ensures idx.None? <==> AllZero(buf)
    ensures idx.Some? ==> idx.value % SECTOR_SIZE == 0 && idx.value < |buf| && AllZero(buf[..idx.value])
    ensures idx.Some? ==> !AllZero(buf[idx.value..Min(idx.value + SECTOR_SIZE, |buf|)])
  {
    var end := |buf| - |buf| % SECTOR_SIZE;
    var i := 0;
    while i < end
      invariant 0 <= i <= end && i % SECTOR_SIZE == 0 && AllZero(buf[..i])
    {
      if !AllZero(buf[i..i + SECTOR_SIZE]) {
        return Some(i);
      }
      assert buf[..i + SECTOR_SIZE] == buf[..i] + buf[i..i + SECTOR_SIZE];
      i := i + SECTOR_SIZE;
    }
    if i < |buf| && !AllZero(buf[i..]) {
      assert buf[i..] == buf[i..Min(i + SECTOR_SIZE, |buf|)];
      return Some(i);
    }
    assert buf == buf[..i] + buf[i..];
    idx := None;
  }

  /** The chunks at `c` differ. */
  predicate Differs(a: seq<Byte>, b: seq<Byte>, c: nat, chsize: nat)
    requires |a| == |b|
  {
    c < |a| && a[c..Min(c + chsize, |a|)] != b[c..Min(c + chsize, |a|)]
  }

  /** `compare_buffers`: the longest prefix of chunks with the same outcome as the first. */
  method CompareBuffers(a: seq<Byte>, b: seq<Byte>, chunkSize: nat) returns (res: bool, pnum: nat)
    requires |a| == |b| > 0
    ensures var chsize := if chunkSize == 0 then SECTOR_SIZE else chunkSize;
            && 1 <= pnum <= |a| && (pnum == |a| || pnum % chsize == 0)
            && (forall c: nat {:trigger Differs(a, b, c, chsize)} ::
                  c < pnum && c % chsize == 0 ==> Differs(a, b, c, chsize) == res)
            && (pnum < |a| ==> Differs(a, b, pnum, chsize) != res)
            && (!res ==> a[..pnum] == b[..pnum])
  {
    var chsize := if chunkSize == 0 then SECTOR_SIZE else chunkSize;
    var i := Min(|a|, chsize);
    res := a[..i] != b[..i];
    assert a[0..Min(0 + chsize, |a|)] == a[..i] && b[0..Min(0 + chsize, |a|)] == b[..i];
    FirstMultiples(chsize, i);
    while i < |a|
      invariant 1 <= i <= |a| && (i == |a| || i % chsize == 0)
      invariant forall c: nat {:trigger Differs(a, b, c, chsize)} ::
                  c < i && c % chsize == 0 ==> Differs(a, b, c, chsize) == res
      invariant !res ==> a[..i] == b[..i]
    {
      var len := Min(|a| - i, chsize);
      if (a[i..i + len] != b[i..i + len]) != res {
        break;
      }
      assert a[..i + len] == a[..i] + a[i..i + len] && b[..i + len] == b[..i] + b[i..i + len];
      NextMultiples(chsize, i, len);
      i := i + len;
    }
    pnum := i;
  }

  lemma FirstMultiples(a: nat, i: nat)
    requires 0 < i <= a
    ensures i == a ==> i % a == 0
    ensures forall c: nat :: c < i && c % a == 0 ==> c == 0
  {
    MultipleOf(a, 1);
  }

  lemma NextMultiples(a: nat, i: nat, len: nat)
    requires 0 < len <= a && i % a == 0
    ensures len == a ==> (i + len) % a == 0
    ensures forall c: nat :: i <= c < i + len && c % a == 0 ==> c == i
  {
    NextMultiple(i, a);
    forall c: nat | i <= c < i + len && c % a == 0 ensures c == i {
      CloseMultiples(a, i, c);
    }
  }

  // ---------------------------------------------------------------------------
  // Images
  // ---------------------------------------------------------------------------

  /** An answer of `bdrv_block_status_above` over the whole chain of an image. */
  datatype Status = Status(data: bool, zero: bool, inChain: bool)

  datatype Answer = Answer(status: Status, pnum: nat)

  /** What an image holds, and which queries and reads of it work. */
  datatype Image = Image(content: seq<Byte>, blockStatus: (nat, nat) -> Option<Answer>, readable: (nat, nat) -> bool)

  /** An answer covers something, and what is zero or in no image of the chain reads as zeroes. */
  ghost predicate GoodAnswer(content: seq<Byte>, offset: nat, bytes: nat, a: Answer)
    requires offset + bytes <= |content|
  {
    && 1 <= a.pnum <= bytes
    && (a.status.zero || !a.status.inChain ==> AllZero(content[offset..offset + a.pnum]))
  }

  ghost predicate GoodImage(img: Image)
  {
    forall offset: nat, bytes: nat {:trigger img.blockStatus(offset, bytes)} ::
      bytes > 0 && offset + bytes <= |img.content| && img.blockStatus(offset, bytes).Some? ==>
        GoodAnswer(img.content, offset, bytes, img.blockStatus(offset, bytes).value)
  }

  /** No query fails. */
  ghost predicate NoStatusErrors(img: Image)
  {
    forall offset: nat, bytes: nat {:trigger img.blockStatus(offset, bytes)} :: img.blockStatus(offset, bytes).Some?
  }

  /** No read fails. */
  ghost predicate NoReadErrors(img: Image)
  {
    forall offset: nat, bytes: nat {:trigger img.readable(offset, bytes)} :: img.readable(offset, bytes)
  }

  ghost predicate NoErrors(img: Image)
  {
    NoStatusErrors(img) && NoReadErrors(img)
  }

  /** An image that is too short is as good as one padded with zeroes. */
  function ByteOf(img: Image, x: nat): Byte
  {
    if x < |img.content| then img.content[x] else 0
  }

  ghost predicate SameUntil(a: Image, b: Image, n: nat)
  {
    forall x: nat :: x < n ==> ByteOf(a, x) == ByteOf(b, x)
  }

  ghost predicate SameContent(a: Image, b: Image)
  {
    forall x: nat :: ByteOf(a, x) == ByteOf(b, x)
  }

  /** Exit codes of `img_compare`. */
  datatype Exit = Same | Different | StatusError | ReadError

  /** `check_empty_sectors`. */
  method CheckEmpty(img: Image, offset: nat, bytes: nat) returns (r: Exit)
    requires offset + bytes <= |img.content|
    ensures r == Same || r == Different || (r == ReadError && !img.readable(offset, bytes))
    ensures r == Same ==> AllZero(img.content[offset..offset + bytes])
    ensures r == Different ==> !AllZero(img.content[offset..offset + bytes])
  {
    if !img.readable(offset, bytes) {
      return ReadError;
    }
    var idx := FindNonzero(img.content[offset..offset + bytes]);
    r := if idx.Some? then Different else Same;
  }

  /** Compare `bytes` at `offset` that both images hold. */
  method CompareData(a: Image, b: Image, offset: nat, bytes: nat) returns (r: Exit)
    requires bytes > 0 && offset + bytes <= |a.content| && offset + bytes <= |b.content|
    ensures r == Same || r == Different ||
            (r == ReadError && !(a.readable(offset, bytes) && b.readable(offset, bytes)))
    ensures r == Same ==> a.content[offset..offset + bytes] == b.content[offset..offset + bytes]
    ensures r == Different ==> a.content[offset..offset + bytes] != b.content[offset..offset + bytes]
  {
    if !a.readable(offset, bytes) || !b.readable(offset, bytes) {
      return ReadError;
    }
    var buf1, buf2 := a.content[offset..offset + bytes], b.content[offset..offset + bytes];
    var differ, pnum := CompareBuffers(buf1, buf2, 0);
    if differ {
      assert Differs(buf1, buf2, 0, SECTOR_SIZE);
    } else if pnum != bytes {
      assert Differs(buf1, buf2, pnum, SECTOR_SIZE);
    } else {
      assert buf1 == buf1[..pnum] && buf2 == buf2[..pnum];
    }
    r := if differ || pnum != bytes then Different else Same;
  }

  /** Both images answer the query for their block status at `offset`. */
  predicate Answered(a: Image, b: Image, offset: nat)
  {
    && offset < |a.content| && offset < |b.content|
    && a.blockStatus(offset, |a.content| - offset).Some? && b.blockStatus(offset, |b.content| - offset).Some?
  }

  function StatusAt(img: Image, offset: nat): Answer
    requires offset < |img.content| && img.blockStatus(offset, |img.content| - offset).Some?
  {
    img.blockStatus(offset, |img.content| - offset).value
  }

  /** How far the comparison goes on from `offset`: as far as both answers are good for, but no
      further than a buffer if one of the images has to be read. */
  function Stride(a: Image, b: Image, offset: nat): nat
    requires Answered(a, b, offset)
  {
    var q1, q2 := StatusAt(a, offset), StatusAt(b, offset);
    var both := if q1.pnum < q2.pnum then q1.pnum else q2.pnum;
    var unread := (q1.status.zero && q2.status.zero) || (!q1.status.inChain && !q2.status.inChain);
    if !unread && both > IO_BUF_SIZE then IO_BUF_SIZE else both
  }

  /** The comparison looks at offset `x` after it has looked at `from`. */
  predicate Visits(a: Image, b: Image, from: nat, x: nat)
    decreases x - from
  {
    from == x ||
    (from < x && Answered(a, b, from) && Stride(a, b, from) > 0 && Visits(a, b, from + Stride(a, b, from), x))
  }

  /** The images have the same block status wherever the comparison looks, before `end`. */
  ghost predicate StatusesAgree(a: Image, b: Image, end: nat)
  {
    forall x: nat :: x < end && Visits(a, b, 0, x) ==>
      Answered(a, b, x) && StatusAt(a, x).status == StatusAt(b, x).status
  }

  /** The comparison looks at `offset`. */
  ghost predicate OnTrack(a: Image, b: Image, offset: nat)
  {
    forall x: nat :: x >= offset ==> (Visits(a, b, 0, x) <==> Visits(a, b, offset, x))
  }

  lemma TrackStarts(a: Image, b: Image)
    ensures OnTrack(a, b, 0) && StatusesAgree(a, b, 0)
  {}

  lemma TrackGoesOn(a: Image, b: Image, offset: nat)
    requires OnTrack(a, b, offset) && Answered(a, b, offset) && Stride(a, b, offset) > 0
    ensures OnTrack(a, b, offset + Stride(a, b, offset))
    ensures StatusesAgree(a, b, offset) && StatusAt(a, offset).status == StatusAt(b, offset).status ==>
              StatusesAgree(a, b, offset + Stride(a, b, offset))
  {
    hide Stride;
    var next := offset + Stride(a, b, offset);
    forall x: nat | x >= next ensures Visits(a, b, 0, x) <==> Visits(a, b, next, x) {
      assert Visits(a, b, offset, x) <==> Visits(a, b, next, x);
    }
    forall x: nat | offset < x < next ensures !Visits(a, b, 0, x) {
      assert !Visits(a, b, next, x);
      assert !Visits(a, b, offset, x);
    }
  }

  lemma TrackDisagrees(a: Image, b: Image, offset: nat, end: nat)
    requires OnTrack(a, b, offset) && offset < end && Answered(a, b, offset)
    requires StatusAt(a, offset).status != StatusAt(b, offset).status
    ensures !StatusesAgree(a, b, end)
  {
    assert Visits(a, b, offset, offset);
  }

  /** One round of the main loop: the part of both images that begins at `offset`. */
  method CompareChunk(a: Image, b: Image, offset: nat, strict: bool) returns (r: Exit, chunk: nat)
    requires offset < |a.content| && offset < |b.content| && GoodImage(a) && GoodImage(b)
    ensures r == Same ==> chunk > 0 && offset + chunk <= |a.content| && offset + chunk <= |b.content|
    ensures r == Same ==> a.content[offset..offset + chunk] == b.content[offset..offset + chunk]
    ensures r == StatusError <==> !Answered(a, b, offset)
    ensures r == Same ==> chunk == Stride(a, b, offset)
    ensures r == Same && strict ==> StatusAt(a, offset).status == StatusAt(b, offset).status
    ensures r == Different ==>
              (strict && StatusAt(a, offset).status != StatusAt(b, offset).status) || !SameContent(a, b)
    ensures r == ReadError ==> !(NoReadErrors(a) && NoReadErrors(b))
  {
    r, chunk := Same, 0;
    var q1 := a.blockStatus(offset, |a.content| - offset);
    if q1.None? {
      return StatusError, 0;
    }
    var q2 := b.blockStatus(offset, |b.content| - offset);
    if q2.None? {
      return StatusError, 0;
    }
    var s1, s2 := q1.value.status, q2.value.status;
    chunk := Min(q1.value.pnum, q2.value.pnum);
    if strict && s1 != s2 {
      return Different, 0;
    }
    if s1.zero && s2.zero {
      BothZero(a, b, offset, q1.value, q2.value, chunk);
    } else if s1.inChain == s2.inChain {
      if s1.inChain {
        chunk := Min(chunk, IO_BUF_SIZE);
        r := CompareData(a, b, offset, chunk);
        if r == Different { DifferentPart(a, b, offset, chunk); }
      } else {
        BothZero(a, b, offset, q1.value, q2.value, chunk);
      }
    } else {
      chunk := Min(chunk, IO_BUF_SIZE);
      if s1.inChain {
        r := CheckEmpty(a, offset, chunk);
      } else {
        r := CheckEmpty(b, offset, chunk);
      }
      OneZero(a, b, offset, q1.value, q2.value, chunk);
      if r == Different { DifferentPart(a, b, offset, chunk); }
    }
  }

  lemma ZeroPrefix(s: seq<Byte>, offset: nat, n: nat, m: nat)
    requires m <= n && offset + n <= |s| && AllZero(s[offset..offset + n])
    ensures AllZero(s[offset..offset + m])
  {
    assert s[offset..offset + m] == s[offset..offset + n][..m];
  }

  lemma BothZero(a: Image, b: Image, offset: nat, q1: Answer, q2: Answer, chunk: nat)
    requires offset < |a.content| && offset < |b.content| && chunk == Min(q1.pnum, q2.pnum)
    requires GoodAnswer(a.content, offset, |a.content| - offset, q1)
    requires GoodAnswer(b.content, offset, |b.content| - offset, q2)
    requires (q1.status.zero && q2.status.zero) || (!q1.status.inChain && !q2.status.inChain)
    ensures a.content[offset..offset + chunk] == b.content[offset..offset + chunk]
  {
    ZeroPrefix(a.content, offset, q1.pnum, chunk);
    ZeroPrefix(b.content, offset, q2.pnum, chunk);
  }

  lemma OneZero(a: Image, b: Image, offset: nat, q1: Answer, q2: Answer, chunk: nat)
    requires offset < |a.content| && offset < |b.content| && chunk <= Min(q1.pnum, q2.pnum)
    requires GoodAnswer(a.content, offset, |a.content| - offset, q1)
    requires GoodAnswer(b.content, offset, |b.content| - offset, q2)
    requires q1.status.inChain != q2.status.inChain
    ensures AllZero(if q1.status.inChain then b.content[offset..offset + chunk] else a.content[offset..offset + chunk])
    ensures a.content[offset..offset + chunk] == b.content[offset..offset + chunk] <==>
            AllZero(if q1.status.inChain then a.content[offset..offset + chunk] else b.content[offset..offset + chunk])
  {
    if q1.status.inChain {
      ZeroPrefix(b.content, offset, q2.pnum, chunk);
    } else {
      ZeroPrefix(a.content, offset, q1.pnum, chunk);
    }
  }

  lemma DifferentPart(a: Image, b: Image, offset: nat, n: nat)
    requires offset + n <= |a.content| && offset + n <= |b.content|
    requires a.content[offset..offset + n] != b.content[offset..offset + n]
    ensures !SameContent(a, b)
  {
    var i :| 0 <= i < n && a.content[offset..offset + n][i] != b.content[offset..offset + n][i];
    assert ByteOf(a, offset + i) != ByteOf(b, offset + i);
  }

  /** The rest of the longer image has to be empty. */
  method CompareRest(a: Image, b: Image, over: Image, from: nat) returns (r: Exit)
    requires GoodImage(over) && (over == a || over == b) && SameUntil(a, b, from)
    requires from == Min(|a.content|, |b.content|) && |over.content| >= |a.content| && |over.content| >= |b.content|
    ensures r == Same ==> SameContent(a, b)
    ensures r == Different ==> !SameContent(a, b)
    ensures (r == StatusError ==> !NoStatusErrors(over)) && (r == ReadError ==> !NoReadErrors(over))
  {
    var offset := from;
    while offset < |over.content|
      invariant from <= offset <= |over.content| && SameUntil(a, b, offset)
    {
      var q := over.blockStatus(offset, |over.content| - offset);
      if q.None? {
        return StatusError;
      }
      var chunk := q.value.pnum;
      if q.value.status.inChain && !q.value.status.zero {
        chunk := Min(chunk, IO_BUF_SIZE);
        r := CheckEmpty(over, offset, chunk);
        EmptyTail(a, b, over, offset, chunk);
        if r != Same {
          return;
        }
      } else {
        EmptyTail(a, b, over, offset, chunk);
      }
      offset := offset + chunk;
    }
    r := Same;
  }

  /** Past the end of the shorter image, the images agree where the longer one is empty. */
  lemma EmptyTail(a: Image, b: Image, over: Image, offset: nat, n: nat)
    requires (over == a || over == b) && |over.content| >= |a.content| && |over.content| >= |b.content|
    requires Min(|a.content|, |b.content|) <= offset && offset + n <= |over.content| && SameUntil(a, b, offset)
    ensures AllZero(over.content[offset..offset + n]) ==> SameUntil(a, b, offset + n)
    ensures !AllZero(over.content[offset..offset + n]) ==> !SameContent(a, b)
  {
    if AllZero(over.content[offset..offset + n]) {
      forall x: nat | x < offset + n ensures ByteOf(a, x) == ByteOf(b, x) {
        if x >= offset { assert over.content[offset..offset + n][x - offset] == 0; }
      }
    } else {
      var i :| 0 <= i < n && over.content[offset..offset + n][i] != 0;
      assert ByteOf(a, offset + i) != ByteOf(b, offset + i);
    }
  }

  lemma SameMore(a: Image, b: Image, offset: nat, n: nat)
    requires SameUntil(a, b, offset) && offset + n <= |a.content| && offset + n <= |b.content|
    requires a.content[offset..offset + n] == b.content[offset..offset + n]
    ensures SameUntil(a, b, offset + n)
  {
    forall x: nat | x < offset + n ensures ByteOf(a, x) == ByteOf(b, x) {
      if x >= offset {
        assert a.content[offset..offset + n][x - offset] == b.content[offset..offset + n][x - offset];
      }
    }
  }

  /** `img_compare`.  Without errors and outside strict mode, it finds the images the same exactly
      if they are, padded with zeroes to the same length.  In strict mode it finds them the same
      exactly if they have the same length and contents, and the same block status wherever the
      comparison looks.  The exit code tells whether a query or a read has failed. */
  method Compare(a: Image, b: Image, strict: bool) returns (r: Exit)
    requires GoodImage(a) && GoodImage(b)
    ensures r == Same ==> SameContent(a, b)
    ensures r == Same && strict ==> |a.content| == |b.content| && StatusesAgree(a, b, |a.content|)
    ensures r == Different && !strict ==> !SameContent(a, b)
    ensures r == Different && strict ==>
              |a.content| != |b.content| || !SameContent(a, b) || !StatusesAgree(a, b, |a.content|)
    ensures r == StatusError ==> !(NoStatusErrors(a) && NoStatusErrors(b))
    ensures r == ReadError ==> !(NoReadErrors(a) && NoReadErrors(b))
    ensures NoErrors(a) && NoErrors(b) && !strict ==> (r == Same <==> SameContent(a, b))
    ensures NoErrors(a) && NoErrors(b) && strict ==>
              (r == Same <==> |a.content| == |b.content| && SameContent(a, b) && StatusesAgree(a, b, |a.content|))
  {
    hide OnTrack;
    hide StatusesAgree;
    hide Stride;
    var total := Min(|a.content|, |b.content|);
    TrackStarts(a, b);
    if strict && |a.content| != |b.content| {
      return Different;
    }
    var offset := 0;
    while offset < total
      invariant offset <= total && SameUntil(a, b, offset)
      invariant OnTrack(a, b, offset) && (strict ==> StatusesAgree(a, b, offset))
    {
      var chunk;
      r, chunk := CompareChunk(a, b, offset, strict);
      if r != Same {
        if r == Different && SameContent(a, b) { TrackDisagrees(a, b, offset, total); }
        return;
      }
      SameMore(a, b, offset, chunk);
      TrackGoesOn(a, b, offset);
      offset := offset + chunk;
    }
    if |a.content| != |b.content| {
      var over := if |a.content| > |b.content| then a else b;
      r := CompareRest(a, b, over, offset);
      return;
    }
    r := Same;
  }
}
