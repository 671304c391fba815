/** Buffers of bytes or of sectors. */
module Buffers {

  predicate AllZero(s: seq<int>)
  {
    forall i :: 0 <= i < |s| ==> s[i] == 0
  }
}
