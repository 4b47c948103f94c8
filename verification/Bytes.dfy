/** The machine's bytes, and runs of one byte. */
module Bytes {
  type byte = x: int | 0 <= x < 256

  const NUL: byte := 0
  const LINE_FEED: byte := 10
  const CARRIAGE_RETURN: byte := 13
  const SPACE: byte := 32

  function Spaces(n: nat): (s: seq<byte>)
    ensures |s| == n
    ensures forall i :: 0 <= i < n ==> s[i] == SPACE
  {
    seq(n, i => SPACE)
  }

  predicate NulFree(s: seq<byte>) {
    forall i :: 0 <= i < |s| ==> s[i] != NUL
  }

  /** Character `k` of a C string. */
  function CharAt(s: seq<byte>, k: int): byte
    requires 0 <= k <= |s|
  {
    if k < |s| then s[k] else NUL
  }
}
