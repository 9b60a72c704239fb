/** Bytes and byte-string splicing, shared by every module that moves memory. */
module Bytes {
  newtype byte = x: int | 0 <= x < 256

  /** `mem` with `data` written at `at`. */
  function Splice(mem: seq<byte>, at: nat, data: seq<byte>): (r: seq<byte>)
    requires at + |data| <= |mem|
    ensures |r| == |mem|
    ensures forall x {:trigger r[x]} | 0 <= x < |r| ::
              r[x] == if at <= x < at + |data| then data[x - at] else mem[x]
  {
    mem[..at] + data + mem[at + |data|..]
  }

  lemma SpliceRead(mem: seq<byte>, at: nat, data: seq<byte>)
    requires at + |data| <= |mem|
    ensures Splice(mem, at, data)[at..at + |data|] == data
  {}

  lemma SpliceElsewhere(mem: seq<byte>, at: nat, data: seq<byte>, lo: nat, hi: nat)
    requires at + |data| <= |mem| && lo <= hi <= |mem| && (hi <= at || at + |data| <= lo)
    ensures Splice(mem, at, data)[lo..hi] == mem[lo..hi]
  {}

  lemma SubSlice(s: seq<byte>, a: nat, b: nat, c: nat, d: nat)
    requires a <= b <= |s| && c <= d <= b - a
    ensures s[a..b][c..d] == s[a + c..a + d]
  {
    var t := s[a..b];
    assert forall i | 0 <= i < d - c :: t[c..d][i] == t[c + i] == s[a + (c + i)] == s[a + c..a + d][i];
  }
}
