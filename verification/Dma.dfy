/** The CUDA copies and fills the transfer layers issue, as exact row-wise effects on byte memory. */
module Dma {
  import opened Arith
  import opened Bytes

  /** Row r of a pitched region. */
  function At(off: nat, pitch: nat, r: nat): nat { off + r * pitch }

  predicate RowsFit(size: nat, off: nat, pitch: nat, width: nat, height: nat) {
    forall r | 0 <= r < height :: At(off, pitch, r) + width <= size
  }

  /** cudaMemcpy2D: `height` rows of `width` bytes, each with its own pitch on either side. */
  function Blit(dst: seq<byte>, doff: nat, dpitch: nat, src: seq<byte>, soff: nat, spitch: nat,
                width: nat, height: nat): (r: seq<byte>)
    requires RowsFit(|dst|, doff, dpitch, width, height) && RowsFit(|src|, soff, spitch, width, height)
    ensures |r| == |dst|
    decreases height
  {
    if height == 0 then dst
    else
      var above := Blit(dst, doff, dpitch, src, soff, spitch, width, height - 1);
      var s := At(soff, spitch, height - 1);
      Splice(above, At(doff, dpitch, height - 1), src[s..s + width])
  }

  /** Different rows are a pitch apart. */
  lemma RowStep(off: nat, pitch: nat, r: nat, q: nat)
    requires r < q
    ensures At(off, pitch, r) + pitch <= At(off, pitch, q)
  {
    assert (r + 1) * pitch == r * pitch + pitch;
    MulMono(r + 1, q, pitch);
  }

  /** Row r after a pitched copy whose rows do not overlap. */
  lemma {:induction false} BlitRow(dst: seq<byte>, doff: nat, dpitch: nat, src: seq<byte>, soff: nat, spitch: nat,
                                   width: nat, height: nat, r: nat)
    requires RowsFit(|dst|, doff, dpitch, width, height) && RowsFit(|src|, soff, spitch, width, height)
    requires width <= dpitch && r < height
    ensures At(doff, dpitch, r) + width <= |dst| && At(soff, spitch, r) + width <= |src|
    ensures Blit(dst, doff, dpitch, src, soff, spitch, width, height)[At(doff, dpitch, r)..At(doff, dpitch, r) + width]
            == src[At(soff, spitch, r)..At(soff, spitch, r) + width]
    decreases height
  {
    hide At, Splice;
    var last := height - 1;
    var d, s := At(doff, dpitch, r), At(soff, spitch, r);
    var above := Blit(dst, doff, dpitch, src, soff, spitch, width, last);
    if r == last {
      SpliceRead(above, d, src[s..s + width]);
    } else {
      BlitRow(dst, doff, dpitch, src, soff, spitch, width, last, r);
      RowStep(doff, dpitch, r, last);
      var e, t := At(doff, dpitch, last), At(soff, spitch, last);
      assert e + width <= |dst| && t + width <= |src|;
      SpliceElsewhere(above, e, src[t..t + width], d, d + width);
    }
  }

  /** A pitched copy leaves bytes outside its rows alone. */
  lemma {:induction false} BlitElsewhere(dst: seq<byte>, doff: nat, dpitch: nat, src: seq<byte>, soff: nat, spitch: nat,
                                         width: nat, height: nat, lo: nat, hi: nat)
    requires RowsFit(|dst|, doff, dpitch, width, height) && RowsFit(|src|, soff, spitch, width, height)
    requires lo <= hi <= |dst|
    requires forall r | 0 <= r < height :: hi <= At(doff, dpitch, r) || At(doff, dpitch, r) + width <= lo
    ensures Blit(dst, doff, dpitch, src, soff, spitch, width, height)[lo..hi] == dst[lo..hi]
    decreases height
  {
    hide At, Splice;
    if height > 0 {
      var last := height - 1;
      BlitElsewhere(dst, doff, dpitch, src, soff, spitch, width, last, lo, hi);
      var above := Blit(dst, doff, dpitch, src, soff, spitch, width, last);
      var e, t := At(doff, dpitch, last), At(soff, spitch, last);
      assert hi <= e || e + width <= lo;
      assert e + width <= |dst| && t + width <= |src|;
      SpliceElsewhere(above, e, src[t..t + width], lo, hi);
    }
  }

  predicate InRow(off: nat, pitch: nat, width: nat, r: nat, x: nat) {
    At(off, pitch, r) <= x < At(off, pitch, r) + width
  }

  /** Byte x after a pitched copy, when x lies in row r and when it lies in no row. */
  lemma BlitInside(dst: seq<byte>, doff: nat, dpitch: nat, src: seq<byte>, soff: nat, spitch: nat,
                   width: nat, height: nat, r: nat, x: nat)
    requires RowsFit(|dst|, doff, dpitch, width, height) && RowsFit(|src|, soff, spitch, width, height)
    requires width <= dpitch && r < height && InRow(doff, dpitch, width, r, x)
    ensures x < |dst| && At(soff, spitch, r) + width <= |src|
    ensures Blit(dst, doff, dpitch, src, soff, spitch, width, height)[x]
            == src[At(soff, spitch, r) + (x - At(doff, dpitch, r))]
  {
    hide At, Blit;
    BlitRow(dst, doff, dpitch, src, soff, spitch, width, height, r);
    var d, s := At(doff, dpitch, r), At(soff, spitch, r);
    assert Blit(dst, doff, dpitch, src, soff, spitch, width, height)[d..d + width][x - d] == src[s..s + width][x - d];
  }

  lemma BlitOutside(dst: seq<byte>, doff: nat, dpitch: nat, src: seq<byte>, soff: nat, spitch: nat,
                    width: nat, height: nat, x: nat)
    requires RowsFit(|dst|, doff, dpitch, width, height) && RowsFit(|src|, soff, spitch, width, height)
    requires x < |dst| && forall r | 0 <= r < height :: !InRow(doff, dpitch, width, r, x)
    ensures Blit(dst, doff, dpitch, src, soff, spitch, width, height)[x] == dst[x]
  {
    hide At, Blit;
    var after := Blit(dst, doff, dpitch, src, soff, spitch, width, height);
    forall r | 0 <= r < height
      ensures x + 1 <= At(doff, dpitch, r) || At(doff, dpitch, r) + width <= x
    {
      assert !InRow(doff, dpitch, width, r, x);
    }
    BlitElsewhere(dst, doff, dpitch, src, soff, spitch, width, height, x, x + 1);
    assert after[x..x + 1][0] == dst[x..x + 1][0];
  }

  /** Two pitched copies with the same rows, the second right of the first, are one wider copy. */
  lemma BlitWiden(dst: seq<byte>, doff: nat, dpitch: nat, src: seq<byte>, soff: nat, spitch: nat,
                  left: nat, right: nat, height: nat)
    requires RowsFit(|dst|, doff, dpitch, left + right, height) && RowsFit(|src|, soff, spitch, left + right, height)
    requires left + right <= dpitch
    ensures RowsFit(|dst|, doff, dpitch, left, height) && RowsFit(|src|, soff, spitch, left, height)
    ensures RowsFit(|dst|, doff + left, dpitch, right, height) && RowsFit(|src|, soff + left, spitch, right, height)
    ensures Blit(dst, doff, dpitch, src, soff, spitch, left + right, height)
            == Blit(Blit(dst, doff, dpitch, src, soff, spitch, left, height),
                    doff + left, dpitch, src, soff + left, spitch, right, height)
  {
    hide At, Blit;
    NarrowRows(|dst|, doff, dpitch, left, right, height);
    NarrowRows(|src|, soff, spitch, left, right, height);
    var whole := Blit(dst, doff, dpitch, src, soff, spitch, left + right, height);
    var first := Blit(dst, doff, dpitch, src, soff, spitch, left, height);
    var both := Blit(first, doff + left, dpitch, src, soff + left, spitch, right, height);
    forall x | 0 <= x < |dst| ensures whole[x] == both[x] {
      BlitWidenAt(dst, doff, dpitch, src, soff, spitch, left, right, height, x);
    }
  }

  lemma BlitWidenAt(dst: seq<byte>, doff: nat, dpitch: nat, src: seq<byte>, soff: nat, spitch: nat,
                    left: nat, right: nat, height: nat, x: nat)
    requires RowsFit(|dst|, doff, dpitch, left + right, height) && RowsFit(|src|, soff, spitch, left + right, height)
    requires RowsFit(|dst|, doff, dpitch, left, height) && RowsFit(|src|, soff, spitch, left, height)
    requires RowsFit(|dst|, doff + left, dpitch, right, height) && RowsFit(|src|, soff + left, spitch, right, height)
    requires left + right <= dpitch && x < |dst|
    ensures Blit(dst, doff, dpitch, src, soff, spitch, left + right, height)[x]
            == Blit(Blit(dst, doff, dpitch, src, soff, spitch, left, height),
                    doff + left, dpitch, src, soff + left, spitch, right, height)[x]
  {
    hide At, Blit;
    var first := Blit(dst, doff, dpitch, src, soff, spitch, left, height);
    var width, shifted := left + right, doff + left;
    ShiftAt(doff, dpitch, left);
    ShiftAt(soff, spitch, left);
    if r :| 0 <= r < height && InRow(doff, dpitch, width, r, x) {
      BlitInside(dst, doff, dpitch, src, soff, spitch, width, height, r, x);
      if x < At(doff, dpitch, r) + left {
        BlitInside(dst, doff, dpitch, src, soff, spitch, left, height, r, x);
        forall q | 0 <= q < height ensures !InRow(shifted, dpitch, right, q, x) {
          if q < r { RowStep(doff, dpitch, q, r); } else if r < q { RowStep(doff, dpitch, r, q); }
        }
        BlitOutside(first, shifted, dpitch, src, soff + left, spitch, right, height, x);
      } else {
        assert InRow(shifted, dpitch, right, r, x);
        BlitInside(first, shifted, dpitch, src, soff + left, spitch, right, height, r, x);
      }
    } else {
      forall q | 0 <= q < height
        ensures !InRow(doff, dpitch, left, q, x) && !InRow(shifted, dpitch, right, q, x)
      {
        assert !InRow(doff, dpitch, width, q, x);
      }
      BlitOutside(dst, doff, dpitch, src, soff, spitch, width, height, x);
      BlitOutside(dst, doff, dpitch, src, soff, spitch, left, height, x);
      BlitOutside(first, shifted, dpitch, src, soff + left, spitch, right, height, x);
    }
  }

  lemma ShiftAt(off: nat, pitch: nat, shift: nat)
    ensures forall r: nat :: At(off + shift, pitch, r) == At(off, pitch, r) + shift
  {}

  lemma NarrowRows(size: nat, off: nat, pitch: nat, left: nat, right: nat, height: nat)
    requires RowsFit(size, off, pitch, left + right, height)
    ensures RowsFit(size, off, pitch, left, height) && RowsFit(size, off + left, pitch, right, height)
  {
    var shifted := off + left;
    forall r | 0 <= r < height
      ensures At(shifted, pitch, r) + right <= size && At(off, pitch, r) + left <= size
    {
      assert At(off, pitch, r) + (left + right) <= size;
    }
  }

  /** Rows that follow one another without gap are one contiguous copy. */
  lemma {:induction false} BlitSolid(dst: seq<byte>, doff: nat, src: seq<byte>, soff: nat, width: nat, height: nat)
    requires doff + height * width <= |dst| && soff + height * width <= |src|
    ensures RowsFit(|dst|, doff, width, width, height) && RowsFit(|src|, soff, width, width, height)
    ensures Blit(dst, doff, width, src, soff, width, width, height)
            == Splice(dst, doff, src[soff..soff + height * width])
    decreases height
  {
    hide At, Blit, Splice;
    SolidRows(|dst|, doff, width, height);
    SolidRows(|src|, soff, width, height);
    if height == 0 {
      SpliceNone(dst, doff);
      BlitNone(dst, doff, width, src, soff, width, width);
    } else {
      var h := height - 1;
      assert height * width == h * width + width;
      BlitSolid(dst, doff, src, soff, width, h);
      BlitStep(dst, doff, width, src, soff, width, width, height);
      AtIs(doff, width, h);
      AtIs(soff, width, h);
      SolidStep(dst, doff, src, soff, h * width, width);
    }
  }

  lemma SpliceNone(mem: seq<byte>, at: nat)
    requires at <= |mem|
    ensures Splice(mem, at, []) == mem
  {}

  lemma AtIs(off: nat, pitch: nat, r: nat)
    ensures At(off, pitch, r) == off + r * pitch
  {}

  lemma BlitNone(dst: seq<byte>, doff: nat, dpitch: nat, src: seq<byte>, soff: nat, spitch: nat, width: nat)
    ensures Blit(dst, doff, dpitch, src, soff, spitch, width, 0) == dst
  {}

  lemma BlitStep(dst: seq<byte>, doff: nat, dpitch: nat, src: seq<byte>, soff: nat, spitch: nat, width: nat,
      height: nat)
    requires RowsFit(|dst|, doff, dpitch, width, height) && RowsFit(|src|, soff, spitch, width, height) && height > 0
    ensures var d, s := At(doff, dpitch, height - 1), At(soff, spitch, height - 1);
            && d + width <= |dst| && s + width <= |src|
            && Blit(dst, doff, dpitch, src, soff, spitch, width, height)
               == Splice(Blit(dst, doff, dpitch, src, soff, spitch, width, height - 1), d, src[s..s + width])
  {}

  lemma OneRow(dst: seq<byte>, d: nat, p: nat, src: seq<byte>, s: nat, u: nat, width: nat)
    requires RowsFit(|dst|, d, p, width, 1) && RowsFit(|src|, s, u, width, 1)
    ensures d + width <= |dst| && s + width <= |src|
    ensures Blit(dst, d, p, src, s, u, width, 1) == Splice(dst, d, src[s..s + width])
  {
    AtIs(d, p, 0);
    AtIs(s, u, 0);
    BlitStep(dst, d, p, src, s, u, width, 1);
    BlitNone(dst, d, p, src, s, u, width);
  }

  lemma SolidStep(dst: seq<byte>, doff: nat, src: seq<byte>, soff: nat, n: nat, width: nat)
    requires doff + n + width <= |dst| && soff + n + width <= |src|
    ensures Splice(Splice(dst, doff, src[soff..soff + n]), doff + n, src[soff + n..soff + n + width])
            == Splice(dst, doff, src[soff..soff + (n + width)])
  {
    SpliceJoin(dst, doff, src[soff..soff + n], src[soff + n..soff + n + width]);
    assert src[soff..soff + n] + src[soff + n..soff + n + width] == src[soff..soff + (n + width)];
  }

  lemma SolidRows(size: nat, off: nat, width: nat, height: nat)
    requires off + height * width <= size
    ensures RowsFit(size, off, width, width, height)
  {
    forall r | 0 <= r < height ensures At(off, width, r) + width <= size {
      assert (r + 1) * width == r * width + width;
      MulMono(r + 1, height, width);
    }
  }

  lemma SpliceJoin(mem: seq<byte>, at: nat, a: seq<byte>, b: seq<byte>)
    requires at + |a| + |b| <= |mem|
    ensures Splice(Splice(mem, at, a), at + |a|, b) == Splice(mem, at, a + b)
  {}

  // ---------------------------------------------------------------------------------------------
  // The copies as methods
  // ---------------------------------------------------------------------------------------------

  /** cudaMemcpyAsync between two buffers. */
  method Copy(dst: array<byte>, doff: nat, src: array<byte>, soff: nat, bytes: nat)
    requires dst != src && doff + bytes <= dst.Length && soff + bytes <= src.Length
    modifies dst
    ensures dst[..] == Splice(old(dst[..]), doff, src[soff..soff + bytes])
  {
    forall k | 0 <= k < bytes { dst[doff + k] := src[soff + k]; }
  }

  /** cudaMemcpy2DAsync between two buffers, row by row. */
  method Copy2D(dst: array<byte>, doff: nat, dpitch: nat, src: array<byte>, soff: nat, spitch: nat,
                width: nat, height: nat)
    requires dst != src
    requires RowsFit(dst.Length, doff, dpitch, width, height) && RowsFit(src.Length, soff, spitch, width, height)
    modifies dst
    ensures dst[..] == Blit(old(dst[..]), doff, dpitch, src[..], soff, spitch, width, height)
  {
    hide At, Blit, Splice;
    ghost var before, from := dst[..], src[..];
    BlitNone(before, doff, dpitch, from, soff, spitch, width);
    for r := 0 to height
      invariant src[..] == from && dst[..] == Blit(before, doff, dpitch, from, soff, spitch, width, r)
    {
      var d, s := At(doff, dpitch, r), At(soff, spitch, r);
      BlitStep(before, doff, dpitch, from, soff, spitch, width, r + 1);
      assert src[s..s + width] == from[s..s + width];
      Copy(dst, d, src, s, width);
    }
  }

  /** The source and destination rows of a copy inside one buffer are apart. */
  predicate RowsApart(doff: nat, soff: nat, pitch: nat, width: nat, height: nat) {
    forall r, q | 0 <= r < height && 0 <= q < height ::
      At(soff, pitch, r) + width <= At(doff, pitch, q) || At(doff, pitch, q) + width <= At(soff, pitch, r)
  }

  lemma OneRowApart(doff: nat, soff: nat, pitch: nat, width: nat)
    ensures RowsApart(doff, soff, pitch, width, 1) <==> soff + width <= doff || doff + width <= soff
  {
    AtIs(doff, pitch, 0);
    AtIs(soff, pitch, 0);
  }

  method MoveRow(mem: array<byte>, d: nat, s: nat, width: nat)
    requires d + width <= mem.Length && s + width <= mem.Length
    modifies mem
    ensures mem[..] == Splice(old(mem[..]), d, old(mem[..])[s..s + width])
  {
    forall k | 0 <= k < width { mem[d + k] := mem[s + k]; }
  }

  /** cudaMemcpy2DAsync device to device inside one buffer: the rows must not overlap. */
  method CopyWithin2D(mem: array<byte>, doff: nat, soff: nat, pitch: nat, width: nat, height: nat)
    requires RowsFit(mem.Length, doff, pitch, width, height) && RowsFit(mem.Length, soff, pitch, width, height)
    requires RowsApart(doff, soff, pitch, width, height)
    modifies mem
    ensures mem[..] == Blit(old(mem[..]), doff, pitch, old(mem[..]), soff, pitch, width, height)
  {
    hide At, Blit, Splice;
    ghost var before := mem[..];
    BlitNone(before, doff, pitch, before, soff, pitch, width);
    for r := 0 to height
      invariant mem[..] == Blit(before, doff, pitch, before, soff, pitch, width, r)
    {
      var d, s := At(doff, pitch, r), At(soff, pitch, r);
      BlitElsewhere(before, doff, pitch, before, soff, pitch, width, r, s, s + width);
      BlitStep(before, doff, pitch, before, soff, pitch, width, r + 1);
      MoveRow(mem, d, s, width);
    }
  }

  /** A block of one repeated byte. */
  function Filled(n: nat, v: byte): (s: seq<byte>)
    ensures |s| == n && forall i | 0 <= i < n :: s[i] == v
  {
    seq(n, _ => v)
  }

  method FillRow(mem: array<byte>, d: nat, v: byte, width: nat)
    requires d + width <= mem.Length
    modifies mem
    ensures mem[..] == Splice(old(mem[..]), d, Filled(width, v))
  {
    forall k | 0 <= k < width { mem[d + k] := v; }
  }

  /** cudaMemset2DAsync, row by row; every row takes the same bytes. */
  method Fill2D(mem: array<byte>, off: nat, pitch: nat, v: byte, width: nat, height: nat)
    requires RowsFit(mem.Length, off, pitch, width, height)
    modifies mem
    ensures RowsFit(width, 0, 0, width, height)
    ensures mem[..] == Blit(old(mem[..]), off, pitch, Filled(width, v), 0, 0, width, height)
  {
    hide Blit, Splice;
    ghost var before, row := mem[..], Filled(width, v);
    assert row[0..width] == row;
    assert RowsFit(width, 0, 0, width, height);
    BlitNone(before, off, pitch, row, 0, 0, width);
    for r := 0 to height
      invariant mem[..] == Blit(before, off, pitch, row, 0, 0, width, r)
    {
      BlitStep(before, off, pitch, row, 0, 0, width, r + 1);
      FillRow(mem, At(off, pitch, r), v, width);
    }
  }
}
