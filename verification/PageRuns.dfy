/** Coalesced transfers equal their page-at-a-time meaning: a run of consecutive pages moved as one
    pitched copy, an arithmetic progression of page-major pages, and a run cleared as one fill. */
module PageRuns {
  import opened Arith
  import opened Bytes
  import opened Dma
  import opened Planes

  /** Copies with equal rows are equal. */
  lemma {:induction false} BlitSame(dst: seq<byte>, doff: nat, dpitch: nat, a: seq<byte>, aoff: nat, apitch: nat,
                                    b: seq<byte>, boff: nat, bpitch: nat, width: nat, height: nat)
    requires RowsFit(|dst|, doff, dpitch, width, height)
    requires RowsFit(|a|, aoff, apitch, width, height) && RowsFit(|b|, boff, bpitch, width, height)
    requires Rows(a, aoff, apitch, width, height) == Rows(b, boff, bpitch, width, height)
    ensures Blit(dst, doff, dpitch, a, aoff, apitch, width, height)
            == Blit(dst, doff, dpitch, b, boff, bpitch, width, height)
    decreases height
  {
    hide At, Splice, Blit, Rows;
    if height == 0 {
      BlitNone(dst, doff, dpitch, a, aoff, apitch, width);
      BlitNone(dst, doff, dpitch, b, boff, bpitch, width);
    } else {
      BlitStep(dst, doff, dpitch, a, aoff, apitch, width, height);
      BlitStep(dst, doff, dpitch, b, boff, bpitch, width, height);
      LastRow(a, aoff, apitch, b, boff, bpitch, width, height);
      BlitSame(dst, doff, dpitch, a, aoff, apitch, b, boff, bpitch, width, height - 1);
    }
  }

  /** Equal rows have equal last rows and equal rows before. */
  lemma LastRow(a: seq<byte>, aoff: nat, apitch: nat, b: seq<byte>, boff: nat, bpitch: nat, width: nat, height: nat)
    requires 0 < height && RowsFit(|a|, aoff, apitch, width, height) && RowsFit(|b|, boff, bpitch, width, height)
    requires Rows(a, aoff, apitch, width, height) == Rows(b, boff, bpitch, width, height)
    ensures Rows(a, aoff, apitch, width, height - 1) == Rows(b, boff, bpitch, width, height - 1)
    ensures var s, t := At(aoff, apitch, height - 1), At(boff, bpitch, height - 1);
            s + width <= |a| && t + width <= |b| && a[s..s + width] == b[t..t + width]
  {
    hide At, Rows;
    var h := height - 1;
    RowsPeel(a, aoff, apitch, width, height);
    RowsPeel(b, boff, bpitch, width, height);
    var s, t := At(aoff, apitch, h), At(boff, bpitch, h);
    SplitTail(Rows(a, aoff, apitch, width, h), a[s..s + width], Rows(b, boff, bpitch, width, h), b[t..t + width]);
  }

  lemma RowsPeel(mem: seq<byte>, off: nat, pitch: nat, width: nat, height: nat)
    requires 0 < height && RowsFit(|mem|, off, pitch, width, height)
    ensures var s := At(off, pitch, height - 1);
            s + width <= |mem|
            && Rows(mem, off, pitch, width, height) == Rows(mem, off, pitch, width, height - 1) + mem[s..s + width]
  {
    hide At;
  }

  lemma SplitTail(x: seq<byte>, u: seq<byte>, y: seq<byte>, v: seq<byte>)
    requires |x| == |y| && |u| == |v| && x + u == y + v
    ensures x == y && u == v
  {
    assert x == (x + u)[..|x|] && y == (y + v)[..|y|];
    assert u == (x + u)[|x|..] && v == (y + v)[|y|..];
  }

  /** Rows copied to consecutive places are spliced in as one block. */
  lemma {:induction false} BlitRows(dst: seq<byte>, doff: nat, src: seq<byte>, soff: nat, spitch: nat, width: nat,
      height: nat)
    requires doff + height * width <= |dst| && RowsFit(|src|, soff, spitch, width, height)
    ensures RowsFit(|dst|, doff, width, width, height)
    ensures Blit(dst, doff, width, src, soff, spitch, width, height)
            == Splice(dst, doff, Rows(src, soff, spitch, width, height))
  {
    var block := Rows(src, soff, spitch, width, height);
    SolidRows(|dst|, doff, width, height);
    RowsSolid(block, 0, width, height);
    assert block[0..0 + height * width] == block;
    BlitSame(dst, doff, width, src, soff, spitch, block, 0, width, width, height);
    BlitSolid(dst, doff, block, 0, width, height);
  }

  /** Copying a page's rows from anywhere is writing the page with those rows. */
  lemma BlitIsWrite(mem: seq<byte>, plane: Plane, pages: nat, p: nat, src: seq<byte>, soff: nat, spitch: nat)
    requires PlaneFits(plane, pages, |mem|) && p < pages && RowsFit(|src|, soff, spitch, plane.row, plane.heads)
    ensures RowsFit(|mem|, plane.Start(p), plane.pitch, plane.row, plane.heads)
    ensures Blit(mem, plane.Start(p), plane.pitch, src, soff, spitch, plane.row, plane.heads)
            == WritePage(mem, plane, pages, p, Rows(src, soff, spitch, plane.row, plane.heads))
  {
    var block := Rows(src, soff, spitch, plane.row, plane.heads);
    PageRowsFit(plane, pages, |mem|, p);
    RowsSolid(block, 0, plane.row, plane.heads);
    assert block[0..0 + plane.heads * plane.row] == block;
    BlitSame(mem, plane.Start(p), plane.pitch, src, soff, spitch, block, 0, plane.row, plane.row, plane.heads);
  }

  // ---------------------------------------------------------------------------------------------
  // Sequences of pages
  // ---------------------------------------------------------------------------------------------

  /** n consecutive page ids. */
  function Consecutive(first: nat, n: nat): (s: seq<nat>)
    ensures |s| == n && forall i | 0 <= i < n :: s[i] == first + i
  {
    seq(n, i => first + i)
  }

  /** The pages `ids` of a plane, read from one memory. */
  function PagesOf(mem: seq<byte>, plane: Plane, pages: nat, ids: seq<nat>): (d: seq<seq<byte>>)
    requires PlaneFits(plane, pages, |mem|) && forall i | 0 <= i < |ids| :: ids[i] < pages
    ensures |d| == |ids| && forall i | 0 <= i < |ids| :: d[i] == PageOf(mem, plane, pages, ids[i])
  {
    seq(|ids|, i requires 0 <= i < |ids| => PageOf(mem, plane, pages, ids[i]))
  }

  lemma {:induction false} WritePagesJoin(mem: seq<byte>, plane: Plane, pages: nat,
                                          ids: seq<nat>, data: seq<seq<byte>>, ids2: seq<nat>, data2: seq<seq<byte>>)
    requires PlaneFits(plane, pages, |mem|) && Writable(plane, pages, ids, data) && Writable(plane, pages, ids2, data2)
    ensures Writable(plane, pages, ids + ids2, data + data2)
    ensures WritePages(WritePages(mem, plane, pages, ids, data), plane, pages, ids2, data2)
            == WritePages(mem, plane, pages, ids + ids2, data + data2)
    decreases |ids2|
  {
    hide WritePage;
    if ids2 == [] {
      assert ids + ids2 == ids && data + data2 == data;
    } else {
      var n := |ids2| - 1;
      WritePagesJoin(mem, plane, pages, ids, data, ids2[..n], data2[..n]);
      assert (ids + ids2)[..|ids| + n] == ids + ids2[..n];
      assert (data + data2)[..|data| + n] == data + data2[..n];
    }
  }

  /** Writing the first b pages and then the next `count` is writing the first b + count. */
  lemma WriteStep(mem: seq<byte>, plane: Plane, pages: nat, ids: seq<nat>, data: seq<seq<byte>>, b: nat, count: nat)
    requires PlaneFits(plane, pages, |mem|) && Writable(plane, pages, ids, data) && b + count <= |ids|
    ensures WritePages(WritePages(mem, plane, pages, ids[..b], data[..b]), plane, pages, ids[b..b + count],
            data[b..b + count])
            == WritePages(mem, plane, pages, ids[..b + count], data[..b + count])
  {
    hide WritePages, PlaneFits;
    assert ids[..b + count] == ids[..b] + ids[b..b + count] && data[..b + count] == data[..b] + data[b..b + count];
    WritePagesJoin(mem, plane, pages, ids[..b], data[..b], ids[b..b + count], data[b..b + count]);
  }

  lemma WriteOne(mem: seq<byte>, plane: Plane, pages: nat, p: nat, data: seq<byte>)
    requires PlaneFits(plane, pages, |mem|) && p < pages && |data| == plane.PageBytes()
    ensures WritePages(mem, plane, pages, [p], [data]) == WritePage(mem, plane, pages, p, data)
  {
    assert [p][..0] == [] && [data][..0] == [];
    assert WritePages(mem, plane, pages, [p][..0], [data][..0]) == mem;
  }

  // ---------------------------------------------------------------------------------------------
  // Runs of consecutive pages
  // ---------------------------------------------------------------------------------------------

  lemma RunFits(plane: Plane, pages: nat, size: nat, p: nat, count: nat)
    requires PlaneFits(plane, pages, size) && p + count <= pages
    ensures RowsFit(size, plane.Start(p), plane.pitch, count * plane.row, plane.heads)
    ensures count * plane.row <= plane.pitch
  {
    MulMono(count, pages, plane.row);
    forall h | 0 <= h < plane.heads
      ensures At(plane.Start(p), plane.pitch, h) + count * plane.row <= size
    {
      assert (p + count) * plane.row == p * plane.row + count * plane.row;
      MulMono(p + count, pages, plane.row);
      assert (h + 1) * plane.pitch == h * plane.pitch + plane.pitch;
      MulMono(h + 1, plane.heads, plane.pitch);
    }
  }

  lemma StartShift(plane: Plane, p: nat, n: nat)
    ensures plane.Start(p + n) == plane.Start(p) + n * plane.row
  {
    assert (p + n) * plane.row == p * plane.row + n * plane.row;
  }

  /** A run of `count` pages moved as one pitched copy is that many page copies, in both orders. */
  lemma {:induction false} RunCopy(mem: seq<byte>, plane: Plane, pages: nat, src: seq<byte>, from: nat, target: nat,
      count: nat)
    requires PlaneFits(plane, pages, |mem|) && |src| == |mem| && from + count <= pages && target + count <= pages
    ensures RowsFit(|mem|, plane.Start(target), plane.pitch, count * plane.row, plane.heads)
    ensures RowsFit(|src|, plane.Start(from), plane.pitch, count * plane.row, plane.heads)
    ensures Blit(mem, plane.Start(target), plane.pitch, src, plane.Start(from), plane.pitch, count * plane.row,
            plane.heads)
            == WritePages(mem, plane, pages, Consecutive(target, count),
              PagesOf(src, plane, pages, Consecutive(from, count)))
    decreases count
  {
    hide Blit, At, WritePage, PageOf, WritePages;
    RunFits(plane, pages, |mem|, target, count);
    RunFits(plane, pages, |src|, from, count);
    if count == 0 {
      BlitNoWidth(mem, plane.Start(target), plane.pitch, src, plane.Start(from), plane.pitch, plane.heads);
      WriteNone(mem, plane, pages);
      assert Consecutive(target, 0) == [] && PagesOf(src, plane, pages, Consecutive(from, 0)) == [];
    } else {
      var n := count - 1;
      RunCopy(mem, plane, pages, src, from, target, n);
      StartShift(plane, target, n);
      StartShift(plane, from, n);
      assert count * plane.row == n * plane.row + plane.row;
      RunCopyStep(mem, plane, pages, src, from, target, n, n * plane.row);
    }
  }

  lemma RunCopyStep(mem: seq<byte>, plane: Plane, pages: nat, src: seq<byte>, from: nat, target: nat, n: nat, left: nat)
    requires PlaneFits(plane, pages, |mem|) && |src| == |mem| && from + n < pages && target + n < pages
    requires plane.Start(target + n) == plane.Start(target) + left && plane.Start(from + n) == plane.Start(from) + left
    requires left + plane.row <= plane.pitch
    requires RowsFit(|mem|, plane.Start(target), plane.pitch, left, plane.heads)
    requires RowsFit(|src|, plane.Start(from), plane.pitch, left, plane.heads)
    requires RowsFit(|mem|, plane.Start(target), plane.pitch, left + plane.row, plane.heads)
    requires RowsFit(|src|, plane.Start(from), plane.pitch, left + plane.row, plane.heads)
    requires Blit(mem, plane.Start(target), plane.pitch, src, plane.Start(from), plane.pitch, left, plane.heads)
             == WritePages(mem, plane, pages, Consecutive(target, n), PagesOf(src, plane, pages, Consecutive(from, n)))
    ensures Blit(mem, plane.Start(target), plane.pitch, src, plane.Start(from), plane.pitch, left + plane.row,
            plane.heads)
            == WritePages(mem, plane, pages, Consecutive(target, n + 1),
              PagesOf(src, plane, pages, Consecutive(from, n + 1)))
  {
    hide Blit, At, WritePage, Rows, RowsFit, Plane.Start, PlaneFits;
    var done := WritePages(mem, plane, pages, Consecutive(target, n), PagesOf(src, plane, pages, Consecutive(from, n)));
    BlitWiden(mem, plane.Start(target), plane.pitch, src, plane.Start(from), plane.pitch, left, plane.row, plane.heads);
    PageRowsFit(plane, pages, |src|, from + n);
    BlitIsWrite(done, plane, pages, target + n, src, plane.Start(from + n), plane.pitch);
    var ids, data := Consecutive(target, n + 1), PagesOf(src, plane, pages, Consecutive(from, n + 1));
    assert ids[..n] == Consecutive(target, n) && data[..n] == PagesOf(src, plane, pages, Consecutive(from, n));
  }

  lemma {:induction false} BlitNoWidth(dst: seq<byte>, doff: nat, dpitch: nat, src: seq<byte>, soff: nat,
      spitch: nat, height: nat)
    requires RowsFit(|dst|, doff, dpitch, 0, height) && RowsFit(|src|, soff, spitch, 0, height)
    ensures Blit(dst, doff, dpitch, src, soff, spitch, 0, height) == dst
    decreases height
  {
    hide At, Splice;
    if height > 0 {
      var h := height - 1;
      BlitNoWidth(dst, doff, dpitch, src, soff, spitch, h);
      assert At(doff, dpitch, h) + 0 <= |dst| && At(soff, spitch, h) + 0 <= |src|;
      SpliceNone(dst, At(doff, dpitch, h));
      assert src[At(soff, spitch, h)..At(soff, spitch, h) + 0] == [];
    }
  }

  lemma WriteNone(mem: seq<byte>, plane: Plane, pages: nat)
    requires PlaneFits(plane, pages, |mem|)
    ensures WritePages(mem, plane, pages, [], []) == mem
  {}

  // ---------------------------------------------------------------------------------------------
  // Clearing a run
  // ---------------------------------------------------------------------------------------------

  /** n pages of zeros. */
  function Zeros(plane: Plane, n: nat): (d: seq<seq<byte>>)
    ensures |d| == n && forall i | 0 <= i < n :: d[i] == Filled(plane.PageBytes(), 0)
  {
    seq(n, _ => Filled(plane.PageBytes(), 0))
  }

  lemma {:induction false} FilledRows(width: nat, more: nat, off: nat, height: nat)
    requires off + width <= more
    ensures RowsFit(more, off, 0, width, height)
    ensures Rows(Filled(more, 0), off, 0, width, height) == Filled(height * width, 0)
    decreases height
  {
    if height > 0 {
      FilledRows(width, more, off, height - 1);
      assert height * width == (height - 1) * width + width;
      assert Filled(more, 0)[off..off + width] == Filled(width, 0);
      assert Filled((height - 1) * width, 0) + Filled(width, 0) == Filled(height * width, 0);
    }
  }

  /** One pitched fill over a run of pages clears exactly those pages. */
  lemma {:induction false} RunClear(mem: seq<byte>, plane: Plane, pages: nat, p: nat, count: nat, more: nat)
    requires PlaneFits(plane, pages, |mem|) && p + count <= pages && count * plane.row <= more
    ensures RowsFit(|mem|, plane.Start(p), plane.pitch, count * plane.row, plane.heads)
    ensures RowsFit(more, 0, 0, count * plane.row, plane.heads)
    ensures Blit(mem, plane.Start(p), plane.pitch, Filled(more, 0), 0, 0, count * plane.row, plane.heads)
            == WritePages(mem, plane, pages, Consecutive(p, count), Zeros(plane, count))
    decreases count
  {
    hide Blit, At, WritePage, WritePages, RowsFit, Rows, Plane.Start;
    RunFits(plane, pages, |mem|, p, count);
    FilledRows(count * plane.row, more, 0, plane.heads);
    if count == 0 {
      BlitNoWidth(mem, plane.Start(p), plane.pitch, Filled(more, 0), 0, 0, plane.heads);
      WriteNone(mem, plane, pages);
      assert Consecutive(p, 0) == [] && Zeros(plane, 0) == [];
    } else {
      var n := count - 1;
      assert count * plane.row == n * plane.row + plane.row;
      RunClear(mem, plane, pages, p, n, more);
      StartShift(plane, p, n);
      RunClearStep(mem, plane, pages, p, n, more, n * plane.row);
    }
  }

  lemma RunClearStep(mem: seq<byte>, plane: Plane, pages: nat, p: nat, n: nat, more: nat, left: nat)
    requires PlaneFits(plane, pages, |mem|) && p + n < pages && left + plane.row <= more
    requires plane.Start(p + n) == plane.Start(p) + left && left + plane.row <= plane.pitch
    requires RowsFit(|mem|, plane.Start(p), plane.pitch, left, plane.heads)
    requires RowsFit(more, 0, 0, left, plane.heads)
    requires RowsFit(|mem|, plane.Start(p), plane.pitch, left + plane.row, plane.heads)
    requires RowsFit(more, 0, 0, left + plane.row, plane.heads)
    requires Blit(mem, plane.Start(p), plane.pitch, Filled(more, 0), 0, 0, left, plane.heads)
             == WritePages(mem, plane, pages, Consecutive(p, n), Zeros(plane, n))
    ensures Blit(mem, plane.Start(p), plane.pitch, Filled(more, 0), 0, 0, left + plane.row, plane.heads)
            == WritePages(mem, plane, pages, Consecutive(p, n + 1), Zeros(plane, n + 1))
  {
    hide Blit, At, WritePage, Rows, RowsFit, Plane.Start, PlaneFits;
    var done := WritePages(mem, plane, pages, Consecutive(p, n), Zeros(plane, n));
    var zeros := Filled(more, 0);
    BlitWiden(mem, plane.Start(p), plane.pitch, zeros, 0, 0, left, plane.row, plane.heads);
    FilledRows(plane.row, more, left, plane.heads);
    BlitIsWrite(done, plane, pages, p + n, zeros, 0 + left, 0);
    var ids, data := Consecutive(p, n + 1), Zeros(plane, n + 1);
    assert ids[..n] == Consecutive(p, n) && data[..n] == Zeros(plane, n);
  }

  // ---------------------------------------------------------------------------------------------
  // Arithmetic progressions of page-major pages
  // ---------------------------------------------------------------------------------------------

  /** `count` ids from index b on step by `delta`. */
  predicate Progression(ids: seq<nat>, b: nat, delta: nat, count: nat) {
    b + count <= |ids| && forall i | 0 <= i < count :: ids[b + i] == Stepped(ids[b], delta, i)
  }

  function Stepped(first: nat, delta: nat, i: nat): nat { first + i * delta }

  lemma SteppedRow(plane: Plane, first: nat, delta: nat, i: nat)
    ensures At(plane.Start(first), delta * plane.row, i) == plane.Start(Stepped(first, delta, i))
  {
    assert i * (delta * plane.row) == (i * delta) * plane.row;
    assert (first + i * delta) * plane.row == first * plane.row + (i * delta) * plane.row;
  }

  lemma ProgressionFits(plane: Plane, pages: nat, size: nat, ids: seq<nat>, b: nat, delta: nat, count: nat)
    requires PlaneFits(plane, pages, size) && plane.heads == 1 && b < |ids|
    requires Progression(ids, b, delta, count) && forall i | 0 <= i < |ids| :: ids[i] < pages
    ensures RowsFit(size, plane.Start(ids[b]), delta * plane.row, plane.row, count)
  {
    forall i | 0 <= i < count
      ensures At(plane.Start(ids[b]), delta * plane.row, i) + plane.row <= size
    {
      SteppedRow(plane, ids[b], delta, i);
      assert ids[b + i] < pages;
      CellInside(plane, pages, ids[b + i], 0);
    }
  }

  /** Equal-sized consecutive blocks of a buffer. */
  function Slices(src: seq<byte>, off: nat, size: nat, n: nat): (d: seq<seq<byte>>)
    requires off + n * size <= |src|
    ensures |d| == n
    ensures forall i | 0 <= i < n ::
            At(off, size, i) + size <= |src| && d[i] == src[At(off, size, i)..At(off, size, i) + size]
  {
    SolidRows(|src|, off, size, n);
    seq(n, i requires 0 <= i < n => src[At(off, size, i)..At(off, size, i) + size])
  }

  /** With one head a page is one contiguous block. */
  lemma SingleRow(mem: seq<byte>, plane: Plane, pages: nat, p: nat, data: seq<byte>)
    requires PlaneFits(plane, pages, |mem|) && plane.heads == 1 && p < pages && |data| == plane.row
    ensures |data| == plane.PageBytes() && plane.Start(p) + plane.row <= |mem|
    ensures WritePage(mem, plane, pages, p, data) == Splice(mem, plane.Start(p), data)
    ensures PageOf(mem, plane, pages, p) == mem[plane.Start(p)..plane.Start(p) + plane.row]
  {
    PageRowsFit(plane, pages, |mem|, p);
    AtIs(plane.Start(p), plane.pitch, 0);
    AtIs(0, plane.row, 0);
    SolidRows(|data|, 0, plane.row, 1);
    BlitStep(mem, plane.Start(p), plane.pitch, data, 0, plane.row, plane.row, 1);
    BlitNone(mem, plane.Start(p), plane.pitch, data, 0, plane.row, plane.row);
    assert data[0..plane.row] == data;
    assert Rows(mem, plane.Start(p), plane.pitch, plane.row, 0) == [];
    assert [] + mem[plane.Start(p)..plane.Start(p) + plane.row] == mem[plane.Start(p)..plane.Start(p) + plane.row];
  }

  /** One pitched copy into a progression of pages is the page-by-page write. */
  lemma {:induction false} ProgressionWrite(mem: seq<byte>, plane: Plane, pages: nat, ids: seq<nat>, b: nat, delta: nat,
                                            count: nat, src: seq<byte>, soff: nat)
    requires PlaneFits(plane, pages, |mem|) && plane.heads == 1 && b < |ids|
    requires Progression(ids, b, delta, count) && forall i | 0 <= i < |ids| :: ids[i] < pages
    requires soff + count * plane.row <= |src|
    ensures RowsFit(|mem|, plane.Start(ids[b]), delta * plane.row, plane.row, count)
    ensures RowsFit(|src|, soff, plane.row, plane.row, count)
    ensures Writable(plane, pages, ids[b..b + count], Slices(src, soff, plane.row, count))
    ensures Blit(mem, plane.Start(ids[b]), delta * plane.row, src, soff, plane.row, plane.row, count)
            == WritePages(mem, plane, pages, ids[b..b + count], Slices(src, soff, plane.row, count))
    decreases count
  {
    hide At, Blit, WritePage, WritePages, Splice;
    ProgressionFits(plane, pages, |mem|, ids, b, delta, count);
    SolidRows(|src|, soff, plane.row, count);
    if count == 0 {
      BlitNone(mem, plane.Start(ids[b]), delta * plane.row, src, soff, plane.row, plane.row);
      WriteNone(mem, plane, pages);
      assert ids[b..b + 0] == [] && Slices(src, soff, plane.row, 0) == [];
    } else {
      var n := count - 1;
      assert count * plane.row == n * plane.row + plane.row;
      ProgressionWrite(mem, plane, pages, ids, b, delta, n, src, soff);
      ProgressionStep(mem, plane, pages, ids, b, delta, n, src, soff);
    }
  }

  lemma ProgressionStep(mem: seq<byte>, plane: Plane, pages: nat, ids: seq<nat>, b: nat, delta: nat,
                        n: nat, src: seq<byte>, soff: nat)
    requires PlaneFits(plane, pages, |mem|) && plane.heads == 1 && b < |ids|
    requires Progression(ids, b, delta, n + 1) && forall i | 0 <= i < |ids| :: ids[i] < pages
    requires soff + n * plane.row <= |src| && soff + (n + 1) * plane.row <= |src|
    requires RowsFit(|mem|, plane.Start(ids[b]), delta * plane.row, plane.row, n + 1)
    requires RowsFit(|src|, soff, plane.row, plane.row, n + 1)
    requires Writable(plane, pages, ids[b..b + n], Slices(src, soff, plane.row, n))
    requires Blit(mem, plane.Start(ids[b]), delta * plane.row, src, soff, plane.row, plane.row, n)
             == WritePages(mem, plane, pages, ids[b..b + n], Slices(src, soff, plane.row, n))
    ensures Writable(plane, pages, ids[b..b + (n + 1)], Slices(src, soff, plane.row, n + 1))
    ensures Blit(mem, plane.Start(ids[b]), delta * plane.row, src, soff, plane.row, plane.row, n + 1)
            == WritePages(mem, plane, pages, ids[b..b + (n + 1)], Slices(src, soff, plane.row, n + 1))
  {
    hide At, Blit, WritePage, Splice;
    BlitStep(mem, plane.Start(ids[b]), delta * plane.row, src, soff, plane.row, plane.row, n + 1);
    SteppedRow(plane, ids[b], delta, n);
    var done := WritePages(mem, plane, pages, ids[b..b + n], Slices(src, soff, plane.row, n));
    var page, data := ids[b + n], src[At(soff, plane.row, n)..At(soff, plane.row, n) + plane.row];
    SingleRow(done, plane, pages, page, data);
    var all, blocks := ids[b..b + (n + 1)], Slices(src, soff, plane.row, n + 1);
    assert all[..n] == ids[b..b + n] && blocks[..n] == Slices(src, soff, plane.row, n);
    assert all[n] == page && blocks[n] == data;
  }

  // ---------------------------------------------------------------------------------------------
  // Packing
  // ---------------------------------------------------------------------------------------------

  /** The packed image of one plane: its pages one after the other. */
  function PlaneImage(mem: seq<byte>, plane: Plane, pages: nat, ids: seq<nat>): (r: seq<byte>)
    requires PlaneFits(plane, pages, |mem|) && forall i | 0 <= i < |ids| :: ids[i] < pages
    ensures |r| == |ids| * plane.PageBytes()
  {
    if ids == [] then []
    else
      var n := |ids| - 1;
      assert |ids| * plane.PageBytes() == n * plane.PageBytes() + plane.PageBytes();
      PlaneImage(mem, plane, pages, ids[..n]) + PageOf(mem, plane, pages, ids[n])
  }

  lemma {:induction false} PlaneImageJoin(mem: seq<byte>, plane: Plane, pages: nat, a: seq<nat>, b: seq<nat>)
    requires PlaneFits(plane, pages, |mem|)
    requires (forall i | 0 <= i < |a| :: a[i] < pages) && (forall i | 0 <= i < |b| :: b[i] < pages)
    ensures PlaneImage(mem, plane, pages, a + b) == PlaneImage(mem, plane, pages, a) + PlaneImage(mem, plane, pages, b)
    decreases |b|
  {
    hide PageOf;
    if b == [] {
      assert a + b == a;
    } else {
      var n := |b| - 1;
      assert (a + b)[..|a| + n] == a + b[..n];
      PlaneImageJoin(mem, plane, pages, a, b[..n]);
    }
  }

  /** Block i of a plane image is page i. */
  lemma {:induction false} ImageBlock(mem: seq<byte>, plane: Plane, pages: nat, ids: seq<nat>, i: nat)
    requires PlaneFits(plane, pages, |mem|) && (forall k | 0 <= k < |ids| :: ids[k] < pages) && i < |ids|
    ensures var size := plane.PageBytes();
            && At(0, size, i) + size <= |PlaneImage(mem, plane, pages, ids)|
            && PlaneImage(mem, plane, pages, ids)[At(0, size, i)..At(0, size, i) + size]
              == PageOf(mem, plane, pages, ids[i])
    decreases |ids|
  {
    hide PageOf;
    var n, size := |ids| - 1, plane.PageBytes();
    var image := PlaneImage(mem, plane, pages, ids);
    assert |ids| * size == n * size + size;
    MulMono(i + 1, |ids|, size);
    assert (i + 1) * size == i * size + size;
    if i < n {
      ImageBlock(mem, plane, pages, ids[..n], i);
      MulMono(i + 1, n, size);
      var rest := PlaneImage(mem, plane, pages, ids[..n]);
      assert image[At(0, size, i)..At(0, size, i) + size] == rest[At(0, size, i)..At(0, size, i) + size];
    }
  }

  /** The rows of a progression of page-major pages are those pages' image. */
  lemma {:induction false} ProgressionRows(mem: seq<byte>, plane: Plane, pages: nat, ids: seq<nat>, b: nat,
      delta: nat, count: nat)
    requires PlaneFits(plane, pages, |mem|) && plane.heads == 1 && b < |ids|
    requires Progression(ids, b, delta, count) && forall i | 0 <= i < |ids| :: ids[i] < pages
    ensures RowsFit(|mem|, plane.Start(ids[b]), delta * plane.row, plane.row, count)
    ensures Rows(mem, plane.Start(ids[b]), delta * plane.row, plane.row, count)
            == PlaneImage(mem, plane, pages, ids[b..b + count])
    decreases count
  {
    hide At, PageOf;
    ProgressionFits(plane, pages, |mem|, ids, b, delta, count);
    if count > 0 {
      var n := count - 1;
      ProgressionRows(mem, plane, pages, ids, b, delta, n);
      assert ids[b..b + count][..n] == ids[b..b + n];
      SteppedRow(plane, ids[b], delta, n);
      var start := plane.Start(ids[b + n]);
      SingleRow(mem, plane, pages, ids[b + n], mem[start..start + plane.row]);
    }
  }
}
