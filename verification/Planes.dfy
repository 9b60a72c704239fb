/** Pages inside a storage plane. In page-major order a page is one contiguous row; in head-major order
    it is one row per head, a plane pitch apart. Both are a `Plane`: page p owns the rows that start at
    base + p * row + h * pitch. */
module Planes {
  import opened Arith
  import opened Bytes
  import opened Dma

  datatype Plane = Plane(base: nat, row: nat, pitch: nat, heads: nat) {
    /** plane_page_bytes. */
    function PageBytes(): nat { heads * row }

    function Start(p: nat): nat { base + p * row }
  }

  /** The plane holds `pages` pages and lies inside a memory of `size` bytes. */
  predicate PlaneFits(plane: Plane, pages: nat, size: nat) {
    && 0 < plane.row && 0 < plane.heads && plane.pitch == pages * plane.row
    && plane.base + plane.heads * plane.pitch <= size
  }

  predicate PlanesApart(a: Plane, b: Plane) {
    a.base + a.heads * a.pitch <= b.base || b.base + b.heads * b.pitch <= a.base
  }

  // ---------------------------------------------------------------------------------------------
  // Reading a page
  // ---------------------------------------------------------------------------------------------

  /** The rows of a pitched region, one after the other. */
  function Rows(mem: seq<byte>, off: nat, pitch: nat, width: nat, height: nat): (r: seq<byte>)
    requires RowsFit(|mem|, off, pitch, width, height)
    ensures |r| == height * width
    decreases height
  {
    if height == 0 then []
    else
      var s := At(off, pitch, height - 1);
      Rows(mem, off, pitch, width, height - 1) + mem[s..s + width]
  }

  lemma PageRowsFit(plane: Plane, pages: nat, size: nat, p: nat)
    requires PlaneFits(plane, pages, size) && p < pages
    ensures RowsFit(size, plane.Start(p), plane.pitch, plane.row, plane.heads)
  {
    forall h | 0 <= h < plane.heads
      ensures At(plane.Start(p), plane.pitch, h) + plane.row <= size
    {
      CellInside(plane, pages, p, h);
    }
  }

  /** Head row h of page p lies in the plane's h-th pitch. */
  lemma CellInside(plane: Plane, pages: nat, p: nat, h: nat)
    requires plane.pitch == pages * plane.row && p < pages && h < plane.heads
    ensures plane.base + h * plane.pitch <= At(plane.Start(p), plane.pitch, h)
    ensures At(plane.Start(p), plane.pitch, h) + plane.row <= plane.base + (h + 1) * plane.pitch
    ensures plane.base + (h + 1) * plane.pitch <= plane.base + plane.heads * plane.pitch
  {
    MulNonNeg(p, plane.row);
    MulMono(p + 1, pages, plane.row);
    assert (p + 1) * plane.row == p * plane.row + plane.row;
    assert (h + 1) * plane.pitch == h * plane.pitch + plane.pitch;
    MulMono(h + 1, plane.heads, plane.pitch);
  }

  /** The bytes of page p, head by head. */
  function PageOf(mem: seq<byte>, plane: Plane, pages: nat, p: nat): (r: seq<byte>)
    requires PlaneFits(plane, pages, |mem|) && p < pages
    ensures |r| == plane.PageBytes()
  {
    PageRowsFit(plane, pages, |mem|, p);
    Rows(mem, plane.Start(p), plane.pitch, plane.row, plane.heads)
  }

  lemma {:induction false} RowsByte(mem: seq<byte>, off: nat, pitch: nat, width: nat, height: nat, h: nat, x: nat)
    requires RowsFit(|mem|, off, pitch, width, height) && h < height && x < width
    ensures At(0, width, h) + x < |Rows(mem, off, pitch, width, height)| && At(off, pitch, h) + x < |mem|
    ensures Rows(mem, off, pitch, width, height)[At(0, width, h) + x] == mem[At(off, pitch, h) + x]
    decreases height
  {
    var n := height - 1;
    assert height * width == n * width + width;
    if h < n {
      RowsByte(mem, off, pitch, width, n, h, x);
    }
  }

  /** Byte x of head h of page p lies h pitches and p rows into the plane. */
  lemma PageByte(mem: seq<byte>, plane: Plane, pages: nat, p: nat, h: nat, x: nat)
    requires PlaneFits(plane, pages, |mem|) && p < pages && h < plane.heads && x < plane.row
    ensures 0 <= h * plane.row + x < |PageOf(mem, plane, pages, p)|
    ensures 0 <= plane.base + h * plane.pitch + p * plane.row + x < |mem|
    ensures PageOf(mem, plane, pages, p)[h * plane.row + x] == mem[plane.base + h * plane.pitch + p * plane.row + x]
  {
    hide Rows;
    PageRowsFit(plane, pages, |mem|, p);
    RowsByte(mem, plane.Start(p), plane.pitch, plane.row, plane.heads, h, x);
    MulNonNeg(h, plane.row);
  }

  // ---------------------------------------------------------------------------------------------
  // Writing a page
  // ---------------------------------------------------------------------------------------------

  /** Page p overwritten by `data`, head by head. */
  function WritePage(mem: seq<byte>, plane: Plane, pages: nat, p: nat, data: seq<byte>): (r: seq<byte>)
    requires PlaneFits(plane, pages, |mem|) && p < pages && |data| == plane.PageBytes()
    ensures |r| == |mem|
  {
    PageRowsFit(plane, pages, |mem|, p);
    SolidRows(|data|, 0, plane.row, plane.heads);
    Blit(mem, plane.Start(p), plane.pitch, data, 0, plane.row, plane.row, plane.heads)
  }

  lemma {:induction false} RowsEqual(a: seq<byte>, aoff: nat, apitch: nat, b: seq<byte>, boff: nat, bpitch: nat,
                                     width: nat, height: nat)
    requires RowsFit(|a|, aoff, apitch, width, height) && RowsFit(|b|, boff, bpitch, width, height)
    requires forall r | 0 <= r < height ::
               a[At(aoff, apitch, r)..At(aoff, apitch, r) + width]
                 == b[At(boff, bpitch, r)..At(boff, bpitch, r) + width]
    ensures Rows(a, aoff, apitch, width, height) == Rows(b, boff, bpitch, width, height)
    decreases height
  {
    hide At;
    if height > 0 {
      RowsEqual(a, aoff, apitch, b, boff, bpitch, width, height - 1);
      var h := height - 1;
      assert a[At(aoff, apitch, h)..At(aoff, apitch, h) + width] == b[At(boff, bpitch, h)..At(boff, bpitch, h) + width];
    }
  }

  /** Rows without gaps are the block itself. */
  lemma {:induction false} RowsSolid(mem: seq<byte>, off: nat, width: nat, height: nat)
    requires off + height * width <= |mem|
    ensures RowsFit(|mem|, off, width, width, height)
    ensures Rows(mem, off, width, width, height) == mem[off..off + height * width]
    decreases height
  {
    SolidRows(|mem|, off, width, height);
    if height > 0 {
      var h := height - 1;
      var n := h * width;
      assert height * width == n + width;
      RowsSolid(mem, off, width, h);
      assert mem[off..off + n] + mem[off + n..off + n + width] == mem[off..off + (n + width)];
    }
  }

  /** A page reads back what was written to it. */
  lemma ReadWritten(mem: seq<byte>, plane: Plane, pages: nat, p: nat, data: seq<byte>)
    requires PlaneFits(plane, pages, |mem|) && p < pages && |data| == plane.PageBytes()
    ensures PageOf(WritePage(mem, plane, pages, p, data), plane, pages, p) == data
  {
    hide At, Blit, Rows;
    var after := WritePage(mem, plane, pages, p, data);
    PageRowsFit(plane, pages, |mem|, p);
    SolidRows(|data|, 0, plane.row, plane.heads);
    RowWithinPitch(plane, pages);
    forall h | 0 <= h < plane.heads
      ensures after[At(plane.Start(p), plane.pitch, h)..At(plane.Start(p), plane.pitch, h) + plane.row]
              == data[At(0, plane.row, h)..At(0, plane.row, h) + plane.row]
    {
      BlitRow(mem, plane.Start(p), plane.pitch, data, 0, plane.row, plane.row, plane.heads, h);
    }
    RowsEqual(after, plane.Start(p), plane.pitch, data, 0, plane.row, plane.row, plane.heads);
    RowsSolid(data, 0, plane.row, plane.heads);
    assert data[0..0 + plane.heads * plane.row] == data;
  }

  lemma RowWithinPitch(plane: Plane, pages: nat)
    requires plane.pitch == pages * plane.row && 0 < pages
    ensures plane.row <= plane.pitch
  {
    MulMono(1, pages, plane.row);
  }

  /** Cells of different pages never meet. */
  lemma CellsApart(plane: Plane, pages: nat, p: nat, q: nat, h: nat, g: nat)
    requires plane.pitch == pages * plane.row && p < pages && q < pages && p != q
    requires h < plane.heads && g < plane.heads
    ensures var a, b := At(plane.Start(p), plane.pitch, h), At(plane.Start(q), plane.pitch, g);
            a + plane.row <= b || b + plane.row <= a
  {
    if h < g {
      CellBelow(plane, pages, p, q, h, g);
    } else if g < h {
      CellBelow(plane, pages, q, p, g, h);
    } else if p < q {
      StepBelow(p, q, plane.row);
    } else {
      StepBelow(q, p, plane.row);
    }
  }

  lemma StepBelow(p: nat, q: nat, row: nat)
    requires p < q
    ensures p * row + row <= q * row
  {
    MulMono(p + 1, q, row);
    assert (p + 1) * row == p * row + row;
  }

  /** A cell of an earlier head lies below every cell of a later one. */
  lemma CellBelow(plane: Plane, pages: nat, p: nat, q: nat, h: nat, g: nat)
    requires plane.pitch == pages * plane.row && p < pages && q < pages && h < g < plane.heads
    ensures At(plane.Start(p), plane.pitch, h) + plane.row <= At(plane.Start(q), plane.pitch, g)
  {
    StepBelow(p, pages, plane.row);
    StepBelow(h, g, plane.pitch);
    MulNonNeg(q, plane.row);
  }

  /** Any region that no row of page p meets survives a write to page p. */
  lemma WriteElsewhere(mem: seq<byte>, plane: Plane, pages: nat, p: nat, data: seq<byte>, lo: nat, hi: nat)
    requires PlaneFits(plane, pages, |mem|) && p < pages && |data| == plane.PageBytes()
    requires lo <= hi <= |mem|
    requires forall h | 0 <= h < plane.heads ::
               hi <= At(plane.Start(p), plane.pitch, h) || At(plane.Start(p), plane.pitch, h) + plane.row <= lo
    ensures WritePage(mem, plane, pages, p, data)[lo..hi] == mem[lo..hi]
  {
    hide At, Blit;
    PageRowsFit(plane, pages, |mem|, p);
    SolidRows(|data|, 0, plane.row, plane.heads);
    BlitElsewhere(mem, plane.Start(p), plane.pitch, data, 0, plane.row, plane.row, plane.heads, lo, hi);
  }

  /** Writing page p leaves every other page of the plane alone. */
  lemma WriteOtherPage(mem: seq<byte>, plane: Plane, pages: nat, p: nat, data: seq<byte>, q: nat)
    requires PlaneFits(plane, pages, |mem|) && p < pages && q < pages && p != q && |data| == plane.PageBytes()
    ensures PageOf(WritePage(mem, plane, pages, p, data), plane, pages, q) == PageOf(mem, plane, pages, q)
  {
    hide At, Blit, Rows;
    var after := WritePage(mem, plane, pages, p, data);
    PageRowsFit(plane, pages, |mem|, q);
    forall g | 0 <= g < plane.heads
      ensures after[At(plane.Start(q), plane.pitch, g)..At(plane.Start(q), plane.pitch, g) + plane.row]
              == mem[At(plane.Start(q), plane.pitch, g)..At(plane.Start(q), plane.pitch, g) + plane.row]
    {
      var b := At(plane.Start(q), plane.pitch, g);
      forall h | 0 <= h < plane.heads
        ensures b + plane.row <= At(plane.Start(p), plane.pitch, h)
                || At(plane.Start(p), plane.pitch, h) + plane.row <= b
      {
        CellsApart(plane, pages, p, q, h, g);
      }
      WriteElsewhere(mem, plane, pages, p, data, b, b + plane.row);
    }
    RowsEqual(after, plane.Start(q), plane.pitch, mem, plane.Start(q), plane.pitch, plane.row, plane.heads);
  }

  /** Writing a page of one plane leaves bytes outside the plane alone. */
  lemma WriteOutside(mem: seq<byte>, plane: Plane, pages: nat, p: nat, data: seq<byte>, lo: nat, hi: nat)
    requires PlaneFits(plane, pages, |mem|) && p < pages && |data| == plane.PageBytes()
    requires lo <= hi <= |mem| && (hi <= plane.base || plane.base + plane.heads * plane.pitch <= lo)
    ensures WritePage(mem, plane, pages, p, data)[lo..hi] == mem[lo..hi]
  {
    hide At, Blit;
    forall h | 0 <= h < plane.heads
      ensures hi <= At(plane.Start(p), plane.pitch, h) || At(plane.Start(p), plane.pitch, h) + plane.row <= lo
    {
      CellInside(plane, pages, p, h);
      MulNonNeg(h, plane.pitch);
    }
    WriteElsewhere(mem, plane, pages, p, data, lo, hi);
  }

  // ---------------------------------------------------------------------------------------------
  // Writing many pages, one at a time: the reference meaning of every coalesced transfer
  // ---------------------------------------------------------------------------------------------

  /** All page ids are valid and all data blocks are page sized. */
  predicate Writable(plane: Plane, pages: nat, ids: seq<nat>, data: seq<seq<byte>>) {
    && |ids| == |data|
    && (forall i | 0 <= i < |ids| :: ids[i] < pages)
    && forall i | 0 <= i < |data| :: |data[i]| == plane.PageBytes()
  }

  function WritePages(mem: seq<byte>, plane: Plane, pages: nat, ids: seq<nat>, data: seq<seq<byte>>): (r: seq<byte>)
    requires PlaneFits(plane, pages, |mem|) && Writable(plane, pages, ids, data)
    ensures |r| == |mem|
  {
    if ids == [] then mem
    else
      var n := |ids| - 1;
      WritePage(WritePages(mem, plane, pages, ids[..n], data[..n]), plane, pages, ids[n], data[n])
  }

  predicate Distinct(ids: seq<nat>) {
    forall i, j | 0 <= i < j < |ids| :: ids[i] != ids[j]
  }

  lemma {:induction false} WrittenPage(mem: seq<byte>, plane: Plane, pages: nat, ids: seq<nat>, data: seq<seq<byte>>,
      i: nat)
    requires PlaneFits(plane, pages, |mem|) && Writable(plane, pages, ids, data) && Distinct(ids) && i < |ids|
    ensures PageOf(WritePages(mem, plane, pages, ids, data), plane, pages, ids[i]) == data[i]
    decreases |ids|
  {
    hide PageOf, WritePage;
    var n := |ids| - 1;
    var before := WritePages(mem, plane, pages, ids[..n], data[..n]);
    if i == n {
      ReadWritten(before, plane, pages, ids[n], data[n]);
    } else {
      WrittenPage(mem, plane, pages, ids[..n], data[..n], i);
      WriteOtherPage(before, plane, pages, ids[n], data[n], ids[i]);
    }
  }

  lemma {:induction false} UnwrittenPage(mem: seq<byte>, plane: Plane, pages: nat, ids: seq<nat>,
      data: seq<seq<byte>>, q: nat)
    requires PlaneFits(plane, pages, |mem|) && Writable(plane, pages, ids, data) && q < pages && q !in ids
    ensures PageOf(WritePages(mem, plane, pages, ids, data), plane, pages, q) == PageOf(mem, plane, pages, q)
    decreases |ids|
  {
    hide PageOf, WritePage;
    if ids != [] {
      var n := |ids| - 1;
      UnwrittenPage(mem, plane, pages, ids[..n], data[..n], q);
      WriteOtherPage(WritePages(mem, plane, pages, ids[..n], data[..n]), plane, pages, ids[n], data[n], q);
    }
  }

  lemma {:induction false} UnwrittenOutside(mem: seq<byte>, plane: Plane, pages: nat, ids: seq<nat>,
      data: seq<seq<byte>>,
                                            lo: nat, hi: nat)
    requires PlaneFits(plane, pages, |mem|) && Writable(plane, pages, ids, data)
    requires lo <= hi <= |mem| && (hi <= plane.base || plane.base + plane.heads * plane.pitch <= lo)
    ensures WritePages(mem, plane, pages, ids, data)[lo..hi] == mem[lo..hi]
    decreases |ids|
  {
    hide PageOf, WritePage;
    if ids != [] {
      var n := |ids| - 1;
      UnwrittenOutside(mem, plane, pages, ids[..n], data[..n], lo, hi);
      WriteOutside(WritePages(mem, plane, pages, ids[..n], data[..n]), plane, pages, ids[n], data[n], lo, hi);
    }
  }

  /** A page of a plane that lies apart keeps its bytes. */
  lemma OtherPlane(mem: seq<byte>, after: seq<byte>, a: Plane, b: Plane, pages: nat, q: nat)
    requires |after| == |mem| && PlaneFits(b, pages, |mem|) && q < pages && PlanesApart(a, b)
    requires forall lo, hi | 0 <= lo <= hi <= |mem| && (hi <= a.base || a.base + a.heads * a.pitch <= lo) ::
               after[lo..hi] == mem[lo..hi]
    ensures PageOf(after, b, pages, q) == PageOf(mem, b, pages, q)
  {
    hide At, Rows;
    PageRowsFit(b, pages, |mem|, q);
    forall h | 0 <= h < b.heads
      ensures after[At(b.Start(q), b.pitch, h)..At(b.Start(q), b.pitch, h) + b.row]
              == mem[At(b.Start(q), b.pitch, h)..At(b.Start(q), b.pitch, h) + b.row]
    {
      CellInside(b, pages, q, h);
      MulNonNeg(h, b.pitch);
    }
    RowsEqual(after, b.Start(q), b.pitch, mem, b.Start(q), b.pitch, b.row, b.heads);
  }
}
