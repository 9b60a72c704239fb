/** Moving the pages of one plane between device and host (src/core/paged_kv_cache.cpp): every coalesced
    transfer is proved equal to the page-at-a-time transfer it stands for. */
module PlaneTransfer {
  import opened Arith
  import opened Bytes
  import opened Dma
  import opened Planes
  import opened PageRuns
  import opened PageStore

  // ---------------------------------------------------------------------------------------------
  // Packing one plane
  // ---------------------------------------------------------------------------------------------

  /** The longest progression from index b: at least two ids a positive step apart. */
  method RunEnd(ids: seq<nat>, b: nat, delta: nat) returns (end: nat)
    requires b + 1 < |ids| && 0 < delta && ids[b + 1] == ids[b] + delta
    ensures b < end < |ids| && Progression(ids, b, delta, end - b + 1)
  {
    end := b + 1;
    while end + 1 < |ids| && ids[end + 1] == ids[end] + delta
      invariant b < end < |ids|
      invariant forall i: nat | i <= end - b :: ids[b + i] == Stepped(ids[b], delta, i)
    {
      SteppedNext(ids[b], delta, end - b);
      end := end + 1;
    }
  }

  lemma SteppedNext(first: nat, delta: nat, i: nat)
    ensures Stepped(first, delta, i + 1) == Stepped(first, delta, i) + delta
  {
    assert (i + 1) * delta == i * delta + delta;
  }

  lemma SplitProduct(out: nat, b: nat, count: nat, n: nat, size: nat, limit: nat)
    requires b + count <= n && out + n * size <= limit
    ensures (b + count) * size == b * size + count * size && 0 <= b * size && 0 <= count * size
    ensures out + b * size + count * size <= limit
  {
    MulMono(b + count, n, size);
    MulNonNeg(b, size);
    MulNonNeg(count, size);
  }

  /** Appending the image of the next pages. */
  lemma PackStep(host: seq<byte>, out: nat, at: nat, mem: seq<byte>, plane: Plane, pages: nat, ids: seq<nat>, b: nat,
      count: nat)
    requires PlaneFits(plane, pages, |mem|) && IdsFit(pages, ids) && b + count <= |ids|
    requires at == out + b * plane.PageBytes() && out + |ids| * plane.PageBytes() <= |host|
    ensures at + count * plane.PageBytes() <= |host| && out + (b + count) * plane.PageBytes() <= |host|
    ensures Splice(Splice(host, out, PlaneImage(mem, plane, pages, ids[..b])), at,
            PlaneImage(mem, plane, pages, ids[b..b + count]))
            == Splice(host, out, PlaneImage(mem, plane, pages, ids[..b + count]))
  {
    hide PlaneImage, Splice, PlaneFits, Plane.PageBytes;
    SplitProduct(out, b, count, |ids|, plane.PageBytes(), |host|);
    var x, y := PlaneImage(mem, plane, pages, ids[..b]), PlaneImage(mem, plane, pages, ids[b..b + count]);
    assert PlaneImage(mem, plane, pages, ids[..b + count]) == x + y by {
      assert ids[..b + count] == ids[..b] + ids[b..b + count];
      PlaneImageJoin(mem, plane, pages, ids[..b], ids[b..b + count]);
    }
    SpliceJoin(host, out, x, y);
  }

  lemma OneImage(mem: seq<byte>, plane: Plane, pages: nat, ids: seq<nat>, b: nat)
    requires PlaneFits(plane, pages, |mem|) && IdsFit(pages, ids) && b < |ids|
    ensures PlaneImage(mem, plane, pages, ids[b..b + 1]) == PageOf(mem, plane, pages, ids[b])
  {
    hide PageOf;
    var one := ids[b..b + 1];
    assert one[..0] == [] && PlaneImage(mem, plane, pages, one[..0]) == [];
  }

  /** One page-major page, as the single copy the source issues. */
  method PackOne(host: array<byte>, at: nat, device: array<byte>, plane: Plane, pages: nat, p: nat)
    requires host != device && PlaneFits(plane, pages, device.Length) && plane.heads == 1 && p < pages
    requires at + plane.row <= host.Length
    modifies host
    ensures host[..] == Splice(old(host[..]), at, PageOf(device[..], plane, pages, p))
  {
    hide PageOf, Splice;
    ghost var start := plane.Start(p);
    assert plane.Start(p) + plane.row <= device.Length by {
      CellInside(plane, pages, p, 0);
      AtIs(start, plane.pitch, 0);
    }
    SingleRow(device[..], plane, pages, p, device[..][start..start + plane.row]);
    assert device[start..start + plane.row] == device[..][start..start + plane.row];
    Copy(host, at, device, plane.Start(p), plane.row);
  }

  /** A progression of page-major pages, as one contiguous or one pitched copy. */
  method PackProgression(host: array<byte>, at: nat, device: array<byte>, plane: Plane, pages: nat, ids: seq<nat>,
                         b: nat, delta: nat, count: nat)
    requires host != device && PlaneFits(plane, pages, device.Length) && plane.heads == 1 && IdsFit(pages, ids)
    requires b < |ids| && 0 < delta && Progression(ids, b, delta, count)
    requires at + count * plane.row <= host.Length
    modifies host
    ensures host[..] == Splice(old(host[..]), at, PlaneImage(device[..], plane, pages, ids[b..b + count]))
  {
    hide PlaneImage, Splice, Blit, PlaneFits, At, Rows, RowsFit, Plane.Start, Progression;
    ProgressionRows(device[..], plane, pages, ids, b, delta, count);
    var start := plane.Start(ids[b]);
    if delta == 1 {
      SolidRun(device[..], plane, pages, ids, b, count);
      assert device[start..start + count * plane.row] == device[..][start..start + count * plane.row];
      Copy(host, at, device, start, count * plane.row);
    } else {
      BlitRows(host[..], at, device[..], start, delta * plane.row, plane.row, count);
      Copy2D(host, at, plane.row, device, start, delta * plane.row, plane.row, count);
    }
  }

  /** Consecutive page-major pages are one contiguous block of the plane. */
  lemma SolidRun(mem: seq<byte>, plane: Plane, pages: nat, ids: seq<nat>, b: nat, count: nat)
    requires PlaneFits(plane, pages, |mem|) && plane.heads == 1 && IdsFit(pages, ids)
    requires b < |ids| && Progression(ids, b, 1, count)
    ensures plane.Start(ids[b]) + count * plane.row <= |mem|
    ensures PlaneImage(mem, plane, pages, ids[b..b + count])
            == mem[plane.Start(ids[b])..plane.Start(ids[b]) + count * plane.row]
  {
    hide PlaneImage;
    ProgressionRows(mem, plane, pages, ids, b, 1, count);
    assert 1 * plane.row == plane.row;
    RunInside(plane, pages, |mem|, ids, b, count);
    RowsSolid(mem, plane.Start(ids[b]), plane.row, count);
  }

  lemma RunInside(plane: Plane, pages: nat, size: nat, ids: seq<nat>, b: nat, count: nat)
    requires PlaneFits(plane, pages, size) && plane.heads == 1 && IdsFit(pages, ids)
    requires b < |ids| && Progression(ids, b, 1, count)
    ensures ids[b] + count <= pages && plane.Start(ids[b]) + count * plane.row <= size
  {
    if count > 0 { assert ids[b + (count - 1)] == Stepped(ids[b], 1, count - 1); }
    assert (ids[b] + count) * plane.row == ids[b] * plane.row + count * plane.row;
    MulMono(ids[b] + count, pages, plane.row);
  }

  /** pack_page_major_pages: runs and arithmetic progressions coalesced, the rest page by page. */
  method PackPageMajor(host: array<byte>, out: nat, device: array<byte>, plane: Plane, pages: nat, ids: seq<nat>)
    requires host != device && PlaneFits(plane, pages, device.Length) && plane.heads == 1 && IdsFit(pages, ids)
    requires out + |ids| * plane.PageBytes() <= host.Length
    modifies host
    ensures host[..] == Splice(old(host[..]), out, PlaneImage(device[..], plane, pages, ids))
  {
    hide PlaneImage, Splice, PageOf, PlaneFits;
    ghost var before, mem := host[..], device[..];
    var bpp := plane.PageBytes();
    assert bpp == plane.row;
    assert ids[..0] == [];
    NothingPacked(before, out, mem, plane, pages);
    var begin := 0;
    while begin < |ids|
      invariant begin <= |ids| && device[..] == mem
      invariant host[..] == Splice(before, out, PlaneImage(mem, plane, pages, ids[..begin]))
    {
      MulNonNeg(begin, bpp);
      var at := out + begin * bpp;
      if begin + 1 >= |ids| || ids[begin + 1] <= ids[begin] {
        PackStep(before, out, at, mem, plane, pages, ids, begin, 1);
        OneImage(mem, plane, pages, ids, begin);
        PackOne(host, at, device, plane, pages, ids[begin]);
        begin := begin + 1;
      } else {
        var delta := ids[begin + 1] - ids[begin];
        var end := RunEnd(ids, begin, delta);
        var count := end - begin + 1;
        PackStep(before, out, at, mem, plane, pages, ids, begin, count);
        PackProgression(host, at, device, plane, pages, ids, begin, delta, count);
        begin := end + 1;
      }
    }
    assert ids[..|ids|] == ids;
  }

  lemma NothingPacked(host: seq<byte>, out: nat, mem: seq<byte>, plane: Plane, pages: nat)
    requires PlaneFits(plane, pages, |mem|) && out <= |host|
    ensures Splice(host, out, PlaneImage(mem, plane, pages, [])) == host
  {}

  /** The head-major branch: one pitched copy per page. */
  method PackHeadMajor(host: array<byte>, out: nat, device: array<byte>, plane: Plane, pages: nat, ids: seq<nat>)
    requires host != device && PlaneFits(plane, pages, device.Length) && IdsFit(pages, ids)
    requires out + |ids| * plane.PageBytes() <= host.Length
    modifies host
    ensures host[..] == Splice(old(host[..]), out, PlaneImage(device[..], plane, pages, ids))
  {
    hide PlaneImage, Splice, Blit, At;
    ghost var before, mem := host[..], device[..];
    var bpp := plane.PageBytes();
    assert ids[..0] == [];
    NothingPacked(before, out, mem, plane, pages);
    for i := 0 to |ids|
      invariant device[..] == mem
      invariant host[..] == Splice(before, out, PlaneImage(mem, plane, pages, ids[..i]))
    {
      MulNonNeg(i, bpp);
      var at := out + i * bpp;
      PackStep(before, out, at, mem, plane, pages, ids, i, 1);
      OneImage(mem, plane, pages, ids, i);
      PageRowsFit(plane, pages, |mem|, ids[i]);
      BlitRows(host[..], at, mem, plane.Start(ids[i]), plane.pitch, plane.row, plane.heads);
      Copy2D(host, at, plane.row, device, plane.Start(ids[i]), plane.pitch, plane.row, plane.heads);
    }
    assert ids[..|ids|] == ids;
  }

  // ---------------------------------------------------------------------------------------------
  // Unpacking one plane
  // ---------------------------------------------------------------------------------------------

  /** The blocks b .. b + count of equal-sized blocks start where block b starts. */
  lemma SlicesSub(src: seq<byte>, off: nat, at: nat, size: nat, n: nat, b: nat, count: nat)
    requires off + n * size <= |src| && b + count <= n && at == off + b * size
    ensures at + count * size <= |src|
    ensures Slices(src, at, size, count) == Slices(src, off, size, n)[b..b + count]
  {
    SplitProduct(off, b, count, n, size, |src|);
    var x, y := Slices(src, at, size, count), Slices(src, off, size, n);
    forall i | 0 <= i < count ensures x[i] == y[b + i] {
      assert At(off, size, b + i) == At(at, size, i) by { assert (b + i) * size == b * size + i * size; }
    }
  }

  /** Writing the blocks of pages b .. b + count from their place in the host buffer is the next part of the whole. */
  lemma UnpackPart(before: seq<byte>, plane: Plane, pages: nat, ids: seq<nat>, host: seq<byte>, src: nat, at: nat,
      b: nat,
                   count: nat)
    requires PlaneFits(plane, pages, |before|) && IdsFit(pages, ids) && b + count <= |ids|
    requires src + |ids| * plane.PageBytes() <= |host| && at == src + b * plane.PageBytes()
    ensures at + count * plane.PageBytes() <= |host|
    ensures var blocks, part := Slices(host, src, plane.PageBytes(), |ids|), Slices(host, at, plane.PageBytes(), count);
            && Writable(plane, pages, ids[..b], blocks[..b]) && Writable(plane, pages, ids[b..b + count], part)
            && WritePages(WritePages(before, plane, pages, ids[..b], blocks[..b]), plane, pages, ids[b..b + count],
              part)
               == WritePages(before, plane, pages, ids[..b + count], blocks[..b + count])
    ensures count == 1 ==> ids[b..b + 1] == [ids[b]] && at + plane.PageBytes() <= |host|
                           && Slices(host, at, plane.PageBytes(), 1) == [host[at..at + plane.PageBytes()]]
  {
    hide WritePages, PlaneFits, Plane.PageBytes, At;
    var blocks := Slices(host, src, plane.PageBytes(), |ids|);
    SlicesSub(host, src, at, plane.PageBytes(), |ids|, b, count);
    WriteStep(before, plane, pages, ids, blocks, b, count);
    if count == 1 { FirstSlice(host, at, plane.PageBytes()); }
  }

  method UnpackOne(device: array<byte>, plane: Plane, pages: nat, p: nat, host: array<byte>, at: nat)
    requires host != device && PlaneFits(plane, pages, device.Length) && plane.heads == 1 && p < pages
    requires at + plane.row <= host.Length
    modifies device
    ensures device[..] == WritePages(old(device[..]), plane, pages, [p], [host[at..at + plane.row]])
  {
    hide WritePages, WritePage, Splice;
    SingleRow(device[..], plane, pages, p, host[at..at + plane.row]);
    WriteOne(device[..], plane, pages, p, host[at..at + plane.row]);
    Copy(device, plane.Start(p), host, at, plane.row);
  }

  /** A progression of page-major pages, as one contiguous or one pitched copy. */
  method UnpackProgression(device: array<byte>, plane: Plane, pages: nat, ids: seq<nat>, b: nat, delta: nat, count: nat,
                           host: array<byte>, at: nat)
    requires host != device && PlaneFits(plane, pages, device.Length) && plane.heads == 1 && IdsFit(pages, ids)
    requires b < |ids| && 0 < delta && Progression(ids, b, delta, count)
    requires at + count * plane.row <= host.Length
    modifies device
    ensures Writable(plane, pages, ids[b..b + count], Slices(host[..], at, plane.row, count))
    ensures device[..] == WritePages(old(device[..]), plane, pages, ids[b..b + count],
            Slices(host[..], at, plane.row, count))
  {
    hide WritePages, Splice, Blit, PlaneFits, At;
    ProgressionWrite(device[..], plane, pages, ids, b, delta, count, host[..], at);
    var start := plane.Start(ids[b]);
    if delta == 1 {
      assert 1 * plane.row == plane.row;
      RunInside(plane, pages, device.Length, ids, b, count);
      BlitSolid(device[..], start, host[..], at, plane.row, count);
      assert host[at..at + count * plane.row] == host[..][at..at + count * plane.row];
      Copy(device, start, host, at, count * plane.row);
    } else {
      Copy2D(device, start, delta * plane.row, host, at, plane.row, plane.row, count);
    }
  }

  /** unpack_page_major_pages. */
  method UnpackPageMajor(device: array<byte>, plane: Plane, pages: nat, ids: seq<nat>, host: array<byte>, src: nat)
    requires host != device && PlaneFits(plane, pages, device.Length) && plane.heads == 1 && IdsFit(pages, ids)
    requires src + |ids| * plane.PageBytes() <= host.Length
    modifies device
    ensures device[..] == WritePages(old(device[..]), plane, pages, ids,
            Slices(host[..], src, plane.PageBytes(), |ids|))
  {
    hide WritePages, PlaneFits;
    ghost var before, blocks := device[..], Slices(host[..], src, plane.PageBytes(), |ids|);
    var bpp := plane.PageBytes();
    assert bpp == plane.row;
    assert ids[..0] == [] && blocks[..0] == [];
    WriteNone(before, plane, pages);
    var begin := 0;
    while begin < |ids|
      invariant begin <= |ids|
      invariant device[..] == WritePages(before, plane, pages, ids[..begin], blocks[..begin])
    {
      MulNonNeg(begin, bpp);
      var at := src + begin * bpp;
      if begin + 1 >= |ids| || ids[begin + 1] <= ids[begin] {
        UnpackPart(before, plane, pages, ids, host[..], src, at, begin, 1);
        assert host[at..at + plane.row] == host[..][at..at + plane.row];
        UnpackOne(device, plane, pages, ids[begin], host, at);
        begin := begin + 1;
      } else {
        var delta := ids[begin + 1] - ids[begin];
        var end := RunEnd(ids, begin, delta);
        var count := end - begin + 1;
        UnpackPart(before, plane, pages, ids, host[..], src, at, begin, count);
        UnpackProgression(device, plane, pages, ids, begin, delta, count, host, at);
        begin := end + 1;
      }
    }
    assert ids[..|ids|] == ids && blocks[..|ids|] == blocks;
  }

  lemma FirstSlice(src: seq<byte>, at: nat, size: nat)
    requires at + size <= |src|
    ensures Slices(src, at, size, 1) == [src[at..at + size]]
  {
    AtIs(at, size, 0);
  }

  /** The head-major branch: one pitched copy per page. */
  method UnpackHeadMajor(device: array<byte>, plane: Plane, pages: nat, ids: seq<nat>, host: array<byte>, src: nat)
    requires host != device && PlaneFits(plane, pages, device.Length) && IdsFit(pages, ids)
    requires src + |ids| * plane.PageBytes() <= host.Length
    modifies device
    ensures device[..] == WritePages(old(device[..]), plane, pages, ids,
            Slices(host[..], src, plane.PageBytes(), |ids|))
  {
    hide WritePages, PlaneFits, Plane.PageBytes, Plane.Start;
    ghost var before, blocks := device[..], Slices(host[..], src, plane.PageBytes(), |ids|);
    var bpp := plane.PageBytes();
    assert ids[..0] == [] && blocks[..0] == [];
    WriteNone(before, plane, pages);
    for i := 0 to |ids|
      invariant device[..] == WritePages(before, plane, pages, ids[..i], blocks[..i])
    {
      MulNonNeg(i, bpp);
      var at := src + i * bpp;
      UnpackPart(before, plane, pages, ids, host[..], src, at, i, 1);
      assert host[at..at + bpp] == host[..][at..at + bpp];
      UnpackPage(device, plane, pages, ids[i], host, at);
    }
    assert ids[..|ids|] == ids && blocks[..|ids|] == blocks;
  }

  /** One page in either order, as one pitched copy. */
  method UnpackPage(device: array<byte>, plane: Plane, pages: nat, p: nat, host: array<byte>, at: nat)
    requires host != device && PlaneFits(plane, pages, device.Length) && p < pages
    requires at + plane.PageBytes() <= host.Length
    modifies device
    ensures device[..] == WritePages(old(device[..]), plane, pages, [p], [host[at..at + plane.PageBytes()]])
  {
    hide WritePages, WritePage, Blit, At;
    RowsSolid(host[..], at, plane.row, plane.heads);
    BlitIsWrite(device[..], plane, pages, p, host[..], at, plane.row);
    WriteOne(device[..], plane, pages, p, host[at..at + plane.PageBytes()]);
    assert host[at..at + plane.PageBytes()] == host[..][at..at + plane.PageBytes()];
    Copy2D(device, plane.Start(p), plane.pitch, host, at, plane.row, plane.row, plane.heads);
  }
}
