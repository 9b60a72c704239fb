/** All planes of a pool together: writing logical pages across every plane, packed host images, and the
    laws that connect them. */
module PageStore {
  import opened Arith
  import opened Bytes
  import opened Dma
  import opened Planes
  import opened PageRuns

  /** Every plane fits the memory and no two planes meet. */
  predicate StoreFits(planes: seq<Plane>, pages: nat, size: nat) {
    && (forall k | 0 <= k < |planes| :: PlaneFits(planes[k], pages, size))
    && forall j, k | 0 <= j < k < |planes| :: PlanesApart(planes[j], planes[k])
  }

  /** One block per plane and page. */
  type Grid = seq<seq<seq<byte>>>

  predicate GridFits(planes: seq<Plane>, pages: nat, ids: seq<nat>, data: Grid) {
    |data| == |planes| && forall k | 0 <= k < |planes| :: Writable(planes[k], pages, ids, data[k])
  }

  /** The pages `ids` of every plane overwritten, plane after plane. */
  function WriteAll(mem: seq<byte>, planes: seq<Plane>, pages: nat, ids: seq<nat>, data: Grid): (r: seq<byte>)
    requires StoreFits(planes, pages, |mem|) && GridFits(planes, pages, ids, data)
    ensures |r| == |mem|
  {
    if planes == [] then mem
    else
      var n := |planes| - 1;
      WritePages(WriteAll(mem, planes[..n], pages, ids, data[..n]), planes[n], pages, ids, data[n])
  }

  predicate Beyond(planes: seq<Plane>, lo: nat, hi: nat) {
    forall k | 0 <= k < |planes| :: hi <= planes[k].base || planes[k].base + planes[k].heads * planes[k].pitch <= lo
  }

  lemma {:induction false} WriteAllBeyond(mem: seq<byte>, planes: seq<Plane>, pages: nat, ids: seq<nat>, data: Grid,
      lo: nat, hi: nat)
    requires StoreFits(planes, pages, |mem|) && GridFits(planes, pages, ids, data)
    requires lo <= hi <= |mem| && Beyond(planes, lo, hi)
    ensures WriteAll(mem, planes, pages, ids, data)[lo..hi] == mem[lo..hi]
    decreases |planes|
  {
    hide WritePages;
    if planes != [] {
      var n := |planes| - 1;
      WriteAllBeyond(mem, planes[..n], pages, ids, data[..n], lo, hi);
      UnwrittenOutside(WriteAll(mem, planes[..n], pages, ids, data[..n]), planes[n], pages, ids, data[n], lo, hi);
    }
  }

  /** A plane apart from all written planes keeps its pages. */
  lemma WriteAllApart(mem: seq<byte>, planes: seq<Plane>, pages: nat, ids: seq<nat>, data: Grid, b: Plane, q: nat)
    requires StoreFits(planes, pages, |mem|) && GridFits(planes, pages, ids, data)
    requires PlaneFits(b, pages, |mem|) && q < pages && forall k | 0 <= k < |planes| :: PlanesApart(planes[k], b)
    ensures PageOf(WriteAll(mem, planes, pages, ids, data), b, pages, q) == PageOf(mem, b, pages, q)
  {
    hide At, Rows, WriteAll, GridFits, StoreFits;
    var after := WriteAll(mem, planes, pages, ids, data);
    PageRowsFit(b, pages, |mem|, q);
    forall h | 0 <= h < b.heads
      ensures after[At(b.Start(q), b.pitch, h)..At(b.Start(q), b.pitch, h) + b.row]
              == mem[At(b.Start(q), b.pitch, h)..At(b.Start(q), b.pitch, h) + b.row]
    {
      CellInside(b, pages, q, h);
      MulNonNeg(h, b.pitch);
      var s := At(b.Start(q), b.pitch, h);
      assert Beyond(planes, s, s + b.row) by {
        forall k | 0 <= k < |planes|
          ensures s + b.row <= planes[k].base || planes[k].base + planes[k].heads * planes[k].pitch <= s
        {
          assert PlanesApart(planes[k], b);
        }
      }
      WriteAllBeyond(mem, planes, pages, ids, data, s, s + b.row);
    }
    RowsEqual(after, b.Start(q), b.pitch, mem, b.Start(q), b.pitch, b.row, b.heads);
  }

  /** In plane k, only plane k's own write counts. */
  lemma {:induction false} WriteAllPlane(mem: seq<byte>, planes: seq<Plane>, pages: nat, ids: seq<nat>, data: Grid,
      k: nat, q: nat)
    requires StoreFits(planes, pages, |mem|) && GridFits(planes, pages, ids, data) && Distinct(ids)
    requires k < |planes| && q < pages
    ensures q !in ids ==> PageOf(WriteAll(mem, planes, pages, ids, data), planes[k], pages, q)
                          == PageOf(mem, planes[k], pages, q)
    ensures forall i | 0 <= i < |ids| && ids[i] == q ::
              PageOf(WriteAll(mem, planes, pages, ids, data), planes[k], pages, q) == data[k][i]
    decreases |planes|
  {
    hide PageOf, WritePages, PlanesApart;
    var n := |planes| - 1;
    var before := WriteAll(mem, planes[..n], pages, ids, data[..n]);
    if k == n {
      WriteAllApart(mem, planes[..n], pages, ids, data[..n], planes[n], q);
      if q in ids {
        var i :| 0 <= i < |ids| && ids[i] == q;
        WrittenPage(before, planes[n], pages, ids, data[n], i);
      } else {
        UnwrittenPage(before, planes[n], pages, ids, data[n], q);
      }
    } else {
      WriteAllPlane(mem, planes[..n], pages, ids, data[..n], k, q);
      var after := WritePages(before, planes[n], pages, ids, data[n]);
      forall lo, hi | 0 <= lo <= hi <= |before|
             && (hi <= planes[n].base || planes[n].base + planes[n].heads * planes[n].pitch <= lo)
        ensures after[lo..hi] == before[lo..hi]
      {
        UnwrittenOutside(before, planes[n], pages, ids, data[n], lo, hi);
      }
      ApartSym(planes[k], planes[n]);
      OtherPlane(before, after, planes[n], planes[k], pages, q);
    }
  }

  lemma ApartSym(a: Plane, b: Plane)
    ensures PlanesApart(a, b) <==> PlanesApart(b, a)
  {}

  // ---------------------------------------------------------------------------------------------
  // What a transfer did, and that this determines the memory
  // ---------------------------------------------------------------------------------------------

  /** `after` differs from `before` exactly in the pages `ids`, which hold `data` in every plane. */
  ghost predicate WroteExactly(before: seq<byte>, after: seq<byte>, planes: seq<Plane>, pages: nat, ids: seq<nat>,
      data: Grid)
    requires StoreFits(planes, pages, |before|) && GridFits(planes, pages, ids, data)
  {
    && |after| == |before|
    && (forall k, i | 0 <= k < |planes| && 0 <= i < |ids| :: PageOf(after, planes[k], pages, ids[i]) == data[k][i])
    && (forall k, q | 0 <= k < |planes| && 0 <= q < pages && q !in ids ::
          PageOf(after, planes[k], pages, q) == PageOf(before, planes[k], pages, q))
    && forall x | 0 <= x < |before| && Beyond(planes, x, x + 1) :: after[x] == before[x]
  }

  lemma WriteAllExact(mem: seq<byte>, planes: seq<Plane>, pages: nat, ids: seq<nat>, data: Grid)
    requires StoreFits(planes, pages, |mem|) && GridFits(planes, pages, ids, data) && Distinct(ids)
    ensures WroteExactly(mem, WriteAll(mem, planes, pages, ids, data), planes, pages, ids, data)
  {
    hide PageOf, WriteAll;
    var after := WriteAll(mem, planes, pages, ids, data);
    forall k, i | 0 <= k < |planes| && 0 <= i < |ids| ensures PageOf(after, planes[k], pages, ids[i]) == data[k][i] {
      assert Writable(planes[k], pages, ids, data[k]);
      WriteAllPlane(mem, planes, pages, ids, data, k, ids[i]);
    }
    forall k, q | 0 <= k < |planes| && 0 <= q < pages && q !in ids
      ensures PageOf(after, planes[k], pages, q) == PageOf(mem, planes[k], pages, q)
    {
      WriteAllPlane(mem, planes, pages, ids, data, k, q);
    }
    forall x | 0 <= x < |mem| && Beyond(planes, x, x + 1) ensures after[x] == mem[x] {
      WriteAllBeyond(mem, planes, pages, ids, data, x, x + 1);
      assert after[x..x + 1][0] == mem[x..x + 1][0];
    }
  }

  lemma PrefixSlice(s: seq<byte>, t: seq<byte>, a: nat, b: nat)
    requires a <= b <= |s|
    ensures (s + t)[a..b] == s[a..b]
  {
    assert forall i | a <= i < b :: (s + t)[i] == s[i];
  }

  /** Row r of a pitched region, found in the concatenation of the rows. */
  lemma {:induction false} RowsBlock(mem: seq<byte>, off: nat, pitch: nat, width: nat, height: nat, r: nat)
    requires RowsFit(|mem|, off, pitch, width, height) && r < height
    ensures At(0, width, r) + width <= |Rows(mem, off, pitch, width, height)| && At(off, pitch, r) + width <= |mem|
    ensures Rows(mem, off, pitch, width, height)[At(0, width, r)..At(0, width, r) + width]
            == mem[At(off, pitch, r)..At(off, pitch, r) + width]
    decreases height
  {
    hide At;
    var n := height - 1;
    AtIs(0, width, r);
    var rest := Rows(mem, off, pitch, width, n);
    var s := At(off, pitch, n);
    assert s + width <= |mem|;
    if r < n {
      RowsBlock(mem, off, pitch, width, n, r);
      PrefixSlice(rest, mem[s..s + width], At(0, width, r), At(0, width, r) + width);
    } else {
      assert (rest + mem[s..s + width])[|rest|..|rest| + width] == mem[s..s + width];
    }
  }

  /** Every byte of a plane belongs to one row of one page. */
  lemma FindCell(plane: Plane, pages: nat, size: nat, x: nat) returns (p: nat, h: nat)
    requires PlaneFits(plane, pages, size) && plane.base <= x < plane.base + plane.heads * plane.pitch
    ensures p < pages && h < plane.heads
    ensures At(plane.Start(p), plane.pitch, h) <= x < At(plane.Start(p), plane.pitch, h) + plane.row
  {
    var y := x - plane.base;
    assert plane.pitch != 0 by { assert plane.heads * 0 == 0; }
    h := y / plane.pitch;
    var m := y % plane.pitch;
    p := m / plane.row;
    assert y == h * plane.pitch + m;
    assert m == p * plane.row + m % plane.row;
    if plane.heads <= h { MulMono(plane.heads, h, plane.pitch); }
    if pages <= p { MulMono(pages, p, plane.row); }
  }

  /** Memories that agree on every page and outside all planes are equal. */
  lemma SameMemory(a: seq<byte>, b: seq<byte>, planes: seq<Plane>, pages: nat)
    requires |a| == |b| && StoreFits(planes, pages, |a|)
    requires forall k, q | 0 <= k < |planes| && 0 <= q < pages ::
             PageOf(a, planes[k], pages, q) == PageOf(b, planes[k], pages, q)
    requires forall x | 0 <= x < |a| && Beyond(planes, x, x + 1) :: a[x] == b[x]
    ensures a == b
  {
    hide PageOf;
    forall x | 0 <= x < |a| ensures a[x] == b[x] {
      if !Beyond(planes, x, x + 1) {
        var k :| 0 <= k < |planes| && planes[k].base <= x < planes[k].base + planes[k].heads * planes[k].pitch;
        var p, h := FindCell(planes[k], pages, |a|, x);
        SameCell(a, b, planes[k], pages, p, h, x);
      }
    }
  }

  lemma SameCell(a: seq<byte>, b: seq<byte>, plane: Plane, pages: nat, p: nat, h: nat, x: nat)
    requires |a| == |b| && PlaneFits(plane, pages, |a|) && p < pages && h < plane.heads && x < |a|
    requires PageOf(a, plane, pages, p) == PageOf(b, plane, pages, p)
    requires At(plane.Start(p), plane.pitch, h) <= x < At(plane.Start(p), plane.pitch, h) + plane.row
    ensures a[x] == b[x]
  {
    hide At, Rows;
    PageRowsFit(plane, pages, |a|, p);
    RowsBlock(a, plane.Start(p), plane.pitch, plane.row, plane.heads, h);
    RowsBlock(b, plane.Start(p), plane.pitch, plane.row, plane.heads, h);
    var s := At(plane.Start(p), plane.pitch, h);
    assert a[s..s + plane.row][x - s] == b[s..s + plane.row][x - s];
  }

  /** A transfer's description leaves no freedom: it determines the memory. */
  lemma WroteExactlyDetermines(before: seq<byte>, a: seq<byte>, b: seq<byte>, planes: seq<Plane>, pages: nat,
      ids: seq<nat>, data: Grid)
    requires StoreFits(planes, pages, |before|) && GridFits(planes, pages, ids, data)
    requires WroteExactly(before, a, planes, pages, ids, data) && WroteExactly(before, b, planes, pages, ids, data)
    ensures a == b
  {
    hide PageOf;
    forall k, q | 0 <= k < |planes| && 0 <= q < pages
      ensures PageOf(a, planes[k], pages, q) == PageOf(b, planes[k], pages, q)
    {
      if q in ids {
        var i :| 0 <= i < |ids| && ids[i] == q;
        assert PageOf(a, planes[k], pages, ids[i]) == data[k][i] && PageOf(b, planes[k], pages, ids[i]) == data[k][i];
      }
    }
    SameMemory(a, b, planes, pages);
  }

  // ---------------------------------------------------------------------------------------------
  // Packed host images
  // ---------------------------------------------------------------------------------------------

  /** Where plane k starts in an image of `count` pages. */
  function PlaneOffset(planes: seq<Plane>, count: nat, k: nat): nat
    requires k <= |planes|
  {
    if k == 0 then 0 else PlaneOffset(planes, count, k - 1) + count * planes[k - 1].PageBytes()
  }

  /** paged_kv_host_image_bytes, without the overflow checks. */
  function ImageBytes(planes: seq<Plane>, count: nat): nat { PlaneOffset(planes, count, |planes|) }

  predicate IdsFit(pages: nat, ids: seq<nat>) { forall i | 0 <= i < |ids| :: ids[i] < pages }

  /** The image of the pages `ids`: plane after plane, page after page. */
  function Image(mem: seq<byte>, planes: seq<Plane>, pages: nat, ids: seq<nat>): (r: seq<byte>)
    requires StoreFits(planes, pages, |mem|) && IdsFit(pages, ids)
    ensures |r| == ImageBytes(planes, |ids|)
  {
    if planes == [] then []
    else
      var n := |planes| - 1;
      OffsetPrefix(planes, |ids|, n);
      Image(mem, planes[..n], pages, ids) + PlaneImage(mem, planes[n], pages, ids)
  }

  lemma {:induction false} OffsetPrefix(planes: seq<Plane>, count: nat, k: nat)
    requires k <= |planes|
    ensures PlaneOffset(planes[..k], count, k) == PlaneOffset(planes, count, k)
    decreases k
  {
    if k > 0 {
      assert planes[..k][..k - 1] == planes[..k - 1];
      OffsetPrefix(planes[..k], count, k - 1);
      OffsetPrefix(planes, count, k - 1);
    }
  }

  lemma {:induction false} OffsetMono(planes: seq<Plane>, count: nat, j: nat, k: nat)
    requires j <= k <= |planes|
    ensures PlaneOffset(planes, count, j) <= PlaneOffset(planes, count, k)
    decreases k
  {
    if j < k { OffsetMono(planes, count, j, k - 1); }
  }

  /** Plane k of an image is the plane's own image. */
  lemma {:induction false} ImagePlane(mem: seq<byte>, planes: seq<Plane>, pages: nat, ids: seq<nat>, k: nat, off: nat,
                                      len: nat)
    requires StoreFits(planes, pages, |mem|) && IdsFit(pages, ids) && k < |planes|
    requires off == PlaneOffset(planes, |ids|, k) && len == |ids| * planes[k].PageBytes()
    ensures off + len <= |Image(mem, planes, pages, ids)|
    ensures Image(mem, planes, pages, ids)[off..off + len] == PlaneImage(mem, planes[k], pages, ids)
    decreases |planes|
  {
    hide PlaneImage, PlaneOffset, PlaneFits, PlanesApart, Plane.PageBytes;
    var n := |planes| - 1;
    ImageEnds(planes, |ids|, k);
    OffsetPrefix(planes, |ids|, n);
    var image := Image(mem, planes, pages, ids);
    var front := Image(mem, planes[..n], pages, ids);
    if k < n {
      OffsetPrefix(planes, |ids|, k);
      OffsetPrefix(planes[..n], |ids|, k);
      assert planes[..n][..k] == planes[..k];
      ImagePlane(mem, planes[..n], pages, ids, k, off, len);
      assert image[off..off + len] == front[off..off + len];
    } else {
      assert image[off..off + len] == PlaneImage(mem, planes[n], pages, ids);
    }
  }

  /** Each plane's part ends within the image, the last one at its end. */
  lemma ImageEnds(planes: seq<Plane>, count: nat, k: nat)
    requires k < |planes|
    ensures PlaneOffset(planes, count, k) + count * planes[k].PageBytes() <= ImageBytes(planes, count)
    ensures k == |planes| - 1 ==>
              PlaneOffset(planes, count, k) + count * planes[k].PageBytes() == ImageBytes(planes, count)
  {
    hide Plane.PageBytes;
    OffsetMono(planes, count, k + 1, |planes|);
  }

  /** Block (k, i) of an image of `count` pages. */
  function Block(image: seq<byte>, planes: seq<Plane>, count: nat, k: nat, i: nat): (b: seq<byte>)
    requires k < |planes| && i < count && ImageBytes(planes, count) <= |image|
    ensures |b| == planes[k].PageBytes()
  {
    BlockFits(planes, count, k, i);
    var s := At(PlaneOffset(planes, count, k), planes[k].PageBytes(), i);
    image[s..s + planes[k].PageBytes()]
  }

  lemma BlockFits(planes: seq<Plane>, count: nat, k: nat, i: nat)
    requires k < |planes| && i < count
    ensures At(PlaneOffset(planes, count, k), planes[k].PageBytes(), i) + planes[k].PageBytes()
            <= ImageBytes(planes, count)
  {
    OffsetMono(planes, count, k + 1, |planes|);
    MulMono(i + 1, count, planes[k].PageBytes());
    assert (i + 1) * planes[k].PageBytes() == i * planes[k].PageBytes() + planes[k].PageBytes();
  }

  /** Packing puts page i of plane k into block (k, i). */
  lemma ImageHolds(mem: seq<byte>, planes: seq<Plane>, pages: nat, ids: seq<nat>, k: nat, i: nat)
    requires StoreFits(planes, pages, |mem|) && IdsFit(pages, ids) && k < |planes| && i < |ids|
    ensures Block(Image(mem, planes, pages, ids), planes, |ids|, k, i) == PageOf(mem, planes[k], pages, ids[i])
  {
    hide PageOf, PlaneImage, Image, At, PlaneOffset, StoreFits, PlaneFits, Plane.PageBytes, Block, ImageBytes;
    StorePlane(planes, pages, |mem|, k);
    var image, size, off := Image(mem, planes, pages, ids), planes[k].PageBytes(), PlaneOffset(planes, |ids|, k);
    ImagePlane(mem, planes, pages, ids, k, off, |ids| * size);
    ImageBlock(mem, planes[k], pages, ids, i);
    BlockIs(image, planes, |ids|, k, i);
    SubBlock(image, off, |ids| * size, size, i);
  }

  lemma BlockIs(image: seq<byte>, planes: seq<Plane>, count: nat, k: nat, i: nat)
    requires k < |planes| && i < count && ImageBytes(planes, count) <= |image|
    ensures var s, size := At(PlaneOffset(planes, count, k), planes[k].PageBytes(), i), planes[k].PageBytes();
            s + size <= |image| && Block(image, planes, count, k, i) == image[s..s + size]
  {
    hide At, PlaneOffset, Plane.PageBytes;
    BlockFits(planes, count, k, i);
  }

  /** Byte x of head h of page i in plane k of an image: the planes come in order, in each the pages in order, in
      each the heads in order. */
  lemma ImageByte(mem: seq<byte>, planes: seq<Plane>, pages: nat, ids: seq<nat>, k: nat, i: nat, h: nat, x: nat)
    requires StoreFits(planes, pages, |mem|) && IdsFit(pages, ids) && k < |planes| && i < |ids|
    requires h < planes[k].heads && x < planes[k].row
    ensures var c, image := planes[k], Image(mem, planes, pages, ids);
            var at := PlaneOffset(planes, |ids|, k) + i * (c.heads * c.row) + h * c.row + x;
            var from := c.base + h * c.pitch + ids[i] * c.row + x;
            0 <= at < |image| && 0 <= from < |mem| && image[at] == mem[from]
  {
    hide PageOf, Image, PlaneOffset;
    var c, image := planes[k], Image(mem, planes, pages, ids);
    ImageHolds(mem, planes, pages, ids, k, i);
    BlockFits(planes, |ids|, k, i);
    PageByte(mem, c, pages, ids[i], h, x);
    var s := At(PlaneOffset(planes, |ids|, k), c.PageBytes(), i);
    assert Block(image, planes, |ids|, k, i)[h * c.row + x] == image[s + (h * c.row + x)];
  }

  /** Block i of a part that starts at `off`. */
  lemma SubBlock(image: seq<byte>, off: nat, len: nat, size: nat, i: nat)
    requires off + len <= |image| && At(0, size, i) + size <= len
    ensures At(off, size, i) + size <= |image|
    ensures image[At(off, size, i)..At(off, size, i) + size]
            == image[off..off + len][At(0, size, i)..At(0, size, i) + size]
  {
    hide At;
    AtIs(0, size, i);
    AtIs(off, size, i);
    SubSlice(image, off, off + len, At(0, size, i), At(0, size, i) + size);
  }

  /** The grid an image of `count` pages gives for its first n pages. */
  function GridOf(image: seq<byte>, planes: seq<Plane>, count: nat, n: nat): (g: Grid)
    requires n <= count && ImageBytes(planes, count) <= |image|
    ensures |g| == |planes|
    ensures forall k | 0 <= k < |planes| :: |g[k]| == n && forall i | 0 <= i < n ::
            g[k][i] == Block(image, planes, count, k, i)
  {
    seq(|planes|, k requires 0 <= k < |planes| =>
      seq(n, i requires 0 <= i < n => Block(image, planes, count, k, i)))
  }

  lemma GridFitsImage(image: seq<byte>, planes: seq<Plane>, pages: nat, count: nat, ids: seq<nat>)
    requires |ids| <= count && ImageBytes(planes, count) <= |image| && IdsFit(pages, ids)
    ensures GridFits(planes, pages, ids, GridOf(image, planes, count, |ids|))
  {
    hide Block;
  }

  lemma GridHolds(mem: seq<byte>, planes: seq<Plane>, pages: nat, ids: seq<nat>, n: nat, k: nat, i: nat)
    requires StoreFits(planes, pages, |mem|) && IdsFit(pages, ids) && k < |planes| && i < n <= |ids|
    ensures PlaneFits(planes[k], pages, |mem|)
    ensures GridOf(Image(mem, planes, pages, ids), planes, |ids|, n)[k][i] == PageOf(mem, planes[k], pages, ids[i])
  {
    hide PageOf, Image, Block;
    ImageHolds(mem, planes, pages, ids, k, i);
  }

  /** In every plane, page target[i] of `after` holds what page packed[i] of `source` held. */
  ghost predicate Restored(source: seq<byte>, packed: seq<nat>, after: seq<byte>, target: seq<nat>,
      planes: seq<Plane>, pages: nat)
    requires StoreFits(planes, pages, |source|) && StoreFits(planes, pages, |after|)
    requires IdsFit(pages, packed) && IdsFit(pages, target) && |target| <= |packed|
  {
    forall k, i | 0 <= k < |planes| && 0 <= i < |target| ::
      PageOf(after, planes[k], pages, target[i]) == PageOf(source, planes[k], pages, packed[i])
  }

  /** The pages outside `ids` and every byte outside the planes are as before. */
  ghost predicate OnlyChanged(before: seq<byte>, after: seq<byte>, planes: seq<Plane>, pages: nat, ids: seq<nat>)
    requires StoreFits(planes, pages, |before|) && |after| == |before|
  {
    && (forall k, q | 0 <= k < |planes| && 0 <= q < pages && q !in ids ::
          PageOf(after, planes[k], pages, q) == PageOf(before, planes[k], pages, q))
    && forall x | 0 <= x < |before| && Beyond(planes, x, x + 1) :: after[x] == before[x]
  }

  /** The memory after unpacking the first |target| pages of an image. */
  function Unpacked(before: seq<byte>, planes: seq<Plane>, pages: nat, image: seq<byte>, count: nat,
      target: seq<nat>): (r: seq<byte>)
    requires StoreFits(planes, pages, |before|) && IdsFit(pages, target) && |target| <= count
    requires ImageBytes(planes, count) <= |image|
    ensures |r| == |before|
  {
    GridFitsImage(image, planes, pages, count, target);
    WriteAll(before, planes, pages, target, GridOf(image, planes, count, |target|))
  }

  /** Pack and unpack: whatever happened in between, unpacking the first pages of an image into any
      distinct pages brings back every byte in every plane and touches nothing else. */
  lemma RoundTrip(source: seq<byte>, packed: seq<nat>, before: seq<byte>, target: seq<nat>, planes: seq<Plane>,
      pages: nat)
    requires StoreFits(planes, pages, |source|) && StoreFits(planes, pages, |before|)
    requires IdsFit(pages, packed) && IdsFit(pages, target) && Distinct(target) && |target| <= |packed|
    ensures var after := Unpacked(before, planes, pages, Image(source, planes, pages, packed), |packed|, target);
            Restored(source, packed, after, target, planes, pages) && OnlyChanged(before, after, planes, pages, target)
  {
    hide PageOf, WriteAll, Image, Block, GridOf;
    var image := Image(source, planes, pages, packed);
    var data := GridOf(image, planes, |packed|, |target|);
    GridFitsImage(image, planes, pages, |packed|, target);
    WriteAllExact(before, planes, pages, target, data);
    var after := WriteAll(before, planes, pages, target, data);
    forall k, i | 0 <= k < |planes| && 0 <= i < |target|
      ensures PageOf(after, planes[k], pages, target[i]) == PageOf(source, planes[k], pages, packed[i])
    {
      assert PageOf(after, planes[k], pages, target[i]) == data[k][i];
      GridHolds(source, planes, pages, packed, |target|, k, i);
    }
  }

  lemma StorePlane(planes: seq<Plane>, pages: nat, size: nat, k: nat)
    requires StoreFits(planes, pages, size) && k < |planes|
    ensures PlaneFits(planes[k], pages, size)
  {}

  // ---------------------------------------------------------------------------------------------
  // Logical pages
  // ---------------------------------------------------------------------------------------------

  /** One logical page: its bytes in every plane, one after the other. */
  function LogicalPage(mem: seq<byte>, planes: seq<Plane>, pages: nat, p: nat): (r: seq<byte>)
    requires StoreFits(planes, pages, |mem|) && p < pages
  {
    if planes == [] then []
    else
      var n := |planes| - 1;
      LogicalPage(mem, planes[..n], pages, p) + PageOf(mem, planes[n], pages, p)
  }

  /** The gather of logical page i out of a packed image. */
  function Gathered(image: seq<byte>, planes: seq<Plane>, count: nat, i: nat, n: nat): (r: seq<byte>)
    requires n <= |planes| && i < count && ImageBytes(planes, count) <= |image|
    ensures |r| == PlaneOffset(planes, 1, n)
  {
    if n == 0 then []
    else Gathered(image, planes, count, i, n - 1) + Block(image, planes, count, n - 1, i)
  }

  /** Gathering page i from a packed image is packing logical page i from the device. */
  lemma {:induction false} GatherIsPack(mem: seq<byte>, planes: seq<Plane>, pages: nat, ids: seq<nat>, i: nat, n: nat)
    requires StoreFits(planes, pages, |mem|) && IdsFit(pages, ids) && i < |ids| && n <= |planes|
    ensures Gathered(Image(mem, planes, pages, ids), planes, |ids|, i, n)
            == LogicalPage(mem, planes[..n], pages, ids[i])
    decreases n
  {
    hide PageOf, Image, Block;
    if n > 0 {
      GatherIsPack(mem, planes, pages, ids, i, n - 1);
      assert planes[..n][..n - 1] == planes[..n - 1];
      ImageHolds(mem, planes, pages, ids, n - 1, i);
    }
  }

  /** The column of a grid that belongs to page i. */
  function Column(data: Grid, i: nat): (g: Grid)
    requires forall k | 0 <= k < |data| :: i < |data[k]|
    ensures |g| == |data| && forall k | 0 <= k < |data| :: g[k] == [data[k][i]]
  {
    seq(|data|, k requires 0 <= k < |data| => [data[k][i]])
  }

  /** Unpacking the first n pages one logical page at a time. */
  function WriteByPage(mem: seq<byte>, planes: seq<Plane>, pages: nat, ids: seq<nat>, data: Grid,
      n: nat): (r: seq<byte>)
    requires StoreFits(planes, pages, |mem|) && GridFits(planes, pages, ids, data) && n <= |ids|
    ensures |r| == |mem|
    decreases n
  {
    if n == 0 then mem
    else WriteAll(WriteByPage(mem, planes, pages, ids, data, n - 1), planes, pages, [ids[n - 1]], Column(data, n - 1))
  }

  lemma {:induction false} WriteByPagePage(mem: seq<byte>, planes: seq<Plane>, pages: nat, ids: seq<nat>, data: Grid,
      n: nat, k: nat, q: nat)
    requires StoreFits(planes, pages, |mem|) && GridFits(planes, pages, ids, data) && Distinct(ids) && n <= |ids|
    requires k < |planes| && q < pages
    ensures q !in ids[..n] ==>
            PageOf(WriteByPage(mem, planes, pages, ids, data, n), planes[k], pages, q)
              == PageOf(mem, planes[k], pages, q)
    ensures forall i | 0 <= i < n && ids[i] == q ::
              PageOf(WriteByPage(mem, planes, pages, ids, data, n), planes[k], pages, q) == data[k][i]
    decreases n
  {
    hide PageOf, WriteAll;
    if n > 0 {
      var before := WriteByPage(mem, planes, pages, ids, data, n - 1);
      WriteByPagePage(mem, planes, pages, ids, data, n - 1, k, q);
      WriteAllPlane(before, planes, pages, [ids[n - 1]], Column(data, n - 1), k, q);
      assert ids[..n] == ids[..n - 1] + [ids[n - 1]];
      if ids[n - 1] == q {
        assert [ids[n - 1]][0] == q;
        assert Column(data, n - 1)[k][0] == data[k][n - 1];
      }
    }
  }

  lemma {:induction false} WriteByPageBeyond(mem: seq<byte>, planes: seq<Plane>, pages: nat, ids: seq<nat>,
      data: Grid, n: nat, x: nat)
    requires StoreFits(planes, pages, |mem|) && GridFits(planes, pages, ids, data) && n <= |ids|
    requires x < |mem| && Beyond(planes, x, x + 1)
    ensures WriteByPage(mem, planes, pages, ids, data, n)[x] == mem[x]
    decreases n
  {
    hide WriteAll;
    if n > 0 {
      var before := WriteByPage(mem, planes, pages, ids, data, n - 1);
      WriteByPageBeyond(mem, planes, pages, ids, data, n - 1, x);
      WriteAllBeyond(before, planes, pages, [ids[n - 1]], Column(data, n - 1), x, x + 1);
      var after := WriteAll(before, planes, pages, [ids[n - 1]], Column(data, n - 1));
      assert after[x..x + 1][0] == before[x..x + 1][0];
    }
  }

  /** Unpacking page by page ends in the same memory as unpacking the whole image. */
  lemma PageByPage(mem: seq<byte>, planes: seq<Plane>, pages: nat, ids: seq<nat>, data: Grid)
    requires StoreFits(planes, pages, |mem|) && GridFits(planes, pages, ids, data) && Distinct(ids)
    ensures WriteByPage(mem, planes, pages, ids, data, |ids|) == WriteAll(mem, planes, pages, ids, data)
  {
    hide PageOf, WriteAll, WriteByPage;
    var after := WriteByPage(mem, planes, pages, ids, data, |ids|);
    assert ids[..|ids|] == ids;
    forall k, i | 0 <= k < |planes| && 0 <= i < |ids| ensures PageOf(after, planes[k], pages, ids[i]) == data[k][i] {
      assert Writable(planes[k], pages, ids, data[k]);
      WriteByPagePage(mem, planes, pages, ids, data, |ids|, k, ids[i]);
    }
    forall k, q | 0 <= k < |planes| && 0 <= q < pages && q !in ids
      ensures PageOf(after, planes[k], pages, q) == PageOf(mem, planes[k], pages, q)
    {
      WriteByPagePage(mem, planes, pages, ids, data, |ids|, k, q);
    }
    forall x | 0 <= x < |mem| && Beyond(planes, x, x + 1) ensures after[x] == mem[x] {
      WriteByPageBeyond(mem, planes, pages, ids, data, |ids|, x);
    }
    WriteAllExact(mem, planes, pages, ids, data);
    WroteExactlyDetermines(mem, after, WriteAll(mem, planes, pages, ids, data), planes, pages, ids, data);
  }
}
