/** One logical page at a time (src/core/paged_kv_cache.cpp): packing and unpacking a single page, and
    gathering it out of a packed image, with the laws that tie the three to whole-image transfers. */
module LogicalPages {
  import opened Arith
  import opened Results
  import opened Bytes
  import opened Dma
  import opened Planes
  import opened PageRuns
  import opened PageStore
  import opened PlaneTransfer
  import opened PoolLedger
  import opened PagedKv
  import opened Transfer

  // ---------------------------------------------------------------------------------------------
  // Laws
  // ---------------------------------------------------------------------------------------------

  /** A logical page is the image of that one page. */
  lemma {:induction false} LogicalIsImage(mem: seq<byte>, planes: seq<Plane>, pages: nat, p: nat)
    requires StoreFits(planes, pages, |mem|) && p < pages
    ensures LogicalPage(mem, planes, pages, p) == Image(mem, planes, pages, [p])
    decreases |planes|
  {
    hide PageOf;
    if planes != [] {
      var n := |planes| - 1;
      LogicalIsImage(mem, planes[..n], pages, p);
      OneImage(mem, planes[n], pages, [p], 0);
      assert [p][0..0 + 1] == [p];
    }
  }

  /** Gathering page i of a packed image gives what packing page i alone would have given. */
  lemma GatherIsPackOne(mem: seq<byte>, planes: seq<Plane>, pages: nat, ids: seq<nat>, i: nat)
    requires StoreFits(planes, pages, |mem|) && IdsFit(pages, ids) && i < |ids|
    ensures Gathered(Image(mem, planes, pages, ids), planes, |ids|, i, |planes|) == Image(mem, planes, pages, [ids[i]])
  {
    hide Image, Gathered, LogicalPage;
    GatherIsPack(mem, planes, pages, ids, i, |planes|);
    assert planes[..|planes|] == planes;
    LogicalIsImage(mem, planes, pages, ids[i]);
  }

  /** Block k of a gathered page is block (k, i) of the image. */
  lemma {:induction false} GatheredBlock(image: seq<byte>, planes: seq<Plane>, count: nat, i: nat, n: nat, k: nat)
    requires k < n <= |planes| && i < count && ImageBytes(planes, count) <= |image|
    ensures PlaneOffset(planes, 1, k) + planes[k].PageBytes() <= |Gathered(image, planes, count, i, n)|
    ensures Gathered(image, planes, count, i,
            n)[PlaneOffset(planes, 1, k)..PlaneOffset(planes, 1, k) + planes[k].PageBytes()]
            == Block(image, planes, count, k, i)
    decreases n
  {
    hide Block;
    var off, size := PlaneOffset(planes, 1, k), planes[k].PageBytes();
    var rest, last := Gathered(image, planes, count, i, n - 1), Block(image, planes, count, n - 1, i);
    if k < n - 1 {
      GatheredBlock(image, planes, count, i, n - 1, k);
      PrefixSlice(rest, last, off, off + size);
    } else {
      assert (rest + last)[|rest|..|rest| + |last|] == last;
    }
  }

  /** Unpacking a gathered page is unpacking that page's column of the image. */
  lemma GatheredColumn(image: seq<byte>, planes: seq<Plane>, count: nat, i: nat)
    requires i < count && ImageBytes(planes, count) <= |image|
    ensures GridOf(Gathered(image, planes, count, i, |planes|), planes, 1, 1)
            == Column(GridOf(image, planes, count, count), i)
  {
    hide Gathered, PlaneOffset;
    var page := Gathered(image, planes, count, i, |planes|);
    var x, y := GridOf(page, planes, 1, 1), Column(GridOf(image, planes, count, count), i);
    forall k | 0 <= k < |planes| ensures x[k] == y[k] {
      GatheredBlock(image, planes, count, i, |planes|, k);
      AtIs(PlaneOffset(planes, 1, k), planes[k].PageBytes(), 0);
      assert x[k][0] == y[k][0];
    }
  }

  /** Unpacking, one after the other, the first n pages gathered out of an image. */
  function UnpackedOneByOne(mem: seq<byte>, planes: seq<Plane>, pages: nat, image: seq<byte>, ids: seq<nat>,
      n: nat): (r: seq<byte>)
    requires StoreFits(planes, pages, |mem|) && IdsFit(pages, ids) && n <= |ids| && ImageBytes(planes, |ids|) <= |image|
    ensures |r| == |mem|
    decreases n
  {
    if n == 0 then mem
    else
      Unpacked(UnpackedOneByOne(mem, planes, pages, image, ids, n - 1), planes, pages,
               Gathered(image, planes, |ids|, n - 1, |planes|), 1, [ids[n - 1]])
  }

  /** Restoring an image page by page ends in the same memory as restoring it whole. */
  lemma OneByOneIsWhole(mem: seq<byte>, planes: seq<Plane>, pages: nat, image: seq<byte>, ids: seq<nat>)
    requires StoreFits(planes, pages, |mem|) && IdsFit(pages, ids) && Distinct(ids)
             && ImageBytes(planes, |ids|) <= |image|
    ensures UnpackedOneByOne(mem, planes, pages, image, ids, |ids|) == Unpacked(mem, planes, pages, image, |ids|, ids)
  {
    hide WriteAll, WriteByPage, Block, UnpackedOneByOne;
    GridFitsImage(image, planes, pages, |ids|, ids);
    OneByOneIsByPage(mem, planes, pages, image, ids, |ids|);
    PageByPage(mem, planes, pages, ids, GridOf(image, planes, |ids|, |ids|));
  }

  lemma {:induction false} OneByOneIsByPage(mem: seq<byte>, planes: seq<Plane>, pages: nat, image: seq<byte>,
      ids: seq<nat>, n: nat)
    requires StoreFits(planes, pages, |mem|) && IdsFit(pages, ids) && n <= |ids| && ImageBytes(planes, |ids|) <= |image|
    ensures GridFits(planes, pages, ids, GridOf(image, planes, |ids|, |ids|))
    ensures UnpackedOneByOne(mem, planes, pages, image, ids, n)
            == WriteByPage(mem, planes, pages, ids, GridOf(image, planes, |ids|, |ids|), n)
    decreases n
  {
    hide WriteAll, Block, Gathered;
    GridFitsImage(image, planes, pages, |ids|, ids);
    if n > 0 {
      OneByOneIsByPage(mem, planes, pages, image, ids, n - 1);
      GatheredColumn(image, planes, |ids|, n - 1);
    }
  }

  // ---------------------------------------------------------------------------------------------
  // Methods
  // ---------------------------------------------------------------------------------------------

  /** pack_paged_kv_logical_page_to_host. */
  method PackLogicalPage(a: PagedKVAllocation, pool: PagedKVPool, index: nat, host: array?<byte>, dst: nat)
    returns (r: Result<(), Error>)
    requires a.Valid() && pool.Valid() && host != pool.device
    requires host != null ==> dst + ImageBytes(pool.planes, 1) <= host.Length
    modifies host
    ensures r == if a.pool != pool then Err(InvalidArgument) else if index >= |a.pageIds| then Err(LogicError)
                 else if host == null then Err(InvalidArgument) else Ok(())
    ensures r.Err? && host != null ==> host[..] == old(host[..])
    ensures r.Ok? ==> IdsFit(pool.spec.pages, a.pageIds)
    ensures r.Ok? ==> host[..]
                      == Splice(old(host[..]), dst,
                        Image(pool.device[..], pool.planes, pool.spec.pages, [a.pageIds[index]]))
  {
    hide Inv, Image, Splice, PlaneImage, PageOf;
    if a.pool == null || a.pool != pool { return Err(InvalidArgument); }
    if index >= |a.pageIds| { return Err(LogicError); }
    if host == null { return Err(InvalidArgument); }
    OwnPages(pool, a);
    ghost var before, mem := host[..], pool.device[..];
    var planes, pages, p := pool.planes, pool.spec.pages, a.pageIds[index];
    var out := dst;
    ImageNone(before, dst, mem, pages, [p]);
    assert planes[..0] == [];
    for k := 0 to |planes|
      invariant out == dst + PlaneOffset(planes, 1, k) && pool.device[..] == mem && out <= host.Length
      invariant StoreFits(planes[..k], pages, |mem|)
                && |Image(mem, planes[..k], pages, [p])| == PlaneOffset(planes, 1, k)
      invariant host[..] == Splice(before, dst, Image(mem, planes[..k], pages, [p]))
    {
      OffsetMono(planes, 1, k + 1, |planes|);
      ImageGrows(before, dst, mem, planes, pages, [p], k);
      PackPage(pool.order, host, out, pool.device, planes[k], pages, p);
      out := out + planes[k].PageBytes();
    }
    assert planes[..|planes|] == planes;
    return Ok(());
  }

  /** One page of one plane in the plane's order. */
  method PackPage(order: PlaneOrder, host: array<byte>, out: nat, device: array<byte>, plane: Plane, pages: nat, p: nat)
    requires host != device && PlaneFits(plane, pages, device.Length) && p < pages
    requires (order.PageMajor? ==> plane.heads == 1) && out + plane.PageBytes() <= host.Length
    modifies host
    ensures host[..] == Splice(old(host[..]), out, PlaneImage(device[..], plane, pages, [p]))
  {
    hide Splice, Blit, At;
    ghost var mem := device[..];
    OneImage(mem, plane, pages, [p], 0);
    assert [p][0..0 + 1] == [p];
    match order {
      case PageMajor => PackOne(host, out, device, plane, pages, p);
      case HeadMajor =>
        PageRowsFit(plane, pages, |mem|, p);
        BlitRows(host[..], out, mem, plane.Start(p), plane.pitch, plane.row, plane.heads);
        Copy2D(host, out, plane.row, device, plane.Start(p), plane.pitch, plane.row, plane.heads);
    }
  }

  /** unpack_paged_kv_logical_page_from_host. */
  method UnpackLogicalPage(a: PagedKVAllocation, pool: PagedKVPool, host: array?<byte>, src: nat, index: nat)
    returns (r: Result<(), Error>)
    requires a.Valid() && pool.Valid() && host != pool.device
    requires host != null ==> src + ImageBytes(pool.planes, 1) <= host.Length
    modifies pool.device
    ensures r == if a.pool != pool then Err(InvalidArgument) else if index >= |a.pageIds| then Err(LogicError)
                 else if host == null then Err(InvalidArgument) else Ok(())
    ensures r.Err? ==> pool.device[..] == old(pool.device[..])
    ensures r.Ok? ==> IdsFit(pool.spec.pages, a.pageIds)
    ensures r.Ok? ==> pool.device[..] == Unpacked(old(pool.device[..]), pool.planes, pool.spec.pages,
                                                  host[src..src + ImageBytes(pool.planes, 1)], 1, [a.pageIds[index]])
  {
    hide Inv, Unpacked;
    if a.pool == null || a.pool != pool { return Err(InvalidArgument); }
    if index >= |a.pageIds| { return Err(LogicError); }
    if host == null { return Err(InvalidArgument); }
    OwnPages(pool, a);
    UnpackOnePage(pool, host, src, a.pageIds[index]);
    return Ok(());
  }

  /** Plane k's only block of a one-page image in a host buffer. */
  lemma OneBlock(host: seq<byte>, src: nat, planes: seq<Plane>, k: nat, at: nat)
    requires k < |planes| && src + ImageBytes(planes, 1) <= |host| && at == src + PlaneOffset(planes, 1, k)
    ensures at + planes[k].PageBytes() <= |host|
    ensures GridOf(host[src..src + ImageBytes(planes, 1)], planes, 1, 1)[k] == [host[at..at + planes[k].PageBytes()]]
  {
    hide Plane.PageBytes, Block;
    PlaneBlocks(host, src, planes, 1, k, 1);
    FirstSlice(host, at, planes[k].PageBytes());
  }

  /** The loop over the planes. */
  method UnpackOnePage(pool: PagedKVPool, host: array<byte>, src: nat, p: nat)
    requires GeometryOk(pool.order, pool.planes, pool.spec.pages, pool.device.Length) && p < pool.spec.pages
    requires host != pool.device && src + ImageBytes(pool.planes, 1) <= host.Length
    modifies pool.device
    ensures pool.device[..] == Unpacked(old(pool.device[..]), pool.planes, pool.spec.pages,
                                        host[src..src + ImageBytes(pool.planes, 1)], 1, [p])
  {
    hide WritePages, WriteAll, Block;
    ghost var before := pool.device[..];
    var planes, pages := pool.planes, pool.spec.pages;
    ghost var image := host[src..src + ImageBytes(planes, 1)];
    ghost var data := GridOf(image, planes, 1, 1);
    GridFitsImage(image, planes, pages, 1, [p]);
    WriteAllNone(before, pages, [p]);
    assert planes[..0] == [] && data[..0] == [];
    var at := src;
    for k := 0 to |planes|
      invariant at == src + PlaneOffset(planes, 1, k)
      invariant StoreFits(planes[..k], pages, |before|) && GridFits(planes[..k], pages, [p], data[..k])
      invariant pool.device[..] == WriteAll(before, planes[..k], pages, [p], data[..k])
    {
      OneBlock(host[..], src, planes, k, at);
      assert host[..][src..src + ImageBytes(planes, 1)] == image;
      assert host[at..at + planes[k].PageBytes()] == host[..][at..at + planes[k].PageBytes()];
      WriteAllGrows(before, planes, pages, [p], data, k);
      match pool.order {
        case PageMajor => UnpackOne(pool.device, planes[k], pages, p, host, at);
        case HeadMajor => UnpackPage(pool.device, planes[k], pages, p, host, at);
      }
      at := at + planes[k].PageBytes();
    }
    assert planes[..|planes|] == planes && data[..|planes|] == data;
  }

  /** Where block (k, index) of an image of `count` pages lies. */
  function SliceOf(planes: seq<Plane>, count: nat, k: nat, index: nat): (nat, nat)
    requires k < |planes|
  {
    (At(PlaneOffset(planes, count, k), planes[k].PageBytes(), index), planes[k].PageBytes())
  }

  lemma OffsetStep(planes: seq<Plane>, count: nat, k: nat, index: nat)
    requires k < |planes|
    ensures PlaneOffset(planes, count, 0) == 0
    ensures PlaneOffset(planes, count, k + 1) == PlaneOffset(planes, count, k) + count * planes[k].PageBytes()
    ensures SliceOf(planes, count, k, index)
            == (PlaneOffset(planes, count, k) + index * planes[k].PageBytes(), planes[k].PageBytes())
  {}

  /** logical_page_host_slices: where logical page `index` lies in a packed image, plane by plane. */
  method HostSlices(planes: seq<Plane>, present: bool, count: nat, index: nat) returns (r: Result<seq<(nat, nat)>,
      Error>)
    ensures r.Err? ==> r.error == if index >= count then LogicError else InvalidArgument
    ensures r.Ok? <==> index < count && present
    ensures r.Ok? ==> |r.value| == |planes| && forall k | 0 <= k < |planes| ::
            r.value[k] == SliceOf(planes, count, k, index)
  {
    hide SliceOf, Plane.PageBytes;
    if index >= count { return Err(LogicError); }
    if !present { return Err(InvalidArgument); }
    var out: seq<(nat, nat)>, at := [], 0;
    for k := 0 to |planes|
      invariant at == PlaneOffset(planes, count, k) && |out| == k
      invariant forall j | 0 <= j < k :: out[j] == SliceOf(planes, count, j, index)
    {
      var bpp := planes[k].PageBytes();
      OffsetStep(planes, count, k, index);
      MulNonNeg(index, bpp);
      MulNonNeg(count, bpp);
      out := out + [(at + index * bpp, bpp)];
      at := at + count * bpp;
    }
    return Ok(out);
  }

  /** gather_logical_page_from_host_image. */
  method GatherLogicalPage(image: array?<byte>, planes: seq<Plane>, count: nat, index: nat, dst: array?<byte>)
    returns (r: Result<(), Error>)
    requires image != null ==> ImageBytes(planes, count) <= image.Length && image != dst
    requires dst != null ==> ImageBytes(planes, 1) <= dst.Length
    modifies dst
    ensures r == if dst == null then Err(InvalidArgument) else if index >= count then Err(LogicError)
                 else if image == null then Err(InvalidArgument) else Ok(())
    ensures r.Err? && dst != null ==> dst[..] == old(dst[..])
    ensures r.Ok? ==> dst[..] == Splice(old(dst[..]), 0, Gathered(image[..], planes, count, index, |planes|))
  {
    hide At, Splice, Block, PlaneOffset;
    if dst == null { return Err(InvalidArgument); }
    var slices := HostSlices(planes, image != null, count, index);
    if slices.Err? { return Err(slices.error); }
    ghost var before, packed := dst[..], image[..];
    var out := 0;
    GatherNone(before, packed, planes, count, index);
    for k := 0 to |planes|
      invariant out == PlaneOffset(planes, 1, k) && image[..] == packed
      invariant out <= dst.Length && dst[..] == Splice(before, 0, Gathered(packed, planes, count, index, k))
    {
      var (at, bytes) := slices.value[k];
      OffsetMono(planes, 1, k + 1, |planes|);
      GatherGrows(before, packed, planes, count, index, k);
      if bytes != 0 {
        assert image[at..at + bytes] == packed[at..at + bytes];
        Copy(dst, out, image, at, bytes);
      } else {
        SpliceNone(dst[..], out);
        assert packed[at..at + bytes] == [];
      }
      out := out + bytes;
    }
    return Ok(());
  }

  lemma GatherNone(dst: seq<byte>, image: seq<byte>, planes: seq<Plane>, count: nat, i: nat)
    requires i < count && ImageBytes(planes, count) <= |image|
    ensures PlaneOffset(planes, 1, 0) == 0 && Splice(dst, 0, Gathered(image, planes, count, i, 0)) == dst
  {}

  lemma GatherGrows(dst: seq<byte>, image: seq<byte>, planes: seq<Plane>, count: nat, i: nat, k: nat)
    requires k < |planes| && i < count && ImageBytes(planes, count) <= |image| && PlaneOffset(planes, 1, k + 1) <= |dst|
    ensures PlaneOffset(planes, 1, k + 1) == PlaneOffset(planes, 1, k) + planes[k].PageBytes()
    ensures var at := At(PlaneOffset(planes, count, k), planes[k].PageBytes(), i);
            && at + planes[k].PageBytes() <= |image|
            && Splice(Splice(dst, 0, Gathered(image, planes, count, i, k)), PlaneOffset(planes, 1, k),
              image[at..at + planes[k].PageBytes()])
               == Splice(dst, 0, Gathered(image, planes, count, i, k + 1))
  {
    hide At, Splice;
    BlockFits(planes, count, k, i);
    SpliceJoin(dst, 0, Gathered(image, planes, count, i, k), Block(image, planes, count, k, i));
  }
}
