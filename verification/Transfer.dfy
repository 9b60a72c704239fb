/** Pack, unpack, copy, clear and gather on whole allocations (src/core/paged_kv_cache.cpp), over every
    plane of the pool, with their error paths and with what they promise about everyone else's pages. */
module Transfer {
  import opened Arith
  import opened Results
  import opened Bytes
  import opened Dma
  import opened Planes
  import opened PageRuns
  import opened PageStore
  import opened PlaneTransfer
  import opened PoolLedger
  import opened PoolProofs
  import opened PagedKv

  // ---------------------------------------------------------------------------------------------
  // What the pool invariant says about an allocation's pages
  // ---------------------------------------------------------------------------------------------

  /** An allocation's pages exist and are listed once; no other allocation of the pool lists them. */
  lemma OwnPages(pool: PagedKVPool, a: PagedKVAllocation)
    requires pool.Valid() && a in pool.claims
    ensures IdsFit(pool.spec.pages, a.pageIds) && Distinct(a.pageIds)
    ensures forall b | b in pool.claims && b != a :: Disjoint(a.pageIds, b.pageIds)
  {
    hide Inv;
    var ids := pool.claims[a].pages;
    forall i | 0 <= i < |ids| ensures ids[i] < pool.spec.pages {
      PageOwner(pool.spec, pool.State(), a, ids[i]);
    }
    forall i, j | 0 <= i < j < |ids| ensures ids[i] != ids[j] {
      PageOwner(pool.spec, pool.State(), a, ids[i]);
      if ids[i] == ids[j] { Sorting.CountTwice(ids, ids[i]); }
    }
    forall b | b in pool.claims && b != a ensures Disjoint(a.pageIds, b.pageIds) {
      assert b.pageIds == pool.claims[b].pages;
      forall x | x in a.pageIds ensures x !in b.pageIds { PageOwner(pool.spec, pool.State(), a, x); }
    }
  }

  predicate Disjoint(a: seq<nat>, b: seq<nat>) { forall x | x in a :: x !in b }

  /** Every page of `ids` holds the same bytes in both memories, in every plane. */
  ghost predicate SamePages(before: seq<byte>, after: seq<byte>, planes: seq<Plane>, pages: nat, ids: seq<nat>)
    requires StoreFits(planes, pages, |before|) && |after| == |before| && IdsFit(pages, ids)
  {
    forall k, i | 0 <= k < |planes| && 0 <= i < |ids| ::
      PageOf(after, planes[k], pages, ids[i]) == PageOf(before, planes[k], pages, ids[i])
  }

  lemma OthersSame(before: seq<byte>, after: seq<byte>, planes: seq<Plane>, pages: nat, written: seq<nat>,
      ids: seq<nat>)
    requires StoreFits(planes, pages, |before|) && |after| == |before| && IdsFit(pages, ids)
    requires OnlyChanged(before, after, planes, pages, written) && Disjoint(ids, written)
    ensures SamePages(before, after, planes, pages, ids)
  {
    hide PageOf;
    assert forall i | 0 <= i < |ids| :: ids[i] in ids;
  }

  /** A write to some of a's pages is seen by no other allocation of the pool. */
  lemma NobodyElseSees(pool: PagedKVPool, a: PagedKVAllocation, n: nat, before: seq<byte>, after: seq<byte>)
    requires pool.Valid() && a in pool.claims && n <= |a.pageIds|
    requires |before| == pool.device.Length && |after| == |before|
    requires OnlyChanged(before, after, pool.planes, pool.spec.pages, a.pageIds[..n])
    ensures forall b | b in pool.claims && b != a ::
              IdsFit(pool.spec.pages, b.pageIds) && SamePages(before, after, pool.planes, pool.spec.pages, b.pageIds)
  {
    hide Inv, SamePages, OnlyChanged;
    OwnPages(pool, a);
    forall b | b in pool.claims && b != a
      ensures IdsFit(pool.spec.pages, b.pageIds) && SamePages(before, after, pool.planes, pool.spec.pages, b.pageIds)
    {
      OwnPages(pool, b);
      OthersSame(before, after, pool.planes, pool.spec.pages, a.pageIds[..n], b.pageIds);
    }
  }

  // ---------------------------------------------------------------------------------------------
  // Sizes
  // ---------------------------------------------------------------------------------------------

  /** paged_kv_host_image_bytes: the exact size, or an overflow error exactly when it exceeds size_t. */
  method HostImageBytes(planes: seq<Plane>, pageCount: nat) returns (r: Result<nat, Error>)
    requires forall k | 0 <= k < |planes| :: 0 < planes[k].PageBytes() <= U64_MAX
    ensures r == if ImageBytes(planes, pageCount) <= U64_MAX then Ok(ImageBytes(planes, pageCount)) else Err(Overflow)
  {
    var total := 0;
    for index := 0 to |planes|
      invariant total == PlaneOffset(planes, pageCount, index) <= U64_MAX
    {
      var bpp := planes[index].PageBytes();
      OffsetMono(planes, pageCount, index + 1, |planes|);
      QuotientBound(bpp, pageCount);
      if pageCount != 0 && bpp > U64_MAX / pageCount { return Err(Overflow); }
      var planeBytes := bpp * pageCount;
      if total > U64_MAX - planeBytes { return Err(Overflow); }
      total := total + planeBytes;
    }
    return Ok(total);
  }

  lemma QuotientBound(bpp: nat, count: nat)
    ensures bpp * count == count * bpp
    ensures count != 0 ==> (bpp > U64_MAX / count <==> bpp * count > U64_MAX)
    ensures count == 0 ==> bpp * count == 0
  {
    if count != 0 {
      var q := U64_MAX / count;
      assert U64_MAX == q * count + U64_MAX % count;
      if bpp <= q { MulMono(bpp, q, count); } else { MulMono(q + 1, bpp, count); }
    }
  }

  // ---------------------------------------------------------------------------------------------
  // Pack
  // ---------------------------------------------------------------------------------------------

  method PackPlane(order: PlaneOrder, host: array<byte>, out: nat, device: array<byte>, plane: Plane, pages: nat,
      ids: seq<nat>)
    requires host != device && PlaneFits(plane, pages, device.Length) && IdsFit(pages, ids)
    requires order.PageMajor? ==> plane.heads == 1
    requires out + |ids| * plane.PageBytes() <= host.Length
    modifies host
    ensures host[..] == Splice(old(host[..]), out, PlaneImage(device[..], plane, pages, ids))
  {
    match order
    case PageMajor => PackPageMajor(host, out, device, plane, pages, ids);
    case HeadMajor => PackHeadMajor(host, out, device, plane, pages, ids);
  }

  /** The loop over the planes. */
  method PackPlanes(pool: PagedKVPool, host: array<byte>, dst: nat, ids: seq<nat>)
    requires GeometryOk(pool.order, pool.planes, pool.spec.pages, pool.device.Length) && IdsFit(pool.spec.pages, ids)
    requires host != pool.device && dst + ImageBytes(pool.planes, |ids|) <= host.Length
    modifies host
    ensures host[..] == Splice(old(host[..]), dst, Image(pool.device[..], pool.planes, pool.spec.pages, ids))
  {
    hide PlaneImage, Splice, Image;
    ghost var before, mem := host[..], pool.device[..];
    var planes, pages := pool.planes, pool.spec.pages;
    var out := dst;
    ImageNone(before, dst, mem, pages, ids);
    assert planes[..0] == [];
    for k := 0 to |planes|
      invariant out == dst + PlaneOffset(planes, |ids|, k) && pool.device[..] == mem
      invariant StoreFits(planes[..k], pages, |mem|) && out <= host.Length
      invariant |Image(mem, planes[..k], pages, ids)| == PlaneOffset(planes, |ids|, k)
      invariant host[..] == Splice(before, dst, Image(mem, planes[..k], pages, ids))
    {
      OffsetMono(planes, |ids|, k + 1, |planes|);
      ImageGrows(before, dst, mem, planes, pages, ids, k);
      PackPlane(pool.order, host, out, pool.device, planes[k], pages, ids);
      out := out + |ids| * planes[k].PageBytes();
    }
    assert planes[..|planes|] == planes;
  }

  lemma ImageNone(host: seq<byte>, dst: nat, mem: seq<byte>, pages: nat, ids: seq<nat>)
    requires IdsFit(pages, ids) && dst <= |host|
    ensures |Image(mem, [], pages, ids)| == 0 && Splice(host, dst, Image(mem, [], pages, ids)) == host
  {}

  lemma ImageGrows(host: seq<byte>, dst: nat, mem: seq<byte>, planes: seq<Plane>, pages: nat, ids: seq<nat>, k: nat)
    requires StoreFits(planes, pages, |mem|) && IdsFit(pages, ids) && k < |planes|
    requires dst + PlaneOffset(planes, |ids|, k + 1) <= |host|
    ensures StoreFits(planes[..k + 1], pages, |mem|)
    ensures |Image(mem, planes[..k], pages, ids)| == PlaneOffset(planes, |ids|, k)
    ensures |Image(mem, planes[..k + 1], pages, ids)| == PlaneOffset(planes, |ids|, k + 1)
    ensures Splice(Splice(host, dst, Image(mem, planes[..k], pages, ids)), dst + PlaneOffset(planes, |ids|, k),
                   PlaneImage(mem, planes[k], pages, ids))
            == Splice(host, dst, Image(mem, planes[..k + 1], pages, ids))
  {
    hide PlaneImage, Splice;
    OffsetPrefix(planes, |ids|, k);
    OffsetPrefix(planes, |ids|, k + 1);
    assert planes[..k + 1][..k] == planes[..k];
    SpliceJoin(host, dst, Image(mem, planes[..k], pages, ids), PlaneImage(mem, planes[k], pages, ids));
  }

  /** pack_paged_kv_allocation_to_host: the host buffer receives exactly the image of the first pages. */
  method PackAllocation(a: PagedKVAllocation, pool: PagedKVPool, host: array?<byte>, dst: nat, count: nat)
    returns (r: Result<(), Error>)
    requires a.Valid() && pool.Valid() && host != pool.device
    requires host != null && a.pool == pool && count <= |a.pageIds| ==>
             dst + ImageBytes(pool.planes, count) <= host.Length
    modifies host
    ensures r == if a.pool == pool && count <= |a.pageIds| && (host != null || count == 0) then Ok(())
            else Err(InvalidArgument)
    ensures host != null && (r.Err? || count == 0) ==> host[..] == old(host[..])
    ensures r.Ok? ==> IdsFit(pool.spec.pages, a.pageIds)
    ensures r.Ok? && count != 0 ==>
              host[..] == Splice(old(host[..]), dst,
                Image(pool.device[..], pool.planes, pool.spec.pages, a.pageIds[..count]))
  {
    hide Inv, Image, Splice;
    if a.pool == null || a.pool != pool { return Err(InvalidArgument); }
    if count > |a.pageIds| { return Err(InvalidArgument); }
    if host == null && count != 0 { return Err(InvalidArgument); }
    OwnPages(pool, a);
    if count == 0 { return Ok(()); }
    PackPlanes(pool, host, dst, a.pageIds[..count]);
    return Ok(());
  }

  // ---------------------------------------------------------------------------------------------
  // Unpack
  // ---------------------------------------------------------------------------------------------

  method UnpackPlane(order: PlaneOrder, device: array<byte>, plane: Plane, pages: nat, ids: seq<nat>,
      host: array<byte>, src: nat)
    requires host != device && PlaneFits(plane, pages, device.Length) && IdsFit(pages, ids)
    requires order.PageMajor? ==> plane.heads == 1
    requires src + |ids| * plane.PageBytes() <= host.Length
    modifies device
    ensures device[..] == WritePages(old(device[..]), plane, pages, ids,
            Slices(host[..], src, plane.PageBytes(), |ids|))
  {
    match order
    case PageMajor => UnpackPageMajor(device, plane, pages, ids, host, src);
    case HeadMajor => UnpackHeadMajor(device, plane, pages, ids, host, src);
  }

  /** The blocks of plane k that an image of `count` pages starting at `src` holds for its first pages. */
  lemma PlaneBlocks(host: seq<byte>, src: nat, planes: seq<Plane>, count: nat, k: nat, n: nat)
    requires k < |planes| && n <= count && src + ImageBytes(planes, count) <= |host|
    ensures src + PlaneOffset(planes, count, k) + n * planes[k].PageBytes() <= |host|
    ensures Slices(host, src + PlaneOffset(planes, count, k), planes[k].PageBytes(), n)
            == GridOf(host[src..src + ImageBytes(planes, count)], planes, count, n)[k]
  {
    hide PlaneOffset, Plane.PageBytes, At;
    var off, size, total := PlaneOffset(planes, count, k), planes[k].PageBytes(), ImageBytes(planes, count);
    PlaneEnd(planes, count, k, n);
    var image := host[src..src + total];
    var x, y := Slices(host, src + off, size, n), GridOf(image, planes, count, n)[k];
    forall i | 0 <= i < n ensures x[i] == y[i] {
      BlockFits(planes, count, k, i);
      AtIs(off, size, i);
      AtIs(src + off, size, i);
      SubSlice(host, src, src + total, At(off, size, i), At(off, size, i) + size);
    }
  }

  lemma PlaneEnd(planes: seq<Plane>, count: nat, k: nat, n: nat)
    requires k < |planes| && n <= count
    ensures PlaneOffset(planes, count, k) + n * planes[k].PageBytes() <= ImageBytes(planes, count)
  {
    OffsetMono(planes, count, k + 1, |planes|);
    MulMono(n, count, planes[k].PageBytes());
  }

  lemma WriteAllGrows(mem: seq<byte>, planes: seq<Plane>, pages: nat, ids: seq<nat>, data: Grid, k: nat)
    requires StoreFits(planes, pages, |mem|) && GridFits(planes, pages, ids, data) && k < |planes|
    ensures StoreFits(planes[..k + 1], pages, |mem|) && GridFits(planes[..k + 1], pages, ids, data[..k + 1])
    ensures WritePages(WriteAll(mem, planes[..k], pages, ids, data[..k]), planes[k], pages, ids, data[k])
            == WriteAll(mem, planes[..k + 1], pages, ids, data[..k + 1])
  {
    hide WritePages;
    assert planes[..k + 1][..k] == planes[..k] && data[..k + 1][..k] == data[..k];
  }

  /** The loop over the planes. */
  method UnpackPlanes(pool: PagedKVPool, host: array<byte>, src: nat, count: nat, ids: seq<nat>)
    requires GeometryOk(pool.order, pool.planes, pool.spec.pages, pool.device.Length) && IdsFit(pool.spec.pages, ids)
    requires host != pool.device && |ids| <= count && src + ImageBytes(pool.planes, count) <= host.Length
    modifies pool.device
    ensures pool.device[..] == Unpacked(old(pool.device[..]), pool.planes, pool.spec.pages,
                                        host[src..src + ImageBytes(pool.planes, count)], count, ids)
  {
    hide WritePages, WriteAll, Block;
    ghost var before := pool.device[..];
    var planes, pages := pool.planes, pool.spec.pages;
    ghost var image := host[src..src + ImageBytes(planes, count)];
    ghost var data := GridOf(image, planes, count, |ids|);
    GridFitsImage(image, planes, pages, count, ids);
    WriteAllNone(before, pages, ids);
    assert planes[..0] == [] && data[..0] == [];
    var at := src;
    for k := 0 to |planes|
      invariant at == src + PlaneOffset(planes, count, k)
      invariant StoreFits(planes[..k], pages, |before|) && GridFits(planes[..k], pages, ids, data[..k])
      invariant pool.device[..] == WriteAll(before, planes[..k], pages, ids, data[..k])
    {
      PlaneBlocks(host[..], src, planes, count, k, |ids|);
      assert host[..][src..src + ImageBytes(planes, count)] == image;
      WriteAllGrows(before, planes, pages, ids, data, k);
      UnpackPlane(pool.order, pool.device, planes[k], pages, ids, host, at);
      at := at + count * planes[k].PageBytes();
    }
    assert planes[..|planes|] == planes && data[..|planes|] == data;
  }

  lemma WriteAllNone(mem: seq<byte>, pages: nat, ids: seq<nat>)
    ensures GridFits([], pages, ids, []) && WriteAll(mem, [], pages, ids, []) == mem
  {}

  lemma {:induction false} WriteAllNothing(mem: seq<byte>, planes: seq<Plane>, pages: nat, data: Grid)
    requires StoreFits(planes, pages, |mem|) && GridFits(planes, pages, [], data)
    ensures WriteAll(mem, planes, pages, [], data) == mem
    decreases |planes|
  {
    if planes != [] {
      var n := |planes| - 1;
      WriteAllNothing(mem, planes[..n], pages, data[..n]);
    }
  }

  lemma UnpackedOnly(before: seq<byte>, planes: seq<Plane>, pages: nat, image: seq<byte>, count: nat, target: seq<nat>)
    requires StoreFits(planes, pages, |before|) && IdsFit(pages, target) && Distinct(target) && |target| <= count
    requires ImageBytes(planes, count) <= |image|
    ensures OnlyChanged(before, Unpacked(before, planes, pages, image, count, target), planes, pages, target)
    ensures target == [] ==> Unpacked(before, planes, pages, image, count, target) == before
  {
    hide PageOf, WriteAll, Block;
    GridFitsImage(image, planes, pages, count, target);
    WriteAllExact(before, planes, pages, target, GridOf(image, planes, count, |target|));
    if target == [] { WriteAllNothing(before, planes, pages, GridOf(image, planes, count, 0)); }
  }

  /** unpack_paged_kv_allocation_from_host: the first `extent` pages take the image's first pages, and no
      other allocation of the pool sees a change. */
  method UnpackAllocation(a: PagedKVAllocation, pool: PagedKVPool, host: array?<byte>, src: nat, count: nat,
      extent: nat)
    returns (r: Result<(), Error>)
    requires a.Valid() && pool.Valid() && host != pool.device
    requires host != null ==> src + ImageBytes(pool.planes, count) <= host.Length
    modifies pool.device
    ensures r == if a.pool != pool then Err(InvalidArgument)
                 else if extent > count || extent > |a.pageIds| then Err(LogicError)
                 else if host == null && extent != 0 then Err(InvalidArgument) else Ok(())
    ensures r.Err? || extent == 0 ==> pool.device[..] == old(pool.device[..])
    ensures r.Ok? ==> IdsFit(pool.spec.pages, a.pageIds)
    ensures r.Ok? && host != null ==>
              pool.device[..] == Unpacked(old(pool.device[..]), pool.planes, pool.spec.pages,
                                          host[src..src + ImageBytes(pool.planes, count)], count, a.pageIds[..extent])
    ensures r.Ok? ==> forall b | b in pool.claims && b != a ::
              IdsFit(pool.spec.pages, b.pageIds)
              && SamePages(old(pool.device[..]), pool.device[..], pool.planes, pool.spec.pages, b.pageIds)
  {
    hide Inv, Unpacked, SamePages, OnlyChanged;
    if a.pool == null || a.pool != pool { return Err(InvalidArgument); }
    if extent > count { return Err(LogicError); }
    if extent > |a.pageIds| { return Err(LogicError); }
    if host == null && extent != 0 { return Err(InvalidArgument); }
    OwnPages(pool, a);
    ghost var before := pool.device[..];
    if host != null {
      UnpackPlanes(pool, host, src, count, a.pageIds[..extent]);
      UnpackedOnly(before, pool.planes, pool.spec.pages, host[src..src + ImageBytes(pool.planes, count)], count,
        a.pageIds[..extent]);
    } else {
      Unchanged(before, pool.planes, pool.spec.pages, a.pageIds[..extent]);
    }
    NobodyElseSees(pool, a, extent, before, pool.device[..]);
    return Ok(());
  }

  lemma Unchanged(mem: seq<byte>, planes: seq<Plane>, pages: nat, ids: seq<nat>)
    requires StoreFits(planes, pages, |mem|)
    ensures OnlyChanged(mem, mem, planes, pages, ids)
  {}

  /** Pack an allocation and later unpack the first pages of its image into any allocation of the pool: page i
      of the target holds what page i of the source held, in every plane and either plane order, and no other
      allocation sees a change. */
  lemma AllocationRoundTrip(pool: PagedKVPool, a: PagedKVAllocation, b: PagedKVAllocation, count: nat, extent: nat,
                            source: seq<byte>, before: seq<byte>)
    requires pool.Valid() && a in pool.claims && b in pool.claims
    requires extent <= count <= |a.pageIds| && extent <= |b.pageIds|
    requires |source| == pool.device.Length && |before| == pool.device.Length
    ensures IdsFit(pool.spec.pages, a.pageIds) && IdsFit(pool.spec.pages, b.pageIds)
    ensures var planes, pages := pool.planes, pool.spec.pages;
            var after := Unpacked(before, planes, pages, Image(source, planes, pages, a.pageIds[..count]), count,
                b.pageIds[..extent]);
            && Restored(source, a.pageIds[..count], after, b.pageIds[..extent], planes, pages)
            && forall other | other in pool.claims && other != b ::
                 IdsFit(pages, other.pageIds) && SamePages(before, after, planes, pages, other.pageIds)
  {
    hide Inv, SamePages, Image, Unpacked, Restored;
    OwnPages(pool, a);
    OwnPages(pool, b);
    var planes, pages := pool.planes, pool.spec.pages;
    var image := Image(source, planes, pages, a.pageIds[..count]);
    RoundTrip(source, a.pageIds[..count], before, b.pageIds[..extent], planes, pages);
    NobodyElseSees(pool, b, extent, before, Unpacked(before, planes, pages, image, count, b.pageIds[..extent]));
  }
}
