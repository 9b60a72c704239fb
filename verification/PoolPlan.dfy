/** Planning the planes of a paged KV pool (src/core/paged_kv_cache.cpp, src/core/layout.cpp): a planned
    pool always has the plane geometry the transfer layer relies on. */
module PoolPlan {
  import opened Arith
  import opened Results
  import opened Bytes
  import opened Tensors
  import opened Layout
  import opened TensorLayout
  import opened Dma
  import opened Planes
  import opened PoolLedger
  import opened PagedKv

  // ---------------------------------------------------------------------------------------------
  // plan_paged_kv_pool
  // ---------------------------------------------------------------------------------------------

  const PAGE_SIZE := 64

  datatype PlaneSpec = PlaneSpec(dtype: DType, leading: int, heads: int, alignment: u64)

  datatype PoolSpec = PoolSpec(spec: Spec, order: PlaneOrder, planes: seq<PlaneSpec>)

  /** A planned plane, with the layout's own copy of its spec. */
  datatype PlaneLayout = PlaneLayout(spec: PlaneSpec, storage: TensorRegion)

  datatype PoolLayout = PoolLayout(spec: PoolSpec, planes: seq<PlaneLayout>, tables: TensorRegion)

  /** The tensor shape of a plane in the pool's order. */
  function PlaneShape(order: PlaneOrder, plane: PlaneSpec, pages: nat): Quad {
    if order.PageMajor? then [plane.leading, PAGE_SIZE, plane.heads, pages]
    else [plane.leading, PAGE_SIZE, pages, plane.heads]
  }

  /** The checks before the first plane. */
  predicate HeaderOk(s: PoolSpec) {
    0 < s.spec.pages <= I32_MAX && 0 < s.spec.logicalPages <= I32_MAX && 0 < s.spec.rows && s.planes != []
  }

  predicate SpecOk(s: PoolSpec) {
    HeaderOk(s) && forall k | 0 <= k < |s.planes| :: 0 < s.planes[k].leading && 0 < s.planes[k].heads
  }

  /** The tensor of plane k exists and its alignment is a power of two. */
  predicate PlaneOk(s: PoolSpec, k: nat)
    requires k < |s.planes|
  {
    Exists(s.planes[k].dtype, PlaneShape(s.order, s.planes[k], s.spec.pages)) && PowerOfTwo(s.planes[k].alignment)
  }

  function TableShape(s: PoolSpec): Quad { [s.spec.logicalPages, s.spec.rows, 1, 1] }

  const TABLE_ALIGN: u64 := 256

  /** Where plane k goes when the planner starts at `start`, and where the first k planes end. */
  function PlaneAt(s: PoolSpec, start: nat, k: nat): TensorRegion
    requires k < |s.planes| && PlaneOk(s, k) && forall j | 0 <= j < k :: PlaneOk(s, j)
    decreases k, 1
  {
    var plane := s.planes[k];
    RegionAt(PlanesEnd(s, start, k), plane.dtype, PlaneShape(s.order, plane, s.spec.pages), plane.alignment)
  }

  function PlanesEnd(s: PoolSpec, start: nat, k: nat): nat
    requires k <= |s.planes| && forall j | 0 <= j < k :: PlaneOk(s, j)
    decreases k, 0
  {
    if k == 0 then start else PlaneAt(s, start, k - 1).region.End()
  }

  /** Every tensor of the pool exists. */
  predicate PoolExists(s: PoolSpec) {
    SpecOk(s) && (forall k | 0 <= k < |s.planes| :: PlaneOk(s, k)) && Exists(DType.I32, TableShape(s))
  }

  function TablesAt(s: PoolSpec, start: nat): TensorRegion
    requires PoolExists(s)
  {
    TableAlign();
    RegionAt(PlanesEnd(s, start, |s.planes|), DType.I32, TableShape(s), TABLE_ALIGN)
  }

  lemma TableAlign()
    ensures PowerOfTwo(TABLE_ALIGN)
  {
    PowerProduct(16, 16);
  }

  /** Where the whole pool ends. */
  function PoolEnd(s: PoolSpec, start: nat): nat
    requires PoolExists(s)
  {
    TablesAt(s, start).region.End()
  }

  /** If the end of the pool fits 64 bits, so does the end of each plane. */
  lemma {:induction false} EndGrows(s: PoolSpec, start: nat, k: nat)
    requires PoolExists(s) && k <= |s.planes|
    ensures PlanesEnd(s, start, k) <= PoolEnd(s, start)
    decreases |s.planes| - k
  {
    hide PowerOfTwo, Stride, Exists, AlignUp;
    TableAlign();
    if k < |s.planes| { EndGrows(s, start, k + 1); }
  }

  /** A planned plane: the right shape, and a region of the right size. */
  predicate PlannedPlane(s: PoolSpec, k: nat, t: TensorRegion)
    requires k < |s.planes|
  {
    t.shape == PlaneShape(s.order, s.planes[k], s.spec.pages) && t.dtype == s.planes[k].dtype && Consistent(t)
  }

  /** What a planned plane is: 64 positions of every page, head inside page in page-major order and page inside head
      in head-major order. */
  lemma PlannedMeans(s: PoolSpec, k: nat, t: TensorRegion)
    requires k < |s.planes| && PlannedPlane(s, k, t)
    ensures var plane, pages := s.planes[k], s.spec.pages;
            && t.dtype == plane.dtype
            && t.shape == (if s.order.PageMajor? then [plane.leading, 64, plane.heads, pages]
                           else [plane.leading, 64, pages, plane.heads])
            && t.region.bytes == plane.dtype.Size() * (plane.leading * 64 * plane.heads * pages)
  {
    DenseCount(t.shape);
    var l, h, p := s.planes[k].leading, s.planes[k].heads, s.spec.pages;
    assert l * 64 * p * h == l * 64 * h * p by { assert (l * 64) * (p * h) == (l * 64) * (h * p); }
  }

  /** The planes follow each other from the start, each at its own alignment, and the block tables follow them. */
  lemma PlannedInOrder(s: PoolSpec, start: nat, k: nat)
    requires PoolExists(s) && k < |s.planes|
    ensures var end := if k == 0 then start else PlaneAt(s, start, k - 1).region.End();
            0 < s.planes[k].alignment && PlaneAt(s, start, k).region.offset == AlignUp(end, s.planes[k].alignment)
    ensures PlaneAt(s, start, k).region.alignment == s.planes[k].alignment
    ensures var t := TablesAt(s, start);
            && t.region.offset == AlignUp(PlaneAt(s, start, |s.planes| - 1).region.End(), 256)
            && t.dtype == DType.I32 && t.shape == [s.spec.logicalPages, s.spec.rows, 1, 1]
            && t.region.bytes == 4 * (s.spec.logicalPages * s.spec.rows) && t.region.alignment == 256
  {
    hide AlignUp, Stride;
    assert PlaneOk(s, k);
    PowerPositive(s.planes[k].alignment);
    DenseCount(TableShape(s));
    assert Stride(4, TableShape(s), 4) == 4 * Prod(TableShape(s), 4) by { StrideIs(4, TableShape(s)); }
  }

  lemma StrideIs(size: nat, ne: Quad)
    ensures Stride(size, ne, 4) == size * Prod(ne, 4)
  {}

  function Regions(planes: seq<PlaneLayout>): (r: seq<Region>)
    ensures |r| == |planes| && forall k | 0 <= k < |planes| :: r[k] == planes[k].storage.region
  {
    seq(|planes|, k requires 0 <= k < |planes| => planes[k].storage.region)
  }

  /** The error of the first plane that cannot be planned. */
  function PlaneError(s: PoolSpec, k: nat): Error
    requires k < |s.planes|
  {
    var plane := s.planes[k];
    if plane.leading <= 0 || plane.heads <= 0
       || (Exists(plane.dtype, PlaneShape(s.order, plane, s.spec.pages)) && !PowerOfTwo(plane.alignment))
    then InvalidArgument else Overflow
  }

  /** Planning from `start` fails at plane m, or at the tables if m is the number of planes; the regions before it
      were added. */
  ghost predicate StopsAt(s: PoolSpec, start: nat, m: nat, before: seq<Region>, after: seq<Region>, e: Error) {
    && m <= |s.planes| && (forall k | 0 <= k < m :: PlaneOk(s, k))
    && |after| == |before| + m && before <= after
    && (forall k | 0 <= k < m :: after[|before| + k] == PlaneAt(s, start, k).region)
    && if m < |s.planes| then
         (PlaneOk(s, m) ==> PlaneAt(s, start, m).region.End() > U64_MAX) && e == PlaneError(s, m)
       else
         (PoolExists(s) ==> PoolEnd(s, start) > U64_MAX) && e == Overflow
  }

  lemma Stops(s: PoolSpec, start: nat, planes: seq<PlaneLayout>, before: seq<Region>, e: Error)
    requires |planes| <= |s.planes| && forall k | 0 <= k < |planes| :: PlaneOk(s, k)
    requires forall k | 0 <= k < |planes| :: planes[k].storage == PlaneAt(s, start, k)
    requires if |planes| < |s.planes| then
               (PlaneOk(s, |planes|) ==> PlaneAt(s, start, |planes|).region.End() > U64_MAX)
               && e == PlaneError(s, |planes|)
             else (PoolExists(s) ==> PoolEnd(s, start) > U64_MAX) && e == Overflow
    ensures exists m: nat :: StopsAt(s, start, m, before, before + Regions(planes), e)
  {
    hide PlaneAt, PlaneOk, PlaneError, PoolExists, PoolEnd;
    assert StopsAt(s, start, |planes|, before, before + Regions(planes), e);
  }

  /** The header passes and the first plane can be placed. */
  predicate FirstPlaced(s: PoolSpec, start: nat) {
    HeaderOk(s) && PlaneOk(s, 0) && PlaneAt(s, start, 0).region.End() <= U64_MAX
  }

  /** Plans one plane. */
  method AddPlane(b: LayoutBuilder, s: PoolSpec, k: nat) returns (r: Result<TensorRegion, Error>)
    requires b.Valid() && HeaderOk(s) && k < |s.planes|
    modifies b
    ensures b.Valid() && b.marks == old(b.marks)
    ensures r.Err? ==> b.State() == old(b.State()) && r.error == PlaneError(s, k)
    ensures r.Ok? ==> PlaneOk(s, k) && 0 < s.planes[k].leading && 0 < s.planes[k].heads
    ensures r.Ok? ==>
              var plane := s.planes[k];
              && r.value == RegionAt(old(b.cursor), plane.dtype, PlaneShape(s.order, plane, s.spec.pages),
                plane.alignment)
              && r.value.region.End() <= U64_MAX && PlannedPlane(s, k, r.value)
    ensures r.Ok? ==> b.live == old(b.live) + [r.value.region] && b.cursor == r.value.region.End()
                      && b.peak == Max(old(b.peak), b.cursor) && old(b.cursor) <= b.cursor
    ensures r.Err? && PlaneOk(s, k) ==>
              var plane := s.planes[k];
              RegionAt(b.cursor, plane.dtype, PlaneShape(s.order, plane, s.spec.pages),
                plane.alignment).region.End() > U64_MAX
  {
    hide Layout.Inv, Stride, Prod, AlignUp, PowerOfTwo;
    var plane := s.planes[k];
    var shape := PlaneShape(s.order, plane, s.spec.pages);
    assert Padded(shape) == shape;
    assert shape[0] == plane.leading && (shape[2] == plane.heads || shape[3] == plane.heads);
    if plane.leading <= 0 || plane.heads <= 0 { return Err(InvalidArgument); }
    r := AddTensor(b, plane.dtype, shape, plane.alignment);
  }

  /** Plans the block tables. */
  method AddTables(b: LayoutBuilder, s: PoolSpec) returns (r: Result<TensorRegion, Error>)
    requires b.Valid() && HeaderOk(s)
    modifies b
    ensures b.Valid() && b.marks == old(b.marks)
    ensures r.Err? ==> b.State() == old(b.State()) && r.error == Overflow
    ensures PowerOfTwo(TABLE_ALIGN)
    ensures r.Ok? <==> Exists(DType.I32, TableShape(s))
                       && RegionAt(old(b.cursor), DType.I32, TableShape(s), TABLE_ALIGN).region.End() <= U64_MAX
    ensures r.Ok? ==> r.value == RegionAt(old(b.cursor), DType.I32, TableShape(s), TABLE_ALIGN) && Consistent(r.value)
    ensures r.Ok? ==> b.live == old(b.live) + [r.value.region] && b.cursor == r.value.region.End()
                      && b.peak == Max(old(b.peak), b.cursor) && old(b.cursor) <= b.cursor
  {
    hide Layout.Inv, Stride, Prod, AlignUp, PowerOfTwo;
    TableAlign();
    assert Padded([s.spec.logicalPages, s.spec.rows]) == TableShape(s);
    r := AddTensor(b, DType.I32, [s.spec.logicalPages, s.spec.rows], TABLE_ALIGN);
  }

  /** plan_paged_kv_pool: succeeds exactly when every tensor of the pool exists and the end of the pool fits. A
      failure names the first plane that cannot be planned and leaves the planes before it in the builder. */
  method Plan(b: LayoutBuilder, s: PoolSpec) returns (r: Result<PoolLayout, Error>)
    requires b.Valid()
    modifies b
    ensures b.Valid() && b.marks == old(b.marks) && old(b.live) <= b.live
    ensures !HeaderOk(s) ==> r == Err(InvalidArgument) && b.State() == old(b.State())
    ensures r.Ok? <==> PoolExists(s) && PoolEnd(s, old(b.cursor)) <= U64_MAX
    ensures r.Err? && HeaderOk(s) ==> exists m: nat :: StopsAt(s, old(b.cursor), m, old(b.live), b.live, r.error)
    ensures r.Err? ==> (b.State() == old(b.State()) <==> !FirstPlaced(s, old(b.cursor)))
    ensures r.Ok? ==> r.value.spec == s && |r.value.planes| == |s.planes|
    ensures r.Ok? ==> forall k | 0 <= k < |s.planes| ::
              && PlannedPlane(s, k, r.value.planes[k].storage)
              && r.value.planes[k] == PlaneLayout(s.planes[k], PlaneAt(s, old(b.cursor), k))
    ensures r.Ok? ==> r.value.tables == TablesAt(s, old(b.cursor)) && Consistent(r.value.tables)
    ensures r.Ok? ==> b.live == old(b.live) + Regions(r.value.planes) + [r.value.tables.region]
    ensures r.Ok? ==> b.peak == Max(old(b.peak), PoolEnd(s, old(b.cursor)))
  {
    hide Consistent, Layout.Inv, Exists, PowerOfTwo, AlignUp, PlannedPlane, RegionAt, Stride, PlaneShape,
      StopsAt, PlaneError, TableShape;
    if s.spec.pages == 0 || s.spec.pages > I32_MAX { return Err(InvalidArgument); }
    if s.spec.logicalPages == 0 || s.spec.logicalPages > I32_MAX { return Err(InvalidArgument); }
    if s.spec.rows <= 0 { return Err(InvalidArgument); }
    if s.planes == [] { return Err(InvalidArgument); }
    ghost var before, start := b.live, b.cursor;
    CursorFits(b);
    var planes: seq<PlaneLayout> := [];
    assert before + Regions([]) == before;
    for k := 0 to |s.planes|
      invariant b.Valid() && b.marks == old(b.marks) && |planes| == k
      invariant forall j | 0 <= j < k :: 0 < s.planes[j].leading && 0 < s.planes[j].heads && PlaneOk(s, j)
      invariant forall j | 0 <= j < k ::
                PlannedPlane(s, j, planes[j].storage) && planes[j] == PlaneLayout(s.planes[j], PlaneAt(s, start, j))
      invariant b.cursor == PlanesEnd(s, start, k) && b.peak == Max(old(b.peak), b.cursor)
      invariant b.live == before + Regions(planes)
      invariant if k == 0 then b.State() == old(b.State()) else FirstPlaced(s, start)
    {
      var planned := AddPlane(b, s, k);
      if planned.Err? {
        if PoolExists(s) { EndGrows(s, start, k + 1); }
        Stops(s, start, planes, before, planned.error);
        return Err(planned.error);
      }
      var plane := PlaneLayout(s.planes[k], planned.value);
      assert Regions(planes + [plane]) == Regions(planes) + [planned.value.region];
      planes := planes + [plane];
    }
    var tables := AddTables(b, s);
    if tables.Err? {
      Stops(s, start, planes, before, Overflow);
      return Err(tables.error);
    }
    return Ok(PoolLayout(s, planes, tables.value));
  }

  // ---------------------------------------------------------------------------------------------
  // The planes of a planned pool
  // ---------------------------------------------------------------------------------------------

  /** How the transfer layer sees a plane tensor: nb[3] per page in page-major order; nb[2] per page and
      nb[3] per head in head-major order. Offsets are relative to the backing. */
  function PlaneOf(order: PlaneOrder, t: TensorRegion, pages: nat): Plane
    requires Positive(t.shape)
  {
    var size := t.dtype.Size();
    StridesPositive(size, t.shape);
    if order.PageMajor? then Plane(t.region.offset, Stride(size, t.shape, 3), pages * Stride(size, t.shape, 3), 1)
    else Plane(t.region.offset, Stride(size, t.shape, 2), Stride(size, t.shape, 3), t.shape[3])
  }

  lemma StridesPositive(size: nat, shape: Quad)
    requires 0 < size && Positive(shape)
    ensures 0 < Stride(size, shape, 2) && 0 < Stride(size, shape, 3)
  {
    StrideStep(size, shape, 2);
  }

  /** The plane of a planned tensor fills its region exactly. */
  lemma PlaneFillsRegion(s: PoolSpec, k: nat, t: TensorRegion)
    requires SpecOk(s) && k < |s.planes| && PlannedPlane(s, k, t)
    ensures var plane := PlaneOf(s.order, t, s.spec.pages);
            && plane.base == t.region.offset && plane.heads * plane.pitch == t.region.bytes
            && plane.pitch == s.spec.pages * plane.row && 0 < plane.row && 0 < plane.heads
            && (s.order.PageMajor? ==> plane.heads == 1)
  {
    hide Stride;
    StridesPositive(t.dtype.Size(), t.shape);
    StridePeel(t.dtype.Size(), t.shape, 2);
    StridePeel(t.dtype.Size(), t.shape, 3);
  }

  function PlanesOf(layout: PoolLayout): (planes: seq<Plane>)
    requires forall k | 0 <= k < |layout.planes| :: Positive(layout.planes[k].storage.shape)
    ensures |planes| == |layout.planes|
    ensures forall k | 0 <= k < |planes| ::
            planes[k] == PlaneOf(layout.spec.order, layout.planes[k].storage, layout.spec.spec.pages)
  {
    seq(|layout.planes|, k requires 0 <= k < |layout.planes| =>
      PlaneOf(layout.spec.order, layout.planes[k].storage, layout.spec.spec.pages))
  }

  /** A layout that a builder holds alive. */
  ghost predicate Planned(layout: PoolLayout, p: Plan) {
    && SpecOk(layout.spec) && |layout.planes| == |layout.spec.planes|
    && (forall k | 0 <= k < |layout.planes| :: PlannedPlane(layout.spec, k, layout.planes[k].storage))
    && exists at: nat :: AliveAt(layout, p, at)
  }

  ghost predicate AliveAt(layout: PoolLayout, p: Plan, at: nat) {
    && at + |layout.planes| < |p.live|
    && (forall k | 0 <= k < |layout.planes| :: p.live[at + k] == layout.planes[k].storage.region)
    && p.live[at + |layout.planes|] == layout.tables.region
  }

  /** Whatever else the same builder planned before, the planes of a planned pool lie apart inside any
      backing of at least the builder's peak: the geometry every transfer relies on. */
  lemma PlannedGeometry(layout: PoolLayout, p: Plan, size: nat)
    requires Layout.Inv(p) && Planned(layout, p) && p.peak <= size
    ensures forall k | 0 <= k < |layout.planes| :: Positive(layout.planes[k].storage.shape)
    ensures GeometryOk(layout.spec.order, PlanesOf(layout), layout.spec.spec.pages, size)
    ensures forall k | 0 <= k < |layout.planes| :: Apart(layout.planes[k].storage.region, layout.tables.region)
  {
    hide Stride, PlaneOf, PowerOfTwo;
    var planes, pages := PlanesOf(layout), layout.spec.spec.pages;
    var at: nat :| AliveAt(layout, p, at);
    forall k | 0 <= k < |planes|
      ensures PlaneFits(planes[k], pages, size) && (layout.spec.order.PageMajor? ==> planes[k].heads == 1)
      ensures Apart(layout.planes[k].storage.region, layout.tables.region)
    {
      PlaneFillsRegion(layout.spec, k, layout.planes[k].storage);
      assert p.live[at + k].End() <= p.live[at + |planes|].offset;
    }
    forall j, k | 0 <= j < k < |planes| ensures PlanesApart(planes[j], planes[k]) {
      PlaneFillsRegion(layout.spec, j, layout.planes[j].storage);
      PlaneFillsRegion(layout.spec, k, layout.planes[k].storage);
      assert p.live[at + j].End() <= p.live[at + k].offset;
    }
  }

  /** The tensor region is consistent and binds to the backing. */
  predicate Binds(t: TensorRegion, backing: Span) { Consistent(t) && BindRegion(t.region, backing).Ok? }

  /** The tensor a region binds to. */
  function Bound(t: TensorRegion, base: nat): Tensor { Dense(base + t.region.offset, t.dtype, t.shape) }

  /** The layout's copy of plane k's spec agrees with the pool's. */
  predicate MatchesSpec(layout: PoolLayout, k: nat)
    requires k < |layout.planes|
  {
    && k < |layout.spec.planes| && layout.planes[k].spec.dtype == layout.spec.planes[k].dtype
    && layout.planes[k].spec.leading == layout.spec.planes[k].leading
    && layout.planes[k].spec.heads == layout.spec.planes[k].heads
  }

  /** The binding part of the constructor: the block tables, the inventory checks, then the planes. */
  method BindPool(backing: Span, layout: PoolLayout) returns (r: Result<(Tensor, seq<Tensor>), Error>)
    ensures r.Ok? <==>
            && Binds(layout.tables, backing) && |layout.planes| == |layout.spec.planes| && layout.planes != []
            && layout.tables.dtype == DType.I32 && 0 < layout.spec.spec.logicalPages <= I32_MAX
            && layout.tables.shape[..2] == [layout.spec.spec.logicalPages, layout.spec.spec.rows]
            && forall k | 0 <= k < |layout.planes| :: MatchesSpec(layout, k) && Binds(layout.planes[k].storage, backing)
    ensures r.Ok? ==> r.value.0 == Bound(layout.tables, backing.data) && |r.value.1| == |layout.planes|
    ensures r.Ok? ==> forall k | 0 <= k < |layout.planes| ::
            r.value.1[k] == Bound(layout.planes[k].storage, backing.data)
  {
    hide Consistent, PowerOfTwo, Dense;
    var tables := BindTensor(layout.tables, backing);
    if tables.Err? { return Err(tables.error); }
    if |layout.planes| != |layout.spec.planes| || layout.planes == [] { return Err(InvalidArgument); }
    if layout.tables.dtype != DType.I32 { return Err(LogicError); }
    var logical := layout.spec.spec.logicalPages;
    if logical == 0 || logical > I32_MAX { return Err(InvalidArgument); }
    if layout.tables.shape[0] != logical || layout.tables.shape[1] != layout.spec.spec.rows { return Err(LogicError); }
    var planes: seq<Tensor> := [];
    for k := 0 to |layout.planes|
      invariant |planes| == k && forall j | 0 <= j < k ::
                  && MatchesSpec(layout, j) && Binds(layout.planes[j].storage, backing)
                  && planes[j] == Bound(layout.planes[j].storage, backing.data)
    {
      var own, wanted := layout.planes[k].spec, layout.spec.planes[k];
      if own.dtype != wanted.dtype || own.leading != wanted.leading || own.heads != wanted.heads {
        return Err(LogicError);
      }
      var plane := BindTensor(layout.planes[k].storage, backing);
      if plane.Err? { return Err(plane.error); }
      planes := planes + [plane.value];
    }
    return Ok((tables.value, planes));
  }

  /** The base address meets every alignment of the pool. */
  predicate BaseAligned(s: PoolSpec, base: nat)
    requires PoolExists(s)
  {
    base % TABLE_ALIGN == 0
    && forall k | 0 <= k < |s.planes| :: PlaneOk(s, k) && base % s.planes[k].alignment == 0
  }

  /** Over a backing that reaches the end of the pool, binding depends only on the address. */
  lemma PlannedBinds(s: PoolSpec, start: nat, backing: Span)
    requires PoolExists(s) && PoolEnd(s, start) <= backing.bytes
    ensures Binds(TablesAt(s, start), backing) <==> backing.data != 0 && backing.data % TABLE_ALIGN == 0
    ensures TablesAt(s, start).dtype == DType.I32 && TablesAt(s, start).shape[..2] == [s.spec.logicalPages, s.spec.rows]
    ensures forall k | 0 <= k < |s.planes| ::
              (Binds(PlaneAt(s, start, k), backing) <==>
               backing.data != 0 && PlaneOk(s, k) && backing.data % s.planes[k].alignment == 0)
  {
    hide PowerOfTwo, Stride, Exists, AlignUp, BindRegion, PlanesEnd;
    TableAlign();
    BindAligned(TablesAt(s, start).region, backing);
    forall k | 0 <= k < |s.planes|
      ensures Binds(PlaneAt(s, start, k), backing) <==>
              backing.data != 0 && PlaneOk(s, k) && backing.data % s.planes[k].alignment == 0
    {
      PlaneBinds(s, start, k, backing);
    }
  }

  lemma PlaneBinds(s: PoolSpec, start: nat, k: nat, backing: Span)
    requires PoolExists(s) && PoolEnd(s, start) <= backing.bytes && k < |s.planes| && PlaneOk(s, k)
    ensures Binds(PlaneAt(s, start, k), backing) <==>
            backing.data != 0 && backing.data % s.planes[k].alignment == 0
  {
    hide PowerOfTwo, Stride, Exists, AlignUp, BindRegion, PoolEnd;
    EndGrows(s, start, k + 1);
    BindAligned(PlaneAt(s, start, k).region, backing);
  }

  /** Plans a pool, finishes the builder, and builds the pool over a backing of the finished size at `base`:
      succeeds exactly when planning does, the finished size fits, and the address meets every alignment. */
  method PlanAndBuild(b: LayoutBuilder, s: PoolSpec, finish: u64, base: nat) returns (r: Result<PagedKVPool, Error>)
    requires b.Valid()
    modifies b
    ensures b.Valid()
    ensures r.Ok? <==>
            && PoolExists(s) && PoolEnd(s, old(b.cursor)) <= U64_MAX && PowerOfTwo(finish)
            && AlignUp(Max(old(b.peak), PoolEnd(s, old(b.cursor))), finish) <= U64_MAX
            && base != 0 && BaseAligned(s, base)
    ensures r.Ok? ==> fresh(r.value) && r.value.Valid() && r.value.State() == Fresh(s.spec) && r.value.order == s.order
    ensures r.Ok? ==> |r.value.planes| == |s.planes| && forall k | 0 <= k < |s.planes| ::
              r.value.planes[k] == PlaneOf(s.order, PlaneAt(s, old(b.cursor), k), s.spec.pages)
  {
    hide Layout.Inv, PoolLedger.Inv, Stride, Consistent, GeometryOk, CheckedAlign, PlannedPlane, PlaneAt, TablesAt,
      PlaneOf, Exists, PowerOfTwo, AlignUp, Binds;
    ghost var before, start := b.live, b.cursor;
    var layout := Plan(b, s);
    if layout.Err? { return Err(layout.error); }
    var total := b.FinishLayout(finish);
    if total.Err? { return Err(total.error); }
    var device := new byte[total.value];
    PlannedBinds(s, start, Span(base, device.Length));
    var bound := BindPool(Span(base, device.Length), layout.value);
    if bound.Err? { return Err(bound.error); }
    assert AliveAt(layout.value, b.State(), |before|);
    assert Planned(layout.value, b.State());
    PlannedGeometry(layout.value, b.State(), device.Length);
    var pool := new PagedKVPool(s.spec, s.order, PlanesOf(layout.value), device);
    return Ok(pool);
  }

  // ---------------------------------------------------------------------------------------------
  // Elements and pages
  // ---------------------------------------------------------------------------------------------

  /** An element of a plane tensor lies in the row of its page (and head) that the transfer layer moves. */
  lemma ElementInItsPage(s: PoolSpec, k: nat, t: TensorRegion, at: Quad)
    requires SpecOk(s) && k < |s.planes| && PlannedPlane(s, k, t) && InShape(t.shape, at)
    ensures var plane := PlaneOf(s.order, t, s.spec.pages);
            var page: nat, head: nat := if s.order.PageMajor? then at[3] else at[2], if s.order.PageMajor? then 0
                else at[3];
            var row := At(plane.Start(page), plane.pitch, head);
            && page < s.spec.pages && head < plane.heads
            && row <= Addr(Dense(t.region.offset, t.dtype, t.shape), at)
            && Addr(Dense(t.region.offset, t.dtype, t.shape), at) + t.dtype.Size() <= row + plane.row
  {
    hide Stride, Addr, Position;
    var size, ne := t.dtype.Size(), t.shape;
    var dense := Dense(t.region.offset, t.dtype, ne);
    AddrSum(dense, at);
    StridesPositive(size, ne);
    LowPart(size, ne, at);
    StridePeel(size, ne, 2);
    StridePeel(size, ne, 3);
    if s.order.PageMajor? { assert at[3] < ne[3] == s.spec.pages; } else { assert at[2] < ne[2] == s.spec.pages; }
  }

  lemma AddrSum(t: Tensor, at: Quad)
    ensures Addr(t, at) == t.data + at[0] * t.nb[0] + at[1] * t.nb[1] + at[2] * t.nb[2] + at[3] * t.nb[3]
  {}

  /** The inner coordinates stay below the stride of the next dimension. */
  lemma LowPart(size: nat, ne: Quad, at: Quad)
    requires 0 < size && Positive(ne) && InShape(ne, at)
    ensures 0 <= at[0] * Stride(size, ne, 0) + at[1] * Stride(size, ne, 1)
    ensures at[0] * Stride(size, ne, 0) + at[1] * Stride(size, ne, 1) + size <= Stride(size, ne, 2)
    ensures 0 <= at[2] * Stride(size, ne, 2) && at[2] * Stride(size, ne, 2) + Stride(size, ne, 2) <= Stride(size, ne, 3)
  {
    hide Stride;
    FirstStride(size, ne);
    OneDigit(size, ne, at, 0);
    OneDigit(size, ne, at, 1);
    OneDigit(size, ne, at, 2);
  }

  lemma OneDigit(size: nat, ne: Quad, at: Quad, i: nat)
    requires 0 < size && Positive(ne) && InShape(ne, at) && i < 4
    ensures 0 <= at[i] * Stride(size, ne, i)
            && at[i] * Stride(size, ne, i) + Stride(size, ne, i) <= Stride(size, ne, i + 1)
  {
    hide Stride;
    StridePeel(size, ne, i);
    StrideStep(size, ne, i);
    var b := Stride(size, ne, i);
    MulNonNeg(at[i], b);
    MulMono(at[i] + 1, ne[i], b);
    assert (at[i] + 1) * b == at[i] * b + b;
  }
}
