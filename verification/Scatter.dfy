/** The scatter kernel (src/core/paged_kv_scatter.cu): one device thread per packed byte. Whatever order the
    threads run in, the launch leaves the memory that unpacking the logical page would leave. */
module Scatter {
  import opened Arith
  import opened Results
  import opened Bytes
  import opened Dma
  import opened Planes
  import opened PageStore
  import opened PoolLedger
  import opened PagedKv
  import opened Transfer

  datatype ScatterPlane = ScatterPlane(base: nat, packedOffset: nat, packedBytes: nat, pageStride: nat,
                                       rowPitch: nat, rowBytes: nat, rows: nat)

  datatype ScatterPlan = ScatterPlan(planes: seq<ScatterPlane>, pageBytes: nat, maxPlaneBytes: nat)

  const THREADS := 256

  /** The descriptor of plane k. */
  function DescriptorOf(order: PlaneOrder, planes: seq<Plane>, k: nat): ScatterPlane
    requires k < |planes|
  {
    var plane := planes[k];
    ScatterPlane(plane.base, PlaneOffset(planes, 1, k), plane.PageBytes(), plane.row,
                 if order.PageMajor? then plane.row else plane.pitch, plane.row, plane.heads)
  }

  /** The plan describes every plane and knows the largest. */
  predicate PlanOf(plan: ScatterPlan, order: PlaneOrder, planes: seq<Plane>) {
    && |plan.planes| == |planes| && plan.pageBytes == ImageBytes(planes, 1)
    && (forall k | 0 <= k < |planes| :: plan.planes[k] == DescriptorOf(order, planes, k))
    && (forall k | 0 <= k < |planes| :: planes[k].PageBytes() <= plan.maxPlaneBytes)
    && if planes == [] then plan.maxPlaneBytes == 0
       else exists k | 0 <= k < |planes| :: planes[k].PageBytes() == plan.maxPlaneBytes
  }

  /** make_paged_kv_scatter_plan: fails exactly when a row does not fit 32 bits. */
  method MakePlan(pool: PagedKVPool) returns (r: Result<ScatterPlan, Error>)
    requires GeometryOk(pool.order, pool.planes, pool.spec.pages, pool.device.Length)
    ensures r.Ok? <==> forall k | 0 <= k < |pool.planes| :: pool.planes[k].row <= U32_MAX
    ensures if r.Ok? then PlanOf(r.value, pool.order, pool.planes) else r.error == LogicError
  {
    hide PlanesApart, Plane.PageBytes, DescriptorOf, PlaneOffset;
    var planes := pool.planes;
    var out, pageBytes, maxBytes := [], 0, 0;
    OffsetZero(planes);
    for k := 0 to |planes|
      invariant |out| == k && pageBytes == PlaneOffset(planes, 1, k)
      invariant forall j | 0 <= j < k :: planes[j].row <= U32_MAX && out[j] == DescriptorOf(pool.order, planes, j)
      invariant forall j | 0 <= j < k :: planes[j].PageBytes() <= maxBytes
      invariant if k == 0 then maxBytes == 0 else exists j | 0 <= j < k :: planes[j].PageBytes() == maxBytes
    {
      var plane := planes[k];
      if plane.row > U32_MAX { return Err(LogicError); }
      DescriptorIs(pool.order, planes, k);
      out := out + [ScatterPlane(plane.base, pageBytes, plane.PageBytes(), plane.row,
                                 if pool.order.PageMajor? then plane.row else plane.pitch, plane.row, plane.heads)];
      pageBytes := pageBytes + plane.PageBytes();
      maxBytes := Max(maxBytes, plane.PageBytes());
    }
    return Ok(ScatterPlan(out, pageBytes, maxBytes));
  }

  lemma OffsetZero(planes: seq<Plane>)
    ensures PlaneOffset(planes, 1, 0) == 0
  {}

  lemma DescriptorIs(order: PlaneOrder, planes: seq<Plane>, k: nat)
    requires k < |planes|
    ensures var plane := planes[k];
            DescriptorOf(order, planes, k)
            == ScatterPlane(plane.base, PlaneOffset(planes, 1, k), plane.PageBytes(), plane.row,
                            if order.PageMajor? then plane.row else plane.pitch, plane.row, plane.heads)
    ensures PlaneOffset(planes, 1, k + 1) == PlaneOffset(planes, 1, k) + planes[k].PageBytes()
  {}

  // ---------------------------------------------------------------------------------------------
  // The kernel
  // ---------------------------------------------------------------------------------------------

  datatype Thread = Thread(plane: nat, block: nat, lane: nat) {
    function Index(): nat { block * THREADS + lane }
  }

  /** The threads of the launch. */
  predicate InGrid(t: Thread, plan: ScatterPlan) {
    t.plane < |plan.planes| && t.block < (plan.maxPlaneBytes + (THREADS - 1)) / THREADS && t.lane < THREADS
  }

  predicate Active(t: Thread, plan: ScatterPlan) {
    t.plane < |plan.planes| && t.Index() < plan.planes[t.plane].packedBytes && t.Index() < plan.maxPlaneBytes
  }

  /** The address a thread writes. */
  function Address(plane: ScatterPlane, page: nat, index: nat): nat
    requires plane.rowBytes != 0
  {
    plane.base + page * plane.pageStride + index / plane.rowBytes * plane.rowPitch + index % plane.rowBytes
  }

  /** Row and column of a packed byte. */
  lemma RowColumn(index: nat, row: nat, heads: nat)
    requires 0 < row && index < heads * row
    ensures index / row < heads && index % row < row && index == index / row * row + index % row
  {
    if heads <= index / row { MulMono(heads, index / row, row); }
  }

  /** A thread writes inside the row of its page that its byte belongs to, in either plane order. */
  lemma AddressInPage(order: PlaneOrder, planes: seq<Plane>, pages: nat, size: nat, k: nat, page: nat, index: nat)
    requires GeometryOk(order, planes, pages, size) && k < |planes| && page < pages && index < planes[k].PageBytes()
    ensures var plane := planes[k];
            && index / plane.row < plane.heads
            && Address(DescriptorOf(order, planes, k), page, index)
               == At(plane.Start(page), plane.pitch, index / plane.row) + index % plane.row < size
  {
    var plane := planes[k];
    StorePlane(planes, pages, size, k);
    RowColumn(index, plane.row, plane.heads);
    CellInside(plane, pages, page, index / plane.row);
    if order.PageMajor? { assert index / plane.row == 0; }
  }

  /** One thread's write; no thread of a launch leaves the two buffers, as AddressInPage and Agrees say. */
  function Fire(mem: seq<byte>, staging: seq<byte>, plan: ScatterPlan, page: nat, t: Thread): (r: seq<byte>)
    requires Active(t, plan) ==> plan.planes[t.plane].rowBytes != 0
    ensures |r| == |mem|
  {
    if !Active(t, plan) then mem
    else
      var plane := plan.planes[t.plane];
      var at, from := Address(plane, page, t.Index()), plane.packedOffset + t.Index();
      if at < |mem| && from < |staging| then mem[at := staging[from]] else mem
  }

  predicate Sane(plan: ScatterPlan) { forall k | 0 <= k < |plan.planes| :: plan.planes[k].rowBytes != 0 }

  /** The launch under one schedule of its threads. */
  function Launch(mem: seq<byte>, staging: seq<byte>, plan: ScatterPlan, page: nat,
      schedule: seq<Thread>): (r: seq<byte>)
    requires Sane(plan)
    ensures |r| == |mem|
  {
    if schedule == [] then mem
    else
      var n := |schedule| - 1;
      Fire(Launch(mem, staging, plan, page, schedule[..n]), staging, plan, page, schedule[n])
  }

  /** Every thread of the grid runs, and no other. */
  ghost predicate Complete(schedule: seq<Thread>, plan: ScatterPlan) {
    (forall t | t in schedule :: InGrid(t, plan)) && forall t | InGrid(t, plan) :: t in schedule
  }

  /** Some thread of the schedule writes address x. */
  predicate Hit(schedule: seq<Thread>, plan: ScatterPlan, page: nat, x: nat)
    requires Sane(plan)
  {
    exists i :: 0 <= i < |schedule| && HitBy(schedule[i], plan, page, x)
  }

  predicate HitBy(t: Thread, plan: ScatterPlan, page: nat, x: nat)
    requires Sane(plan)
  {
    Active(t, plan) && Address(plan.planes[t.plane], page, t.Index()) == x
  }

  /** Every thread writes the byte that `want` has at its address. */
  ghost predicate Agrees(want: seq<byte>, staging: seq<byte>, plan: ScatterPlan, page: nat)
    requires Sane(plan)
  {
    forall t | Active(t, plan) ::
      var plane := plan.planes[t.plane];
      var at, from := Address(plane, page, t.Index()), plane.packedOffset + t.Index();
      at < |want| && from < |staging| && want[at] == staging[from]
  }

  /** So the order of the threads does not matter. */
  lemma {:induction false} LaunchAt(mem: seq<byte>, want: seq<byte>, staging: seq<byte>, plan: ScatterPlan, page: nat,
                                    schedule: seq<Thread>, x: nat)
    requires Sane(plan) && |want| == |mem| && Agrees(want, staging, plan, page) && x < |mem|
    ensures Launch(mem, staging, plan, page, schedule)[x] == if Hit(schedule, plan, page, x) then want[x] else mem[x]
    decreases |schedule|
  {
    hide Address;
    if schedule != [] {
      var n := |schedule| - 1;
      LaunchAt(mem, want, staging, plan, page, schedule[..n], x);
      HitSplit(schedule, plan, page, x);
    }
  }

  lemma HitSplit(schedule: seq<Thread>, plan: ScatterPlan, page: nat, x: nat)
    requires Sane(plan) && schedule != []
    ensures var n := |schedule| - 1;
            Hit(schedule, plan, page, x) <==> Hit(schedule[..n], plan, page, x) || HitBy(schedule[n], plan, page, x)
  {
    hide HitBy;
    var n := |schedule| - 1;
    if Hit(schedule, plan, page, x) {
      var i :| 0 <= i < |schedule| && HitBy(schedule[i], plan, page, x);
      if i < n { assert HitBy(schedule[..n][i], plan, page, x); }
    }
    if Hit(schedule[..n], plan, page, x) {
      var i :| 0 <= i < n && HitBy(schedule[..n][i], plan, page, x);
      assert HitBy(schedule[i], plan, page, x);
    }
  }

  // ---------------------------------------------------------------------------------------------
  // The launch is an unpack
  // ---------------------------------------------------------------------------------------------

  /** Every plane's page p of `after` holds its block of the packed page, and nothing else changed. */
  ghost predicate Placed(before: seq<byte>, after: seq<byte>, planes: seq<Plane>, pages: nat, staging: seq<byte>,
      page: nat)
    requires StoreFits(planes, pages, |before|) && page < pages && ImageBytes(planes, 1) <= |staging|
  {
    && |after| == |before|
    && (forall k | 0 <= k < |planes| :: PageOf(after, planes[k], pages, page) == Block(staging, planes, 1, k, 0))
    && OnlyChanged(before, after, planes, pages, [page])
  }

  lemma UnpackedIsPlaced(before: seq<byte>, planes: seq<Plane>, pages: nat, staging: seq<byte>, page: nat)
    requires StoreFits(planes, pages, |before|) && page < pages && ImageBytes(planes, 1) <= |staging|
    ensures Placed(before, Unpacked(before, planes, pages, staging, 1, [page]), planes, pages, staging, page)
  {
    hide PageOf, WriteAll, Block;
    GridFitsImage(staging, planes, pages, 1, [page]);
    var data := GridOf(staging, planes, 1, 1);
    WriteAllExact(before, planes, pages, [page], data);
    var after := Unpacked(before, planes, pages, staging, 1, [page]);
    forall k | 0 <= k < |planes| ensures PageOf(after, planes[k], pages, page) == Block(staging, planes, 1, k, 0) {
      assert PageOf(after, planes[k], pages, [page][0]) == data[k][0];
    }
  }

  /** Byte `index` of page p in plane k sits where the kernel's thread writes. */
  lemma ByteOfPage(mem: seq<byte>, plane: Plane, pages: nat, page: nat, index: nat)
    requires PlaneFits(plane, pages, |mem|) && page < pages && index < plane.PageBytes()
    ensures index / plane.row < plane.heads
    ensures var at := At(plane.Start(page), plane.pitch, index / plane.row) + index % plane.row;
            at < |mem| && mem[at] == PageOf(mem, plane, pages, page)[index]
  {
    RowColumn(index, plane.row, plane.heads);
    ByteOfRow(mem, plane, pages, page, index / plane.row, index % plane.row);
    AtIs(0, plane.row, index / plane.row);
  }

  lemma ByteOfRow(mem: seq<byte>, plane: Plane, pages: nat, page: nat, h: nat, c: nat)
    requires PlaneFits(plane, pages, |mem|) && page < pages && h < plane.heads && c < plane.row
    ensures var at, i := At(plane.Start(page), plane.pitch, h) + c, At(0, plane.row, h) + c;
            at < |mem| && i < plane.PageBytes() && mem[at] == PageOf(mem, plane, pages, page)[i]
  {
    hide At, Rows;
    PageRowsFit(plane, pages, |mem|, page);
    RowsBlock(mem, plane.Start(page), plane.pitch, plane.row, plane.heads, h);
    var all, s, o := PageOf(mem, plane, pages, page), At(plane.Start(page), plane.pitch, h), At(0, plane.row, h);
    assert all[o..o + plane.row][c] == mem[s..s + plane.row][c];
  }

  lemma BlockByte(staging: seq<byte>, planes: seq<Plane>, k: nat, index: nat)
    requires k < |planes| && ImageBytes(planes, 1) <= |staging| && index < planes[k].PageBytes()
    ensures PlaneOffset(planes, 1, k) + index < |staging|
    ensures Block(staging, planes, 1, k, 0)[index] == staging[PlaneOffset(planes, 1, k) + index]
  {
    BlockFits(planes, 1, k, 0);
    AtIs(PlaneOffset(planes, 1, k), planes[k].PageBytes(), 0);
  }

  lemma PlacedAgrees(order: PlaneOrder, before: seq<byte>, after: seq<byte>, planes: seq<Plane>, pages: nat,
                     staging: seq<byte>, page: nat, plan: ScatterPlan)
    requires GeometryOk(order, planes, pages, |before|) && page < pages && ImageBytes(planes, 1) <= |staging|
    requires Placed(before, after, planes, pages, staging, page) && PlanOf(plan, order, planes)
    ensures Sane(plan) && Agrees(after, staging, plan, page)
  {
    hide PageOf, Block, At, Address, PlanesApart, OnlyChanged;
    forall t | Active(t, plan)
      ensures var plane := plan.planes[t.plane];
              var at, from := Address(plane, page, t.Index()), plane.packedOffset + t.Index();
              at < |after| && from < |staging| && after[at] == staging[from]
    {
      var k := t.plane;
      AddressInPage(order, planes, pages, |before|, k, page, t.Index());
      ByteOfPage(after, planes[k], pages, page, t.Index());
      BlockByte(staging, planes, k, t.Index());
    }
  }

  /** The grid has a thread for byte `index` of plane k. */
  lemma ThreadFor(plan: ScatterPlan, order: PlaneOrder, planes: seq<Plane>, k: nat, index: nat)
    requires PlanOf(plan, order, planes) && k < |planes| && index < planes[k].PageBytes()
    ensures var t := Thread(k, index / THREADS, index % THREADS);
            InGrid(t, plan) && Active(t, plan) && t.Index() == index
  {}

  /** An address no thread writes keeps its byte. */
  lemma MissedIsKept(order: PlaneOrder, before: seq<byte>, after: seq<byte>, planes: seq<Plane>, pages: nat,
                     staging: seq<byte>, page: nat, plan: ScatterPlan, schedule: seq<Thread>, x: nat)
    requires GeometryOk(order, planes, pages, |before|) && page < pages && ImageBytes(planes, 1) <= |staging|
    requires Placed(before, after, planes, pages, staging, page) && PlanOf(plan, order, planes) && Sane(plan)
    requires Complete(schedule, plan) && x < |before| && !Hit(schedule, plan, page, x)
    ensures after[x] == before[x]
  {
    hide PageOf, Block, At, Address, Complete, InGrid, Active;
    if !Beyond(planes, x, x + 1) {
      var k :| 0 <= k < |planes| && planes[k].base <= x < planes[k].base + planes[k].heads * planes[k].pitch;
      StorePlane(planes, pages, |before|, k);
      var q, h := FindCell(planes[k], pages, |before|, x);
      if q == page {
        CellIsHit(order, planes, pages, |before|, page, plan, schedule, k, h, x);
      } else {
        assert q !in [page];
        SameCell(after, before, planes[k], pages, q, h, x);
      }
    }
  }

  /** Every byte of page p in plane k is some thread's. */
  lemma CellIsHit(order: PlaneOrder, planes: seq<Plane>, pages: nat, size: nat, page: nat, plan: ScatterPlan,
                  schedule: seq<Thread>, k: nat, h: nat, x: nat)
    requires GeometryOk(order, planes, pages, size) && page < pages && PlanOf(plan, order, planes) && Sane(plan)
    requires Complete(schedule, plan) && k < |planes| && h < planes[k].heads
    requires At(planes[k].Start(page), planes[k].pitch, h)
             <= x < At(planes[k].Start(page), planes[k].pitch, h) + planes[k].row
    ensures Hit(schedule, plan, page, x)
  {
    hide At, Address, PlanesApart;
    var plane := planes[k];
    StorePlane(planes, pages, size, k);
    var c := x - At(plane.Start(page), plane.pitch, h);
    var index := h * plane.row + c;
    MulMono(h + 1, plane.heads, plane.row);
    assert (h + 1) * plane.row == h * plane.row + plane.row;
    DivModUnique(index, plane.row, h, c);
    AddressInPage(order, planes, pages, size, k, page, index);
    ThreadFor(plan, order, planes, k, index);
    var t := Thread(k, index / THREADS, index % THREADS);
    assert t in schedule;
    var i :| 0 <= i < |schedule| && schedule[i] == t;
    assert HitBy(schedule[i], plan, page, x);
  }

  /** Under every schedule of the grid the launch leaves what unpacking the logical page leaves. */
  lemma ScatterIsUnpack(order: PlaneOrder, before: seq<byte>, planes: seq<Plane>, pages: nat, staging: seq<byte>,
                        page: nat, plan: ScatterPlan, schedule: seq<Thread>)
    requires GeometryOk(order, planes, pages, |before|) && page < pages && ImageBytes(planes, 1) <= |staging|
    requires PlanOf(plan, order, planes) && Complete(schedule, plan)
    ensures Sane(plan)
    ensures Launch(before, staging, plan, page, schedule) == Unpacked(before, planes, pages, staging, 1, [page])
  {
    hide Placed, Unpacked, Complete, PlanOf, Launch, Hit, Agrees;
    var want := Unpacked(before, planes, pages, staging, 1, [page]);
    UnpackedIsPlaced(before, planes, pages, staging, page);
    PlacedLength(before, want, planes, pages, staging, page);
    PlacedAgrees(order, before, want, planes, pages, staging, page, plan);
    var got := Launch(before, staging, plan, page, schedule);
    forall x | 0 <= x < |before| ensures got[x] == want[x] {
      LaunchAt(before, want, staging, plan, page, schedule, x);
      if !Hit(schedule, plan, page, x) {
        MissedIsKept(order, before, want, planes, pages, staging, page, plan, schedule, x);
      }
    }
  }

  lemma PlacedLength(before: seq<byte>, after: seq<byte>, planes: seq<Plane>, pages: nat, staging: seq<byte>, page: nat)
    requires StoreFits(planes, pages, |before|) && page < pages && ImageBytes(planes, 1) <= |staging|
    requires Placed(before, after, planes, pages, staging, page)
    ensures |after| == |before|
  {}

  /** scatter_paged_kv_logical_page_from_device, its threads running in the order `schedule`. */
  method ScatterLogicalPage(a: PagedKVAllocation, pool: PagedKVPool, staging: array?<byte>, plan: Option<ScatterPlan>,
                            index: nat, schedule: seq<Thread>)
    returns (r: Result<(), Error>)
    requires a.Valid() && pool.Valid() && staging != pool.device
    requires staging != null ==> ImageBytes(pool.planes, 1) <= staging.Length
    requires plan.Some? ==> PlanOf(plan.value, pool.order, pool.planes) && Complete(schedule, plan.value)
    modifies pool.device
    ensures r == if a.pool != pool then Err(InvalidArgument) else if index >= |a.pageIds| then Err(LogicError)
                 else if staging == null || plan.None? || pool.planes == [] then Err(InvalidArgument) else Ok(())
    ensures r.Err? ==> pool.device[..] == old(pool.device[..])
    ensures r.Ok? ==> IdsFit(pool.spec.pages, a.pageIds)
    ensures r.Ok? ==> pool.device[..]
                      == Unpacked(old(pool.device[..]), pool.planes, pool.spec.pages, staging[..], 1,
                        [a.pageIds[index]])
  {
    hide Inv, Unpacked, Complete, Fire;
    if a.pool == null || a.pool != pool { return Err(InvalidArgument); }
    if index >= |a.pageIds| { return Err(LogicError); }
    if staging == null || plan.None? { return Err(InvalidArgument); }
    PlanSize(plan.value, pool.order, pool.planes, pool.spec.pages, pool.device.Length);
    if |plan.value.planes| != |pool.planes| || plan.value.maxPlaneBytes == 0 { return Err(InvalidArgument); }
    OwnPages(pool, a);
    ghost var before := pool.device[..];
    var page := a.pageIds[index];
    ScatterIsUnpack(pool.order, before, pool.planes, pool.spec.pages, staging[..], page, plan.value, schedule);
    assert schedule[..0] == [];
    for i := 0 to |schedule|
      invariant pool.device[..] == Launch(before, staging[..], plan.value, page, schedule[..i])
    {
      assert schedule[..i + 1][..i] == schedule[..i];
      FireThread(pool.device, staging, plan.value, page, schedule[i]);
    }
    assert schedule[..|schedule|] == schedule;
    return Ok(());
  }

  lemma PlanSize(plan: ScatterPlan, order: PlaneOrder, planes: seq<Plane>, pages: nat, size: nat)
    requires PlanOf(plan, order, planes) && GeometryOk(order, planes, pages, size)
    ensures Sane(plan) && (planes != [] ==> plan.maxPlaneBytes != 0)
  {}

  /** scatter_paged_kv_page: the body of the kernel. */
  method FireThread(device: array<byte>, staging: array<byte>, plan: ScatterPlan, page: nat, t: Thread)
    requires device != staging && Sane(plan)
    modifies device
    ensures device[..] == Fire(old(device[..]), staging[..], plan, page, t)
  {
    if Active(t, plan) {
      var plane := plan.planes[t.plane];
      var at, from := Address(plane, page, t.Index()), plane.packedOffset + t.Index();
      if at < device.Length && from < staging.Length { device[at] := staging[from]; }
    }
  }
}
