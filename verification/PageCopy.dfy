/** Device-side operations on pages (src/core/paged_kv_cache.cpp): copy_paged_kv_allocation with its paired
    runs, and zero_pages with its sorted runs. */
module PageCopy {
  import opened Arith
  import opened Results
  import opened Sorting
  import opened Bytes
  import opened Dma
  import opened Planes
  import opened PageRuns
  import opened PageStore
  import opened PoolLedger
  import opened PagedKv
  import opened Transfer

  // ---------------------------------------------------------------------------------------------
  // Copying inside the device
  // ---------------------------------------------------------------------------------------------

  /** cudaMemcpyAsync device to device: the two blocks must not overlap. */
  method CopyWithin(mem: array<byte>, d: nat, s: nat, width: nat)
    requires d + width <= mem.Length && s + width <= mem.Length && (s + width <= d || d + width <= s)
    modifies mem
    ensures mem[..] == Splice(old(mem[..]), d, old(mem[..])[s..s + width])
  {
    MoveRow(mem, d, s, width);
  }

  predicate RunsApart(from: nat, target: nat, count: nat) { from + count <= target || target + count <= from }

  lemma RunRowsApart(plane: Plane, pages: nat, from: nat, target: nat, count: nat)
    requires plane.pitch == pages * plane.row && from + count <= pages && target + count <= pages
    requires RunsApart(from, target, count)
    ensures RowsApart(plane.Start(target), plane.Start(from), plane.pitch, count * plane.row, plane.heads)
  {
    forall r, q | 0 <= r < plane.heads && 0 <= q < plane.heads
      ensures var s, d := At(plane.Start(from), plane.pitch, r), At(plane.Start(target), plane.pitch, q);
              s + count * plane.row <= d || d + count * plane.row <= s
    {
      RunInPitch(plane, pages, from, count, r);
      RunInPitch(plane, pages, target, count, q);
      if r < q {
        MulMono(r + 1, q, plane.pitch);
      } else if q < r {
        MulMono(q + 1, r, plane.pitch);
      } else if from + count <= target {
        MulMono(from + count, target, plane.row);
        assert (from + count) * plane.row == from * plane.row + count * plane.row;
      } else {
        MulMono(target + count, from, plane.row);
        assert (target + count) * plane.row == target * plane.row + count * plane.row;
      }
    }
  }

  /** The h-th row of a run lies in the plane's h-th pitch. */
  lemma RunInPitch(plane: Plane, pages: nat, p: nat, count: nat, h: nat)
    requires plane.pitch == pages * plane.row && p + count <= pages
    ensures plane.base + h * plane.pitch <= At(plane.Start(p), plane.pitch, h)
    ensures At(plane.Start(p), plane.pitch, h) + count * plane.row <= plane.base + (h + 1) * plane.pitch
  {
    MulNonNeg(p, plane.row);
    MulMono(p + count, pages, plane.row);
    assert (p + count) * plane.row == p * plane.row + count * plane.row;
    assert (h + 1) * plane.pitch == h * plane.pitch + plane.pitch;
  }

  /** One paired run: contiguous in page-major order, pitched in head-major order. */
  method CopyRun(order: PlaneOrder, device: array<byte>, plane: Plane, pages: nat, from: nat, target: nat, count: nat)
    requires PlaneFits(plane, pages, device.Length) && (order.PageMajor? ==> plane.heads == 1)
    requires from + count <= pages && target + count <= pages && RunsApart(from, target, count)
    modifies device
    ensures device[..] == WritePages(old(device[..]), plane, pages, Consecutive(target, count),
                                     PagesOf(old(device[..]), plane, pages, Consecutive(from, count)))
  {
    hide Blit, WritePages, PagesOf, At, Splice;
    RunCopy(device[..], plane, pages, device[..], from, target, count);
    RunRowsApart(plane, pages, from, target, count);
    match order {
      case PageMajor =>
        OneRow(device[..], plane.Start(target), plane.pitch, device[..], plane.Start(from), plane.pitch,
          count * plane.row);
        OneRowApart(plane.Start(target), plane.Start(from), plane.pitch, count * plane.row);
        CopyWithin(device, plane.Start(target), plane.Start(from), count * plane.row);
      case HeadMajor =>
        CopyWithin2D(device, plane.Start(target), plane.Start(from), plane.pitch, count * plane.row, plane.heads);
    }
  }

  /** A paired run starting at `first`: both sides step by one. */
  predicate PairedRun(from: seq<nat>, target: seq<nat>, first: nat, end: nat)
    requires |from| == |target|
  {
    && first <= end <= |from|
    && forall i | first <= i < end :: from[i] == from[first] + (i - first) && target[i] == target[first] + (i - first)
  }

  /** Disjoint lists have disjoint runs. */
  lemma PairedApart(from: seq<nat>, target: seq<nat>, first: nat, end: nat)
    requires |from| == |target| && first < end && PairedRun(from, target, first, end) && Disjoint(from, target)
    ensures RunsApart(from[first], target[first], end - first)
    ensures from[first..end] == Consecutive(from[first], end - first)
    ensures target[first..end] == Consecutive(target[first], end - first)
  {
    var f, t := from[first], target[first];
    if f <= t < f + (end - first) { NeverMeet(from, target, first + (t - f), first); }
    if t <= f < t + (end - first) { NeverMeet(from, target, first, first + (f - t)); }
  }

  lemma NeverMeet(from: seq<nat>, target: seq<nat>, i: nat, j: nat)
    requires i < |from| && j < |target| && Disjoint(from, target)
    ensures from[i] != target[j]
  {
    assert from[i] in from && target[j] in target;
  }

  /** Reading the source pages part way through gives what they held at the start. */
  lemma SourceKept(mem: seq<byte>, plane: Plane, pages: nat, from: seq<nat>, target: seq<nat>, first: nat, end: nat)
    requires PlaneFits(plane, pages, |mem|) && IdsFit(pages, from) && IdsFit(pages, target)
    requires |from| == |target| && first <= end <= |from| && Disjoint(from, target)
    ensures var all := PagesOf(mem, plane, pages, from);
            PagesOf(WritePages(mem, plane, pages, target[..first], all[..first]), plane, pages, from[first..end])
              == all[first..end]
  {
    hide PageOf, WritePages;
    var all := PagesOf(mem, plane, pages, from);
    var now := WritePages(mem, plane, pages, target[..first], all[..first]);
    forall i | first <= i < end ensures PageOf(now, plane, pages, from[i]) == all[i] {
      assert from[i] in from;
      UnwrittenPage(mem, plane, pages, target[..first], all[..first], from[i]);
    }
  }

  /** The loop over the paired runs of one plane. */
  method CopyPlane(order: PlaneOrder, device: array<byte>, plane: Plane, pages: nat, from: seq<nat>, target: seq<nat>)
    requires PlaneFits(plane, pages, device.Length) && (order.PageMajor? ==> plane.heads == 1)
    requires IdsFit(pages, from) && IdsFit(pages, target) && |from| == |target| && Disjoint(from, target)
    modifies device
    ensures device[..] == WritePages(old(device[..]), plane, pages, target,
            PagesOf(old(device[..]), plane, pages, from))
  {
    hide WritePages, PageOf, PlaneFits, Disjoint;
    ghost var before := device[..];
    ghost var all := PagesOf(before, plane, pages, from);
    assert target[..0] == [] && all[..0] == [];
    WriteNone(before, plane, pages);
    var first := 0;
    while first < |from|
      invariant first <= |from|
      invariant device[..] == WritePages(before, plane, pages, target[..first], all[..first])
    {
      var end := first + 1;
      while end < |from| && from[end] == from[end - 1] + 1 && target[end] == target[end - 1] + 1
        invariant first < end && PairedRun(from, target, first, end)
      {
        end := end + 1;
      }
      PairedApart(from, target, first, end);
      SourceKept(before, plane, pages, from, target, first, end);
      WriteStep(before, plane, pages, target, all, first, end - first);
      assert from[end - 1] < pages && target[end - 1] < pages;
      CopyRun(order, device, plane, pages, from[first], target[first], end - first);
      first := end;
    }
    assert target[..|from|] == target && all[..|from|] == all;
  }

  /** The pages `from` of every plane. */
  function GridFrom(mem: seq<byte>, planes: seq<Plane>, pages: nat, from: seq<nat>): (g: Grid)
    requires StoreFits(planes, pages, |mem|) && IdsFit(pages, from)
    ensures |g| == |planes| && forall k | 0 <= k < |planes| :: g[k] == PagesOf(mem, planes[k], pages, from)
  {
    seq(|planes|, k requires 0 <= k < |planes| => PagesOf(mem, planes[k], pages, from))
  }

  /** Plane k still holds its source pages after the planes before it were copied. */
  lemma PlaneKept(mem: seq<byte>, planes: seq<Plane>, pages: nat, from: seq<nat>, target: seq<nat>, k: nat)
    requires StoreFits(planes, pages, |mem|) && IdsFit(pages, from) && IdsFit(pages, target) && |from| == |target|
    requires k < |planes|
    ensures var data := GridFrom(mem, planes, pages, from);
            && GridFits(planes, pages, target, data)
            && StoreFits(planes[..k], pages, |mem|) && GridFits(planes[..k], pages, target, data[..k])
            && PagesOf(WriteAll(mem, planes[..k], pages, target, data[..k]), planes[k], pages, from) == data[k]
  {
    hide PageOf, WriteAll, PlanesApart;
    var data := GridFrom(mem, planes, pages, from);
    var now := WriteAll(mem, planes[..k], pages, target, data[..k]);
    forall i | 0 <= i < |from| ensures PageOf(now, planes[k], pages, from[i]) == data[k][i] {
      WriteAllApart(mem, planes[..k], pages, target, data[..k], planes[k], from[i]);
    }
  }

  /** copy_paged_kv_allocation: page i of the destination takes the bytes of page i of the source in every
      plane; nothing else changes, in particular no page of any other allocation, the source included. */
  method CopyAllocation(source: PagedKVAllocation, target: PagedKVAllocation, pool: PagedKVPool, count: nat)
    returns (r: Result<(), Error>)
    requires source.Valid() && target.Valid() && pool.Valid()
    modifies pool.device
    ensures r == if source.pool == pool && target.pool == pool && source != target
                    && count <= |source.pageIds| && count <= |target.pageIds| then Ok(()) else Err(InvalidArgument)
    ensures r.Err? ==> pool.device[..] == old(pool.device[..])
    ensures r.Ok? ==> IdsFit(pool.spec.pages, source.pageIds) && IdsFit(pool.spec.pages, target.pageIds)
    ensures r.Ok? ==> Restored(old(pool.device[..]), source.pageIds[..count], pool.device[..], target.pageIds[..count],
                               pool.planes, pool.spec.pages)
    ensures r.Ok? ==> OnlyChanged(old(pool.device[..]), pool.device[..], pool.planes, pool.spec.pages,
            target.pageIds[..count])
    ensures r.Ok? ==> forall b | b in pool.claims && b != target ::
              IdsFit(pool.spec.pages, b.pageIds)
              && SamePages(old(pool.device[..]), pool.device[..], pool.planes, pool.spec.pages, b.pageIds)
  {
    hide Inv, PageOf, WriteAll, SamePages, Disjoint, Distinct;
    if source.pool != pool || target.pool != pool || count > |source.pageIds| || count > |target.pageIds| {
      return Err(InvalidArgument);
    }
    if source == target { return Err(InvalidArgument); }
    OwnPages(pool, source);
    OwnPages(pool, target);
    ghost var before := pool.device[..];
    var from, into := source.pageIds[..count], target.pageIds[..count];
    PrefixesApart(source.pageIds, target.pageIds, count);
    CopyPlanes(pool, from, into);
    CopiedExactly(before, pool.device[..], pool.planes, pool.spec.pages, from, into);
    NobodyElseSees(pool, target, count, before, pool.device[..]);
    return Ok(());
  }

  lemma PrefixesApart(a: seq<nat>, b: seq<nat>, n: nat)
    requires n <= |a| && n <= |b| && Disjoint(a, b) && Distinct(b)
    ensures Disjoint(a[..n], b[..n]) && Distinct(b[..n])
  {
    forall x | x in a[..n] ensures x !in b[..n] { assert x in a; }
  }

  /** The loop over the planes. */
  method CopyPlanes(pool: PagedKVPool, from: seq<nat>, target: seq<nat>)
    requires GeometryOk(pool.order, pool.planes, pool.spec.pages, pool.device.Length)
    requires IdsFit(pool.spec.pages, from) && IdsFit(pool.spec.pages, target)
    requires |from| == |target| && Disjoint(from, target)
    modifies pool.device
    ensures GridFits(pool.planes, pool.spec.pages, target,
            GridFrom(old(pool.device[..]), pool.planes, pool.spec.pages, from))
    ensures pool.device[..] == WriteAll(old(pool.device[..]), pool.planes, pool.spec.pages, target,
                                        GridFrom(old(pool.device[..]), pool.planes, pool.spec.pages, from))
  {
    hide WritePages, WriteAll, PageOf, Disjoint;
    ghost var before := pool.device[..];
    var planes, pages := pool.planes, pool.spec.pages;
    ghost var data := GridFrom(before, planes, pages, from);
    WriteAllNone(before, pages, target);
    assert planes[..0] == [] && data[..0] == [];
    for k := 0 to |planes|
      invariant StoreFits(planes[..k], pages, |before|) && GridFits(planes[..k], pages, target, data[..k])
      invariant pool.device[..] == WriteAll(before, planes[..k], pages, target, data[..k])
    {
      PlaneKept(before, planes, pages, from, target, k);
      WriteAllGrows(before, planes, pages, target, data, k);
      CopyPlane(pool.order, pool.device, planes[k], pages, from, target);
    }
    assert planes[..|planes|] == planes && data[..|planes|] == data;
  }

  lemma CopiedExactly(before: seq<byte>, after: seq<byte>, planes: seq<Plane>, pages: nat, from: seq<nat>,
      target: seq<nat>)
    requires StoreFits(planes, pages, |before|) && IdsFit(pages, from) && IdsFit(pages, target) && |from| == |target|
    requires Distinct(target) && GridFits(planes, pages, target, GridFrom(before, planes, pages, from))
    requires after == WriteAll(before, planes, pages, target, GridFrom(before, planes, pages, from))
    ensures Restored(before, from, after, target, planes, pages) && OnlyChanged(before, after, planes, pages, target)
  {
    hide PageOf, WriteAll;
    var data := GridFrom(before, planes, pages, from);
    WriteAllExact(before, planes, pages, target, data);
    forall k, i | 0 <= k < |planes| && 0 <= i < |target|
      ensures PageOf(after, planes[k], pages, target[i]) == PageOf(before, planes[k], pages, from[i])
    {
      assert PageOf(after, planes[k], pages, target[i]) == data[k][i];
    }
  }

  // ---------------------------------------------------------------------------------------------
  // Clearing pages
  // ---------------------------------------------------------------------------------------------

  /** In every plane the pages `ids` hold zeros, and nothing else changed. */
  ghost predicate ClearedExactly(before: seq<byte>, after: seq<byte>, planes: seq<Plane>, pages: nat, ids: seq<int>)
    requires StoreFits(planes, pages, |before|)
  {
    && |after| == |before|
    && (forall k, q: nat | 0 <= k < |planes| && q < pages ::
          PageOf(after, planes[k], pages, q)
          == if q in ids then Filled(planes[k].PageBytes(), 0) else PageOf(before, planes[k], pages, q))
    && forall x | 0 <= x < |before| && Beyond(planes, x, x + 1) :: after[x] == before[x]
  }

  function ZeroGrid(planes: seq<Plane>, n: nat): (g: Grid)
    ensures |g| == |planes| && forall k | 0 <= k < |planes| :: g[k] == Zeros(planes[k], n)
  {
    seq(|planes|, k requires 0 <= k < |planes| => Zeros(planes[k], n))
  }

  method ClearRun(order: PlaneOrder, device: array<byte>, plane: Plane, pages: nat, first: nat, count: nat)
    requires PlaneFits(plane, pages, device.Length) && (order.PageMajor? ==> plane.heads == 1) && first + count <= pages
    modifies device
    ensures device[..] == WritePages(old(device[..]), plane, pages, Consecutive(first, count), Zeros(plane, count))
  {
    hide Blit, WritePages, At, Splice;
    RunClear(device[..], plane, pages, first, count, count * plane.row);
    match order {
      case PageMajor =>
        OneRowFill(device[..], plane.Start(first), plane.pitch, count * plane.row);
        FillRow(device, plane.Start(first), 0, count * plane.row);
      case HeadMajor =>
        Fill2D(device, plane.Start(first), plane.pitch, 0, count * plane.row, plane.heads);
    }
  }

  lemma OneRowFill(dst: seq<byte>, d: nat, pitch: nat, width: nat)
    requires RowsFit(|dst|, d, pitch, width, 1)
    ensures d + width <= |dst| && RowsFit(width, 0, 0, width, 1)
    ensures Blit(dst, d, pitch, Filled(width, 0), 0, 0, width, 1) == Splice(dst, d, Filled(width, 0))
  {
    hide Blit, Splice;
    AtIs(d, pitch, 0);
    AtIs(0, 0, 0);
    var zeros := Filled(width, 0);
    BlitStep(dst, d, pitch, zeros, 0, 0, width, 1);
    BlitNone(dst, d, pitch, zeros, 0, 0, width);
    assert zeros[0..width] == zeros;
  }

  /** zero_run: one run in every plane. */
  method ClearPlanes(pool: PagedKVPool, first: nat, count: nat)
    requires GeometryOk(pool.order, pool.planes, pool.spec.pages, pool.device.Length)
             && first + count <= pool.spec.pages
    modifies pool.device
    ensures ClearedExactly(old(pool.device[..]), pool.device[..], pool.planes, pool.spec.pages,
            Consecutive(first, count))
  {
    hide WritePages, WriteAll, ClearedExactly;
    ghost var before := pool.device[..];
    var planes, pages := pool.planes, pool.spec.pages;
    ghost var ids, data := Consecutive(first, count), ZeroGrid(planes, count);
    assert GridFits(planes, pages, ids, data);
    WriteAllNone(before, pages, ids);
    assert planes[..0] == [] && data[..0] == [];
    for k := 0 to |planes|
      invariant StoreFits(planes[..k], pages, |before|) && GridFits(planes[..k], pages, ids, data[..k])
      invariant pool.device[..] == WriteAll(before, planes[..k], pages, ids, data[..k])
    {
      WriteAllGrows(before, planes, pages, ids, data, k);
      ClearRun(pool.order, pool.device, planes[k], pages, first, count);
    }
    assert planes[..|planes|] == planes && data[..|planes|] == data;
    ClearedRun(before, planes, pages, first, count);
  }

  lemma ClearedRun(before: seq<byte>, planes: seq<Plane>, pages: nat, first: nat, count: nat)
    requires StoreFits(planes, pages, |before|) && first + count <= pages
    ensures GridFits(planes, pages, Consecutive(first, count), ZeroGrid(planes, count))
    ensures ClearedExactly(before, WriteAll(before, planes, pages, Consecutive(first, count), ZeroGrid(planes, count)),
                           planes, pages, Consecutive(first, count))
  {
    hide PageOf, WriteAll;
    var ids, data := Consecutive(first, count), ZeroGrid(planes, count);
    WriteAllExact(before, planes, pages, ids, data);
    var after := WriteAll(before, planes, pages, ids, data);
    forall k, q: nat | 0 <= k < |planes| && q < pages
      ensures PageOf(after, planes[k], pages, q)
              == if q in ids then Filled(planes[k].PageBytes(), 0) else PageOf(before, planes[k], pages, q)
    {
      if q in ids {
        var i :| 0 <= i < |ids| && ids[i] == q;
        assert PageOf(after, planes[k], pages, ids[i]) == data[k][i];
      }
    }
  }

  /** Clearing one list and then another clears both. */
  lemma ClearedTwice(a: seq<byte>, b: seq<byte>, c: seq<byte>, planes: seq<Plane>, pages: nat, x: seq<int>, y: seq<int>)
    requires StoreFits(planes, pages, |a|) && ClearedExactly(a, b, planes, pages, x)
             && ClearedExactly(b, c, planes, pages, y)
    ensures ClearedExactly(a, c, planes, pages, x + y)
  {
    hide PageOf, PlaneFits, PlanesApart, Beyond;
    forall k, q: nat | 0 <= k < |planes| && q < pages
      ensures PageOf(c, planes[k], pages, q)
              == if q in x + y then Filled(planes[k].PageBytes(), 0) else PageOf(a, planes[k], pages, q)
    {
      ClearedPage(a, b, planes, pages, x, k, q);
      ClearedPage(b, c, planes, pages, y, k, q);
      assert q in x + y <==> q in x || q in y;
    }
  }

  lemma ClearedPage(a: seq<byte>, b: seq<byte>, planes: seq<Plane>, pages: nat, x: seq<int>, k: nat, q: nat)
    requires StoreFits(planes, pages, |a|) && ClearedExactly(a, b, planes, pages, x) && k < |planes| && q < pages
    ensures PageOf(b, planes[k], pages, q) == if q in x then Filled(planes[k].PageBytes(), 0)
            else PageOf(a, planes[k], pages, q)
  {
    hide PageOf;
  }

  lemma ClearedNone(a: seq<byte>, planes: seq<Plane>, pages: nat)
    requires StoreFits(planes, pages, |a|)
    ensures ClearedExactly(a, a, planes, pages, [])
  {}

  lemma ClearedSame(a: seq<byte>, b: seq<byte>, planes: seq<Plane>, pages: nat, x: seq<int>, y: seq<int>)
    requires StoreFits(planes, pages, |a|) && ClearedExactly(a, b, planes, pages, x) && multiset(x) == multiset(y)
    ensures ClearedExactly(a, b, planes, pages, y)
  {
    hide PageOf;
    assert forall q :: q in x <==> q in multiset(x);
    assert forall q :: q in y <==> q in multiset(y);
  }

  predicate DistinctIds(ids: seq<int>) { forall i, j | 0 <= i < j < |ids| :: ids[i] != ids[j] }

  predicate InRange(ids: seq<int>, pages: nat) { forall i | 0 <= i < |ids| :: 0 <= ids[i] < pages }

  predicate Increasing(s: seq<int>) { forall i, j | 0 <= i < j < |s| :: s[i] < s[j] }

  function Ascending(): int -> int { x => x }

  /** std::adjacent_find on a sorted list finds a duplicate exactly when there is one. */
  method AdjacentFind(s: seq<int>) returns (found: bool)
    requires SortedBy(s, Ascending()) && |s| > 0
    ensures found <==> !Increasing(s)
  {
    for i := 1 to |s|
      invariant Increasing(s[..i])
    {
      if s[i - 1] == s[i] { return true; }
      assert Ascending()(s[i - 1]) <= Ascending()(s[i]);
    }
    assert s[..|s|] == s;
    return false;
  }

  lemma {:induction false} DistinctCounts(s: seq<int>, x: int)
    requires DistinctIds(s)
    ensures multiset(s)[x] <= 1
  {
    if s != [] {
      var n := |s| - 1;
      DistinctCounts(s[..n], x);
      assert s == s[..n] + [s[n]];
      assert s[n] !in s[..n];
      assert s[n] !in multiset(s[..n]);
    }
  }

  lemma SameDistinct(a: seq<int>, b: seq<int>)
    requires multiset(a) == multiset(b) && DistinctIds(a)
    ensures DistinctIds(b)
  {
    forall i, j | 0 <= i < j < |b| ensures b[i] != b[j] {
      DistinctCounts(a, b[i]);
      if b[i] == b[j] { CountTwice(b, b[i]); }
    }
  }

  /** On a sorted list the ends bound every element, and distinct means increasing. */
  lemma SortedFacts(sorted: seq<int>, ids: seq<int>, pages: nat)
    requires IsSortOf(sorted, ids, Ascending()) && |ids| > 0
    ensures |sorted| == |ids| && (DistinctIds(ids) <==> Increasing(sorted))
    ensures InRange(ids, pages) <==> 0 <= sorted[0] && sorted[|sorted| - 1] < pages
  {
    SameElements(sorted, ids);
    forall i, j | 0 <= i < j < |sorted| ensures sorted[i] <= sorted[j] {
      assert Ascending()(sorted[i]) <= Ascending()(sorted[j]);
    }
    if DistinctIds(ids) { SameDistinct(ids, sorted); }
    if DistinctIds(sorted) { SameDistinct(sorted, ids); }
    assert Increasing(sorted) ==> DistinctIds(sorted);
    RangeSame(sorted, ids, pages);
  }

  lemma RangeSame(a: seq<int>, b: seq<int>, pages: nat)
    requires multiset(a) == multiset(b)
    ensures InRange(a, pages) <==> InRange(b, pages)
  {
    SameElements(a, b);
    assert forall i | 0 <= i < |a| :: a[i] in b;
    assert forall i | 0 <= i < |b| :: b[i] in a;
  }

  /** The loop over the runs of consecutive ids. */
  method ClearRuns(pool: PagedKVPool, sorted: seq<int>)
    requires GeometryOk(pool.order, pool.planes, pool.spec.pages, pool.device.Length)
             && InRange(sorted, pool.spec.pages)
    modifies pool.device
    ensures ClearedExactly(old(pool.device[..]), pool.device[..], pool.planes, pool.spec.pages, sorted)
  {
    hide ClearedExactly, GeometryOk, PlanesApart;
    ghost var before := pool.device[..];
    var pages := pool.spec.pages;
    StoreFitsNow(pool);
    ClearedNone(before, pool.planes, pages);
    assert sorted[..0] == [];
    var begin := 0;
    while begin < |sorted|
      invariant begin <= |sorted|
      invariant ClearedExactly(before, pool.device[..], pool.planes, pages, sorted[..begin])
    {
      var end := begin + 1;
      while end < |sorted| && sorted[end] == sorted[end - 1] + 1
        invariant begin < end <= |sorted| && forall i | begin <= i < end :: sorted[i] == sorted[begin] + (i - begin)
      {
        end := end + 1;
      }
      ghost var mid := pool.device[..];
      assert sorted[end - 1] < pages;
      ClearPlanes(pool, sorted[begin], end - begin);
      ClearedTwice(before, mid, pool.device[..], pool.planes, pages, sorted[..begin],
        Consecutive(sorted[begin], end - begin));
      assert sorted[..end] == sorted[..begin] + Consecutive(sorted[begin], end - begin);
      begin := end;
    }
    assert sorted[..|sorted|] == sorted;
  }

  lemma StoreFitsNow(pool: PagedKVPool)
    requires GeometryOk(pool.order, pool.planes, pool.spec.pages, pool.device.Length)
    ensures StoreFits(pool.planes, pool.spec.pages, pool.device.Length)
  {}

  lemma GeometryFits(pool: PagedKVPool)
    requires pool.Valid()
    ensures StoreFits(pool.planes, pool.spec.pages, pool.device.Length)
  {
    hide Inv;
  }

  /** zero_pages: out-of-range ids, then duplicates, are refused; otherwise exactly the named pages become zero. */
  method ZeroPages(pool: PagedKVPool, ids: seq<int>) returns (r: Result<(), Error>)
    requires pool.Valid()
    modifies pool.device
    ensures r == if !InRange(ids, pool.spec.pages) then Err(OutOfRange)
                 else if !DistinctIds(ids) then Err(InvalidArgument) else Ok(())
    ensures r.Err? ==> pool.device[..] == old(pool.device[..])
    ensures r.Ok? ==> ClearedExactly(old(pool.device[..]), pool.device[..], pool.planes, pool.spec.pages, ids)
  {
    hide Inv, ClearedExactly, GeometryOk;
    ghost var before := pool.device[..];
    GeometryFits(pool);
    var pages := pool.spec.pages;
    ClearedNone(before, pool.planes, pages);
    if |ids| == 0 { return Ok(()); }
    var sorted := Sort(ids, Ascending());
    SortSorts(ids, Ascending());
    SortedFacts(sorted, ids, pages);
    if sorted[0] < 0 || sorted[|sorted| - 1] >= pages { return Err(OutOfRange); }
    var duplicate := AdjacentFind(sorted);
    if duplicate { return Err(InvalidArgument); }
    RangeSame(sorted, ids, pages);
    ClearRuns(pool, sorted);
    ClearedSame(before, pool.device[..], pool.planes, pages, sorted, ids);
    return Ok(());
  }
}
