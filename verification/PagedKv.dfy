/** The paged KV pool and its allocations as objects (src/core/paged_kv_cache.cpp). Every method is
    proved to do to the pool what PoolLedger says the operation does; the ghost field `claims` ties the
    pool to the allocations that live in it. */
module PagedKv {
  import opened Arith
  import opened Results
  import opened Sorting
  import opened PoolLedger
  import opened PoolProofs
  import opened Bytes
  import opened Planes
  import opened PageStore

  datatype PlaneOrder = PageMajor | HeadMajor

  /** The planes lie apart in device memory; in page-major order a page is one row. */
  predicate GeometryOk(order: PlaneOrder, planes: seq<Plane>, pages: nat, size: nat) {
    StoreFits(planes, pages, size) && (order.PageMajor? ==> forall k | 0 <= k < |planes| :: planes[k].heads == 1)
  }

  /** The pool state an operation leaves behind: its result, or on an exception the state before. */
  ghost function Left<K>(before: Pool<K>, want: Result<Pool<K>, Error>): Pool<K> {
    match want
    case Ok(p) => p
    case Err(_) => before
  }

  ghost predicate SameVerdict<T, U>(r: Result<T, Error>, want: Result<U, Error>) {
    r.Ok? == want.Ok? && (r.Err? ==> want.Err? && r.error == want.error)
  }

  class PagedKVPool {
    const spec: Spec
    const order: PlaneOrder
    const planes: seq<Plane>
    const device: array<byte>
    var freePageIds: seq<nat>
    var rowInUse: seq<bool>
    var blockTables: seq<seq<nat>>
    var entitledPages: int
    var mappedPages: int
    ghost var claims: map<PagedKVAllocation, Claim>

    ghost function State(): Pool<PagedKVAllocation>
      reads this
    {
      Pool(freePageIds, rowInUse, blockTables, entitledPages, mappedPages, claims)
    }

    /** Every claim in the ledger is the state of the allocation that holds it. Written as one equation,
        `true == (...)`, so that the verifier passes it between methods whole; so is TiedExcept. */
    ghost predicate Tied()
      reads this, claims.Keys
    {
      true == (forall a | a in claims :: a.pool == this && a.AsClaim() == claims[a])
    }

    ghost predicate Valid()
      reads this, claims.Keys
    {
      Inv(spec, State()) && Tied() && GeometryOk(order, planes, spec.pages, device.Length)
    }

    /** `taken` left the free list: ids that continue the last page's run if the list has them, otherwise the lowest
        run of that length, otherwise the lowest ids. */
    ghost predicate Took(free: seq<nat>, pages: seq<nat>, taken: seq<nat>)
      reads this`freePageIds
    {
      && multiset(free) == multiset(taken) + multiset(freePageIds)
      && TakenRight(free, if pages == [] then None else Some(pages[|pages| - 1] + 1), taken)
    }

    /** The ids were written into the bound row right after its first `first` entries; nothing else changed. */
    ghost predicate Published(tables: seq<seq<nat>>, row: int, first: nat, ids: seq<nat>)
      reads this`blockTables
    {
      if row < 0 || ids == [] then blockTables == tables
      else
        && row < |tables| && first + |ids| <= |tables[row]|
        && blockTables == tables[row := tables[row][..first] + ids + tables[row][first + |ids|..]]
    }

    /** The claim's pages are back in the free list and its row, if it had one, is free again. */
    ghost predicate Regained(free: seq<nat>, rows: seq<bool>, c: Claim)
      reads this`freePageIds, this`rowInUse
    {
      && multiset(freePageIds) == multiset(free) + multiset(c.pages)
      && |rowInUse| == |rows| && forall i | 0 <= i < |rows| :: rowInUse[i] == (rows[i] && i != c.row)
    }

    /** The free list and the count of mapped pages are as before. */
    twostate predicate SamePages()
      reads this
    {
      freePageIds == old(freePageIds) && mappedPages == old(mappedPages)
    }

    /** The rows in use and the block tables are as before. */
    twostate predicate SameRows()
      reads this
    {
      rowInUse == old(rowInUse) && blockTables == old(blockTables)
    }

    /** Every claim but a's is tied. */
    ghost predicate TiedExcept(a: PagedKVAllocation)
      reads this, claims.Keys
    {
      true == (forall b | b in claims && b != a :: b.pool == this && b.AsClaim() == claims[b])
    }

    /** Enters a's present state in the ledger. */
    ghost method Record(a: PagedKVAllocation)
      requires a.pool == this && TiedExcept(a)
      modifies this`claims
      ensures claims == old(claims)[a := a.AsClaim()] && Tied()
    {
      claims := claims[a := a.AsClaim()];
    }

    /** Strikes a's claim from the ledger. */
    ghost method Strike(a: PagedKVAllocation)
      requires Tied()
      modifies this`claims
      ensures claims == old(claims) - {a} && a !in claims && Tied()
    {
      claims := claims - {a};
    }

    constructor (spec: Spec, order: PlaneOrder, planes: seq<Plane>, device: array<byte>)
      requires GeometryOk(order, planes, spec.pages, device.Length)
      ensures this.spec == spec && this.order == order && this.planes == planes && this.device == device
      ensures Valid() && State() == Fresh(spec)
      ensures |freePageIds| == spec.pages && forall i | 0 <= i < spec.pages :: freePageIds[i] == i
      ensures rowInUse == seq(spec.rows, _ => false) && entitledPages == mappedPages == 0 && claims == map[]
    {
      this.spec, this.order, this.planes, this.device := spec, order, planes, device;
      freePageIds := seq(spec.pages, i => i);
      rowInUse := seq(spec.rows, _ => false);
      blockTables := seq(spec.rows, _ => seq(spec.logicalPages, _ => 0));
      entitledPages := 0;
      mappedPages := 0;
      claims := map[];
      new;
      FreshState(this);
      FreshInv<PagedKVAllocation>(spec);
    }

    predicate CanReserve(pages: nat)
      reads this
    {
      pages != 0 && pages <= spec.logicalPages && pages <= spec.pages - entitledPages
    }

    predicate CanReplaceEntitlement(previous: nat, pages: nat)
      reads this
    {
      previous <= entitledPages && pages <= spec.logicalPages && pages <= spec.pages - (entitledPages - previous)
    }

    method Reserve(pages: nat, hostOk: bool) returns (r: Result<PagedKVAllocation, Error>)
      requires Valid()
      modifies this
      ensures Valid()
      ensures r.Ok? <==> old(CanReserve(pages)) && hostOk
      ensures r.Ok? ==> fresh(r.value) && r.value.pool == this && r.value in claims
                        && State() == WithReserved(old(State()), r.value, pages)
      ensures r.Ok? ==> && r.value.pageIds == [] && r.value.pageEntitlement == pages && r.value.boundRow == -1
                        && entitledPages == old(entitledPages) + pages && claims.Keys == old(claims.Keys) + {r.value}
                        && SamePages() && SameRows()
      ensures r.Err? ==> r.error == BadAlloc && State() == old(State())
    {
      if !CanReserve(pages) || !hostOk { return Err(BadAlloc); }
      var allocation := new PagedKVAllocation.Reserved(this, pages);
      ghost var before := State();
      assert allocation !in claims;
      entitledPages := entitledPages + pages;
      Record(allocation);
      ReserveKeeps(spec, before, allocation, pages);
      r := Ok(allocation);
    }

    /** The run test of take_pages, a loop over the candidate's offsets. */
    static method IsRun(free: seq<nat>, begin: nat, count: nat) returns (run: bool)
      ensures run == RunAt(free, begin, count)
    {
      if begin + count > |free| { return false; }
      for offset := 1 to Max(1, count)
        invariant forall i | begin <= i < begin + offset && i < begin + count :: free[i] == free[begin] + (i - begin)
      {
        if free[begin + offset] != free[begin] + offset { return false; }
      }
      run := true;
    }

    /** The scan for the lowest run, from index 0 while `count` ids remain. */
    static method LowestRun(free: seq<nat>, count: nat) returns (selected: nat)
      requires 0 < count
      ensures selected == FirstRun(free, 0, count)
    {
      var begin := 0;
      while begin + count <= |free|
        invariant begin <= |free| && FirstRun(free, 0, count) == FirstRun(free, begin, count)
        decreases |free| - begin
      {
        var run := IsRun(free, begin, count);
        if run { return begin; }
        begin := begin + 1;
      }
      NoRunLeft(free, begin, count);
      selected := |free|;
    }

    /** Takes `count` pages off the free list; the caller adds them to its own list. */
    method TakePages(count: nat, preferred: int) returns (r: Result<seq<nat>, Error>)
      modifies this`freePageIds, this`mappedPages
      ensures r.Ok? <==> count <= |old(freePageIds)|
      ensures r.Err? ==> r.error == LogicError && freePageIds == old(freePageIds) && mappedPages == old(mappedPages)
      ensures r.Ok? && count == 0 ==>
              r.value == [] && freePageIds == old(freePageIds) && mappedPages == old(mappedPages)
      ensures r.Ok? && count > 0 ==>
                var free := old(freePageIds);
                var start := TakeStart(free, count, preferred);
                && r.value == free[start..start + count]
                && freePageIds == free[..start] + free[start + count..]
                && mappedPages == old(mappedPages) + count
    {
      if count == 0 { return Ok([]); }
      if count > |freePageIds| { return Err(LogicError); }
      var selected := |freePageIds|;
      if preferred >= 0 {
        var at := LowerBound(freePageIds, 0, preferred);
        if at < |freePageIds| && freePageIds[at] == preferred {
          var run := IsRun(freePageIds, at, count);
          if run { selected := at; }
        }
      }
      if selected == |freePageIds| { selected := LowestRun(freePageIds, count); }
      var first := if selected != |freePageIds| then selected else 0;
      assert first == TakeStart(freePageIds, count, preferred);
      var pages := freePageIds[first..first + count];
      freePageIds := freePageIds[..first] + freePageIds[first + count..];
      mappedPages := mappedPages + count;
      r := Ok(pages);
    }

    /** Hands pages back. It must not throw, so the list must fit the capacity reserved at
        construction. */
    method ReturnPages(pages: seq<nat>)
      requires |freePageIds| + |pages| <= spec.pages
      modifies this`freePageIds, this`mappedPages
      ensures freePageIds == Returned(old(freePageIds), pages) && mappedPages == old(mappedPages) - |pages|
    {
      if pages == [] { return; }
      freePageIds := Sort(freePageIds + pages, Id);
      mappedPages := mappedPages - |pages|;
    }

    method AcquireRow(row: int) returns (r: Result<(), Error>)
      requires |rowInUse| == spec.rows
      modifies this`rowInUse
      ensures r.Ok? <==> 0 <= row < spec.rows && !old(rowInUse)[row]
      ensures r.Ok? ==> rowInUse == old(rowInUse)[row := true]
      ensures r.Err? ==> rowInUse == old(rowInUse)
                         && r.error == (if 0 <= row < spec.rows then LogicError else OutOfRange)
    {
      if row < 0 || row >= spec.rows { return Err(OutOfRange); }
      if rowInUse[row] { return Err(LogicError); }
      rowInUse := rowInUse[row := true];
      r := Ok(());
    }
  }

  lemma FreshState(pool: PagedKVPool)
    requires pool.freePageIds == seq(pool.spec.pages, i => i)
    requires pool.rowInUse == seq(pool.spec.rows, _ => false)
    requires pool.blockTables == seq(pool.spec.rows, _ => seq(pool.spec.logicalPages, _ => 0))
    requires pool.entitledPages == pool.mappedPages == 0 && pool.claims == map[]
    ensures pool.State() == Fresh(pool.spec)
  {
    var p := Fresh<PagedKVAllocation>(pool.spec);
    assert pool.freePageIds == p.free && pool.rowInUse == p.rowInUse;
    assert pool.blockTables == p.table;
  }

  lemma ClaimFacts<K>(spec: Spec, p: Pool<K>, k: K)
    requires Inv(spec, p) && k in p.claims
    ensures ClaimOk(spec, p.claims[k]) && RowOk(p.rowInUse, p.table, p.claims[k])
    ensures TableShape(spec, p.rowInUse, p.table)
  {}

  /** What materializing within the entitlement needs and does. */
  lemma MaterializeReady<K>(spec: Spec, p: Pool<K>, k: K, n: nat)
    requires Inv(spec, p) && k in p.claims && |p.claims[k].pages| < n <= p.claims[k].entitlement
    ensures var c := p.claims[k];
            var count := n - |c.pages|;
            && count <= |p.free| && n <= c.capacity && -1 <= c.row < |p.table|
            && (c.row >= 0 ==> n <= |p.table[c.row]|)
            && ApplyMaterialize(p, k, n).Ok? && Inv(spec, ApplyMaterialize(p, k, n).value)
  {
    EntitlementIsFree(spec, p, k);
    assert ClaimOk(spec, p.claims[k]) && RowOk(p.rowInUse, p.table, p.claims[k]);
    MaterializeKeeps(spec, p, k, n);
  }

  lemma FreeSorted<K>(spec: Spec, p: Pool<K>)
    requires Inv(spec, p)
    ensures StrictlySorted(p.free)
  {}

  lemma TookNothing(pool: PagedKVPool, pages: seq<nat>, row: int)
    ensures pool.Took(pool.freePageIds, pages, []) && pool.Published(pool.blockTables, row, |pages|, [])
  {}

  lemma TookSlice(pool: PagedKVPool, free: seq<nat>, pages: seq<nat>, count: nat)
    requires StrictlySorted(free) && 0 < count <= |free|
    requires var start := TakeStart(free, count, Preferred(pages));
             pool.freePageIds == free[..start] + free[start + count..]
    ensures var start := TakeStart(free, count, Preferred(pages));
            pool.Took(free, pages, free[start..start + count])
  {
    hide TakeStart, StrictlySorted, TakenRight;
    TakeSplits(free, TakeStart(free, count, Preferred(pages)), count);
    TakenIsRight(free, if pages == [] then None else Some(pages[|pages| - 1] + 1), count);
  }

  /** Releasing one claim leaves the others; releasing a claim the ledger does not hold changes nothing. */
  lemma ReleaseClaims<K>(p: Pool<K>, k: K, target: K)
    requires k in p.claims && k != target
    ensures k in ApplyRelease(p, target).claims && ApplyRelease(p, target).claims[k] == p.claims[k]
    ensures target !in p.claims ==> ApplyRelease(p, target) == p
  {
    hide Returned;
  }

  lemma UnbindGives<K>(p: Pool<K>, k: K)
    requires k in p.claims && p.claims[k].row >= -1
    ensures var q := ApplyUnbind(p, k);
            && q.claims[k] == p.claims[k].(row := -1) && q.claims == p.claims[k := p.claims[k].(row := -1)]
            && q == p.(rowInUse := q.rowInUse, claims := q.claims)
  {
    assert p.claims[k := p.claims[k]] == p.claims;
  }

  lemma ReleaseIs<K>(p: Pool<K>, k: K, q: Pool<K>)
    requires k in p.claims
    requires q.free == Returned(p.free, p.claims[k].pages) && q.mapped == p.mapped - |p.claims[k].pages|
    requires q.entitled == p.entitled - p.claims[k].entitlement && q.table == p.table
    requires q.rowInUse == ApplyUnbind(p, k).rowInUse
    requires q.claims == p.claims[k := p.claims[k].(row := -1)] - {k} || q.claims == p.claims - {k}
    ensures q == ApplyRelease(p, k)
  {
    assert p.claims[k := p.claims[k].(row := -1)] - {k} == p.claims - {k};
  }

  lemma {:induction false} NoRunLeft(free: seq<nat>, from: nat, count: nat)
    requires from + count > |free|
    ensures FirstRun(free, from, count) == |free|
    decreases |free| - from
  {
    if from < |free| { NoRunLeft(free, from + 1, count); }
  }

  class PagedKVAllocation {
    var pool: PagedKVPool?
    var pageIds: seq<nat>
    var pageCapacity: nat
    var pageEntitlement: nat
    var boundRow: int

    ghost function AsClaim(): Claim
      reads this
    {
      Claim(pageIds, pageEntitlement, pageCapacity, boundRow)
    }

    /** Either empty, or one of its pool's claims. */
    ghost predicate Valid()
      reads this, pool, if pool == null then {} else pool.claims.Keys
    {
      if pool == null then pageIds == [] && pageEntitlement == 0 && boundRow == -1
      else pool.Valid() && this in pool.claims
    }

    constructor ()
      ensures Valid() && pool == null
    {
      pool, pageIds, pageCapacity, pageEntitlement, boundRow := null, [], 0, 0, -1;
    }

    constructor Reserved(pool: PagedKVPool, pages: nat)
      ensures this.pool == pool && AsClaim() == Claim([], pages, pages, -1)
    {
      this.pool := pool;
      pageIds, pageCapacity, pageEntitlement, boundRow := [], pages, pages, -1;
    }

    /** One of its pool's claims, whatever else holds of the pool. */
    ghost predicate Listed()
      reads this, pool, if pool == null then {} else pool.claims.Keys
    {
      pool != null && this in pool.claims && pool.Tied()
    }

    /** replace_entitlement together with the allocation's own bookkeeping. */
    method ReplaceEntitlement(pages: nat, capacity: nat)
      requires Listed()
      modifies this`pageEntitlement, this`pageCapacity, pool`entitledPages, pool`claims
      ensures Listed()
      ensures pool.State() == old(pool.State()).(
                entitled := old(pool.entitledPages) - old(pageEntitlement) + pages,
                claims := old(pool.claims)[this := old(AsClaim()).(entitlement := pages, capacity := capacity)])
    {
      pageCapacity := capacity;
      pool.entitledPages := pool.entitledPages - pageEntitlement + pages;
      pageEntitlement := pages;
      pool.Record(this);
    }

    method SetPageEntitlement(pages: nat, hostOk: bool) returns (r: Result<(), Error>)
      requires Valid()
      modifies this, pool
      ensures Valid() && pool == old(pool)
      ensures pool == null ==> r == Err(InvalidArgument)
      ensures pool != null ==>
                var want := ApplySetEntitlement(pool.spec, old(pool.State()), this, pages, hostOk);
                SameVerdict(r, want) && pool.State() == Left(old(pool.State()), want)
      ensures r.Ok? <==> && pool != null && |pageIds| <= pages
                         && old(pool.CanReplaceEntitlement(pageEntitlement, pages))
                         && (pages <= old(pageCapacity) || hostOk)
      ensures r.Err? ==> AsClaim() == old(AsClaim())
                         && r.error == if pool == null || pages < |pageIds| then InvalidArgument else BadAlloc
      ensures r.Ok? ==> && pageEntitlement == pages && pageIds == old(pageIds) && boundRow == old(boundRow)
                        && pool.entitledPages == old(pool.entitledPages) - old(pageEntitlement) + pages
                        && pool.SamePages() && pool.SameRows() && pool.claims.Keys == old(pool.claims.Keys)
    {
      hide Inv, GeometryOk;
      if pool == null || pages < |pageIds| { return Err(InvalidArgument); }
      if !pool.CanReplaceEntitlement(pageEntitlement, pages) { return Err(BadAlloc); }
      if pages > pageCapacity && !hostOk { return Err(BadAlloc); }
      SetEntitlementKeeps(pool.spec, pool.State(), this, pages);
      ReplaceEntitlement(pages, Max(pageCapacity, pages));
      r := Ok(());
    }

    method CancelUnmappedEntitlement()
      requires Valid()
      modifies this, pool
      ensures Valid() && pool == old(pool)
      ensures pool != null ==> pool.State() == ApplyCancel(old(pool.State()), this).value
      ensures pageEntitlement == |pageIds| && pageIds == old(pageIds) && boundRow == old(boundRow)
      ensures pool != null ==> && pool.entitledPages == old(pool.entitledPages) - old(pageEntitlement) + |pageIds|
                               && pool.SamePages() && pool.SameRows() && pool.claims.Keys == old(pool.claims.Keys)
    {
      hide Inv, GeometryOk;
      if pool == null { return; }
      CancelKeeps(pool.spec, pool.State(), this);
      ReplaceEntitlement(|pageIds|, pageCapacity);
    }

    /** Appends acquired pages to the page list and publishes them if a row is bound. */
    method AppendPages(acquired: seq<nat>)
      requires Listed() && -1 <= boundRow < |pool.blockTables|
      requires boundRow >= 0 ==> |pageIds| + |acquired| <= |pool.blockTables[boundRow]|
      requires |pageIds| + |acquired| <= pageCapacity
      modifies this`pageIds, pool`blockTables, pool`claims
      ensures Listed()
      ensures pool.State() == old(pool.State()).(
                table := Publish(old(pool.blockTables), boundRow, |old(pageIds)|, acquired),
                claims := old(pool.claims)[this := old(AsClaim()).(pages := old(pageIds) + acquired)])
      ensures pool.Published(old(pool.blockTables), boundRow, |old(pageIds)|, acquired)
      ensures pageIds == old(pageIds) + acquired
    {
      if boundRow >= 0 && acquired == [] {
        var row, n := pool.blockTables[boundRow], |pageIds|;
        assert row[..n] + acquired + row[n + |acquired|..] == row;
      }
      pool.blockTables := PublishRange(|pageIds|, acquired);
      pageIds := pageIds + acquired;
      pool.Record(this);
    }

    /** Takes pages from the pool, preferably continuing the last run, and appends them. */
    method Acquire(count: nat)
      requires Listed() && -1 <= boundRow < |pool.blockTables| && 0 < count <= |pool.freePageIds|
      requires boundRow >= 0 ==> |pageIds| + count <= |pool.blockTables[boundRow]|
      requires |pageIds| + count <= pageCapacity
      modifies this`pageIds, pool
      requires |pageIds| + count <= pageEntitlement
      requires StrictlySorted(pool.freePageIds)
      ensures Listed() && |pageIds| == |old(pageIds)| + count
      ensures ApplyMaterialize(old(pool.State()), this, |old(pageIds)| + count) == Ok(pool.State())
      ensures Grew(count)
    {
      hide TakeStart, Publish, Preferred, StrictlySorted, TakenRight, PagedKVPool.Took, PagedKVPool.Published;
      var acquired := pool.TakePages(count, Preferred(pageIds));
      TookSlice(pool, old(pool.freePageIds), pageIds, count);
      AppendPages(acquired.value);
      assert old(pool.claims)[this] == old(AsClaim());
      assert pageIds[|old(pageIds)|..] == acquired.value;
    }

    /** The allocation gained `count` pages: the right ones, published if a row is bound, and nothing else changed. */
    twostate predicate Grew(count: nat)
      requires old(pool) != null && pool == old(pool)
      reads this, pool
    {
      && |pageIds| == |old(pageIds)| + count && old(pageIds) <= pageIds && pageEntitlement == old(pageEntitlement)
      && boundRow == old(boundRow)
      && pool.Took(old(pool.freePageIds), old(pageIds), pageIds[|old(pageIds)|..])
      && pool.mappedPages == old(pool.mappedPages) + count
      && pool.Published(old(pool.blockTables), boundRow, |old(pageIds)|, pageIds[|old(pageIds)|..])
      && pool.rowInUse == old(pool.rowInUse) && pool.entitledPages == old(pool.entitledPages)
      && pool.claims.Keys == old(pool.claims.Keys)
    }

    /** The growing part of materialize_pages: it cannot fail within the entitlement. */
    method Extend(count: nat)
      requires Valid() && pool != null && 0 < count && |pageIds| + count <= pageEntitlement
      modifies this, pool
      ensures Valid() && pool == old(pool)
      ensures ApplyMaterialize(old(pool.State()), this, |old(pageIds)| + count) == Ok(pool.State())
      ensures |pageIds| == |old(pageIds)| + count <= pageEntitlement == old(pageEntitlement)
      ensures Grew(count)
    {
      hide Inv, ApplyMaterialize, StrictlySorted;
      FreeSorted(pool.spec, pool.State());
      MaterializeReady(pool.spec, pool.State(), this, |pageIds| + count);
      Acquire(count);
    }

    method MaterializePages(pages: nat) returns (r: Result<(), Error>)
      requires Valid()
      modifies this, pool
      ensures Valid() && pool == old(pool)
      ensures pool == null ==> r == Err(InvalidArgument)
      ensures pool != null ==>
                var want := ApplyMaterialize(old(pool.State()), this, pages);
                SameVerdict(r, want) && pool.State() == Left(old(pool.State()), want)
      ensures r.Ok? <==> pool != null && |old(pageIds)| <= pages <= pageEntitlement
      ensures r.Err? ==> r.error == InvalidArgument && AsClaim() == old(AsClaim())
      ensures r.Ok? ==> Grew(pages - |old(pageIds)|)
    {
      hide Inv, GeometryOk, TakeStart, TakenRight, PagedKVPool.Took, PagedKVPool.Published;
      if pool == null || pages < |pageIds| || pages > pageEntitlement { return Err(InvalidArgument); }
      var count := pages - |pageIds|;
      if count == 0 {
        assert pageIds[|pageIds|..] == [];
        TookNothing(pool, pageIds, boundRow);
        return Ok(());
      }
      Extend(count);
      r := Ok(());
    }

    /** The device copy that publishes `ids` at `first` in the allocation's row, if it is bound. */
    function PublishRange(first: nat, ids: seq<nat>): (table: seq<seq<nat>>)
      requires pool != null && -1 <= boundRow < |pool.blockTables|
      requires boundRow >= 0 ==> first + |ids| <= |pool.blockTables[boundRow]|
      reads this, pool
      ensures table == Publish(pool.blockTables, boundRow, first, ids)
    {
      if boundRow < 0 then pool.blockTables
      else
        var row := pool.blockTables[boundRow];
        pool.blockTables[boundRow := row[..first] + ids + row[first + |ids|..]]
    }

    /** Keeps the first `pages` entries of the page list. */
    method CutPages(pages: nat)
      requires Listed() && pages <= |pageIds|
      modifies this`pageIds, pool`claims
      ensures Listed()
      ensures pool.State() == old(pool.State()).(
                claims := old(pool.claims)[this := old(AsClaim()).(pages := old(pageIds)[..pages])])
    {
      pageIds := pageIds[..pages];
      pool.Record(this);
    }

    method TrimPages(pages: nat) returns (r: Result<(), Error>)
      requires Valid()
      modifies this, pool
      ensures Valid() && pool == old(pool)
      ensures pool == null ==> r == Err(LogicError)
      ensures pool != null ==>
                var want := ApplyTrim(old(pool.State()), this, pages);
                SameVerdict(r, want) && pool.State() == Left(old(pool.State()), want)
      ensures r.Ok? <==> pool != null && pages <= |old(pageIds)|
      ensures r.Err? ==> AsClaim() == old(AsClaim()) && r.error == if pool == null then LogicError else InvalidArgument
      ensures r.Ok? ==> && pageIds == old(pageIds)[..pages] && pageEntitlement == old(pageEntitlement)
                        && boundRow == old(boundRow)
      ensures r.Ok? ==>
                multiset(pool.freePageIds) == multiset(old(pool.freePageIds)) + multiset(old(pageIds)[pages..])
      ensures r.Ok? ==> && pool.mappedPages == old(pool.mappedPages) - (|old(pageIds)| - pages)
                        && pool.entitledPages == old(pool.entitledPages) && pool.SameRows()
                        && pool.claims.Keys == old(pool.claims.Keys)
    {
      hide Inv, Returned;
      ReturnedAll(if pool == null then [] else pool.freePageIds, if pages <= |pageIds| then pageIds[pages..] else []);
      if pool == null { return Err(LogicError); }
      if pages > |pageIds| { return Err(InvalidArgument); }
      if pages == |pageIds| { return Ok(()); }
      ReturnFits(pool.spec, pool.State(), this);
      TrimKeeps(pool.spec, pool.State(), this, pages);
      pool.ReturnPages(pageIds[pages..]);
      CutPages(pages);
      r := Ok(());
    }

    method BindRow(row: int) returns (r: Result<(), Error>)
      requires Valid()
      modifies this, pool
      ensures Valid() && pool == old(pool)
      ensures pool == null ==> r == Err(LogicError)
      ensures pool != null ==>
                var want := ApplyBind(pool.spec, old(pool.State()), this, row);
                SameVerdict(r, want) && pool.State() == Left(old(pool.State()), want)
      ensures r.Ok? <==> && pool != null && old(boundRow) < 0 && 0 <= row < |old(pool.rowInUse)|
                         && !old(pool.rowInUse)[row]
      ensures r.Err? ==> && AsClaim() == old(AsClaim())
                         && r.error == if pool != null && boundRow < 0 && !(0 <= row < |pool.rowInUse|) then OutOfRange
                                       else LogicError
      ensures r.Ok? ==> && boundRow == row && pageIds == old(pageIds) && pageEntitlement == old(pageEntitlement)
                        && pool.rowInUse == old(pool.rowInUse)[row := true]
      ensures r.Ok? ==> && row < |old(pool.blockTables)| && |pageIds| <= |old(pool.blockTables)[row]|
                        && pool.blockTables
                           == old(pool.blockTables)[row := pageIds + old(pool.blockTables)[row][|pageIds|..]]
      ensures r.Ok? ==> && pool.SamePages() && pool.entitledPages == old(pool.entitledPages)
                        && pool.claims.Keys == old(pool.claims.Keys)
    {
      hide Inv;
      if pool == null || boundRow >= 0 { return Err(LogicError); }
      ghost var before := pool.State();
      ClaimFacts(pool.spec, before, this);
      var acquired := pool.AcquireRow(row);
      if acquired.Err? { return Err(acquired.error); }
      BindKeeps(pool.spec, before, this, row);
      boundRow := row;
      assert [] + pageIds == pageIds;
      pool.blockTables := PublishRange(0, pageIds);
      pool.Record(this);
      r := Ok(());
    }

    method UnbindRow()
      requires Valid()
      modifies this, pool
      ensures Valid() && pool == old(pool)
      ensures pool != null ==> pool.State() == ApplyUnbind(old(pool.State()), this)
      ensures boundRow == -1 && pageIds == old(pageIds) && pageEntitlement == old(pageEntitlement)
      ensures old(boundRow) >= 0 ==> && pool != null && old(boundRow) < |old(pool.rowInUse)|
                                     && pool.rowInUse == old(pool.rowInUse)[old(boundRow) := false]
      ensures pool != null ==> && (old(boundRow) < 0 ==> pool.rowInUse == old(pool.rowInUse))
                               && pool.blockTables == old(pool.blockTables) && pool.SamePages()
                               && pool.entitledPages == old(pool.entitledPages)
                               && pool.claims.Keys == old(pool.claims.Keys)
    {
      hide Inv;
      if pool != null { ClaimFacts(pool.spec, pool.State(), this); }
      if boundRow < 0 { return; }
      ghost var before := pool.State();
      ClaimFacts(pool.spec, before, this);
      pool.rowInUse := pool.rowInUse[boundRow := false];
      boundRow := -1;
      pool.Record(this);
      UnbindKeeps(pool.spec, before, this);
    }

    /** Leaves the pool: the ledger loses the claim and the allocation becomes empty. */
    method Leave()
      requires Listed() && boundRow == -1
      modifies this`pageIds, this`pageEntitlement, this`pool, pool`entitledPages, pool`claims
      ensures pool == null && pageIds == [] && pageEntitlement == 0
      ensures old(pool).Tied()
      ensures old(pool).State() == old(pool.State()).(
                entitled := old(pool.entitledPages) - old(pageEntitlement), claims := old(pool.claims) - {this})
    {
      pool.entitledPages := pool.entitledPages - pageEntitlement;
      pool.Strike(this);
      pageIds, pageEntitlement, pool := [], 0, null;
    }

    /** release(), which is also the destructor. */
    method Release()
      requires Valid()
      modifies this, pool
      ensures Valid() && pool == null
      ensures old(pool) != null ==> old(pool).Valid() && old(pool).State() == ApplyRelease(old(pool.State()), this)
      ensures pageIds == [] && pageEntitlement == 0 && boundRow == -1
      ensures old(pool) != null ==> old(pool).Regained(old(pool.freePageIds), old(pool.rowInUse), old(AsClaim()))
      ensures old(pool) != null ==> && old(pool).mappedPages == old(pool.mappedPages) - |old(pageIds)|
                                    && old(pool).entitledPages == old(pool.entitledPages) - old(pageEntitlement)
                                    && old(pool).blockTables == old(pool.blockTables)
                                    && old(pool).claims.Keys == old(pool.claims.Keys) - {this}
    {
      hide Inv, Returned;
      if pool == null { return; }
      ReturnedAll(pool.freePageIds, pageIds);
      ghost var home, before := pool, pool.State();
      ReleaseKeeps(pool.spec, before, this);
      ReturnFits(pool.spec, before, this);
      UnbindRow();
      ClaimFacts(pool.spec, before, this);
      UnbindGives(before, this);
      pool.ReturnPages(pageIds);
      Leave();
      ReleaseIs(before, this, home.State());
    }

    /** Takes over another allocation's claim; this one must be empty. */
    method Adopt(other: PagedKVAllocation)
      requires pool == null && other != this && other.Listed() && this !in other.pool.claims
      modifies this, other, other.pool`claims
      ensures pool == old(other.pool) && Listed() && AsClaim() == old(other.AsClaim())
      ensures other.pool == null && other.pageIds == [] && other.pageEntitlement == 0 && other.boundRow == -1
      ensures pool.State() == old(other.pool.State()).(
                claims := (old(other.pool.claims) - {other})[this := old(other.AsClaim())])
    {
      pool, pageIds, pageCapacity := other.pool, other.pageIds, other.pageCapacity;
      pageEntitlement, boundRow := other.pageEntitlement, other.boundRow;
      other.pool, other.pageIds, other.pageCapacity, other.pageEntitlement, other.boundRow := null, [], 0, 0, -1;
      pool.claims := pool.claims - {other};
      pool.Record(this);
    }

    /** Move assignment. The old claim is released first; a moved-from allocation is empty. */
    method MoveFrom(other: PagedKVAllocation)
      requires Valid() && other.Valid()
      modifies this, pool, other, other.pool
      ensures Valid() && other.Valid() && pool == old(other.pool)
      ensures this != other ==> other.pool == null
      ensures old(pool) != null && old(pool) != old(other.pool) ==>
                old(pool).Valid() && old(pool).State() == ApplyRelease(old(pool.State()), this)
      ensures pool != null ==> pool.State() == ApplyMove(old(other.pool.State()), other, this)
      ensures && pageIds == old(other.pageIds) && pageEntitlement == old(other.pageEntitlement)
              && boundRow == old(other.boundRow)
      ensures this != other ==> other.pageIds == [] && other.pageEntitlement == 0 && other.boundRow == -1
      ensures this != other && old(pool) != null ==>
                && old(pool).Regained(old(pool.freePageIds), old(pool.rowInUse), old(AsClaim()))
                && old(pool).mappedPages == old(pool.mappedPages) - |old(pageIds)|
                && old(pool).entitledPages == old(pool.entitledPages) - old(pageEntitlement)
                && old(pool).blockTables == old(pool.blockTables)
      ensures pool != null && (this == other || pool != old(pool)) ==>
                pool.SamePages() && pool.SameRows() && pool.entitledPages == old(other.pool.entitledPages)
      ensures pool != null ==>
                pool.claims.Keys == if this == other then old(other.pool.claims.Keys)
                                    else old(other.pool.claims.Keys) - {other} + {this}
    {
      hide Inv, Returned, GeometryOk, ApplyRelease, PagedKVPool.Regained;
      if this == other { return; }
      if other.pool != null {
        MoveKeeps(other.pool.spec, other.pool.State(), other, this);
        ReleaseClaims(other.pool.State(), other, this);
      }
      if pool != null { ReleaseKeeps(pool.spec, pool.State(), this); }
      Release();
      if other.pool != null {
        Adopt(other);
      } else {
        pageIds, pageCapacity, pageEntitlement, boundRow := other.pageIds, other.pageCapacity, 0, -1;
      }
    }

    /** Grows the host capacity of the page list; the pool's accounting is untouched. */
    method GrowCapacity(pages: nat)
      requires Listed()
      modifies this`pageCapacity, pool`claims
      ensures Listed()
      ensures pool.State() == Grown(old(pool.State()), this, pages)
    {
      assert pool.claims[this] == AsClaim();
      pageCapacity := Max(pageCapacity, pages);
      pool.Record(this);
    }
  }

  ghost function Grown<K>(p: Pool<K>, k: K, pages: nat): Pool<K>
    requires k in p.claims
  {
    p.(claims := p.claims[k := p.claims[k].(capacity := Max(p.claims[k].capacity, pages))])
  }

  lemma GrownKeeps<K>(spec: Spec, p: Pool<K>, k: K, pages: nat)
    requires Inv(spec, p) && k in p.claims
    ensures Inv(spec, Grown(p, k, pages))
  {
    var c := p.claims[k].(capacity := Max(p.claims[k].capacity, pages));
    EntitlementTally(p.claims, k, c);
    ClaimsUpdate(spec, p.rowInUse, p.table, p.table, p.claims, k, c);
  }
}
