/** Bundle operations over several pools (src/core/paged_kv_cache.cpp): all-or-nothing, also when a
    host allocation fails half way. */
module PagedKvBundle {
  import opened Arith
  import opened Results
  import opened PoolLedger
  import opened PoolProofs
  import opened PagedKv

  // ---------------------------------------------------------------------------------------------
  // Reserving
  // ---------------------------------------------------------------------------------------------

  datatype Reservation = Reservation(pool: PagedKVPool?, pages: nat)

  function Pools(rs: seq<Reservation>): set<PagedKVPool> {
    set i | 0 <= i < |rs| && rs[i].pool != null :: rs[i].pool
  }

  predicate Distinct(rs: seq<Reservation>) {
    && (forall i | 0 <= i < |rs| :: rs[i].pool != null && rs[i].pages != 0)
    && forall i, j | 0 <= i < j < |rs| :: rs[i].pool != rs[j].pool
  }

  predicate AllReservable(rs: seq<Reservation>)
    reads Pools(rs)
  {
    forall i | 0 <= i < |rs| :: rs[i].pool != null && rs[i].pool.CanReserve(rs[i].pages)
  }

  ghost predicate AllValid(rs: seq<Reservation>)
    reads Pools(rs), set i, a | 0 <= i < |rs| && rs[i].pool != null && a in rs[i].pool.claims.Keys :: a
  {
    forall i | 0 <= i < |rs| && rs[i].pool != null :: rs[i].pool.Valid()
  }

  type States = seq<Pool<PagedKVAllocation>>

  /** Giving back a reservation that mapped nothing restores the pool exactly. */
  lemma ReserveReleaseIsIdentity<K>(p: Pool<K>, k: K, pages: nat)
    requires k !in p.claims
    ensures ApplyRelease(WithReserved(p, k, pages), k) == p
  {
    assert p.claims[k := Claim([], pages, pages, -1)] - {k} == p.claims;
  }

  method ValidateDistinct(rs: seq<Reservation>) returns (ok: bool)
    ensures ok == Distinct(rs)
  {
    for i := 0 to |rs|
      invariant Distinct(rs[..i])
    {
      if rs[i].pool == null || rs[i].pages == 0 {
        return false;
      }
      for j := 0 to i
        invariant forall k | 0 <= k < j :: rs[k].pool != rs[i].pool
      {
        if rs[i].pool == rs[j].pool { return false; }
      }
      assert rs[..i + 1] == rs[..i] + [rs[i]];
    }
    assert rs[..|rs|] == rs;
    ok := true;
  }

  /** Reserves in every pool or leaves every pool as it was, and says which. */
  method ReserveBundle(rs: seq<Reservation>, hostOk: seq<bool>) returns (r: Result<seq<PagedKVAllocation>, Error>)
    requires AllValid(rs) && |hostOk| == |rs|
    modifies Pools(rs)
    ensures AllValid(rs)
    ensures r.Ok? <==> Distinct(rs) && old(AllReservable(rs)) && forall i | 0 <= i < |rs| :: hostOk[i]
    ensures r.Err? ==> r.error == if Distinct(rs) then BadAlloc else InvalidArgument
    ensures r.Err? ==> forall i | 0 <= i < |rs| && rs[i].pool != null :: rs[i].pool.State() == old(rs[i].pool.State())
    ensures r.Ok? ==> |r.value| == |rs| && forall i | 0 <= i < |rs| ::
              && r.value[i].pool == rs[i].pool
              && rs[i].pool.State()
                 == WithReserved(old(rs[i].pool.State()), r.value[i], rs[i].pages)
    ensures r.Ok? ==> forall i | 0 <= i < |rs| ::
              && r.value[i].pageIds == [] && r.value[i].pageEntitlement == rs[i].pages && r.value[i].boundRow == -1
              && rs[i].pool.entitledPages == old(rs[i].pool.entitledPages) + rs[i].pages
              && rs[i].pool.freePageIds == old(rs[i].pool.freePageIds)
              && rs[i].pool.mappedPages == old(rs[i].pool.mappedPages)
                && rs[i].pool.rowInUse == old(rs[i].pool.rowInUse)
              && rs[i].pool.blockTables == old(rs[i].pool.blockTables)
  {
    hide Inv, WithReserved, PagedKVPool.Tied, GeometryOk;
    var distinct := ValidateDistinct(rs);
    if !distinct { return Err(InvalidArgument); }
    for i := 0 to |rs|
      invariant forall j | 0 <= j < i :: rs[j].pool.CanReserve(rs[j].pages)
    {
      if !rs[i].pool.CanReserve(rs[i].pages) { return Err(BadAlloc); }
    }
    r := ReserveAll(rs, hostOk);
    if r.Ok? {
      forall i | 0 <= i < |rs|
        ensures && r.value[i].AsClaim() == Claim([], rs[i].pages, rs[i].pages, -1)
                && ReservedOnly(old(rs[i].pool.State()), rs[i].pool.State(), rs[i].pages)
      {
        ReservedFields(rs[i].pool, r.value[i], old(rs[i].pool.State()), rs[i].pages);
      }
    }
  }

  /** Only the entitlement grew. */
  ghost predicate ReservedOnly<K>(p: Pool<K>, q: Pool<K>, pages: nat) {
    q == p.(entitled := p.entitled + pages, claims := q.claims)
  }

  lemma ReservedFields(pool: PagedKVPool?, a: PagedKVAllocation, before: Pool<PagedKVAllocation>, pages: nat)
    requires pool != null && pool.Valid() && pool.State() == WithReserved(before, a, pages)
    ensures a.AsClaim() == Claim([], pages, pages, -1) && ReservedOnly(before, pool.State(), pages)
  {
    hide Inv, GeometryOk;
    assert pool.claims[a] == Claim([], pages, pages, -1);
  }

  /** The reserving loop. An exception destroys the allocations made so far, which releases them. */
  method ReserveAll(rs: seq<Reservation>, hostOk: seq<bool>) returns (r: Result<seq<PagedKVAllocation>, Error>)
    requires Distinct(rs) && AllValid(rs) && AllReservable(rs) && |hostOk| == |rs|
    modifies Pools(rs)
    ensures AllValid(rs)
    ensures r.Ok? <==> forall i | 0 <= i < |rs| :: hostOk[i]
    ensures r.Err? ==> r.error == BadAlloc
    ensures r.Err? ==> forall i | 0 <= i < |rs| :: rs[i].pool.State() == old(rs[i].pool.State())
    ensures r.Ok? ==> |r.value| == |rs| && forall i | 0 <= i < |rs| ::
              && r.value[i].pool == rs[i].pool
              && rs[i].pool.State()
                 == WithReserved(old(rs[i].pool.State()), r.value[i], rs[i].pages)
  {
    hide Inv, WithReserved, ApplyRelease, PagedKVPool.Tied, GeometryOk, PagedKVPool.Valid;
    var made: seq<PagedKVAllocation> := [];
    ghost var before := seq(|rs|, i requires 0 <= i < |rs| reads Pools(rs) => rs[i].pool.State());
    for i := 0 to |rs|
      invariant |made| == i && AllValid(rs)
      invariant forall j | 0 <= j < i :: hostOk[j]
      invariant forall j | 0 <= j < i ::
                fresh(made[j]) && made[j].pool == rs[j].pool && made[j] !in old(rs[j].pool.claims)
      invariant forall j | 0 <= j < i :: made[j] in rs[j].pool.claims
      invariant forall j | 0 <= j < i ::
                  rs[j].pool.State()
                  == WithReserved(old(rs[j].pool.State()), made[j], rs[j].pages)
      invariant forall j | i <= j < |rs| :: rs[j].pool.State() == old(rs[j].pool.State())
    {
      var one := rs[i].pool.Reserve(rs[i].pages, hostOk[i]);
      if one.Err? {
        Rollback(rs, made, before);
        return Err(BadAlloc);
      }
      made := made + [one.value];
    }
    r := Ok(made);
  }

  /** An allocation in a valid pool's ledger is valid. */
  lemma MadeIsValid(pool: PagedKVPool?, a: PagedKVAllocation)
    requires pool != null && pool.Valid() && a.pool == pool && a in pool.claims
    ensures a.Valid()
  {
    hide Inv, GeometryOk;
  }

  /** An allocation of another pool is in no ledger but its own pool's. */
  lemma ListedOnlyAtHome(pool: PagedKVPool?, a: PagedKVAllocation)
    requires pool != null && pool.Valid() && a.pool != pool
    ensures a !in pool.claims
  {
    hide Inv, GeometryOk;
  }

  method Undo(rs: seq<Reservation>, made: seq<PagedKVAllocation>)
    requires Distinct(rs) && |made| <= |rs| && AllValid(rs)
    requires forall j | 0 <= j < |made| :: made[j].pool == rs[j].pool && made[j] in rs[j].pool.claims
    modifies Pools(rs), made
    ensures AllValid(rs)
    ensures forall j | 0 <= j < |made| :: rs[j].pool.State() == ApplyRelease(old(rs[j].pool.State()), made[j])
    ensures forall j | |made| <= j < |rs| :: rs[j].pool.State() == old(rs[j].pool.State())
  {
    hide Inv, Returned, ApplyRelease, GeometryOk, PagedKVPool.Valid, PagedKVPool.Tied;
    for i := 0 to |made|
      invariant AllValid(rs)
      invariant forall j | 0 <= j < i :: rs[j].pool.State() == ApplyRelease(old(rs[j].pool.State()), made[j])
      invariant forall j | i <= j < |rs| :: rs[j].pool.State() == old(rs[j].pool.State())
      invariant forall j | i <= j < |made| :: made[j].pool == rs[j].pool
    {
      MadeIsValid(rs[i].pool, made[i]);
      forall j | 0 <= j < |rs| && j != i ensures made[i] !in rs[j].pool.claims {
        ListedOnlyAtHome(rs[j].pool, made[i]);
      }
      made[i].Release();
    }
  }

  /** Releasing a partial bundle restores every pool. */
  method Rollback(rs: seq<Reservation>, made: seq<PagedKVAllocation>, ghost before: States)
    requires Distinct(rs) && |made| <= |rs| == |before| && AllValid(rs)
    requires forall j | 0 <= j < |made| ::
               && made[j].pool == rs[j].pool && made[j] in rs[j].pool.claims && made[j] !in before[j].claims
               && rs[j].pool.State() == WithReserved(before[j], made[j], rs[j].pages)
    requires forall j | |made| <= j < |rs| :: rs[j].pool.State() == before[j]
    modifies Pools(rs), made
    ensures AllValid(rs)
    ensures forall j | 0 <= j < |rs| :: rs[j].pool.State() == before[j]
  {
    hide Inv, WithReserved, ApplyRelease, PagedKVPool.Tied, GeometryOk, PagedKVPool.Valid;
    Undo(rs, made);
    forall j | 0 <= j < |made| ensures rs[j].pool.State() == before[j] {
      ReserveReleaseIsIdentity(before[j], made[j], rs[j].pages);
    }
  }

  // ---------------------------------------------------------------------------------------------
  // Resizing
  // ---------------------------------------------------------------------------------------------

  datatype Resize = Resize(allocation: PagedKVAllocation?, mapped: nat, entitlement: nat)

  function Named(cs: seq<Resize>): set<PagedKVAllocation> {
    set i | 0 <= i < |cs| && cs[i].allocation != null :: cs[i].allocation
  }

  function Homes(cs: seq<Resize>): set<PagedKVPool>
    reads Named(cs)
  {
    set i | 0 <= i < |cs| && cs[i].allocation != null && cs[i].allocation.pool != null :: cs[i].allocation.pool
  }

  ghost function Members(cs: seq<Resize>): set<PagedKVAllocation>
    reads Named(cs), Homes(cs)
  {
    set i, a | 0 <= i < |cs| && cs[i].allocation != null && cs[i].allocation.pool != null
               && a in cs[i].allocation.pool.claims.Keys :: a
  }

  ghost predicate AllSound(cs: seq<Resize>)
    reads Named(cs), Homes(cs), Members(cs)
  {
    forall i | 0 <= i < |cs| && cs[i].allocation != null :: cs[i].allocation.Valid()
  }

  predicate OneOk(c: Resize)
    reads if c.allocation == null then {} else {c.allocation}
    reads if c.allocation == null || c.allocation.pool == null then {} else {c.allocation.pool}
  {
    && c.allocation != null && c.allocation.pool != null
    && c.mapped <= |c.allocation.pageIds| && c.mapped <= c.entitlement
    && c.allocation.pool.CanReplaceEntitlement(c.allocation.pageEntitlement, c.entitlement)
  }

  predicate SeparatePools(cs: seq<Resize>)
    reads Named(cs)
  {
    forall i, j | 0 <= i < j < |cs| && cs[i].allocation != null && cs[j].allocation != null ::
      cs[i].allocation.pool != cs[j].allocation.pool
  }

  /** Every requested change is possible, and no two touch the same pool. */
  predicate ResizeOk(cs: seq<Resize>)
    reads Named(cs), Homes(cs)
  {
    (forall i | 0 <= i < |cs| :: OneOk(cs[i])) && SeparatePools(cs)
  }

  /** The effect of one change on its pool: trim, then the new entitlement. */
  ghost function Resized<K>(spec: Spec, p: Pool<K>, k: K, mapped: nat, entitlement: nat): Pool<K> {
    var trimmed := Left(p, ApplyTrim(p, k, mapped));
    Left(trimmed, ApplySetEntitlement(spec, trimmed, k, entitlement, true))
  }

  /** The pool's accounting is the same; only host capacities may have grown. */
  ghost predicate SameAccounting<K>(p: Pool<K>, q: Pool<K>) {
    && q == p.(claims := q.claims) && q.claims.Keys == p.claims.Keys
    && forall k | k in p.claims ::
         p.claims[k].capacity <= q.claims[k].capacity && q.claims[k] == p.claims[k].(capacity := q.claims[k].capacity)
  }

  /** With the capacity grown beforehand, trimming and resizing succeed without a host allocation and
      end where they would have ended anyway. */
  lemma GrownResizes<K>(spec: Spec, p: Pool<K>, k: K, mapped: nat, entitlement: nat)
    requires k in p.claims && mapped <= |p.claims[k].pages| && mapped <= entitlement
    requires CanReplace(spec, p, p.claims[k].entitlement, entitlement)
    ensures var g := Grown(p, k, entitlement);
            var t := ApplyTrim(g, k, mapped);
            && t.Ok? && k in t.value.claims
            && ApplySetEntitlement(spec, t.value, k, entitlement, false)
               == Ok(Resized(spec, p, k, mapped, entitlement))
  {
    var g := Grown(p, k, entitlement);
    var t := ApplyTrim(g, k, mapped).value;
    var u := ApplyTrim(p, k, mapped).value;
    var c := p.claims[k];
    var pages := c.pages[..mapped];
    if mapped == |c.pages| { assert pages == c.pages; }
    assert t.claims[k] == c.(pages := pages, capacity := Max(c.capacity, entitlement));
    assert u.claims[k] == c.(pages := pages);
    assert t.claims[k := Claim(pages, entitlement, Max(c.capacity, entitlement), c.row)]
           == u.claims[k := Claim(pages, entitlement, Max(c.capacity, entitlement), c.row)];
  }

  /** Change i names a live allocation, has consistent extents, and its pool was not named before. */
  predicate Meaningful(cs: seq<Resize>, i: nat)
    requires i < |cs|
    reads Named(cs)
  {
    var c := cs[i];
    && c.allocation != null && c.allocation.pool != null
    && c.mapped <= |c.allocation.pageIds| && c.mapped <= c.entitlement
    && forall j | 0 <= j < i && cs[j].allocation != null :: cs[j].allocation.pool != c.allocation.pool
  }

  /** Change i is the first that fails, and e is its error: bad_alloc exactly when all that is missing is room
      in the pool. */
  predicate RejectedAt(cs: seq<Resize>, i: nat, e: Error)
    reads Named(cs), Homes(cs)
  {
    && i < |cs| && (forall j | 0 <= j < i :: OneOk(cs[j]) && Meaningful(cs, j))
    && if Meaningful(cs, i) then !OneOk(cs[i]) && e == BadAlloc else e == InvalidArgument
  }

  method ValidateResize(cs: seq<Resize>) returns (r: Result<(), Error>)
    ensures r.Ok? <==> ResizeOk(cs)
    ensures r.Err? ==> exists i :: RejectedAt(cs, i, r.error)
  {
    for i := 0 to |cs|
      invariant ResizeOk(cs[..i]) && forall j | 0 <= j < i :: OneOk(cs[j]) && Meaningful(cs, j)
    {
      ghost var invalid := !Meaningful(cs, i);
      assert invalid ==> RejectedAt(cs, i, InvalidArgument);
      assert !invalid && !OneOk(cs[i]) ==> RejectedAt(cs, i, BadAlloc);
      var c := cs[i];
      if c.allocation == null || c.allocation.pool == null { return Err(InvalidArgument); }
      if c.mapped > |c.allocation.pageIds| || c.mapped > c.entitlement { return Err(InvalidArgument); }
      for j := 0 to i
        invariant forall k | 0 <= k < j :: cs[k].allocation.pool != c.allocation.pool
      {
        assert OneOk(cs[..i][j]);
        if c.allocation == cs[j].allocation || c.allocation.pool == cs[j].allocation.pool {
          return Err(InvalidArgument);
        }
      }
      if !c.allocation.pool.CanReplaceEntitlement(c.allocation.pageEntitlement, c.entitlement) {
        return Err(BadAlloc);
      }
      assert cs[..i + 1] == cs[..i] + [c];
    }
    assert cs[..|cs|] == cs;
    r := Ok(());
  }

  /** A validated change: an allocation, its pool, and the pool's state before the bundle. */
  datatype Job = Job(a: PagedKVAllocation, pool: PagedKVPool, mapped: nat, entitlement: nat)

  function JobPools(jobs: seq<Job>): set<PagedKVPool> { set i | 0 <= i < |jobs| :: jobs[i].pool }

  function JobAllocations(jobs: seq<Job>): set<PagedKVAllocation> { set i | 0 <= i < |jobs| :: jobs[i].a }

  ghost predicate JobSound(job: Job)
    reads job.a, job.pool, job.pool.claims.Keys
  {
    job.a.pool == job.pool && job.pool.Valid() && job.a in job.pool.claims
  }

  predicate Separate(jobs: seq<Job>) {
    forall i, j | 0 <= i < j < |jobs| :: jobs[i].pool != jobs[j].pool
  }

  /** The change is possible in the pool state `p`. */
  ghost predicate Possible(job: Job, p: Pool<PagedKVAllocation>) {
    && job.a in p.claims && job.mapped <= |p.claims[job.a].pages| && job.mapped <= job.entitlement
    && CanReplace(job.pool.spec, p, p.claims[job.a].entitlement, job.entitlement)
  }

  ghost predicate AllPossible(jobs: seq<Job>, before: States) {
    |before| == |jobs| && forall i | 0 <= i < |jobs| :: Possible(jobs[i], before[i])
  }

  ghost predicate Fits(job: Job, p: Pool<PagedKVAllocation>, hostOk: bool)
    requires job.a in p.claims
  {
    hostOk || job.entitlement <= p.claims[job.a].capacity
  }

  /** One job's allocation belongs to no other job's pool. */
  lemma Untouched(jobs: seq<Job>, i: nat)
    requires i < |jobs| && Separate(jobs) && forall j | 0 <= j < |jobs| :: JobSound(jobs[j])
    ensures forall j | 0 <= j < |jobs| && j != i ::
              jobs[j].a != jobs[i].a && jobs[j].pool != jobs[i].pool && jobs[i].a !in jobs[j].pool.claims
  {
    hide Inv;
  }

  lemma JobClaim(job: Job)
    requires JobSound(job)
    ensures job.a in job.pool.claims && job.pool.claims[job.a] == job.a.AsClaim()
  {
    hide Inv, GeometryOk;
  }

  method GrowOne(job: Job)
    requires JobSound(job)
    modifies job.a`pageCapacity, job.pool`claims
    ensures JobSound(job) && job.a in old(job.pool.claims)
    ensures job.pool.State() == Grown(old(job.pool.State()), job.a, job.entitlement)
  {
    hide Inv;
    GrownKeeps(job.pool.spec, job.pool.State(), job.a, job.entitlement);
    job.a.GrowCapacity(job.entitlement);
  }

  /** Grows the page lists' capacities, stopping at the first host allocation that fails. */
  method GrowAll(jobs: seq<Job>, hostOk: seq<bool>, ghost before: States) returns (ok: bool)
    requires Separate(jobs) && AllPossible(jobs, before) && |hostOk| == |jobs|
    requires forall i | 0 <= i < |jobs| :: JobSound(jobs[i]) && jobs[i].pool.State() == before[i]
    modifies JobPools(jobs), JobAllocations(jobs)
    ensures forall i | 0 <= i < |jobs| :: JobSound(jobs[i])
    ensures ok <==> forall i | 0 <= i < |jobs| :: Fits(jobs[i], before[i], hostOk[i])
    ensures forall i | 0 <= i < |jobs| ::
              jobs[i].pool.State() == Grown(before[i], jobs[i].a, jobs[i].entitlement)
              || (!ok && jobs[i].pool.State() == before[i])
  {
    hide Inv, Grown, JobSound;
    for i := 0 to |jobs|
      invariant forall j | 0 <= j < |jobs| :: JobSound(jobs[j])
      invariant forall j | 0 <= j < i :: Fits(jobs[j], before[j], hostOk[j])
      invariant forall j | 0 <= j < i :: jobs[j].pool.State() == Grown(before[j], jobs[j].a, jobs[j].entitlement)
      invariant forall j | i <= j < |jobs| :: jobs[j].pool.State() == before[j]
    {
      var a := jobs[i].a;
      JobClaim(jobs[i]);
      if jobs[i].entitlement > a.pageCapacity && !hostOk[i] {
        assert !Fits(jobs[i], before[i], hostOk[i]);
        return false;
      }
      Untouched(jobs, i);
      GrowOne(jobs[i]);
    }
    ok := true;
  }

  /** Trims and resizes one allocation whose capacity already suffices: nothing can fail. */
  method ResizeOne(job: Job, ghost before: Pool<PagedKVAllocation>)
    requires JobSound(job) && Possible(job, before)
    requires job.pool.State() == Grown(before, job.a, job.entitlement)
    modifies job.a, job.pool
    ensures JobSound(job)
    ensures job.pool.State() == Resized(job.pool.spec, before, job.a, job.mapped, job.entitlement)
  {
    hide Inv, Returned, ApplyTrim, ApplySetEntitlement, Resized;
    GrownResizes(job.pool.spec, before, job.a, job.mapped, job.entitlement);
    var trimmed := job.a.TrimPages(job.mapped);
    var resized := job.a.SetPageEntitlement(job.entitlement, false);
    assert trimmed.Ok? && resized.Ok?;
    ResizedClaims(job.pool.spec, before, job.a, job.mapped, job.entitlement);
  }

  lemma ResizedClaims<K>(spec: Spec, p: Pool<K>, k: K, mapped: nat, entitlement: nat)
    requires k in p.claims
    ensures k in Resized(spec, p, k, mapped, entitlement).claims
  {}

  method ApplyAll(jobs: seq<Job>, ghost before: States)
    requires Separate(jobs) && AllPossible(jobs, before)
    requires forall i | 0 <= i < |jobs| :: JobSound(jobs[i])
    requires forall i | 0 <= i < |jobs| :: jobs[i].pool.State() == Grown(before[i], jobs[i].a, jobs[i].entitlement)
    modifies JobPools(jobs), JobAllocations(jobs)
    ensures forall i | 0 <= i < |jobs| :: JobSound(jobs[i])
    ensures forall i | 0 <= i < |jobs| ::
              jobs[i].pool.State()
              == Resized(jobs[i].pool.spec, before[i], jobs[i].a, jobs[i].mapped, jobs[i].entitlement)
  {
    hide Inv, Resized, Grown, JobSound;
    for i := 0 to |jobs|
      invariant forall j | 0 <= j < |jobs| :: JobSound(jobs[j])
      invariant forall j | 0 <= j < i ::
                  jobs[j].pool.State()
                  == Resized(jobs[j].pool.spec, before[j], jobs[j].a, jobs[j].mapped, jobs[j].entitlement)
      invariant forall j | i <= j < |jobs| ::
                  jobs[j].pool.State() == Grown(before[j], jobs[j].a, jobs[j].entitlement)
    {
      Untouched(jobs, i);
      ResizeOne(jobs[i], before[i]);
    }
  }

  lemma GrownAccounting<K>(p: Pool<K>, k: K, pages: nat)
    requires k in p.claims
    ensures SameAccounting(p, p) && SameAccounting(p, Grown(p, k, pages))
  {}

  /** Everything after validation: no step can fail except a host allocation, and then no accounting
      has changed. */
  method ResizeValidated(jobs: seq<Job>, hostOk: seq<bool>, ghost before: States) returns (ok: bool)
    requires Separate(jobs) && AllPossible(jobs, before) && |hostOk| == |jobs|
    requires forall i | 0 <= i < |jobs| :: JobSound(jobs[i]) && jobs[i].pool.State() == before[i]
    modifies JobPools(jobs), JobAllocations(jobs)
    ensures forall i | 0 <= i < |jobs| :: JobSound(jobs[i])
    ensures ok <==> forall i | 0 <= i < |jobs| :: Fits(jobs[i], before[i], hostOk[i])
    ensures ok ==> forall i | 0 <= i < |jobs| ::
              jobs[i].pool.State()
              == Resized(jobs[i].pool.spec, before[i], jobs[i].a, jobs[i].mapped, jobs[i].entitlement)
    ensures !ok ==> forall i | 0 <= i < |jobs| :: SameAccounting(before[i], jobs[i].pool.State())
  {
    hide Inv, Resized, Grown, SameAccounting, JobSound, Fits;
    ok := GrowAll(jobs, hostOk, before);
    if ok {
      ApplyAll(jobs, before);
    } else {
      forall i | 0 <= i < |jobs| ensures SameAccounting(before[i], jobs[i].pool.State()) {
        GrownAccounting(before[i], jobs[i].a, jobs[i].entitlement);
      }
    }
  }

  /** All or nothing: a rejected request changes nothing, a failed host allocation changes no
      accounting, and otherwise every pool takes its whole change. */
  method ResizeBundle(cs: seq<Resize>, hostOk: seq<bool>) returns (r: Result<(), Error>)
    requires AllSound(cs) && |hostOk| == |cs|
    modifies Named(cs), Homes(cs)
    ensures AllSound(cs)
    ensures r.Ok? <==> old(ResizeOk(cs)) && forall i | 0 <= i < |cs| ::
              hostOk[i] || cs[i].entitlement <= old(cs[i].allocation.pageCapacity)
    ensures !old(ResizeOk(cs)) ==> unchanged(Named(cs)) && unchanged(old(Homes(cs)))
                                   && exists i: nat :: old(RejectedAt(cs, i, r.error))
    ensures r.Err? && old(ResizeOk(cs)) ==> r.error == BadAlloc
    ensures r.Err? && old(ResizeOk(cs)) ==>
              forall i | 0 <= i < |cs| ::
                && cs[i].allocation.pool == old(cs[i].allocation.pool)
                && SameAccounting(old(cs[i].allocation.pool.State()), cs[i].allocation.pool.State())
    ensures r.Ok? ==>
              forall i | 0 <= i < |cs| ::
                var a := cs[i].allocation;
                && a.pool == old(a.pool)
                && a.pool.State() == Resized(a.pool.spec, old(a.pool.State()), a, cs[i].mapped, cs[i].entitlement)
    ensures r.Ok? ==>
              forall i | 0 <= i < |cs| ::
                var a := cs[i].allocation;
                && cs[i].mapped <= |old(a.pageIds)| && a.pageIds == old(a.pageIds)[..cs[i].mapped]
                && a.pageEntitlement == cs[i].entitlement && a.boundRow == old(a.boundRow)
                && ResizedOnly(old(a.pool.State()), a.pool.State(), old(a.AsClaim()), cs[i].mapped, cs[i].entitlement)
  {
    hide Inv, Resized, Grown, SameAccounting, GeometryOk, PagedKVPool.Tied, RejectedAt, SeparatePools, ResizedOnly;
    r := ValidateResize(cs);
    if r.Ok? {
      var ok := ResizeChecked(cs, hostOk);
      r := if ok then Ok(()) else Err(BadAlloc);
      if ok {
        forall i | 0 <= i < |cs|
          ensures var a, c := cs[i].allocation, old(cs[i].allocation.AsClaim());
                  && cs[i].mapped <= |c.pages|
                  && a.AsClaim() == Claim(c.pages[..cs[i].mapped], cs[i].entitlement, a.pageCapacity, c.row)
                  && ResizedOnly(old(a.pool.State()), a.pool.State(), c, cs[i].mapped, cs[i].entitlement)
        {
          var a := cs[i].allocation;
          ResizedEffect(a.pool.spec, old(a.pool.State()), a, cs[i].mapped, cs[i].entitlement);
        }
      }
    }
  }

  /** The trimmed pages are free again, both counters follow, and rows and tables are as before. */
  ghost predicate ResizedOnly<K>(p: Pool<K>, q: Pool<K>, c: Claim, mapped: nat, entitlement: nat)
    requires mapped <= |c.pages|
  {
    && multiset(q.free) == multiset(p.free) + multiset(c.pages[mapped..])
    && q.mapped == p.mapped - (|c.pages| - mapped) && q.entitled == p.entitled - c.entitlement + entitlement
    && q.rowInUse == p.rowInUse && q.table == p.table && q.claims.Keys == p.claims.Keys
  }

  /** What a possible change leaves behind. */
  lemma ResizedEffect<K>(spec: Spec, p: Pool<K>, k: K, mapped: nat, entitlement: nat)
    requires k in p.claims && mapped <= |p.claims[k].pages| && mapped <= entitlement
    requires CanReplace(spec, p, p.claims[k].entitlement, entitlement)
    ensures var c, q := p.claims[k], Resized(spec, p, k, mapped, entitlement);
            && k in q.claims && q.claims[k].pages == c.pages[..mapped] && q.claims[k].entitlement == entitlement
            && q.claims[k].row == c.row && ResizedOnly(p, q, c, mapped, entitlement)
  {
    hide Returned;
    ReturnedAll(p.free, p.claims[k].pages[mapped..]);
  }

  method ResizeChecked(cs: seq<Resize>, hostOk: seq<bool>) returns (ok: bool)
    requires AllSound(cs) && |hostOk| == |cs| && ResizeOk(cs)
    modifies Named(cs), Homes(cs)
    ensures AllSound(cs)
    ensures ok <==> forall i | 0 <= i < |cs| ::
              hostOk[i] || cs[i].entitlement <= old(cs[i].allocation.pageCapacity)
    ensures forall i | 0 <= i < |cs| ::
              var a := cs[i].allocation;
              && a.pool == old(a.pool)
              && (ok ==> a.pool.State()
                         == Resized(a.pool.spec, old(a.pool.State()), a, cs[i].mapped, cs[i].entitlement))
              && (!ok ==> SameAccounting(old(a.pool.State()), a.pool.State()))
              && (ok ==> a.AsClaim() == a.pool.claims[a] && a in old(a.pool.claims)
                         && old(a.AsClaim()) == old(a.pool.claims[a])
                         && Possible(Job(a, a.pool, cs[i].mapped, cs[i].entitlement), old(a.pool.State())))
  {
    hide Inv, Resized, Grown, SameAccounting, AllPossible, Separate;
    assert forall i | 0 <= i < |cs| :: OneOk(cs[i]);
    var jobs := seq(|cs|, i requires 0 <= i < |cs| && OneOk(cs[i]) reads Named(cs), Homes(cs) =>
                  Job(cs[i].allocation, cs[i].allocation.pool, cs[i].mapped, cs[i].entitlement));
    ghost var before := seq(|jobs|, i requires 0 <= i < |jobs| reads JobPools(jobs) => jobs[i].pool.State());
    JobsReady(cs, jobs, before);
    ok := ResizeValidated(jobs, hostOk, before);
  }

  lemma JobsReady(cs: seq<Resize>, jobs: seq<Job>, before: States)
    requires AllSound(cs) && ResizeOk(cs) && |jobs| == |cs| == |before|
    requires forall i | 0 <= i < |jobs| ::
               && OneOk(cs[i])
               && jobs[i] == Job(cs[i].allocation, cs[i].allocation.pool, cs[i].mapped, cs[i].entitlement)
               && before[i] == jobs[i].pool.State()
    ensures Separate(jobs) && AllPossible(jobs, before)
    ensures forall i | 0 <= i < |jobs| :: JobSound(jobs[i]) && jobs[i].a.AsClaim() == before[i].claims[jobs[i].a]
  {
    hide Inv;
  }
}
