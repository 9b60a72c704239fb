/** The paged KV pool as a value (src/core/paged_kv_cache.cpp): its free list, row table, counters and
    the claims of all live allocations, and what every public operation does to them. */
module PoolLedger {
  import opened Arith
  import opened Results
  import opened Sorting

  /** page_group_count, logical_page_capacity and table_rows. */
  datatype Spec = Spec(pages: nat, logicalPages: nat, rows: nat)

  /** One allocation: its physical pages in logical order, its entitlement, the host capacity reserved
      for its page list, and its block-table row (-1 when unbound). */
  datatype Claim = Claim(pages: seq<nat>, entitlement: nat, capacity: nat, row: int)

  datatype Pool<K> = Pool(
    free: seq<nat>, rowInUse: seq<bool>, table: seq<seq<nat>>, entitled: int, mapped: int,
    claims: map<K, Claim>)

  // ---------------------------------------------------------------------------------------------
  // Sums over the claims
  // ---------------------------------------------------------------------------------------------

  /** All pages and all entitlements of a set of claims. */
  datatype Tally = Tally(pages: multiset<nat>, entitlement: nat)

  ghost function TallyOf<K>(claims: map<K, Claim>): Tally {
    if claims == map[] then Tally(multiset{}, 0)
    else Plus(TallyOf(claims - {Pick(claims)}), claims[Pick(claims)])
  }

  ghost function Pick<K>(claims: map<K, Claim>): (k: K)
    requires claims != map[]
    ensures k in claims
  {
    var k :| k in claims; k
  }

  ghost function Plus(t: Tally, c: Claim): Tally {
    Tally(t.pages + multiset(c.pages), t.entitlement + c.entitlement)
  }

  lemma PlusCommutes(t: Tally, c: Claim, d: Claim)
    ensures Plus(Plus(t, c), d) == Plus(Plus(t, d), c)
  {
    assert t.pages + multiset(c.pages) + multiset(d.pages) == t.pages + multiset(d.pages) + multiset(c.pages);
  }

  /** The tally does not depend on the order in which the claims are visited. */
  lemma {:induction false} TallyRemove<K>(claims: map<K, Claim>, k: K)
    requires k in claims
    ensures TallyOf(claims) == Plus(TallyOf(claims - {k}), claims[k])
    decreases |claims|
  {
    var j := Pick(claims);
    if j != k {
      TallyRemove(claims - {j}, k);
      TallyRemove(claims - {k}, j);
      assert (claims - {j}) - {k} == (claims - {k}) - {j};
      PlusCommutes(TallyOf((claims - {j}) - {k}), claims[j], claims[k]);
    }
  }

  lemma TallyAdd<K>(claims: map<K, Claim>, k: K, c: Claim)
    requires k !in claims
    ensures TallyOf(claims[k := c]) == Plus(TallyOf(claims), c)
  {
    TallyRemove(claims[k := c], k);
    assert claims[k := c] - {k} == claims;
  }

  lemma TallyReplace<K>(claims: map<K, Claim>, k: K, c: Claim)
    requires k in claims
    ensures TallyOf(claims[k := c]) == Plus(TallyOf(claims - {k}), c)
  {
    TallyRemove(claims[k := c], k);
    assert claims[k := c] - {k} == claims - {k};
  }

  /** Mapped pages never exceed entitlements in total, if they do not claim by claim. */
  lemma {:induction false} TallyBound<K>(claims: map<K, Claim>)
    requires forall k | k in claims :: |claims[k].pages| <= claims[k].entitlement
    ensures |TallyOf(claims).pages| <= TallyOf(claims).entitlement
    decreases |claims|
  {
    if claims != map[] {
      var k :| k in claims;
      TallyRemove(claims, k);
      TallyBound(claims - {k});
    }
  }

  // ---------------------------------------------------------------------------------------------
  // The invariant
  // ---------------------------------------------------------------------------------------------

  /** Every page id below n, once. */
  ghost function AllPages(n: nat): multiset<nat> {
    if n == 0 then multiset{} else AllPages(n - 1) + multiset{n - 1}
  }

  lemma {:induction false} AllPagesCount(n: nat, p: nat)
    ensures AllPages(n)[p] == if p < n then 1 else 0
    ensures |AllPages(n)| == n
  {
    if n > 0 { AllPagesCount(n - 1, p); }
  }

  predicate StrictlySorted(s: seq<nat>) {
    forall i, j | 0 <= i < j < |s| :: s[i] < s[j]
  }

  // The larger predicates of this module are written as one equation, `true == (...)`, so that the
  // verifier passes them between lemmas whole.

  /** The free list and the claims partition the pages, and the counters are the claims' sums. */
  ghost predicate Partitioned(spec: Spec, free: seq<nat>, entitled: int, mapped: int, t: Tally) {
    true == (
      && multiset(free) + t.pages == AllPages(spec.pages)
      && StrictlySorted(free)
      && mapped == |t.pages| && entitled == t.entitlement && entitled <= spec.pages)
  }

  predicate ClaimOk(spec: Spec, c: Claim) {
    && |c.pages| <= c.entitlement <= spec.logicalPages
    && c.entitlement <= c.capacity
    && -1 <= c.row < spec.rows
  }

  /** A bound allocation's row is marked in use and begins with exactly its pages. */
  predicate RowOk(rowInUse: seq<bool>, table: seq<seq<nat>>, c: Claim) {
    c.row >= 0 ==> c.row < |rowInUse| && c.row < |table| && rowInUse[c.row] && c.pages <= table[c.row]
  }

  predicate TableShape(spec: Spec, rowInUse: seq<bool>, table: seq<seq<nat>>) {
    && |rowInUse| == |table| == spec.rows
    && forall r | 0 <= r < |table| :: |table[r]| == spec.logicalPages
  }

  ghost predicate RowTaken<K>(claims: map<K, Claim>, r: int) {
    exists k :: k in claims && claims[k].row == r
  }

  /** Claims are well formed, a row has at most one owner, and rows in use are exactly the owned. */
  ghost predicate ClaimsOk<K>(spec: Spec, rowInUse: seq<bool>, table: seq<seq<nat>>, claims: map<K, Claim>) {
    true == (
      && TableShape(spec, rowInUse, table)
      && (forall k | k in claims :: ClaimOk(spec, claims[k]) && RowOk(rowInUse, table, claims[k]))
      && (forall j, k | j in claims && k in claims && j != k && claims[j].row >= 0 :: claims[j].row != claims[k].row)
      && forall r | 0 <= r < |rowInUse| && rowInUse[r] :: RowTaken(claims, r))
  }

  ghost predicate Inv<K>(spec: Spec, p: Pool<K>) {
    true == (
      && Partitioned(spec, p.free, p.entitled, p.mapped, TallyOf(p.claims))
      && ClaimsOk(spec, p.rowInUse, p.table, p.claims))
  }

  function Fresh<K>(spec: Spec): Pool<K> {
    Pool(seq(spec.pages, i => i), seq(spec.rows, _ => false),
         seq(spec.rows, _ => seq(spec.logicalPages, _ => 0)), 0, 0, map[])
  }

  // ---------------------------------------------------------------------------------------------
  // take_pages and return_pages
  // ---------------------------------------------------------------------------------------------

  predicate RunAt(free: seq<nat>, begin: nat, count: nat) {
    begin + count <= |free| && forall i | begin <= i < begin + count :: free[i] == free[begin] + (i - begin)
  }

  /** The first run of `count` consecutive ids at or after index `from`, or |free|. */
  function FirstRun(free: seq<nat>, from: nat, count: nat): (i: nat)
    ensures i <= |free| && (i < |free| ==> from <= i && RunAt(free, i, count))
    decreases |free| - from
  {
    if from >= |free| then |free|
    else if RunAt(free, from, count) then from
    else FirstRun(free, from + 1, count)
  }

  /** std::lower_bound over the free list. */
  function LowerBound(free: seq<nat>, from: nat, v: int): (i: nat)
    decreases |free| - from
  {
    if from >= |free| then |free|
    else if free[from] >= v then from
    else LowerBound(free, from + 1, v)
  }

  /** Where take_pages takes from: a run starting at the preferred page, else the lowest run, else
      the lowest free ids. */
  function TakeStart(free: seq<nat>, count: nat, preferred: int): (start: nat)
    ensures count <= |free| ==> start + count <= |free|
  {
    var at := LowerBound(free, 0, preferred);
    if preferred >= 0 && at < |free| && free[at] == preferred && RunAt(free, at, count) then at
    else
      var run := FirstRun(free, 0, count);
      if run < |free| then run else 0
  }

  function Id(x: nat): int { x }

  function Returned(free: seq<nat>, pages: seq<nat>): seq<nat> {
    if pages == [] then free else Sort(free + pages, Id)
  }

  // ---------------------------------------------------------------------------------------------
  // The operations
  // ---------------------------------------------------------------------------------------------

  predicate CanReserve<K>(spec: Spec, p: Pool<K>, n: nat) {
    n != 0 && n <= spec.logicalPages && n <= spec.pages - p.entitled
  }

  predicate CanReplace<K>(spec: Spec, p: Pool<K>, previous: nat, n: nat) {
    previous <= p.entitled && n <= spec.logicalPages && n <= spec.pages - (p.entitled - previous)
  }

  /** Copies page ids into a row; the guard is the in-row condition the device copy relies on. */
  function Publish(table: seq<seq<nat>>, row: int, first: nat, ids: seq<nat>): seq<seq<nat>> {
    if 0 <= row < |table| && first + |ids| <= |table[row]| then
      table[row := table[row][..first] + ids + table[row][first + |ids|..]]
    else table
  }

  function SetRow(rowInUse: seq<bool>, row: int, used: bool): (r: seq<bool>)
    ensures |r| == |rowInUse|
  {
    if 0 <= row < |rowInUse| then rowInUse[row := used] else rowInUse
  }

  /** One operation; `hostOk` says whether a host allocation it needs succeeds. */
  datatype Op<K> =
    | Reserve(k: K, pages: nat, hostOk: bool)
    | SetEntitlement(k: K, pages: nat, hostOk: bool)
    | CancelUnmapped(k: K)
    | Materialize(k: K, pages: nat)
    | Trim(k: K, pages: nat)
    | Bind(k: K, row: int)
    | Unbind(k: K)
    | Release(k: K)
    | Move(k: K, target: K)

  function ApplyReserve<K>(spec: Spec, p: Pool<K>, k: K, n: nat, hostOk: bool): Result<Pool<K>, Error> {
    if !CanReserve(spec, p, n) || !hostOk then Err(BadAlloc) else Ok(WithReserved(p, k, n))
  }

  function WithReserved<K>(p: Pool<K>, k: K, n: nat): Pool<K> {
    p.(entitled := p.entitled + n, claims := p.claims[k := Claim([], n, n, -1)])
  }

  function ApplySetEntitlement<K>(spec: Spec, p: Pool<K>, k: K, n: nat, hostOk: bool): Result<Pool<K>, Error> {
    if k !in p.claims || n < |p.claims[k].pages| then Err(InvalidArgument)
    else
      var c := p.claims[k];
      if !CanReplace(spec, p, c.entitlement, n) || (n > c.capacity && !hostOk) then Err(BadAlloc)
      else
        Ok(p.(entitled := p.entitled - c.entitlement + n,
              claims := p.claims[k := c.(entitlement := n, capacity := Max(c.capacity, n))]))
  }

  function ApplyCancel<K>(p: Pool<K>, k: K): Result<Pool<K>, Error> {
    if k !in p.claims then Ok(p)
    else
      var c := p.claims[k];
      Ok(p.(entitled := p.entitled - c.entitlement + |c.pages|,
            claims := p.claims[k := c.(entitlement := |c.pages|)]))
  }

  /** The page that would continue the allocation's last physical run. */
  function Preferred(pages: seq<nat>): int {
    if pages == [] then -1 else pages[|pages| - 1] + 1
  }

  /** Moves `count` free pages from index `start` on to the end of k's page list. */
  function MapAt<K>(p: Pool<K>, k: K, start: nat, count: nat): Pool<K>
    requires k in p.claims && start + count <= |p.free|
  {
    var c, taken := p.claims[k], p.free[start..start + count];
    p.(free := p.free[..start] + p.free[start + count..], mapped := p.mapped + count,
       table := Publish(p.table, c.row, |c.pages|, taken),
       claims := p.claims[k := c.(pages := c.pages + taken)])
  }

  function ApplyMaterialize<K>(p: Pool<K>, k: K, n: nat): Result<Pool<K>, Error> {
    if k !in p.claims || n < |p.claims[k].pages| || n > p.claims[k].entitlement then Err(InvalidArgument)
    else
      var c := p.claims[k];
      var count := n - |c.pages|;
      if count == 0 then Ok(p)
      else if count > |p.free| then Err(LogicError)
      else
        Ok(MapAt(p, k, TakeStart(p.free, count, Preferred(c.pages)), count))
  }

  function ApplyTrim<K>(p: Pool<K>, k: K, n: nat): Result<Pool<K>, Error> {
    if k !in p.claims then Err(LogicError)
    else
      var c := p.claims[k];
      if n > |c.pages| then Err(InvalidArgument)
      else if n == |c.pages| then Ok(p)
      else
        Ok(p.(free := Returned(p.free, c.pages[n..]), mapped := p.mapped - (|c.pages| - n),
              claims := p.claims[k := c.(pages := c.pages[..n])]))
  }

  function ApplyBind<K>(spec: Spec, p: Pool<K>, k: K, row: int): Result<Pool<K>, Error> {
    if k !in p.claims || p.claims[k].row >= 0 then Err(LogicError)
    else if row < 0 || row >= spec.rows || row >= |p.rowInUse| then Err(OutOfRange)
    else if p.rowInUse[row] then Err(LogicError)
    else
      var c := p.claims[k];
      Ok(p.(rowInUse := SetRow(p.rowInUse, row, true), table := Publish(p.table, row, 0, c.pages),
            claims := p.claims[k := c.(row := row)]))
  }

  function ApplyUnbind<K>(p: Pool<K>, k: K): Pool<K> {
    if k !in p.claims || p.claims[k].row < 0 then p
    else
      p.(rowInUse := SetRow(p.rowInUse, p.claims[k].row, false),
         claims := p.claims[k := p.claims[k].(row := -1)])
  }

  function ApplyRelease<K>(p: Pool<K>, k: K): Pool<K> {
    if k !in p.claims then p
    else
      var c := p.claims[k];
      ApplyUnbind(p, k).(
        free := Returned(p.free, c.pages), mapped := p.mapped - |c.pages|,
        entitled := p.entitled - c.entitlement, claims := p.claims - {k})
  }

  /** Move assignment: the target gives up its own claim and takes over the source's. */
  function ApplyMove<K>(p: Pool<K>, k: K, target: K): Pool<K> {
    if k == target then p
    else
      var q := ApplyRelease(p, target);
      if k !in q.claims then q
      else q.(claims := (q.claims - {k})[target := q.claims[k]])
  }

  function Apply<K>(spec: Spec, p: Pool<K>, op: Op<K>): Result<Pool<K>, Error> {
    match op
    case Reserve(k, n, hostOk) => if k in p.claims then Err(LogicError) else ApplyReserve(spec, p, k, n, hostOk)
    case SetEntitlement(k, n, hostOk) => ApplySetEntitlement(spec, p, k, n, hostOk)
    case CancelUnmapped(k) => ApplyCancel(p, k)
    case Materialize(k, n) => ApplyMaterialize(p, k, n)
    case Trim(k, n) => ApplyTrim(p, k, n)
    case Bind(k, row) => ApplyBind(spec, p, k, row)
    case Unbind(k) => Ok(ApplyUnbind(p, k))
    case Release(k) => Ok(ApplyRelease(p, k))
    case Move(k, target) => Ok(ApplyMove(p, k, target))
  }

  /** A run of operations; an operation that throws leaves the pool as it was. */
  function Run<K>(spec: Spec, p: Pool<K>, ops: seq<Op<K>>): Pool<K> {
    if ops == [] then p
    else
      var q := Run(spec, p, ops[..|ops| - 1]);
      match Apply(spec, q, ops[|ops| - 1])
      case Ok(r) => r
      case Err(_) => q
  }
}
