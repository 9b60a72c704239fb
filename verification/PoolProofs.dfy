/** Every pool operation keeps the pool invariant, over whole runs, and what the invariant gives. */
module PoolProofs {
  import opened Arith
  import opened Results
  import opened Sorting
  import opened PoolLedger

  // ---------------------------------------------------------------------------------------------
  // The partition of the pages
  // ---------------------------------------------------------------------------------------------

  lemma {:induction false} IotaIsAll(n: nat)
    ensures multiset(seq(n, i => i)) == AllPages(n)
  {
    if n > 0 {
      assert seq(n, i => i) == seq(n - 1, i => i) + [n - 1];
      IotaIsAll(n - 1);
      assert multiset(seq(n - 1, i => i) + [n - 1]) == multiset(seq(n - 1, i => i)) + multiset{n - 1};
    }
  }

  lemma FreshInv<K>(spec: Spec)
    ensures Inv(spec, Fresh<K>(spec))
  {
    IotaIsAll(spec.pages);
    AllPagesCount(spec.pages, 0);
    var p := Fresh<K>(spec);
    assert Partitioned(spec, p.free, 0, 0, TallyOf(p.claims)) by {
      assert p.free == seq(spec.pages, i => i);
      assert multiset(p.free) + multiset{} == multiset(p.free);
    }
    FreshClaims<K>(spec);
  }

  lemma FreshClaims<K>(spec: Spec)
    ensures var p := Fresh<K>(spec); ClaimsOk(spec, p.rowInUse, p.table, p.claims)
  {
    var p := Fresh<K>(spec);
    assert TableShape(spec, p.rowInUse, p.table);
    assert forall r | 0 <= r < |p.rowInUse| :: !p.rowInUse[r];
  }

  ghost function Count(s: seq<nat>, x: nat): nat { multiset(s)[x] }

  /** A sorted list without repetitions is strictly sorted. */
  lemma SortedOnce(s: seq<nat>)
    requires SortedBy(s, Id) && forall x: nat :: Count(s, x) <= 1
    ensures StrictlySorted(s)
  {
    forall i, j | 0 <= i < j < |s| ensures s[i] < s[j] {
      assert Id(s[i]) <= Id(s[j]);
      assert Count(s, s[i]) <= 1;
      if s[i] == s[j] { CountTwice(s, s[i]); }
    }
  }

  /** Returning pages loses none and invents none. */
  lemma ReturnedAll(free: seq<nat>, pages: seq<nat>)
    ensures multiset(Returned(free, pages)) == multiset(free) + multiset(pages)
  {
    assert multiset(free + pages) == multiset(free) + multiset(pages);
  }

  /** Returning pages keeps the free list strictly sorted. */
  lemma ReturnedSorted(spec: Spec, free: seq<nat>, pages: seq<nat>, others: multiset<nat>)
    requires StrictlySorted(free)
    requires multiset(free) + (others + multiset(pages)) == AllPages(spec.pages)
    ensures StrictlySorted(Returned(free, pages))
    ensures multiset(Returned(free, pages)) + others == AllPages(spec.pages)
  {
    var r := Returned(free, pages);
    assert multiset(free + pages) == multiset(free) + multiset(pages);
    if pages == [] {
      assert free + pages == free;
    } else {
      SortSorts(free + pages, Id);
      forall x: nat ensures Count(r, x) <= 1 {
        AllPagesCount(spec.pages, x);
        assert AllPages(spec.pages)[x] == multiset(free)[x] + (others[x] + multiset(pages)[x]);
      }
      SortedOnce(r);
    }
    assert multiset(r) + others == multiset(free) + (others + multiset(pages));
  }

  /** What the partition says page by page: a page is free or in exactly one claim, once. */
  lemma PageOwner<K>(spec: Spec, p: Pool<K>, k: K, x: nat)
    requires Inv(spec, p) && k in p.claims && x in p.claims[k].pages
    ensures x < spec.pages && x !in p.free
    ensures multiset(p.claims[k].pages)[x] == 1
    ensures forall j | j in p.claims && j != k :: x !in p.claims[j].pages
  {
    TallyRemove(p.claims, k);
    AllPagesCount(spec.pages, x);
    var rest := p.claims - {k};
    var t := TallyOf(rest).pages;
    assert AllPages(spec.pages)[x] == multiset(p.free)[x] + (t[x] + multiset(p.claims[k].pages)[x]);
    assert x in multiset(p.claims[k].pages);
    forall j | j in p.claims && j != k ensures x !in p.claims[j].pages {
      TallyRemove(rest, j);
      assert t[x] == TallyOf(rest - {j}).pages[x] + multiset(rest[j].pages)[x];
      assert multiset(rest[j].pages)[x] == 0;
    }
    assert multiset(p.free)[x] == 0;
  }

  lemma {:induction false} TallyWitness<K>(claims: map<K, Claim>, x: nat)
    requires x in TallyOf(claims).pages
    ensures exists k :: k in claims && x in claims[k].pages
    decreases |claims|
  {
    var k := Pick(claims);
    TallyRemove(claims, k);
    if x in multiset(claims[k].pages) {
      assert x in claims[k].pages;
    } else {
      TallyWitness(claims - {k}, x);
      var j :| j in claims - {k} && x in (claims - {k})[j].pages;
      assert x in claims[j].pages;
    }
  }

  /** Every page below N is free or owned. */
  lemma PageSomewhere<K>(spec: Spec, p: Pool<K>, x: nat)
    requires Inv(spec, p) && x < spec.pages
    ensures x in p.free || exists k :: k in p.claims && x in p.claims[k].pages
  {
    AllPagesCount(spec.pages, x);
    assert (multiset(p.free) + TallyOf(p.claims).pages)[x] == 1;
    if x !in p.free {
      assert multiset(p.free)[x] == 0;
      assert x in TallyOf(p.claims).pages;
      TallyWitness(p.claims, x);
    }
  }

  // ---------------------------------------------------------------------------------------------
  // Changing the claims
  // ---------------------------------------------------------------------------------------------

  /** A claim changes without changing its row, and at most its own row of the table changes. */
  lemma ClaimsUpdate<K>(spec: Spec, rowInUse: seq<bool>, table: seq<seq<nat>>, table': seq<seq<nat>>,
                        claims: map<K, Claim>, k: K, c: Claim)
    requires ClaimsOk(spec, rowInUse, table, claims) && k in claims && c.row == claims[k].row
    requires ClaimOk(spec, c) && RowOk(rowInUse, table', c) && TableShape(spec, rowInUse, table')
    requires forall r | 0 <= r < |table| && r != c.row :: table'[r] == table[r]
    ensures ClaimsOk(spec, rowInUse, table', claims[k := c])
  {
    var claims' := claims[k := c];
    forall j | j in claims' ensures ClaimOk(spec, claims'[j]) && RowOk(rowInUse, table', claims'[j]) {
      if j != k { assert RowOk(rowInUse, table, claims[j]); }
    }
    forall r | 0 <= r < |rowInUse| && rowInUse[r] ensures RowTaken(claims', r) {
      assert RowTaken(claims, r);
      var j :| j in claims && claims[j].row == r;
      assert claims'[j].row == r;
    }
  }

  lemma ClaimsAdd<K>(spec: Spec, rowInUse: seq<bool>, table: seq<seq<nat>>, claims: map<K, Claim>, k: K, c: Claim)
    requires ClaimsOk(spec, rowInUse, table, claims) && k !in claims && ClaimOk(spec, c) && c.row == -1
    ensures ClaimsOk(spec, rowInUse, table, claims[k := c])
  {
    var claims' := claims[k := c];
    forall r | 0 <= r < |rowInUse| && rowInUse[r] ensures RowTaken(claims', r) {
      assert RowTaken(claims, r);
      var j :| j in claims && claims[j].row == r;
      assert claims'[j].row == r;
    }
  }

  lemma ClaimsDrop<K>(spec: Spec, rowInUse: seq<bool>, table: seq<seq<nat>>, claims: map<K, Claim>, k: K)
    requires ClaimsOk(spec, rowInUse, table, claims) && k in claims
    ensures ClaimsOk(spec, SetRow(rowInUse, claims[k].row, false), table, claims - {k})
  {
    var rows', claims' := SetRow(rowInUse, claims[k].row, false), claims - {k};
    forall j | j in claims' ensures ClaimOk(spec, claims'[j]) && RowOk(rows', table, claims'[j]) {
      assert RowOk(rowInUse, table, claims[j]);
    }
    forall r | 0 <= r < |rows'| && rows'[r] ensures RowTaken(claims', r) {
      assert RowTaken(claims, r);
      var j :| j in claims && claims[j].row == r;
      assert j in claims' && claims'[j].row == r;
    }
  }

  lemma ClaimsUnbind<K>(spec: Spec, rowInUse: seq<bool>, table: seq<seq<nat>>, claims: map<K, Claim>, k: K)
    requires ClaimsOk(spec, rowInUse, table, claims) && k in claims
    ensures ClaimsOk(spec, SetRow(rowInUse, claims[k].row, false), table, claims[k := claims[k].(row := -1)])
  {
    ClaimsDrop(spec, rowInUse, table, claims, k);
    ClaimsAdd(spec, SetRow(rowInUse, claims[k].row, false), table, claims - {k}, k, claims[k].(row := -1));
    assert claims[k := claims[k].(row := -1)] == (claims - {k})[k := claims[k].(row := -1)];
  }

  lemma ClaimsBind<K>(spec: Spec, rowInUse: seq<bool>, table: seq<seq<nat>>, claims: map<K, Claim>, k: K, row: nat)
    requires ClaimsOk(spec, rowInUse, table, claims) && k in claims && claims[k].row == -1
    requires row < spec.rows && !rowInUse[row]
    ensures ClaimsOk(spec, SetRow(rowInUse, row, true), Publish(table, row, 0, claims[k].pages),
                     claims[k := claims[k].(row := row)])
  {
    var rows', table' := SetRow(rowInUse, row, true), Publish(table, row, 0, claims[k].pages);
    var claims' := claims[k := claims[k].(row := row)];
    PublishPrefix(table, row, 0, claims[k].pages, []);
    forall j | j in claims' ensures ClaimOk(spec, claims'[j]) && RowOk(rows', table', claims'[j]) {
      assert RowOk(rowInUse, table, claims[j]);
    }
    forall r | 0 <= r < |rows'| && rows'[r] ensures RowTaken(claims', r) {
      if r == row {
        assert claims'[k].row == r;
      } else {
        assert RowTaken(claims, r);
        var j :| j in claims && claims[j].row == r;
        assert claims'[j].row == r;
      }
    }
  }

  /** Moving a claim to another holder keeps everything but the holder's name. */
  lemma ClaimsMove<K>(spec: Spec, rowInUse: seq<bool>, table: seq<seq<nat>>, claims: map<K, Claim>, k: K, target: K)
    requires ClaimsOk(spec, rowInUse, table, claims) && k in claims && target !in claims
    ensures ClaimsOk(spec, rowInUse, table, (claims - {k})[target := claims[k]])
  {
    var claims' := (claims - {k})[target := claims[k]];
    forall r | 0 <= r < |rowInUse| && rowInUse[r] ensures RowTaken(claims', r) {
      assert RowTaken(claims, r);
      var j :| j in claims && claims[j].row == r;
      if j == k { assert claims'[target].row == r; } else { assert claims'[j].row == r; }
    }
  }

  /** Publishing right after the pages already in the row extends the row's live prefix, and only
      entries of that row change. */
  lemma PublishPrefix(table: seq<seq<nat>>, row: nat, first: nat, ids: seq<nat>, pages: seq<nat>)
    requires row < |table| && first == |pages| && pages <= table[row] && first + |ids| <= |table[row]|
    ensures var table' := Publish(table, row, first, ids);
            && |table'| == |table| && pages + ids <= table'[row] && |table'[row]| == |table[row]|
            && (forall r | 0 <= r < |table| && r != row :: table'[r] == table[r])
            && table'[row][first + |ids|..] == table[row][first + |ids|..]
  {
    var row' := table[row][..first] + ids + table[row][first + |ids|..];
    assert table[row][..first] == pages;
    assert row'[..first + |ids|] == pages + ids;
  }

  // ---------------------------------------------------------------------------------------------
  // Each operation
  // ---------------------------------------------------------------------------------------------

  lemma ReserveKeeps<K>(spec: Spec, p: Pool<K>, k: K, n: nat)
    requires Inv(spec, p) && k !in p.claims && CanReserve(spec, p, n)
    ensures Inv(spec, WithReserved(p, k, n))
  {
    var c := Claim([], n, n, -1);
    TallyAdd(p.claims, k, c);
    assert TallyOf(p.claims).pages + multiset([]) == TallyOf(p.claims).pages;
    ClaimsAdd(spec, p.rowInUse, p.table, p.claims, k, c);
  }

  /** Changing an entitlement changes no page and the total by the difference. */
  lemma EntitlementTally<K>(claims: map<K, Claim>, k: K, c: Claim)
    requires k in claims && c.pages == claims[k].pages
    ensures TallyOf(claims[k := c]).pages == TallyOf(claims).pages
    ensures TallyOf(claims[k := c]).entitlement == TallyOf(claims).entitlement - claims[k].entitlement + c.entitlement
  {
    TallyRemove(claims, k);
    TallyReplace(claims, k, c);
  }

  lemma SetEntitlementKeeps<K>(spec: Spec, p: Pool<K>, k: K, n: nat)
    requires Inv(spec, p) && k in p.claims && |p.claims[k].pages| <= n
    requires CanReplace(spec, p, p.claims[k].entitlement, n)
    ensures Inv(spec, ApplySetEntitlement(spec, p, k, n, true).value)
  {
    var c := p.claims[k].(entitlement := n, capacity := Max(p.claims[k].capacity, n));
    EntitlementTally(p.claims, k, c);
    ClaimsUpdate(spec, p.rowInUse, p.table, p.table, p.claims, k, c);
  }

  lemma CancelKeeps<K>(spec: Spec, p: Pool<K>, k: K)
    requires Inv(spec, p)
    ensures Inv(spec, ApplyCancel(p, k).value)
  {
    hide AllPages, StrictlySorted, TallyOf, RowTaken;
    if k in p.claims {
      var c := p.claims[k].(entitlement := |p.claims[k].pages|);
      EntitlementTally(p.claims, k, c);
      ClaimsUpdate(spec, p.rowInUse, p.table, p.table, p.claims, k, c);
    }
  }

  /** Entitlement is a guarantee: what a claim may still map is always free. */
  lemma EntitlementIsFree<K>(spec: Spec, p: Pool<K>, k: K)
    requires Inv(spec, p) && k in p.claims
    ensures p.claims[k].entitlement - |p.claims[k].pages| <= |p.free|
    ensures |p.free| + p.mapped == spec.pages
  {
    AllPagesCount(spec.pages, 0);
    assert |multiset(p.free) + TallyOf(p.claims).pages| == spec.pages;
    assert |multiset(p.free)| == |p.free|;
    TallyRemove(p.claims, k);
    var rest := p.claims - {k};
    forall j | j in rest ensures |rest[j].pages| <= rest[j].entitlement {
      assert ClaimOk(spec, p.claims[j]);
    }
    TallyBound(rest);
    assert |multiset(p.claims[k].pages)| == |p.claims[k].pages|;
  }

  /** A slice taken out of a strictly sorted list leaves a strictly sorted list and no page lost. */
  lemma TakeSlice(free: seq<nat>, start: nat, count: nat)
    requires start + count <= |free| && StrictlySorted(free)
    ensures var rest := free[..start] + free[start + count..];
            StrictlySorted(rest) && multiset(rest) + multiset(free[start..start + count]) == multiset(free)
  {
    assert free == free[..start] + free[start..start + count] + free[start + count..];
  }

  lemma MapAtKeeps<K>(spec: Spec, p: Pool<K>, k: K, start: nat, count: nat)
    requires Inv(spec, p) && k in p.claims && start + count <= |p.free|
    requires |p.claims[k].pages| + count <= p.claims[k].entitlement
    ensures Inv(spec, MapAt(p, k, start, count))
  {
    MaterializePartition(spec, p, k, start, count);
    MaterializeClaims(spec, p, k, p.free[start..start + count]);
  }

  lemma MaterializeKeeps<K>(spec: Spec, p: Pool<K>, k: K, n: nat)
    requires Inv(spec, p) && ApplyMaterialize(p, k, n).Ok?
    ensures Inv(spec, ApplyMaterialize(p, k, n).value)
  {
    var count := n - |p.claims[k].pages|;
    if count > 0 {
      MapAtKeeps(spec, p, k, TakeStart(p.free, count, Preferred(p.claims[k].pages)), count);
    }
  }

  lemma MaterializePartition<K>(spec: Spec, p: Pool<K>, k: K, start: nat, count: nat)
    requires Inv(spec, p) && k in p.claims && start + count <= |p.free|
    ensures var taken := p.free[start..start + count];
            var c := p.claims[k].(pages := p.claims[k].pages + taken);
            Partitioned(spec, p.free[..start] + p.free[start + count..], p.entitled, p.mapped + count,
                        TallyOf(p.claims[k := c]))
  {
    hide TallyOf, ClaimOk, RowOk, StrictlySorted;
    var taken := p.free[start..start + count];
    var c := p.claims[k].(pages := p.claims[k].pages + taken);
    TakeSlice(p.free, start, count);
    TallyRemove(p.claims, k);
    TallyReplace(p.claims, k, c);
    assert multiset(c.pages) == multiset(p.claims[k].pages) + multiset(taken);
    var rest := p.free[..start] + p.free[start + count..];
    var t, t' := TallyOf(p.claims).pages, TallyOf(p.claims[k := c]).pages;
    assert t' == t + multiset(taken);
    assert multiset(rest) + t' == multiset(p.free) + t;
    assert |multiset(taken)| == count;
  }

  lemma MaterializeClaims<K>(spec: Spec, p: Pool<K>, k: K, taken: seq<nat>)
    requires Inv(spec, p) && k in p.claims && |p.claims[k].pages| + |taken| <= p.claims[k].entitlement
    ensures var c := p.claims[k];
            ClaimsOk(spec, p.rowInUse, Publish(p.table, c.row, |c.pages|, taken),
                     p.claims[k := c.(pages := c.pages + taken)])
  {
    var c := p.claims[k];
    assert ClaimOk(spec, c) && RowOk(p.rowInUse, p.table, c);
    if c.row >= 0 { PublishPrefix(p.table, c.row, |c.pages|, taken, c.pages); }
    ClaimsUpdate(spec, p.rowInUse, p.table, Publish(p.table, c.row, |c.pages|, taken), p.claims, k,
                 c.(pages := c.pages + taken));
  }

  lemma TrimKeeps<K>(spec: Spec, p: Pool<K>, k: K, n: nat)
    requires Inv(spec, p) && k in p.claims && n <= |p.claims[k].pages|
    ensures Inv(spec, ApplyTrim(p, k, n).value)
  {
    hide Partitioned, Returned, TallyOf, StrictlySorted;
    var c := p.claims[k];
    if n < |c.pages| {
      var c' := c.(pages := c.pages[..n]);
      TrimPartition(spec, p, k, n);
      assert ClaimOk(spec, c) && RowOk(p.rowInUse, p.table, c);
      ClaimsUpdate(spec, p.rowInUse, p.table, p.table, p.claims, k, c');
    }
  }

  lemma TrimPartition<K>(spec: Spec, p: Pool<K>, k: K, n: nat)
    requires Inv(spec, p) && k in p.claims && n <= |p.claims[k].pages|
    ensures var c := p.claims[k];
            Partitioned(spec, Returned(p.free, c.pages[n..]), p.entitled, p.mapped - (|c.pages| - n),
                        TallyOf(p.claims[k := c.(pages := c.pages[..n])]))
  {
    hide TallyOf, Returned, ClaimOk, RowOk;
    var c := p.claims[k];
    TallyRemove(p.claims, k);
    TallyReplace(p.claims, k, c.(pages := c.pages[..n]));
    assert c.pages == c.pages[..n] + c.pages[n..];
    var t, t' := TallyOf(p.claims).pages, TallyOf(p.claims[k := c.(pages := c.pages[..n])]).pages;
    assert t == t' + multiset(c.pages[n..]);
    ReturnedSorted(spec, p.free, c.pages[n..], t');
    assert |multiset(c.pages[n..])| == |c.pages| - n;
  }

  lemma BindKeeps<K>(spec: Spec, p: Pool<K>, k: K, row: int)
    requires Inv(spec, p) && ApplyBind(spec, p, k, row).Ok?
    ensures Inv(spec, ApplyBind(spec, p, k, row).value)
  {
    var c := p.claims[k];
    assert ClaimOk(spec, c);
    EntitlementTally(p.claims, k, c.(row := row));
    ClaimsBind(spec, p.rowInUse, p.table, p.claims, k, row);
  }

  lemma UnbindKeeps<K>(spec: Spec, p: Pool<K>, k: K)
    requires Inv(spec, p)
    ensures Inv(spec, ApplyUnbind(p, k))
  {
    if k in p.claims {
      EntitlementTally(p.claims, k, p.claims[k].(row := -1));
      ClaimsUnbind(spec, p.rowInUse, p.table, p.claims, k);
    }
  }

  lemma ReleaseKeeps<K>(spec: Spec, p: Pool<K>, k: K)
    requires Inv(spec, p)
    ensures Inv(spec, ApplyRelease(p, k)) && ApplyRelease(p, k).claims == p.claims - {k}
  {
    if k in p.claims {
      var c := p.claims[k];
      TallyRemove(p.claims, k);
      ReturnedSorted(spec, p.free, c.pages, TallyOf(p.claims - {k}).pages);
      assert |multiset(c.pages)| == |c.pages|;
      assert ClaimOk(spec, c);
      ClaimsDrop(spec, p.rowInUse, p.table, p.claims, k);
    } else {
      assert p.claims - {k} == p.claims;
    }
  }

  lemma MoveKeeps<K>(spec: Spec, p: Pool<K>, k: K, target: K)
    requires Inv(spec, p)
    ensures Inv(spec, ApplyMove(p, k, target))
  {
    if k != target {
      ReleaseKeeps(spec, p, target);
      var q := ApplyRelease(p, target);
      if k in q.claims {
        TallyRemove(q.claims, k);
        TallyAdd(q.claims - {k}, target, q.claims[k]);
        ClaimsMove(spec, q.rowInUse, q.table, q.claims, k, target);
      }
    }
  }

  lemma ApplyKeeps<K>(spec: Spec, p: Pool<K>, op: Op<K>)
    requires Inv(spec, p) && Apply(spec, p, op).Ok?
    ensures Inv(spec, Apply(spec, p, op).value)
  {
    hide Inv;
    match op
    case Reserve(k, n, _) => ReserveKeeps(spec, p, k, n);
    case SetEntitlement(k, n, _) => SetEntitlementKeeps(spec, p, k, n);
    case CancelUnmapped(k) => CancelKeeps(spec, p, k);
    case Materialize(k, n) => MaterializeKeeps(spec, p, k, n);
    case Trim(k, n) => TrimKeeps(spec, p, k, n);
    case Bind(k, row) => BindKeeps(spec, p, k, row);
    case Unbind(k) => UnbindKeeps(spec, p, k);
    case Release(k) => ReleaseKeeps(spec, p, k);
    case Move(k, target) => MoveKeeps(spec, p, k, target);
  }

  // ---------------------------------------------------------------------------------------------
  // Whole runs
  // ---------------------------------------------------------------------------------------------

  /** Any sequence of operations, failing ones included, leaves a pool that meets the invariant. */
  lemma {:induction false} EveryRunKeepsInv<K>(spec: Spec, ops: seq<Op<K>>)
    ensures Inv(spec, Run(spec, Fresh<K>(spec), ops))
  {
    if ops == [] {
      FreshInv<K>(spec);
    } else {
      var n := |ops| - 1;
      EveryRunKeepsInv(spec, ops[..n]);
      var q := Run(spec, Fresh<K>(spec), ops[..n]);
      if Apply(spec, q, ops[n]).Ok? { ApplyKeeps(spec, q, ops[n]); }
    }
  }

  /** After any run, materializing within the entitlement succeeds, never reports "could not be
      materialized", and grows the page list within the host capacity reserved for it. */
  lemma EntitlementIsAGuarantee<K>(spec: Spec, ops: seq<Op<K>>, k: K, n: nat)
    requires k in Run(spec, Fresh<K>(spec), ops).claims
    ensures var p := Run(spec, Fresh<K>(spec), ops);
            var r := ApplyMaterialize(p, k, n);
            && (r.Ok? <==> |p.claims[k].pages| <= n <= p.claims[k].entitlement)
            && (r.Err? ==> r.error == InvalidArgument)
            && (r.Ok? ==> k in r.value.claims && |r.value.claims[k].pages| == n <= p.claims[k].capacity)
  {
    var p := Run(spec, Fresh<K>(spec), ops);
    EveryRunKeepsInv(spec, ops);
    EntitlementIsFree(spec, p, k);
    assert ClaimOk(spec, p.claims[k]);
  }

  /** No host list outgrows what was reserved for it: pages handed back fit the free list's capacity of N, and
      an allocation's page list stays within its own reserved capacity. */
  lemma ReturnFits<K>(spec: Spec, p: Pool<K>, k: K)
    requires Inv(spec, p) && k in p.claims
    ensures |p.free| + |p.claims[k].pages| <= spec.pages
    ensures |p.claims[k].pages| <= p.claims[k].entitlement <= p.claims[k].capacity
  {
    assert ClaimOk(spec, p.claims[k]);
    EntitlementIsFree(spec, p, k);
    TallyRemove(p.claims, k);
    assert |multiset(p.claims[k].pages)| == |p.claims[k].pages|;
  }

  /** In every reachable state the live entries of two bound rows name different pages. */
  lemma RowsNeverShare<K>(spec: Spec, p: Pool<K>, j: K, k: K, a: nat, b: nat)
    requires Inv(spec, p) && j in p.claims && k in p.claims && j != k
    requires p.claims[j].row >= 0 && p.claims[k].row >= 0
    requires a < |p.claims[j].pages| && b < |p.claims[k].pages|
    ensures p.claims[j].row != p.claims[k].row
    ensures p.claims[j].row < |p.table| && a < |p.table[p.claims[j].row]|
    ensures p.claims[k].row < |p.table| && b < |p.table[p.claims[k].row]|
    ensures p.table[p.claims[j].row][a] != p.table[p.claims[k].row][b]
  {
    assert RowOk(p.rowInUse, p.table, p.claims[j]) && RowOk(p.rowInUse, p.table, p.claims[k]);
    PageOwner(spec, p, j, p.claims[j].pages[a]);
    assert p.claims[k].pages[b] in p.claims[k].pages;
  }

  // ---------------------------------------------------------------------------------------------
  // What take_pages picks
  // ---------------------------------------------------------------------------------------------

  lemma {:induction false} LowerBoundFinds(free: seq<nat>, from: nat, v: int, i: nat)
    requires StrictlySorted(free) && from <= i < |free| && free[i] == v
    ensures LowerBound(free, from, v) == i
    decreases i - from
  {
    if from < i { LowerBoundFinds(free, from + 1, v, i); }
  }

  lemma {:induction false} FirstRunIsFirst(free: seq<nat>, from: nat, count: nat, i: nat)
    requires from <= i < |free| && RunAt(free, i, count)
    ensures FirstRun(free, from, count) <= i
    decreases i - from
  {
    if from < i && !RunAt(free, from, count) { FirstRunIsFirst(free, from + 1, count, i); }
  }

  ghost predicate PreferredRun(free: seq<nat>, count: nat, preferred: int) {
    exists i :: 0 <= i < |free| && free[i] == preferred && RunAt(free, i, count)
  }

  ghost predicate SomeRun(free: seq<nat>, count: nat) {
    exists i :: 0 <= i < |free| && RunAt(free, i, count)
  }

  /** Exactly `taken` is gone from `rest`, which stays sorted. */
  ghost predicate SplitsInto(free: seq<nat>, taken: seq<nat>, rest: seq<nat>) {
    multiset(free) == multiset(taken) + multiset(rest) && StrictlySorted(rest) && forall x | x in taken :: x !in rest
  }

  lemma TakeSplits(free: seq<nat>, start: nat, count: nat)
    requires StrictlySorted(free) && start + count <= |free|
    ensures var taken, rest := free[start..start + count], free[..start] + free[start + count..];
            SplitsInto(free, taken, rest)
  {
    TakeSlice(free, start, count);
    TakenGone(free, start, count);
  }

  lemma TakenGone(free: seq<nat>, start: nat, count: nat)
    requires StrictlySorted(free) && start + count <= |free|
    ensures var taken, rest := free[start..start + count], free[..start] + free[start + count..];
            forall x | x in taken :: x !in rest
  {}

  /** take_pages returns consecutive ids whenever the free list has them: the preferred run if there
      is one, otherwise the lowest; failing that, the lowest ids. Exactly those ids leave the free list,
      which stays sorted. */
  lemma TakePicks(free: seq<nat>, count: nat, preferred: int)
    requires StrictlySorted(free) && 0 < count <= |free|
    ensures var start := TakeStart(free, count, preferred);
            && start + count <= |free|
            && (PreferredRun(free, count, preferred) ==> RunAt(free, start, count) && free[start] == preferred)
            && (!PreferredRun(free, count, preferred) && SomeRun(free, count) ==>
                  RunAt(free, start, count) && forall i | 0 <= i < |free| && RunAt(free, i, count) :: start <= i)
            && (!SomeRun(free, count) ==> start == 0)
    ensures var start := TakeStart(free, count, preferred);
            var taken, rest := free[start..start + count], free[..start] + free[start + count..];
            SplitsInto(free, taken, rest)
  {
    hide SplitsInto, StrictlySorted;
    var start := TakeStart(free, count, preferred);
    TakeSplits(free, start, count);
    if PreferredRun(free, count, preferred) {
      var i :| 0 <= i < |free| && free[i] == preferred && RunAt(free, i, count);
      LowerBoundFinds(free, 0, preferred, i);
    } else {
      forall i | 0 <= i < |free| && RunAt(free, i, count) ensures FirstRun(free, 0, count) <= i {
        FirstRunIsFirst(free, 0, count, i);
      }
    }
  }

  // ---------------------------------------------------------------------------------------------
  // The same choice, said without positions in the list
  // ---------------------------------------------------------------------------------------------

  /** The ids are first, first + 1, ... */
  predicate RunFrom(ids: seq<nat>, first: nat) { forall i | 0 <= i < |ids| :: ids[i] == first + i }

  /** The list holds first, first + 1, ..., first + count - 1. */
  predicate HasRun(free: seq<nat>, first: nat, count: nat) {
    forall x: nat | first <= x < first + count :: x in free
  }

  ghost predicate AnyRun(free: seq<nat>, count: nat) { exists first: nat :: HasRun(free, first, count) }

  /** The ids are the lowest run of their length in the list. */
  ghost predicate LowestRunIs(free: seq<nat>, taken: seq<nat>) {
    && taken != [] && RunFrom(taken, taken[0]) && HasRun(free, taken[0], |taken|)
    && forall first: nat | HasRun(free, first, |taken|) :: taken[0] <= first
  }

  /** The ids taken are the wanted run if the list has it, else its lowest run, else its lowest ids. */
  ghost predicate TakenRight(free: seq<nat>, wanted: Option<nat>, taken: seq<nat>) {
    || taken == []
    || if wanted.Some? && HasRun(free, wanted.value, |taken|) then RunFrom(taken, wanted.value)
       else if AnyRun(free, |taken|) then LowestRunIs(free, taken)
       else |taken| <= |free| && taken == free[..|taken|]
  }

  lemma RunAtHas(free: seq<nat>, i: nat, count: nat)
    requires 0 < count && i < |free| && RunAt(free, i, count)
    ensures HasRun(free, free[i], count)
    ensures RunFrom(free[i..i + count], free[i]) && |free[i..i + count]| == count
  {
    forall x: nat | free[i] <= x < free[i] + count ensures x in free { assert free[i + (x - free[i])] == x; }
  }

  /** In a strictly sorted list consecutive ids stand next to each other. */
  lemma {:induction false} HasRunAt(free: seq<nat>, first: nat, count: nat) returns (i: nat)
    requires StrictlySorted(free) && 0 < count && HasRun(free, first, count)
    ensures i < |free| && free[i] == first && RunAt(free, i, count)
    decreases count
  {
    if count == 1 {
      assert first in free;
      i :| 0 <= i < |free| && free[i] == first;
    } else {
      i := HasRunAt(free, first, count - 1);
      var last := first + (count - 1);
      assert last in free;
      var j :| 0 <= j < |free| && free[j] == last;
      NextStands(free, i, count - 1, j);
    }
  }

  lemma NextStands(free: seq<nat>, i: nat, n: nat, j: nat)
    requires StrictlySorted(free) && 0 < n && i < |free| && RunAt(free, i, n) && j < |free| && free[j] == free[i] + n
    ensures j == i + n && RunAt(free, i, n + 1)
  {
    assert free[i + n - 1] == free[i] + (n - 1);
    assert i + n < |free| ==> free[i + n - 1] < free[i + n];
  }

  /** materialize_pages asks for the page after its last one. */
  lemma TakenIsRight(free: seq<nat>, wanted: Option<nat>, count: nat)
    requires StrictlySorted(free) && 0 < count <= |free|
    ensures var start := TakeStart(free, count, if wanted.Some? then wanted.value else -1);
            start + count <= |free| && TakenRight(free, wanted, free[start..start + count])
  {
    hide HasRun, RunFrom, StrictlySorted, RunAt, TakeStart, SplitsInto;
    var preferred: int := if wanted.Some? then wanted.value else -1;
    var start := TakeStart(free, count, preferred);
    TakePicks(free, count, preferred);
    var taken := free[start..start + count];
    if wanted.Some? && HasRun(free, wanted.value, count) {
      var i := HasRunAt(free, wanted.value, count);
      assert PreferredRun(free, count, preferred);
      RunAtHas(free, start, count);
    } else if AnyRun(free, count) {
      var first: nat :| HasRun(free, first, count);
      var i := HasRunAt(free, first, count);
      assert SomeRun(free, count);
      NotPreferred(free, count, wanted);
      RunAtHas(free, start, count);
      forall other: nat | HasRun(free, other, count) ensures taken[0] <= other {
        var j := HasRunAt(free, other, count);
        Ascends(free, start, j);
      }
    } else {
      if SomeRun(free, count) {
        var i :| 0 <= i < |free| && RunAt(free, i, count);
        RunAtHas(free, i, count);
      }
    }
  }

  lemma NotPreferred(free: seq<nat>, count: nat, wanted: Option<nat>)
    requires 0 < count && !(wanted.Some? && HasRun(free, wanted.value, count))
    ensures !PreferredRun(free, count, if wanted.Some? then wanted.value else -1)
  {
    hide HasRun;
    var preferred: int := if wanted.Some? then wanted.value else -1;
    if PreferredRun(free, count, preferred) {
      var i :| 0 <= i < |free| && free[i] == preferred && RunAt(free, i, count);
      RunAtHas(free, i, count);
    }
  }

  lemma Ascends(free: seq<nat>, i: nat, j: nat)
    requires StrictlySorted(free) && i <= j < |free|
    ensures free[i] <= free[j]
  {}
}
