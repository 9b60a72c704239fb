/** The input of the content digest (src/artifact/reader.cpp): selected ranges merged into a canonical list
    that depends only on which bytes of which tensors are selected. */
module Identity {
  import opened Arith
  import opened Results
  import opened Sorting
  import opened Bytes
  import opened Storage
  import opened RowSelection
  import opened Directory

  // ---------------------------------------------------------------------------------------------
  // Canonical range lists
  // ---------------------------------------------------------------------------------------------

  /** Nonempty ranges in order with a gap between neighbours. */
  predicate Canonical(m: seq<Range>) {
    && (forall i | 0 <= i < |m| :: 0 < m[i].bytes)
    && forall i, j | 0 <= i < j < |m| :: m[i].End() < m[j].offset
  }

  ghost predicate SameBytes(a: seq<Range>, b: seq<Range>) { forall x: nat :: Covered(a, x) <==> Covered(b, x) }

  lemma FirstBytes(m: seq<Range>, x: nat)
    requires Canonical(m) && m != []
    ensures Covered(m, m[0].offset) && !Covered(m, m[0].End())
    ensures x < m[0].offset ==> !Covered(m, x)
    ensures m[0].Has(x) ==> Covered(m, x) && !Covered(m[1..], x)
    ensures !m[0].Has(x) ==> (Covered(m, x) <==> Covered(m[1..], x))
  {
    assert m[0].Has(m[0].offset);
    if Covered(m[1..], x) {
      var i :| 0 <= i < |m| - 1 && m[1..][i].Has(x);
      assert m[i + 1].Has(x);
    }
    if Covered(m, x) && !m[0].Has(x) {
      var i :| 0 <= i < |m| && m[i].Has(x);
      assert m[1..][i - 1].Has(x);
    }
  }

  /** A set of bytes has one canonical list. */
  lemma {:induction false} CanonicalUnique(a: seq<Range>, b: seq<Range>)
    requires Canonical(a) && Canonical(b) && SameBytes(a, b)
    ensures a == b
    decreases |a|
  {
    hide Canonical, Covered;
    if a == [] || b == [] {
      EmptyCovers(a, b);
    } else {
      FirstBytes(a, b[0].offset);
      FirstBytes(b, a[0].offset);
      assert Covered(a, a[0].offset) && Covered(b, b[0].offset);
      assert a[0].offset == b[0].offset;
      FirstBytes(a, b[0].End());
      FirstBytes(b, a[0].End());
      SameEnd(a, b);
      forall x: nat ensures Covered(a[1..], x) <==> Covered(b[1..], x) {
        FirstBytes(a, x);
        FirstBytes(b, x);
      }
      TailCanonical(a);
      TailCanonical(b);
      CanonicalUnique(a[1..], b[1..]);
      assert a == [a[0]] + a[1..] && b == [b[0]] + b[1..];
    }
  }

  lemma EmptyCovers(a: seq<Range>, b: seq<Range>)
    requires Canonical(a) && Canonical(b) && SameBytes(a, b) && (a == [] || b == [])
    ensures a == b
  {
    if a != [] { FirstBytes(a, 0); }
    if b != [] { FirstBytes(b, 0); }
  }

  lemma SameEnd(a: seq<Range>, b: seq<Range>)
    requires a != [] && b != [] && a[0].offset == b[0].offset && SameBytes(a, b) && Canonical(a) && Canonical(b)
    ensures a[0] == b[0]
  {
    hide Covered;
    FirstBytes(a, b[0].End());
    FirstBytes(b, a[0].End());
    assert Covered(a, a[0].End()) <==> Covered(b, a[0].End());
    assert Covered(a, b[0].End()) <==> Covered(b, b[0].End());
  }

  lemma TailCanonical(m: seq<Range>)
    requires Canonical(m) && m != []
    ensures Canonical(m[1..])
  {}

  function ByOffset(): Range -> int { (r: Range) => r.offset }

  /** Covered over one more range. */
  lemma CoveredSnoc(rs: seq<Range>, r: Range, x: nat)
    ensures Covered(rs + [r], x) <==> Covered(rs, x) || r.Has(x)
  {
    if Covered(rs, x) {
      var i :| 0 <= i < |rs| && rs[i].Has(x);
      assert (rs + [r])[i].Has(x);
    }
    if r.Has(x) { assert (rs + [r])[|rs|].Has(x); }
  }

  /** The merge loop: from any sorted order it gives the canonical list of the same bytes. */
  method Merge(ranges: seq<Range>) returns (merged: seq<Range>)
    requires SortedBy(ranges, ByOffset()) && forall i | 0 <= i < |ranges| :: 0 < ranges[i].bytes
    ensures Canonical(merged) && SameBytes(merged, ranges)
  {
    hide Covered;
    merged := [];
    Nothing();
    assert ranges[..0] == [];
    for k := 0 to |ranges|
      invariant Canonical(merged) && SameBytes(merged, ranges[..k])
      invariant merged != [] ==> k > 0 && merged[|merged| - 1].offset <= ranges[k - 1].offset
    {
      var range := ranges[k];
      if k > 0 { assert ByOffset()(ranges[k - 1]) <= ByOffset()(ranges[k]); }
      assert ranges[..k + 1] == ranges[..k] + [range];
      ghost var before := merged;
      if merged != [] && range.offset <= merged[|merged| - 1].End() {
        var last := |merged| - 1;
        var previous := merged[last];
        merged := merged[last := previous.(bytes := Max(previous.bytes, range.End() - previous.offset))];
        forall x: nat ensures Covered(merged, x) <==> Covered(ranges[..k + 1], x) {
          Absorb(before, range, merged[last], x);
          CoveredSnoc(ranges[..k], range, x);
        }
      } else {
        merged := merged + [range];
        forall x: nat ensures Covered(merged, x) <==> Covered(ranges[..k + 1], x) {
          CoveredSnoc(before, range, x);
          CoveredSnoc(ranges[..k], range, x);
        }
      }
    }
    assert ranges[..|ranges|] == ranges;
  }

  lemma Nothing()
    ensures SameBytes([], [])
  {}

  /** Growing the last range over a touching one covers exactly one more range. */
  lemma Absorb(m: seq<Range>, r: Range, grown: Range, x: nat)
    requires m != [] && m[|m| - 1].offset <= r.offset <= m[|m| - 1].End()
    requires grown == Range(m[|m| - 1].offset, Max(m[|m| - 1].bytes, r.End() - m[|m| - 1].offset))
    ensures Covered(m[|m| - 1 := grown], x) <==> Covered(m, x) || r.Has(x)
  {
    var last := |m| - 1;
    var after := m[last := grown];
    if Covered(m, x) {
      var i :| 0 <= i < |m| && m[i].Has(x);
      assert after[i].Has(x);
    }
    if r.Has(x) { assert after[last].Has(x); }
    if Covered(after, x) {
      var i :| 0 <= i < |m| && after[i].Has(x);
      if i < last { assert m[i].Has(x); } else if !r.Has(x) { assert m[last].Has(x); }
    }
  }

  // ---------------------------------------------------------------------------------------------
  // Selections
  // ---------------------------------------------------------------------------------------------

  /** A whole tensor, or `rows` rows from row `first`. */
  datatype Selection = Whole(name: string) | SomeRows(name: string, first: nat, rows: nat)

  /** The tensor a name stands for. */
  function TensorOf(r: Reader, name: string): Option<Tensor>
    requires ReaderOk(r)
  {
    match Find(r, name)
    case Some(o) => if o.TensorObject? then Some(o.tensor) else None
    case None => None
  }

  lemma TensorEncoded(r: Reader, name: string)
    requires ReaderOk(r) && TensorOf(r, name).Some?
    ensures Encoded(TensorOf(r, name).value) && Storage.Positive(TensorOf(r, name).value.shape)
            && 0 < TensorOf(r, name).value.bytes
  {
    hide Encoded;
  }

  predicate SelectionOk(r: Reader, s: Selection)
    requires ReaderOk(r)
  {
    TensorOf(r, s.name).Some? && (s.SomeRows? ==> RowsOk(TensorOf(r, s.name).value, s.first, s.rows))
  }

  /** Byte x of the tensor is named by the selection: by its rows, or as the tail every selection includes. */
  ghost predicate Selects(r: Reader, s: Selection, x: nat)
    requires ReaderOk(r) && SelectionOk(r, s)
  {
    var t := TensorOf(r, s.name).value;
    TensorEncoded(r, s.name);
    if s.Whole? then x < t.bytes
    else TailByte(t, x) || exists row: nat :: s.first <= row < s.first + s.rows && RowByte(t, row, x)
  }

  /** The ranges one selection contributes. */
  function RangesOf(r: Reader, s: Selection): Option<seq<Range>>
    requires ReaderOk(r)
  {
    match TensorOf(r, s.name)
    case None => None
    case Some(t) =>
      TensorEncoded(r, s.name);
      if s.Whole? then Some([Range(0, t.bytes)]) else SelectRows(t, s.first, s.rows)
  }

  lemma RangesMean(r: Reader, s: Selection)
    requires ReaderOk(r)
    ensures RangesOf(r, s).Some? <==> SelectionOk(r, s)
    ensures SelectionOk(r, s) ==>
              && (forall i | 0 <= i < |RangesOf(r, s).value| :: 0 < RangesOf(r, s).value[i].bytes)
              && forall x: nat :: Covered(RangesOf(r, s).value, x) <==> Selects(r, s, x)
  {
    hide Encoded, PlanesOf, TailOf, SelectRows, ReaderOk;
    if TensorOf(r, s.name).Some? {
      var t := TensorOf(r, s.name).value;
      TensorEncoded(r, s.name);
      if s.Whole? {
        forall x: nat ensures Covered([Range(0, t.bytes)], x) <==> x < t.bytes {
          if x < t.bytes { assert [Range(0, t.bytes)][0].Has(x); }
        }
      } else {
        SelectionIs(t, s.first, s.rows);
        if RowsOk(t, s.first, s.rows) {
          forall i | 0 <= i < |RangesOf(r, s).value| ensures 0 < RangesOf(r, s).value[i].bytes {
            SelectionInside(t, s.first, s.rows, i);
          }
          forall x: nat ensures Covered(RangesOf(r, s).value, x) <==> Selects(r, s, x) {
            SelectionMeaning(t, s.first, s.rows, x);
          }
        }
      }
    }
  }

  /** Byte x of tensor `name` is selected. */
  ghost predicate Selected(r: Reader, selections: seq<Selection>, name: string, x: nat)
    requires ReaderOk(r) && AllOk(r, selections)
  {
    exists i :: 0 <= i < |selections| && selections[i].name == name && Selects(r, selections[i], x)
  }

  predicate AllOk(r: Reader, selections: seq<Selection>)
    requires ReaderOk(r)
  {
    forall i | 0 <= i < |selections| :: SelectionOk(r, selections[i])
  }

  predicate Named(selections: seq<Selection>, name: string) {
    exists i :: 0 <= i < |selections| && selections[i].name == name
  }

  /** For every selected name the canonical list of its selected bytes. */
  ghost predicate IsIdentity(r: Reader, selections: seq<Selection>, canon: map<string, seq<Range>>)
    requires ReaderOk(r) && AllOk(r, selections)
  {
    && (forall n :: n in canon <==> Named(selections, n))
    && (forall n | n in canon :: Canonical(canon[n]))
    && forall n, x: nat | n in canon :: Covered(canon[n], x) <==> Selected(r, selections, n, x)
  }

  /** The ranges collected so far, before sorting. */
  ghost predicate Collected(r: Reader, selections: seq<Selection>, tensors: map<string, seq<Range>>)
    requires ReaderOk(r) && AllOk(r, selections)
  {
    && (forall n :: n in tensors <==> Named(selections, n))
    && (forall n, i | n in tensors && 0 <= i < |tensors[n]| :: 0 < tensors[n][i].bytes)
    && forall n, x: nat | n in tensors :: Covered(tensors[n], x) <==> Selected(r, selections, n, x)
  }

  lemma SelectedSnoc(r: Reader, selections: seq<Selection>, k: nat, name: string, x: nat)
    requires ReaderOk(r) && k < |selections| && AllOk(r, selections[..k]) && SelectionOk(r, selections[k])
    ensures AllOk(r, selections[..k + 1])
    ensures Selected(r, selections[..k + 1], name, x)
            <==> Selected(r, selections[..k], name, x) || (selections[k].name == name && Selects(r, selections[k], x))
    ensures Named(selections[..k + 1], name) <==> Named(selections[..k], name) || selections[k].name == name
  {
    hide Selects, SelectionOk, ReaderOk;
    var a, b := selections[..k], selections[..k + 1];
    forall i | 0 <= i < |b| ensures SelectionOk(r, b[i]) { if i < k { assert b[i] == a[i]; } }
    if Selected(r, a, name, x) {
      var i :| 0 <= i < |a| && a[i].name == name && Selects(r, a[i], x);
      assert b[i] == a[i];
    }
    if selections[k].name == name { assert b[k].name == name; }
    if selections[k].name == name && Selects(r, selections[k], x) { assert b[k].name == name && Selects(r, b[k], x); }
    if Selected(r, b, name, x) {
      var i :| 0 <= i < |b| && b[i].name == name && Selects(r, b[i], x);
      if i < k { assert a[i] == b[i]; }
    }
    if Named(a, name) {
      var i :| 0 <= i < |a| && a[i].name == name;
      assert b[i].name == name;
    }
    if Named(b, name) {
      var i :| 0 <= i < |b| && b[i].name == name;
      if i < k { assert a[i].name == name; }
    }
  }

  lemma CoveredJoin(a: seq<Range>, b: seq<Range>, x: nat)
    ensures Covered(a + b, x) <==> Covered(a, x) || Covered(b, x)
  {
    if Covered(a, x) {
      var i :| 0 <= i < |a| && a[i].Has(x);
      assert (a + b)[i].Has(x);
    }
    if Covered(b, x) {
      var i :| 0 <= i < |b| && b[i].Has(x);
      assert (a + b)[|a| + i].Has(x);
    }
  }

  lemma CollectNext(r: Reader, selections: seq<Selection>, k: nat, tensors: map<string, seq<Range>>,
      after: map<string, seq<Range>>)
    requires ReaderOk(r) && k < |selections| && AllOk(r, selections[..k]) && Collected(r, selections[..k], tensors)
    requires RangesOf(r, selections[k]).Some?
    requires var n := selections[k].name;
             after == tensors[n := (if n in tensors then tensors[n] else []) + RangesOf(r, selections[k]).value]
    ensures AllOk(r, selections[..k + 1]) && Collected(r, selections[..k + 1], after)
  {
    hide Selects, SelectionOk, ReaderOk, Selected, Named, Covered, RangesOf, AllOk;
    RangesMean(r, selections[k]);
    SelectedSnoc(r, selections, k, selections[k].name, 0);
    var s := selections[k];
    var kept := if s.name in tensors then tensors[s.name] else [];
    forall n ensures n in after <==> Named(selections[..k + 1], n) { SelectedSnoc(r, selections, k, n, 0); }
    forall n, x: nat | n in after ensures Covered(after[n], x) <==> Selected(r, selections[..k + 1], n, x) {
      SelectedSnoc(r, selections, k, n, x);
      if n == s.name {
        CoveredJoin(kept, RangesOf(r, s).value, x);
        if n !in tensors { NotNamed(r, selections[..k], n, x); }
      }
    }
  }

  lemma NotNamed(r: Reader, selections: seq<Selection>, n: string, x: nat)
    requires ReaderOk(r) && AllOk(r, selections) && !Named(selections, n)
    ensures !Selected(r, selections, n, x) && !Covered([], x)
  {}

  /** tensor_content_identity up to the digest: fails exactly on an invalid selection, and otherwise gives the
      canonical range list of the selected bytes of every selected tensor. */
  method ContentIdentity(r: Reader, selections: seq<Selection>) returns (canon: Option<map<string, seq<Range>>>)
    requires ReaderOk(r)
    ensures canon.Some? <==> AllOk(r, selections)
    ensures canon.Some? ==> IsIdentity(r, selections, canon.value)
  {
    hide ReaderOk, SelectionOk, Selects, RangesOf, Selected, Named, Covered;
    var tensors: map<string, seq<Range>> := map[];
    assert selections[..0] == [];
    CollectedNone(r);
    for k := 0 to |selections|
      invariant AllOk(r, selections[..k]) && Collected(r, selections[..k], tensors)
    {
      var s := selections[k];
      RangesMean(r, s);
      var ranges := RangesOf(r, s);
      if ranges.None? { return None; }
      ghost var before := tensors;
      tensors := tensors[s.name := (if s.name in tensors then tensors[s.name] else []) + ranges.value];
      CollectNext(r, selections, k, before, tensors);
    }
    assert selections[..|selections|] == selections;
    var merged := MergeAll(tensors);
    return Some(merged);
  }

  lemma CollectedNone(r: Reader)
    requires ReaderOk(r)
    ensures AllOk(r, []) && Collected(r, [], map[])
  {}

  /** Sorting and merging the ranges of every name; std::sort is modelled by one of its possible results. */
  method MergeAll(tensors: map<string, seq<Range>>) returns (canon: map<string, seq<Range>>)
    requires forall n, i | n in tensors && 0 <= i < |tensors[n]| :: 0 < tensors[n][i].bytes
    ensures canon.Keys == tensors.Keys
    ensures forall n | n in canon :: Canonical(canon[n]) && SameBytes(canon[n], tensors[n])
  {
    hide Covered, Canonical, SameBytes;
    canon := map[];
    var todo := tensors.Keys;
    while todo != {}
      invariant todo <= tensors.Keys && canon.Keys == tensors.Keys - todo
      invariant forall n | n in canon :: Canonical(canon[n]) && SameBytes(canon[n], tensors[n])
    {
      var n :| n in todo;
      var ranges := tensors[n];
      var sorted := Sort(ranges, ByOffset());
      SortSorts(ranges, ByOffset());
      SortedRanges(sorted, ranges);
      var merged := Merge(sorted);
      SameTrans(merged, sorted, ranges);
      canon := canon[n := merged];
      todo := todo - {n};
    }
  }

  lemma SortedRanges(sorted: seq<Range>, ranges: seq<Range>)
    requires multiset(sorted) == multiset(ranges) && forall i | 0 <= i < |ranges| :: 0 < ranges[i].bytes
    ensures (forall i | 0 <= i < |sorted| :: 0 < sorted[i].bytes) && SameBytes(sorted, ranges)
  {
    SameElements(sorted, ranges);
    forall i | 0 <= i < |sorted| ensures 0 < sorted[i].bytes { assert sorted[i] in ranges; }
    forall x: nat ensures Covered(sorted, x) <==> Covered(ranges, x) {
      if Covered(sorted, x) {
        var i :| 0 <= i < |sorted| && sorted[i].Has(x);
        assert sorted[i] in ranges;
        var j :| 0 <= j < |ranges| && ranges[j] == sorted[i];
        assert ranges[j].Has(x);
      }
      if Covered(ranges, x) {
        var i :| 0 <= i < |ranges| && ranges[i].Has(x);
        assert ranges[i] in sorted;
        var j :| 0 <= j < |sorted| && sorted[j] == ranges[i];
        assert sorted[j].Has(x);
      }
    }
  }

  lemma SameTrans(a: seq<Range>, b: seq<Range>, c: seq<Range>)
    requires SameBytes(a, b) && SameBytes(b, c)
    ensures SameBytes(a, c)
  {
    hide Covered;
  }

  // ---------------------------------------------------------------------------------------------
  // What the digest input depends on
  // ---------------------------------------------------------------------------------------------

  /** Whatever order std::sort leaves equal offsets in, and however the selections were permuted, duplicated,
      overlapped or split: the lists are equal exactly when the same bytes of the same tensors are selected. */
  lemma IdentityIsByteSet(r: Reader, a: seq<Selection>, b: seq<Selection>, ca: map<string, seq<Range>>,
      cb: map<string, seq<Range>>)
    requires ReaderOk(r) && AllOk(r, a) && AllOk(r, b) && IsIdentity(r, a, ca) && IsIdentity(r, b, cb)
    ensures ca == cb <==> (forall n :: Named(a, n) <==> Named(b, n)) && forall n, x: nat :: Selected(r, a, n, x) <==>
            Selected(r, b, n, x)
  {
    hide ReaderOk, AllOk, Selected, Named, Covered, Canonical;
    if (forall n :: Named(a, n) <==> Named(b, n)) && forall n, x: nat :: Selected(r, a, n, x) <==>
      Selected(r, b, n, x) {
      assert ca.Keys == cb.Keys;
      forall n | n in ca ensures ca[n] == cb[n] {
        assert SameBytes(ca[n], cb[n]);
        CanonicalUnique(ca[n], cb[n]);
      }
    }
    if ca == cb {
      forall n ensures Named(a, n) <==> Named(b, n) {}
      forall n, x: nat ensures Selected(r, a, n, x) <==> Selected(r, b, n, x) {
        if n !in ca {
          NotNamed(r, a, n, x);
          NotNamed(r, b, n, x);
        }
      }
    }
  }

  /** Any NVFP4 selections that together cover all 128-row tiles give the single whole-tensor range. */
  lemma TileCoverIsWhole(r: Reader, selections: seq<Selection>, canon: map<string, seq<Range>>, name: string)
    requires ReaderOk(r) && AllOk(r, selections) && IsIdentity(r, selections, canon) && Named(selections, name)
    requires TensorOf(r, name).Some? && TensorOf(r, name).value.layout.BlockScaleK16M128x4?
    requires var shape := TensorOf(r, name).value.shape;
             forall row: nat | shape != [] && row < shape[0] :: RowSelected(r, selections, name, row)
    ensures canon[name] == [Range(0, TensorOf(r, name).value.bytes)]
  {
    hide ReaderOk, AllOk, Selected, Named, Covered, Canonical, RowSelected, PlanesOf, Encoded;
    var t := TensorOf(r, name).value;
    TensorEncoded(r, name);
    BlockIsMatrix(t);
    var whole := [Range(0, t.bytes)];
    WholeCanonical(t.bytes);
    forall x: nat ensures Covered(canon[name], x) <==> Covered(whole, x) {
      TileByte(r, selections, name, x);
      WholeCovers(t.bytes, x);
    }
    CanonicalUnique(canon[name], whole);
  }

  /** This row of the tensor is selected, or the whole tensor is. */
  ghost predicate RowSelected(r: Reader, selections: seq<Selection>, name: string, row: nat) {
    exists i :: 0 <= i < |selections| && selections[i].name == name
                && (selections[i].Whole? || selections[i].first <= row < selections[i].first + selections[i].rows)
  }

  lemma BlockIsMatrix(t: Tensor)
    requires Encoded(t) && t.layout.BlockScaleK16M128x4?
    ensures |t.shape| == 2 && NoPadding(t) && 0 < t.bytes
  {}

  lemma WholeCanonical(bytes: nat)
    requires 0 < bytes
    ensures Canonical([Range(0, bytes)])
  {}

  lemma WholeCovers(bytes: nat, x: nat)
    ensures Covered([Range(0, bytes)], x) <==> x < bytes
  {
    if x < bytes { assert [Range(0, bytes)][0].Has(x); }
  }

  lemma TileByte(r: Reader, selections: seq<Selection>, name: string, x: nat)
    requires ReaderOk(r) && AllOk(r, selections) && Named(selections, name)
    requires TensorOf(r, name).Some? && Encoded(TensorOf(r, name).value) && |TensorOf(r, name).value.shape| == 2
    requires NoPadding(TensorOf(r, name).value)
    requires forall row: nat | row < TensorOf(r, name).value.shape[0] :: RowSelected(r, selections, name, row)
    ensures Selected(r, selections, name, x) <==> x < TensorOf(r, name).value.bytes
  {
    hide ReaderOk, PlanesOf, Encoded, NoPadding, TailOf;
    var t := TensorOf(r, name).value;
    if x < t.bytes {
      AllRowsIsWhole(t);
      SelectionMeaning(t, 0, t.shape[0], x);
      var i: int;
      if TailByte(t, x) {
        i :| 0 <= i < |selections| && selections[i].name == name;
      } else {
        var row: nat :| row < t.shape[0] && RowByte(t, row, x);
        assert RowSelected(r, selections, name, row);
        i :| 0 <= i < |selections| && selections[i].name == name
             && (selections[i].Whole? || selections[i].first <= row < selections[i].first + selections[i].rows);
      }
      assert selections[i].name == name && Selects(r, selections[i], x);
    } else {
      forall i | 0 <= i < |selections| && selections[i].name == name ensures !Selects(r, selections[i], x) {
        SelectsInside(r, selections[i], x);
      }
    }
  }

  /** A selection never names a byte outside the tensor. */
  lemma SelectsInside(r: Reader, s: Selection, x: nat)
    requires ReaderOk(r) && SelectionOk(r, s)
    ensures Selects(r, s, x) ==> x < TensorOf(r, s.name).value.bytes
  {
    hide ReaderOk, PlanesOf, Encoded, TailOf;
    var t := TensorOf(r, s.name).value;
    TensorEncoded(r, s.name);
    if s.SomeRows? && Selects(r, s, x) {
      TailAfterRows(t, x);
      if row: nat :| s.first <= row < s.first + s.rows && RowByte(t, row, x) { RowsDisjoint(t, row, row, x); }
    }
  }

  // ---------------------------------------------------------------------------------------------
  // Independence from placement and from unselected bytes
  // ---------------------------------------------------------------------------------------------

  /** What is hashed for one tensor: its description and its selected bytes. */
  datatype Record = Record(shape: seq<nat>, format: NumericFormat, layout: StorageLayout, ranges: seq<Range>,
    data: seq<seq<byte>>)

  /** The bytes of one tensor. */
  function DataOf(r: Reader, file: seq<byte>, name: string): (d: seq<byte>)
    requires ReaderOk(r) && |file| == r.fileBytes && TensorOf(r, name).Some?
    ensures |d| == TensorOf(r, name).value.bytes
  {
    var o := r.entries[r.index[name]];
    file[r.payloadStart + o.offset..r.payloadStart + o.offset + o.tensor.bytes]
  }

  predicate RangesInside(ranges: seq<Range>, bytes: nat) { forall i | 0 <= i < |ranges| :: ranges[i].End() <= bytes }

  /** Canonical ranges of selected bytes lie inside the tensor. */
  lemma CanonInside(r: Reader, selections: seq<Selection>, canon: map<string, seq<Range>>, n: string)
    requires ReaderOk(r) && AllOk(r, selections) && IsIdentity(r, selections, canon) && n in canon
    ensures TensorOf(r, n).Some? && RangesInside(canon[n], TensorOf(r, n).value.bytes)
  {
    hide ReaderOk, Selects, TensorOf;
    var k :| 0 <= k < |selections| && selections[k].name == n;
    assert SelectionOk(r, selections[k]);
    forall i | 0 <= i < |canon[n]| ensures canon[n][i].End() <= TensorOf(r, n).value.bytes {
      var x := canon[n][i].End() - 1;
      assert canon[n][i].Has(x);
      assert Covered(canon[n], x);
      var j :| 0 <= j < |selections| && selections[j].name == n && Selects(r, selections[j], x);
      SelectsInside(r, selections[j], x);
    }
  }

  /** The record hashed for one name. */
  function RecordOf(r: Reader, file: seq<byte>, n: string, ranges: seq<Range>): Record
    requires ReaderOk(r) && |file| == r.fileBytes && TensorOf(r, n).Some?
             && RangesInside(ranges, TensorOf(r, n).value.bytes)
  {
    var t, data := TensorOf(r, n).value, DataOf(r, file, n);
    Record(t.shape, t.format, t.layout, ranges,
      seq(|ranges|, i requires 0 <= i < |ranges| => data[ranges[i].offset..ranges[i].End()]))
  }
}
