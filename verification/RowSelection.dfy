/** Which bytes of an encoded tensor a row selection names (src/artifact/reader.cpp): the row planes of each
    storage layout and the ranges chosen from them. */
module RowSelection {
  import opened Arith
  import opened Results
  import opened Storage

  datatype Range = Range(offset: nat, bytes: nat) {
    function End(): nat { offset + bytes }

    predicate Has(x: nat) { offset <= x < offset + bytes }
  }

  predicate Covered(rs: seq<Range>, x: nat) { exists i :: 0 <= i < |rs| && rs[i].Has(x) }

  /** What the directory stores about a tensor. */
  datatype Tensor = Tensor(shape: seq<nat>, format: NumericFormat, layout: StorageLayout, bytes: nat)

  /** The stored size is the encoded size, as an accepted directory entry guarantees. */
  predicate Encoded(t: Tensor) { EncodedSize(t.layout, t.format, t.shape) == Some(t.bytes) }

  /** Rows of `stride` bytes one after the other from `offset`. */
  datatype RowPlane = RowPlane(offset: nat, stride: nat) {
    function RowStart(row: nat): nat { offset + Times(row, stride) }

    /** The rows first .. first + rows as one range. */
    function Rows(first: nat, rows: nat): Range { Range(RowStart(first), Times(rows, stride)) }
  }

  /** The row planes of a matrix. */
  function PlanesOf(t: Tensor): seq<RowPlane>
    requires Encoded(t) && |t.shape| == 2
  {
    match t.layout
    case ContiguousLe => [RowPlane(0, Times(t.shape[1], WordBytes(t.format).value))]
    case RowSplitK128 =>
      var g := RowSplitExact(QuantOf(t.format).value, t.shape[0], t.shape[1]);
      [RowPlane(0, Times(g.groupsPerRow, g.lowBytesPerGroup))]
      + (if g.highBytesPerGroup == 0 then []
        else [RowPlane(g.highPlaneOffset, Times(g.groupsPerRow, g.highBytesPerGroup))])
      + [RowPlane(g.scalePlaneOffset, g.groupsPerRow * 2)]
    case BlockScaleK16M128x4 =>
      [RowPlane(0, t.shape[1] / 2), RowPlane(BlockScaleExact(t.shape[0], t.shape[1]).scalePlaneOffset, t.shape[1] / 16)]
    case RowScale => [RowPlane(0, t.shape[1]), RowPlane(RowScaleExact(t.shape[0], t.shape[1]).scalePlaneOffset, 2)]
  }

  /** The part every selection of an NVFP4 tensor includes: its weight divisor. */
  function TailOf(t: Tensor): seq<Range>
    requires Encoded(t) && |t.shape| == 2
  {
    if t.layout.BlockScaleK16M128x4? then [Range(BlockScaleExact(t.shape[0], t.shape[1]).divisorOffset, 4)] else []
  }

  predicate RowsOk(t: Tensor, first: nat, rows: nat) {
    |t.shape| == 2 && 0 < rows && first + rows <= t.shape[0]
      && (t.layout.BlockScaleK16M128x4? ==> first % 128 == 0 && rows % 128 == 0)
  }

  /** The switch of tensor_content_identity, with the checked geometry functions. */
  function SelectRows(t: Tensor, first: nat, rows: nat): Option<seq<Range>>
    requires |t.shape| == 2 ==> t.shape[0] != 0
  {
    if |t.shape| != 2 || rows == 0 || first >= t.shape[0] || rows > t.shape[0] - first then None
    else
      match t.layout
      case ContiguousLe =>
        var stride := t.bytes / t.shape[0];
        Some([RowPlane(0, stride).Rows(first, rows)])
      case RowSplitK128 =>
        (match RowSplitGeometry(t.format, t.shape)
         case None => None
         case Some(g) =>
           var low, high, scale := Times(g.groupsPerRow, g.lowBytesPerGroup),
               Times(g.groupsPerRow, g.highBytesPerGroup), g.groupsPerRow * 2;
           Some([RowPlane(0, low).Rows(first, rows)]
                + (if high != 0 then [RowPlane(g.highPlaneOffset, high).Rows(first, rows)] else [])
                + [RowPlane(g.scalePlaneOffset, scale).Rows(first, rows)]))
      case BlockScaleK16M128x4 =>
        if first % 128 != 0 || rows % 128 != 0 then None
        else
          (match BlockScaleGeometry(t.format, t.shape)
           case None => None
           case Some(g) =>
             var columns := t.shape[1];
             Some([RowPlane(0, columns / 2).Rows(first, rows),
               RowPlane(g.scalePlaneOffset, columns / 16).Rows(first, rows),
                   Range(g.divisorOffset, 4)]))
      case RowScale =>
        (match RowScaleOf(t.format, t.shape)
         case None => None
         case Some(g) =>
           Some([RowPlane(0, t.shape[1]).Rows(first, rows), RowPlane(g.scalePlaneOffset, 2).Rows(first, rows)]))
  }

  function Chosen(planes: seq<RowPlane>, first: nat, rows: nat): (r: seq<Range>)
    ensures |r| == |planes| && forall i | 0 <= i < |planes| :: r[i] == planes[i].Rows(first, rows)
  {
    seq(|planes|, i requires 0 <= i < |planes| => planes[i].Rows(first, rows))
  }

  lemma MatrixShape(t: Tensor)
    requires Encoded(t) && |t.shape| == 2
    ensures t.shape[0] != 0 && t.shape[1] != 0
  {}

  /** The selected ranges are the same rows of every plane, plus the tail; a selection fails exactly when the
      rows are not valid for the layout. */
  lemma SelectionIs(t: Tensor, first: nat, rows: nat)
    requires Encoded(t) && (|t.shape| == 2 ==> t.shape[0] != 0)
    ensures SelectRows(t, first, rows)
            == if RowsOk(t, first, rows) then Some(Chosen(PlanesOf(t), first, rows) + TailOf(t)) else None
  {
    hide AlignUp, RowSplitGeometry, BlockScaleGeometry, RowScaleOf, RowSplitExact, BlockScaleExact, RowScaleExact;
    if RowsOk(t, first, rows) {
      MatrixShape(t);
      var r, want := SelectRows(t, first, rows), Chosen(PlanesOf(t), first, rows) + TailOf(t);
      match t.layout
      case ContiguousLe => ContiguousStride(t);
        assert r.value == want;
      case RowSplitK128 =>
        RowSplitIsExact(t.format, t.shape);
        RowSplitShape(t);
        assert r.value == want;
      case BlockScaleK16M128x4 =>
        BlockScaleIsExact(t.format, t.shape);
        assert r.value == want;
      case RowScale =>
        RowScaleIsExact(t.format, t.shape);
        assert r.value == want;
    }
  }

  lemma ContiguousStride(t: Tensor)
    requires Encoded(t) && |t.shape| == 2 && t.layout.ContiguousLe?
    ensures t.shape[0] != 0 && t.bytes / t.shape[0] == t.shape[1] * WordBytes(t.format).value
    ensures t.bytes == t.shape[0] * (t.shape[1] * WordBytes(t.format).value)
  {
    var a, b, w := t.shape[0], t.shape[1], WordBytes(t.format).value;
    assert Elements(t.shape, 1) == Elements(t.shape, 0) * a == a;
    assert Elements(t.shape, 2) == a * b;
    assert t.bytes == (a * b) * w == (b * w) * a + 0;
    DivModUnique(t.bytes, a, b * w, 0);
  }

  lemma RowSplitShape(t: Tensor)
    requires Encoded(t) && |t.shape| == 2 && t.layout.RowSplitK128?
    ensures var g := RowSplitExact(QuantOf(t.format).value, t.shape[0], t.shape[1]);
            && 0 < g.groupsPerRow && 0 < g.lowBytesPerGroup
            && (g.highBytesPerGroup != 0 <==> g.groupsPerRow * g.highBytesPerGroup != 0)
            && g.lowPlaneBytes == t.shape[0] * (g.groupsPerRow * g.lowBytesPerGroup)
            && g.highPlaneBytes == t.shape[0] * (g.groupsPerRow * g.highBytesPerGroup)
            && g.scalePlaneBytes == t.shape[0] * (g.groupsPerRow * 2)
            && g.highPlaneOffset == AlignUp(g.lowPlaneBytes, TENSOR_ALIGNMENT)
            && g.scalePlaneOffset == g.highPlaneOffset + AlignUp(g.highPlaneBytes, TENSOR_ALIGNMENT)
            && g.encodedBytes == g.scalePlaneOffset + g.scalePlaneBytes == t.bytes
  {
    hide AlignUp;
    var q := QuantOf(t.format).value;
    var g := RowSplitExact(q, t.shape[0], t.shape[1]);
    PaddedGroups(t.shape[1], q.groupSize);
    Associate(t.shape[0], g.groupsPerRow, q.lowBytes);
    Associate(t.shape[0], g.groupsPerRow, q.highBytes);
    Associate(t.shape[0], g.groupsPerRow, 2);
  }

  lemma Associate(a: nat, b: nat, c: nat)
    ensures a * b * c == a * (b * c)
  {}

  lemma PaddedGroups(columns: nat, groupSize: nat)
    requires 0 < columns && 0 < groupSize <= K_ALIGNMENT
    ensures 0 < AlignUp(columns, K_ALIGNMENT) / groupSize
  {
    MultiplesApart(0, AlignUp(columns, K_ALIGNMENT), K_ALIGNMENT);
  }

  // ---------------------------------------------------------------------------------------------
  // The planes of a matrix lie one after the other inside its encoding
  // ---------------------------------------------------------------------------------------------

  predicate PlanesOk(planes: seq<RowPlane>, rows: nat, end: nat) {
    && (forall i | 0 <= i < |planes| :: 0 < planes[i].stride && planes[i].RowStart(rows) <= end)
    && forall i, j | 0 <= i < j < |planes| :: planes[i].RowStart(rows) <= planes[j].offset
  }

  /** Where the row planes end and the tail, if any, begins. */
  function RowsEnd(t: Tensor): nat
    requires Encoded(t) && |t.shape| == 2
  {
    if t.layout.BlockScaleK16M128x4? then BlockScaleExact(t.shape[0], t.shape[1]).divisorOffset else t.bytes
  }

  lemma PlanesFit(t: Tensor)
    requires Encoded(t) && |t.shape| == 2
    ensures PlanesOk(PlanesOf(t), t.shape[0], RowsEnd(t)) && RowsEnd(t) + (if TailOf(t) == [] then 0 else 4) == t.bytes
  {
    hide AlignUp, RowSplitExact, RowScaleExact;
    MatrixShape(t);
    match t.layout
    case ContiguousLe => ContiguousStride(t);
    case RowSplitK128 => RowSplitShape(t);
    case BlockScaleK16M128x4 => TileProduct(t.shape[0], t.shape[1]);
    case RowScale => RowScaleShape(t);
  }

  lemma RowScaleShape(t: Tensor)
    requires Encoded(t) && |t.shape| == 2 && t.layout.RowScale?
    ensures var g := RowScaleExact(t.shape[0], t.shape[1]);
            && g.codePlaneBytes == t.shape[0] * t.shape[1] && g.scalePlaneBytes == t.shape[0] * 2
            && g.scalePlaneOffset == AlignUp(g.codePlaneBytes, TENSOR_ALIGNMENT)
              && g.scalePlaneOffset + g.scalePlaneBytes == t.bytes
  {
    hide AlignUp;
  }

  /** Byte x belongs to this row in plane i. */
  predicate InRow(p: RowPlane, row: nat, x: nat) { p.RowStart(row) <= x < p.RowStart(row) + p.stride }

  /** Byte x belongs to this row of the tensor. */
  predicate RowByte(t: Tensor, row: nat, x: nat)
    requires Encoded(t) && |t.shape| == 2
  {
    exists i :: 0 <= i < |PlanesOf(t)| && InRow(PlanesOf(t)[i], row, x)
  }

  predicate TailByte(t: Tensor, x: nat)
    requires Encoded(t) && |t.shape| == 2
  {
    Covered(TailOf(t), x)
  }

  lemma RowInPlane(p: RowPlane, row: nat, rows: nat)
    requires row < rows
    ensures p.RowStart(row) + p.stride == p.RowStart(row + 1) && p.offset <= p.RowStart(row)
            && p.RowStart(row + 1) <= p.RowStart(rows)
  {
    assert (row + 1) * p.stride == row * p.stride + p.stride;
    MulMono(row + 1, rows, p.stride);
    MulNonNeg(row, p.stride);
  }

  /** No byte belongs to two rows, or to a row and the tail; every row lies inside the encoding. */
  lemma RowsDisjoint(t: Tensor, a: nat, b: nat, x: nat)
    requires Encoded(t) && |t.shape| == 2 && a < t.shape[0] && b < t.shape[0] && RowByte(t, a, x)
    ensures a != b ==> !RowByte(t, b, x)
    ensures !TailByte(t, x) && x < t.bytes
  {
    hide PlanesOf, Encoded, RowPlane.RowStart;
    PlanesFit(t);
    var planes, n := PlanesOf(t), t.shape[0];
    var i :| 0 <= i < |planes| && InRow(planes[i], a, x);
    RowInPlane(planes[i], a, n);
    TailAfterRows(t, x);
    if a != b && RowByte(t, b, x) {
      var j :| 0 <= j < |planes| && InRow(planes[j], b, x);
      RowInPlane(planes[j], b, n);
      if i == j { RowOrder(planes[i], a, b); }
    }
  }

  lemma TailAfterRows(t: Tensor, x: nat)
    requires Encoded(t) && |t.shape| == 2
    ensures TailByte(t, x) ==> RowsEnd(t) <= x
    ensures TailByte(t, x) <==> RowsEnd(t) <= x < t.bytes
  {
    PlanesFit(t);
    if TailOf(t) != [] && RowsEnd(t) <= x < t.bytes { assert TailOf(t)[0].Has(x); }
  }

  lemma RowOrder(p: RowPlane, a: nat, b: nat)
    requires a != b
    ensures p.RowStart(a) + p.stride <= p.RowStart(b) || p.RowStart(b) + p.stride <= p.RowStart(a)
  {
    if a < b { RowInPlane(p, a, b); } else { RowInPlane(p, b, a); }
  }

  /** A selection names exactly the bytes of its rows and of the tail. */
  lemma SelectionMeaning(t: Tensor, first: nat, rows: nat, x: nat)
    requires Encoded(t) && |t.shape| == 2 && RowsOk(t, first, rows)
    ensures Covered(Chosen(PlanesOf(t), first, rows) + TailOf(t), x)
            <==> TailByte(t, x) || exists row: nat :: first <= row < first + rows && RowByte(t, row, x)
  {
    hide PlanesOf, TailOf, Encoded, RowPlane.RowStart;
    var planes, tail := PlanesOf(t), TailOf(t);
    var chosen := Chosen(planes, first, rows);
    var all := chosen + tail;
    if Covered(all, x) {
      var i :| 0 <= i < |all| && all[i].Has(x);
      if i < |planes| {
        assert planes[i].Rows(first, rows).Has(x);
        var row := RowHolding(planes[i], first, rows, x);
        assert RowByte(t, row, x);
      } else {
        assert tail[i - |planes|].Has(x);
      }
    }
    if TailByte(t, x) {
      var i :| 0 <= i < |tail| && tail[i].Has(x);
      assert all[|planes| + i].Has(x);
    }
    if row: nat :| first <= row < first + rows && RowByte(t, row, x) {
      var i :| 0 <= i < |planes| && InRow(planes[i], row, x);
      RowWithinRows(planes[i], first, rows, row, x);
      assert all[i].Has(x);
    }
  }

  lemma RowHolding(p: RowPlane, first: nat, rows: nat, x: nat) returns (row: nat)
    requires p.Rows(first, rows).Has(x)
    ensures first <= row < first + rows && InRow(p, row, x)
  {
    var y := x - p.RowStart(first);
    assert p.stride != 0 by { assert rows * 0 == 0; }
    var k := y / p.stride;
    assert y == k * p.stride + y % p.stride;
    if rows <= k { MulMono(rows, k, p.stride); }
    row := first + k;
    assert row * p.stride == first * p.stride + k * p.stride;
  }

  lemma RowWithinRows(p: RowPlane, first: nat, rows: nat, row: nat, x: nat)
    requires first <= row < first + rows && InRow(p, row, x)
    ensures p.Rows(first, rows).Has(x)
  {
    MulMono(first, row, p.stride);
    MulMono(row + 1, first + rows, p.stride);
    assert (row + 1) * p.stride == row * p.stride + p.stride
           && (first + rows) * p.stride == first * p.stride + rows * p.stride;
  }

  /** Every selected range is nonempty and inside the encoding, so none of the source's u64 products wraps. */
  lemma SelectionInside(t: Tensor, first: nat, rows: nat, i: nat)
    requires Encoded(t) && |t.shape| == 2 && RowsOk(t, first, rows)
             && i < |Chosen(PlanesOf(t), first, rows) + TailOf(t)|
    ensures var r := (Chosen(PlanesOf(t), first, rows) + TailOf(t))[i];
            0 < r.bytes && r.End() <= t.bytes <= U64_MAX
  {
    hide PlanesOf;
    PlanesFit(t);
    var planes := PlanesOf(t);
    if i < |planes| {
      var p := planes[i];
      MulMono(first + rows, t.shape[0], p.stride);
      assert (first + rows) * p.stride == first * p.stride + rows * p.stride;
      MulMono(1, rows, p.stride);
    }
  }

  // ---------------------------------------------------------------------------------------------
  // All rows and the whole tensor
  // ---------------------------------------------------------------------------------------------

  /** The encoding has no padding between its planes. */
  predicate NoPadding(t: Tensor)
    requires Encoded(t) && |t.shape| == 2
  {
    match t.layout
    case ContiguousLe => true
    case RowSplitK128 =>
      var g := RowSplitExact(QuantOf(t.format).value, t.shape[0], t.shape[1]);
      g.lowPlaneBytes % TENSOR_ALIGNMENT == 0 && g.highPlaneBytes % TENSOR_ALIGNMENT == 0
    case BlockScaleK16M128x4 => true
    case RowScale => RowScaleExact(t.shape[0], t.shape[1]).codePlaneBytes % TENSOR_ALIGNMENT == 0
  }

  /** The planes follow each other without a gap from 0 to `end`. */
  predicate Seamless(planes: seq<RowPlane>, rows: nat, end: nat) {
    && |planes| > 0 && planes[0].offset == 0 && planes[|planes| - 1].RowStart(rows) == end
    && forall i | 0 < i < |planes| :: planes[i].offset == planes[i - 1].RowStart(rows)
  }

  lemma SeamlessIff(t: Tensor)
    requires Encoded(t) && |t.shape| == 2
    ensures Seamless(PlanesOf(t), t.shape[0], RowsEnd(t)) <==> NoPadding(t)
  {
    hide AlignUp, RowSplitExact, RowScaleExact;
    match t.layout
    case ContiguousLe => ContiguousStride(t);
    case RowSplitK128 => RowSplitSeamless(t);
    case BlockScaleK16M128x4 => TileProduct(t.shape[0], t.shape[1]);
    case RowScale =>
      RowScaleShape(t);
      AlignedIff(RowScaleExact(t.shape[0], t.shape[1]).codePlaneBytes);
  }

  lemma RowSplitSeamless(t: Tensor)
    requires Encoded(t) && |t.shape| == 2 && t.layout.RowSplitK128?
    ensures Seamless(PlanesOf(t), t.shape[0], t.bytes) <==> NoPadding(t)
  {
    hide AlignUp, RowSplitExact;
    RowSplitShape(t);
    var g, n, planes := RowSplitExact(QuantOf(t.format).value, t.shape[0], t.shape[1]), t.shape[0], PlanesOf(t);
    AlignedIff(g.lowPlaneBytes);
    AlignedIff(g.highPlaneBytes);
    var low, scale := RowPlane(0, g.groupsPerRow * g.lowBytesPerGroup),
        RowPlane(g.scalePlaneOffset, g.groupsPerRow * 2);
    assert low.RowStart(n) == g.lowPlaneBytes && scale.RowStart(n) == t.bytes;
    if g.highBytesPerGroup == 0 {
      assert planes == [low, scale];
      AlignUpFixed(0, TENSOR_ALIGNMENT);
    } else {
      var high := RowPlane(g.highPlaneOffset, g.groupsPerRow * g.highBytesPerGroup);
      assert planes == [low, high, scale];
      assert high.RowStart(n) == g.highPlaneOffset + g.highPlaneBytes;
      assert planes[1] == high && planes[2] == scale;
    }
  }

  lemma AlignedIff(v: nat)
    ensures AlignUp(v, TENSOR_ALIGNMENT) == v <==> v % TENSOR_ALIGNMENT == 0
  {
    if v % TENSOR_ALIGNMENT == 0 { AlignUpFixed(v, TENSOR_ALIGNMENT); }
  }

  /** Selecting all rows names the whole tensor exactly when the encoding has no padding; an NVFP4 tensor
      never has any. */
  lemma AllRowsIsWhole(t: Tensor)
    requires Encoded(t) && |t.shape| == 2
    ensures RowsOk(t, 0, t.shape[0])
    ensures (forall x: nat | x < t.bytes :: Covered(Chosen(PlanesOf(t), 0, t.shape[0]) + TailOf(t), x)) <==>
            NoPadding(t)
  {
    hide PlanesOf, Encoded, TailOf, RowPlane.RowStart, NoPadding;
    MatrixRows(t);
    PlanesFit(t);
    SeamlessIff(t);
    PlanesNonEmpty(t);
    var planes, n, end := PlanesOf(t), t.shape[0], RowsEnd(t);
    var all := Chosen(planes, 0, n) + TailOf(t);
    if Seamless(planes, n, end) {
      forall x: nat | x < t.bytes ensures Covered(all, x) {
        if x < end {
          var i := FindPlane(planes, n, end, x, |planes|);
          WholePlane(planes[i], n, x);
          assert all[i].Has(x);
        } else {
          TailAfterRows(t, x);
          var k :| 0 <= k < |TailOf(t)| && TailOf(t)[k].Has(x);
          assert all[|planes| + k].Has(x);
        }
      }
    } else {
      var x := FindGap(planes, n, end);
      TailAfterRows(t, x);
      assert !TailByte(t, x);
      forall i | 0 <= i < |all| ensures !all[i].Has(x) {
        if i < |planes| { WholePlane(planes[i], n, x); } else { assert !TailOf(t)[i - |planes|].Has(x); }
      }
      assert x < t.bytes && !Covered(all, x);
    }
  }

  /** A tensor whose rows are not the whole of it: one row-scaled element, padded to the scale plane. */
  lemma PaddedExample() returns (t: Tensor, x: nat)
    ensures Encoded(t) && |t.shape| == 2 && x < t.bytes && RowsOk(t, 0, t.shape[0])
    ensures !NoPadding(t) && !Covered(Chosen(PlanesOf(t), 0, t.shape[0]) + TailOf(t), x)
  {
    hide AlignUp;
    t := Tensor([1, 1], FP8_E4M3FN_ROW_BF16S, RowScale, 258);
    AlignUpLeast(1, TENSOR_ALIGNMENT, TENSOR_ALIGNMENT);
    MultiplesApart(0, AlignUp(1, TENSOR_ALIGNMENT), TENSOR_ALIGNMENT);
    AllRowsIsWhole(t);
    x :| x < t.bytes && !Covered(Chosen(PlanesOf(t), 0, t.shape[0]) + TailOf(t), x);
  }

  lemma MatrixRows(t: Tensor)
    requires Encoded(t) && |t.shape| == 2
    ensures 0 < t.shape[0] && RowsOk(t, 0, t.shape[0])
  {}

  lemma PlanesNonEmpty(t: Tensor)
    requires Encoded(t) && |t.shape| == 2
    ensures |PlanesOf(t)| > 0
  {}

  lemma WholePlane(p: RowPlane, n: nat, x: nat)
    ensures p.Rows(0, n).Has(x) <==> p.offset <= x < p.RowStart(n)
  {}

  lemma FindPlane(planes: seq<RowPlane>, n: nat, end: nat, x: nat, k: nat) returns (i: nat)
    requires Seamless(planes, n, end) && 0 < k <= |planes| && x < planes[k - 1].RowStart(n)
    ensures i < k && planes[i].offset <= x < planes[i].RowStart(n)
    decreases k
  {
    if planes[k - 1].offset <= x { i := k - 1; } else { i := FindPlane(planes, n, end, x, k - 1); }
  }

  /** Planes in order that are not seamless leave a byte uncovered. */
  lemma FindGap(planes: seq<RowPlane>, n: nat, end: nat) returns (x: nat)
    requires 0 < n && |planes| > 0 && PlanesOk(planes, n, end) && !Seamless(planes, n, end)
    ensures x < end && forall i | 0 <= i < |planes| :: x < planes[i].offset || planes[i].RowStart(n) <= x
  {
    hide RowPlane.RowStart;
    forall i | 0 <= i < |planes| ensures planes[i].offset < planes[i].RowStart(n) { PlaneNonEmpty(planes[i], n); }
    if planes[0].offset != 0 {
      x := 0;
    } else if planes[|planes| - 1].RowStart(n) != end {
      x := planes[|planes| - 1].RowStart(n);
    } else {
      var i :| 0 < i < |planes| && planes[i].offset != planes[i - 1].RowStart(n);
      x := planes[i - 1].RowStart(n);
    }
  }

  lemma PlaneNonEmpty(p: RowPlane, n: nat)
    requires 0 < n && 0 < p.stride
    ensures p.offset < p.RowStart(n)
  {
    MulMono(1, n, p.stride);
  }
}
