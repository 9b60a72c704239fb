/** Encoded tensor sizes (src/artifact/storage_layouts.cpp): the checked u64 geometry of every storage
    layout, proved equal to the unbounded formula wherever it succeeds, and exactly when it succeeds.
    `None` stands for a thrown ArtifactError. */
module Storage {
  import opened Arith
  import opened Results

  const TENSOR_ALIGNMENT: nat := 256
  const K_ALIGNMENT: nat := 128

  datatype NumericFormat =
    | BF16 | FP32 | I32 | Q4G64_F16S | Q5G64_F16S | Q6G64_F16S | W8G32_F16S | NVFP4 | FP8_E4M3FN_ROW_BF16S

  datatype StorageLayout = ContiguousLe | RowSplitK128 | BlockScaleK16M128x4 | RowScale

  // ---------------------------------------------------------------------------------------------
  // Checked arithmetic
  // ---------------------------------------------------------------------------------------------

  function CheckedAdd(a: nat, b: nat): Option<nat> {
    if b > U64_MAX - a then None else Some(a + b)
  }

  function CheckedMul(a: nat, b: nat): Option<nat> {
    if a != 0 && b > U64_MAX / a then None else Some(a * b)
  }

  function CheckedAlign(value: nat, alignment: nat): Option<nat>
    requires 0 < alignment
  {
    match CheckedAdd(value, alignment - 1)
    case None => None
    case Some(biased) => Some(biased / alignment * alignment)
  }

  /** The value, if it fits a u64. */
  function Fit(v: nat): Option<nat> { if v <= U64_MAX then Some(v) else None }

  lemma AddExact(a: nat, b: nat)
    ensures CheckedAdd(a, b) == Fit(a + b)
  {}

  lemma MulExact(a: nat, b: nat)
    ensures CheckedMul(a, b) == Fit(a * b)
  {
    if a != 0 {
      var q := U64_MAX / a;
      assert U64_MAX == q * a + U64_MAX % a;
      if b <= q { MulMono(b, q, a); } else { MulMono(q + 1, b, a); }
    }
  }

  /** For an alignment that divides 2^64 the biased sum overflows exactly when the aligned value does. */
  lemma AlignExact(value: nat, alignment: nat)
    requires 0 < alignment && (U64_MAX + 1) % alignment == 0
    ensures CheckedAlign(value, alignment) == Fit(AlignUp(value, alignment))
  {
    if AlignUp(value, alignment) <= U64_MAX { MultiplesApart(AlignUp(value, alignment), U64_MAX + 1, alignment); }
  }

  // ---------------------------------------------------------------------------------------------
  // row-split-k128-v1
  // ---------------------------------------------------------------------------------------------

  datatype QuantGeometry = QuantGeometry(groupSize: nat, lowBytes: nat, highBytes: nat)

  function QuantOf(format: NumericFormat): Option<QuantGeometry> {
    match format
    case Q4G64_F16S => Some(QuantGeometry(64, 32, 0))
    case Q5G64_F16S => Some(QuantGeometry(64, 32, 8))
    case Q6G64_F16S => Some(QuantGeometry(64, 32, 16))
    case W8G32_F16S => Some(QuantGeometry(32, 32, 0))
    case _ => None
  }

  datatype RowSplit = RowSplit(rows: nat, columns: nat, paddedColumns: nat, groupSize: nat, groupsPerRow: nat,
                               lowBytesPerGroup: nat, highBytesPerGroup: nat, lowPlaneBytes: nat, highPlaneOffset: nat,
                               highPlaneBytes: nat, scalePlaneOffset: nat, scalePlaneBytes: nat, encodedBytes: nat)

  predicate RankTwo(shape: seq<nat>) { |shape| == 2 && shape[0] != 0 && shape[1] != 0 }

  /** row_split_geometry, step by checked step. */
  function RowSplitGeometry(format: NumericFormat, shape: seq<nat>): Option<RowSplit> {
    if !RankTwo(shape) then None
    else
      match QuantOf(format)
      case None => None
      case Some(q) =>
        var rows, columns := shape[0], shape[1];
        match CheckedAlign(columns, K_ALIGNMENT)
        case None => None
        case Some(padded) =>
          var perRow := padded / q.groupSize;
          match CheckedMul(rows, perRow)
          case None => None
          case Some(groups) => SplitPlanes(q, rows, columns, padded, groups)
  }

  /** The planes of `groups` groups. */
  function SplitPlanes(q: QuantGeometry, rows: nat, columns: nat, padded: nat, groups: nat): Option<RowSplit>
    requires 0 < q.groupSize
  {
    match (CheckedMul(groups, q.lowBytes), CheckedMul(groups, q.highBytes), CheckedMul(groups, 2))
    case (Some(low), Some(high), Some(scale)) =>
      (match (CheckedAlign(low, TENSOR_ALIGNMENT), CheckedAlign(high, TENSOR_ALIGNMENT))
       case (Some(highOffset), Some(alignedHigh)) =>
         (match CheckedAdd(highOffset, alignedHigh)
          case None => None
          case Some(scaleOffset) =>
            (match CheckedAdd(scaleOffset, scale)
             case None => None
             case Some(encoded) =>
               Some(RowSplit(rows, columns, padded, q.groupSize, padded / q.groupSize, q.lowBytes, q.highBytes, low,
                             highOffset, high, scaleOffset, scale, encoded))))
       case _ => None)
    case _ => None
  }

  /** The same geometry in unbounded arithmetic. */
  function RowSplitExact(q: QuantGeometry, rows: nat, columns: nat): RowSplit
    requires 0 < q.groupSize
  {
    var padded := AlignUp(columns, K_ALIGNMENT);
    ExactPlanes(q, rows, columns, padded, Times(rows, padded / q.groupSize))
  }

  function ExactPlanes(q: QuantGeometry, rows: nat, columns: nat, padded: nat, groups: nat): RowSplit
    requires 0 < q.groupSize
  {
    var low, high, scale := Times(groups, q.lowBytes), Times(groups, q.highBytes), groups * 2;
    var highOffset := AlignUp(low, TENSOR_ALIGNMENT);
    var scaleOffset := highOffset + AlignUp(high, TENSOR_ALIGNMENT);
    RowSplit(rows, columns, padded, q.groupSize, padded / q.groupSize, q.lowBytes, q.highBytes, low, highOffset, high,
      scaleOffset, scale, scaleOffset + scale)
  }

  /** No product or sum on the way to the encoded size can overflow on its own. */
  lemma PlanesExact(q: QuantGeometry, rows: nat, columns: nat, padded: nat, groups: nat)
    requires 0 < q.groupSize
    ensures groups <= ExactPlanes(q, rows, columns, padded, groups).encodedBytes
    ensures SplitPlanes(q, rows, columns, padded, groups)
            == if ExactPlanes(q, rows, columns, padded, groups).encodedBytes <= U64_MAX
               then Some(ExactPlanes(q, rows, columns, padded, groups)) else None
  {
    hide AlignUp, CheckedMul, CheckedAdd, CheckedAlign;
    MulExact(groups, q.lowBytes);
    MulExact(groups, q.highBytes);
    MulExact(groups, 2);
    var low, high := Times(groups, q.lowBytes), Times(groups, q.highBytes);
    AlignExact(low, TENSOR_ALIGNMENT);
    AlignExact(high, TENSOR_ALIGNMENT);
    AddExact(AlignUp(low, TENSOR_ALIGNMENT), AlignUp(high, TENSOR_ALIGNMENT));
    AddExact(AlignUp(low, TENSOR_ALIGNMENT) + AlignUp(high, TENSOR_ALIGNMENT), groups * 2);
  }

  /** The checked geometry is the exact one, and exists exactly when the padded row length and the encoded
      size fit: no intermediate product or sum can overflow on its own. */
  lemma RowSplitIsExact(format: NumericFormat, shape: seq<nat>)
    ensures RowSplitGeometry(format, shape)
            == if RankTwo(shape) && QuantOf(format).Some? && AlignUp(shape[1], K_ALIGNMENT) <= U64_MAX
                  && RowSplitExact(QuantOf(format).value, shape[0], shape[1]).encodedBytes <= U64_MAX
               then Some(RowSplitExact(QuantOf(format).value, shape[0], shape[1])) else None
  {
    hide AlignUp, CheckedMul, CheckedAlign, SplitPlanes, ExactPlanes;
    if RankTwo(shape) && QuantOf(format).Some? {
      var q, rows := QuantOf(format).value, shape[0];
      var padded := AlignUp(shape[1], K_ALIGNMENT);
      AlignExact(shape[1], K_ALIGNMENT);
      MulExact(rows, padded / q.groupSize);
      PlanesExact(q, rows, shape[1], padded, Times(rows, padded / q.groupSize));
    }
  }

  /** The padding bound does not follow from the size: this row length has no padded form in 64 bits although
      the encoded size would fit. */
  lemma PaddingCanOverflowAlone()
    ensures RowSplitGeometry(Q4G64_F16S, [1, U64_MAX]).None?
    ensures RowSplitExact(QuantOf(Q4G64_F16S).value, 1, U64_MAX).encodedBytes <= U64_MAX
  {
    RowSplitIsExact(Q4G64_F16S, [1, U64_MAX]);
    var padded := U64_MAX + 1;
    AlignUpLeast(U64_MAX, K_ALIGNMENT, padded);
    assert AlignUp(U64_MAX, K_ALIGNMENT) == padded;
    var groups := padded / 64;
    AlignUpFixed(groups * 32, TENSOR_ALIGNMENT);
    AlignUpFixed(0, TENSOR_ALIGNMENT);
  }

  // ---------------------------------------------------------------------------------------------
  // blockscale-k16-m128x4-v1
  // ---------------------------------------------------------------------------------------------

  datatype BlockScale = BlockScale(rows: nat, columns: nat, groupsPerRow: nat, kTiles: nat, codePlaneBytes: nat,
                                   scalePlaneOffset: nat, scalePlaneBytes: nat, divisorOffset: nat, encodedBytes: nat)

  predicate BlockShape(format: NumericFormat, shape: seq<nat>) {
    format.NVFP4? && RankTwo(shape) && shape[0] % 128 == 0 && shape[1] % 64 == 0
  }

  function BlockScaleGeometry(format: NumericFormat, shape: seq<nat>): Option<BlockScale> {
    if !format.NVFP4? then None
    else if !RankTwo(shape) then None
    else if shape[0] % 128 != 0 || shape[1] % 64 != 0 then None
    else
      match CheckedMul(shape[0], shape[1])
      case None => None
      case Some(elements) =>
        match CheckedAlign(elements / 2, TENSOR_ALIGNMENT)
        case None => None
        case Some(scaleOffset) =>
          match CheckedAdd(scaleOffset, elements / 16)
          case None => None
          case Some(divisor) =>
            match CheckedAdd(divisor, 4)
            case None => None
            case Some(encoded) =>
              Some(BlockScale(shape[0], shape[1], shape[1] / 16, shape[1] / 64, elements / 2, scaleOffset,
                elements / 16,
                              divisor, encoded))
  }

  /** The planes follow each other without a gap. */
  function BlockScaleExact(rows: nat, columns: nat): BlockScale {
    var elements := rows * columns;
    BlockScale(rows, columns, columns / 16, columns / 64, elements / 2, elements / 2, elements / 16,
      elements / 2 + elements / 16,
               elements / 2 + elements / 16 + 4)
  }

  /** Only the element count can overflow, and the alignment step never adds padding. */
  lemma BlockScaleIsExact(format: NumericFormat, shape: seq<nat>)
    ensures BlockScaleGeometry(format, shape)
            == if BlockShape(format, shape) && shape[0] * shape[1] <= U64_MAX
              then Some(BlockScaleExact(shape[0], shape[1])) else None
  {
    if BlockShape(format, shape) {
      MulExact(shape[0], shape[1]);
      TileProduct(shape[0], shape[1]);
      var elements := shape[0] * shape[1];
      AlignUpFixed(elements / 2, TENSOR_ALIGNMENT);
      AlignExact(elements / 2, TENSOR_ALIGNMENT);
    }
  }

  lemma TileProduct(rows: nat, columns: nat)
    requires rows % 128 == 0 && columns % 64 == 0
    ensures var e := rows * columns;
            && 0 <= e && e % 8192 == 0 && e / 2 % 256 == 0
            && e / 2 == rows * (columns / 2) && e / 16 == rows * (columns / 16)
  {
    var a, b := rows / 128, columns / 64;
    assert rows == 128 * a && columns == 64 * b && columns / 2 == 32 * b && columns / 16 == 4 * b;
    assert rows * columns == 8192 * (a * b) by { assert (128 * a) * (64 * b) == 8192 * (a * b); }
    assert rows * (columns / 2) == 4096 * (a * b) by { assert (128 * a) * (32 * b) == 4096 * (a * b); }
    assert rows * (columns / 16) == 512 * (a * b) by { assert (128 * a) * (4 * b) == 512 * (a * b); }
    MulNonNeg(a, b);
  }

  // ---------------------------------------------------------------------------------------------
  // row-scale-v1
  // ---------------------------------------------------------------------------------------------

  datatype RowScaleGeometry = RowScaleGeometry(rows: nat, columns: nat, codePlaneBytes: nat, scalePlaneOffset: nat,
                                               scalePlaneBytes: nat, encodedBytes: nat)

  function RowScaleOf(format: NumericFormat, shape: seq<nat>): Option<RowScaleGeometry> {
    if !format.FP8_E4M3FN_ROW_BF16S? then None
    else if !RankTwo(shape) then None
    else
      match CheckedMul(shape[0], shape[1])
      case None => None
      case Some(code) =>
        match CheckedAlign(code, TENSOR_ALIGNMENT)
        case None => None
        case Some(scaleOffset) =>
          match CheckedMul(shape[0], 2)
          case None => None
          case Some(scale) =>
            match CheckedAdd(scaleOffset, scale)
            case None => None
            case Some(encoded) => Some(RowScaleGeometry(shape[0], shape[1], code, scaleOffset, scale, encoded))
  }

  function RowScaleExact(rows: nat, columns: nat): RowScaleGeometry {
    var code := rows * columns;
    var scaleOffset := AlignUp(code, TENSOR_ALIGNMENT);
    RowScaleGeometry(rows, columns, code, scaleOffset, rows * 2, scaleOffset + rows * 2)
  }

  lemma RowScaleIsExact(format: NumericFormat, shape: seq<nat>)
    ensures RowScaleOf(format, shape)
            == if format.FP8_E4M3FN_ROW_BF16S? && RankTwo(shape)
              && RowScaleExact(shape[0], shape[1]).encodedBytes <= U64_MAX
               then Some(RowScaleExact(shape[0], shape[1])) else None
  {
    hide AlignUp;
    if format.FP8_E4M3FN_ROW_BF16S? && RankTwo(shape) {
      MulExact(shape[0], shape[1]);
      MulNonNeg(shape[0], shape[1]);
      AlignExact(shape[0] * shape[1], TENSOR_ALIGNMENT);
      MulExact(shape[0], 2);
    }
  }

  // ---------------------------------------------------------------------------------------------
  // tensor_encoded_size
  // ---------------------------------------------------------------------------------------------

  function WordBytes(format: NumericFormat): Option<nat> {
    match format
    case BF16 => Some(2)
    case FP32 => Some(4)
    case I32 => Some(4)
    case _ => None
  }

  /** The product of the first n dimensions. */
  function Elements(shape: seq<nat>, n: nat): nat
    requires n <= |shape|
  {
    if n == 0 then 1 else Elements(shape, n - 1) * shape[n - 1]
  }

  predicate Positive(shape: seq<nat>) { forall i | 0 <= i < |shape| :: shape[i] != 0 }

  lemma {:induction false} ElementsGrow(shape: seq<nat>, i: nat, j: nat)
    requires Positive(shape) && i <= j <= |shape|
    ensures 1 <= Elements(shape, i) <= Elements(shape, j)
    decreases j
  {
    if j > 0 {
      if i < j { ElementsGrow(shape, i, j - 1); } else { ElementsGrow(shape, i - 1, j - 1); }
      MulMono(1, shape[j - 1], Elements(shape, j - 1));
    }
  }

  /** The encoded size of a tensor in unbounded arithmetic, when layout, format and shape agree and every
      quantity the layout needs fits. */
  function EncodedSize(layout: StorageLayout, format: NumericFormat, shape: seq<nat>): Option<nat> {
    match layout
    case ContiguousLe =>
      if |shape| <= 16 && Positive(shape) && WordBytes(format).Some?
        then Fit(Elements(shape, |shape|) * WordBytes(format).value)
      else None
    case RowSplitK128 =>
      if RankTwo(shape) && QuantOf(format).Some? && AlignUp(shape[1], K_ALIGNMENT) <= U64_MAX
      then Fit(RowSplitExact(QuantOf(format).value, shape[0], shape[1]).encodedBytes) else None
    case BlockScaleK16M128x4 =>
      if BlockShape(format, shape) && shape[0] * shape[1] <= U64_MAX
      then Some(BlockScaleExact(shape[0], shape[1]).encodedBytes) else None
    case RowScale =>
      if format.FP8_E4M3FN_ROW_BF16S? && RankTwo(shape) then Fit(RowScaleExact(shape[0], shape[1]).encodedBytes)
        else None
  }

  method TensorEncodedSize(layout: StorageLayout, format: NumericFormat, shape: seq<nat>) returns (r: Option<nat>)
    ensures r == EncodedSize(layout, format, shape)
  {
    hide AlignUp, RowSplitExact, BlockScaleExact, RowScaleExact, RowSplitGeometry, BlockScaleGeometry, RowScaleOf;
    if layout.ContiguousLe? {
      if |shape| > 16 { return None; }
      var elements := 1;
      for i := 0 to |shape|
        invariant (forall j | 0 <= j < i :: shape[j] != 0) && elements == Elements(shape, i)
        invariant 1 <= elements
      {
        if shape[i] == 0 { return None; }
        MulExact(elements, shape[i]);
        MulMono(1, shape[i], elements);
        var next := CheckedMul(elements, shape[i]);
        if next.None? {
          if Positive(shape) {
            ElementsGrow(shape, i + 1, |shape|);
            if WordBytes(format).Some? { MulMono(1, WordBytes(format).value, Elements(shape, |shape|)); }
          }
          return None;
        }
        elements := next.value;
      }
      var word := WordBytes(format);
      if word.None? { return None; }
      MulExact(elements, word.value);
      return CheckedMul(elements, word.value);
    }
    if layout.RowSplitK128? {
      if |shape| != 2 || shape[0] == 0 || shape[1] == 0 { return None; }
      RowSplitIsExact(format, shape);
      var g := RowSplitGeometry(format, shape);
      return if g.Some? then Some(g.value.encodedBytes) else None;
    }
    if layout.BlockScaleK16M128x4? {
      BlockScaleIsExact(format, shape);
      var g := BlockScaleGeometry(format, shape);
      return if g.Some? then Some(g.value.encodedBytes) else None;
    }
    RowScaleIsExact(format, shape);
    var g := RowScaleOf(format, shape);
    return if g.Some? then Some(g.value.encodedBytes) else None;
  }
}
