/** Encoded sizes counted in bits (src/artifact/storage_layouts.cpp): every element takes the width its format's name
    spells, every group and row its scale, and nothing else is stored but the alignment gaps. */
module StorageWidths {
  import opened Arith
  import opened Results
  import opened Storage
  import opened RowSelection
  import opened JsonText
  import opened JsonReading
  import opened DigestText

  /** Bits of one element. */
  function Width(f: NumericFormat): (bits: nat)
    ensures 0 < bits
  {
    match f
    case BF16 => 16
    case FP32 => 32
    case I32 => 32
    case Q4G64_F16S => 4
    case Q5G64_F16S => 5
    case Q6G64_F16S => 6
    case W8G32_F16S => 8
    case NVFP4 => 4
    case FP8_E4M3FN_ROW_BF16S => 8
  }

  /** Elements that share a scale, in a grouped format. */
  function Group(f: NumericFormat): (g: Option<nat>)
    ensures g.Some? ==> g.value == 64 || g.value == 32
  {
    match f
    case Q4G64_F16S => Some(64)
    case Q5G64_F16S => Some(64)
    case Q6G64_F16S => Some(64)
    case W8G32_F16S => Some(32)
    case _ => None
  }

  predicate Word(f: NumericFormat) { f.BF16? || f.FP32? || f.I32? }

  /** The name of a format spells its width, and that of a grouped format its group. */
  lemma NameSpellsWidth(f: NumericFormat)
    ensures Group(f).Some? ==>
              FormatName(f)
              == (if Width(f) == 8 then "W" else "Q") + Digits(Width(f)) + "G" + Digits(Group(f).value) + "_F16S"
    ensures f.BF16? ==> FormatName(f) == "BF" + Digits(Width(f))
    ensures f.FP32? ==> FormatName(f) == "FP" + Digits(Width(f))
    ensures f.I32? ==> FormatName(f) == "I" + Digits(Width(f))
    ensures f.NVFP4? ==> FormatName(f) == "NVFP" + Digits(Width(f))
    ensures f.FP8_E4M3FN_ROW_BF16S? ==> FormatName(f) == "FP" + Digits(Width(f)) + "_E4M3FN_ROW_BF16S"
  {
    hide Digits;
    if Group(f).Some? {
      GroupedName(f);
    } else {
      hide Digit;
      DigitsOfWidths();
    }
  }

  lemma DigitsOfWidths()
    ensures Digits(4) == "4" && Digits(8) == "8" && Digits(16) == "16" && Digits(32) == "32" && Digits(64) == "64"
  {
    hide Digits;
    OneDigit(4);
    OneDigit(8);
    TwoDigits(1, 6);
    TwoDigits(3, 2);
    TwoDigits(6, 4);
  }

  lemma GroupedName(f: NumericFormat)
    requires Group(f).Some?
    ensures FormatName(f)
            == (if Width(f) == 8 then "W" else "Q") + Digits(Width(f)) + "G" + Digits(Group(f).value) + "_F16S"
  {
    hide Digits;
    OneDigit(Width(f));
    DigitsOfWidths();
  }

  lemma TwoDigits(a: nat, b: nat)
    requires 0 < a < 10 && b < 10
    ensures Digits(10 * a + b) == [Digit(a), Digit(b)]
  {
    assert (10 * a + b) / 10 == a && (10 * a + b) % 10 == b;
    assert Digits(a) == [Digit(a)];
  }

  /** The low plane holds four bits of an element, or all eight; the high plane holds the rest. */
  function LowWidth(f: NumericFormat): (bits: nat)
    ensures bits <= Width(f)
  {
    if Width(f) < 8 then Min(Width(f), 4) else Width(f)
  }

  /** The planes of a group hold its elements' bits exactly. */
  lemma GroupBits(f: NumericFormat)
    ensures QuantOf(f).Some? <==> Group(f).Some?
    ensures QuantOf(f).Some? ==>
              var q := QuantOf(f).value;
              && Some(q.groupSize) == Group(f) && 128 % q.groupSize == 0
              && q.lowBytes * 8 == q.groupSize * LowWidth(f)
              && q.highBytes * 8 == q.groupSize * (Width(f) - LowWidth(f))
              && (q.lowBytes + q.highBytes) * 8 == q.groupSize * Width(f)
  {}

  lemma WordBits(f: NumericFormat)
    ensures WordBytes(f).Some? <==> Word(f)
    ensures Word(f) ==> WordBytes(f).value * 8 == Width(f)
  {}

  /** Bytes of a plane that holds `bits` bits of each of `elements` elements. */
  function PlaneBytes(elements: nat, bits: nat): nat { Times(elements, bits) / 8 }

  function GroupCount(elements: nat, f: NumericFormat): nat
    requires Group(f).Some?
  {
    if Group(f) == Some(64) then elements / 64 else elements / 32
  }

  /** The encoded size as bits: planes of whole elements, each aligned before the next, and two bytes per group or
      row; a block scale is one byte for 16 elements, with a four-byte divisor at the end. */
  function BitSize(layout: StorageLayout, f: NumericFormat, shape: seq<nat>): Option<nat> {
    match layout
    case ContiguousLe =>
      if |shape| <= 16 && Positive(shape) && Word(f) then Fit(PlaneBytes(Elements(shape, |shape|), Width(f))) else None
    case RowSplitK128 =>
      if RankTwo(shape) && Group(f).Some? && AlignUp(shape[1], 128) <= U64_MAX then
        var elements := Times(shape[0], AlignUp(shape[1], 128));
        Fit(AlignUp(PlaneBytes(elements, LowWidth(f)), 256)
            + AlignUp(PlaneBytes(elements, Width(f) - LowWidth(f)), 256)
            + 2 * GroupCount(elements, f))
      else None
    case BlockScaleK16M128x4 =>
      if f.NVFP4? && RankTwo(shape) && shape[0] % 128 == 0 && shape[1] % 64 == 0
         && Times(shape[0], shape[1]) <= U64_MAX then
        Some(PlaneBytes(Times(shape[0], shape[1]), Width(f)) + Times(shape[0], shape[1]) / 16 + 4)
      else None
    case RowScale =>
      if f.FP8_E4M3FN_ROW_BF16S? && RankTwo(shape) then
        Fit(AlignUp(PlaneBytes(Times(shape[0], shape[1]), Width(f)), 256) + 2 * shape[0])
      else None
  }

  lemma WholeBytes(elements: nat, bytes: nat, bits: nat)
    requires bytes * 8 == bits
    ensures PlaneBytes(elements, bits) == Times(elements, bytes)
  {
    assert Times(elements, bits) == 8 * Times(elements, bytes);
  }

  /** A plane of groups is a plane of their elements. */
  lemma GroupPlane(groups: nat, group: nat, bytes: nat, bits: nat)
    requires bytes * 8 == Times(group, bits)
    ensures PlaneBytes(Times(groups, group), bits) == Times(groups, bytes)
  {
    var elements := Times(groups, group);
    assert Times(elements, bits) == 8 * Times(groups, bytes) by {
      assert (groups * group) * bits == groups * (group * bits);
      assert groups * (8 * bytes) == 8 * (groups * bytes);
    }
  }

  /** Padded rows are whole groups. */
  lemma WholeGroups(rows: nat, padded: nat, group: nat)
    requires (group == 64 || group == 32) && padded % 128 == 0
    ensures Times(rows, padded) == Times(Times(rows, padded / group), group)
    ensures Times(rows, padded) / group == Times(rows, padded / group)
  {
    var per := padded / group;
    assert padded == per * group;
    Associate(rows, per, group);
    DivModUnique(Times(rows, padded), group, Times(rows, per), 0);
  }

  lemma RowSplitBits(f: NumericFormat, shape: seq<nat>)
    requires RankTwo(shape) && Group(f).Some?
    ensures QuantOf(f).Some?
    ensures var elements := Times(shape[0], AlignUp(shape[1], 128));
            RowSplitExact(QuantOf(f).value, shape[0], shape[1]).encodedBytes
            == AlignUp(PlaneBytes(elements, LowWidth(f)), 256)
               + AlignUp(PlaneBytes(elements, Width(f) - LowWidth(f)), 256)
               + 2 * GroupCount(elements, f)
  {
    hide AlignUp, PlaneBytes, Times, QuantOf, Width, LowWidth;
    GroupBits(f);
    var q, padded := QuantOf(f).value, AlignUp(shape[1], 128);
    var groups := Times(shape[0], padded / q.groupSize);
    WholeGroups(shape[0], padded, q.groupSize);
    AsTimes(q.groupSize, LowWidth(f));
    AsTimes(q.groupSize, Width(f) - LowWidth(f));
    GroupPlane(groups, q.groupSize, q.lowBytes, LowWidth(f));
    GroupPlane(groups, q.groupSize, q.highBytes, Width(f) - LowWidth(f));
  }

  lemma AsTimes(a: nat, b: nat)
    ensures Times(a, b) == a * b
  {}

  /** For every layout, format and shape the encoded size is the size counted in bits. */
  lemma EncodedIsBits(layout: StorageLayout, f: NumericFormat, shape: seq<nat>)
    ensures EncodedSize(layout, f, shape) == BitSize(layout, f, shape)
  {
    hide AlignUp, PlaneBytes, RowSplitExact, QuantOf, WordBytes;
    match layout {
      case ContiguousLe =>
        WordBits(f);
        if |shape| <= 16 && Positive(shape) && Word(f) {
          WholeBytes(Elements(shape, |shape|), WordBytes(f).value, Width(f));
        }
      case RowSplitK128 =>
        GroupBits(f);
        if RankTwo(shape) && Group(f).Some? { RowSplitBits(f, shape); }
      case BlockScaleK16M128x4 =>
        if BlockShape(f, shape) {
          TileProduct(shape[0], shape[1]);
          HalfBytes(Times(shape[0], shape[1]));
        }
      case RowScale =>
        if RankTwo(shape) { WholeBytes(Times(shape[0], shape[1]), 1, 8); }
    }
  }

  lemma HalfBytes(elements: nat)
    ensures PlaneBytes(elements, 4) == elements / 2
  {}

  // ---------------------------------------------------------------------------------------------
  // Row planes
  // ---------------------------------------------------------------------------------------------

  /** The row planes of a matrix, counted in bits: a row holds the low and the high bits of its padded columns and
      two bytes per group, or its codes and their scales. */
  lemma RowPlanesAre(t: RowSelection.Tensor)
    requires Encoded(t) && |t.shape| == 2
    ensures var rows, columns := t.shape[0], t.shape[1];
            var padded := AlignUp(columns, 128);
            match t.layout
            case ContiguousLe => PlanesOf(t) == [RowPlane(0, PlaneBytes(columns, Width(t.format)))]
            case RowSplitK128 =>
              var low, high := LowWidth(t.format), Width(t.format) - LowWidth(t.format);
              var highAt := AlignUp(PlaneBytes(Times(rows, padded), low), 256);
              var scaleAt := highAt + AlignUp(PlaneBytes(Times(rows, padded), high), 256);
              && Group(t.format).Some?
              && PlanesOf(t) == [RowPlane(0, PlaneBytes(padded, low))]
                                + (if high == 0 then [] else [RowPlane(highAt, PlaneBytes(padded, high))])
                                + [RowPlane(scaleAt, 2 * GroupCount(padded, t.format))]
            case BlockScaleK16M128x4 =>
              PlanesOf(t) == [RowPlane(0, PlaneBytes(columns, 4)),
                              RowPlane(PlaneBytes(Times(rows, columns), 4), columns / 16)]
            case RowScale =>
              PlanesOf(t) == [RowPlane(0, PlaneBytes(columns, 8)),
                              RowPlane(AlignUp(PlaneBytes(Times(rows, columns), 8), 256), 2)]
    ensures TailOf(t) == if t.layout.BlockScaleK16M128x4? then [Range(t.bytes - 4, 4)] else []
  {
    hide AlignUp, PlaneBytes, QuantOf, WordBytes, LowWidth, RowSplitExact;
    MatrixShape(t);
    var rows, columns := t.shape[0], t.shape[1];
    match t.layout {
      case ContiguousLe =>
        WordBits(t.format);
        WholeBytes(columns, WordBytes(t.format).value, Width(t.format));
      case RowSplitK128 => SplitPlanesAre(t);
      case BlockScaleK16M128x4 =>
        TileProduct(rows, columns);
        HalfBytes(columns);
        HalfBytes(Times(rows, columns));
      case RowScale =>
        WholeBytes(columns, 1, 8);
        WholeBytes(Times(rows, columns), 1, 8);
    }
  }

  lemma SplitPlanesAre(t: RowSelection.Tensor)
    requires Encoded(t) && |t.shape| == 2 && t.layout.RowSplitK128?
    ensures var padded := AlignUp(t.shape[1], 128);
            var elements := Times(t.shape[0], padded);
            var low, high := LowWidth(t.format), Width(t.format) - LowWidth(t.format);
            var highAt := AlignUp(PlaneBytes(elements, low), 256);
            var scaleAt := highAt + AlignUp(PlaneBytes(elements, high), 256);
            && Group(t.format).Some?
            && PlanesOf(t) == [RowPlane(0, PlaneBytes(padded, low))]
                              + (if high == 0 then [] else [RowPlane(highAt, PlaneBytes(padded, high))])
                              + [RowPlane(scaleAt, 2 * GroupCount(padded, t.format))]
  {
    hide AlignUp, PlaneBytes, Times, QuantOf, Width, LowWidth;
    var f := t.format;
    GroupBits(f);
    var q, padded, low := QuantOf(f).value, AlignUp(t.shape[1], 128), LowWidth(f);
    var high, per := Width(f) - low, padded / q.groupSize;
    WholeGroups(t.shape[0], padded, q.groupSize);
    WholeRow(padded, q.groupSize);
    AsTimes(q.groupSize, low);
    AsTimes(q.groupSize, high);
    GroupPlane(Times(t.shape[0], per), q.groupSize, q.lowBytes, low);
    GroupPlane(Times(t.shape[0], per), q.groupSize, q.highBytes, high);
    GroupPlane(per, q.groupSize, q.lowBytes, low);
    GroupPlane(per, q.groupSize, q.highBytes, high);
    assert q.highBytes == 0 <==> high == 0;
  }

  lemma WholeRow(padded: nat, group: nat)
    requires (group == 64 || group == 32) && padded % 128 == 0
    ensures Times(padded / group, group) == padded
  {}
}
