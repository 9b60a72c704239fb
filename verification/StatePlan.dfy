/** Planning the linear-attention state (src/core/linear_attention_state.cpp): from any cursor the layers of
    each component end up a constant stride apart. */
module StatePlan {
  import opened Arith
  import opened Results
  import opened Dma
  import opened Tensors
  import opened Layout
  import opened TensorLayout

  const ARENA_ALIGN: u64 := 256

  datatype StateSpec = StateSpec(layers: nat, channels: int, width: int, heads: int, valueDim: int, keyDim: int,
                                 slots: int, convDtype: DType)

  predicate SpecOk(s: StateSpec) {
    && 0 < s.layers <= I32_MAX && 0 < s.channels && 0 < s.width && 0 < s.heads && 0 < s.valueDim && 0 < s.keyDim
    && 0 < s.slots && (s.convDtype == BF16 || s.convDtype == FP32)
  }

  function ConvShape(s: StateSpec): Quad { [s.channels, s.width, s.slots, 1] }

  function RecurrentShape(s: StateSpec): Quad { [s.keyDim, s.valueDim, s.heads, s.slots] }

  function ConvBytes(s: StateSpec): int { Stride(s.convDtype.Size(), ConvShape(s), 4) }

  function RecurrentBytes(s: StateSpec): int { Stride(FP32.Size(), RecurrentShape(s), 4) }

  /** The spec is in range and both tensors have strides. */
  predicate Shaped(s: StateSpec) {
    SpecOk(s) && Stride(s.convDtype.Size(), ConvShape(s), 3) <= I64_MAX
    && Stride(FP32.Size(), RecurrentShape(s), 3) <= I64_MAX
  }

  predicate ShapesExist(s: StateSpec) {
    SpecOk(s) && Exists(s.convDtype, ConvShape(s)) && Exists(FP32, RecurrentShape(s))
  }

  /** The distance between the same component of neighbouring layers. */
  function LayerStride(s: StateSpec): nat
    requires ShapesExist(s)
  {
    AlignUp(ConvBytes(s), ARENA_ALIGN) + AlignUp(RecurrentBytes(s), ARENA_ALIGN)
  }

  datatype StateLayout = StateLayout(spec: StateSpec, conv: seq<Region>, recurrent: seq<Region>)

  /** Layer l of both components, when layer 0 starts at `first`. */
  function ConvRegion(s: StateSpec, first: nat, l: nat): Region
    requires ShapesExist(s)
  {
    Region(At(first, LayerStride(s), l), ConvBytes(s), ARENA_ALIGN)
  }

  function RecurrentRegion(s: StateSpec, first: nat, l: nat): Region
    requires ShapesExist(s)
  {
    Region(At(first, LayerStride(s), l) + AlignUp(ConvBytes(s), ARENA_ALIGN), RecurrentBytes(s), ARENA_ALIGN)
  }

  /** Where the last region of a planned layout ends. */
  function LayoutEnd(s: StateSpec, first: nat): nat
    requires ShapesExist(s)
  {
    RecurrentRegion(s, first, s.layers - 1).End()
  }

  lemma EndIs(s: StateSpec, first: nat)
    requires ShapesExist(s)
    ensures LayoutEnd(s, first) == RecurrentRegion(s, first, s.layers - 1).End()
  {}

  lemma EndsBelow(s: StateSpec, first: nat, l: nat)
    requires ShapesExist(s) && l < s.layers
    ensures ConvRegion(s, first, l).End() <= RecurrentRegion(s, first, l).End() <= LayoutEnd(s, first)
  {
    hide AlignUp, Stride, Prod;
    MulMono(l, s.layers - 1, LayerStride(s));
  }

  /** The shape every planned layout has. */
  predicate Strided(layout: StateLayout, first: nat) {
    && ShapesExist(layout.spec) && first % ARENA_ALIGN == 0
    && |layout.conv| == layout.spec.layers && |layout.recurrent| == layout.spec.layers
    && (forall l | 0 <= l < |layout.conv| :: layout.conv[l] == ConvRegion(layout.spec, first, l))
    && forall l | 0 <= l < |layout.recurrent| :: layout.recurrent[l] == RecurrentRegion(layout.spec, first, l)
  }

  /** What a planned layout is: a convolution and a recurrent region per layer, in turn, each at the next aligned
      offset after the one before and of exactly its tensor's size. */
  lemma StridedMeans(layout: StateLayout, first: nat, l: nat)
    requires Strided(layout, first) && l < layout.spec.layers
    ensures layout.conv[0].offset == first
    ensures layout.recurrent[l].offset == AlignUp(layout.conv[l].End(), 256)
    ensures l + 1 < layout.spec.layers ==> layout.conv[l + 1].offset == AlignUp(layout.recurrent[l].End(), 256)
    ensures var s := layout.spec;
            && layout.conv[l].bytes == s.convDtype.Size() * (s.channels * s.width * s.slots)
            && layout.recurrent[l].bytes == 4 * (s.keyDim * s.valueDim * s.heads * s.slots)
            && layout.conv[l].alignment == layout.recurrent[l].alignment == 256
  {
    hide AlignUp, Stride;
    var s, at := layout.spec, At(first, LayerStride(layout.spec), l);
    StridedAligned(s, first, l);
    AlignUpShift(at, ConvBytes(s), ARENA_ALIGN);
    AlignUpShift(at + AlignUp(ConvBytes(s), ARENA_ALIGN), RecurrentBytes(s), ARENA_ALIGN);
    assert (l + 1) * LayerStride(s) == l * LayerStride(s) + LayerStride(s);
    BytesOfShapes(s);
  }

  lemma StridedAligned(s: StateSpec, first: nat, l: nat)
    requires ShapesExist(s) && first % ARENA_ALIGN == 0
    ensures At(first, LayerStride(s), l) % ARENA_ALIGN == 0
    ensures (At(first, LayerStride(s), l) + AlignUp(ConvBytes(s), ARENA_ALIGN)) % ARENA_ALIGN == 0
  {
    hide AlignUp, Stride;
    SumAligned(AlignUp(ConvBytes(s), ARENA_ALIGN), AlignUp(RecurrentBytes(s), ARENA_ALIGN), ARENA_ALIGN);
    MultipleAligned(l, LayerStride(s));
    SumAligned(first, l * LayerStride(s), ARENA_ALIGN);
    SumAligned(At(first, LayerStride(s), l), AlignUp(ConvBytes(s), ARENA_ALIGN), ARENA_ALIGN);
  }

  lemma BytesOfShapes(s: StateSpec)
    ensures ConvBytes(s) == s.convDtype.Size() * (s.channels * s.width * s.slots)
    ensures RecurrentBytes(s) == 4 * (s.keyDim * s.valueDim * s.heads * s.slots)
  {
    DenseCount(ConvShape(s));
    DenseCount(RecurrentShape(s));
  }

  /** The checks before planning, and the two shapes. */
  method CheckSpec(s: StateSpec) returns (r: Result<(Tensor, Tensor), Error>)
    ensures r.Ok? <==> Shaped(s)
    ensures r.Ok? ==> r.value.0.ne == [s.channels, s.width, s.slots, 1]
                      && r.value.1.ne == [s.keyDim, s.valueDim, s.heads, s.slots]
    ensures r.Ok? ==> r.value == (Dense(0, s.convDtype, ConvShape(s)), Dense(0, FP32, RecurrentShape(s)))
    ensures s.layers > I32_MAX ==> r == Err(Overflow)
    ensures r.Err? && SpecOk(s) ==> r.error == Overflow
    ensures s.layers <= I32_MAX && !SpecOk(s) ==> r == Err(InvalidArgument)
  {
    hide Stride, Prod;
    if s.layers == 0 { return Err(InvalidArgument); }
    if s.layers > I32_MAX { return Err(Overflow); }
    if s.channels <= 0 || s.width <= 0 || s.heads <= 0 || s.valueDim <= 0 || s.keyDim <= 0 || s.slots <= 0 {
      return Err(InvalidArgument);
    }
    if s.convDtype != BF16 && s.convDtype != FP32 { return Err(InvalidArgument); }
    var convShape, recurrentShape := [s.channels, s.width, s.slots], RecurrentShape(s);
    assert Padded(convShape) == ConvShape(s) && Padded(recurrentShape) == recurrentShape;
    var conv := MakeTensor(0, s.convDtype, convShape);
    if conv.Err? { return Err(conv.error); }
    var recurrent := MakeTensor(0, FP32, recurrentShape);
    if recurrent.Err? { return Err(recurrent.error); }
    return Ok((conv.value, recurrent.value));
  }

  lemma ArenaAligned()
    ensures PowerOfTwo(ARENA_ALIGN)
  {
    PowerProduct(16, 16);
  }

  /** Where the next two regions go when the cursor stands at the end of layer l - 1. */
  lemma NextLayer(s: StateSpec, first: nat, l: nat, cursor: nat)
    requires ShapesExist(s) && first % ARENA_ALIGN == 0
    requires if l == 0 then AlignUp(cursor, ARENA_ALIGN) == first else cursor == RecurrentRegion(s, first, l - 1).End()
    ensures AlignUp(cursor, ARENA_ALIGN) == ConvRegion(s, first, l).offset
    ensures AlignUp(ConvRegion(s, first, l).End(), ARENA_ALIGN) == RecurrentRegion(s, first, l).offset
    ensures ConvRegion(s, first, l).offset % ARENA_ALIGN == 0 && RecurrentRegion(s, first, l).offset % ARENA_ALIGN == 0
  {
    hide AlignUp, Stride, Prod;
    var a, b, d := AlignUp(ConvBytes(s), ARENA_ALIGN), AlignUp(RecurrentBytes(s), ARENA_ALIGN), LayerStride(s);
    SumAligned(a, b, ARENA_ALIGN);
    MultipleAligned(l, d);
    SumAligned(first, l * d, ARENA_ALIGN);
    SumAligned(At(first, d, l), a, ARENA_ALIGN);
    AlignUpShift(At(first, d, l), ConvBytes(s), ARENA_ALIGN);
    if l > 0 { AfterLayer(s, first, l - 1); }
  }

  /** Past layer l the next aligned offset is one stride on. */
  lemma AfterLayer(s: StateSpec, first: nat, l: nat)
    requires ShapesExist(s) && first % ARENA_ALIGN == 0
    ensures AlignUp(RecurrentRegion(s, first, l).End(), ARENA_ALIGN) == At(first, LayerStride(s), l + 1)
  {
    hide AlignUp, Stride, Prod;
    var a, b, d := AlignUp(ConvBytes(s), ARENA_ALIGN), AlignUp(RecurrentBytes(s), ARENA_ALIGN), LayerStride(s);
    SumAligned(a, b, ARENA_ALIGN);
    MultipleAligned(l, d);
    SumAligned(first, l * d, ARENA_ALIGN);
    SumAligned(At(first, d, l), a, ARENA_ALIGN);
    AlignUpShift(At(first, d, l) + a, RecurrentBytes(s), ARENA_ALIGN);
    assert (l + 1) * d == l * d + d;
  }

  /** A region of layer l does not fit only if the last one does not. */
  lemma LayerFits(s: StateSpec, first: nat, l: nat, cursor: nat)
    requires ShapesExist(s) && first % ARENA_ALIGN == 0 && l < s.layers
    requires if l == 0 then AlignUp(cursor, ARENA_ALIGN) == first else cursor == RecurrentRegion(s, first, l - 1).End()
    ensures Region(AlignUp(cursor, ARENA_ALIGN), ConvBytes(s), ARENA_ALIGN) == ConvRegion(s, first, l)
    ensures var end := ConvRegion(s, first, l).End();
            Region(AlignUp(end, ARENA_ALIGN), RecurrentBytes(s), ARENA_ALIGN) == RecurrentRegion(s, first, l)
    ensures LayoutEnd(s, first) <= U64_MAX ==>
              AddFits(cursor, ConvBytes(s), ARENA_ALIGN)
              && AddFits(ConvRegion(s, first, l).End(), RecurrentBytes(s), ARENA_ALIGN)
  {
    hide AlignUp, Stride, Prod, At;
    NextLayer(s, first, l, cursor);
    EndsBelow(s, first, l);
    ArenaAligned();
  }

  lemma MultipleAligned(l: nat, d: nat)
    requires d % ARENA_ALIGN == 0
    ensures (l * d) % ARENA_ALIGN == 0
  {
    var q := d / ARENA_ALIGN;
    assert l * d == (l * q) * ARENA_ALIGN;
    MulMod(l * q, ARENA_ALIGN);
  }

  /** The cursor stands where layer l begins. */
  predicate AtLayer(s: StateSpec, first: nat, l: nat, cursor: nat)
    requires ShapesExist(s)
  {
    && first % ARENA_ALIGN == 0
    && if l == 0 then AlignUp(cursor, ARENA_ALIGN) == first else cursor == RecurrentRegion(s, first, l - 1).End()
  }

  /** Layer 0's convolution region is added before anything else can fail. */
  predicate Advances(s: StateSpec, cursor: nat) {
    Exists(s.convDtype, ConvShape(s)) && AddFits(cursor, ConvBytes(s), ARENA_ALIGN)
  }

  /** The k-th region in the order they are added. */
  function NthRegion(s: StateSpec, first: nat, k: nat): Region
    requires ShapesExist(s)
  {
    if k % 2 == 0 then ConvRegion(s, first, k / 2) else RecurrentRegion(s, first, k / 2)
  }

  function FirstRegions(s: StateSpec, first: nat, m: nat): (r: seq<Region>)
    requires ShapesExist(s)
    ensures |r| == m && forall k | 0 <= k < m :: r[k] == NthRegion(s, first, k)
  {
    seq(m, k requires 0 <= k < m => NthRegion(s, first, k))
  }

  lemma LayerRegions(s: StateSpec, first: nat, l: nat)
    requires ShapesExist(s)
    ensures NthRegion(s, first, 2 * l) == ConvRegion(s, first, l)
    ensures NthRegion(s, first, 2 * l + 1) == RecurrentRegion(s, first, l)
    ensures FirstRegions(s, first, 2 * l + 1) == FirstRegions(s, first, 2 * l) + [ConvRegion(s, first, l)]
    ensures FirstRegions(s, first, 2 * l + 2)
            == FirstRegions(s, first, 2 * l) + [ConvRegion(s, first, l)] + [RecurrentRegion(s, first, l)]
  {
    hide ConvRegion, RecurrentRegion;
    DivModUnique(2 * l, 2, l, 0);
    DivModUnique(2 * l + 1, 2, l, 1);
  }

  /** The builder holds exactly the first m regions, and the next one does not fit. */
  ghost predicate StoppedAt(s: StateSpec, first: nat, m: nat, before: seq<Region>, after: seq<Region>)
    requires ShapesExist(s)
  {
    m < 2 * s.layers && after == before + FirstRegions(s, first, m) && NthRegion(s, first, m).End() > U64_MAX
  }

  /** One layer: the byte size of the recurrent tensor is only computed after the convolution state was added. */
  method AddLayer(b: LayoutBuilder, s: StateSpec, conv: Tensor, recurrent: Tensor, ghost first: nat, ghost l: nat)
    returns (r: Result<(Region, Region), Error>)
    requires b.Valid() && Shaped(s) && l < s.layers && (ShapesExist(s) ==> AtLayer(s, first, l, b.cursor))
    requires conv == Dense(0, s.convDtype, ConvShape(s)) && recurrent == Dense(0, FP32, RecurrentShape(s))
    modifies b
    ensures b.Valid() && b.marks == old(b.marks) && old(b.live) <= b.live && old(b.all) <= b.all
    ensures !ShapesExist(s) ==> r.Err? && b.State() == if Exists(s.convDtype, ConvShape(s))
                                                       then Step(old(b.State()), Add(ConvBytes(s), ARENA_ALIGN))
                                                       else old(b.State())
    ensures ShapesExist(s) && LayoutEnd(s, first) <= U64_MAX ==> r.Ok?
    ensures r.Ok? ==> Advances(s, old(b.cursor))
    ensures r.Err? ==> r.error == Overflow && (b.State() == old(b.State()) <==> !Advances(s, old(b.cursor)))
    ensures r.Err? && ShapesExist(s) ==>
              || (b.live == old(b.live) && ConvRegion(s, first, l).End() > U64_MAX)
              || (b.live == old(b.live) + [ConvRegion(s, first, l)] && RecurrentRegion(s, first, l).End() > U64_MAX)
    ensures r.Ok? ==> r.value == (ConvRegion(s, first, l), RecurrentRegion(s, first, l))
                      && r.value.0 in b.all && r.value.1 in b.all && b.cursor == r.value.1.End()
                      && b.live == old(b.live) + [r.value.0] + [r.value.1]
  {
    hide Layout.Inv, Stride, Prod, AlignUp, PowerOfTwo, At, LayoutEnd, ConvRegion, RecurrentRegion, AddTo;
    ArenaAligned();
    BytesPositive(s.convDtype.Size(), ConvShape(s));
    BytesPositive(FP32.Size(), RecurrentShape(s));
    CursorFits(b);
    if ShapesExist(s) { LayerFits(s, first, l, b.cursor); }
    var convBytes := Tensors.Bytes(conv);
    if convBytes.Err? { return Err(convBytes.error); }
    AddExact(b.State(), convBytes.value, ARENA_ALIGN);
    var c := b.Add(convBytes.value, ARENA_ALIGN);
    if c.Err? { return Err(c.error); }
    var recurrentBytes := Tensors.Bytes(recurrent);
    if recurrentBytes.Err? { return Err(recurrentBytes.error); }
    CursorFits(b);
    AddExact(b.State(), recurrentBytes.value, ARENA_ALIGN);
    var v := b.Add(recurrentBytes.value, ARENA_ALIGN);
    if v.Err? { return Err(v.error); }
    return Ok((c.value, v.value));
  }

  lemma Stopped(s: StateSpec, first: nat, l: nat, before: seq<Region>, after: seq<Region>)
    requires ShapesExist(s) && l < s.layers
    requires var held := before + FirstRegions(s, first, 2 * l);
             || (after == held && ConvRegion(s, first, l).End() > U64_MAX)
             || (after == held + [ConvRegion(s, first, l)] && RecurrentRegion(s, first, l).End() > U64_MAX)
    ensures exists m: nat :: StoppedAt(s, first, m, before, after)
  {
    hide ConvRegion, RecurrentRegion, NthRegion, FirstRegions;
    LayerRegions(s, first, l);
    var held := before + FirstRegions(s, first, 2 * l);
    if after == held && ConvRegion(s, first, l).End() > U64_MAX {
      assert StoppedAt(s, first, 2 * l, before, after);
    } else {
      assert after == before + FirstRegions(s, first, 2 * l + 1);
      assert StoppedAt(s, first, 2 * l + 1, before, after);
    }
  }

  /** plan_linear_attention_state_pool: succeeds exactly when both tensors exist and the last layer's end fits.
      A failure leaves the builder as it was exactly when not even layer 0's convolution region was added. When
      the recurrent tensor's byte size does not fit, that region is all the builder has gained; when the layout's
      end does not fit, it has gained every region before the first that does not. */
  method Plan(b: LayoutBuilder, s: StateSpec) returns (r: Result<StateLayout, Error>)
    requires b.Valid()
    modifies b
    ensures b.Valid() && b.marks == old(b.marks) && old(b.live) <= b.live
    ensures r.Ok? <==> ShapesExist(s) && LayoutEnd(s, AlignUp(old(b.cursor), ARENA_ALIGN)) <= U64_MAX
    ensures !ShapesExist(s) ==> b.State() == if Shaped(s) && Exists(s.convDtype, ConvShape(s))
                                             then Step(old(b.State()), Add(ConvBytes(s), ARENA_ALIGN))
                                             else old(b.State())
    ensures r.Err? ==> r.error == if s.layers > I32_MAX || SpecOk(s) then Overflow else InvalidArgument
    ensures r.Err? ==> (b.State() == old(b.State()) <==> !(Shaped(s) && Advances(s, old(b.cursor))))
    ensures r.Err? && ShapesExist(s) ==>
              exists m: nat :: StoppedAt(s, AlignUp(old(b.cursor), ARENA_ALIGN), m, old(b.live), b.live)
    ensures r.Ok? ==> r.value.spec == s && Strided(r.value, AlignUp(old(b.cursor), ARENA_ALIGN))
    ensures r.Ok? ==> forall l | 0 <= l < s.layers :: r.value.conv[l] in b.all && r.value.recurrent[l] in b.all
  {
    hide Layout.Inv, Stride, Prod, AlignUp, PowerOfTwo, At, LayoutEnd, ConvRegion, RecurrentRegion, Step, Advances,
      NthRegion, FirstRegions;
    var shapes := CheckSpec(s);
    if shapes.Err? { return Err(shapes.error); }
    var (convShape, recurrentShape) := shapes.value;
    ghost var first := AlignUp(b.cursor, ARENA_ALIGN);
    var conv: seq<Region>, recurrent: seq<Region> := [], [];
    for l := 0 to s.layers
      invariant b.Valid() && b.marks == old(b.marks) && |conv| == l && |recurrent| == l && old(b.live) <= b.live
      invariant if l == 0 then b.State() == old(b.State()) else ShapesExist(s)
      invariant l > 0 ==> Advances(s, old(b.cursor)) && |old(b.live)| < |b.live|
      invariant ShapesExist(s) ==> b.live == old(b.live) + FirstRegions(s, first, 2 * l)
      invariant ShapesExist(s) ==> AtLayer(s, first, l, b.cursor)
      invariant l > 0 ==> forall j | 0 <= j < l :: conv[j] == ConvRegion(s, first, j) && conv[j] in b.all
      invariant l > 0 ==> forall j | 0 <= j < l :: recurrent[j] == RecurrentRegion(s, first, j) && recurrent[j] in b.all
    {
      if ShapesExist(s) { LayerRegions(s, first, l); }
      var layer := AddLayer(b, s, convShape, recurrentShape, first, l);
      if layer.Err? {
        if ShapesExist(s) { Stopped(s, first, l, old(b.live), b.live); }
        return Err(layer.error);
      }
      conv, recurrent := conv + [layer.value.0], recurrent + [layer.value.1];
    }
    CursorFits(b);
    EndIs(s, first);
    return Ok(StateLayout(s, conv, recurrent));
  }

  /** A spec whose planning fails late: the strides fit, the recurrent tensor's bytes do not. */
  lemma LateFailureExample()
    ensures var s := StateSpec(1, 1, 1, 0x8000, 0x1_0000, 0x1_0000, I32_MAX, BF16);
            Shaped(s) && Exists(s.convDtype, ConvShape(s)) && !ShapesExist(s)
  {
    var s := StateSpec(1, 1, 1, 0x8000, 0x1_0000, 0x1_0000, I32_MAX, BF16);
    var c, v := ConvShape(s), RecurrentShape(s);
    assert Prod(c, 1) == 1 && Prod(c, 2) == 1 && Prod(c, 3) == I32_MAX && Prod(c, 4) == I32_MAX;
    assert Prod(v, 1) == 0x1_0000 && Prod(v, 2) == 0x1_0000_0000 && Prod(v, 3) == 0x8000_0000_0000;
    assert Prod(v, 4) == 0x8000_0000_0000 * I32_MAX;
  }

  /** A spec whose planning fails later still: both tensors exist, and the layers together do not fit. */
  lemma LongLayoutExample()
    ensures var s := StateSpec(4, 1, 1, 0x8000, 0x1_0000, 0x1_0000, 0x4000, BF16);
            ShapesExist(s) && Advances(s, 0) && LayoutEnd(s, 0) > U64_MAX
  {
    var s := StateSpec(4, 1, 1, 0x8000, 0x1_0000, 0x1_0000, 0x4000, BF16);
    var c, v := ConvShape(s), RecurrentShape(s);
    assert Prod(c, 1) == 1 && Prod(c, 2) == 1 && Prod(c, 3) == 0x4000 && Prod(c, 4) == 0x4000;
    assert Prod(v, 1) == 0x1_0000 && Prod(v, 2) == 0x1_0000_0000 && Prod(v, 3) == 0x8000_0000_0000;
    assert Prod(v, 4) == 0x8000_0000_0000 * 0x4000;
    PowerProduct(16, 16);
    AlignUpFixed(0, ARENA_ALIGN);
  }
}
