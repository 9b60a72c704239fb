/** The linear-attention state pool (src/core/linear_attention_state.cpp): binding, layer strides and slot views. */
module StatePool {
  import opened Arith
  import opened Results
  import opened Bytes
  import opened Dma
  import opened Tensors
  import opened Layout
  import opened StateSlots
  import opened StatePlan

  // ---------------------------------------------------------------------------------------------
  // layer_stride_bytes
  // ---------------------------------------------------------------------------------------------

  /** The tensors sit a constant distance d apart, and d is a valid stride for them. */
  predicate ConstantStride(tensors: seq<Tensor>, d: int) {
    && (forall l | 0 < l < |tensors| :: tensors[l].data - tensors[l - 1].data == d)
    && (|tensors| > 1 ==> 0 < d <= I64_MAX && Stride(tensors[0].dtype.Size(), tensors[0].ne, 4) <= d)
  }

  /** layer_stride_bytes succeeds exactly on a constant stride that fits and keeps the layers apart. */
  method LayerStrideBytes(tensors: seq<Tensor>) returns (r: Result<int, Error>)
    requires |tensors| > 0 ==> Exists(tensors[0].dtype, tensors[0].ne)
    ensures |tensors| == 0 ==> r == Err(LogicError)
    ensures |tensors| == 1 ==> r == Ok(0)
    ensures |tensors| > 1 ==> var d := tensors[1].data - tensors[0].data;
              r == if ConstantStride(tensors, d) then Ok(d) else Err(LogicError)
  {
    hide Stride, Prod;
    if |tensors| == 0 { return Err(LogicError); }
    if |tensors| == 1 { return Ok(0); }
    var first, second := tensors[0].data, tensors[1].data;
    if second <= first || second - first > I64_MAX { return Err(LogicError); }
    var stride := second - first;
    var bytes := Tensors.Bytes(tensors[0]);
    assert bytes.Ok?;
    if stride < bytes.value { return Err(LogicError); }
    for layer := 2 to |tensors|
      invariant forall l | 0 < l < layer :: tensors[l].data - tensors[l - 1].data == stride
    {
      var previous, current := tensors[layer - 1].data, tensors[layer].data;
      if current <= previous || current - previous != stride { return Err(LogicError); }
    }
    return Ok(stride);
  }

  // ---------------------------------------------------------------------------------------------
  // The components of a planned layout
  // ---------------------------------------------------------------------------------------------

  lemma ShapeFacts(s: StateSpec)
    requires ShapesExist(s)
    ensures 0 < ConvRow(s) && ConvBytes(s) == s.slots * ConvRow(s)
            && ConvBytes(s) == Stride(s.convDtype.Size(), ConvShape(s), 3)
    ensures 0 < RecurrentRow(s) && RecurrentBytes(s) == s.slots * RecurrentRow(s)
  {
    hide Stride;
    StrideStep(s.convDtype.Size(), ConvShape(s), 2);
    StrideStep(FP32.Size(), RecurrentShape(s), 3);
    StridePeel(s.convDtype.Size(), ConvShape(s), 2);
    StridePeel(s.convDtype.Size(), ConvShape(s), 3);
    StridePeel(FP32.Size(), RecurrentShape(s), 3);
  }

  /** Bytes of one slot of one layer. */
  function ConvRow(s: StateSpec): int { Stride(s.convDtype.Size(), ConvShape(s), 2) }

  function RecurrentRow(s: StateSpec): int { Stride(FP32.Size(), RecurrentShape(s), 3) }

  function ConvPart(s: StateSpec, first: nat): Component
    requires ShapesExist(s)
  {
    ShapeFacts(s);
    Component(first, ConvRow(s), LayerStride(s), s.layers, s.slots)
  }

  function RecurrentPart(s: StateSpec, first: nat): Component
    requires ShapesExist(s)
  {
    ShapeFacts(s);
    Component(first + AlignUp(ConvBytes(s), ARENA_ALIGN), RecurrentRow(s), LayerStride(s), s.layers, s.slots)
  }

  /** The two components of a planned layout interleave inside any backing that reaches its end. */
  lemma PartsFit(s: StateSpec, first: nat, size: nat)
    requires ShapesExist(s) && LayoutEnd(s, first) <= size
    ensures PairFits(ConvPart(s, first), RecurrentPart(s, first), size)
    ensures forall l | 0 <= l < s.layers ::
            ConvRegion(s, first, l).End() <= size && RecurrentRegion(s, first, l).End() <= size
  {
    hide AlignUp, Stride, Prod;
    ShapeFacts(s);
    var c, v := ConvPart(s, first), RecurrentPart(s, first);
    forall l | 0 <= l < s.layers
      ensures ConvRegion(s, first, l).End() <= size && RecurrentRegion(s, first, l).End() <= size
      ensures At(c.base, c.pitch, l) + c.Bytes() <= size && At(v.base, v.pitch, l) + v.Bytes() <= size
    {
      MulMono(l, s.layers - 1, LayerStride(s));
    }
  }

  /** With at least two layers inside a 64-bit address space the stride fits a signed 64-bit integer. */
  lemma StrideFits(s: StateSpec, first: nat, base: nat)
    requires ShapesExist(s) && 1 < s.layers && base != 0 && base % ARENA_ALIGN == 0
    requires base + LayoutEnd(s, first) <= TWO_64
    ensures 0 < LayerStride(s) <= I64_MAX && ConvBytes(s) <= LayerStride(s) && RecurrentBytes(s) <= LayerStride(s)
  {
    hide AlignUp, Stride, Prod;
    MultiplesApart(0, base, ARENA_ALIGN);
    MulMono(1, s.layers - 1, LayerStride(s));
  }

  // ---------------------------------------------------------------------------------------------
  // The pool
  // ---------------------------------------------------------------------------------------------

  class LinearAttentionStatePool {
    const spec: StateSpec
    const base: nat
    const first: nat
    const device: array<byte>
    const conv: seq<Tensor>
    const recurrent: seq<Tensor>

    constructor (spec: StateSpec, base: nat, first: nat, device: array<byte>, conv: seq<Tensor>, recurrent: seq<Tensor>)
      ensures this.spec == spec && this.base == base && this.first == first && this.device == device
      ensures this.conv == conv && this.recurrent == recurrent
    {
      this.spec, this.base, this.first, this.device, this.conv, this.recurrent := spec, base, first, device, conv,
        recurrent;
    }

    /** A pool bound to a planned layout. */
    predicate Valid() {
      && ShapesExist(spec) && base != 0 && base % ARENA_ALIGN == 0
      && LayoutEnd(spec, first) <= device.Length && base + device.Length <= TWO_64
      && |conv| == spec.layers && |recurrent| == spec.layers
      && (forall l | 0 <= l < |conv| ::
        conv[l] == Dense(base + ConvRegion(spec, first, l).offset, spec.convDtype, ConvShape(spec)))
      && forall l | 0 <= l < |recurrent| ::
           recurrent[l] == Dense(base + RecurrentRegion(spec, first, l).offset, FP32, RecurrentShape(spec))
    }

    function ConvC(): Component
      requires Valid()
    {
      ConvPart(spec, first)
    }

    function RecurrentC(): Component
      requires Valid()
    {
      RecurrentPart(spec, first)
    }
  }

  lemma FirstIs(s: StateSpec, first: nat)
    requires ShapesExist(s)
    ensures ConvRegion(s, first, 0).offset == first
  {}

  /** Binding layer l of a planned layout depends only on the backing's address, alignment and size. */
  lemma PlannedBinding(s: StateSpec, first: nat, backing: Span)
    requires ShapesExist(s) && first % ARENA_ALIGN == 0
    ensures forall l | 0 <= l < s.layers ::
              (BindRegion(ConvRegion(s, first, l), backing).Ok?
               <==> backing.data != 0 && backing.data % ARENA_ALIGN == 0
                    && ConvRegion(s, first, l).End() <= backing.bytes)
    ensures forall l | 0 <= l < s.layers ::
              (BindRegion(RecurrentRegion(s, first, l), backing).Ok?
               <==> backing.data != 0 && backing.data % ARENA_ALIGN == 0
                    && RecurrentRegion(s, first, l).End() <= backing.bytes)
    ensures forall l | 0 <= l < s.layers :: BindRegion(ConvRegion(s, first, l), backing).Ok? ==>
              BindRegion(ConvRegion(s, first, l), backing).value.data == backing.data + ConvRegion(s, first, l).offset
    ensures forall l | 0 <= l < s.layers :: BindRegion(RecurrentRegion(s, first, l), backing).Ok? ==>
              BindRegion(RecurrentRegion(s, first, l), backing).value.data
                == backing.data + RecurrentRegion(s, first, l).offset
    ensures LayoutEnd(s, first) <= backing.bytes ==> forall l | 0 <= l < s.layers ::
              ConvRegion(s, first, l).End() <= backing.bytes && RecurrentRegion(s, first, l).End() <= backing.bytes
  {
    hide AlignUp, Stride, Prod, At, BindRegion, ConvRegion, RecurrentRegion;
    if LayoutEnd(s, first) <= backing.bytes { PartsFit(s, first, backing.bytes); }
    forall l | 0 <= l < s.layers
      ensures var c, v := ConvRegion(s, first, l), RecurrentRegion(s, first, l);
              && (BindRegion(c, backing).Ok? <==>
                backing.data != 0 && backing.data % ARENA_ALIGN == 0 && c.End() <= backing.bytes)
              && (BindRegion(v, backing).Ok? <==>
                backing.data != 0 && backing.data % ARENA_ALIGN == 0 && v.End() <= backing.bytes)
              && (BindRegion(c, backing).Ok? ==> BindRegion(c, backing).value.data == backing.data + c.offset)
              && (BindRegion(v, backing).Ok? ==> BindRegion(v, backing).value.data == backing.data + v.offset)
    {
      RegionAligned(s, first, l);
      PowerProduct(16, 16);
      BindAligned(ConvRegion(s, first, l), backing);
      BindAligned(RecurrentRegion(s, first, l), backing);
    }
  }

  lemma RegionAligned(s: StateSpec, first: nat, l: nat)
    requires ShapesExist(s) && first % ARENA_ALIGN == 0
    ensures ConvRegion(s, first, l).offset % ARENA_ALIGN == 0 && ConvRegion(s, first, l).alignment == ARENA_ALIGN
    ensures RecurrentRegion(s, first, l).offset % ARENA_ALIGN == 0
            && RecurrentRegion(s, first, l).alignment == ARENA_ALIGN
  {
    hide AlignUp, Stride, Prod;
    AlignUpFixed(first, ARENA_ALIGN);
    NextLayer(s, first, l, if l == 0 then first else RecurrentRegion(s, first, l - 1).End());
  }

  /** The region has the expected size and binds to the backing. */
  predicate RegionBinds(r: Region, bytes: int, backing: Span) { r.bytes == bytes && BindRegion(r, backing).Ok? }

  /** Every check of the constructor passes. */
  predicate Bindable(layout: StateLayout, backing: Span) {
    var s := layout.spec;
    && layout.conv != [] && |layout.recurrent| == |layout.conv| && |layout.conv| == s.layers
    && Exists(s.convDtype, ConvShape(s)) && Exists(FP32, RecurrentShape(s))
    && (forall l | 0 <= l < |layout.conv| :: RegionBinds(layout.conv[l], ConvBytes(s), backing))
    && forall l | 0 <= l < |layout.recurrent| :: RegionBinds(layout.recurrent[l], RecurrentBytes(s), backing)
  }

  /** Over a planned layout the checks pass exactly when the backing is present, aligned and large enough. */
  lemma StridedBinds(layout: StateLayout, first: nat, backing: Span)
    requires Strided(layout, first)
    ensures Bindable(layout, backing) <==>
            backing.data != 0 && backing.data % ARENA_ALIGN == 0 && LayoutEnd(layout.spec, first) <= backing.bytes
  {
    hide AlignUp, Stride, Prod, At, BindRegion, LayoutEnd, Exists;
    var s := layout.spec;
    PlannedBinding(s, first, backing);
    EndIs(s, first);
    var last := s.layers - 1;
    if Bindable(layout, backing) { assert RegionBinds(layout.recurrent[last], RecurrentBytes(s), backing); }
  }

  /** The constructor. */
  method Build(base: nat, device: array<byte>, layout: StateLayout)
    returns (r: Result<LinearAttentionStatePool, Error>)
    ensures r.Ok? <==> Bindable(layout, Span(base, device.Length))
    ensures r.Ok? ==> fresh(r.value) && r.value.spec == layout.spec && r.value.device == device && r.value.base == base
                      && r.value.first == layout.conv[0].offset && Bound(r.value, layout)
  {
    hide AlignUp, Stride, Prod, BindRegion;
    var s := layout.spec;
    var n := |layout.conv|;
    if n == 0 || |layout.recurrent| != n || n != s.layers { return Err(InvalidArgument); }
    var backing := Span(base, device.Length);
    assert Padded([s.channels, s.width, s.slots]) == ConvShape(s) && Padded(RecurrentShape(s)) == RecurrentShape(s);
    var convShape := MakeTensor(0, s.convDtype, [s.channels, s.width, s.slots]);
    if convShape.Err? { return Err(convShape.error); }
    var recurrentShape := MakeTensor(0, FP32, RecurrentShape(s));
    if recurrentShape.Err? { return Err(recurrentShape.error); }
    BytesPositive(s.convDtype.Size(), ConvShape(s));
    BytesPositive(FP32.Size(), RecurrentShape(s));
    var conv: seq<Tensor>, recurrent: seq<Tensor> := [], [];
    for l := 0 to n
      invariant |conv| == l && |recurrent| == l
      invariant l > 0 ==> Exists(s.convDtype, ConvShape(s)) && Exists(FP32, RecurrentShape(s))
      invariant forall j | 0 <= j < l ::
                && RegionBinds(layout.conv[j], ConvBytes(s), backing)
                && RegionBinds(layout.recurrent[j], RecurrentBytes(s), backing)
      invariant forall j | 0 <= j < l ::
                && conv[j] == Dense(base + layout.conv[j].offset, s.convDtype, ConvShape(s))
                && recurrent[j] == Dense(base + layout.recurrent[j].offset, FP32, RecurrentShape(s))
    {
      var convBytes := Tensors.Bytes(convShape.value);
      if convBytes.Err? { return Err(convBytes.error); }
      if layout.conv[l].bytes != convBytes.value { return Err(LogicError); }
      var recurrentBytes := Tensors.Bytes(recurrentShape.value);
      if recurrentBytes.Err? { return Err(recurrentBytes.error); }
      if layout.recurrent[l].bytes != recurrentBytes.value { return Err(LogicError); }
      var c := BindRegion(layout.conv[l], backing);
      if c.Err? { return Err(c.error); }
      var v := BindRegion(layout.recurrent[l], backing);
      if v.Err? { return Err(v.error); }
      BoundAddress(layout.conv[l], backing);
      BoundAddress(layout.recurrent[l], backing);
      var ct := MakeTensor(c.value.data, s.convDtype, [s.channels, s.width, s.slots]);
      var vt := MakeTensor(v.value.data, FP32, RecurrentShape(s));
      assert ct.Ok? && vt.Ok?;
      conv, recurrent := conv + [ct.value], recurrent + [vt.value];
    }
    var pool := new LinearAttentionStatePool(s, base, layout.conv[0].offset, device, conv, recurrent);
    return Ok(pool);
  }

  /** The pool's tensors are the layout's regions at the pool's base address. */
  predicate Bound(pool: LinearAttentionStatePool, layout: StateLayout) {
    var s := pool.spec;
    && |pool.conv| == |layout.conv| && |pool.recurrent| == |layout.recurrent|
    && (forall l | 0 <= l < |layout.conv| ::
      pool.conv[l] == Dense(pool.base + layout.conv[l].offset, s.convDtype, ConvShape(s)))
    && forall l | 0 <= l < |layout.recurrent| ::
         pool.recurrent[l] == Dense(pool.base + layout.recurrent[l].offset, FP32, RecurrentShape(s))
  }

  /** What a bound pool holds for layer l. */
  lemma BoundMeans(pool: LinearAttentionStatePool, layout: StateLayout, l: nat)
    requires Bound(pool, layout) && l < |layout.conv| && l < |layout.recurrent|
    ensures |pool.conv| == |layout.conv| && |pool.recurrent| == |layout.recurrent|
    ensures var s, c, v := pool.spec, pool.conv[l], pool.recurrent[l];
            && c.data == pool.base + layout.conv[l].offset && v.data == pool.base + layout.recurrent[l].offset
            && c.dtype == s.convDtype && v.dtype == FP32
            && c.ne == [s.channels, s.width, s.slots, 1] && v.ne == [s.keyDim, s.valueDim, s.heads, s.slots]
  {
    hide Stride;
  }

  lemma BoundAddress(r: Region, backing: Span)
    requires BindRegion(r, backing).Ok?
    ensures BindRegion(r, backing).value.data == backing.data + r.offset
  {}

  /** A pool built over a planned layout, inside the 64-bit address space, is valid. */
  lemma BuiltIsValid(pool: LinearAttentionStatePool, layout: StateLayout, first: nat)
    requires Strided(layout, first) && Bindable(layout, Span(pool.base, pool.device.Length))
    requires pool.spec == layout.spec && pool.first == layout.conv[0].offset && Bound(pool, layout)
    requires pool.base + pool.device.Length <= TWO_64
    ensures pool.Valid() && pool.first == first
  {
    hide AlignUp, Stride, Prod, At, BindRegion, LayoutEnd;
    StridedBinds(layout, first, Span(pool.base, pool.device.Length));
    FirstIs(layout.spec, first);
  }

  // ---------------------------------------------------------------------------------------------
  // Strides and slots
  // ---------------------------------------------------------------------------------------------

  /** The stride checks never fail: all_layers_view and the pitched transfers always get their stride. */
  lemma StridesNeverFail(pool: LinearAttentionStatePool)
    requires pool.Valid()
    ensures ConstantStride(pool.conv, LayerStride(pool.spec)) && ConstantStride(pool.recurrent, LayerStride(pool.spec))
  {
    hide AlignUp, Stride, Prod;
    var s, d := pool.spec, LayerStride(pool.spec);
    if s.layers > 1 { StrideFits(s, pool.first, pool.base); }
    forall l | 0 < l < s.layers
      ensures pool.conv[l].data - pool.conv[l - 1].data == d && pool.recurrent[l].data - pool.recurrent[l - 1].data == d
    {
      assert l * d == (l - 1) * d + d;
    }
  }

  /** layer_stride_bytes on both components of a pool: 0 for a single layer, the layer stride otherwise. */
  method LayerStrides(pool: LinearAttentionStatePool) returns (c: int, v: int)
    requires pool.Valid()
    ensures c == v == if pool.spec.layers == 1 then 0 else LayerStride(pool.spec)
  {
    hide AlignUp, Stride, Prod, ConvRegion, RecurrentRegion;
    StridesNeverFail(pool);
    var a := LayerStrideBytes(pool.conv);
    var b := LayerStrideBytes(pool.recurrent);
    assert a.Ok? && b.Ok?;
    return a.value, b.value;
  }

  /** validate_state_tensor: passes exactly on a bound tensor of the expected type and shape whose address map is
      linear. */
  method ValidateStateTensor(t: Tensor, dtype: DType, shape: seq<int>) returns (ok: bool)
    requires ShapeOk(shape) && Exists(dtype, Padded(shape))
    ensures ok <==> t.data != 0 && t.dtype == dtype && t.ne == Padded(shape) && LinearMap(t)
  {
    hide Stride, Prod, LinearMap;
    var expected := MakeTensor(0, dtype, shape);
    assert expected.Ok?;
    var contiguous := IsContiguous(t);
    if t.data == 0 || t.dtype != dtype || !contiguous { return false; }
    var have := Tensors.Bytes(t);
    var want := Tensors.Bytes(expected.value);
    if have.Err? || have != want { return false; }
    for dim := 0 to 4
      invariant forall i | 0 <= i < dim :: t.ne[i] == expected.value.ne[i]
    {
      if t.ne[dim] != expected.value.ne[dim] { return false; }
    }
    assert t.ne == Padded(shape);
    return true;
  }

  /** all_layers_view: no check of a bound pool fails, and both strides are the layer stride. */
  method AllLayersView(pool: LinearAttentionStatePool) returns (convStride: int, recurrentStride: int)
    requires pool.Valid()
    ensures convStride == recurrentStride == if pool.spec.layers == 1 then 0 else LayerStride(pool.spec)
  {
    hide AlignUp, Stride, Prod, LinearMap, LayoutEnd, ConvRegion, RecurrentRegion;
    var s := pool.spec;
    assert Padded([s.channels, s.width, s.slots]) == ConvShape(s) && Padded(RecurrentShape(s)) == RecurrentShape(s);
    for l := 0 to |pool.conv| {
      DenseLinear(pool.conv[l]);
      DenseLinear(pool.recurrent[l]);
      var conv := ValidateStateTensor(pool.conv[l], s.convDtype, [s.channels, s.width, s.slots]);
      var recurrent := ValidateStateTensor(pool.recurrent[l], FP32, RecurrentShape(s));
      assert conv && recurrent;
    }
    convStride, recurrentStride := LayerStrides(pool);
  }

  lemma DenseLinear(t: Tensor)
    requires Positive(t.ne) && t == Dense(t.data, t.dtype, t.ne)
    ensures LinearMap(t)
  {
    hide Stride, LinearMap;
    assert DenseStrides(t);
    DenseIsLinear(t);
  }

  predicate SlotOk(pool: LinearAttentionStatePool, slot: int) { 0 <= slot < pool.spec.slots }

  /** Slicing one slot off the outermost used dimension and viewing it as a slot tensor fails only when the
      slot's byte offset does not fit a signed 64-bit integer. */
  method SlotView(t: Tensor, dim: nat, slot: nat, shape: seq<int>) returns (r: Result<Tensor, Error>)
    requires 2 <= dim <= 3 && Exists(t.dtype, t.ne) && t == Dense(t.data, t.dtype, t.ne) && t.data > 0
    requires slot < t.ne[dim] && (dim == 2 ==> t.ne[3] == 1) && shape == t.ne[..dim]
    ensures r.Ok? <==> slot * Stride(t.dtype.Size(), t.ne, dim) <= I64_MAX
    ensures r.Err? ==> r.error == Overflow
    ensures r.Ok? ==> r.value == Dense(t.data + slot * Stride(t.dtype.Size(), t.ne, dim), t.dtype, Padded(shape))
    ensures r.Ok? ==> Exists(r.value.dtype, r.value.ne)
                      && Stride(r.value.dtype.Size(), r.value.ne, 4) == Stride(t.dtype.Size(), t.ne, dim)
  {
    hide Stride, Prod, LinearMap, Tensors.SameElements, Addr, CheckedMul;
    SlotFacts(t, dim, shape);
    var sliced := Slice(t, dim, slot, 1);
    if sliced.Err? { return Err(Overflow); }
    SlicedIsLinear(t, sliced.value, dim, shape);
    var viewed := View(sliced.value, shape);
    assert viewed.Ok?;
    return Ok(viewed.value);
  }

  lemma SlicedIsLinear(t: Tensor, sliced: Tensor, dim: nat, shape: seq<int>)
    requires 2 <= dim <= 3 && Exists(t.dtype, t.ne) && t == Dense(t.data, t.dtype, t.ne)
    requires (dim == 2 ==> t.ne[3] == 1) && shape == t.ne[..dim]
    requires sliced.ne == t.ne[dim := 1] && sliced.nb == t.nb && sliced.dtype == t.dtype
    ensures |shape| <= 4 && sliced.ne == Padded(shape) && Positive(sliced.ne) && LinearMap(sliced)
  {
    hide Stride, Prod, LinearMap;
    SlotFacts(t, dim, shape);
    assert DenseStrides(sliced);
    DenseIsLinear(sliced);
  }

  lemma {:induction false} SamePrefix(a: Quad, b: Quad, n: nat)
    requires n <= 4 && forall i | 0 <= i < n :: a[i] == b[i]
    ensures Prod(a, n) == Prod(b, n)
  {
    if n > 0 { SamePrefix(a, b, n - 1); }
  }

  lemma SlotFacts(t: Tensor, dim: nat, shape: seq<int>)
    requires 2 <= dim <= 3 && Exists(t.dtype, t.ne) && t == Dense(t.data, t.dtype, t.ne)
    requires (dim == 2 ==> t.ne[3] == 1) && shape == t.ne[..dim]
    ensures ShapeOk(shape) && Padded(shape) == t.ne[dim := 1] && Exists(t.dtype, Padded(shape))
    ensures forall i: nat | i <= dim :: Stride(t.dtype.Size(), Padded(shape), i) == Stride(t.dtype.Size(), t.ne, i)
    ensures Stride(t.dtype.Size(), Padded(shape), 4) == Stride(t.dtype.Size(), t.ne, dim)
    ensures 0 <= t.nb[dim] && Prod(Padded(shape), 4) == Prod(t.ne, dim)
  {
    hide Prod;
    var ne, size := Padded(shape), t.dtype.Size();
    assert ne == t.ne[dim := 1];
    forall i: nat | i <= dim ensures Stride(size, ne, i) == Stride(size, t.ne, i) { SamePrefix(ne, t.ne, i); }
    SamePrefix(ne, t.ne, dim);
    TailOnes(ne, dim);
    ProdMono(t.ne, dim, 3);
    ProdMono(t.ne, dim, 4);
    MulMono(Prod(t.ne, dim), Prod(t.ne, 3), size);
    MulMono(1, Prod(t.ne, dim), size);
    assert I64_MAX <= U64_MAX;
  }

  lemma TailOnes(ne: Quad, dim: nat)
    requires 2 <= dim <= 3 && forall i | dim <= i < 4 :: ne[i] == 1
    ensures Prod(ne, 4) == Prod(ne, dim) == Prod(ne, 3)
  {
    assert Prod(ne, 4) == Prod(ne, 3) * ne[3];
    assert Prod(ne, 3) == Prod(ne, 2) * ne[2];
  }
}
