/** Planned tensors (src/core/layout.cpp): add_tensor and TensorRegion::bind. */
module TensorLayout {
  import opened Arith
  import opened Results
  import opened Tensors
  import opened Layout

  datatype TensorRegion = TensorRegion(region: Region, dtype: DType, shape: Quad)

  /** The region has the size of its tensor. */
  predicate Consistent(t: TensorRegion) {
    Exists(t.dtype, t.shape) && t.region.bytes == Stride(t.dtype.Size(), t.shape, 4)
  }

  /** Where a tensor planned at `cursor` goes. */
  function RegionAt(cursor: nat, dtype: DType, shape: Quad, alignment: nat): TensorRegion
    requires Exists(dtype, shape) && PowerOfTwo(alignment)
  {
    var bytes := Stride(dtype.Size(), shape, 4);
    TensorRegion(Region(AlignUp(cursor, alignment), bytes, alignment), dtype, shape)
  }

  /** LayoutBuilder::add_tensor: succeeds exactly when the tensor exists and its aligned end fits. */
  method AddTensor(b: LayoutBuilder, dtype: DType, shape: seq<int>, alignment: u64) returns (r: Result<TensorRegion,
      Error>)
    requires b.Valid()
    modifies b
    ensures b.Valid() && b.marks == old(b.marks)
    ensures r.Err? ==> b.State() == old(b.State())
    ensures r.Ok? <==> ShapeOk(shape) && Exists(dtype, Padded(shape))
                       && AddFits(old(b.cursor), Stride(dtype.Size(), Padded(shape), 4), alignment)
    ensures r.Err? ==> r.error == if !ShapeOk(shape) || (Exists(dtype, Padded(shape)) && !PowerOfTwo(alignment))
                                  then InvalidArgument else Overflow
    ensures r.Ok? ==> r.value == RegionAt(old(b.cursor), dtype, Padded(shape), alignment) && Consistent(r.value)
    ensures r.Ok? ==> b.live == old(b.live) + [r.value.region] && b.cursor == r.value.region.End()
                      && b.peak == Max(old(b.peak), b.cursor)
  {
    hide Layout.Inv, Stride, Prod, CheckedAlign, AlignUp, PowerOfTwo;
    if ShapeOk(shape) { BytesPositive(dtype.Size(), Padded(shape)); }
    CursorFits(b);
    var tensor := MakeTensor(0, dtype, shape);
    if tensor.Err? { return Err(tensor.error); }
    var bytes := Tensors.Bytes(tensor.value);
    if bytes.Err? { return Err(bytes.error); }
    AddExact(b.State(), bytes.value, alignment);
    var region := b.Add(bytes.value, alignment);
    if region.Err? { return Err(region.error); }
    return Ok(TensorRegion(region.value, dtype, tensor.value.ne));
  }

  lemma CursorFits(b: LayoutBuilder)
    requires b.Valid()
    ensures b.cursor <= b.peak <= U64_MAX
  {
    hide PowerOfTwo;
  }

  /** TensorRegion::bind: with a consistent region only the region's own binding can fail. */
  method BindTensor(t: TensorRegion, backing: Span) returns (r: Result<Tensor, Error>)
    ensures Consistent(t) ==> r.Ok? == BindRegion(t.region, backing).Ok?
    ensures r.Ok? ==> Consistent(t) && BindRegion(t.region, backing).Ok?
                      && r.value == Dense(BindRegion(t.region, backing).value.data, t.dtype, t.shape)
    ensures r.Err? && Consistent(t) ==> Err(r.error) == BindRegion(t.region, backing)
  {
    hide Stride, Prod, BindRegion;
    assert Padded(t.shape) == t.shape;
    if Positive(t.shape) { BytesPositive(t.dtype.Size(), t.shape); }
    var expected := MakeTensor(0, t.dtype, t.shape);
    if expected.Err? { return Err(expected.error); }
    var bytes := Tensors.Bytes(expected.value);
    if bytes.Err? { return Err(bytes.error); }
    if bytes.value != t.region.bytes { return Err(LogicError); }
    var span := BindRegion(t.region, backing);
    if span.Err? { return Err(span.error); }
    r := MakeTensor(span.value.data, t.dtype, t.shape);
  }
}
