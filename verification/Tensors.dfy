/** Strided tensors (src/core/tensor.cpp, src/core/dtype.cpp): checked strides, the address map, and what
    contiguous, view, slice and permute mean for it. */
module Tensors {
  import opened Arith
  import opened Results

  datatype DType = BF16 | FP32 | I32 | U8 | I64 | I8 | FP16 | FP8_E4M3FN {
    /** dtype_size. */
    function Size(): (n: nat)
      ensures 1 <= n <= 8
      ensures n == if I64? then 8 else if FP32? || I32? then 4 else if BF16? || FP16? then 2 else 1
    {
      match this
      case BF16 => 2
      case FP32 => 4
      case I32 => 4
      case U8 => 1
      case I64 => 8
      case I8 => 1
      case FP16 => 2
      case FP8_E4M3FN => 1
    }
  }

  type Quad = s: seq<int> | |s| == 4 witness [1, 1, 1, 1]

  /** The address 0 is the null pointer. */
  datatype Tensor = Tensor(data: int, dtype: DType, ne: Quad, nb: Quad)

  predicate Positive(ne: seq<int>) { forall i | 0 <= i < |ne| :: 0 < ne[i] }

  /** The product of the first i extents. */
  function Prod(ne: seq<int>, i: nat): int
    requires i <= |ne|
  {
    if i == 0 then 1 else Prod(ne, i - 1) * ne[i - 1]
  }

  lemma {:induction false} ProdMono(ne: seq<int>, i: nat, j: nat)
    requires Positive(ne) && i <= j <= |ne|
    ensures 1 <= Prod(ne, i) <= Prod(ne, j)
    decreases j
  {
    if j > 0 {
      if i < j { ProdMono(ne, i, j - 1); } else { ProdMono(ne, i - 1, j - 1); }
      MulMono(1, ne[j - 1], Prod(ne, j - 1));
    }
  }

  // ---------------------------------------------------------------------------------------------
  // Checked products
  // ---------------------------------------------------------------------------------------------

  function CheckedMul(a: int, b: int): Result<int, Error> {
    if a < 0 || b < 0 then Err(InvalidArgument)
    else if b != 0 && a > I64_MAX / b then Err(Overflow)
    else Ok(a * b)
  }

  /** The quotient test refuses exactly the products that do not fit. */
  lemma CheckedMulExact(a: nat, b: nat)
    ensures CheckedMul(a, b) == if a * b <= I64_MAX then Ok(a * b) else Err(Overflow)
  {
    if b != 0 {
      var q := I64_MAX / b;
      assert I64_MAX == q * b + I64_MAX % b;
      if a <= q { MulMono(a, q, b); } else { MulMono(q + 1, a, b); }
    }
  }

  /** size * Prod(ne, i), the stride of dimension i. */
  function Stride(size: nat, ne: seq<int>, i: nat): int
    requires i <= |ne|
  {
    size * Prod(ne, i)
  }

  lemma StrideStep(size: nat, ne: seq<int>, i: nat)
    requires 0 < size && Positive(ne) && i < |ne|
    ensures Stride(size, ne, i + 1) == Stride(size, ne, i) * ne[i]
    ensures forall j | i < j <= |ne| :: 0 < Stride(size, ne, i) <= Stride(size, ne, i + 1) <= Stride(size, ne, j)
  {
    assert size * (Prod(ne, i) * ne[i]) == (size * Prod(ne, i)) * ne[i];
    forall j | i < j <= |ne|
      ensures 0 < Stride(size, ne, i) <= Stride(size, ne, i + 1) <= Stride(size, ne, j)
    {
      ProdMono(ne, i, i + 1);
      ProdMono(ne, i + 1, j);
      MulMono(1, Prod(ne, i), size);
      MulMono(Prod(ne, i), Prod(ne, i + 1), size);
      MulMono(Prod(ne, i + 1), Prod(ne, j), size);
    }
  }

  // ---------------------------------------------------------------------------------------------
  // Construction
  // ---------------------------------------------------------------------------------------------

  predicate ShapeOk(shape: seq<int>) { 1 <= |shape| <= 4 && Positive(shape) }

  function Padded(shape: seq<int>): (ne: Quad)
    requires |shape| <= 4
    ensures forall i | 0 <= i < 4 :: ne[i] == if i < |shape| then shape[i] else 1
  {
    shape + seq(4 - |shape|, _ => 1)
  }

  method NormalizeShape(shape: seq<int>) returns (r: Result<Quad, Error>)
    ensures r == if ShapeOk(shape) then Ok(Padded(shape)) else Err(InvalidArgument)
  {
    if |shape| == 0 || |shape| > 4 { return Err(InvalidArgument); }
    var out: Quad := [1, 1, 1, 1];
    for i := 0 to |shape|
      invariant forall j | 0 <= j < i :: 0 < shape[j]
      invariant forall j | 0 <= j < 4 :: out[j] == if j < i then shape[j] else 1
    {
      if shape[i] <= 0 { return Err(InvalidArgument); }
      out := out[i := shape[i]];
    }
    assert out == Padded(shape);
    return Ok(out);
  }

  /** The dense tensor of a shape. */
  function Dense(data: int, dtype: DType, ne: Quad): (t: Tensor)
    ensures t.data == data && t.dtype == dtype && t.ne == ne && forall i: nat | i < 4 ::
            t.nb[i] == Stride(dtype.Size(), ne, i)
  {
    Tensor(data, dtype, ne, seq(4, i requires 0 <= i < 4 => Stride(dtype.Size(), ne, i)))
  }

  /** The dense tensor of a shape of up to four extents: the missing ones are one, and the stride of each dimension
      is that of the one before times its extent. */
  lemma DenseMeans(data: int, dtype: DType, shape: seq<int>)
    requires ShapeOk(shape)
    ensures var t := Dense(data, dtype, Padded(shape));
            && t.data == data && t.dtype == dtype && shape <= t.ne && (forall i | |shape| <= i < 4 :: t.ne[i] == 1)
            && t.nb[0] == dtype.Size() && t.nb[1] == t.nb[0] * t.ne[0] && t.nb[2] == t.nb[1] * t.ne[1]
            && t.nb[3] == t.nb[2] * t.ne[2]
  {
    hide Stride;
    var ne := Padded(shape);
    FirstStride(dtype.Size(), ne);
    StrideStep(dtype.Size(), ne, 0);
    StrideStep(dtype.Size(), ne, 1);
    StrideStep(dtype.Size(), ne, 2);
  }

  /** The constructor: fails on a bad shape, and on an overflow exactly when the outermost stride does not fit. */
  method MakeTensor(data: int, dtype: DType, shape: seq<int>) returns (r: Result<Tensor, Error>)
    ensures r == if !ShapeOk(shape) then Err(InvalidArgument)
                 else if Stride(dtype.Size(), Padded(shape), 3) > I64_MAX then Err(Overflow)
                 else Ok(Dense(data, dtype, Padded(shape)))
  {
    hide Stride;
    var normalized := NormalizeShape(shape);
    if normalized.Err? { return Err(normalized.error); }
    var ne := normalized.value;
    var stride: int := dtype.Size();
    FirstStride(dtype.Size(), ne);
    var nb: Quad := [stride, 0, 0, 0];
    for i := 1 to 4
      invariant stride == Stride(dtype.Size(), ne, i - 1) && 0 < stride <= I64_MAX
      invariant forall j: nat | j < i :: nb[j] == Stride(dtype.Size(), ne, j)
    {
      StrideStep(dtype.Size(), ne, i - 1);
      CheckedMulExact(stride, ne[i - 1]);
      var next := CheckedMul(stride, ne[i - 1]);
      if next.Err? { return Err(next.error); }
      stride := next.value;
      nb := nb[i := stride];
    }
    assert nb == Dense(data, dtype, ne).nb;
    return Ok(Tensor(data, dtype, ne, nb));
  }

  lemma FirstStride(size: nat, ne: seq<int>)
    ensures Stride(size, ne, 0) == size
  {}

  /** numel: the exact product, or an overflow exactly when it does not fit. */
  method Numel(ne: Quad) returns (r: Result<int, Error>)
    ensures Positive(ne) ==> r == if Prod(ne, 4) <= I64_MAX then Ok(Prod(ne, 4)) else Err(Overflow)
    ensures !Positive(ne) ==> r.Err?
  {
    var total := 1;
    for i := 0 to 4
      invariant (forall j | 0 <= j < i :: 0 < ne[j]) && total == Prod(ne, i) && 0 < total <= I64_MAX
    {
      if ne[i] <= 0 { return Err(InvalidArgument); }
      CheckedMulExact(total, ne[i]);
      MulMono(1, ne[i], total);
      if Positive(ne) { ProdMono(ne, i + 1, 4); }
      var next := CheckedMul(total, ne[i]);
      if next.Err? { return Err(next.error); }
      total := next.value;
    }
    return Ok(total);
  }

  /** bytes: the exact byte count, or an overflow exactly when the count or the bytes do not fit. */
  method Bytes(t: Tensor) returns (r: Result<nat, Error>)
    ensures Positive(t.ne) ==> r == if Prod(t.ne, 4) <= I64_MAX && Stride(t.dtype.Size(), t.ne, 4) <= U64_MAX
                                    then Ok(Stride(t.dtype.Size(), t.ne, 4)) else Err(Overflow)
    ensures !Positive(t.ne) ==> r.Err?
  {
    var elements := Numel(t.ne);
    if elements.Err? { return Err(elements.error); }
    var n, size := elements.value, t.dtype.Size();
    ProdMono(t.ne, 0, 4);
    if n < 0 || n > U64_MAX { return Err(Overflow); }
    if size != 0 && n > U64_MAX / size { return Err(Overflow); }
    return Ok(n * size);
  }

  /** The tensor of this shape exists: its strides and its byte size fit. */
  predicate Exists(dtype: DType, shape: Quad) {
    && Positive(shape) && Stride(dtype.Size(), shape, 3) <= I64_MAX
    && Prod(shape, 4) <= I64_MAX && 0 < Stride(dtype.Size(), shape, 4) <= U64_MAX
  }

  lemma BytesPositive(size: nat, shape: Quad)
    requires 0 < size && Positive(shape)
    ensures 0 < Stride(size, shape, 4)
  {
    StrideStep(size, shape, 3);
  }

  // ---------------------------------------------------------------------------------------------
  // The address map
  // ---------------------------------------------------------------------------------------------

  predicate InShape(ne: Quad, at: Quad) { forall i | 0 <= i < 4 :: 0 <= at[i] < ne[i] }

  /** The address of element `at`. */
  function Addr(t: Tensor, at: Quad): int {
    t.data + at[0] * t.nb[0] + at[1] * t.nb[1] + at[2] * t.nb[2] + at[3] * t.nb[3]
  }

  /** The position of element `at` in dense order, dimension 0 fastest. */
  function Position(ne: Quad, at: Quad): int {
    at[0] + ne[0] * (at[1] + ne[1] * (at[2] + ne[2] * at[3]))
  }

  /** Element n in dense order. */
  function ElementAt(ne: Quad, n: nat): Quad
    requires Positive(ne)
  {
    [n % ne[0], n / ne[0] % ne[1], n / ne[0] / ne[1] % ne[2], n / ne[0] / ne[1] / ne[2]]
  }

  /** The addresses run through the elements in dense order without gaps. */
  ghost predicate LinearMap(t: Tensor) {
    forall at: Quad | InShape(t.ne, at) :: Addr(t, at) == t.data + t.dtype.Size() * Position(t.ne, at)
  }

  lemma Digit(low: nat, high: int, base: nat)
    requires low < base
    ensures (low + base * high) % base == low && (low + base * high) / base == high
  {
    DivModUnique(low + base * high, base, high, low);
  }

  lemma DigitBound(low: nat, high: nat, base: nat, n: nat)
    requires low < base && high < n
    ensures 0 <= low + base * high < base * n
  {
    MulNonNeg(high, base);
    MulMono(high + 1, n, base);
    assert base * (high + 1) == base * high + base;
  }

  lemma DenseCount(ne: Quad)
    ensures Prod(ne, 4) == ne[0] * (ne[1] * (ne[2] * ne[3]))
    ensures Prod(ne, 1) == ne[0] && Prod(ne, 2) == ne[0] * ne[1] && Prod(ne, 3) == ne[0] * ne[1] * ne[2]
  {
    assert Prod(ne, 1) == Prod(ne, 0) * ne[0] == ne[0];
    assert Prod(ne, 2) == Prod(ne, 1) * ne[1];
    assert Prod(ne, 3) == Prod(ne, 2) * ne[2];
    assert Prod(ne, 4) == Prod(ne, 3) * ne[3];
    assert ne[0] * ne[1] * ne[2] * ne[3] == ne[0] * (ne[1] * (ne[2] * ne[3]));
  }

  /** Positions are below the element count. */
  lemma PositionBound(ne: Quad, at: Quad)
    requires InShape(ne, at)
    ensures 0 <= Position(ne, at) < Prod(ne, 4)
  {
    DenseCount(ne);
    DigitBound(at[2], at[3], ne[2], ne[3]);
    DigitBound(at[1], at[2] + ne[2] * at[3], ne[1], ne[2] * ne[3]);
    DigitBound(at[0], at[1] + ne[1] * (at[2] + ne[2] * at[3]), ne[0], ne[1] * (ne[2] * ne[3]));
  }

  /** Position and ElementAt are inverse to each other: elements and positions correspond one to one. */
  lemma ElementOfPosition(ne: Quad, at: Quad)
    requires Positive(ne) && InShape(ne, at)
    ensures Position(ne, at) >= 0 && ElementAt(ne, Position(ne, at)) == at
  {
    PositionBound(ne, at);
    var z := at[2] + ne[2] * at[3];
    var y := at[1] + ne[1] * z;
    Digit(at[0], y, ne[0]);
    Digit(at[1], z, ne[1]);
    Digit(at[2], at[3], ne[2]);
  }

  lemma PositionOfElement(ne: Quad, n: nat)
    requires Positive(ne) && n < Prod(ne, 4)
    ensures InShape(ne, ElementAt(ne, n)) && Position(ne, ElementAt(ne, n)) == n
  {
    DenseCount(ne);
    var y := n / ne[0];
    var z := y / ne[1];
    QuotientBelow(n, ne[0], ne[1] * (ne[2] * ne[3]));
    QuotientBelow(y, ne[1], ne[2] * ne[3]);
    QuotientBelow(z, ne[2], ne[3]);
  }

  lemma QuotientBelow(n: nat, base: nat, count: int)
    requires 0 < base && n < base * count
    ensures 0 <= n / base < count && n == n % base + base * (n / base)
  {
    if count <= n / base { MulMono(count, n / base, base); }
  }

  // ---------------------------------------------------------------------------------------------
  // Contiguity
  // ---------------------------------------------------------------------------------------------

  /** Every dimension that can vary has the dense stride. */
  predicate DenseStrides(t: Tensor) {
    forall i: nat | i < 4 :: t.ne[i] != 1 ==> t.nb[i] == Stride(t.dtype.Size(), t.ne, i)
  }

  function Unit(i: nat): Quad
    requires i < 4
  {
    [0, 0, 0, 0][i := 1]
  }

  /** Dense strides are the same thing as a linear address map. */
  lemma DenseIsLinear(t: Tensor)
    requires Positive(t.ne)
    ensures DenseStrides(t) <==> LinearMap(t)
  {
    hide Stride;
    if DenseStrides(t) {
      forall at: Quad | InShape(t.ne, at) ensures Addr(t, at) == t.data + t.dtype.Size() * Position(t.ne, at) {
        DenseAddr(t, at);
      }
    }
    if LinearMap(t) {
      forall i: nat | i < 4 && t.ne[i] != 1 ensures t.nb[i] == Stride(t.dtype.Size(), t.ne, i) {
        assert InShape(t.ne, Unit(i));
        UnitAddr(t, i);
      }
    }
  }

  lemma UnitAddr(t: Tensor, i: nat)
    requires i < 4
    ensures Addr(t, Unit(i)) == t.data + t.nb[i]
    ensures t.dtype.Size() * Position(t.ne, Unit(i)) == Stride(t.dtype.Size(), t.ne, i)
  {
    DenseCount(t.ne);
    assert Prod(t.ne, 0) == 1;
    if i == 3 { assert Position(t.ne, Unit(3)) == t.ne[0] * (t.ne[1] * t.ne[2]) == t.ne[0] * t.ne[1] * t.ne[2]; }
  }

  lemma DenseTerm(t: Tensor, i: nat, x: int)
    requires i < 4 && 0 <= x < t.ne[i] && DenseStrides(t)
    ensures x * t.nb[i] == x * Stride(t.dtype.Size(), t.ne, i)
  {
    if t.ne[i] == 1 { assert x == 0; }
  }

  lemma DenseAddr(t: Tensor, at: Quad)
    requires DenseStrides(t) && InShape(t.ne, at)
    ensures Addr(t, at) == t.data + t.dtype.Size() * Position(t.ne, at)
  {
    hide DenseStrides;
    var size, ne := t.dtype.Size(), t.ne;
    DenseTerm(t, 0, at[0]);
    DenseTerm(t, 1, at[1]);
    DenseTerm(t, 2, at[2]);
    DenseTerm(t, 3, at[3]);
    DenseCount(ne);
    DenseSum(size, ne[0], ne[1], ne[2], at[0], at[1], at[2], at[3]);
    assert Prod(ne, 0) == 1;
  }

  lemma DenseSum(s: int, a: int, b: int, c: int, w: int, x: int, y: int, z: int)
    ensures s * (w + a * (x + b * (y + c * z))) == w * (s * 1) + x * (s * a) + y * (s * (a * b)) + z * (s * (a * b * c))
  {
    assert a * (x + b * (y + c * z)) == a * x + a * (b * y) + a * (b * (c * z));
    assert a * (b * y) == y * (a * b) && a * (b * (c * z)) == z * (a * b * c);
  }

  /** is_contiguous: true exactly for a linear address map whose outermost stride fits. */
  method IsContiguous(t: Tensor) returns (c: bool)
    ensures c <==> Positive(t.ne) && Stride(t.dtype.Size(), t.ne, 3) <= I64_MAX && LinearMap(t)
  {
    hide Stride, LinearMap, Addr, Position;
    if Positive(t.ne) { DenseIsLinear(t); }
    var expected: int := t.dtype.Size();
    FirstStride(t.dtype.Size(), t.ne);
    for i := 0 to 4
      invariant forall j: nat | j < i :: 0 < t.ne[j] && (t.ne[j] != 1 ==> t.nb[j] == Stride(t.dtype.Size(), t.ne, j))
      invariant 0 < expected <= I64_MAX
      invariant expected == Stride(t.dtype.Size(), t.ne, if i < 4 then i else 3)
    {
      if t.ne[i] <= 0 { return false; }
      if t.ne[i] != 1 && t.nb[i] != expected { return false; }
      if i < 3 {
        CheckedMulExact(expected, t.ne[i]);
        StridePeel(t.dtype.Size(), t.ne, i);
        if t.ne[i] != 1 {
          var next := CheckedMul(expected, t.ne[i]);
          if Positive(t.ne) { StrideStep(t.dtype.Size(), t.ne, i); }
          if next.Err? { return false; }
          MulMono(1, t.ne[i], expected);
          expected := next.value;
        }
      }
    }
    return true;
  }

  lemma StridePeel(size: nat, ne: Quad, i: nat)
    requires i < 4
    ensures Stride(size, ne, i + 1) == Stride(size, ne, i) * ne[i]
  {
    assert size * (Prod(ne, i) * ne[i]) == (size * Prod(ne, i)) * ne[i];
  }

  // ---------------------------------------------------------------------------------------------
  // Views, slices, permutations
  // ---------------------------------------------------------------------------------------------

  /** view: same elements in the same dense order at the same addresses. */
  method View(t: Tensor, shape: seq<int>) returns (r: Result<Tensor, Error>)
    ensures r.Ok? <==> Positive(t.ne) && Stride(t.dtype.Size(), t.ne, 3) <= I64_MAX && LinearMap(t) && ShapeOk(shape)
                       && Prod(Padded(shape), 4) == Prod(t.ne, 4) <= I64_MAX
                       && Stride(t.dtype.Size(), Padded(shape), 3) <= I64_MAX
    ensures r.Ok? ==> r.value == Dense(t.data, t.dtype, Padded(shape))
    ensures r.Ok? ==> SameElements(t, r.value)
  {
    hide Stride, LinearMap, SameElements;
    var contiguous := IsContiguous(t);
    if !contiguous { return Err(InvalidArgument); }
    var normalized := NormalizeShape(shape);
    if normalized.Err? { return Err(normalized.error); }
    var wanted := Numel(normalized.value);
    if wanted.Err? { return Err(wanted.error); }
    var have := Numel(t.ne);
    if have.Err? { return Err(have.error); }
    if wanted.value != have.value { return Err(InvalidArgument); }
    r := MakeTensor(t.data, t.dtype, shape);
    if r.Ok? { ViewKeepsElements(t, r.value); }
  }

  /** Element n in dense order has the same address in both tensors. */
  ghost predicate SameElements(t: Tensor, v: Tensor) {
    && Positive(t.ne) && Positive(v.ne) && Prod(t.ne, 4) == Prod(v.ne, 4)
    && forall n: nat | n < Prod(t.ne, 4) :: Addr(t, ElementAt(t.ne, n)) == Addr(v, ElementAt(v.ne, n))
  }

  lemma ViewKeepsElements(t: Tensor, v: Tensor)
    requires Positive(t.ne) && Positive(v.ne) && LinearMap(t) && v == Dense(t.data, t.dtype, v.ne)
    requires Prod(t.ne, 4) == Prod(v.ne, 4)
    ensures SameElements(t, v)
  {
    hide Addr, Position, ElementAt, Stride;
    assert DenseStrides(v);
    DenseIsLinear(v);
    forall n: nat | n < Prod(t.ne, 4) ensures Addr(t, ElementAt(t.ne, n)) == Addr(v, ElementAt(v.ne, n)) {
      PositionOfElement(t.ne, n);
      PositionOfElement(v.ne, n);
    }
  }

  /** slice: element `at` of the slice is element `at` of the tensor moved by `start` along `dim`. */
  method Slice(t: Tensor, dim: int, start: int, len: int) returns (r: Result<Tensor, Error>)
    ensures r.Ok? <==> 0 <= dim < 4 && 0 <= start && 0 < len && start + len <= t.ne[dim]
                       && 0 <= t.nb[dim] && start * t.nb[dim] <= I64_MAX
    ensures r.Ok? ==> r.value.ne == t.ne[dim := len] && r.value.nb == t.nb && r.value.dtype == t.dtype
    ensures r.Ok? && t.data != 0 ==> forall at: Quad | InShape(r.value.ne, at) ::
              InShape(t.ne, at[dim := at[dim] + start]) && Addr(r.value, at) == Addr(t, at[dim := at[dim] + start])
    ensures r.Ok? ==> r.value.data == if t.data == 0 then 0 else t.data + start * t.nb[dim]
  {
    if dim < 0 || dim >= 4 { return Err(InvalidArgument); }
    if start < 0 || len <= 0 || start > t.ne[dim] || len > t.ne[dim] - start { return Err(InvalidArgument); }
    var offset := CheckedMul(start, t.nb[dim]);
    if start >= 0 && t.nb[dim] >= 0 { CheckedMulExact(start, t.nb[dim]); }
    if offset.Err? { return Err(offset.error); }
    var out := t.(data := if t.data != 0 then t.data + offset.value else t.data, ne := t.ne[dim := len]);
    if t.data != 0 {
      forall at: Quad | InShape(out.ne, at)
        ensures InShape(t.ne, at[dim := at[dim] + start]) && Addr(out, at) == Addr(t, at[dim := at[dim] + start])
      {
        SliceAddr(t, out, dim, start, len, at);
      }
    }
    return Ok(out);
  }

  lemma SliceAddr(t: Tensor, out: Tensor, dim: nat, start: int, len: int, at: Quad)
    requires dim < 4 && 0 <= start && 0 < len && start + len <= t.ne[dim]
    requires out == t.(data := t.data + start * t.nb[dim], ne := t.ne[dim := len]) && InShape(out.ne, at)
    ensures InShape(t.ne, at[dim := at[dim] + start]) && Addr(out, at) == Addr(t, at[dim := at[dim] + start])
  {
    assert (at[dim] + start) * t.nb[dim] == at[dim] * t.nb[dim] + start * t.nb[dim];
    assert out.ne[dim] == len;
  }

  predicate Permutation(order: seq<int>) {
    |order| == 4 && (forall i | 0 <= i < 4 :: 0 <= order[i] < 4) && forall i, j | 0 <= i < j < 4 :: order[i] != order[j]
  }

  /** Component j of `v` moved to place order[j]. */
  function Placed(order: seq<int>, v: Quad): (w: Quad)
    requires Permutation(order)
    ensures forall j | 0 <= j < 4 :: w[order[j]] == v[j]
  {
    v[order[0] := v[0]][order[1] := v[1]][order[2] := v[2]][order[3] := v[3]]
  }

  /** The loop over `order` with its `seen` marks. */
  method CheckPermutation(order: seq<int>) returns (valid: bool)
    ensures valid <==> Permutation(order)
  {
    if |order| != 4 { return false; }
    var seen := [false, false, false, false];
    for i := 0 to 4
      invariant |seen| == 4 && forall j | 0 <= j < i :: 0 <= order[j] < 4 && seen[order[j]]
      invariant forall k | 0 <= k < 4 && seen[k] :: exists j :: 0 <= j < i && order[j] == k
      invariant forall j, k | 0 <= j < k < i :: order[j] != order[k]
    {
      if order[i] < 0 || order[i] >= 4 || seen[order[i]] { return false; }
      seen := seen[order[i] := true];
    }
    return true;
  }

  /** permute: refused unless `order` is a permutation; element `at` keeps its address under the renamed axes. */
  method Permute(t: Tensor, order: seq<int>) returns (r: Result<Tensor, Error>)
    ensures r.Ok? <==> Permutation(order)
    ensures r.Ok? ==> r.value.data == t.data && r.value.dtype == t.dtype
    ensures r.Ok? ==> t.ne == Placed(order, r.value.ne) && t.nb == Placed(order, r.value.nb)
    ensures r.Ok? ==> forall at: Quad | InShape(r.value.ne, at) ::
              InShape(t.ne, Placed(order, at)) && Addr(t, Placed(order, at)) == Addr(r.value, at)
  {
    hide Addr, Placed;
    var valid := CheckPermutation(order);
    if !valid { return Err(InvalidArgument); }
    var ne := [t.ne[order[0]], t.ne[order[1]], t.ne[order[2]], t.ne[order[3]]];
    var nb := [t.nb[order[0]], t.nb[order[1]], t.nb[order[2]], t.nb[order[3]]];
    var out := Tensor(t.data, t.dtype, ne, nb);
    PermutedBack(order, t.ne, ne);
    PermutedBack(order, t.nb, nb);
    forall at: Quad | InShape(out.ne, at)
      ensures InShape(t.ne, Placed(order, at)) && Addr(t, Placed(order, at)) == Addr(out, at)
    {
      PermutedAddr(order, t, out, at);
    }
    return Ok(out);
  }

  /** A permutation reaches every place. */
  lemma Onto(order: seq<int>, k: nat) returns (j: nat)
    requires Permutation(order) && k < 4
    ensures j < 4 && order[j] == k
  {
    if order[0] == k { j := 0; } else if order[1] == k { j := 1; } else if order[2] == k { j := 2; } else { j := 3; }
  }

  lemma PermutedBack(order: seq<int>, v: Quad, w: Quad)
    requires Permutation(order) && forall j | 0 <= j < 4 :: w[j] == v[order[j]]
    ensures v == Placed(order, w)
  {
    forall k: nat | k < 4 ensures v[k] == Placed(order, w)[k] {
      var j := Onto(order, k);
    }
  }

  function Term(x: int, y: int): int { x * y }

  function Sum4(v: Quad): int { v[0] + v[1] + v[2] + v[3] }

  /** A sum does not depend on the order of its terms. */
  lemma SumPermuted(order: seq<int>, v: Quad)
    requires Permutation(order)
    ensures Sum4(Placed(order, v)) == Sum4(v)
  {}

  lemma PermutedAddr(order: seq<int>, t: Tensor, out: Tensor, at: Quad)
    requires Permutation(order) && t.ne == Placed(order, out.ne) && t.nb == Placed(order, out.nb) && t.data == out.data
    requires InShape(out.ne, at)
    ensures InShape(t.ne, Placed(order, at)) && Addr(t, Placed(order, at)) == Addr(out, at)
  {
    hide Term;
    var moved := Placed(order, at);
    forall k: nat | k < 4 ensures 0 <= moved[k] < t.ne[k] {
      var j := Onto(order, k);
    }
    var terms := [Term(at[0], out.nb[0]), Term(at[1], out.nb[1]), Term(at[2], out.nb[2]), Term(at[3], out.nb[3])];
    var after := [Term(moved[0], t.nb[0]), Term(moved[1], t.nb[1]), Term(moved[2], t.nb[2]), Term(moved[3], t.nb[3])];
    forall k: nat | k < 4 ensures after[k] == Placed(order, terms)[k] {
      var j := Onto(order, k);
    }
    assert after == Placed(order, terms);
    SumPermuted(order, terms);
    AddrIsSum(t, moved);
    AddrIsSum(out, at);
  }

  lemma AddrIsSum(t: Tensor, at: Quad)
    ensures Addr(t, at)
            == t.data + Sum4([Term(at[0], t.nb[0]), Term(at[1], t.nb[1]), Term(at[2], t.nb[2]), Term(at[3], t.nb[3])])
  {}
}
