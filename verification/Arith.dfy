/** Machine-integer bounds, alignment, and the few non-linear facts the address arithmetic of the
    other modules rests on. */
module Arith {
  const U32_MAX: nat := 0xFFFF_FFFF
  const U64_MAX: nat := 0xFFFF_FFFF_FFFF_FFFF
  const I32_MAX: nat := 0x7FFF_FFFF
  const I64_MAX: nat := 0x7FFF_FFFF_FFFF_FFFF

  /** size_t and std::uint64_t. */
  type u64 = x: int | 0 <= x <= U64_MAX

  function Min(a: int, b: int): int { if a <= b then a else b }

  function Max(a: int, b: int): int { if a >= b then a else b }

  /** The least multiple of `alignment` that is at least `value`. */
  function AlignUp(value: nat, alignment: nat): (r: nat)
    requires 0 < alignment
    ensures r % alignment == 0 && value <= r < value + alignment
  {
    MulMod((value + alignment - 1) / alignment, alignment);
    (value + alignment - 1) / alignment * alignment
  }

  /** The greatest multiple of `alignment` that is at most `value`. */
  function AlignDown(value: nat, alignment: nat): (r: nat)
    requires 0 < alignment
    ensures r % alignment == 0 && r <= value < r + alignment
  {
    MulMod(value / alignment, alignment);
    value / alignment * alignment
  }

  lemma MulMod(q: nat, a: nat)
    requires 0 < a
    ensures q * a % a == 0
  {
    DivModUnique(q * a, a, q, 0);
  }

  /** Division with remainder is determined by its defining equation. */
  lemma DivModUnique(x: int, a: nat, q: int, r: nat)
    requires 0 < a && r < a && x == q * a + r
    ensures x / a == q && x % a == r
  {
    var q', r' := x / a, x % a;
    assert x == q' * a + r';
    if q' < q {
      MulMono(q' + 1, q, a);
    } else if q < q' {
      MulMono(q + 1, q', a);
    }
  }

  lemma MulMono(p: int, q: int, a: nat)
    requires p <= q
    ensures p * a <= q * a
  {
    assert q * a - p * a == (q - p) * a;
    MulNonNeg(q - p, a);
  }

  function Times(a: nat, b: nat): nat {
    MulNonNeg(a, b);
    a * b
  }

  lemma MulNonNeg(p: int, a: int)
    requires 0 <= p && 0 <= a
    ensures 0 <= p * a
  {}

  /** A multiple of `a` that is at least `v` is at least the aligned value: AlignUp is the least. */
  lemma AlignUpLeast(v: nat, a: nat, m: nat)
    requires 0 < a && v <= m && m % a == 0
    ensures AlignUp(v, a) <= m
  {
    if m < AlignUp(v, a) { MultiplesApart(m, AlignUp(v, a), a); }
  }

  lemma AlignUpMono(v: nat, w: nat, a: nat)
    requires 0 < a && v <= w
    ensures AlignUp(v, a) <= AlignUp(w, a)
  {
    AlignUpLeast(v, a, AlignUp(w, a));
  }

  lemma AlignUpFixed(v: nat, a: nat)
    requires 0 < a && v % a == 0
    ensures AlignUp(v, a) == v
  {
    AlignUpLeast(v, a, v);
  }

  /** Distinct multiples of `a` are at least `a` apart. */
  lemma MultiplesApart(x: int, y: int, a: nat)
    requires 0 < a && x % a == 0 && y % a == 0 && x < y
    ensures x + a <= y
  {
    var p, q := x / a, y / a;
    assert x == p * a && y == q * a;
    if q <= p { MulMono(q, p, a); }
    MulMono(p + 1, q, a);
  }

  lemma SumAligned(x: int, y: int, a: nat)
    requires 0 < a && x % a == 0 && y % a == 0
    ensures (x + y) % a == 0 && (x - y) % a == 0
  {
    var p, q := x / a, y / a;
    assert x + y == (p + q) * a + 0;
    DivModUnique(x + y, a, p + q, 0);
    assert x - y == (p - q) * a + 0;
    DivModUnique(x - y, a, p - q, 0);
  }

  /** Aligning past an already aligned base aligns the rest. */
  lemma AlignUpShift(base: nat, v: nat, a: nat)
    requires 0 < a && base % a == 0
    ensures AlignUp(base + v, a) == base + AlignUp(v, a)
  {
    hide AlignUp;
    ShiftAbove(base, v, a);
    ShiftBelow(base, v, a);
  }

  lemma ShiftAbove(base: nat, v: nat, a: nat)
    requires 0 < a && base % a == 0
    ensures AlignUp(base + v, a) <= base + AlignUp(v, a)
  {
    hide AlignUp;
    SumAligned(base, AlignUp(v, a), a);
    AlignUpLeast(base + v, a, base + AlignUp(v, a));
  }

  lemma ShiftBelow(base: nat, v: nat, a: nat)
    requires 0 < a && base % a == 0
    ensures base + AlignUp(v, a) <= AlignUp(base + v, a)
  {
    hide AlignUp;
    SumAligned(AlignUp(base + v, a), base, a);
    AlignUpLeast(v, a, AlignUp(base + v, a) - base);
  }

  /** Distinct indices with the same residue are at least the modulus apart. */
  lemma SameResidueApart(x: nat, y: nat, m: nat)
    requires 0 < m && x < y && x % m == y % m
    ensures x + m <= y
  {
    var p, q := x / m, y / m;
    assert x == p * m + x % m && y == q * m + x % m;
    if q <= p { MulMono(q, p, m); }
    MulMono(p + 1, q, m);
  }

  lemma ModShift(x: nat, m: nat)
    requires 0 < m
    ensures (x + m) % m == x % m
  {
    DivModUnique(x + m, m, x / m + 1, x % m);
  }
}
