/** Slots of the linear-attention state (src/core/linear_attention_state.cpp): a slot is one row in every
    layer of two interleaved components, and one pitched transfer per component reaches exactly it. */
module StateSlots {
  import opened Arith
  import opened Bytes
  import opened Dma
  import opened Planes

  /** Slot s of layer l starts at base + s * row + l * pitch. */
  datatype Component = Component(base: nat, row: nat, pitch: nat, layers: nat, slots: nat) {
    function Start(s: nat): nat { base + s * row }

    function Bytes(): nat { slots * row }

    /** The packed size of one slot. */
    function Image(): nat { layers * row }
  }

  predicate Fits(c: Component, size: nat) {
    0 < c.row && 0 < c.layers && c.Bytes() <= c.pitch && forall l | 0 <= l < c.layers ::
      At(c.base, c.pitch, l) + c.Bytes() <= size
  }

  /** Layer by layer, a's tensor ends before b's begins, and b's ends before a's next one begins. */
  predicate Interleaved(a: Component, b: Component) {
    a.pitch == b.pitch && a.layers == b.layers && a.base + a.Bytes() <= b.base && b.base + b.Bytes() <= a.base + a.pitch
  }

  lemma CellInLayer(c: Component, s: nat, l: nat)
    requires s < c.slots
    ensures At(c.base, c.pitch, l) <= At(c.Start(s), c.pitch, l)
    ensures At(c.Start(s), c.pitch, l) + c.row <= At(c.base, c.pitch, l) + c.Bytes()
  {
    MulNonNeg(s, c.row);
    MulMono(s + 1, c.slots, c.row);
    assert (s + 1) * c.row == s * c.row + c.row;
  }

  lemma SlotFits(c: Component, size: nat, s: nat)
    requires Fits(c, size) && s < c.slots
    ensures RowsFit(size, c.Start(s), c.pitch, c.row, c.layers)
  {
    forall l | 0 <= l < c.layers ensures At(c.Start(s), c.pitch, l) + c.row <= size { CellInLayer(c, s, l); }
  }

  /** The packed image of a slot in one component: its rows, layer by layer. */
  function SlotImage(mem: seq<byte>, c: Component, s: nat): (r: seq<byte>)
    requires Fits(c, |mem|) && s < c.slots
    ensures |r| == c.layers * c.row
  {
    SlotFits(c, |mem|, s);
    Rows(mem, c.Start(s), c.pitch, c.row, c.layers)
  }

  /** Byte x of layer l of a packed slot lies l pitches and s rows into the component. */
  lemma SlotByte(mem: seq<byte>, c: Component, s: nat, l: nat, x: nat)
    requires Fits(c, |mem|) && s < c.slots && l < c.layers && x < c.row
    ensures 0 <= l * c.row + x < |SlotImage(mem, c, s)| && 0 <= c.base + l * c.pitch + s * c.row + x < |mem|
    ensures SlotImage(mem, c, s)[l * c.row + x] == mem[c.base + l * c.pitch + s * c.row + x]
  {
    hide Rows;
    SlotFits(c, |mem|, s);
    RowsByte(mem, c.Start(s), c.pitch, c.row, c.layers, l, x);
    MulNonNeg(l, c.row);
  }

  /** A slot overwritten in every layer of one component. */
  function WriteSlot(mem: seq<byte>, c: Component, s: nat, data: seq<byte>): (r: seq<byte>)
    requires Fits(c, |mem|) && s < c.slots && |data| == c.layers * c.row
    ensures |r| == |mem|
  {
    SlotFits(c, |mem|, s);
    SolidRows(|data|, 0, c.row, c.layers);
    Blit(mem, c.Start(s), c.pitch, data, 0, c.row, c.row, c.layers)
  }

  /** The two regions share no byte. */
  predicate RegionsApart(aoff: nat, arow: nat, boff: nat, brow: nat, pitch: nat, layers: nat) {
    forall l, m | 0 <= l < layers && 0 <= m < layers ::
      At(aoff, pitch, l) + arow <= At(boff, pitch, m) || At(boff, pitch, m) + brow <= At(aoff, pitch, l)
  }

  lemma ReadSlot(mem: seq<byte>, c: Component, s: nat, data: seq<byte>)
    requires Fits(c, |mem|) && s < c.slots && |data| == c.layers * c.row
    ensures SlotImage(WriteSlot(mem, c, s, data), c, s) == data
  {
    hide At, Blit, Rows;
    var after := WriteSlot(mem, c, s, data);
    SlotFits(c, |mem|, s);
    SolidRows(|data|, 0, c.row, c.layers);
    RowBelowPitch(c);
    forall l | 0 <= l < c.layers
      ensures after[At(c.Start(s), c.pitch, l)..At(c.Start(s), c.pitch, l) + c.row]
              == data[At(0, c.row, l)..At(0, c.row, l) + c.row]
    {
      BlitRow(mem, c.Start(s), c.pitch, data, 0, c.row, c.row, c.layers, l);
    }
    RowsEqual(after, c.Start(s), c.pitch, data, 0, c.row, c.row, c.layers);
    RowsSolid(data, 0, c.row, c.layers);
    assert data[0..0 + c.layers * c.row] == data;
  }

  lemma RowBelowPitch(c: Component)
    requires 0 < c.slots && c.Bytes() <= c.pitch
    ensures c.row <= c.pitch
  {
    MulMono(1, c.slots, c.row);
  }

  /** Bytes that no row of the slot meets survive a write to it. */
  lemma SlotElsewhere(mem: seq<byte>, c: Component, s: nat, data: seq<byte>, lo: nat, hi: nat)
    requires Fits(c, |mem|) && s < c.slots && |data| == c.layers * c.row && lo <= hi <= |mem|
    requires forall r | 0 <= r < c.layers ::
               hi <= At(c.Start(s), c.pitch, r) || At(c.Start(s), c.pitch, r) + c.row <= lo
    ensures WriteSlot(mem, c, s, data)[lo..hi] == mem[lo..hi]
  {
    hide At, Blit;
    SlotFits(c, |mem|, s);
    SolidRows(|data|, 0, c.row, c.layers);
    BlitElsewhere(mem, c.Start(s), c.pitch, data, 0, c.row, c.row, c.layers, lo, hi);
  }

  /** A region apart from the written slot keeps its rows. */
  lemma ReadElsewhere(mem: seq<byte>, c: Component, s: nat, data: seq<byte>, off: nat, row: nat)
    requires Fits(c, |mem|) && s < c.slots && |data| == c.layers * c.row
    requires RowsFit(|mem|, off, c.pitch, row, c.layers) && RegionsApart(off, row, c.Start(s), c.row, c.pitch, c.layers)
    ensures Rows(WriteSlot(mem, c, s, data), off, c.pitch, row, c.layers) == Rows(mem, off, c.pitch, row, c.layers)
  {
    hide At, Blit, Rows, Fits, WriteSlot;
    var after := WriteSlot(mem, c, s, data);
    forall l | 0 <= l < c.layers
      ensures after[At(off, c.pitch, l)..At(off, c.pitch, l) + row]
              == mem[At(off, c.pitch, l)..At(off, c.pitch, l) + row]
    {
      var lo := At(off, c.pitch, l);
      assert lo + row <= |mem|;
      SlotElsewhere(mem, c, s, data, lo, lo + row);
    }
    RowsEqual(after, off, c.pitch, mem, off, c.pitch, row, c.layers);
  }

  lemma OtherSlotApart(c: Component, s: nat, t: nat)
    requires s < c.slots && t < c.slots && s != t && c.Bytes() <= c.pitch
    ensures RegionsApart(c.Start(t), c.row, c.Start(s), c.row, c.pitch, c.layers)
  {
    forall l, m | 0 <= l < c.layers && 0 <= m < c.layers
      ensures At(c.Start(t), c.pitch, l) + c.row <= At(c.Start(s), c.pitch, m)
              || At(c.Start(s), c.pitch, m) + c.row <= At(c.Start(t), c.pitch, l)
    {
      CellInLayer(c, s, m);
      CellInLayer(c, t, l);
      if l == m {
        if t < s { MulMono(t + 1, s, c.row); } else { MulMono(s + 1, t, c.row); }
        assert (t + 1) * c.row == t * c.row + c.row && (s + 1) * c.row == s * c.row + c.row;
      } else {
        LayersApart(c, l, m);
      }
    }
  }

  lemma LayersApart(c: Component, l: nat, m: nat)
    requires l != m
    ensures At(c.base, c.pitch, l) + c.pitch <= At(c.base, c.pitch, m)
            || At(c.base, c.pitch, m) + c.pitch <= At(c.base, c.pitch, l)
  {
    if l < m { MulMono(l + 1, m, c.pitch); } else { MulMono(m + 1, l, c.pitch); }
    assert (l + 1) * c.pitch == l * c.pitch + c.pitch && (m + 1) * c.pitch == m * c.pitch + c.pitch;
  }

  lemma ComponentsApart(a: Component, b: Component, s: nat, t: nat)
    requires Interleaved(a, b) && s < a.slots && t < b.slots
    ensures RegionsApart(a.Start(s), a.row, b.Start(t), b.row, a.pitch, a.layers)
    ensures RegionsApart(b.Start(t), b.row, a.Start(s), a.row, a.pitch, a.layers)
  {
    forall l, m | 0 <= l < a.layers && 0 <= m < a.layers
      ensures At(a.Start(s), a.pitch, l) + a.row <= At(b.Start(t), a.pitch, m)
              || At(b.Start(t), a.pitch, m) + b.row <= At(a.Start(s), a.pitch, l)
    {
      CellInLayer(a, s, l);
      CellInLayer(b, t, m);
      if l != m { LayersApart(a, l, m); }
    }
  }

  // ---------------------------------------------------------------------------------------------
  // Both components
  // ---------------------------------------------------------------------------------------------

  predicate PairFits(a: Component, b: Component, size: nat) {
    Fits(a, size) && Fits(b, size) && Interleaved(a, b) && a.slots == b.slots
  }

  /** Slot s overwritten in both components. */
  function WriteBoth(mem: seq<byte>, a: Component, b: Component, s: nat, x: seq<byte>, y: seq<byte>): (r: seq<byte>)
    requires PairFits(a, b, |mem|) && s < a.slots && |x| == a.layers * a.row && |y| == b.layers * b.row
    ensures |r| == |mem|
  {
    WriteSlot(WriteSlot(mem, a, s, x), b, s, y)
  }

  /** Byte i lies in no row of slot s. */
  predicate OutsideSlot(c: Component, s: nat, i: nat) {
    forall l | 0 <= l < c.layers :: i < At(c.Start(s), c.pitch, l) || At(c.Start(s), c.pitch, l) + c.row <= i
  }

  /** `after` differs from `before` only in slot s, which holds x and y. */
  ghost predicate WroteSlot(before: seq<byte>, after: seq<byte>, a: Component, b: Component, s: nat, x: seq<byte>,
      y: seq<byte>)
    requires PairFits(a, b, |before|) && s < a.slots
  {
    && |after| == |before|
    && SlotImage(after, a, s) == x && SlotImage(after, b, s) == y
    && (forall t: nat | t < a.slots && t != s ::
          SlotImage(after, a, t) == SlotImage(before, a, t) && SlotImage(after, b, t) == SlotImage(before, b, t))
    && forall i: nat | i < |before| && OutsideSlot(a, s, i) && OutsideSlot(b, s, i) :: after[i] == before[i]
  }

  /** Writing a slot touches exactly that slot, in every layer of both components. */
  lemma WriteBothExact(mem: seq<byte>, a: Component, b: Component, s: nat, x: seq<byte>, y: seq<byte>)
    requires PairFits(a, b, |mem|) && s < a.slots && |x| == a.layers * a.row && |y| == b.layers * b.row
    ensures WroteSlot(mem, WriteBoth(mem, a, b, s, x, y), a, b, s, x, y)
  {
    hide SlotImage, WriteSlot, OutsideSlot;
    var mid := WriteSlot(mem, a, s, x);
    var after := WriteSlot(mid, b, s, y);
    ReadSlot(mem, a, s, x);
    ReadSlot(mid, b, s, y);
    OtherComponent(mid, a, b, s, y, s);
    forall t: nat | t < a.slots && t != s
      ensures SlotImage(after, a, t) == SlotImage(mem, a, t) && SlotImage(after, b, t) == SlotImage(mem, b, t)
    {
      OtherSlot(mem, a, s, x, t);
      OtherComponent(mid, a, b, s, y, t);
      OtherComponentBack(mem, a, b, s, x, t);
      OtherSlot(mid, b, s, y, t);
    }
    forall i: nat | i < |mem| && OutsideSlot(a, s, i) && OutsideSlot(b, s, i) ensures after[i] == mem[i] {
      OutsideKept(mem, a, s, x, i);
      OutsideKept(mid, b, s, y, i);
    }
  }

  lemma OtherSlot(mem: seq<byte>, c: Component, s: nat, data: seq<byte>, t: nat)
    requires Fits(c, |mem|) && s < c.slots && t < c.slots && s != t && |data| == c.layers * c.row
    ensures SlotImage(WriteSlot(mem, c, s, data), c, t) == SlotImage(mem, c, t)
  {
    hide WriteSlot, RegionsApart, Rows;
    SlotFits(c, |mem|, t);
    OtherSlotApart(c, s, t);
    ReadElsewhere(mem, c, s, data, c.Start(t), c.row);
  }

  /** Writing b leaves a alone. */
  lemma OtherComponent(mem: seq<byte>, a: Component, b: Component, s: nat, data: seq<byte>, t: nat)
    requires PairFits(a, b, |mem|) && s < a.slots && t < a.slots && |data| == b.layers * b.row
    ensures SlotImage(WriteSlot(mem, b, s, data), a, t) == SlotImage(mem, a, t)
  {
    hide WriteSlot, RegionsApart, Rows;
    SlotFits(a, |mem|, t);
    ComponentsApart(a, b, t, s);
    ReadElsewhere(mem, b, s, data, a.Start(t), a.row);
  }

  /** Writing a leaves b alone. */
  lemma OtherComponentBack(mem: seq<byte>, a: Component, b: Component, s: nat, data: seq<byte>, t: nat)
    requires PairFits(a, b, |mem|) && s < a.slots && t < a.slots && |data| == a.layers * a.row
    ensures SlotImage(WriteSlot(mem, a, s, data), b, t) == SlotImage(mem, b, t)
  {
    hide WriteSlot, RegionsApart, Rows;
    SlotFits(b, |mem|, t);
    ComponentsApart(a, b, s, t);
    ReadElsewhere(mem, a, s, data, b.Start(t), b.row);
  }

  lemma OutsideKept(mem: seq<byte>, c: Component, s: nat, data: seq<byte>, i: nat)
    requires Fits(c, |mem|) && s < c.slots && |data| == c.layers * c.row && i < |mem| && OutsideSlot(c, s, i)
    ensures WriteSlot(mem, c, s, data)[i] == mem[i]
  {
    hide At, Blit;
    SlotFits(c, |mem|, s);
    SolidRows(|data|, 0, c.row, c.layers);
    var after := WriteSlot(mem, c, s, data);
    BlitElsewhere(mem, c.Start(s), c.pitch, data, 0, c.row, c.row, c.layers, i, i + 1);
    assert after[i..i + 1][0] == mem[i..i + 1][0];
  }
}
