/** The slot operations of the linear-attention state pool (src/core/linear_attention_state.cpp): zero, copy,
    pack and unpack, each proved to touch exactly one slot in every layer. */
module StateOps {
  import opened Arith
  import opened Results
  import opened Bytes
  import opened Dma
  import opened Planes
  import opened PageRuns
  import opened Tensors
  import opened Layout
  import opened StateSlots
  import opened StatePlan
  import opened StatePool

  // ---------------------------------------------------------------------------------------------
  // Where a slot is
  // ---------------------------------------------------------------------------------------------

  /** The slot's offset inside a recurrent tensor fits a signed 64-bit integer. */
  predicate Sliceable(s: StateSpec, slot: int) { slot * RecurrentRow(s) <= I64_MAX }

  /** A pool with at least two layers can slice every slot; with one layer every slot up to the 8 EiB mark. */
  lemma SliceableAlways(pool: LinearAttentionStatePool, slot: int)
    requires pool.Valid() && SlotOk(pool, slot) && pool.spec.layers > 1
    ensures Sliceable(pool.spec, slot)
  {
    hide AlignUp, Stride, Prod, ConvRegion, RecurrentRegion;
    ShapeFacts(pool.spec);
    StrideFits(pool.spec, pool.first, pool.base);
    MulMono(slot, pool.spec.slots, RecurrentRow(pool.spec));
  }

  /** The condition is not empty: this single-layer pool can be planned and bound, yet its last slot cannot
      be sliced, so zero_slot and the other slot operations throw on it. */
  lemma UnsliceableSlot() returns (s: StateSpec, slot: nat)
    ensures ShapesExist(s) && s.layers == 1 && slot < s.slots && !Sliceable(s, slot)
    ensures ARENA_ALIGN + LayoutEnd(s, 0) <= TWO_64
  {
    s := StateSpec(1, 1, 1, 0x8000, 0x1_0000, 0x1_0000, 0x4002, BF16);
    slot := 0x4001;
    var c, v := ConvShape(s), RecurrentShape(s);
    DenseCount(c);
    DenseCount(v);
    assert Prod(v, 4) == Prod(v, 3) * 0x4002 && Prod(c, 4) == 0x4002;
  }

  lemma SlotPlace(pool: LinearAttentionStatePool, layer: nat, slot: nat)
    requires pool.Valid() && layer < pool.spec.layers && slot < pool.spec.slots
    ensures Exists(pool.spec.convDtype, ConvShape(pool.spec)) && slot * ConvRow(pool.spec) <= I64_MAX
    ensures pool.conv[layer].data + slot * ConvRow(pool.spec)
            == pool.base + At(pool.ConvC().Start(slot), pool.ConvC().pitch, layer)
    ensures pool.recurrent[layer].data + slot * RecurrentRow(pool.spec)
            == pool.base + At(pool.RecurrentC().Start(slot), pool.RecurrentC().pitch, layer)
  {
    hide AlignUp, Stride, Prod;
    ShapeFacts(pool.spec);
    MulMono(slot, pool.spec.slots, ConvRow(pool.spec));
  }

  /** The bytes of one slot of one layer. */
  lemma RowBytes(s: StateSpec)
    ensures ConvRow(s) == s.convDtype.Size() * (s.channels * s.width)
    ensures RecurrentRow(s) == 4 * (s.keyDim * s.valueDim * s.heads)
  {
    assert Prod(ConvShape(s), 2) == Prod(ConvShape(s), 1) * s.width && Prod(ConvShape(s), 1) == s.channels;
    DenseCount(RecurrentShape(s));
  }

  /** conv_slot. */
  method ConvSlot(pool: LinearAttentionStatePool, layer: nat, slot: int) returns (r: Result<Tensor, Error>)
    requires pool.Valid()
    ensures r.Ok? <==> layer < pool.spec.layers && SlotOk(pool, slot)
    ensures r.Err? ==> r.error == OutOfRange
    ensures r.Ok? ==> r.value.data == pool.base + At(pool.ConvC().Start(slot), pool.ConvC().pitch, layer)
    ensures r.Ok? ==> Exists(r.value.dtype, r.value.ne)
                      && Stride(r.value.dtype.Size(), r.value.ne, 4) == pool.ConvC().row
    ensures r.Ok? ==> var s := pool.spec;
                      && r.value.dtype == s.convDtype && r.value.ne == [s.channels, s.width, 1, 1]
                      && r.value.data == pool.conv[layer].data + slot * (s.convDtype.Size() * (s.channels * s.width))
  {
    hide AlignUp, Stride, Prod, At, LayoutEnd;
    if layer >= |pool.conv| { return Err(OutOfRange); }
    if slot < 0 || slot >= pool.spec.slots { return Err(OutOfRange); }
    SlotPlace(pool, layer, slot);
    RowBytes(pool.spec);
    var view := SlotView(pool.conv[layer], 2, slot, [pool.spec.channels, pool.spec.width]);
    assert view.Ok?;
    return Ok(view.value);
  }

  /** recurrent_slot. */
  method RecurrentSlot(pool: LinearAttentionStatePool, layer: nat, slot: int) returns (r: Result<Tensor, Error>)
    requires pool.Valid()
    ensures r.Ok? <==> layer < pool.spec.layers && SlotOk(pool, slot) && Sliceable(pool.spec, slot)
    ensures r.Err? ==> r.error == if layer < pool.spec.layers && SlotOk(pool, slot) then Overflow else OutOfRange
    ensures r.Ok? ==> r.value.data == pool.base + At(pool.RecurrentC().Start(slot), pool.RecurrentC().pitch, layer)
    ensures r.Ok? ==> Exists(r.value.dtype, r.value.ne)
                      && Stride(r.value.dtype.Size(), r.value.ne, 4) == pool.RecurrentC().row
    ensures r.Ok? ==> var s := pool.spec;
                      && r.value.dtype == FP32 && r.value.ne == [s.keyDim, s.valueDim, s.heads, 1]
                      && r.value.data == pool.recurrent[layer].data + slot * (4 * (s.keyDim * s.valueDim * s.heads))
  {
    hide AlignUp, Stride, Prod, At, LayoutEnd;
    if layer >= |pool.conv| { return Err(OutOfRange); }
    if slot < 0 || slot >= pool.spec.slots { return Err(OutOfRange); }
    SlotPlace(pool, layer, slot);
    RowBytes(pool.spec);
    r := SlotView(pool.recurrent[layer], 3, slot, [pool.spec.keyDim, pool.spec.valueDim, pool.spec.heads]);
  }

  // ---------------------------------------------------------------------------------------------
  // Pitched transfers are slot writes
  // ---------------------------------------------------------------------------------------------

  /** With one row the pitch does not matter. */
  lemma OneRowPitch(dst: seq<byte>, d: nat, p: nat, q: nat, src: seq<byte>, s: nat, u: nat, w: nat, width: nat)
    requires RowsFit(|dst|, d, p, width, 1) && RowsFit(|src|, s, u, width, 1)
    ensures RowsFit(|dst|, d, q, width, 1) && RowsFit(|src|, s, w, width, 1)
    ensures Blit(dst, d, p, src, s, u, width, 1) == Blit(dst, d, q, src, s, w, width, 1)
  {
    AtIs(d, p, 0);
    AtIs(d, q, 0);
    AtIs(s, u, 0);
    AtIs(s, w, 0);
    BlitStep(dst, d, p, src, s, u, width, 1);
    BlitStep(dst, d, q, src, s, w, width, 1);
    BlitNone(dst, d, p, src, s, u, width);
    BlitNone(dst, d, q, src, s, w, width);
  }

  /** Copying any rows into a slot is writing the slot with those rows. */
  lemma BlitIsSlotWrite(mem: seq<byte>, c: Component, slot: nat, src: seq<byte>, soff: nat, spitch: nat)
    requires Fits(c, |mem|) && slot < c.slots && RowsFit(|src|, soff, spitch, c.row, c.layers)
    ensures RowsFit(|mem|, c.Start(slot), c.pitch, c.row, c.layers)
    ensures Blit(mem, c.Start(slot), c.pitch, src, soff, spitch, c.row, c.layers)
            == WriteSlot(mem, c, slot, Rows(src, soff, spitch, c.row, c.layers))
  {
    hide At, Blit;
    SlotFits(c, |mem|, slot);
    var block := Rows(src, soff, spitch, c.row, c.layers);
    RowsSolid(block, 0, c.row, c.layers);
    assert block[0..0 + c.Image()] == block;
    BlitSame(mem, c.Start(slot), c.pitch, src, soff, spitch, block, 0, c.row, c.row, c.layers);
  }

  /** The pitch zero_slot passes: the row itself for one layer, the layer stride otherwise. */
  function PitchFor(c: Component): nat { if c.layers == 1 then c.row else c.pitch }

  /** One pitched fill clears the slot in every layer. */
  method ClearComponent(device: array<byte>, at: nat, pitch: nat, bytes: nat, layers: nat, ghost c: Component,
      ghost slot: nat)
    requires Fits(c, device.Length) && slot < c.slots
    requires at == c.Start(slot) && pitch == PitchFor(c) && bytes == c.row && layers == c.layers
    modifies device
    ensures device[..] == WriteSlot(old(device[..]), c, slot, Filled(c.Image(), 0))
  {
    hide At, Blit, WriteSlot;
    ghost var zeros := Filled(c.row, 0);
    FilledRows(c.row, c.row, 0, c.layers);
    SlotFits(c, device.Length, slot);
    BlitIsSlotWrite(device[..], c, slot, zeros, 0, 0);
    if c.layers == 1 { OneRowPitch(device[..], c.Start(slot), c.pitch, c.row, zeros, 0, 0, 0, c.row); }
    Fill2D(device, at, pitch, 0, bytes, layers);
  }

  /** One copy per component, contiguous for one layer and pitched otherwise. */
  method PackComponent(host: array<byte>, device: array<byte>, at: nat, pitch: nat, bytes: nat, layers: nat,
                       ghost c: Component, ghost slot: nat)
    requires host != device && Fits(c, device.Length) && slot < c.slots && c.Image() <= host.Length
    requires at == c.Start(slot) && (layers > 1 ==> pitch == c.pitch) && bytes == c.row && layers == c.layers
    modifies host
    ensures host[..] == Splice(old(host[..]), 0, SlotImage(device[..], c, slot))
  {
    hide At, Blit, Splice;
    SlotFits(c, device.Length, slot);
    BlitRows(host[..], 0, device[..], c.Start(slot), c.pitch, c.row, c.layers);
    if layers == 1 {
      OneRow(host[..], 0, c.row, device[..], c.Start(slot), c.pitch, c.row);
      assert device[at..at + bytes] == device[..][at..at + bytes];
      Copy(host, 0, device, at, bytes);
    } else {
      Copy2D(host, 0, bytes, device, at, pitch, bytes, layers);
    }
  }

  /** Spreading a solid image over a slot is writing the slot with it; for one layer it is a plain copy. */
  lemma SolidIsSlotWrite(mem: seq<byte>, c: Component, slot: nat, host: seq<byte>)
    requires Fits(c, |mem|) && slot < c.slots && c.Image() <= |host|
    ensures RowsFit(|mem|, c.Start(slot), c.pitch, c.row, c.layers) && RowsFit(|host|, 0, c.row, c.row, c.layers)
    ensures Blit(mem, c.Start(slot), c.pitch, host, 0, c.row, c.row, c.layers)
            == WriteSlot(mem, c, slot, host[..c.Image()])
    ensures c.layers == 1 ==> c.Start(slot) + c.row <= |mem| && c.row <= |host|
                              && Splice(mem, c.Start(slot), host[0..0 + c.row])
                                == WriteSlot(mem, c, slot, host[..c.Image()])
  {
    hide At, Blit, Splice, WriteSlot, Rows, RowsFit, Fits;
    SlotFits(c, |mem|, slot);
    RowsSolid(host, 0, c.row, c.layers);
    assert host[0..0 + c.Image()] == host[..c.Image()];
    BlitIsSlotWrite(mem, c, slot, host, 0, c.row);
    if c.layers == 1 { OneLayerCopy(mem, c, slot, host); }
  }

  lemma OneLayerCopy(mem: seq<byte>, c: Component, slot: nat, host: seq<byte>)
    requires c.layers == 1 && RowsFit(|mem|, c.Start(slot), c.pitch, c.row, 1) && RowsFit(|host|, 0, c.row, c.row, 1)
    ensures c.Start(slot) + c.row <= |mem| && c.row <= |host|
    ensures Blit(mem, c.Start(slot), c.pitch, host, 0, c.row, c.row, 1)
            == Splice(mem, c.Start(slot), host[0..0 + c.row])
  {
    hide At, Blit, Splice;
    OneRow(mem, c.Start(slot), c.pitch, host, 0, c.row, c.row);
  }

  method UnpackComponent(device: array<byte>, at: nat, pitch: nat, bytes: nat, layers: nat, host: array<byte>,
                         ghost c: Component, ghost slot: nat)
    requires host != device && Fits(c, device.Length) && slot < c.slots && c.Image() <= host.Length
    requires at == c.Start(slot) && (layers > 1 ==> pitch == c.pitch) && bytes == c.row && layers == c.layers
    modifies device
    ensures device[..] == WriteSlot(old(device[..]), c, slot, host[..c.Image()])
  {
    hide At, Blit, Splice, WriteSlot, RowsFit;
    SolidIsSlotWrite(device[..], c, slot, host[..]);
    assert host[..][..c.Image()] == host[..c.Image()];
    if layers == 1 {
      assert host[0..0 + c.row] == host[..][0..0 + c.row];
      Copy(device, at, host, 0, bytes);
    } else {
      Copy2D(device, at, pitch, host, 0, bytes, bytes, layers);
    }
  }

  lemma CopyIsSlotWrite(mem: seq<byte>, c: Component, from: nat, slot: nat)
    requires Fits(c, |mem|) && from < c.slots && slot < c.slots
    ensures RowsFit(|mem|, c.Start(slot), c.pitch, c.row, c.layers)
            && RowsFit(|mem|, c.Start(from), c.pitch, c.row, c.layers)
    ensures Blit(mem, c.Start(slot), c.pitch, mem, c.Start(from), c.pitch, c.row, c.layers)
            == WriteSlot(mem, c, slot, SlotImage(mem, c, from))
  {
    hide At, Blit, WriteSlot;
    SlotFits(c, |mem|, from);
    SlotFits(c, |mem|, slot);
    BlitIsSlotWrite(mem, c, slot, mem, c.Start(from), c.pitch);
  }

  /** The layer loop of copy_slot for one component, at the addresses conv_slot and recurrent_slot give. */
  method CopyComponent(device: array<byte>, c: Component, from: nat, slot: nat)
    requires Fits(c, device.Length) && from < c.slots && slot < c.slots && from != slot
    modifies device
    ensures device[..] == WriteSlot(old(device[..]), c, slot, SlotImage(old(device[..]), c, from))
  {
    hide At, Blit, Splice, WriteSlot, SlotImage;
    ghost var before := device[..];
    CopyIsSlotWrite(before, c, from, slot);
    SlotFits(c, device.Length, from);
    SlotFits(c, device.Length, slot);
    OtherSlotApart(c, slot, from);
    BlitNone(before, c.Start(slot), c.pitch, before, c.Start(from), c.pitch, c.row);
    for l := 0 to c.layers
      invariant device[..] == Blit(before, c.Start(slot), c.pitch, before, c.Start(from), c.pitch, c.row, l)
    {
      var d, s := At(c.Start(slot), c.pitch, l), At(c.Start(from), c.pitch, l);
      BlitElsewhere(before, c.Start(slot), c.pitch, before, c.Start(from), c.pitch, c.row, l, s, s + c.row);
      BlitStep(before, c.Start(slot), c.pitch, before, c.Start(from), c.pitch, c.row, l + 1);
      MoveRow(device, d, s, c.row);
    }
  }

  // ---------------------------------------------------------------------------------------------
  // The operations
  // ---------------------------------------------------------------------------------------------

  /** The verdict of every slot operation on one slot. */
  function SlotVerdict(pool: LinearAttentionStatePool, slot: int): Result<(), Error> {
    if !SlotOk(pool, slot) then Err(OutOfRange) else if !Sliceable(pool.spec, slot) then Err(Overflow) else Ok(())
  }

  method ConvPlace(pool: LinearAttentionStatePool, slot: nat) returns (at: nat, bytes: nat)
    requires pool.Valid() && SlotOk(pool, slot)
    ensures at == pool.ConvC().Start(slot) && bytes == pool.ConvC().row
  {
    hide AlignUp, Stride, Prod, At, LayoutEnd;
    var view := ConvSlot(pool, 0, slot);
    FirstCell(pool.ConvC(), slot);
    assert view.Ok?;
    var size := Tensors.Bytes(view.value);
    assert size.Ok?;
    return view.value.data - pool.base, size.value;
  }

  method RecurrentPlace(pool: LinearAttentionStatePool, slot: nat) returns (r: Result<(nat, nat), Error>)
    requires pool.Valid() && SlotOk(pool, slot)
    ensures r == if Sliceable(pool.spec, slot) then Ok((pool.RecurrentC().Start(slot), pool.RecurrentC().row))
            else Err(Overflow)
  {
    hide AlignUp, Stride, Prod, At, LayoutEnd;
    var view := RecurrentSlot(pool, 0, slot);
    if view.Err? { return Err(view.error); }
    FirstCell(pool.RecurrentC(), slot);
    var size := Tensors.Bytes(view.value);
    assert size.Ok?;
    return Ok((view.value.data - pool.base, size.value));
  }

  lemma FirstCell(c: Component, slot: nat)
    ensures At(c.Start(slot), c.pitch, 0) == c.Start(slot)
  {}

  /** zero_slot: clears the slot in every layer; if the recurrent part cannot be sliced, the convolution part is
      already cleared. */
  method ZeroSlot(pool: LinearAttentionStatePool, slot: int) returns (r: Result<(), Error>)
    requires pool.Valid()
    modifies pool.device
    ensures r == SlotVerdict(pool, slot)
    ensures r == Err(OutOfRange) ==> pool.device[..] == old(pool.device[..])
    ensures PairFits(pool.ConvC(), pool.RecurrentC(), pool.device.Length)
    ensures r == Err(Overflow) ==>
              pool.device[..] == WriteSlot(old(pool.device[..]), pool.ConvC(), slot, Filled(pool.ConvC().Image(), 0))
    ensures r.Ok? ==> var x, y := Filled(pool.ConvC().Image(), 0), Filled(pool.RecurrentC().Image(), 0);
                      WroteSlot(old(pool.device[..]), pool.device[..], pool.ConvC(), pool.RecurrentC(), slot, x, y)
  {
    hide AlignUp, Stride, Prod, At, LayoutEnd, WroteSlot, WriteSlot, Fits, Interleaved, Exists, Sliceable;
    PartsFit(pool.spec, pool.first, pool.device.Length);
    if slot < 0 || slot >= pool.spec.slots { return Err(OutOfRange); }
    ghost var before := pool.device[..];
    ghost var c, v := pool.ConvC(), pool.RecurrentC();
    var layers := |pool.conv|;
    var convStride, recurrentStride := AllLayersView(pool);
    var at, bytes := ConvPlace(pool, slot);
    ClearComponent(pool.device, at, if layers == 1 then bytes else convStride, bytes, layers, c, slot);
    var recurrent := RecurrentPlace(pool, slot);
    if recurrent.Err? { return Err(recurrent.error); }
    at, bytes := recurrent.value.0, recurrent.value.1;
    ClearComponent(pool.device, at, if layers == 1 then bytes else recurrentStride, bytes, layers, v, slot);
    WriteBothExact(before, c, v, slot, Filled(c.Image(), 0), Filled(v.Image(), 0));
    return Ok(());
  }

  /** pack_slot_to_host: each host buffer receives the slot's rows, layer by layer. */
  method PackSlot(pool: LinearAttentionStatePool, slot: int, convHost: array?<byte>, recurrentHost: array?<byte>)
    returns (r: Result<(), Error>)
    requires pool.Valid() && convHost != pool.device && recurrentHost != pool.device
    requires convHost != null && recurrentHost != null ==>
               convHost != recurrentHost && pool.ConvC().Image() <= convHost.Length
               && pool.RecurrentC().Image() <= recurrentHost.Length
    modifies convHost, recurrentHost
    ensures r == if SlotOk(pool, slot) && (convHost == null || recurrentHost == null) then Err(InvalidArgument)
            else SlotVerdict(pool, slot)
    ensures r == Err(OutOfRange) || r == Err(InvalidArgument) ==>
              (convHost != null ==> convHost[..] == old(convHost[..]))
                && (recurrentHost != null ==> recurrentHost[..] == old(recurrentHost[..]))
    ensures PairFits(pool.ConvC(), pool.RecurrentC(), pool.device.Length)
    ensures r == Err(Overflow) ==>
              && convHost[..] == Splice(old(convHost[..]), 0, SlotImage(pool.device[..], pool.ConvC(), slot))
              && recurrentHost[..] == old(recurrentHost[..])
    ensures r.Ok? ==> convHost[..] == Splice(old(convHost[..]), 0, SlotImage(pool.device[..], pool.ConvC(), slot))
    ensures r.Ok? ==> recurrentHost[..]
                      == Splice(old(recurrentHost[..]), 0, SlotImage(pool.device[..], pool.RecurrentC(), slot))
  {
    hide AlignUp, Stride, Prod, At, LayoutEnd, SlotImage, Splice, Fits, Interleaved, Exists, Sliceable;
    PartsFit(pool.spec, pool.first, pool.device.Length);
    if slot < 0 || slot >= pool.spec.slots { return Err(OutOfRange); }
    if convHost == null || recurrentHost == null { return Err(InvalidArgument); }
    ghost var c, v := pool.ConvC(), pool.RecurrentC();
    var layers := |pool.conv|;
    var convPitch, recurrentPitch := LayerStrides(pool);
    var at, bytes := ConvPlace(pool, slot);
    PackComponent(convHost, pool.device, at, convPitch, bytes, layers, c, slot);
    var recurrent := RecurrentPlace(pool, slot);
    if recurrent.Err? { return Err(recurrent.error); }
    PackComponent(recurrentHost, pool.device, recurrent.value.0, recurrentPitch, recurrent.value.1, layers, v, slot);
    return Ok(());
  }

  /** unpack_slot_from_host: exactly the slot takes the two host images. */
  method UnpackSlot(pool: LinearAttentionStatePool, slot: int, convHost: array?<byte>, recurrentHost: array?<byte>)
    returns (r: Result<(), Error>)
    requires pool.Valid() && convHost != pool.device && recurrentHost != pool.device
    requires convHost != null && recurrentHost != null ==>
               pool.ConvC().Image() <= convHost.Length
               && pool.RecurrentC().Image() <= recurrentHost.Length
    modifies pool.device
    ensures r == if SlotOk(pool, slot) && (convHost == null || recurrentHost == null) then Err(InvalidArgument)
            else SlotVerdict(pool, slot)
    ensures r == Err(OutOfRange) || r == Err(InvalidArgument) ==> pool.device[..] == old(pool.device[..])
    ensures PairFits(pool.ConvC(), pool.RecurrentC(), pool.device.Length)
    ensures r == Err(Overflow) ==>
              pool.device[..] == WriteSlot(old(pool.device[..]), pool.ConvC(), slot, convHost[..pool.ConvC().Image()])
    ensures r.Ok? ==> WroteSlot(old(pool.device[..]), pool.device[..], pool.ConvC(), pool.RecurrentC(), slot,
                                convHost[..pool.ConvC().Image()],
                                recurrentHost[..pool.RecurrentC().Image()])
  {
    hide AlignUp, Stride, Prod, At, LayoutEnd, WroteSlot, WriteSlot, Fits, Interleaved, Exists, Sliceable;
    PartsFit(pool.spec, pool.first, pool.device.Length);
    if slot < 0 || slot >= pool.spec.slots { return Err(OutOfRange); }
    if convHost == null || recurrentHost == null { return Err(InvalidArgument); }
    ghost var before := pool.device[..];
    ghost var c, v := pool.ConvC(), pool.RecurrentC();
    var layers := |pool.conv|;
    var convPitch, recurrentPitch := LayerStrides(pool);
    var at, bytes := ConvPlace(pool, slot);
    UnpackComponent(pool.device, at, convPitch, bytes, layers, convHost, c, slot);
    var recurrent := RecurrentPlace(pool, slot);
    if recurrent.Err? { return Err(recurrent.error); }
    UnpackComponent(pool.device, recurrent.value.0, recurrentPitch, recurrent.value.1, layers, recurrentHost, v, slot);
    WriteBothExact(before, c, v, slot, convHost[..c.Image()], recurrentHost[..v.Image()]);
    return Ok(());
  }

  /** copy_slot: the destination slot takes the source slot in every layer; copying a slot onto itself does nothing. */
  method CopySlot(pool: LinearAttentionStatePool, from: int, slot: int) returns (r: Result<(), Error>)
    requires pool.Valid()
    modifies pool.device
    ensures r == if !SlotOk(pool, from) || !SlotOk(pool, slot) then Err(OutOfRange) else if from == slot then Ok(())
                 else if !Sliceable(pool.spec, from) || !Sliceable(pool.spec, slot) then Err(Overflow) else Ok(())
    ensures r == Err(OutOfRange) || from == slot ==> pool.device[..] == old(pool.device[..])
    ensures PairFits(pool.ConvC(), pool.RecurrentC(), pool.device.Length)
    ensures r == Err(Overflow) ==>
              pool.device[..] == WriteSlot(old(pool.device[..]), pool.ConvC(), slot,
                                           SlotImage(old(pool.device[..]), pool.ConvC(), from))
    ensures r.Ok? && from != slot ==>
              WroteSlot(old(pool.device[..]), pool.device[..], pool.ConvC(), pool.RecurrentC(), slot,
                        SlotImage(old(pool.device[..]), pool.ConvC(), from),
                          SlotImage(old(pool.device[..]), pool.RecurrentC(), from))
  {
    hide AlignUp, Stride, Prod, At, LayoutEnd, WroteSlot, WriteSlot, SlotImage, Exists, Sliceable;
    PartsFit(pool.spec, pool.first, pool.device.Length);
    if from < 0 || from >= pool.spec.slots { return Err(OutOfRange); }
    if slot < 0 || slot >= pool.spec.slots { return Err(OutOfRange); }
    ghost var before := pool.device[..];
    if from == slot { return Ok(()); }
    var c, v := pool.ConvC(), pool.RecurrentC();
    CopyComponent(pool.device, c, from, slot);
    OtherComponentBack(before, c, v, slot, SlotImage(before, c, from), from);
    var source := RecurrentSlot(pool, 0, from);
    if source.Err? { return Err(source.error); }
    var destination := RecurrentSlot(pool, 0, slot);
    if destination.Err? { return Err(destination.error); }
    CopyComponent(pool.device, v, from, slot);
    WriteBothExact(before, c, v, slot, SlotImage(before, c, from), SlotImage(before, v, from));
    return Ok(());
  }

  // ---------------------------------------------------------------------------------------------
  // Round trips
  // ---------------------------------------------------------------------------------------------

  /** The host buffers hold the slot's image, as PackSlot leaves them. */
  ghost predicate Packed(pool: LinearAttentionStatePool, source: seq<byte>, from: nat, convHost: seq<byte>,
                         recurrentHost: seq<byte>)
    requires pool.Valid() && |source| == pool.device.Length && SlotOk(pool, from)
    requires PairFits(pool.ConvC(), pool.RecurrentC(), pool.device.Length)
  {
    var c, v := pool.ConvC(), pool.RecurrentC();
    && c.Image() <= |convHost| && v.Image() <= |recurrentHost|
    && convHost[..c.Image()] == SlotImage(source, c, from) && recurrentHost[..v.Image()] == SlotImage(source, v, from)
  }

  /** What PackSlot puts into a buffer is there for UnpackSlot. */
  lemma PackedHolds(pool: LinearAttentionStatePool, source: seq<byte>, from: nat, conv: seq<byte>, recurrent: seq<byte>)
    requires pool.Valid() && |source| == pool.device.Length && SlotOk(pool, from)
    requires pool.ConvC().Image() <= |conv| && pool.RecurrentC().Image() <= |recurrent|
    ensures PairFits(pool.ConvC(), pool.RecurrentC(), pool.device.Length)
    ensures Packed(pool, source, from, Splice(conv, 0, SlotImage(source, pool.ConvC(), from)),
                   Splice(recurrent, 0, SlotImage(source, pool.RecurrentC(), from)))
  {
    hide AlignUp, Stride, Prod, At, LayoutEnd, SlotImage, Fits, Interleaved;
    PartsFit(pool.spec, pool.first, pool.device.Length);
    var x, y := SlotImage(source, pool.ConvC(), from), SlotImage(source, pool.RecurrentC(), from);
    assert Splice(conv, 0, x)[..|x|] == x && Splice(recurrent, 0, y)[..|y|] == y;
  }

  /** Pack a slot and later unpack the buffers into any slot: that slot holds in every layer what the packed slot
      held, and every other slot and all padding are as they were. Into the same slot of unchanged memory it is
      the identity. */
  lemma SlotRoundTrip(pool: LinearAttentionStatePool, source: seq<byte>, from: nat, conv: seq<byte>,
                      recurrent: seq<byte>, before: seq<byte>, after: seq<byte>, slot: nat)
    requires pool.Valid() && |source| == |before| == pool.device.Length && SlotOk(pool, from) && SlotOk(pool, slot)
    requires PairFits(pool.ConvC(), pool.RecurrentC(), pool.device.Length)
    requires Packed(pool, source, from, conv, recurrent)
    requires WroteSlot(before, after, pool.ConvC(), pool.RecurrentC(), slot, conv[..pool.ConvC().Image()],
                       recurrent[..pool.RecurrentC().Image()])
    ensures WroteSlot(before, after, pool.ConvC(), pool.RecurrentC(), slot, SlotImage(source, pool.ConvC(), from),
                      SlotImage(source, pool.RecurrentC(), from))
    ensures before == source && slot == from ==> after == source
  {
    hide AlignUp, Stride, Prod, At, LayoutEnd, SlotImage, WroteSlot, Fits, Interleaved;
    var c, v := pool.ConvC(), pool.RecurrentC();
    var x, y := SlotImage(source, c, from), SlotImage(source, v, from);
    if before == source && slot == from {
      OwnImage(source, c, v, slot);
      SlotDetermines(source, after, source, c, v, slot, x, y);
    }
  }

  lemma OwnImage(mem: seq<byte>, a: Component, b: Component, s: nat)
    requires PairFits(a, b, |mem|) && s < a.slots && s < b.slots
    ensures WroteSlot(mem, mem, a, b, s, SlotImage(mem, a, s), SlotImage(mem, b, s))
  {
    hide SlotImage, Fits, Interleaved, OutsideSlot;
  }

  /** The description of a slot write determines the whole memory. */
  lemma SlotDetermines(before: seq<byte>, u: seq<byte>, w: seq<byte>, a: Component, b: Component, s: nat, x: seq<byte>,
                       y: seq<byte>)
    requires PairFits(a, b, |before|) && s < a.slots && s < b.slots
    requires WroteSlot(before, u, a, b, s, x, y) && WroteSlot(before, w, a, b, s, x, y)
    ensures u == w
  {
    hide SlotImage, Fits, Interleaved, OutsideSlot;
    forall i: nat | i < |before| ensures u[i] == w[i] {
      if !OutsideSlot(a, s, i) {
        InSlot(u, w, a, s, i);
      } else if !OutsideSlot(b, s, i) {
        InSlot(u, w, b, s, i);
      }
    }
  }

  lemma InSlot(u: seq<byte>, w: seq<byte>, c: Component, s: nat, i: nat)
    requires |u| == |w| && Fits(c, |u|) && s < c.slots && i < |u| && SlotImage(u, c, s) == SlotImage(w, c, s)
    requires !OutsideSlot(c, s, i)
    ensures u[i] == w[i]
  {
    hide At, Rows;
    SlotFits(c, |u|, s);
    var l: nat :| l < c.layers && At(c.Start(s), c.pitch, l) <= i < At(c.Start(s), c.pitch, l) + c.row;
    SameRow(u, w, c.Start(s), c.pitch, c.row, c.layers, l);
    var at := At(c.Start(s), c.pitch, l);
    assert u[at..at + c.row][i - at] == w[at..at + c.row][i - at];
  }

  /** Equal images have equal rows. */
  lemma {:induction false} SameRow(u: seq<byte>, w: seq<byte>, off: nat, pitch: nat, width: nat, height: nat, r: nat)
    requires |u| == |w| && RowsFit(|u|, off, pitch, width, height) && r < height
    requires Rows(u, off, pitch, width, height) == Rows(w, off, pitch, width, height)
    ensures var at := At(off, pitch, r); at + width <= |u| && u[at..at + width] == w[at..at + width]
    decreases height
  {
    hide At, Rows;
    LastRow(u, off, pitch, w, off, pitch, width, height);
    if r < height - 1 { SameRow(u, w, off, pitch, width, height - 1, r); }
  }
}
