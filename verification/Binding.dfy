/** Binding an artifact's objects (src/artifact/binder.cpp): every object is consumed once and placed once,
    and the placements of each backing are aligned, ordered, disjoint and within its capacity. */
module Binding {
  import opened Arith
  import opened Results
  import opened Storage
  import opened Directory

  datatype Placement = Placement(handle: nat, offset: nat, bytes: nat, alignment: nat) {
    function End(): nat { offset + bytes }
  }

  datatype MaterializationPlan = MaterializationPlan(
    objectCount: nat, deviceCapacity: nat, mappedHostCapacity: nat,
    device: seq<Placement>, mappedHost: seq<Placement>, host: seq<nat>)

  /** Where an object went: its index in one of the plan's lists, or nowhere. */
  datatype Place = OnDevice(k: nat) | OnMappedHost(k: nat) | OnHost(k: nat) | NotMaterialized

  /** The placements of one backing. */
  predicate BackingOk(objects: seq<Object>, list: seq<Placement>, capacity: nat) {
    && (forall k | 0 <= k < |list| ::
          && list[k].handle < |objects| && objects[list[k].handle].TensorObject?
          && list[k].bytes == objects[list[k].handle].Bytes() && list[k].alignment == TENSOR_ALIGNMENT
          && list[k].offset % list[k].alignment == 0 && list[k].End() <= capacity)
    && (forall j, k | 0 <= j < k < |list| :: list[j].End() <= list[k].offset)
    && capacity == if list == [] then 0 else list[|list| - 1].End()
  }

  /** Adding a tensor at the aligned end keeps a backing in order. */
  lemma PlaceNext(objects: seq<Object>, list: seq<Placement>, capacity: nat, p: Placement)
    requires BackingOk(objects, list, capacity) && p.handle < |objects| && objects[p.handle].TensorObject?
    requires p == Placement(p.handle, AlignUp(capacity, TENSOR_ALIGNMENT), objects[p.handle].Bytes(), TENSOR_ALIGNMENT)
    ensures BackingOk(objects, list + [p], p.End())
  {
    hide AlignUp;
    var next := list + [p];
    forall j, k | 0 <= j < k < |next| ensures next[j].End() <= next[k].offset {
      if k == |list| { assert list[j].End() <= capacity; }
    }
  }

  /** `places` says where each planned object is, and the plan's lists agree with it in both directions. */
  ghost predicate PlacesOk(plan: MaterializationPlan, places: map<nat, Place>) {
    && (forall k | 0 <= k < |plan.device| ::
      plan.device[k].handle in places && places[plan.device[k].handle] == OnDevice(k))
    && (forall k | 0 <= k < |plan.mappedHost| ::
      plan.mappedHost[k].handle in places && places[plan.mappedHost[k].handle] == OnMappedHost(k))
    && (forall k | 0 <= k < |plan.host| :: plan.host[k] in places && places[plan.host[k]] == OnHost(k))
    && forall i | i in places ::
         match places[i]
         case OnDevice(k) => k < |plan.device| && plan.device[k].handle == i
         case OnMappedHost(k) => k < |plan.mappedHost| && plan.mappedHost[k].handle == i
         case OnHost(k) => k < |plan.host| && plan.host[k] == i
         case NotMaterialized => true
  }

  ghost predicate PlanOk(r: Reader, plan: MaterializationPlan, places: map<nat, Place>) {
    && plan.objectCount == |r.entries|
    && BackingOk(r.entries, plan.device, plan.deviceCapacity)
      && BackingOk(r.entries, plan.mappedHost, plan.mappedHostCapacity)
    && plan.deviceCapacity <= U64_MAX && plan.mappedHostCapacity <= U64_MAX
    && (forall k | 0 <= k < |plan.host| :: plan.host[k] < |r.entries| && r.entries[plan.host[k]].ResourceObject?)
    && PlacesOk(plan, places)
  }

  function Capacity(plan: MaterializationPlan, onDevice: bool): nat {
    if onDevice then plan.deviceCapacity else plan.mappedHostCapacity
  }

  /** The plan with one more placement on one of the backings. */
  function WithPlacement(plan: MaterializationPlan, p: Placement, onDevice: bool): MaterializationPlan {
    if onDevice then plan.(device := plan.device + [p], deviceCapacity := p.End())
    else plan.(mappedHost := plan.mappedHost + [p], mappedHostCapacity := p.End())
  }

  function NextPlace(plan: MaterializationPlan, onDevice: bool): Place {
    if onDevice then OnDevice(|plan.device|) else OnMappedHost(|plan.mappedHost|)
  }

  lemma PlanNext(r: Reader, plan: MaterializationPlan, places: map<nat, Place>, p: Placement, onDevice: bool)
    requires PlanOk(r, plan, places) && p.handle < |r.entries| && r.entries[p.handle].TensorObject?
    requires p.handle !in places && p.End() <= U64_MAX
    requires p == Placement(p.handle, AlignUp(Capacity(plan, onDevice), TENSOR_ALIGNMENT),
                            r.entries[p.handle].Bytes(), TENSOR_ALIGNMENT)
    ensures PlanOk(r, WithPlacement(plan, p, onDevice), places[p.handle := NextPlace(plan, onDevice)])
  {
    hide AlignUp, BackingOk;
    PlaceNext(r.entries, if onDevice then plan.device else plan.mappedHost, Capacity(plan, onDevice), p);
  }

  predicate Emptied(plan: MaterializationPlan) { plan.device == [] && plan.mappedHost == [] && plan.host == [] }

  lemma CapacityFits(r: Reader, plan: MaterializationPlan, places: map<nat, Place>, onDevice: bool)
    requires PlanOk(r, plan, places)
    ensures Capacity(plan, onDevice) <= U64_MAX
  {}

  predicate DistinctIndices(s: seq<nat>) { forall i, j | 0 <= i < j < |s| :: s[i] != s[j] }

  class Binder {
    const reader: Reader
    var consumed: seq<bool>
    var planned: seq<bool>
    var materialization: MaterializationPlan
    ghost var bound: seq<nat>
    ghost var places: map<nat, Place>
    ghost var spent: bool

    /** The flags say exactly which objects were bound, each once, and which were placed, each once. Once the plan
        was handed out, every object is bound and placed and the binder's own lists are empty. */
    ghost predicate Valid()
      reads this
    {
      && ReaderOk(reader) && |consumed| == |reader.entries| && |planned| == |reader.entries|
      && DistinctIndices(bound)
      && (forall i: nat :: i in bound <==> i < |consumed| && consumed[i])
      && (forall i: nat :: i in places <==> i < |planned| && planned[i])
      && if spent then AllDone() && Emptied(materialization) else PlanOk(reader, materialization, places)
    }

    /** Every object was bound and placed. */
    ghost predicate AllDone()
      reads this
    {
      forall i: nat | i < |reader.entries| :: i in bound && i in places
    }

    constructor (reader: Reader)
      requires ReaderOk(reader)
      ensures Valid() && this.reader == reader && bound == [] && places == map[] && !spent
    {
      this.reader := reader;
      consumed := seq(|reader.entries|, _ => false);
      planned := seq(|reader.entries|, _ => false);
      materialization := MaterializationPlan(|reader.entries|, 0, 0, [], [], []);
      bound, places, spent := [], map[], false;
    }

    /** find_unconsumed: `None` when the name is missing or was bound before. */
    method FindUnconsumed(name: string) returns (handle: Option<nat>)
      requires Valid()
      modifies this`consumed, this`bound
      ensures Valid()
      ensures handle.Some? <==> name in reader.index && reader.index[name] !in old(bound)
      ensures handle.Some? ==> handle.value == reader.index[name] && bound == old(bound) + [handle.value]
      ensures handle.None? ==> bound == old(bound) && consumed == old(consumed)
    {
      hide ReaderOk, PlanOk;
      IndexOk(reader);
      if name !in reader.index { return None; }
      var index := reader.index[name];
      if consumed[index] { return None; }
      consumed := consumed[index := true];
      bound := bound + [index];
      return Some(index);
    }

    /** require_tensor: the object is consumed even when the descriptor turns out not to match. */
    method RequireTensor(name: string, format: NumericFormat, layout: StorageLayout,
        shape: seq<nat>) returns (handle: Option<nat>)
      requires Valid()
      modifies this`consumed, this`bound
      ensures Valid()
      ensures handle.Some? <==>
                && name in reader.index && reader.index[name] !in old(bound) && reader.index[name] < |reader.entries|
                && var o := reader.entries[reader.index[name]];
                   o.TensorObject? && o.tensor.format == format && o.tensor.layout == layout && o.tensor.shape == shape
      ensures handle.Some? ==> handle.value == reader.index[name]
      ensures bound == if name in reader.index && reader.index[name] !in old(bound)
              then old(bound) + [reader.index[name]] else old(bound)
    {
      hide ReaderOk, PlanOk;
      IndexOk(reader);
      handle := FindUnconsumed(name);
      if handle.None? { return; }
      var o := reader.entries[handle.value];
      if !o.TensorObject? { return None; }
      if o.tensor.format != format || o.tensor.layout != layout || o.tensor.shape != shape { return None; }
    }

    /** require_resource; raw bytes are the only encoding. */
    method RequireResource(name: string) returns (handle: Option<nat>)
      requires Valid()
      modifies this`consumed, this`bound
      ensures Valid()
      ensures handle.Some? <==>
                && name in reader.index && reader.index[name] !in old(bound) && reader.index[name] < |reader.entries|
                && reader.entries[reader.index[name]].ResourceObject?
      ensures handle.Some? ==> handle.value == reader.index[name]
      ensures bound == if name in reader.index && reader.index[name] !in old(bound)
              then old(bound) + [reader.index[name]] else old(bound)
    {
      hide ReaderOk, PlanOk;
      IndexOk(reader);
      handle := FindUnconsumed(name);
      if handle.None? { return; }
      if !reader.entries[handle.value].ResourceObject? { return None; }
    }

    /** plan_tensor, for either backing. */
    method PlanTensor(handle: nat, onDevice: bool) returns (ok: bool)
      requires Valid()
      modifies this`planned, this`materialization, this`places
      ensures Valid()
      ensures ok <==> && handle < |reader.entries| && reader.entries[handle].TensorObject? && handle !in old(places)
                      && AlignUp(Capacity(old(materialization), onDevice), TENSOR_ALIGNMENT)
                         + reader.entries[handle].Bytes() <= U64_MAX
      ensures ok ==> places == old(places)[handle := NextPlace(old(materialization), onDevice)]
      ensures ok ==>
                var before, bytes := old(materialization), reader.entries[handle].Bytes();
                var at := AlignUp(if onDevice then before.deviceCapacity else before.mappedHostCapacity, 256);
                var p := Placement(handle, at, bytes, 256);
                && materialization.objectCount == before.objectCount && materialization.host == before.host
                && materialization.device == before.device + (if onDevice then [p] else [])
                && materialization.mappedHost == before.mappedHost + (if onDevice then [] else [p])
                && materialization.deviceCapacity == (if onDevice then at + bytes else before.deviceCapacity)
                && materialization.mappedHostCapacity == if onDevice then before.mappedHostCapacity else at + bytes
      ensures !ok ==> places == old(places) && materialization == old(materialization) && planned == old(planned)
    {
      hide ReaderOk, AlignUp, PlanOk, DistinctIndices;
      if handle >= |reader.entries| { return false; }
      var o := reader.entries[handle];
      if !o.TensorObject? { return false; }
      if planned[handle] { return false; }
      assert !spent;
      var capacity := Capacity(materialization, onDevice);
      CapacityFits(reader, materialization, places, onDevice);
      Storage.AlignExact(capacity, TENSOR_ALIGNMENT);
      if capacity > U64_MAX - (TENSOR_ALIGNMENT - 1) { return false; }
      var offset := AlignUp(capacity, TENSOR_ALIGNMENT);
      if o.tensor.bytes > U64_MAX - offset { return false; }
      var placement := Placement(handle, offset, o.tensor.bytes, TENSOR_ALIGNMENT);
      PlanNext(reader, materialization, places, placement, onDevice);
      places := places[handle := NextPlace(materialization, onDevice)];
      if onDevice {
        materialization := materialization.(device := materialization.device + [placement],
          deviceCapacity := offset + o.tensor.bytes);
      } else {
        materialization := materialization.(mappedHost := materialization.mappedHost + [placement],
          mappedHostCapacity := offset + o.tensor.bytes);
      }
      planned := planned[handle := true];
      return true;
    }

    /** retain_on_host. */
    method RetainOnHost(handle: nat) returns (ok: bool)
      requires Valid()
      modifies this`planned, this`materialization, this`places
      ensures Valid()
      ensures ok <==> handle < |reader.entries| && reader.entries[handle].ResourceObject? && handle !in old(places)
      ensures ok ==> places == old(places)[handle := OnHost(|old(materialization.host)|)]
      ensures ok ==> materialization == old(materialization).(host := old(materialization.host) + [handle])
      ensures !ok ==> places == old(places) && materialization == old(materialization) && planned == old(planned)
    {
      hide ReaderOk, BackingOk;
      if handle >= |reader.entries| { return false; }
      if !reader.entries[handle].ResourceObject? { return false; }
      if planned[handle] { return false; }
      places := places[handle := OnHost(|materialization.host|)];
      materialization := materialization.(host := materialization.host + [handle]);
      planned := planned[handle := true];
      return true;
    }

    /** validate_only. */
    method ValidateOnly(handle: nat) returns (ok: bool)
      requires Valid()
      modifies this`planned, this`places
      ensures Valid()
      ensures ok <==> handle < |reader.entries| && handle !in old(places)
      ensures ok ==> places == old(places)[handle := NotMaterialized]
      ensures !ok ==> places == old(places) && planned == old(planned)
    {
      hide ReaderOk, BackingOk;
      if handle >= |reader.entries| { return false; }
      if planned[handle] { return false; }
      places := places[handle := NotMaterialized];
      planned := planned[handle := true];
      return true;
    }

    /** finish: succeeds exactly when every object was bound and placed. The plan is moved out, so a second call
        gets the same capacities and empty lists. */
    method Finish() returns (plan: Option<MaterializationPlan>)
      requires Valid()
      modifies this`materialization, this`spent
      ensures Valid()
      ensures plan.Some? <==> AllDone()
      ensures plan.None? ==> materialization == old(materialization) && spent == old(spent)
      ensures plan.Some? ==> plan.value == old(materialization) && spent
                             && materialization == plan.value.(device := [], mappedHost := [], host := [])
      ensures plan.Some? && !old(spent) ==> FinishedPlan(reader, plan.value, places)
    {
      hide ReaderOk, PlanOk, DistinctIndices;
      for i := 0 to |consumed|
        invariant forall j | 0 <= j < i :: consumed[j]
      {
        if !consumed[i] {
          assert i !in bound;
          return None;
        }
      }
      for i := 0 to |planned|
        invariant forall j | 0 <= j < i :: planned[j]
      {
        if !planned[i] {
          assert i !in places;
          return None;
        }
      }
      plan := Some(materialization);
      materialization := materialization.(device := [], mappedHost := [], host := []);
      spent := true;
    }
  }

  /** A finished plan: every object has exactly one place. */
  ghost predicate FinishedPlan(r: Reader, plan: MaterializationPlan, places: map<nat, Place>) {
    PlanOk(r, plan, places) && forall i: nat :: i in places <==> i < |r.entries|
  }

  lemma IndexOk(r: Reader)
    requires ReaderOk(r)
    ensures forall n | n in r.index :: r.index[n] < |r.entries|
  {}

  /** In a finished plan no object is placed twice, within one list or across the three. */
  lemma PlacedOnce(r: Reader, plan: MaterializationPlan, places: map<nat, Place>, j: nat, k: nat)
    requires FinishedPlan(r, plan, places)
    ensures j < k < |plan.device| ==> plan.device[j].handle != plan.device[k].handle
    ensures j < k < |plan.mappedHost| ==> plan.mappedHost[j].handle != plan.mappedHost[k].handle
    ensures j < k < |plan.host| ==> plan.host[j] != plan.host[k]
    ensures j < |plan.device| && k < |plan.mappedHost| ==> plan.device[j].handle != plan.mappedHost[k].handle
    ensures j < |plan.device| && k < |plan.host| ==> plan.device[j].handle != plan.host[k]
    ensures j < |plan.mappedHost| && k < |plan.host| ==> plan.mappedHost[j].handle != plan.host[k]
  {
    hide BackingOk;
  }
}
