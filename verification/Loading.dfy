/** From a finished plan to a loaded artifact (src/artifact/materializer.cpp): the copy ranges of a plan over
    an accepted directory never trip a guard, and every run of the read pipeline on them ends well. */
module Loading {
  import opened Arith
  import opened Results
  import opened Sorting
  import opened Bytes
  import opened Directory
  import opened Binding
  import opened ReadPlan
  import opened Pipeline
  import opened PipelineProgress

  /** The copy range of one device placement. */
  function RangeOf(r: Reader, p: Placement): CopyRange
    requires p.handle < |r.entries|
  {
    var begin := r.payloadStart + r.entries[p.handle].offset;
    CopyRange(begin, begin + p.bytes, p.offset)
  }

  function RangesOf(r: Reader, list: seq<Placement>): (c: seq<CopyRange>)
    requires forall k | 0 <= k < |list| :: list[k].handle < |r.entries|
    ensures |c| == |list| && forall k | 0 <= k < |list| :: c[k] == RangeOf(r, list[k])
  {
    seq(|list|, k requires 0 <= k < |list| => RangeOf(r, list[k]))
  }

  /** Tensors of an accepted directory have disjoint sources, and a finished plan gives them disjoint
      destinations within the device capacity. */
  lemma SourcesAndDestinations(r: Reader, plan: MaterializationPlan, places: map<nat, Place>)
    requires ReaderOk(r) && FinishedPlan(r, plan, places)
    ensures Nonempty(RangesOf(r, plan.device)) && PairwiseDisjoint(RangesOf(r, plan.device))
    ensures DestinationsFit(RangesOf(r, plan.device), plan.deviceCapacity)
    ensures forall k | 0 <= k < |plan.device| :: RangesOf(r, plan.device)[k].end <= r.fileBytes
    ensures plan.deviceCapacity == 0 <==> plan.device == []
  {
    hide PlacesOk, ReaderOk, RangeOf;
    var ranges, list := RangesOf(r, plan.device), plan.device;
    forall k | 0 <= k < |list|
      ensures ranges[k].begin < ranges[k].end <= r.fileBytes
              && ranges[k].dest + (ranges[k].end - ranges[k].begin) <= plan.deviceCapacity
    {
      OneRange(r, plan, places, k);
    }
    forall i, j | 0 <= i < j < |ranges|
      ensures ranges[i].end <= ranges[j].begin || ranges[j].end <= ranges[i].begin
      ensures ranges[i].dest + (ranges[i].end - ranges[i].begin) <= ranges[j].dest
    {
      TwoRanges(r, plan, places, i, j);
    }
  }

  lemma OneRange(r: Reader, plan: MaterializationPlan, places: map<nat, Place>, k: nat)
    requires ReaderOk(r) && FinishedPlan(r, plan, places) && k < |plan.device|
    ensures var c := RangeOf(r, plan.device[k]);
            c.begin < c.end <= r.fileBytes && c.dest + (c.end - c.begin) <= plan.deviceCapacity
  {
    hide PlacesOk, ReaderOk;
    SourceInside(r, plan.device[k].handle);
  }

  lemma TwoRanges(r: Reader, plan: MaterializationPlan, places: map<nat, Place>, i: nat, j: nat)
    requires ReaderOk(r) && FinishedPlan(r, plan, places) && i < j < |plan.device|
    ensures var a, b := RangeOf(r, plan.device[i]), RangeOf(r, plan.device[j]);
            (a.end <= b.begin || b.end <= a.begin) && a.dest + (a.end - a.begin) <= b.dest
  {
    hide PlacesOk, ReaderOk;
    PlacedOnce(r, plan, places, i, j);
    SourceApart(r, plan.device[i].handle, plan.device[j].handle);
  }

  lemma SourceInside(r: Reader, h: nat)
    requires ReaderOk(r) && h < |r.entries|
    ensures 0 < r.entries[h].Bytes() && r.payloadStart + r.entries[h].End() <= r.fileBytes
  {}

  lemma SourceApart(r: Reader, g: nat, h: nat)
    requires ReaderOk(r) && g < |r.entries| && h < |r.entries| && g != h
    ensures r.entries[g].End() <= r.entries[h].offset || r.entries[h].End() <= r.entries[g].offset
  {}

  lemma DestinationsPermuted(a: seq<CopyRange>, b: seq<CopyRange>, size: nat)
    requires multiset(a) == multiset(b) && Nonempty(a) && PairwiseDisjoint(a) && DestinationsFit(a, size)
    ensures DestinationsFit(b, size)
  {
    SameElements(a, b);
    DisjointPermutation(a, b);
    forall i | 0 <= i < |b| ensures b[i].dest + (b[i].end - b[i].begin) <= size && b[i].begin < b[i].end {
      assert b[i] in a;
    }
    forall i, j | 0 <= i < j < |b|
      ensures b[i].dest + (b[i].end - b[i].begin) <= b[j].dest || b[j].dest + (b[j].end - b[j].begin) <= b[i].dest
    {
      assert b[i] in a && b[j] in a && b[i] != b[j];
    }
  }

  /** The one error a finished plan over an accepted directory can still meet here. */
  datatype LoadError = InvalidCapacity

  /** The first half of materialize: building the copy ranges from the plan, with all its checks. The device
      arena hands out the planned offsets, as its planner mirrors it. */
  method CollectRanges(r: Reader, plan: MaterializationPlan, ghost places: map<nat, Place>)
    returns (c: Result<seq<CopyRange>, LoadError>)
    requires ReaderOk(r) && FinishedPlan(r, plan, places)
    ensures c == if plan.device == [] then Err(InvalidCapacity) else Ok(RangesOf(r, plan.device))
  {
    hide FinishedPlan, ReaderOk, Payload, DestinationsFit, PairwiseDisjoint, Nonempty;
    SourcesAndDestinations(r, plan, places);
    if plan.deviceCapacity == 0 { return Err(InvalidCapacity); }
    var ranges: seq<CopyRange>, total: nat := [], 0;
    for k := 0 to |plan.device|
      invariant |ranges| == k && forall j | 0 <= j < k ::
                plan.device[j].handle < |r.entries| && ranges[j] == RangeOf(r, plan.device[j])
      invariant total <= if k == 0 then 0 else plan.device[k - 1].End()
    {
      var p := plan.device[k];
      PlacementFacts(r, plan, places, k);
      SourceInside(r, p.handle);
      PayloadIs(r, p.handle);
      var payload := Payload(r, r.entries[p.handle]);
      assert payload.Some? && payload.value.bytes == p.bytes;
      var end := Storage.CheckedAdd(payload.value.offset, p.bytes);
      assert end.Some?;
      ranges := ranges + [CopyRange(payload.value.offset, end.value, p.offset)];
      var sum := Storage.CheckedAdd(total, p.bytes);
      assert sum.Some?;
      total := sum.value;
    }
    assert ranges == RangesOf(r, plan.device);
    return Ok(ranges);
  }

  lemma PlacementFacts(r: Reader, plan: MaterializationPlan, places: map<nat, Place>, k: nat)
    requires FinishedPlan(r, plan, places) && k < |plan.device|
    ensures var p := plan.device[k];
            p.handle < |r.entries| && p.bytes == r.entries[p.handle].Bytes() && p.End() <= U64_MAX
    ensures k > 0 ==> plan.device[k - 1].End() <= plan.device[k].offset
  {
    hide PlacesOk;
  }

  lemma PayloadIs(r: Reader, h: nat)
    requires ReaderOk(r) && h < |r.entries|
    ensures Payload(r, r.entries[h]).Some?
    ensures Payload(r, r.entries[h]).value
            == RowSelection.Range(r.payloadStart + r.entries[h].offset, r.entries[h].Bytes())
    ensures r.fileBytes <= U64_MAX
  {}

  /** Everything before the pipeline starts. Over an accepted directory the overlap guard never fires, so a
      plan with at least one device tensor always yields a configuration the pipeline accepts. */
  method Prepare(r: Reader, plan: MaterializationPlan, ghost places: map<nat, Place>, file: seq<byte>,
                 buffers: nat -> seq<seq<byte>>, memory: seq<byte>) returns (c: Result<Config, LoadError>)
    requires ReaderOk(r) && FinishedPlan(r, plan, places) && |file| == r.fileBytes <= I64_MAX
    requires |memory| == plan.deviceCapacity
    requires forall n: nat :: |buffers(n)| == MAX_SLOTS && forall t | 0 <= t < MAX_SLOTS :: |buffers(n)[t]| == n
    ensures c.Err? <==> plan.device == []
    ensures c.Ok? ==> Ready(c.value) && ExtentsFit(c.value.chunks) && c.value.file == file && c.value.memory == memory
                      && multiset(c.value.ranges) == multiset(RangesOf(r, plan.device))
    ensures c.Ok? ==> c.value.slotCount == Min(8, |c.value.chunks|) && LargestRequest(c.value.chunks, c.value.slotBytes)
                      && forall k | 0 <= k < |c.value.chunks| :: Needed(c.value.ranges, c.value.chunks[k])
  {
    hide LargestRequest, Needed, PlacesOk, ReaderOk, Complete, FinishedPlan;
    var collected := CollectRanges(r, plan, places);
    if collected.Err? { return Err(collected.error); }
    SourcesAndDestinations(r, plan, places);
    var planned, slotBytes := PlanReads(collected.value);
    assert planned.Ok?;
    var (ranges, chunks) := planned.value;
    DestinationsPermuted(collected.value, ranges, plan.deviceCapacity);
    var slots := Min(MAX_SLOTS, |chunks|);
    return Ok(Config(file, ranges, chunks, slots, slotBytes, buffers(slotBytes)[..slots], memory));
  }

  /** Loading ends: every run of the pipeline on such a configuration terminates, and if no read came back
      short every planned tensor's bytes are at its planned place. */
  lemma EveryLoadEndsWell(r: Reader, plan: MaterializationPlan, places: map<nat, Place>, c: Config, run: nat -> State)
    requires ReaderOk(r) && FinishedPlan(r, plan, places) && Ready(c) && IsRun(c, run)
    requires multiset(c.ranges) == multiset(RangesOf(r, plan.device)) && |c.file| == r.fileBytes
             && |c.memory| == plan.deviceCapacity
    ensures exists k: nat :: Terminal(run(k)) && EndsWell(c, run(k))
                             && (run(k).host.Done? ==>
                               |run(k).device| == |c.memory| && Loaded(r, plan, c.file, run(k).device))
  {
    hide Ready, IsRun, Terminal, EndsWell, ReaderOk, FinishedPlan;
    EveryRunEndsWell(c, run);
    var k: nat :| Terminal(run(k)) && EndsWell(c, run(k));
    if run(k).host.Done? { MaterializedIsLoaded(r, plan, places, c, run(k)); }
  }

  /** Byte x of device tensor k sits at its planned offset. */
  predicate ByteLoaded(r: Reader, plan: MaterializationPlan, file: seq<byte>, device: seq<byte>, k: nat, x: nat) {
    && k < |plan.device| && plan.device[k].handle < |r.entries| && plan.device[k].offset + x < |device|
    && var from := r.payloadStart + r.entries[plan.device[k].handle].offset + x;
       from < |file| && device[plan.device[k].offset + x] == file[from]
  }

  ghost predicate Loaded(r: Reader, plan: MaterializationPlan, file: seq<byte>, device: seq<byte>) {
    forall k: nat, x: nat | k < |plan.device| && x < plan.device[k].bytes :: ByteLoaded(r, plan, file, device, k, x)
  }

  lemma MaterializedIsLoaded(r: Reader, plan: MaterializationPlan, places: map<nat, Place>, c: Config, s: State)
    requires ReaderOk(r) && FinishedPlan(r, plan, places) && EndsWell(c, s) && s.host.Done?
    requires multiset(c.ranges) == multiset(RangesOf(r, plan.device)) && |c.file| == r.fileBytes
             && |c.memory| == plan.deviceCapacity
    ensures |s.device| == |c.memory| && Loaded(r, plan, c.file, s.device)
  {
    hide PlacesOk, ReaderOk;
    var ranges := RangesOf(r, plan.device);
    SameElements(c.ranges, ranges);
    forall k: nat, x: nat | k < |plan.device| && x < plan.device[k].bytes
      ensures ByteLoaded(r, plan, c.file, s.device, k, x)
    {
      assert ranges[k] in c.ranges;
      var i :| 0 <= i < |c.ranges| && c.ranges[i] == ranges[k];
      assert TensorByte(c.ranges, i, c.ranges[i].begin + x);
      assert Placed(c, s.device, i, c.ranges[i].begin + x);
    }
  }
}
