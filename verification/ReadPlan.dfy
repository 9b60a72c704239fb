/** The sequential half of artifact materialization (src/artifact/materializer.cpp): sorting the
    tensor source ranges, merging them into block-aligned read spans, cutting the spans into chunks,
    and the host loop that turns every chunk read into copies to the tensors' destinations. */
module ReadPlan {
  import opened Arith
  import opened Results
  import opened Sorting
  import Storage

  /** Reader::direct_io_alignment, kSlotBytes and kMaximumSlotCount. */
  const BLOCK: nat := 4096
  const SLOT_BYTES: nat := 64 * 1024 * 1024
  const MAX_SLOTS: nat := 8

  /** One tensor: file bytes [begin, end) go to device bytes [dest, dest + end - begin). */
  datatype CopyRange = CopyRange(begin: nat, end: nat, dest: nat)

  datatype ReadSpan = ReadSpan(begin: nat, end: nat)

  datatype ReadChunk = ReadChunk(source: nat, request: nat, required: nat)

  /** One asynchronous copy: file bytes [begin, end) of tensor `range`. */
  datatype Copy = Copy(range: nat, begin: nat, end: nat)

  datatype PlanError = Overlap | ShortRead(chunk: nat) | Uncovered

  // ---------------------------------------------------------------------------------------------
  // Sorting the source ranges and the overlap guard
  // ---------------------------------------------------------------------------------------------

  predicate Nonempty(ranges: seq<CopyRange>) {
    forall i | 0 <= i < |ranges| :: ranges[i].begin < ranges[i].end
  }

  /** The ranges are pairwise disjoint, in whatever order they come. */
  predicate PairwiseDisjoint(ranges: seq<CopyRange>) {
    forall i, j | 0 <= i < j < |ranges| ::
      ranges[i].end <= ranges[j].begin || ranges[j].end <= ranges[i].begin
  }

  /** The ranges are nonempty, ordered and disjoint: what the later passes consume. */
  predicate Ordered(ranges: seq<CopyRange>) {
    && Nonempty(ranges)
    && forall i, j | 0 <= i < j < |ranges| :: ranges[i].end <= ranges[j].begin
  }

  /** Pairwise disjointness of nonempty ranges does not depend on their order. */
  lemma DisjointPermutation(a: seq<CopyRange>, b: seq<CopyRange>)
    requires multiset(a) == multiset(b)
    requires Nonempty(a) && PairwiseDisjoint(a)
    ensures PairwiseDisjoint(b)
  {
    forall i, j | 0 <= i < j < |b|
      ensures b[i].end <= b[j].begin || b[j].end <= b[i].begin
    {
      SameElements(a, b);
      assert b[i] in a && b[j] in a;
      if b[i] == b[j] {
        CountTwice(b, b[i]);
        CountTwice(a, b[i]);
        assert false;
      }
    }
  }

  lemma OverlapShows(input: seq<CopyRange>, ranges: seq<CopyRange>, i: nat)
    requires multiset(ranges) == multiset(input) && Nonempty(input) && 0 < i < |ranges|
    requires ranges[i - 1].begin <= ranges[i].begin < ranges[i - 1].end
    requires Nonempty(ranges)
    ensures !PairwiseDisjoint(input)
  {
    if PairwiseDisjoint(input) { DisjointPermutation(input, ranges); }
  }

  /** Sorting by source and the guard that rejects overlapping tensors: the guard fires exactly
      when two of the given ranges overlap. */
  method SortRanges(input: seq<CopyRange>) returns (r: Result<seq<CopyRange>, PlanError>)
    requires Nonempty(input)
    ensures r.Ok? <==> PairwiseDisjoint(input)
    ensures r.Ok? ==> multiset(r.value) == multiset(input) && Ordered(r.value)
    ensures r.Err? ==> r.error == Overlap
  {
    hide PairwiseDisjoint;
    var ranges := Sort(input, ByBegin());
    SortSorts(input, ByBegin());
    SortedByBegin(ranges, input);
    var i := 1;
    while i < |ranges|
      invariant 1 <= i && (|ranges| == 0 || i <= |ranges|)
      invariant forall j | 0 < j < i && j < |ranges| :: ranges[j - 1].end <= ranges[j].begin
    {
      if ranges[i].begin < ranges[i - 1].end {
        OverlapShows(input, ranges, i);
        return Err(Overlap);
      }
      i := i + 1;
    }
    NeighboursSuffice(ranges);
    DisjointPermutation(ranges, input);
    r := Ok(ranges);
  }

  function ByBegin(): CopyRange -> int { (c: CopyRange) => c.begin }

  lemma SortedByBegin(ranges: seq<CopyRange>, input: seq<CopyRange>)
    requires IsSortOf(ranges, input, ByBegin()) && Nonempty(input)
    ensures Nonempty(ranges) && forall i, j | 0 <= i < j < |ranges| :: ranges[i].begin <= ranges[j].begin
  {
    SameElements(ranges, input);
    forall i | 0 <= i < |ranges| ensures ranges[i].begin < ranges[i].end { assert ranges[i] in input; }
    forall i, j | 0 <= i < j < |ranges| ensures ranges[i].begin <= ranges[j].begin {
      assert ByBegin()(ranges[i]) <= ByBegin()(ranges[j]);
    }
  }

  /** Among ranges sorted by their beginning it is enough to compare neighbours. */
  lemma NeighboursSuffice(ranges: seq<CopyRange>)
    requires Nonempty(ranges) && forall i, j | 0 <= i < j < |ranges| :: ranges[i].begin <= ranges[j].begin
    requires forall j | 0 < j < |ranges| :: ranges[j - 1].end <= ranges[j].begin
    ensures Ordered(ranges) && PairwiseDisjoint(ranges)
  {
    forall a, b | 0 <= a < b < |ranges| ensures ranges[a].end <= ranges[b].begin {
      assert ranges[(a + 1) - 1].end <= ranges[a + 1].begin;
    }
  }

  // ---------------------------------------------------------------------------------------------
  // Read spans
  // ---------------------------------------------------------------------------------------------

  predicate Inside(r: CopyRange, s: ReadSpan) {
    s.begin <= r.begin && r.end <= s.end
  }

  predicate OnBlock(x: nat) { x % BLOCK == 0 }

  /** Spans start on blocks, and a whole block lies between one span's end and the next span: even
      rounded up to blocks, they share nothing. */
  predicate SpansSeparated(spans: seq<ReadSpan>) {
    && (forall s | 0 <= s < |spans| :: spans[s].begin < spans[s].end && OnBlock(spans[s].begin))
    && forall s, t | 0 <= s < t < |spans| :: spans[s].end + BLOCK <= spans[t].begin
  }

  /** The source's test for starting a new span, in the form the invariant uses. */
  lemma NewSpanTest(end: nat, begin: nat)
    requires OnBlock(begin)
    ensures begin > AlignUp(end, BLOCK) <==> end + BLOCK <= begin
  {
    if begin > AlignUp(end, BLOCK) { MultiplesApart(AlignUp(end, BLOCK), begin, BLOCK); }
  }

  /** Rounding a file offset up to a block never overflows: a file is shorter than 2^63 bytes. */
  lemma AlignFits(v: nat)
    requires v <= I64_MAX
    ensures Storage.CheckedAlign(v, BLOCK) == Some(AlignUp(v, BLOCK)) && AlignUp(v, BLOCK) <= I64_MAX + 1
  {
    Storage.AlignExact(v, BLOCK);
    AlignUpLeast(v, BLOCK, I64_MAX + 1);
  }

  ghost predicate Held(spans: seq<ReadSpan>, r: CopyRange) {
    exists s :: 0 <= s < |spans| && Inside(r, spans[s])
  }

  /** The first `n` tensors each lie in one span. */
  ghost predicate SpansHold(spans: seq<ReadSpan>, ranges: seq<CopyRange>, n: nat) {
    n <= |ranges| && forall i {:trigger Held(spans, ranges[i])} | 0 <= i < n :: Held(spans, ranges[i])
  }

  /** A span starts in the block of some tensor's first byte and ends with some tensor's last. */
  ghost predicate Tight(ranges: seq<CopyRange>, s: ReadSpan) {
    && OnBlock(s.begin)
    && (exists i :: 0 <= i < |ranges| && s.begin <= ranges[i].begin < s.begin + BLOCK)
    && (exists i :: 0 <= i < |ranges| && s.end == ranges[i].end)
  }

  ghost predicate SpansTight(spans: seq<ReadSpan>, ranges: seq<CopyRange>) {
    forall s {:trigger Tight(ranges, spans[s])} | 0 <= s < |spans| :: Tight(ranges, spans[s])
  }

  /** The block at b holds a byte of some tensor. */
  ghost predicate Busy(ranges: seq<CopyRange>, b: nat) {
    exists i :: 0 <= i < |ranges| && ranges[i].begin < b + BLOCK && b < ranges[i].end
  }

  ghost predicate BusySpan(ranges: seq<CopyRange>, s: ReadSpan) {
    forall b: nat | OnBlock(b) && s.begin <= b < s.end :: Busy(ranges, b)
  }

  /** Spans bridge no block that holds no tensor byte. */
  ghost predicate SpansBusy(spans: seq<ReadSpan>, ranges: seq<CopyRange>) {
    forall s | 0 <= s < |spans| :: BusySpan(ranges, spans[s])
  }

  lemma NoneYet(ranges: seq<CopyRange>)
    ensures SpansBusy([], ranges) && SpansHold([], ranges, 0) && SpansTight([], ranges)
  {}

  lemma BusyAppended(spans: seq<ReadSpan>, ranges: seq<CopyRange>, k: nat, begin: nat)
    requires k < |ranges| && SpansBusy(spans, ranges) && begin == AlignDown(ranges[k].begin, BLOCK)
    ensures SpansBusy(spans + [ReadSpan(begin, ranges[k].end)], ranges)
  {
    hide AlignDown;
    forall b: nat | OnBlock(b) && begin <= b < ranges[k].end ensures Busy(ranges, b) {
      assert ranges[k].begin < b + BLOCK;
    }
    assert BusySpan(ranges, ReadSpan(begin, ranges[k].end));
  }

  lemma BusyExtended(spans: seq<ReadSpan>, ranges: seq<CopyRange>, k: nat)
    requires k < |ranges| && SpansBusy(spans, ranges) && spans != []
    requires AlignDown(ranges[k].begin, BLOCK) <= AlignUp(spans[|spans| - 1].end, BLOCK)
    ensures var n := |spans| - 1;
            SpansBusy(spans[n := ReadSpan(spans[n].begin, ranges[k].end)], ranges)
  {
    hide AlignDown, AlignUp;
    var n := |spans| - 1;
    var last := spans[n];
    assert BusySpan(ranges, last);
    forall b: nat | OnBlock(b) && last.begin <= b < ranges[k].end ensures Busy(ranges, b) {
      if last.end <= b {
        AlignUpLeast(last.end, BLOCK, b);
        assert ranges[k].begin < b + BLOCK;
      }
    }
    assert BusySpan(ranges, ReadSpan(last.begin, ranges[k].end));
  }

  /** Merges the ranges into spans whose block-aligned extents never touch, so that no two spans
      share a block, and which bridge no block without a tensor byte. The checked rounding of a span's end never
      fails. */
  method PlanSpans(ranges: seq<CopyRange>) returns (spans: seq<ReadSpan>)
    requires Ordered(ranges)
    requires forall i | 0 <= i < |ranges| :: ranges[i].end <= I64_MAX
    ensures SpansSeparated(spans) && SpansHold(spans, ranges, |ranges|) && SpansTight(spans, ranges)
    ensures SpansBusy(spans, ranges)
    ensures ranges != [] ==> spans != []
    ensures forall s | 0 <= s < |spans| :: spans[s].end <= I64_MAX
  {
    hide AlignUp, AlignDown, SpansBusy, SpansHold, SpansTight, Storage.CheckedAlign;
    spans := [];
    NoneYet(ranges);
    for k := 0 to |ranges|
      invariant k > 0 ==> spans != [] && spans[|spans| - 1].end == ranges[k - 1].end
      invariant k > 0 ==> spans[|spans| - 1].begin <= ranges[k - 1].begin
      invariant k == 0 ==> spans == []
      invariant SpansSeparated(spans) && SpansHold(spans, ranges, k) && SpansTight(spans, ranges)
      invariant SpansBusy(spans, ranges)
      invariant forall s | 0 <= s < |spans| :: spans[s].end <= I64_MAX
    {
      var begin := AlignDown(ranges[k].begin, BLOCK);
      ghost var before := spans;
      var startsNew := spans == [];
      if spans != [] {
        var edge := Storage.CheckedAlign(spans[|spans| - 1].end, BLOCK);
        AlignFits(spans[|spans| - 1].end);
        assert edge.Some?;
        NewSpanTest(spans[|spans| - 1].end, begin);
        startsNew := begin > edge.value;
      }
      if startsNew {
        spans := spans + [ReadSpan(begin, ranges[k].end)];
        SpanAppended(before, ranges, k, begin);
        BusyAppended(before, ranges, k, begin);
      } else {
        var last := |spans| - 1;
        spans := spans[last := ReadSpan(spans[last].begin, Max(spans[last].end, ranges[k].end))];
        SpanExtended(before, ranges, k);
        BusyExtended(before, ranges, k);
      }
    }
  }

  lemma SpanAppended(spans: seq<ReadSpan>, ranges: seq<CopyRange>, k: nat, begin: nat)
    requires k < |ranges| && Ordered(ranges)
    requires OnBlock(begin) && begin <= ranges[k].begin < begin + BLOCK
    requires SpansHold(spans, ranges, k) && SpansTight(spans, ranges)
    ensures var spans' := spans + [ReadSpan(begin, ranges[k].end)];
            SpansHold(spans', ranges, k + 1) && SpansTight(spans', ranges)
  {
    var spans' := spans + [ReadSpan(begin, ranges[k].end)];
    forall i | 0 <= i <= k ensures Held(spans', ranges[i]) {
      if i < k {
        HeldAmong(spans, spans', ranges[i]);
      } else {
        assert Inside(ranges[k], spans'[|spans|]);
      }
    }
    assert Tight(ranges, spans'[|spans|]);
  }

  lemma HeldAmong(spans: seq<ReadSpan>, more: seq<ReadSpan>, r: CopyRange)
    requires Held(spans, r) && |spans| <= |more|
    requires forall s | 0 <= s < |spans| :: Inside(r, spans[s]) ==> Inside(r, more[s])
    ensures Held(more, r)
  {
    var s :| 0 <= s < |spans| && Inside(r, spans[s]);
    assert Inside(r, more[s]);
  }

  lemma SpanExtended(spans: seq<ReadSpan>, ranges: seq<CopyRange>, k: nat)
    requires 0 < k < |ranges| && spans != [] && Ordered(ranges)
    requires SpansHold(spans, ranges, k) && SpansTight(spans, ranges)
    requires spans[|spans| - 1].begin <= ranges[k - 1].begin
    requires spans[|spans| - 1].end == ranges[k - 1].end
    ensures var spans' := spans[|spans| - 1 := ReadSpan(spans[|spans| - 1].begin, ranges[k].end)];
            SpansHold(spans', ranges, k + 1) && SpansTight(spans', ranges)
  {
    var last := |spans| - 1;
    var spans' := spans[last := ReadSpan(spans[last].begin, ranges[k].end)];
    assert ranges[k - 1].end <= ranges[k].begin;
    forall i | 0 <= i <= k ensures Held(spans', ranges[i]) {
      if i < k {
        HeldAmong(spans, spans', ranges[i]);
      } else {
        assert Inside(ranges[k], spans'[last]);
      }
    }
    assert Tight(ranges, spans[last]) && Tight(ranges, spans'[last]);
    forall s | 0 <= s < |spans'| ensures Tight(ranges, spans'[s]) {
      if s < last { assert spans'[s] == spans[s]; }
    }
  }

  // ---------------------------------------------------------------------------------------------
  // Read chunks
  // ---------------------------------------------------------------------------------------------

  predicate InSpan(s: ReadSpan, x: nat) { s.begin <= x < s.end }

  predicate Covers(c: ReadChunk, x: nat) { c.source <= x < c.source + c.required }

  /** Every request is aligned, fits a slot of `chunkBytes` and asks for at least what it needs. */
  predicate ChunksFit(chunks: seq<ReadChunk>, chunkBytes: nat) {
    forall k | 0 <= k < |chunks| ::
      && OnBlock(chunks[k].source) && OnBlock(chunks[k].request)
      && 0 < chunks[k].required <= chunks[k].request <= chunkBytes
  }

  /** The requested extents are ordered and disjoint: no block is read twice. */
  predicate ChunksApart(chunks: seq<ReadChunk>) {
    forall k, l | 0 <= k < l < |chunks| :: chunks[k].source + chunks[k].request <= chunks[l].source
  }

  ghost predicate ChunksCover(chunks: seq<ReadChunk>, s: ReadSpan, upTo: nat) {
    forall x: nat | InSpan(s, x) && x < upTo :: exists k :: 0 <= k < |chunks| && Covers(chunks[k], x)
  }

  /** `n` is the largest request, 0 if there is none. */
  predicate LargestRequest(chunks: seq<ReadChunk>, n: nat) {
    && (forall k | 0 <= k < |chunks| :: chunks[k].request <= n)
    && if chunks == [] then n == 0 else exists k :: 0 <= k < |chunks| && chunks[k].request == n
  }

  lemma LargestSnoc(chunks: seq<ReadChunk>, n: nat, c: ReadChunk)
    requires LargestRequest(chunks, n)
    ensures LargestRequest(chunks + [c], Max(n, c.request))
  {
    var next := chunks + [c];
    assert next[|chunks|] == c;
    if n > c.request {
      var k :| 0 <= k < |chunks| && chunks[k].request == n;
      assert next[k].request == n;
    }
  }

  function AlignedBytes(spans: seq<ReadSpan>): (n: nat)
    requires SpansSeparated(spans)
    ensures n % BLOCK == 0 && (spans != [] ==> n >= BLOCK)
  {
    if spans == [] then 0 else
      var head, last := spans[..|spans| - 1], spans[|spans| - 1];
      var bytes := AlignUp(last.end - last.begin, BLOCK);
      SumAligned(AlignedBytes(head), bytes, BLOCK);
      MultiplesApart(0, bytes, BLOCK);
      AlignedBytes(head) + bytes
  }

  lemma AlignedStep(spans: seq<ReadSpan>)
    requires spans != [] && SpansSeparated(spans)
    ensures SpansSeparated(spans[..|spans| - 1])
    ensures AlignedBytes(spans)
            == AlignedBytes(spans[..|spans| - 1]) + AlignUp(spans[|spans| - 1].end - spans[|spans| - 1].begin, BLOCK)
  {}

  /** All aligned spans together are no longer than the file up to the last one's aligned end. */
  lemma {:induction false} AlignedBound(spans: seq<ReadSpan>)
    requires spans != [] && SpansSeparated(spans)
    ensures AlignedBytes(spans) <= AlignUp(spans[|spans| - 1].end, BLOCK)
    decreases |spans|
  {
    hide AlignUp, AlignedBytes;
    var n := |spans| - 1;
    var last := spans[n];
    AlignedStep(spans);
    AlignUpShift(last.begin, last.end - last.begin, BLOCK);
    if n > 0 {
      AlignedBound(spans[..n]);
      AlignUpMono(spans[n - 1].end, last.begin, BLOCK);
      AlignUpFixed(last.begin, BLOCK);
    } else {
      NoSpans(spans[..n]);
    }
  }

  lemma NoSpans(spans: seq<ReadSpan>)
    requires spans == []
    ensures SpansSeparated(spans) && AlignedBytes(spans) == 0
  {}

  lemma SpanNonempty(spans: seq<ReadSpan>, n: nat)
    requires SpansSeparated(spans) && n < |spans|
    ensures spans[n].begin < spans[n].end
  {}

  lemma SumStep(spans: seq<ReadSpan>, n: nat)
    requires SpansSeparated(spans) && n < |spans| && spans[n].begin <= spans[n].end <= I64_MAX
    ensures SpansSeparated(spans[..n]) && SpansSeparated(spans[..n + 1])
    ensures AlignedBytes(spans[..n + 1])
            == AlignedBytes(spans[..n]) + AlignUp(spans[n].end - spans[n].begin, BLOCK) <= I64_MAX + 1
  {
    hide AlignUp, AlignedBytes;
    var more := spans[..n + 1];
    assert more[..n] == spans[..n];
    AlignFits(spans[n].end);
    AlignedStep(more);
    AlignedBound(more);
  }

  /** The loop that sums the aligned span lengths: neither checked step ever fails. */
  method SumAlignedBytes(spans: seq<ReadSpan>) returns (total: nat)
    requires SpansSeparated(spans) && forall s | 0 <= s < |spans| :: spans[s].end <= I64_MAX
    ensures total == AlignedBytes(spans) <= I64_MAX + 1
  {
    hide AlignUp, AlignedBytes, SpansSeparated, Storage.CheckedAlign;
    total := 0;
    NoSpans(spans[..0]);
    for n := 0 to |spans|
      invariant SpansSeparated(spans[..n]) && total == AlignedBytes(spans[..n]) <= I64_MAX + 1
    {
      SpanNonempty(spans, n);
      var bytes := Storage.CheckedAlign(spans[n].end - spans[n].begin, BLOCK);
      AlignFits(spans[n].end - spans[n].begin);
      assert bytes.Some?;
      SumStep(spans, n);
      var sum := Storage.CheckedAdd(total, bytes.value);
      assert sum.Some?;
      total := sum.value;
    }
    assert spans[..|spans|] == spans;
  }

  /** A chunk of a span: as many bytes as a chunk may have, or the rest of the span rounded up to blocks. */
  predicate CutOf(s: ReadSpan, chunkBytes: nat, c: ReadChunk) {
    && s.begin <= c.source < s.end
    && c.request == Min(chunkBytes, AlignUp(s.end - c.source, BLOCK))
    && c.required == Min(c.request, s.end - c.source)
  }

  ghost predicate CutFrom(spans: seq<ReadSpan>, chunkBytes: nat, c: ReadChunk) {
    exists s :: 0 <= s < |spans| && CutOf(spans[s], chunkBytes, c)
  }

  ghost predicate AllCut(spans: seq<ReadSpan>, chunkBytes: nat, chunks: seq<ReadChunk>) {
    forall k | 0 <= k < |chunks| :: CutFrom(spans, chunkBytes, chunks[k])
  }

  lemma CutSnoc(spans: seq<ReadSpan>, n: nat, chunkBytes: nat, chunks: seq<ReadChunk>, c: ReadChunk)
    requires n < |spans| && AllCut(spans, chunkBytes, chunks) && CutOf(spans[n], chunkBytes, c)
    ensures AllCut(spans, chunkBytes, chunks + [c])
  {
    hide CutOf;
    assert CutFrom(spans, chunkBytes, c);
  }

  method PlanChunks(spans: seq<ReadSpan>)
    returns (chunks: seq<ReadChunk>, chunkBytes: nat, largestRequest: nat)
    requires spans != [] && SpansSeparated(spans)
    requires forall s | 0 <= s < |spans| :: spans[s].end <= I64_MAX
    ensures chunks != [] && chunkBytes == Min(SLOT_BYTES, AlignedBytes(spans))
    ensures ChunksFit(chunks, chunkBytes) && ChunksApart(chunks)
    ensures forall s | 0 <= s < |spans| :: ChunksCover(chunks, spans[s], spans[s].end)
    ensures ChunksFit(chunks, largestRequest) && largestRequest <= chunkBytes && LargestRequest(chunks, largestRequest)
    ensures ExtentsFit(chunks) && AllCut(spans, chunkBytes, chunks)
  {
    hide AlignUp, AlignedBytes, ChunksCover, LargestRequest, CutFrom;
    var aligned := SumAlignedBytes(spans);
    chunkBytes := Min(SLOT_BYTES, aligned);
    NoLargest();
    chunks, largestRequest := [], 0;
    for n := 0 to |spans|
      invariant if n > 0 then chunks != [] else chunks == []
      invariant ChunksFit(chunks, chunkBytes) && ChunksApart(chunks)
      invariant forall s | 0 <= s < n :: ChunksCover(chunks, spans[s], spans[s].end)
      invariant largestRequest <= chunkBytes && LargestRequest(chunks, largestRequest)
      invariant n > 0 ==> forall k | 0 <= k < |chunks| ::
                  chunks[k].source + chunks[k].request < spans[n - 1].end + BLOCK
      invariant ExtentsFit(chunks) && AllCut(spans, chunkBytes, chunks)
    {
      chunks, largestRequest := CutSpan(spans, n, chunkBytes, chunks, largestRequest);
    }
    FitsLargest(chunks, chunkBytes, largestRequest);
  }

  lemma NoLargest()
    ensures LargestRequest([], 0)
  {}

  lemma FitsLargest(chunks: seq<ReadChunk>, n: nat, largest: nat)
    requires ChunksFit(chunks, n) && LargestRequest(chunks, largest)
    ensures ChunksFit(chunks, largest)
  {}

  /** No requested extent reaches past 2^63, so no offset computed from a chunk wraps. */
  predicate ExtentsFit(chunks: seq<ReadChunk>) {
    forall k | 0 <= k < |chunks| :: chunks[k].source + chunks[k].request <= I64_MAX + 1
  }

  /** The inner loop: one span cut into chunks of `chunkBytes`, the last one block-aligned. Neither the checked
      rounding nor the unchecked step to the next chunk overflows. */
  method CutSpan(spans: seq<ReadSpan>, n: nat, chunkBytes: nat, given: seq<ReadChunk>, largest: nat)
    returns (chunks: seq<ReadChunk>, largestRequest: nat)
    requires n < |spans| && SpansSeparated(spans) && spans[n].end <= I64_MAX
    requires 0 < chunkBytes <= SLOT_BYTES && OnBlock(chunkBytes)
    requires ChunksFit(given, chunkBytes) && ChunksApart(given)
    requires forall s | 0 <= s < n :: ChunksCover(given, spans[s], spans[s].end)
    requires largest <= chunkBytes && LargestRequest(given, largest)
    requires n > 0 ==> forall k | 0 <= k < |given| ::
                 given[k].source + given[k].request < spans[n - 1].end + BLOCK
    requires n == 0 ==> given == []
    requires ExtentsFit(given) && AllCut(spans, chunkBytes, given)
    ensures ExtentsFit(chunks) && AllCut(spans, chunkBytes, chunks)
    ensures chunks != [] && ChunksFit(chunks, chunkBytes) && ChunksApart(chunks)
    ensures forall s | 0 <= s <= n :: ChunksCover(chunks, spans[s], spans[s].end)
    ensures largestRequest <= chunkBytes && LargestRequest(chunks, largestRequest)
    ensures forall k | 0 <= k < |chunks| ::
              chunks[k].source + chunks[k].request < spans[n].end + BLOCK
  {
    hide LargestRequest, AlignUp, ChunksCover, AllCut, Storage.CheckedAlign;
    chunks, largestRequest := given, largest;
    NothingBelow(given, spans[n]);
    var span := spans[n];
    var source := span.begin;
    while source < span.end
      invariant span.begin <= source && OnBlock(source) && ExtentsFit(chunks)
      invariant AllCut(spans, chunkBytes, chunks)
      invariant source > span.begin ==> chunks != []
      invariant ChunksFit(chunks, chunkBytes) && ChunksApart(chunks)
      invariant forall s | 0 <= s < n :: ChunksCover(chunks, spans[s], spans[s].end)
      invariant ChunksCover(chunks, span, source)
      invariant largestRequest <= chunkBytes && LargestRequest(chunks, largestRequest)
      invariant source < span.end ==>
                  forall k | 0 <= k < |chunks| :: chunks[k].source + chunks[k].request <= source
      invariant forall k | 0 <= k < |chunks| ::
                  chunks[k].source + chunks[k].request < span.end + BLOCK
      decreases span.end - source
    {
      var remaining := span.end - source;
      var aligned := Storage.CheckedAlign(remaining, BLOCK);
      AlignFits(remaining);
      assert aligned.Some?;
      var request := Min(chunkBytes, aligned.value);
      var chunk := ReadChunk(source, request, Min(request, remaining));
      AlignUpShift(source, remaining, BLOCK);
      ghost var before := chunks;
      LargestSnoc(chunks, largestRequest, chunk);
      CutSnoc(spans, n, chunkBytes, chunks, chunk);
      chunks := chunks + [chunk];
      largestRequest := Max(largestRequest, request);
      CoverKept(before, chunk, spans, n);
      CoverGrows(before, chunk, span, source, source + chunkBytes);
      SumAligned(source, chunkBytes, BLOCK);
      AlignFits(span.end);
      assert source + chunkBytes <= U64_MAX;
      source := source + chunkBytes;
    }
    CoverAll(chunks, span, source);
  }

  lemma NothingBelow(chunks: seq<ReadChunk>, s: ReadSpan)
    ensures ChunksCover(chunks, s, s.begin)
  {}

  lemma CoverAll(chunks: seq<ReadChunk>, s: ReadSpan, upTo: nat)
    requires ChunksCover(chunks, s, upTo) && s.end <= upTo
    ensures ChunksCover(chunks, s, s.end)
  {}

  lemma CoverKept(chunks: seq<ReadChunk>, chunk: ReadChunk, spans: seq<ReadSpan>, n: nat)
    requires n <= |spans|
    requires forall s | 0 <= s < n :: ChunksCover(chunks, spans[s], spans[s].end)
    ensures forall s | 0 <= s < n :: ChunksCover(chunks + [chunk], spans[s], spans[s].end)
  {
    forall s, x: nat | 0 <= s < n && InSpan(spans[s], x)
      ensures exists k :: 0 <= k < |chunks + [chunk]| && Covers((chunks + [chunk])[k], x)
    {
      var k :| 0 <= k < |chunks| && Covers(chunks[k], x);
      assert Covers((chunks + [chunk])[k], x);
    }
  }

  lemma CoverGrows(chunks: seq<ReadChunk>, chunk: ReadChunk, span: ReadSpan, upTo: nat, next: nat)
    requires ChunksCover(chunks, span, upTo)
    requires chunk.source == upTo && Min(next, span.end) <= chunk.source + chunk.required
    ensures ChunksCover(chunks + [chunk], span, next)
  {
    forall x: nat | InSpan(span, x) && x < next
      ensures exists k :: 0 <= k < |chunks + [chunk]| && Covers((chunks + [chunk])[k], x)
    {
      if x < upTo {
        var k :| 0 <= k < |chunks| && Covers(chunks[k], x);
        assert Covers((chunks + [chunk])[k], x);
      } else {
        assert Covers((chunks + [chunk])[|chunks|], x);
      }
    }
  }

  // ---------------------------------------------------------------------------------------------
  // What a complete read plan gives
  // ---------------------------------------------------------------------------------------------

  predicate TensorByte(ranges: seq<CopyRange>, i: nat, x: nat) {
    i < |ranges| && ranges[i].begin <= x < ranges[i].end
  }

  /** The chunks read every tensor byte, in disjoint ordered extents. Written as one equation, `true == (...)`, so
      that the verifier passes it between lemmas whole; so is HostAt below. */
  ghost predicate Complete(ranges: seq<CopyRange>, chunks: seq<ReadChunk>) {
    true == (
      && Ordered(ranges)
      && ChunksApart(chunks)
      && (forall k | 0 <= k < |chunks| :: 0 < chunks[k].required <= chunks[k].request)
      && forall i: nat, x: nat | TensorByte(ranges, i, x) :: HasChunk(chunks, x))
  }

  ghost predicate HasChunk(chunks: seq<ReadChunk>, x: nat) {
    exists k :: 0 <= k < |chunks| && Covers(chunks[k], x)
  }

  /** The chunk that reads file byte `x`. */
  ghost function ChunkOf(chunks: seq<ReadChunk>, x: nat): (k: nat)
    requires HasChunk(chunks, x)
    ensures k < |chunks| && Covers(chunks[k], x)
  {
    var k :| 0 <= k < |chunks| && Covers(chunks[k], x); k
  }

  /** The chunk reads on to the end of some tensor, rounded up to blocks, unless a slot holds no more; and every
      block it reads holds a tensor byte. */
  ghost predicate Needed(ranges: seq<CopyRange>, c: ReadChunk) {
    && (exists i :: 0 <= i < |ranges| && c.source < ranges[i].end && ReadsTo(ranges[i].end, c))
    && forall b: nat | OnBlock(b) && c.source <= b < c.source + c.request :: Busy(ranges, b)
  }

  predicate ReadsTo(end: nat, c: ReadChunk)
    requires c.source < end
  {
    && c.request == Min(SLOT_BYTES, AlignUp(end - c.source, BLOCK))
    && c.required == Min(c.request, end - c.source)
  }

  lemma {:induction false} SpanWithin(spans: seq<ReadSpan>, s: nat)
    requires SpansSeparated(spans) && s < |spans|
    ensures AlignUp(spans[s].end - spans[s].begin, BLOCK) <= AlignedBytes(spans)
    decreases |spans|
  {
    hide AlignUp, AlignedBytes;
    var n := |spans| - 1;
    AlignedStep(spans);
    if s < n { SpanWithin(spans[..n], s); }
  }

  lemma CutNeeded(ranges: seq<CopyRange>, spans: seq<ReadSpan>, c: ReadChunk)
    requires SpansSeparated(spans) && SpansTight(spans, ranges) && SpansBusy(spans, ranges) && OnBlock(c.source)
    requires CutFrom(spans, Min(SLOT_BYTES, AlignedBytes(spans)), c)
    ensures Needed(ranges, c)
  {
    hide AlignUp, AlignedBytes, Busy;
    var s :| 0 <= s < |spans| && CutOf(spans[s], Min(SLOT_BYTES, AlignedBytes(spans)), c);
    var span := spans[s];
    assert Tight(ranges, span) && BusySpan(ranges, span);
    SpanWithin(spans, s);
    AlignUpMono(span.end - c.source, span.end - span.begin, BLOCK);
    assert ReadsTo(span.end, c);
    forall b: nat | OnBlock(b) && c.source <= b < c.source + c.request ensures Busy(ranges, b) {
      AlignUpShift(c.source, span.end - c.source, BLOCK);
      if span.end <= b { AlignUpLeast(span.end, BLOCK, b); }
    }
  }

  /** Span merging followed by chunking is a complete read plan that reads no block in vain. */
  method PlanReads(input: seq<CopyRange>)
    returns (r: Result<(seq<CopyRange>, seq<ReadChunk>), PlanError>, slotBytes: nat)
    requires input != [] && Nonempty(input)
    requires forall i | 0 <= i < |input| :: input[i].end <= I64_MAX
    ensures r.Ok? <==> PairwiseDisjoint(input)
    ensures r.Ok? ==>
              var (ranges, chunks) := r.value;
              && multiset(ranges) == multiset(input)
              && chunks != [] && Complete(ranges, chunks)
              && ChunksFit(chunks, slotBytes) && slotBytes <= SLOT_BYTES && ExtentsFit(chunks)
              && LargestRequest(chunks, slotBytes) && forall k | 0 <= k < |chunks| :: Needed(ranges, chunks[k])
  {
    hide AlignUp, AlignedBytes, CutFrom, Busy, BusySpan, Needed, Tight, LargestRequest;
    slotBytes := 0;
    var sorted := SortRanges(input);
    if sorted.Err? { return Err(sorted.error), 0; }
    var ranges := sorted.value;
    SameElements(ranges, input);
    assert forall i | 0 <= i < |ranges| :: ranges[i] in input;
    var spans := PlanSpans(ranges);
    var chunks, chunkBytes, largest := PlanChunks(spans);
    forall i: nat, x: nat | TensorByte(ranges, i, x) ensures HasChunk(chunks, x) {
      assert Held(spans, ranges[i]);
      var s :| 0 <= s < |spans| && Inside(ranges[i], spans[s]);
      assert InSpan(spans[s], x) && ChunksCover(chunks, spans[s], spans[s].end);
    }
    forall k | 0 <= k < |chunks| ensures Needed(ranges, chunks[k]) { CutNeeded(ranges, spans, chunks[k]); }
    slotBytes := largest;
    r := Ok((ranges, chunks));
  }

  /** The alignment tail of a chunk holds no tensor byte, and a byte belongs to one chunk only: for
      any permitted read length, a chunk delivers byte `x` of a tensor exactly when it is `x`'s. */
  lemma OneChunkPerByte(ranges: seq<CopyRange>, chunks: seq<ReadChunk>, i: nat, x: nat, k: nat, bytes: nat)
    requires Complete(ranges, chunks) && TensorByte(ranges, i, x)
    requires k < |chunks| && chunks[k].required <= bytes <= chunks[k].request
    ensures HasChunk(chunks, x)
    ensures chunks[k].source <= x < chunks[k].source + bytes <==> k == ChunkOf(chunks, x)
  {
    assert HasChunk(chunks, x);
    var own := ChunkOf(chunks, x);
    if own < k {
      assert chunks[own].source + chunks[own].request <= chunks[k].source;
    } else if k < own {
      assert chunks[k].source + chunks[k].request <= chunks[own].source;
    }
  }

  // ---------------------------------------------------------------------------------------------
  // The copies of one chunk
  // ---------------------------------------------------------------------------------------------

  /** Reference meaning: every tensor from index `from` on, intersected with [lo, hi). */
  function Intersections(ranges: seq<CopyRange>, from: nat, lo: nat, hi: nat): (cs: seq<Copy>)
    decreases |ranges| - from
  {
    if from >= |ranges| then []
    else
      var b, e := Max(lo, ranges[from].begin), Min(hi, ranges[from].end);
      (if b < e then [Copy(from, b, e)] else []) + Intersections(ranges, from + 1, lo, hi)
  }

  /** `n` is the first tensor not wholly below `frontier`. */
  predicate IsCursor(ranges: seq<CopyRange>, n: nat, frontier: nat) {
    && n <= |ranges|
    && (forall i | 0 <= i < n :: ranges[i].end <= frontier)
    && (n < |ranges| ==> frontier < ranges[n].end)
  }

  function CopyBytes(cs: seq<Copy>): int {
    if cs == [] then 0 else CopyBytes(cs[..|cs| - 1]) + (cs[|cs| - 1].end - cs[|cs| - 1].begin)
  }

  /** A copy stays inside its chunk's window and inside its tensor. */
  predicate Proper(ranges: seq<CopyRange>, lo: nat, hi: nat, c: Copy) {
    && c.range < |ranges| && lo <= c.begin < c.end <= hi
    && ranges[c.range].begin <= c.begin && c.end <= ranges[c.range].end
  }

  lemma {:induction false} IntersectionsProper(ranges: seq<CopyRange>, from: nat, lo: nat, hi: nat)
    ensures forall c | c in Intersections(ranges, from, lo, hi) :: Proper(ranges, lo, hi, c)
    decreases |ranges| - from
  {
    if from < |ranges| { IntersectionsProper(ranges, from + 1, lo, hi); }
  }

  lemma {:induction false} IntersectionsSkip(ranges: seq<CopyRange>, from: nat, upTo: nat, lo: nat, hi: nat)
    requires from <= upTo <= |ranges|
    requires forall i | from <= i < upTo :: ranges[i].end <= lo
    ensures Intersections(ranges, from, lo, hi) == Intersections(ranges, upTo, lo, hi)
    decreases upTo - from
  {
    if from < upTo { IntersectionsSkip(ranges, from + 1, upTo, lo, hi); }
  }

  lemma {:induction false} IntersectionsBeyond(ranges: seq<CopyRange>, from: nat, lo: nat, hi: nat)
    requires forall i | from <= i < |ranges| :: hi <= ranges[i].begin
    ensures Intersections(ranges, from, lo, hi) == []
    decreases |ranges| - from
  {
    if from < |ranges| { IntersectionsBeyond(ranges, from + 1, lo, hi); }
  }

  /** The host's work on one chunk: skip the tensors that ended before the chunk, then issue copies
      from the first one left. The cursor makes it incremental, yet it issues exactly the reference
      copies. */
  method CopyChunk(ranges: seq<CopyRange>, next0: nat, source: nat, bytes: nat, ghost frontier: nat)
    returns (copies: seq<Copy>, next: nat, amount: nat)
    requires Ordered(ranges) && IsCursor(ranges, next0, frontier) && frontier <= source
    ensures copies == Intersections(ranges, 0, source, source + bytes)
    ensures IsCursor(ranges, next, source + bytes)
    ensures amount == CopyBytes(copies)
  {
    next := next0;
    while next < |ranges| && ranges[next].end <= source
      invariant next <= |ranges|
      invariant forall i | 0 <= i < next :: ranges[i].end <= source
    {
      next := next + 1;
    }
    IntersectionsSkip(ranges, 0, next, source, source + bytes);
    copies, next, amount := IssueCopies(ranges, next, source, source + bytes);
  }

  /** The inner loop: it stops at the first tensor that starts or ends beyond the chunk. */
  method IssueCopies(ranges: seq<CopyRange>, first: nat, source: nat, chunkEnd: nat)
    returns (copies: seq<Copy>, next: nat, amount: nat)
    requires Ordered(ranges) && IsCursor(ranges, first, source) && source <= chunkEnd
    ensures copies == Intersections(ranges, first, source, chunkEnd)
    ensures IsCursor(ranges, next, chunkEnd)
    ensures amount == CopyBytes(copies)
  {
    hide Intersections, CopyBytes;
    next, copies, amount := first, [], 0;
    NoCopies();
    assert copies + Intersections(ranges, first, source, chunkEnd) == Intersections(ranges, first, source, chunkEnd);
    while next < |ranges| && ranges[next].begin < chunkEnd
      invariant next <= |ranges|
      invariant forall i | 0 <= i < next :: ranges[i].end <= chunkEnd
      invariant copies + Intersections(ranges, next, source, chunkEnd)
                == Intersections(ranges, first, source, chunkEnd)
      invariant amount == CopyBytes(copies)
    {
      var range := ranges[next];
      var b, e := Max(source, range.begin), Min(chunkEnd, range.end);
      IntersectionsHead(ranges, next, source, chunkEnd, copies);
      CopyBytesSnoc(copies, Copy(next, b, if b < e then e else b));
      if b < e {
        copies := copies + [Copy(next, b, e)];
        amount := amount + (e - b);
      }
      if range.end > chunkEnd {
        IntersectionsBeyond(ranges, next + 1, source, chunkEnd);
        assert copies + [] == copies;
        return;
      }
      next := next + 1;
    }
    IntersectionsBeyond(ranges, next, source, chunkEnd);
    assert copies + [] == copies;
  }

  lemma NoCopies()
    ensures CopyBytes([]) == 0
  {}

  lemma CopyBytesSnoc(cs: seq<Copy>, c: Copy)
    ensures CopyBytes(cs + [c]) == CopyBytes(cs) + (c.end - c.begin)
  {
    assert (cs + [c])[..|cs|] == cs;
  }

  lemma IntersectionsHead(ranges: seq<CopyRange>, n: nat, lo: nat, hi: nat, copies: seq<Copy>)
    requires n < |ranges|
    ensures var b, e := Max(lo, ranges[n].begin), Min(hi, ranges[n].end);
            (if b < e then copies + [Copy(n, b, e)] else copies) + Intersections(ranges, n + 1, lo, hi)
            == copies + Intersections(ranges, n, lo, hi)
  {}

  // ---------------------------------------------------------------------------------------------
  // Every tensor byte is copied exactly once
  // ---------------------------------------------------------------------------------------------

  /** How many of the copies carry byte `x` of tensor `i`. */
  function Hits(cs: seq<Copy>, i: nat, x: nat): nat {
    if cs == [] then 0
    else Hits(cs[..|cs| - 1], i, x) +
         (if cs[|cs| - 1].range == i && cs[|cs| - 1].begin <= x < cs[|cs| - 1].end then 1 else 0)
  }

  lemma {:induction false} HitsConcat(a: seq<Copy>, b: seq<Copy>, i: nat, x: nat)
    ensures Hits(a + b, i, x) == Hits(a, i, x) + Hits(b, i, x)
    ensures CopyBytes(a + b) == CopyBytes(a) + CopyBytes(b)
  {
    if b == [] {
      assert a + b == a;
    } else {
      assert (a + b)[..|a + b| - 1] == a + b[..|b| - 1];
      HitsConcat(a, b[..|b| - 1], i, x);
    }
  }

  lemma {:induction false} HitsIntersections(ranges: seq<CopyRange>, from: nat, lo: nat, hi: nat, i: nat, x: nat)
    requires TensorByte(ranges, i, x)
    ensures Hits(Intersections(ranges, from, lo, hi), i, x) == if from <= i && lo <= x < hi then 1 else 0
    decreases |ranges| - from
  {
    hide Hits, Intersections;
    if from < |ranges| {
      var b, e := Max(lo, ranges[from].begin), Min(hi, ranges[from].end);
      var head := if b < e then [Copy(from, b, e)] else [];
      HitsIntersections(ranges, from + 1, lo, hi, i, x);
      HitsConcat(head, Intersections(ranges, from + 1, lo, hi), i, x);
      IntersectionsSplit(ranges, from, lo, hi);
      if b < e { HitsOne(Copy(from, b, e), i, x); } else { HitsNone(i, x); }
    } else {
      IntersectionsEnd(ranges, from, lo, hi);
      HitsNone(i, x);
    }
  }

  lemma IntersectionsSplit(ranges: seq<CopyRange>, n: nat, lo: nat, hi: nat)
    requires n < |ranges|
    ensures var b, e := Max(lo, ranges[n].begin), Min(hi, ranges[n].end);
            Intersections(ranges, n, lo, hi)
              == (if b < e then [Copy(n, b, e)] else []) + Intersections(ranges, n + 1, lo, hi)
  {}

  lemma IntersectionsEnd(ranges: seq<CopyRange>, n: nat, lo: nat, hi: nat)
    requires n >= |ranges|
    ensures Intersections(ranges, n, lo, hi) == []
  {}

  lemma HitsOne(c: Copy, i: nat, x: nat)
    ensures Hits([c], i, x) == if c.range == i && c.begin <= x < c.end then 1 else 0
  {
    assert [c][..0] == [];
    assert Hits([c][..0], i, x) == 0;
  }

  lemma HitsNone(i: nat, x: nat)
    ensures Hits([], i, x) == 0
  {}

  /** Read lengths the direct reads may return. */
  predicate Permitted(chunks: seq<ReadChunk>, got: seq<nat>) {
    && |got| <= |chunks|
    && forall k | 0 <= k < |got| :: chunks[k].required <= got[k] <= chunks[k].request
  }

  /** The copies of the first |reads| chunks, in issue order. */
  function AllCopies(ranges: seq<CopyRange>, chunks: seq<ReadChunk>, got: seq<nat>): (cs: seq<Copy>)
    requires |got| <= |chunks|
  {
    if got == [] then []
    else
      var k := |got| - 1;
      AllCopies(ranges, chunks, got[..k])
      + Intersections(ranges, 0, chunks[k].source, chunks[k].source + got[k])
  }

  lemma AllCopiesStep(ranges: seq<CopyRange>, chunks: seq<ReadChunk>, got: seq<nat>, i: nat, x: nat)
    requires 0 < |got| <= |chunks| && TensorByte(ranges, i, x)
    ensures var k := |got| - 1;
            Hits(AllCopies(ranges, chunks, got), i, x)
            == Hits(AllCopies(ranges, chunks, got[..k]), i, x)
               + (if chunks[k].source <= x < chunks[k].source + got[k] then 1 else 0)
  {
    var k := |got| - 1;
    var lo, hi := chunks[k].source, chunks[k].source + got[k];
    HitsConcat(AllCopies(ranges, chunks, got[..k]), Intersections(ranges, 0, lo, hi), i, x);
    HitsIntersections(ranges, 0, lo, hi, i, x);
  }

  lemma {:induction false} HitsAll(ranges: seq<CopyRange>, chunks: seq<ReadChunk>, got: seq<nat>, i: nat, x: nat)
    requires Complete(ranges, chunks) && Permitted(chunks, got) && TensorByte(ranges, i, x)
    ensures HasChunk(chunks, x)
    ensures Hits(AllCopies(ranges, chunks, got), i, x) == if ChunkOf(chunks, x) < |got| then 1 else 0
  {
    assert HasChunk(chunks, x);
    if got != [] {
      var k := |got| - 1;
      HitsAll(ranges, chunks, got[..k], i, x);
      AllCopiesStep(ranges, chunks, got, i, x);
      OneChunkPerByte(ranges, chunks, i, x, k, got[k]);
    }
  }

  /** Whatever permitted lengths the reads return, every byte of every tensor is carried by exactly
      one copy. */
  lemma ExactlyOnce(ranges: seq<CopyRange>, chunks: seq<ReadChunk>, got: seq<nat>)
    requires Complete(ranges, chunks) && Permitted(chunks, got) && |got| == |chunks|
    ensures forall i: nat, x: nat | TensorByte(ranges, i, x) :: Hits(AllCopies(ranges, chunks, got), i, x) == 1
  {
    forall i: nat, x: nat | TensorByte(ranges, i, x)
      ensures Hits(AllCopies(ranges, chunks, got), i, x) == 1
    {
      HitsAll(ranges, chunks, got, i, x);
    }
  }

  // ---------------------------------------------------------------------------------------------
  // The host loop's byte count and cursor
  // ---------------------------------------------------------------------------------------------

  /** The number of tensor bytes below `frontier`, over tensors from index `from` on. */
  function Below(ranges: seq<CopyRange>, from: nat, frontier: nat): (n: nat)
    decreases |ranges| - from
  {
    if from >= |ranges| then 0
    else Max(0, Min(frontier, ranges[from].end) - ranges[from].begin) + Below(ranges, from + 1, frontier)
  }

  function TotalBytes(ranges: seq<CopyRange>, from: nat): (n: int)
    decreases |ranges| - from
  {
    if from >= |ranges| then 0
    else ranges[from].end - ranges[from].begin + TotalBytes(ranges, from + 1)
  }

  lemma {:induction false} IntersectionBytes(ranges: seq<CopyRange>, from: nat, lo: nat, hi: nat)
    requires lo <= hi && Nonempty(ranges)
    ensures CopyBytes(Intersections(ranges, from, lo, hi)) == Below(ranges, from, hi) - Below(ranges, from, lo)
    decreases |ranges| - from
  {
    if from < |ranges| {
      var b, e := Max(lo, ranges[from].begin), Min(hi, ranges[from].end);
      var head := if b < e then [Copy(from, b, e)] else [];
      IntersectionBytes(ranges, from + 1, lo, hi);
      HitsConcat(head, Intersections(ranges, from + 1, lo, hi), 0, 0);
      assert CopyBytes(head) == Max(0, e - b) by {
        if b < e { assert head[..0] == []; assert CopyBytes(head[..0]) == 0; }
      }
    }
  }

  lemma {:induction false} BelowAll(ranges: seq<CopyRange>, from: nat, frontier: nat)
    requires Nonempty(ranges) && forall i | from <= i < |ranges| :: ranges[i].end <= frontier
    ensures Below(ranges, from, frontier) == TotalBytes(ranges, from)
    decreases |ranges| - from
  {
    if from < |ranges| { BelowAll(ranges, from + 1, frontier); }
  }

  lemma {:induction false} BelowZero(ranges: seq<CopyRange>, from: nat)
    ensures Below(ranges, from, 0) == 0
    decreases |ranges| - from
  {
    if from < |ranges| { BelowZero(ranges, from + 1); }
  }

  /** No tensor byte lies between the end of one chunk's data and the start of the next chunk. */
  ghost predicate NoTensorIn(ranges: seq<CopyRange>, lo: nat, hi: nat) {
    forall i: nat, x: nat | TensorByte(ranges, i, x) :: !(lo <= x < hi)
  }

  lemma BelowGap(ranges: seq<CopyRange>, lo: nat, hi: nat)
    requires lo <= hi && Nonempty(ranges) && NoTensorIn(ranges, lo, hi)
    ensures Below(ranges, 0, lo) == Below(ranges, 0, hi)
    ensures forall n: nat | IsCursor(ranges, n, lo) :: IsCursor(ranges, n, hi)
  {
    IntersectionBytes(ranges, 0, lo, hi);
    var cs := Intersections(ranges, 0, lo, hi);
    if cs != [] {
      IntersectionsProper(ranges, 0, lo, hi);
      assert Proper(ranges, lo, hi, cs[0]);
      assert TensorByte(ranges, cs[0].range, cs[0].begin);
    }
    forall n: nat | IsCursor(ranges, n, lo) ensures IsCursor(ranges, n, hi) {
      if n < |ranges| && ranges[n].end <= hi {
        assert TensorByte(ranges, n, ranges[n].end - 1);
      }
    }
  }

  /** Where the copied data ends after the first `done` chunks. */
  ghost function Frontier(chunks: seq<ReadChunk>, got: seq<nat>): nat
    requires |got| <= |chunks|
  {
    if got == [] then 0 else chunks[|got| - 1].source + got[|got| - 1]
  }

  lemma GapBeforeChunk(ranges: seq<CopyRange>, chunks: seq<ReadChunk>, got: seq<nat>)
    requires Complete(ranges, chunks) && Permitted(chunks, got)
    ensures |got| < |chunks| ==> Frontier(chunks, got) <= chunks[|got|].source
                                   && NoTensorIn(ranges, Frontier(chunks, got), chunks[|got|].source)
    ensures |got| == |chunks| ==> forall i | 0 <= i < |ranges| :: ranges[i].end <= Frontier(chunks, got)
  {
    var n := |got|;
    var f := Frontier(chunks, got);
    forall j | 0 <= j < n ensures chunks[j].source + chunks[j].required <= f {
      if j < n - 1 { assert chunks[j].source + chunks[j].request <= chunks[n - 1].source; }
    }
    forall i: nat, x: nat | TensorByte(ranges, i, x) && f <= x
      ensures n < |chunks| && chunks[n].source <= x
    {
      assert HasChunk(chunks, x);
      var own := ChunkOf(chunks, x);
      if n < own { assert chunks[n].source + chunks[n].request <= chunks[own].source; }
    }
    if n < |chunks| && n > 0 {
      assert chunks[n - 1].source + chunks[n - 1].request <= chunks[n].source;
    }
    forall i | n == |chunks| && 0 <= i < |ranges| ensures ranges[i].end <= f {
      if f < ranges[i].end { assert TensorByte(ranges, i, ranges[i].end - 1); }
    }
  }

  /** The host loop's variables after the chunks whose reads returned `done`. */
  ghost predicate HostAt(ranges: seq<CopyRange>, chunks: seq<ReadChunk>, done: seq<nat>,
                         next: nat, copied: int, issued: seq<Copy>) {
    true == (
      && Permitted(chunks, done)
      && issued == AllCopies(ranges, chunks, done)
      && IsCursor(ranges, next, Frontier(chunks, done))
      && copied == Below(ranges, 0, Frontier(chunks, done)))
  }

  lemma HostAdvances(ranges: seq<CopyRange>, chunks: seq<ReadChunk>, done: seq<nat>, next: nat, copied: int,
                     issued: seq<Copy>, bytes: nat, next': nat)
    requires Complete(ranges, chunks) && HostAt(ranges, chunks, done, next, copied, issued)
    requires |done| < |chunks| && chunks[|done|].required <= bytes <= chunks[|done|].request
    requires IsCursor(ranges, next', chunks[|done|].source + bytes)
    ensures var cs := Intersections(ranges, 0, chunks[|done|].source, chunks[|done|].source + bytes);
            HostAt(ranges, chunks, done + [bytes], next', copied + CopyBytes(cs), issued + cs)
  {
    var k := |done|;
    GapBeforeChunk(ranges, chunks, done);
    BelowGap(ranges, Frontier(chunks, done), chunks[k].source);
    IntersectionBytes(ranges, 0, chunks[k].source, chunks[k].source + bytes);
    assert (done + [bytes])[..k] == done;
  }

  lemma HostFinishes(ranges: seq<CopyRange>, chunks: seq<ReadChunk>, done: seq<nat>, next: nat, copied: int,
                     issued: seq<Copy>)
    requires Complete(ranges, chunks) && HostAt(ranges, chunks, done, next, copied, issued)
    requires |done| == |chunks|
    ensures copied == TotalBytes(ranges, 0) && next == |ranges| && issued == AllCopies(ranges, chunks, done)
  {
    GapBeforeChunk(ranges, chunks, done);
    BelowAll(ranges, 0, Frontier(chunks, done));
  }

  lemma HostStarts(ranges: seq<CopyRange>, chunks: seq<ReadChunk>)
    requires Complete(ranges, chunks)
    ensures HostAt(ranges, chunks, [], 0, 0, [])
  {
    BelowZero(ranges, 0);
  }

  lemma HostFacts(ranges: seq<CopyRange>, chunks: seq<ReadChunk>, done: seq<nat>, next: nat, copied: int,
      issued: seq<Copy>)
    requires Complete(ranges, chunks) && HostAt(ranges, chunks, done, next, copied, issued)
    ensures Ordered(ranges) && IsCursor(ranges, next, Frontier(chunks, done))
    ensures |done| > 0 && |done| < |chunks| ==>
              chunks[|done| - 1].source + chunks[|done| - 1].request <= chunks[|done|].source
  {}

  /** The bytes copied so far end below the frontier. */
  lemma {:induction false} BelowBound(ranges: seq<CopyRange>, from: nat, frontier: nat)
    requires Ordered(ranges)
    ensures Below(ranges, from, frontier) <= if from < |ranges| then Max(0, frontier - ranges[from].begin) else 0
    decreases |ranges| - from
  {
    if from < |ranges| {
      BelowBound(ranges, from + 1, frontier);
      if from + 1 < |ranges| { assert ranges[from].end <= ranges[from + 1].begin; }
    }
  }

  lemma CopiedFits(ranges: seq<CopyRange>, chunks: seq<ReadChunk>, done: seq<nat>, next: nat, copied: int,
      issued: seq<Copy>)
    requires Complete(ranges, chunks) && ExtentsFit(chunks) && HostAt(ranges, chunks, done, next, copied, issued)
    ensures 0 <= copied <= U64_MAX
  {
    BelowBound(ranges, 0, Frontier(chunks, done));
  }

  /** The whole host loop, given what each chunk's read returned and the bytes read for resources before. A
      short read is the only way to fail: the byte counts never overflow, and the closing "did not cover every
      tensor byte" guard is unreachable. */
  method CopyAll(ranges: seq<CopyRange>, chunks: seq<ReadChunk>, got: seq<nat>, retained: nat)
    returns (r: Result<seq<Copy>, PlanError>)
    requires Complete(ranges, chunks) && |got| == |chunks| && ExtentsFit(chunks) && retained <= I64_MAX
    requires forall k | 0 <= k < |got| :: got[k] <= chunks[k].request
    ensures r.Ok? <==> Permitted(chunks, got)
    ensures r.Ok? ==> r.value == AllCopies(ranges, chunks, got)
    ensures r.Err? ==> r.error.ShortRead? && r.error.chunk < |chunks|
                       && got[r.error.chunk] < chunks[r.error.chunk].required
                       && forall k | 0 <= k < r.error.chunk :: chunks[k].required <= got[k]
  {
    hide Complete, HostAt, Intersections;
    var next: nat, copied: nat, issued: seq<Copy>, fileBytes: nat := 0, 0, [], retained;
    ghost var done: seq<nat> := [];
    HostStarts(ranges, chunks);
    for k := 0 to |chunks|
      invariant done == got[..k] && Permitted(chunks, done)
      invariant HostAt(ranges, chunks, done, next, copied, issued)
      invariant fileBytes <= retained + if k == 0 then 0 else chunks[k - 1].source + chunks[k - 1].request
    {
      if got[k] < chunks[k].required { return Err(ShortRead(k)); }
      GapBeforeChunk(ranges, chunks, done);
      HostFacts(ranges, chunks, done, next, copied, issued);
      var counted := Storage.CheckedAdd(fileBytes, got[k]);
      assert counted.Some?;
      var chunkEnd := Storage.CheckedAdd(chunks[k].source, got[k]);
      assert chunkEnd.Some?;
      var copies, next', amount := CopyChunk(ranges, next, chunks[k].source, got[k], Frontier(chunks, done));
      HostAdvances(ranges, chunks, done, next, copied, issued, got[k], next');
      CopiedFits(ranges, chunks, done + [got[k]], next', copied + amount, issued + copies);
      var sum := Storage.CheckedAdd(copied, amount);
      assert sum.Some?;
      next, copied, issued, fileBytes, done := next', sum.value, issued + copies, counted.value, done + [got[k]];
    }
    assert done == got;
    HostFinishes(ranges, chunks, done, next, copied, issued);
    if copied != TotalBytes(ranges, 0) || next != |ranges| {
      return Err(Uncovered);
    }
    r := Ok(issued);
  }
}
