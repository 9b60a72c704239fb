# NInfer host core in Dafny

A Dafny model of the host-side core of NInfer, a CUDA inference engine, with proofs of the properties that
core rests on. It covers five areas.

- **Paged KV cache.** `PoolLedger` and `PoolProofs` describe the two-level allocator as a value and prove what
  every operation keeps. `PagedKv` and `PagedKvBundle` are the pool, its allocations and the bundle operations
  as objects, each method proved against the ledger. `Dma`, `Planes`, `PageRuns` and `PageStore` describe
  device memory, pages, coalesced copies and host images; `PlaneTransfer`, `Transfer`, `PageCopy`,
  `LogicalPages` and `Scatter` are the transfer operations over arrays. `PoolPlan` proves that a planned pool
  has the geometry the transfers assume.
- **Artifact loading.** `ReadPlan` is the read planning and the host loop; `Pipeline`, `PipelineSafety` and
  `PipelineProgress` are a step system whose runs are all interleavings of read workers, host loop and load
  stream. `Loading` joins it to the directory and the binder.
- **Artifact directory, geometry, identity.** `Storage`, `StorageWidths`, `RowSelection`, `Directory`, `Binding`;
  `Identity` merges the selected ranges. `JsonText` is compact JSON and `JsonReading` a reader for it; `DigestText` is
  the text of a tensor list and how it reads back, and `DigestInput` proves that the text under the content digest and
  the selected content determine each other.
- **Layout, tensors, state pool.** `Tensors`, `Layout`, `TensorLayout`, `StateSlots`, `StatePlan`, `StatePool`,
  `StateOps`.
- **Message streaming.** `MessageEvents` is the transcript and an independent block grammar, `MessageLaws` what
  the grammar means and what is conserved, `MessageBlocks` which blocks the client assembles, `MessageStream` the
  provider write by write.

`Arith`, `Bytes`, `Results` and `Sorting` are shared helpers. Check everything with
`dafny verify dfyconfig.toml`.

## How the model is read

- Device and host memory are byte arrays; `cudaMemcpyAsync`, `cudaMemcpy2DAsync`, `cudaMemsetAsync` and
  `cudaMemset2DAsync` move or fill exactly the named rows. Copies inside one buffer require the rows to be
  apart, which the callers prove.
- A plane is base, row, pitch and heads: a page-major page is one row, a head-major page one row per head.
- Streams execute in issue order and an event stands for everything enqueued before it was recorded. The
  block-table copies of the allocator take effect in that order.
- Exceptions are results (`Result`, or `Option` where the source has a single error type). A host allocation
  that may throw is a boolean input (`hostOk`).
- Integers are unbounded; every u32, u64 and i64 bound of the source that matters is written out, and wrap-around is
  proved absent where the source does not check.
- `std::sort` is any sorted permutation; results that could depend on the order of equal keys are proved for
  all of them.
- `pread` returns any length the plan permits, or a short one. The digest is a function of its input text, in which
  a character stands for a byte.
- A kernel launch is any order of its threads.

## Findings

- `recurrent_slot` can throw: with a single layer and a recurrent tensor above 2^63 bytes the slot offset does
  not fit a signed 64-bit integer (`StateOps.UnsliceableSlot`). It cannot with two or more layers
  (`StateOps.SliceableAlways`), and `StateOps.RecurrentSlot` gives the exact condition.
- Two content blocks are open at once exactly when a generation reasons again after producing content
  (`MessageLaws.OneAtATime`, `MessageLaws.OverlapExample`).
- For a request that is not tool capable the provider drops text left unstreamed (`MessageLaws.WholeTextIff`,
  `MessageLaws.UnstreamedExample`). It accepts such an outcome; whether the service ever returns one without tools is
  outside the model.
- Selecting all rows of a row-split or row-scale tensor is not the same as selecting the whole tensor when the
  encoding has padding (`RowSelection.AllRowsIsWhole`, `RowSelection.PaddedExample`).
- `plan_linear_attention_state_pool` can throw after the builder has advanced, in two ways: the byte size of the
  recurrent tensor is only computed once layer 0's convolution region was added (`StatePlan.LateFailureExample`), and
  the layout's end can overflow in any later add (`StatePlan.LongLayoutExample`). `StatePlan.Plan` says exactly when
  a failure leaves the builder unchanged and what it holds otherwise. `plan_paged_kv_pool` likewise keeps the planes
  before the failing one (`PoolPlan.Plan`).
- `row_split_geometry` refuses row lengths within 127 of 2^64 although their encoding could fit
  (`Storage.PaddingCanOverflowAlone`).
- A comment in `src/core/linear_attention_state.cpp:216-217` treats a device-to-device 2D copy as touching its
  whole bounding box, while `src/core/paged_kv_cache.cpp:696-703` uses such a copy between pages of one plane.
  The model follows the row-wise reading.

## Model

| member | source | states |
|---|---|---|
| `PoolProofs.FreshInv` | src/core/paged_kv_cache.cpp:94-122 | a new pool satisfies the pool invariant: free list and claims partition the pages, counters are sums, rows are owned once |
| `PoolProofs.EveryRunKeepsInv` | src/core/paged_kv_cache.cpp:156-427 | after any sequence of reserve, set or cancel entitlement, materialize, trim, bind, unbind, move and release, including calls that fail, the invariant holds |
| `PoolProofs.PageOwner` | src/core/paged_kv_cache.cpp:209-266 | a page listed by an allocation is listed once, is not free, and belongs to no other allocation |
| `PoolProofs.PageSomewhere` | src/core/paged_kv_cache.cpp:209-266 | every page id is free or listed by some allocation |
| `PoolProofs.EntitlementIsAGuarantee` | src/core/paged_kv_cache.cpp:209-214 | in every reachable state, materializing anything within the entitlement succeeds: the could-not-be-materialized error is unreachable |
| `PoolProofs.EntitlementIsFree` | src/core/paged_kv_cache.cpp:336-365 | what an allocation may still map is always covered by free pages, and free plus mapped pages is the page count |
| `PoolProofs.ReturnFits` | src/core/paged_kv_cache.cpp:261-266 | returned pages fit the free list's capacity reserved at construction, and every page list stays within its entitlement and its own reserved capacity |
| `PoolProofs.RowsNeverShare` | src/core/paged_kv_cache.cpp:384-406 | live entries of the rows of two bound allocations never name the same physical page, and their rows differ |
| `PoolProofs.TakePicks` | src/core/paged_kv_cache.cpp:209-259 | the pages taken are the preferred run if it starts one, else the lowest run of consecutive ids, else the lowest ids; exactly they leave the free list, which stays sorted |
| `PoolProofs.TakenIsRight` | src/core/paged_kv_cache.cpp:216-259 | said of the set of free ids alone: the taken pages are the wanted run if all its ids are free, else the run of that length with the lowest start if there is any, else the lowest ids in order |
| `PoolProofs.ReturnedAll` | src/core/paged_kv_cache.cpp:261-266 | returning pages adds exactly them to the free list, none lost and none twice |
| `PoolProofs.PublishPrefix` | src/core/paged_kv_cache.cpp:392-406 | publishing right after the live prefix extends it, changes no other row and nothing beyond |
| `PoolProofs.ReturnedSorted` | src/core/paged_kv_cache.cpp:261-266 | returned pages merge into a strictly sorted free list |
| `PagedKv.PagedKVPool.constructor` | src/core/paged_kv_cache.cpp:94-122 | a new pool is valid: every page is free in ascending order, no row is in use, the counters are zero and there is no allocation |
| `PagedKv.PagedKVPool.Reserve` | src/core/paged_kv_cache.cpp:156-172 | succeeds exactly when the entitlement can be reserved and the host allocation succeeds; the new allocation has no page, no row and that entitlement, the entitled count grows by it, and pages, rows and tables are as before; otherwise nothing changes |
| `PagedKv.PagedKVPool.TakePages` | src/core/paged_kv_cache.cpp:209-259 | the search loops take exactly the pages the ledger's rule names |
| `PagedKv.PagedKVPool.LowestRun` | src/core/paged_kv_cache.cpp:236-243 | the scan finds the first index where a run of the wanted length starts, if there is one |
| `PagedKv.PagedKVPool.ReturnPages` | src/core/paged_kv_cache.cpp:261-266 | append and sort give the ledger's merged free list |
| `PagedKv.PagedKVPool.AcquireRow` | src/core/paged_kv_cache.cpp:274-282 | out-of-range and occupied rows are refused with their own errors and nothing changes; otherwise exactly that row becomes in use |
| `PagedKv.PagedKVAllocation.SetPageEntitlement` | src/core/paged_kv_cache.cpp:336-344 | succeeds exactly from the mapped count up when the pool has room and the list can grow; the entitlement becomes the new one, the entitled count moves by the difference, and nothing else changes; which condition fails decides the error |
| `PagedKv.PagedKVAllocation.CancelUnmappedEntitlement` | src/core/paged_kv_cache.cpp:346-351 | the entitlement drops to the mapped pages, the entitled count drops by the difference, and nothing else changes |
| `PagedKv.PagedKVAllocation.MaterializePages` | src/core/paged_kv_cache.cpp:353-365 | succeeds exactly between the mapped count and the entitlement; the old pages stay in front, the new ones are the run that continues the last page if it is free, else the lowest free run, else the lowest free ids; exactly they leave the free list, and a bound row shows them |
| `PagedKv.PagedKVAllocation.TrimPages` | src/core/paged_kv_cache.cpp:371-380 | exactly the first pages stay and exactly the rest return to the free list; entitlement, row and tables are as before; errors change nothing |
| `PagedKv.PagedKVAllocation.BindRow` | src/core/paged_kv_cache.cpp:384-406 | the row becomes in use and the allocation's, and begins with exactly the page list; the rest of the row, every other row, the free list, the counters and the page list are as before; errors change nothing |
| `PagedKv.PagedKVAllocation.UnbindRow` | src/core/paged_kv_cache.cpp:408-412 | exactly the bound row becomes free and the allocation unbound; pages, entitlement and tables are as before |
| `PagedKv.PagedKVAllocation.Release` | src/core/paged_kv_cache.cpp:419-427 | exactly its pages return to the free list, its entitlement and row to the pool; the allocation is empty and detached afterwards, and other allocations are as before |
| `PagedKv.PagedKVAllocation.MoveFrom` | src/core/paged_kv_cache.cpp:295-314 | move assignment releases the target, then passes on pool, pages, entitlement and row unchanged and empties the source; self-move does nothing |
| `PagedKvBundle.ReserveBundle` | src/core/paged_kv_cache.cpp:429-444 | all-or-nothing: on any failure every pool is as before and the error is invalid_argument exactly for requests that are not distinct, bad_alloc otherwise; on success every pool gains exactly an empty allocation of the requested entitlement |
| `PagedKvBundle.ReserveReleaseIsIdentity` | src/core/paged_kv_cache.cpp:429-444 | reserving and releasing restores the ledger exactly, which is what unwinding a partial bundle relies on |
| `PagedKvBundle.ValidateDistinct` | src/core/paged_kv_cache.cpp:33-44 | refuses exactly a missing pool, a zero entitlement, or a pool named twice |
| `PagedKvBundle.ResizeBundle` | src/core/paged_kv_cache.cpp:446-475 | succeeds exactly when validation and the host reservations do; then every allocation keeps exactly its first mapped pages, has the new entitlement and its row, and its pool has exactly the trimmed pages back; failed validation changes nothing and names the first failing change's error, a failed host reservation is bad_alloc and changes no accounting |
| `PagedKvBundle.ResizeChecked` | src/core/paged_kv_cache.cpp:467-474 | once validation passed, no trim or entitlement change can fail |
| `PagedKvBundle.ValidateResize` | src/core/paged_kv_cache.cpp:446-466 | the validation loop accepts exactly the declared condition; otherwise the first failing change decides the error, bad_alloc exactly when only room in its pool is missing |
| `PoolPlan.Plan` | src/core/paged_kv_cache.cpp:48-84 | from any cursor planning succeeds exactly when every tensor of the pool exists, alignments are powers of two and the pool's end fits 64 bits; then planes and tables lie one after another at the computed places, each of its shape and size; otherwise the first plane that cannot be planned decides the error and the builder holds exactly the planes before it |
| `PoolPlan.PlannedMeans` | src/core/paged_kv_cache.cpp:60-78 | a planned plane has shape leading, 64, heads, pages in page-major order and leading, 64, pages, heads in head-major order, and exactly that many elements' bytes |
| `PoolPlan.PlannedInOrder` | src/core/paged_kv_cache.cpp:60-82 | each plane starts at the next multiple of its own alignment after the plane before, the block tables of I32 at the next multiple of 256 after the last |
| `PoolPlan.EndGrows` | src/core/paged_kv_cache.cpp:60-82 | the planned ends only grow, so the pool's end decides whether any plane overflows |
| `PoolPlan.BindPool` | src/core/paged_kv_cache.cpp:94-116 | binding succeeds exactly when tables and planes are consistent, bind to the backing and match the spec's inventory and plane specs; each tensor is at its region's address |
| `PoolPlan.PlannedBinds` | src/core/paged_kv_cache.cpp:94-116 | over a backing that reaches the pool's end, binding depends only on the address |
| `PoolPlan.PlannedGeometry` | src/core/paged_kv_cache.cpp:48-84 | whatever the builder planned before, the planes of a planned pool lie apart inside any backing of the builder's size and apart from the block tables |
| `PoolPlan.ElementInItsPage` | src/core/paged_kv_cache.cpp:68-78 | every element of a plane tensor lies in the row of its page and head that the transfer layer moves |
| `PoolPlan.PlanAndBuild` | src/core/paged_kv_cache.cpp:48-122 | planning, finishing and building at an address succeeds exactly when planning does, the finished size fits and the address meets every alignment; the result is a valid fresh pool whose planes are the planned ones |
| `Transfer.OwnPages` | src/core/paged_kv_cache.cpp:209-266 | from the pool invariant: an allocation's pages exist, are distinct, and are disjoint from every other allocation's |
| `Transfer.NobodyElseSees` | src/core/paged_kv_cache.cpp:627-662 | a write confined to some pages of one allocation changes no page of any other allocation |
| `Transfer.HostImageBytes` | src/core/paged_kv_cache.cpp:567-582 | the exact image size, or an overflow error exactly when it exceeds size_t |
| `PlaneTransfer.PackPageMajor` | src/core/paged_kv_cache.cpp:492-528 | runs and arithmetic progressions coalesced into contiguous and pitched copies produce exactly the page-after-page image, for any page order |
| `PlaneTransfer.UnpackPageMajor` | src/core/paged_kv_cache.cpp:530-563 | the coalesced unpack leaves exactly the memory of page-at-a-time writes, for any page order |
| `PlaneTransfer.PackHeadMajor` | src/core/paged_kv_cache.cpp:613-620 | one pitched copy per page produces the page-after-page image |
| `PlaneTransfer.UnpackHeadMajor` | src/core/paged_kv_cache.cpp:651-658 | one pitched copy per page is the page-at-a-time write |
| `PageRuns.ProgressionWrite` | src/core/paged_kv_cache.cpp:547-559 | one pitched copy into a progression of pages is that many page writes |
| `PageRuns.ProgressionRows` | src/core/paged_kv_cache.cpp:514-524 | the rows of a progression are the image of those pages |
| `Transfer.PackAllocation` | src/core/paged_kv_cache.cpp:592-625 | error cases exactly as listed, and otherwise the host buffer holds exactly the image of the first pages; nothing else in it changes |
| `Transfer.UnpackAllocation` | src/core/paged_kv_cache.cpp:627-662 | error cases exactly as listed, and otherwise device memory is exactly the unpacked memory and every other allocation's pages are unchanged |
| `PageStore.RoundTrip` | src/core/paged_kv_cache.cpp:592-662 | unpacking the first pages of an image into any distinct pages restores every byte in every plane and touches nothing else |
| `Transfer.AllocationRoundTrip` | src/core/paged_kv_cache.cpp:592-662 | pack one allocation, unpack into another of the same pool: every page comes back and no other allocation changes, for both plane orders |
| `PageStore.WroteExactlyDetermines` | src/core/paged_kv_cache.cpp:592-707 | the page-by-page description of a transfer determines the whole memory |
| `PageStore.WriteAllExact` | src/core/paged_kv_cache.cpp:627-662 | writing pages across all planes changes exactly those pages |
| `PageStore.ImageHolds` | src/core/paged_kv_cache.cpp:567-625 | block (plane, i) of an image is page i of that plane |
| `PageStore.ImageByte` | src/core/paged_kv_cache.cpp:592-625 | byte for byte: plane after plane, in each page after page, in each head after head, every image byte is the device byte of that page, head and place |
| `PageCopy.CopyAllocation` | src/core/paged_kv_cache.cpp:664-707 | page i of the destination takes page i of the source in every plane, and nothing else changes; fails exactly on foreign, equal or too short allocations |
| `PageCopy.CopyPlane` | src/core/paged_kv_cache.cpp:681-706 | copying paired runs equals copying each page, although source and destination share the memory |
| `PageCopy.PairedApart` | src/core/paged_kv_cache.cpp:674-686 | disjoint page lists have non-overlapping paired runs, so the device copies never overlap |
| `PageRuns.RunCopy` | src/core/paged_kv_cache.cpp:681-703 | a run moved as one pitched copy is that many page copies |
| `PageCopy.ZeroPages` | src/core/paged_kv_cache.cpp:174-207 | out-of-range ids, then duplicates, are refused; otherwise exactly the named pages become zero in every plane |
| `PageCopy.AdjacentFind` | src/core/paged_kv_cache.cpp:181-183 | on the sorted ids a duplicate is reported exactly when there is one |
| `PageRuns.RunClear` | src/core/paged_kv_cache.cpp:185-198 | one pitched fill clears exactly a run of pages |
| `LogicalPages.PackLogicalPage` | src/core/paged_kv_cache.cpp:713-744 | error cases exactly as listed, and otherwise the buffer holds the image of that one page |
| `LogicalPages.UnpackLogicalPage` | src/core/paged_kv_cache.cpp:746-777 | error cases exactly as listed, and otherwise exactly that page is written in every plane |
| `LogicalPages.HostSlices` | src/core/paged_kv_cache.cpp:779-795 | the slices are where the image keeps the page's block of each plane |
| `LogicalPages.GatherLogicalPage` | src/core/paged_kv_cache.cpp:797-808 | the destination receives the gathered page and nothing else of it changes |
| `LogicalPages.GatherIsPackOne` | src/core/paged_kv_cache.cpp:779-808 | gathering page i from a packed image gives the bytes packing page i alone would give |
| `LogicalPages.OneByOneIsWhole` | src/core/paged_kv_cache.cpp:746-808 | restoring an image page by page leaves the same memory as restoring it whole |
| `Scatter.MakePlan` | src/core/paged_kv_scatter.cu:31-66 | one descriptor per plane, total and largest plane size; fails exactly when a row exceeds 32 bits |
| `Scatter.AddressInPage` | src/core/paged_kv_scatter.cu:12-27 | every thread writes inside the row of its page, in either plane order |
| `Scatter.ScatterIsUnpack` | src/core/paged_kv_scatter.cu:12-90 | under every order of the grid's threads the launch leaves exactly what unpacking the logical page leaves |
| `Scatter.ScatterLogicalPage` | src/core/paged_kv_scatter.cu:68-90 | error cases exactly as listed, and otherwise device memory is the unpacked page |
| `ReadPlan.SortRanges` | src/artifact/materializer.cpp:299-306 | the overlap guard fires exactly when two source ranges overlap; otherwise the ranges come out sorted and disjoint |
| `ReadPlan.PlanSpans` | src/artifact/materializer.cpp:308-320 | every tensor lies in one span; spans start on 4096, stay a whole block apart and bridge no block without a tensor byte; the checked rounding never overflows |
| `ReadPlan.SumAlignedBytes` | src/artifact/materializer.cpp:321-326 | the checked sum of the rounded span sizes never overflows and is the exact total |
| `ReadPlan.PlanChunks` | src/artifact/materializer.cpp:321-346 | the chunk size is the slot size or all there is to read; requests are 4096-aligned and fit it, each is a full chunk or the rounded rest of its span, and no file block is requested twice; the chunks cover every span and no extent wraps |
| `ReadPlan.PlanReads` | src/artifact/materializer.cpp:299-353 | for any disjoint ranges the plan exists, covers every tensor byte, and fits the slots, which are as large as the largest request; overlapping ranges are the only failure: every checked sum and rounding on the way succeeds |
| `ReadPlan.CutNeeded` | src/artifact/materializer.cpp:308-346 | no read is in vain: every chunk reads on to the end of some tensor, rounded up to blocks, unless 64 MiB come first, and every block it reads holds a tensor byte |
| `ReadPlan.OneChunkPerByte` | src/artifact/materializer.cpp:332-346 | whatever length a read returns, a tensor byte is read by exactly one chunk |
| `ReadPlan.CopyChunk` | src/artifact/materializer.cpp:381-403 | the two cursor loops issue exactly the intersections of the chunk with the tensors |
| `ReadPlan.ExactlyOnce` | src/artifact/materializer.cpp:369-403 | for every permitted read length, each byte of each tensor is carried by exactly one copy |
| `ReadPlan.HostAdvances` | src/artifact/materializer.cpp:369-403 | cursor and copied-byte count after each chunk are the tensors and bytes below the frontier |
| `ReadPlan.HostFinishes` | src/artifact/materializer.cpp:418-420 | after the last chunk all bytes are copied and the cursor is at the end: the closing guard cannot fire |
| `ReadPlan.CopyAll` | src/artifact/materializer.cpp:369-420 | the whole host loop fails exactly at the first short read, which it names; its checked byte counts never overflow, and it issues exactly the planned copies |
| `PipelineSafety.StepKeeps` | src/artifact/materializer.cpp:106-151 | every step of every read worker, the host loop and the load stream keeps the pipeline invariant |
| `PipelineSafety.CopyReadsItsChunk` | src/artifact/materializer.cpp:391-394 | whenever a copy of chunk k executes, its slot still holds chunk k's file bytes |
| `PipelineSafety.NoOverwrite` | src/artifact/materializer.cpp:144-148 | whenever a worker writes a slot, every earlier copy from that slot has executed |
| `PipelineSafety.SlotExclusive` | src/artifact/materializer.cpp:357-363 | no two chunks are ever read into one slot at the same time |
| `PipelineProgress.NotStuck` | src/artifact/materializer.cpp:133-151 | in every invariant state that is not final some component can step |
| `PipelineProgress.StepCloser` | src/artifact/materializer.cpp:133-151 | every step decreases one well-founded measure, so no run goes on for ever |
| `PipelineProgress.DoneIsMaterialized` | src/artifact/materializer.cpp:416-431 | when the host is done every tensor byte is at its destination and every other device byte is untouched |
| `PipelineProgress.EveryReachableState` | src/artifact/materializer.cpp:106-417 | every reachable state satisfies the invariant and is final or can move |
| `PipelineProgress.EveryRunEndsWell` | src/artifact/materializer.cpp:106-431 | every run under every scheduling terminates, loaded or with the short read it reports |
| `Loading.SourcesAndDestinations` | src/artifact/materializer.cpp:274-306 | a finished plan over an accepted directory has disjoint sources and disjoint destinations within capacity |
| `Loading.CollectRanges` | src/artifact/materializer.cpp:237-298 | with such a plan only the empty plan is refused: payload, size and sum checks never fire |
| `Loading.Prepare` | src/artifact/materializer.cpp:237-353 | the overlap guard never fires, no extent wraps, there are eight slots or as many as chunks, each as large as the largest request, and the pipeline starts in a configuration its proofs accept |
| `Loading.EveryLoadEndsWell` | src/artifact/materializer.cpp:237-431 | every run loads each planned tensor to its planned offset or reports a short read |
| `Binding.Binder.constructor` | src/artifact/binder.cpp:23-27 | a new binder has bound and placed nothing |
| `Binding.Binder.FindUnconsumed` | src/artifact/binder.cpp:37-49 | succeeds exactly for a present, unbound name and binds it |
| `Binding.Binder.RequireTensor` | src/artifact/binder.cpp:51-64 | succeeds exactly on a matching unbound tensor; the object is consumed even when it does not match |
| `Binding.Binder.RequireResource` | src/artifact/binder.cpp:66-77 | the same for resources |
| `Binding.Binder.PlanTensor` | src/artifact/binder.cpp:90-117 | succeeds exactly for an unplaced tensor whose aligned end fits; then exactly that backing gains it at the next multiple of 256 and ends with it, and the backing stays aligned, ordered, disjoint and within capacity |
| `Binding.Binder.RetainOnHost` | src/artifact/binder.cpp:119-130 | succeeds exactly for an unplaced resource, which joins the end of the host list |
| `Binding.Binder.ValidateOnly` | src/artifact/binder.cpp:132-139 | succeeds exactly for an unplaced object |
| `Binding.Binder.Finish` | src/artifact/binder.cpp:141-155 | returns the plan exactly when every object was bound and placed, and moves it out: a second call gets the same capacities with empty lists |
| `Binding.PlacedOnce` | src/artifact/binder.cpp:99-139 | in a finished plan no object is placed twice, within a list or across lists |
| `Directory.ParseObject` | src/artifact/reader.cpp:119-170 | an entry is accepted exactly when named, positive and, for a tensor, of the encoded size |
| `Directory.Open` | src/artifact/reader.cpp:324-370 | the loop accepts exactly the directories whose objects are valid, aligned, in bounds, ordered, disjoint and uniquely named |
| `Directory.AcceptedMeans` | src/artifact/reader.cpp:324-370 | acceptance in plain terms: named, not empty, in bounds, in file order and apart, tensors on multiples of 256 with no zero dimension and exactly the encoded size |
| `Directory.Find` | src/artifact/reader.cpp:510-513 | finds the object of that name, or there is none |
| `Directory.PayloadsDisjoint` | src/artifact/reader.cpp:519-529 | every accepted object has a payload inside the file and no two share a byte |
| `RowSelection.SelectionIs` | src/artifact/reader.cpp:411-457 | the selected ranges are the same rows of every plane plus the divisor; refused exactly for invalid rows |
| `RowSelection.SelectionInside` | src/artifact/reader.cpp:416-456 | every selected range is nonempty and inside the encoded size, so no product wraps |
| `RowSelection.SelectionMeaning` | src/artifact/reader.cpp:416-456 | a selection names exactly the bytes of its rows and of the divisor |
| `RowSelection.RowsDisjoint` | src/artifact/reader.cpp:416-456 | no byte belongs to two rows, or to a row and the divisor |
| `RowSelection.AllRowsIsWhole` | src/artifact/reader.cpp:416-456 | selecting all rows names the whole tensor exactly when the encoding has no padding |
| `RowSelection.PaddedExample` | src/artifact/reader.cpp:416-456 | a one-element row-scaled tensor with a padding byte that selecting all rows does not name |
| `Identity.Merge` | src/artifact/reader.cpp:470-481 | from any sorted order the merge loop gives sorted, strictly separated ranges covering exactly the union |
| `Identity.CanonicalUnique` | src/artifact/reader.cpp:470-481 | a set of bytes has exactly one such list |
| `Identity.ContentIdentity` | src/artifact/reader.cpp:384-481 | fails exactly on an invalid selection, and otherwise gives for each selected tensor the canonical list of its selected bytes |
| `Identity.IdentityIsByteSet` | src/artifact/reader.cpp:384-481 | two selections give the same lists exactly when they select the same bytes of the same tensors |
| `Identity.TileCoverIsWhole` | src/artifact/reader.cpp:437-449 | NVFP4 selections that cover all 128-row tiles give the single whole-tensor range |
| `DigestInput.EnumerationUnique` | src/artifact/reader.cpp:396-396 | a set of names has one ascending order, the one std::map iterates in |
| `DigestText.EntryReads` | src/artifact/reader.cpp:482-491 | the text of a tensor, whatever follows, reads back as its name, shape, format, layout, ranges and bytes, in that order |
| `DigestText.StreamReads` | src/artifact/reader.cpp:482-493 | the text of a list of tensors reads back as the list |
| `DigestText.StreamUnique` | src/artifact/reader.cpp:482-493 | two lists of tensors give the same digest text only if they are the same list: names, shapes, formats, layouts, ranges and bytes |
| `DigestText.FormatParses` | src/artifact/reader.cpp:93-104 | a format's name is the one text that parses as the format |
| `DigestText.LayoutParses` | src/artifact/reader.cpp:106-112 | a layout's name is the one text that parses as the layout |
| `DigestInput.EntryIs` | src/artifact/reader.cpp:482-491 | what is hashed for a name is its directory description, its canonical ranges and the file's bytes at them |
| `DigestInput.EntryIsContent` | src/artifact/reader.cpp:482-493 | what is hashed for one name agrees exactly when its description, its selected bytes and their data agree |
| `DigestInput.InputIsContent` | src/artifact/reader.cpp:384-493 | for any two artifacts and any selections the text under the digest is equal exactly when the same bytes of the same tensors are selected and agree, wherever the tensors lie |
| `DigestInput.TextDependsOnSelectedBytes` | src/artifact/reader.cpp:482-493 | with the same selections over tensors described alike, the text is equal exactly when the selected bytes are |
| `DigestInput.HashedText` | src/artifact/reader.cpp:468-493 | the hashing loop feeds exactly that text, and reading it gives the selected tensors in map order |
| `JsonReading.CharacterReads` | third_party/nlohmann/json.hpp:19126-19211 | an escaped character, whatever follows, reads back as the character by the escapes of RFC 8259 |
| `JsonReading.StringReads` | third_party/nlohmann/json.hpp:18968-18974 | the text of a string reads back as the string and ends at its closing quotation mark |
| `JsonReading.DigitsRead` | third_party/nlohmann/json.hpp:19435-19510 | the positional value of a number's decimal text is the number, and only zero begins with a zero |
| `JsonReading.DigitsOfValue` | third_party/nlohmann/json.hpp:19435-19510 | decimal text without a leading zero is the text of its value |
| `JsonReading.DumpReads` | third_party/nlohmann/json.hpp:18909-18974 | what dump writes, whatever follows, reads back as the value, however nested; only a number needs to be told where it ends |
| `JsonReading.DumpShortest` | third_party/nlohmann/json.hpp:18909-18974 | no text that reads as a value is shorter than the one dump writes |
| `JsonReading.EscapedUnique` | third_party/nlohmann/json.hpp:19126-19211 | an escaped character is not the beginning of another one |
| `JsonReading.StringUnique` | third_party/nlohmann/json.hpp:18968-18974 | the text of a string ends where its closing quotation mark is, and determines the string |
| `JsonReading.NumberUnique` | third_party/nlohmann/json.hpp:19435-19510 | decimal text that no digit follows determines the number |
| `JsonReading.DumpUnique` | third_party/nlohmann/json.hpp:18909-18974 | compact JSON text determines the value, however nested, and where it ends |
| `Storage.MulExact` | src/artifact/storage_layouts.cpp:18-23 | the quotient test refuses exactly the products that do not fit |
| `Storage.AlignExact` | src/artifact/storage_layouts.cpp:25-28 | aligning overflows exactly when the aligned value does not fit |
| `Storage.RowSplitIsExact` | src/artifact/storage_layouts.cpp:144-168 | the checked geometry is the exact one, and exists exactly when the padded row length and the encoded size fit |
| `Storage.PaddingCanOverflowAlone` | src/artifact/storage_layouts.cpp:152-152 | the padding bound is not implied by the size: a row length that is refused although its encoding would fit |
| `Storage.BlockScaleIsExact` | src/artifact/storage_layouts.cpp:170-197 | only the element count can overflow, and the planes have no gap |
| `Storage.RowScaleIsExact` | src/artifact/storage_layouts.cpp:199-217 | the checked geometry is the exact one, and exists exactly when the encoded size fits |
| `Storage.TensorEncodedSize` | src/artifact/storage_layouts.cpp:115-142 | for every layout the exact encoded size, or an error exactly when layout, format, shape or size do not fit |
| `StorageWidths.NameSpellsWidth` | src/artifact/storage_layouts.cpp:65-87 | a format's name spells the bits of its elements and, in a grouped format, the size of its groups |
| `StorageWidths.GroupBits` | src/artifact/storage_layouts.cpp:36-49 | the planes of a group hold exactly its elements' bits: four of each in the low plane, or all eight, and the rest in the high plane |
| `StorageWidths.WordBits` | src/artifact/storage_layouts.cpp:51-61 | a direct word holds exactly the bits of its format |
| `StorageWidths.EncodedIsBits` | src/artifact/storage_layouts.cpp:115-217 | for every layout, format and shape the encoded size is the elements' bits, two bytes per group or row, or one per 16 elements and a four-byte divisor, and the alignment gaps |
| `StorageWidths.RowPlanesAre` | src/artifact/storage_layouts.cpp:144-217 | the row planes of a matrix, counted the same way: where each starts and how many bytes a row has |
| `Tensors.CheckedMulExact` | src/core/tensor.cpp:10-16 | the quotient test refuses exactly the products that do not fit |
| `Tensors.NormalizeShape` | src/core/tensor.cpp:18-30 | rank and extents are checked, and missing extents are one |
| `Tensors.MakeTensor` | src/core/tensor.cpp:50-66 | dense strides, or an overflow exactly when the outermost stride does not fit |
| `Tensors.DenseMeans` | src/core/tensor.cpp:50-66 | missing extents are one, and each stride is the one before times its extent, from the element size on |
| `Tensors.Numel` | src/core/tensor.cpp:32-48 | the exact count, or an overflow exactly when it does not fit |
| `Tensors.Bytes` | src/core/tensor.cpp:70-83 | the exact byte size, or an overflow exactly when count or size do not fit |
| `Tensors.ElementOfPosition` | src/core/tensor.cpp:50-66 | distinct elements have distinct dense positions |
| `Tensors.PositionOfElement` | src/core/tensor.cpp:50-66 | every position below the count is an element |
| `Tensors.DenseIsLinear` | src/core/tensor.cpp:85-97 | dense strides are the same as a gap-free linear address map |
| `Tensors.IsContiguous` | src/core/tensor.cpp:85-97 | true exactly for a linear address map whose outermost stride fits |
| `Tensors.View` | src/core/tensor.cpp:99-108 | succeeds exactly on contiguous tensors of equal count that fit, and element n keeps its address |
| `Tensors.Slice` | src/core/tensor.cpp:112-125 | element addresses of the slice are those of the shifted elements; refused exactly out of bounds or on overflow |
| `Tensors.Permute` | src/core/tensor.cpp:127-147 | refused exactly unless the order is a permutation; every element keeps its address under the renamed axes |
| `Layout.AlignExact` | src/core/layout.cpp:20-26 | the overflow test fails exactly when the aligned value does not fit |
| `Layout.BindExact` | src/core/layout.cpp:30-43 | binding a region needs exactly an aligned address and room, wrap-around notwithstanding |
| `Layout.BindAligned` | src/core/layout.cpp:30-43 | an aligned region binds exactly to a present, equally aligned backing with room |
| `Layout.AddExact` | src/core/layout.cpp:65-71 | an add succeeds exactly when it is nonempty, its alignment a power of two and its aligned end fits; which of these fails decides the error |
| `Layout.StepKeeps` | src/core/layout.cpp:53-83 | every add, scope opening and scope closing keeps the planning invariant |
| `Layout.EveryTrace` | src/core/layout.cpp:53-83 | over every well-nested trace, regions alive together never overlap |
| `Layout.BindingSucceeds` | src/core/layout.cpp:30-87 | any region ever added binds to a backing of the finished size that is aligned at least as strictly |
| `Layout.LayoutBuilder.Add` | src/core/layout.cpp:65-71 | on success the region starts at the next multiple of its alignment, the cursor moves to its end and the peak rises to it if needed; a failed add changes nothing |
| `Layout.LayoutBuilder.FinishLayout` | src/core/layout.cpp:85-87 | the least multiple of the alignment that holds the peak; refused exactly when the alignment is no power of two or that multiple does not fit |
| `Layout.Scope.constructor` | src/core/layout.cpp:53-54 | opening a scope remembers the cursor and changes neither cursor nor peak |
| `Layout.Scope.Destroy` | src/core/layout.cpp:56-58 | closing a scope puts the cursor back to where it was, keeps the peak, and ends exactly the scope's regions |
| `Layout.Scope.MoveFrom` | src/core/layout.cpp:60-63 | a moved-from scope no longer restores anything |
| `TensorLayout.AddTensor` | src/core/layout.cpp:73-81 | succeeds exactly when the tensor exists and its aligned end fits, and places a region of exactly its size at the aligned cursor; a failure changes nothing and its error is determined |
| `TensorLayout.BindTensor` | src/core/layout.cpp:45-51 | for a planned tensor only the region's own binding can fail |
| `StatePlan.CheckSpec` | src/core/linear_attention_state.cpp:76-99 | passes exactly when extents are positive, the dtype is allowed and both tensors have strides; gives the shapes channels, width, slots and key, value, heads, slots; names the error |
| `StatePlan.NextLayer` | src/core/linear_attention_state.cpp:105-110 | from the end of one layer the next one starts exactly one layer stride on |
| `StatePlan.Plan` | src/core/linear_attention_state.cpp:75-112 | succeeds exactly when both tensors exist and the last layer's end fits; from any cursor the layers of both components end up a constant stride apart; a failure leaves the builder unchanged exactly when layer 0's convolution region was not added, and otherwise what it holds is stated for either way of failing |
| `StatePlan.StridedMeans` | src/core/linear_attention_state.cpp:100-112 | a planned layout alternates convolution and recurrent regions, each at the next multiple of 256 after the one before and of exactly its tensor's bytes |
| `StatePlan.AddLayer` | src/core/linear_attention_state.cpp:105-110 | one layer in source order: the recurrent size is only computed after the convolution region was added, and a failure leaves exactly that region or none |
| `StatePlan.LateFailureExample` | src/core/linear_attention_state.cpp:105-110 | a spec whose planning fails after the builder has advanced, because the recurrent byte size does not fit |
| `StatePlan.LongLayoutExample` | src/core/linear_attention_state.cpp:105-110 | a spec whose tensors exist and whose planning still fails after the builder has advanced, because the layout's end does not fit |
| `StatePool.LayerStrideBytes` | src/core/linear_attention_state.cpp:44-71 | succeeds exactly on a constant stride that fits and keeps layers apart |
| `StatePool.StrideFits` | src/core/linear_attention_state.cpp:44-71 | inside a 64-bit address space the planned stride fits int64 and no layers overlap |
| `StatePool.Build` | src/core/linear_attention_state.cpp:114-144 | for any layout succeeds exactly when counts and sizes match, the tensors exist and every region binds; each tensor is at its region's address |
| `StatePool.BoundMeans` | src/core/linear_attention_state.cpp:114-144 | each layer's tensors have the spec's types and shapes and lie at their regions' addresses |
| `StatePool.StridedBinds` | src/core/linear_attention_state.cpp:114-144 | over a planned layout that is exactly a present, aligned, large enough backing |
| `StatePool.BuiltIsValid` | src/core/linear_attention_state.cpp:114-144 | a pool built over a planned layout is valid |
| `StatePool.StridesNeverFail` | src/core/linear_attention_state.cpp:44-71 | the stride checks succeed on every bound pool |
| `StatePool.ValidateStateTensor` | src/core/linear_attention_state.cpp:28-42 | passes exactly on a bound tensor of the expected type and shape with a linear address map |
| `StatePool.AllLayersView` | src/core/linear_attention_state.cpp:163-182 | no check of a bound pool fails, and both strides are the layer stride |
| `StatePool.SlotView` | src/core/linear_attention_state.cpp:184-194 | slicing and viewing a slot fails exactly when its offset exceeds int64 |
| `StateOps.ConvSlot` | src/core/linear_attention_state.cpp:184-187 | the convolution slot has channels by width elements and lies that many bytes per slot into the layer's tensor |
| `StateOps.RecurrentSlot` | src/core/linear_attention_state.cpp:189-194 | the recurrent slot has key by value by heads elements and lies that many bytes per slot into the layer's tensor, or an overflow exactly when the offset exceeds int64 |
| `StateOps.SliceableAlways` | src/core/linear_attention_state.cpp:189-194 | with two or more layers that overflow cannot happen |
| `StateOps.UnsliceableSlot` | src/core/linear_attention_state.cpp:189-194 | with one layer it can: a plannable pool whose last slot cannot be sliced |
| `StateOps.ZeroSlot` | src/core/linear_attention_state.cpp:221-234 | clears exactly one slot in every layer of both components; if the recurrent slot cannot be sliced, exactly the convolution part |
| `StateOps.CopySlot` | src/core/linear_attention_state.cpp:196-212 | copies one slot in every layer and changes nothing else; if a recurrent slot cannot be sliced, exactly the convolution part |
| `StateOps.PackSlot` | src/core/linear_attention_state.cpp:253-277 | the host buffers receive the slot's rows layer by layer; if the recurrent slot cannot be sliced, only the first buffer |
| `StateOps.UnpackSlot` | src/core/linear_attention_state.cpp:279-304 | exactly the slot takes the two images; if the recurrent slot cannot be sliced, exactly the convolution part |
| `StateSlots.WriteBothExact` | src/core/linear_attention_state.cpp:221-304 | one pitched transfer per component touches exactly one slot in every layer of both |
| `StateSlots.SlotByte` | src/core/linear_attention_state.cpp:253-304 | byte for byte: layer l of a packed slot is the device row l pitches and s rows into the component |
| `StateOps.PackedHolds` | src/core/linear_attention_state.cpp:253-277 | what packing leaves in the host buffers is the slot's image in every layer |
| `StateOps.SlotRoundTrip` | src/core/linear_attention_state.cpp:253-304 | what unpack writes from the buffers pack filled is the packed slot, with every other slot and all padding as they were; into the same slot of unchanged memory it is the identity |
| `StateOps.SlotDetermines` | src/core/linear_attention_state.cpp:221-304 | the description of a slot write determines the whole memory |
| `MessageEvents.TranscriptReads` | src/serve/http_server.cpp:907-992 | for any callbacks and any outcome the events obey the block grammar; a completed message ends with all blocks closed and at least one block |
| `MessageLaws.FinishedMeans` | src/serve/http_server.cpp:907-992 | blocks are numbered 0, 1, 2, ... in start order, each has one stop, thinking blocks one signature and others none; a finished stream has at least one |
| `MessageLaws.EventInPlace` | src/serve/http_server.cpp:907-992 | deltas lie between their block's start and stop, a signature comes directly before its stop, the closing events come after all blocks closed |
| `MessageLaws.OneAtATime` | src/serve/http_server.cpp:916-943 | at most one block is ever open exactly when no reasoning follows content |
| `MessageLaws.OverlapExample` | src/serve/http_server.cpp:916-943 | a run in which two blocks are open at once |
| `MessageLaws.NothingLost` | src/serve/http_server.cpp:916-1010 | every delivered text is streamed once, in order, in a block of its kind, also when the generation fails; a completed tool-capable message adds exactly the unstreamed rest, and the client reads off exactly its tool calls with id, name and arguments |
| `MessageBlocks.MessageAssembled` | src/serve/http_server.cpp:907-1010 | the client assembles exactly the message: one thinking block per maximal run of reasoning with the run's whole text, all content in one text block where the first content came, then the unstreamed rest and one block per tool call; a completed message without any has one empty text block |
| `MessageBlocks.BlockCount` | src/serve/http_server.cpp:907-992 | how many blocks that makes |
| `MessageBlocks.LiveAssembled` | src/serve/http_server.cpp:916-943 | the same after any callbacks, before the generation has ended |
| `MessageBlocks.RunsSnoc` | src/serve/http_server.cpp:916-925 | a reasoning callback continues the last run or begins one, content does neither |
| `MessageBlocks.Framed` | src/serve/http_server.cpp:907-1010 | the stream begins with the message start; a completed one ends with its stop reason and the stop, any other with the error event |
| `MessageLaws.WholeTextIff` | src/serve/http_server.cpp:949-970 | the client receives the whole text exactly when the request is tool capable or nothing was left unstreamed |
| `MessageLaws.UnstreamedExample` | src/serve/http_server.cpp:949-970 | a request that is not tool capable and receives none of its reply |
| `MessageStream.Provider.Write` | src/serve/http_server.cpp:41-48 | a write fails exactly when the client has left |
| `MessageStream.Provider.OnReasoning` | src/serve/http_server.cpp:916-925 | sends and opens what the transcript says |
| `MessageStream.Provider.OnContent` | src/serve/http_server.cpp:926-943 | closes, opens and sends what the transcript says |
| `MessageStream.Provider.CloseBlocks` | src/serve/http_server.cpp:951-960 | closes what is open, thinking first |
| `MessageStream.Provider.WriteTools` | src/serve/http_server.cpp:971-979 | one complete block per tool call |
| `MessageStream.Provider.WriteTail` | src/serve/http_server.cpp:949-992 | everything after the generation, up to the first failed write |
| `MessageStream.Provider.Provide` | src/serve/http_server.cpp:901-1024 | for any number of accepted writes the client receives exactly that much of the transcript; a second call sends nothing |
| `MessageStream.EveryPrefixReads` | src/serve/http_server.cpp:901-1024 | however early the client leaves, what it received begins a well-formed stream |
| `PoolProofs.ApplyKeeps` | src/core/paged_kv_cache.cpp:156-427 | each single operation keeps the pool invariant |
| `PagedKvBundle.Undo` | src/core/paged_kv_cache.cpp:438-444 | releasing what a partial bundle reserved leaves each pool with the released ledger |
| `PagedKvBundle.GrowAll` | src/core/paged_kv_cache.cpp:467-470 | all host reservations are made before any pool changes |
| `Planes.ReadWritten` | src/core/paged_kv_cache.cpp:479-490 | a page reads back what was written to it |
| `Planes.PageByte` | src/core/paged_kv_cache.cpp:479-490 | byte for byte: head h of page p lies h pitches and p rows into the plane |
| `Planes.WriteOtherPage` | src/core/paged_kv_cache.cpp:479-490 | writing a page leaves every other page of the plane alone |
| `PageCopy.CopyRun` | src/core/paged_kv_cache.cpp:688-704 | one paired run is that many page copies, contiguous or pitched by plane order |
| `PageCopy.ClearPlanes` | src/core/paged_kv_cache.cpp:185-198 | one run is cleared in every plane and nothing else changes |
| `Dma.Copy` | src/core/paged_kv_cache.cpp:505-507 | a copy between buffers splices exactly the named bytes |
| `Dma.Copy2D` | src/core/paged_kv_cache.cpp:521-524 | a pitched copy between buffers splices exactly the named rows |
| `Dma.CopyWithin2D` | src/core/paged_kv_cache.cpp:696-703 | a pitched copy inside one buffer of rows that lie apart splices exactly the named rows |
| `Dma.Fill2D` | src/core/paged_kv_cache.cpp:192-196 | a pitched fill overwrites exactly the named rows |
| `Scatter.LaunchAt` | src/core/paged_kv_scatter.cu:12-27 | each byte ends as some thread's write or untouched, in whatever order the threads run |
| `ReadPlan.CutSpan` | src/artifact/materializer.cpp:333-346 | one span is cut into chunks of the chunk size, the last one block-aligned; neither the rounding nor the source increment overflows |
| `ReadPlan.IssueCopies` | src/artifact/materializer.cpp:384-403 | the inner loop issues exactly the intersections from the cursor on |
| `PipelineSafety.InitialInv` | src/artifact/materializer.cpp:347-367 | the initial state satisfies the pipeline invariant |
| `Pipeline.SmallestRun` | src/artifact/materializer.cpp:347-363 | a one-byte load is a configuration the proofs accept |
| `Identity.MergeAll` | src/artifact/reader.cpp:468-481 | every name's ranges are replaced by the canonical list of the same bytes |
| `Tensors.CheckPermutation` | src/core/tensor.cpp:127-139 | accepts exactly the permutations of four axes |
| `StatePool.LayerStrides` | src/core/linear_attention_state.cpp:270-272 | both stride computations of a bound pool succeed with the layer stride |
| `MessageLaws.OpenAfter` | src/serve/http_server.cpp:916-943 | after any callbacks thinking is open exactly if the last was reasoning, text exactly if there was content |
| `MessageStream.Provider.RunCallbacks` | src/serve/http_server.cpp:916-948 | the callbacks in order, until the client leaves |
| `MessageStream.Provider.WriteBlock` | src/serve/http_server.cpp:964-986 | a whole block, up to the first failed write |
| `MessageStream.Provider.EnsureBlock` | src/serve/http_server.cpp:982-986 | an empty message still gets one text block |

## Left out

- CUDA itself: device errors, kernels other than the page scatter, graphs, timing, launch size limits, and the
  bounding-box reading of 2D copies.
- The device arena: that it hands out the planned offsets, which `materialize` compares, is taken as given; so are
  pinned host buffers and the mapped-host copy beside the pipeline.
- Unwinding of the pipeline after an exception other than a short read, worker thread start-up and shutdown,
  load statistics and progress callbacks.
- The program's own JSON parsing, the file prefix, memory mapping, file errors and SHA-256. `JsonReading` is a reader
  for proving texts against; it reads what `dump` can write here, without signs, fractions, objects or surrogate pairs.
- The bit operations behind alignment and power-of-two tests are modelled by arithmetic.
- Host allocation failure inside `take_pages`, `zero_pages` and the plan vectors.
- `mapped_token_capacity`, `pages_for_tokens` and the token variants of materialize and trim: arithmetic wrappers.
- `WorkspaceLayoutBuilder` (sizing scratch memory by the same bump rule), the cyclic KV cache (a ring that keeps
  position p in slot p modulo its capacity), and the planes of the GDN history and replay records.
- The contents of SSE strings, request parsing, the non-streaming response, the other endpoints, logging.
- The RAM and disk cache tiers, the scheduler, grammar and recovery.
- PagedKv.PagedKVPool.constructor: takes the planes' geometry; binding the tensors is `PoolPlan.BindPool`, and
  `PoolPlan.PlanAndBuild` joins the two.
- DigestInput.InputIsContent: takes the digest text, not the SHA-256 of it; names that are not valid UTF-8, on which
  writing JSON throws, are not modelled.
- ReadPlan.PlanReads: takes file offsets below 2^63, as `off_t` does.
