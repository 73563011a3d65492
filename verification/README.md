# Verification of the storage layer and the Anthropic stream

This project models the parts of the repository that move weights and KV pages, and the encoder of
the Anthropic event stream, and proves what they promise. It is self-contained: `dafny verify
dfyconfig.toml` checks all of it.

## What is modelled

**Host KV arena** (`Runs`, `KvLayout`, `ArenaState`, `ArenaTheorems`, `ArenaPlans`,
`ArenaSuballocation`, `ArenaCensus`, `HostArena`). A first-fit byte allocator with a sorted,
coalesced free list and a fixed descriptor table. `HostArena` holds the classes, whose methods are
proved against the value functions of `ArenaState` and `ArenaPlans`; the theorems are about those
functions. The central fact is that the free list is the unique maximal-run form of the bytes no
live descriptor holds. From it follow the plan/apply refinement (a recipe replays exactly, and no
terminate is reachable), the exactness of the page-run prediction, and the counting arguments that
the noexcept methods rely on: the descriptor pool never runs dry before the bytes do, and the free
list never outgrows its reserve.

**Device KV page pool** (`PagePool`, `DevicePool`). Reservations are a ledger whose sum is the
reserved count; the placement rule is stated in terms of free pages only, and `Materialize` obeys it.
Every method states its step on the pool and the set of owned leases, and the theorems over runs are
about those steps.

**Page copies** (`PageCopy`, `PageTransfer`, `PageWork`, `PoolTransfer`). A page byte has one coordinate j in both
plane orders: the heads of the page, one behind the other. The pitched copies are stated over bytes.
Offload followed by load is the identity on pages. `PageTransfer` copies between page numbers;
`PoolTransfer` is what callers see, with handles that the pool checks and plans that the copies meet.
`HostViews` ties the host records to the arena: a view of a live allocation is a stretch of the
arena's bytes, and a copy into it leaves the bytes of every other live allocation alone.

**Artifact files** (`Payload`, `Shards`). One logical payload cut into files, and read again.

**Upload** (`Sorting`, `Transfer`, `Upload`, `Materializer`). The stream executes queued copies in
order at moments chosen by an arbitrary schedule, and a copy reads its staging slot when it executes,
not when it is queued. `TransferStream.Valid` says that every queued copy would still read what it was
queued for, so it is the statement that no slot is overwritten too early. `Materialize` composes
object placement, segments, sorting, span merging, the slot ring and the chunk loop.

**Weight geometry** (`WeightGeometry`, `WeightView`). Planes, the NVFP4 scale swizzle, row views.

**Anthropic stream** (`AnthropicStream`, `AnthropicRuns`, `AnthropicEncoder`). The encoder as a
function of its fields, a strict client that folds the events, runs of calls, and the class.

## A property that needs a condition

A stream whose `finish` succeeds does not always rebuild the aggregate answer. `finish` closes the
open block, and only then checks tool inputs and the finish reason; when it throws there, the closing
events are lost and the fields say that the block is closed. If the stream is used again, a second
`finish` succeeds and the client is left inside the block: `AnthropicRuns.LateFailureBreaks` gives the
run. The caller in `src/serve/anthropic_messages_http.cpp` never calls `finish` again after it has
thrown, so the failing run is a reuse of the public class, not one of that server.

`AnthropicRuns.TearsExactly` and `AnthropicRuns.TearsIdle` say when a `finish` throws after it has
changed the stream, with and without an open block, and `AnthropicRuns.TornExactly` says it for whole
runs, in terms of what the client has read and the outcomes that `finish` was given.
`AnthropicRuns.RebuildsExactly` concludes, for all runs, that the answer is rebuilt if and only if no
earlier `finish` did that, or there was nothing to show: no event but the message start, and an answer
without blocks.

## Conventions

Exceptions are `Result` errors and `std::terminate` is `assert false`. Vectors that the program
changes in place are `seq` fields that methods reassign; memory is `seq<byte>`. Sizes are natural
numbers with the 64-bit and 32-bit checks of the code written out. The stream of random tool ids, the
schedule of the transfer stream, the lengths of direct reads, the bytes a read leaves behind, the
directory serializer and the JSON object test are parameters, and the theorems hold for all of them.

## Model

| member | source | states |
|---|---|---|
| Runs.NormalUnique | src/core/host_kv_arena.cpp:631-649 | two sorted lists of non-empty, non-touching extents that cover the same bytes are the same list |
| Runs.InsertCorrect | src/core/host_kv_arena.cpp:631-649 | inserting an extent apart from the list keeps it sorted and coalesced and adds exactly its bytes |
| Runs.TakeCorrect | src/core/paged_kv_cache.cpp:475-500 | taking pages out of a run keeps the list sorted and coalesced and removes exactly those pages |
| Runs.InsertUndoesTake | src/core/paged_kv_cache.cpp:475-522 | putting back what was taken restores the free list, whatever the split and merge in between |
| Runs.InsertCommutes | src/core/host_kv_arena.cpp:631-649 | two disjoint extents may be inserted in either order |
| Runs.InsertAllCorrect | src/core/host_kv_arena.cpp:325-358 | the simulated list after all planned releases is the sorted, coalesced list of the old free bytes and the released ones |
| Runs.FirstFitLowest | src/core/host_kv_arena.cpp:264-269 | the first run that is long enough begins at the lowest place where so many cells lie side by side |
| KvLayout.PlanHostKVPageLayout | src/core/host_kv_arena.cpp:47-78 | the one-pass planner: the planes of an accepted layout are aligned, disjoint, in order, inside the page record and sized by the geometry |
| KvLayout.PlanLayoutSound | src/core/host_kv_arena.cpp:47-78 | the same for the specification function, for every geometry it accepts |
| KvLayout.PlanLayoutExact | src/core/host_kv_arena.cpp:47-78 | a geometry gets a layout exactly when it has tokens and planes of positive extents and its record is a 64-bit number of bytes; each plane then lies on the least boundary behind the one before, holds the elements of its type and no more, and the stride is the least boundary behind the last |
| ArenaState.AllocateValid | src/core/host_kv_arena.cpp:279-309 | first-fit allocation keeps the arena invariant and mints a live handle to a descriptor that was idle |
| ArenaState.AllocateIsFirstFit | src/core/host_kv_arena.cpp:279-309 | in every valid arena: succeeds exactly when the layout is supported and some place inside the capacity, owned by nobody, holds the pages; then the descriptor takes the lowest such place |
| ArenaState.TableHoldsAll | src/core/host_kv_arena.cpp:231-239 | the descriptor table has as many entries as pages of the smallest layout fit the capacity |
| ArenaState.ReleaseValid | src/core/host_kv_arena.cpp:612-629 | releasing keeps the invariant and retires the descriptor |
| ArenaState.SplitValid | src/core/host_kv_arena.cpp:546-579 | splitting keeps the invariant, both halves are live, the old handle is stale and the free list does not move |
| ArenaState.FitMeansIdle | src/core/host_kv_arena.cpp:279-298 | an extent that fits a supported request implies an idle descriptor, so the descriptor test never refuses what the bytes admit |
| ArenaState.SplitHasDescriptor | src/core/host_kv_arena.cpp:555-558 | a legal split always finds an idle descriptor: its capacity error cannot be raised |
| ArenaTheorems.FreeListDetermined | src/core/host_kv_arena.cpp:612-649 | the free list and the occupied bytes are functions of which bytes the live descriptors hold |
| ArenaTheorems.AllocateThenRelease | src/core/host_kv_arena.cpp:279-309 | allocate and then release restores the free list, the byte count and the idle stack |
| ArenaTheorems.ReleasesCommute | src/core/host_kv_arena.cpp:612-649 | two live allocations may be released in either order: same free list, table and byte count |
| ArenaTheorems.SplitThenRelease | src/core/host_kv_arena.cpp:546-579 | releasing the halves of a split, in either order, frees what releasing the original would |
| ArenaTheorems.SplitTiles | src/core/host_kv_arena.cpp:559-578 | the halves tile the original page range byte for byte, and no other descriptor changes |
| ArenaTheorems.GapsFollowAllocations | src/core/host_kv_arena.cpp:631-649 | at most one free extent more than live allocations, and one fewer when nothing is free at offset 0 |
| ArenaTheorems.InsertNeverGrows | src/core/host_kv_arena.cpp:236-246 | the noexcept insert fits the reserved vectors, even before it coalesces |
| ArenaTheorems.EveryRunIsSafe | src/core/host_kv_arena.cpp:279-309 | after every run of allocations, releases and splits: the free list is the sorted maximal gaps, live ranges are disjoint, the byte count is their sum, and a handle validates exactly while its owner lives |
| ArenaTheorems.DeadTicketsStayDead | src/core/host_kv_arena.cpp:599-629 | a handle that has gone stale never validates again, however the run continues |
| ArenaTheorems.ExtentFixed | src/core/host_kv_arena.cpp:581-629 | while a handle lives its allocation stays where it is, in every run of the arena: a view made from it may be used for as long as the handle validates |
| ArenaTheorems.InitialSound | src/core/host_kv_arena.cpp:211-247 | a constructed arena satisfies the invariant with no handle outstanding |
| ArenaPlans.SimulatedReleases | src/core/host_kv_arena.cpp:325-358 | the simulated free list equals the one the real releases leave |
| ArenaPlans.AllocateAllAsPlaced | src/core/host_kv_arena.cpp:360-383 | allocating the targets in order succeeds exactly when the simulated placement does, at the same offsets, with the same free list |
| ArenaPlans.PlacementIsFirstFit | src/core/host_kv_arena.cpp:360-383 | a request can be placed exactly when some place among the free cells that the requests before it have left holds it, and then it gets the lowest one |
| ArenaPlans.TargetsAreFirstFit | src/core/host_kv_arena.cpp:360-383 | every target of a plan lies at the lowest place that the free list and the targets before it leave |
| ArenaPlans.PlanNeedsNoCount | src/core/host_kv_arena.cpp:315-317 | whenever the bytes admit a plan, so does the descriptor count |
| ArenaPlans.PlanReplays | src/core/host_kv_arena.cpp:496-544 | replaying a plan on the state it was made for succeeds, puts every target where it was planned and leaves the simulated free list |
| ArenaSuballocation.SubFreeCorrect | src/core/host_kv_arena.cpp:391-438 | the list the page-run prediction builds is the coalesced union of the free bytes and the released runs |
| ArenaSuballocation.WellFormedMeans | src/core/host_kv_arena.cpp:391-438 | page runs are accepted exactly when each is a nonempty run of pages of a live allocation and no page is in two of them |
| ArenaSuballocation.PredictionIsExact | src/core/host_kv_arena.cpp:387-494 | in every arena whose free bytes are the old ones and the released runs, however that came about, the targets can be allocated in order exactly when the prediction says so |
| ArenaSuballocation.CutOut | src/core/host_kv_arena.cpp:546-579 | splits at both edges and one release free exactly a run of pages of a live allocation |
| ArenaSuballocation.CutOutAll | src/core/host_kv_arena.cpp:546-579 | the same for any list of disjoint page runs, one after the other |
| ArenaSuballocation.PredictionIsAchieved | src/core/host_kv_arena.cpp:387-494 | some sequence of real splits and releases reaches such an arena, so the prediction is about calls a caller can make |
| ArenaCensus.DescriptorBudget | src/core/host_kv_arena.cpp:453-472 | in each allocation the released pages and the page runs that stay behind never need more than its bytes |
| ArenaCensus.RetainedAreRuns | src/core/host_kv_arena.cpp:453-467 | what the sort-and-sweep counts is the number of maximal runs of pages that no release gives up |
| ArenaCensus.WeightIsRuns | src/core/host_kv_arena.cpp:440-474 | the accounting gives every live allocation as many descriptors as it keeps runs of pages |
| ArenaCensus.TableBudget | src/core/host_kv_arena.cpp:440-474 | the same summed over the descriptor table |
| ArenaCensus.CountNeverRefuses | src/core/host_kv_arena.cpp:440-474 | the descriptor accounting of the prediction never refuses a placement the extents admit |
| HostArena.HostKVArena.Create | src/core/host_kv_arena.cpp:211-247 | accepts exactly the consistent, distinct layouts with a descriptor count that fits 32 bits |
| HostArena.HostKVArena.constructor | src/core/host_kv_arena.cpp:211-247 | the fields of a new arena |
| HostArena.HostKVArena.CanAllocate | src/core/host_kv_arena.cpp:271-277 | true exactly when allocate would succeed |
| HostArena.HostKVArena.Allocate | src/core/host_kv_arena.cpp:279-309 | refuses without a change, or changes the fields to the specified state and returns its owner |
| HostArena.HostKVArena.FindFreeExtent | src/core/host_kv_arena.cpp:264-269 | the first extent that fits |
| HostArena.InsertExtent | src/core/host_kv_arena.cpp:631-649 | the in-place merge with neighbours equals the specified insertion |
| HostArena.HostKVArena.InsertFreeExtent | src/core/host_kv_arena.cpp:631-649 | the insert stays inside the capacity the constructor reserved |
| HostArena.HostKVArena.ReleaseDescriptor | src/core/host_kv_arena.cpp:612-629 | releases exactly the live generation and refuses anything else without a change |
| HostArena.HostKVAllocation.Release | src/core/host_kv_arena.cpp:198-209 | an owner is disarmed, and reports whether its arena released it |
| HostArena.HostKVArena.Split | src/core/host_kv_arena.cpp:546-579 | all error cases leave everything alone; success consumes the owner and returns both halves; the capacity error is unreachable |
| HostArena.HostKVArena.SimulateReleases | src/core/host_kv_arena.cpp:325-358 | rejects stale and repeated handles, otherwise builds the simulated free list |
| HostArena.HostKVArena.PlaceRequests | src/core/host_kv_arena.cpp:360-383 | the placement loop equals the first-fit placement function |
| HostArena.HostKVArena.PlanAfterReleases | src/core/host_kv_arena.cpp:311-385 | a recipe exactly when the handles are good and the freed extents take every target in order; the arena does not change |
| HostArena.HostKVArena.RecipeFits | src/core/host_kv_arena.cpp:499-521 | the validation pass accepts exactly the matching recipe, owners and empty outputs |
| HostArena.HostKVArena.ReleaseProposed | src/core/host_kv_arena.cpp:525-527 | every planned release succeeds: the first terminate is unreachable |
| HostArena.HostKVArena.AdoptTargets | src/core/host_kv_arena.cpp:528-538 | every planned allocation succeeds and lands where planned: the other terminates are unreachable |
| HostArena.HostKVArena.ApplyRecipe | src/core/host_kv_arena.cpp:496-544 | all or nothing: false leaves arena, recipe, owners and outputs unchanged; true replays the plan exactly and reaches no terminate |
| HostArena.HostKVArena.SimulateSubReleases | src/core/host_kv_arena.cpp:391-438 | rejects stale, empty, out-of-range and overlapping page runs, otherwise builds the predicted free list; no checked sum overflows |
| HostArena.HostKVArena.CountRetainedRuns | src/core/host_kv_arena.cpp:453-467 | the sort-and-sweep counts the page runs that stay behind |
| HostArena.HostKVArena.CountDescriptors | src/core/host_kv_arena.cpp:440-474 | the accounting loop equals the specified count |
| HostArena.HostKVArena.CanAllocateAfterSuballocationReleases | src/core/host_kv_arena.cpp:387-494 | true exactly when the page runs are well formed and the predicted extents take the targets, with no condition on descriptors |
| PagePool.FreeRunsDetermined | src/core/paged_kv_cache.cpp:475-522 | the free runs and the allocated count are functions of the allocation flags |
| PagePool.PlacedPagesAreFree | src/core/paged_kv_cache.cpp:311-374 | placed pages were free and are distinct |
| PagePool.PlacementIsUnique | src/core/paged_kv_cache.cpp:311-374 | the placement rule fixes the pages |
| PagePool.ConsecutiveIffSomeRunFits | src/core/paged_kv_cache.cpp:311-374 | the new pages form one run if and only if some free run is long enough |
| PagePool.SpanInCandidate | src/core/paged_kv_cache.cpp:318-334 | the upper_bound probe decides whether the preferred span is free |
| PagePool.FirstFitIsLowest | src/core/paged_kv_cache.cpp:335-343 | the first run that fits is the lowest span of that length |
| PagePool.LowestCells | src/core/paged_kv_cache.cpp:356-374 | the scatter loop takes the lowest free pages and never runs past the list |
| PagePool.TakenThenFreed | src/core/paged_kv_cache.cpp:288-420 | taking pages and then freeing exactly those restores free runs, flags and the allocated count |
| PagePool.RunsFitReserve | src/core/paged_kv_cache.cpp:232-236 | the free run vector never outgrows its reserve |
| PagePool.MintSound | src/core/paged_kv_cache.cpp:345-374 | leases minted for idle pages are tickets never handed out before, and ownership and the handle test still agree |
| PagePool.RetireSound | src/core/paged_kv_cache.cpp:465-473 | returning a page ends exactly its lease: every other owned lease stays valid, and no past ticket becomes valid |
| PagePool.EveryPoolRunIsSafe | src/core/paged_kv_cache.cpp:266-527 | after every run of reserving, materializing and releasing: free runs are the maximal runs of unleased pages, promises fit what is free, a handle validates exactly while its lease is owned, no page has two owned leases, and the owned leases are as many as the allocated pages |
| PagePool.DeadLeasesStayDead | src/core/paged_kv_cache.cpp:435-473 | a lease that has ended never validates again, however the run goes on |
| DevicePool.DeviceKVPagePool.Reserve | src/core/paged_kv_cache.cpp:266-270 | grants exactly what allocated and reserved pages leave of the capacity, and books it |
| DevicePool.DeviceKVPagePool.ResizeReservation | src/core/paged_kv_cache.cpp:272-286 | resizes exactly when allocated pages, the other promises and the new size fit the capacity |
| DevicePool.DeviceKVPagePool.ReleaseReservation | src/core/paged_kv_cache.cpp:524-527 | the booked pages return; its terminate is unreachable |
| DevicePool.DeviceKVPageReservation.Clear | src/core/paged_kv_cache.cpp:188-192 | gives the promise back and keeps the owner |
| DevicePool.DeviceKVPageReservation.Release | src/core/paged_kv_cache.cpp:194-199 | gives the promise back and drops the owner |
| DevicePool.DeviceKVPagePool.ChooseRun | src/core/paged_kv_cache.cpp:318-343 | preferred span, else lowest run that fits, else none |
| DevicePool.DeviceKVPagePool.ConsumeFreeRun | src/core/paged_kv_cache.cpp:475-500 | the four ways to cut a run equal the specified removal |
| DevicePool.DeviceKVPagePool.Scatter | src/core/paged_kv_cache.cpp:356-374 | takes the lowest free pages one run at a time |
| DevicePool.DeviceKVPagePool.PlacePages | src/core/paged_kv_cache.cpp:311-374 | the placement obeys the placement rule |
| DevicePool.DeviceKVPagePool.Materialize | src/core/paged_kv_cache.cpp:288-378 | accepts exactly what the checks say; the pages follow the named predecessor, or without one the last lease, if that span is free, else they are the lowest span that fits, else the lowest free pages; they move from the reservation to newly owned leases, and no invariant error is reachable |
| DevicePool.DeviceKVPagePool.MaterializeOne | src/core/paged_kv_cache.cpp:380-395 | takes the lowest free page against one promised page; its ticket is new, and is the only one added to the handed-out and to the owned ones |
| DevicePool.DeviceKVPagePool.ReleaseFreePage | src/core/paged_kv_cache.cpp:502-522 | the neighbour merge equals the specified insertion |
| DevicePool.DeviceKVPagePool.ReleasePage | src/core/paged_kv_cache.cpp:465-473 | releases exactly a valid handle, which is stale afterwards; its lease, and no other, stops being owned |
| DevicePool.DeviceKVPagePool.Dematerialize | src/core/paged_kv_cache.cpp:397-420 | all or nothing: the tail of the leases returns to the pool and to the reservation, and exactly those leases end |
| DevicePool.DeviceKVPagePool.DematerializeOne | src/core/paged_kv_cache.cpp:422-433 | the same for a single page |
| DevicePool.DeviceKVPagePool.LiveExactly | src/core/paged_kv_cache.cpp:435-442 | the handle test is true exactly for the leases of this pool that have not been returned |
| DevicePool.DeviceKVPagePool.MaterializeAndReturn | src/core/paged_kv_cache.cpp:288-420 | the two calls in sequence restore free runs, flags, allocated and reserved counts, the reservation, its books, the lease vector and the owned leases; generations change only on pages that were free |
| DevicePool.ReserveBundle | src/core/paged_kv_cache.cpp:662-687 | reserves in every named pool or in none: each request gets its book entry and its pages promised, tickets and owned leases stay, and the stability error is unreachable |
| PageCopy.StridesOfPlane | src/core/tensor.cpp:50-57 | the contiguous strides of both plane shapes are the head and page strides the copies assume |
| PageCopy.ElementPlace | src/core/tensor.cpp:50-57 | the byte a tensor index addresses is the page byte of its head and inner offset, in either order |
| PageCopy.PlaceInjective | src/core/paged_kv_cache.cpp:88-97 | no two page bytes share a place in a plane |
| PageCopy.PlaceOnto | src/core/paged_kv_cache.cpp:88-97 | every byte of a plane is a byte of some page |
| PageCopy.RunAt | src/core/paged_kv_cache.cpp:592-608 | a pitched copy writes exactly its rows, each byte from the matching source byte |
| PageCopy.SourceForm | src/core/paged_kv_cache.cpp:587-608 | the addresses and pitches of the copies, in strides, are those of whole pages or heads |
| PageTransfer.DeviceKVPlanes.ValidateDistinct | src/core/paged_kv_cache.cpp:449-463 | on page numbers: the stamp marking, with its 32-bit wrap, accepts exactly distinct pages of the pool |
| PageTransfer.DeviceKVPlanes.constructor | src/core/paged_kv_cache.cpp:201-238 | a pool over planes of the right shape, with cleared stamps and marks |
| PageTransfer.DeviceKVPlanes.Create | src/core/paged_kv_cache.cpp:201-230 | accepts exactly 64-token geometries with planes of positive extents, a page count that fits an int32, and one tensor a plane with the planned geometry, the type and each of the four extents that the geometry and its plane order demand |
| PageTransfer.DeviceKVPlanes.PlaneOut | src/core/paged_kv_cache.cpp:587-611 | one plane of one run reaches its records, nothing else of the host changes, and the copies issued are one, or one a head |
| PageTransfer.DeviceKVPlanes.PlaneIn | src/core/paged_kv_cache.cpp:633-656 | one plane of one run of records reaches its pages, and nothing else of the plane changes |
| PageTransfer.DeviceKVPlanes.CopyPlane | src/core/paged_kv_cache.cpp:559-572 | one plane of a page copy, whole or one row a head |
| PageTransfer.RunEnd | src/core/paged_kv_cache.cpp:586-590 | the maximal run of consecutive pages from a position, one run counted |
| PageTransfer.ContiguousRunCount | src/core/paged_kv_cache.cpp:253-264 | counts the runs the copy loops will find |
| PageWork.RoundTrip | src/core/paged_kv_cache.cpp:576-660 | offloading pages and loading the records into equally many pages makes each destination equal its source in every plane |
| PageWork.MovePages | src/core/paged_kv_cache.cpp:576-660 | the two calls in sequence do that, for any fragmentation, and change no unlisted page |
| PageWork.PlanIgnoresOrder | src/core/host_kv_arena.cpp:47-78 | page-major and head-major geometries plan the same record |
| PageWork.HostImageIgnoresOrder | src/core/paged_kv_cache.cpp:587-608 | equal page content gives equal host bytes, whichever order each pool has |
| PageWork.PlanHostTransferWork | src/core/host_kv_arena.cpp:80-112 | returns the exact cost, or the overflow it would be |
| PageWork.PlanDeviceCopyWork | src/core/host_kv_arena.cpp:114-133 | the same for device copies |
| PageWork.PoolPayloadIsHostPayload | src/core/host_kv_arena.cpp:114-133 | a pool page and a host record hold the same payload bytes, plane by plane |
| PoolTransfer.DeviceKVMemory.PhysicalIndexes | src/core/paged_kv_cache.cpp:444-447 | the page numbers of the handles, or the error as soon as one of them is stale |
| PoolTransfer.DeviceKVMemory.CopyToHost | src/core/paged_kv_cache.cpp:576-615 | into the records of a live view: refuses exactly stale handles, another geometry and another extent; otherwise every listed page is byte for byte in its record, record padding is untouched, and the work added is the planned work of the list |
| PoolTransfer.DeviceKVMemory.CopyFromHost | src/core/paged_kv_cache.cpp:617-660 | out of the records of a live view: refuses also repeated handles; otherwise every record is byte for byte in its page, the pages of all other leases keep their bytes, and the work added is the planned work |
| PoolTransfer.DeviceKVMemory.CopyPage | src/core/paged_kv_cache.cpp:554-574 | refuses exactly stale handles; the destination page becomes the source page in every plane, no other page changes, and a page copied onto itself costs nothing |
| PoolTransfer.DeviceKVMemory.Offload | bench/context_cost/model_context_fixture.cpp:262-293 | counting the runs, planning and copying to the host: it succeeds exactly when handles, layout and the 64-bit and 32-bit limits allow, and the work the copies add is the plan |
| PoolTransfer.DeviceKVMemory.Load | bench/context_cost/model_context_fixture.cpp:265-293 | the same for copying from the host |
| PoolTransfer.DeviceKVMemory.CopyPages | bench/context_cost/model_context_fixture.cpp:270-293 | any list of page copies in sequence: every page ends up with the bytes of its origin, and when no page is copied onto itself the work added is the device copy plan |
| PoolTransfer.MovePages | src/core/paged_kv_cache.cpp:576-660 | offload and then load, over handles of one pool or of two: succeeds exactly when both copies may be made; then each destination lease has the page of its source, the pages of all other leases keep their bytes, and each side has added its plan |
| HostViews.HostKVBacking.View | src/core/host_kv_arena.cpp:581-597 | refuses exactly a stale allocation; the view is the extent of the live descriptor |
| HostViews.HostKVBacking.Subview | src/core/host_kv_arena.cpp:144-150 | refuses exactly stale views and empty or outside ranges; the subview lies inside the view |
| HostViews.HostKVBacking.CopyToHost | src/core/paged_kv_cache.cpp:576-615 | refuses a stale view too; otherwise the pages are in the bytes of the view, every other byte of the arena is untouched, and so the bytes of every other live allocation are |
| HostViews.HostKVBacking.CopyFromHost | src/core/paged_kv_cache.cpp:617-660 | refuses a stale view too; otherwise the bytes of the view are in the pages, and the pages of all other leases keep their bytes |
| PoolTransfer.OriginOf | bench/context_cost/model_context_fixture.cpp:270-272 | the origin of a page that is not a destination is itself, and with distinct destinations that are no sources the origin of a destination is its source |
| Payload.ParseFiles | src/artifact/schema.cpp:183-207 | accepts exactly an unnamed first file and distinct legal sibling names with non-empty files and a checked total; the running logical begins are the prefix sums |
| Payload.Segments | src/artifact/reader.cpp:122-145 | tiles exactly the in-range requests with non-empty pieces inside their files, in order, and equals the specified list; its overflow error is unreachable |
| Payload.SliceOfFile | src/artifact/reader.cpp:135-143 | bytes of a file at a local offset are the payload bytes at its logical begin |
| Payload.ReadInto | src/artifact/reader.cpp:147-154 | reading through the segments is slicing the concatenated payload, and a refused read writes nothing |
| Shards.FilesForCorrect | tools/upgrade_ninfer_v2_to_v3.py:741-758 | the files cut from a payload add up to it, none is empty, none exceeds the limit, and every one but the last is full to within one block |
| Shards.FilesForExists | tools/upgrade_ninfer_v2_to_v3.py:737-760 | one file exactly when the limit holds everything; no list exactly when that fails and the metadata leaves no room for a block of payload |
| Shards.LayOut | tools/upgrade_ninfer_v2_to_v3.py:737-765 | for any serializer the loop ends with a directory that describes its own files and fits its reserve, at the first start the iteration reaches that has room; it fails only when some directory the layout can produce for this payload is too long for the file limit |
| Shards.ShortDirectoriesFit | tools/upgrade_ninfer_v2_to_v3.py:737-765 | there is room whenever a directory takes at most a fixed number of bytes and a number a file, up to the stated payload |
| Shards.NextChunk | tools/upgrade_ninfer_v2_to_v3.py:824-841 | each chunk is the next piece of source payload, zero padding or template |
| Shards.WriteFile | tools/upgrade_ninfer_v2_to_v3.py:810-845 | header, directory, padding, and then exactly its share of the logical payload |
| Shards.WriteFiles | tools/upgrade_ninfer_v2_to_v3.py:804-856 | all files, with one cursor through the logical payload |
| Shards.U64RoundTrip | src/artifact/framing.h:21-27 | reading a little-endian u64 undoes writing it |
| Shards.LittleEndianBytes | tools/upgrade_ninfer_v2_to_v3.py:45-45 | byte i of a written number counts multiples of 256 to the power i |
| Shards.U64Value | src/artifact/framing.h:21-27 | the number read from eight bytes is the sum of the bytes times the powers of 256, lowest first |
| Shards.HeadedNumber | src/artifact/framing.h:21-27 | the number in a header is read as n exactly when its bytes are those of n |
| Shards.HeaderFields | tools/upgrade_ninfer_v2_to_v3.py:811-817 | magic, length and identity are read back from a packed header |
| Shards.OpenedIsSound | src/artifact/reader.cpp:22-83 | files the reader accepts are as long as their directory says |
| Shards.OpensExactly | src/artifact/reader.cpp:22-83 | opening succeeds exactly for an entry headed by its magic and the length of a directory that lists these files with their lengths, and continuations headed by their magic, their number and the identity of the entry, as long as all file bytes are a 64-bit number |
| Shards.ChecksFileBytes | src/artifact/reader.cpp:53-57 | the checked sums fit exactly when all file bytes together are a 64-bit number |
| Shards.WriteThenOpen | src/artifact/reader.cpp:22-83 | the reader opens files written for a settled layout exactly when the lengths of all files add up to a 64-bit number; their headers hold, lowest byte first, the directory length or their own number; their payload is the logical payload and each is within the limit |
| Shards.Upgrade | tools/upgrade_ninfer_v2_to_v3.py:768-860 | files come out unless some directory the layout can produce for this payload is too long; their fronts are magic, number, identity, directory and fill byte by byte; they are opened exactly when their bytes sum up in 64 bits, stay within the limit, and read as source, zero padding, template |
| Sorting.SortCorrect | src/artifact/materializer.cpp:209-211 | the sort orders by file and begin and rearranges its input |
| Sorting.SortPairwise | src/artifact/materializer.cpp:209-211 | sorting keeps any pairwise relation, such as not overlapping |
| Transfer.TransferStream.RunUntil | src/artifact/materializer.cpp:43-48 | executing queued copies in order leaves the device as intended |
| Transfer.TransferStream.Elapse | src/artifact/materializer.cpp:249-285 | the stream may run any distance between two host steps without breaking the staging invariant |
| Transfer.TransferStream.Wait | src/artifact/materializer.cpp:43-48 | after waiting for a slot no queued copy reads it |
| Transfer.TransferStream.ReadDirect | src/artifact/file_io.cpp:75-92 | only an idle slot is overwritten; unaligned and oversized requests are refused; the bytes received are what the file and the system give, and they are in the slot |
| Transfer.TransferStream.Enqueue | src/artifact/materializer.cpp:269-274 | queues one copy out of the current slot |
| Transfer.TransferStream.Record | src/artifact/materializer.cpp:280-282 | the event fences every copy out of the slot |
| Transfer.TransferStream.Finish | src/artifact/materializer.cpp:286-287 | after synchronizing, the device holds every store in order |
| Upload.MergeSpans | src/artifact/materializer.cpp:212-226 | refuses exactly overlapping sources (or an end that cannot be aligned in 64 bits), otherwise spans partition the ranges: each begins with the block of its first range, and neighbours share a span exactly when less than a block lies between their blocks |
| Upload.SumAligned | src/artifact/materializer.cpp:227-231 | the checked sum of the aligned span sizes |
| Upload.ReadsTile | src/artifact/materializer.cpp:250-258 | the reads of a span lie side by side from its begin to its end, in whole blocks and whole slots but for the last, and none asks for more than it needs and the rest of a block |
| Upload.UploadChunk | src/artifact/materializer.cpp:262-279 | every piece of the span inside the chunk is queued once, at its own destination, and the position moves on |
| Upload.ReadChunk | src/artifact/materializer.cpp:251-260 | waits for the slot and fills it with the next chunk of the file, or the read received less than the ranges need of it |
| Upload.UploadSpan | src/artifact/materializer.cpp:250-284 | all ranges of a span are queued, through any slot ring, schedule and read lengths; every read is aligned; success means that each of its reads got what was needed, and an error that one did not |
| Upload.UploadSpans | src/artifact/materializer.cpp:232-290 | the whole ring: the incomplete-upload error is unreachable, and an error is an overflow of the byte count or one read, by its number, that got too little |
| Upload.FlatUploads | src/artifact/materializer.cpp:249-287 | stores of non-overlapping ranges land every range and change nothing else |
| Upload.UploadRanges | src/artifact/materializer.cpp:205-296 | for every interleaving each range holds its file bytes and no other byte changes; success means every read of the read plan got what was needed; an error means overlap, an overflow, or a read of that plan that got too little, cut short by the system if the files hold the ranges |
| Materializer.ParseObjects | src/artifact/schema.cpp:209-247 | accepts exactly the ordered, disjoint, non-empty objects inside the payload with known kinds and distinct legal identifiers; the index maps each identifier to its object |
| Materializer.PlanDevice | src/artifact/binder.cpp:157-178 | places every wanted object, with the alignment asked for, at the next aligned offset; refuses exactly an alignment of zero and what leaves 64 bits |
| Materializer.ArenaFollowsPlan | src/core/arena.cu:196-221 | a device arena aligned for the plan, whose alignments are powers of two, returns the planned offsets |
| Materializer.ArenaAllocMeans | src/core/arena.cu:196-221 | the arena allocates exactly when the alignment is a power of two and an aligned place behind what is used fits, and gives the lowest one |
| Materializer.RangesApart | src/artifact/materializer.cpp:198-203 | segments of different objects, or different segments of one, overlap neither in the files nor on the device |
| Materializer.TotalOfSegments | src/artifact/materializer.cpp:199-203 | the segments of a placement add up to its bytes |
| Materializer.SegmentsLanded | src/artifact/materializer.cpp:199-203 | segments that landed make up a slice of the payload |
| Materializer.Materialize | src/artifact/materializer.cpp:127-297 | every placed object holds exactly its payload bytes and every other arena byte is untouched; on well-formed plans it fails exactly when a read of the read plan of its placements is given fewer bytes than the ranges need of it |
| WeightGeometry.WeightElementCount | src/core/weight_view.cpp:69-77 | the product, exactly when every dimension is positive, the rank is at most 16 and it fits 64 bits |
| WeightGeometry.GeometryPlanes | src/core/weight_view.cpp:79-155 | code, high, scale and divisor planes of every accepted geometry are disjoint, in order, aligned and inside its bytes |
| WeightGeometry.EncodedBits | src/core/weight_view.cpp:79-155 | which formats and shapes a layout takes, the bits of a code and the columns of a group: 4 or 8 bits in groups of 64 or 32 (the high bits aside), 8 bits with one group a row, 4 bits in groups of 16, and 16 or 32 bits direct |
| WeightGeometry.AcceptsDirect | src/core/weight_view.cpp:79-95 | direct weights are accepted exactly when format, rank and dimensions are legal and the bytes are a 64-bit number |
| WeightGeometry.AcceptsQuantized | src/core/weight_view.cpp:96-155 | every quantized matrix of a legal format and shape is accepted, up to a size near the 64-bit limit |
| WeightGeometry.ScalePlace | src/core/weight_view.cpp:187-199 | for every accepted geometry and coordinate: row-major words of two bytes, or for NVFP4 the tile, the row in it, the quarter and the group, read off the offset |
| WeightGeometry.ScalesBijective | src/core/weight_view.cpp:187-199 | on every accepted geometry the scale offset is a bijection between the rows and groups and the words of the scale plane, swizzled or not |
| WeightGeometry.ScalesAreTheWords | src/core/weight_view.cpp:187-199 | a scale coordinate is accepted exactly inside the grid and then addresses a word of the scale plane |
| WeightGeometry.ScaleOffsetInjective | src/core/weight_view.cpp:187-199 | different rows or groups have different scale words, swizzled or not |
| WeightGeometry.ScaleOffsetOnto | src/core/weight_view.cpp:187-199 | every word of the scale plane is the scale of some row and group |
| WeightGeometry.SwizzleInjective | src/core/weight_view.cpp:193-197 | the 128x4 tile formula is one to one |
| WeightGeometry.Unswizzle | src/core/weight_view.cpp:193-197 | and has an inverse on every word |
| WeightGeometry.RowSplitBits | src/core/weight_view.cpp:98-129 | code and high bytes of a row hold the padded columns at exactly the bit width of the format |
| WeightView.ContiguousRegion | src/core/weight_view.cpp:157-173 | merges exactly the adjacent valid regions of one parent whose size is the shape |
| WeightView.IsComplete | src/core/weight_view.cpp:175-185 | true exactly when the parts are the whole parent in order |
| WeightView.CompleteOnce | src/core/weight_view.cpp:175-185 | every element of a complete parent lies in exactly one part |
| WeightView.RowPlanesInside | src/core/weight_view.cpp:201-225 | row slices begin at the first row of the region in their own plane and stay inside it, and plain scale slices agree with the scale addresses |
| WeightView.RowPlanesRefuse | src/core/weight_view.cpp:201-209 | refuses exactly what is no run of whole rows of a resident matrix |
| AnthropicStream.ReasoningFollows | src/serve/anthropic_messages_response.cpp:246-270 | a client that reads strictly follows every reasoning delta, and is then inside the thinking block with all reasoning so far |
| AnthropicStream.ContentFollows | src/serve/anthropic_messages_response.cpp:286-305 | the same for text, which closes thinking first, with its signature |
| AnthropicStream.CloseThinkingFollows | src/serve/anthropic_messages_response.cpp:272-284 | the signature and the stop event close the thinking block |
| AnthropicStream.CloseTextFollows | src/serve/anthropic_messages_response.cpp:307-312 | the stop event closes the text block, and the closed blocks say what was streamed |
| AnthropicStream.ToolsFollow | src/serve/anthropic_messages_response.cpp:332-351 | tool blocks follow one by one, and fail exactly on input that is no JSON object |
| AnthropicStream.FinishRebuilds | src/serve/anthropic_messages_response.cpp:314-359 | finish succeeds exactly when the outcome continues the stream and has an aggregate answer, and then the client holds that answer |
| AnthropicStream.AnswerTells | src/serve/anthropic_messages_response.cpp:60-96 | which outcomes have an answer, and what it says: the stop reason of tool calls, of each finish reason, the stop sequence in its own case only, the usage, the blocks with their signature |
| AnthropicStream.FinishTells | src/serve/anthropic_messages_response.cpp:314-359 | whatever was streamed before, a successful finish ends with this stop reason and this usage |
| AnthropicStream.StartTells | src/serve/anthropic_messages_response.cpp:98-110 | the usage of the start event: no output yet, the reused count brought into the range of the prompt |
| AnthropicRuns.EveryRunInStep | src/serve/anthropic_messages_response.cpp:232-359 | in every run that no finish tore, the client has read everything without a fault |
| AnthropicRuns.RunRebuilds | src/serve/anthropic_messages_response.cpp:184-213 | every such run that ends in a successful finish rebuilds the aggregate answer, up to empty blocks and tool ids; what the message then says is stated in terms of the outcome alone |
| AnthropicRuns.TearsExactly | src/serve/anthropic_messages_response.cpp:314-359 | with a block open, finish tears the run exactly when the outcome continues the stream but has no aggregate answer |
| AnthropicRuns.TearsIdle | src/serve/anthropic_messages_response.cpp:314-359 | with nothing streamed yet, finish tears the run exactly when the outcome has no aggregate answer but a first block to open |
| AnthropicRuns.TornExactly | src/serve/anthropic_messages_response.cpp:314-359 | a run is torn exactly when one of its finishes was given an outcome that continues what the client had read, has no aggregate answer, and found or opened a block |
| AnthropicRuns.RebuildsExactly | src/serve/anthropic_messages_response.cpp:314-359 | for every run and every successful finish: the answer is rebuilt if and only if no earlier finish cut the client off in that sense, or there was nothing to show |
| AnthropicStream.UsagesAgree | src/serve/anthropic_messages_response.cpp:82-110 | the usage of the start event and of the final event split the prompt the same way |
| AnthropicRuns.LateFailureBreaks | src/serve/anthropic_messages_response.cpp:314-359 | the concrete run: a finish that throws late and a second one that succeeds leave the client inside a block |
| AnthropicEncoder.AnthropicMessagesStream.StartGeneration | src/serve/anthropic_messages_response.cpp:225-230 | refuses a differing prompt count without a change; the reused count passes through an int, and the start event shows it brought into range |
| AnthropicEncoder.AnthropicMessagesStream.StartWithCache | src/serve/anthropic_messages_response.cpp:232-244 | starts exactly once |
| AnthropicEncoder.AnthropicMessagesStream.ReasoningDelta | src/serve/anthropic_messages_response.cpp:246-270 | the fields and events are those of the specification |
| AnthropicEncoder.AnthropicMessagesStream.ContentDelta | src/serve/anthropic_messages_response.cpp:286-305 | the fields and events are those of the specification |
| AnthropicEncoder.AnthropicMessagesStream.ToolEvents | src/serve/anthropic_messages_response.cpp:332-351 | the loop equals the specification, and stops at the first bad input |
| AnthropicEncoder.AnthropicMessagesStream.Finish | src/serve/anthropic_messages_response.cpp:314-359 | the fields and events are those of the specification, and the emitted events rebuild the aggregate answer exactly when no earlier finish cut the client off (or with nothing to show); a client that ends with a message has the stop reason and the usage of the outcome |

## Left out

- Wrap-around of `generation` and `revision_`: they are natural numbers, so a handle cannot come back after 2^32 - 1 steps of one slot; the 32-bit validation stamp does wrap.
- CUDA errors, events and pinned memory as such: only "queued", "executed in order" and "waited for" are kept. `zero_pages` and `decode_graph` are not modelled.
- PageTransfer.DeviceKVPlanes.ValidateDistinct: takes page numbers; the stale-handle test in front of it is `PoolTransfer.DeviceKVMemory.PhysicalIndexes`, which runs over the whole list first.
- DevicePool.DeviceKVPagePool.Dematerialize: leases are move-only in the program, so a vector cannot hold one twice; handles here are values, and the vector is required to hold distinct ones.
- PageCopy.Memcpy2D: is defined for two buffers and for disjoint rows of one; overlapping rows do not occur.
- `HostKVArena::layout_for`, and the difference between writable and constant views.
- Materializer.Materialize: host placements, the NVFP4 divisor value, read statistics and progress reports are not modelled.
- Transfer.TransferStream.ReadDirect: buffer alignment, `O_DIRECT` and interrupted system calls are not modelled; any shorter read is.
- Payload.ParseFiles: the JSON syntax is not modelled. `Shards.Open` looks at the file sizes only: the parser there is any inverse of the serializer, and continuations are given in order instead of by name.
- Materializer.ParseObjects: shapes, formats, layouts and encodings are not modelled; the later passes see an object as its place in the payload.
- Shards.Upgrade: the temporary files, links, flushes and the construction of the template are not modelled.
- AnthropicStream.FinishRebuilds: a tool input is its text and a test whether it is a JSON object; error events and the serialized form of events are not modelled.
- AnthropicRuns.TornExactly: strings are valid UTF-8. Serializing an event throws on other bytes, and there a delta method too has changed its fields before it throws.
- WeightView.RowPlanesInside: pointers are offsets from the parent's first byte; `native_weight` and `weight_tensor` are not modelled.
- Execution tables, cyclic caches, linear attention state and replay records: bounds checks over tensors that follow the pattern of the page pool.
- Option parsing, logging, HTTP, benchmarks and evaluation.
