# arena-alligator: verified model of the arenas and their waiters

This project models the memory core of the `arena-alligator` crate in Dafny and proves
what its operations keep, over every input, every history and every interleaving.

- `Words`, `Bitmap`: machine words of a given width, and the packed bitmap with its rotating
  cursor and range masks, proved to be a plain set of slots.
- `Blocks`: aligned blocks as a binary tree. The central notion is `Canonical`: the free
  blocks are exactly the maximal aligned blocks that avoid every live one. `Books` adds that
  live and free blocks are disjoint, fill the arena and agree with splits minus coalesces.
- `FreeMaps`, `BuddyArena`: the buddy allocator as an object over one bitmap per order, the
  summary word, the backing bytes, the zeroed bitmap and the counters. Each method is one
  step here; `Valid` holds between them.
- `BuddyInterleaving`: the same allocator as any number of threads that interleave single
  atomic operations. `BuddyMerging` says exactly when its free blocks end up merged,
  `UnmergedBuddies` gives a run in which they do not, and `ClaimLoop` bounds the claim loop of
  one bitmap word; `SoloRuns` holds the stretches of runs they share. `BuddyCalls` says what a
  whole call ends with while others interfere, and `BuddySolo` that a call nobody interrupts
  does what the whole operation does.
- `Waiters`, `NotifyWaiters`: the buddy waiter queues as a state machine whose steps are whole
  operations, and the object whose methods perform exactly those steps.
- `WaiterRanking`, `WaiterLives`, `WaiterFairness`: which order a wake serves first, what becomes
  of one waiter and when its poll is ready, and how long waiters at other orders can delay it.
- `WaiterInterleaving`, `HiddenWaiter`, `StuckOrder`: the same protocol as threads interleaving
  single atomic operations, a run that shows what is lost at that grain, and why it stays lost.
  `WaiterSolo` shows that an operation nobody interrupts does what the whole operation does.
- `AsyncBuddy`: arena and waiters together; parking, returning and waking over whole runs.
- `Buffer`, `BufferLives`, `BufferPool`: the life of a buffer, what a script of operations makes
  of it, and any number of them over one arena.
- `FixedArena`, `FixedInterleaving`, `FixedCalls`: the fixed arena as an object, at atomic grain,
  and whole calls at that grain.
- `Geometry`: the size arithmetic with its word limits.

Two grains are used on purpose. Maximal coalescing, the exact summary, exact `ArenaFull` and a
real head time over every live waiter are properties of whole operations. Exact ownership, the
zero policy, entry arbitration and the waiter counts hold at every atomic step, and so does the
live-byte bound of the buddy arena. The grains meet in two ways: an operation that no other
thread interrupts does the same at both, and one that is interrupted still fails only if every
slot or block that could have served it was taken at some moment of the call.

Some promises hold only under a condition. What holds and what fails are both proved:

- A request larger than the arena is refused as too large exactly up to half the word range
  (`OrderForRequestRefusesIff`). Beyond it the rounding wraps in a release build and the
  request is reported as a full arena. The documentation of `allocate_async`
  (src/async_alloc.rs:712-714) says such a request fails at once; the code parks it
  (`AllocateOrPark`).
- The loop of `BuddyHint::resolve` ends exactly for hints up to half the word range
  (`HintLoopEndsIff`).
- Free buddies are always merged between whole operations (`NoFreeBuddies`). At atomic grain,
  over any run, no two buddies are ever both free if and only if no thread publishes a block
  whose buddy another thread published between this thread's look and its publish and no
  allocation took back (`AlwaysMergedIff`). Returns that do not overlap in time never do that,
  whatever is allocated meanwhile (`SeparateReturnsMerge`); overlapping ones can, from a new
  arena on (`UnmergedReachable`).
- At atomic grain a step keeps every live queued waiter advertised exactly when it is not a
  prepare that finds its order counted but its head empty (`VisibleStep`), and a whole run keeps
  them advertised throughout exactly when it has no such prepare (`AlwaysVisibleIff`). That needs
  a revoke between its compare-exchange and its decrement (`HidingNeedsRevoker`), so runs in
  which no prepare adds during a revoke never do it (`SeparateRevokesShow`). It does occur
  (`WaiterStaysHidden`), and from there on no wake reaches that order while the waiter stays
  (`StuckForever`).
- The live bytes of the fixed arena exceed its size exactly when more returns have freed their
  slot without having subtracted it than slots are free or about to be handed out
  (`FixedInterleaving.RunBytes`), because a return frees first and subtracts later. They
  stay within it when no allocation is counted between the free and the subtraction of a return
  (`SeparateCountsFit`). The excess occurs with one slot and two threads (`BytesCanExceed`).
- The comment on the claim loop (src/bitmap.rs:228-230) bounds it by the word width. Every
  visit is bounded by the bits set at its first load plus the blocks freed into the word since
  (`MissesWithinFrees`), and that bound is attained (`BoundAttained`). So the word width holds
  whenever set bits plus frees stay within it (`MissesBounded`), and `n` frees allow `n` misses
  for any `n` (`MissesUnbounded`).

## Model

| member | source | states |
|---|---|---|
| `Bitmaps.InitialWords` | src/bitmap.rs:60-73 | the initial words hold exactly the slots below the slot count, or none; padding bits and padding words are zero |
| `Bitmaps.PickFound` | src/bitmap.rs:90-103 | the lowest bit of the first nonzero word in cyclic order is nearest among all members |
| `Bitmaps.PickUnique` | src/bitmap.rs:90-103 | a scan from a given word has one possible outcome |
| `Bitmaps.RangeMaskBit` | src/bitmap.rs:254-263 | bit `i` of the mask is set exactly for `i` in the half-open range, whole words included |
| `Bitmaps.RangeByWords` | src/bitmap.rs:157-188 | first-word, middle-word and last-word tests together say that every slot of the range is present |
| `Bitmaps.OrRange` | src/bitmap.rs:192-224 | or-ing first, middle and last masks adds exactly the slots of the range |
| `Bitmaps.Bitmap.constructor` | src/bitmap.rs:55-86 | a fresh bitmap is the full or the empty set of its slots |
| `Bitmaps.Bitmap.TryClaimWord` | src/bitmap.rs:236-249 | fails exactly on a zero word, otherwise removes the least member of that word |
| `Bitmaps.Bitmap.TryClaimExact` | src/bitmap.rs:119-125 | succeeds exactly when the slot is a member, and removes it |
| `Bitmaps.Bitmap.Free` | src/bitmap.rs:111-117 | adds the slot; the double-free assertion is the precondition |
| `Bitmaps.Bitmap.TryAlloc` | src/bitmap.rs:90-103 | fails exactly on the empty set, for every cursor including its wrap; otherwise removes the nearest member in scan order |
| `Bitmaps.Bitmap.WrapIndex` | src/bitmap.rs:94-97 | the masked index visits every word exactly once |
| `Bitmaps.Bitmap.AnyFree` | src/bitmap.rs:127-135 | true exactly when the set is nonempty |
| `Bitmaps.Bitmap.IsFree` | src/bitmap.rs:137-142 | membership |
| `Bitmaps.Bitmap.FreeCount` | src/bitmap.rs:144-151 | the sum of word bit counts is the size of the set |
| `Bitmaps.Bitmap.AllSetInRange` | src/bitmap.rs:157-188 | true exactly when every slot of the range is present |
| `Bitmaps.Bitmap.SetRange` | src/bitmap.rs:192-224 | adds exactly the slots of the range |
| `Geometry.OrderForRequestLeast` | src/buddy.rs:261-267 | up to half the word range: the least order whose block holds the request, refused exactly above the arena |
| `Geometry.OrderForRequestRefusesIff` | src/buddy.rs:261-267 | refusal of exactly the too-large requests holds if and only if the length is at most half the word range |
| `Geometry.OrderForRequestWraps` | src/buddy.rs:261-267 | beyond that every length gives one order past the last |
| `Geometry.ValidateIff` | src/geometry.rs:181-200 | order `k` is returned exactly for a total of `2^(m+k)` over a minimum block of `2^m` |
| `Geometry.SnapIsLeast` | src/geometry.rs:162-179 | the least minimum block times a power of two covering the hint; fails exactly when that does not fit the word |
| `Geometry.SnapValidates` | src/geometry.rs:162-200 | a snapped size passes validation |
| `Geometry.ExactIff` | src/geometry.rs:39-56 | `exact` keeps the sizes and succeeds exactly for `2^(m+k)` over `2^m` |
| `Geometry.NearestIs` | src/geometry.rs:80-98 | `nearest` gives the least powers of two that cover the minimum block and the total, capping capacities, and fails exactly when they do not fit |
| `Geometry.WithAlignmentIs` | src/geometry.rs:106-130 | `with_alignment` in all its cases, with the sizes it gives and the error it returns |
| `Geometry.ConstructorsValid` | src/geometry.rs:39-130 | what `exact`, `nearest` and `with_alignment` return passes validation and is never smaller than asked for |
| `Geometry.AlignedValid` | src/geometry.rs:106-130 | `with_alignment` yields a valid geometry with that alignment, never smaller |
| `Geometry.AlignmentDividesOffsets` | src/buddy.rs:329-335 | every block offset is a multiple of the alignment |
| `Geometry.AlignDownIs` | src/spec.rs:59-61 | clearing the low bits subtracts the remainder |
| `Geometry.AlignUpLeast` | src/arena.rs:844-847 | rounds up to the least multiple; fails exactly when it does not fit the word |
| `Geometry.ResolveCountLargest` | src/spec.rs:27-56 | a slot count yields the largest aligned capacity that fits |
| `Geometry.ResolveSizeFits` | src/spec.rs:27-56 | a slot size yields the largest count that fits, and an error exactly when none does, which says whether the aligned size is zero or too large |
| `Geometry.PrevPow2IsPow2` | src/spec.rs:109-114 | the value at most the argument and more than half of it is a power of two |
| `Geometry.HintBlockIs` | src/spec.rs:82-91 | the starting block is the least power of two at or above the hint if that fits the region, else the greatest below; refused exactly when neither fits |
| `Geometry.ResolveHint` | src/spec.rs:79-106 | on success the usable size is at most the region and more than half of it |
| `Geometry.HintLoopEndsIff` | src/spec.rs:93-96 | the loop reaches its exit exactly for minimum blocks up to half the word range |
| `Blocks.CanonicalUnique` | src/buddy.rs:718-731 | the free blocks are a function of the live blocks |
| `Blocks.CanonicalEmpty` | src/buddy.rs:487-507 | with nothing live the whole arena is one free block |
| `Blocks.TakeWhole` | src/buddy.rs:281-298 | claiming a free block keeps the free blocks canonical for one more live block |
| `Blocks.SplitHeld` | src/buddy.rs:300-327 | keeping the left half and publishing the right keeps them canonical |
| `Blocks.MergeHeld` | src/buddy.rs:719-726 | claiming the buddy and holding the parent keeps them canonical |
| `Blocks.PublishHeld` | src/buddy.rs:718-731 | publishing after the climb stops restores what the remaining live blocks determine |
| `Blocks.AvailableIffFits` | src/buddy.rs:187-199 | a free block of at least order `k` exists exactly when some aligned block of order `k` avoids every live one |
| `Blocks.NoFreeBuddies` | src/buddy.rs:719-726 | two buddies are never both free between operations |
| `Blocks.CanonicalTiles` | src/buddy.rs:281-327 | each minimum block lies in exactly one live or free block |
| `Blocks.BooksTake` | src/buddy.rs:281-298 | a claim keeps counts and sizes balanced |
| `Blocks.BooksSplit` | src/buddy.rs:300-327 | a split adds one block and no bytes |
| `Blocks.BooksMerge` | src/buddy.rs:719-727 | a coalesce removes one block and no bytes |
| `Blocks.BooksPublish` | src/buddy.rs:729-731 | returning the held block keeps live plus free bytes equal to the arena |
| `Blocks.TakingKeepsScarce` | src/buddy.rs:281-327 | taking a block never makes a larger request possible |
| `Blocks.ReturnPublishesEnough` | src/buddy.rs:718-735 | if a return makes order `k` available, the block it published has at least that order |
| `FreeMaps.OrderMaps.constructor` | src/buddy.rs:487-491 | one empty bitmap per order |
| `FreeMaps.OrderMaps.Publish` | src/bitmap.rs:111-117 | adds one block at its order and leaves every other order alone |
| `FreeMaps.OrderMaps.TryClaim` | src/bitmap.rs:119-125 | claims exactly the named block, if it is free |
| `FreeMaps.OrderMaps.TryAlloc` | src/bitmap.rs:90-103 | takes the block the order's cursor picks |
| `BuddyArenas.SummaryRaise` | src/buddy.rs:312-315 | setting the bit before publishing keeps the summary exact |
| `BuddyArenas.SummaryLower` | src/buddy.rs:738-743 | clearing the bit when the order is empty keeps the summary exact |
| `BuddyArenas.ScrubbedAfterWrite` | src/buddy.rs:205-220 | bytes written in a live block leave every other zeroed and unused minimum block zero |
| `BuddyArenas.ScrubbedAfterReturn` | src/buddy.rs:704-716 | a scrubbed block may leave the live set with its zeroed bits set |
| `BuddyArenas.BuddyArena.constructor` | src/buddy.rs:487-516 | the initial arena is consistent whatever bytes it is given |
| `BuddyArenas.BuddyArena.MaybeClearSummary` | src/buddy.rs:738-743 | restores the exact summary after a claim |
| `BuddyArenas.BuddyArena.SearchUnique` | src/buddy.rs:269-298 | skipping the orders the summary calls empty finds the same block as scanning all |
| `BuddyArenas.BuddyArena.TryAllocateFromOrders` | src/buddy.rs:281-298 | with or without a summary: the least order with a free block and the block its cursor picks, or none exactly when none is left |
| `BuddyArenas.BuddyArena.SplitDown` | src/buddy.rs:300-327 | ends with the leftmost piece, the right siblings free and every level counted as one split |
| `BuddyArenas.BuddyArena.InitBlock` | src/buddy.rs:205-220 | under the zero policy the block is all zero, also when its zeroing is skipped; no byte outside it changes, and none at all without the policy |
| `BuddyArenas.BuddyArena.Carve` | src/buddy.rs:193-201 | fails exactly when no free block is large enough |
| `BuddyArenas.BuddyArena.Allocate` | src/buddy.rs:187-239 | too large, full and served are characterised exactly; a served block is of least order, new, zero under the policy, and counted, and no byte outside it changes |
| `BuddyArenas.BuddyArena.Serve` | src/buddy.rs:193-238 | a request of known order is reported full exactly when no aligned block of that order is unused |
| `BuddyArenas.BuddyArena.ChooseOrder` | src/buddy.rs:261-267 | refused exactly above the arena and up to half the word range |
| `BuddyArenas.BuddyArena.ClimbOnce` | src/buddy.rs:719-726 | merges exactly when the buddy is free |
| `BuddyArenas.BuddyArena.ReleaseBlock` | src/buddy.rs:718-731 | the arena is again what the remaining live blocks determine; levels climbed are counted as coalesces |
| `BuddyArenas.BuddyArena.ScrubBlock` | src/buddy.rs:704-716 | under the policy the block is all zero and every minimum block of it marked; no other byte is touched, and none without the policy |
| `BuddyArenas.BuddyArena.Release` | src/allocation.rs:40-43 | removes one live block, publishes a block containing it, scrubs and marks it under the policy, keeps counters, summary, bitmaps and zero policy in step |
| `BuddyArenas.BuddyArena.LargestFreeBlock` | src/buddy.rs:745-752 | the size of the largest free block, zero if there is none |
| `BuddyArenas.UnavailableIffAboveLargest` | src/buddy.rs:745-752 | no free block can serve a request exactly when it exceeds the largest free block |
| `BuddyArenas.BuddyArena.AllocateOrLargest` | src/buddy.rs:745-752 | a request within the arena is reported as full exactly when it exceeds what `largest_free_block` returns |
| `BuddyArenas.HistoryIndependence` | src/buddy.rs:718-731 | bitmaps, summary and split balance depend on the live blocks alone |
| `BuddyArenas.BuddyArena.AllocateThenRelease` | src/buddy.rs:187-239 | allocate then release restores bitmaps, summary and live bytes exactly |
| `BuddyArenas.BuddyArena.ReleaseAll` | src/buddy.rs:703-736 | releasing everything in any order restores the single top block |
| `BuddyInterleaving.TilingStep` | src/buddy.rs:281-327 | every atomic step keeps free, live and in-flight blocks a tiling of the arena |
| `BuddyInterleaving.BytesStep` | src/metrics.rs:74-102 | every atomic step keeps the live-byte counter equal to the blocks it has counted |
| `BuddyInterleaving.ZeroStep` | src/buddy.rs:205-220 | every atomic step keeps zeroed and dirty apart, except in blocks that are live or awaiting their scrub |
| `BuddyInterleaving.RunTiles` | src/buddy.rs:703-736 | after any interleaving live, free and in-flight blocks are disjoint and every minimum block has an owner |
| `BuddyInterleaving.RunNeverPanics` | src/bitmap.rs:111-117 | the double-free assertion never fires and live bytes stay within the arena |
| `BuddyInterleaving.RunHandsOutZeros` | src/buddy.rs:205-222 | under the zero policy every block about to be handed out is all zero |
| `BuddyMerging.MergedStep` | src/buddy.rs:718-731 | only a publish of a block whose buddy is free at that moment leaves two buddies free |
| `BuddyMerging.FreedByCrossing` | src/buddy.rs:719-731 | while a thread is between its failed look and its publish, its buddy becomes free only by another thread's publish of that buddy |
| `BuddyMerging.KeptUnlessTaken` | src/buddy.rs:719-731 | meanwhile only an allocation takes that free buddy away |
| `BuddyMerging.BuddyFreeIffCrossed` | src/buddy.rs:718-731 | after any interleaving a thread about to publish finds its buddy free if and only if another thread published it since the look and no allocation took it since |
| `BuddyMerging.AlwaysMergedIff` | src/buddy.rs:718-731 | over any run no two buddies are ever both free if and only if no publish comes after such a crossing |
| `BuddyMerging.SeparateReturnsMerge` | src/buddy.rs:703-736 | if no return begins while another thread is inside one, no two buddies are ever left free, whatever allocations run meanwhile |
| `BuddyMerging.FreeCovers` | src/buddy.rs:718-731 | with nothing in flight and no free buddies, every block that avoids the live ones lies in one free block |
| `BuddyMerging.SettledIff` | src/buddy.rs:718-731 | with nothing in flight the free blocks are those the live blocks determine if and only if no two buddies are free |
| `BuddyMerging.RunSettles` | src/buddy.rs:703-736 | after any run without such a publish an idle arena has canonical free blocks and serves a request exactly when some aligned block is unused |
| `UnmergedBuddies.BuddiesCanStayUnmerged` | src/buddy.rs:718-731 | from any state with two live buddies and two idle threads, under either policy, some run leaves both free and unmerged |
| `UnmergedBuddies.UnmergedReachable` | src/buddy.rs:718-731 | from a new arena some run ends idle with nothing live, both halves free, and the request for the whole arena not servable |
| `BuddyCalls.CallOutcome` | src/buddy.rs:187-239 | over any interleaving a call ends with one new buffer, on a block of exactly the order asked for, or with none |
| `BuddyCalls.FailedCallFoundAllTaken` | src/buddy.rs:193-195 | over any interleaving, a call that ends with none found each block that could have served it taken at some moment between its first step and its last |
| `BuddyCalls.ReturnOutcome` | src/buddy.rs:703-736 | over any interleaving a return ends by publishing a block that contains the one returned, all of whose minimum blocks are marked under the zero policy |
| `BuddySolo.SoloAllocates` | src/buddy.rs:187-327 | uninterrupted, with an exact summary, an allocation takes the block of the least sufficient order that its cursor picks, keeps the leftmost piece, publishes the right halves, moves that cursor and leaves the summary exact; without such a block only the scanned cursors move |
| `BuddySolo.SoloReturns` | src/buddy.rs:703-743 | uninterrupted, a return merges upwards exactly while the buddy is free, and leaves the summary exact |
| `BuddySolo.SerialRuns` | src/buddy.rs:738-743 | any calls can be run one after the other, after which no thread is at work and the summary is exact |
| `ClaimLoop.MissesWithinFrees` | src/bitmap.rs:226-249 | over every visit the misses are at most the bits set at the first load plus the blocks freed into the word since |
| `ClaimLoop.MissesBounded` | src/bitmap.rs:226-249 | a visit misses at most as often as the word is wide whenever set bits plus frees stay within the width, and at most as often as bits were set if nothing is freed |
| `ClaimLoop.MissesUnbounded` | src/bitmap.rs:226-249 | in an arena of one block, for any `n`, one visit of one allocation can miss `n` times with at most `n` frees |
| `ClaimLoop.BoundAttained` | src/bitmap.rs:226-249 | in that arena, one set bit and at most `n` frees give `n + 1` misses |
| `Waiters.CandidatesExact` | src/async_alloc.rs:253-294 | the candidates are exactly the eligible orders up to the freed one minus a banned winner, oldest first; the ban never empties them |
| `Waiters.InvStep` | src/async_alloc.rs:329-376 | every operation keeps count, head time, tombstones and registrations in step |
| `Waiters.NoInvisibleWaiter` | src/async_alloc.rs:253-289 | after any run an order with a live queued entry has a positive count and a real head time, so the scoring considers it |
| `Waiters.NoStrandedWaiter` | src/async_alloc.rs:344-352 | after any run a prepared live entry is in its queue |
| `Waiters.StreakDecodes` | src/async_alloc.rs:296-306 | unpacking the streak word gives back winner and run length |
| `Waiters.StreakRun` | src/async_alloc.rs:296-306 | after any run the streak word is the last winner and its saturating run length in the delivery log |
| `Waiters.NoMonopoly` | src/async_alloc.rs:282-289 | an eleventh consecutive delivery to one order happens only when it was the sole eligible one |
| `Waiters.WeightCounts` | src/async_alloc.rs:166-167 | the measure of an entry is eight per live and one per tombstone ahead |
| `Waiters.BestCandidateAdvances` | src/async_alloc.rs:336-375 | a wake with its order first lowers the measure by eight or delivers |
| `Waiters.DeliveredWithin` | src/async_alloc.rs:329-376 | an entry with L live and T tombstones ahead is woken within L + T/8 + 1 wakes that had its order first, whatever else happens |
| `Waiters.SoleOrderIsBest` | src/async_alloc.rs:253-294 | with waiters at one order only, every wake that can serve it has that order first |
| `Waiters.DeliveredAtSoleOrder` | src/async_alloc.rs:329-376 | over a run whose waiters are all at one order, an entry with L live and T tombstones ahead is woken within L + T/8 + 1 wakes that can serve it |
| `WaiterRanking.RankedByAge` | src/async_alloc.rs:275-293 | of two candidates the one with the smaller `max(0, head - 50000 * order - 5000 * waiters)` comes first, the lower order if equal; saturation never shows |
| `WaiterRanking.HigherFirst` | src/async_alloc.rs:275-293 | with equal heads and waiters the higher order comes first if and only if the age of the lower is not zero |
| `WaiterRanking.LevelIsTenWaiters` | src/async_alloc.rs:275-293 | with equal heads the next higher order comes first if and only if the lower has fewer than ten waiters more and an age above zero |
| `WaiterRanking.HeadOfFirst` | src/async_alloc.rs:308-327 | the recomputed head is the time of the first live entry, or the sentinel if none is live |
| `WaiterRanking.DeliveryShowsFirst` | src/async_alloc.rs:354-360 | a delivery leaves the head at the time of the waiter that is first from then on |
| `WaiterRanking.HeadStep` | src/async_alloc.rs:509-550 | no operation but the revocation of the first live waiter makes a head stale |
| `WaiterRanking.RevokedFirstStays` | src/async_alloc.rs:528-550 | that one does: the head keeps the time of the revoked waiter |
| `WaiterRanking.RunHeadExact` | src/async_alloc.rs:308-327 | after any run without such a revocation at an order its head is the time of its first live waiter |
| `WaiterLives.RegisterAdds` | src/async_alloc.rs:378-392 | a new registration is live, pending and not queued, with the time given and the order asked for or the highest |
| `WaiterLives.RegistrationStep` | src/async_alloc.rs:509-594 | each field of a registration changes exactly by its own prepare, revoke, ready poll or drop |
| `WaiterLives.EntryStep` | src/async_alloc.rs:528-594 | an entry keeps its time, leaves LIVE at most once, and is revoked exactly by a revoke or drop while registered; only a wake wakes it, with the freed order sent |
| `WaiterLives.KeptOver` | src/async_alloc.rs:378-392 | over any run a waiter keeps its time, its order and a settled outcome, and its registration exactly until it is dropped |
| `WaiterLives.PollReadyIff` | src/async_alloc.rs:556-570 | a poll is ready if and only if an earlier one was or the entry has left LIVE, and changes only its own registration |
| `WaiterLives.WokenIsReady` | src/async_alloc.rs:556-570 | a waiter woken over a run and not given up is ready at its next poll |
| `WaiterLives.DeliveredThenReady` | src/async_alloc.rs:329-376 | with L live and T tombstones ahead, its poll is ready after L + T/8 + 1 wakes that had its order first |
| `WaiterLives.ReadyMeansSettled` | src/async_alloc.rs:556-570 | over any run a poll becomes ready only if the entry was woken or revoked |
| `WaiterFairness.ServingWakeLowers` | src/async_alloc.rs:253-376 | every wake that can serve an order brings each live entry of it nearer by 36 of a measure of the entries ahead, the entries at other orders and the deliveries towards a ban, whether it reaches the order, runs out of pops or passes it over |
| `WaiterFairness.OtherStepKeeps` | src/async_alloc.rs:329-376 | no other operation raises that measure, except by five for an entry queued at another order |
| `WaiterFairness.DeliveredAmongOrders` | src/async_alloc.rs:253-376 | with waiters at any orders, an entry with L live and T tombstones ahead, E entries elsewhere, A arriving there and k counting towards a ban is woken once 36 times the wakes that can serve it exceed 5(8L + T + E + A) + 4k |
| `NotifyWaiters.BuddyWaiters.constructor` | src/async_alloc.rs:230-245 | the initial state |
| `NotifyWaiters.BuddyWaiters.Register` | src/async_alloc.rs:378-392 | the register step; the order is clamped |
| `NotifyWaiters.BuddyWaiters.Prepare` | src/async_alloc.rs:509-526 | the prepare step: push, count, head time on an empty order |
| `NotifyWaiters.BuddyWaiters.Revoke` | src/async_alloc.rs:528-550 | the revoke step: a live entry becomes a tombstone and leaves the count |
| `NotifyWaiters.BuddyWaiters.DropRegistration` | src/async_alloc.rs:573-594 | the drop step |
| `NotifyWaiters.BuddyWaiters.Poll` | src/async_alloc.rs:556-570 | the poll step; ready exactly when an earlier poll was or the entry has left LIVE |
| `NotifyWaiters.BuddyWaiters.HeadTimestamp` | src/async_alloc.rs:308-327 | the time of the first live entry, the sentinel if there is none |
| `NotifyWaiters.BuddyWaiters.ScoreOrders` | src/async_alloc.rs:253-294 | collects, bans and sorts to the candidate list |
| `NotifyWaiters.BuddyWaiters.SortByAge` | src/async_alloc.rs:292-293 | a stable sort by effective age |
| `NotifyWaiters.BuddyWaiters.WakeOneOrder` | src/async_alloc.rs:340-374 | one candidate order within the pop budget |
| `NotifyWaiters.BuddyWaiters.PopUntilLive` | src/async_alloc.rs:344-352 | pops tombstones up to the budget or the first live entry |
| `NotifyWaiters.BuddyWaiters.Wake` | src/async_alloc.rs:329-376 | the wake step, fanning out over candidates under one pop budget |
| `WaiterInterleaving.StepEffectOk` | src/async_alloc.rs:344-373 | an entry is moved, won, counted and taken only by the thread that owns that right |
| `WaiterInterleaving.InvRun` | src/async_alloc.rs:509-550 | the protocol invariant holds after every interleaving |
| `WaiterInterleaving.CountedIffInCount` | src/async_alloc.rs:344-373 | the entries counted are the live queued ones whose push is added, the popped undecided ones, and the won ones not yet subtracted |
| `WaiterInterleaving.RunCounts` | src/async_alloc.rs:509-550 | after any interleaving a count is the number of those entries, it never underflowed, and no sender was taken twice |
| `WaiterInterleaving.RunSettles` | src/async_alloc.rs:573-594 | once no thread is at work a count is the number of live queued entries and every woken or revoked entry has had its sender taken |
| `WaiterInterleaving.OutcomeIsFinalRun` | src/async_alloc.rs:149-151 | an entry leaves LIVE at most once |
| `WaiterInterleaving.RunNoStranded` | src/async_alloc.rs:344-373 | a registered live entry is queued or in the hands of a wake that has not decided it |
| `WaiterInterleaving.VisibleStep` | src/async_alloc.rs:509-526 | a step keeps all live queued entries advertised if and only if it is not a prepare that finds a nonzero count under a sentinel head |
| `WaiterInterleaving.HidingNeedsRevoker` | src/async_alloc.rs:531-547 | such a prepare needs a revoke between its compare-exchange and its decrement |
| `WaiterInterleaving.AlwaysVisibleIff` | src/async_alloc.rs:509-526 | over any run, live queued entries are advertised at every point if and only if the run has no such prepare |
| `WaiterInterleaving.SeparateRevokesShow` | src/async_alloc.rs:509-550 | a run in which no prepare adds while a revoke of its order is between compare-exchange and decrement has no such prepare |
| `WaiterInterleaving.RunShowsWaiters` | src/async_alloc.rs:308-327 | in every run without such a prepare a live registered waiter is counted and its order shows a head whenever the lock is free |
| `WaiterSolo.SoloPrepare` | src/async_alloc.rs:509-526 | uninterrupted, the steps of a prepare do what the whole operation does |
| `WaiterSolo.SoloRevoke` | src/async_alloc.rs:528-594 | uninterrupted, the steps of a revoke or drop do what the whole operation does |
| `WaiterSolo.SoloWake` | src/async_alloc.rs:329-376 | uninterrupted, the steps of a wake over its candidates leave the queues, counts, heads, entries and registrations of the whole operation |
| `WaiterSolo.PollMatches` | src/async_alloc.rs:556-570 | a poll by a waiter still listening is the same at both grains |
| `WaiterSolo.RegisterMatches` | src/async_alloc.rs:378-392 | a registration is the same at both grains |
| `HiddenWaiter.WaiterStaysHidden` | src/async_alloc.rs:531-547 | a run after which no thread is at work and a live, registered, counted waiter is at a stuck order |
| `StuckOrder.StuckStep` | src/async_alloc.rs:253-289 | an order with a live waiter and a sentinel head keeps both through any operation that spares the waiter; its queue only grows and none of it is woken |
| `StuckOrder.StuckForever` | src/async_alloc.rs:253-294 | over every run that spares the waiter the order stays out of every wake's candidates, and neither it nor any entry queued at its order is woken |
| `AsyncBuddy.BecomesAvailable` | src/buddy.rs:718-735 | only a return makes a request possible, and it wakes with an order that can serve it |
| `AsyncBuddy.NoLostWakeup` | src/async_alloc.rs:253-294 | over any run in which an entry stays parked while its request becomes possible, some return woke with that order as a candidate, unless banned for another |
| `AsyncBuddy.HighWakeDelivers` | src/async_alloc.rs:329-376 | the first live waiter of the only order with waiters, behind fewer than eight tombstones, is woken by any wake of that order or above |
| `AsyncBuddy.ParkedThenWoken` | src/async_alloc.rs:617-632 | such a waiter is awake by the time a block of its order is available, over any grants, returns and operations of other waiters |
| `AsyncBuddy.ReleaseAndWake` | src/buddy.rs:703-736 | returning a block is one return step of such a run |
| `AsyncBuddy.AllocateStep` | src/buddy.rs:187-239 | an allocation is one grant step of such a run, and a refused one changes nothing |
| `AsyncBuddy.WithdrawnAttempt` | src/async_alloc.rs:617-632 | register, prepare, revoke and drop leave every count and registration as before |
| `AsyncBuddy.Attempt` | src/async_alloc.rs:617-632 | one round of the loop: either a block and no trace in the counts, or parked with nothing available |
| `AsyncBuddy.AllocateOrPark` | src/async_alloc.rs:715-733 | parks only while no block of the order can be had; parks requests beyond half the word range, which none can serve |
| `Buffers.EveryLife` | src/buffer.rs:153-214 | over every life the bytes are the accepted puts in order, the buffer is on the heap exactly when they outgrew the block, and the block was returned exactly once when spilled or gone, else never |
| `BufferLives.DroppedUnfrozen` | src/buffer.rs:206-214 | a buffer dropped while being written is gone at once with one release, and stays so |
| `BufferLives.FrozenByCounts` | src/buffer.rs:153-170 | frozen bytes are gone if and only if at some point the drops exceeded the clones by one; before that the handles are one more than clones less drops |
| `BufferLives.ReturnedByCounts` | src/handle.rs:43-47 | a frozen life has returned its block once if all handles were dropped or it has spilled, and otherwise not |
| `BufferLives.SpillingTakesAll` | src/buffer.rs:219-258 | an auto-spill buffer whose puts total at most the largest length holds all of them, on the heap exactly when they exceed its capacity |
| `BufferLives.FixedTakesWhatFits` | src/buffer.rs:219-228 | a buffer without auto-spill takes a put exactly when it fits beside its contents, and is otherwise unchanged |
| `BufferLives.SpillingRefusesIff` | src/buffer.rs:219-228 | an auto-spill buffer refuses a put exactly beyond the largest length, counting its contents only once on the heap |
| `Buffers.Buffer.constructor` | src/buffer.rs:56-76 | an empty buffer holding its block |
| `Buffers.Buffer.DoSpill` | src/buffer.rs:179-192 | the bytes survive although the block is scrubbed on return |
| `Buffers.Buffer.ChunkMut` | src/buffer.rs:246-258 | spills exactly when a full auto-spill buffer is asked for room, and then always has room |
| `Buffers.Buffer.Append` | src/buffer.rs:230-244 | appends to block or heap, never past the capacity |
| `Buffers.Buffer.RemainingMut` | src/buffer.rs:219-228 | without auto-spill what the capacity leaves, with it the largest length, less the contents once on the heap |
| `Buffers.Buffer.PutSlice` | src/buffer.rs:219-258 | appends all or nothing; without auto-spill exactly what fits the capacity, with it everything up to the largest length; on the heap exactly when the total exceeds the capacity; touches no byte outside its block |
| `Buffers.Buffer.TryPutSlice` | src/buffer.rs:107-117 | reports remaining and requested sizes exactly when the put does not fit: beyond the capacity without auto-spill, never up to the largest length with it |
| `Buffers.Buffer.FreezeBytes` | src/buffer.rs:153-170 | the frozen bytes are the contents, spilled or not |
| `Buffers.Buffer.DropOne` | src/buffer.rs:206-214 | returns the block exactly when it is still held and this is the last owner |
| `Buffers.Buffer.Perform` | src/buffer.rs:153-214 | one operation does what the life says; a buffer that holds no block leaves the arena alone |
| `Buffers.Buffer.Live` | src/handle.rs:43-47 | the buffer goes through any script of operations as its life says, with one free recorded by the arena |
| `Buffers.BytesApart` | src/buffer.rs:246-258 | disjoint blocks share no byte |
| `BufferPools.StillValid` | src/handle.rs:35-41 | bytes changed in a disjoint block leave a buffer and its contents as they are |
| `BufferPools.Allocate` | src/buddy.rs:187-239 | an allocation keeps every buffer over the arena valid and unchanged; it succeeds exactly if the request fits the arena and some aligned block of its order is unused, and grants a block none of them holds |
| `BufferPools.Perform` | src/buffer.rs:153-214 | an operation on one buffer leaves every other unchanged, and returns the block exactly when the buffer spills or goes |
| `BufferPools.Session` | src/buffer.rs:153-214 | over any script each buffer granted has the room asked for and is where its own operations lead; the blocks out at every command follow from the script, and a request is granted exactly if it can be served beside them |
| `FixedArenas.BuildSizesFit` | src/arena.rs:615-634 | building succeeds exactly when the slots at the least aligned capacity fit the address range |
| `FixedArenas.ScrubbedBeside` | src/arena.rs:450-461 | writes inside one slot keep the zero policy of every other |
| `FixedArenas.FixedArena.constructor` | src/arena.rs:636-659 | the initial arena: every slot free, nothing marked zeroed |
| `FixedArenas.FixedArena.InitSlot` | src/arena.rs:450-461 | under the zero policy the slot is all zero, also when its zeroing is skipped |
| `FixedArenas.FixedArena.HandOut` | src/arena.rs:450-465 | a claimed slot becomes live and counted, zero under the policy, other slots untouched |
| `FixedArenas.FixedArena.Allocate` | src/arena.rs:442-475 | full exactly when every slot is live; otherwise the nearest free slot in scan order, zero under the policy, other slots untouched |
| `FixedArenas.FixedArena.ScrubSlot` | src/allocation.rs:23-32 | zeroes and marks the slot and touches no other byte |
| `FixedArenas.FixedArena.Release` | src/allocation.rs:22-39 | the slot is free, zeroed and marked under the policy; counters match the live slots |
| `FixedArenas.FixedArena.AllocateAll` | src/arena.rs:442-475 | exactly the slot count of distinct slots can be had, filling the backing bytes |
| `FixedInterleaving.OwnedStep` | src/bitmap.rs:90-117 | every atomic step keeps each slot with exactly one owner: bitmap, buffer or thread |
| `FixedInterleaving.BalancedStep` | src/metrics.rs:74-102 | every atomic step keeps the live bytes equal to the buffers out plus the returns not yet subtracted |
| `FixedInterleaving.ZeroStep` | src/arena.rs:450-461 | every atomic step keeps zeroed and dirty apart, except in slots that are out or about to be scrubbed |
| `FixedInterleaving.RunOwners` | src/allocation.rs:22-39 | after any interleaving, for any slot count, each slot has one owner and the double-free assertion has not fired |
| `FixedInterleaving.RunHandsOutZeros` | src/arena.rs:450-461 | under the zero policy every slot about to be handed out is all zero |
| `FixedInterleaving.RunBytes` | src/allocation.rs:33-34 | the live bytes never underflow, and exceed the arena if and only if more returns are freed but not subtracted than slots are free or being handed out |
| `FixedInterleaving.SeparateCountsFit` | src/allocation.rs:33-34 | a run in which no allocation is counted between the free of a return and its subtraction never has more bytes live than the arena |
| `FixedCalls.FailedCallFoundAllTaken` | src/bitmap.rs:90-103 | over any interleaving, a call that ends without a buffer found each slot taken at some moment between its first step and its last |
| `FixedCalls.SoloAllocates` | src/arena.rs:442-475 | uninterrupted, an allocation fails exactly if no slot is free and otherwise hands out the nearest one from the cursor, which moves by one; its whole final state is given |
| `FixedCalls.SoloReturns` | src/allocation.rs:22-39 | uninterrupted, a return frees its slot, subtracts it and under the policy scrubs and marks it; its whole final state is given |
| `FixedInterleaving.BytesCanExceed` | src/allocation.rs:33-34 | with one slot some run has twice its bytes live |

## Left out

- Memory orderings, raw pointers and cache-line padding: atomic steps are sequentially consistent, memory is a byte array.
- `NotifyRegistration` and `FixedOrderSlot`: they rest on a notification primitive that is not part of this model; the fixed arena is modelled without waiters.
- The summary word under interference: it is exact after calls that run one after the other (`BuddySolo.SerialRuns`), and nothing is claimed about it while calls overlap; the scan of all orders makes up for it.
- Passing on a wake whose receiver has gone: the code does not do it, so nothing is claimed.
- The streak word and age scoring at atomic grain: a wake there may visit any list of orders.
- The bytes crate: `put_slice` is its default loop, spilled storage is a growable sequence with arbitrary spare room, frozen bytes are a count of handles.
- Real time: timestamps are arbitrary values below the sentinel.
- Counters are unbounded; wrap-around of the metric words after 2^64 events is not modelled.
- Debug-build overflow panics: arithmetic wraps as in a release build.
- Page sizes, prefaulting, NUMA placement, deallocation, tracing, error texts, builders and async wrapper types.
- `hazmat/raw_region.rs` repeats the claim, split and zero path of `allocate`; the treiber waker example is a demonstration.
- Buffer over the fixed arena: `Buffers.Buffer` is stated over the buddy arena, whose return path scrubs and coalesces; the fixed arena's slots give the same frame.
- Buffers.Buffer.DropOne: the number of handles is modelled, not the reference count of the bytes crate.
- Bitmaps.Bitmap.TryClaimWord: one uncontended turn of the compare loop; contention is covered in `BuddyInterleaving` and `ClaimLoop`.
- AsyncBuddy.NoLostWakeup: each allocator and waiter operation is one step; at atomic grain a waiter can be passed over, as `HiddenWaiter.WaiterStaysHidden` shows.
- BuddyInterleaving.ZeroStep: bytes are tracked per minimum block, as clean or dirty.
- FixedInterleaving.ZeroStep: bytes are tracked per slot, as clean or dirty.
- Geometry.ResolveHint: stated for hints up to half the word range; above it the loop of the source does not end (`Geometry.HintLoopEndsIff`), so there is no result to state.
