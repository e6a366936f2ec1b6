# Slabby in Dafny

A model of the fixed-capacity slab allocator and of the layers on top of it, with proofs of
what they promise. `dafny verify dfyconfig.toml` checks the whole project.

## What is modelled

* **Sizes and places** (`Bits`, `Layout`, `Memory`): rounding to cache lines under int32
  wrap-around, which requests the constructor accepts, where each slab's bytes and each slab's
  coloured shard are, clearing and writing the byte pool.
* **The allocator in sequential runs** (`Bags`, `Pools`, `Claims`, `Allocator`,
  `AllocatorRuns`, `LiveReferences`, `Stranding`): the per-CPU caches, the free stack, the
  coloured shards and the in-use flags as values, every operation as a function of the state,
  and theorems over all runs. The pools are sloppy by design: a refill hands out an ID and
  leaves it in the cache, so they hold duplicates and slabs in use. The invariants therefore
  speak of multisets: the free slabs are contained in what the pools list. The CPU number and
  the random shard start are drawn anew at every step that uses them.
* **The allocator as objects** (`FreeStructures`, `SlabbyObject`): classes with the source's
  arrays, counts and loops, whose methods are proved to compute those functions, with the
  weighted measure 2*(stack size) + (sum of cache counts) proving that the claim loops end.
* **Answers** (`Answers`, `SearchOrder`): every error of every operation with its exact
  condition, what is told to the breaker, in which order the pools are searched, and that a
  claim undoes a free, said of the state before the call.
* **The circuit breaker** (`LeakyCounter`, `Breaker`): the timed machine, its object, and the
  two-step check interleaved with other callers.
* **Interleavings** (`Interleaving`): any number of threads running AllocateFast, Allocate and
  DeallocateFast, one load, store, compare-and-swap or locked stack operation at a time. A
  shard pop may yield any number, or nothing: shard nodes are recycled through one pool of the
  process, so a delayed pop can yield the ID of another allocator, and one out of range panics.
  `LoneThread` joins the two models: alone, a thread does what the sequential calls do.
* **Lost entries** (`InterleavedListing`, `LostEntry`, `UncachedInterleaving`): whether
  interleavings keep every free slab in some pool, when shard pops take the newest entry; when
  they do, and a schedule that loses a slab in every other configuration; and that without
  caches every free slab is in exactly one place.
* **References** (`InterleavedRefs`, `QuietRefs`, `ReferenceRules`, `StaleReference`):
  Allocate, batches and Deallocate of references interleaved with the fast calls, with
  reference objects that are issued again, and what callers have to do for references to be
  safe.
* **Handles** (`Handles`, `HandleAnswers`, `HandleObject`, `HandleStatistics`,
  `InterleavedHandles`, `QuietHandles`): generations under uint32 wrap-around, sequentially
  with handles presented any number of times, and interleaved with each handle freed at most
  once; what the handle statistics count.
* **The leak detector** (`LeakDetector`, `Sums`): sampling, per-stack counts, the ring of state
  changes and the report, against the unbounded histories.
* **Mapped memory** (`Mmap`, `Sums`): page rounding, the region table and the wrapping counter.

Clocks, CPU numbers, random starts, stack hashes and the operating system's answers are inputs.

## Assumptions

Guard pages are off. The cache line is a power of two from 32 bytes to 1 GiB. The breaker's
threshold is at least 1. There are at most 2^31 CPUs. In sequential runs only references issued
since the last Reset are released, any number of times, and a slab held through a live reference
is not freed by its ID. For interleavings the rules are part of the theorems
(`InterleavedRefs.Permitted`, `ReferenceRules.Once`). A panic of the constructor is an error
value of its own. The handle layer is the only user of the slab allocator it wraps, which has no
heap fallback. The operating system never maps an address that is still tracked.

## Where the code differs from what it suggests

* The constructor truncates the slab size to int32 and never compares it with MaxInt32, so a
  larger size can be accepted with smaller slabs (`Layout.OversizedRequestAccepted`; exact
  condition in `Layout.SizeHonouredExactlyWhen`).
* The colour mask evaluates to the single bit 16. With cache lines of 32 bytes or more every
  colour is 0 and only one shard in sixteen is ever used. The constructor does not mask the
  colour while put and Reset do, so with a 16-byte line it can index outside the shard array
  (`Layout.PlacementsAgreeExactlyWhen`, `Layout.SmallCacheLineOverrunsShards`).
* The length of the shard array is computed in uint32 and wraps to zero for more than 2^27
  shards, so the constructor panics instead of refusing (`Layout.ManyShardsPanic`; exact
  condition in `Layout.PlacementsFitExactlyWhen`).
* ErrOutOfMemory does not mean that no slab is free: up to sixteen slabs per other cache can be
  stranded, in a small pool all of them (`Stranding.StrandingLimitIsReached`). It means that if
  and only if there is at most one cache (`Stranding.OutOfMemoryIsHonestExactlyWhen`).
* Two threads can make a cache forget a free slab: one lowers the count of a cache, and before
  it reads the slot the other frees a slab into it, and the first slab is then free but in no
  pool. With shard pops that take the newest entry that happens if and only if caching is on and
  there are two slabs and two threads (`LostEntry.NeverLosesExactlyWhen`). Ownership is never affected
  (`Interleaving.NoTwoHolders`).
* A second Deallocate of a reference is refused only until its object is issued again; after
  that it frees the slab of the newer reference (`StaleReference.StaleReferenceFreesAnother`;
  exact condition in `InterleavedRefs.DeallocateSparesOthersExactlyWhen`). Released at most
  once, references are safe (`ReferenceRules.OnceIsSafe`).
* Shard nodes are recycled through a pool that all allocators share, so after a delayed pop a
  shard can yield an ID of another allocator, and panic if that is out of range. Ownership is
  not affected by one in range (`Interleaving.NoTwoHolders`).
* Allocate does not report its successes to the breaker; AllocateFast does.
* The breaker's check looks at the mode again before it upgrades, but not at the time of the
  last failure, so with other callers in between it can leave the open mode early
  (`Breaker.EarlyUpgradeExactlyWhen`).
* AllocateHandle's slow path is not counted in the handle statistics, so they count every
  handle if and only if there is no breaker and at most one cache
  (`HandleStatistics.StatisticsAreExactExactlyWhen`).
* A sample rate that does not divide 2^32 is exact only for the first 2^32 - 1 events
  (`LeakDetector.SampleRateIsHonouredExactlyWhen`).
* A mapping whose munmap fails is forgotten and can never be released by a later call.

## Model

| member | source | states |
|---|---|---|
| Bits.NextPowerOfTwoIsLeast | slabby.go:2446-2451 | The rounded count is a power of two, not smaller than the argument, and no smaller power of two will do. |
| Layout.AlignIsLeastMultiple | slabby.go:2437-2440 | For every positive int32 size the bit trick, under int32 wrap-around, gives the least multiple of the cache line that holds the size if that multiple is an int32, and a number that is not positive otherwise. |
| Layout.NonPositiveIsRejected | slabby.go:2437-2440 | A size that is zero or negative as an int32 never gives a positive aligned size. |
| Layout.AcceptedExactlyWhen | slabby.go:368-392 | A request with an int32 slab size is accepted if and only if the rounded slabs together fit MaxInt32 bytes. |
| Layout.RequestAnswers | slabby.go:368-392 | Which of the four errors a request gets, each with its exact condition, the last one if and only if no plan fulfils the request; an accepted one gets the plan with the capacity asked for, the size asked for as an int32 and the least cache-line multiple that holds it. |
| Layout.AcceptedPlanIsSound | slabby.go:368-392 | Every accepted request, truncated or not, has slabs that fit their aligned size, an aligned size that is a multiple of the cache line, and an int32 capacity. |
| Layout.OversizedRequestAccepted | slabby.go:385-392 | A slab size of 2^32+64 is accepted with 64-byte slabs: the size is truncated and never compared with MaxInt32. |
| Layout.SizeHonouredExactlyWhen | slabby.go:385-392 | An accepted request gives slabs of at least the size asked for if and only if that size is an int32. |
| Layout.WindowsAreSound | slabby.go:2228-2239 | For every accepted request, also one whose size was truncated: the byte windows of two slabs never overlap, all lie inside the pool, the pool lies inside the raw buffer, and every slab starts on a cache line. |
| Layout.ColorIsZero | slabby.go:2256-2262 | The colour mask is the single bit 16, so every slab has colour zero when the aligned size is a multiple of 32. |
| Layout.PlacementsAgreeExactlyWhen | slabby.go:2305-2312 | The constructor, put and Reset send a slab to the same in-range shard if and only if its colour bit is clear; otherwise the constructor, which does not mask the colour, is one whole row further. |
| Layout.HomeIsHashedRow | slabby.go:2266-2276 | With a power of two of rows and cache lines of 32 bytes or more, all three placements send a slab to the first shard of the row that is its hash modulo the number of rows. |
| Layout.HashValues | slabby.go:2266-2276 | The values of the hash of a few slabs, which fix its constants and shifts. |
| Layout.OverrunsExactlyWhen | slabby.go:2305-2312 | For any cache line the constructor indexes outside the shard array exactly for a slab that hashes to the last row and whose colour bit is set. |
| Layout.SmallCacheLineOverrunsShards | slabby.go:2309-2310 | With a 16-byte cache line and one row that is the second slab. |
| Layout.PlacementsFitExactlyWhen | slabby.go:2293-2312 | The constructor places every slab inside the shard array, whose length is computed in uint32, if and only if the shard count is at most 2^27. |
| Layout.ManyShardsPanic | slabby.go:2293-2312 | Asked for 2^28 shards it indexes outside the array at the first slab. |
| Pools.FreshIsExact | slabby.go:2292-2315 | A new allocator lists every slab exactly once. |
| Pools.NewShardsAscend | slabby.go:2305-2315 | In each shard of a new allocator the IDs ascend, so the largest is popped first, and each is in its home shard. |
| Pools.CacheGet | slabby.go:1384-1423 | A successful get lowers 2*(stack size) + (sum of cache counts) by exactly one, although a refill leaves the ID it hands out in the cache, yields an ID in range, and removes at most that ID from the listing. |
| Pools.RefillKeepsACopy | slabby.go:1408-1418 | With caches an exact listing does not survive a refill: the ID handed out stays in the cache, so once claimed a slab in use is listed. |
| Pools.SearchIsComplete | slabby.go:2359-2395 | The search of the coloured shards fails if and only if every shard is empty, for every random start and last colour; its last pass never finds anything the coloured passes missed. |
| SearchOrder.SearchFindsFirstHit | slabby.go:2359-2395 | The search pops from the first shard that is not empty in the order of the probes: colour by colour from the one after the last colour, in each colour row by row from the random start, both wrapping. |
| SearchOrder.ShardGives | slabby.go:2332-2346 | The shard found yields its newest ID; the other shards, the caches and the stack keep theirs. |
| SearchOrder.CacheGives | slabby.go:1384-1423 | The drawn cache, its number the draw modulo the count, yields its newest ID; an empty one the newest of the stack, and keeps it as its only entry. |
| Pools.ClaimFromCaches | slabby.go:513-528 | The cache loop ends after at most 2*(stack size) + (sum of cache counts) + 1 draws; it sets exactly one clear flag or none, never loses sight of a free slab, and fails only with an empty stack and an empty cache. |
| Pools.ClaimFromStack | slabby.go:530-545 | The stack loop sets exactly one clear flag or none, keeps every free slab listed, and fails only with an empty stack. |
| Pools.ClaimFromShards | slabby.go:547-558 | The shard loop ends, sets exactly one clear flag or none, keeps every free slab listed, and fails only when every shard is empty. |
| Claims.Acquire | slabby.go:575-687 | Caches, then stack, then shards: one clear flag set or none, nothing free lost; empty-handed only if the stack, every shard and one cache are empty; an exact listing stays exact with caching off. |
| SearchOrder.CacheComesFirst | slabby.go:513-528 | If the newest ID of the first drawn cache is free, it is claimed and nothing else is touched. |
| SearchOrder.StackComesBeforeShards | slabby.go:530-558 | Without caches the topmost free entry of the stack is claimed, with the entries above it dropped, and no shard is touched. |
| SearchOrder.ShardsComeLast | slabby.go:530-558 | Neither a single allocation nor a batch takes anything from a shard unless it leaves the stack empty. |
| SearchOrder.ClaimUndoesCachedFree | slabby.go:658-682 | A slab freed into a cache with room is claimed by the next allocation on that CPU, which restores the pools exactly. |
| SearchOrder.ClaimUndoesStackedFree | slabby.go:658-682 | The same of the stack, without caches. |
| Claims.AcquireBatch | slabby.go:713-767 | A batch claims at most what was asked for, each flag clear before, and comes back short only if the stack, every shard and one cache are empty. |
| Claims.InOrderMeans | slabby.go:713-767 | Slabs claimed one after the other are pairwise distinct, were free, are in use now, and no other flag changed; the free count goes down by exactly their number. |
| Claims.ReleaseKeepsListing | slabby.go:658-682 | Releasing a slab in use keeps every free slab listed (and an exact listing exact) and raises the free count by one. |
| Claims.StrandedBound | slabby.go:513-569 | If every free slab is listed and the caller finds nothing, at most 16*(caches-1) slabs are free. |
| Claims.OutOfMemoryMeans | slabby.go:513-569 | A single allocation that finds nothing strands at most 16*(caches-1) slabs; with at most one cache it finds nothing exactly when every slab is in use, whatever CPUs and shard starts are drawn. |
| Claims.ShortBatchMeans | slabby.go:713-788 | The same for a short batch; with at most one cache a batch claims exactly min(asked for, free). |
| Claims.NoClaimFails | slabby.go:530-558 | With an exact listing the first ID popped is the one claimed: no compare-and-swap fails. |
| Claims.StackNeverRefuses | slabby.go:1330-1340 | With an exact listing and no caches, a freed slab always fits on the free stack. |
| LeakyCounter.CountIsBestWindow | slabby.go:1864-1931 | A counter that never goes below zero is the largest excess of ups over downs of any window that ends now: reached by one, exceeded by none. |
| LeakyCounter.WindowExactlyWhen | slabby.go:1864-1890 | The counter has reached a threshold if and only if some window that ends now has that much excess. |
| Breaker.EveryRunConsistent | slabby.go:1820-1931 | After every timed run: closed means failureCount is the leaky count of outcomes since closing, below the threshold, and successCount is 0; open or half-open means failureCount is at least the threshold and the last failure time is remembered; half-open has seen only successes. |
| Breaker.EveryRunRemembers | slabby.go:1864-1899 | After every run lastFailure is the time of the last failure, which neither successes nor Reset forget; until it closes, failureCount is the threshold plus the failures since it opened. |
| Breaker.OpensExactlyWhen | slabby.go:1864-1890 | A closed breaker opens at the first failure that completes a window of outcomes whose failures exceed its successes by the threshold, and at no other event. |
| Breaker.OpenIsLeftExactlyWhen | slabby.go:1820-1862 | An open breaker is left if and only if a check comes more than RecoveryTimeout after the last failure of the run, and then to half-open. |
| Breaker.HalfOpenResolves | slabby.go:1891-1932 | A half-open breaker closes exactly at its max(1, threshold/2)-th success with no failure in between; any failure reopens it. |
| Breaker.OutageStep | slabby.go:1820-1899 | A check that refuses leaves the breaker open; one that lets a request through, followed by its failure, opens it or brings it exactly one failure closer. |
| Breaker.EarlyUpgradeExactlyWhen | slabby.go:1826-1851 | Interleaved with other callers, a check that has done its read leaves the open mode too early if and only if it read an expired open breaker and a failure at most the timeout old was recorded after its read. |
| Breaker.NoFailureNoEarlyUpgrade | slabby.go:1826-1851 | If no failure was recorded after its read, a check never leaves the open mode too early. |
| Breaker.LoneCheckIsCheck | slabby.go:1826-1851 | With nobody in between, the read and the upgrade are together the check of the machine. |
| Breaker.EarlyUpgradeHappens | slabby.go:1826-1851 | A concrete five-step interleaving in which that happens. |
| Breaker.CircuitBreaker.IsOpen | slabby.go:1820-1862 | The method answers and moves as the machine does, and refuses exactly when open with the last failure at most the timeout old. |
| Breaker.CircuitBreaker.RecordFailure | slabby.go:1864-1899 | The object's fields stay those of the machine after the recorded history with one more failure. |
| Breaker.CircuitBreaker.RecordSuccess | slabby.go:1901-1932 | The same for one more success. |
| Breaker.CircuitBreaker.Clear | slabby.go:1216-1223 | The same for the breaker part of Reset. |
| Memory.ClearSlice | slabby.go:1647-1676 | The 64-byte chunked clear and the plain clear both clear exactly the slice and nothing else. |
| Memory.ZeroIsLocal | slabby.go:1647-1676 | Zeroing a slab makes its window zero and leaves every other window unchanged. |
| Memory.ZeroSparesTheRest | slabby.go:1647-1676 | Zeroing a slab changes no byte outside its window, so none of the padding either. |
| Memory.StoreIsLocal | slabby.go:1313-1322 | A store through one slab changes that byte and no other slab's bytes. |
| Allocator.ConfiguredIsValid | slabby.go:368-470 | Of the requests that pass the checks, the constructor panics on exactly those of which it would place some slab outside the shard array; every other one gives a configuration that satisfies everything the later proofs assume about sizes, rows and cache counts. |
| Allocator.ConfiguredAsAsked | slabby.go:368-470 | What the constructor builds is what was asked for: the capacity, the size as an int32, the least cache-line multiple that holds it; no cache if caching is off, else the least power of two not below the CPUs; the least power of two of rows not below the shard count; the fallback and breaker of the options. |
| Allocator.ConfigureAnswers | slabby.go:368-392 | Each error of the constructor and its panic with their exact conditions on the request and the options. |
| Answers.AllocationAnswers | slabby.go:500-647 | Allocate and AllocateFast take the same slab from the same state and fail alike, except that Allocate falls back to the heap; each answer with its exact condition; AllocateFast tells the breaker of a success, Allocate does not, and a heap block is not reported. |
| Answers.BatchAnswers | slabby.go:690-793 | The four errors of a batch and their exact conditions: an invalid number is not from 1 to 256, a refusal is the breaker's, ErrOutOfMemory means let through and no reference, a partial batch fewer references than asked for; the breaker is told of the check and, if the batch comes back empty, of a failure, and of nothing if the number is invalid. |
| Answers.RecycleGivesBack | slabby.go:658-687 | A slab given back has its flag cleared and is listed once more; its bytes are zero if secure; no other slab's bytes change; the breaker is told of a success. |
| Answers.DeallocateFastAnswers | slabby.go:652-687 | DeallocateFast frees exactly an ID in range whose flag is set; out of range is ErrInvalidSlabID, a clear flag ErrDoubleDeallocation, and an error changes nothing. |
| Answers.DeallocateAnswers | slabby.go:818-886 | Deallocate of a live object gives its slab back, or nothing for heap memory, and releases that object only; of a released one nothing happens. |
| Answers.ResetAnswers | slabby.go:1153-1223 | Reset frees every slab, zeroes them all if secure and else leaves the bytes alone, and restarts the breaker. |
| LiveReferences.ReferencesAreConserved | slabby.go:1455-1500 | The live references after any operation of a run are those before, plus the one of a successful Allocate or those a batch grants, less the one deallocated, and none after Reset, whichever objects are issued again. |
| LiveReferences.OtherOperationsMean | slabby.go:1145-1223 | A store changes one byte of its own slab's window; Reset frees every slab; secure mode once switched on stays on. |
| Allocator.AllocateFastClaims | slabby.go:596-604 | A success set exactly one flag that was clear, a failure none, and no free slab is lost from the pools. |
| Allocator.DeallocateFastFrees | slabby.go:658-682 | Freeing a slab in use succeeds, clears exactly its flag and loses no free slab. |
| Allocator.ResetRestoresNew | slabby.go:1153-1223 | After any run Reset leaves the pools of a new allocator, shard by shard and in order, empty caches and stack, a closed breaker with zero counts and, if secure, all bytes zero. |
| AllocatorRuns.EveryRunGood | slabby.go:500-886 | After every run of allocations, batches, frees, stores and resets, in which released reference objects are issued again and released by whoever still has them: every free slab is listed (exactly once and nothing else with caching off), live reference objects hold pairwise distinct slabs in use, and in secure mode every free slab is all zero. |
| AllocatorRuns.RefusedExactlyWhen | slabby.go:582-586 | After every run a request is refused if and only if the breaker is open and the last failure of the run is at most the timeout old. |
| AllocatorRuns.OutOfMemoryInRuns | slabby.go:500-687 | After every run ErrOutOfMemory means the stack, every shard and one cache are empty and at most min(capacity, 16*(caches-1)) slabs are free; with at most one cache it is returned exactly when all slabs are in use. |
| AllocatorRuns.BatchInRuns | slabby.go:690-793 | After every run a batch takes pairwise distinct free slabs; if it is short, the stack, every shard and one cache are empty and at most min(capacity, 16*(caches-1)) slabs are left; with at most one cache it takes exactly min(n, free). |
| AllocatorRuns.UncachedRuns | slabby.go:530-558 | With caching off, after every run the stack and shards together list each free slab once and no slab in use; every ID popped is free, and a freed slab goes on the stack. |
| AllocatorRuns.SecureHandsOutZeros | slabby.go:500-793 | In an allocator secure from construction every slab handed out by AllocateFast, Allocate or BatchAllocate is all zero, after every run. |
| AllocatorRuns.ExhaustionOpensBreaker | slabby.go:575-647 | After every run that leaves all slabs in use, threshold fast allocations in a row open the breaker whatever mode it was in; from then on a request is refused exactly while at most the timeout has passed since the last failure. |
| AllocatorRuns.StepKeepsBytes | slabby.go:652-687 | One operation that neither frees a slab nor stores through it leaves its bytes unchanged. |
| AllocatorRuns.BytesAreKept | slabby.go:652-687 | Over any part of any run in which a slab stays in use and is not stored through, its bytes do not change. |
| Stranding.StrandingLimitIsReached | slabby.go:1384-1423 | The bound is tight: for every number of caches and slabs, with or without a breaker, a run ends with min(capacity, 16*(caches-1)) slabs free and a request that is let through and gets ErrOutOfMemory. |
| Stranding.OutOfMemoryIsHonestExactlyWhen | slabby.go:575-647 | In every run every request that is let through gets ErrOutOfMemory exactly when no slab is free, if and only if there is at most one cache. |
| FreeStructures.IndexedFreeStack.Push | slabby.go:1330-1340 | Pushes on top, refusing exactly when full. |
| FreeStructures.IndexedFreeStack.Pop | slabby.go:1342-1351 | Pops the top, failing exactly when empty. |
| FreeStructures.PerCpuCaches.PutInternal | slabby.go:1427-1445 | Appends to one cache, refusing exactly when it holds sixteen IDs; no other cache changes. |
| FreeStructures.PerCpuCaches.Get | slabby.go:1384-1423 | On slots and counts updated in place, computes the specified pop or refill of caches and stack. |
| FreeStructures.ColoredShardedFreeList.constructor | slabby.go:2292-2315 | Distributes all slabs to their home shards, in order. |
| FreeStructures.ColoredShardedFreeList.Get | slabby.go:2359-2395 | The probing loops pop from exactly the shard the specified search finds. |
| FreeStructures.ColoredShardedFreeList.Put | slabby.go:2397-2403 | Pushes on the slab's home shard only. |
| FreeStructures.ColoredShardedFreeList.Redistribute | slabby.go:1171-1190 | Empties every shard and redistributes all slabs as the constructor does. |
| SlabbyObject.New | slabby.go:368-481 | Every error and the panic with their exact conditions on the request; otherwise an allocator with the sizes, counts and options asked for, in the initial state of its configuration, for every shard count. |
| SlabbyObject.Slabby.TryCaches | slabby.go:513-528 | The retry loop over the caches ends and computes the specified claim. |
| SlabbyObject.Slabby.TryStack | slabby.go:530-545 | The retry loop over the stack ends and computes the specified claim. |
| SlabbyObject.Slabby.TryShards | slabby.go:547-558 | The retry loop over the shards ends and computes the specified claim. |
| SlabbyObject.Slabby.AllocateFast | slabby.go:575-647 | New state and answer are the specified ones. |
| SlabbyObject.Slabby.Allocate | slabby.go:500-570 | New state and answer are the specified ones; a success is a live reference to the claimed slab or to a heap block, in the object picked from the reference pool, which leaves it, or in a new one. |
| SlabbyObject.Slabby.BatchAllocate | slabby.go:690-793 | The three phase loops compute the specified batch, whose errors `Answers.BatchAnswers` fixes; the references are live, in order and pairwise different objects, each the one picked from the reference pool if it is still there, or a new one. |
| SlabbyObject.Slabby.DeallocateFast | slabby.go:652-687 | New state and error are the specified ones, which `Answers.DeallocateFastAnswers` fixes. |
| SlabbyObject.Slabby.Deallocate | slabby.go:818-886 | A nil or foreign reference, and one deallocated and not issued again, are refused without effect; a heap block only ends its reference; otherwise the slab the object was last issued for is recycled. The object goes into the reference pool. |
| SlabbyObject.Slabby.ZeroSlabMemory | slabby.go:1647-1676 | Clears the slab's window in the byte pool and nothing else. |
| SlabbyObject.Slabby.Reset | slabby.go:1153-1223 | New state is the specified one. |
| SlabbyObject.Slabby.UsedSlabs | slabby.go:1032-1040 | The flag count of the memory statistics is the capacity less the number of free slabs. |
| Handles.PackUnpacks | handle.go:86-94 | Packing a uint32 generation with a slab fits 64 bits, unpacks to both, and is zero only for generation 0 of slab 0. |
| HandleAnswers.AllocateHandleAnswers | handle.go:69-95 | A handle names a slab that was free, with the next generation stored for it; a failure is that of the plain allocation and moves no generation; only the fast path counts. |
| HandleAnswers.FreeHandleAnswers | handle.go:99-127 | The four answers of FreeHandle with their exact conditions; a current handle moves the generation on even if the slab turns out to be free; any other leaves slab and generation alone. |
| HandleAnswers.GetBytesAnswers | handle.go:131-152 | A foreign handle or one of no slab is invalid, one of another generation stale and counted, and any other names its slab; nothing else changes. |
| Handles.EveryRunGood | handle.go:69-152 | After every sequential run the stored generation of a slab allocated n times is 2n-1 in use and 2n free, modulo 2^32; live slabs are the issued handles less the successful frees. |
| Handles.AcceptedExactlyWhen | handle.go:99-152 | After every sequential run an issued handle is non-zero and is accepted by GetBytes and FreeHandle alike if and only if its slab is in use and has been allocated a multiple of 2^31 times since; otherwise both answer ErrStaleHandle, and no free reports a double deallocation. |
| Handles.StaleUntilWrap | handle.go:99-152 | After a successful FreeHandle the handle is answered with ErrStaleHandle through every continuation until its slab has been allocated 2^31 more times, and at exactly that many, in use, it is accepted again. |
| Handles.WrapIsReached | handle.go:99-152 | A run in which the first handle is freed at once and accepted again after 2^31 more allocations: the bound is tight. |
| Handles.EveryRunEven | handle.go:69-127 | After every run an odd stored generation belongs to a slab in use, and a free slab has an even one. |
| Handles.HandlesAreConserved | handle.go:69-127 | After every run live slabs are issued handles less successful frees. |
| HandleStatistics.StatisticsAreExactExactlyWhen | handle.go:69-95 | In every run the allocation statistic counts every issued handle, if and only if there is no breaker and at most one cache. |
| HandleStatistics.TwoCachesTakeSlowPath | handle.go:72-84 | With two caches a run exists in which the fast path finds nothing, the slow path another CPU's cached slab, and the handle is not counted. |
| HandleStatistics.BreakerTakesSlowPath | handle.go:72-84 | With a breaker a run exists in which the fast path is refused, the slow path is let through after the timeout, and the handle is not counted. |
| HandleObject.HandleAllocator.AllocateHandle | handle.go:69-95 | On the generations array and the allocator object, new state and handle are the specified ones. |
| HandleObject.HandleAllocator.FreeHandle | handle.go:99-127 | New state and error are the specified ones, for every handle. |
| HandleObject.HandleAllocator.GetBytes | handle.go:131-152 | ErrInvalidHandle exactly for a handle of another allocator or of no slab here, ErrStaleHandle exactly for one of these slabs with another generation, which is counted once; otherwise the bytes of the slab's window. Nothing else changes. |
| HandleObject.IssuedIsValid | handle.go:175-187 | After every run every issued handle is valid, with an odd generation and the slab it was issued for. |
| Interleaving.ActKeepsGood | slabby.go:1384-1451 | Whatever any thread does in one atomic step, and whatever number a shard yields, every ID in a pool or carried by a thread stays in 0..capacity-1, or the thread panics, and every cache counter and slot index stays within its bounds. |
| Interleaving.Run | slabby.go:575-687 | The same after every schedule of any number of threads. |
| Interleaving.EveryScheduleOwned | slabby.go:596-662 | After every schedule the claims and frees logged for each slab alternate and its flag tells whether the last was a claim. |
| Interleaving.NoTwoHolders | slabby.go:575-687 | In every interleaving, between two successful claims of a slab there is a successful free of it, every free ends a claim, and claims less frees is one or zero as the flag is set or clear. |
| LoneThread.AllocateAlone | slabby.go:500-647 | The interleaved steps are those of the sequential calls: for any CPUs and shard starts drawn, a thread that nobody interrupts gets from the start of Allocate or AllocateFast to the answer of the sequential claim, with the pools that claim leaves, logs it and counts it in the right counter of its CPU. |
| LoneThread.DeallocateFastAlone | slabby.go:652-687 | The same of DeallocateFast: a double free and an ID out of range are refused and change nothing; otherwise the flag, cache, stack and shards are those after the sequential release, logged and counted once. |
| InterleavedListing.NobodyPanics | slabby.go:2333-2347 | If every shard pop takes the newest entry, no thread panics. |
| InterleavedListing.StepKeeps | slabby.go:1384-1451 | A step that stores over no published cache slot and none another thread relies on, and pushes back only where there is room, keeps every free slab in a cache, the stack, a shard or a thread's hand. |
| InterleavedListing.HarmlessRun | slabby.go:1384-1451 | With caching off, one slab, or one thread, every free slab stays in a pool or in a thread's hand in every interleaving whose shard pops take the newest entry. |
| LostEntry.EntryIsLost | slabby.go:1391-1442 | In every configuration with caching, two slabs and two threads an interleaving exists, with every shard pop taking the newest entry, after which all threads are idle and a slab is free but in no cache, not on the stack and in no shard. |
| LostEntry.NeverLosesExactlyWhen | slabby.go:1384-1451 | No interleaving whose shard pops take the newest entry ever loses a free slab, if and only if caching is off, there is one slab, or there is at most one thread. |
| UncachedInterleaving.UncachedIsExact | slabby.go:530-682 | In every interleaving with caching off every free slab is in exactly one place, the stack, a shard or the hand of a thread, and a slab in use in none; so no claim fails, the stack never refuses, nothing is pushed to a shard after construction, and every shard pop takes the newest entry, given only that pops do so while nothing was pushed. |
| Interleaving.CountersAreConserved | slabby.go:1514-1538 | In every interleaving the slabs in use are the per-CPU allocations less deallocations, plus threads between claim and record, less threads between free and record; at quiescence the sum is exact. |
| InterleavedRefs.Run | slabby.go:818-886 | After every schedule, whatever the callers do, each reference object belongs to its newest issue and slab, and no position of a thread leaves its range. |
| InterleavedRefs.ReferencesAreSafe | slabby.go:818-886 | In every interleaving of Allocate, batches, Deallocate, AllocateFast and DeallocateFast whose callers respect references, no slab has two holders although Deallocate frees by a plain store, and every reference not yet passed to Deallocate is live and holds its slab by the claim it was issued for. |
| InterleavedRefs.StoreIsFine | slabby.go:866-867 | In such an interleaving the plain store always finds the flag set, and keeps the history of claims and frees alternating. |
| ReferenceRules.OnceIsSafe | slabby.go:818-886 | If every reference is passed to Deallocate at most once and every slab of AllocateFast to DeallocateFast at most once, then in every interleaving no slab has two holders, every reference not yet passed to Deallocate is live and holds its slab by its own claim, and no free is refused. |
| InterleavedRefs.DeallocateSparesOthersExactlyWhen | slabby.go:831-867 | Deallocate of a reference leaves every other live reference its slab if and only if the object was not issued again since, or that issue is deallocated already; otherwise it frees the slab of the newer reference. |
| InterleavedRefs.DeallocateFastSparesReferencesExactlyWhen | slabby.go:658-662 | DeallocateFast leaves every live reference its slab if and only if none holds the slab freed. |
| InterleavedRefs.DeallocateReturnsAsFast | slabby.go:853-881 | In such interleavings the plain store of Deallocate does to the slabs what the compare-and-swap of DeallocateFast does, and the ID is put back by the same steps. |
| InterleavedRefs.CountersAreConserved | slabby.go:1514-1538 | In every such interleaving the slabs in use are the allocations less the deallocations of all four per-CPU counters, up to threads between a claim or free and its record. |
| QuietRefs.UsedMeansHeld | slabby.go:818-886 | In every such interleaving, whenever no thread is inside Allocate, BatchAllocate or Deallocate, a slab in use was claimed by AllocateFast or is held through a live reference, never both, and every reference object is live or pooled: nothing is lost. |
| StaleReference.StaleReferenceFreesAnother | slabby.go:1796-1806 | In every configuration one thread can allocate, deallocate, allocate again and, with the first reference, free the slab of the second: the second release is not refused, because the object was issued again. |
| InterleavedHandles.MatchesExactlyWhen | handle.go:110-114 | A handle not yet invalidated always matches; one that matches is a multiple of 2^31 allocations old and its slab is held through a handle. |
| InterleavedHandles.HandlesAreSafe | handle.go:69-152 | In every interleaving with each handle freed at most once: no free fails; a handle not yet invalidated is accepted and its slab still held by that very claim; within 2^31 claims an invalidated handle is refused; a handle of a free slab is always refused. |
| InterleavedHandles.OddMeansInUse | handle.go:69-127 | In every interleaving an odd generation means the slab is in use, and a free slab has an even generation. |
| QuietHandles.UsedMeansHeld | handle.go:69-127 | In every interleaving, whenever no thread is inside a call, a slab is in use if and only if a handle issued for it was not freed, and that is its newest handle: no slab is lost between claim, generation and free. |
| QuietHandles.CallsEnd | handle.go:69-127 | In every interleaving FreeHandle of a handle presented once finds its generation and its DeallocateFast succeeds; AllocateHandle gives up only after both AllocateFast and Allocate found nothing, and otherwise issues a handle that unpacks to the slab they claimed and its stored generation. |
| LeakDetector.SamplesOneInRate | leak_detector.go:181-185 | Below 2^32 observed events exactly floor(events/rate) are sampled. |
| LeakDetector.SampleRateIsHonouredExactlyWhen | leak_detector.go:181-185 | That holds for ever if and only if the rate divides 2^32; any other rate samples one too many at the 2^32nd event. |
| LeakDetector.TrackedExactlyWhen | leak_detector.go:312-334 | A stack has a set if and only if one of its events was sampled. |
| LeakDetector.SetMeans | leak_detector.go:193-235 | A stack's counts are the allocations and deallocations sampled from it, and its net count is the leaky counter over them, so its best suffix excess. |
| LeakDetector.SeenMeans | leak_detector.go:193-235 | A stack's first time is that of its first sampled allocation, or none, and its last time that of its last sampled event. |
| LeakDetector.TotalsAreSums | leak_detector.go:202-236 | The totals are the sums over all sets, and the net counts add up to at least total allocations less total deallocations. |
| LeakDetector.RingReadsBack | leak_detector.go:240-247 | Going back i slots from the newest gives the ith newest change, or an empty slot, for any number of changes. |
| LeakDetector.WrappedIndex | leak_detector.go:392-396 | Reading back through the wrapping uint32 index is reading back through an unbounded one. |
| LeakDetector.RecentIsLastEight | leak_detector.go:392-405 | With a clock that never reads zero, what is read back is exactly the last min(n, 8) changes, newest first, also past 2^32. |
| LeakDetector.SortByCount | leak_detector.go:412-414 | Sorting by count descending permutes the leaks. |
| LeakDetector.FirstTenAreTop | leak_detector.go:412-420 | Cutting the sorted list keeps ten distinct leaks (all if fewer), none smaller than one left out. |
| LeakDetector.Detector.OnAllocate | leak_detector.go:176-205 | The object's counters stay those of the unbounded history with one more event, if successful and running. |
| LeakDetector.Detector.OnDeallocate | leak_detector.go:208-236 | The same for a deallocation. |
| LeakDetector.Detector.OnStateChange | leak_detector.go:240-247 | Ring and index stay those of the unbounded list of changes with one more. |
| LeakDetector.Detector.Scan | leak_detector.go:361-389 | Whatever the order of the scan, each qualifying stack is listed exactly once. |
| LeakDetector.Detector.QualifyingMeans | leak_detector.go:361-389 | A stack qualifies if and only if the best suffix excess of its sampled events is at least the threshold and its first sampled allocation is at least the age old or absent; its leak has that excess, its numbers of sampled allocations and deallocations, and its first and last times. |
| LeakDetector.Detector.ReadRing | leak_detector.go:392-405 | The loop returns the last eight changes, newest first, without those at time zero. |
| LeakDetector.Detector.CountersMean | leak_detector.go:181-236 | After any calls, below 2^32 observed events (for ever, if the rate divides 2^32) exactly one in rate is counted; the totals are the sums over the tracked stacks, which are those of sampled events; each net count is its stack's best suffix excess, and they add up to at least the net leaks. |
| LeakDetector.Detector.MakeReport | leak_detector.go:355-434 | The report holds the ten largest stacks that qualify in the sense of `QualifyingMeans`, the last eight changes, and totals that count one observed event in rate and whose difference is at most the sum of the net counts. |
| LeakDetector.Detector.Clear | leak_detector.go:500-514 | All histories start again; running is kept. |
| Mmap.AlignSizeIsExactExactlyWhen | mmap.go:235-240 | The rounded size is the least multiple of the page size that holds the size if and only if adding the page size less one does not overflow int64. |
| Mmap.UpToAPageIsOnePage | mmap.go:235-240 | Any size up to a page, also zero or negative, is rounded to one page. |
| Mmap.SubtractionIsExact | mmap.go:183 | Adding the two's complement subtracts, modulo 2^64, also for a negative size. |
| Mmap.TotalsAfterRelease | mmap.go:182-184 | The byte counter stays the exact sum of the tracked sizes modulo 2^64 and the region counter their number. |
| Mmap.AccountedAfterRelease | mmap.go:171-193 | Tracked and released mappings stay pairwise distinct. |
| Mmap.MmapAllocator.Allocate | mmap.go:130-164 | On success tracks the new address with its rounded size; the counters stay exact; a failure changes no region. |
| Mmap.MmapAllocator.Deallocate | mmap.go:167-194 | Forgets the region and releases that mapping, never released before, whatever munmap answers; an unknown address is refused without effect. |
| Mmap.MmapAllocator.Size | mmap.go:197-203 | For a tracked address, the least number of whole pages that holds the size asked for there, exactly when that rounding did not overflow; an error for any other address. |

## Left out

- Guard pages, the bit guard word and finalizers: off in the model; the layout arithmetic differs with guard pages on.
- Retry loops of compare-and-swap in the classes: sequentially they never repeat; `Interleaving` models them.
- Linked shard nodes and their pooling: sequences in the classes, any number at all in `Interleaving`, exact lists in `InterleavedListing`.
- Prefetching, debug stacks, logging: no effect on what is claimed.
- Reset in interleavings: it is not meant to run beside other calls.
- InterleavedRefs.ReferencesAreSafe: heap blocks are left out, and a batch may go on in any pool after each reference, which covers its three phases.
- Secure zeroing in interleavings: DeallocateFast clears the flag before the bytes, so the claim is made for sequential runs only.
- LoneThread.AllocateAlone: says that the run with the draws given exists, with shard pops that take the newest entry of the shard the search finds.
- InterleavedListing.HarmlessRun: an ID in the hand of a thread counts as found, since the thread is about to put it into a pool, claim it or drop it as taken.
- Health scores, trends, latency percentiles, observers and tickers: floating-point heuristics and goroutines.
- Per-CPU statistics other than allocations and deallocations, and the wrap-around of 64-bit event counters and of the int64 and int32 totals.
- The breaker's lastStateChange: written, never read.
- BatchDeallocate: a loop of Deallocate that collects errors.
- Close, timeouts and MustAllocate: thin wrappers over the modelled calls.
- Stack capture and hashing, suggested fixes, callbacks and JSON of the leak detector: a stack is a number passed in.
- Concurrent calls of the leak detector and of the mmap allocator.
- madvise and garbage collection hints of the mmap allocator, and the three operating-system files.
- Size classes, the slot arena, the hybrid allocator and the sharded handle allocator: tables and wrappers over the modelled core.
- Interleaving.ActKeepsGood: says nothing about which free slabs are listed, which is the subject of `InterleavedListing` and `LostEntry`.
- InterleavedHandles.HandlesAreSafe: GetBytes is its one load of the generation; the bytes read after it are not part of the interleaved model.
- LeakDetector.SortByCount: stands for the library sort, so the order of equal counts is not modelled.
