# A verified model of Asterinas kernel mechanisms

Asterinas is a kernel written in Rust. This project models a number of its self-contained
mechanisms in Dafny and proves what they promise, for all inputs, all runs or all reachable
states. `dafny verify dfyconfig.toml` verifies everything.

| file | what it models |
|---|---|
| `Options.dfy` | a value that may be missing |
| `Bits.dfy` | `&`, `\|`, `!`, `>>` on machine words, and what the kernel's masks mean in arithmetic |
| `RwLock.dfy` | the lock word that `RwLock` and `RwMutex` share, as atomic steps of any number of threads |
| `Mutex.dfy` | the sleep and wake protocol of `Mutex` over `WaitQueue`, and the queue itself |
| `PageTable.dfy` | the radix page table, for any number of levels, against the processor's walk |
| `FlatMemory.dfy` | areas and frames as one flat byte memory |
| `MemorySet.dfy` | `MemorySet`: areas, page table and byte access kept in agreement |
| `VmSpace.dfy` | `VmSpace`: one page to an area |
| `VmFrame.dfy` | reader and writer cursors, and byte access to a vector of frames |
| `VirtQueue.dfy` | the split virtqueue (section 2.6 of OASIS VIRTIO 1.1) |
| `FsResolver.dfy` | path lookup with symbolic links, and where `open` creates a file |
| `MemoryRegion.dfy` | alignment, carving of the boot memory map, and the frames given to the allocator |
| `Coeff.dfy`, `ClockSource.dfy` | fixed-point conversion of cycles, and instants over runs of updates and reads |
| `AtomicBits.dfy` | bit rows and the iterators that scan them by words |
| `Bus.dfy` | matching of devices and drivers, for the PCI and the MMIO bus |
| `Ktest.dfy` | the kernel test runner: module tree, iterator, whitelist, accounting, and the whole run |
| `TypeFlags.dfy` | type-level sets of rights and the lists generated for them |
| `Cpio.dfy` | the cpio "newc" decoder against an encoder, and on any bytes |

## What the proofs found

Most promises hold as they stand. For these, the code does not do what is promised on all
inputs; the model has an input that shows it, and the exact condition:

- `recycle_descriptors` overwrites the `next` field of the slot before the head. The free list
  and the chains survive if and only if that slot is not an interior link (`RecycleIff`). With
  two requests in flight it can be, and then the free list becomes a cycle (`TwoInFlight`). If
  the slot is inside the chain itself the loop does not end (`RecycleNeverEnds`), or panics when
  overflow is checked (`PopUsed`); safe pops lead there (`OwnInteriorIsReached`). With one
  request in flight at a time every pop of every run is safe (`OneAtATime`, `TransactAll`).
- `Coeff::new` finds a shift with the right multiplier if and only if shift 1 fits and no trial
  that overflows looks as if it fitted, which the arguments decide (`FoundIsRightIff`). On others
  it can turn everything into 0, after an overflow (`OverflowingSearch`) or without one
  (`FailingSearch`). A clock source never gets there (`ShiftOneFits`).
- `ClockSource` reports a maximum delay that passes the assertion in `Coeff`'s multiplication
  exactly when at least two seconds were asked for (`ReportedDelayMeetsAssertion`,
  `OneSecondClock`). Only the assertion fails: the product never overflows
  (`ReportedDelayIsSafe`).
- `non_overlapping_regions_from` gives regions that do not overlap exactly under a condition on
  the input (`CarvedOverlap`, `OverlapRemains`).
- An empty unusable region inside a usable frame splits the frame, which is then not given to
  the allocator although all its bytes are usable; every other usable frame is (`WholeFrameAdded`,
  `EmptyRegionSplits`).
- `VmSpace::unmap` stops at the first unmapped page, although its documentation allows gaps;
  it empties the range exactly when no mapped page follows an unmapped one (`Unmap`,
  `GapStaysMapped`).
- The user page table takes an address of 2^48 or more that has bit 47 clear for another one:
  an address that is not refused is on the page that is changed exactly when it is below 2^47
  (`OwnPageIff`, which has 2^48 as the input).
- `SetInclude` is inclusion of sets exactly when included flags are in place, which is so on
  all lists that are generated (`IncludeIsSubsetIff`, `IncludeIsSubset`), and not on others
  (`IncludeNeedsOrder`).
- `iter_ones` and `iter_zeroes` panic exactly on a row of no bits (`IterOnes`, `IterZeroes`,
  `EmptyRow`).
- `KtestModule::insert` counts every test twice in each module below the root (`DoubledBelow`);
  only the totals of crates are right (`AddKeepsCrateOk`, `TotalsAddUp`).

The lock word holds as long as its count of readers fits 61 bits, and only so long
(`RunKeepsInvIff`, `FullCountCarries`); fewer than 2^61 attempts and guards are enough for that
(`FewAgentsFit`).

The documentation of `run_ktests` says that a test is run if its path is the suffix of a listed
path. The code runs it if a listed path is a suffix of its path, and so does the model
(`ContainsIsEndsWith`, and `RulesDiffer` for an input).

## Model

| member | source | states |
|---|---|---|
| `RwLockWord.TryReadGrant` | framework/aster-frame/src/sync/rwlock.rs:319-331 | in any state that keeps the invariant, a read attempt is granted exactly when there is no writer, nobody is upgrading and fewer than 2^60 readers are counted; a refused one leaves one reader to take back |
| `RwLockWord.TryWriteGrant` | framework/aster-frame/src/sync/rwlock.rs:343-357 | a write attempt is granted exactly when nobody at all is counted in the word |
| `RwLockWord.TryUpreadGrant` | framework/aster-frame/src/sync/rwlock.rs:369-381 | an upread attempt is granted exactly when there is no upreader and no writer; against a writer it leaves a bit to take back, against an upreader it changes nothing |
| `RwLockWord.TryUpgradeGrant` | framework/aster-frame/src/sync/rwlock.rs:492-512 | an upgrade goes through exactly when the only one counted is the upreader that is being upgraded |
| `RwLockWord.StepKeepsInv` | framework/aster-frame/src/sync/rwlock.rs:319-527 | every atomic step of every thread keeps the word equal to the sum of what the threads' phases put into it, together with exclusion, if and only if it is not the reader that would be the 2^61st in the count |
| `RwLockWord.CountMayCarry` | framework/aster-frame/src/sync/rwlock.rs:104-108 | a reader that adds itself leaves a word whose parts still tell who is there if and only if the count stays below the being-upgraded bit |
| `RwLockWord.FullCountCarries` | framework/aster-frame/src/sync/rwlock.rs:98-108 | a state with a full count: one more reader sets the being-upgraded bit while nobody upgrades |
| `RwLockWord.RunKeepsInv` | framework/aster-frame/src/sync/rwlock.rs:319-527 | the invariant in every state of every interleaving of any number of threads in which the count fits its 61 bits |
| `RwLockWord.RunKeepsInvIff` | framework/aster-frame/src/sync/rwlock.rs:319-527 | the invariant holds throughout a run if and only if the count fits in every state of it |
| `RwLockWord.FewAgentsFit` | framework/aster-frame/src/sync/rwlock.rs:319-331 | with fewer than 2^61 attempts and guards in all, it fits in every run, whatever they do |
| `RwLockWord.InvExcludes` | framework/aster-frame/src/sync/rwlock.rs:410-460 | a write guard excludes every other guard, and of two guards one is always a plain reader |
| `RwLockWord.ReachableExcludes` | framework/aster-frame/src/sync/rwmutex.rs:148-184 | the same exclusion, and at most 2^60 read guards, in every reachable state; the sleeping lock has the same word |
| `RwLockWord.GuardedValueStands` | framework/aster-frame/src/sync/rwlock.rs:480-512 | over any stretch of a run in which a thread keeps a guard other than a write guard, upgrading included, nobody else can write and the protected value does not change |
| `RwLockWord.BeingUpgradedHasOwner` | framework/aster-frame/src/sync/rwlock.rs:480-488 | in every run the being-upgraded bit is set exactly while some thread is inside `upgrade` |
| `RwLockWord.DirectTryUpgradeFails` | framework/aster-frame/src/sync/rwlock.rs:492-512 | `try_upgrade` on a guard that is not inside `upgrade` never changes the word |
| `RwLockWord.TryUpgradeOutcome` | framework/aster-frame/src/sync/rwmutex.rs:289-303 | the compared value is in the word exactly when the caller is the one upgrading and no reader is left |
| `RwLockWord.StepLeadsTo` | framework/aster-frame/src/sync/rwlock.rs:423-512 | giving up a guard, or taking back a failed attempt, leaves the thread with nothing and takes exactly its share out of the word; `upgrade` announces itself and ends with the write guard; only a store changes the value, into the one stored, and no step moves another thread |
| `RwLockWord.ValueIsStoredLast` | framework/aster-frame/src/sync/rwlock.rs:449-453 | in every run the value is the one stored last, and the first one as long as nobody has stored |
| `RwLockWord.RwLock.constructor` | framework/aster-frame/src/sync/rwlock.rs:112-117 | a new lock is free and holds its value |
| `RwLockWord.RwLock.TryRead` | framework/aster-frame/src/sync/rwlock.rs:319-331 | the `fetch_add` of a read attempt is the model's step, and reports the grant |
| `RwLockWord.RwLock.SubReader` | framework/aster-frame/src/sync/rwlock.rs:423-427 | giving up a read guard, or taking back a failed attempt, is the model's step: the count is one less and the thread is left with nothing |
| `RwLockWord.RwLock.TryWrite` | framework/aster-frame/src/sync/rwlock.rs:343-357 | the compare-exchange of a write attempt is the model's step |
| `RwLockWord.RwLock.Write` | framework/aster-frame/src/sync/rwlock.rs:449-453 | storing through a write guard is the model's step: the value becomes the one stored, and nobody else holds a guard |
| `RwLockWord.RwLock.DropWriter` | framework/aster-frame/src/sync/rwlock.rs:455-459 | giving up a write guard is the model's step: exactly the writer bit is cleared and the thread is left with nothing |
| `RwLockWord.RwLock.TryUpread` | framework/aster-frame/src/sync/rwlock.rs:369-381 | the `fetch_or` of an upread attempt is the model's step, and says whether a bit must be taken back |
| `RwLockWord.RwLock.SubUpreader` | framework/aster-frame/src/sync/rwmutex.rs:314-321 | giving up an upread guard, taking back a failed attempt and the drop inside `try_upgrade` are the model's steps: exactly the upread bit is cleared, and only an upgraded thread is left with a guard, the write guard |
| `RwLockWord.RwLock.BeginUpgrade` | framework/aster-frame/src/sync/rwmutex.rs:276-284 | the `fetch_or` of `upgrade` is the model's step |
| `RwLockWord.RwLock.TryUpgrade` | framework/aster-frame/src/sync/rwlock.rs:492-512 | the compare-exchange of `try_upgrade` is the model's step |
| `SleepingMutex.StepKeepsInv` | framework/aster-frame/src/sync/wait.rs:57-117 | every step of `lock` and `unlock` keeps: at most one owner and the flag tells; the queue is exactly the waiters; a free lock with waiters has someone who will act |
| `SleepingMutex.TestingTheLock` | framework/aster-frame/src/sync/mutex.rs:35-51 | whoever tests a free lock takes it; a held one stays with its owner, and the queue and the flags stay as they are: `try_lock` then leaves no trace, and the tests of `lock` only move on to queueing and to sleeping |
| `SleepingMutex.StepTouches` | framework/aster-frame/src/sync/wait.rs:57-185 | a step moves only its own thread; a waiter joins at the front of the queue with its flag down and leaves without disturbing the order; waking flags exactly the front waiter; a thread lowers only its own flag; the lock is given up only by its release |
| `SleepingMutex.RunKeepsInv` | framework/aster-frame/src/sync/mutex.rs:30-55 | mutual exclusion and no lost wake-up in every reachable state of every interleaving |
| `SleepingMutex.NobodyLeftAsleep` | framework/aster-frame/src/sync/wait.rs:169-185 | if in a reachable state every thread is idle or asleep without a flag, then nobody is asleep, the queue is empty and the lock is free |
| `SleepingMutex.WaiterTakesLock` | framework/aster-frame/src/sync/wait.rs:90-109 | a queued thread that is flagged or about to test takes a free lock in at most three steps of its own |
| `SleepingMutex.FreeLockIsTaken` | framework/aster-frame/src/sync/wait.rs:90-117 | whenever the lock is free and threads wait, some queued thread gets it within four steps, none by an idle thread |
| `SleepingMutex.Mutex.constructor` | framework/aster-frame/src/sync/mutex.rs:19-25 | a new mutex is free with an empty queue |
| `SleepingMutex.Mutex.TryLock` | framework/aster-frame/src/sync/mutex.rs:35-51 | one compare-exchange, the model's step: it takes the lock exactly if it was free, and the lock is held afterwards |
| `SleepingMutex.Mutex.FirstTry` | framework/aster-frame/src/sync/wait.rs:57-63 | the test before queueing, the model's step: it takes the lock exactly if it was free |
| `SleepingMutex.Mutex.Enqueue` | framework/aster-frame/src/sync/wait.rs:65-66 | a new waiter of this thread, and no other, goes to the front of the queue with its flag down |
| `SleepingMutex.Mutex.Test` | framework/aster-frame/src/sync/wait.rs:90-99 | the test at the head of the loop, the model's step: it takes the lock exactly if it was free |
| `SleepingMutex.Mutex.PollFlag` | framework/aster-frame/src/sync/wait.rs:169-173 | a look at the thread's own flag, the model's step |
| `SleepingMutex.Mutex.ClearFlag` | framework/aster-frame/src/sync/wait.rs:174-176 | the thread's own flag, and no other, is lowered before the next test |
| `SleepingMutex.Mutex.Dequeue` | framework/aster-frame/src/sync/wait.rs:143-147 | the new owner leaves the queue, and the others keep their order |
| `SleepingMutex.Mutex.Release` | framework/aster-frame/src/sync/mutex.rs:53-55 | the lock is stored free before anyone is woken |
| `SleepingMutex.Mutex.WakeOne` | framework/aster-frame/src/sync/wait.rs:113-117 | the front waiter, and nobody else, is flagged, and it stays queued |
| `WaitQueues.Waiter.WakeUp` | framework/aster-frame/src/sync/wait.rs:178-185 | the flag is raised, and the sleeper is put back on the run queue exactly if it was down |
| `WaitQueues.WaitQueue.Enqueue` | framework/aster-frame/src/sync/wait.rs:135-141 | shared waiters go to the front and exclusive ones to the back, so all shared ones stay ahead |
| `WaitQueues.WaitQueue.Dequeue` | framework/aster-frame/src/sync/wait.rs:143-147 | exactly the given waiter is removed and the order of the others is kept |
| `WaitQueues.WaitQueue.WakeOne` | framework/aster-frame/src/sync/wait.rs:113-117 | the front waiter is flagged and nobody else |
| `WaitQueues.WaitQueue.WakeAll` | framework/aster-frame/src/sync/wait.rs:120-127 | every shared waiter and the first exclusive one are flagged, and nobody else |
| `PageTables.PageIndexIsDigit` | framework/aster-frame/src/vm/page_table.rs:76-83 | the index used at a level is the base-512 digit of the page number at that place, for any number of levels |
| `PageTables.DigitsInjective` | framework/aster-frame/src/vm/page_table.rs:303-343 | within the address width two pages have the same path exactly when they are the same page |
| `PageTables.TranslationIsLeaf` | framework/aster-frame/src/vm/page_table.rs:303-343 | the processor's walk from the root finds what the tree of tables says about the path of the address |
| `PageTables.AllowedIsLeaf` | framework/aster-frame/src/vm/page_table.rs:313-328 | the tables that are created take no right away: what the processor lets user code do, which every entry on the way must allow, is what the last-level entry says |
| `PageTables.LinkKeepsWf` | framework/aster-frame/src/vm/page_table.rs:313-328 | hanging a fresh zeroed frame below an absent entry keeps the tables a tree of distinct frames |
| `PageTables.LinkKeepsLeaf` | framework/aster-frame/src/vm/page_table.rs:313-328 | creating tables never changes a translation |
| `PageTables.LinkKeepsRoot` | framework/aster-frame/src/vm/page_table.rs:313-328 | creating tables leaves the root entries shared with the kernel as they are |
| `PageTables.WriteKeepsWf` | framework/aster-frame/src/vm/page_table.rs:277-296 | writing a last-level entry keeps the tables a tree of distinct frames |
| `PageTables.WriteChangesOneLeaf` | framework/aster-frame/src/vm/page_table.rs:277-296 | writing a last-level entry changes the translation of exactly its own path |
| `PageTables.WriteKeepsRoot` | framework/aster-frame/src/vm/page_table.rs:277-296 | writing a last-level entry leaves the root entries shared with the kernel as they are |
| `PageTables.WriteTranslates` | framework/aster-frame/src/vm/page_table.rs:277-296 | writing a last-level entry changes the processor's walk for exactly the addresses on its path |
| `PageTables.RootMappingKeepsLeaf` | framework/aster-frame/src/vm/page_table.rs:264-269 | filling a root slot that holds no table changes no translation outside that slot |
| `PageTables.KernelBitIsRootHalf` | framework/aster-frame/src/vm/page_table.rs:143-172 | bit 47 of an address is set exactly when its path starts in the upper half of the root table |
| `PageTables.KernelBitIsUpperHalf` | framework/aster-frame/src/arch/x86/mm/mod.rs:56-58 | the test of kernel addresses holds exactly in the upper half of every stretch of 2^48 addresses |
| `PageTables.PathWraps` | framework/aster-frame/src/vm/page_table.rs:311-327 | the walk resolves 48 bits: an address has the path of its remainder modulo 2^48 |
| `PageTables.OwnPageIff` | framework/aster-frame/src/vm/page_table.rs:143-172 | an address that passes the test is on the page that is changed for it exactly when it is below 2^47; 2^48 passes, and page 0 is changed |
| `PageTables.SamePathSamePage` | framework/aster-frame/src/vm/page_table.rs:303-343 | two addresses within the width share a path exactly when they are on one page |
| `PageTables.PageTable.constructor` | framework/aster-frame/src/vm/page_table.rs:133-141 | a new table translates nothing |
| `PageTables.PageTable.AddRootMapping` | framework/aster-frame/src/vm/page_table.rs:264-269 | exactly that root entry becomes the given one and counts as the kernel's; no other entry of any table, and no user translation, changes |
| `PageTables.PageTable.PageWalk` | framework/aster-frame/src/vm/page_table.rs:303-343 | the loop finds the last-level entry of the path; with `create` it fails only when frames run out, without it exactly when a table is missing; it takes one frame for each table that it makes, and no translation changes |
| `PageTables.PageTable.Seek` | framework/aster-frame/src/vm/page_table.rs:303-343 | with `create` the walk fails if and only if there are fewer free frames than tables missing on the path, and otherwise takes exactly that many; the entry found is what the address translates to |
| `PageTables.PageTable.DoMap` | framework/aster-frame/src/vm/page_table.rs:277-296 | refused exactly if the page is translated already, and a panic exactly if there are fewer free frames than tables missing on its path; otherwise exactly that page is mapped; the tables stay a tree of distinct owned frames, and the kernel's root entries stay |
| `PageTables.PageTable.DoUnmap` | framework/aster-frame/src/vm/page_table.rs:351-360 | a panic exactly when a table on the path is missing, refused exactly when the entry is all zero, and otherwise exactly that page loses its translation and its entry becomes zero; the kernel's root entries stay |
| `PageTables.PageTable.DoProtect` | framework/aster-frame/src/vm/page_table.rs:370-384 | possible exactly if the page is translated, and a panic exactly when a table on the path is missing; then its flags and no other translation change, and the old flags are returned; the kernel's root entries stay |
| `PageTables.PageTable.Map` | framework/aster-frame/src/vm/page_table.rs:143-156 | kernel addresses are refused exactly; for every other address exactly the user page it resolves to, which is its own below 2^47, gets the translation, and nothing changes when that fails; the kernel's root entries stay |
| `PageTables.PageTable.Unmap` | framework/aster-frame/src/vm/page_table.rs:158-164 | kernel addresses are refused exactly; for every other address exactly the user page it resolves to loses its translation, and nothing changes when that fails; the kernel's root entries stay |
| `PageTables.PageTable.Protect` | framework/aster-frame/src/vm/page_table.rs:166-172 | kernel addresses are refused exactly; for every other address exactly the user page it resolves to changes flags, possible exactly if it is translated; the kernel's root entries stay |
| `PageTables.PageTable.Resolves` | framework/aster-frame/src/vm/page_table.rs:303-343 | the walk for an address that is not refused is the walk for the one it resolves to |
| `PageTables.PageTable.AllowsByEntry` | framework/aster-frame/src/vm/page_table.rs:313-328 | what user code may do with a page is what its own entry says |
| `FlatMemory.NewArea` | framework/aster-frame/src/vm/memory_set.rs:51-80 | an area is made exactly if address and size are aligned and the frames are as many as the pages, and then maps page k to frame k |
| `FlatMemory.ReadData` | framework/aster-frame/src/vm/memory_set.rs:121-134 | the loop over slots returns the bytes of the range, across page boundaries |
| `FlatMemory.WriteData` | framework/aster-frame/src/vm/memory_set.rs:106-119 | the loop over slots changes exactly the bytes of the range, and no frame outside the area |
| `FlatMemory.AreaIsFlat` | framework/aster-frame/src/vm/memory_set.rs:212-259 | what an area holds is what the flat memory of all areas holds there |
| `FlatMemory.FlatNeedsArea` | framework/aster-frame/src/vm/memory_set.rs:238-259 | an address has a byte only if an area covers it |
| `FlatMemory.AreaWriteIsFlatWrite` | framework/aster-frame/src/vm/memory_set.rs:212-236 | a write inside one area is a write of that range to the flat memory and changes nothing else |
| `FlatMemory.ReadAfterWrite` | framework/aster-frame/src/vm/memory_set.rs:212-259 | a read of a range that was written gives the data back |
| `FlatMemory.TwinsSameFlat` | framework/aster-frame/src/vm/memory_set.rs:267-275 | copies of all areas make up the same flat memory |
| `FlatMemory.SeparateFramesSeparateMemory` | framework/aster-frame/src/vm/memory_set.rs:28-43 | writes that stay in one set of frames do not show through pages that use other frames |
| `MemorySets.MemorySet.constructor` | framework/aster-frame/src/vm/memory_set.rs:175-190 | a new memory set maps no user page, and its root holds exactly the kernel entries listed |
| `MemorySets.KernelLast` | framework/aster-frame/src/vm/memory_set.rs:175-190 | every listed root slot holds the entry listed last for it |
| `MemorySets.KernelListed` | framework/aster-frame/src/vm/memory_set.rs:175-190 | no other slot holds a kernel entry |
| `MemorySets.MemorySet.ReadBytes` | framework/aster-frame/src/vm/memory_set.rs:238-259 | Ok exactly when every byte of a non-empty range is mapped, and then those bytes; otherwise the longest mapped prefix was read |
| `MemorySets.MemorySet.WriteBytes` | framework/aster-frame/src/vm/memory_set.rs:212-236 | Ok exactly when every byte of a non-empty range is in a writable area; exactly the longest writable prefix of the flat memory changes, and only frames of this memory set |
| `MemorySets.WriteBesides` | framework/aster-frame/src/vm/memory_set.rs:212-236 | a write through one memory set does what `write_bytes` does there, changes no byte of the flat memory of another whose frames are separate, as a clone's are, and keeps both valid |
| `MemorySets.MemorySet.Map` | framework/aster-frame/src/vm/memory_set.rs:144-160 | the area is inserted in order, exactly its pages get its frames and flags, and it fails only if a page of it was mapped already, or still lacks a table when no frame is left |
| `MemorySets.MemorySet.Unmap` | framework/aster-frame/src/vm/memory_set.rs:192-201 | exactly the area with that start address goes, with exactly its pages; none of the inner `unwrap`s can fail |
| `MemorySets.MemorySet.Clear` | framework/aster-frame/src/vm/memory_set.rs:203-210 | no user page stays mapped; none of the inner `unwrap`s can fail |
| `MemorySets.MemorySet.Protect` | framework/aster-frame/src/vm/memory_set.rs:261-264 | for every address, succeeds exactly if it is no kernel address and resolves to a mapped page, and changes the flags of exactly that page in the page table; areas and table stay in agreement unless the flags are not present |
| `MemorySets.MemorySet.Clone` | framework/aster-frame/src/vm/memory_set.rs:267-275 | the copy has equal contents in frames of its own, disjoint from those of the original, whose memory is unchanged; it fails only if frames run out; its tables and data are in frames that were free, apart from all frames of the original, and its root holds the kernel entries listed |
| `MemorySets.CloneArea` | framework/aster-frame/src/vm/memory_set.rs:28-43 | every slot gets a fresh frame with the same bytes |
| `MemorySets.MapSlots` | framework/aster-frame/src/vm/memory_set.rs:149-152 | the loop over slots gives exactly the area's pages their frames and flags |
| `MemorySets.UnmapSlots` | framework/aster-frame/src/vm/memory_set.rs:194-196 | the loop over slots takes exactly the area's pages out of the page table |
| `MemorySets.AreaAdded` | framework/aster-frame/src/vm/memory_set.rs:144-160 | adding an area none of whose pages is mapped keeps areas disjoint, sorted and matched with the pages, each with its own frame |
| `MemorySets.AreaRemoved` | framework/aster-frame/src/vm/memory_set.rs:192-210 | removing an area keeps the same |
| `VmSpaces.VmSpace.constructor` | framework/aster-frame/src/vm/space.rs:35-39 | a new space maps nothing, and its root holds exactly the kernel entries listed |
| `VmSpaces.VmSpace.Map` | framework/aster-frame/src/vm/space.rs:56-80 | no address is InvalidArgs and changes nothing; otherwise it succeeds only on an aligned range that can be mapped afresh, and then exactly those pages get the frames with the flags of the permission: user code may write to them exactly if W was given and execute them exactly if X was, and its rights elsewhere stay; it panics only on a misaligned address, when a page lacks a table and no frame is left, or when the range is not free |
| `VmSpaces.VmSpace.Unmap` | framework/aster-frame/src/vm/space.rs:92-102 | exactly the run of mapped pages at the start of the range goes; the range is empty afterwards exactly when no mapped page comes after an unmapped one, although the documentation allows gaps |
| `VmSpaces.GapStaysMapped` | framework/aster-frame/src/vm/space.rs:83-102 | an input: of a range of two pages only the second is mapped; the run at the start is empty, and the page stays |
| `VmSpaces.VmSpace.Protect` | framework/aster-frame/src/vm/space.rs:115-127 | for every range, taken down to page boundaries and to the stretch of 2^48 addresses it resolves to: Ok exactly when all of it is mapped, and then exactly those pages change flags and keep their frames; user code may then write to them exactly if W was given and execute them exactly if X was, and its rights elsewhere stay |
| `VmSpaces.PermFlagsTell` | framework/aster-frame/src/vm/space.rs:252-264 | a page is writable exactly if W is given and not executable exactly if X is not; every page is present, for user mode and not huge; R and U make no difference |
| `VmSpaces.KeysArePages` | framework/aster-frame/src/vm/space.rs:69-76 | with one page to an area, the area keys are exactly the mapped pages |
| `VmSpaces.RunIsAll` | framework/aster-frame/src/vm/space.rs:88-102 | removing the first run of mapped pages empties a range exactly when there is no other run in it |
| `VmFrames.VmReader.Limit` | framework/aster-frame/src/vm/frame.rs:548-554 | at most the given number of bytes remains |
| `VmFrames.VmReader.Skip` | framework/aster-frame/src/vm/frame.rs:562-568 | that many fewer bytes remain |
| `VmFrames.VmReader.Read` | framework/aster-frame/src/vm/frame.rs:578-592 | as many bytes as both sides have are copied as they were before, even between overlapping ranges, and nothing else changes |
| `VmFrames.VmWriter.Limit` | framework/aster-frame/src/vm/frame.rs:658-664 | at most the given number of bytes is available |
| `VmFrames.VmWriter.Skip` | framework/aster-frame/src/vm/frame.rs:672-678 | that many fewer bytes are available |
| `VmFrames.ReadFrames` | framework/aster-frame/src/vm/frame.rs:113-129 | Ok exactly when the range fits, and then the buffer holds the bytes of the frames laid end to end |
| `VmFrames.WriteFrames` | framework/aster-frame/src/vm/frame.rs:131-147 | Ok exactly when the range fits, and then exactly that range of the frames changes |
| `VirtQueues.AddKeepsPartition` | services/comps/virtio/src/queue.rs:197-224 | after an add the free list and the chains still have every descriptor exactly once |
| `VirtQueues.AddKeepsLinks` | services/comps/virtio/src/queue.rs:197-224 | the descriptors taken are a chain that carries the request, readable before writable with NEXT on all but the last, and no other link changes |
| `VirtQueues.RecycleKeepsPartition` | services/comps/virtio/src/queue.rs:329-354 | after a recycle the free list and the chains have every descriptor exactly once |
| `VirtQueues.ExtraWriteIff` | services/comps/virtio/src/queue.rs:332-340 | the write to the slot before the head leaves all links as they were if and only if that slot is not an interior one of a chain or of the free list |
| `VirtQueues.RecycleIff` | services/comps/virtio/src/queue.rs:329-354 | recycling gives a well-linked queue with the chain ahead of the old free list if and only if that slot was not an interior one |
| `VirtQueues.RecycleNeverEnds` | services/comps/virtio/src/queue.rs:341-354 | if that slot is inside the chain being recycled, the loop goes round the first descriptors of the chain and never meets its end |
| `VirtQueues.DeviceSeesRequest` | services/comps/virtio/src/queue.rs:197-224 | a device that follows a chain in flight finds the request's buffers in order, readable before writable, and stops after them |
| `VirtQueues.OneInFlight` | services/comps/virtio/src/queue.rs:329-354 | a lone request in a new queue is recycled safely, which gives back the new queue |
| `VirtQueues.OneAtATime` | services/comps/virtio/src/queue.rs:181-381 | in every run in which each request is popped before the next one is made, every pop is safe and the queue is as new between requests |
| `VirtQueues.TwoInFlight` | services/comps/virtio/src/queue.rs:329-354 | the failing family: two one-buffer requests in flight, popped in order, in any queue of three or more descriptors; the second pop leaves a free list that goes from 1 to 0 and back |
| `VirtQueues.OwnInteriorIsReached` | services/comps/virtio/src/queue.rs:329-354 | a run of safe pops from a new queue of eight to a chain that has the slot before its head inside it |
| `VirtQueues.SlotOfWrapped` | services/comps/virtio/src/queue.rs:227-227 | the masked 16-bit index is the unwrapped index modulo the queue size |
| `VirtQueues.RingPush` | services/comps/virtio/src/queue.rs:227-243 | writing the next slot keeps every entry that is still live |
| `VirtQueues.WrapTells` | services/comps/virtio/src/queue.rs:317-319 | the wrapped indices are equal exactly when nothing is pending |
| `VirtQueues.NewQueue` | services/comps/virtio/src/queue.rs:65-176 | a queue is made exactly for a power of two of at most 128, or 256 if not legacy, with all descriptors free in order |
| `VirtQueues.VirtQueue.constructor` | services/comps/virtio/src/queue.rs:157-176 | descriptors are linked in order and nothing is in flight |
| `VirtQueues.VirtQueue.Add` | services/comps/virtio/src/queue.rs:181-247 | InvalidArgs and BufferTooSmall exactly when the request is empty or too long, and then nothing changes; otherwise the request takes the front of the free list and its head is published, across the wrap of the index |
| `VirtQueues.VirtQueue.Chain` | services/comps/virtio/src/queue.rs:197-225 | the descriptor half of an add |
| `VirtQueues.VirtQueue.Publish` | services/comps/virtio/src/queue.rs:227-245 | the head goes to the slot of the next index, and the shared index follows |
| `VirtQueues.VirtQueue.Recycle` | services/comps/virtio/src/queue.rs:329-354 | the chain goes in front of the free list and the count drops by its length; the queue stays well linked exactly when that is safe, and the count overflows exactly when the overwritten slot is inside the chain |
| `VirtQueues.VirtQueue.PopUsed` | services/comps/virtio/src/queue.rs:359-381 | NotReady exactly when nothing is pending; the overflow panic exactly when the overwritten slot is inside the chain; otherwise the elements come back in the order the device used them, and the queue stays valid exactly when the recycling was safe |
| `VirtQueues.VirtQueue.PopUsedWithToken` | services/comps/virtio/src/queue.rs:385-409 | the same for a given head; WrongToken exactly when another one is next, and then nothing changes |
| `VirtQueues.VirtQueue.AvailableDesc` | services/comps/virtio/src/queue.rs:322-324 | the count gives the number of free descriptors |
| `VirtQueues.VirtQueue.CanPop` | services/comps/virtio/src/queue.rs:317-319 | true exactly when something is pending, across the wrap of the indices |
| `VirtQueues.Transact` | services/comps/virtio/src/queue.rs:181-381 | one request, from submission through the device's answer to the pop: the pop gives back that request's head with the device's length, and the queue is valid and entirely free again |
| `VirtQueues.TransactAll` | services/comps/virtio/src/queue.rs:181-381 | the same over any number of requests: every pop gives back its own request, and the queue is valid throughout |
| `VirtQueues.VirtQueue.DeviceUses` | services/comps/virtio/src/queue.rs:359-381 | a device that uses a chain in flight it has not used before keeps the queue valid |
| `FsResolver.ChildAnswers` | services/libs/aster-std/src/fs/utils/dentry.rs:214-245 | a directory that may be searched answers every name of up to 255 characters itself, but for the two special names, and no longer one; anything else answers with ENOTDIR or EACCES |
| `FsResolver.WalkSplits` | services/libs/aster-std/src/fs/fs_resolver.rs:155-226 | resolving a path is resolving its front part as a directory and then the rest from there, with the same count of links |
| `FsResolver.WalkWithoutDir` | services/libs/aster-std/src/fs/fs_resolver.rs:215-222 | asking for a directory only turns a success into a failure |
| `FsResolver.NamesOfJoin` | services/libs/aster-std/src/fs/fs_resolver.rs:193-205 | joining two paths with a slash joins their components |
| `FsResolver.RewrittenMeans` | services/libs/aster-std/src/fs/fs_resolver.rs:188-214 | rewriting the remaining path at a symbolic link keeps its meaning, at the price of one follow |
| `FsResolver.PlainMeans` | services/libs/aster-std/src/fs/fs_resolver.rs:215-222 | going on past a component that is no link keeps the meaning |
| `FsResolver.LookupFromParent` | services/libs/aster-std/src/fs/fs_resolver.rs:155-226 | for every file system and path the loop computes the meaning of the path defined by recursion over components, errors included; it ends because the follows left, then the remaining length, decrease, and no step starts with a slash |
| `FsResolver.BaseMeans` | services/libs/aster-std/src/fs/fs_resolver.rs:383-388 | the base name of `split_path` is the last component, with a slash if the path ends with one, or a dot |
| `FsResolver.DirMeans` | services/libs/aster-std/src/fs/fs_resolver.rs:390-402 | the directory part of `split_path` has all components but the last, or is a dot or a slash |
| `FsResolver.LookupComposes` | services/libs/aster-std/src/fs/fs_resolver.rs:246-278 | a successful no-follow lookup of a path without a slash at the end is a lookup of the directory part and one step to the base name |
| `FsResolver.NewFsPath` | services/libs/aster-std/src/fs/fs_resolver.rs:334-361 | the path is kept, and it starts at the root if it starts with a slash, else at the descriptor if that is not negative, else at the working directory; it is refused with ENAMETOOLONG exactly if it is too long, and else with EBADF exactly if it is relative to an invalid descriptor |
| `FsResolver.Lookup` | services/libs/aster-std/src/fs/fs_resolver.rs:125-143 | every classified path has its meaning from the entry it starts at |
| `FsResolver.LookupDirAndBaseName` | services/libs/aster-std/src/fs/fs_resolver.rs:242-278 | without following a link at the end: the directory part is looked up with links followed and returned with the base name |
| `FsResolver.RelativeDir` | services/libs/aster-std/src/fs/fs_resolver.rs:161-161 | the directory part of a relative path is relative, so the assertion of the lookup holds |
| `FsResolver.DirAndBaseNameAgree` | services/libs/aster-std/src/fs/fs_resolver.rs:246-278 | the composition law for absolute, working-directory and descriptor-relative paths |
| `FsResolver.WalkMoreBudget` | services/libs/aster-std/src/fs/fs_resolver.rs:189-192 | a larger bound on links changes nothing about a lookup that did not reach a smaller one |
| `FsResolver.WalkDirMatters` | services/libs/aster-std/src/fs/fs_resolver.rs:215-222 | asking for a directory can only add the error that says so |
| `FsResolver.DirOfMissing` | services/libs/aster-std/src/fs/fs_resolver.rs:246-278 | if a path leads to nothing, then its directory part leads to nothing, or to a directory from which its last component leads to nothing |
| `FsResolver.WalkWithFile` | services/libs/aster-std/src/fs/fs_resolver.rs:155-226 | a new file does not change a lookup that got to its end without it |
| `FsResolver.OnlyToNew` | services/libs/aster-std/src/fs/fs_resolver.rs:155-226 | a lookup that gets to its end only because of a new entry ends at that entry |
| `FsResolver.PlaceIsRight` | services/libs/aster-std/src/fs/fs_resolver.rs:246-308 | a path that leads to nothing leads to a new entry if and only if that entry is at the place that the path names, and is a directory where a slash asks for one |
| `FsResolver.PlaceIsMissing` | services/libs/aster-std/src/fs/fs_resolver.rs:246-308 | there is nothing at that place |
| `FsResolver.ShortLinksFit` | services/libs/aster-std/src/fs/fs_resolver.rs:280-308 | no link is too long for the search if all are shorter than the longest path |
| `FsResolver.WalkToDir` | services/libs/aster-std/src/fs/fs_resolver.rs:215-222 | asking for a directory changes nothing where there is one |
| `FsResolver.BaseMissingMeans` | services/libs/aster-std/src/fs/fs_resolver.rs:246-278 | if the directory part leads to a directory without the base name, the path leads to nothing, and names that place |
| `FsResolver.FollowTail` | services/libs/aster-std/src/fs/fs_resolver.rs:280-308 | for a path that leads to nothing, the unbounded loop over links at its end terminates, and finds the place that the path names: the directory, the name that is not there and the slash behind it, or that there is none, or that a link is too long |
| `FsResolver.LookupForCreate` | services/libs/aster-std/src/fs/fs_resolver.rs:64-108 | the lookups of `open` with O_CREAT: an entry that is there is found and an error other than ENOENT is passed on; otherwise a file is created in a directory under a name if and only if the path would lead to a file there, EISDIR says that it would lead only to a directory there, and ENOENT that there is no such place; in particular a base name missing in the directory of the path is created there, or EISDIR if a slash follows; ENAMETOOLONG only if a link is too long |
| `Bits.PowerOfTwoTest` | framework/libs/align_ext/src/lib.rs:54-56 | the bit test recognises exactly the powers of two |
| `AlignExt.AlignUpIsLeast` | framework/libs/align_ext/src/lib.rs:59-62 | rounding up gives the multiple of the alignment in [x, x + align), and panics exactly on a bad alignment or on overflow |
| `AlignExt.AlignDownIsGreatest` | framework/libs/align_ext/src/lib.rs:65-68 | rounding down gives the multiple of the alignment in (x - align, x] |
| `MemoryRegions.TruncateCounts` | framework/aster-frame/src/boot/memory_region.rs:83-122 | truncation removes exactly the addresses of the other region |
| `MemoryRegions.NonOverlappingRegionsFrom` | framework/aster-frame/src/boot/memory_region.rs:129-166 | the nested loops compute the carving |
| `MemoryRegions.CarvingIsExact` | framework/aster-frame/src/boot/memory_region.rs:129-166 | at every address and for any set of types, unusable regions cover as often as before, and usable ones as often as before or, where an unusable one covers, not at all |
| `MemoryRegions.CarvedNonEmpty` | framework/aster-frame/src/boot/memory_region.rs:83-166 | the carving leaves no empty pieces |
| `MemoryRegions.CarvedOverlap` | framework/aster-frame/src/boot/memory_region.rs:125-128 | the documented claim that the result does not overlap, with its exact condition on the input |
| `MemoryRegions.OverlapRemains` | framework/aster-frame/src/boot/memory_region.rs:125-128 | an input for which the claim fails |
| `FrameAllocatorInit.FrameRange` | framework/aster-frame/src/vm/frame_allocator.rs:89-95 | exactly the frames that are wholly inside the region; a panic exactly when its base rounded up, or its end, does not fit in a word |
| `FrameAllocatorInit.Init` | framework/aster-frame/src/vm/frame_allocator.rs:85-104 | each frame is added once for every usable region that contains all of it |
| `FrameAllocatorInit.AddedFramesAreUsable` | framework/aster-frame/src/vm/frame_allocator.rs:85-104 | after carving, an added frame has no unusable byte, and it is added at most as often as usable input regions cover any byte of it |
| `FrameAllocatorInit.FramesAfterCarving` | framework/aster-frame/src/boot/memory_region.rs:129-166 | the carving loses and wins no frame: each is added as often as usable regions of the input contain it, and not at all if an unusable region cuts it |
| `FrameAllocatorInit.ContainingIsMembership` | framework/aster-frame/src/vm/frame_allocator.rs:85-104 | a frame is added exactly if a usable region contains all of it |
| `FrameAllocatorInit.WholeFrameAdded` | framework/aster-frame/src/boot/memory_region.rs:83-122 | a frame of a usable region that has no unusable byte is added if and only if no empty unusable region lies inside it |
| `FrameAllocatorInit.EmptyRegionSplits` | framework/aster-frame/src/boot/memory_region.rs:83-122 | an input: an empty reserved region inside a usable frame, which is then lost |
| `Coeffs.ShiftAcc` | services/libs/aster-util/src/coeff.rs:71-80 | the bits left for the multiplier are the most, up to 32, that keep the product below 2^64 |
| `Coeffs.Search` | services/libs/aster-util/src/coeff.rs:83-93 | the loop stops at the largest shift whose trial fits, or runs down to 0 |
| `Coeffs.New` | services/libs/aster-util/src/coeff.rs:70-99 | for all 64-bit arguments: the coefficient has the largest shift in 1..32 whose trial fits, or shift 0 and the trial of shift 1 cut to 32 bits |
| `Coeffs.TrialIsScaled` | services/libs/aster-util/src/coeff.rs:86-88 | a trial gives the rounded fraction exactly when it does not overflow 64 bits |
| `Coeffs.FoundIsRightIff` | services/libs/aster-util/src/coeff.rs:70-99 | in terms of the arguments alone: `Coeff::new` finds a shift with the right multiplier if and only if shift 1 fits and no trial that overflows looks as if it fitted; it finds no shift at all if and only if every trial is too large |
| `Coeffs.AccIsUnique` | services/libs/aster-util/src/coeff.rs:71-80 | the bits left for the multiplier are determined by the maximum |
| `Coeffs.FoundIsScaled` | services/libs/aster-util/src/coeff.rs:83-98 | the case in which no trial can overflow: a shift is found exactly when shift 1 fits, and then it is the largest that fits, with the right multiplier |
| `Coeffs.ApplyIsSafe` | services/libs/aster-util/src/coeff.rs:114-120 | up to the maximum multiplier the product stays below 2^64 |
| `Coeffs.ApplyIsAccurate` | services/libs/aster-util/src/coeff.rs:114-120 | the result is off from x * numerator / denominator by at most x / 2^(shift + 1) + 1 |
| `Coeffs.SearchCanFail` | services/libs/aster-util/src/coeff.rs:83-98 | for 2^31 over 1 no trial fits, and the last one cut to 32 bits is 0 |
| `Coeffs.FailingSearch` | services/libs/aster-util/src/coeff.rs:70-99 | so `Coeff::new` gives a coefficient that turns everything into 0 |
| `Coeffs.FirstTrialOverflows` | services/libs/aster-util/src/coeff.rs:85-91 | for 2^33 over 1 the first trial overflows to 0, which passes the test |
| `Coeffs.OverflowingSearch` | services/libs/aster-util/src/coeff.rs:70-99 | so again `Coeff::new` gives a coefficient that turns everything into 0 |
| `ClockSources.Plus` | services/comps/time/src/clocksource.rs:183-195 | adding a duration adds its nanoseconds, and the nanoseconds stay below 10^9 |
| `ClockSources.ApplyAdds` | services/comps/time/src/clocksource.rs:75-77 | two conversions together never exceed one conversion of the sum, and fall short of it by at most 1 |
| `ClockSources.LagIsAccurate` | services/comps/time/src/clocksource.rs:75-89 | what lags the conversion of x cycles by at most k is at most x / 2^(shift + 1) more, and at most x / 2^(shift + 1) + k + 1 less, than x * 10^9 / freq |
| `ClockSources.ShiftOneFits` | services/comps/time/src/clocksource.rs:62-65 | the search of the coefficient succeeds for every frequency and every delay below 600 seconds whose product is a 64-bit number |
| `ClockSources.AtLeastTwo` | services/comps/time/src/clocksource.rs:204-211 | the larger of two seconds and the delay asked for |
| `ClockSources.ReportedDelayMeetsAssertion` | services/comps/time/src/clocksource.rs:204-216 | for every clock, a gap of the delay it reports passes the assertion of the multiplication if and only if at least 2 seconds were asked for |
| `ClockSources.OneSecondClock` | services/comps/time/src/clocksource.rs:57-73 | an input: a clock of 2.4 GHz for which 1 second was asked for |
| `ClockSources.ReportedDelayIsSafe` | services/comps/time/src/clocksource.rs:75-77 | without that assertion nothing goes wrong: for every clock and every gap of up to the delay it reports, the product does not overflow |
| `ClockSources.ClockSource.constructor` | services/comps/time/src/clocksource.rs:57-73 | the coefficient is a found one, safe and accurate, whenever the delay is below 600 seconds and its product with the frequency is a 64-bit number; the delay reported is the larger of the one asked for and two seconds |
| `ClockSources.ClockSource.CalculateInstant` | services/comps/time/src/clocksource.rs:82-89 | for updates within the reported delay, the instant never leads the conversion of all cycles since the origin, and after k updates lags it by at most k |
| `ClockSources.ClockSource.ReadInstant` | services/comps/time/src/clocksource.rs:148-151 | instants never go back over any sequence of updates and reads; after k updates an instant is off from the true time since the origin by at most k + 1 nanoseconds and the rounding of the coefficient |
| `ClockSources.ClockSource.Update` | services/comps/time/src/clocksource.rs:138-143 | an update keeps the bounds with one more update counted |
| `ClockSources.ClockSource.Calibrate` | services/comps/time/src/clocksource.rs:132-135 | the recorded instant becomes zero at the given cycles |
| `AtomicBitRows.AtomicBits.constructor` | framework/aster-frame/src/sync/atomic_bits.rs:27-37 | all bits of the new row have the value |
| `AtomicBitRows.AtomicBits.Get` | framework/aster-frame/src/sync/atomic_bits.rs:45-52 | the mask test is the bit of the row |
| `AtomicBitRows.AtomicBits.Set` | framework/aster-frame/src/sync/atomic_bits.rs:55-66 | exactly the one bit of the row changes |
| `AtomicBitRows.IterOnes` | framework/aster-frame/src/sync/atomic_bits.rs:137-154 | an iterator that has given nothing yet, or a panic, exactly on a row of no bits |
| `AtomicBitRows.IterZeroes` | framework/aster-frame/src/sync/atomic_bits.rs:202-219 | the same for zeros |
| `AtomicBitRows.OnesIter.WordAt` | framework/aster-frame/src/sync/atomic_bits.rs:157-167 | the last word is read without its garbage bits |
| `AtomicBitRows.OnesIter.Next` | framework/aster-frame/src/sync/atomic_bits.rs:173-191 | the next one after those already given, with no one in between, or none if there are no more |
| `AtomicBitRows.ZeroesIter.WordAt` | framework/aster-frame/src/sync/atomic_bits.rs:222-232 | the last word is read with its garbage bits set |
| `AtomicBitRows.ZeroesIter.Next` | framework/aster-frame/src/sync/atomic_bits.rs:238-256 | the next zero after those already given, with no zero in between, or none if there are no more |
| `AtomicBitRows.CollectOnes` | framework/aster-frame/src/sync/atomic_bits.rs:137-191 | a whole iteration gives exactly the positions of the ones, on every row that has bits |
| `AtomicBitRows.CollectZeroes` | framework/aster-frame/src/sync/atomic_bits.rs:202-256 | a whole iteration gives exactly the positions of the zeros, on every row that has bits |
| `AtomicBitRows.EmptyRow` | framework/aster-frame/src/sync/atomic_bits.rs:27-37 | an input: a row of no bits, for which both iterators panic |
| `AtomicBitRows.PositionsAre` | framework/aster-frame/src/sync/atomic_bits.rs:170-191 | those positions are each once, ascending, and exactly the places with the value |
| `Buses.Bus.RegisterDriver` | framework/aster-frame/src/bus/pci/bus.rs:44-67 | the new driver probes every unclaimed device once, in order; what it accepts is claimed and the rest stays in order |
| `Buses.Bus.RegisterDevice` | framework/aster-frame/src/bus/mmio/bus.rs:63-82 | drivers probe in order until one accepts; the device goes to the earliest driver that accepts it, or stays unclaimed |
| `Buses.UnclaimedCount` | framework/aster-frame/src/bus/pci/bus.rs:44-89 | a device is unclaimed exactly when every registered driver rejects it |
| `Buses.OrderDoesNotMatter` | framework/aster-frame/src/bus/pci/bus.rs:44-89 | buses with the same drivers in order and the same devices in any order agree on what is claimed, by whom, and what is not |
| `Buses.DriverProbes` | framework/aster-frame/src/bus/pci/bus.rs:47-66 | no driver probes an arrival twice, and a driver probes a device exactly if no earlier driver accepts it |
| `Buses.DeviceProbes` | framework/aster-frame/src/bus/pci/bus.rs:72-88 | the same when a device arrives |
| `Buses.SplitKeepsAll` | framework/aster-frame/src/bus/pci/bus.rs:47-66 | no device is lost or doubled while a new driver probes |
| `Ktests.LessIff` | framework/libs/ktest/src/tree.rs:24-57 | children are ordered by name: by the first character in which two names differ, and a proper prefix comes first |
| `Ktests.InsertAddsOne` | framework/libs/ktest/src/tree.rs:44-59 | an insertion adds to the tests in the tree exactly the given one, and one to the total of the module it starts from |
| `Ktests.InsertKeepsOrder` | framework/libs/ktest/src/tree.rs:44-59 | children keep distinct names in ascending order at every level |
| `Ktests.InsertGoesToPath` | framework/libs/ktest/src/tree.rs:44-59 | the test is put at the end of those at its path, and all others stay where they are |
| `Ktests.InsertKeepsDoubled` | framework/libs/ktest/src/tree.rs:44-59 | every module below the one an insertion starts from keeps a total of twice the number of tests in it |
| `Ktests.DoubledBelow` | framework/libs/ktest/src/tree.rs:55-56 | so the total of every module below a root is twice the number of its tests |
| `Ktests.AddKeepsCrateOk` | framework/libs/ktest/src/tree.rs:111-120 | the root's total stays the number of tests below the root |
| `Ktests.KtestTree.AddKtest` | framework/libs/ktest/src/tree.rs:111-120 | exactly the list at the test's package and path grows, by the test, and so do the tests of the package; no other package changes, and the totals stay right, doubled below the roots |
| `Ktests.FromIter` | framework/libs/ktest/src/tree.rs:93-100 | every test is in the crate of its package, at its path, in the order given, and the crates have no others |
| `Ktests.TotalsAddUp` | framework/libs/ktest/src/tree.rs:111-128 | the totals of the crates add up to the number of tests |
| `Ktests.CrateIter.constructor` | framework/libs/ktest/src/tree.rs:166-172 | the iterator will give the modules below the root in preorder |
| `Ktests.CrateIter.Next` | framework/libs/ktest/src/tree.rs:174-194 | the explicit stack gives the next module of the preorder, or none at the end |
| `Ktests.TrieInsertIs` | framework/libs/ktest/src/path.rs:185-195 | an insertion adds exactly that path to the trie |
| `Ktests.Matches` | framework/libs/ktest/src/path.rs:198-212 | true exactly when the path is in the trie |
| `Ktests.Contains` | framework/libs/ktest/src/path.rs:215-232 | true exactly when some suffix of the path, not empty, is in the trie |
| `Ktests.FromPaths` | framework/libs/ktest/src/path.rs:177-183 | the trie has exactly the given paths |
| `Ktests.EndsWith` | framework/libs/ktest/src/path.rs:77-87 | true exactly when the other path is a suffix |
| `Ktests.ContainsIsEndsWith` | framework/libs/ktest/src/path.rs:215-232 | with a whitelist, a path is taken exactly when it ends with a listed path |
| `Ktests.SuffixBothWays` | framework/libs/ktest/src/runner.rs:27-29 | the rule of the code and that of its documentation both take a test for a listed path only if its path is the listed path |
| `Ktests.RulesDiffer` | framework/libs/ktest/src/runner.rs:27-29 | an input: `a::b` is run for the listed path `b`, which does not end with it |
| `Ktests.EveryTestCounts` | framework/libs/ktest/src/runner.rs:91-132 | passed, failed and filtered tests add up to all tests |
| `Ktests.RunCrate` | framework/libs/ktest/src/runner.rs:91-132 | the counts are those of the tests below the root, so the final assertion cannot fail |
| `Ktests.CrateVerdict` | framework/libs/ktest/src/runner.rs:70-132 | a crate has a failure exactly when a registered test of its package that is to be run fails |
| `Ktests.RunKtests` | framework/libs/ktest/src/runner.rs:37-68 | Ok exactly when every registered test that ends with a listed path, or every registered test without a list, passes; although the run stops after the first crate with a failure |
| `TypeFlags.ContainIsMember` | services/libs/typeflags-util/src/set.rs:42-53 | `SetContain` is membership |
| `TypeFlags.IncludeIsInPlace` | services/libs/typeflags-util/src/set.rs:62-90 | what `SetInclude` decides on all lists: the sublist is no longer, and each of its flags is in the other list at its own place or later |
| `TypeFlags.IncludeIsSubsetIff` | services/libs/typeflags-util/src/set.rs:62-90 | on all lists it implies inclusion of the sets, and it is inclusion if and only if included flags are in place in that sense |
| `TypeFlags.IncludeIsSubset` | services/libs/typeflags-util/src/set.rs:62-90 | canonical lists always are in place, so on them `SetInclude` is inclusion of sets |
| `TypeFlags.IncludeNeedsOrder` | services/libs/typeflags-util/src/set.rs:62-90 | lists for which it is not: another order, or a repeated flag |
| `TypeFlags.GenerateFlagSets` | services/libs/typeflags/src/flag_set.rs:144-168 | the nested loops make the set of every number below 2^n from its bits |
| `TypeFlags.TypeName` | services/libs/typeflags/src/flag_set.rs:33-47 | the last item becomes the head of the list |
| `TypeFlags.TypeNameIsCanonical` | services/libs/typeflags/src/flag_set.rs:33-47 | every generated list is canonical and stands for its set |
| `TypeFlags.EverySubsetOnce` | services/libs/typeflags/src/flag_set.rs:144-168 | every set of flags is generated, at one place only |
| `TypeFlags.ExtentOneType` | services/libs/typeflags/src/util.rs:121-129 | the first set that has the flag and all flags of the given set |
| `TypeFlags.FirstSupersetIsUnion` | services/libs/typeflags/src/util.rs:121-129 | among the generated sets the first superset is the union with the new flag |
| `TypeFlags.Extend` | services/libs/typeflags/src/util.rs:81-119 | the output set is the set with the flag, and the `unwrap` never fails |
| `Cpio.HexIff` | services/libs/cpio-decoder/src/lib.rs:360-365 | a string of digits stands for a number exactly when it is the number's digits, each in upper or lower case |
| `Cpio.ReadBack` | services/libs/cpio-decoder/src/lib.rs:360-365 | a number in eight hexadecimal digits reads back |
| `Cpio.PadIsMask` | services/libs/cpio-decoder/src/lib.rs:367-374 | the masking in `align_up` gives the padding to a multiple of four |
| `Cpio.MetadataReads` | services/libs/cpio-decoder/src/lib.rs:196-216 | the metadata of an encoded header reads back |
| `Cpio.HeadReads` | services/libs/cpio-decoder/src/lib.rs:108-141 | the head of an encoded entry reads back, and the reader is left at its data; of the trailer only the name counts |
| `Cpio.EntriesAreAligned` | services/libs/cpio-decoder/src/lib.rs:125-131 | every header of an archive is at a multiple of four |
| `Cpio.Decoder.ReadExact` | services/libs/cpio-decoder/src/lib.rs:330-331 | the next bytes, or BufferShortError if there are too few |
| `Cpio.Decoder.NewEntry` | services/libs/cpio-decoder/src/lib.rs:108-141 | for any bytes, the head that the format defines, with the source's errors, those of UTF-8 included, in the source's order |
| `Cpio.Decoder.Next` | services/libs/cpio-decoder/src/lib.rs:73-92 | an entry, None at the trailer and after an error, or an error |
| `Cpio.Decoder.ReadAll` | services/libs/cpio-decoder/src/lib.rs:154-172 | the loop over pieces returns the entry's data and skips its padding, or fails exactly when there is too little |
| `Cpio.ReadEntry` | services/libs/cpio-decoder/src/lib.rs:73-172 | one round of a driver on any bytes |
| `Cpio.MetadataIff` | services/libs/cpio-decoder/src/lib.rs:196-216 | the metadata that is read is exactly that which the numbers of the header stand for, whatever their spelling; of the mode only the low sixteen bits count |
| `Cpio.GotIff` | services/libs/cpio-decoder/src/lib.rs:73-172 | on any bytes, the driver gets an entry exactly when it is valid and the bytes are the entry up to the spelling of its numbers and the content of its padding |
| `Cpio.StopIff` | services/libs/cpio-decoder/src/lib.rs:80-85 | on any bytes, it stops exactly where a trailer is, whatever the numbers in its header but the size of the name |
| `Cpio.Decode` | services/libs/cpio-decoder/src/lib.rs:73-172 | on any bytes the driver ends, with the entries it has read one after the other from the start to a trailer, or with the error of the first position that has neither |
| `Cpio.ChainIsSpelled` | services/libs/cpio-decoder/src/lib.rs:73-172 | the entries of such a run are valid, and the bytes they were read from are their encoding up to spelling and padding, of the same length |
| `Cpio.ReadsAgain` | services/libs/cpio-decoder/src/lib.rs:73-172 | whatever a run of the driver over any bytes gives, its run over the encoding of that gives again |
| `Cpio.Normalise` | services/libs/cpio-decoder/src/lib.rs:73-172 | the driver on any bytes, and then on the encoding of what it has read, gives the same entries or the same error |
| `Cpio.DecodeAll` | services/libs/cpio-decoder/src/lib.rs:73-172 | for any valid entries laid out by the encoder, the driver gets exactly those entries back and stops at the trailer |

## Left out

- Memory orderings, interrupt and preemption guards: each atomic operation is one step.
- Timeouts in `WaitQueue`, and the run queue behind a wake-up: scheduling is arbitrary interleaving.
- Wake-ups of `RwMutex`: only its lock word is modelled.
- The bit layout of page table entries: an entry is a physical address with the flags present, writable, user, huge and no-execute. TLB flushes are not modelled.
- Huge pages on a user path: the tables of a `PageTable` never have them, since only `add_root_mapping` can bring in entries it did not make.
- PageTables.PageTable.AddRootMapping: only for a root slot that holds no table of this page table, which is how it is called.
- MemorySets.MemorySet.constructor: only for kernel root entries in the upper half of the root table, where the kernel's addresses are; the same holds for `Clone` and for VmSpaces.VmSpace.constructor.
- MemorySets.MemorySet.Map: only for fully populated areas of user addresses, which is what `MapArea::new` makes of them, present flags, and frames in no other use.
- MemorySets.MemorySet.Clone: only for areas whose flags say present, as all areas made by `VmSpace` do.
- VmSpaces.VmSpace.Map: only for ranges of user addresses and for frames in no other use; the alignment option, which the code does not read, is left out.
- The assertion in debug builds that both ends of the range of `VmSpace::protect` are aligned.
- Reference counts and the freeing of frames; `VmSegment`; `is_mapped`.
- Agreement of flags between areas and page table after `protect`: the code updates only the page table.
- Overflow of address sums such as `base + len` beyond the machine word, except where a member says so; where one does, it is the panic of checked builds.
- VirtQueues.VirtQueue.DeviceUses: only for a device that uses chains in flight, each once; a device that puts anything else on the used ring is not modelled.
- What the queue is like after the overflow panic in `recycle_descriptors`.
- `should_notify`, `notify`, DMA mappings and the fields of a buffer beyond address and length.
- Path lengths are in characters. Of `open`, the lookups are modelled, and not its flags, permissions and handles; of `Dentry`, the order of its checks; the file system does not change during a lookup.
- FsResolver.FollowTail: the loop has no bound of its own, so it is for paths that a lookup has found to lead to nothing, which is when `open` gets to it.
- The buddy allocator behind `add_frame`: it is the multiset of frames it was given.
- Arithmetic of `Coeff::new` is that of release builds; debug builds panic where the sum in a trial overflows, and assert a maximum below 2^40.
- ClockSources.ClockSource.constructor: only for delays below 600 seconds, which debug builds assert, and products with the frequency that are 64-bit numbers.
- Overflow of the seconds of an instant; reads that overlap an update.
- Changes to the bits while an iterator runs; the plain bit iterator.
- Probe errors other than a mismatch: the bus treats them all alike.
- The trees and tries of the test runner are updated as values, so the model does not have the mutable references of the source; splitting a path at `::` is left out, so paths are lists with at least one element.
- Running a test, and catching its panics: whether a test passes is a parameter.
- The tokens that the type flag macros print; flags are known by their place in the definition.
- `RecycleAllocator`, `SlotVec`, `FileTable`, the merging of block requests and the schedulers are not modelled.
- Process, signal and network code, device drivers and boot are not modelled.
