# A model of the ZXFoundation kernel core

This project models the parts of the ZXFoundation kernel (s390x) that hold the most state, and proves what they
promise. Each part keeps the form it has in the kernel: what is updated in place is a class with methods and loops,
and the queue between CPUs is a state machine of atomic steps. Nothing of the kernel is executed; the statements
are about the model, for all inputs, all states and all runs.

- `Dat*` — dynamic address translation: two-phase mapping with rollback, unmapping with pruning, walks, protection,
  range mapping as a transaction, and range unmapping. Addresses are page numbers.
- `Csd*` — the queue of function calls between CPUs, with leases, draining, completion and CPU hotplug. A step is
  one atomic access, memory is sequentially consistent, and any number of threads interleave.
- `Buddy*`, `Reservations` — the physical allocator of one zone of one node: free lists in page memory, splitting,
  coalescing by descriptors, and how boot fills it.
- `Vm*`, `Rmap*` — address spaces: region tree, gap search, split and join, unmap, protect, fixed and free mapping,
  the commit budget, anonymous and stack faults, page slots, the reverse map, and the memory contract.
- `SlotIndex`, `Cache*`, `PageCache` — the page cache: its two indices and the life cycle of slots between critical
  sections.
- `FreeList`, `Slub*` — the slab allocator: encoded free lists, CPU and node lists, both paths, teardown, and the
  interleaving of critical sections.
- `Cap` — the capability table with its derivations, generations and references, over object tables that come and go.
- `Sha256*` — the streaming hash against FIPS 180-4.
- `Arith`, `Common` — arithmetic and values that several parts share.

Where an operation may fail for reasons outside the model (memory, a lookup, a frame pin), a parameter or a
nondeterministic choice stands for the outcome, and the contracts say what each outcome leads to. `Valid` and `Inv`
name the invariant of each part.

## Findings

These properties do not hold of the code as it stands. For each there is a condition that is necessary and
sufficient, and a concrete case where the condition does not name one by itself.

| property | holds exactly if | shown by |
|---|---|---|
| enable_cpu keeps the lease count right | no lease on the CPU is held | `CsdSafety.EnableIsExact`, `CsdRuns.LeaseWhileEnabling`, `CsdRuns.EarlyEnableBreaksDisable` |
| the merge test of free_locked finds a free buddy | no block that is off the lists but looks free starts there with that order; pages in per-CPU caches are such blocks | `BuddyState.MergeTestExact`, `BuddyBoot.CachedBlockPassesTest` |
| boot puts every page into one block at most | no unreserved page lies in two usable regions | `BuddySeed.ApartExact`, `BuddySeed.PushedTwice` |
| boot leaves the free lists coalesced | no aligned block of usable pages crosses a border of usable regions | `BuddySeed.BootCoalesced`, `BuddySeed.BootLeavesBuddies` |
| align_resv covers the interval | rounding up does not wrap | `Reservations.AlignResvExact`, `Reservations.AlignWraps` |
| sha256_update ends | the input has less than 2^32 bytes | `Sha256.UpdateTerminates` |
| vm_find_gap returns a range that is free | something fits, or no gap ends below the size | `VmGap.FindGap`, `VmGap.WrapExample` |
| vm_map_fixed keeps regions apart | no region begins inside the range | `VmSpace.Space.MapFixed`, `VmSpace.FixedOverFixed` |
| an eviction leaves the page cache consistent | nobody but the cache has the frame pinned when the cache gives its pin back; otherwise the page is put back without a pin | `CacheSteps.EvictionExact`, `CacheSteps.RestoreBreaks`, `PageCache.ServesFreeFrame` |
| putting a page back keeps keys unique | the key has not been loaded again meanwhile | `CacheSteps.RestoreKeysExact`, `PageCache.LoadedWhileEvicting` |
| activate_slab loses no slab | the CPU has no slab at that moment; over runs, this holds at every activation | `SlubSteps.ActivateConserves`, `SlubInterleave.RunsConserveExactly`, `SlubRuns.TwoCallsLoseSlab` |
| free_slow reaches no trap | slabs hold more than one object, or the slab is on a CPU or keeps an object, or its node has few partial slabs | `Slub.Cache.FreeSlow`, `SlubRuns.OneObjectTraps` |
| an ended token is not accepted again | not (the number of deactivations of its slot since is a multiple of 65536, and the slot is active with the token's kind and rights) | `Cap.StaleUntilWrap`, `Cap.TokenComesBack` |
| unmap_range leaves no page of the range mapped | the range does not start inside a large leaf, or the pages that are skipped behind that leaf do not translate or go with the leaf at which it goes on, and so on from there | `DatUnmap.UnmapRange`, `DatUnmap.GoodStart`, `DatUnmap.SkipsPage` |

## Model

| member | source | states |
|---|---|---|
| DatSpace.Space.MapLeaf | arch/s390x/mmu/core.cxx:131-236 | For a 4 KiB, 1 MiB or 2 GiB leaf: on success exactly the translations through one entry change, from none to the new leaf; on every failure the table blocks are those that were there before, although tables may have been allocated on the way. It fails only if the allocator refused, a table lies outside the direct map, or the entry is in use, and with no blank table about "in use" means that some page below it translates |
| DatSpace.Space.constructor | arch/s390x/mmu/core.cxx:56-80 | An initialised root table is a well-formed tree that translates nothing |
| DatSpace.Space.Descend | arch/s390x/mmu/core.cxx:139-199 | Phase 1 reaches the table of the leaf or fails with the tables unchanged; tables made are blank and not yet reachable |
| DatSpace.Space.Link | arch/s390x/mmu/core.cxx:215-228 | Phase 2 hangs the tables made into the tree, top down, and every translation stays as it was |
| DatSpace.Space.Rollback | arch/s390x/mmu/core.cxx:111-118 | Freeing the allocation stack gives back exactly the tables made in phase 1 |
| DatSpace.Space.Walk | arch/s390x/mmu/core.cxx:323-358 | Answers with the frame of the page exactly if the page translates |
| DatSpace.Space.Protect | arch/s390x/mmu/core.cxx:360-411 | The leaf that maps the page keeps its frame and gets the new protection; no other translation changes |
| DatSpace.Space.Unmap | arch/s390x/mmu/core.cxx:260-321 | Whatever leaf maps the page goes, all translations through it and no others; tables that became blank go with it, so that a tree without blank tables stays one |
| DatGraft.TreeIsDetermined | arch/s390x/mmu/core.cxx:131-321 | Two trees that grew out of one tree, translate alike and hold no blank table are the same tree, block for block |
| DatRange.UnmapUndoesMap | arch/s390x/mmu/core.cxx:131-321 | Unmapping what a mapping installed restores the tables as they were |
| DatRange.MapThenUnmap | arch/s390x/mmu/core.cxx:131-321 | The same for the code: a mapping followed by its removal leaves every table block as it was and none over |
| DatRange.OnRollback | arch/s390x/mmu/core.cxx:716-729 | Unmapping from the start of the range to the cursor restores the tables of the start of the transaction, with leaves of any size in between |
| DatRange.MapRange | arch/s390x/mmu/core.cxxm:286-343 | All of the range is mapped or nothing has changed; a failure has one of three causes, and an overlap means that a page of the range was mapped before or that the range is longer than the tree can tell apart |
| DatRange.RangeTranslates | arch/s390x/mmu/core.cxxm:286-343 | After success every page of the range translates to its own frame with the protection asked for, and translated to nothing before |
| DatRange.RangeChangesNothingElse | arch/s390x/mmu/core.cxxm:286-343 | Only pages of the range translate differently |
| DatUnmap.UnmapRange | arch/s390x/mmu/core.cxxm:348-378 | Only leaves that hold a page of the range go. For a range within the reach of the tree, nothing of it translates afterwards if and only if Clears holds before: from a start inside a leaf, the pages skipped behind the leaf do not translate, or are in the leaf at which the loop goes on |
| DatUnmap.GoodStart | arch/s390x/mmu/core.cxxm:348-378 | A start is good for ranges of every length exactly if it is not inside a leaf, or the pages that would be skipped do not translate |
| DatUnmap.SkipsPage | arch/s390x/mmu/core.cxxm:348-378 | A leaf of 1 MiB at page 0 and a page behind it: unmapping pages 1 to 256 leaves a page mapped |
| CsdSafety.StepInv | zxfoundation/smp/csd.zcomponent/core.cxx:34-226 | Every atomic step of callers, drainers, waiters and hotplug threads, in any state, keeps queues, batches, leases, node life cycle, history and wake-ups consistent |
| CsdSafety.BootInv | zxfoundation/smp/csd.zcomponent/core.cxx:23-32 | A boot state is consistent |
| CsdSafety.RunsKeepInv | zxfoundation/smp/csd.zcomponent/core.cxx:34-226 | So is every state of every run of any number of threads in which no CPU is enabled while a lease on it is held |
| CsdSafety.DispatchIsFresh | zxfoundation/smp/csd.zcomponent/core.cxx:123-160 | A callback runs only for an accepted call, on the CPU it was for, and never twice |
| CsdSafety.OnlyRunDispatches | zxfoundation/smp/csd.zcomponent/core.cxx:123-160 | Nothing but running the callback counts as dispatch |
| CsdSafety.NothingLost | zxfoundation/smp/csd.zcomponent/core.cxx:54-160 | When nothing is in flight, the calls dispatched are exactly the calls accepted |
| CsdSafety.ZeroIsQuiet | zxfoundation/smp/csd.zcomponent/core.cxx:34-52 | A lease count of zero means that no call from another CPU is pending or running |
| CsdSafety.ClosedStays | zxfoundation/smp/csd.zcomponent/core.cxx:34-52 | A CPU that is disabled and drained stays so under every step but enabling it |
| CsdSafety.ClosedAcceptsNothing | zxfoundation/smp/csd.zcomponent/core.cxx:164-208 | Such a CPU accepts no call from another CPU |
| CsdSafety.DisabledIsQuiet | zxfoundation/smp/csd.zcomponent/core.cxx:210-222 | Over any run: once disable_cpu has ended, and until the CPU is enabled again, it is quiet and accepts only its own calls |
| CsdSafety.DisableCloses | zxfoundation/smp/csd.zcomponent/core.cxx:210-222 | disable_cpu from its first store to its return, with any run in between and any run after: if the CPU is not enabled meanwhile, it is closed and quiet on return and stays so |
| CsdSafety.EnableIsExact | zxfoundation/smp/csd.zcomponent/core.cxx:224-227 | Storing zero keeps the lease count right if and only if no lease is held |
| CsdRuns.LeaseWhileEnabling | zxfoundation/smp/csd.zcomponent/core.cxx:224-227 | A run from boot that reaches enable_cpu with a lease held; the store breaks the invariant there |
| CsdRuns.EarlyEnableBreaksDisable | zxfoundation/smp/csd.zcomponent/core.cxx:210-227 | From there disable_cpu returns although a remote call holds its lease |
| CsdSafety.WaitEndsAfterRun | zxfoundation/smp/csd.zcomponent/core.cxx:101-105 | A wait ends only after the callback has run, once, and when no queue, batch or drainer has the node any more |
| CsdSafety.NoTouchAfterDone | zxfoundation/smp/csd.zcomponent/core.cxx:123-160 | No drainer reads or writes a node whose completion was signalled |
| CsdSafety.NoLostWakeup | zxfoundation/smp/csd.zcomponent/core.cxx:164-208 | A queue that is not empty has an interrupt outstanding, or a thread about to send one or to drain it |
| CsdSafety.GuardsAreFree | zxfoundation/smp/csd.zcomponent/core.cxx:123-160 | Tests that the model makes and the code does not always succeed |
| Buddy.Zone.Push | zxfoundation/memory/pmm.zcomponent/core.cxx:54-62 | The block is on its free list and on no other; the links of all lists stay consistent |
| Buddy.Zone.Pop | zxfoundation/memory/pmm.zcomponent/core.cxx:66-75 | Takes a block exactly if the list has one |
| Buddy.Zone.Remove | zxfoundation/memory/pmm.zcomponent/core.cxx:78-87 | Takes that block out of the middle of its list and leaves the rest linked |
| BuddyTiling.CanonicalTiling | zxfoundation/memory/pmm.zcomponent/core.cxx:294-334 | Free blocks without mergeable buddies are determined by the pages they cover |
| BuddyState.BuddyTest | zxfoundation/memory/pmm.zcomponent/core.cxx:300-318 | The test on the descriptor of the buddy finds exactly a free buddy |
| BuddyState.MergeTestExact | zxfoundation/memory/pmm.zcomponent/core.cxx:300-318 | With blocks about that are off the lists but still look free, the test is right if and only if none of them starts at the buddy page with the order tested for |
| Buddy.Zone.AllocLocked | zxfoundation/memory/pmm.zcomponent/core.cxx:266-290 | A block of the order, or proof that no list of that order or above has any; free and used blocks still tile the zone, exactly its pages have gone, and the page count follows |
| Buddy.Zone.FreeLocked | zxfoundation/memory/pmm.zcomponent/core.cxx:294-334 | Exactly the pages of the block are free again, merged as far as buddies are free; free and used blocks still tile the zone and the page count follows |
| Buddy.Zone.Alloc | zxfoundation/memory/pmm.zcomponent/core.cxx:837-934 | Allocation with the stamp of its owner keeps the zone valid and never gives out a block in use |
| Buddy.Zone.Release | zxfoundation/memory/pmm.zcomponent/core.cxx:968-995 | Release of a block in use keeps the zone valid |
| Buddy.FreeIsDetermined | zxfoundation/memory/pmm.zcomponent/core.cxx:266-334 | Over any run: which blocks are free depends only on which blocks are in use |
| Buddy.AllocRelease | zxfoundation/memory/pmm.zcomponent/core.cxx:266-334 | Releasing what was just allocated leaves the free blocks exactly as they were |
| Reservations.AlignResvExact | zxfoundation/memory/pmm.zcomponent/core.cxx:474-479 | Exactly the pages that hold a byte of the interval are reserved, if and only if rounding up does not wrap at 64 bits |
| Reservations.AlignWraps | zxfoundation/memory/pmm.zcomponent/core.cxx:474-479 | An interval that ends one byte before 2^64 reserves nothing |
| Reservations.SortMerge | zxfoundation/memory/pmm.zcomponent/core.cxx:457-472 | Any ranges, also empty and inverted ones, end up sorted and apart in place, with the same pages |
| Reservations.SkipEnd | zxfoundation/memory/pmm.zcomponent/core.cxx:481-487 | The early exit of the scan is right: 0 exactly if no range holds the page |
| Reservations.NextStart | zxfoundation/memory/pmm.zcomponent/core.cxx:489-496 | The nearest start above the page |
| BuddySeed.SeedRun | zxfoundation/memory/pmm.zcomponent/core.cxx:622-648 | A run is covered once by aligned blocks none of which could have been larger |
| BuddySeed.Seed | zxfoundation/memory/pmm.zcomponent/core.cxx:602-651 | A reserved page gets into no block, any other page into as many blocks as there are usable regions that hold it |
| BuddySeed.ApartExact | zxfoundation/memory/pmm.zcomponent/core.cxx:602-651 | No page is in two blocks if and only if no unreserved page lies in two usable regions |
| BuddySeed.BootCoalesced | zxfoundation/memory/pmm.zcomponent/core.cxx:602-651 | The lists start fully coalesced if and only if no aligned block of usable pages lies across a border of two usable regions or an empty reservation |
| BuddySeed.BootLeavesBuddies | zxfoundation/memory/pmm.zcomponent/core.cxx:602-651 | With pages below 512 reserved and usable regions of pages 512 to 516 and 517 to 519, boot leaves the buddies 516 and 517 both free |
| BuddySeed.PushedTwice | zxfoundation/memory/pmm.zcomponent/core.cxx:602-651 | Two usable regions that overlap: page 516 gets into two blocks |
| BuddyBoot.Boot | zxfoundation/memory/pmm.zcomponent/core.cxx:602-651 | The zone is valid after boot with everything free; it manages exactly the usable pages, and its page count is their number |
| BuddyBoot.CachedBlockPassesTest | zxfoundation/memory/pmm.zcomponent/core.cxx:968-995 | From boot: of two pages allocated one is freed into a per-CPU cache; when the other is freed past the cache the merge test accepts the cached page, which is on no list |
| Sha256.Block | crypto/sha256.zcomponent/core.cxx:45-84 | One block is compressed as section 6.2.2 of FIPS 180-4 says |
| Sha256.Context.Update | crypto/sha256.zcomponent/core.cxx:109-159 | Accepts data exactly if the context is open and the bit count fits 64 bits, and then has absorbed the old message followed by the data, however both were cut |
| Sha256.Context.Final | crypto/sha256.zcomponent/core.cxx:165-210 | The digest is SHA-256 of everything fed in; a context that is final already is refused and stays valid |
| Sha256.HashPieces | crypto/sha256.zcomponent/core.cxx:109-210 | Cutting a message into pieces in any way does not change the digest |
| Sha256.UpdateTerminates | crypto/sha256.zcomponent/core.cxx:135-156 | The loop ends if and only if the input has less than 2^32 bytes |
| Sha256.LengthIsBigEndian | crypto/sha256.zcomponent/core.cxx:188-197 | The shifts of the bit count are its 64-bit big-endian form |
| Sha256Spec.PadUnique | crypto/sha256.zcomponent/core.cxx:172-197 | Padding of this form is unique, so zeros may be counted in any way |
| Sha256Spec.PadInjective | crypto/sha256.zcomponent/core.cxx:172-197 | Different messages of less than 2^64 bits have different padded messages |
| Cap.Table.Issue | zxfoundation/dgp/cap.zcomponent/core.cxx:106-145 | Succeeds exactly if the lookup finds an active object with references and a slot is free; the token names a fresh activation and the object has one reference more |
| Cap.Table.Validate | zxfoundation/dgp/cap.zcomponent/core.cxx:147-168 | Accepts exactly a token of the current activation of its slot with the rights needed, on a live object of the same generation; the rights needed were granted |
| Cap.Table.CapIssue | zxfoundation/dgp/cap.zcomponent/core.cxx:173-178 | A root grant, for the object looked up |
| Cap.Table.Derive | zxfoundation/dgp/cap.zcomponent/core.cxx:180-223 | Succeeds exactly for a good source of the right domain with the rights asked for, with delegation if the owner changes, and if the target is still found; the new capability names the same object |
| Cap.ChainIsMonotone | zxfoundation/dgp/cap.zcomponent/core.cxx:180-223 | Over any chain of derivations rights only shrink, a change of owner needs delegation at every link, and the object stays the same |
| Cap.LookupAgain | zxfoundation/dgp/cap.zcomponent/core.cxx:180-223 | Looking a target up again by 16 bits of its id finds the target or nothing, if and only if the id has no other bits; no object table is larger than 8192 |
| Cap.Table.Create | zxfoundation/scoms/table.cxxm:140-200 | An object is born at a place that no object has, in use or retired |
| Cap.Table.Retire | zxfoundation/scoms/table.cxxm:324-359 | A released object is no longer found, but keeps its place while it has references |
| Cap.Table.Reclaim | zxfoundation/scoms/table.cxxm:62-73 | Without references it is gone, and no capability is left on it |
| Cap.Table.Release | zxfoundation/dgp/cap.zcomponent/core.cxx:225-246 | Ends exactly the activation the token names |
| Cap.StaleUntilWrap | zxfoundation/dgp/cap.zcomponent/core.cxx:92-104 | Whatever happened since, a token whose activation has ended is accepted again if and only if a whole number of 65536 generations later the slot is active with the same kind and rights |
| Cap.TokenComesBack | zxfoundation/dgp/cap.zcomponent/core.cxx:106-145 | A run of 65536 grants and releases after which a token that was released is accepted again |
| Cap.Table.RevokeForDomain | zxfoundation/dgp/cap.zcomponent/core.cxx:315-336 | Ends exactly the activations that the domain owns or that name it, and counts them |
| Cap.Table.RevokeTarget | zxfoundation/dgp/cap.zcomponent/core.cxx:339-354 | Ends exactly the activations on the object and gives back one reference for each |
| VmTree.Find | zxfoundation/memory/vm.zcomponent/core.cxx:144-156 | Finds the region that holds an address, exactly if there is one |
| VmTree.PlanInsert | zxfoundation/memory/vm.zcomponent/core.cxx:70-96 | Refuses exactly if another region holds the start; otherwise the place keeps starts in order |
| VmTree.InsertIsApartExactly | zxfoundation/memory/vm.zcomponent/core.cxx:70-113 | Insertion by the start alone keeps regions apart if and only if none begins inside the new one |
| VmGap.FindGap | zxfoundation/memory/vm.zcomponent/core.cxx:952-999 | If anything fits the highest fit is returned; failure is right, and success is right unless some gap ends below the size asked for |
| VmGap.WrapExample | zxfoundation/memory/vm.zcomponent/core.cxx:952-999 | A map with such a gap, where nothing fits |
| VmPages.ReserveCapacity | zxfoundation/memory/vm.zcomponent/types.cxx:13-32 | Grows by doubling, keeps the slots in use, and fails only for want of memory or beyond 32 bits |
| VmPages.ReservePage | zxfoundation/memory/vm.zcomponent/types.cxx:34-52 | A slot for the page, with all pages where they were |
| VmPages.ReleasePage | zxfoundation/memory/vm.zcomponent/types.cxx:54-66 | Exactly that page goes |
| VmMove.MoveSlot | zxfoundation/memory/vm.zcomponent/core.cxx:613-654 | One page moves between regions with its reverse-map link; the fatal checks cannot fire |
| VmMove.MoveUpper | zxfoundation/memory/vm.zcomponent/core.cxx:1170-1203 | Exactly the pages from the split on move up, counted as they go |
| VmMove.MoveBack | zxfoundation/memory/vm.zcomponent/core.cxx:613-654 | All pages come back |
| VmContract.AuthorizeExact | zxfoundation/dgp/memory_contract.zcomponent/core.cxx:34-151 | A mapping request is granted if and only if the range is sound and does not wrap, no page is writable and executable, and frame and key are in order; its scope never matters |
| VmRegion.SplitShows | zxfoundation/memory/vm.zcomponent/core.cxx:1077-1223 | Every address of a region shows the same frame, page and attributes after a split |
| VmRegion.JoinInverts | zxfoundation/memory/vm.zcomponent/core.cxx:613-654 | Joining puts bounds and counters back exactly |
| VmRegion.SecondPassGrants | zxfoundation/memory/vm.zcomponent/core.cxx:1738-1906 | What was granted for a part of a region is granted for the region cut out of it |
| VmState.SplitKeeps | zxfoundation/memory/vm.zcomponent/core.cxx:1077-1223 | A split keeps order, links, totals and what every address shows |
| VmSpace.Space.constructor | zxfoundation/memory/vm.zcomponent/core.cxx:672-688 | An empty space is valid |
| VmSpace.Space.Split | zxfoundation/memory/vm.zcomponent/core.cxx:1077-1223 | Granted exactly for an aligned address inside the region with room and memory for one more; then every address shows the same, otherwise nothing has changed |
| VmSpace.Space.JoinSplit | zxfoundation/memory/vm.zcomponent/core.cxx:613-654 | Undoes a split: same region, same pages, one region less |
| VmSpace.Space.Carve | zxfoundation/memory/vm.zcomponent/core.cxx:1673-1692 | Afterwards no region reaches across either end of the range; a failure of the second split undoes the first; what is visible never changes |
| VmSpace.Space.Unmap | zxfoundation/memory/vm.zcomponent/core.cxx:1613-1736 | Exactly the addresses of the range go, or nothing changes; refused for its arguments or authority, and otherwise only for want of memory; the fatal check of the second pass cannot fire |
| VmSpace.Space.Map | zxfoundation/memory/vm.zcomponent/core.cxx:1227-1298 | Granted if and only if some range is free, the request is sound and resources are there; it is placed in the highest free range |
| VmSpace.Space.MapFixed | zxfoundation/memory/vm.zcomponent/core.cxx:1301-1412 | Granted exactly under the conditions listed; regions stay apart, and the space valid, if and only if none begins inside the range |
| VmSpace.FixedOverFixed | zxfoundation/memory/vm.zcomponent/core.cxx:1301-1412 | Two mappings that end up overlapping |
| VmSpace.Space.Charge | zxfoundation/memory/vm.zcomponent/core.cxx:704-711 | Charges exactly if the limit allows it |
| VmSpace.Space.Uncharge | zxfoundation/memory/vm.zcomponent/core.cxx:714-722 | What was charged can be returned; the fatal check cannot fire |
| VmSpace.Space.SetLimit | zxfoundation/memory/vm.zcomponent/core.cxx:690-700 | A limit below what is committed is refused |
| VmProtect.Protect | zxfoundation/memory/vm.zcomponent/core.cxx:1739-1906 | Exactly the addresses of the range show the new protection, or nothing changes; not found, refused or out of memory exactly as stated; the fatal check of the second pass cannot fire |
| VmFault.Install | zxfoundation/memory/vm.zcomponent/fault.cxx:368-411 | A page gets its slot, link, metadata and counters, or all of it is undone |
| VmFault.AnonymousFault | zxfoundation/memory/vm.zcomponent/fault.cxx:329-413 | Resolved: the page is mapped, linked, pinned and counted once. Killed exactly if the translation cannot be entered. Otherwise frame, pin, translation, slots, links and counters are as they were |
| VmStack.Rekey | zxfoundation/memory/vm.zcomponent/core.cxx:935-945 | Moving the start of a region keeps its place in address order; it cannot fail when the way is clear |
| VmStack.StackFault | zxfoundation/memory/vm.zcomponent/fault.cxx:86-211 | A stack grows by the page below it exactly if that page is the one faulted on or below it down to the page boundary, is free, and everything needed can be had; otherwise all is as it was |
| Rmap.ReverseMap.Insert | zxfoundation/memory/rmap.zcomponent/core.cxx:115-148 | Adds exactly that link, exactly for frames in range and with memory |
| Rmap.ReverseMap.Remove | zxfoundation/memory/rmap.zcomponent/core.cxx:151-168 | Removes exactly that link |
| Rmap.ReverseMap.Rebind | zxfoundation/memory/rmap.zcomponent/core.cxx:172-191 | Moves a link; fails exactly if it is missing |
| RmapPeers.Peers.InvalidatePeers | zxfoundation/memory/rmap.zcomponent/core.cxx:216-282 | Fails exactly if some link belongs to another space or has a pin that cannot be returned. In either case exactly the peers whose links have gone have lost their pages, and one pin has been returned for each of them that held one; on success these are all the peers, and they are counted. The frame is reported freed once exactly if its last pin went, which cannot be while the caller's own page is linked |
| RmapPeers.SweepKeepsExact | zxfoundation/memory/rmap.zcomponent/core.cxx:237-282 | Regions of the space that were linked exactly still are |
| SlotIndex.Index.Link | zxfoundation/memory/page_cache.zcomponent/core.cxx:136-140 | The slot is in exactly that bucket |
| SlotIndex.Index.Unlink | zxfoundation/memory/page_cache.zcomponent/core.cxx:142-155 | The slot is in no bucket; the trap at the end of the chain cannot fire |
| PageCache.Cache.constructor | zxfoundation/memory/page_cache.zcomponent/core.cxx:71-106 | All slots are free |
| PageCache.Cache.FindKey | zxfoundation/memory/page_cache.zcomponent/core.cxx:108-121 | Agrees with a scan of all slots |
| PageCache.Cache.FindPhys | zxfoundation/memory/page_cache.zcomponent/core.cxx:123-134 | Likewise |
| PageCache.Cache.Acquire | zxfoundation/memory/page_cache.zcomponent/core.cxx:315-354 | A hit exactly if the key is cached; otherwise a slot reserved for it, an idle page to evict, or proof that there is neither |
| PageCache.Cache.FinishLoad | zxfoundation/memory/page_cache.zcomponent/core.cxx:412-427 | The slot still is the loader's; it becomes ready, mapped and pinned once, or ready and unmapped |
| PageCache.Cache.AcquireMapping | zxfoundation/memory/page_cache.zcomponent/core.cxx:225-250 | Succeeds exactly for a ready page with the same key, or a new one if it is unmapped; one pin more |
| PageCache.Cache.Release | zxfoundation/memory/page_cache.zcomponent/core.cxx:442-464 | Succeeds exactly for live bindings, and gives exactly one pin back |
| PageCache.Cache.Duplicate | zxfoundation/memory/page_cache.zcomponent/core.cxx:467-485 | A second binding exactly under the conditions of a first one |
| PageCache.Cache.MarkDirty | zxfoundation/memory/page_cache.zcomponent/core.cxx:488-506 | Marks exactly a ready page of that generation |
| PageCache.Cache.EvictStart | zxfoundation/memory/page_cache.zcomponent/core.cxx:576-599 | Decides exactly between nothing to do, clean, and a write-back that is begun |
| PageCache.Cache.WriteEnd | zxfoundation/memory/page_cache.zcomponent/core.cxx:601-620 | The slot still is the writer's; a page is clean afterwards exactly if it was saved |
| PageCache.Cache.BeginEvict | zxfoundation/memory/page_cache.zcomponent/core.cxx:622-628 | Takes a page out exactly if it is idle and clean; what it takes out is saved, mapped by nobody, and in neither index |
| PageCache.Cache.ReleasePin | zxfoundation/memory/page_cache.zcomponent/core.cxx:630-635 | The pin of the cache is gone; the frame is freed exactly if nobody else has it pinned |
| PageCache.Cache.Restore | zxfoundation/memory/page_cache.zcomponent/core.cxx:266-273 | The page is served again, the cache is never valid afterwards, and its keys differ exactly if the page has not been loaded again |
| PageCache.Cache.PinBy | zxfoundation/dgp/portal.zcomponent/core.cxx:108-131 | Others may pin the frame of a mapped page at any time |
| PageCache.Cache.EvictEnd | zxfoundation/memory/page_cache.zcomponent/core.cxx:636-644 | The slot is free under its next generation |
| PageCache.StaleBinding | zxfoundation/memory/page_cache.zcomponent/core.cxx:57-69 | A binding is dead once its slot has been reset, until the generations have gone round |
| CacheState.GenerationsDiffer | zxfoundation/memory/page_cache.zcomponent/core.cxx:57-60 | A generation comes back exactly after a whole number of cycles |
| CacheSteps.EvictionExact | zxfoundation/memory/page_cache.zcomponent/core.cxx:622-645 | Whatever happens between the release of the pin and the last critical section, an eviction keeps the invariant if and only if nobody but the cache had the frame pinned |
| CacheSteps.RestoreBreaks | zxfoundation/memory/page_cache.zcomponent/core.cxx:266-273 | A page put back is in a frame that only the pins of others keep, or that another slot has been given |
| CacheSteps.RestoreKeysExact | zxfoundation/memory/page_cache.zcomponent/core.cxx:266-273 | Keys differ afterwards if and only if the key has not been loaded again |
| PageCache.ServesFreeFrame | zxfoundation/memory/page_cache.zcomponent/core.cxx:622-645 | A run in which a portal pins a page, the page is evicted and put back, and the portal goes: the frame is free and the cache serves the page from it |
| PageCache.LoadedWhileEvicting | zxfoundation/memory/page_cache.zcomponent/core.cxx:622-645 | A run that ends with two slots for one key |
| FreeList.DecodeEncode | zxfoundation/memory/slub.zcomponent/core.cxx:42-64 | Encoding of free-list links is undone by decoding |
| FreeList.SpliceLists | zxfoundation/memory/slub.zcomponent/core.cxx:239-251 | Linking the tail of one list to the head of another concatenates them |
| SlubState.InvConserves | zxfoundation/memory/slub.zcomponent/core.cxx:143-412 | In every consistent state every slab can be found again, and every object is with a user, on its slab's list or on that of the CPU with the slab |
| Slub.Cache.AllocFast | zxfoundation/memory/slub.zcomponent/core.cxx:629-646 | What is given out was with no user |
| Slub.Cache.Retire | zxfoundation/memory/slub.zcomponent/core.cxx:239-257 | No object changes hands; the slab is listed exactly if it is not full |
| Slub.Cache.NewSlab | zxfoundation/memory/slub.zcomponent/core.cxx:143-194 | All objects of the slab are on its list, once |
| Slub.Cache.FromNode | zxfoundation/memory/slub.zcomponent/core.cxx:309-365 | The first slab of a node is taken over and further ones parked; one object is given out |
| Slub.Cache.Alloc | zxfoundation/memory/slub.zcomponent/core.cxx:262-388 | One object that was with no user is given out, and no other changes hands; nothing is given out only if CPU, CPU list and all nodes visited are empty and there is no memory |
| Slub.Cache.Free | zxfoundation/memory/slub.zcomponent/core.cxx:659-686 | Exactly that object is with no user any more, or the trap is reached, exactly under the condition of FreeSlow |
| Slub.Cache.FreeSlow | zxfoundation/memory/slub.zcomponent/core.cxx:390-412 | For any number of objects in a slab: traps if and only if a slab holds one object, the slab is on no CPU, and its node has more partial slabs than allowed; an emptied slab goes back exactly if its node has enough |
| SlubSteps.EmptyIsListed | zxfoundation/memory/slub.zcomponent/core.cxx:390-412 | When its last object comes back, a slab with no CPU is listed exactly if slabs hold more than one object |
| SlubRuns.OneObjectTraps | zxfoundation/memory/slub.zcomponent/core.cxx:390-412 | A run of 23 allocations and 21 releases after which the next release traps |
| SlubSteps.ActivateConserves | zxfoundation/memory/slub.zcomponent/core.cxx:225-235 | Taking a slab over loses nothing if and only if the CPU has no slab at that moment |
| SlubRuns.InterruptLosesSlab | zxfoundation/memory/slub.zcomponent/core.cxx:262-388 | An interrupt that allocates between retiring and activating leaves a slab that nobody will find again |
| SlubRuns.TwoCallsLoseSlab | zxfoundation/memory/slub.zcomponent/core.cxx:262-388 | From an empty cache two calls are enough |
| SlubInterleave.StepKeeps | zxfoundation/memory/slub.zcomponent/core.cxx:143-412 | Every critical section of any CPU, in any consistent state, leaves a consistent state, if it does not activate a slab over another |
| SlubInterleave.RunsConserveExactly | zxfoundation/memory/slub.zcomponent/core.cxx:143-412 | However the sections of any number of CPUs interleave: no slab and no object is ever lost if and only if no CPU activates a slab while it has one |
| SlubInterleave.GiveIsFresh | zxfoundation/memory/slub.zcomponent/core.cxx:629-652 | In any such state an object given out was with no user, and nothing else brings an object to a user |
| Slub.Cache.Destroy | zxfoundation/memory/slub.zcomponent/core.cxx:546-600 | With no object in use every slab goes back, and no trap is reached |

## Left out

- CsdSafety.RunsKeepInv: assumes that no CPU is enabled while a lease on it is held, as enable_cpu leaves to its callers; so do the other theorems about runs.
- Sha256.Context.Update: is stated for inputs of less than 2^32 bytes, for which the loop ends.
- BuddyBoot.Boot: is for one node and one zone, and requires that no unreserved page lies in two usable regions and that page 0 is reserved, as init sees to.
- Cap.Table.RevokeTarget: starts when the slot array exists.
- Cap.Table.Environment: other kernel code may change an object in any way, but for its id and kind.
- Cap.Table.Create: ids have 16 bits, since no object table has more than 8192 places.
- Slub.Cache.Alloc: runs without interruption; interleavings are in SlubInterleave, where free_slow is taken not to trap.
- RmapPeers.Peers.InvalidatePeers: the translation entries and the resident counters of regions and spaces are not part of it; a mapping of a cached page counts as one with a pin.
- DAT: validate_table_walk, TLB flushes and access-control bits other than protection and no-execute.
- CSD: the mask forms, statistics and weaker memory orders; an interrupt is a set of CPUs that have one pending.
- Buddy: per-CPU page caches beyond the finding, fallback between nodes and zones, reserve at run time, frame references, descriptors of reserved pages.
- VM: vm_try_merge, shared regions, copy-on-write, file and IPC faults, mapping objects, the translation entries that unmap and protect touch, red-black balancing; the tree is any search tree, and page slots and regions are values inside the space.
- Page cache: who pins frames besides the cache and its mappings is not modelled; they give back only what they took, and portals do not write. Reclaim and evict_range loops, clear_dirty_phys, readers and writers themselves; hash functions are arbitrary.
- SLUB: statistics, partial_count, deferred freeing of slabs, shrink; lists of slabs are sequences, and the slab of an object is looked up in a map.
- Cap: registration of lookup functions and the saturation of reference counts.
- SHA-256: the CPACF instruction path and the test for a null span.
- Scheduler, IPC, portals, loader, drivers: not part of this model.
