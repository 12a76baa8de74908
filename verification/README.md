# Memory management of the kernel, verified in Dafny

A model, in Dafny, of the parts of the kernel that hand out physical memory and of the parser
that tells them what memory there is, with proofs of what they promise:

- the buddy allocator (`kernel/memory/src/buddy.rs`, and its C++ counterpart `Zone` in
  `memory/memory.cc`), down to the page descriptors and the linked free lists;
- the map of typed memory ranges (`kernel/memory/src/memory_map.rs`);
- the boot code that gives the free memory of the map to the buddy allocator
  (`kernel/memory/src/lib.rs`);
- the slab cache (`memory/cache.cc`) on top of the C++ page allocator;
- the parsers of flattened device trees (`kernel/devicetree/src` and `fdt/`).

Code that changes objects in place is written as classes and loops. Each such method is proved
against a function on values, and the theorems are about those functions:

| files | contents |
|---|---|
| `Numeric.dfy` | powers of two, alignment, lowest and highest set bit |
| `Sequences.dfy`, `Wrappers.dfy` | shared helpers |
| `IntrusiveList.dfy` | the doubly linked list with removal from anywhere |
| `BuddySpec.dfy` | the buddy algorithm on values, its invariant, and that every step keeps it |
| `BuddyTheorems.dfy` | completeness, canonical free lists, freeing undoes allocating |
| `BuddyRuns.dfy` | safety over all runs |
| `BuddyCount.dfy` | the number of free pages |
| `Buddy.dfy` | the Rust allocator as a class, refining `BuddySpec` |
| `Tiling.dfy` | the greedy cut of a range into aligned blocks |
| `MemoryMap.dfy` | the memory map against its pointwise meaning |
| `Memory.dfy` | zones and the hand-over at boot |
| `PhysicalMemory.dfy` | the C++ zones, with the counter of available pages |
| `SlabLayout.dfy`, `SlabCache.dfy` | the layout of slabs, slabs and caches |
| `ByteScanner.dfy`, `DeviceTree.dfy` | the scanner and the nodes |
| `FlattenedTree.dfy` | flattening after sections 5.3 to 5.6 of the Devicetree Specification, in any order of the parts of a node, and what a tree means |
| `Fdt.dfy`, `FdtRoundTrip.dfy` | the Rust parser, and that it reads back every flattened tree |
| `FdtBlob.dfy` | skipping a node in the C++ parser |

Findings, each with a lemma or contract that shows it:

- `MemoryMap::add_memory` and `reserve_memory` evaluate the update of the zones even when the update
  of the memory is refused, and do not undo the update of the memory when the zones refuse
  (kernel/memory/src/memory_map.rs:199-223). So the zones can stop agreeing with the memory, and then
  a call that returns an error can have changed the memory. `ZonesCanDisagree` gives three calls that
  do so; `AgreementAfter` and `MemoryKept` say exactly when the two agree and when the memory is left
  alone, in every state; `AddedWhenAgreeing` and `ReservedWhenAgreeing` say what a caller can expect
  as long as the two agree.
- Rounding up and adding wrap around in `find_free_memory_in_range`
  (kernel/memory/src/memory_map.rs:261-265). `Find` says that the place is wrong exactly if a range
  without room passes the test before one with room is found, and `MisledByOverflow` gives an input.
- A node of a device tree gets the cell counts that its parent has when the node begins
  (kernel/devicetree/src/fdt.rs:146-150), although the parser takes properties and subnodes in any
  order. `NearestExactly` says when that is the nearest definition, for every order; it always is where
  properties come first (`NearestInStandardTrees`), and `LateDefinition` gives a tree where it is not.
- A short `#size-cells` or `#address-cells` value panics (kernel/devicetree/src/lib.rs:71-78);
  `ParseRoundTrip` says that this is the only way in which a flattened tree with a nameless root
  and valid names can fail to be read.
- If a zone starts at address 0, a cache can hand out an object at address 0, which callers take
  for a failure and which `Cache::Free` refuses (memory/cache.cc:183-214). `NullAsObject` runs into
  this with any layout that fits a block. The contract of `Allocate` says that a success returns null exactly if 0 is
  the next object, `NextObject`, and `NullIsNoObject` that this cannot happen if no zone starts at 0.
- `Cache::Free` takes any address in a slab with objects out for one of them, also one freed before
  (memory/cache.cc:226-245). The contract of `Free` says that the cache stays valid exactly if the
  address is not of that kind, `Bogus`.
- `AlignUp` masks bits, and memory/alloc.cc:20-53 asks for alignments such as 384. The size of the
  objects is then a multiple of the alignment for all sizes exactly if that is a power of two
  (`AlignmentKept`); the cache for 384 bytes has objects of 640 bytes (`OddAlignment`).
- `EnsureToken` moves past a token that is not the wanted one (fdt/blob.cc:76-84), so
  `ConsumeEndNode` and `ConsumeNop` do not leave the position alone when they fail, as the other
  two consume functions do.
- `Memory::new` also gives free memory that is not regular to the buddy allocator, because
  `FreeMemoryIter` does not look at the type (kernel/memory/src/memory_map.rs:280-292).
  `HandsOutNonRegular` boots from two calls of `add_memory` and gets such a page from the first
  allocation.

## Model

| member | source | states |
|---|---|---|
| Numeric.Lsb | kernel/numeric/src/lib.rs:3-33 | one more than the place of the lowest set bit for every 64-bit word, and all ones for 0 |
| Numeric.Msb | kernel/numeric/src/lib.rs:35-65 | one more than the place of the highest set bit for every 64-bit word, and 0 for 0 |
| Numeric.Ilog2 | kernel/numeric/src/lib.rs:67-70 | the rounded down logarithm |
| Numeric.LeastSignificantBit | common/math.cc:6-38 | the place of the lowest set bit, 64 for 0 |
| Numeric.MostSignificantBit | common/math.cc:40-72 | the place of the highest set bit, -1 for 0 |
| Numeric.AlignDownGreatest | kernel/numeric/src/lib.rs:72-75 | rounding down gives the greatest multiple that is not above |
| Numeric.AlignUpLeast | kernel/numeric/src/lib.rs:77-79 | rounding up gives the least multiple that is not below |
| Numeric.MaskRoundsDown | kernel/numeric/src/lib.rs:72-75 | clearing the bits of the mask is rounding down, for every power of two |
| Numeric.BuddyFacts | kernel/memory/src/buddy.rs:104-106 | flipping one bit of an aligned index gives the other half of the parent block, and twice gives the index |
| IntrusiveList.List.Push | kernel/intrusive/src/list.rs:86-98 | the list is well linked both ways and has the link in front of what it had |
| IntrusiveList.List.Pop | kernel/intrusive/src/list.rs:100-121 | the first link is returned with both its pointers cleared, and the list is well linked with the rest |
| IntrusiveList.List.Remove | kernel/intrusive/src/list.rs:123-138 | a link anywhere in the list is taken out with both its pointers cleared, and the others keep their order |
| Buddy.Page.SetLevel | kernel/memory/src/page.rs:25-28 | the level is set and the FREE bit and the other bits stay |
| Buddy.Page.SetFree | kernel/memory/src/page.rs:34-36 | the FREE bit is set and the level stays |
| Buddy.Page.SetBusy | kernel/memory/src/page.rs:38-40 | the FREE bit is cleared and the level stays |
| BuddySpec.MergeTest | kernel/memory/src/buddy.rs:82-95 | flag and level of the buddy lead to a merge exactly when the buddy is on the free list of that level, so stale FREE bits of pages inside blocks never do |
| BuddySpec.SplitOnce | kernel/memory/src/buddy.rs:61-68 | one round of the split keeps the invariant: two halves instead of the block, the upper one free |
| BuddySpec.MergeOnce | kernel/memory/src/buddy.rs:82-96 | one round of the merge keeps the invariant: the parent instead of the block and its free buddy |
| BuddySpec.AllocateInv | kernel/memory/src/buddy.rs:38-53 | allocation keeps the invariant with the chosen block, which was not out, added to those out |
| BuddySpec.FreeInv | kernel/memory/src/buddy.rs:78-102 | freeing a block that is out, or pages never managed, keeps the invariant |
| BuddyTheorems.AllocationComplete | kernel/memory/src/buddy.rs:38-53 | allocation succeeds exactly if some aligned run of that many pages of the zone is wholly free |
| BuddyTheorems.ServedWhole | kernel/memory/src/buddy.rs:38-53 | a wholly free aligned block of a level there is is served |
| BuddyTheorems.AllocatedWasFree | kernel/memory/src/buddy.rs:38-53 | the block handed out is aligned, in the zone, and was wholly free |
| BuddyTheorems.AllocateFreePages | kernel/memory/src/buddy.rs:38-69 | allocation takes exactly the pages of the block from the free pages |
| BuddyTheorems.FreeFreePages | kernel/memory/src/buddy.rs:78-102 | freeing adds exactly the pages of the block to the free pages |
| BuddyTheorems.FreeListsAreCanonical | kernel/memory/src/buddy.rs:82-101 | a block is on the list of its level exactly if its pages are free and those of its parent are not all free, or there is no parent |
| BuddyTheorems.SameFreePagesSameLists | kernel/memory/src/buddy.rs:55-102 | states with the same free pages have the same blocks on each list, whatever their histories |
| BuddyTheorems.FreeUndoesAllocate | kernel/memory/src/buddy.rs:38-102 | freeing the block just allocated restores every free list, in order |
| BuddyRuns.RunSafety | kernel/memory/src/buddy.rs:38-102 | in every run of legal calls the invariant holds, and free and outstanding blocks are together the pages managed or freed so far |
| BuddyRuns.RunFromEmpty | kernel/memory/src/buddy.rs:17-102 | from an empty allocator, free and outstanding pages are exactly those ever freed to it |
| BuddyRuns.BlocksAreDisjoint | kernel/memory/src/buddy.rs:42-47 | blocks handed out are aligned, in the zone, apart, hold no free page, and may be freed |
| Buddy.BuddySystem.constructor | kernel/memory/src/buddy.rs:17-23 | an allocator over zeroed descriptors manages no page |
| Buddy.BuddySystem.SplitAndReturn | kernel/memory/src/buddy.rs:55-69 | the loop over the levels does the split of `BuddySpec` to descriptors and lists |
| Buddy.BuddySystem.AllocatePages | kernel/memory/src/buddy.rs:38-53 | the class computes `Allocate` of its abstract state, or changes nothing and returns none |
| Buddy.BuddySystem.FreePages | kernel/memory/src/buddy.rs:71-76 | frees at the level recorded in the descriptor |
| Buddy.BuddySystem.FreePagesAtLevel | kernel/memory/src/buddy.rs:78-102 | the merge loop computes `FreeAt` of the abstract state and keeps it valid |
| MemoryMap.LowerBound | kernel/memory/src/memory_map.rs:70-81 | the first place that is not less |
| MemoryMap.UpperBound | kernel/memory/src/memory_map.rs:83-94 | the first place that is greater |
| MemoryMap.EqualRange | kernel/memory/src/memory_map.rs:96-101 | exactly the places that compare equal |
| MemoryMap.Replace | kernel/memory/src/memory_map.rs:103-114 | rotating, truncating, pushing and rotating replaces the slice by the items |
| MemoryMap.Compact | kernel/memory/src/memory_map.rs:48-68 | the two-index loop glues neighbours with equal attributes |
| MemoryMap.GlueMeaning | kernel/memory/src/memory_map.rs:48-68 | gluing changes the attributes of no address |
| MemoryMap.GlueWellFormed | kernel/memory/src/memory_map.rs:48-68 | gluing sorted ranges, even with the empty ones spliced in, gives a sorted maximal list without empty ranges |
| MemoryMap.AddTo | kernel/memory/src/memory_map.rs:116-169 | accepted exactly if no address clashes; then exactly the given addresses are overwritten and the list is well formed; refused with the error of the first clashing address, the list is unchanged |
| MemoryMap.MeaningDetermines | kernel/memory/src/memory_map.rs:48-68 | two well formed lists with the same meaning at every address are equal |
| MemoryMap.AddedUnique | kernel/memory/src/memory_map.rs:165-166 | the list after an addition is determined by its meaning |
| MemoryMap.AdditionsCommute | kernel/memory/src/memory_map.rs:116-169 | accepted additions in either order give the same list exactly if they have equal attributes or no address in common |
| MemoryMap.OrderDoesNotMatter | kernel/memory/src/memory_map.rs:116-169 | additions that have equal attributes, or no address in common, are accepted or refused alike in either order, and the lists are the same, refusals included |
| MemoryMap.AdditionIdempotent | kernel/memory/src/memory_map.rs:116-169 | adding a range again gives the same list |
| MemoryMap.FreeMemoryIter.Next | kernel/memory/src/memory_map.rs:280-292 | the next free range that meets the limits, clipped to them, and none that meets them is passed over |
| MemoryMap.RunInOneRange | kernel/memory/src/memory_map.rs:237-274 | a run of addresses with equal attributes lies in one range, because the list is maximal |
| MemoryMap.MemoryMap.Find | kernel/memory/src/memory_map.rs:252-274 | the least aligned place in the limits whose bytes are all free and regular, or none exactly if there is none; a wrong place exactly if an overflow lets a range without room pass first |
| MemoryMap.MisledByOverflow | kernel/memory/src/memory_map.rs:261-265 | a map and a size for which an overflow lets a range without room pass |
| MemoryMap.NotMisled | kernel/memory/src/memory_map.rs:261-265 | nothing overflows if all ranges end far enough from the end of the address space |
| MemoryMap.MemoryMap.AllocateInRange | kernel/memory/src/memory_map.rs:237-250 | that place is reserved and nothing else changes, none exactly if there is none; the unwrap cannot fail; the zones stay |
| MemoryMap.MemoryMap.Allocate | kernel/memory/src/memory_map.rs:226-228 | the same without limits |
| MemoryMap.MemoryMap.AllocateWithHint | kernel/memory/src/memory_map.rs:230-235 | the least place in the hint, or, only if there is none, the least place anywhere; none exactly if there is neither |
| MemoryMap.MemoryMap.AddMemory | kernel/memory/src/memory_map.rs:194-208 | memory and zones each get the range or stay as they were, on their own; accepted exactly if neither clashes; refused with the error of the first clashing address of the memory, or else of the zones |
| MemoryMap.MemoryMap.ReserveMemory | kernel/memory/src/memory_map.rs:210-224 | the same for reserved memory |
| MemoryMap.MemoryKept | kernel/memory/src/memory_map.rs:194-224 | after a call, refused or not, the memory is what it was exactly if it clashed or had these attributes throughout |
| MemoryMap.AgreementAfter | kernel/memory/src/memory_map.rs:194-224 | memory and zones agree after a call exactly if they agreed outside the range and both took it, or both refused it and agreed inside, or only the zones took it and the memory had the type throughout |
| MemoryMap.AddedWhenAgreeing | kernel/memory/src/memory_map.rs:194-208 | where they agreed, a refusal changes no memory, and they still agree after it exactly if a type differed or all was covered before |
| MemoryMap.ReservedWhenAgreeing | kernel/memory/src/memory_map.rs:210-224 | where they agreed, reserving is refused exactly if a type differs, and then nothing changes; they agree afterwards |
| MemoryMap.ZonesCanDisagree | kernel/memory/src/memory_map.rs:199-223 | three calls after the second of which the zones cover an address that the memory does not, and of which the third returns an error although it changed the memory |
| Tiling.TilesExact | kernel/memory/src/lib.rs:50-63 | the tiles follow each other without gap, each aligned to its own size, and end at the end of the range |
| Tiling.TilesCover | kernel/memory/src/lib.rs:50-63 | the tiles hold exactly the pages of the range |
| Tiling.TileGreedy | kernel/memory/src/lib.rs:55-59 | each tile is the largest aligned block that starts there and fits |
| Tiling.TileFits | kernel/memory/src/lib.rs:54-62 | the block chosen at an index, also at index 0, fits and is aligned |
| Memory.Zone.FreePageRange | kernel/memory/src/lib.rs:50-63 | frees exactly the pages of the range that are in it, tile by tile |
| Memory.FreeZone | kernel/memory/src/lib.rs:171-183 | frees exactly the pages of the zone all of whose bytes are free and of one type |
| Memory.FreeByteByByte | kernel/memory/src/memory_map.rs:204-208 | where memory and zones agree, a page of a zone is free exactly if all its bytes are |
| Memory.CreatePages | kernel/memory/src/lib.rs:115-134 | takes an array of zeroed descriptors, one for each page, from free regular memory, at the least place in the zone or, if that has none, the least anywhere; fails exactly if there is no place, and then changes nothing |
| Memory.CreateZones | kernel/memory/src/lib.rs:136-162 | one zone for each zone of the map, with separate objects, over memory set aside for it; fails exactly if one of the arrays finds no place after those before it |
| Memory.New | kernel/memory/src/lib.rs:164-187 | the pages of a zone are those wholly inside its memory; at boot exactly those all of whose bytes are free in the map and of one type, and none in the arrays taken for zones and descriptors, become free pages; the arrays have room for every zone and for every page of each zone, no byte of them is in a free page, and they go to the least places; it panics exactly if one of them finds no place |
| Memory.PlacesDetermined | kernel/memory/src/lib.rs:115-162 | the map and the sizes determine where the arrays go and whether one finds no place |
| Memory.LargestBlock | kernel/memory/src/buddy.rs:8-53 | a free aligned run of 2^19 pages is served, and no order above 19 is |
| Memory.HandsOutNonRegular | kernel/memory/src/lib.rs:164-187 | booting succeeds for a map made by two calls, and the first page handed out is free memory that is not regular |
| Memory.FreeAfterSetAside | kernel/memory/src/lib.rs:168-186 | a page is free after the arrays are set aside exactly if it was free and touches none of them |
| Memory.Memory.AllocatePages | kernel/memory/src/lib.rs:80-87 | the first zone that has a block hands it out; its pages were free in the map at boot; none if no zone has one |
| Memory.Memory.FreePages | kernel/memory/src/lib.rs:89-100 | the block goes back to the zone that has it; the panic is not reached for a block that is out |
| BuddyCount.TotalAllocate | memory/memory.cc:39-50 | allocation lowers the sum over the free lists by the size of the block |
| BuddyCount.TotalFree | memory/memory.cc:52-56 | freeing raises it by the size of the block, through any number of merges |
| BuddyCount.TotalCountsFreePages | memory/memory.cc:83-83 | the sum over the lists is the number of free pages |
| PhysicalMemory.Zone.AllocatePages | memory/memory.cc:39-50 | computes `Allocate` and keeps the counter equal to the number of free pages |
| PhysicalMemory.Zone.Split | memory/memory.cc:89-106 | the loop over the orders does the split of `BuddySpec` |
| PhysicalMemory.Zone.Unite | memory/memory.cc:108-136 | the loop computes `FreeAt` |
| PhysicalMemory.Zone.FreePages | memory/memory.cc:52-56 | frees at the recorded order and keeps the counter equal to the number of free pages |
| PhysicalMemory.Zone.FreePagesAt | memory/memory.cc:64-69 | records the order first, which changes nothing else for pages that may be freed at it |
| PhysicalMemory.OrderFor | memory/memory.cc:184-190 | the least order whose blocks hold the size |
| PhysicalMemory.LeastOrderExact | memory/memory.cc:189-190 | for a power of two of at least a page that order fits exactly |
| PhysicalMemory.BlockAddressAligned | memory/memory.cc:77-79 | blocks have addresses aligned to their size |
| PhysicalMemory.Physical.AllocatePhysical | memory/memory.cc:184-204 | a run of the least order that fits, not out before, inside the first zone that has one; exactly the pages whose bytes are in it are free before and not after; it fails exactly if no zone has an aligned free run of that order; the available bytes drop by its size |
| PhysicalMemory.FirstRunUnique | memory/memory.cc:184-204 | the run that is handed out is determined, and there is one only if there is room |
| PhysicalMemory.Physical.FreePhysical | memory/memory.cc:206-211 | exactly that run is no longer out, exactly the pages whose bytes are in it become free, and the available bytes grow by its size |
| PhysicalMemory.Physical.OutFacts | memory/memory.cc:156-172 | runs that are out do not overlap and have addresses aligned to their size |
| PhysicalMemory.Physical.OutInside | memory/memory.cc:77-79 | runs that are out lie inside their zone |
| PhysicalMemory.Physical.AvailableIsFree | memory/memory.cc:232-240 | the available bytes are 4096 for each page that is free in some zone |
| PhysicalMemory.LargestBlock | memory/memory.cc:39-50 | a free aligned run of 2^20 pages is served, and no order above 20 is |
| PhysicalMemory.FreeMemory | memory/memory.cc:295-326 | refuses exactly the ranges outside the zone, and otherwise frees exactly the pages wholly inside the range |
| SlabLayout.SlabSize | memory/cache.cc:20-32 | the least power of two, of at least a page, with room for 32 objects and the control block |
| SlabLayout.MakeLayout | memory/cache.cc:34-46 | objects have the least multiple of a power-of-two alignment that holds the size and a list node, and for other alignments keep every power of two in them; at least 32 of them and as many as fit lie before the control block |
| SlabLayout.AlignmentKept | memory/cache.cc:16-18 | object sizes are multiples of the alignment, whatever size is asked for, exactly if it is a power of two |
| SlabLayout.OddAlignment | memory/alloc.cc:20-53 | one of the caches has objects that are larger than asked for and not aligned as asked for |
| SlabCache.Slab.constructor | memory/cache.cc:59-70 | every object of the slab is on the free list, in order of address |
| SlabCache.Slab.Allocate | memory/cache.cc:87-97 | hands out one object that was not out, or null exactly if all are out |
| SlabCache.Slab.Free | memory/cache.cc:99-109 | an address outside the slab is refused; any other joins the free list, and the slab stays in order exactly if it is an object that was out, which is no longer out |
| SlabCache.Slab.CountsObjects | memory/cache.cc:83-83 | the counter of a slab is the number of its objects that are out |
| SlabCache.Cache.FindIsExact | memory/cache.cc:133-143 | for every byte of a slab `Find` returns that slab |
| SlabCache.Cache.FoundIsOwner | memory/cache.cc:133-143 | for every object that is out `Find` returns the slab that handed it out |
| SlabCache.Cache.NewSlab | memory/cache.cc:114-124 | a slab in memory that was not out, aligned to the size of the slab, its control block where `Find` looks; null exactly if the page allocator has no such run |
| SlabCache.Cache.AllocatePartial | memory/cache.cc:184-192 | the first object of the first partial slab, which moves to the full ones with its last object |
| SlabCache.Cache.AllocateFree | memory/cache.cc:194-200 | the first object of the first free slab, which becomes partial |
| SlabCache.Cache.FreeIn | memory/cache.cc:229-245 | the address joins the front of the list of its slab, and the slab moves from full to partial or from partial to free exactly if its count demands it; the cache stays valid exactly if the address is an object that was out |
| SlabCache.Cache.Allocate | memory/cache.cc:183-209 | hands out the next object, one not out before; fails exactly if no slab has room and the page allocator has no run; returns null with success exactly if 0 is the next object; bytes move from the page allocator to the cache only for a new slab; every slab stays on the list that its count demands |
| SlabCache.Cache.NextObjectUnique | memory/cache.cc:183-209 | at most one object is next: the first of the first partial slab, or else of the first free one, or else of the memory that the page allocator gives next |
| SlabCache.Cache.Free | memory/cache.cc:211-246 | succeeds for objects that are out, other than null, and takes exactly that one back; panics exactly for a slab of another cache; refuses without a change null, addresses outside the slab and those in an empty slab; takes any other address in a slab with objects out, and exactly then the cache is not valid any more |
| SlabCache.Cache.Reclaim | memory/cache.cc:172-181 | the page allocator gets back exactly the bytes reported as reclaimable, and no object is lost |
| SlabCache.Cache.ObjectsDisjoint | memory/cache.cc:59-70 | objects that are out do not overlap each other or any control block |
| SlabCache.Cache.OthersDisjoint | memory/cache.cc:114-124 | objects of different caches do not overlap |
| SlabCache.Cache.AllocateBeside | memory/cache.cc:183-209 | allocating from one cache leaves every other cache valid, with the same objects out |
| SlabCache.Cache.FreeBeside | memory/cache.cc:211-246 | so does freeing any address to it |
| SlabCache.Cache.ReclaimBeside | memory/cache.cc:172-181 | so does reclaiming its free slabs |
| SlabCache.Cache.ObjectsAligned | memory/cache.cc:16-18 | objects have the alignment that was asked for |
| SlabCache.Cache.NullIsNoObject | memory/cache.cc:211-214 | null is never an object unless a zone starts at address 0 |
| SlabCache.NullAsObject | memory/cache.cc:183-214 | with one free zone from address 0, whatever the layout that fits a block, the first allocation succeeds with null, which freeing refuses, so that it stays out |
| SlabCache.Cache.Accounts | memory/cache.cc:164-168 | there are as many objects out as the slabs count, and the counters of the cache are the bytes of these objects, of all slabs and of the free slabs |
| SlabCache.CountsAdd | memory/cache.cc:83-83 | the counters of slabs that are apart add up to the number of objects they have out |
| ByteScanner.Be32RoundTrip | kernel/devicetree/src/scanner.rs:20-33 | reading a big-endian word inverts writing it, both ways |
| ByteScanner.BigEndian | kernel/devicetree/src/scanner.rs:20-48 | the first byte is the most significant one |
| ByteScanner.Scanner.ConsumeBe32 | kernel/devicetree/src/scanner.rs:20-33 | four bytes, or an error without moving |
| ByteScanner.Scanner.ConsumeBe64 | kernel/devicetree/src/scanner.rs:35-48 | eight bytes, or an error without moving |
| ByteScanner.Scanner.ConsumeCstr | kernel/devicetree/src/scanner.rs:72-91 | the bytes up to the first zero, or an error without moving if there is none or they are not UTF-8 |
| ByteScanner.Utf8Exact | kernel/devicetree/src/scanner.rs:82-88 | the bytes accepted as UTF-8 are exactly the encodings of sequences of Unicode scalar values |
| ByteScanner.Scanner.ConsumeAnyCstr | fdt/scanner.cc:69-81 | the bytes up to the first zero, or no move if there is none |
| ByteScanner.Scanner.ConsumeData | kernel/devicetree/src/scanner.rs:93-105 | the given number of bytes, or an error without moving |
| ByteScanner.Scanner.AlignForward | kernel/devicetree/src/scanner.rs:107-122 | moves to the next multiple, but not to the very end of the data |
| ByteScanner.Scanner.AlignForwardToEnd | fdt/scanner.cc:117-130 | moves to the next multiple, also to the very end of the data |
| Fdt.State.BeginNode | kernel/devicetree/src/fdt.rs:146-150 | the node inherits the address space of the node that is open |
| Fdt.State.EndNode | kernel/devicetree/src/fdt.rs:152-159 | the node becomes a child of the one outside, an error if there is none |
| Fdt.State.NewProperty | kernel/devicetree/src/fdt.rs:161-163 | fails exactly for a property spelled #size-cells or #address-cells of fewer than four bytes, where the source panics; otherwise the last value of the name is kept, and a cell count is in force at once |
| Fdt.State.Finish | kernel/devicetree/src/fdt.rs:165-173 | the child with the empty name, with errors for open nodes and for a missing root |
| Fdt.ParseNodes | kernel/devicetree/src/fdt.rs:97-131 | the loop over the tokens computes `Run`, with its errors and panics; `ParseTokens`, `ParseRoundTrip` and `RootCounts` say what that is |
| Fdt.ParseReserved | kernel/devicetree/src/fdt.rs:80-95 | the loop computes `Reserved`; `ReservedRoundTrip` and `ReservedFails` say what that is |
| Fdt.Parse | kernel/devicetree/src/fdt.rs:24-51 | the whole parser computes `BlobOf`, with its errors and panics; `HeaderRefused` and `BlobRoundTrip` say what that is |
| FdtRoundTrip.ReadToken | kernel/devicetree/src/fdt.rs:108-130 | a token laid out after the standard is read as itself and the scanner ends just past it |
| FdtRoundTrip.ParseTokens | kernel/devicetree/src/fdt.rs:97-131 | for every sequence of laid out tokens, balanced or not, parsing does what the items do |
| FdtRoundTrip.ParseRefuses | kernel/devicetree/src/fdt.rs:152-173 | laid out tokens are accepted exactly if names are UTF-8, cell counts long enough, nodes ended as often as begun and never before, and an outermost node has the empty name; with valid items each of the three errors occurs exactly in its case |
| FdtRoundTrip.ExecTree | kernel/devicetree/src/fdt.rs:133-174 | the items of a tree, whatever the order of its properties and subnodes, add exactly the node that the tree means to the open node |
| FdtRoundTrip.ParseRoundTrip | kernel/devicetree/src/fdt.rs:97-174 | every flattened tree with valid names is read back, whatever the order of properties and subnodes, the NOP tokens, padding and placing of names; it panics exactly if a cell count is short |
| FdtRoundTrip.FollowChain | kernel/devicetree/src/lib.rs:46-80 | following the names on the way to a subnode, none of which a later sibling has, leads to its node, which begins with the cell counts in force there |
| FdtRoundTrip.FollowedIsChain | kernel/devicetree/src/lib.rs:144-160 | every path that can be followed is that of such a subnode |
| FdtRoundTrip.NearestExactly | kernel/devicetree/src/fdt.rs:146-163 | a cell count of a node is the nearest definition, or 1, exactly if the node defines it itself, or nothing above does, or the count in force after what the nearest definer above says before the next node has the value of its last definition |
| FdtRoundTrip.NearestInStandardTrees | kernel/devicetree/src/fdt.rs:146-163 | where properties come before subnodes it always is |
| FdtRoundTrip.LateDefinition | kernel/devicetree/src/fdt.rs:146-150 | a tree in which a cell count defined after a subnode is the nearest definition but does not reach the subnode |
| FdtRoundTrip.RootCounts | kernel/devicetree/src/lib.rs:70-80 | a root with one property has the cell counts 1, except for the one that a property spelled #size-cells or #address-cells gives |
| FdtRoundTrip.ReservedRoundTrip | kernel/devicetree/src/fdt.rs:80-95 | as many ranges as entries laid out before a terminator are read back, each from its address to the sum of address and size, less 2^64 if that is not below it |
| FdtRoundTrip.ReservedFails | kernel/devicetree/src/fdt.rs:84-92 | reading them fails exactly if there is no terminator |
| FdtRoundTrip.HeaderRefused | kernel/devicetree/src/fdt.rs:24-51 | refused for its header exactly if the magic number is not 0xd00dfeed, or else the version is above 17, or else the size is greater than the blob; offsets outside the blob panic |
| FdtRoundTrip.BlobRoundTrip | kernel/devicetree/src/fdt.rs:24-51 | a blob with its header, after section 5.2 of the Devicetree Specification, reserved ranges, tree and strings in place is read back as a whole |
| FdtBlob.ConsumeToken | fdt/scanner.cc:93-115 | moves past a valid token and nothing else |
| FdtBlob.EnsureToken | fdt/blob.cc:76-84 | succeeds exactly for the wanted token, and moves past any valid one |
| FdtBlob.Blob.ConsumeStartNode | fdt/blob.cc:174-182 | the name, and the position past the padding, or no move |
| FdtBlob.Blob.ConsumeProperty | fdt/blob.cc:184-227 | name and value, and the position past the padding, or no move |
| FdtBlob.Blob.SkipNode | fdt/blob.cc:125-167 | the loop computes `Skip`, ends on all data, and does not move on failure |
| FdtBlob.SkipLandsAfter | fdt/blob.cc:125-167 | from just past the record that begins a node of any flattened tree, skipping lands just past its end, whatever follows |
| FdtBlob.SkipExact | fdt/blob.cc:125-167 | skipping succeeds exactly if tokens are laid out there the last of which, and none before, closes the node, and it ends just past them |

## Left out

- Machine words: they are natural numbers below 2^64 where the width matters, masks and shifts are written with division and remainder. Sums wrap around, as in the release build, in `Find` and in the reserved ranges of a device tree; elsewhere preconditions such as `Bootable` keep them below 2^64.
- Raw pointers: pages, links and objects are found by index and address number; `container_of` becomes the `owner` of a link, and the control block of a slab is looked up by address in `ControlBlocks`. That free objects and control blocks overlay the memory of the slab is not modelled.
- C++ lists and page descriptors of `memory/memory.cc` and `memory/cache.cc`: sequences of values; linking in place is proved for the Rust list only.
- `DeviceTreeNode` values: nodes are values that the parser replaces, as the ownership rules of the source make aliasing impossible; `Vec` and `BTreeMap` are sequences and maps.
- `Zone::available_` is not initialised in the constructor of the C++ zone (memory/memory.cc:35-37); the model starts it at 0.
- `CreateZone`, `CreateZones` and the C++ memory map (memory/memory.cc:245-293, memory/phys.cc): the Rust boot code and memory map do the same job and are modelled instead.
- Sizes of the structures `Storage` and `Slab` of memory/cache.h: 24 and 72 bytes, as on a 64-bit target.
- Sizes of the zone and page descriptor structures: parameters of `Memory.New`, so that the theorem holds for any.
- Memory.New: a zone whose start, rounded up, lies after its end, rounded down, is excluded, as the subtraction of the source wraps there; addresses and sizes are far enough from 2^64 not to overflow (`Bootable`).
- Memory.Zone.FreePageRange: requires that no page in the range is managed yet, which the unsafe source demands of its caller.
- SlabCache.Cache.Free: the address must lead to a control block, and one of this cache must be that of a slab on its lists (`Traceable`), as the source reads the control block without a check.
- MemoryMap.MemoryMap.AllocateInRange: requires that `Find` is not misled by an overflow, after which the source reserves nothing or fails the unwrap; so do `Allocate` and `AllocateWithHint`.
- `Cache::~Cache` and `Slab::~Slab`: the panics on destruction with objects out.
- `memory/alloc.cc`, `memory/space.cc` and everything about page tables, devices, logging, start-up code and streams.
- Paths as text: `Follow` takes a list of names, without splitting at slashes.
- `Blob::Parse`, `ParseHeader` and `ParseReserved` of fdt/blob.cc, and the accessors of properties: the Rust parser covers the same formats.
- Concurrency: the mutex of the source is a placeholder that does not lock.
