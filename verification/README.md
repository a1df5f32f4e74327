# The Mach default pager and file readers, modelled in Dafny

The project models five parts of an OSF Mach 3 system and proves what they are relied on for.

1. **Backing store of the default pager** (`dp_backing_store.c`, `default_pager_internal.h`). `PagingSegment` is
   the bitmap allocator with its search hint and its reserve-then-claim count; `SegmentRuns` interleaves any
   number of threads on it; `SegmentTable` is the round-robin choice of a segment, and `SegmentAllocation` has
   threads on all segments and says what an allocation gives the pager. `Slots` is the page table of an
   object as one flat sequence, `Unmapping` what unmapping a range does to it, and `VsMap` the direct or two-level
   structure that implements it; `Committed` adds up all objects. `Pager` puts any number of objects and segments
   together as a step system; `PagerInvariant`, `PagerSteps` and `PagerRuns` prove its invariant, write errors
   included, and `PagerStore` that it refines a map from pages to contents. Both need a condition on write errors;
   `PagerExact` proves the two conditions exact, and `PagerErrors` and `PagerCodes` have a failing run for each.
   `ClusterIO` has the read and write loops: replies tile the range, and every page written by any number of
   threads is completed once.
2. **Sequence-number protocol** (`dp_memory_object.c`). `Protocol` is a step system of messages, threads, waits,
   broadcasts and asynchronous replies; `ProtocolInvariant`, `ProtocolSteps` and `ProtocolRuns` prove ordering, the
   absence of deadlock and lost wake-ups, and that every request is served; `ProtocolRefs` conserves control-port
   references, and `ProtocolEnds` has the end of an object. `Together` runs protocol and pager side by side, until
   the pager destroys the object; `PagerReads` follows one read through the pager, and `Supplies` proves the purpose
   of the protocol over every run of both: a data request is supplied the data of the last writes before it.
3. **Minix image writer and reader** (`tools/mkminix.py`, `minixfs.c`). `MinixWriter` and `MinixBuild` write the
   image in place, `MinixReader` says what the C code finds in an image, `MinixCache` is an open file with its
   caches, and `MinixFiles`, `MinixDirectory` and `MinixRoundTrip` join the two ends: what is opened by name and
   read is what was put in.
4. **Ext2 reader** (`ext2fs.c`, `file_system.c`). `Ext2Blocks` has the index trees and the contents of a file,
   `Ext2File` the open file with its block and data caches and both read paths, `Ext2Threads` any number of threads
   in `block_map` on one file, `PathNames` the resolver,
   `PathLookup` the lookup that edits its own buffer, `PathLinks` its agreement with a recursive resolver.
5. **Support** (`kalloc.c`, `queue.h`). `Kalloc` is the power-of-two allocator that drops its lock to map memory,
   `KallocRuns` interleaves threads on it, and `Queues` is the intrusive doubly linked queue.

`Bits`, `Bytes`, `Division` and `Sums` are shared helpers. What updates its state in place in the source is a class
or an array algorithm here; what many threads do is a step system. `dafny verify dfyconfig.toml` checks everything.

## Where the code departs from its intent

The model follows the code. Each point below names what says exactly when it shows.

- A priority left at `BS_FULLPRI` (-2) is not skipped, so the next scan starts at index -1 of `paging_segments`
  (`dp_backing_store.c:1047-1050`). `SegmentTable.Select` ends in `BadIndex` if and only if the scan comes to such
  a priority before it finds a segment; `RefusedTwice` and `AddedWhileFull` show it. All other results are the
  intended ones (`ChosenAsMeant`, `SelectAsMeant`).
- After a write error cluster 0 is not given back, since 0 stands for "nothing to free" (line 1562):
  `ErrorFreesHeld` is the if-and-only-if. The invariant keeps such clusters in a set `lost`.
- A write error gives a cluster back although other transfers of it may have still to go to the disk. The pager
  refines the store as long as none has (`StepRefines`, `RunsRefine`), and no longer: `CleanIff` proves the
  condition exact in every state, and `ErrorMixesObjects` is a run in which an object is supplied the page of
  another. Nothing in the sequence-number protocol prevents it, since writes overlap.
- `ps_clunmap` does not look at error entries (lines 1607-1609). If an error is recorded for a cluster all of whose
  allocated pages are being read, the last of these reads gives back the cluster that has the error code for its
  number. Reads and writes of an object do overlap, and the leftover of a failed write does this
  (lines 2337-2346): `CodeFreesOther` is such a run. `FailMarkKeepsIff` and `SparedIff` prove when it happens, and
  the invariant holds over all runs in which it does not (`RunsKeep`). The loop also stops at the first missing
  indirect block (`ClunmapAll`).
- `vs_cluster_read` abandons the rest of its range after a read error (line 2078): `ClusterRead` says that the
  replies then tile the part up to and including that error.
- After a device error the data caches of both readers name a block for which there is no buffer. `LoadBlock` of
  `Ext2File` and of `OpenedFile` are if-and-only-ifs, and say which later read gets a wild address.
- An error in the middle of an ext2 index walk leaks the buffers replaced so far (`Ext2File.Descend`); a pointer
  equal to -1 is taken for an empty cache level (`NullReadIff`).
- `ext2_itoo` does not look at the group of an inode; it is right exactly if groups are whole blocks of the inode
  table (`SlotsRightIff`).
- An ext2 read past the end of a file succeeds exactly when its last step takes the final hole whole (`ReadFile`).
- The Minix reader does not look for holes when it reads directly, and gives the bytes of zone 0 (`DeliveredIs`,
  `HoleTakesZoneZero`); it keeps block numbers in 16 bits, so a file begins again after 64 MiB (`Wraps`).
- Directory entries beyond the first 64 run on into the zones that follow the directory, and are never found
  (`Opens`). `ReadsTheFile` says which bytes of which files are entries then, and `SparedIff` of `MinixBuild` which
  files are spared.
- A path that ends in a slash looks up an empty name (`TrailingSlash`). A component may have one character more
  than the limit, and no more (`ComponentLimit`).
- A link text that is empty or ends in a slash is not looked up as it would be by itself (`EmptyDiffers`,
  `SlashDiffers`), and all others are: `TextAgreesIff`.
- `ps_vstruct_dealloc` may free an object on which a broadcast is still owed, by a termination for one
  (`FreedTooEarly`). Exactly then some thread or reply touches it later (`FreedTouchedIff`).
- The 32-bit table of ext2 index capacities is right if and only if blocks have at most 4096 bytes
  (`IndexArithmeticFits`).

## Model

| member | source | states |
|---|---|---|
| `Bits.BitFrame` | osfmk/src/default_pager/default_pager_internal.h:235-238 | Setting or clearing a bit of a byte changes that bit and no other. |
| `Bits.FullByte` | osfmk/src/default_pager/default_pager_internal.h:235-238 | A byte equals BYTEMASK exactly when all its eight bits are set, so the search skips no free cluster. |
| `Bits.WithBitUsed` | osfmk/src/default_pager/default_pager_internal.h:236-237 | Setting or clearing bit c of a whole bitmap adds or removes exactly c in the set of used clusters, padding bits included. |
| `PagingSegments.PagingSegment.constructor` | osfmk/src/default_pager/dp_backing_store.c:719-742 | A new segment has every cluster below its size free, a free count to match and nothing reserved. |
| `PagingSegments.PagingSegment.ClearAll` | osfmk/src/default_pager/dp_backing_store.c:737-739 | After the clearing loop every bit below the number of clusters is clear, whatever the padding of the last byte. |
| `PagingSegments.PagingSegment.Reserve` | osfmk/src/default_pager/dp_backing_store.c:1060-1066 | Takes one from the free count into the reservations exactly when the count is positive, and keeps the balance of clear bits. |
| `PagingSegments.PagingSegment.FirstClear` | osfmk/src/default_pager/dp_backing_store.c:1134-1147 | Under a reservation the scan from the hint ends at a byte and bit that are clear, all lower bits being set. |
| `PagingSegments.PagingSegment.Claim` | osfmk/src/default_pager/dp_backing_store.c:1094-1156 | First fit: the cluster returned was free, is below the segment size, and every lower cluster was in use; exactly that bit becomes set, and all bytes below the hint stay full. |
| `PagingSegments.PagingSegment.Deallocate` | osfmk/src/default_pager/dp_backing_store.c:1161-1197 | Refuses exactly the numbers out of range; otherwise one bit is cleared and the count rises, and the segment stays in order exactly if the cluster was in use. |
| `PagingSegments.FreeCount` | osfmk/src/default_pager/dp_backing_store.c:1174-1176 | Clearing a bit makes one cluster more free if it was in use, and none if it was not. |
| `PagingSegments.LowestClear` | osfmk/src/default_pager/dp_backing_store.c:1134-1147 | The first byte that is not full and its first clear bit are the lowest clear bit of the whole bitmap. |
| `PagingSegments.LowestIsReal` | osfmk/src/default_pager/dp_backing_store.c:1146-1152 | If some cluster of the segment is free, the lowest clear bit is one too: the padding bits are never handed out. |
| `SegmentRuns.ClaimFinds` | osfmk/src/default_pager/dp_backing_store.c:1094-1156 | A thread that holds a reservation always finds a lowest clear bit, and it is below the segment size and held by nobody. |
| `SegmentRuns.StepConserves` | osfmk/src/default_pager/dp_backing_store.c:1001-1197 | Reserving, claiming and freeing each keep: clear bits below the size number the free count plus the reservations not yet claimed. |
| `SegmentRuns.RunsConserve` | osfmk/src/default_pager/dp_backing_store.c:1001-1197 | Over every interleaving of any number of threads that count is kept, and every claim returns an in-range cluster distinct from all held ones. |
| `SegmentRuns.FreeKeepsCountIff` | osfmk/src/default_pager/dp_backing_store.c:1160-1197 | Freeing a cluster keeps the count if and only if its bit was set: a double free is exactly what would break it. |
| `SegmentTables.CyclicOrder` | osfmk/src/default_pager/dp_backing_store.c:1049-1085 | The scan after the last index used is a permutation of the table that ends at that index. |
| `SegmentTables.FirstVisited` | osfmk/src/default_pager/dp_backing_store.c:1049-1085 | The index a scan stops at is the first eligible one in cyclic order after the last one used. |
| `SegmentTables.SegmentTable.Enter` | osfmk/src/default_pager/dp_backing_store.c:643-671 | A segment goes in at the end exactly when the table has room; the start index of its priority is set only if that priority was unused. |
| `SegmentTables.SegmentTable.ScanPriority` | osfmk/src/default_pager/dp_backing_store.c:1047-1085 | One priority: visits each index at most once in cyclic order; takes one count from the first eligible segment, or visits all and marks the priority full because none is eligible. |
| `SegmentTables.SegmentTable.Select` | osfmk/src/default_pager/dp_backing_store.c:1001-1089 | Takes exactly one count from an eligible segment of the highest possible priority, in round-robin order; finds none only if no live segment has a free cluster; and leaves the table exactly when it comes to a priority marked full before it finds one. |
| `SegmentTables.RefusedTwice` | osfmk/src/default_pager/dp_backing_store.c:1047-1050 | A concrete failing family: two refusals in a row make the second scan start at index -1. |
| `SegmentTables.AddedWhileFull` | osfmk/src/default_pager/dp_backing_store.c:643-671 | A segment added while its priority is marked full is not reached: the next selection reads index -1 of the table instead. |
| `SegmentTables.ChosenAsMeant` | osfmk/src/default_pager/dp_backing_store.c:1047-1050 | A segment chosen from the marks as they are is the one that is meant, where a priority marked full starts again at 0. |
| `SegmentTables.SelectAsMeant` | osfmk/src/default_pager/dp_backing_store.c:1001-1089 | With that meaning the table is never left, and a segment is found if and only if one of those large enough has a free cluster. |
| `SegmentAllocation.StepProjects` | osfmk/src/default_pager/dp_backing_store.c:1001-1197 | With all segments shared by all threads, each stretch is one of its own segment as in SegmentRuns and leaves the other segments as they are. |
| `SegmentAllocation.RunsConserve` | osfmk/src/default_pager/dp_backing_store.c:1001-1197 | Over every interleaving, in every segment the clear clusters are those counted and those spoken for. |
| `SegmentAllocation.RefusedIff` | osfmk/src/default_pager/dp_backing_store.c:1001-1116 | With several segments an allocation is refused if and only if every segment that is large enough has all its clear clusters spoken for by other threads; one that is served gets a segment with one to spare. |
| `SegmentAllocation.ClaimServes` | osfmk/src/default_pager/dp_backing_store.c:1094-1156 | The claim that follows always finds a cluster, the lowest of its segment, and it is one of the free clusters that a ps_clmap of the pager model may be given. |
| `SegmentAllocation.FreeServes` | osfmk/src/default_pager/dp_backing_store.c:1161-1197 | A cluster that the pager gives back is given back to the bitmap and its count. |
| `Slots.ClusterNumberLimit` | osfmk/src/default_pager/default_pager_internal.h:377-397 | A cluster number survives the 23-bit field and does not look like a clear entry exactly below 0x7fffff. |
| `Slots.Shift` | osfmk/src/default_pager/default_pager_internal.h:464-467 | CLMAP_SHIFT renumbers the pages from an offset on: page i of the result is page i + off of the map. |
| `Slots.ExtendedKeepsLookups` | osfmk/src/default_pager/dp_backing_store.c:1261-1368 | Growing the map changes no lookup: old entries stay, new ones read as clear. |
| `Slots.WithBlockKeepsLookups` | osfmk/src/default_pager/dp_backing_store.c:1421-1442 | Allocating an indirect block changes no lookup and makes the slot present. |
| `Slots.ClmapEffect` | osfmk/src/default_pager/dp_backing_store.c:1370-1578 | A ps_clmap call changes at most the entry of its own cluster, in the way the entry automaton says, or reports that there is no slot or no memory and changes no entry. |
| `Unmapping.ClunmapIs` | osfmk/src/default_pager/dp_backing_store.c:1598-1646 | The loop over pages is the loop over clusters, for every range and every table. |
| `Unmapping.ClunmapAll` | osfmk/src/default_pager/dp_backing_store.c:1582-1649 | For every range: each entry loses exactly its pages of the range, up to the first missing block; all others stay; and the clusters left without an allocated page are given back in order. |
| `VsMaps.VsMap.constructor` | osfmk/src/default_pager/dp_backing_store.c:917-997 | A new object reads clear everywhere, is direct or indirect by its size, and commits that many clusters. |
| `VsMaps.VsMap.Get` | osfmk/src/default_pager/dp_backing_store.c:1421-1447 | Reading slot k through the direct array or the block pointers gives the k-th entry of the flat table. |
| `VsMaps.VsMap.Put` | osfmk/src/default_pager/dp_backing_store.c:1421-1447 | Writing an entry changes one place of the flat table and keeps the structure. |
| `VsMaps.VsMap.Extend` | osfmk/src/default_pager/dp_backing_store.c:1261-1368 | Succeeds exactly when its allocations do; extends the flat table, or changes nothing at all on failure; what is freed has the size with which it was allocated; the committed total moves by the change of size. |
| `VsMaps.VsMap.GrowPointers` | osfmk/src/default_pager/dp_backing_store.c:1309-1320 | A larger array of block pointers holds the same blocks: the flat table is the extended one. |
| `VsMaps.VsMap.GrowDirect` | osfmk/src/default_pager/dp_backing_store.c:1331-1363 | A larger direct array is the extended flat table. |
| `VsMaps.VsMap.DirectToIndirect` | osfmk/src/default_pager/dp_backing_store.c:1321-1363 | The direct array, copied into the first block of a new indirect map, is the extended flat table. |
| `VsMaps.VsMap.AllocateBlock` | osfmk/src/default_pager/dp_backing_store.c:1431-1441 | A new block of 64 clear entries makes the slot present and leaves every lookup alone. |
| `VsMaps.VsMap.MapCluster` | osfmk/src/default_pager/dp_backing_store.c:1370-1578 | ps_clmap on the real structure does what the flat function does, for both flags, every error and every allocation outcome, and keeps the committed total. |
| `VsMaps.VsMap.PagesFrom` | osfmk/src/default_pager/dp_backing_store.c:1507-1550 | The bit-setting loops add exactly the pages from the offset on, up to the size wanted or the end of the cluster. |
| `VsMaps.VsMap.UnmapClusters` | osfmk/src/default_pager/dp_backing_store.c:1582-1649 | ps_clunmap on the real structure does what the flat function does, and frees the same clusters in the same order. |
| `VsMaps.VsMap.Dealloc` | osfmk/src/default_pager/dp_backing_store.c:1201-1257 | Frees every mapped cluster of the object once, through blocks or the direct array, and takes its size off the committed total. |
| `Committed.SumChanged` | osfmk/src/default_pager/dp_backing_store.c:197-202 | A change of one size changes the sum of all by as much. |
| `Committed.Objects.constructor` | osfmk/src/default_pager/dp_backing_store.c:160 | With no objects nothing is committed. |
| `Committed.Objects.Create` | osfmk/src/default_pager/dp_backing_store.c:917-997 | With a new object the committed total is still the sum of the sizes of all live objects. |
| `Committed.Objects.MapCluster` | osfmk/src/default_pager/dp_backing_store.c:1370-1578 | So it is when a write makes an object grow, or cannot for lack of memory; all other objects are as they were. |
| `Committed.Objects.UnmapClusters` | osfmk/src/default_pager/dp_backing_store.c:1582-1649 | So it is when pages are unmapped: no size changes. |
| `Committed.Objects.Destroy` | osfmk/src/default_pager/dp_backing_store.c:1213-1257 | So it is when an object goes, with all its clusters. |
| `Pager.Run` | osfmk/src/default_pager/dp_backing_store.c:2105-2124 | The counting loop ends at the first page whose valid bit differs, or at the limit. |
| `Pager.WriteDisk` | osfmk/src/default_pager/dp_backing_store.c:1926-2012 | A device write changes the pages written and no other. |
| `PagerRuns.InitialInv` | osfmk/src/default_pager/dp_backing_store.c:674-764 | The empty store satisfies the invariant. |
| `PagerRuns.FailMarkKeepsIff` | osfmk/src/default_pager/dp_backing_store.c:1541-1565 | Recording an error for pages that never reached the device keeps the invariant exactly if the cluster is in error already, or is not being read, or has an allocated page that is not. |
| `PagerRuns.StepKeeps` | osfmk/src/default_pager/dp_backing_store.c:2016-2347 | Every step keeps the invariant, but for the error just described: mapped entries name in-range used clusters, no two entries share one, valid pages are allocated, every set bit is mapped or a lost cluster 0, transfers stay backed and apart. |
| `PagerRuns.PathsKeep` | osfmk/src/default_pager/dp_backing_store.c:2016-2347 | From any state in order the invariant is kept along every path of such steps. |
| `PagerRuns.RunsKeep` | osfmk/src/default_pager/dp_backing_store.c:2016-2347 | It holds in every state of every run of interleaved transfers on any number of objects and segments, write errors included, in which each error spares some page of a cluster being read. |
| `PagerRuns.ErrorFreesHeld` | osfmk/src/default_pager/dp_backing_store.c:1541-1565 | A write error gives a cluster back exactly if the entry names one with a number other than 0; it is that one, and it is in use. |
| `PagerRuns.ReadFreesHeldIff` | osfmk/src/default_pager/dp_backing_store.c:2016-2047 | Supplying pages gives back nothing or the cluster they were read from, still in use, exactly unless an error has hit it and the read covers all its allocated pages; then it gives back the cluster that has the error code for its number. |
| `PagerRuns.ReadFreesHeld` | osfmk/src/default_pager/dp_backing_store.c:2016-2047 | Under the invariant no error code is taken for a cluster. |
| `PagerSteps.MappedLocsAre` | osfmk/src/default_pager/dp_backing_store.c:1201-1257 | The clusters freed with an object are exactly those its entries name. |
| `PagerSteps.MappedLocsDistinct` | osfmk/src/default_pager/dp_backing_store.c:1201-1257 | No cluster is freed twice when an object is destroyed. |
| `PagerSteps.WriteDoneKeeps` | osfmk/src/default_pager/dp_backing_store.c:1653-1673 | A write completion, successful or not, keeps the invariant. |
| `PagerSteps.DestroyKeeps` | osfmk/src/default_pager/dp_backing_store.c:1213-1257 | Destroying an object keeps the invariant for all others. |
| `PagerStore.StepRefines` | osfmk/src/default_pager/dp_backing_store.c:2016-2347 | Each step that is no unclean error is a step of a plain store: a completed write stores its pages, a supply hands over what was stored last and takes it out, an unavailable reply is only for pages not stored, an error reply only for a ruined cluster or a device that fails. |
| `PagerStore.ReadIsOnDisk` | osfmk/src/default_pager/dp_backing_store.c:2125-2140 | A read that has found valid pages can always be made: the disk holds all of them. |
| `PagerStore.ReadStores` | osfmk/src/default_pager/dp_backing_store.c:2125-2160 | While a read has still to be made its pages are stored, and the disk holds their contents in the place it reads, also in a lost cluster. |
| `PagerStore.EndedRefines` | osfmk/src/default_pager/dp_backing_store.c:2195-2246 | A read that fails, and any write of a ruined cluster that completes, leave the store as it is. |
| `PagerStore.DestroyRefines` | osfmk/src/default_pager/dp_backing_store.c:1213-1257 | Destroying an object empties its part of the store and touches no other object. |
| `PagerStore.PathsRefine` | osfmk/src/default_pager/dp_backing_store.c:2016-2347 | From any state that refines a store the pager follows it along every path without unclean errors. |
| `PagerStore.RunsRefine` | osfmk/src/default_pager/dp_backing_store.c:2016-2347 | Over every run in which no error gives back a cluster while another transfer of it has still to go to the disk, the pager follows a run of the store of contents, step by step. |
| `PagerExact.NotDoomed` | osfmk/src/default_pager/dp_backing_store.c:2016-2347 | Where the pager refines the store, every way on without errors is one of the store. |
| `PagerExact.LateWrite` | osfmk/src/default_pager/dp_backing_store.c:1926-2012 | A write that comes late to a cluster given back goes over the page of its new owner, who is then supplied with the wrong content. |
| `PagerExact.LateRead` | osfmk/src/default_pager/dp_backing_store.c:2125-2160 | A read that comes late to a cluster given back is supplied with the page of its new owner. |
| `PagerExact.UncleanDooms` | osfmk/src/default_pager/dp_backing_store.c:1541-1565 | From every state in order, an error that gives back a cluster with such a transfer out has a way on, without any further error, that no run of the store follows. |
| `PagerExact.CleanIff` | osfmk/src/default_pager/dp_backing_store.c:1541-1565 | So the condition is exact: an error comes cleanly if and only if every way on without errors is one of the store. |
| `PagerExact.CoveredExposes` | osfmk/src/default_pager/dp_backing_store.c:2016-2047 | When all allocated pages of a cluster in error are being read, the last of these reads to be answered frees a cluster by the error code. |
| `PagerExact.SparedIff` | osfmk/src/default_pager/dp_backing_store.c:1541-1565 | So the other condition is exact too: an error spares a page of what is being read if and only if no way on without errors takes an error code for a cluster. |
| `PagerErrors.ErrorMixesObjects` | osfmk/src/default_pager/dp_backing_store.c:1541-1565 | Without that condition it fails: a run in which an object stores 22, writes nothing else and is supplied 11, because an error gave away a cluster that another write was still going to. |
| `PagerCodes.CodeFreesOther` | osfmk/src/default_pager/dp_backing_store.c:2337-2346 | A run from the empty store in which a read, a write that fails on its first page and the error recorded for its second together free the cluster of another object. |
| `ClusterIO.TilesCoverOnce` | osfmk/src/default_pager/dp_backing_store.c:2064-2256 | Of messages that tile a range exactly one covers any page of it. |
| `ClusterIO.TilesBounds` | osfmk/src/default_pager/dp_backing_store.c:2064-2256 | No message of a tiling goes outside the range. |
| `ClusterIO.LookupShape` | osfmk/src/default_pager/dp_backing_store.c:1492-1528 | Every lookup in every map gives the read loop what it relies on: a failure, or the rest of the cluster with at least one page. |
| `ClusterIO.CountPages` | osfmk/src/default_pager/dp_backing_store.c:2105-2124 | The counting loop finds a longest run, never empty, of pages all valid or all missing. |
| `ClusterIO.ReadOnce` | osfmk/src/default_pager/dp_backing_store.c:2064-2254 | One round answers a non-empty part of the range from its start, with the kind of reply the map and the device justify. |
| `ClusterIO.ClusterRead` | osfmk/src/default_pager/dp_backing_store.c:2050-2256 | The replies tile what was dealt with, in order, without gap or overlap, each justified; a read error ends the loop and is the last reply, and with full device reads the whole range is covered. |
| `ClusterIO.Removal` | osfmk/src/default_pager/dp_backing_store.c:1755-1785 | Taking a request off the outstanding ones lowers the page counts by exactly its own. |
| `ClusterIO.Replaced` | osfmk/src/default_pager/dp_backing_store.c:2330-2332 | What is left to one thread changes the page counts by exactly the difference. |
| `ClusterIO.Writer.WriteReply` | osfmk/src/default_pager/dp_backing_store.c:1755-1785 | A reply, in any order and at any time, also while loops have pages left, completes exactly the pages of its request and keeps the balance of every page and of vs_async_pending. |
| `ClusterIO.Writer.ClusterWrite` | osfmk/src/default_pager/dp_backing_store.c:2260-2347 | With any steps of any other threads between its own, and whatever goes wrong in any round: each page ever handed in is with a thread, under one outstanding request, or completed, and as many times in all as it was handed in; vs_async_pending is the number of pages issued and not completed; and the thread has nothing left. |
| `ClusterIO.Writer.DoCountIn` | osfmk/src/default_pager/dp_backing_store.c:2310-2318 | Raising vs_async_pending moves pages from those left to those being sent: the balance of every page is kept. |
| `ClusterIO.Writer.DoRefuse` | osfmk/src/default_pager/dp_backing_store.c:1950-1975 | A request that the device refuses is completed at once and no longer pending: the balance is kept. |
| `ClusterIO.Writer.DoRest` | osfmk/src/default_pager/dp_backing_store.c:2337-2346 | The pages that never reach the device are completed in one call: the balance is kept and nothing is left of the loop. |
| `ClusterIO.Writer.Others` | osfmk/src/default_pager/dp_backing_store.c:2260-2347 | Any steps of any other threads, in any order, keep the balance and touch nothing of this one. |
| `ClusterIO.Writer.Transfer` | osfmk/src/default_pager/dp_backing_store.c:2304-2332 | One round moves exactly its pages out of the loop, whatever other threads do between counting and sending them. |
| `ClusterIO.AllAnswered` | osfmk/src/default_pager/dp_backing_store.c:1677-1785 | When no thread is writing and no reply is due, the pending count is 0 and every page was completed exactly as often as it was handed in. |
| `ProtocolInvariant.CountersZero` | osfmk/src/default_pager/dp_memory_object.c:174-235 | When the writer and pending counts are 0 every earlier write is finished with none of its pages pending, and likewise for readers. |
| `ProtocolInvariant.CountersPositive` | osfmk/src/default_pager/dp_memory_object.c:164-235 | A request between its start and its finish is in the count: no decrement goes below zero. |
| `ProtocolSteps.StepKeeps` | osfmk/src/default_pager/dp_memory_object.c:105-235 | Every step of every thread, every message and every reply keeps the invariant on order, counts, waits passed and threads to be woken. |
| `ProtocolSteps.MoveOrdered` | osfmk/src/default_pager/dp_memory_object.c:551-581 | A wait once passed stays passed until the request goes on, although the waits drop and retake the lock. |
| `ProtocolSteps.MoveAwakened` | osfmk/src/default_pager/dp_memory_object.c:108-235 | No wake-up is lost: whoever sleeps while the condition holds is about to be woken. |
| `ProtocolRuns.RunsKeep` | osfmk/src/default_pager/dp_memory_object.c:89-235 | The invariant holds after every legal sequence of steps. |
| `ProtocolRuns.ReadsSeeWrites` | osfmk/src/default_pager/dp_memory_object.c:658-693 | While a read numbered k is under way, every write numbered below k has finished and none of its pages is pending, in every interleaving. |
| `ProtocolRuns.ReadStartsQuiet` | osfmk/src/default_pager/dp_memory_object.c:671-676 | At the moment a read starts no page of the object is pending and nobody is writing. |
| `ProtocolRuns.TerminationIsLast` | osfmk/src/default_pager/dp_memory_object.c:551-581 | A termination past its waits has every read and write numbered below it behind it. |
| `ProtocolRuns.Progress` | osfmk/src/default_pager/dp_memory_object.c:135-235 | No deadlock: whenever a request is unfinished some thread can run, or an asynchronous reply or its broadcast is due. |
| `ProtocolRuns.StepsLeft` | osfmk/src/default_pager/dp_memory_object.c:135-235 | Every step that finishes work lowers a natural number, so none can go on for ever without new messages. |
| `ProtocolRuns.EveryRequestServed` | osfmk/src/default_pager/dp_memory_object.c:135-235 | Any maximal sequence of finishing steps is bounded in length and ends with every request served. |
| `ProtocolRefs.EveryMoveRefs` | osfmk/src/default_pager/dp_memory_object.c:308-334 | No stretch of a handler changes the count of a port without accounting for the references it takes over or gives up. |
| `ProtocolRefs.MoveConserves` | osfmk/src/default_pager/dp_memory_object.c:308-334 | One stretch of a handler keeps references held equal to those accounted for, for every port. |
| `ProtocolRefs.RunsKeepRefs` | osfmk/src/default_pager/dp_memory_object.c:308-334 | Conservation of references, and the kernel order of messages that it needs, hold after every legal sequence of steps. |
| `ProtocolRefs.ReferencesConserved` | osfmk/src/default_pager/dp_memory_object.c:308-334 | In every reachable state the references held are vs_control_refs plus those of requests not yet admitted plus those being given up, and no count is negative. |
| `ProtocolRefs.TerminationDropsAll` | osfmk/src/default_pager/dp_memory_object.c:571-590 | What a termination gives up is all there is: afterwards its port holds exactly zero references, whatever requests come meanwhile. |
| `ProtocolRefs.NoBadRequest` | osfmk/src/default_pager/dp_memory_object.c:601-640 | The panic of an initialization or a no-senders notification that finds a control port cannot happen. |
| `ProtocolEnds.RunsEnd` | osfmk/src/default_pager/dp_memory_object.c:535-640 | After every legal sequence: below a termination that has had its turn nothing is read, written or pending, and a no-senders notification comes right after one. |
| `ProtocolEnds.FreedIdle` | osfmk/src/default_pager/dp_memory_object.c:600-640 | When the no-senders handler frees the object nobody reads or writes it and no page is pending, though it waits for the pending pages alone. |
| `ProtocolEnds.FreedTouchedIff` | osfmk/src/default_pager/dp_memory_object.c:149-158 | After that some thread or reply still touches the object, on some way on, if and only if a broadcast is owed at that moment: by a request that has just dropped the lock, or by a completion. |
| `ProtocolEnds.FreedTooEarly` | osfmk/src/default_pager/dp_memory_object.c:149-158 | There is such a run: the termination drops the lock, and the object is freed before its broadcast. |
| `Together.StepKeeps` | osfmk/src/default_pager/dp_memory_object.c:658-693 | Protocol and pager side by side: the write transfers that are out are those the requests have sent, the pending count of the protocol is that of the asynchronous ones, and every fetch is of a read at work. |
| `Together.RunsKeep` | osfmk/src/default_pager/dp_memory_object.c:658-693 | So it is over every interleaving of requests, transfers, replies and transfers of other objects. |
| `Together.ReplyDue` | osfmk/src/default_pager/dp_backing_store.c:1755-1785 | A reply to a transfer that is out can always be counted: vs_async_pending does not go below zero. |
| `Together.EarlierWritesOver` | osfmk/src/default_pager/dp_memory_object.c:671-676 | While a data request reads, no transfer of a write with a lower number is out in the pager. |
| `Together.NothingOut` | osfmk/src/default_pager/dp_memory_object.c:600-640 | When the no-senders notification frees the object, no transfer of it is out in the pager. |
| `Together.FreeReady` | osfmk/src/default_pager/dp_memory_object.c:600-640 | So whenever the handler gets there the pager can destroy the object. |
| `PagerReads.ReadPagesStay` | osfmk/src/default_pager/dp_backing_store.c:2016-2256 | The pages under a read stay stored as they are, whatever step of whatever thread comes, until it is answered or fails. |
| `PagerReads.SuppliedAsMapped` | osfmk/src/default_pager/dp_backing_store.c:2016-2256 | Along any clean path from any good state, what a read is supplied is what the store held when its pages were mapped. |
| `Supplies.RunsGood` | osfmk/src/default_pager/dp_memory_object.c:89-97 | Over every clean run of both, every page of the object in the store has the data of the transfer that stored it last, and a page is not sent again while a transfer of it is out. |
| `Supplies.RequestSupplied` | osfmk/src/default_pager/dp_memory_object.c:658-693 | Over every clean run of both: data request k is supplied the data of the transfers that had stored its pages last when it mapped them, and by then those of all writes numbered below k were over. |
| `Supplies.LastWriteSupplied` | osfmk/src/default_pager/dp_memory_object.c:89-97 | If writes of one page are sent in the order of their numbers, a page supplied to request k is that of the last-numbered of the writes below k that was not lost, or of a later one. |
| `Supplies.RequestUnavailable` | osfmk/src/default_pager/dp_backing_store.c:2078-2110 | Pages that a data request is told are unavailable have not been stored, or have been supplied since. |
| `Ext2Blocks.IndexArithmeticFits` | osfmk/src/file_systems/ext2fs/ext2fs.c:769-778 | The 32-bit table of mount_fs has the true capacities if and only if blocks have at most 4096 bytes; then every index of a file fits too. |
| `Ext2Blocks.WalkFindsLeaf` | osfmk/src/file_systems/ext2fs/ext2fs.c:392-461 | The walk from a block number ends with a number exactly when every index block on the way is cached or readable, and then it is that leaf of the index tree. |
| `Ext2Blocks.NullReadIff` | osfmk/src/file_systems/ext2fs/ext2fs.c:397-406 | The walk reads from an empty cache level exactly when a pointer equals the number that marks one. |
| `Ext2Blocks.HoleIff` | osfmk/src/file_systems/ext2fs/ext2fs.c:392-461 | The walk returns 0 exactly when a pointer on the path is 0 and nothing above it is out of reach. |
| `Ext2Blocks.FindIsList` | osfmk/src/file_systems/ext2fs/ext2fs.c:358-384 | block_map gives entry fb of the block list made of direct, single, double and triple parts, and refuses exactly the indexes beyond it. |
| `Ext2Blocks.ClearIfReadable` | osfmk/src/file_systems/ext2fs/ext2fs.c:392-461 | With no failing device only leaves below numbers that are not on the device are out of reach. |
| `Ext2Blocks.PositionUnique` | osfmk/src/file_systems/ext2fs/ext2fs.c:507-508 | A byte position determines its block and its place there, and conversely. |
| `Ext2Blocks.FoundBytes` | osfmk/src/file_systems/ext2fs/ext2fs.c:525-541 | The block found for an index holds the bytes of the file there: zeros for a hole. |
| `Ext2Blocks.StepIsPart` | osfmk/src/file_systems/ext2fs/ext2fs.c:1064-1088 | A slice of one block is the file contents from the position it was asked for. |
| `Ext2Files.Ext2File.Fetch` | osfmk/src/file_systems/ext2fs/ext2fs.c:397-451 | One level of the cache: after it the level holds the block asked for; a miss replaces one region, which nothing else refers to. |
| `Ext2Files.Ext2File.FreeReplaced` | osfmk/src/file_systems/ext2fs/ext2fs.c:465-473 | Frees exactly the regions that were replaced, each once. |
| `Ext2Files.Ext2File.Descend` | osfmk/src/file_systems/ext2fs/ext2fs.c:384-476 | The cached descent equals the walk without cache; when it succeeds no region is lost, and on a device error exactly the replaced ones are. |
| `Ext2Files.Ext2File.BlockMap` | osfmk/src/file_systems/ext2fs/ext2fs.c:310-477 | For every call sequence the cached lookup equals the pure one, keeps the cache right and leaks nothing on success. |
| `Ext2Files.Ext2File.FreeFileBuffers` | osfmk/src/file_systems/ext2fs/ext2fs.c:201-225 | Frees each cached region once, the data buffer included, and empties the caches. |
| `Ext2Blocks.SlotsRightIff` | osfmk/src/file_systems/ext2fs/ext2_ffs_compat.c:78-83 | ext2_itoo, which does not look at the group, gives the slot of every inode exactly if groups are whole blocks of the table. |
| `Ext2Blocks.InodePlace` | osfmk/src/file_systems/ext2fs/ext2_ffs_compat.c:56-83 | Then block and slot together are the index of the inode in its group: no two inodes share a place. |
| `Ext2Files.Ext2File.ReadInode` | osfmk/src/file_systems/ext2fs/ext2fs.c:235-306 | Succeeds exactly if the block of the inode can be read; takes size and block numbers from its slot there and leaves nothing of another inode in the caches; on an error nothing changes. |
| `Ext2Files.Ext2File.LoadBlock` | osfmk/src/file_systems/ext2fs/ext2fs.c:511-554 | The data cache comes to hold the block it names; it goes stale exactly when the device fails on a block in place of one that was held. |
| `Ext2Files.Ext2File.ReadInto` | osfmk/src/file_systems/ext2fs/ext2fs.c:556-580 | A whole block straight into the caller has the bytes of the file, zeros for a hole, and nothing else is touched. |
| `Ext2Files.Ext2File.BufReadFile` | osfmk/src/file_systems/ext2fs/ext2fs.c:483-589 | Which of the two paths is taken (a null destination goes through the data buffer), and how many bytes of the file it finds; with no device error it finds them unless the cache is stale for that block. |
| `Ext2Files.Ext2File.Locate` | osfmk/src/file_systems/ext2fs/ext2fs.c:1064-1078 | The bytes found are the next ones of the block in which the offset lies, wherever they were put. |
| `Ext2Files.Ext2File.Deliver` | osfmk/src/file_systems/ext2fs/ext2fs.c:1079-1088 | Put in place, they are the contents of the file at the offset, and nothing else is touched. |
| `Ext2Files.Ext2File.ReadStep` | osfmk/src/file_systems/ext2fs/ext2fs.c:1064-1088 | One round puts the next bytes of the file in place and leaves the rest of the read as possible as it was. |
| `Ext2Files.Ext2File.ReadFile` | osfmk/src/file_systems/ext2fs/ext2fs.c:1049-1096 | The destination gets exactly the bytes of the file and nothing outside it is written; on a whole device the read succeeds if and only if it stays within the file or its last step takes the final hole at once, at an aligned address other than 0. |
| `Ext2Files.StepSucceeds` | osfmk/src/file_systems/ext2fs/ext2fs.c:1064-1088 | A step neither makes the rest of a read possible nor impossible, for every alignment and size. |
| `Ext2Threads.StepKeeps` | osfmk/src/file_systems/ext2fs/ext2fs.c:310-477 | With any number of threads on one file, whose lock is dropped for each device read, every region of memory has exactly one owner: a level of the cache, a thread that has just read it, or one that has replaced it. |
| `Ext2Threads.FreedOnce` | osfmk/src/file_systems/ext2fs/ext2fs.c:439-477 | Over every run: a region is freed while it is there, and no level of the cache and no other thread has it or will free it. |
| `Ext2Threads.LooksAtBlock` | osfmk/src/file_systems/ext2fs/ext2fs.c:397-451 | Over every run: the data a thread looks into is in memory and is that of its index block, whatever the others have replaced. |
| `Ext2Threads.FindsLeaf` | osfmk/src/file_systems/ext2fs/ext2fs.c:310-477 | Over every run, what a thread finds is the leaf of the tree that it asked for. |
| `Ext2Threads.LostOnlyByErrors` | osfmk/src/file_systems/ext2fs/ext2fs.c:412-422 | Without device errors no region is lost: when all threads are done only the cache has any. |
| `PathNames.Split` | osfmk/src/file_systems/ext2fs/ext2fs.c:853-874 | The first component is followed by a shorter rest that is empty or starts with a slash. |
| `PathNames.Step` | osfmk/src/file_systems/ext2fs/ext2fs.c:845-1003 | The measure: a component leaves fewer characters, or a link uses one of the eight that may be followed. |
| `PathNames.ComponentLimit` | osfmk/src/file_systems/ext2fs/ext2fs.c:862-873 | A component of 7-bit characters is accepted exactly if it has at most one character more than the limit. |
| `PathLookup.Memcpy` | osfmk/src/file_systems/file_system.c:287-302 | A left-to-right copy is right whenever the ranges are apart or the move is to the left. |
| `PathLookup.Ovbcopy` | osfmk/src/file_systems/file_system.c:287-302 | The overlapping move puts the old bytes of the source in the destination and changes nothing else, in both directions. |
| `PathLookup.Skip` | osfmk/src/file_systems/ext2fs/ext2fs.c:856-857 | The pointer comes past all slashes, to the string that remains. |
| `PathLookup.FindEnd` | osfmk/src/file_systems/ext2fs/ext2fs.c:862-873 | The scan ends at the slash or null after the component, or gives the error the name deserves. |
| `PathLookup.NextComponent` | osfmk/src/file_systems/ext2fs/ext2fs.c:853-874 | In the buffer, the component and what follows it are those of the split path. |
| `PathLookup.Splice` | osfmk/src/file_systems/ext2fs/ext2fs.c:897-942 | After a link the buffer holds the text of the link followed by the unparsed rest, at its front; it never writes outside the buffer, and refuses exactly what is too long. |
| `PathLookup.Search` | osfmk/src/file_systems/ext2fs/ext2fs.c:873-886 | The null put after the name is taken back: the buffer is as it was after the search. |
| `PathLookup.LookupStep` | osfmk/src/file_systems/ext2fs/ext2fs.c:845-1003 | One round on the buffer is one step of the resolver on the string the buffer holds. |
| `PathLookup.FollowLink` | osfmk/src/file_systems/ext2fs/ext2fs.c:897-1002 | A link leads on from the parent directory or, if the new path starts with a slash, from the root. |
| `PathLookup.OpenFile` | osfmk/src/file_systems/ext2fs/ext2fs.c:805-1010 | The lookup that edits its buffer in place ends, and gives the result of the resolver on the path, errors included. |
| `PathLinks.SplitJoin` | osfmk/src/file_systems/ext2fs/ext2fs.c:853-874 | The first component of a path does not depend on what is joined to its end. |
| `PathLinks.StepJoin` | osfmk/src/file_systems/ext2fs/ext2fs.c:845-1003 | A step of a joined path is a step of its first part with the rest joined on, unless what a link leaves does not fit the buffer, which is an error of its own. |
| `PathLinks.ResolveJoin` | osfmk/src/file_systems/ext2fs/ext2fs.c:845-1003 | Looking up a joined path is looking up its first part and then the rest from there, unless what a link leaves does not fit the buffer. |
| `PathLinks.NestedAgrees` | osfmk/src/file_systems/ext2fs/ext2fs.c:845-1003 | The splicing lookup agrees with a recursive resolver that looks up the text of a link by itself and then goes on, for texts that are not empty and do not end in a slash, unless what a link leaves does not fit the buffer. |
| `PathLinks.SlashDiffers` | osfmk/src/file_systems/ext2fs/ext2fs.c:897-1002 | For every text that ends in a slash there is a tree and a path on which the two differ: the path is found, the slashes running together in the buffer, and by itself the text is not. |
| `PathLinks.EmptyDiffers` | osfmk/src/file_systems/ext2fs/ext2fs.c:945-956 | For an empty text they differ: the rest is taken from the root. |
| `PathLinks.TextAgreesIff` | osfmk/src/file_systems/ext2fs/ext2fs.c:845-1003 | The two agree on a link text of 7-bit characters that fits the buffer, in all trees with that text and on all paths, if and only if it is not empty and does not end in a slash. |
| `PathLinks.TrailingSlash` | osfmk/src/file_systems/ext2fs/ext2fs.c:845-884 | A path that ends in a slash looks up an empty name and fails wherever a directory has no entry of that name. |
| `Kalloc.Allocator.SizeClass` | osfmk/src/default_pager/kalloc.c:273-281 | The list chosen has the least block size that is large enough. |
| `Kalloc.Allocator.constructor` | osfmk/src/default_pager/kalloc.c:164-190 | A fresh allocator has no blocks and no space. |
| `Kalloc.Allocator.Pop` | osfmk/src/default_pager/kalloc.c:288-293 | Takes a free block of the list, if there is one, and keeps all lists linked through their blocks. |
| `Kalloc.Allocator.Push` | osfmk/src/default_pager/kalloc.c:323-328 | A block in use becomes the head of its list. |
| `Kalloc.Allocator.Carve` | osfmk/src/default_pager/kalloc.c:249-251 | A block carved from the front of the tail is new, and no block there was is changed. |
| `Kalloc.Allocator.Install` | osfmk/src/default_pager/kalloc.c:230-246 | Space mapped while the lock was dropped extends the tail it follows, or takes its place, the rest of the old tail being counted as wasted. |
| `Kalloc.Allocator.CarveWith` | osfmk/src/default_pager/kalloc.c:203-256 | Once a region has been mapped a block comes out, whatever other threads did to the tail meanwhile. |
| `Kalloc.Allocator.GetSpace` | osfmk/src/default_pager/kalloc.c:195-257 | A new block, or none exactly when there is no room and the kernel has no memory; no region stays in flight. |
| `Kalloc.Allocator.AllocSmall` | osfmk/src/default_pager/kalloc.c:288-298 | The block was free or is new, and is now in use. |
| `Kalloc.Allocator.Alloc` | osfmk/src/default_pager/kalloc.c:260-304 | A block of the least sufficient size that nobody else holds, off a list, from the tail or from new space. |
| `Kalloc.Allocator.Free` | osfmk/src/default_pager/kalloc.c:308-332 | The block of the size it was allocated with goes free, and no other block changes. |
| `Kalloc.Allocator.BlocksApart` | osfmk/src/default_pager/kalloc.c:195-332 | Two blocks, live or free, never overlap, and every address is a multiple of 4. |
| `Kalloc.Allocator.Partition` | osfmk/src/default_pager/kalloc.c:195-332 | Every byte of small-block space is in exactly one of: a block, the unused tail, a region in flight, the counted waste. |
| `KallocRuns.StepKeeps` | osfmk/src/default_pager/kalloc.c:195-332 | Each stretch of any thread keeps all space accounted for and the regions in flight one to a thread. |
| `KallocRuns.RunsKeep` | osfmk/src/default_pager/kalloc.c:195-332 | Over every interleaving of any number of threads. |
| `KallocRuns.FlightStays` | osfmk/src/default_pager/kalloc.c:203-256 | A region mapped while the lock was dropped stays its thread's, byte by byte, whatever the others do. |
| `Kalloc.SameClass` | osfmk/src/default_pager/kalloc.c:313-321 | A size belongs to one list only, so kfree finds the list kalloc took the block from. |
| `Kalloc.PortRoundTrip` | osfmk/src/default_pager/default_pager_internal.h:574-576 | An address comes back from its port name if and only if it is a multiple of 4, and every name that passes the test is that of one. |
| `Queues.Links.Init` | osfmk/src/default_pager/queue.h:142 | The head alone is an empty queue. |
| `Queues.Links.Empty` | osfmk/src/default_pager/queue.h:205 | True exactly for a queue without elements. |
| `Queues.Links.Enter` | osfmk/src/default_pager/queue.h:225-239 | The element becomes the last, all others keep their order, and only this queue is written. |
| `Queues.Links.Remove` | osfmk/src/default_pager/queue.h:285-301 | Exactly the element goes, all others keep their order. |
| `Queues.Links.RemoveFirst` | osfmk/src/default_pager/queue.h:312-324 | The first element is returned and goes. |
| `Queues.Links.Iterate` | osfmk/src/default_pager/queue.h:372-375 | Visits every element once, in order, and ends. |
| `Queues.OthersKept` | osfmk/src/default_pager/queue.h:225-324 | A queue that shares no entry with one changed is as it was. |
| `Queues.EnterRing` | osfmk/src/default_pager/queue.h:225-239 | Four pointer writes turn the ring of a queue into that of the queue with the element last. |
| `Queues.RemoveRing` | osfmk/src/default_pager/queue.h:285-301 | Two pointer writes turn the ring into that without the element. |
| `MinixWriter.OrBit` | tools/mkminix.py:69-70 | Setting a bit of a byte sets that bit and no other. |
| `MinixWriter.SetBitIs` | tools/mkminix.py:69-70 | In a bit map exactly the given bit becomes set. |
| `MinixWriter.AllocBit` | tools/mkminix.py:74-84 | The scan sets and returns the first clear bit from 1 on, which is the next number, or changes nothing when the map is full. |
| `MinixWriter.WriteSuper` | tools/mkminix.py:60-63 | The superblock has the magic number and the map sizes that the reader takes from it. |
| `MinixWriter.ReserveBits` | tools/mkminix.py:69-72 | Both maps start with bit 0 in use and all others free. |
| `MinixWriter.Writer.constructor` | tools/mkminix.py:43-72 | The empty image has a valid superblock and empty maps, for every size. |
| `MinixWriter.Writer.AllocIno` | tools/mkminix.py:74-78 | Inodes are given out in order, up to 480. |
| `MinixWriter.Writer.AllocZone` | tools/mkminix.py:80-84 | Zones are given out in order, up to one less than the data zones. |
| `MinixWriter.Writer.WriteIndirect` | tools/mkminix.py:105-112 | A fresh zone lists the given zones, and older zones are untouched. |
| `MinixWriter.Writer.WriteZones` | tools/mkminix.py:120-126 | The data lies in consecutive fresh zones; it succeeds exactly when there are enough. |
| `MinixWriter.Writer.WriteDouble` | tools/mkminix.py:133-137 | The doubly indirect part lists every remaining zone, in shares of 512. |
| `MinixWriter.Writer.SetInode` | tools/mkminix.py:94-103 | The inode reads back with mode, size and the nine zone numbers, and nothing else is written. |
| `MinixWriter.Writer.WriteTree` | tools/mkminix.py:128-137 | The zone numbers of the inode lead, through direct, single and double indirect zones, to all data zones. |
| `MinixWriter.Writer.WriteFile` | tools/mkminix.py:120-139 | The image holds the file under a fresh inode and all that it held before; it succeeds exactly when an inode and enough zones are free. |
| `MinixWriter.SlotRead` | tools/mkminix.py:94-103 | The packed fields of an inode are what the reader makes of its 32 bytes. |
| `MinixDirectory.DirentReads` | tools/mkminix.py:114-118 | The reader finds in a directory entry the inode number and the name, up to all 14 bytes of it. |
| `MinixFiles.FileKept` | tools/mkminix.py:120-139 | A file stays readable as long as its inode and zones are not written to. |
| `MinixFiles.LeadsKept` | tools/mkminix.py:128-137 | So do the pointers that lead to its blocks. |
| `MinixFiles.BlockMapIs` | osfmk/src/file_systems/minixfs/minixfs.c:198-366 | Block b of a file of the writer is found in the b-th of its zones. |
| `MinixFiles.ReadsBack` | osfmk/src/file_systems/minixfs/minixfs.c:372-471 | Every byte of a file written reads back, by the reader's own arithmetic, as it was. |
| `MinixBuild.WriteDirectory` | tools/mkminix.py:213-219 | The directory zone holds its entries; if there are too many they run on into the zones that follow. |
| `MinixBuild.WriteFiles` | tools/mkminix.py:204-209 | All files are written one after the other and all stay readable; it succeeds exactly when the inodes and zones suffice. |
| `MinixBuild.Fill` | tools/mkminix.py:141-219 | Files and directories together: the image holds them all. |
| `MinixBuild.FileOverrun` | tools/mkminix.py:213-219 | Entries that run on over the files change their data and nothing else: no pointer is reached. |
| `MinixBuild.SparedIff` | tools/mkminix.py:213-219 | No byte of a file is overrun exactly if there are at most 64 entries or they end before it starts. |
| `MinixBuild.Build` | tools/mkminix.py:29-221 | Succeeds if and only if the names are short enough and there are inodes and zones for all; the image then holds both directories and every file with what remains of its data. |
| `MinixReader.InodeFits` | osfmk/src/file_systems/minixfs/minix_ffs_compat.c:48-70 | An inode never crosses a block boundary, so reading its block gives all of it. |
| `MinixReader.EntryFits` | osfmk/src/file_systems/minixfs/minixfs.c:497-518 | A directory entry never crosses a block boundary. |
| `MinixDirectory.SearchFinds` | osfmk/src/file_systems/minixfs/minixfs.c:477-520 | The search finds the first entry of the name among the first 64; those beyond are looked for in holes and never found. |
| `MinixCache.WalkIsPointer` | osfmk/src/file_systems/minixfs/minixfs.c:261-350 | The descent level by level is the single or double indirect lookup, for every index. |
| `MinixCache.OpenedFile.constructor` | osfmk/src/file_systems/minixfs/minixfs.c:570-597 | A file just opened has empty caches. |
| `MinixCache.OpenedFile.FreeFileBuffers` | osfmk/src/file_systems/minixfs/minixfs.c:111-140 | Nothing stays in any cache. |
| `MinixCache.OpenedFile.ReadInode` | osfmk/src/file_systems/minixfs/minixfs.c:145-192 | The inode is the one in the image and the caches hold nothing of another; on an error both stay. |
| `MinixCache.OpenedFile.Fetch` | osfmk/src/file_systems/minixfs/minixfs.c:285-340 | After a hit or a miss the level holds the zone asked for. |
| `MinixCache.FindsIs` | osfmk/src/file_systems/minixfs/minixfs.c:198-366 | What is found through the cache is what is in the image unless the device fails on the way. |
| `MinixCache.OpenedFile.Round` | osfmk/src/file_systems/minixfs/minixfs.c:280-350 | One level: the cache or the device gives the next zone number and index, and other levels stay. |
| `MinixCache.OpenedFile.Descend` | osfmk/src/file_systems/minixfs/minixfs.c:272-365 | The cached descent is exactly the walk through the cache, device failures included. |
| `MinixCache.OpenedFile.BlockMap` | osfmk/src/file_systems/minixfs/minixfs.c:198-366 | For every call sequence the cached lookup equals the uncached one, and refuses exactly the indexes beyond the double indirect range. |
| `MinixCache.OpenedFile.LoadBlock` | osfmk/src/file_systems/minixfs/minixfs.c:400-442 | The data buffer comes to hold the block it is named for, or the error is that of reading the block; it is left stale exactly if it was and is not replaced, or the device fails on the block in place of one that was held; a stale one gives a wild address for its block and for no other. |
| `MinixCache.OpenedFile.ReadInto` | osfmk/src/file_systems/minixfs/minixfs.c:444-462 | A direct read fills exactly one block of the caller with the zone found, zone 0 for a hole. |
| `MinixCache.OpenedFile.SearchDirectory` | osfmk/src/file_systems/minixfs/minixfs.c:477-520 | The search through the cache finds what is in the directory. |
| `MinixCache.OpenedFile.ReadStep` | osfmk/src/file_systems/minixfs/minixfs.c:768-787 | One round fills in the bytes planned for it, up to the end of the block, of the file or of the request; at a null address it goes through the data buffer. |
| `MinixCache.OpenedFile.ReadFile` | osfmk/src/file_systems/minixfs/minixfs.c:751-793 | The destination gets what is delivered for each position and nothing outside it is written; with no device error it succeeds if and only if there is something for each. |
| `MinixCache.DeliveredIs` | osfmk/src/file_systems/minixfs/minixfs.c:398-462 | What is delivered is the byte of the file if and only if it is not in a hole read directly, at an aligned address other than 0, over a zone 0 that differs. |
| `MinixCache.HoleTakesZoneZero` | osfmk/src/file_systems/minixfs/minixfs.c:444-462 | A concrete file and destination for which a direct read of a hole gives the first byte of the device instead of 0. |
| `MinixCache.Wraps` | osfmk/src/file_systems/minixfs/minix_ffs_compat.c:77-82 | The 16-bit block number makes a file begin again after 64 MiB. |
| `MinixRoundTrip.Opens` | osfmk/src/file_systems/minixfs/minixfs.c:613-720 | In a built image the path of a file leads to its inode if and only if its entry is among the first 64; otherwise there is no entry. |
| `MinixRoundTrip.ReadsTheFile` | osfmk/src/file_systems/minixfs/minixfs.c:372-471 | Every file has its size and mode, and every byte within the size is its own, except exactly where the entries of a directory of more than 64 have run on into it: there it is theirs. Beyond the size the read is refused. |
| `MinixRoundTrip.RoundTrip` | tools/mkminix.py:29-221 | For any files with distinct legal names and at most 64 entries: each opens by name and every byte reads back, through direct, single and double indirect zones. |
| `MinixRoundTrip.OpenByName` | osfmk/src/file_systems/minixfs/minixfs.c:613-720 | The lookup that edits the path in its buffer opens what the resolver finds. |
| `MinixRoundTrip.ReadOpened` | osfmk/src/file_systems/minixfs/minixfs.c:751-793 | The file just opened is read whole: what is planned for each position is what the destination holds. |
| `MinixRoundTrip.ReadBack` | osfmk/src/file_systems/minixfs/minixfs.c:751-793 | Opening by name and reading through the caches gives exactly the slice asked for, at every alignment. |
| `MinixRoundTrip.BuildAndRead` | tools/mkminix.py:29-221 | From the files to the bytes read: the image is built if and only if there are zones enough, and then any slice of any file is read back unchanged. |

## Left out

- Units: offsets and sizes of the pager are in pages; alignment checks and the shifts between bytes, pages and clusters are not modelled.
- 32-bit wrap-around of sizes in the pager (objects of size 0, the product that gives a map its size) and of the product of block number and block size in the file readers.
- Partial device transfers: a device read or write moves everything or fails.
- Events of the pager that hold the map lock (`ps_clmap`, `ps_clunmap`) are single steps.
- PagerRuns.RunsKeep: for runs in which every error spares a page of a cluster being read, because of the run in PagerCodes.CodeFreesOther; PagerExact.SparedIff proves that nothing less will do.
- PagerStore.RunsRefine: for runs in which no error gives back a cluster that a transfer has still to go to, because of the run in PagerErrors.ErrorMixesObjects; PagerExact.CleanIff proves that nothing less will do.
- In `Pager` two transfers of the same page are never out at once: the kernel keeps a page busy while it moves.
- Supplies.LastWriteSupplied: that writes of one page are sent in the order of their numbers is for the kernel to ensure, which sends a page again only when it has it back; without it Supplies.RequestSupplied has the order in which they were sent.
- Supplies.RequestSupplied: for runs in which write errors come cleanly, as for PagerStore.RunsRefine.
- PagerExact.UncleanDooms: the ways on choose a free cluster at will, as `Pager` does; the allocator comes to it once the lower ones have been handed out.
- Error codes of 2^23 and more, which the field for them cuts: a multiple of 2^23 would read as no error.
- In `ClusterIO` what a round does to the map is a parameter; the maps themselves are in the pager model.
- The branch of `ps_allocate_cluster` with a segment given by its caller, which nothing uses.
- Removal of paging segments: `ps_delete` always fails.
- `seqnos_memory_object_data_initialize`, the monitoring calls and the name-port references they wait for.
- An asynchronous reply that is due counts as a step of the protocol; that the default thread delivers it is assumed.
- What a broadcast on an object that has been freed does; ProtocolEnds.FreedTouchedIff says when there is one.
- Threads that share the data buffer of an open file, or close it while others use it: only `block_map` takes the lock.
- The search of an ext2 directory, which is a parameter of the path resolver; and of an inode all fields but its size and block numbers.
- `ext2fs_open_file`: the path has no null and fits the buffer, as `strcpy` demands; the text of a fast link has the length the inode gives.
- PathLinks.NestedAgrees: link texts are not empty and do not end in a slash; PathLinks.TextAgreesIff proves that nothing less will do. For such texts the lookup is that of text and rest as one path, which PathLookup.OpenFile covers.
- The option for links to other devices, which is not compiled.
- Memory of the Minix caches: cached zones are values there; the freeing of replaced buffers is the same code as in the ext2 reader and is proved for that.
- MinixRoundTrip.BuildAndRead: the lookup of the path reads inodes and directories by the functions that the cached reader is proved to agree with, not through one cache from open to read.
- Command-line parsing, time stamps (a parameter) and the owner fields of the image writer.
- `kalloc` requests too large for the lists go to the kernel and are not followed further.
- `queue_enter_first`, `queue_remove_last` and `queue_assign`, the mirror images of what is proved.
- `bext2fs.c`, the same algorithm as `ext2fs.c`; big-endian builds.
- Mach IPC, port rights other than the control-port references, thread creation, wiring, printing and statistics.
