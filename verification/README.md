# Storage stack and memory core: a verified model

This project models the parts of the kernel that keep data: the exFAT and FAT32 drivers, the block cache
under them, the page tables with the frame allocator and the heap, and three queue protocols (VMBus rings,
the NVMe completion queue, the IPC mailbox). It states what these parts promise and proves it for every
input, every run and every pattern of refused device requests.

## How it is built

* `Machine.dfy` is what storage code sees of the machine: a disk of sectors, each request to which may be
  refused at any time (a refused write changes nothing, a performed one replaces one sector in one step),
  and the list of all images the disk went through. `faults` counts refusals, so "without device errors"
  reads `faults == old(faults)`.
* `VolumeLayout.dfy` is the common geometry of FAT family volumes. Everything above the sector level is
  stated over a *view*: the FAT words and the cluster contents that an image holds. The address arithmetic of
  the drivers is tabulated in the mounted geometry, and `MountLayout` proves that the formulas of the source
  give tables with the needed properties.
* `Bits.dfy` says what the bits of a word are, and what a checksum is that rotates its sum before each byte.
* `Exfat*.dfy`: the undo journal, bitmap and chains, directory entry sets, directory growth, and create,
  overwrite, delete and rename as transactions; then what a reader sees afterwards. The methods
  `ExfatReading.CreateThenRead`, `OverwriteThenRead`, `DeleteThenList` and `ExfatRename.RenameThenList` run a
  mutation and then the directory scan and the file read, and promise what the listing and the bytes are.
  `ExfatScan.dfy` describes the scan once more, from the bytes of the slots, and proves that it is the same.
* `Fat32*.dfy`, `Unicode.dfy`: FAT copies and chains, the next-fit allocator with its free count, overwriting
  by writing new clusters and swapping one directory entry, long and short names. `Fat32Lookup.dfy` says what a
  search finds in terms of the slots, `Fat32Aliases.dfy` what the short names read as.
* `BlockCache.dfy`, `Frames.dfy`, `Paging.dfy`, `PagingTeardown.dfy`, `Heap.dfy`, `VmbusRing.dfy`,
  `NvmeQueue.dfy`, `Ipc.dfy`: one component each.

Objects that the source updates in place are classes. Ghost parameters such as a directory's cluster list
name things that the drivers only know implicitly.

Hypotheses, where the source takes something for granted: the FAT lies before the cluster heap and has an entry
for every FAT32 cluster; exFAT cluster numbers stay below the reserved link values; exFAT directory lengths are
multiples of the cluster size; FAT32 chains are not cross-linked; FAT32 directory scans use 512-byte sectors
(`src/kernel/fat32.c:942`, `:1006`); memory map descriptors are page-aligned and disjoint, and physical addresses
have 52 bits; no large pages.

## What the proofs turned up

* exFAT: the check after a commit (`remount_verify`) can fail the call although the change is committed
  (`Outcome.Committed(false)`).
* exFAT: overwriting or deleting a file without clusters is refused, because the list of its clusters would
  need an allocation of size 0 (`ExfatMutation.WriteFile`, `ExfatMutation.DeleteEntry`).
* exFAT: the run found by `find_free_entries` after an extension can start with slots counted in an earlier
  pass; it is free all the same, and at most two extensions are needed, whenever the directory's length is
  recorded or no request is refused (`ExfatDirectory.FindFreeEntries`). The root has no recorded length. There a
  refused FAT read ends a pass early, and the counter that is carried into the next pass then yields slots in
  use if and only if the slots at the front are free and those behind the cut are not
  (`ExfatDirectory.CarriedSearch`; `ExfatDirectory.RootSearchRun` is a run that returns a slot in use).
* exFAT: for the same reason `extend_directory` may take a middle cluster of the root for its last one and hang
  the new cluster there, in a create or rename that commits and succeeds. The root then consists of the clusters
  up to that one and the new one; its old clusters are kept if and only if it was the last
  (`ExfatDirectory.RootCutOff`, and `ExfatMutation.RootAfter` for what a mutation leaves).
* exFAT: when no request is refused and at most 256 sectors are journaled, a creation commits if two more clusters
  are free than the data needs, except on volumes with clusters of 512 bytes for names of more than 225 units: the
  run that the carried counter gives may then stick out of the directory, and the write is refused
  (`ExfatMutation.CreateEntry`).
* exFAT: retiring a set that holds an entry of type 0x80 turns that entry into an end mark, and every later file
  of the directory disappears (`ExfatEntries.VisitRetired`, with an input in `ExfatEntries.DeletionHides`). The
  driver's own sets hold none, and no listed set does in a tidy directory; mutations keep a directory tidy
  unless the search for room was cut short as above.
* exFAT: a created file is listed if and only if the scan reaches its slot while idle
  (`ExfatListing.ListedIff`): not behind an end mark, and not inside a set that has entries of types below 0x80.
  In a tidy directory it always does.
* FAT32: an unreadable FAT sector counts as the end of a chain. In `fat32_reserve_entries` it makes a middle
  cluster of a directory look like its last one. The slots found are free all the same, but a cluster hung in
  there cuts off the rest of the directory (`Fat32Directory.CutOff`), exactly unless the cluster was the last.
* FAT32: a file whose chain is broken is refused, unless a refused FAT read hides the break. Its entry may then
  lead to a free cluster that the new data gets. Freeing the old chain then frees part of the new one if and only
  if the broken chain leads into the clusters of the new data (`Fat32Overwrite.BrokenIff`), and the file just
  written has no chain left (`Fat32Overwrite.BrokenRun`).
* FAT32: overwriting a file whose entry says first cluster 1 writes the new file and then reports failure
  (`Fat32Overwrite.SwapIn`).
* FAT32: a new name is found again if and only if no end mark comes before its slots, its short entry does not
  begin with byte 0xE5, and a long name, unless its alias answers too, has no U+FFFF (`Fat32Names.CreatedIsFound`).
  A tidy directory has no end mark there. A leaf that begins with byte 0xE5 and fits 8.3, such as U+5927, is stored
  behind the deletion mark and gone at once although the call succeeds (`Fat32Creation.DeletedLeaf`); U+FFFF ends a
  long name early (`Fat32Creation.MarkedLeaf`). `Fat32Creation.Findable` is the condition before the call.
* Block cache: a write through the disk or through an overlapping partition leaves the copies of other partitions
  as they are; such a copy is out of date if and only if the write changed the block (`BlockCache.WriteShared`,
  with a run in `BlockCache.StaleRead`).
* Paging: a user page mapped in one space leaves another space's user pages open along all their ancestors
  exactly unless it lies under a top-level index whose table both share while the other space's own top-level
  entry is closed (`Paging.OtherLeaf`); `Paging.SharedUserPage` is a run of two spaces in which that happens.
* NVMe: without the "every earlier command has been answered" condition a late completion can be taken for the
  next command, and only then (`NvmeQueue.EarlierMayAnswer`, with a run in `NvmeQueue.LateReport`).
* IPC: a receiver's order of delivery is lost by a send into a slot behind which, seen from the head, one of its
  messages lies, and only by such a send (`Ipc.OrderAfterSend`, with a run in `Ipc.HoleReuse`).

## Model

| member | source | states |
|---|---|---|
| `VolumeLayout.MountLayout` | src/kernel/exfat.c:120-129 | for every accepted boot sector, FAT entries, clusters and boot sectors occupy disjoint bytes inside the volume, stream offsets walk the sectors of their clusters in order without repetition, and a cluster has a FAT entry exactly when the driver's bounds test passes |
| `VolumeLayout.MountFormulas` | src/kernel/exfat.c:125-129 | cluster 2 starts the heap and the others follow one another; the entry of cluster c is the four bytes at 4 c of the FAT, and is there when these lie in the FAT; the place of a stream byte adds up to its offset |
| `VolumeLayout.SetFatView` | src/kernel/exfat.c:269-279 | writing a FAT entry changes that entry and no other entry or cluster |
| `VolumeLayout.SetHeapView` | src/kernel/exfat.c:384-394 | writing one sector of a cluster changes nothing else of the volume |
| `VolumeLayout.PutChunkByte` | src/kernel/exfat.c:347-370 | a chunk write replaces exactly those bytes of the stream |
| `VolumeLayout.ClustersForFits` | src/kernel/exfat.c:1240-1241 | the cluster count computed for a length holds that length, and one cluster fewer does not |
| `Bits.WordBits64` | src/kernel/exfat.c:56-70 | a field of 16, 32 or 64 bits in memory: bit j of the value is bit j % 8 of byte j / 8 |
| `ExfatLayout.StreamClusterIs` | src/kernel/exfat.c:281-299 | the cluster found for an index of a stream is the one at that place of its chain or of its contiguous run |
| `ExfatVolume.Volume.JournalSector` | src/kernel/exfat.c:137-154 | the before-image of a sector is kept once per transaction; failure leaves the journal alone and means that the journal is full or a request was refused |
| `ExfatVolume.Volume.WriteSector` | src/kernel/exfat.c:156-160 | a journaled write happens as a whole or not at all and keeps everything undoable |
| `ExfatVolume.Volume.WriteSpare` | src/kernel/exfat.c:391-394 | an unjournaled write to a cluster that was free at the start keeps everything undoable |
| `ExfatVolume.UndoLast` | src/kernel/exfat.c:227-236 | writing back the newest before-image leaves a state that the rest of the journal undoes |
| `ExfatVolume.Volume.Begin` | src/kernel/exfat.c:205-215 | a transaction opens with only the dirty flag of both boot sectors set, or ends closed and, if its writes succeed, restored |
| `ExfatVolume.Volume.Rollback` | src/kernel/exfat.c:227-241 | when its writes succeed, every sector equals its value at the start, except sectors of clusters that were free then; no transaction or journal entry is left |
| `ExfatVolume.RestoredView` | src/kernel/exfat.c:227-241 | a restored volume has the old FAT and the old contents of every cluster that was allocated |
| `ExfatVolume.Volume.SetVolumeDirty` | src/kernel/exfat.c:162-177 | on success both boot sectors carry the flag as given, with every other bit and every other sector as before; FAT entries and clusters never change |
| `ExfatVolume.Volume.ReadFat` | src/kernel/exfat.c:255-267 | yields the link of a cluster, refusing bad marks and links out of range |
| `ExfatVolume.Volume.WriteFat` | src/kernel/exfat.c:269-279 | sets one FAT entry under the journal |
| `ExfatVolume.Volume.FindCluster` | src/kernel/exfat.c:281-299 | agrees with the walk along the chain |
| `ExfatVolume.Volume.ReadStream` | src/kernel/exfat.c:301-331 | returns the bytes of the stream, cut short only by its end or by a device error |
| `ExfatVolume.Volume.WriteStream` | src/kernel/exfat.c:333-370 | lays the bytes over the stream and changes no other byte |
| `ExfatClusters.BitmapBit` | src/kernel/exfat.c:401-410 | reads the allocation bit of a cluster |
| `ExfatClusters.SetBitmapBit` | src/kernel/exfat.c:412-423 | changes the set of allocated clusters by exactly that cluster |
| `ExfatClusters.AllocateClusters` | src/kernel/exfat.c:425-444 | takes the lowest clusters that are free, chains them in order to an end mark, and marks them; other FAT entries and contents outside the bitmap stay |
| `ExfatClusters.FreeClusters` | src/kernel/exfat.c:477-485 | clears exactly the bits and entries of the given clusters |
| `ExfatClusters.CollectClusters` | src/kernel/exfat.c:446-475 | yields the clusters of a file in order; a file without clusters is refused |
| `ExfatClusters.WriteNewClusters` | src/kernel/exfat.c:372-399 | new clusters hold the data followed by zeros, and nothing else changed |
| `ExfatClusters.Percent` | src/kernel/exfat.c:182-203 | the percentage in use is rounded up and at most 100 |
| `ExfatClusters.Commit` | src/kernel/exfat.c:243-253 | on success no FAT entry or cluster changed, and both boot sectors are clean and carry the percentage of allocated clusters, nothing else having changed; otherwise it rolls back; the transaction is closed either way |
| `ExfatClusters.UpdatePercentInUse` | src/kernel/exfat.c:182-203 | both boot sectors receive the percentage of the clusters whose bit is set |
| `ExfatEntries.ChecksumIgnoresField` | src/kernel/exfat.c:108-118 | the checksum does not depend on the stored checksum |
| `ExfatEntries.EntrySetChecksum` | src/kernel/exfat.c:108-118 | the loop computes the sum that is rotated right by one bit before each byte is added, in 16 bits, over all bytes but the two of the checksum field |
| `ExfatEntries.BuildEntrySet` | src/kernel/exfat.c:833-868 | succeeds exactly for names of 1 to 255 units and then encodes every field of the record, with 0 in all other bytes, the rotating checksum of its bytes, and as name hash the rotating sum of the bytes of the name's capitals |
| `ExfatEntries.HashAlike` | src/kernel/exfat.c:709-719 | names that are equal up to case, by the up-case table or among the ASCII letters, have the same hash |
| `ExfatEntries.ParseEncoded` | src/kernel/exfat.c:611-657 | the set of a record is recognised as exactly that record |
| `ExfatScan.ParseIff` | src/kernel/exfat.c:611-657 | a complete set, whoever wrote it, is recognised if and only if it has a stream entry, the checksum of its bytes, a name length that its name entries reach, a valid length within the length and a first cluster if there is a length; then the record is what the bytes say, the name read from the name entries in order, other entries skipped |
| `ExfatEntries.BuiltSetIsVisited` | src/kernel/exfat.c:572-667 | round trip: a built set at any slot that the scan reaches idle is delivered with the same name, attributes, cluster, lengths and offset |
| `ExfatEntries.ParseUpdated` | src/kernel/exfat.c:780-797 | updating the stream entry changes exactly the stream fields of what is recognised |
| `ExfatEntries.VisitUpdated` | src/kernel/exfat.c:780-797 | the directory then delivers the same files in order, with that one record changed |
| `ExfatEntries.VisitRetired` | src/kernel/exfat.c:959-967 | after retiring a set the directory delivers exactly the other files, in order, if and only if the set holds no entry of type 0x80 or was the last; with such an entry every later file is gone |
| `ExfatEntries.DeletionHides` | src/kernel/exfat.c:963-964 | an input of that kind: a recognised set with such an entry, retired, hides any file behind it |
| `ExfatListing.Listed` | src/kernel/exfat.c:572-667 | every file delivered is a set that the scan reached while collecting nothing, with that set's offset and count |
| `ExfatScan.VisitIsFiles` | src/kernel/exfat.c:572-667 | the slot by slot scan delivers exactly this: up to an end mark, a slot that opens a set of 3 to 19 entries is taken together with the rest of the set, whatever that holds, and every other slot is passed over |
| `ExfatListing.ListedIff` | src/kernel/exfat.c:572-667 | a set written over unused slots is delivered if and only if the scan reaches them while collecting nothing |
| `ExfatListing.ListedAfterPut` | src/kernel/exfat.c:930-943 | then all files delivered before still are, in order; what follows an overwritten end mark comes last |
| `ExfatListing.TidyCreated` | src/kernel/exfat.c:930-943 | in a tidy directory a set put where unused slots begin adds exactly its file to the list, and the directory is tidy again |
| `ExfatListing.TidyUpdated` | src/kernel/exfat.c:780-797 | updating a file's stream keeps a directory tidy |
| `ExfatListing.TidyRetired` | src/kernel/exfat.c:959-967 | deleting a file removes exactly that file from a tidy directory's list and keeps the directory tidy |
| `ExfatListing.TidyGrown` | src/kernel/exfat.c:870-906 | zeroed slots at the end keep a directory tidy and change nothing of its list |
| `ExfatDirectory.WriteDirectoryBytes` | src/kernel/exfat.c:745-753 | writes inside the directory only and replaces exactly those bytes |
| `ExfatDirectory.UpdateNodeStream` | src/kernel/exfat.c:780-797 | replaces the set of a node by its updated form, and no other byte of the directory |
| `ExfatDirectory.RetireEntry` | src/kernel/exfat.c:959-967 | replaces the set of a node by its retired form, and no other byte of the directory |
| `ExfatDirectory.ExtendDirectory` | src/kernel/exfat.c:870-906 | a formerly free, zeroed cluster is put behind the first clusters of the directory, whose bytes keep their offsets; with a recorded length or no refused request these are all its clusters; the parent's entry for the directory says the new length; only free clusters are written without the journal; it fails only for a refused request, a full journal, no free cluster or an entry that is not in the parent |
| `ExfatDirectory.RootCutOff` | src/kernel/exfat.c:893-897 | a free cluster hung behind the first m clusters of a directory without a recorded length leaves exactly these and the new one as the directory, so its old clusters are kept if and only if m is all of them |
| `ExfatDirectory.FindFreeEntries` | src/kernel/exfat.c:908-928 | with a recorded length or no refused request, the slots of the returned run that lie in the directory are all free, although the counter is carried across extensions, the run begins behind an entry in use, and the directory has gained at most two zeroed clusters; in any case the directory is its first clusters with their bytes and then zeroed ones that were free, and the loop ends; without refused requests and with two free clusters it succeeds |
| `ExfatDirectory.CountRun` | src/kernel/exfat.c:917-925 | one pass is the counting function over the slots of the directory, or of its first clusters when a read of an unrecorded length is refused |
| `ExfatDirectory.PassFinds` | src/kernel/exfat.c:918-925 | a pass with a right counter finds a free run or counts exactly the free slots at the end |
| `ExfatDirectory.CarriedSearch` | src/kernel/exfat.c:914-927 | a pass that starts with any counter carried over finds a free run exactly unless the slots at the front complete the count and those behind the old run are not free |
| `ExfatDirectory.RootSearchFails` | src/kernel/exfat.c:721-733 | an input for the root in which a pass cut short makes the search return a slot in use |
| `ExfatDirectory.RootSearchRun` | src/kernel/exfat.c:908-928 | a run of the search on that input: when a refused read ends the first pass behind the first cluster, it answers slot 15, and slot 16 is in use |
| `ExfatMutation.PublishEntry` | src/kernel/exfat.c:930-957 | a set encoding the record, with its checksum, name hash and zeros, stands in the directory, whose new handle and clusters are returned, live and apart from its parent, which says the same; the directory is its first clusters with their bytes, all of them unless a read of an unrecorded length was refused, and then new ones; all live clusters stay live and those outside the directory, its parent and the bitmap are kept |
| `ExfatMutation.RootAfter` | src/kernel/exfat.c:870-906 | what an entry published in a directory without a recorded length leaves of it: exactly the returned chain, which keeps all old clusters if and only if its first clusters are all of them |
| `ExfatMutation.CreateEntry` | src/kernel/exfat.c:1232-1276 | no transaction stays open; a rollback that succeeds is exact; on commit the data is stored in formerly free clusters, the entry is in place in a directory that can be read and extended again, all allocated clusters stay allocated and every other live cluster is kept; it commits unless a request is refused, the journal is full, too few clusters are free, the name has no valid length, the directory is missing in its parent or its clusters are smaller than the entry set |
| `ExfatMutation.WriteFile` | src/kernel/exfat.c:1278-1320 | the same for overwriting: refused without device errors exactly for directories and files without clusters; on commit the entry names the new chain, the allocated clusters are the old ones without the old chain plus the new chain, the directory's chain stands and every other live cluster is kept; rolled back only for a refused request, a full journal, too few free clusters or a missing entry |
| `ExfatMutation.DeleteEntry` | src/kernel/exfat.c:1339-1361 | the same for deletion: the set is retired, exactly the file's clusters are freed and the directory's chain stands; rolled back only for a refused request, a full journal or a missing entry |
| `ExfatReading.VisitDirectory` | src/kernel/exfat.c:572-667 | without device errors, the scan over sectors and clusters delivers exactly what the slots of the directory say, and with them only files from the front of that list |
| `ExfatReading.ListedStands` | src/kernel/exfat.c:755-766 | every file delivered can be found again by its offset and count, so the results below apply to every file of every directory |
| `ExfatReading.ReadFile` | src/kernel/exfat.c:1164-1183 | without device errors, the bytes up to the valid length and zeros behind |
| `ExfatReading.StoredReadsBack` | src/kernel/exfat.c:1164-1183 | stored data is read back exactly |
| `ExfatReading.OverwriteVisible` | src/kernel/exfat.c:1278-1320 | write, then read: after a committed overwrite the directory lists the same files in order, the overwritten one reads as the new bytes, and a tidy directory stays tidy |
| `ExfatReading.DeletionVisible` | src/kernel/exfat.c:1339-1361 | after a committed deletion the directory lists exactly the other files if and only if the set held no entry of type 0x80 or was the last, which a tidy directory guarantees and stays |
| `ExfatReading.CreationVisible` | src/kernel/exfat.c:1232-1276 | after a committed creation the new file is listed if and only if the scan is idle at its slot, and then all old files still are, in order; a tidy directory lists exactly one more and stays tidy |
| `ExfatReading.OtherFileKept` | src/kernel/exfat.c:401-485 | any live chain outside what a mutation may change is the same chain with the same bytes, and all its bits are still set |
| `ExfatReading.NewChainApart` | src/kernel/exfat.c:425-444 | a new chain is disjoint from every chain that was live, and all its bits are set |
| `ExfatReading.CreateThenRead` | src/kernel/exfat.c:1232-1276 | create in a tidy directory, list, read: without device errors the listing is the old one with the new file put in, and the bytes are the data |
| `ExfatReading.OverwriteThenRead` | src/kernel/exfat.c:1278-1320 | overwrite, list, read: without device errors the listing is the old one with that file's stream replaced, and the bytes are the data |
| `ExfatReading.DeleteThenList` | src/kernel/exfat.c:1339-1361 | delete from a tidy directory, list: without device errors exactly the other files |
| `ExfatRename.Lookup` | src/kernel/exfat.c:669-707 | the first file of the directory whose name is equal up to case, by the up-case table or among the ASCII letters when there is none, also when a later read is refused; without device errors none is missed |
| `ExfatRename.Rename` | src/kernel/exfat.c:1386-1421 | no transaction stays open and a rollback that succeeds is exact; on commit the file found under the old name has been published under the new one, and what the old name finds after that has been retired, for a source in the target directory, in its parent or elsewhere; without refused requests no file of the target had the new name up to case; it is refused only when the names do not allow it, and rolled back only for a full journal, no room, or a source that is lost by the publication |
| `ExfatRename.NotLost` | src/kernel/exfat.c:1407-1411 | the publication of the new name does not lose the source when the target directory is tidy or the source lies in another directory |
| `ExfatRename.RenameKeeps` | src/kernel/exfat.c:1386-1421 | all allocated clusters stay allocated, and everything outside the directories involved and the bitmap, the renamed file included, is kept |
| `ExfatRename.RenameHere` | src/kernel/exfat.c:1386-1421 | inside a tidy directory the listing afterwards is the old one without the source and with the new name, whose other fields are the source's |
| `ExfatRename.RenameElsewhere` | src/kernel/exfat.c:1386-1421 | between directories the source's loses exactly the source and the target gains exactly the new name |
| `ExfatRename.RenameAbove` | src/kernel/exfat.c:1386-1421 | the same out of the directory that holds the target, which may also say the target's new length |
| `ExfatRename.RenameThenList` | src/kernel/exfat.c:1386-1421 | rename, then list: without device errors the scan delivers that listing |
| `Fat32Volume.MountedCopies` | src/kernel/fat32.c:1310-1334 | for every accepted parameter block, the FAT copies and the clusters are pairwise disjoint and every cluster has an entry in each copy |
| `Fat32Volume.MountedPlaces` | src/kernel/fat32.c:459-478 | FAT copy k starts k FAT lengths behind the reserved sectors, entry c at its byte 4 c; the clusters start behind the last copy, one after the other, and there are as many as fit the volume |
| `Fat32Volume.MergeBytes` | src/kernel/fat32.c:404-408 | the four bytes stored keep the top four bits of the entry and replace the rest |
| `Fat32Volume.Context.NextCluster` | src/kernel/fat32.c:375-390 | the entry of a cluster; a read error counts as the end of a chain |
| `Fat32Volume.Context.SetCluster` | src/kernel/fat32.c:392-412 | sets the entry in every copy and changes nothing else, also in the states in between; copy 0 is either old or new after a failure |
| `Fat32Chains.ChainDistinct` | src/kernel/fat32.c:500-513 | a chain that reaches an end mark never meets a cluster twice |
| `Fat32Chains.ChainClusters` | src/kernel/fat32.c:500-513 | so it has at most as many clusters as the volume |
| `Fat32Chains.ChainAdvance` | src/kernel/fat32.c:483-498 | one step along a chain, refusing free, bad, reserved and out-of-range links |
| `Fat32Chains.ChainValid` | src/kernel/fat32.c:500-513 | without device errors, 1 exactly when the chain from the start is finite and all in range |
| `Fat32Allocator.AllocateCluster` | src/kernel/fat32.c:515-563 | a formerly free cluster, marked and cleared in every copy; 0 without device errors only when none is free; whatever the device does, only free clusters change; without device errors it is the next fit from the hint, which then points behind it |
| `Fat32Allocator.FindFree` | src/kernel/fat32.c:525-558 | the free cluster that comes first from the hint on, around the end of the volume; the search misses none |
| `Fat32Allocator.FreeChain` | src/kernel/fat32.c:565-591 | without device errors, a finite chain is zeroed in every copy and nothing else is; otherwise only entries of a closed set around the chain change |
| `Fat32Allocator.FreedCount` | src/kernel/fat32.c:565-591 | freeing adds exactly the chain to the free clusters, within the capacity |
| `Fat32Allocator.AllocateChain` | src/kernel/fat32.c:593-618 | a result is a chain of exactly n distinct, formerly free clusters in order, in every copy; without device errors it is 0 exactly when n is, when fewer are free or when the free count says so, and then leaves the FAT as it was; a right free count stays right |
| `Fat32Allocator.BuiltUndone` | src/kernel/fat32.c:606-614 | giving back a chain that was just built restores every FAT word |
| `Fat32Files.WriteClusterChain` | src/kernel/fat32.c:1443-1473 | the chain holds the data and then zeros; only its clusters change |
| `Fat32Files.StoreData` | src/kernel/fat32.c:1506-1512 | the data of a file in formerly free clusters, or only free clusters changed; without device errors it fails exactly when clusters are scarce, and when a single write of data is refused every FAT word is put back |
| `Fat32Files.ReadFile` | src/kernel/fat32.c:1390-1425 | the first bytes of the chain, as many as asked for and recorded; a device error cuts them short and never alters one |
| `Fat32Files.PositionWrite` | src/kernel/fat32.c:1040-1048 | one sector write that replaces exactly one slot of the directory |
| `Fat32Files.NewEntry` | src/kernel/fat32.c:1514-1525 | the replacing entry keeps name and creation time and carries the new cluster and size and the write time and date in their fields |
| `Fat32Overwrite.Overwrite` | src/kernel/fat32.c:1475-1539 | in every state the disk goes through, the file reads as its old or as its new bytes, the other slots of its directory are unchanged and every other chain holds its bytes; success means the new bytes, in clusters that were free and lie apart from the directory, and without device errors no cluster is lost; when no request is refused, the call succeeds if and only if the entry is no directory, not read-only, does not say first cluster 1 and has no broken chain, the data has less than 4 GiB, and there are clusters enough |
| `Fat32Overwrite.SwapIn` | src/kernel/fat32.c:1526-1538 | when the entry cannot be written, a single refused request leaves exactly the clusters free that were free before the call |
| `Fat32Overwrite.BrokenIff` | src/kernel/fat32.c:1503-1538 | once the new data is stored, there is a chain to free at the start of a broken one if and only if that one leads into the clusters of the new data, some of which it then takes along |
| `Fat32Overwrite.BrokenRun` | src/kernel/fat32.c:1475-1539 | a run: overwriting such a file succeeds only after a refused request; when the freeing meets none, part of the new data is freed exactly under that condition, and the file then has no chain |
| `Fat32Overwrite.ReadFileReads` | src/kernel/fat32.c:1390-1425 | what read_file returns for an entry, without device errors and with room for all, is what the old-or-new result calls the contents of the file |
| `Fat32Overwrite.ReadsOnce` | src/kernel/fat32.c:1390-1425 | the contents of a file are determined by the volume |
| `Fat32Overwrite.StillOld` | src/kernel/fat32.c:1506-1512 | changes to free clusters leave the old file and all others readable |
| `Fat32Overwrite.NowNew` | src/kernel/fat32.c:1526-1538 | from the swap on, also while the old chain is being freed, the file reads as the new bytes |
| `Fat32Overwrite.Conserved` | src/kernel/fat32.c:1538-1538 | free clusters afterwards: those before, plus the old chain, minus the new one |
| `Unicode.NameToUtf16` | src/kernel/fat32.c:870-921 | accepts exactly the UTF-8 of texts of 1 to 255 units made of scalar values without control and forbidden characters that do not end in a blank or dot, and yields their UTF-16 |
| `Unicode.NameToUtf8` | src/kernel/fat32.c:280-305 | the loop computes the decoded text |
| `Unicode.TakeIsUtf8` | src/kernel/fat32.c:876-904 | what is taken as one character is the shortest UTF-8 form of a scalar value |
| `Unicode.Utf8IsTaken` | src/kernel/fat32.c:876-904 | and the UTF-8 form of every scalar value is taken as that value |
| `Unicode.AcceptedIff` | src/kernel/fat32.c:870-921 | so the accepted names are exactly the texts described, and their units the concatenated UTF-16 |
| `Unicode.TextOfUnits` | src/kernel/fat32.c:280-305 | round trip: a long name made from an accepted name decodes to that name up to its first U+FFFF |
| `Fat32Names.LfnFields` | src/kernel/fat32.c:1230-1250 | every field of a long name entry: ordinal, mark of the last part, attributes, checksum, and all 13 units at their places, with a zero right behind the name and 0xFFFF from there on |
| `Fat32Names.ShortChecksum` | src/kernel/fat32.c:240-247 | the loop computes the sum of the eleven bytes that is rotated right by one bit before each byte is added, in 8 bits |
| `Fat32Lookup.MatchesIff` | src/kernel/fat32.c:307-317 | names match if and only if they are equal up to the case of ASCII letters |
| `Fat32Lookup.AcceptIff` | src/kernel/fat32.c:257-278 | an entry is accepted if and only if it is a part with ordinal 1 to 20, no type and no cluster, and begins a name or carries the checksum of the one being collected; its units go to their places and all others stay |
| `Fat32Lookup.SearchFinds` | src/kernel/fat32.c:923-987 | in any directory, what is found is an entry in use, no label and no part, behind no end mark, whose short name matches or whose checksum and long name, read from the parts in front of it, do; no such entry comes before it, and none exists when nothing is found, if its parts begin behind something that is no part |
| `Fat32Names.AcceptPart` | src/kernel/fat32.c:257-278 | reading the parts from last to first rebuilds the units behind the part just read |
| `Fat32Names.FindParts` | src/kernel/fat32.c:952-965 | the search collects all parts of a freshly written long name |
| `Fat32Names.CollectedText` | src/kernel/fat32.c:966-973 | the collected long name reads as the name it was made from |
| `Fat32Names.WrittenSeek` | src/kernel/fat32.c:940-985 | whatever name is looked for, freshly written entries that the search reaches idle are found if and only if they answer to it, and otherwise left behind idle |
| `Fat32Names.CreatedIsFound` | src/kernel/fat32.c:923-987 | a name written into a directory that did not have it is found, with its entry and count, if and only if no end mark comes before it, its short entry does not begin with the deletion mark, and a long name has no U+FFFF or its alias stands for the name |
| `Fat32Directory.FindNamedEntry` | src/kernel/fat32.c:923-987 | over sectors and clusters, finds what the search over the slots finds, with the positions of all its slots |
| `Fat32Directory.ShortNameAvailable` | src/kernel/fat32.c:1152-1161 | without device errors, says whether any entry in use carries the short name |
| `Fat32Directory.ScanForRun` | src/kernel/fat32.c:989-1015 | the first long enough run of free slots, or all free slots at the end |
| `Fat32Directory.ReserveEntries` | src/kernel/fat32.c:989-1038 | neighbouring free slots, behind one in use, in a directory whose first clusters kept place and contents and which grows from these by zeroed ones; without device errors, or when it does not grow, these are all its clusters; only free clusters and the directory's links change; without device errors it fails only when fewer clusters are free than the entries may need |
| `Fat32Directory.CutOff` | src/kernel/fat32.c:1017-1021 | a free cluster hung behind cluster i of a directory leaves exactly the clusters up to i and the new one, so the old clusters are kept if and only if i was the last |
| `Fat32Creation.ComponentToName` | src/kernel/fat32.c:342-373 | succeeds exactly for names with an 8.3 form and yields it |
| `Fat32Aliases.StandsIff` | src/kernel/fat32.c:319-373 | the 8.3 form of a name, shown again, matches the name if and only if that has no space and does not end with a dot |
| `Fat32Creation.Sanitize` | src/kernel/fat32.c:1190-1206 | the first letters, digits and underscores, in capitals |
| `Fat32Aliases.SanitizedIs` | src/kernel/fat32.c:1190-1206 | these are the capitals of the first letters, digits and underscores, as many as allowed or all there are, in order |
| `Fat32Creation.NumberedAlias` | src/kernel/fat32.c:1207-1227 | the alias with the lowest number that is not taken, or none of the 999 is |
| `Fat32Aliases.AliasReads` | src/kernel/fat32.c:1207-1222 | a numbered alias is shown as the base, cut off to make room, a tilde, the number in decimal, and the extension behind a dot |
| `Fat32Aliases.AliasesDiffer` | src/kernel/fat32.c:1207-1222 | different numbers give different aliases |
| `Fat32Creation.MakeShortAlias` | src/kernel/fat32.c:1163-1228 | the 8.3 form when it says it all and is free, else a numbered alias that is free |
| `Fat32Creation.MarkDeleted` | src/kernel/fat32.c:1050-1062 | the first byte of exactly these slots becomes the deletion mark |
| `Fat32Creation.WriteEntries` | src/kernel/fat32.c:1274-1291 | writes the parts and the short entry at their positions; when a single request is refused, every slot is as it was or deleted |
| `Fat32Creation.WriteNamedEntry` | src/kernel/fat32.c:1252-1294 | the long name entries and the short entry stand, at the positions returned, over free slots behind one in use in a directory that keeps its first clusters with the rest of their slots; without device errors these are all its clusters, and whether there is a long name is as `MakeShortAlias` decides; only free clusters and the directory change; without device errors it fails only for a name that is not accepted, when all 999 aliases are taken or fewer than two clusters are free |
| `Fat32Creation.FindableIff` | src/kernel/fat32.c:1163-1188 | the entries that the driver writes for a name answer to it exactly when it needs a long name and has no U+FFFF, or needs none and does not begin with the deletion mark |
| `Fat32Creation.DeletedLeaf` | src/kernel/fat32.c:1181-1187 | an accepted name that fits 8.3 and begins with the deletion mark |
| `Fat32Creation.MarkedLeaf` | src/kernel/fat32.c:280-305 | an accepted name that needs a long name and, with its U+FFFF, reads back as less |
| `Fat32Creation.CreateThenFind` | src/kernel/fat32.c:923-987 | in a tidy directory without the name, the search delivers the new entry if and only if the entries answer to the name, and otherwise nothing |
| `Fat32Creation.CreatedTidy` | src/kernel/fat32.c:1252-1294 | a tidy directory is tidy after the creation, except exactly when a long name stands before a short entry that begins with the deletion mark |
| `Fat32Creation.AfterCreation` | src/kernel/fat32.c:923-987 | every name that the new entries do not answer to finds the same entry as before, or none as before; one that they do answer to and that found nothing finds them |
| `Fat32Creation.FoundIsCreated` | src/kernel/fat32.c:1252-1294 | whenever find_named_entry finds the created name, it returns the entry and the positions that were written |
| `Fat32Creation.CreateFile` | src/kernel/fat32.c:1506-1538 | a new file reads as its data and its name is created at the positions returned, in all clusters of the directory without device errors and in its first ones otherwise; only free clusters and the directory change; without device errors it fails only for these reasons, too much data or too few clusters, and then takes at most one cluster, for the directory |
| `Fat32Creation.CreateThenSearch` | src/kernel/fat32.c:1475-1539 | create a file in a tidy directory, then search: without device errors the name is found if and only if it was findable before the call, and then with the entry and positions written; the directory stays tidy |
| `BlockCache.BlockLayer.CacheFind` | src/kernel/block_device.c:195-208 | finds the slot of a block, or says that no slot has it |
| `BlockCache.InBoundsIff` | src/kernel/block_device.c:177-187 | a request is in bounds if and only if it asks for blocks of the device, and for at least one |
| `BlockCache.BlockLayer.CacheStore` | src/kernel/block_device.c:223-233 | afterwards the block is in one slot, unless the device is not cached, all other slots are as they were, every copy of the block is current and no block is cached twice |
| `BlockCache.BlockLayer.ReadAhead` | src/kernel/block_device.c:308-318 | the slot taken before the read is not reused during it and ends up current or invalid |
| `BlockCache.BlockLayer.BlockRead` | src/kernel/block_device.c:278-319 | returns what the disk holds, through a partition too, whatever was cached, evicted, retried or prefetched; fails only out of bounds or after the disk has refused as often as the retries of the device, times those of the disk, allow, and never for a single cached block |
| `BlockCache.BlockLayer.BlockWrite` | src/kernel/block_device.c:321-341 | writes all blocks or none; afterwards every cached block is current, provided no other partition has the blocks; succeeds only in bounds and when neither the device nor the disk is read-only, and fails within them only after as many refusals as for reads |
| `BlockCache.WriteShared` | src/kernel/block_device.c:321-341 | a write to any blocks, shared or not: afterwards the copy of a block of another partition is out of date if and only if the write changed the block, and all other copies are current |
| `BlockCache.StaleRead` | src/kernel/block_device.c:195-341 | a run after which a block cached for a partition is what it was before a write through the disk |
| `BlockCache.WriteLoosens` | src/kernel/block_device.c:335-340 | writing the disk puts out of date only the disk's own cached copies and those known to be loose |
| `BlockCache.PartitionWriteIsAlone` | src/kernel/block_device.c:132-160 | with disjoint partitions every request to a partition meets that condition |
| `BlockCache.PartitionInside` | src/kernel/block_device.c:132-160 | a registered partition's requests are in bounds for the disk |
| `BlockCache.RegistrableIff` | src/kernel/block_device.c:132-160 | a partition can be registered if and only if it is not empty and ends inside the disk |
| `BlockCache.BlockLayer.FlushBarrier` | src/kernel/block_device.c:350-356 | nothing of the device or its parent stays cached, and everything else does |
| `Frames.Allocator.SelectNextRegion` | src/kernel/memory.c:7-36 | moves to the next usable region without skipping or repeating a frame |
| `Frames.Allocator.Allocate` | src/kernel/memory.c:55-75 | never a frame in use; always a page of conventional memory at or above 1 MiB; from the list when it has one, else a frame never carved before; 0 only when the list is empty and every usable frame is in use or lost |
| `Frames.Allocator.Free` | src/kernel/memory.c:77-89 | puts the frame on the list, or loses it when the list is full; ignores what is not a page |
| `Frames.Allocator.Accounting` | src/kernel/memory.c:55-94 | allocated pages plus listed frames are as many as the frames carved from the memory map, and these are exactly the usable frames that the cursor has passed |
| `Paging.SamePage` | src/kernel/paging.c:83-86 | two addresses share all four indices exactly when they are on the same page |
| `Paging.PageNumber` | src/kernel/paging.c:83-86 | the four indices, as digits to base 512, are bits 12 to 47 of the address |
| `Paging.LeafEntry` | src/kernel/paging.c:108-108 | a bit of the stored entry is set if and only if it is the present bit, is set in the flags, or is one of bits 12 to 51 and set in the physical address |
| `Paging.TableEntry` | src/kernel/paging.c:50-50 | the entry for a new table is present and writable, open to user code exactly when asked for, and has no bits besides these and the frame's |
| `Paging.WithUser` | src/kernel/paging.c:39-42 | adding the user bit keeps every other bit and the address |
| `Paging.Mmu.NextTable` | src/kernel/paging.c:30-52 | follows or creates a table without changing any mapping of any space or closing any entry; 0 only when there was no table and every usable frame is in use or lost |
| `Paging.Mmu.MapPage` | src/kernel/paging.c:81-111 | on success the page has the new entry and every other page its old one; it fails only when a table is missing on the way and every usable frame is in use or lost, and then nothing is mapped differently; other spaces keep their lower half; every user page stays open along all its ancestors, in other spaces exactly unless the page is a user page under a shared index where the other's own entry is closed; spaces stay trees of live frames |
| `Paging.OtherLeaf` | src/kernel/paging.c:108-108 | that condition, for the setting of a last-level entry |
| `Paging.SharedUserPage` | src/kernel/paging.c:81-158 | a run of two spaces in which a user page of one leaves the other's entry closed |
| `Paging.Mmu.PageFlags` | src/kernel/paging.c:113-134 | reads the flat map that the tree stands for |
| `Paging.Mmu.CreateSpace` | src/kernel/paging.c:136-158 | a new space apart from all others: empty lower half, the kernel's upper half; no other space's mapping or openness to user code changes; fails only when every usable frame is in use or lost |
| `Paging.SystemLeaf` | src/kernel/paging.c:108-108 | setting a last-level entry changes one page of its space and no lower-half page of another |
| `Paging.SystemAdd` | src/kernel/paging.c:44-51 | hanging in a new table keeps every space a tree and changes no mapping |
| `PagingTeardown.Release` | src/kernel/paging.c:160-214 | at each level, gives back exactly the frames below a table, each once and in order, reading and writing no frame after it was given back |
| `PagingTeardown.DestroySpace` | src/kernel/paging.c:160-222 | gives back everything the lower half owns and then the top table, each exactly once; the kernel half is untouched; the page counter drops by exactly what the free list takes |
| `PagingTeardown.OwnedIsReached` | src/kernel/paging.c:160-214 | everything given back is a table or page that some path of the lower half leads to |
| `PagingTeardown.ReachedIsOwned` | src/kernel/paging.c:160-214 | and every table or page such a path leads to is given back |
| `PagingTeardown.OthersIntact` | src/kernel/paging.c:160-222 | another space without these tables keeps its whole mapping |
| `PagingTeardown.TreeTables` | src/kernel/paging.c:160-222 | every space that the operations keep as a tree can be destroyed |
| `PagingTeardown.AfterDestroy` | src/kernel/paging.c:160-222 | after a space has been destroyed all others are trees of live frames again, apart from each other, with the same mappings and as open to user code |
| `Heap.AlignSize` | src/kernel/heap.c:16-19 | rounds up to 16 in 64 bits; 0 exactly for 0 and for sizes that wrap |
| `Heap.KernelHeap.Kmalloc` | src/kernel/heap.c:45-76 | first fit; fails exactly when the aligned size is 0 or no free block fits; the payload has at least the requested size and is added to those in use; blocks still tile the arena |
| `Heap.KernelHeap.Kfree` | src/kernel/heap.c:78-99 | exactly the given payload stops being in use, no other moves, and no two neighbours are both free |
| `Heap.TakeThenFree` | src/kernel/heap.c:45-99 | giving back what was just taken restores the block list |
| `Heap.MallocThenFree` | src/kernel/heap.c:45-99 | allocating and freeing restores the block list and the payloads in use; nothing was allocated exactly when the aligned size is 0 or no free block fits |
| `Heap.MergeMerges` | src/kernel/heap.c:90-98 | merging leaves no two free neighbours |
| `Heap.MergeKeeps` | src/kernel/heap.c:90-98 | merging moves no payload in use and keeps the arena tiled |
| `Heap.LiveApart` | src/kernel/heap.c:45-99 | payloads in use lie in the arena and never overlap |
| `Heap.HeapFreeBytes` | src/kernel/heap.c:101-113 | sums the sizes of the free blocks; with the payloads in use and the headers that is the whole arena |
| `VmbusRing.Header` | src/kernel/hyperv_storage.c:1151-1158 | kind, offset, length, flags and transaction stand at their places |
| `VmbusRing.FrameBytes` | src/kernel/hyperv_storage.c:1003-1038 | every byte of a frame: kind, offset, length, acknowledgement flag and transaction, for a GPA-direct message its one range, the payload, zeros up to a multiple of 8, and the write index it started at |
| `VmbusRing.FrameReads` | src/kernel/hyperv_storage.c:1193-1216 | the header of a frame, in-band or GPA-direct, tells a receiver its length and where the payload starts |
| `VmbusRing.Ring.Send` | src/kernel/hyperv_storage.c:1137-1174 | lays the whole frame into the page around its end and then moves the write index |
| `VmbusRing.Ring.Receive` | src/kernel/hyperv_storage.c:1176-1233 | returns the data of one packet and moves the read index behind its trailer, or leaves the ring alone |
| `VmbusRing.GetsCommitted` | src/kernel/hyperv_storage.c:963-968 | a receiver takes only committed bytes, and the right ones |
| `VmbusRing.NeverRejects` | src/kernel/hyperv_storage.c:1056-1063 | no receiver ever rejects a header |
| `VmbusRing.PendingIsVisible` | src/kernel/hyperv_storage.c:1051-1052 | the indices differ exactly when a committed message waits |
| `VmbusRing.SendIsSteps` | src/kernel/hyperv_storage.c:1003-1038 | sending as a loop is the byte steps of the protocol |
| `VmbusRing.ReceiveIsNext` | src/kernel/hyperv_storage.c:1041-1084 | what a receive reads from the page is the next message |
| `VmbusRing.Fifo` | src/kernel/hyperv_storage.c:957-1084 | in every interleaving with fewer than 4096 unread bytes, across any number of wrap-arounds and with any buffer size at each receive, the i-th receive returns the i-th payload padded to 8, cut off at that receive's buffer |
| `NvmeQueue.HeadShowsNext` | src/kernel/nvme.c:131-151 | the head slot has the expected phase exactly when a new completion is there, and then it is the next one |
| `NvmeQueue.QueuePair.WaitCompletion` | src/kernel/nvme.c:131-151 | the k-th completion accepted is the k-th posted; a stale slot is never accepted; gives up only after all its looks, and then nothing is waiting |
| `NvmeQueue.QueuePair.Command` | src/kernel/nvme.c:153-167 | when all earlier commands have been answered, the status returned is the one of this command; when a completion is already waiting, it is another's |
| `NvmeQueue.EarlierMayAnswer` | src/kernel/nvme.c:131-167 | when an earlier command has not been answered, the head offers the status of an earlier command, at once or after a completion that the controller may post |
| `NvmeQueue.LateReport` | src/kernel/nvme.c:131-167 | a run in which a command that timed out is completed late and answers the next one |
| `Ipc.Mailbox.Send` | src/kernel/ipc.c:38-69 | refused exactly when too long or all slots are used; conserves messages; goes into the first empty slot from the tail; a receiver's order is lost if and only if one of its messages lies behind that slot, never while the tail slot was empty at every send |
| `Ipc.OrderAfterSend` | src/kernel/ipc.c:53-58 | that condition, both directions |
| `Ipc.Mailbox.FindEmpty` | src/kernel/ipc.c:53-55 | the search ends at an empty slot |
| `Ipc.Mailbox.Receive` | src/kernel/ipc.c:71-100 | succeeds exactly when a message for the receiver is queued; takes the first from the head; conserves messages; it is the earliest one unless the receiver's order is lost, that is, as long as its queued messages are out of order; once they no longer are, as when its queue has drained, its messages come in the order sent |
| `Ipc.FirstIsEarliest` | src/kernel/ipc.c:76-82 | the first match from the head is the earliest message for that receiver |
| `Ipc.HoleReuse` | src/kernel/ipc.c:38-100 | a run of 33 sends and 3 receives in which a message is delivered before one sent earlier to the same receiver |

## Left out

- Path resolution in both file systems (`resolve_path`, `fat32_resolve` and the parent variants), except for the last component in an exFAT rename: operations get the directory, entry and position found. The source scans no further than the match; `ExfatRename.Lookup` scans the whole directory, so it can also fail where the source does not.
- The check in `create_entry` that the path does not exist yet.
- `remount_verify`: an arbitrary answer; it comes after the commit and changes nothing.
- exFAT mount checks: boot checksums, up-case table loading and its checksum. The up-case table is a parameter.
- exFAT `directory_empty` before a directory is deleted: the caller has found it empty.
- ExfatReading.VisitDirectory: how much of the list is delivered after a refused request depends on which read it was and is not stated.
- ExfatReading.ReadFile: says nothing about the bytes returned after a refused request.
- ExfatDirectory.FindFreeEntries: for a directory without a recorded length nothing is promised about the run once a request was refused, because the property fails then (`ExfatDirectory.RootSearchRun`).
- FAT32 deletion, renaming, directory creation and listing, `fat32_verify_fat_copies`, and writing the FSInfo sector back (`fsinfo_valid`, `fsinfo_dirty`).
- Fat32Allocator.AllocateChain: which clusters are free after a refused request is not stated, only that no others have changed; a new cluster that could not be linked stays marked.
- Fat32Overwrite.Overwrite: for a file whose chain is broken nothing is promised once a request was refused, because the property fails then (`Fat32Overwrite.BrokenIff`, `Fat32Overwrite.BrokenRun`).
- Fat32Creation.CreateThenSearch: what is found after a refused request is not stated, because an unreadable FAT sector can cut the directory short.
- Timestamps: the clock is a parameter.
- Positions of directory entries are kept as cluster and sector within it; their sum is the sector number that the source keeps.
- Block devices: telemetry, names, block sizes (a partition has its disk's), several disks, partitions of partitions. The cache slot counter is unbounded; its wrap at 2^32 does not change the slot.
- BlockCache.BlockLayer.BlockWrite: copies of other partitions that hold the written blocks have to be among the loose ones, because the source refreshes only the written device's own; `BlockCache.WriteShared` says which of them are out of date.
- Fat32Lookup.SearchFinds: parts that directly follow another part may or may not make up the long name of an entry, because the driver counts at most 20 parts from the first one on.
- `paging_initialize`, `paging_enable_nx`, TLB invalidation. The four nested loops of the teardown are one method called at four levels.
- Paging.LeafEntry: flags with address bits set are stored as the source stores them; what address results is not stated.
- `heap_initialize`: the heap starts with its one free block.
- Freeing a pointer or frame that is not in use is undefined in the source and excluded.
- VMBus: handshakes, signalling, the contents of storage packets and the spin count; one look at the ring is modelled.
- NVMe: register access, contents of commands, queue creation. The controller posts at most 16 unconsumed completions.
- The IPC spin lock: each call is one step.
