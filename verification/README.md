# KonjacFS and its neighbours, modelled in Dafny

The project models the file system KonjacFS and four smaller parts around it, and proves what they
promise.

* `Kfs*.dfy`: KonjacFS. `Kfs.Fs` is the mounted volume, with the fields the original updates in place (the tree's
  nodes in memory, the free-space bitmap, the blocks held for the committed state, the pointers of the bitmap and its
  index, the cache, the superblock). Below it are a disk with writes not yet flushed (`KfsDisk`), the tree as an
  ordered map (`KfsTree`, `KfsItems`, `KfsEdit`, `KfsBalance`), the space (`KfsSpace`, `KfsBitmap`), and what a superblock must
  lead to (`KfsState`, `KfsCommit`). On top are files (`KfsFiles`, `KfsIo`), folders and paths (`KfsNames`, `KfsTidy`,
  `KfsShow`, `KfsPaths`, `KfsDir`), the operations (`KfsOps`, `KfsRemove`, `KfsRename`), and an operation as a whole,
  committed or aborted (`KfsVolume`).
* `KernelHeap.dfy`: the kernel's heap, a list of free blocks threaded through memory below a moving edge.
* `PageTables.dfy`: four-level page tables as a map from pages to frames and flags.
* `FatChains.dfy`, `FatVolume.dfy`, `FatNames.dfy`, `FatAliases.dfy`, `FatFolder.dfy`: cluster chains and names of a
  FAT16 volume.
* `InstallUndo.dfy`: the boot loader's installer with its one-block write-back cache and the log it undoes its writes with.

The main results:

* A crash at any moment of any run, keeping any part of the unflushed writes, followed by a mount, gives the last
  landed state or the one landing, with its names in order (`Kfs.Reboot`, `KfsVolume.Change`).
* Every landed superblock is complete and its bitmap exact, the bitmap's own blocks included (`Kfs.Fs.Commit`,
  `Kfs.Fs.WriteBitmap`).
* The copy-on-write tree is an ordered map (`Kfs.Fs.Insert`, `Kfs.Fs.Remove`, `Kfs.Fs.Scan`), and stays balanced
  (`Kfs.Fs.Split`, `Kfs.Fs.Rebalance`).
* An operation finds the disk full only when there is less room than it needs: file data exactly then
  (`KfsIo.WriteData`), the commit within what it writes (`Kfs.Fs.Commit`), the operation as a whole within a bound on
  both (`KfsVolume.Change`).
* Reading returns what was written, by path and by offset (`KfsOps.WriteFile`, `KfsOps.ReadFile`,
  `KfsOps.ReadFileAt`, `KfsVolume.WrittenPaths`).
* Installing and undoing restores the device (`InstallUndo.Installer.Install`), freeing everything restores the heap
  (`KernelHeap.OneHeap`), a failed mapping restores the tables (`PageTables.Mmu.TryMapPage`), and a mapped page is
  reached with the rights asked for (`PageTables.Mmu.MapPage`).

Where the code does not do what it is for, the exact condition is proved:

* The test against moving a folder into itself compares strings: `KfsPaths.ContinuesExact`, `KfsRename.Rename`. The
  virtual file system above only passes paths for which it is right.
* A request that goes to the heap's edge and wraps around the address space is granted: `KernelHeap.Heap.Alloc`.
* FAT16's whole-file reader takes an end mark for a cluster if it follows the cluster numbered just below it:
  `FatChains.RunsArePlainExactly`. Its cursor stops at lower cluster numbers than the whole-file reader:
  `FatVolume.CursorReachesAll`.

Conventions: a checksum is modelled as the block it was made of, so that two blocks never share one; hash functions
for names are arbitrary, with the low three bits clear. A run of operations that reports an I/O error is one on a disk
marked `flaky`. Predicates guarded by `Open` are kept closed until a proof needs what they say.

## Model

| member | source | states |
|---|---|---|
| `KfsTypes.KeyOrder` | kernel/src/kfs.rs:201-213 | Packed keys compare exactly as the triples (object, kind, offset) do, and no two triples pack alike. |
| `KfsItems.PutIsUpdate` | kernel/src/kfs.rs:882-922 | Setting an item in a sorted run is map update: every other key keeps its data. |
| `KfsItems.CutIsDelete` | kernel/src/kfs.rs:968-999 | Removing a key from a sorted run is map deletion of that key alone. |
| `KfsItems.FindIsLookup` | kernel/src/kfs.rs:830-839 | Looking a key up in a sorted run is map lookup, and a miss means the key is in no item. |
| `KfsItems.VisitUntil` | kernel/src/kfs.rs:762-828 | A walk from a key reports the items from there on in key order, up to and including the first one its caller turns down. |
| `KfsEdit.ChildIndex` | kernel/src/kfs.rs:411-413 | The search gives the one child whose range of separators has the key, the first child when the key is below all of them. |
| `KfsEdit.PartItems` | kernel/src/kfs.rs:926-948 | A leaf with one item too many becomes two or three non-empty parts of at most a block each, which put end to end are the same items; a part ends only where it has half the bytes or the next item does not fit, and nothing is added to one that has half. |
| `KfsEdit.MergedLeaves` | kernel/src/kfs.rs:1004-1032 | Two neighbouring leaves that fit one block together make one leaf of the right shape, with the items of both in order. |
| `Kfs.Fs.LoadNode` | kernel/src/kfs.rs:744-758 | A node comes back only if it is the very block the pointer was made for, from the cache or from the disk; a block that differs is reported as damaged. |
| `Kfs.Fs.Own` | kernel/src/kfs.rs:843-854 | Copying a node into memory gives a new slot with the same node, turns its block from used to held, and leaves the meaning of every other child alone. |
| `Kfs.Fs.Split` | kernel/src/kfs.rs:926-965 | A node that fits is left alone. Otherwise every part fits its block and is a proper subtree of the same level, together they have the items of the old node, and they are even: two interior halves that differ by one child at most, or two or three leaves as even as whole items allow. |
| `Kfs.Fs.InsertAt` | kernel/src/kfs.rs:898-922 | Insertion below a node keeps levels, bounds, sizes and sharing in order, sets exactly one key, and counts every block copied or freed on the way; it puts at most two nodes a level and two more in memory, and fails only on an I/O error or past the depth limit. |
| `Kfs.Fs.Insert` | kernel/src/kfs.rs:882-895 | For any tree and key, the content afterwards is the content before with that key set; root splits included, the tree keeps its shape and the block accounting stays exact. |
| `Kfs.Fs.RemoveAt` | kernel/src/kfs.rs:985-999 | Removal below a node takes out exactly one key, returns what was there, and leaves a subtree that is in order or empty; at every level the child on the way was pruned and its siblings then balanced (`KfsBalance.Pruned`). |
| `Kfs.Fs.Rebalance` | kernel/src/kfs.rs:1004-1032 | After a removal below a child an empty child is gone; one over a quarter of a block leaves the children as they were; a smaller one is joined with the one after it, or else the one before it, exactly if the two fit a block; no other child changes, and no item. |
| `KfsBalance.BalancedSizes` | kernel/src/kfs.rs:1001-1032 | From sizes alone: over a quarter of a block the number of children stays; at or under it either one neighbour was joined, with the sum of the two sizes less one header, or with every neighbour the sum is more than a block. |
| `Kfs.Fs.Remove` | kernel/src/kfs.rs:968-983 | For any tree and key, the content afterwards is the content before without that key, and what was there is returned; below the root the tree is pruned and balanced, and a root in memory gives way until it has no child or two. |
| `Kfs.Fs.Scan` | kernel/src/kfs.rs:762-828 | Scanning the tree, part of it on disk and part in memory, visits what walking the sorted run of its content visits. |
| `Kfs.Fs.Get` | kernel/src/kfs.rs:830-839 | Getting a key from the tree is looking it up in its content. |
| `Kfs.Fs.FindRun` | kernel/src/kfs.rs:666-697 | A run it finds lies inside the volume, is all allocatable and at most as long as wanted. One as long as wanted is the first at or after the cursor, or if there is none there the first before it; when shorter, no longer run exists on either side of the cursor; when none is found nothing is allocatable at all. Skipping full words changes none of this. |
| `Kfs.Fs.Alloc` | kernel/src/kfs.rs:700-708 | Allocation marks exactly one free run used, the first at or after the cursor or else the first before it, or changes nothing and there is no such run on either side of the cursor; a single block is refused only when none is left. |
| `Kfs.Fs.Free` | kernel/src/kfs.rs:713-726 | Freeing clears exactly the run's bits; its blocks become held exactly if the pointer is as old as the committed state. |
| `Kfs.Fs.Available` | kernel/src/kfs.rs:729-732 | The count is the number of blocks that are neither used nor held. |
| `Kfs.Fs.FreeBlocks` | kernel/src/kfs.rs:734-739 | The count, made word by word, is the number of clear bits. |
| `Kfs.Fs.WriteChild` | kernel/src/kfs.rs:1086-1101 | Writing a subtree children first gives a pointer under which the disk holds a tree of the same items with no node left in memory, in blocks the committed state does not use; it takes one block for every node in memory and finds the disk full only when fewer are left. |
| `Kfs.Fs.MoveBitmap` | kernel/src/kfs.rs:1105-1140 | Although moving a bitmap block changes bits, the rounds end, with every changed block moved once to a place the committed state does not use and the tally of used blocks exact; the disk is full only if fewer blocks are left than the bitmap has. |
| `Kfs.Fs.WriteBitmap` | kernel/src/kfs.rs:1105-1173 | The bitmap on disk equals the final bits in memory, in which the bitmap's own blocks and the index nodes are counted once each; no block is left dirty, and the index has the height its size asks for; the disk is full only if fewer blocks are left than index and bitmap have. |
| `KfsBitmap.EightLevels` | kernel/src/kfs.rs:625-648 | The index of the bitmap of any volume needs at most eight levels, the depth up to which a reader follows it. |
| `Kfs.Fs.Commit` | kernel/src/kfs.rs:1037-1065 | A commit that succeeds has landed: the new superblock is the newest on the disk, one higher, complete (tree, bitmap, index and extents intact, bits exact), and holds the operation's content; the one before is still complete. One that fails leaves the volume backed by the old one; without an I/O error it fails only if fewer blocks can be had than there are tree nodes in memory, index nodes and bitmap blocks. |
| `KfsWrite.FewInMemory` | kernel/src/kfs.rs:1086-1101 | Of a tree in order no more nodes are in memory, and so to be written, than there are slots. |
| `Kfs.Fs.Abort` | kernel/src/kfs.rs:1070-1076 | After an abort the content and the books are those of the last commit. |
| `Kfs.Fs.LoadBitmap` | kernel/src/kfs.rs:601-623 | Of a complete state exactly its bits are loaded; whatever is loaded comes from blocks that match their checksums. |
| `Kfs.Fs.WalkIndex` | kernel/src/kfs.rs:625-648 | Walking an index appends its leaves in order and its nodes, all of which match their checksums; an index of the right shape fails only on an I/O error. |
| `KfsDisk.CrashSafe` | kernel/src/kfs.rs:1037-1065 | Whatever subset of the writes not yet flushed reaches the disk, torn superblock included, the disk afterwards is again one from which the last landed state, or the one just landing, is the newest and complete. |
| `KfsDisk.CrashLanding` | kernel/src/kfs.rs:1043-1056 | Of the old superblock, the new one and a torn one in its slot, the newest that can be read is complete. |
| `Kfs.Mount` | kernel/src/kfs.rs:506-548 | Of a disk in order the mounted volume is exactly the last landed state; if the newest superblock's tree or bitmap cannot be read and the one before is complete, that one is mounted. |
| `Kfs.FallsBack` | kernel/src/kfs.rs:524-544 | Trying the superblocks found from the newest down, the first that opens is the one before the damaged one. |
| `Kfs.Reboot` | kernel/src/kfs.rs:506-548 | At any moment of any run of the volume, a crash with any part of the unflushed writes followed by a mount without errors gives the last landed state or the one landing, and the promise every commit keeps (here: names in order) holds of it. |
| `KfsFresh.TinyRecoverable` | tools/kfs.py:582-664 | A small volume with an empty root folder meets the whole invariant, so what the crash and mount theorems assume can be met. |
| `KfsFiles.TileBytes` | kernel/src/kfs.rs:1304-1346 | A block of an extent holds the file's bytes at its place, and zeros past the end of the file. |
| `KfsFiles.NoneMissed` | kernel/src/kfs.rs:1464-1487 | A scan that starts one less than the longest extent before a place misses no extent that reaches it. |
| `KfsIo.DropItems` | kernel/src/kfs.rs:1281-1299 | Exactly the items of one object (or its data items) leave the content; all others stay. |
| `KfsIo.WriteData` | kernel/src/kfs.rs:1304-1346 | The content gains items of one object that hold the data, inline or as extents that tile it, and no other item changes; the result is the blocks used. Unless something else goes wrong the disk is full exactly if fewer blocks can be had than the data takes and the reserve; an inline write never finds it full. |
| `KfsIo.FindRoom` | kernel/src/kfs.rs:1314-1321 | It takes the first run that is long enough, or the longest there is, never going into the reserve; it finds the disk full only if no more than the reserve is left. |
| `KfsIo.WriteRun` | kernel/src/kfs.rs:1322-1342 | A run is filled from its start in extents of the greatest length but for the last, and each becomes an item. |
| `KfsIo.Pieces` | kernel/src/kfs.rs:1464-1487 | The pieces found for a range are those that overlap it, in order, none missed and none twice. |
| `KfsIo.ReadAt` | kernel/src/kfs.rs:1520-1545 | Of an object that stores some bytes, a read at any offset returns the slice asked for, cut at the end of the file. |
| `KfsIo.ReadObject` | kernel/src/kfs.rs:1489-1518 | Of an object that stores some bytes, reading the whole returns them. |
| `KfsOps.WrittenShows` | kernel/src/kfs.rs:1304-1346 | Items laid down for one object's data make that object store the data, while every other object stores what it stored. |
| `KfsOps.Store` | kernel/src/kfs.rs:1304-1346 | After a write every object stores what it did, the written one the new bytes, with the block count that goes into its inode; the disk is full only if there is no room for the bytes and the reserve. |
| `KfsDir.LookupSees` | kernel/src/kfs.rs:1187-1201 | A scan of the eight places of a name's bucket ends at the entry with that name if the folder has one, and otherwise shows that it has none. |
| `KfsDir.Lookup` | kernel/src/kfs.rs:1187-1201 | For any hash function, looking a name up in a folder of the tree finds exactly the child with that name. |
| `KfsDir.Resolve` | kernel/src/kfs.rs:1204-1214 | A path resolves to the object its parts lead to from the root; it is refused only if they lead nowhere. |
| `KfsDir.ParentOf` | kernel/src/kfs.rs:1218-1224 | It gives the folder above a path and a last name such that the path's parts are that folder's and the name. |
| `KfsDir.Entries` | kernel/src/kfs.rs:1227-1240 | A folder is listed completely, each entry once, in the order of their keys. |
| `KfsDir.AddEntry` | kernel/src/kfs.rs:1242-1260 | A new entry takes the first free place of its name's bucket and changes nothing else; it is refused only when all eight places are taken. |
| `KfsDir.Touch` | kernel/src/kfs.rs:1264-1271 | Only the folder's link count and time change. |
| `KfsShow.ShowsOne` | tools/kfs.py:512-579 | The items of a tree stand for at most one set of inodes, entries and files. |
| `KfsNames.ExactlyOneEntry` | tools/kfs.py:512-579 | Every object but the root is in exactly one folder entry. |
| `KfsNames.NoCycle` | tools/kfs.py:512-579 | No way down from a reachable object leads back to it: no folder is its own ancestor. |
| `KfsTidy.MakeTidy` | kernel/src/kfs.rs:1242-1277 | A new entry for a new object keeps the names in order: link counts are two and the subfolders, sizes match, all is reachable, no entry is doubled. |
| `KfsTidy.DeleteTidy` | kernel/src/kfs.rs:1393-1408 | Taking out an entry whose object is empty keeps the names in order. |
| `KfsTidy.RewriteTidy` | kernel/src/kfs.rs:1348-1376 | Giving a file new bytes, with the size and block count to match, keeps the names in order. |
| `KfsTidy.MoveTidy` | kernel/src/kfs.rs:1431-1459 | Moving an entry to a place that is not below it keeps the names in order. |
| `KfsTidy.MoveInside` | kernel/src/kfs.rs:1431-1459 | Moving a folder into itself would break that order: it would no longer be reachable. |
| `KfsOps.MaybeCommit` | kernel/src/kfs.rs:1081-1083 | A commit happens exactly when more than the limit of nodes is in memory, and it lands names that are in order; the disk is full only if there is less room than it may have to write. |
| `KfsOps.CreateDir` | kernel/src/kfs.rs:1378-1390 | On success there is a new empty folder at the path, in its parent's count, and nothing else changed; three items are set and no block is taken; refusals have one of the stated reasons, and lack of room is not one. |
| `KfsOps.WriteFile` | kernel/src/kfs.rs:1348-1376 | On success the path leads to a file with exactly these bytes, created or overwritten, inode and link counts to match, all other files as they were; refusals have one of the stated reasons, and the disk is full only if there is no room for the bytes and the reserve. |
| `KfsOps.ReadFile` | kernel/src/kfs.rs:1489-1518 | Reading by path returns the bytes of the file the path leads to; it is refused only if there is none or it is a folder, and fails otherwise only on an I/O error or in a tree past the depth limit. |
| `KfsOps.ReadFileAt` | kernel/src/kfs.rs:1520-1545 | Reading an open file at any offset returns the slice of its bytes; it fails only on an I/O error or in a tree past the depth limit. |
| `KfsRemove.EmptyDir` | kernel/src/kfs.rs:1413-1429 | Emptying a folder takes away only what is below it; every commit on the way lands names that are in order and emptied in part; at the end nothing is left in it; the disk is full only if the last commit left less room than a commit with the largest file's changes may need. |
| `KfsRemove.AllGone` | kernel/src/kfs.rs:1413-1429 | When a folder has been emptied so, everything that was below it is gone. |
| `KfsRemove.RemovePath` | kernel/src/kfs.rs:1393-1408 | On success the object at the path and all below it are gone and every other path leads where it led; any superblock landed meanwhile shows names in order, removed in part. |
| `KfsRemove.RemovedPaths` | kernel/src/kfs.rs:1393-1429 | Seen by paths: a path at or below the removed one leads nowhere, and every other leads where it did, to the same file. |
| `KfsPaths.SplitParts` | kernel/src/kfs.rs:283-291 | A path splits into a parent and a last name exactly as its parts do, however many slashes it has. |
| `KfsPaths.ContinuesExact` | kernel/src/kfs.rs:1444-1446 | The test whether one path is inside another is right for every well-written second path exactly when the first path is well written: one slash before each part and none at the end. |
| `KfsPaths.ContinuesMisses` | kernel/src/kfs.rs:1444-1446 | Two inputs for which the test is wrong: a doubled slash in the second path, and a slash at the end of the first. |
| `KfsRename.IntoItself` | kernel/src/kfs.rs:1431-1459 | The target folder is below the moved object exactly when the old path's parts are a proper prefix of the new one's. |
| `KfsRename.MovedRight` | kernel/src/kfs.rs:1431-1459 | After a proper move every path below the old one leads nowhere, the same continuation of the new one leads where it led, and all other paths are as before. |
| `KfsRename.Rename` | kernel/src/kfs.rs:1431-1459 | A rename that succeeds moved the object, with all paths below it, and left the names in order, unless the parts of the old path are a proper prefix of the new one's: then, and only then, it went past the test and the names are not in order. It changes five items at most and takes no block. |
| `KfsVolume.CreatedPaths` | kernel/src/kfs.rs:1348-1390 | Seen by paths: exactly one path leads somewhere new. |
| `KfsVolume.WrittenPaths` | kernel/src/kfs.rs:1348-1376 | Seen by paths: the written path leads to a file with these bytes, and every other path and file is as before. |
| `KfsVolume.Change` | kernel/src/kfs.rs:488-497 | Any operation run on a volume at rest ends committed or aborted: on success the durable state is the operation's result, on an error the old content (or, for a deletion, names in order with part of what was asked deleted), and only a failing disk unmounts the volume. The disk is full only if the room left is less than a stated bound: the data with the reserve, or the nodes the changed items put in memory, the index and the bitmap. |
| `KernelHeap.OneHeap` | kernel/src/heap.rs:134-182 | The free list and the edge are determined by the live blocks alone; with none live the list is empty and the edge back at the base, in whatever order they were freed. |
| `KernelHeap.CarveTiled` | kernel/src/heap.rs:88-117 | Carving a block from a free one keeps live blocks, free blocks and the rest tiling the heap, with the list rising and no two free blocks touching. |
| `KernelHeap.BumpTiled` | kernel/src/heap.rs:197-223 | Taking a block at the edge keeps the tiling. |
| `KernelHeap.ReleaseTiled` | kernel/src/heap.rs:134-182 | Putting a live block back, merged with what it touches on either side and with the edge, keeps the tiling. |
| `KernelHeap.ThreadedElsewhere` | kernel/src/heap.rs:134-182 | Whatever is written inside live blocks, the list threaded through the free ones is the same. |
| `KernelHeap.Heap.PopFit` | kernel/src/heap.rs:88-117 | The first block that is large enough is carved, the list in memory again being the list of free blocks; if none is, nothing changes. |
| `KernelHeap.Heap.Release` | kernel/src/heap.rs:134-182 | The heap is in order again with exactly that block no longer live. |
| `KernelHeap.Heap.Alloc` | kernel/src/heap.rs:197-223 | A block of the rounded size becomes live where none was, from the first free block that fits or at the edge; a refusal changes nothing. The heap stays in order exactly unless the request goes to the edge and wraps around the address space, in which case it is granted and the order is lost. |
| `KernelHeap.LargestOverruns` | kernel/src/heap.rs:197-223 | Requests that wrap exist: the largest one there can be, of a fresh heap. |
| `KernelHeap.Heap.Dealloc` | kernel/src/heap.rs:225-232 | Freeing what was allocated with the same size leaves the heap in order without it. |
| `InstallUndo.UndoneSame` | limine/limine.c:549-599 | Undoing a log gives the same device whether or not the cached block has been written, as long as they differ only in logged bytes. |
| `InstallUndo.ReplayUndoes` | limine/limine.c:377-383 | Replaying the reversed log is undoing it newest entry first. |
| `InstallUndo.LoggedWrite` | limine/limine.c:498-547 | A write whose old bytes are logged adds nothing to what undoing gives, overlaps with earlier writes included. |
| `InstallUndo.Installer.Flush` | limine/limine.c:315-334 | What is seen through the cache does not change; if it succeeds the device shows the same. |
| `InstallUndo.Installer.CacheBlock` | limine/limine.c:336-361 | Changing the cached block changes nothing that is seen; it fails only on an I/O error or past the end of the device. |
| `InstallUndo.Installer.DeviceRead` | limine/limine.c:476-496 | A read returns the bytes seen through the cache and changes none. |
| `InstallUndo.Installer.DeviceWrite` | limine/limine.c:498-547 | A successful write is seen in full and logged with the bytes it replaced, so that undoing the log still gives the original device; a full log refuses it with nothing changed. |
| `InstallUndo.Installer.ReverseLog` | limine/limine.c:377-383 | The log is turned round in place. |
| `InstallUndo.Installer.Uninstall` | limine/limine.c:549-599 | Although the cached block is dropped first, a run that reports success has replayed the whole log onto the device; without I/O errors it always does. |
| `InstallUndo.Installer.Install` | limine/limine.c:1243-1262 | For any writes at all, overlapping ones included: all are on the device and the log undoes them, or, without I/O errors, the device is byte for byte what it was, also when the log is full. |
| `InstallUndo.Installer.UninstallFrom` | limine/limine.c:712-720 | The same holds through the file: from the stored log the device gets back what it was. |
| `InstallUndo.StoreLog` | limine/limine.c:391-429 | Storing succeeds exactly if no entry is empty, and writes each entry's length, place and bytes. |
| `InstallUndo.LoadLog` | limine/limine.c:431-474 | Loading a stored log gives the same log back. |
| `PageTables.IndicesApart` | kernel/src/paging.rs:280-287 | Two addresses of the lower half have the same four indices exactly if they are in the same page. |
| `PageTables.PageSeen` | kernel/src/paging.rs:296-310 | The processor's walk through four levels, each of which can take rights away, ends at a page's frame with the rights of the page's own entry: no table on the way takes any. |
| `PageTables.WithPresentKeeps` | kernel/src/paging.rs:312-348 | Setting the present bit changes no other bit of the flags. |
| `PageTables.PageLinked` | kernel/src/paging.rs:336-357 | Setting one last-level entry changes that page's translation and no other, in any address space. |
| `PageTables.PageUnlinked` | kernel/src/paging.rs:743-773 | Clearing one last-level entry removes that page's translation and no other. |
| `PageTables.TableAdded` | kernel/src/paging.rs:296-310 | Adding an empty table changes no translation. |
| `PageTables.TableDropped` | kernel/src/paging.rs:364-395 | Taking an empty table out again restores the state and the frames. |
| `PageTables.Mmu.EnsureTable` | kernel/src/paging.rs:296-310 | The next table exists afterwards and no translation has changed; it fails only when no frame is left. |
| `PageTables.Mmu.MapPage` | kernel/src/paging.rs:296-357 | Exactly one page is mapped, to the frame and flags given; no other translation changes. Walking the tables as the processor does, the page is reached with exactly the rights the flags give, and every other page as before. |
| `PageTables.Mmu.TryMapPage` | kernel/src/paging.rs:364-395 | It maps exactly one page that was not mapped, reached with exactly the rights of the flags, or leaves every translation as it was and every frame it took returned; it fails only if the page is mapped or fewer than three frames are left. |
| `PageTables.Mmu.Rollback` | kernel/src/paging.rs:364-395 | Undoing the tables made so far, newest first, restores the state before the first of them. |
| `PageTables.Mmu.Translate` | kernel/src/paging.rs:684-709 | An address translates to the frame its page is mapped to, which is where the processor's walk ends, or to nothing. |
| `PageTables.Mmu.UnmapPage` | kernel/src/paging.rs:743-773 | The page's translation is removed, an access to it faults, and its frame is handed back to the caller, who alone has it now; no other page is reached differently. |
| `PageTables.Mmu.ProtectRange` | kernel/src/paging.rs:791-828 | Exactly the mapped pages of the range get the new flags and are reached with exactly the rights they give; no frame changes. |
| `PageTables.Mmu.NewAddressSpace` | kernel/src/paging.rs:198-214 | A new address space maps nothing in its lower half, where every access faults, and takes one frame; it fails only when none is left; pages of the others are reached as before. |
| `PageTables.SpaceDropped` | kernel/src/paging.rs:238-276 | Without an address space the rest is in order, and no page of another one changes. |
| `PageTables.Mmu.DestroyAddressSpace` | kernel/src/paging.rs:238-276 | Every frame of the address space, pages, tables and root, is returned exactly once, none that was free and none of the kernel's; other address spaces stay. |
| `FatChains.RunsArePlainExactly` | kernel/src/fat16.rs:642-686 | Reading runs of clusters is reading cluster by cluster for every chain and disk exactly when the table does not link the last cluster number to the mark behind it. |
| `FatVolume.Volume.ReadFile` | kernel/src/fat16.rs:642-686 | A read in runs succeeds exactly if all clusters needed can be read so, and returns their contents in order, cut to the size. |
| `FatVolume.File.Seek` | kernel/src/fat16.rs:721-731 | The cursor reaches a place of the chain exactly if all clusters before it are sound, forwards from where it is or again from the first. |
| `FatVolume.File.ReadAt` | kernel/src/fat16.rs:712-762 | After any reads before it, forwards or backwards, a read succeeds exactly if the clusters up to its end are sound, and returns the bytes of the chain from the offset on, leaving the rest of the buffer alone. |
| `FatVolume.SpelledIsSlice` | kernel/src/fat16.rs:712-762 | What a read through the cursor returns is the slice of what reading the whole file returns. |
| `FatVolume.CursorReachesAll` | kernel/src/fat16.rs:720-720 | The cursor can walk every proper chain of a volume exactly when its cluster numbers end at 0xFFEF; the whole-file reader goes on to 0xFFF7. |
| `FatVolume.Volume.AllocateCluster` | kernel/src/fat16.rs:797-808 | The first free cluster is taken and marked as an end; it fails exactly when there is none. |
| `FatVolume.Volume.FreeChain` | kernel/src/fat16.rs:811-818 | On every table, circular ones included, it ends, having freed exactly the clusters the links lead to, each once; it fails only at a link past the table. |
| `FatChains.EndsOnce` | kernel/src/fat16.rs:811-818 | A chain that ends visits no cluster twice. |
| `FatChains.TrailIsChain` | kernel/src/fat16.rs:811-818 | Of a proper chain, exactly its clusters are freed. |
| `FatVolume.Volume.WriteChain` | kernel/src/fat16.rs:1170-1230 | It succeeds exactly if enough clusters are free, with a new proper chain of them that holds the bytes; otherwise the table is as before. No other cluster changes. |
| `FatVolume.Volume.Overwrite` | kernel/src/fat16.rs:1170-1258 | Chains stay proper and disjoint; the written file reads back as the new bytes, all others as before; free clusters change by exactly the old chain and the new; a full disk changes nothing. |
| `FatVolume.Volume.RemoveChain` | kernel/src/fat16.rs:1347-1361 | Exactly the removed file's chain is freed, and all other chains stay proper and disjoint. |
| `FatNames.LongNameRead` | kernel/src/fat16.rs:892-929 | The entries built for a name read back, through sorting by number and the cut at the first zero, as that name. |
| `FatNames.BuildLfnEntries` | kernel/src/fat16.rs:892-929 | The bytes filled in are the thirteen units of each part at their places, last part first. |
| `FatNames.ReconstructLongName` | kernel/src/fat16.rs:426-438 | Parts in any order are put in order and joined up to the first zero. |
| `FatNames.PlainWellFormed` | kernel/src/fat16.rs:1099-1119 | A name that fits is, in capitals, a well-formed short name. |
| `FatNames.AliasWellFormed` | kernel/src/fat16.rs:1121-1148 | Every made-up short name is well formed, whatever the long one is. |
| `FatAliases.AliasRead` | kernel/src/fat16.rs:1121-1148 | A made-up name is a prefix of the cleaned base, a tilde, and after the last tilde of its first eight characters the digits of its number, which read back give the number. |
| `FatAliases.AliasesDiffer` | kernel/src/fat16.rs:1121-1148 | Two made-up names with different numbers below 1000 differ. |
| `FatAliases.CleanedIsKept` | kernel/src/fat16.rs:1121-1128 | Cleaning a name leaves out spaces and dots, puts an underscore for what a short name may not have and capitals for the rest, and stops after so many characters. |
| `FatAliases.PlainShown` | kernel/src/fat16.rs:1099-1119 | A plain short name, shown with its dot, is the long name in capitals, but for a dot at the end. |
| `FatAliases.SameNameIsAlike` | kernel/src/fat16.rs:1060-1062 | Two names count as the same exactly if they have the same length and agree letter for letter but for case. |
| `FatAliases.ChecksumTells` | kernel/src/fat16.rs:837-843 | Two short names that differ in one byte have different checksums. |
| `FatFolder.AliasHolders` | kernel/src/fat16.rs:1121-1150 | If all made-up names of a name are taken, 999 different slots of the folder hold them. |
| `FatFolder.Folder.ScanDir` | kernel/src/fat16.rs:1022-1056 | A scan lists every live entry before the first free slot once, in order, with its name and its slots. |
| `FatFolder.Folder.FindSlots` | kernel/src/fat16.rs:1060-1062 | It finds the first entry with the name, case aside, or there is none. |
| `FatFolder.Folder.DeleteSlots` | kernel/src/fat16.rs:1065-1072 | A scan afterwards finds every other entry as before and this one no more; no part of its long name is left over. |
| `FatFolder.Folder.LocateSlotRun` | kernel/src/fat16.rs:942-969 | It finds the first room for the entries, or there is none. |
| `FatFolder.Folder.MakeShortName` | kernel/src/fat16.rs:1099-1151 | The short name is the plain one if that fits and is free, else the first of the made-up ones that is free; it fails exactly when all 999 are taken as well. |
| `FatFolder.Folder.PlaceEntry` | kernel/src/fat16.rs:1156-1161 | A scan afterwards finds the new entry under exactly its name and every other entry as before; it takes the first room there is, and fails exactly when there is no room. |
| `FatFolder.Folder.AddEntry` | kernel/src/fat16.rs:1182-1256 | A new name is added under which only the new entry is found, and no two entries ever share a name or a short name; it gets its plain short name or the first made-up one that is free, in the first room there is; a failure changes nothing. |

## Left out

- Checksum arithmetic: xxHash64 is taken to be free of collisions.
- Byte layouts in KonjacFS: nodes, items, inodes and superblocks are values with the sizes their bytes have, so
  `Node::parse` and `Node::serialize` (kernel/src/kfs.rs:333-390) are not modelled as byte codecs; what they reject
  is a block that is no node.
- Inodes: modes, flags, generations and all times but one; a time is read once per operation and passed in.
- Labels, UUIDs and the other fields of a superblock that nothing depends on; one disk is mounted, not the first of
  several.
- I/O errors at or after the superblock's write: the crash and run results are for disks that report none, and what an
  operation promises then is that the volume is unmounted or still backed by its old superblock.
- Locks, and reading while another operation runs.
- Words of the bitmap are sixty-four booleans.
- The callback of a scan is a predicate on items.
- Trees deeper than the depth limit: operations on them report an error, which `Kfs.Fs.Insert` and the rest state.
- KfsIo.Pieces: for an empty range it is stated only for files kept inline, the only ones it is asked about then.
- KfsRename.Rename: for paths not written with single slashes it states exactly when the move breaks the order of
  names, not what later operations do with such a volume.
- KfsOps.WriteFile: refusals are stated one way, as reasons a refusal can have, and so is a full disk: old contents
  newer than the last commit are freed first and may make room after all.
- KfsVolume.Change: its bound on room counts `3 * MAX_DEPTH + 1` nodes for every item changed, whatever the height of the
  tree; that a tree is past the depth limit is stated where an operation stops (`KfsVolume.Perform`), not in terms of
  the volume before. The reserve is kept from extents only; inline contents and folders may use it up, so that the room
  a deletion needs is not promised to be there.
- tools/kfs.py: its own writer and reader of images are not modelled; its checker is what `KfsState` and `KfsNames`
  state.
- KernelHeap.Heap.Alloc: overflow in debug builds, where the addition stops the kernel instead of wrapping, and the
  start-up code and statistics.
- KernelHeap.Heap.Dealloc: the size given is the size allocated, as the allocator's interface demands.
- InstallUndo.Installer.DeviceWrite: what a write that fails half way leaves behind, with its entry not in the log,
  is only stated as far as undoing is concerned.
- InstallUndo.LoadLog: of a file that was not stored by the installer nothing is stated, and no limit on the number
  of its entries is modelled; the device opened, its block size found and partition tables are not modelled.
- PageTables.Mmu.MapPage: the kernel stops when no frame is left, here it reports failure; mappings in the kernel's
  half, flushing of the translation buffer and the records of mapped areas are not modelled.
- PageTables.Mmu.TryMapPage: its lower-half checks are preconditions.
- FatVolume.Volume.WriteChain: I/O errors, and the copies of the table on the disk with the flags for what to write.
- FatVolume.Volume.Overwrite: the entry written between the two steps is in `FatFolder`, not here; nothing stops a
  file from being removed while it is open.
- FatFolder.Folder.PlaceEntry: a folder of one cluster is not extended, and folders of more clusters are not modelled;
  in the original a new entry there can lose others.
- FatFolder.Folder.AddEntry: the cluster chain already written stays allocated when the entry cannot be placed, which
  this contract does not show.
- FatNames.LongNameRead: the checksum in the entries is written but never compared, as in the original.
- FAT16 paths, current folder, copying, moving and deleting of whole folders.
- Device drivers, interrupts, tasks, system calls, consoles and graphics.
