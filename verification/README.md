# Nugget OS: a verified model

Dafny proofs about the parts of Nugget OS whose correctness is hardest to see
from reading the code: the NuggetFS file system, the TCP connection, the kernel
heap, the two Paint algorithms, the Calculator, the BMP codec with the packed
colours below it, and the Internet checksum. `dafny verify dfyconfig.toml`
checks the whole project.

Code that changes things in place is modelled in place: the file system is a
class over a disk of 4096-byte blocks, an in-memory bitmap array and two search
cursors; a TCP connection is a class over its receive ring and its retransmission
buffer, and the sixteen connections form a table; the heap is a class over block headers linked by addresses; the canvas,
the calculator's display and the BMP buffers are arrays. Every such method is
proved against a specification on values, and what the code promises is proved
about those values, over single steps and over whole runs.

## NuggetFS

`Store` holds the disk as bytes. `VolOf` reads a volume off it: inodes decoded
from the packed 49-byte records, data blocks, the bitmap in memory and the one on
disk. A ghost plan names, for every path, its inode and the slot of its entry.
`Inv` says that the inodes and entries form exactly the tree of that plan rooted
at inode 0 (`TreeInv`) and that no block has two owners, every owned block lies in
the data area and is marked, and a file has block `b` exactly when `b` is below
its size in blocks, and an indirect block exactly when it needs one (`BlockInv`).
`Tree` is the abstract file system: a map from paths to folders and byte strings.
`Leaked` is the set of marked blocks nobody owns.

Each operation ends in a result predicate that fixes the new tree, the new leak
and the return value, the refusals included: `MakeResult`, `WriteResult`,
`ReadResult`, `DeleteResult`, `RenameResult`, `MoveResult`. `Runs` then shows that
any sequence of operations is a run of `Machine`, where an operation is a function
of the map and of four counts: the free blocks in memory and on disk, the lost
inodes, and the width of each folder. So the number of blocks of a formatted disk
and the operations determine every later tree and every result. Moreover, from a
formatted disk, with no write that does not fit and no losing move, the set bits
are at every moment exactly the blocks reachable from paths and a remount changes
nothing; and a write followed by a read gives back what was written.

The order of reading is Bytes, Layout, Volume, Image, Store, Directory, Paths,
Trees, Space, Creating, Drafts, Writing, Truncating, Rewrites, Tearing, Accounts,
Files, Reading, Deleting, Removing, Moving, Renaming, Mounting, Stocks, Machine,
Runs, Scenarios.

## TCP

`Tcp.Connection` is a connection in memory and `Receive`, `Send`, `Recv`, `Close` and `Poll` are the same on values.
`Delivery` speaks of what a connection receives, `Replies` of what each event puts on the wire, `Resends` of what is
repeated and when. `Exchange` lets two connections act on each other over a network that may lose, repeat, delay and
reorder every segment: each side has at every moment received a beginning of what the other has sent, and an
established connection with nothing unacknowledged knows that all of it has arrived. `Dialogue` shows that the
protocol also gets somewhere: two sides that hear each other open, talk and close. `Checksum`, `Segments` and
`Sockets` carry a segment down to the bytes of a packet and up again into the slot of the other machine's table.

## Where the code does less than it seems to

- The header says that directories are deleted only when empty
  (include/nuggetfs.h:66); the code deletes them with everything below. The model
  follows the code.
- `resolve_full` never looks at inode types, so a path that goes on below a file
  reads the file's bytes as entries. `Reading.ExistsBelowFile` states exactly when
  such a path is found; `Scenarios.CraftedPath` writes a file for which it is.
- A move into the moved folder itself, or into a folder without room, removes the
  old entry and leaves the subtree's inodes allocated and unreachable.
  `Moving.Relink` states when, `Scenarios.MoveIntoItself` reaches such a state;
  `Renaming.MoveLosesOnlyWhenFull` shows that the second case needs a full disk.
- A rename cuts a name of more than 31 characters after it has looked for the long
  one. The disk holds a tree afterwards if and only if the cut form was free, or
  was the old name, or there was nothing to rename (`Renaming.RenameSoundExactly`);
  `Scenarios.RenameToTwin` ends with two entries of one name.
- A write succeeds exactly when the free blocks number at least those it lacks. One
  that does not has by then overwritten everything the file held, and marked every
  free block for nothing (`Files.WritePath`, `Tearing.TornMeaning`,
  `Scenarios.TornWrite`).
- TCP acknowledges payload bytes that no longer fit the receive ring
  (`Delivery.OverflowExactly`, `Delivery.OverflowReached`), stops delivering at a FIN
  whatever its number (`Delivery.FinExactly`), keeps only 512 bytes of a longer
  segment (`Resends.LongSendExactly`), and compares acknowledgements without regard
  to wraparound (`Resends.ClearsExactly`).
- ALIGN8 turns a request within seven bytes of 2^64 into zero (`Heap.Align8Wraps`),
  and a request whose end wraps past 2^64 is granted (`Heap.Allocator.KMalloc`,
  `Heap.HugeIsGranted`).
- The flood fill reserves one stack entry for each pixel. That is enough for all
  canvases of a size if and only if it is one row, one column or two by two pixels
  (`Reserve.ReservationExactly`), and a canvas of one colour filled from its first
  pixel already needs more at every other size (`Reserve.PlainExactly`).

## Model

| member | source | states |
|---|---|---|
| `Layout.SuperRoundTrip` | include/nuggetfs.h:28-37 | A superblock written into a block and read back is unchanged |
| `Layout.InodeRoundTrip` | include/nuggetfs.h:39-44 | The packed 49 bytes of an inode decode to that inode |
| `Layout.DirentRoundTrip` | include/nuggetfs.h:46-50 | The packed 37 bytes of an entry decode to that entry |
| `Layout.DirentPut` | fs/nuggetfs.c:144-149 | Writing one entry into a directory block changes that entry and no other of the 110 |
| `Layout.NameFieldInjective` | fs/nuggetfs.c:145-146 | Two valid names stored in entries are equal only if the names are |
| `Layout.MatchesOwnField` | fs/nuggetfs.c:116 | strcmp against a stored name succeeds exactly for the name that was stored |
| `Bytes.RecordPut` | fs/nuggetfs.c:76-80 | Replacing record i of a block of packed records is seen by reading record i and by no other |
| `Image.WriteInode` | fs/nuggetfs.c:73-82 | The read-modify-write at (idx / 83, (idx % 83) * 49) stays inside the table and changes inode idx of the volume and nothing else |
| `Image.WriteBit` | fs/nuggetfs.c:20-22 | Setting or clearing a bit of the bitmap bytes changes exactly that block's mark |
| `Image.WriteBitmap` | fs/nuggetfs.c:24-28 | Copying the bitmap to its blocks makes the saved bitmap equal the one in memory and changes nothing else |
| `Store.Store.DataWrite` | fs/nuggetfs.c:16-18 | Writing a data block changes that block of the volume and nothing else |
| `Store.Store.BitmapPut` | fs/nuggetfs.c:20-21 | Exactly one block changes its mark, on the bitmap bytes themselves |
| `Store.Store.BitmapTest` | fs/nuggetfs.c:22 | The tested bit is the block's mark |
| `Store.Store.BitmapFlush` | fs/nuggetfs.c:24-28 | After the loop the bitmap on disk is the bitmap in memory; inodes and data are untouched |
| `Store.Store.AllocDataBlock` | fs/nuggetfs.c:37-49 | Next fit: the first clear bit cyclically from the cursor is marked and nothing else; -1 exactly when every block is taken, and then nothing changed |
| `Store.Store.FreeDataBlock` | fs/nuggetfs.c:53-58 | Clears exactly that block's mark, and saves the bitmap if asked |
| `Store.Store.InodeRead` | fs/nuggetfs.c:62-71 | Reads the inode that the volume holds under that number |
| `Store.Store.InodeWrite` | fs/nuggetfs.c:73-82 | Replaces that inode of the volume and nothing else |
| `Store.Store.AllocInode` | fs/nuggetfs.c:90-101 | Next fit over inodes 1 to 255; -1 exactly when none is free; no inode or block changes |
| `Store.CycleCovers` | fs/nuggetfs.c:39-47 | A full turn of the cursor meets every bit, wherever it starts |
| `Directory.DirFindIn` | fs/nuggetfs.c:105-123 | Finds the first used entry that bears the name in block and slot order, and nothing when there is none |
| `Directory.DirAddEntryIn` | fs/nuggetfs.c:125-155 | Writes one entry in the first free slot, after adding at most one zeroed block; refuses, changing nothing, exactly when the directory has no room |
| `Directory.DirRemoveEntryIn` | fs/nuggetfs.c:157-176 | Clears the used flag of one entry that bears the name; refuses exactly when there is none |
| `Directory.SearchMeaning` | fs/nuggetfs.c:110-121 | The entry found on the disk bytes is an entry of the volume; if none is found none bears the name |
| `Linking.AddedMeaning` | fs/nuggetfs.c:130-152 | Adding an entry keeps the block invariant, the leak, every file and every other entry |
| `Space.AddedGrows` | fs/nuggetfs.c:130-152 | An added entry takes one free block and widens the folder by it when no block of the folder has an unused entry, and the bitmap is saved; otherwise no inode and no mark changes |
| `Accounts.OneInode` | fs/nuggetfs.c:418-523 | An inode owns exactly as many blocks as its size or its width says, the indirect block included |
| `Accounts.Conservation` | fs/nuggetfs.c:20-58 | Every block of the data area is free, owned by one inode, or leaked |
| `Paths.ResolveParent` | fs/nuggetfs.c:201-233 | Succeeds exactly when every component is 1 to 31 characters and the path above the last one exists as folders; gives that folder's inode and the last name |
| `Paths.ResolveFull` | fs/nuggetfs.c:237-264 | The result is the walk of the path's components over the entries on disk, whatever they are |
| `Paths.BelowPath` | fs/nuggetfs.c:201-264 | A path string with a slash and one name more has one component more |
| `Paths.JoinSplit` | fs/nuggetfs.c:208-216 | Splitting a path cuts at every slash and loses nothing: joined again, the names give the path |
| `Paths.PathSpelling` | fs/nuggetfs.c:201-264 | Names joined by slashes spell exactly those names, with or without a leading slash; resolve_full also takes one behind the last name |
| `Paths.LeadingSlash` | fs/nuggetfs.c:202 | One slash in front of any path that does not begin with one changes nothing |
| `Paths.RootSpelling` | fs/nuggetfs.c:203-241 | The empty path and "/" are the root to resolve_full, and refused by resolve_parent |
| `Paths.SearchFindsChild` | fs/nuggetfs.c:105-123 | In a folder of the tree the search finds a name exactly when the tree has that child, and then its inode |
| `Reading.WalkFinds` | fs/nuggetfs.c:244-263 | A walk that passes through folders only ends at the inode of the path, or fails exactly when the path does not exist |
| `Reading.ResolutionsAgree` | fs/nuggetfs.c:201-264 | Where resolve_parent accepts a path, resolve_full gives the inode of its last component, or fails exactly when that does not exist |
| `Reading.Resolve` | fs/nuggetfs.c:237-264 | The walk of the components over the entries on disk; on paths through folders only, the inode of the path in the tree, or -1 |
| `Reading.WalkPast` | fs/nuggetfs.c:244-263 | A live path is found from the root, so that a longer path is walked on from its inode |
| `Reading.WalkThroughFile` | fs/nuggetfs.c:255-257 | From the root, a path one below a file, never in the tree, is found exactly when the file's direct blocks happen to hold a used entry of that name |
| `Reading.ExistsBelowFile` | fs/nuggetfs.c:635-638 | On a path string one below a file nfs_exists_path is true exactly when the file spells that entry, although the tree never has the path |
| `Reading.CraftedFile` | fs/nuggetfs.c:255-257 | From the root the walk finds a path below any file that holds the 37 bytes of an entry |
| `Scenarios.CraftedPath` | fs/nuggetfs.c:401-638 | Once those 37 bytes have been written with nfs_write_path, nfs_exists_path is true for the path one below the file |
| `Trees.OneName` | fs/nuggetfs.c:266-287 | An inode is named by one path only |
| `Trees.LinkKeepsTree` | fs/nuggetfs.c:278-286 | An entry for a fresh inode adds exactly one path to the tree |
| `Trees.CutKeepsTree` | fs/nuggetfs.c:597-598 | Freeing a subtree's inodes and clearing its entry removes exactly the paths at and below it |
| `Trees.MoveKeepsTree` | fs/nuggetfs.c:602-625 | Clearing one entry and writing it elsewhere, outside the subtree, renames exactly the paths at and below it |
| `Creating.CreateInDir` | fs/nuggetfs.c:266-287 | Adds an empty file or folder to the tree under the inode returned; every other path keeps its inode and entry, no inode is lost, and a block is taken exactly when the folder must grow; or changes nothing: the roll back leaves no inode behind |
| `Creating.CreatedTree` | fs/nuggetfs.c:272-278 | The tree gains one node; every other path keeps its contents |
| `Files.MakePath` | fs/nuggetfs.c:370-380 | Creation of a file or folder fails exactly when the path is malformed or taken, its parent missing, the inodes used up or the parent without room; else the tree gains exactly that node, whose inode is the number returned, every other path keeps its inode and entry, no inode is lost, no block leaks, and a block is taken only to grow the parent |
| `Writing.EnsureBlock` | fs/nuggetfs.c:430-461 | The block for logical index b, direct or indirect, is the file's own old one or a block that was free; fails exactly when fewer blocks are free than it lacks, and then the disk is full |
| `Writing.WriteBlocks` | fs/nuggetfs.c:429-469 | Every block of the data lies in its place, on distinct blocks of the file or formerly free ones, exactly when the free blocks number at least those the new size needs and the file lacks, indirect block included; else the disk is full after a prefix that covers the old blocks |
| `Truncating.Truncate` | fs/nuggetfs.c:478-517 | Frees exactly the blocks the earlier version had and the new one has not, indirect block included, in all three cases |
| `Truncating.Finish` | fs/nuggetfs.c:471-523 | The disk now holds the rewritten file: pointers, indirect block, size and both bitmaps |
| `Rewrites.RewrittenContent` | fs/nuggetfs.c:418-523 | Read back through its pointers the file holds exactly the data, for every earlier content and size |
| `Rewrites.RewrittenBlockInv` | fs/nuggetfs.c:418-523 | After a rewrite no block has two owners and a file has exactly the blocks its size needs |
| `Rewrites.RewrittenLeak` | fs/nuggetfs.c:478-520 | A rewrite leaks no block, whether the file grows or shrinks across the indirect limit |
| `Rewrites.RewrittenTree` | fs/nuggetfs.c:401-525 | Exactly one path changes its contents |
| `Tearing.OverlayAll` | fs/nuggetfs.c:435-456 | A write that fails has replaced every block the file had: what it reads as is the beginning of the new data |
| `Tearing.TornMeaning` | fs/nuggetfs.c:435-456 | Out of space: every inode, size and pointer on disk is as before, no other file changed, the leaked blocks are exactly those that were free, and the file reads as the new data cut to its old length |
| `Files.WriteInode` | fs/nuggetfs.c:414-525 | On one file: the whole replacement exactly when the free blocks suffice, taking exactly the blocks the new contents need beyond the old ones, or the torn state; no other inode changes |
| `Files.WritePath` | fs/nuggetfs.c:401-525 | Nothing changes for the listed reasons; else the tree holds the data at that path and is otherwise unchanged, every path keeps its place, no inode is lost, no block leaks, and the free blocks change by exactly the difference in need, if and only if they suffice; else the torn state, in which a new file stays behind empty |
| `Scenarios.TornWrite` | fs/nuggetfs.c:401-525 | On a disk of two data blocks a file of one byte, written with two blocks of data, ends up with the first byte of the data although the call fails |
| `Reading.ReadInode` | fs/nuggetfs.c:535-548 | The buffer receives the file's bytes block by block and nothing beyond |
| `Reading.ReadPath` | fs/nuggetfs.c:527-549 | Returns min(size, maxlen) and that many first bytes of the path's contents, -1 exactly when the path is no file; where the path goes on below a file, what the inode found there gives; changes nothing |
| `Reading.IsDirPath` | fs/nuggetfs.c:627-633 | True exactly when the tree has a folder there; below a file, exactly when the walk ends at a folder |
| `Reading.ExistsPath` | fs/nuggetfs.c:635-638 | True exactly when the tree has the path; below a file, exactly when the walk ends |
| `Deleting.ChildIsSmaller` | fs/nuggetfs.c:566-568 | Each recursive call works on a properly smaller set of inodes, so the recursion ends |
| `Deleting.FreeOwnBlocks` | fs/nuggetfs.c:576-587 | Frees exactly the blocks one inode owns, its indirect block included, and marks it free, without touching data blocks |
| `Deleting.DeleteInodeRecursive` | fs/nuggetfs.c:555-588 | Terminates and frees exactly the inodes of the subtree and exactly the blocks they own; all data blocks, hence freed indirect blocks, are unchanged throughout |
| `Removing.RemovedMeaning` | fs/nuggetfs.c:597-598 | The tree loses exactly the subtree, the used blocks exactly those it owned, nothing leaks |
| `Removing.DeletePath` | fs/nuggetfs.c:590-600 | Succeeds exactly on existing paths other than the root: the tree loses the subtree and every other path keeps its place, exactly its inodes and the blocks they own become free, no other inode changes, nothing leaks and no inode is lost; otherwise nothing changes |
| `Moving.SameFolderFits` | fs/nuggetfs.c:610-611 | The slot a rename has just cleared is found again before any block would be needed |
| `Moving.FitsMeaning` | fs/nuggetfs.c:623-624 | Whether the destination has room is decided before the old entry is cleared |
| `Moving.Rewire` | fs/nuggetfs.c:610-611 | The two writes by themselves: one entry is cleared, then one written, or refused exactly when the folder has no room |
| `Moving.Relink` | fs/nuggetfs.c:610-611 | The subtree arrives exactly when the destination has room and lies outside it, keeping its inodes and taking a block only if the destination must grow; otherwise it is cut off and its inodes are lost |
| `Scenarios.MoveIntoItself` | fs/nuggetfs.c:614-625 | mkdir a, then move a into a: success is reported, the tree is the bare root and an inode in use is lost |
| `Renaming.RenamePath` | fs/nuggetfs.c:602-612 | Succeeds exactly when the folder and old name exist and the new name does not. Then the subtree hangs under the new name with its inodes, no block is taken and nothing is lost, unless the name is too long, its cut form is taken and is not the old name: then two used entries bear it. A tree fits the disk afterwards exactly in the other cases |
| `Renaming.RenameSoundExactly` | fs/nuggetfs.c:602-612 | A tree fits the disk after a rename if and only if the new name is at most 31 characters, or its cut form is free or the old name, or there is no old entry |
| `Scenarios.RenameToTwin` | fs/nuggetfs.c:602-612 | A rename to a name of 32 letters whose first 31 are taken: the folder ends with two entries of one name and no tree fits |
| `Renaming.MovePath` | fs/nuggetfs.c:614-625 | Moves the subtree, or changes nothing when a path is missing or the name taken, or cuts it off in exactly the two cases |
| `Renaming.NeverFull` | fs/nuggetfs.c:154 | A folder of the tree lacks room only when every block of the disk is taken: the exit for a full directory is never reached |
| `Renaming.NoRoomExactly` | fs/nuggetfs.c:154 | A folder of the tree has no room exactly when its blocks are full and no block of the disk is free |
| `Renaming.MoveLosesOnlyWhenFull` | fs/nuggetfs.c:623-624 | A move that fails after its checks does so between two folders on a full disk |
| `Renaming.TwinEntries` | fs/nuggetfs.c:605-611 | Two used entries of one name in a live folder contradict every tree |
| `Mounting.Format` | fs/nuggetfs.c:291-344 | On a disk larger than its metadata: the tree of an empty root, every inode but the root's and every block free, nothing leaked or lost |
| `Mounting.BitmapIsLeast` | fs/nuggetfs.c:301-302 | The bitmap has the fewest blocks, but at least one, with a bit for every block of the disk |
| `Mounting.Mount` | fs/nuggetfs.c:346-368 | Succeeds exactly when the magic is there, and rebuilds from the disk alone the tree that any run left |
| `Mounting.RereadKeeps` | fs/nuggetfs.c:346-368 | Taking the bitmap from disk keeps the invariant and the tree, is the identity once the bitmap was saved, and leaks no block that did not leak before |
| `Mounting.TreeDetermined` | fs/nuggetfs.c:346-368 | One inode table and one set of data blocks fit one tree only |
| `Stocks.SlackMeans` | fs/nuggetfs.c:130-152 | A folder's blocks have an unused entry exactly when it has fewer children than 110 for each of its blocks |
| `Stocks.SpareMeans` | fs/nuggetfs.c:90-101 | An inode is free exactly when paths and lost inodes do not take all 256 |
| `Stocks.SubtreeBlocks` | fs/nuggetfs.c:555-588 | The blocks of a subtree's inodes number what its files' sizes and its folders' widths add up to |
| `Runs.StepRefines` | fs/nuggetfs.c:291-625 | Each operation does to the tree and to four counts (free blocks in memory and on disk, lost inodes, the width of each folder) exactly what a function of them says, and answers alike |
| `Runs.RunRefines` | fs/nuggetfs.c:291-625 | Over every sequence of operations the tree and the counts are those computed from the ones at the start, as is the result of each operation |
| `Runs.FormattedRun` | fs/nuggetfs.c:291-625 | From a formatted disk on, the number of its blocks and the operations so far determine the tree and every result |
| `Runs.StepLeak` | fs/nuggetfs.c:401-625 | No step but a write that does not fit changes which blocks leak, and none but a losing move loses an inode; both can be told from the tree and the counts |
| `Runs.StepTidy` | fs/nuggetfs.c:346-625 | After any step, a failed write included, a remount leaks no block that did not leak before |
| `Runs.CleanRun` | fs/nuggetfs.c:20-625 | From a clean state, with no write that does not fit and no losing move, which can be computed beforehand, every state of every run is clean: no block has leaked, no inode is lost, the set bits are exactly the blocks reachable from paths, and remounting is the identity |
| `Runs.CleanConserves` | fs/nuggetfs.c:20-58 | In a clean state the free blocks and those of all files and folders make up the whole data area |
| `Runs.FormattedIsClean` | fs/nuggetfs.c:291-344 | A formatted disk is a clean state |
| `Runs.BitmapIsReachable` | fs/nuggetfs.c:20-58 | With nothing leaked or lost, the set bits are exactly the blocks reachable from paths |
| `Runs.OneOwner` | fs/nuggetfs.c:37-49 | No block belongs to two paths |
| `Runs.WriteReadRoundTrip` | fs/nuggetfs.c:382-549 | If a write returns its length, reading the same path returns the first min(length, maxlen) bytes written |
| `Tcp.Connection.SendOne` | net/tcp.c:108-128 | A segment is sent with the next number, kept if it needs an acknowledgement, and send_next moves by what it consumes |
| `Tcp.Connection.PushPayload` | net/tcp.c:182-187 | The queue in the ring gains as much of the payload as has room, in order |
| `Tcp.Connection.HandlePacket` | net/tcp.c:160-213 | The connection after a packet, in every state, is `Receive` of the one before; what that puts on the wire is stated by the members of `Replies`, what it delivers by those of `Delivery` |
| `Tcp.Connection.TcpSend` | net/tcp.c:261-265 | Sends only in an established connection; the data fits one packet |
| `Tcp.Connection.TcpRecv` | net/tcp.c:267-276 | Returns the oldest min(available, maxlen) queued bytes in order and removes exactly those |
| `Tcp.Connection.TcpClose` | net/tcp.c:278-282 | Sends FIN and waits for its acknowledgement |
| `Tcp.Connection.TcpPoll` | net/tcp.c:287-311 | Repeats the kept segment after 300 ticks without moving any number, or closes the slot after five repeats |
| `Tcp.Connection.Take` | net/tcp.c:52-53 | The whole slot is zeroed, buffers, queue and kept segment included, and taken into use |
| `Tcp.Connection.Accept` | net/tcp.c:149-155 | A connection taken from a SYN, with its SYN-ACK sent and kept |
| `Tcp.Connection.Connect` | net/tcp.c:227-234 | An outgoing connection, with its SYN sent and kept |
| `Ring.QueuePush` | net/tcp.c:183-186 | The full test fires exactly at 4095 bytes; otherwise storing at head appends to the queue, across the wrap |
| `Ring.QueuePop` | net/tcp.c:271-274 | Empty exactly when head meets tail; otherwise the byte at tail is the oldest |
| `Replies.DataAnswered` | net/tcp.c:180-195 | The next segment is answered by one acknowledgement that counts every byte received, and a FIN on it by a second one ahead |
| `Replies.RingFills` | net/tcp.c:182-187 | The next segment adds as many of its bytes as have room, so that one too long fills the ring to the last byte |
| `Replies.HighestAck` | net/tcp.c:197 | An open connection remembers the highest acknowledgement seen |
| `Replies.OtherAnswered` | net/tcp.c:180-195 | In an open connection a FIN out of order is acknowledged one number ahead, any other segment out of order is not answered |
| `Replies.OpeningAnswered` | net/tcp.c:161-178 | A SYN-ACK that was waited for is acknowledged behind its number, the first acknowledgement of an accepted connection is greeted, nothing else is answered outside an open connection |
| `Replies.GreetingText` | net/tcp.c:177 | The greeting is the text in the source with its NUL |
| `Replies.LastAckCloses` | net/tcp.c:204-209 | An acknowledgement frees a slot that waits for its last one |
| `Replies.OpensWith` | net/tcp.c:146-234 | An accepted connection has sent one SYN-ACK behind the peer's number, an outgoing one a SYN; each is kept and takes up one number |
| `Replies.DataSent` | net/tcp.c:108-265 | Data goes out pushed, with the next number and an acknowledgement; its first 512 bytes are kept; only from an established connection |
| `Replies.FinSent` | net/tcp.c:278-282 | A close sends a FIN that takes up one number and is kept |
| `Replies.PollSends` | net/tcp.c:287-311 | The kept segment goes out once more after 300 ticks, at most five times, then the slot is closed; otherwise nothing changes |
| `Replies.ReadTakes` | net/tcp.c:267-276 | A read moves the oldest waiting bytes to the application, as many as asked for or as there are |
| `Replies.RunAnswers` | net/tcp.c:160-213 | Over every run, what an open connection has received is acknowledged to the last byte |
| `Exchange.StepNumbers` | net/tcp.c:108-311 | Whatever happens to a side, each segment it has sent or keeps is a slice of the bytes it was given to send, numbered by its place among them |
| `Exchange.StepHonest` | net/tcp.c:160-311 | No segment ever acknowledges more than its side has received |
| `Exchange.RunAgrees` | net/tcp.c:108-311 | Two connections keep, over a network that loses, repeats, delays and reorders: each has received a beginning of what the other sent |
| `Exchange.AcknowledgedHasArrived` | net/tcp.c:108-311 | From the handshake on, an established connection with nothing unacknowledged knows that every byte it ever sent has arrived, once and in order (RFC 9293, section 3.4) |
| `Dialogue.Handshake` | net/tcp.c:146-234 | SYN, SYN-ACK, acknowledgement, greeting and its acknowledgement leave both sides open, in touch and with nothing unacknowledged |
| `Dialogue.Talk` | net/tcp.c:180-265 | Data sent, heard and answered arrives behind what came before, and the two are in touch again |
| `Dialogue.RepeatSaysTheSame` | net/tcp.c:305-308 | The repetition of a lost segment says what the segment said, up to the 512 bytes kept |
| `Dialogue.Farewell` | net/tcp.c:191-282 | A close that is heard and answered leaves the other side in CLOSE_WAIT with everything it had, and frees the closing side's slot |
| `Segments.SegmentRoundTrip` | net/tcp.c:87-106 | A segment with the standard's fields is taken apart by the receiver into the same flags, numbers and data, from the same ports |
| `Segments.FlagBits` | net/tcp.c:94-161 | FIN, SYN, PSH and ACK are bits 0x01, 0x02, 0x08 and 0x10 (RFC 9293, section 3.1) |
| `Segments.OtherFlags` | net/tcp.c:144-204 | The four flags are read whatever other flag bits are set |
| `Segments.Transmit` | net/tcp.c:87-106 | From the header down to the packet: addressed to the peer alone; the TCP checksum verifies over the pseudo-header that the packet itself implies; the peer reads the same flags, numbers, data and ports in it |
| `Sockets.Table.HandleSegment` | net/tcp.c:130-158 | Segments shorter than a header are dropped; others act on the table as their parsed packet from their sender |
| `Sockets.Table.HandlePacket` | net/tcp.c:143-158 | A packet acts on the first slot in use for its peer; a SYN from a new peer to a listening port takes the first free slot; nothing else changes in any of the 16 slots |
| `Sockets.DispatchKeeps` | net/tcp.c:37-58 | Packets keep at most one slot per peer, and never touch a connection of another peer |
| `Sockets.DispatchTracks` | net/tcp.c:130-214 | Whatever arrives, every slot keeps track of its unacknowledged segment |
| `Sockets.NewPeer` | net/tcp.c:143-158 | A SYN from a new peer to a listening port takes the first free slot, if any, and is answered by a SYN-ACK behind its number; any other packet from a new peer changes nothing |
| `Sockets.KnownPeer` | net/tcp.c:141-213 | A packet from a known peer changes the slot in use for it and no other |
| `Sockets.SentArrives` | net/net.c:145-157 | A segment that one machine sends is dispatched at the other, and at no third one, with its flags, numbers and data, as from the sender's address and port |
| `Sockets.PortsCycle` | net/tcp.c:60-65 | Local ports run through all 16384 from 49152 on before one comes again |
| `Sockets.Table.HandlePacketBytes` | net/net.c:145-157 | A packet acts on the table only if it is for this address or broadcast, and carries TCP |
| `Sockets.ConnectKeepsExactly` | net/tcp.c:216-236 | A new outgoing connection keeps one slot per peer exactly when its ephemeral port is not in use towards that peer |
| `Sockets.Table.constructor` | net/tcp.c:14-15 | Sixteen zeroed slots that share no buffer, and no listener |
| `Sockets.Table.FindConnection` | net/tcp.c:37-47 | The first slot in use for the peer |
| `Sockets.Table.AllocConnection` | net/tcp.c:49-58 | The first free slot is zeroed and taken; every other slot is untouched |
| `Sockets.Table.AllocEphemeralPort` | net/tcp.c:60-65 | Ports run from the current one to 65535 and then from 49152 again, never 0 |
| `Sockets.Table.IsListening` | net/tcp.c:67-72 | Whether the port is among the listeners |
| `Sockets.Table.Listen` | net/tcp.c:74-85 | Adds the port; fails exactly when it is new and all eight places are taken |
| `Sockets.Table.Connect` | net/tcp.c:216-236 | Opens a connection in the first free slot and only then uses up a port, or leaves every slot in use and the ports alone |
| `Sockets.Table.PollAll` | net/tcp.c:287-311 | Every slot is polled once, each by itself |
| `Delivery.GotGrows` | net/tcp.c:180-195 | Only the next segment in order adds to what was received; duplicates and others add nothing; reading loses nothing |
| `Delivery.OpeningDelivers` | net/tcp.c:146-155 | A connection, accepted or opened, starts with nothing received and in step with the peer's numbers |
| `Delivery.StepDelivers` | net/tcp.c:160-276 | One event keeps: bytes read and queued are a prefix of the peer's stream, and recv_next is the number after them |
| `Delivery.RunDelivers` | net/tcp.c:160-276 | The same over every run with segments lost, repeated and reordered at will (RFC 9293, section 3.4) |
| `Delivery.OverflowExactly` | net/tcp.c:181-190 | The count of received bytes goes wrong exactly when a payload does not fit the ring |
| `Delivery.OverflowLoses` | net/tcp.c:181-190 | With a full ring, two one-byte segments and a read make the application miss a byte |
| `Delivery.OverflowReached` | net/tcp.c:149-190 | An accepted connection that is sent any 4097 bytes in five segments, in order, and read once in between, misses the last but one |
| `Delivery.FinExactly` | net/tcp.c:191-195 | After a FIN nothing more is delivered, so the whole stream arrives if and only if it was complete already or the FIN's own segment is next, brings the rest and fits the ring |
| `Resends.OpeningTracks` | net/tcp.c:146-155 | A connection starts with its SYN or SYN-ACK as the kept segment |
| `Resends.StepTracks` | net/tcp.c:108-311 | One event keeps: the kept segment is the one last attempted, send_next lies just behind it, attempts are identical, at least 300 ticks apart and at most six |
| `Resends.RunTracks` | net/tcp.c:108-311 | The same over every interleaving of sending, receiving, reading, closing and polling |
| `Resends.LongSendExactly` | net/tcp.c:118-127 | send_next runs ahead of what can be repeated exactly for payloads above 512 bytes, up to the largest segment |
| `Resends.ClearsExactly` | net/tcp.c:196-201 | In an open connection every packet that clears the kept segment acknowledges all of it if and only if the segment's numbers do not wrap; if they do, an acknowledgement of its own first number clears it |
| `Resends.GivesUp` | net/tcp.c:289-310 | Unanswered, a segment is repeated up to five times at timeouts; the next timeout closes the slot |
| `Checksum.FoldKeeps` | net/net.c:42 | Folding the carries ends, keeps the sum modulo 65535 and keeps non-zero sums non-zero (RFC 1071, section 1) |
| `Checksum.IpChecksum` | net/net.c:34-44 | The two loops on a 32-bit accumulator compute the one's complement checksum, odd lengths included, exactly when the accumulator holds the sum, as it does up to 131074 bytes |
| `Checksum.ChecksumExactly` | net/net.c:34-44 | Carries lost out of 32 bits always falsify the checksum |
| `Checksum.OddIsPadded` | net/net.c:41 | An odd last byte counts as if a zero stood behind it (RFC 1071, section 1) |
| `Checksum.StoredVerifies` | net/net.c:174-177 | Storing the checksum in a zeroed field at an even offset makes the checksum of the whole buffer zero |
| `Checksum.OneWordNoticed` | net/net.c:34-44 | Changing one word of a buffer that verifies is noticed, but for 0x0000 and 0xFFFF |
| `Checksum.IpSend` | net/net.c:164-179 | Every field of the packet, read back where the standard puts it: version and length 0x45, the whole length, no fragments, 64 hops, protocol, source and destination, payload; and its checksum verifies (RFC 791, section 3.1) |
| `Checksum.IpRoundTrip` | net/net.c:145-157 | A packet as sent reaches whom it is for, and nobody else unless broadcast, with sender, protocol and payload |
| `Checksum.IpHandleExactly` | net/net.c:145-157 | Any packet is dropped exactly when its header is shorter than five words or it is for somebody else; its payload lies behind the header, options included, up to the length it states |
| `Checksum.PseudoFromPacket` | net/tcp.c:25-35 | The pseudo-header is made of the packet's own addresses, a zero, its protocol and the length of its payload |
| `Checksum.TcpSegment` | net/tcp.c:87-106 | Every field of the segment, read back where the standard puts it; its checksum verifies over pseudo-header, header and data (RFC 9293, section 3.1) |
| `Heap.Align8Wraps` | kernel/mm/heap.c:16 | Rounding up yields at least the request exactly up to 2^64 - 8 |
| `Heap.HugeIsGranted` | kernel/mm/heap.c:26-29 | A request for all but eight bytes of the address space is granted when 16 bytes are left |
| `Heap.MergeKeeps` | kernel/mm/heap.c:67-76 | Coalescing keeps the tiling and every live block, and leaves no two free neighbours |
| `Heap.MallocGivesBlock` | kernel/mm/heap.c:37-60 | A block returned is new, large enough, eight-aligned and apart from every live block |
| `Heap.RoundedIsLeast` | kernel/mm/heap.c:38-39 | The rounded request is the least positive multiple of eight that holds it; one that would wrap gets what a request for nothing gets |
| `Heap.MallocServes` | kernel/mm/heap.c:37-60 | The caller gets a new live block that holds the request: the first free one that does, else one of the least such size at the cursor; NULL exactly when neither exists |
| `Heap.FreeRemovesBlock` | kernel/mm/heap.c:62-77 | Exactly the freed block stops being live; headers and payloads still add up to the region |
| `Heap.WritesSpare` | kernel/mm/heap.c:19-77 | A header on the list or at the cursor lies outside the payload of every block |
| `Heap.Allocator.RequestBlock` | kernel/mm/heap.c:26-35 | Takes the block at the cursor, or nothing exactly when the cursor's 64-bit sum exceeds the region |
| `Heap.Allocator.FindFit` | kernel/mm/heap.c:41-51 | The list walk stops at the first free block that is large enough |
| `Heap.Allocator.Extend` | kernel/mm/heap.c:53-59 | A new block is linked behind the last one; the heap stays in order exactly when the sum does not wrap |
| `Heap.Allocator.KMalloc` | kernel/mm/heap.c:37-60 | First fit on the linked headers, and a block that holds the request, as in `Heap.MallocServes`; NULL exactly when no free block fits and the region is too short; the heap stays in order exactly when the cursor's sum does not wrap; every header written lies outside every payload |
| `Heap.Allocator.KFree` | kernel/mm/heap.c:62-77 | The linked headers become the merged list with that block freed; every header written lies outside every payload |
| `Heap.Allocator.Coalesce` | kernel/mm/heap.c:67-76 | The single pass over the list computes the full merge |
| `Histories.HistoryKeeps` | kernel/mm/heap.c:19-77 | Over every history blocks tile the used region in address order, no two free ones are neighbours, and a block stays put and unchanged until it is freed |
| `Histories.MallocStep` | kernel/mm/heap.c:37-60 | A call of kmalloc is a step of such a history, on the sole assumption that a changed header changes its own 24 bytes |
| `Histories.FreeStep` | kernel/mm/heap.c:62-77 | So is a call of kfree on a live block |
| `Histories.PayloadKept` | kernel/mm/heap.c:19-77 | Over every history a live block keeps each byte, whatever is requested, freed and merged around it, until it is freed or its owner stores there |
| `Histories.RequestKept` | kernel/mm/heap.c:37-77 | Over every history all bytes of a request belong to its caller: until the block is freed no other live block holds any of them, and they change by stores to them alone |
| `Histories.StoreKept` | kernel/mm/heap.c:19-77 | What is stored in a live block is found there until the block is freed or stored to again |
| `Flood.FillingEnds` | kernel/wm.c:1069-1080 | With the stack empty the recoloured pixels are exactly the 4-connected region of the start pixel |
| `Flood.FloodFill` | kernel/wm.c:1056-1083 | Recolours exactly that region and nothing else, and ends; the greatest height of its stack is at most one more than three times the pixels of the start's colour |
| `Reserve.WithinReach` | kernel/wm.c:1064-1079 | The stack never grows beyond its height plus what the unpainted pixels of the colour can add, each its neighbours less one |
| `Reserve.FewSuffice` | kernel/wm.c:1064-1079 | The reserved entries suffice when three times the pixels of the start's colour are fewer than all pixels |
| `Reserve.SmallSuffices` | kernel/wm.c:1064-1079 | They suffice for every canvas of one row, one column or two by two pixels, whatever its colours and the start |
| `Reserve.PlainExactly` | kernel/wm.c:1064-1079 | For a canvas of one colour filled from its first pixel they suffice if and only if it is of such a size |
| `Reserve.ReservationExactly` | kernel/wm.c:1064-1079 | They suffice for all canvases of a size if and only if it is one row, one column or two by two |
| `Reserve.FillWithin` | kernel/wm.c:1056-1083 | The bucket tool with these conditions: what it recolours, and when its stack keeps within the reservation |
| `Lines.NearestIs` | kernel/wm.c:1108-1110 | A pixel is the nearest to the true line exactly when its drift is within half a step |
| `Lines.NextStep` | kernel/wm.c:1108-1110 | One pass of the error-term loop moves from the nearest pixel of one step to the nearest pixel of the next |
| `Lines.LineConnects` | kernel/wm.c:1087-1112 | The line starts and ends at its end points and moves at most one pixel along each axis per step |
| `Lines.LineIsClose` | kernel/wm.c:1087-1112 | Every pixel of the line is within half a pixel of the true line |
| `Lines.Stamp` | kernel/wm.c:1099-1106 | Colours exactly the pixels of the canvas under the 3 by 3 brush |
| `Lines.NinePixels` | kernel/wm.c:1099-1106 | Away from the border the brush covers nine pixels, three on each of three rows |
| `Lines.DrawLine` | kernel/wm.c:1087-1112 | The integer loop stops after max(dx, dy) steps and colours exactly the pixels under a brush at some pixel of the closed-form line |
| `Calculator.RoundTrip` | kernel/wm.c:561-615 | Reading back a written number gives that number, trailing zeros stripped or not, for every value |
| `Calculator.FormatShort` | software-src/calculator/calculator.c:74-107 | Every 64-bit value but the least is written in at most 21 characters, 15 before the dot |
| `Calculator.FormatIsShortest` | kernel/wm.c:584-615 | A number is written without leading zeros before its units and without trailing zeros behind its dot, which it has exactly when it is not whole |
| `Calculator.CalcParse` | software-src/calculator/calculator.c:54-72 | The parser on the display buffer computes the value of its text, without overflow when that value fits |
| `Calculator.WriteDigits` | software-src/calculator/calculator.c:84-89 | The digit loop leaves the digits of the number last first, and its bound of 20 never cuts |
| `Calculator.WriteDecimals` | software-src/calculator/calculator.c:94-98 | Four decimals without trailing zeros |
| `Calculator.TruncDiv` | kernel/wm.c:621-622 | C's division: what the quotient leaves is smaller than the divisor and has the dividend's sign |
| `Calculator.CalcState.CalcFormat` | software-src/calculator/calculator.c:74-107 | The display shows the number; no buffer is exceeded |
| `Calculator.CalcState.AppendDigit` | software-src/calculator/calculator.c:40-52 | A key replaces a fresh display or is appended while there is room |
| `Calculator.CalcState.HandleButton` | software-src/calculator/calculator.c:119-158 | Every key acts on buffer and registers as on the abstract calculator |
| `Calculator.ClearedIsGood` | software-src/calculator/calculator.c:160-166 | At power-up the display reads as the accumulator |
| `Calculator.PressKeeps` | kernel/wm.c:627-667 | A key that overflows nothing keeps: a fresh display reads as the accumulator |
| `Calculator.RunKeeps` | kernel/wm.c:627-667 | The same over every sequence of keys |
| `Calculator.ChainShowsFold` | kernel/wm.c:647-666 | A chain of operands and operators closed by = shows the left-to-right value; it overflows exactly when an operand or intermediate result does |
| `Calculator.ChainComputes` | kernel/wm.c:617-666 | Each further operator and operand turns the number shown into their sum, their difference, their product or quotient cut towards zero, or 0 for a division by zero; the keys overflow exactly when that operation does |
| `Calculator.OperandShown` | kernel/wm.c:647-666 | One operand closed by = shows its value |
| `Calculator.NumeralValue` | kernel/wm.c:561-582 | A numeral is worth its whole part to base ten and its first four decimals; a minus sign negates it |
| `Calculator.OperatorShows` | kernel/wm.c:655-666 | An operator computes what = would and is remembered; a first operand stays on the display as typed |
| `Calculator.ClearForgets` | kernel/wm.c:642-646 | After C everything is computed as from power-up |
| `Calculator.DotTyped` | kernel/wm.c:632-641 | A decimal that begins with the dot is shown with a zero in front |
| `Calculator.PlainTyped` | kernel/wm.c:542-553 | A numeral of at most 23 characters is shown as typed |
| `Framebuffer.ChannelRoundTrip` | kernel/fb.c:78-95 | Taking a channel out of a pixel and putting it back keeps exactly that channel's bits, for every size up to 8 and position below 32 |
| `Framebuffer.PackUnpack` | kernel/fb.c:78-95 | Unpacking and packing a colour keeps exactly its channel bits |
| `Bmp.Encode` | kernel/bmp.c:15-46 | -1 exactly when the image is empty or does not fit; else header and pixels are in place and every other byte, padding included, is untouched |
| `Bmp.DecodeRow` | kernel/bmp.c:72-77 | One row of pixels is decoded, the rest of the canvas left alone |
| `Bmp.HeadExactly` | kernel/bmp.c:50-62 | Accepted are exactly the headers with magic, positive width and height up to 2^31 - 1, 24 bits and no compression; a height stored as its negative means that the top row comes first |
| `Bmp.RowsStored` | kernel/bmp.c:69-70 | Rows are stored one behind the other from the offset on, bottom row or top row first |
| `Bmp.PaddedIsLeast` | kernel/bmp.c:17-65 | A row takes the least multiple of four bytes that holds its pixels |
| `Bmp.Decode` | kernel/bmp.c:48-83 | Accepts exactly the supported headers; decodes the top left crop up to the first row that is not wholly in the file, top-down or bottom-up |
| `Bmp.EncodedRows` | kernel/bmp.c:68-71 | Every row of an encoded image is wholly in the file |
| `Bmp.RoundTrip` | kernel/bmp.c:15-83 | Decoding an encoded canvas gives its top left crop, every pixel reduced to its channel bits, and touches nothing else |
| `Bmp.EncodedSlice` | kernel/bmp.c:15-46 | The same file cut out of a longer output buffer is still the encoding |

## Left out

- Disk errors and failing allocations of the bitmap: the disk is total (reads past its end give zeros, writes there are dropped) and `kmalloc` succeeds in format and mount.
- nfs_list_path: a read-only enumeration with a callback; dir_is_empty has no caller.
- `Reading.ReadPath`, `Reading.IsDirPath`, `Reading.ExistsPath`, `Reading.Resolve`: on paths that go on below a file they speak of the walk over the bytes on disk, since the tree has no such path.
- `Renaming.RenamePath`, `Renaming.MovePath`: the folder paths must name folders when they exist, which the code does not enforce; given a file, it would search and write entries in the file's contents.
- `Mounting.Format`: the disk must be larger than its metadata, which nfs_format does not check.
- `Files.WritePath`: the check that an indirect index is below 1024 is omitted; the size limit makes it unreachable.
- Block numbers read from a file's bytes, as in `Reading.ReadPath` below a file, may exceed 2^25: the driver's 28-bit sector number then wraps to another sector of the disk, while the model reads zeros.
- Crash consistency: the code writes blocks without any ordering protocol.
- Heap headers are values at addresses, not bytes: that a header which changes changes only its own 24 bytes is the one assumption of `Histories.MallocStep` and `Histories.FreeStep`.
- `Flood.FloodFill`: the model's stack is a growable sequence and its allocation succeeds; what the code does once the reserved entries are used up is not part of this model. For a start elsewhere, or several colours, on a larger canvas the height is bounded but not given exactly.
- `Lines.DrawLine`, `Flood.FloodFill`: coordinates are unbounded, so 32-bit overflow of width * height or of twice the error term is not captured; `Lines.DrawLine` needs a canvas of positive width.
- `Calculator.CalcState.HandleButton`: keys that would overflow a 64-bit integer are excluded, as C leaves them undefined.
- Button labels are single characters; hit-testing and drawing of the windows are left out.
- `Bmp.Encode`, `Bmp.Decode`: sizes that overflow a 32-bit integer are excluded.
- fb_unpack_color after fb_pack_color, which needs disjoint channels: not used by the image codec.
- tcp_accept and the three state queries: read-only lookups in the table.
- A slot that has been given up can be taken again while the application still holds its old handle; the model speaks of slots, not of handles.
- TCP acknowledgement validation in SYN_SENT and LAST_ACK, windows and resets: the code has none.
- `Sockets.Table.HandleSegment`: the header length must not exceed the segment, which the code does not check.
- `Sockets.Table.HandlePacketBytes`, `Checksum.IpRoundTrip`: the lengths in the header must lie within the packet, which ip_handle does not check; UDP and other protocols leave the table alone.
- `Exchange.AcknowledgedHasArrived`: payloads fit the ring where they are next, and fewer bytes are sent than the numbers from the first one on reach before 2^32; `Delivery.OverflowExactly` and `Resends.ClearsExactly` show what fails otherwise.
- `Delivery.RunDelivers`: payloads must fit the ring; `Delivery.OverflowExactly` shows that this is exactly what is needed. `Delivery.StepDelivers` likewise.
- `Resends.RunTracks`: payloads sent are at most 512 bytes; `Resends.LongSendExactly` shows that this is exactly what is needed. `Resends.StepTracks` likewise.
- `Tcp.Connection.TcpSend`, `Tcp.Connection.SendOne`: at most 1460 bytes, since ip_send copies the segment behind its own header into a buffer of 1500, which the code does not check.
- The timer is a parameter of each call; ARP resolution and the network card are not part of this model, so a segment handed to the network counts as sent.
- DNS, DHCP, UDP, the window manager, the HTML viewer, the terminal, drivers, program loading and pmm.c: either heuristics without a specification, hardware, or easier copies of arguments made here.
