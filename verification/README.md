# A verified model of pmxcfs

pmxcfs is the replicated configuration file system of a Proxmox cluster: an in-memory inode tree,
mirrored to SQLite, kept equal on all members by a state-transfer protocol over totally ordered
group messages. This project models its core in Dafny and proves what it is for.

- `RingBuffer`, `RingBufferImpl`: the single-producer single-consumer ring of `ringbuffer.rs`, both
  sides as small steps over one byte memory. Every interleaving implements a FIFO queue.
- `ClusterLog`, `ClusterLogImpl`: the log of `logger.c`, entries of varying size linked by offsets in a
  wrapping buffer. A walk visits a suffix of what was inserted; re-sorted and merged logs fit.
- `MemTree`, `VmConfig`, `MemDb`, `MemDbImpl`, `VmScan`, `Operations`, `Outcomes`: the tree of `memdb.c`, its SQL table
  and the VM list cache. Each operation keeps one invariant exactly unless a stated condition holds, and
  sequences of operations implement a plain map from paths to contents. Which request succeeds, and which
  error any other one gets, is said of paths alone.
- `Loader`, `Restart`: `bdb_backend_load_index` with its placeholders. Which orders of a row set load is said
  exactly, and the table is rebuilt to exactly the tree in memory.
- `TreeIndex`, `Delta`, `Leader`: the indexes members exchange, the two-cursor comparison, the follower's
  commit, and the choice of the leader. The transfer gives exactly the leader's tree, and the choice is the
  same for all exactly if the comparison of the members is an order.
- `Dfsm`, `DfsmRuns`, `Epochs`, `Queues`, `DfsmImpl`: a member of the group (`dfsm.c`) as a state machine and as
  an object; terminal modes, epochs, quiescence, conservation and order of messages over every run.
- `Dcdb`, `Agreement`, `Group`, `Progress`: what a delivered message does to the database, and agreement: members
  that deliver one common log, each at its own pace, end a synchronisation round with equal databases. A round
  cannot get stuck, each step of the protocol brings its end closer, and every round can be completed.
- `Checks`: verify messages in that group, and exactly when one makes a member leave.
- `Rounds`: what follows a round. A further request or a change of the group, in any phase, finds the members
  alike, so that agreement carries over any number of changes.
- `Locks`: lock records and unlock messages; abandoned locks expire in time, and stale unlocks do no harm.
- `Codec`, `Wire`: the message formats, in Rust and in C, as round trips and byte by byte.

`Bytes` holds little-endian integers, texts as bytes and rings of cells. Modules whose name ends in `Impl` hold the
imperative form of the code (objects with fields, loops, early returns); their methods are proved equal to
the functions of the module without the suffix, about which the theorems are.

## Where the code and its promises part

Each of these is proved as it is, with the exact condition under which the promise holds.

- A message that no reader accepts (an empty one, or one that leaves fewer than 72 bytes of the ring) can pass
  `try_send`, whose margin is 12 bytes, and makes the receive fail: `EmptyMessageFails`, `HeaderCheckExact`. No
  receive after it succeeds: `Blocked`.
- Extending an empty file by a write of no bytes sets a size without data: `PwriteCorrect`, `PwriteDataExact`.
- Deleting a directory that carries the name of a listed VM unlists that VM: `DeleteCorrect`.
- A rename onto itself, of a non-empty directory onto an existing entry, of an empty directory into itself,
  or of a directory onto a VM file damages the database: `RenameCorrect`.
- Rows below a file load if they come before the file and not otherwise: `LoadsExactly`, `AllOrdersExact`. A
  directory row that is its own parent, which a rename into itself writes, loads but is linked nowhere:
  `OwnParentTaken`.
- After a commit the VM list is the leader's exactly if the scan finds no misplaced file and, where the
  leader has no directory `nodes`, the follower had no VM listed: `DeltaExact`.
- Where the leader's index goes on after the end of a follower's, the comparison reads behind that end
  (`dcdb.c` line 528): exactly if the leader's last inode is greater than the follower's last: `BeyondExact`.
- A synced member applies a message at once although its sender is not synced yet (`dfsm.c` line 621), an
  updating member queues it: `ProvisoNeeded` gives different databases for every such round, and
  `SequencesAgree` says exactly when both apply the same sequence.
- The message queue is sorted by count, so that messages sent again fall into place; the sync queue is not. An
  updating member applies every sender's messages in the order of their counts exactly if those of synced senders
  arrive in that order: `OrderRun`.
- A verify message that reaches a member which is not synced is called ignored in a log message, but control
  falls through to the label `leave` (`dfsm.c` lines 924-939): `VerifyExact`. In a run of the group a member
  leaves exactly if such a message comes before the completion, or a bad one at any time: `LeavesExactly`. Only a
  synced member of the lowest node sends them, and the leader sends its completion first; so they can come too
  early exactly if a process of the lowest node other than the leader is synced: `ClashExact`. With one process
  per node that does not happen: `NoClash`.
- A request from a member other than the lowest is called ignored too, but is obeyed (`dfsm.c` lines 778-782):
  `RequestStep`. All members stay together and in one epoch exactly unless it comes between the last state and
  the completion of a round with a member to be updated: `RequestExact`.
- Message counts of 64 bits are compared modulo 2^32: `CountExact`.
- Identifiers are compared by a difference narrowed to 32 bits: `NarrowSign`, `CompareExact`, `CompareCycle`. All
  members choose one leader exactly if the comparison orders them: `LeaderExact`.
- `memdb_update_locks` looks for the old time of a lock in the table under construction, under its bare name: a
  time is taken over exactly if that name is the path of another lock with the same checksum, which is never the
  case, so a reload starts all locks anew: `CarriedExact`, `NeverCarried`.

## Model

| member | source | states |
|---|---|---|
| `RingBuffer.NextInv` | src/pmxcfs-rs/pmxcfs-ipc/src/ringbuffer.rs:463-661 | every step of the writer, of the reader and every new send keeps the ring invariant: chunks between the pointers hold exactly the messages sent and not received, the semaphore counts them but for failed receives, reserved space is free |
| `RingBuffer.InitInv` | src/pmxcfs-rs/pmxcfs-ipc/src/ringbuffer.rs:418-448 | a fresh ring satisfies the invariant |
| `RingBuffer.TrySendInv` | src/pmxcfs-rs/pmxcfs-ipc/src/ringbuffer.rs:997-1010 | starting a send keeps the invariant, whether the space check lets it through or not |
| `RingBuffer.WriterStepInv` | src/pmxcfs-rs/pmxcfs-ipc/src/ringbuffer.rs:463-537 | every single store of the writer keeps the invariant, at whatever step the reader is |
| `RingBuffer.ReaderStepInv` | src/pmxcfs-rs/pmxcfs-ipc/src/ringbuffer.rs:546-661 | every single load and store of the reader keeps the invariant, at whatever step the writer is |
| `RingBuffer.RunInv` | src/pmxcfs-rs/pmxcfs-ipc/src/ringbuffer.rs:418-661 | the ring invariant holds in every state of every interleaving |
| `RingBuffer.FifoInEveryRun` | src/pmxcfs-rs/pmxcfs-ipc/src/ringbuffer.rs:546-661 | in every interleaving, with receives repeated after failed ones, what was received is a prefix of what was sent; a reader past the semaphore never finds the buffer empty, and receives have failed only if the message at the head has a length no reader accepts |
| `RingBuffer.NoFailure` | src/pmxcfs-rs/pmxcfs-ipc/src/ringbuffer.rs:546-661 | if all messages have a length from 1 to the maximum, no receive ever fails |
| `RingBuffer.Blocked` | src/pmxcfs-rs/pmxcfs-ipc/src/ringbuffer.rs:546-661 | once a receive has failed, no later one in the run succeeds: the message stays in front of all others |
| `RingBuffer.HeaderCheckExact` | src/pmxcfs-rs/pmxcfs-ipc/src/ringbuffer.rs:546-661 | with both sides at any step, the check of magic and length rejects the head chunk if and only if the message in it is empty or leaves fewer than 72 bytes of the ring |
| `RingBuffer.FreeWords` | src/pmxcfs-rs/pmxcfs-ipc/src/ringbuffer.rs:418-448 | the free space computed from the two pointers is the ring size if nothing is queued, and otherwise one word less than the ring size minus the words of the queued chunks |
| `RingBuffer.FitsExact` | src/pmxcfs-rs/pmxcfs-ipc/src/ringbuffer.rs:445-448 | by the messages sent and received alone: a send is started if and only if the message and 12 bytes fit the whole ring when nothing is queued, or the ring less one word and the words in use when something is; otherwise nothing changes |
| `RingBuffer.FewestWords` | src/pmxcfs-rs/pmxcfs-ipc/src/ringbuffer.rs:463-537 | a chunk takes the fewest words that hold its eight bytes of header and the message |
| `RingBuffer.ChunkBytes` | src/pmxcfs-rs/pmxcfs-ipc/src/ringbuffer.rs:463-537 | in every reachable state, a message that is sent and not received stands in memory as its length, four bytes 0xA1 and its own bytes, unless one side is at work on that chunk |
| `RingBuffer.HalfWritten` | src/pmxcfs-rs/pmxcfs-ipc/src/ringbuffer.rs:463-537 | in every interleaving, until the last store the size of a chunk reads 0 while its bytes are copied and its magic word reads 0xA110CED0, so that it cannot pass for a message |
| `RingBuffer.InitMemory` | src/pmxcfs-rs/pmxcfs-ipc/src/ringbuffer.rs:932-943 | a fresh ring is zero but for the sentinel |
| `Bytes.CellIsMod` | src/pmxcfs-rs/pmxcfs-ipc/src/ringbuffer.rs:345-358 | the cell of a position, which all statements about the ring use, is the position modulo the ring size |
| `RingBuffer.WriterRefinesQueue` | src/pmxcfs-rs/pmxcfs-ipc/src/ringbuffer.rs:463-537 | a writer step leaves the queue alone, except the store of the write pointer, which appends the message |
| `RingBuffer.ReaderRefinesQueue` | src/pmxcfs-rs/pmxcfs-ipc/src/ringbuffer.rs:546-661 | a reader step leaves the queue alone, except the store of the read pointer, which removes its head and hands it out |
| `RingBufferImpl.EmptyMessageFails` | src/pmxcfs-rs/pmxcfs-ipc/src/ringbuffer.rs:997-1011 | the empty message is accepted by a fresh ring and makes the first receive fail, and stays in the ring |
| `RingBufferImpl.RingBuffer.TrySend` | src/pmxcfs-rs/pmxcfs-ipc/src/ringbuffer.rs:463-537 | succeeds if and only if, by the messages sent and received, the message and 12 bytes fit; then the memory, the pointers and the semaphore are those after all writer steps, whatever the reader is doing; otherwise nothing changes |
| `RingBufferImpl.RingBuffer.CheckHeader` | src/pmxcfs-rs/pmxcfs-ipc/src/ringbuffer.rs:546-661 | finds the oldest message and its length, or reports corruption exactly if that length is not receivable |
| `RingBufferImpl.RingBuffer.CopyOut` | src/pmxcfs-rs/pmxcfs-ipc/src/ringbuffer.rs:546-661 | the byte loop around the end of the ring reads as the single-step reader does |
| `RingBufferImpl.RingBuffer.ReclaimChunk` | src/pmxcfs-rs/pmxcfs-ipc/src/ringbuffer.rs:546-661 | the three stores hand the message out and free its words, as the single-step reader does |
| `RingBufferImpl.RingBuffer.Recv` | src/pmxcfs-rs/pmxcfs-ipc/src/ringbuffer.rs:1026-1068 | once past the semaphore it returns the oldest message byte for byte and reclaims it, or fails, with the ring as it was, exactly if that message is not receivable |
| `ClusterLog.InsertExtends` | src/pmxcfs/logger.c:76-102 | an entry that fits goes behind the last one, inside the buffer, and the buffer again represents the two laps of entries |
| `ClusterLog.InsertWraps` | src/pmxcfs/logger.c:76-102 | an entry that does not fit goes to the front; the current lap becomes the prior one, and its entries not overwritten stay readable |
| `ClusterLog.WalkTurn` | src/pmxcfs/logger.c:122-137 | one turn of the walk reads an intact entry, and goes on exactly if the entry before it is intact too |
| `ClusterLog.StoredReads` | src/pmxcfs/logger.c:201-206 | the size computed from the length fields of a stored entry is its size, and its links and bytes read back |
| `ClusterLog.StorableExact` | src/pmxcfs/logger.c:201-206 | the entries a log takes, by the bytes of their four length fields: 49 to 4096 bytes that add up; and where the time stands |
| `ClusterLog.PutKeeps` | src/pmxcfs/logger.c:208-218 | writing an entry leaves every entry it does not overlap as it was |
| `ClusterLog.VisitedFits` | src/pmxcfs/logger.c:321-355 | all visited entries together fit an empty buffer of the same size without wrapping |
| `ClusterLog.VisitedRetains` | src/pmxcfs/logger.c:76-102 | once wrapped, a walk still reaches entries filling the buffer up to three maximal entries |
| `ClusterLog.TotalSelection` | src/pmxcfs/logger.c:321-355 | a selection of entries in any order takes no more room than all of them |
| `ClusterLogImpl.Clog.AllocEntry` | src/pmxcfs/logger.c:76-102 | the position is where the functional model puts it, the header links back to the entry before, and nothing else in the buffer changes |
| `ClusterLogImpl.Clog.Insert` | src/pmxcfs/logger.c:208-218 | an entry of admissible size is appended to the history and the log stays valid; any other changes nothing |
| `ClusterLogImpl.Clog.Walk` | src/pmxcfs/logger.c:122-137 | terminates and lists, newest first and byte for byte, a suffix of the entries ever inserted |
| `ClusterLogImpl.Refill` | src/pmxcfs/logger.c:312-319 | entries whose total fits are all still there after being copied one by one, in that order |
| `ClusterLogImpl.Sort` | src/pmxcfs/logger.c:321-355 | copying any selection of the walked entries to a new log of the same size loses none of them |
| `ClusterLogImpl.Latest` | src/pmxcfs/logger.c:460-470 | finds the first log whose current entry is latest, and none exactly if no entry with a time is left |
| `ClusterLogImpl.Advance` | src/pmxcfs/logger.c:489-499 | moving a cursor back reaches the entry inserted before, or stops where that one is overwritten |
| `ClusterLogImpl.Take` | src/pmxcfs/logger.c:476-499 | one turn offers one more entry, adds its room to the total if it is new, and makes progress |
| `ClusterLogImpl.MergeSelect` | src/pmxcfs/logger.c:442-500 | the merge loop terminates; what it picks fits the new log, and unless the log is full every entry of every log was offered, up to an entry with time 0, at which the code stops reading that log |
| `ClusterLogImpl.MergeFill` | src/pmxcfs/logger.c:502-512 | whatever order and selection of the picked entries is copied, the merged log holds exactly that, none overwritten |
| `MemTree.PathUnique` | src/pmxcfs/memdb.c:154-186 | no inode has two paths |
| `MemTree.LookupAdd` | src/pmxcfs/memdb.c:547-633 | a new leaf gets exactly one path and every other path leads where it led |
| `MemTree.LookupRemove` | src/pmxcfs/memdb.c:1035-1058 | removing a leaf removes exactly its path |
| `MemTree.AddLeafInv` | src/pmxcfs/memdb.c:547-633 | adding a fresh leaf keeps the tree invariant: every entry in exactly the table of its parent, and on a path from the root |
| `MemTree.RemoveLeafInv` | src/pmxcfs/memdb.c:1035-1058 | removing a leaf or empty directory keeps the tree invariant |
| `VmConfig.PathVmInjective` | src/pmxcfs/memdb.c:188-286 | two configuration paths that stand for the same VM on the same node and of the same type are equal |
| `VmConfig.PathVmExact` | src/pmxcfs/memdb.c:234-287 | a path stands for VM `v` of a type on a node if and only if it is `nodes`, a node name, `qemu-server`, `openvz` or `lxc` by the type, and the decimal form of `v` with `.conf`, where 0 < `v` < 2^32 |
| `VmConfig.NameVmidExact` | src/pmxcfs/memdb.c:188-209 | a name is that of number `v` if and only if it is the decimal form of `v`, without leading zero, then `.conf` |
| `VmConfig.NodeNameExact` | src/pmxcfs/memdb.c:211-232 | node names are letters, digits and hyphens, with no hyphen at either end, and not empty |
| `VmConfig.NumeralOnly` | src/pmxcfs/memdb.c:188-209 | digits without leading zero are the decimal form of their value and of no other number |
| `VmConfig.NameVmidInjective` | src/pmxcfs/memdb.c:188-209 | two file names that give the same VMID are equal |
| `MemDb.FreshInode` | src/pmxcfs/memdb.c:595-605 | the next version is no inode of the tree, so a new inode is fresh |
| `MemDb.MirrorPut` | src/pmxcfs/database.c:223-309 | the one transaction that replaces or inserts an entry, with or without a deletion, keeps the table equal to the tree |
| `MemDb.MirrorDelete` | src/pmxcfs/database.c:223-309 | so does the one that deletes an entry |
| `MemDb.MkdirCorrect` | src/pmxcfs/memdb.c:547-633 | succeeds exactly if parent, name and free place allow it; then one path gains a directory and the root version rises by one; a failure changes nothing; the invariant is kept |
| `MemDb.PwriteDataExact` | src/pmxcfs/memdb.c:763-801 | the data kept is the byte-array write (old bytes kept, gap zero-filled, cut only when truncating) exactly unless an empty file is extended without data |
| `MemDb.PwriteCorrect` | src/pmxcfs/memdb.c:665-837 | succeeds exactly under the stated checks, changes one path to the byte-array result, stays within 1 MiB; a failure changes nothing; the invariant survives if and only if no hole is written |
| `MemDb.MtimeCorrect` | src/pmxcfs/memdb.c:839-941 | a touch changes one path's time, writer and version; a lock only moves forward and only for its owner |
| `MemDb.DeleteCorrect` | src/pmxcfs/memdb.c:1207-1273 | removes exactly one path; the invariant survives if and only if the entry is no directory with the name of a listed VM |
| `MemDb.RenameCorrect` | src/pmxcfs/memdb.c:1060-1205 | the invariant survives if and only if the rename is none of the four bad ones; a good one succeeds exactly if allowed and moves exactly one path, replacing the target |
| `Outcomes.MkdirOutcome` | src/pmxcfs/memdb.c:547-633 | success and each error, by what is at which path |
| `Outcomes.PwriteOutcome` | src/pmxcfs/memdb.c:665-837 | the same for writes and creates: more than 1048576 bytes, a missing or wrong parent, a name `.` or `..`, a VM file elsewhere with that number, and the target itself, in this order |
| `Outcomes.MtimeOutcome` | src/pmxcfs/memdb.c:839-941 | the same for touches, with the rule for directories in `priv/lock` |
| `Outcomes.DeleteOutcome` | src/pmxcfs/memdb.c:1207-1273 | the same for deletions: refused exactly for what is not there, the root, and what has something below it |
| `Outcomes.RenameOutcome` | src/pmxcfs/memdb.c:1060-1205 | the same for renames that do not break the database |
| `Outcomes.RenameChecks` | src/pmxcfs/memdb.c:1084-1140 | the checks before anything is moved, by paths |
| `Outcomes.OtherVmExact` | src/pmxcfs/memdb.c:717-725 | the VM list says that another VM has the number if and only if there is a configuration file of that number at another path |
| `Outcomes.ObstacleExact` | src/pmxcfs/memdb.c:1096-1105 | for a rename: if and only if there is one that is not the file moved |
| `Outcomes.EmptyExact` | src/pmxcfs/memdb.c:1207-1273 | the table of a directory is empty if and only if there is no path one component longer |
| `MemDb.RenameBad` | src/pmxcfs/memdb.c:1060-1205 | each of the four bad renames leaves a database that breaks the invariant, whether it returns success or an error |
| `MemDb.VmidsUnique` | src/pmxcfs/memdb.c:717-725 | no VMID occurs in two places of the tree |
| `MemDb.VmListUnique` | src/pmxcfs/status.c:606-696 | there is only one VM list that fits a tree |
| `MemDbImpl.MemDb.LookupPath` | src/pmxcfs/memdb.c:154-186 | the loop over the components finds what the recursive lookup finds |
| `MemDbImpl.MemDb.BackendWrite` | src/pmxcfs/database.c:223-309 | one transaction deletes a row, replaces a row and always the version row |
| `MemDbImpl.MemDb.Mkdir` | src/pmxcfs/memdb.c:547-633 | the new index, tables, rows and outcome are those of the functional operation |
| `MemDbImpl.MemDb.Pwrite` | src/pmxcfs/memdb.c:665-837 | likewise for writes and creates |
| `MemDbImpl.MemDb.Mtime` | src/pmxcfs/memdb.c:839-941 | likewise for touches |
| `MemDbImpl.MemDb.Delete` | src/pmxcfs/memdb.c:1207-1273 | likewise for deletions |
| `MemDbImpl.MemDb.Rename` | src/pmxcfs/memdb.c:1060-1205 | likewise for renames, including those that leave the tree damaged |
| `MemDbImpl.MemDb.CommitUpdate` | src/pmxcfs/database.c:476-644 | for some order of the rows: deletes, replaces, reloads, compares; then either rolls back with the error flag set or switches to the reloaded tree and its scanned VM list, with the error flag set if that scan fails |
| `MemDbImpl.MemDb.UnlinkEntry` | src/pmxcfs/memdb.c:1035-1058 | removes an entry from the index and from the table of its parent, and its own table |
| `MemDbImpl.SameIndex` | src/pmxcfs/database.c:569-592 | accepts the reload exactly if it loaded, the old version is not zero and the encoded index is the leader's |
| `MemDbImpl.TransfersOnlyTrees` | src/pmxcfs/database.c:541-592 | for updates a leader has sent, what passes the comparison is a tree |
| `VmScan.Recreate` | src/pmxcfs/memdb.c:415-472 | without `nodes` the list in use stays; otherwise the scan reports success exactly if no VMID is double and no file stands for a directory, and without doubles the list is the one that fits the tree |
| `VmScan.AddDir` | src/pmxcfs/memdb.c:288-328 | after one directory the list holds exactly the VM files seen so far, and the duplicate flag says if two of them share a VMID |
| `VmScan.AddNode` | src/pmxcfs/memdb.c:441-465 | the same after one node, and it reports exactly the nodes where a file stands for a VM directory |
| `VmScan.VmInvNoDuplicates` | src/pmxcfs/memdb.c:415-472 | where the incrementally kept list fits the tree, a full scan finds no doubles and any fitting list is that very list |
| `Operations.ApplyInv` | src/pmxcfs/memdb.c:547-1273 | of all requests exactly the safe ones keep the invariant; a safe one changes nothing if it fails and raises the root version by one if it succeeds |
| `Operations.RunInv` | src/pmxcfs/memdb.c:547-1273 | every state of every run of safe requests satisfies the invariant, and its version counts the successes |
| `Operations.RestartInAnyRun` | src/pmxcfs/database.c:311-474 | at any moment of a run the rows of the table, in any order, load as the tree in memory |
| `Operations.ApplyRefines` | src/pmxcfs/memdb.c:547-1273 | a successful safe request does to the paths what it does to a plain map from paths to contents |
| `Operations.RunRefines` | src/pmxcfs/memdb.c:547-1273 | after any run the tree is the plain file system that executed the successful requests |
| `Loader.Step` | src/pmxcfs/database.c:322-448 | whatever rows came before, a row that is taken leaves the root in place, a table for every directory and every placeholder with one |
| `Loader.StepLoading` | src/pmxcfs/database.c:384-445 | of a row set with a row for every parent, the next row is refused if and only if its parent is a file that came before; otherwise index, tables and placeholders are those of the rows so far |
| `Loader.AddRow` | src/pmxcfs/database.c:384-445 | the nested lookups and replacements compute that step |
| `Loader.LoadWellFormed` | src/pmxcfs/database.c:322-462 | a well-formed row set loads, leaves no placeholder, and gives the tree with exactly its entries and names |
| `Loader.TreeUnique` | src/pmxcfs/database.c:322-462 | row sets with the same rows have the same tree |
| `Loader.LoadOrderIndependent` | src/pmxcfs/database.c:322-462 | every permutation of a well-formed row set loads with the same result |
| `Loader.LoadExact` | src/pmxcfs/database.c:322-462 | a row set with distinct inodes, free names and a row of either kind for every parent loads if and only if every row below a file comes before that file |
| `Loader.LoadsExactly` | src/pmxcfs/database.c:311-474 | row sets the primary key admits, none its own parent, load if and only if every row is good, every parent has a row, no name is twice in a directory, and rows below a file come before it |
| `Loader.RowOkExact` | src/pmxcfs/database.c:322-383 | a good row: a name, type 8, or type 4 and no data, and `__version__` for row 0 |
| `Loader.OwnParentTaken` | src/pmxcfs/database.c:384-445 | a directory row that is its own parent is taken whatever its name, and linked nowhere |
| `Loader.WellFormedIs` | src/pmxcfs/database.c:395-403 | the row sets that need no such order are those in which every parent is a directory |
| `Loader.AllOrdersExact` | src/pmxcfs/database.c:322-462 | every order of a row set loads, all with the same tree, if and only if no row is below a file |
| `Loader.LoadIndex` | src/pmxcfs/database.c:311-474 | the loop with its early failures computes the functional load |
| `Restart.StoredLoads` | src/pmxcfs/database.c:311-474 | a table that mirrors a tree loads, in any order, as that tree, root version, writer and time included |
| `Restart.RestartRoundTrip` | src/pmxcfs/database.c:223-309 | a database that satisfies the invariant survives a restart unchanged |
| `TreeIndex.DigestInputInjective` | src/pmxcfs/memdb.c:1493-1510 | the digest input determines the entry although nothing ends the name |
| `TreeIndex.EncodeMarks` | src/pmxcfs/memdb.c:1457-1522 | the index is sorted by inode and has exactly one mark per entry |
| `TreeIndex.EncodeHead` | src/pmxcfs/memdb.c:1457-1522 | an index has the version, writer and time of the root and the greatest inode |
| `TreeIndex.DigestLayout` | src/pmxcfs/memdb.c:1493-1510 | which bytes of an entry are hashed, field by field |
| `TreeIndex.EncodeInjective` | src/pmxcfs/memdb.c:1457-1522 | two trees have equal indexes if and only if they are equal |
| `TreeIndex.EncodeIndex` | src/pmxcfs/memdb.c:1457-1522 | the filling loop computes that index, with the highest inode |
| `Delta.CollectUpdates` | src/pmxcfs/dcdb.c:513-548 | the two-cursor loops collect exactly the inodes some other member lacks or has different; they fail exactly if one of them is not in the tree |
| `Delta.CursorDecides` | src/pmxcfs/dcdb.c:520-545 | a mark is in a sorted index if and only if it is the one at the cursor, and the cursor is at the end if and only if the mark has a greater inode than all |
| `Delta.BeyondExact` | src/pmxcfs/dcdb.c:522-530 | some comparison is made behind the end of a follower's index if and only if the leader's last inode is greater than the follower's last |
| `Delta.CompareOne` | src/pmxcfs/dcdb.c:513-548 | one member's comparison adds exactly what that member lacks or has different |
| `Delta.UpdatesTransfer` | src/pmxcfs/dcdb.c:513-578 | what the leader sends, in any order, covers for every member all it lacks or has different |
| `Delta.UpdatesExact` | src/pmxcfs/dcdb.c:513-548 | the leader sends exactly the entries that some other member lacks or has different, as they are in its tree |
| `Delta.CommitSafe` | src/pmxcfs/database.c:476-644 | whatever entries have arrived: a commit that succeeds ends with the leader's index, one that does not sets the error flag, and nothing is changed unless the reloaded table has the leader's index |
| `Delta.DeleteAbsent` | src/pmxcfs/database.c:503-539 | the deletion loops remove exactly the rows whose inode the leader does not have |
| `Delta.ReplaceRows` | src/pmxcfs/database.c:541-556 | the received entries replace their rows, the root under the name of the version row |
| `Delta.TableBecomesLeaders` | src/pmxcfs/database.c:503-556 | after deletion and replacement the table mirrors the leader's tree |
| `Delta.ReloadIsLeaders` | src/pmxcfs/database.c:558-592 | reloading that table, in any order, gives the leader's tree |
| `Delta.ScanOfLeader` | src/pmxcfs/memdb.c:415-472 | a scan of the leader's tree gives the leader's VM list, or without `nodes` the old list, which then fits exactly if it is empty |
| `Delta.DeltaExact` | src/pmxcfs/database.c:476-644 | the transfer is exact: the mismatch abort is not taken and the tree is the leader's; the whole database is, if and only if the VM scan succeeds and no stale list is kept |
| `Leader.NarrowSign` | src/pmxcfs/dfsm.c:432-441 | a difference narrowed to 32 bits has the right sign if and only if it is within half the range |
| `Leader.CompareExact` | src/pmxcfs/dfsm.c:432-441 | the comparison is the order by node and process if and only if what it subtracts is within half the range: the node identifiers if they differ, else the process identifiers |
| `Leader.SortIs` | src/pmxcfs/dfsm.c:538-553 | sorting gives the members in the order of the comparison, wherever that is an order |
| `Leader.CompareCycle` | src/pmxcfs/dfsm.c:432-441 | three members in a circle, each preceding the next: the list sorts as it arrives, and there is no one leader |
| `Leader.SortOrderIndependent` | src/pmxcfs/dfsm.c:538-553 | every order of the member list sorts the same way where the comparison is an order |
| `Leader.SelectLeader` | src/pmxcfs/dcdb.c:466-493 | no index is newer than the chosen one and all before it are older |
| `Leader.LeaderNewest` | src/pmxcfs/dcdb.c:466-493 | the chosen one has the greatest version, of those the greatest time, and of those comes first |
| `Leader.LeaderUnique` | src/pmxcfs/dcdb.c:466-493 | only one place has these two properties |
| `Leader.ChooseLeader` | src/pmxcfs/dcdb.c:466-493 | the loop computes that choice |
| `Leader.SameLeader` | src/pmxcfs/dcdb.c:466-493 | whatever order the member list arrives in, all choose the same member, one with the greatest version and time, and the first of those in the order of the comparison |
| `Leader.LowestOfNewest` | src/pmxcfs/dcdb.c:466-493 | with identifiers within half the range, that first one is the lowest node and process |
| `Leader.LeaderExact` | src/pmxcfs/dcdb.c:466-493 | for all orders of the member list and all indexes the members may have, one leader is chosen if and only if the comparison is asymmetric and transitive on the members |
| `Dcdb.DeliverCore` | src/pmxcfs/dcdb.c:772-923 | a message has the same effect on databases that agree in tree, VM list and error flag |
| `Dcdb.ApplyCore` | src/pmxcfs/memdb.c:547-1273 | an operation gives the same result and the same tree, VM list and error flag wherever it starts from the same ones |
| `Dcdb.DeliverStamps` | src/pmxcfs/dcdb.c:811-910 | a message that changes anything raises the version by one and stamps the root with the sending node and the time in the message |
| `DfsmRuns.TerminalModes` | src/pmxcfs/dfsm.c:443-497 | in every run a member in `ERROR` or `VERSION_ERROR` stays there, and `LEAVE` is left for another mode only by a restart |
| `DfsmRuns.FailedStep` | src/pmxcfs/dfsm.c:557-1188 | no delivery and no configuration change moves a member out of an error mode |
| `DfsmRuns.VersionExact` | src/pmxcfs/dfsm.c:594-607 | a packet of a newer protocol, and nothing else, puts a member that handles packets into `VERSION_ERROR`, changing nothing else and sending nothing; one of an older protocol changes and sends nothing |
| `DfsmRuns.ReceiveModes` | src/pmxcfs/dfsm.c:557-943 | the modes that follow each other by a delivery: from exchanging states to updating or synced, from updating to synced, from anywhere to `LEAVE` or `ERROR`, and no others |
| `DfsmRuns.MalformedLeaves` | src/pmxcfs/dfsm.c:577-617 | short packets, packets before any configuration and updates that cannot be parsed make a member leave, with database and queues as they were |
| `DfsmRuns.UpdateCollected` | src/pmxcfs/dcdb.c:673-703 | an entry received in an update is put behind those before it, and nothing else changes |
| `DfsmRuns.SyncedStays` | src/pmxcfs/dcdb.c:645-659 | no delivery unmarks a member: who is synced is synced until the group changes |
| `DfsmRuns.ModeOrder` | src/pmxcfs/dfsm.c:443-481 | the error modes, and which replaces which |
| `DfsmRuns.AbsentExact` | src/pmxcfs/dfsm.c:1084-1150 | a member that is not in the new configuration leaves unless it has not joined yet, one that has failed takes no notice; both get a new epoch and keep database and message queue |
| `DfsmRuns.QuietStep` | src/pmxcfs/dfsm.c:609-649 | no event after which a member exchanges states has applied anything to its database |
| `DfsmRuns.QuietRun` | src/pmxcfs/dfsm.c:774-876 | as long as a member exchanges states its database and the messages applied to it stay the same |
| `DfsmRuns.EpochIsolation` | src/pmxcfs/dfsm.c:665-674 | in every run from a member's start, each stored state was delivered under the epoch that is current now; a member that has met a newer protocol version, which handles nothing any more, is excepted |
| `Epochs.VerifyExact` | src/pmxcfs/dfsm.c:924-943 | a verify message of the epoch makes a member leave if and only if it is not synced or the message is bad; otherwise nothing changes |
| `Epochs.RequestStep` | src/pmxcfs/dfsm.c:774-817 | whoever sends a request: a member that waits for one takes over its epoch, drops stored states and announces its index; a synced one ignores it; any other leaves |
| `Epochs.EpochOfLog` | src/pmxcfs/dfsm.c:776-791 | as long as a member exchanges states, its epoch is that of the last request it has delivered |
| `Epochs.OneEpochExact` | src/pmxcfs/dfsm.c:776-791 | members that start in epochs of their own and deliver the same messages are in one epoch if and only if a request is among them |
| `Epochs.OwnState` | src/pmxcfs/dfsm.c:793-838 | over any run in which a member exchanges states, the state stored for itself is the index of its database |
| `Queues.FinishClosed` | src/pmxcfs/dfsm.c:892-917 | completing an update applies the sync queue and then the messages of members in the message queue to the committed database, those of processes that have left being dropped, or the member fails; which of the two is decided exactly |
| `Queues.DrainSynced` | src/pmxcfs/dfsm.c:1012-1065 | a synced member applies exactly the queued messages of synced senders and keeps the others in order, or fails |
| `Queues.DrainUpdating` | src/pmxcfs/dfsm.c:1012-1065 | an updating member moves exactly those to the sync queue and applies nothing |
| `Queues.AloneExact` | src/pmxcfs/dfsm.c:1172-1178 | a change that leaves a member alone: it is synced, both queues are empty, exactly its own queued messages are applied to its database, in the order of the queue; if one of them leaves errors, it is in `ERROR` |
| `Queues.RestartFresh` | src/pmxcfs/dfsm.c:1337-1348 | a restart drops what was queued, so that a member that starts again alone has the database it had and applies nothing |
| `Queues.DrainSyncClosed` | src/pmxcfs/dfsm.c:977-1010 | the sync queue is applied whole and in order, or the member fails |
| `Queues.Conserved` | src/pmxcfs/dfsm.c:609-649 | a delivery that does not fail applies, moves or queues each normal message of a member exactly once, whatever is queued; messages of processes that have left stay queued or are all dropped, and nothing else is; a completed update leaves both queues empty |
| `Queues.RunConserved` | src/pmxcfs/dfsm.c:977-1065 | over any run of deliveries that does not fail, no message of a member is lost or doubled, and what is dropped are exactly the messages of processes that have left |
| `Queues.InsertOf` | src/pmxcfs/dfsm.c:368-413 | whatever order messages arrive in, sorted insertion inserts into the sorted messages of the sender and leaves every other sender's alone |
| `Queues.InsertOrdered` | src/pmxcfs/dfsm.c:368-413 | insertion keeps the queue sorted by count |
| `Queues.CountExact` | src/pmxcfs/dfsm.c:368-370 | counts are compared modulo 2^32, the later being the one ahead by less than half of that |
| `Queues.OrderStep` | src/pmxcfs/dfsm.c:403-412 | at a member not yet synced, messages arriving in any order: the message queue stays sorted, the sync queue stays in order sender by sender if and only if a message of a synced sender is not earlier than those of that sender in it; a member found in sync applies in the order of the counts; completing the update applies exactly what is late |
| `Queues.OrderRun` | src/pmxcfs/dfsm.c:403-412 | over a whole run up to the completion: all that was late is applied, and every sender's messages in the order of their counts if and only if those of synced senders have come in turn |
| `Queues.LateOrder` | src/pmxcfs/dfsm.c:892-917 | what an updating member will apply is in order, sender by sender, if and only if its sync queue is |
| `Queues.RisesIfDistinct` | src/pmxcfs/dfsm.c:368-370 | in order, two messages of a sender with different counts have rising counts |
| `DfsmImpl.Machine.SetMode` | src/pmxcfs/dfsm.c:443-481 | the new mode is the functional one: an error mode never gives way to a lesser error |
| `DfsmImpl.Machine.Enqueue` | src/pmxcfs/dfsm.c:381-413 | the message is inserted behind the entries that do not compare greater |
| `DfsmImpl.Machine.DeliverQueue` | src/pmxcfs/dfsm.c:1012-1065 | the draining loop computes the functional one |
| `DfsmImpl.Machine.DeliverSyncQueue` | src/pmxcfs/dfsm.c:977-1010 | the same for the sync queue, which is empty afterwards |
| `DfsmImpl.Machine.ReceiveNormal` | src/pmxcfs/dfsm.c:609-649 | a normal message is applied if the member is synced and queued otherwise, as in the functional model |
| `DfsmImpl.Machine.SyncStarted` | src/pmxcfs/dfsm.c:776-817 | takes over the epoch, drops stored states and sends the own index |
| `DfsmImpl.Machine.ReceiveState` | src/pmxcfs/dfsm.c:819-875 | refuses non-members and duplicates, stores the state, and decides when all are there |
| `DfsmImpl.Machine.ReceivedAll` | src/pmxcfs/dfsm.c:840-846 | the loop says if every member's state is there |
| `DfsmImpl.Machine.MarkSynced` | src/pmxcfs/dcdb.c:645-659 | the loop marks exactly the leader and the members with an equal index |
| `DfsmImpl.Machine.ReceiveUpdate` | src/pmxcfs/dcdb.c:673-703 | appends the received entry, or leaves on a malformed one |
| `DfsmImpl.Machine.AllSynced` | src/pmxcfs/dfsm.c:680-692 | marks all members and drains the queue |
| `DfsmImpl.Machine.Decide` | src/pmxcfs/dcdb.c:594-671 | leader, marks, updates to send, new mode and drained queue are those of the functional decision |
| `DfsmImpl.Machine.FinishUpdate` | src/pmxcfs/dfsm.c:892-917 | commit, marks, both queues and release as in the functional model |
| `DfsmImpl.Machine.Receive` | src/pmxcfs/dfsm.c:557-943 | the delivery callback computes the functional one, including every path to `leave`, and sends what it sends; `VersionExact`, `ReceiveModes`, `Conserved`, `RequestStep` and `VerifyExact` are about that one |
| `DfsmImpl.Machine.ConfChange` | src/pmxcfs/dfsm.c:1067-1188 | configuration changes as in the functional model, about which `AloneExact`, `AbsentExact` and `ChangeReady` are |
| `DfsmImpl.Machine.ResendQueue` | src/pmxcfs/dfsm.c:945-975 | sends again exactly the own queued messages, in order, and empties the queue |
| `DfsmImpl.Machine.BeginSync` | src/pmxcfs/dfsm.c:1153-1171 | resends after a join, and the lowest node asks for the synchronisation |
| `DfsmImpl.Machine.AloneNow` | src/pmxcfs/dfsm.c:1172-1178 | marks, mode and drained queue of a single member as in the functional model, which `AloneExact` says outright |
| `DfsmImpl.Machine.Scan` | src/pmxcfs/dfsm.c:1110-1125 | the loop finds the lowest node and whether the member itself is listed |
| `DfsmImpl.Machine.StartAgain` | src/pmxcfs/dfsm.c:1536-1565 | a restart is refused in `ERROR` and `VERSION_ERROR` and otherwise empties the message queue and starts over |
| `DfsmImpl.StoredStatesSorted` | src/pmxcfs/dfsm.c:811-834 | what the delivery callback needs of stored states holds in every run whose states are encoded indexes |
| `Agreement.SyncedCore` | src/pmxcfs/dcdb.c:645-659 | a member is marked synced if and only if its tree is the leader's, and then its whole database is |
| `Agreement.CommitCore` | src/pmxcfs/dcdb.c:705-728 | a member that is not in sync commits the leader's database, with the invariant |
| `Agreement.StartStep` | src/pmxcfs/dfsm.c:776-817 | on the request to synchronise every member waits for all states and sends its own |
| `Agreement.WaitingNormal` | src/pmxcfs/dfsm.c:621-629 | messages meanwhile are queued alike at all members |
| `Agreement.WaitingState` | src/pmxcfs/dfsm.c:819-846 | a state that is not the last is stored |
| `Agreement.BetweenNormal` | src/pmxcfs/dfsm.c:609-649 | between last state and completion, a message is applied at synced members and queued at the others, as prescribed |
| `Agreement.BetweenUpdate` | src/pmxcfs/dfsm.c:880-890 | updates are collected at the members that need them and ignored at synced ones |
| `Agreement.LastState` | src/pmxcfs/dfsm.c:836-876 | at the last state a member becomes exactly what the round prescribes for it, and the leader alone sends updates |
| `Agreement.CompleteStep` | src/pmxcfs/dfsm.c:892-917 | at the completion every member becomes exactly what the round prescribes |
| `Agreement.RoundAgreement` | src/pmxcfs/dfsm.c:774-917 | given the proviso that no late message comes from a member not yet synced, every member completes the round with the same sequence of messages applied to the leader's database; queued messages of members that have left are discarded by all alike |
| `Agreement.SequencesAgree` | src/pmxcfs/dfsm.c:609-649 | an updating member applies what the leader applies if and only if late messages of members not yet synced come last, each comparing no greater than the next, and every such message queued before compares greater than all of them |
| `Agreement.AllInFront` | src/pmxcfs/dfsm.c:368-413 | messages inserted one by one all end up in front and in order if and only if their counts do not fall and those queued are greater |
| `Agreement.SameMessages` | src/pmxcfs/dfsm.c:1034-1042 | with or without the proviso every member applies the same messages: of those queued the ones of members, those of processes that have left being dropped, and all that came since |
| `Agreement.LateSequences` | src/pmxcfs/dfsm.c:621-646 | of two late messages the leader applies them as they come, a member being updated the other way round |
| `Agreement.ProvisoNeeded` | src/pmxcfs/dfsm.c:609-649 | in every round with a member to update, two late messages that create one directory leave that member and the leader synced with different databases |
| `Group.ViewStep` | src/pmxcfs/dfsm.c:557-943 | a member that is what the delivered part of the log prescribes stays so over one more delivery that it survives, and sends what is prescribed |
| `Group.VerifyStep` | src/pmxcfs/dfsm.c:692-766 | in a round, a good verify message passes a synced member by; everything else makes the member leave |
| `Group.NextInv` | src/pmxcfs/dfsm.c:557-943 | every step of the group, verify messages and late messages of members to be updated included, keeps its invariant: members, outboxes and log fit together |
| `Group.RunInv` | src/pmxcfs/dfsm.c:557-943 | the group invariant holds in every state of every run |
| `Group.LeavesExactly` | src/pmxcfs/dfsm.c:924-943 | in every run a member has left if and only if a verify message of the epoch in what it has delivered is bad, or comes before the completion and the member is one to be updated |
| `Group.GroupOutcome` | src/pmxcfs/dfsm.c:557-1065 | in every run, with or without the proviso, a member that has delivered the completion and was not expelled is synced, has empty queues and has the leader's database with its own sequence of messages applied |
| `Group.GroupAgreement` | src/pmxcfs/dfsm.c:557-1065 | in every run, members that have delivered the same part of the log with the completion in it, which keeps the proviso, and that no verify message in it expels, are synced, have empty queues, the same messages applied in the same order and equal databases |
| `Progress.NoDeadlock` | src/pmxcfs/dfsm.c:774-917 | in every run, where all is delivered and no state, update or completion is on its way, the update is complete and every member that no verify message has expelled is synced |
| `Progress.CanDeliver` | src/pmxcfs/dfsm.c:557-943 | in every state of the group a member that has not delivered the whole log can deliver the next message |
| `Progress.DeliverCloser` | src/pmxcfs/dfsm.c:774-917 | a delivery brings the end of the round closer: the leader sends its updates, or fewer transmissions and deliveries are left |
| `Progress.TransmitCloser` | src/pmxcfs/dfsm.c:774-917 | so does the entry of a sent message into the log, although every member then has one more to deliver |
| `Progress.RoundCompletes` | src/pmxcfs/dfsm.c:774-917 | from every start of a round whose queued messages leave no errors there is a run of the group that ends with all members synced after the same log |
| `Progress.RoundExists` | src/pmxcfs/dcdb.c:594-671 | any two members can be in a round that meets all that the agreement lemmas ask for and in which one of them needs an update |
| `Checks.ChecksComeLast` | src/pmxcfs/dfsm.c:1274-1302 | unless a synced process of the lowest node is not the leader, in every run all verify messages of the epoch enter the log after the completion |
| `Checks.NobodyLeaves` | src/pmxcfs/dfsm.c:924-943 | and then no member leaves in any run without bad checksums |
| `Checks.SomebodyLeaves` | src/pmxcfs/dfsm.c:924-943 | otherwise, in every such round, for every member to be updated there is a run in which it leaves on a good verify message |
| `Checks.ClashExact` | src/pmxcfs/dfsm.c:1274-1302 | so a member to be updated can be made to leave by good verify messages if and only if a synced process of the lowest node is not the leader |
| `Checks.ClashExists` | src/pmxcfs/dfsm.c:1278-1280 | such rounds exist: two processes on the lowest node and an outdated member on another |
| `Checks.NoClash` | src/pmxcfs/dfsm.c:1278-1280 | with ascending node identifiers the lowest member, if synced, is the leader |
| `Checks.LowestLeast` | src/pmxcfs/dfsm.c:1110-1120 | what the loop takes for the lowest node is the least identifier, unless 0 is one |
| `Rounds.RequestExact` | src/pmxcfs/dfsm.c:774-817 | in every phase of a round: after a request from anyone all members are in the group and in one epoch, if and only if it does not come between last state and completion with a member to be updated |
| `Rounds.RequestValid` | src/pmxcfs/dfsm.c:789-791 | a request before the last state begins a round with the same databases and queues |
| `Rounds.ViewFit` | src/pmxcfs/dfsm.c:977-1065 | in every phase of a round every member has a database that satisfies the invariant and is in a mode from which it can begin the next round |
| `Rounds.QueuesExact` | src/pmxcfs/dfsm.c:1012-1065 | in every phase all members have one and the same message queue, if and only if the proviso holds while updates are on their way |
| `Rounds.RunFit` | src/pmxcfs/dfsm.c:557-943 | so in every run every member that was not expelled is in the phase of what it has delivered, and can begin the next round |
| `Rounds.ChangeReady` | src/pmxcfs/dfsm.c:1086-1171 | a configuration change makes such a member wait for a request, with the sorted list, its database as it was, its sync queue dropped and its queue kept, or given up and its own messages sent again if it is told of a join |
| `Rounds.ChangeExact` | src/pmxcfs/dfsm.c:1153-1171 | a configuration change, told to the members in any order, begins a round if and only if it leaves all of them with one queue |
| `Rounds.JoinExact` | src/pmxcfs/dfsm.c:1135-1163 | what members are told of a join may differ: they begin a round if and only if all keep what they have queued or none does |
| `Rounds.SuccessorValid` | src/pmxcfs/dfsm.c:1153-1171 | a configuration change in any phase, with members leaving and joining, that leaves one queue, begins a round |
| `Rounds.ChainValid` | src/pmxcfs/dfsm.c:1153-1171 | over any number of changes, each in any phase, all rounds are rounds, so that agreement holds in each |
| `Rounds.ResentExact` | src/pmxcfs/dfsm.c:945-975 | after a join, what the members send again together are exactly the messages in the queue that come from members still there, each member's in order |
| `Rounds.DroppedApplied` | src/pmxcfs/dfsm.c:1088-1099 | what a change drops from the sync queue of an updating member is applied at every synced member |
| `Locks.RecordOrigin` | src/pmxcfs/memdb.c:330-413 | in every run of database and record together, a record was made in a step at the time it says, when the lock was there with that checksum, and has stood since |
| `Locks.ExpiredUntouched` | src/pmxcfs/memdb.c:330-358 | a lock reported expired has been there, untouched, since its record was made more than 120 seconds of local time before |
| `Locks.CheckExact` | src/pmxcfs/memdb.c:330-358 | a check says yes if and only if the checksum has been on record under the key for more than 120 seconds; otherwise it is on record from now on, or still; other keys are left alone |
| `Locks.ExpiresInTime` | src/pmxcfs/memdb.c:330-358 | in every run a lock that was made or touched and then left alone is reported expired if and only if it is asked for with its checksum more than 120 seconds after |
| `Locks.RecordExpires` | src/pmxcfs/memdb.c:330-358 | the same for any record from the step in which it was made as long as it stands |
| `Locks.RecordStands` | src/pmxcfs/memdb.c:616-622 | a lock that was made or touched has its record of that step in every state until something happens to it |
| `Locks.LockRecorded` | src/pmxcfs/memdb.c:616-622 | a step that makes or touches a lock puts it on record with its new checksum as of that step |
| `Locks.OnlyLocksRecorded` | src/pmxcfs/memdb.c:616-622 | directories elsewhere, also those below a lock, are not put on record |
| `Locks.LockForgotten` | src/pmxcfs/memdb.c:1229-1236 | a step that removes a lock takes it, and nothing else, off the record |
| `Locks.KeyText` | src/pmxcfs/memdb.c:392-404 | the key of a lock is `priv/lock/` and its name |
| `Locks.TextInjective` | src/pmxcfs/memdb.c:339-354 | paths that share a key of the record are equal |
| `Locks.CarriedExact` | src/pmxcfs/memdb.c:360-413 | for every order of the names: the bare name of a lock is found if and only if it is the path of a lock before it, never without a slash, and then the time is what the clock shows |
| `Locks.NeverCarried` | src/pmxcfs/memdb.c:398-404 | whatever the names, no time is taken over, because the checksum of two locks differs |
| `Locks.ReloadFits` | src/pmxcfs/memdb.c:360-413 | after a reload what is on record are locks that are there |
| `Locks.StepRecords` | src/pmxcfs/memdb.c:616-622 | a step leaves a record alone, removes it, or makes it anew for a lock that is there |
| `Locks.LockDigestInjective` | src/pmxcfs/memdb.c:1389-1413 | the lock checksum determines the entry |
| `Locks.PathStep` | src/pmxcfs/memdb.c:547-1273 | a request leaves what is at a path alone, removes it, or gives it the next version |
| `Locks.EntryOrNewer` | src/pmxcfs/memdb.c:547-1273 | over any run of databases an entry is still there unchanged throughout, or gone, or its successor is newer |
| `Locks.SameIncarnation` | src/pmxcfs/memdb.c:1389-1413 | a lock that has the checksum of an earlier one is that one, unchanged in every state between |
| `Locks.UnlockHitsIncarnation` | src/pmxcfs/dcdb.c:811-840 | an unlock takes effect only on the incarnation that had its checksum, unchanged in every state since |
| `Locks.StaleUnlocksHarmless` | src/pmxcfs/dcdb.c:811-840 | from record to delivery in one run: an unlock sent because the record has expired removes that very lock, which nobody has touched since the record was made more than 120 seconds before, or changes nothing |
| `Locks.UnlockExact` | src/pmxcfs/dcdb.c:826-830 | an unlock removes the path, and no other, if its checksum is current and nothing is below it; otherwise it changes nothing |
| `Locks.LockRecord.Expired` | src/pmxcfs/memdb.c:330-358 | the lookup, reset and insertion compute the functional check; the answer is yes if and only if the checksum has been on record for more than 120 seconds |
| `Locks.LockRecord.Update` | src/pmxcfs/memdb.c:360-413 | the loop over the names computes the functional reload, with its lookup in the table under construction |
| `Codec.FuseRoundTrip` | src/pmxcfs-rs/pmxcfs-dfsm/src/fuse_message.rs:49-144 | a message is read back unchanged if and only if its paths have no NUL, its offset fits 32 bits and its size is at most 16 MiB |
| `Codec.ParseSerialized` | src/pmxcfs-rs/pmxcfs-dfsm/src/wire_format.rs:50-216 | what the parser makes of any serialized message: an error above the limit, otherwise the same fields with strings cut at a NUL |
| `Codec.Layout` | src/pmxcfs-rs/pmxcfs-dfsm/src/wire_format.rs:170-216 | each field and each part of a serialized message stands at its offset and the lengths add up |
| `Codec.UntilNul` | src/pmxcfs-rs/pmxcfs-dfsm/src/wire_format.rs:99-107 | the bytes in front of the first NUL, and none exactly if there is no NUL |
| `Codec.CParseSerialized` | src/pmxcfs/dcdb.c:155-238 | the C parser accepts every message in the Rust layout with non-empty NUL-free strings, with the same fields and flags |
| `Codec.CReadsRust` | src/pmxcfs/dcdb.c:155-238 | a transportable message with non-empty paths is accepted by the C parser with the same fields |
| `Codec.RustReadsC` | src/pmxcfs/dcdb.c:102-153 | a message sent by C is parsed by Rust with the same fields |
| `Codec.SerializeMessage` | src/pmxcfs-rs/pmxcfs-dfsm/src/wire_format.rs:170-216 | the growing buffer ends as the functional serialization |
| `Codec.ParseMessage` | src/pmxcfs-rs/pmxcfs-dfsm/src/wire_format.rs:50-167 | the moving cursor with its early errors computes the functional parse |
| `Codec.UpdateRoundTrip` | src/pmxcfs/dcdb.c:240-360 | a follower parses exactly the entry the leader sent |
| `Wire.ParseExact` | src/pmxcfs-rs/pmxcfs-dfsm/src/wire_format.rs:50-167 | for every byte string and every message: which bytes at which places make the Rust parser return that message, and nothing else does |
| `Wire.HeaderErrors` | src/pmxcfs-rs/pmxcfs-dfsm/src/wire_format.rs:50-90 | the three errors found in the header: fewer than 20 bytes, lengths that add up to 2^32 or more, to more than 16 MiB |
| `Wire.CParseExact` | src/pmxcfs/dcdb.c:155-238 | the same for the C parser: the lengths account for every byte and strings end in a NUL |
| `Wire.UpdateExact` | src/pmxcfs/dcdb.c:281-360 | the same for the parser of updates |
| `Wire.SameNumbers` | src/pmxcfs-rs/pmxcfs-dfsm/src/fuse_message.rs:49-144 | Rust numbers its messages as `dcdb.h` does, in both directions, and knows no others |

## Left out

- Weak memory, threads and mutexes: both sides of the ring interleave under sequential consistency, and memdb operations are atomic.
- `send` of the ring buffer, which waits for space: a question of progress in the runtime. Flow control of `read_chunk` is left out too.
- SQL, group-communication and allocation failures: a transaction succeeds, a multicast is sent, memory is there. The table is a map from inode to row.
- SHA-256 is taken as free of collisions; the whole-database checksum, whose entries are concatenated without delimiters, is not modelled beyond "a verify message is bad or not", the same for all who receive it.
- Versions, inodes and message counts are unbounded integers; where bytes matter, that they fit 64 bits is a hypothesis.
- Paths are lists of non-empty components; splitting and trimming of path strings is not modelled.
- MemDb.RenameBad: for a rename onto or into itself, what the code does with an entry it has already released is replaced by one outcome.
- MemDb.RenameCorrect: the target path has no empty component, which is what splitting a path string gives.
- Loader.LoadsExactly: rows that are their own parent are excluded; `OwnParentTaken` says what happens to such a directory.
- Outcomes.RenameOutcome: renames that break the database are those of `RenameBad`, which says what they leave behind.
- Delta.CollectUpdates: where a follower's index is used up, the code reads out of the bounds of that index and compares with what is there (`BeyondExact` says when); the comparison is taken to find a difference, so that the entry is sent.
- VmScan.Recreate: with a double VMID the scan fails and the list depends on hash order; it is left open which of the two places it names.
- MemDbImpl.MemDb.CommitUpdate: the order in which SQLite returns rows is arbitrary; which tree passes the comparison is left open only for updates no leader sends.
- Dcdb.DeliverCore: what later messages do to a database whose tree a bad rename has damaged is not modelled; there delivery is taken to change nothing.
- ClusterLogImpl.Clog.Insert: sizes of the log for which offsets would exceed 32 bits are excluded.
- Operations.RunInv: starts from a loaded state; on a brand-new database the root time is written to disk and not to memory.
- Agreement.RoundAgreement: message delivery is taken to succeed (no message leaves the database with errors), and the proviso holds that `ProvisoNeeded` shows to be necessary. Queues are equal when the round starts, as `SuccessorValid` and `JoinExact` show of rounds after the first. The insertion is that of glib where counts in a queue differ by less than half of the 32-bit range, here and in `GroupAgreement`.
- Agreement.SequencesAgree: the messages of members not yet synced are taken to be distinct; a sender counts its messages.
- Rounds.SuccessorValid: a member from outside comes with an empty queue, as after a start; messages applied in the round before are safe requests with paths in canonical form, and versions fit 64 bits; a group that shrinks to one member is no round.
- Progress.RoundCompletes: that messages on their way do arrive is left to the group communication; nothing is claimed about time.
- Group.RunInv: what each member applies is taken to leave no errors, here and wherever runs of the group are concerned; a follower's commit is taken to succeed, which `DeltaExact` decides exactly.
- Group.GroupAgreement: one synchronisation round between two configuration changes; the request to synchronise is its first message, and log entries of other epochs may occur anywhere. Further requests are the subject of `RequestExact` and `RequestValid`.
- Checks.ClashExact: the saved checksum and its counter are not modelled; a synced member of the lowest node may send verify messages at any time, which allows every run the code has.
- Epochs.OwnState: the states of its own that a member delivers in its epoch are taken to be states it has sent.
- DfsmImpl.Machine.Receive: states that arrive are taken to be sorted indexes, as members encode them; malformed indexes and the quorum check of `dcdb_deliver` are not modelled.
- Queues.OrderStep: a message that is queued has a count less than half of the 32-bit range away from those queued; the sorted insertion of glib is modelled as a scan from the end, which is the same on a sorted queue. Nothing is assumed of the order of arrival. That messages of a synced sender arrive in turn is left to the senders; `OrderRun` says what follows where they do not.
- Leader.SameLeader: the comparison orders the members, which `LeaderExact` shows to be necessary; `qsort` is modelled as insertion.
- ClusterLogImpl.Sort: the order of the entries in the new log is the traversal of a glib tree and is a parameter; no claim that a merged log is sorted, because its comparison narrows 64-bit differences.
- ClusterLogImpl.MergeSelect: a null log is an empty log; the table of the latest entry per node is left out.
- The JSON dump of the log and the packing of entries from strings.
- Locks.StaleUnlocksHarmless: the run begins after a reload that has found the directory of the locks (or with nothing on record) and ends at the next; who sends an unlock is not part of the group model. Paths in requests have no slash inside a component.
- Codec.CReadsRust: length fields whose sum exceeds 32 bits are outside the C model. UTF-8 validity is a parameter of the Rust parser.
- The Rust state machine, `TreeEntry` serialisation, FUSE, the IPC dispatcher, RRD data, plugs, services and configuration: they would only add easy members or rest on foreign code.
