# xv6 with its students' scheduler: a model and its proofs

The system is a small Unix kernel for one PC with some of its user programs: `assignment1/alon` of the
repository. The project models six parts of it and proves what they are for.

**Crash-safe storage.** `RedoLog`, `Transactions` and `CrashRuns` describe the redo log as images of the
disk, one per sector write; a crash keeps any prefix of them. `BufferCache` is `bio.c` on `memide.c`, a
doubly linked list of ten buffers over a disk that remembers all its images; `Log` is `log.c` on top of
it. Each operation of `Log` is proved to emit exactly the images of the description, so the crash
theorems are about what the code writes; `LogRuns` puts recovery and transactions in a row. `Scripts` is
what a caller does with buffers in a transaction: any number held at a time, each read returning what was
logged last. `CacheAgreement` says how cache, disk and the header in memory agree at every step,
`Recency` that the list is in order of release, which the cache keeps over all calls. `Basics` holds what
several parts count with.

**Files.** `FileState` to `FileWrite` are `fs.c` and `filewrite`: the bitmap allocator, direct and
indirect blocks, reading, writing, truncating. A file is a byte sequence; a ghost map gives every block
in use one owner. `DiskLayout` says at which bytes of the disk all that lies. `BlockConservation` states
that invariant without the map and shows that the image of `mkfs` has it; `FileNeeds` counts the blocks
an operation needs, which decides how it ends. The file layer records what it does with buffers as a
script. `LogBound` proves that the scripts of `filewrite` fit the log and the cache, so that `Log` runs
them, also the one that ends in the middle because the disk is full, and `FileCrashes` what a crash
anywhere in `filewrite`, or in a transaction of `itrunc`, leaves of the files.

**Memory.** `PageTables` to `PageOwners` are `kalloc.c` and `vm.c`: frames, the free list threaded
through them, directories and tables in them, and the one use each frame is put to. `PageAccess` is what
the processor lets user code do, by the bits of the entries. `SpaceRuns` runs `growproc`, the copy of
`fork` and `freevm` over many address spaces. `HeapBlocks` and `Umalloc` are the first-fit heap of user
programs.

**Processes.** `ProcTable` is the process table as a state machine over its events, `ProcSteps` what
every run keeps; `ProcHistory` says of one slot what each event does to it, and `ProcCounts` what the
numbers in the table count over a run. `Scheduling` is whom the four policies RR, FRR, GRT and 3Q choose
and how long others wait, `QueueWaiting` how long in the queue of FRR and of MEDIUM; `Kernel` has the
loops of `proc.c` and `trap.c`, each proved to do what the state machine says. SCHEDFLAG is a parameter.

**Pipes.** `Pipes` is `pipe.c`: steps between sleeps, any interleaving, and the ring that refines them.

**Languages.** `ShellGrammar`, `ShellText` and `Shell` are the parser of `sh.c`; `ShellSyntax` is the
grammar as rules, which the parser follows exactly. `Grep` is the matcher of `grep.c` against the
language of its patterns.

Panics are outcomes, not preconditions. Clocks, `sbrk`, memory for `fork`, and what other processes do
between two steps are parameters.

## Where the code falls short

- `log_write` tests for a full header before it looks for the sector in it: `AbsorptionComesTooLate`, in a
  state that `FillHeader` reaches.
- The cache has ten buffers and the log may have LOGSIZE, also ten: a tenth sector could never be logged,
  because no buffer would be left for the log block (`RoomFor`). The image of `mkfs` has a limit of nine.
- `mkfs` leaves the bits of the log sectors clear, and `balloc` looks at all bits: it hands out a sector of
  the log exactly when no block is left below the log and one of those bits is clear (`FirstClear`). `Bmap`,
  `Writei` and `Filewrite` say exactly when that happens.
- `deallocuvm` strides 4 MB over a missing table instead of going to its end, and so passes over mapped pages
  behind it exactly as `DeallocExact` says; `SpaceWithHole` and `FreeAboveFirstPage` make it happen. It does
  not in address spaces without holes.
- `allocuvm` ignores what `mappages` returns and reports success with the last page unmapped exactly when one
  frame is missing and that page would have been the first of its table (`Allocuvm`).
- `growproc` takes that success for one, so the last page below the size is missing; and when a space
  shrinks to 0 bytes it takes the 0 that `deallocuvm` answers for a failure: it returns -1 and keeps the old
  size, with all pages gone (`Answered`). As long as a page is missing, `fork` never succeeds and panics in
  `copyuvm` if the frames last as far as the hole; a `fork` of any other space does not (`Growproc`, `Fork`).
- `setupkvm` gives nothing back when it fails: then no frame at all is left (`Setupkvm`). `copyuvm` loses one
  frame exactly when the last one goes to a page whose table is missing (`Copyuvm`).
- The scheduler takes a least value of 0 for unset (`PickLeast`, `PickMissesZero`), and the ratio of GRT is
  0 or 1 (`RatioIsZeroOrOne`), so GRT goes by the order of visits: it takes the last one visited, if that has not
  had the CPU all its life, and passes over one that never had the CPU for one that always had it if that one
  comes last (`RatioChoice`).
- `kill` looks at free slots too, and nothing but `wait` takes the mark away: `kill(0)` marks a free slot, and the
  next process forked into it is killed before it has run (`KilledSince`, `KilledBeforeBirth`).
- Under GRT, and for HIGH processes of 3Q, `quanta` is never renewed; what holds is the bound of `Preemption`.
- `>>` is parsed as `>`: `ShellGrammar.Redirs` gives both the same redirection.
- `malloc` of the last seven byte counts wraps (`UnitsHold`), and 2 GB or more makes `morecore` go on with
  memory it has not got (`RequestSane`, outcome `Astray`).
- A killed writer that fills the pipe returns without waking the readers: that, and nothing else, leaves
  somebody asleep who could go on (`StepForgets`, `NobodyForgotten`; `KilledWriterForgets` is such a run).

## Model

| member | source | states |
|---|---|---|
| `RedoLog.HeaderRoundTrip` | assignment1/alon/log.c:85-113 | what `write_head` puts in the header sector is what `read_head` gets back, for every sector list that fits |
| `DiskLayout.HeaderOnDisk` | assignment1/alon/log.c:101-113 | by addresses: the header sector begins with the count, as a little-endian word, and the sector numbers follow, four bytes each |
| `DiskLayout.HeaderRead` | assignment1/alon/log.c:85-96 | what recovery takes from the header, by addresses: the count as a signed int, a negative one as none, and that many sector numbers |
| `RedoLog.InstalledAt` | assignment1/alon/log.c:69-82 | after k rounds of `install_trans` a sector holds the log block of its last entry among the first k, or its old contents |
| `RedoLog.InstallAgain` | assignment1/alon/log.c:69-82 | installing again after a crash in round k gives what one whole install gives |
| `RedoLog.RecoverAgain` | assignment1/alon/log.c:115-122 | a recovery that crashes after any sector write and is started again ends with the same disk |
| `Transactions.OpenTransaction` | assignment1/alon/log.c:160-181 | before the commit header is written, home sectors and header are untouched, and the log blocks hold the last logged value of each distinct sector |
| `Transactions.ViewAfterWrite` | assignment1/alon/log.c:167-174 | absorption: one more `log_write` changes what is read of its own sector and of no other |
| `Transactions.HeaderDistinct` | assignment1/alon/log.c:167-176 | absorption: no sector is entered in the header twice |
| `Transactions.CommittedRecovers` | assignment1/alon/log.c:135-149 | from the moment the commit header is on disk, recovery gives exactly the effect of all the writes, in order |
| `Transactions.UncommittedRecovers` | assignment1/alon/log.c:160-181 | a crash before that recovers to exactly the old home sectors |
| `Transactions.TransactionAtomic` | assignment1/alon/log.c:68-181 | after every single sector write of a transaction, a completed recovery shows all of it or none of it |
| `Transactions.TransactionDone` | assignment1/alon/log.c:135-149 | a transaction that is not interrupted leaves its whole effect and a clear header |
| `CrashRuns.RunAtomic` | assignment1/alon/log.c:68-181 | a crash after any sector write of any sequence of transactions recovers to exactly the committed ones, each whole, in order |
| `CrashRuns.OpenAtomic` | assignment1/alon/log.c:68-181 | a crash after any sector write of a run whose last transaction is not committed recovers to exactly the committed ones; nothing is left of that last one |
| `CrashRuns.CommittedMonotone` | assignment1/alon/log.c:135-149 | durability: once `commit_trans` has returned, no later crash loses the transaction |
| `CrashRuns.CrashSafety` | assignment1/alon/log.c:68-181 | over any number of boots, each ended by a crash anywhere and any number of crashes inside recovery, the home sectors are those of the committed transactions and nothing else |
| `Log.Log.Bread` | assignment1/alon/bio.c:95-105 | during a transaction `bread` returns the latest logged contents of a sector; sleeps just when somebody holds the buffer; panics only if all buffers are busy or dirty |
| `Log.Log.LogWrite` | assignment1/alon/log.c:160-181 | writes exactly the log block, pins the home buffer dirty, keeps cache, disk and header in agreement; succeeds exactly when a transaction is open, fewer than 10 sectors and fewer than the log has, but for its header, are logged, and the cache can hold the log block |
| `Log.Log.BeginTrans` | assignment1/alon/log.c:124-133 | opens a transaction unless one is open |
| `Log.Log.Transaction` | assignment1/alon/log.c:124-181 | a whole transaction on the real cache, with any number of buffers held at a time: as long as fewer than NBUF sectors are held or logged and the header has room it never panics or sleeps, every read returns the latest contents, and it emits exactly the disk images of `TransactionSteps`, so every crash point is covered by `TransactionAtomic` |
| `Log.Log.Unfinished` | assignment1/alon/log.c:124-181 | a transaction whose caller stops after some operations, holding buffers or not, emits exactly the images of its `log_write`s |
| `LogRuns.RunTransactions` | assignment1/alon/log.c:124-181 | transactions one after the other: the disk goes through exactly the images of the run |
| `LogRuns.RunUntilStop` | assignment1/alon/log.c:124-181 | transactions, and one more that stops: the disk goes through exactly the images of the run and then of the `log_write`s |
| `LogRuns.RecoverAndRun` | assignment1/alon/log.c:54-181 | a boot: recovery and then transactions emit exactly the images that the crash theorems speak of |
| `LogRuns.ChainView` | assignment1/alon/log.c:124-181 | what the files see after j transactions is the effect of their writes on the home sectors |
| `CrashRuns.RunImageIs` | assignment1/alon/log.c:68-181 | the disk after k sector writes of a run is the k-th of those images |
| `CrashRuns.OpenImageIs` | assignment1/alon/log.c:68-181 | the disk after k sector writes of such a run is the k-th of its images |
| `Log.Log.WriteHead` | assignment1/alon/log.c:101-113 | writes the header block for the logged sectors and nothing else |
| `Log.Log.InstallTrans` | assignment1/alon/log.c:69-82 | copies every log block home through the cache, one image per round as `InstallSteps` says, and unpins the home buffers |
| `Log.Log.CommitTrans` | assignment1/alon/log.c:135-149 | emits exactly `CommitSteps`: header, installs, clear header; afterwards nothing is dirty and no transaction is open |
| `Log.Log.ReadHead` | assignment1/alon/log.c:85-96 | takes the sector list from the header sector |
| `Log.Log.RecoverFromLog` | assignment1/alon/log.c:115-122 | from a fresh cache emits exactly `RecoverySteps` and leaves `Recovered` |
| `CacheAgreement.FreshCache` | assignment1/alon/bio.c:38-56 | the cache as `binit` leaves it is one recovery may start from |
| `CacheAgreement.LogWriteKeeps` | assignment1/alon/log.c:160-181 | every clean buffer nobody holds shows the latest logged contents of its sector, and the dirty buffers are exactly the pinned ones, also after a `log_write` |
| `CacheAgreement.ReadAgrees` | assignment1/alon/bio.c:95-105 | a `bread` keeps that agreement |
| `CacheAgreement.RoomFor` | assignment1/alon/bio.c:58-93 | whatever buffers are held, `bread` of a sector finds none exactly when the held and the logged sectors are ten and this is not one of them; for the log block that `log_write` needs the same |
| `CacheAgreement.InstallStep` | assignment1/alon/log.c:69-82 | one round of install keeps clean buffers equal to the disk |
| `LogBound.FewSectors` | assignment1/alon/log.c:160-181 | writes to fewer distinct sectors than the limit never reach the panic in `log_write` |
| `Scripts.FewUsed` | assignment1/alon/log.c:160-181 | a transaction that touches fewer sectors than the header and the cache have room for never lacks room, whatever it holds and when |
| `LogBound.AbsorptionComesTooLate` | assignment1/alon/log.c:160-165 | with a full header `log_write` panics even for a sector that is in it |
| `LogBound.FillHeader` | assignment1/alon/log.c:124-181 | and that state is reached: begin a transaction, log as many sectors as fit, and read the first one again |
| `LogBound.FilewriteFits` | assignment1/alon/file.c:123-151 | on an image with one bitmap block and a log of LOGSIZE sectors every transaction of `filewrite` is admissible for the log and has room in the cache at each step, and takes the blocks from one stage of the write to the next |
| `LogBound.StopFits` | assignment1/alon/file.c:123-151 | the same for the transaction in which `balloc` finds no block, up to its panic, and up to the sector of the log if it takes one: so it is `balloc` that stops `filewrite` and never the log |
| `FileCrashes.CrashInFilewrite` | assignment1/alon/file.c:123-151 | a crash after any sector write of `filewrite`, also of the transaction that `balloc` puts an end to, and then in any number of recoveries: the next boot finds the file with a whole number of chunks written, those whose transaction was committed, and every other file as it was |
| `FileCrashes.CrashInTransaction` | assignment1/alon/log.c:68-181 | a crash after any sector write of a transaction such as that of `itrunc`, and then in any number of recoveries: the next boot finds the files from before it, or those from after, all of them |
| `FileCrashes.SameFiles` | assignment1/alon/fs.c:268-297 | files depend on home sectors only: a disk that differs in the log has the same files |
| `BufferCache.MemDisk.Iderw` | assignment1/alon/memide.c:33-58 | one sector transfer: writes if dirty, reads if not valid, and in exactly four cases panics and changes nothing |
| `BufferCache.BCache.Binit` | assignment1/alon/bio.c:38-56 | links all buffers into one circular list, last one first |
| `BufferCache.BCache.Bget` | assignment1/alon/bio.c:58-93 | returns the one buffer of the sector, sleeps if it is busy, else recycles the least recently released clean buffer, panics just if there is none; a dirty buffer is never recycled |
| `BufferCache.BCache.Bread` | assignment1/alon/bio.c:95-105 | the buffer of the sector, valid; the disk is read just if it was not |
| `BufferCache.BCache.Bwrite` | assignment1/alon/bio.c:107-115 | the sector on disk becomes the buffer's contents |
| `BufferCache.BCache.Brelse` | assignment1/alon/bio.c:117-138 | unlinks the buffer and puts it in front; every other buffer keeps its state; the list stays a permutation of all buffers |
| `BufferCache.ToFrontPermutes` | assignment1/alon/bio.c:125-131 | moving one buffer to the front keeps the list a permutation of all buffers |
| `BufferCache.PutUnique` | assignment1/alon/bio.c:66-92 | at most one buffer per device and sector, also after one is recycled |
| `Recency.MostRecentFirst` | assignment1/alon/bio.c:30-35 | the list that any releases make of the one of `binit`: a buffer released later stands earlier |
| `BufferCache.ListInOrder` | assignment1/alon/bio.c:30-35 | and so in the cache itself, after any calls: of two buffers the one released later, or the only one released, stands nearer to the front |
| `Fs.FileSystem.Balloc` | assignment1/alon/fs.c:52-76 | the first block whose bit was clear, now marked and zeroed; no other bit or block changes; none exactly when all are set |
| `FileNeeds.FirstClear` | assignment1/alon/fs.c:61-76 | that block is a sector of the log if and only if every bit below the log is set and one from there on is clear |
| `Fs.FileSystem.Bfree` | assignment1/alon/fs.c:79-95 | clears just that bit; the panic comes exactly when it was clear |
| `Fs.FileSystem.Iupdate` | assignment1/alon/fs.c:201-217 | the 64 bytes of the disk inode, at byte 1024 + 64 * inum of the disk, become those of the memory inode, and no other byte of the disk changes; boot block and super block stay |
| `DiskLayout.InodesFrom2` | assignment1/alon/fs.h:36-40 | the inodes lie one behind the other from sector 2 on, eight in a sector, 64 bytes each: word w of inode i is at byte 1024 + 64 * i + 4 * w of the disk |
| `DiskLayout.Regions` | assignment1/alon/fs.h:36-46 | the sectors from 2 on that hold inodes, then those of the bitmap, then those of files and indirect blocks, all below the log, and no two of these overlap |
| `DiskLayout.BitmapBehindInodes` | assignment1/alon/fs.h:42-46 | bit b of the bitmap, the lowest of a byte first, says whether block b is in use; it begins in sector ninodes / 8 + 3 |
| `DiskLayout.UpdatedBytes` | assignment1/alon/fs.c:201-217 | by bytes: writing an inode back changes its 64 bytes and no others |
| `DiskLayout.FileOnDisk` | assignment1/alon/fs.h:22-34 | by addresses: size and bytes of a file, the first twelve sectors named in the inode and the others in the sector that its last word names |
| `Fs.FileSystem.Bmap` | assignment1/alon/fs.c:354-384 | the block of file block bn, allocated if missing, direct or through the indirect block; every file's bytes stay, and no block gets two owners; fails for want of blocks, or goes into the log, exactly when fewer are left than the missing data block and indirect block need; boot block and super block stay |
| `Fs.FileSystem.Readi` | assignment1/alon/fs.c:434-458 | exactly the slice of the file's bytes, cut at its end; fails exactly when the offset is past the end; nothing is allocated or logged |
| `Fs.FileSystem.Writei` | assignment1/alon/fs.c:462-492 | the file becomes the splice of the written bytes at the offset, every other file is unchanged, all blocks below the size stay allocated, the disk inode is up to date on return; refused exactly past the end or above MAXFILE blocks; short of blocks exactly when the blocks missing from the range, and the indirect block, are more than are left; at most one bitmap, inode, indirect and the spanned data sectors are touched; boot block and super block stay |
| `Fs.FileSystem.WriteTransaction` | assignment1/alon/file.c:131-139 | one round of `filewrite`: its operations on buffers are a script that takes the blocks to the new ones, over home sectors only, at most eight of them, with the super block, if there is one bitmap block; what it did when `balloc` ends it, with the same bound |
| `Fs.ChunkSpan` | assignment1/alon/file.c:126-130 | a chunk touches at most four data blocks, at whatever offset |
| `Fs.FileSystem.Itrunc` | assignment1/alon/fs.c:391-419 | the file is empty, every other file keeps its bytes; as many blocks become free as the file had, itself and for the indirect block, and no others; the bits from the log on stay as they are; the bitmap panic is never reached; used are only the super block, the bitmap, the inode block and the indirect block; boot block and super block stay |
| `Fs.FileSystem.TruncTransaction` | assignment1/alon/fs.c:391-419 | in a transaction of its own it is a script that takes the blocks to the new ones, over home sectors only, at most eight with one bitmap block |
| `FileSteps.AllocDirectKeeps` | assignment1/alon/fs.c:359-363 | attaching a fresh block to a direct slot keeps one owner per block and every file's bytes |
| `FileSteps.AllocEntryKeeps` | assignment1/alon/fs.c:366-380 | the same for an entry of the indirect block |
| `FileSteps.PutDataKeeps` | assignment1/alon/fs.c:476-484 | writing a data block changes the bytes of that file block only |
| `FileSteps.UpdatedKeeps` | assignment1/alon/fs.c:201-217 | writing the inode back changes no slot and no other inode |
| `FileSteps.FreeDirectKeeps` | assignment1/alon/fs.c:398-403 | freeing a direct block keeps every other file and the ownership of all other blocks |
| `FileSteps.FreeEntryKeeps` | assignment1/alon/fs.c:405-413 | the same for the blocks behind the indirect block |
| `FileWriting.FinishedSplices` | assignment1/alon/fs.c:462-492 | after the last chunk the contents are `Splice` of the old contents |
| `FileTruncating.EmptiedKeeps` | assignment1/alon/fs.c:391-419 | with all slots freed the file is empty and the others are untouched |
| `FileTruncating.Regained` | assignment1/alon/fs.c:391-419 | the blocks left grow by exactly the blocks the file owned below the log |
| `BlockConservation.OwnersAreReachable` | assignment1/alon/fs.c:52-95 | what `Writei` and `Itrunc` keep means: below the log the set bits are exactly the metadata blocks and the blocks reachable from inodes, each reachable once |
| `BlockConservation.ReachableHaveOwners` | assignment1/alon/fs.c:52-95 | and the converse: every such image has an owner map, so the invariant demands nothing more of an image |
| `BlockConservation.MkfsImage` | assignment1/alon/mkfs.c:228-242 | an image with the bitmap of `mkfs` is such an image, and every block from the first unused one up to the log is left |
| `FileWrite.OpenFile.Filewrite` | assignment1/alon/file.c:116-155 | the exact ending by permission, offset, length and blocks left: all bytes, -1 after the chunks that `writei` accepts, or `balloc` without a block; what is written is spliced in at the file offset, every other file is unchanged, and what is committed are the transactions of its stages, with a whole number of chunks written after each; how many chunks are committed (`Chunks`), also when the disk runs full, and what the transaction that is not committed did; chunks are of 1536 bytes; boot block and super block stay |
| `FileWrite.ChunksOnce` | assignment1/alon/file.c:126-151 | `Chunks` determines that number |
| `FileWrite.SpliceTwice` | assignment1/alon/file.c:132-151 | writing in chunks is writing at once |
| `Paging.Memory.Kalloc` | assignment1/alon/kalloc.c:82-95 | 0 exactly when the list is empty, else its head, which is then in no other use |
| `Paging.Memory.Kfree` | assignment1/alon/kalloc.c:60-77 | junk, the byte 1, all over the page but for its first word, which links it to the old head, and the page in front of the list; panics exactly outside the range or off a page boundary |
| `Paging.Memory.Freerange` | assignment1/alon/kalloc.c:45-52 | the list gains exactly the pages that lie whole between the two addresses |
| `Paging.Memory.Walkpgdir` | assignment1/alon/vm.c:42-65 | the table for an address; made, zeroed and entered, present, writable and user-accessible, only on request and if a frame is left |
| `Paging.Memory.Mappages` | assignment1/alon/vm.c:67-90 | maps the pages of the range in order to consecutive frames with the permissions asked for and nothing else; stops short exactly at a mapped page (panic) or when a table is missing and no frame is left |
| `Paging.Memory.Setupkvm` | assignment1/alon/vm.c:113-144 | a new directory whose entries are exactly those of `kmap`, on a frame that was free; succeeds exactly when 65 frames are free, for the directory and 64 tables; on failure nothing in use has changed and no frame is left; user code can touch no page of it |
| `Paging.Memory.Deallocuvm` | assignment1/alon/vm.c:245-273 | frees and unmaps exactly the mapped pages of the range its walk meets, and changes nothing else |
| `SpaceFreeing.DeallocExact` | assignment1/alon/vm.c:259-261 | a page of the range stays mapped if and only if it was mapped and the 4 MB stride passed over it |
| `SpaceFreeing.NothingSkipped` | assignment1/alon/vm.c:258-271 | nothing is passed over in a space without holes, nor from a 4 MB boundary |
| `SpaceFreeing.PrefixShrinks` | assignment1/alon/vm.c:245-273 | a space without holes keeps just the pages below the rounded new size |
| `PageOwners.StrideMisses` | assignment1/alon/vm.c:259-261 | without a table for the first 4 MB, the walk from the second page passes over a page mapped at 4 MB |
| `PageOwners.SpaceWithHole` | assignment1/alon/vm.c:67-144 | such an address space, made with `setupkvm` and `mappages` |
| `PageOwners.FreeAboveFirstPage` | assignment1/alon/vm.c:245-273 | and `deallocuvm` on it leaves that page mapped |
| `Paging.Memory.Freevm` | assignment1/alon/vm.c:275-292 | the free list gains every frame of the space and no other; all other frames keep use and bytes |
| `PageOwners.FreedForGood` | assignment1/alon/vm.c:275-292 | no other address space is affected by it |
| `Paging.Memory.Allocuvm` | assignment1/alon/vm.c:218-243 | exact outcome for every space, by the number of free frames: all pages mapped to zeros; or nothing added and 0; or, when the last frame went to a last page whose table is missing, success with that page unmapped; a panic exactly at the first page that is mapped already, if the frames last that long, and which old pages are still mapped if they do not; all other spaces keep their entries and bytes; in every case user code can read and write exactly the mapped pages below KERNBASE, so all the new ones when it succeeds, and touch no other |
| `PageGrowing.CostGrows` | assignment1/alon/vm.c:231-241 | the frames needed, one a page and one a missing table, grow with each page |
| `PageGrowing.GrownNext` | assignment1/alon/vm.c:231-241 | one round maps one zeroed page on a frame that was in no use, at exactly that cost |
| `PageGrowing.Undone` | assignment1/alon/vm.c:234-237 | `deallocuvm` undoes a partial growth exactly, because nothing it has mapped can be passed over |
| `PageGrowing.LeftOver` | assignment1/alon/vm.c:231-241 | when the frames run out before a mapped page, an old page of the range stays mapped if and only if no page had been added and the 4 MB stride passed over it |
| `Paging.Memory.Copyuvm` | assignment1/alon/vm.c:307-336 | a child with the same bytes on frames that were in no use, the kernel's mappings and nothing else; the parent and all else unchanged; succeeds exactly when there is no hole and the frames cover `setupkvm`, the pages and their tables; panics exactly at the first hole, if they cover what comes before; what a failure gives back, to the frame; user code can read and write exactly the pages of the child below the size |
| `PageAccess.UserAccess` | assignment1/alon/vm.c:45-90 | in every address space, by bits 0 to 2 of the two entries alone: user code can read and write a page exactly if it is mapped and below KERNBASE |
| `PageAccess.KernelAccess` | assignment1/alon/vm.c:113-125 | what `kmap` says, page by page: which page of the kernel half is mapped, to which frame, whether it is writable, and that none is accessible to user code |
| `SpaceRuns.Spaces.Growproc` | assignment1/alon/proc.c:105-121 | of every space in use, in any run: the pages below its size are mapped and no others, unless this call left the last page without a table, or shrank the space to nothing and kept its size; then a page below the size is missing. What it answers and the size it leaves are exact, every frame in use outside this space keeps its use and its bytes, and `allocuvm` panics only in a space where that has happened |
| `SpaceRuns.Spaces.Fork` | assignment1/alon/proc.c:136-143 | so the copy that `fork` makes panics in no other space, and else succeeds exactly if the frames are there; the child has the size of the parent and just the pages below it |
| `SpaceRuns.Spaces.Make` | assignment1/alon/vm.c:113-144 | a space made with `setupkvm` has size 0 and no page, and nothing else in use changes |
| `SpaceRuns.Spaces.Drop` | assignment1/alon/vm.c:275-292 | a space given up with `freevm`: every frame in use outside it keeps its use and its bytes, and the other spaces their pages |
| `SpaceCopying.CopyNext` | assignment1/alon/vm.c:318-330 | one round copies one page |
| `SpaceCopying.StoppedCopying` | assignment1/alon/vm.c:318-335 | where the loop stops for want of a frame, there were too few for any later page or hole, and one frame is lost exactly when the table was what was missing |
| `PageSteps.PoppedInv` | assignment1/alon/kalloc.c:82-95 | `kalloc` keeps the ownership invariant and every mapping |
| `PageSteps.PushedInv` | assignment1/alon/kalloc.c:60-77 | so does `kfree` of a frame in no other use |
| `PageSteps.TableAddedInv` | assignment1/alon/vm.c:52-63 | so does adding a table |
| `PageSteps.UserMappedInv` | assignment1/alon/vm.c:77-84 | so does mapping a frame as a user page |
| `PageUses.PageFreed` | assignment1/alon/vm.c:262-270 | freeing a page before clearing its entry comes to the same as after |
| `PageUses.UntouchedSpace` | assignment1/alon/vm.c:45-90 | an address space whose frames are left alone maps what it mapped, to the same bytes |
| `PageOwners.OneOwner` | assignment1/alon/vm.c:45-90 | a user page's frame has one entry in one space, is not free, and is no directory and no table |
| `PageOwners.OneDirectory` | assignment1/alon/vm.c:45-65 | a table has one entry in one directory |
| `PageOwners.FreeOnce` | assignment1/alon/kalloc.c:54-95 | the free list holds each frame once |
| `Umalloc.Heap.Free` | assignment1/alon/umalloc.c:24-44 | the search ends at the one right place, the block's units become free and all others stay; neighbours are joined, and the list is again one address-ordered cycle; `freep` is left at the last free block below the one given back |
| `Umalloc.Heap.Morecore` | assignment1/alon/umalloc.c:46-61 | the heap gains just what `sbrk` gave, and then some free block is large enough; goes wrong exactly when the byte count is not a positive int; if nothing was large enough before, just the block that ends at the new break is |
| `Umalloc.Heap.Malloc` | assignment1/alon/umalloc.c:63-90 | a block of the units asked for that overlaps no other, the end of the first fit behind `freep`; `morecore` is called at most once and only if nothing fits, and then the block ends at the break; `freep` is left at the last free block in front of what was taken; 0 only if `sbrk` refused |
| `HeapBlocks.PlaceExists` | assignment1/alon/umalloc.c:30-32 | there is always an insertion point |
| `Umalloc.OutAtPlace` | assignment1/alon/umalloc.c:30-32 | the loop of `free` stops there and nowhere else |
| `HeapBlocks.InsertedOrdered` | assignment1/alon/umalloc.c:33-42 | after joining, blocks are in order and no two touch |
| `HeapBlocks.InsertedUnits` | assignment1/alon/umalloc.c:33-42 | the free units are those before and the block's |
| `HeapBlocks.FreedLinked` | assignment1/alon/umalloc.c:33-43 | the six assignments of `free` link exactly that list, for all four cases of neighbours |
| `HeapBlocks.CutLinked` | assignment1/alon/umalloc.c:74-81 | the assignments of `malloc` unlink the block or split off its end |
| `HeapBlocks.CutUnits` | assignment1/alon/umalloc.c:74-81 | the free units lose exactly the block handed out |
| `HeapBlocks.FreeOrAllocated` | assignment1/alon/umalloc.c:63-90 | no unit is both free and allocated |
| `Umalloc.NewFits` | assignment1/alon/umalloc.c:46-61 | fresh memory, once freed, lies in one block |
| `Umalloc.EndRound` | assignment1/alon/umalloc.c:73-88 | a round that finds nothing has seen every block |
| `Umalloc.UnitsHold` | assignment1/alon/umalloc.c:69 | the block holds nbytes if and only if nbytes is at most 2^32 - 8, and is never more than one unit larger than that takes |
| `Umalloc.LastBytesGetNothing` | assignment1/alon/umalloc.c:69 | `malloc(0xFFFFFFFF)` takes a header and no byte |
| `Umalloc.RequestSane` | assignment1/alon/umalloc.c:51-54 | `sbrk` is asked for a positive amount if and only if nbytes is at most 0x7FFFFFF0 or the rounding wrapped, then for 32768 bytes or for the block, whichever is more |
| `ProcSteps.RunKeeps` | assignment1/alon/proc.c:126-311 | the invariant of the process table holds in every state of every run of forks, exits, waits, sleeps, wakeups, kills, yields, ticks, scans and dispatches, under every policy |
| `ProcSteps.ExitWaitSafety` | assignment1/alon/proc.c:181-265 | in every such state a live or zombie process other than init has a parent that is neither UNUSED nor ZOMBIE, and no process sleeps in `wait` over a zombie child |
| `ProcSteps.WaitTimes` | assignment1/alon/proc.c:281-284 | what `wait2` reports: waiting and running time are not negative and add up to the lifetime |
| `ProcSteps.RunTimes` | assignment1/alon/trap.c:50-61 | rtime never exceeds ticks - ctime |
| `ProcSteps.Preemption` | assignment1/alon/trap.c:108-111 | no dispatch is charged more than QUANTA ticks, and whoever keeps the CPU after a tick has been charged fewer |
| `ProcSteps.RatioIsZeroOrOne` | assignment1/alon/proc.c:410-411 | the integer ratio of GRT is 1 for a process that has had every tick of its life and 0 for all others |
| `ProcHistory.LifeCycle` | assignment1/alon/proc.c:33-630 | what any event does to the state of any slot, said of that slot alone: a free one is filled by `fork`, a runnable one runs when dispatched, a running one ends, sleeps or gives up the CPU, a sleeper wakes just on what it sleeps on, on the end of a child, or by `kill`, and a zombie goes when its parent waits |
| `ProcHistory.Numbers` | assignment1/alon/proc.c:33-630 | what any event does to pid, times, parent, killed, class, quanta and queue value of any slot |
| `ProcCounts.TicksCounted` | assignment1/alon/trap.c:50-54 | ticks is the number of timer interrupts of the run |
| `ProcCounts.RunningTime` | assignment1/alon/trap.c:55-57 | in every run, rtime of a process is the number of timer interrupts since its fork at which it had the CPU, and ctime the number of those before its fork |
| `ProcCounts.EndTime` | assignment1/alon/proc.c:213-217 | etime of a zombie is the number of timer interrupts before its end, and no later one is counted for it |
| `ProcCounts.WaitReports` | assignment1/alon/proc.c:281-284 | so `wait2` reports as rtime the timer interrupts between fork and end at which the child had the CPU, and as wtime those at which it had not |
| `ProcCounts.PidsDistinct` | assignment1/alon/proc.c:33-52 | no two processes have the same pid, and each fork that finds a free slot takes the next one |
| `ProcCounts.KilledSince` | assignment1/alon/proc.c:611-630 | a slot is marked as killed if and only if a `kill` has found it since it was last freed |
| `ProcCounts.KilledBeforeBirth` | assignment1/alon/proc.c:618-625 | `kill(0)` and `fork`: a child that is born killed |
| `ProcCounts.ClassByNice` | assignment1/alon/proc.c:669-690 | under 3Q a process other than init is HIGH, from its first `nice` on MEDIUM and from its second on LOW, and nothing else changes that |
| `ProcCounts.FiveTicks` | assignment1/alon/trap.c:108-111 | a process that has five quanta keeps the CPU for four ticks and gives it up at the fifth |
| `ProcSteps.ExitedKeeps` | assignment1/alon/proc.c:181-222 | `exit` hands over children, wakes parent and init, and keeps the invariant |
| `ProcSteps.TickedKeeps` | assignment1/alon/trap.c:49-111 | so does the timer trap, with the exit of a killed process or the yield at its end |
| `Kernel.Kernel.Wakeup1` | assignment1/alon/proc.c:588-598 | wakes exactly the sleepers on the channel |
| `Kernel.Kernel.Exit` | assignment1/alon/proc.c:181-222 | the loops of `exit` do what `Exited` says; panics exactly for init |
| `Kernel.Kernel.Wait2` | assignment1/alon/proc.c:267-311 | one pass: the first zombie child is reaped and reported, or -1, or the process sleeps; the numbers it reports are those of `WaitReports` |
| `Kernel.Kernel.Fork` | assignment1/alon/proc.c:33-176 | the first free slot becomes the child, with the times and queue values of the policy, or -1 |
| `Kernel.Kernel.Kill` | assignment1/alon/proc.c:611-630 | marks the first slot with that pid and wakes it if it sleeps |
| `Kernel.Kernel.Nice` | assignment1/alon/proc.c:669-690 | one class down, -1 from any other |
| `Kernel.Kernel.Yield` | assignment1/alon/proc.c:500-526 | runnable again, at the end of the queue where the policy has one |
| `Kernel.Kernel.Timer` | assignment1/alon/trap.c:49-111 | a timer interrupt is the event `Tick` of the process table, which `LifeCycle`, `Numbers` and `RunningTime` speak of |
| `Kernel.Kernel.Round` | assignment1/alon/proc.c:354-476 | a round under FRR, GRT or 3Q dispatches exactly `Choice`, moves head as `RoundEnds` says, and is a scan and a dispatch of the process table; the scan renews the quanta of all in the queue and of the first LOW process and writes the ratio of those that go by it, and whoever is dispatched and does not go by the ratio has five quanta |
| `Kernel.Kernel.RrRound` | assignment1/alon/proc.c:373-395 | under RR the first runnable process from the pointer on is dispatched, with five quanta |
| `Scheduling.VisitsOnce` | assignment1/alon/proc.c:373-376 | a scan visits each slot exactly once from any starting point |
| `Scheduling.HighestClass` | assignment1/alon/proc.c:423-457 | 3Q dispatches HIGH or 0 if there is any, else MEDIUM, else LOW, and nobody only if nobody is runnable |
| `Scheduling.NoStarvation` | assignment1/alon/proc.c:363-366 | while a process stays runnable and LOW and is not chosen, fewer than NPROC dispatches go to LOW processes, whatever else happens in between |
| `QueueWaiting.QueueNoStarvation` | assignment1/alon/proc.c:398-457 | while a process waits in the queue of FRR, or as MEDIUM of 3Q, and is not chosen, fewer than NPROC dispatches are made from that queue, in any run in which no sleeper comes back with an earlier tick and no value in the queue is 0 |
| `Scheduling.RoundNearer` | assignment1/alon/proc.c:363-366 | no round moves the scan past such a process, and every LOW dispatch brings it nearer |
| `Scheduling.ScanStarts` | assignment1/alon/proc.c:363-370 | where the next scan of 3Q begins: behind the first LOW process found if that was dispatched, at it if not; with none, where this one did, or one further if whoever ran last is in that slot |
| `Scheduling.RrNoStarvation` | assignment1/alon/proc.c:373-395 | under RR a process that stays runnable runs within NPROC dispatches |
| `Scheduling.PickAfterZero` | assignment1/alon/proc.c:398-421 | with 0 taken for unset, what is picked is the least value behind the last 0, or that 0 if it comes last |
| `Scheduling.PickLeast` | assignment1/alon/proc.c:398-421 | so it is the least of all if and only if none is 0 or the last one is |
| `Scheduling.PickMissesZero` | assignment1/alon/proc.c:398-421 | two processes, 0 and 7: the 7 is picked |
| `Scheduling.RatioChoice` | assignment1/alon/proc.c:407-421 | whom GRT dispatches, by running time and lifetime: the last visited, if it has not had every tick of its life; else the first of those at the end of the visits that all have |
| `Scheduling.InTurns` | assignment1/alon/proc.c:373-376 | the candidates stand in the order of the visits |
| `Scheduling.MembersAre` | assignment1/alon/proc.c:377-441 | the candidates of a class are exactly its runnable processes |
| `ShellGrammar.RoundTrip` | assignment1/alon/sh.c:228-348 | every command tree with at most nine words a piece is parsed back from its printed form |
| `ShellGrammar.Reparse` | assignment1/alon/sh.c:228-348 | whatever the parser returns is such a tree, so it survives printing and parsing |
| `ShellGrammar.ParsesLine` | assignment1/alon/sh.c:245-261 | the same for a line inside parentheses |
| `ShellGrammar.ParsesBacked` | assignment1/alon/sh.c:250-254 | any number of & is taken |
| `ShellGrammar.ParsesSimple` | assignment1/alon/sh.c:276-348 | words, redirections in order, blocks |
| `ShellSyntax.Interleaved` | assignment1/alon/sh.c:317-348 | at most nine words and any redirections, mixed in any order: the command has exactly those words, in order, and around it exactly those redirections, in order |
| `ShellSyntax.ParsesExactly` | assignment1/alon/sh.c:228-348 | the parser returns a command for a sequence of tokens if and only if the rules of the grammar make that command of it |
| `ShellText.LexLayout` | assignment1/alon/sh.c:166-209 | tokens laid out with any whitespace or none in front, between and behind, but some between two words and between > and > or >>, are read back as those tokens |
| `ShellText.WordsApart` | assignment1/alon/sh.c:163-209 | in characters: two words with blanks, tabs or line ends between them are two words; with one of the symbols, or >>, and no space they are two words and that symbol |
| `ShellText.TextRoundTrip` | assignment1/alon/sh.c:228-348 | so the text of a command, laid out in any such way, parses to that command |
| `Shell.Parser.Gettoken` | assignment1/alon/sh.c:166-209 | takes exactly the next token; a word is as long as it can be |
| `Shell.Parser.Peek` | assignment1/alon/sh.c:211-221 | skips whitespace only, and tells whether the next character is one of those |
| `Shell.Parser.Parseredirs` | assignment1/alon/sh.c:276-299 | the redirections that stand here, or the panic |
| `Shell.Parser.Parseexec` | assignment1/alon/sh.c:317-348 | agrees with `ExecP`, of which `Interleaved` and `ParsesExactly` speak, on every input, including which panic |
| `Shell.Parser.Parseblock` | assignment1/alon/sh.c:301-315 | the same |
| `Shell.Parser.Parsepipe` | assignment1/alon/sh.c:263-274 | the same |
| `Shell.Parser.Parseline` | assignment1/alon/sh.c:245-261 | the same; the mutual recursion terminates on every input |
| `Shell.Parser.Nulterminate` | assignment1/alon/sh.c:350-395 | writes a NUL behind every word and file name and nowhere else |
| `Shell.Terminated` | assignment1/alon/sh.c:350-395 | none of these NULs lies inside a word |
| `Shell.Parser.Parsecmd` | assignment1/alon/sh.c:228-243 | the tree of the whole line or the panic; every argv word and file name, read as a C string, is the text of its token |
| `Pipes.BytesInOrder` | assignment1/alon/pipe.c:76-120 | in every run of readers, writers, closes and kills, bytes accepted are bytes delivered and then bytes in the ring |
| `Pipes.StepForgets` | assignment1/alon/pipe.c:76-120 | from a state where sleepers have a reason to sleep a step leads to another, if and only if it is not a killed writer with more bytes than the pipe holds, while readers sleep |
| `Pipes.NobodyForgotten` | assignment1/alon/pipe.c:58-120 | in every run, up to any point, a sleeping reader has always meant an empty pipe whose write end is open and a sleeping writer a full one whose read end is open, if and only if no such step was taken |
| `Pipes.ReadOutcome` | assignment1/alon/pipe.c:99-120 | a read takes the first bytes, as many as asked for or as there are; it sleeps exactly if there is none, the write end is open and the reader is not killed, and fails exactly if it is killed then |
| `Pipes.WriteOutcome` | assignment1/alon/pipe.c:76-97 | a write puts its bytes behind the others, all if they fit, else until the ring is full; then it fails exactly if nobody reads or the writer is killed, and sleeps otherwise |
| `Pipes.OpenUntilClosed` | assignment1/alon/pipe.c:58-74 | in every run an end is open exactly as long as it has not been closed |
| `Pipes.EndOfFile` | assignment1/alon/pipe.c:99-120 | once the write end is closed no read sleeps, and it returns no byte exactly when all bytes ever accepted have been delivered |
| `Pipes.NobodyReads` | assignment1/alon/pipe.c:76-97 | once the read end is closed no write sleeps, and one that does not fit fails |
| `Pipes.WhichReadersSleep` | assignment1/alon/pipe.c:58-120 | a reader is asleep exactly if nothing that wakes it has happened since it last went to sleep |
| `Pipes.WhichWritersSleep` | assignment1/alon/pipe.c:58-120 | the same for a writer |
| `Pipes.KilledWriterForgets` | assignment1/alon/pipe.c:84-88 | a run from a new pipe in which a killed writer leaves 512 bytes behind and a reader asleep |
| `Pipes.Pipe.Pipewrite` | assignment1/alon/pipe.c:76-97 | a stretch of it, up to the return or the sleep, is `Written`, for all values of the wrapping counters |
| `Pipes.Pipe.Piperead` | assignment1/alon/pipe.c:99-120 | the same for `Read`, with the bytes returned |
| `Pipes.Pipe.Pipeclose` | assignment1/alon/pipe.c:58-74 | does what the event `Close` does, of which `OpenUntilClosed` speaks: one end is closed and those asleep at the other are woken; the page goes exactly when both are closed |
| `Pipes.RingPut` | assignment1/alon/pipe.c:92 | a byte stored at nwrite % 512 is the last of the ring, also across the wrap |
| `Pipes.RingGet` | assignment1/alon/pipe.c:115 | the byte at nread % 512 is the first of the ring |
| `Pipes.FullTest` | assignment1/alon/pipe.c:84 | the equality of wrapping sums tests for a full ring |
| `Grep.Match` | assignment1/alon/grep.c:71-81 | true if and only if some substring of the text, a prefix under a leading ^, belongs to the language of the pattern |
| `Grep.Matchhere` | assignment1/alon/grep.c:83-95 | the same for prefixes, and for the whole text under a final $ |
| `Grep.Matchstar` | assignment1/alon/grep.c:97-105 | some number of characters that fit, then the rest of the pattern |
| `Grep.HereOne` | assignment1/alon/grep.c:92-93 | a pattern whose first item is one character |
| `Grep.HereStar` | assignment1/alon/grep.c:88-89 | a pattern whose first item is starred |
| `Grep.ReadsEach` | assignment1/alon/grep.c:83-95 | every pattern, character by character: each that begins an item stands for itself or, with a star behind it, for any number of it; only a $ that is last is an anchor; so a $ that is not last, a ^ that is not first and a star with nothing before it are literal |
| `Grep.PlainPatterns` | assignment1/alon/grep.c:71-95 | a pattern without * and $ finds exactly the lines with a part that is the same but for any one character at each dot; behind ^ those that begin so, before $ those that end so, and between both those that are so |
| `Grep.StarPattern` | assignment1/alon/grep.c:83-105 | ^c* finds any number of c, or of any characters for a dot, before the rest; and ^c*$ exactly the lines of that alone |
| `Grep.Corners` | assignment1/alon/grep.c:86-91 | six such patterns |

## Left out

- BufferCache.BCache.Bget: does not wait for a busy buffer; it returns that it would sleep, and the caller's next try is another call.
- Log.Log.RecoverFromLog: takes headers of at most LOGSIZE sectors, because `read_head` would overrun its array on any other, and a log region inside the disk.
- Log.Log.CommitTrans: does not wake processes asleep in `begin_trans`; who opens the next transaction is up to the caller.
- BufferCache.BCache.Brelse: does not wake processes that wait for the buffer; there is one process.
- Fs.FileSystem.Bmap: when `balloc` takes a sector of the log, which it does exactly in the outcome `LogSector`, the run is not followed further.
- FileCrashes.CrashInFilewrite: a transaction in which `balloc` takes a sector of the log is followed up to the first use of that sector.
- Fs.FileSystem.Writei: takes regular files only, not devices.
- Fs.FileSystem.Readsb: reads sector 1 as the code does, but the super block itself is a constant of the file system.
- Fs.FileSystem.TruncTransaction: `itrunc` runs inside the transactions of path operations, or outside any; here it has one of its own.
- Fs.FileSystem.LogWrite: the file layer works on a store with one current block per sector and records a script; that the log and the cache give the same is `Log.Log.Transaction`.
- Paging.Memory.Setupkvm: on failure the half-built directory and its tables stay owned by nobody's process, as in the code.
- Paging.Memory.Mappages: user pages are mapped one at a time, writable and user-accessible, on a frame that is in no other use, as all callers in `vm.c` do it; kernel ranges may have any length but are not user-accessible, as in `kmap`.
- Paging.Memory.Copyuvm: states equal bytes, not equal permissions; every page of the child is user-accessible, also the guard page of the parent. `clearpteu`, which makes that page, and the bits the processor sets in an entry are not part of the model.
- Paging.Memory.Deallocuvm: asks for oldsz at most KERNBASE, as all callers do.
- Umalloc.Heap.Malloc: models headers in units of 8 bytes, aligned, and `sbrk` moving the break upwards only; stray writes of the program and negative `sbrk` of its own are not part of it.
- ProcTable: `fork` and `wait` passes are one step each; EMBRYO shows only inside `fork`. Ticks and pids do not wrap. Files, directories, address spaces and kernel stacks of processes are not part of it.
- Kernel.Kernel.Round: qvalue is an integer, the only kind of number the code stores in it; `head` one past the table counts as not runnable, where the code reads what lies behind it; `medium`, `high` and `p`, which the code leaves unset or null, start as null or at any slot of the table.
- QueueWaiting.QueueNoStarvation: needs that no sleeper comes back ahead, because a process that sleeps keeps its old `qvalue` and may be taken before those that wait.
- Scheduling.NoStarvation: gives no bound for GRT, whose ratio says little (`RatioIsZeroOrOne`). It is about one CPU; the locking between `ptable.lock` and `tickslock` is not modelled.
- SpaceRuns.Spaces.Growproc: the runs are of `growproc`, `fork`, `freevm` and fresh spaces; `exec`, which fills a space by itself, and its guard pages are not part of them.
- Shell.Parser.Parseexec: a node that the code fills in after linking it is put together when it is complete, so the order of these assignments is not modelled, nor is running out of memory or stack.
- Pipes.NobodyForgotten: assumes that an end is closed by the last process that has it, so that nobody sleeps there.
- Pipes.Pipe.Pipewrite: takes a count of bytes that is not negative.
- Grep: only the matcher; the loop that reads lines into a buffer is not part of this model.
- Hardware, boot code, console, segments, `exec`, path lookup, reference counts of inodes and files, `mkfs`, the sample programs, and running parsed commands are not modelled.
- `assignment1/yariv` holds copies of the same code with small differences; it would only add the same again.
