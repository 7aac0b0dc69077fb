# Linux 0.01 for x86_64: a verified model of its core

The modules here model the parts of the kernel that have a simple meaning and a complicated
implementation, and prove that the two agree:

- **Virtual memory** (`CowMemory`, `PageTables`, `PhysicalMemory`, `FrameBudget`, `MemoryManager`). Page
  tables lie in physical memory and frames are reference-counted; fork shares frames read-only and write
  faults split them. Programs see private memory, over every run of stores, kernel write checks, forks,
  exits and releases, and with enough free frames none of them fails. The paging structure is that of
  section 4.5 of the Intel SDM, volume 3A.
- **Files** (`Bitmap`, `BlockTree`, `TruncateSpec`, `FileSystem`). Direct, indirect and double-indirect
  blocks over a zone bitmap. A file is a byte sequence that grows, and the zones in use are exactly those
  of the block trees.
- **Buffer cache** (`BufferQueues`, `BufferContents`, `BufferCache`, `BufferProtocol`, `BufferSystem`).
  Hash chains and a circular free list threaded through the buffer heads, which behave like the plain
  disk; the re-check protocol that keeps a block in one buffer while any number of processes sleep in
  it; and the two together, the lists while several evictions are under way.
- **Hard disk** (`Elevator`, `DiskMachine`, `HdDriver`). The sorted request list and the interrupt
  handlers: requests for distinct positions never queue for more than two sweeps of the arm, and a
  request is done within a bounded number of interrupts.
- **Console** (`Terminal`, `ControlSequences`, `ConsoleDriver`). The escape-sequence automaton on video
  memory with hardware scrolling shows what a plain 25 x 80 terminal shows, for every stream of bytes; and
  what every sequence does is stated in rows, columns and cells. The control sequences are those of
  section 8.3 of ECMA-48.
- **Scheduling and sleeping** (`Scheduling`, `SleepQueue`). The choice of the next process, the wait of
  one that can run, and wait queues that live in the local variables of the sleepers.
- **Pipes** (`PipeRing`, `PipeProtocol`), **descriptors** (`DescriptorTables`, `FileDescriptors`) and
  **in-core inodes** (`InodeProtocol`).
- **Integer formatting** (`NumberFormat`), after section 7.19.6.1 of ISO/IEC 9899:1999.

`Sets` holds the counting facts that several modules share.

Code that updates memory in place is a class with arrays, and its methods are proved against functions
on values. Protocols that interleave where the kernel sleeps are state machines, one step for what
happens between two sleeps. `panic` and `do_exit` do not return, so their paths are not followed.

Some promises of the source do not hold as they stand. Each has an input or a run that shows it and the
exact condition under which the code keeps it:

- frames below LOW_MEM are shared without protection (`LowFramesUnprotected`, `LowStoreSeen`,
  `LowFrameExample`);
- after ESC the column decides instead of the byte whether the cursor is saved or restored
  (`SaveByEscape`, `RestoreByEscape`, `AnyByteAfterEscape`, `EscapeSevenFails`);
- two requests for one disk position can make a third sweep (`SweepsExact`, `ThirdSweep`); requests for
  distinct positions never do (`AlwaysTwoSweeps`);
- a process that can run may wait one user tick longer than the time of the others
  (`ChosenWithinTotal`, `ExtraTickNeeded`);
- an inode can come to be in the table twice when its number is freed while an iget of it sleeps
  (`NotFoundExact`, `AllocateExact`, `UniquenessFails`); while the numbers iget looks for stay allocated
  it never does (`UniqueFromStart`);
- the free list goes wrong when all buffers are out of the queues at once and one comes back first that
  free_list does not point to (`TakeExact`, `LastTaken`, `FinishExact`, `RunExact`, `BufferLost`); with
  fewer calls of getblk under way than buffers that never happens (`ListsFromStart`).

The check of get_hash_table after its wait turns out never to fail (`AlwaysStillRight`).

`dafny verify dfyconfig.toml` checks all files together.

## Model

| member | source | states |
|---|---|---|
| CowMemory.ShareKeeps | mm/memory.c:262-274 | sharing one page of a fork keeps counts exact and writers alone, and the child's page shows what the parent's shows |
| CowMemory.SplitKeeps | mm/memory.c:303-320 | giving a page a private copy keeps every reference count exact and changes nothing anyone sees |
| CowMemory.ReclaimKeeps | mm/memory.c:308-312 | a frame with one reference may be made writable in place |
| CowMemory.FillKeeps | mm/memory.c:71-78 | a store behind a writable entry is seen by that page only |
| CowMemory.UnmapKeeps | mm/memory.c:225-233 | taking an entry away drops one reference and one page of the view |
| CowMemory.CountsFit | mm/memory.c:86-122 | no frame has more than 33 references, so the 16-bit counters do not wrap |
| CowMemory.LowFramesUnprotected | mm/memory.c:264-273 | after a copy a writable entry is alone on its frame if and only if the frame is at or above LOW_MEM or was not writable |
| CowMemory.LowStoreSeen | mm/memory.c:264-273 | after a copy the original entry can be written without a fault if and only if its frame is below LOW_MEM and it was writable, and what is stored there shows behind the copy |
| CowMemory.LowFrameExample | boot/head.nasm:126-139 | a writable entry of the boot identity map whose copy is not protected, and a store through it that the copy shows |
| PageTables.CellsDistinct | mm/memory.c:46-53 | two pages never share an entry cell |
| PageTables.WalkPlace | mm/memory.c:135-196 | a walk ends at the one table whose place in the tree covers the page |
| PageTables.SetEntryTree | mm/memory.c:201-207 | a store through get_pte's pointer changes the lookup of that page and of no other |
| PageTables.LinkLookup | mm/memory.c:135-196 | linking an empty table changes no page's lookup |
| PageTables.LinkStable | mm/memory.c:135-196 | pointers get_pte handed out earlier stay valid |
| PhysicalMemory.LinkInvisible | mm/memory.c:135-196 | allocating and linking a table is invisible to every program and touches no count but the table's own |
| PhysicalMemory.ShareStep | mm/memory.c:262-274 | the three stores of one copied page refine the abstract share, page tables in the same memory included |
| PhysicalMemory.SplitStep | mm/memory.c:303-320 | the stores of un_wp_page refine the abstract split |
| PhysicalMemory.SameCounts | mm/memory.c:213-278 | the same entries mean the same reference counts, new page tables aside |
| FrameBudget.SamePath | mm/memory.c:135-196 | pages in one part of the tree have the same tables missing |
| FrameBudget.BudgetSkip | mm/memory.c:255-276 | the tables a copy may still have to make become no more from page to page |
| FrameBudget.BudgetAtMost | mm/memory.c:244-278 | at its start they are two and one for every block of 512 pages |
| MemoryManager.Memory.GetFreePage | mm/memory.c:86-107 | a zeroed frame nobody used, or 0 exactly when all are taken; no view changes |
| MemoryManager.Memory.FreePage | mm/memory.c:112-122 | one reference less, and nothing below LOW_MEM |
| MemoryManager.Memory.ReleasePage | mm/memory.c:112-122 | giving back a frame of the kernel keeps all counts exact and every view |
| MemoryManager.Memory.GetTable | mm/memory.c:135-196 | the table on the walk, made on the way if asked, at one frame for every missing table; it fails exactly when there are fewer, and half way that is still invisible |
| MemoryManager.Memory.GetPte | mm/memory.c:201-207 | the same down to the last level, failing only without free frames |
| MemoryManager.Memory.PutPage | mm/memory.c:283-298 | maps a fresh page, or changes nothing visible, which happens exactly when fewer frames are free than tables are missing |
| MemoryManager.Memory.UnWpPage | mm/memory.c:303-320 | afterwards the page may be written and every program sees what it saw; it fails only without a free frame |
| MemoryManager.Memory.DoWpPage | mm/memory.c:325-330 | the same for a protection fault, which fails only without a free frame |
| MemoryManager.Memory.WriteVerify | mm/memory.c:335-342 | afterwards a mapped page may be written by the kernel; no contents change; it fails only without a free frame |
| MemoryManager.Memory.DoNoPage | mm/memory.c:347-355 | an untouched page reads as zero; a failure changes no contents, leaves no frame free, and does not happen with four free |
| MemoryManager.Memory.UserStore | mm/memory.c:325-355 | a store with its faults changes one word of one page of private memory; it does nothing only when the frames run out, for which four free ones are enough |
| MemoryManager.Memory.FreePageTables | mm/memory.c:213-238 | exactly the pages of the range disappear |
| MemoryManager.Memory.CopyPageTables | mm/memory.c:244-278 | the range appears a second time with the same contents; on failure a prefix of it does; with a frame for every table that can be missing it succeeds |
| MemoryManager.Memory.CopyMem | kernel/fork.c:36-57 | a failed fork leaves contents, mapped frames and page counts as they were; with two frames and one for every 2 MB free it succeeds |
| MemoryManager.Memory.CopyInto | kernel/fork.c:81-168 | a fork takes one frame for the child and copies its memory; a failure at either place gives the frame back and leaves all contents |
| MemoryManager.Memory.CopyProcess | kernel/fork.c:81-168 | a fork is the fork of private memory and the child has a frame of its own, or nothing happens; with three frames and one for every 2 MB free it succeeds |
| MemoryManager.Memory.ReleaseTask | kernel/exit.c:13-27 | releasing a process gives back exactly its frame |
| MemoryManager.Memory.Step | mm/memory.c:213-355 | every event of the machine, process frames included, is that event on private memory, or nothing; with the frames the event may need free it succeeds and takes no more; counts stay exact |
| MemoryManager.Memory.Play | mm/memory.c:213-355 | every run of the machine is a run of private memory, from what it showed to what it shows, and every event of it succeeds when the frames for all are free at the start |
| MemoryManager.Isolation | mm/memory.c:244-342 | over every such run, what a slot sees is changed only by events of that slot |
| MemoryManager.ChildSeesParent | mm/memory.c:244-278 | right after a fork the child reads what the parent reads |
| MemoryManager.CopyUndone | kernel/fork.c:52-55 | freeing the child's range undoes any prefix of the copy |
| Bitmap.SetBit | fs/bitmap.c:16-23 | sets one bit, no other, and tells what it was |
| Bitmap.ClearBit | fs/bitmap.c:25-32 | clears one bit, no other, and tells whether it was clear |
| Bitmap.FindFirstZero | fs/bitmap.c:34-50 | the lowest clear bit of a map block, or 8192 when there is none |
| BlockTree.SlotsDistinct | fs/inode.c:49-115 | different block numbers have different places in the tree |
| BlockTree.BlocksDisjoint | fs/inode.c:49-115 | no two places of any files hold the same zone |
| BlockTree.GrowPtr | fs/inode.c:56-112 | allocating a block changes the zone number of one place and of no other |
| BlockTree.GrowExtends | fs/inode.c:56-112 | every file still reads the same, and ownership grows by that zone |
| BlockTree.StoreByte | fs/file_dev.c:61-76 | writing a data block changes the bytes of that block of that file only |
| BlockTree.WriteChunk | fs/file_dev.c:58-77 | one turn of the write loop extends what was written by one chunk |
| BlockTree.WriteIsOverwrite | fs/file_dev.c:42-84 | the file as a byte sequence becomes the old one overwritten at the start position, gaps filled with zeros; other files stay |
| TruncateSpec.TreeIsOwned | fs/truncate.c:5-58 | the zones truncate visits are every zone of the file and no zone of another, each once |
| TruncateSpec.TruncatedPtr | fs/truncate.c:41-58 | places of other files are untouched and those of the file are empty |
| TruncateSpec.TruncatedOwned | fs/truncate.c:41-58 | ownership after truncate is what it was without the file |
| TruncateSpec.TruncatedByte | fs/truncate.c:41-58 | other files read as before, the truncated one as zeros |
| TruncateSpec.TruncatedContent | fs/truncate.c:41-58 | as byte sequences: the file is empty and every other one is what it was |
| FileSystem.Volume.constructor | fs/super.c:46-60 | a volume of empty files with bit 0 of its map set meets the invariant |
| FileSystem.Volume.FindZero | fs/bitmap.c:88-95 | the lowest clear bit of all map blocks |
| FileSystem.Volume.NewBlock | fs/bitmap.c:80-110 | a cleared zone not in use before, or 0 exactly when all data zones are taken |
| FileSystem.Volume.FreeBlock | fs/bitmap.c:52-78 | one zone leaves use and its bit is cleared |
| FileSystem.Volume.Bmap | fs/inode.c:49-115 | the zone of a block; creating it changes no byte of any file, and fails only on a full volume |
| FileSystem.Volume.FileRead | fs/file_dev.c:11-40 | exactly the bytes of the file, zeros for holes, and the position moves by their number |
| FileSystem.Volume.FileWrite | fs/file_dev.c:42-84 | exactly the bytes reported are written, nothing else changes, and a short count means a full volume |
| FileSystem.Volume.FreeInd | fs/truncate.c:5-21 | frees the block and what it lists, each once |
| FileSystem.Volume.FreeDind | fs/truncate.c:23-39 | the same one level up |
| FileSystem.Volume.Truncate | fs/truncate.c:41-58 | the volume without the file's zones; the file is the empty sequence, all others hold what they held, and set bits are still exactly the owned zones |
| BufferQueues.UnchainKeeps | fs/buffer.c:73-79 | taking a buffer out leaves a doubly linked chain of the others |
| BufferQueues.UnringKeeps | fs/buffer.c:80-86 | taking a buffer out leaves a ring of the others |
| BufferQueues.RemoveKeeps | fs/buffer.c:71-87 | whatever other buffers are out of the queues, afterwards this one is in no chain and not on the free list, and all others are where they were |
| BufferQueues.InsertKeeps | fs/buffer.c:89-104 | whatever other buffers are out, afterwards it is last on the free list and in the chain of its block |
| BufferContents.FlushKeeps | fs/buffer.c:58-64 | writing a dirty buffer changes the contents of no block |
| BufferContents.EvictKeeps | fs/buffer.c:176-180 | giving a clean buffer to an uncached block changes the contents of no block |
| BufferContents.StoreChanges | fs/bitmap.c:101-108 | filling a buffer changes the contents of its own block only |
| BufferContents.CleanMeansWritten | fs/buffer.c:37-50 | without dirty buffers the disk holds the contents of every block |
| BufferCache.Cache.constructor | fs/buffer.c:225-254 | an empty cache shows the disk |
| BufferCache.Cache.RemoveFromQueues | fs/buffer.c:71-87 | the pointer stores do what RemoveKeeps says, with any others out |
| BufferCache.Cache.InsertIntoQueues | fs/buffer.c:89-104 | the pointer stores do what InsertKeeps says, with any others out |
| BufferCache.Cache.FindBuffer | fs/buffer.c:106-114 | finds the buffer of a block if and only if one is filed |
| BufferCache.Cache.FindVictim | fs/buffer.c:151-160 | the first unused buffer of the free list, or none exactly when all are used |
| BufferCache.Cache.SyncDev | fs/buffer.c:52-66 | cleans exactly the buffers of the device without changing contents |
| BufferCache.Cache.SysSync | fs/buffer.c:37-50 | afterwards the disk equals the contents of every block |
| BufferCache.Cache.Recycle | fs/buffer.c:167-193 | an evicted buffer gets its new name; no block's contents change |
| BufferCache.Cache.Getblk | fs/buffer.c:144-194 | shares the cached buffer, else takes the oldest unused one, else reports none; contents never change |
| BufferCache.Cache.Brelse | fs/buffer.c:196-204 | one user less and nothing else |
| BufferCache.Cache.Bread | fs/buffer.c:210-223 | the buffer returned holds the contents of the block, the head of no other buffer changes but by write-out, and none is returned exactly when all are taken |
| BufferCache.Cache.Store | fs/bitmap.c:101-108 | a holder's write becomes the contents of that block only |
| BufferProtocol.StepKeeps | fs/buffer.c:123-204 | every step of every process keeps one buffer per block and exact counts, and only a buffer being evicted is out of the queues; getblk sleeps over an eviction only for a dirty buffer |
| BufferProtocol.RunKeeps | fs/buffer.c:123-204 | the same after every interleaved run |
| BufferProtocol.FreshInv | fs/buffer.c:225-254 | it holds at the start |
| BufferProtocol.AlwaysStillRight | fs/buffer.c:131-135 | the check after the wait in get_hash_table never fails |
| BufferProtocol.CountsAreUsers | fs/buffer.c:196-204 | the count is zero exactly when nobody uses the buffer, so brelse does not panic |
| BufferProtocol.HoldersShare | fs/buffer.c:181-190 | two holders of one block have the same buffer |
| BufferProtocol.HeldNameStays | fs/buffer.c:123-204 | over every run a held buffer keeps its block until it is released |
| BufferSystem.TakeExact | fs/buffer.c:167-182 | a step that takes a buffer leaves the lists in order if and only if the buffer is clean, so that it is back at once, or another one is on them |
| BufferSystem.LastTaken | fs/buffer.c:71-87 | taking out the last buffer leaves all chains empty and free_list at that buffer, which points to itself |
| BufferSystem.FinishExact | fs/buffer.c:89-104 | with all buffers out, putting one back brings the lists in order if and only if free_list points to it |
| BufferSystem.StepExact | fs/buffer.c:71-204 | every step of every process keeps the lists in order if and only if it does not put back another buffer than that one into empty queues |
| BufferSystem.RunExact | fs/buffer.c:71-204 | over every interleaved run the lists are in order all along if and only if no step does |
| BufferSystem.StepKeeps | fs/buffer.c:71-204 | with fewer calls under way than buffers, every step leaves on the chains and the free list exactly the buffers not being evicted |
| BufferSystem.RunKeeps | fs/buffer.c:71-204 | the same after every interleaved run |
| BufferSystem.UnusedOnFreeList | fs/buffer.c:151-160 | while the lists are in order every unused buffer is in the ring that starts at free_list |
| BufferSystem.StartListed | fs/buffer.c:225-254 | the lists are right after buffer_init |
| BufferSystem.ListsFromStart | fs/buffer.c:71-204 | so they are after every such run from there |
| BufferSystem.BufferLost | fs/buffer.c:80-95 | a run of two processes that evict dirty buffers of two devices and sleep in their writes, after which one buffer is on no list |
| Elevator.OrderIsPosition | kernel/hd.c:52-56 | IN_ORDER is the order of positions on the disk |
| Elevator.InsertKeepsBreaks | kernel/hd.c:356-363 | an insertion leaves the number of order breaks before every queued request as it was |
| Elevator.DoneShrinksDistance | kernel/hd.c:277-278 | each completion brings every waiting request strictly nearer |
| Elevator.NoStarvation | kernel/hd.c:336-375 | over every run a request waits while at most D * P + pos(r) - pos(next) others are completed |
| Elevator.DistanceBounded | kernel/hd.c:336-375 | which is less than 31 sweeps of the disk, whatever is asked for |
| Elevator.InsertKeepsSweeps | kernel/hd.c:356-363 | a request for a position nobody waits for never makes a third sweep |
| Elevator.SweepsExact | kernel/hd.c:356-363 | any request makes one if and only if there are two, it goes last and the last one is not strictly before it |
| Elevator.AlwaysTwoSweeps | kernel/hd.c:336-375 | over every run of requests for distinct positions the queue is at most two sweeps |
| Elevator.RisesTwice | kernel/hd.c:336-375 | from the empty queue: behind the request in service positions rise, turn back at most once and rise again |
| Elevator.SoonServed | kernel/hd.c:336-375 | so a queued request waits for less than two sweeps of completions, whatever is added later |
| Elevator.ThirdSweep | kernel/hd.c:358-360 | a queue in which a second request for one position makes a third sweep |
| DiskMachine.StepKeeps | kernel/hd.c:248-404 | a non-empty queue has a handler that fits its first request, and buffers are locked exactly while queued |
| DiskMachine.RunKeeps | kernel/hd.c:248-404 | the same after every run of requests and interrupts |
| DiskMachine.AddBudget | kernel/hd.c:336-375 | a new request does not lengthen the service of an old one |
| DiskMachine.InterruptBudget | kernel/hd.c:248-329 | every interrupt but a vain wait for DRQ shortens the service of every queued request |
| DiskMachine.ServedInTime | kernel/hd.c:248-329 | over every run a request stays queued for at most its budget of interrupts and the vain waits |
| DiskMachine.WriteErrorsAddUp | kernel/hd.c:248-299 | while a write is in service all its errors count, so it has seen at most five |
| DiskMachine.FlagsTellOutcome | kernel/hd.c:248-299 | over every run a buffer is up to date if and only if its latest request was transferred to the last sector, and clean if and only if it was or one was |
| HdDriver.FullExactly | kernel/hd.c:386-392 | the list is full exactly when no slot is free |
| HdDriver.InsertLinked | kernel/hd.c:362-363 | the two stores insert a slot into an acyclic list of exactly the used slots |
| HdDriver.RemoveLinked | kernel/hd.c:277-278 | freeing the first slot leaves such a list |
| HdDriver.HardDisk.constructor | kernel/hd.c:406-413 | all slots free, no handler |
| HdDriver.HardDisk.StartRequest | kernel/hd.c:301-329 | sets the handler the first request needs |
| HdDriver.HardDisk.BadRwIntr | kernel/hd.c:248-260 | counts an error or drops the request, and resets |
| HdDriver.HardDisk.OnRead | kernel/hd.c:262-280 | counts a sector or completes the request and starts the next |
| HdDriver.HardDisk.OnWrite | kernel/hd.c:282-299 | the same for writing, where errors are not forgotten |
| HdDriver.HardDisk.HdInterrupt | kernel/system_call.nasm:280-301 | an interrupt on the linked slots is the machine's interrupt step |
| HdDriver.HardDisk.Walk | kernel/hd.c:356-361 | the loop along the list stops at the first place the order allows |
| HdDriver.HardDisk.FindPlace | kernel/hd.c:350-361 | the walk stops where the queue insertion goes |
| HdDriver.HardDisk.AddRequest | kernel/hd.c:336-375 | the linked list becomes the queue with the request inserted, which stays within two sweeps |
| HdDriver.HardDisk.RwAbsHd | kernel/hd.c:377-402 | the machine's step for a new request, or nothing exactly when all slots are taken |
| Terminal.TextAppears | kernel/console.c:369-381 | printable text that fits appears at the cursor and changes nothing else |
| Terminal.SaveByEscape | kernel/console.c:416-417 | ESC 7 saves the cursor if and only if it is in column 55 or nothing has to be saved |
| Terminal.RestoreByEscape | kernel/console.c:418-419 | ESC 8 restores the cursor if and only if it is in column 56 or already there |
| Terminal.AnyByteAfterEscape | kernel/console.c:404-420 | any byte that names no other function saves in column 55, restores in column 56 and does nothing elsewhere |
| Terminal.EscapeSevenFails | kernel/console.c:416-417 | a run from the start in which ESC 7 saves nothing |
| ControlSequences.SequenceRead | kernel/console.c:404-438 | ESC [ with up to sixteen numbers reaches its final byte with their values modulo 2^64 |
| ControlSequences.CursorUp | kernel/console.c:445-448 | ESC [ n A: n rows up in 32-bit arithmetic, nothing if that is off the screen |
| ControlSequences.CursorDown | kernel/console.c:449-452 | ESC [ n B and e: n rows down |
| ControlSequences.CursorRight | kernel/console.c:453-456 | ESC [ n C and a: n columns to the right |
| ControlSequences.CursorLeft | kernel/console.c:457-460 | ESC [ n D: n columns to the left |
| ControlSequences.NextLine | kernel/console.c:461-464 | ESC [ n E: the start of the n-th row below |
| ControlSequences.PreviousLine | kernel/console.c:465-468 | ESC [ n F: the start of the n-th row above |
| ControlSequences.ToColumn | kernel/console.c:441-444 | ESC [ n G: column n |
| ControlSequences.ToRow | kernel/console.c:469-472 | ESC [ n d: row n, unless the cursor is behind the last column |
| ControlSequences.ToPosition | kernel/console.c:473-477 | ESC [ row ; column H and f |
| ControlSequences.ErasesDisplay | kernel/console.c:161-183 | ESC [ J cell by cell |
| ControlSequences.ErasesLine | kernel/console.c:185-209 | ESC [ K cell by cell |
| ControlSequences.InsertsRows | kernel/console.c:313-321 | ESC [ n L cell by cell, for every n |
| ControlSequences.DeletesRows | kernel/console.c:333-341 | ESC [ n M cell by cell |
| ControlSequences.InsertsCells | kernel/console.c:303-311 | ESC [ n @ cell by cell |
| ControlSequences.DeletesCells | kernel/console.c:323-331 | ESC [ n P cell by cell |
| ControlSequences.SetsAttribute | kernel/console.c:211-223 | ESC [ ... m: the last number that names an attribute decides, and which one it names |
| ControlSequences.SetsRegion | kernel/console.c:499-507 | ESC [ a ; b r: rows a to b, nothing if they are no region |
| ControlSequences.CursorComesBack | kernel/console.c:508-513 | ESC [ s, any text, ESC [ u: the cursor is where it was |
| ControlSequences.OthersIgnored | kernel/console.c:440-514 | other final bytes do nothing |
| ControlSequences.EscapeMoves | kernel/console.c:408-415 | ESC D, M, E and Z: one row down or up with scrolling, the next row, one answer |
| ControlSequences.FeedsAndReturn | kernel/console.c:381-384 | line feeds and carriage return |
| ControlSequences.BackspaceAndErase | kernel/console.c:385-391 | backspace and the erase character |
| ControlSequences.TabStops | kernel/console.c:392-402 | a tab goes to the next multiple of eight |
| ControlSequences.TextWraps | kernel/console.c:370-375 | a character behind the last column is the first one of the next row |
| ControlSequences.RestIgnored | kernel/console.c:369-403 | all other control characters are ignored |
| ConsoleDriver.Console.constructor | kernel/console.c:527-537 | the console starts as the terminal the boot loader left |
| ConsoleDriver.Console.Scrup | kernel/console.c:84-114 | hardware scrolling with wrap-around and region copying both are one scroll of the grid |
| ConsoleDriver.Console.Scrdown | kernel/console.c:116-124 | the backward copy is one scroll down |
| ConsoleDriver.Console.Lf | kernel/console.c:126-134 | line feed of the terminal |
| ConsoleDriver.Console.Ri | kernel/console.c:136-144 | reverse line feed of the terminal |
| ConsoleDriver.Console.Gotoxy | kernel/console.c:65-72 | moves the cursor, or nothing off the screen, for every unsigned argument |
| ConsoleDriver.Console.Del | kernel/console.c:152-159 | rubs out the cell before the cursor |
| ConsoleDriver.Console.CsiJ | kernel/console.c:161-183 | erases behind, before or all of the screen, and no other cell |
| ConsoleDriver.Console.CsiK | kernel/console.c:185-209 | the same in the line |
| ConsoleDriver.Console.CsiM | kernel/console.c:211-223 | the last parameter that names an attribute decides |
| ConsoleDriver.Console.InsertChar | kernel/console.c:248-260 | the in-place shift inserts one blank in the row |
| ConsoleDriver.Console.DeleteChar | kernel/console.c:275-288 | the in-place shift takes one cell out of the row |
| ConsoleDriver.Console.InsertLine | kernel/console.c:262-273 | inserts one blank row whatever the region |
| ConsoleDriver.Console.DeleteLine | kernel/console.c:290-301 | deletes one row whatever the region |
| ConsoleDriver.Console.CsiAt | kernel/console.c:303-311 | the repeated insertion is one insertion of n cells |
| ConsoleDriver.Console.CsiP | kernel/console.c:323-331 | the repeated deletion is one deletion of n cells |
| ConsoleDriver.Console.CsiL | kernel/console.c:313-321 | the repeated insertion is one insertion of n rows |
| ConsoleDriver.Console.CsiDeleteLines | kernel/console.c:333-341 | the repeated deletion is one deletion of n rows, also through the hardware scroll, with every store inside the screen shown or moved to |
| ConsoleDriver.Console.PutByte | kernel/console.c:367-514 | one byte is one step of the terminal, and no store leaves the screen |
| ConsoleDriver.Console.ConWrite | kernel/console.c:359-518 | for every byte stream the visible screen and the cursor are those of the plain terminal, and every store was to a cell of the screen shown or moved to |
| Scheduling.ScanIsBest | kernel/sched.c:114-123 | the scan finds a process that can run of greatest counter, the last such, or none |
| Scheduling.RechargeOnce | kernel/sched.c:125-128 | after one recharge some counter is positive, so a second pass ends the loop |
| Scheduling.SleeperCatchesUp | kernel/sched.c:125-128 | k recharges halve a sleeper's distance to twice its priority less one k times |
| Scheduling.SleeperGains | kernel/sched.c:125-128 | so its counter is at least its priority, rises while below that limit, and reaches it |
| Scheduling.AlarmRings | kernel/sched.c:101-109 | an alarm that is due leaves a signal and is off, a signal wakes an interruptible sleeper, nothing else changes |
| Scheduling.Scheduler.Schedule | kernel/sched.c:94-131 | at most two passes; the choice has the greatest counter, or is number 0 when nobody can run |
| Scheduling.Scheduler.DoTimer | kernel/sched.c:185-195 | a tick charges the running process and reschedules only in user mode |
| Scheduling.Scheduler.Nice | kernel/sched.c:233-238 | the priority falls by the increment if it stays positive, and stays otherwise |
| Scheduling.ChosenInTime | kernel/sched.c:94-131 | over every run without forks, a process that can run and has time left is chosen within the others' time in user ticks, and one more if the running one has none |
| Scheduling.ChosenSooner | kernel/sched.c:94-131 | the time of a process that does not come first need not be waited for |
| Scheduling.ChosenWithinTotal | kernel/sched.c:185-195 | the plain sum of the times is enough over every run if and only if the running process has time left or another one has time and does not come first |
| Scheduling.ExtraTickNeeded | kernel/sched.c:191-193 | a state in which it is not enough |
| Scheduling.CountersBounded | kernel/sched.c:125-128 | over every run, forks by every process included, a counter is at most twice the highest priority of its process less one |
| SleepQueue.StepKeeps | kernel/sched.c:140-183 | pointers lead to sleepers, each sleeper has exactly one, and saved ones lead to earlier sleepers of the queue |
| SleepQueue.NoSleeperLost | kernel/sched.c:140-154 | every sleeper is reached from a queue head or from a woken process through the saved pointers |
| SleepQueue.WakeReachesAll | kernel/sched.c:177-183 | after one wake_up everybody who sleeps on the queue is on such a path from a woken process |
| SleepQueue.AllAreWoken | kernel/sched.c:140-183 | over every run each turn on the path wakes the next one, whatever others do |
| SleepQueue.RunKeeps | kernel/sched.c:140-183 | the invariant holds after every run |
| SleepQueue.NobodySleeps | kernel/sched.c:140-183 | it holds before anybody sleeps |
| SleepQueue.ReachedFromStart | kernel/sched.c:140-183 | so after every run from there every sleeper is reached |
| PipeRing.RingGet | include/linux/fs.h:104-110 | taking a byte from the ring takes the oldest |
| PipeRing.RingPut | include/linux/fs.h:104-110 | a byte put in becomes the newest |
| PipeRing.Masks | include/linux/fs.h:106-110 | the masks are arithmetic modulo the page size, also when the head has wrapped |
| PipeRing.Pipe.Drain | fs/pipe.c:17-21 | takes a prefix of what is there, as long as possible |
| PipeRing.Pipe.Fill | fs/pipe.c:35-47 | appends as much as fits, in order |
| PipeProtocol.StepKeeps | fs/pipe.c:7-50 | bytes are conserved, the results of the readers in the order of their reads are the bytes read, and nobody sleeps without a reason |
| PipeProtocol.FirstInFirstOut | fs/pipe.c:7-50 | over every run, what was written is what was read and then what is in the pipe |
| PipeProtocol.ReadersGetWhatWasWritten | fs/pipe.c:7-50 | from the empty pipe, the readers together get what was written, in order and nothing twice |
| PipeProtocol.NoDeadlock | fs/pipe.c:11-16 | a reader and a writer are never both asleep and out of reach of a wake-up, however many there are |
| PipeProtocol.TurnWakesOthers | fs/pipe.c:11-48 | after a turn of one process every other one is awake or has a wake-up on its way |
| PipeProtocol.EndOfFileMeansClosed | fs/pipe.c:7-50 | over every run of a new pipe, while both ends are open, a returned reader has got something and a returned writer has written all its data |
| PipeProtocol.TurnMovesMost | fs/pipe.c:17-47 | a turn of a reader empties the pipe or satisfies it, one of a writer fills the pipe or finishes it, and writing to a closed pipe gives -1 |
| PipeProtocol.ReadTurn | fs/pipe.c:7-24 | read_pipe on the ring, from a wake-up to the next sleep or its return, is the reader's turn of the protocol |
| PipeProtocol.WriteTurn | fs/pipe.c:26-50 | the same for write_pipe |
| DescriptorTables.OpenedKeeps | fs/open.c:139-163 | f_count stays the number of descriptors and i_count that of open files and others |
| DescriptorTables.ClosedKeeps | fs/open.c:179-187 | the same when a descriptor goes, with the inode reference at the last one |
| DescriptorTables.ForkedKeeps | kernel/fork.c:170-172 | the same when all descriptors are copied |
| DescriptorTables.NothingOpen | fs/super.c:78-79 | the counts agree when nothing is open |
| FileDescriptors.FileTable.Open | fs/open.c:121-165 | the lowest free descriptor names a new file; a failure leaves everything as it was |
| FileDescriptors.FileTable.Close | fs/open.c:172-188 | one descriptor less, errors without effect |
| FileDescriptors.FileTable.DupFd | fs/fcntl.c:12-28 | succeeds exactly when there is an open descriptor and a free one, and takes the first free one |
| FileDescriptors.FileTable.Dup2 | fs/fcntl.c:30-34 | exact success condition; on success the new descriptor names the old one's file, and a failed call has closed newfd and changed nothing else |
| FileDescriptors.FileTable.SysPipe | fs/pipe.c:52-92 | two descriptors on two files of one inode with two references; a failure leaves everything as it was |
| FileDescriptors.FileTable.Fork | kernel/fork.c:165-176 | the child's descriptors are counted |
| FileDescriptors.FileTable.Exit | kernel/exit.c:73-75 | all descriptors of the process are closed and the counts still agree |
| InodeProtocol.StepSane | fs/inode.c:127-248 | every step keeps the counts equal to the number of users, and users at inodes |
| InodeProtocol.RunSane | fs/inode.c:127-248 | the same after every interleaved run, calls of iget for freed numbers included |
| InodeProtocol.UnusedIsClean | fs/inode.c:165-200 | over every run from the empty table an unused slot is clean, so get_empty_inode never waits for a write, and its inode has links, so no deleted file stays |
| InodeProtocol.NotFoundExact | fs/inode.c:242-246 | when iget fills its slot, the invariant stays if and only if the number is still allocated |
| InodeProtocol.AllocateExact | fs/bitmap.c:141-171 | when new_inode takes a number, inodes stay unique if and only if no slot holds that number |
| InodeProtocol.StepKeeps | fs/inode.c:127-248 | while the numbers iget looks for stay allocated, a step keeps one slot per inode, exact counts, and every inode in the table allocated |
| InodeProtocol.RunKeeps | fs/inode.c:127-248 | the same after every interleaved run of such steps |
| InodeProtocol.EmptyTable | fs/inode.c:165-200 | the empty table meets the invariant |
| InodeProtocol.UniqueFromStart | fs/inode.c:127-248 | so it holds after every such run from there |
| InodeProtocol.UniquenessFails | fs/inode.c:218-248 | a run from the empty table in which sys_unlink frees a number while another iget waits on the inode, and the inode ends up in two slots |
| InodeProtocol.RecycledOnlyWhenUnused | fs/inode.c:165-200 | a slot loses its inode only unused and clean, or freed by its last user without links |
| NumberFormat.DigitsValue | kernel/vsprintf.c:55-59 | the digits in any base stand for the number |
| NumberFormat.ParsesBack | kernel/vsprintf.c:34-84 | for every 32-bit value, base, width, precision and flags the digits parse back, the smallest integer included |
| NumberFormat.ReadsBack | kernel/vsprintf.c:34-84 | a reader of blanks, sign, prefix and digits gets the number back from the whole field, signed with SIGN and modulo 2^32 without |
| NumberFormat.PaddingPlaced | kernel/vsprintf.c:63-83 | padding stands behind the field for LEFT, as zeros before its digits for ZEROPAD, and in front otherwise |
| NumberFormat.StartShown | kernel/vsprintf.c:46-78 | which sign and which prefix the field starts with |
| NumberFormat.DigitsLeast | kernel/vsprintf.c:55-59 | the digits have no leading zeros and the case asked for |
| NumberFormat.FormatLength | kernel/vsprintf.c:34-84 | the length is the greater of the width and sign, prefix and digits |
| NumberFormat.Collect | kernel/vsprintf.c:55-59 | the digit loop stays inside its 36 characters and collects the digits backwards |
| NumberFormat.Number | kernel/vsprintf.c:34-84 | the loops write exactly the specified field; bases outside 2..36 give nothing |

## Left out

- The boot identity map, slot 0 and slots from 32 on: their frames are not counted in mem_map, or the slot base overflows an int (kernel/fork.c:49).
- MemoryManager.Memory.CopyPageTables: user entries name frames at or above LOW_MEM; LowFramesUnprotected says what happens below.
- MemoryManager.Memory.DoNoPage: a page that could not be mapped stays allocated, as in the source; the process exits then, which is not followed.
- The translation cache of the processor, and page faults as hardware events: the C functions are modelled, with a store faulting as often as it must.
- Truncate, file_read and file_write work on blocks as the cache presents them, one process at a time and without I/O errors; the layout of inodes and super blocks on disk is not modelled.
- BufferCache.Cache.InsertIntoQueues: the store into the old first buffer of a chain is guarded; the source stores through a null pointer when the chain is empty (fs/buffer.c:103).
- BufferCache.Cache.Getblk: there are at least two buffers; device and block numbers fit their 16-bit fields; waiting is a null result.
- BufferProtocol.StepKeeps: the walk of getblk along the free list across a sleep is any choice of an unused buffer.
- BufferSystem.StepKeeps: needs fewer calls under way than buffers, as 64 processes on more than 64 buffers are; StepExact and RunExact say what happens without it.
- DiskMachine.StepKeeps: add_request is atomic for interrupts; a buffer is locked together with taking the slot; the data moved after a retry inside a request are not modelled.
- HdDriver.HardDisk.RwAbsHd: positions fit the controller's registers, two drives, sixteen heads, one sector byte and two cylinder bytes.
- ConsoleDriver.Console.constructor: the boot loader's cursor is on the screen.
- ConsoleDriver.Console.ConWrite: setting the hardware cursor and origin is port I/O; answers to ESC Z are counted, not written; the flag for a question mark is never read.
- SleepQueue.StepKeeps: interruptible_sleep_on is not modelled; its repeat path can leave a waiter nobody points at (kernel/sched.c:166-172).
- PipeProtocol.StepKeeps: wake_up counts for all sleepers at once, though they wake one after the other; SleepQueue.WakeReachesAll and SleepQueue.AllAreWoken justify that; the page of the pipe and its inode are there.
- InodeProtocol.StepKeeps: needs that a number is allocated from a call of iget for it to its return, because the code does not keep the invariant otherwise (NotFoundExact, UniquenessFails); the inodes of pipes are not in it; freeing an inode that has got a second user, or a number that is not allocated, is a panic.
- FileDescriptors.FileTable.SysPipe: the source has stored files and descriptors when get_pipe_inode may sleep (fs/inode.c:206), as has Open when open_namei may; what other processes do to the tables meanwhile is not modelled.
- NumberFormat.Number: width and precision are unbounded integers.
- Boot code, assembly stubs, context switch, exec, path walking, block devices, terminals' line discipline, signals, permissions and library wrappers: hardware glue or easier properties.
