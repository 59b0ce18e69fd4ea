# Verified models of the gpos kernel

gpos is a small 32-bit kernel written in C. This project models its stateful cores in Dafny, in the form the kernel has
them (classes that update arrays, tables and linked headers in place), and proves what they promise over every input and
every run.

| part | files | what is modelled |
|---|---|---|
| Copy-on-write memory | `PageWords`, `EagerSpace`, `PhysMemory`, `PageSteps`, `UserAccess`, `CleanPages`, `PageManager` | the frame bitmap, reference counts, page directory and page tables, fork copying, page sharing, write faults and demand loading; the reference meaning is a memory in which every fork copies everything at once |
| Buffer cache | `BufferLists`, `CacheRuns`, `BufferCache`, `SharedBuffers` | the free list (a circular doubly linked list) and the 307 hash chains that thread through the same headers; `getblk` with other tasks running at each of its sleeps; the reference meaning is a partial map from (device, block) to buffer |
| Block requests | `Elevator`, `RequestState`, `DiskRuns`, `DiskProgress`, `BlockRequests`, `HdRuns`, `HardDisk`, `DiskResults` | the 32 request slots, the per-device queues, elevator insertion, good and bad transfers, completion, buffer locking; the hard disk driver with its resets; how long a pending slot waits and what its buffer holds afterwards |
| Zones and files | `ZoneTree`, `FileOrder`, `ZoneStore` | the zone bitmap, the three-level block map of an inode, block creation and truncation; the reference meaning is a file as the list of its zones |
| Console | `Terminal`, `ControlStreams`, `VideoMemory`, `Console` | the escape-sequence parser, cursor, scrolling by moving the origin or by copying double words in video memory; the reference meaning is a two-dimensional grid |
| Terminal lines | `CharQueue`, `LineEditor`, `KeyMeanings`, `OutputText`, `TtyRun`, `Replies`, `TextWrites`, `EchoRuns`, `InputRuns`, `EscapeZ`, `Tty`, `EchoOnScreen` | the 1024-slot rings, line editing with echo, output translation, and the console calling itself through the echo of its answers; the reference meaning is an editor on finished text and a current line |
| Scheduler | `TaskTable`, `Scheduler` | counters, recharging, the timer, process numbers and slots of new tasks |
| Numbers in text | `NumberText`, `NumberPrinter` | `number` and `skip_atoi` of the formatted printer |

Each part has the same shape. A value (`Phys`, the header array, `State`, `Fs`, `Term`, `Line`, `Table`) says what the
data mean; lemmas on that value prove what each elementary step keeps; the class methods do the kernel's stores and loops
and are proved equal to the steps; the last method of a part (`Run`, `ShowStream`, `CopyToCooked`, `TtyWrite`) covers
whole runs.

The steps themselves are held against descriptions that do not use them: eager copying and the bits of table words, a
partial map for the cache, the buffer a task waits for, a file as a list of zones, cells by row and column, keys by number,
text read back as a number.

Conventions. Frames are numbered (address / 4096); frames below 256 lie under 1 MB and are shared on purpose. The linear
space has 1024 directory slots of 1024 pages, and task nr owns slots 16 nr to 16 nr + 15. Video memory is counted in
16-bit cells from its start. Characters are signed. 32-bit words and the byte-wide reference count of a buffer wrap as in C
where they can.

Where the code and its comments disagree, the code is followed:

- The comment on `copy_page_tables` says that only 160 pages are copied from address 0; the code copies whole tables.
- The comment in `getblk` says the buffer chosen is clean; with write-back commented out it may be dirty
  (`BufferCache.DirtyVictim` says exactly when).
- After ESC the console compares the cursor's column with '7' and '8' where the character was meant
  (`Terminal.SaveRestoresIff`, `Terminal.SaveFails`).
- `sleep_if_full` waits to be woken, but nothing wakes a task sleeping on the write queue (`TextWrites.WritesTextIff`).
- `schedule` leaves its loop only for a counter above 0, so without a running task that can get one it loops for ever
  (`TaskTable.OneRechargeOrNever`).

Some promises hold only under a condition; each has a lemma with the exact one, and where it is not plain a run on which
the promise fails:

- A child reads exactly its parent's space unless an earlier fork left pages behind (`EagerSpace.ForkIsExactIff`, reached by
  `PageSteps.StaleSlotReached`), and a fork over an existing page table loses it (`PhysMemory.ReplacedTableIsLost`,
  `PageSteps.LostForever`).
- A write fault is invisible as long as there is a frame for the copy (`PageSteps.MisplacedIsSeenIff`).
- A buffer comes back from `getblk` referenced unless its count wraps (`BufferCache.Cache.Getblk`).
- A write shows its text unless an answer to ESC Z is echoed in the middle of it or the queue is full
  (`TextWrites.WritesTextIff`, `EchoRuns.UsualIff`; it fails in `EscapeZ.WriteGoesWrong`), and echo is shown as long as it
  fits (`EchoRuns.EchoFitsIff`).
- ESC 7 and ESC 8 keep the cursor in columns 55 and 56 only (`Terminal.SaveRestoresIff`; fails in `Terminal.SaveFails`).
- Copying double words scrolls an odd number of columns only onto blanks (`VideoMemory.ScrollIsExactIff`,
  `VideoMemory.ScrollDownIsExactIff`, `VideoMemory.WrapIsExactIff`).
- A block at the end of its partition can be read, but not tried again (`HdRuns.LastBlockIsRefused`).
- Rubouts match the echo of a control character only with carets (`LineEditor.RubsMatchEcho`).
- Cursor movements by distances near 2^32 wrap (`Terminal.VerticalMoves`, `Terminal.HorizontalMoves`).
- Tasks without any priority are never run (`TaskTable.OneRechargeOrNever`).

## Model

| member | source | states |
|---|---|---|
| PageWords.DecodeEncode | include/mm/mm.h:22-33 | a table word is recovered from its 32-bit value, so modelling words by their fields loses nothing |
| PageWords.BitOperations | include/mm/mm.h:66-80 | masking, setting and clearing the write bit and comparing a flagged word with 1 MB are the field operations, on the 32-bit values |
| EagerSpace.CopyDirsCopies | mm/memory.c:59-99 | an eager fork over disjoint ranges: the child's copied slots read like the parent's, every other slot keeps its pages, a slot the parent lacks keeps what the child's slot held |
| EagerSpace.ForkIsExactIff | mm/memory.c:72-82 | the child reads exactly what the parent reads if and only if no slot the parent lacks was left filled in the child's range |
| EagerSpace.WriteIsLocal | mm/memory.c:356-379 | a store changes the word stored to and no other word of any task, except through a shared frame below 1 MB |
| EagerSpace.WriteAfterUnshare | mm/memory.c:356-391 | giving a page its own words before a store does not change what the store does |
| EagerSpace.UntouchedSlotKeepsItsPages | mm/memory.c:59-99 | over any run of forks, stores, loads and shares of other tasks, a slot that no event acts on keeps every page |
| PhysMemory.CountAfterStore | mm/memory.c:89-93 | changing one table entry takes one name from the old frame and gives it to the new one, so the numbers of names, from which the reference counts follow, change by one each |
| PhysMemory.NamedIsCounted | mm/memory.c:320-351 | a named frame has a positive count, so a free frame, or a held one counted once, has no name |
| PhysMemory.OnlyName | mm/memory.c:361-365 | the frame of a writable entry above 1 MB has no second name |
| PhysMemory.StartIsInv | mm/memory.c:264-289 | the state with only low-memory tables and free or reserved frames satisfies the invariant |
| PhysMemory.TakeKeeps | mm/memory.c:343-350 | taking a free frame keeps exact counts and what every task sees |
| PhysMemory.MakeTableKeeps | mm/memory.c:80-82 | a cleared frame becoming a page table keeps exact counts and shows an empty table |
| PhysMemory.MapKeeps | mm/memory.c:128 | mapping a held frame gives its words to that page alone |
| PhysMemory.ShareEntryKeeps | mm/memory.c:85-94 | one entry copied: read-only in both tables, counted once more, the child sees the parent's page, nobody else's view changes, counts stay exact |
| PhysMemory.AllowKeeps | mm/memory.c:361-365 | giving the only name of a frame write permission changes no view |
| PhysMemory.UnshareKeeps | mm/memory.c:367-378 | moving an entry to a private copy keeps exact counts and every view |
| PhysMemory.StoreWordKeeps | mm/memory.c:381-391 | a store through a writable entry keeps the invariant |
| PhysMemory.StoreWordView | mm/memory.c:381-391 | and is seen as the eager store: in the page stored to and nowhere else |
| PhysMemory.ReleaseKeeps | mm/memory.c:33-39 | giving back a held frame keeps exact counts and every view |
| PhysMemory.ReplacedTableIsLost | mm/memory.c:73-82 | the tables in use stay the reachable ones if and only if the target slot of the fork had no table; otherwise its old table stays in use out of reach |
| PageSteps.CopiesAllIff | mm/memory.c:72-82 | a fork gets to its end if and only if there is a free frame for each slot the parent has |
| PageSteps.CopySlotKeeps | mm/memory.c:72-95 | one slot copied: the eager copy, one frame used if the parent has the slot, no other table touched |
| PageSteps.LoadKeeps | mm/memory.c:107-131 | a page loaded on demand: installed at that page alone, one frame used or two |
| PageSteps.GivenBackKeeps | mm/memory.c:258-260 | a load that fails for want of a page table changes no count and no view |
| PageSteps.OwnedKeeps | mm/memory.c:356-379 | write permission or a private copy: the page shows the same words, now the task's own; a frame is used exactly for the copy |
| PageSteps.StoredKeeps | mm/memory.c:381-391 | a store with the fault it may take is the eager store |
| PageSteps.SharedKeeps | mm/memory.c:168-196 | a shared page is the same page installed at the target |
| PageSteps.NextRefines | mm/memory.c:59-391 | every event is the eager step of its exact outcome and uses exactly its frames: a table for each slot a fork copies, one or two for a load, one for a copying store, one for a missing table in sharing |
| PageSteps.RunRefines | mm/memory.c:59-391 | over any run every task sees what eager copying would have shown it, and free frames and frames used always make the same number: none is lost, none comes back |
| PageSteps.LostForever | mm/memory.c:73-82 | a page table replaced by a fork stays counted whatever happens later, and so does every frame its entries name |
| PageSteps.StaleSlotReached | mm/memory.c:72-82 | two calls of copy_page_tables after which a child reads another task's pages: one cut short by memory, then one for a parent that lacks the first slot into the same range, which gets to its end if the parent has none of the others |
| PageSteps.MisplacedIsSeenIff | mm/memory.c:324-379 | with no frame free, un_wp_page moves the page to a frame below 1 MB that get_free_page cleared; nobody sees a difference if and only if that frame held the same words or no other page shows it, and the page was not there already |
| PageSteps.FullFrameIsLow | mm/memory.c:324-351 | get_free_page as written never returns 0: with every bit set it returns one of the frames 0xdf to 0xff |
| UserAccess.LoadedWords | mm/memory.c:107-131 | a page loaded on demand is entered as frame + 7, bit for bit, and so is a page table made for it |
| UserAccess.ForkWords | mm/memory.c:72-82 | each page table a fork makes is entered with exactly the bits present, write and user |
| UserAccess.SharedWords | mm/memory.c:85-94 | fork and page sharing enter the source's word without bit 1; above 1 MB the source's own word loses it too, below it stays |
| UserAccess.StoredWords | mm/memory.c:356-391 | after a store bits 1 and 6 of the entry are set |
| UserAccess.StaysOpen | mm/memory.c:59-391 | over any run: if every present directory word had the write and user bits and every present entry the user bit, they all still have them, new and copied ones included |
| UserAccess.ReadsWhatIsShown | include/mm/mm.h:22-33 | by the low bits of the two words on the walk, user code may then read exactly the pages that show something, and store without a fault exactly through writable entries |
| UserAccess.RunReadsWhatIsShown | mm/memory.c:59-391 | so over any run user code may read exactly the pages that eager copying would have shown it |
| CleanPages.StoredGenuine | mm/memory.c:356-391 | a store, with the private copy it may take, leaves the words of every clean page among those it had: it dirties the only entry that names the frame written |
| CleanPages.SharedIsLoaded | mm/memory.c:171-177 | from start-up on, over any run, a page that try_to_share would hand out shows exactly the words of some demand load; no store has reached it through any entry |
| PageManager.Manager.MmInit | mm/memory.c:264-289 | after start-up the bitmap, counts and tables satisfy the invariant, and exactly the frames the bitmap describes from the start of main memory on are free |
| PageManager.Manager.SetMemMap | mm/memory.c:292-303 | one more count and the bit set, for addresses the bitmap describes only |
| PageManager.Manager.ClearMemMap | mm/memory.c:305-317 | one count less; the bit goes exactly when the count reaches 0; panic below 0 |
| PageManager.Manager.GetFreePage | mm/memory.c:324-351 | the highest-numbered free frame, cleared and counted once, or 0 and nothing changed if and only if no frame is free; no view changes |
| PageManager.Manager.FreePage | mm/memory.c:33-39 | drops a frame the kernel holds; low frames are ignored; panic exactly past the end of memory or on a free frame; no view changes |
| PageManager.Manager.CopyTable | mm/memory.c:84-95 | the inner loop is the copy of 1024 entries, one elementary step each |
| PageManager.Manager.CopySlot | mm/memory.c:72-96 | one slot copied completely, its page table entered as frame + 7, if it needs no table or a frame is free; otherwise nothing changed |
| PageManager.Manager.CopyPageTables | mm/memory.c:59-99 | slots are copied eagerly, as every task sees it, up to the first one that the parent has and no frame is left for; 0 exactly if that is the end; each page table made is entered as frame + 7; counts exact either way |
| PageManager.Manager.CopyProcess | kernel/fork.c:57-100 | -EAGAIN exactly if there are too few frames for the task page and the page tables; the task page is then given back, and the frames gone are exactly the page tables made |
| PageManager.Manager.PutPage | mm/memory.c:107-131 | a held frame becomes visible at its page alone, entered as frame + 7, and so is the page table it may need; 0, with nothing changed, exactly if the page table is missing and no frame is free |
| PageManager.Manager.LoadPage | mm/memory.c:228-261 | demand loading installs the words at that page alone; it fails exactly when no frame is free, or one only and the page table is missing too, and then gives the frame back |
| PageManager.Manager.UnWpPage | mm/memory.c:356-379 | the entry is the old word with bit 1, or the new frame + 7 exactly when it was not its frame's only name; no task sees any change |
| PageManager.Manager.UserStore | mm/memory.c:381-391 | a store, with the write fault it may take, equals the eager store |
| PageManager.Manager.TryToShare | mm/memory.c:151-197 | takes effect exactly for a clean present page above 1 MB and an absent target, which then shows it, write-protected in both; panic exactly if the target is present |
| PageManager.Manager.Run | mm/memory.c:59-391 | for every run of forks, stores, loads and shares the arrays hold the state, and the results are the outcomes, of the run on values: each task sees what eager copying would show, the free frames go down by exactly the frames used, and a bit is set exactly for counted frames; words that let user code in still do |
| BufferLists.UnlinkFreeRing | fs/buffer.c:31-34 | unlinking leaves one circular list of the remaining headers in their order |
| BufferLists.LinkTailRing | fs/buffer.c:40-43 | linking puts the header last on the one circular list |
| BufferLists.UnlinkHashChains | fs/buffer.c:21-26 | unlinking takes a header off its chain and leaves every chain well linked with exactly its members |
| BufferLists.LinkHashChains | fs/buffer.c:45-58 | pushing puts it on the chain its identity hashes to and on no other |
| BufferLists.OffHash | fs/buffer.c:21-26 | the hash half of removal keeps the whole structure, including the shared header fields of the free list |
| BufferLists.OffFree | fs/buffer.c:28-34 | the free-list half keeps it |
| BufferLists.OnFree | fs/buffer.c:40-43 | so does putting a header at the tail |
| BufferLists.OnHash | fs/buffer.c:45-58 | and putting it on its chain, or on none for device 0 |
| CacheRuns.WaitedIff | fs/buffer.c:103-109 | a wait ends with the first sleep that leaves the buffer unlocked, and only with one |
| CacheRuns.LookedAtOnceIff | fs/buffer.c:118-131 | a lookup sleeps if and only if the block is cached in a locked buffer |
| CacheRuns.GotAtOnceIff | fs/buffer.c:141-187 | getblk returns without a sleep if and only if the buffer of the block, or for a block not cached the victim, is there and unlocked |
| CacheRuns.UncachedAtOnceIff | fs/buffer.c:140-163 | a block not cached is got without a sleep if and only if some unreferenced buffer is clean and unlocked, or some is dirty and unlocked and none is clean |
| CacheRuns.VictimIsOldest | fs/buffer.c:148-158 | of the unreferenced buffers with the same flags the one got longest ago is taken |
| CacheRuns.WaitedKeeps | fs/buffer.c:118-131 | the buffer a sleeping task holds a reference to keeps its identity |
| CacheRuns.HitGetsThroughIff | fs/buffer.c:118-146 | getblk of a cached block whose count does not wrap gets through if and only if the buffer is unlocked at first or after one of its sleeps, after the first such one, with that buffer, referenced, whatever other tasks do |
| SharedBuffers.RekeyIsRename | fs/buffer.c:177-185 | getblk's last step is a renaming that the request layer allows: the buffer is unlocked and nobody else has the identity |
| SharedBuffers.GotIsRename | fs/buffer.c:162-185 | and every miss ends with such a step |
| BufferCache.BestIsVictim | fs/buffer.c:148-158 | the best header of the whole walk is the first unreferenced one of least badness in free-list order |
| BufferCache.InitialRing | fs/buffer.c:77-88 | the headers as laid out form one circular list in address order |
| BufferCache.InitialChains | fs/buffer.c:69-90 | and every hash chain holds exactly its (no) members |
| BufferCache.RekeyedLookup | fs/buffer.c:177-185 | as a map from identities: a miss adds its identity, removes the victim's old one and leaves every other lookup unchanged |
| BufferCache.DirtyVictim | fs/buffer.c:148-171 | a dirty block is given up only when every unreferenced buffer is dirty |
| BufferCache.Cache.BufferInit | fs/buffer.c:61-91 | as many headers as fit below the data blocks, all free, structure established |
| BufferCache.Cache.RemoveFromQueues | fs/buffer.c:18-35 | takes a header off its chain and the free list, everything else in place |
| BufferCache.Cache.InsertIntoQueues | fs/buffer.c:37-59 | puts it at the tail of the free list and the front of its chain |
| BufferCache.Cache.FindBuffer | fs/buffer.c:93-101 | the buffer with that identity if there is one, otherwise NULL; at most one exists |
| BufferCache.Cache.GetHashTable | fs/buffer.c:118-131 | the run of the lookup on values; without a sleep exactly if the block is not cached or its buffer unlocked, asleep only for a locked buffer; otherwise an unlocked buffer of that identity, or NULL if there was none when last looked; it comes back referenced if the count found was not 255 |
| BufferCache.Cache.FindVictim | fs/buffer.c:148-158 | the first unreferenced buffer of least badness, NULL if all are referenced |
| BufferCache.Cache.Getblk | fs/buffer.c:141-187 | the run of getblk on values, whatever happens at its sleeps; without a sleep exactly if the buffer, or for a block not cached the victim, is there and unlocked; asleep only for a locked buffer or when all are referenced; otherwise the one buffer with the identity, unlocked, and on a miss the victim of its last atomic section re-keyed, counted once, neither dirty nor up to date, and moved to the tail; referenced unless it was a hit on a count of 255 |
| BufferCache.Cache.Brelse | fs/buffer.c:189-198 | waits exactly while the buffer is locked, then drops one reference; panics exactly if there was none |
| Elevator.PlaceIsPlaced | drivers/block/hardisk/ll_rw_blk.c:69-75 | the insertion loop finds the sorted place in the sweep under way, else in the next sweep, else the end |
| Elevator.InsertKeepsRuns | drivers/block/hardisk/ll_rw_blk.c:69-75 | a queue of two ascending runs stays one under insertion |
| Elevator.PopKeepsRuns | drivers/block/include/blk.h:93-109 | and under completion of its head |
| Elevator.InsertKeepsOvertakes | drivers/block/hardisk/ll_rw_blk.c:69-75 | an insertion never raises what can still be served before a queued key, even when it goes in front of it |
| Elevator.PopUsesTurn | drivers/block/include/blk.h:93-109 | a completion uses up one of the completed key's turns |
| Elevator.OvertakenAtMostTwice | drivers/block/hardisk/ll_rw_blk.c:69-75 | in any run no key is served more than twice before a waiting key |
| Elevator.ServedWithinRank | drivers/block/hardisk/ll_rw_blk.c:69-75 | completions of a set of keys before a waiting key are bounded by its rank among them |
| Elevator.BoundedWaiting | drivers/block/hardisk/ll_rw_blk.c:69-75 | a run during which a key waits has at most rank completions, so at most two for each key that occurs |
| Elevator.ServedInTime | drivers/block/hardisk/ll_rw_blk.c:69-75 | any legal run with more completions than the rank serves the key |
| RequestState.InOrderIsKeyOrder | drivers/block/include/blk.h:45-48 | for different blocks IN_ORDER is the order of the keys, also while the head stands at its block's second sector |
| RequestState.KeysAreDistinct | drivers/block/hardisk/ll_rw_blk.c:99-138 | no two pending requests ask for the same block of the same device |
| RequestState.QueueKeysDistinct | drivers/block/hardisk/ll_rw_blk.c:55-77 | so the keys of one queue are pairwise distinct, as the elevator needs |
| RequestState.NewKeyIsNew | drivers/block/hardisk/ll_rw_blk.c:99-103 | a buffer just locked is asked for by no pending request |
| RequestState.PlaceTurn | drivers/block/hardisk/ll_rw_blk.c:69-73 | one comparison of requests in the loop decides as the elevator does on keys |
| RequestState.EnqueueKeeps | drivers/block/hardisk/ll_rw_blk.c:128-138 | filling a slot and queueing it keeps queues, owners, locks, order and slot limits |
| RequestState.SectorKeeps | drivers/block/hardisk/hd.c:227-232 | the head moving to its second sector keeps them |
| RequestState.FinishKeeps | drivers/block/include/blk.h:93-109 | completing the head keeps them, frees its slot and unlocks its buffer |
| RequestState.HoldKeeps | drivers/block/hardisk/ll_rw_blk.c:32-39 | locking a free buffer keeps them |
| RequestState.FreeKeeps | drivers/block/hardisk/ll_rw_blk.c:41-48 | so does unlocking it without a request |
| RequestState.IdentifyKeeps | fs/buffer.c:179-185 | so does the cache re-keying an unlocked buffer |
| RequestState.WritesLeaveRoom | drivers/block/hardisk/ll_rw_blk.c:106-113 | at most 21 of the 32 slots hold writes |
| RequestState.EnqueueKeys | drivers/block/hardisk/ll_rw_blk.c:55-77 | queueing a request is an elevator insertion on the keys of its queue and nothing on the others |
| RequestState.FinishKeys | drivers/block/include/blk.h:93-109 | completing is an elevator pop |
| RequestState.MissedKeeps | drivers/block/hardisk/hd.c:166-169 | an error more on the head keeps the full invariant |
| DiskRuns.NextQueue | drivers/block/hardisk/ll_rw_blk.c:55-151 | each atomic section is on every queue what its report says: an arrival, a completion or nothing |
| DiskRuns.RunIsTrace | drivers/block/hardisk/ll_rw_blk.c:55-151 | a run on a device queue is the elevator's run with one arrival for each request queued there and one completion for each one ended there |
| DiskRuns.EndedIsCompleted | drivers/block/include/blk.h:93-109 | that run completes exactly as many keys as requests were ended |
| DiskRuns.RunStays | drivers/block/hardisk/ll_rw_blk.c:55-151 | a queued slot stays queued with its request until its end is reported |
| DiskRuns.PendingIsServed | drivers/block/hardisk/ll_rw_blk.c:69-75 | a run that ends more requests on a queue than the rank of a pending slot, at most two for each request that can occur, ends that very slot with the request it holds |
| DiskProgress.OthersKeepHead | drivers/block/hardisk/ll_rw_blk.c:55-77 | whatever is not about the head of a queue leaves it there, with its errors and sectors, and ends nothing on that queue |
| DiskProgress.GoodResult | drivers/block/hardisk/hd.c:220-255 | a good transfer leaves the head one sector or ends it |
| DiskProgress.BadResult | drivers/block/hardisk/hd.c:166-169 | a bad one counts an error or, at the seventh, ends it |
| HdRuns.HdTurn | drivers/block/hardisk/hd.c:166-306 | with the flags for reset and recalibration: every interrupt the controller was busy for, those of a reset included, ends the head or leaves it fewer turns, nothing else gives it more, and a busy controller always has a head |
| HdRuns.HdRunIsRun | drivers/block/hardisk/hd.c:166-306 | a run of the driver is a run on the requests |
| HdRuns.InterruptsEndRequests | drivers/block/hardisk/hd.c:166-306 | every twenty-eight interrupts end a request: fourteen transfer results, and two interrupts for each reset they bring about or find due |
| HdRuns.PendingIsServedInTime | drivers/block/hardisk/hd.c:166-306 | so a pending slot is ended within twenty-eight interrupts for each turn of its rank and twenty-eight more, whatever arrives meanwhile |
| HdRuns.WorstTurn | drivers/block/hardisk/hd.c:166-306 | in every state some event uses up exactly one turn |
| HdRuns.BoundIsReached | drivers/block/hardisk/hd.c:166-306 | so the bound is exact: some run gives a read all its interrupts and ends it only with the last |
| HdRuns.AskedIsRun | drivers/block/hardisk/hd.c:257-306 | do_hd_request is a run without an interrupt; afterwards the controller is busy or the queue empty |
| HdRuns.LastBlockIsRefused | drivers/block/hardisk/hd.c:266-269 | a block at the end of its partition is accepted, but refused when its second sector is tried again |
| BlockRequests.Requests.BlkDevInit | drivers/block/hardisk/ll_rw_blk.c:153-161 | no slot in use, invariant established |
| BlockRequests.Requests.FindSlot | drivers/block/hardisk/ll_rw_blk.c:105-117 | the highest free slot of all 32 for a read, of the lower 21 for a write, NULL if there is none |
| BlockRequests.Requests.FindPlace | drivers/block/hardisk/ll_rw_blk.c:69-73 | the walk ends at the element after which the elevator puts the key |
| BlockRequests.Requests.AddRequest | drivers/block/hardisk/ll_rw_blk.c:55-77 | the linked queue afterwards is the old one with the request inserted at its place |
| BlockRequests.Requests.MakeRequest | drivers/block/hardisk/ll_rw_blk.c:79-134 | the same for a device with a driver, as the step of the run on values |
| BlockRequests.Requests.LlRwBlock | drivers/block/hardisk/ll_rw_blk.c:79-151 | with literal conditions, exactly when the call finds no driver, waits for the buffer, waits for a slot, or queues the request, and in which slot; the buffer queued is locked and counts as clean, no other changes; read-ahead gives up instead of waiting |
| BlockRequests.Requests.EndRequest | drivers/block/include/blk.h:93-109 | the head's slot is free, its buffer unlocked and up to date as told, the next request is the head; no other buffer changes |
| BlockRequests.Requests.TransferInterrupt | drivers/block/hardisk/hd.c:220-255 | a good transfer advances the head by one sector, a read forgetting its errors, and changes no buffer; at its last sector the head ends with its buffer unlocked and up to date, and no other buffer changes |
| BlockRequests.Requests.BadRwIntr | drivers/block/hardisk/hd.c:166-169 | what a bad transfer does to the requests: an error more and no buffer changed; the seventh ends the request with its buffer unlocked and not up to date |
| BlockRequests.Requests.Run | drivers/block/hardisk/ll_rw_blk.c:55-151 | over every run of tasks and interrupts the invariant holds, the arrays hold the state of the run on values, and the reports are its reports: which slot was queued or ended, on which device, with which request |
| HardDisk.Controller.BadRwIntr | drivers/block/hardisk/hd.c:166-172 | one error more, and a reset due if what is now the head has more than three |
| HardDisk.Controller.Result | drivers/block/hardisk/hd.c:206-255 | the routine an interrupt calls, for a transfer or a reset command, good or bad, is one event of the run; the buffer of a head that ends is up to date exactly if it was good |
| HardDisk.Controller.AskOnce | drivers/block/hardisk/hd.c:257-306 | one turn of the request loop: refuse, reset, recalibrate, transfer, or try a write in vain |
| HardDisk.Controller.DoHdRequest | drivers/block/hardisk/hd.c:257-306 | the loop ends, as the function does |
| HardDisk.Controller.HdInterrupt | drivers/block/hardisk/hd.c:206-255 | an interrupt with the request loop after it |
| DiskResults.EndedSettles | drivers/block/include/blk.h:93-109 | whatever ends a request unlocks its buffer, which is up to date if and only if it was a good transfer; no other buffer changes in any flag |
| DiskResults.PlacedIff | drivers/block/hardisk/ll_rw_blk.c:79-117 | a command queues a request at once if and only if the device has a driver, the buffer is not locked, a write finds it dirty or a read not up to date, and one of the 21 or 32 slots is free |
| DiskResults.PlacedAsks | drivers/block/hardisk/ll_rw_blk.c:119-130 | a request just placed asks for the two sectors of its buffer's block, and the buffer is locked and counts as clean |
| DiskResults.RequestOutcome | fs/buffer.c:204-219 | over any run: the buffer a pending slot asks for stays locked and keeps its block until the end of that very request is reported, and is then unlocked and up to date if and only if a good transfer ended it |
| DiskResults.HdEndsWell | drivers/block/hardisk/hd.c:166-270 | on the hard disk that is exactly an interrupt without error during a transfer; resets, unanswered writes and refused blocks never make a buffer up to date |
| ZoneTree.ZonesAreDistinct | fs/inode.c:218-285 | zones hanging in trees, data and indirect, of all inodes, are pairwise distinct |
| ZoneTree.PlaceOfInjective | fs/inode.c:225-284 | different block numbers below 7+512+512*512 have different places |
| ZoneTree.AttachAt | fs/inode.c:228-232 | after a zone is attached its place holds it and every other place of every inode what it held |
| ZoneTree.AttachKeeps | fs/inode.c:228-232 | attaching keeps the invariant |
| ZoneTree.AttachKeepsData | fs/inode.c:228-232 | and the contents of every data zone |
| ZoneTree.KeptIsMapped | fs/inode.c:218-285 | the step relation of block creation means: block k maps to z, every other block of every inode keeps its zone and contents, with z = 0 the whole map stays |
| ZoneTree.KeptTrans | fs/inode.c:218-285 | the levels of one creation compose |
| ZoneTree.TurnsDiffer | fs/truncate.c:41-54 | truncation visits different places at different turns |
| ZoneTree.TakeTurn | fs/truncate.c:41-54 | at its turn a zone is still in use and is the one to go |
| ZoneTree.TruncateConserves | fs/truncate.c:41-58 | exactly the zones of the inode's tree are free afterwards, its map is empty, other trees are untouched |
| FileOrder.BmapIsListed | fs/inode.c:218-291 | block b of a file is element b of the list of its seven direct zones, the entries of zone i_zone[7] in order, and the entries, in order, of each block that i_zone[8] names in order |
| FileOrder.KeptIsListed | fs/inode.c:294-297 | creating a block changes that list at the block alone, and no other file's list |
| FileOrder.TruncateEmpties | fs/truncate.c:41-58 | truncation frees exactly the zones on the list and the indirect blocks, leaves holes only, and no other file's list changes |
| ZoneStore.Device.FindFirstZero | fs/bitmap.c:27-41 | the lowest clear bit of a map block, 8192 if there is none |
| ZoneStore.Device.FindClear | fs/bitmap.c:111-117 | the lowest clear bit over the map blocks present |
| ZoneStore.Device.NewBlock | fs/bitmap.c:103-133 | takes the lowest clear bit; a padding bit taken by mistake is lost and 0 returned |
| ZoneStore.Device.AllocateZone | fs/bitmap.c:103-133 | with padding set: the lowest free zone, cleared; 0 with nothing changed if and only if none is free |
| ZoneStore.Device.FreeBlock | fs/bitmap.c:75-101 | the zone is free afterwards, unless somebody else holds its cached buffer, and nothing else changes; panic exactly outside the data zones or if it was free |
| ZoneStore.Device.AllocateAndFree | fs/bitmap.c:75-133 | freeing the zone just allocated restores every bit of the bitmap |
| ZoneStore.Device.EnsurePlace | fs/inode.c:228-232 | one level: the place gets a zone if it had none and one is free, and nothing else changes |
| ZoneStore.Device.CreateBlock | fs/inode.c:218-297 | for every block number: the zone returned stands where the list of the file's zones has the block, the rest of that list, all other lists and all contents stay; 0 exactly for want of a zone; panic exactly out of range |
| ZoneStore.Device.BMap | fs/inode.c:218-291 | the element of the list of the file's zones, and no change; panic exactly out of range |
| ZoneStore.Device.FreeInd | fs/truncate.c:5-21 | the turns of the entries of an indirect block, then its own |
| ZoneStore.Device.FreeDind | fs/truncate.c:23-39 | the same two levels deep |
| ZoneStore.Device.Truncate | fs/truncate.c:41-58 | every zone on the file's list and every indirect block is freed exactly once without panic, the list is empty, nothing else changed |
| Terminal.LinesUndone | drivers/char/tty/console.c:204-243 | deleting n rows undoes inserting them, except that what was pushed off the screen comes back blank |
| Terminal.CellsUndone | drivers/char/tty/console.c:190-230 | the same for cells in a row |
| Terminal.VerticalMoves | drivers/char/tty/console.c:571-578 | ESC [ n A and B move n rows if that stays on the screen and otherwise not at all, exactly as long as the 32-bit arithmetic does not wrap back onto the screen |
| Terminal.HorizontalMoves | drivers/char/tty/console.c:579-586 | the same for C and D and columns |
| Terminal.TabsNeedFourColumns | drivers/char/tty/console.c:519-527 | a tab keeps the cursor on the screen from every column if and only if there are at least four columns |
| Terminal.SaveRestoresIff | drivers/char/tty/console.c:531-548 | whatever text moves the cursor in between, ESC 8 brings it back to where ESC 7 was to save it if and only if it stands in column 56 then and stood in column 55 before, or had been saved there |
| Terminal.SaveFails | drivers/char/tty/console.c:531-548 | from any other column a line feed between the two leaves it a line down |
| Terminal.PiecesJoin | drivers/char/tty/console.c:484-492 | a stream shows the same whatever pieces it arrives in |
| Terminal.Typed | drivers/char/tty/console.c:494-505 | a line of printable characters that fits stands in its row from the cursor on, and nothing else changes |
| Terminal.ParameterRead | drivers/char/tty/console.c:556-562 | digits make a parameter the number they write, modulo the word size |
| Terminal.CursorAddressed | drivers/char/tty/console.c:549-603 | ESC [ row ; column H puts the cursor there if there is such a place, and changes nothing on the screen |
| ControlStreams.SequenceRead | drivers/char/tty/console.c:549-566 | ESC [, up to sixteen parameters with semicolons and a final character: that character acts with the numbers written, missing ones being 0 |
| ControlStreams.DisplayErased | drivers/char/tty/console.c:320-347 | after ESC [ J exactly the cells from the cursor on are blank, after ESC [ 1 J those before it, after ESC [ 2 J all; cursor, region, attribute and saved place stay |
| ControlStreams.LineErased | drivers/char/tty/console.c:349-378 | the same for K within the cursor's row |
| ControlStreams.PlaceNamed | drivers/char/tty/console.c:567-603 | G, d, H and f put the cursor at the column or row named, counting from one, if it is on the screen, and change nothing else |
| ControlStreams.DistanceMoved | drivers/char/tty/console.c:571-594 | A to F move it by the distance, nothing meaning one, with 32-bit sums, or not at all if that is off the screen |
| ControlStreams.LinesOpened | drivers/char/tty/console.c:290-298 | after ESC [ n L rows above the cursor's stay, n blank ones follow, and then the others in their order as far as there is room |
| ControlStreams.LinesClosed | drivers/char/tty/console.c:310-318 | after ESC [ n M the n rows from the cursor's on are gone, the others in their order, blank ones at the end |
| ControlStreams.CellsOpened | drivers/char/tty/console.c:280-288 | after ESC [ n @ the row has n blanks at the cursor and then what stood there, as far as there is room; nothing else changes |
| ControlStreams.CellsClosed | drivers/char/tty/console.c:300-308 | after ESC [ n P the n cells at the cursor are gone and blanks come in at the end of the row |
| ControlStreams.RegionSet | drivers/char/tty/console.c:625-633 | after ESC [ a ; b r rows a to b are the region if a is before b and b on the screen; nothing else changes |
| ControlStreams.AttributeSelected | drivers/char/tty/console.c:380-392 | after ESC [ p ; ... ; p m the attribute is that of the last parameter that means something, and stays if none does |
| ControlStreams.CursorKept | drivers/char/tty/console.c:634-639 | ESC [ s keeps the cursor's place, ESC [ u goes to the place kept |
| ControlStreams.KeptComesBack | drivers/char/tty/console.c:634-639 | whatever complete text that saves nothing comes between the two, the cursor comes back |
| ControlStreams.OthersIgnored | drivers/char/tty/console.c:566-640 | any other final character does nothing |
| ControlStreams.LineFed | drivers/char/tty/console.c:245-253 | a line feed goes one row down, or exactly the region moves up by a row and a blank one comes in |
| ControlStreams.LineFedBack | drivers/char/tty/console.c:255-263 | ESC M does the opposite; ESC D is a line feed |
| ControlStreams.EscapesShown | drivers/char/tty/console.c:536-543 | ESC E goes to the start of the next line if that is on the screen; ESC Z asks for one answer more and nothing else |
| ControlStreams.CursorControls | drivers/char/tty/console.c:508-530 | carriage return, backspace, tab to the next multiple of eight, on the next line if past the last column, and nothing for other control characters |
| ControlStreams.CellRubbedOut | drivers/char/tty/console.c:271-278 | the erase character blanks exactly the cell before the cursor and goes there |
| ControlStreams.CharacterWraps | drivers/char/tty/console.c:494-505 | a printable character past the last column shows like carriage return, line feed and the character |
| VideoMemory.CellOrder | drivers/char/tty/console.c:83-91 | addresses order cells row by row, the column past the last included |
| VideoMemory.CopiedUp | drivers/char/tty/console.c:126-138 | the region's rows copied up and a row cleared show the scrolled grid, all other rows unchanged |
| VideoMemory.CopiedDown | drivers/char/tty/console.c:156-188 | the same for scrolling down |
| VideoMemory.OriginMoved | drivers/char/tty/console.c:97-100 | moving the origin by a row and clearing the row that comes in shows the same scrolled grid |
| VideoMemory.OriginWrapped | drivers/char/tty/console.c:101-115 | so does copying back to the start of video memory at its end |
| VideoMemory.ScrollIsExactIff | drivers/char/tty/console.c:127-137 | with any number of columns, copying by double words scrolls the region if and only if the stretch is even or its last cell was blank |
| VideoMemory.ScrollDownIsExactIff | drivers/char/tty/console.c:156-188 | the same for scrolling down and the region's first cell |
| VideoMemory.WrapIsExactIff | drivers/char/tty/console.c:101-115 | the same for copying back to the start of video memory: the old last cell and the cell that is to be the new last must both be blank |
| VideoMemory.Cleared | drivers/char/tty/console.c:320-378 | clearing a stretch of cells is erasing a part of the grid |
| VideoMemory.CellIn | drivers/char/tty/console.c:190-202 | shifting a stretch of cells is inserting a cell in the row |
| VideoMemory.CellOut | drivers/char/tty/console.c:217-230 | and the other way deleting one |
| Console.OneRowIn | drivers/char/tty/console.c:290-298 | inserting n rows one by one is opening n blank rows |
| Console.OneRowOut | drivers/char/tty/console.c:310-318 | deleting n rows one by one is closing up n rows |
| Console.OneCellIn | drivers/char/tty/console.c:280-288 | the same for cells in a row |
| Console.OneCellOut | drivers/char/tty/console.c:300-308 | and for deleting them |
| Console.Console.constructor | drivers/char/tty/console.c:470-475 | the window starts at the start of video memory, cursor and addresses agree |
| Console.Console.GotoXY | drivers/char/tty/console.c:84-91 | positions off the screen are ignored; the address follows the cursor |
| Console.Console.ScrUp | drivers/char/tty/console.c:93-154 | by whichever way and at whatever origin, the region of the shown grid scrolls up |
| Console.Console.ScrDown | drivers/char/tty/console.c:156-188 | the region scrolls down |
| Console.Console.InsertChar | drivers/char/tty/console.c:190-202 | one blank cell opens in the cursor's row |
| Console.Console.DeleteChar | drivers/char/tty/console.c:217-230 | the cell under the cursor goes |
| Console.Console.CsiInsertLines | drivers/char/tty/console.c:204-215 | the given number of blank rows open at the cursor's row, whatever the scroll region |
| Console.Console.CsiDeleteLines | drivers/char/tty/console.c:232-243 | rows close up, also when that moves the origin |
| Console.Console.CsiEraseDisplay | drivers/char/tty/console.c:320-347 | exactly the part of the screen that `ControlStreams.DisplayErased` describes is blank, in video memory |
| Console.Console.CsiEraseLine | drivers/char/tty/console.c:349-378 | exactly the named part of the row is blank |
| Console.Console.Command | drivers/char/tty/console.c:564-640 | a final character does what the terminal does, on memory and cursor address |
| Console.Console.ShowStream | drivers/char/tty/console.c:484-644 | for any byte stream, answers to ESC Z apart: video memory seen through the origin shows the terminal's screen, cursor, address and window agree, the cursor and the scroll region stay on the screen, no store leaves video memory |
| Console.SameOnEveryAdapter | drivers/char/tty/console.c:93-154 | two consoles that show the same screen go on doing so, with or without the scrolling hardware |
| CharQueue.Queue.PutCh | include/kernel/tty.h:25-26 | one slot written and the head moved on, without a look at the room |
| CharQueue.Queue.GetCh | include/kernel/tty.h:23-24 | the slot at the tail and the tail moved on, without a look at what is held |
| CharQueue.Queue.Room | include/kernel/tty.h:18-22 | the free count and what is held make 1023; empty and full are exactly that |
| CharQueue.Queue.Dec | include/kernel/tty.h:17 | the head moved back |
| CharQueue.PutAllHeld | include/kernel/tty.h:25-26 | puts are first in, first out, except that one into a full ring empties it |
| CharQueue.QueuedFits | include/kernel/tty.h:16-26 | what fits is appended |
| CharQueue.QueuedLoses | include/kernel/tty.h:16-26 | what does not fit loses 1024 characters |
| LineEditor.KillDropsLine | drivers/char/tty/tty_io.c:98-112 | the kill loop removes exactly the text after the last line end, sending its rubouts last character first |
| LineEditor.EditIsType | drivers/char/tty/tty_io.c:85-162 | one character does to the queue what it does to the simple editor's finished text and current line; the count of line ends stays exact |
| LineEditor.CookIsTypeAll | drivers/char/tty/tty_io.c:81-164 | over any input: a prefix is taken, the queue holds what the simple editor holds after typing it, the count is exact, the rest is left only for want of room |
| LineEditor.FinishedTextStays | drivers/char/tty/tty_io.c:100-117 | erase and kill never cross a newline or end-of-file mark |
| LineEditor.KillTakesBack | drivers/char/tty/tty_io.c:98-126 | erase undoes the last plain key, kill undoes a whole line of them |
| LineEditor.RubsMatchEcho | drivers/char/tty/tty_io.c:118-158 | as many rubouts are sent as the echo took cells, if and only if control characters are echoed with a caret or the character is none |
| KeyMeanings.ArrivesAsOne | drivers/char/tty/tty_io.c:86-96 | a key comes as one character, by number and flag: Enter as 10 or 13, a line feed as 13 or 10, a capital letter folded or not, any other as itself; it does not come at all exactly for an Enter that is not translated and to be ignored |
| KeyMeanings.Dropped | drivers/char/tty/tty_io.c:90-91 | an Enter to be ignored is taken off the keyboard queue and does nothing |
| KeyMeanings.Queued | drivers/char/tty/tty_io.c:146-161 | a character without a special meaning is queued, counted if 10 or end of file, and echoed as itself, with a caret, or as line feed and return |
| KeyMeanings.LastErased | drivers/char/tty/tty_io.c:113-126 | the erase key takes back the last character of the line with one or two rubouts, and nothing at the start of a line |
| KeyMeanings.LineKilled | drivers/char/tty/tty_io.c:98-112 | the kill key takes back exactly what stands behind the last line end |
| KeyMeanings.NotQueued | drivers/char/tty/tty_io.c:127-145 | stop, start and signal keys only set or clear the stop flag |
| KeyMeanings.EnterEndsLine | drivers/char/tty/tty_io.c:85-162 | with Enter translated, a text and Enter leave the text and 10 on the reader's queue and one line more counted; text, line feed and return have been sent if there is echo |
| KeyMeanings.EnterFinishes | drivers/char/tty/tty_io.c:85-162 | on the simple editor: the line is finished and the next one empty |
| OutputText.PiecesJoin | drivers/char/tty/tty_io.c:171-207 | text written in pieces comes out like text written at once |
| OutputText.StrippedGivesBack | drivers/char/tty/tty_io.c:185-200 | with the console's settings the text can be read back from what came out |
| OutputText.UnchangedIff | drivers/char/tty/tty_io.c:185-197 | text comes out as it went in exactly under these settings |
| OutputText.CharacterOut | drivers/char/tty/tty_io.c:184-200 | what comes out for each character under each setting, by number |
| TtyRun.ConWriteGrows | drivers/char/tty/console.c:484-669 | a call of the console, with every call nested in it, takes nothing back, the screen is what it has taken shows, and it takes at least what was queued |
| Replies.CopyStill | drivers/char/tty/tty_io.c:81-164 | if copying the keyboard queue has sent and shown nothing, every key was a quiet one, and the line is the editor's |
| Replies.TakeAllStill | drivers/char/tty/console.c:484-669 | if the console has shown just its queue, every answer it gave was quiet |
| Replies.TakeAllCalm | drivers/char/tty/console.c:484-669 | and if all are quiet it shows its queue in order and empties it |
| TextWrites.ShowsQueueIff | drivers/char/tty/console.c:484-669 | the console shows exactly its queue if and only if no answer to ESC Z disturbs it |
| TextWrites.CalmSplit | drivers/char/tty/tty_io.c:171-207 | where one call of the console ends and the next begins, a stream splits: it is undisturbed if and only if the part shown by the call and the rest are, and what the call does depends not on what follows |
| TextWrites.WritesTextIff | drivers/char/tty/tty_io.c:69-207 | a write returns with exactly the translation of its text shown if and only if the write queue is not full at its start and no answer disturbs the stream; it then never sleeps, and from a full queue it never returns |
| EchoRuns.NoEchoIsCalm | drivers/char/tty/tty_io.c:140-158 | without echo no answer disturbs any text |
| EchoRuns.UsualIff | drivers/char/tty/tty_io.c:140-158 | with echo and carets, and room for a reply, a text is undisturbed if and only if no character of it completes ESC Z |
| EchoRuns.EchoFitsIff | drivers/char/tty/tty_io.c:140-158 | the echo of a key is shown behind what was queued if and only if it fits there; one character too many loses a whole ring of output |
| EchoRuns.TwoAreEnough | drivers/char/tty/tty_io.c:81-164 | two free slots are always enough |
| EchoRuns.CopyEchoes | drivers/char/tty/tty_io.c:81-164 | when the first echo fits and nothing shown completes ESC Z, the echo too is what the editor makes of the keys taken, in order behind what was queued |
| InputRuns.CopyIsCook | drivers/char/tty/tty_io.c:81-164 | at any room on the write queue: if nothing the console showed meanwhile completes ESC Z, the reader's queue, the count, the stop flag and what is left on the keyboard queue are the editor's |
| InputRuns.LineReachesReader | drivers/char/tty/tty_io.c:81-164 | so a line typed and Enter, waiting on the keyboard queue, are behind the reader's queue after copy_to_cooked, ended by 10, with one line more counted |
| InputRuns.AnswerReachesReader | drivers/char/tty/console.c:659-670 | and the answer to ESC Z reaches the reader as ESC [ ? 1 ; 2 c |
| EscapeZ.WriteGoesWrong | drivers/char/tty/console.c:484-669 | with the console's own settings the write of ESC Z x shows the echo of the answer behind the x and a stale character, leaves the queue as good as full, and no write ever returns after it |
| Tty.Driver.ConWrite | drivers/char/tty/console.c:484-492 | the loop on the rings and in video memory, with the count taken before it, is the function |
| Tty.Driver.TakeOne | drivers/char/tty/console.c:541-543 | one character, with the reply it may ask for |
| Tty.Driver.Respond | drivers/char/tty/console.c:659-669 | the reply goes on the keyboard queue, which is copied at once |
| Tty.Driver.Echoed | drivers/char/tty/tty_io.c:140-158 | the echo or the rubouts of a character, and the console called for them |
| Tty.Driver.KillLine | drivers/char/tty/tty_io.c:100-110 | the kill loop on the rings |
| Tty.Driver.Meaning | drivers/char/tty/tty_io.c:86-139 | which character the key comes as under the input flags, by number, and whether that is an editing, flow control or signal character, or itself |
| Tty.Driver.OnKey | drivers/char/tty/tty_io.c:86-161 | one key on the rings, echo included |
| Tty.Driver.CopyToCooked | drivers/char/tty/tty_io.c:81-164 | the loop over the keyboard queue, at any room on the write queue |
| Tty.Driver.FillQueue | drivers/char/tty/tty_io.c:183-201 | the queue is filled with the first part of the translation, also between the two characters of one line end |
| Tty.Driver.TtyWrite | drivers/char/tty/tty_io.c:171-207 | the write loop; with a queue not full and an undisturbed stream it returns the full length with exactly the queue and the translation shown and the flag clear |
| EchoOnScreen.EchoUndone | drivers/char/tty/tty_io.c:113-126 | on the screen the rubouts for a character take away its echo |
| EchoOnScreen.LineWritten | drivers/char/tty/tty_io.c:183-202 | a line written with the console's settings stands in its row and the cursor goes to the start of the next, scrolling at the end of the region |
| EchoOnScreen.KillUndoesEcho | drivers/char/tty/tty_io.c:98-112 | a line typed and killed leaves screen and cursor as they were |
| TaskTable.OneRechargeOrNever | kernel/schedule.c:70-86 | recharging finds a task after at most one round, or never; it does exactly if a running task has time left or a priority |
| TaskTable.SleeperGains | kernel/schedule.c:82-85 | after any number of recharges a task lacks exactly what it lacked to twice its priority, halved as often and rounded up |
| TaskTable.FullSlice | kernel/schedule.c:90-105 | a task in user mode keeps the processor for exactly as many ticks as its counter says, nothing else changing, and the scheduler chooses at the last |
| TaskTable.StepKeeps | kernel/schedule.c:65-105 | every event keeps counters within 0 to 2*priority-1 |
| TaskTable.PathKeeps | kernel/schedule.c:65-105 | so does every run |
| TaskTable.RankStep | kernel/schedule.c:65-105 | while a runnable task waits its rank never grows, and every user-mode tick lowers it |
| TaskTable.NoStarvation | kernel/schedule.c:65-105 | through ticks, sleeps and wake-ups a runnable task waits no more user-mode ticks than its rank |
| TaskTable.WaitWithTimeLeft | kernel/schedule.c:90-105 | with time left it waits no longer than the time the others have left, one tick more only if the current task has none |
| Scheduler.Scheduler.Scan | kernel/schedule.c:71-80 | the last running task of greatest counter, if that is positive |
| Scheduler.Scheduler.Schedule | kernel/schedule.c:65-88 | ends after at most one recharge with a running task of greatest counter, which is positive, the last in the table among equals |
| Scheduler.Scheduler.DoTimer | kernel/schedule.c:90-105 | one tick of the run relation |
| Scheduler.Scheduler.Sleep | kernel/schedule.c:118-121 | one sleep of the run relation |
| Scheduler.TriedFewer | kernel/fork.c:17-20 | process numbers tried and all in use are no more than the table has slots |
| Scheduler.Scheduler.FindEmptyProcess | kernel/fork.c:13-26 | ends, with the next positive process number no task has, every number passed over being in use, and the first free slot, or -EAGAIN when there is none |
| Scheduler.Scheduler.Fork | kernel/fork.c:57-119 | -EAGAIN exactly if there is no slot, no frame or no memory for the copy, and then the table is as before; otherwise the first free slot is filled, with the parent's priority as time and a new process number |
| NumberText.DigitsReadBack | kernel/vsprintf.c:53-54 | the digits of a number in any base read back to it |
| NumberText.FewDigits | kernel/vsprintf.c:31-54 | a number below 2 to the n has at most n digits in any base |
| NumberText.TextLength | kernel/vsprintf.c:45-79 | the text is as long as the larger of the width and sign, prefix and the larger of precision and digits |
| NumberText.TextReadsBack | kernel/vsprintf.c:28-80 | in every base from 2 to 36, with every flag, width and precision, the text reads back as the 32-bit number, the most negative one included |
| NumberText.PlainReadsBack | kernel/vsprintf.c:14-80 | in base 10 without flags the digits alone read back as the number |
| NumberText.Composed | kernel/vsprintf.c:32-76 | without a field width: the sign due, the prefix of the alternate form, and at least as many digits as the precision, with letters of the case asked for only |
| NumberText.Padded | kernel/vsprintf.c:56-78 | a field width adds exactly the missing blanks behind or in front, or zeros between prefix and digits |
| NumberPrinter.Divide | kernel/vsprintf.c:49-54 | the scratch array holds the digits in reverse and never more than 32 of its 36 cells are used |
| NumberPrinter.Emit | kernel/vsprintf.c:57-79 | padding, sign, prefix, zeros and digits come out in this order and number |
| NumberPrinter.Number | kernel/vsprintf.c:28-80 | the text specified, for every base in range; none for any other base |
| NumberPrinter.SkipAtoi | kernel/vsprintf.c:14-21 | the value of all digits at that place, modulo the word size, and the first character after them |

## Left out

- PageManager.Manager.GetFreePage: without a free frame it returns 0, as the code means to and as all its callers test; the code's own test of an unsigned value for being negative never succeeds, and it returns a frame below 1 MB (`PageSteps.FullFrameIsLow`), so that forks, loads and shares without memory go on with it too.
- PageManager.Manager.UnWpPage: needs a free frame when a copy has to be made, and so does PageManager.Manager.UserStore; what the tasks see without one is `PageSteps.MisplacedIsSeenIff`, not what becomes of the kernel.
- PageManager.Manager.TryToShare: needs a free frame when the page table is missing; without one the code goes on with an absent table.
- PageManager.Manager.FreePage: a counted frame must be one the kernel holds; giving up a frame that page tables still name would leave them dangling.
- PageManager.Manager.MmInit: the boot directory must map only frames below 1 MB and none of its own page tables; the kernel's identity map of all memory names free frames and its page tables too, so exact counts do not hold with it.
- BufferCache.Cache.Getblk: says nothing of disk contents; dirty buffers are not written back in the code.
- CacheRuns.HitGetsThroughIff: other tasks take a reference only to a buffer with fewer than 255, and drop none that is not theirs; whether some task ever unlocks a buffer is theirs to decide.
- BufferCache.Cache.BufferInit: needs room for at least two buffers.
- BlockRequests.Requests.LlRwBlock: starting the transfer on an empty queue is the disk driver's work and is not modelled; waits for a buffer or a slot end the call, and a task woken for a slot goes on with `Submit`.
- BlockRequests.Requests.BadRwIntr: the flags of the controller are `HardDisk.Controller.BadRwIntr`.
- HardDisk.Controller.DoHdRequest: the commands themselves, their panics and interrupts nobody waits for; after the last error of the last request the code reads through a null pointer, and what it finds there is an input.
- ZoneStore.Device.Truncate: nobody else holds the cached buffer of one of the tree's blocks; `ZoneStore.Device.FreeBlock` leaves such a zone in use, and the code also leaves behind the reference it took.
- ZoneStore.Device.CreateBlock: the block store is ideal, reading an indirect block always succeeds.
- Console.Console.constructor: the adapter's name written into the top row, the interrupt set-up, a start position off the screen and odd numbers of columns (see `VideoMemory.ScrollIsExactIff`) are left out.
- Console.Console.ShowStream: answers to ESC Z are the terminal driver's here (`Tty.Driver.Respond`); cursor ports and the bell are hardware.
- Tty.Driver.TtyWrite: one writer at a time, and no keyboard interrupt between its steps; the flag for a sent carriage return is static, and another writer could clear it. Channels 1 and 2, for which the kernel has no terminal, are excluded. `fuel` bounds the nesting of answers and echoes and the loops over keys and rubouts, and a call that needs more is not described; 2048 is enough for every undisturbed write.
- Tty.Driver.CopyToCooked: signals are not sent, as in the code; the letter tables are taken as ASCII, and negative characters, which index before the table, as no letters.
- EchoRuns.CopyEchoes: without room for the first echo it says nothing of what is shown; the loss is that of `EchoRuns.EchoFitsIff`, and input is edited all the same (`InputRuns.CopyIsCook`). With ESC Z in what is shown see `EscapeZ.WriteGoesWrong`.
- Scheduler.Scheduler.Schedule: some task must be running and every priority positive, or the loop may never end (`TaskTable.OneRechargeOrNever` says exactly when); the switch itself is hardware.
- Scheduler.Scheduler.Sleep: another task must be running, for the same reason.
- Scheduler.Scheduler.Fork: whether memory can be copied is an input (it is `PageManager.Manager.CopyProcess`); file and inode counts are left out.
- TaskTable.NoStarvation: the set of tasks is fixed during the run.
- NumberPrinter.SkipAtoi: gives the 32-bit word; a value beyond an int is undefined in C.
- The rest of the formatted printer: `%s`, `%c` and flag parsing. `number` prints "0" for zero with precision zero and keeps the zero flag when a precision is given, unlike standard C.
- Sleep queues: a sleeper arriving between a wake-up and the woken task's restore of the queue head can be overwritten, so no claim about lost wake-ups is made; waits are atomic here.
- Inodes, superblocks, path lookup, permissions, file descriptors, system calls, the keyboard map and the kernel heap: they would add easy members only.
- Port input and output, segment and interrupt tables, context switching, assembly files and the boot loader: hardware effects.
