# A small distributed operating system, verified

The repository is an operating system of four processes written in C: a kernel, a memory server, a file
system and a CPU. This project models the state each of them changes and proves what the parts promise each
other.

* **Memory** (`PageTable`, `FrameStore`, `PageCache`, `MemoryServer`, `MemoryRuns`). The inverted page table
  is decoded from the first bytes of the managed memory itself; a write-through cache ordered by last use
  sits on top. The main result is a refinement: over any run of requests the server answers as a flat map from
  (pid, page) to bytes would (`MemoryRuns.Serve`).
* **Programs in memory** (`CodeTransfer`). The kernel's page loop stores a program, the CPU's fetch loop
  reassembles any part of it.
* **The kernel's heap** (`HeapBlocks`, `HeapTable`, `KernelHeap`, `HeapAddresses`, `HeapHoldings`, `HeapHeaders`,
  `HeapBytes`, `HeapNumbers`, `HeapRuns`). Pages stay exactly filled with blocks through allocation, release and
  compaction, exactly unless a block of another process is cut; a release undoes its allocation; whatever is handed out
  and not freed is apart by address, run by run, while blocks come from a process's own pages; the headers stand in the
  bytes of the memory server, where a dump reads them back; kernel and memory server number heap pages alike.
* **Files** (`Bitmap`, `FileContent`, `FileSystem`). Block lists and the bitmap agree on who owns a block;
  what is written is read back.
* **Scheduler and semaphores** (`Scheduling`, `SchedulingCensus`, `SchedulingSemaphores`, `SchedulingCpus`,
  `SchedulingQuantum`, `SchedulingExecution`, `SchedulingOrder`, `SchedulingRuns`, `SchedulingService`,
  `SchedulingSlices`, `SchedulingLaws`, `ProcessScheduler`). One transition for each message; the laws are proved for all runs, and the class `Kernel` carries
  the transitions out in place.
* **PCBs** (`PcbWire`, `CallStack`). Field-by-field transfer between kernel and CPU, and the primitives that call,
  return and define variables.

`Rounding` and `Bytes` hold the arithmetic and the byte stores all of them use. `dafny verify dfyconfig.toml`
verifies everything.

## Where the code does not keep what it promises

Each of these is stated with the exact condition under which the promise holds, and where it helps with a run
or an input that breaks it.

* A page that is released on its own stays in the cache, and a gap remains in the numbering
  (`MemoryServer.FreePage`, `ReadReleased`). A run ends with a release that is not safe (`MemoryRuns.Serve`).
* A process that is started twice owns its pages twice, and a refused start takes its pages away behind the cache's back
  (`MemoryServer.CreateInitialPages`).
* Ending a process gives no cache slots back, so a later eviction can meet an empty cache
  (`PageCache.MakeRoom`, `MemoryRuns.LastSlotLost`). The null access is the outcome `Fault`.
* A page given up because its process has used up the quota costs a slot if one is free, though the list stays as long
  (`PageCache.Insert`).
* Emptying the cache leaves the per-process counters, which can bring a read down later (`PageCache.Flush`,
  `MemoryServer.ReadAfterFlush`).
* The kernel looks for a free heap block by page number, not by process (`HeapTable.SearchByNumber`). A block of another
  process may be taken, and if it is cut that process's page is left with a hole (`HeapTable.ServedWell`). Even if nothing
  is cut the requesting process is told an address in its own page at the foreign block's offset: that can be the address of
  an allocation it still holds (`HeapAddresses.HandedOut`, `HeapHoldings.AddressGivenAgain`, `SameAddressTwice`), and the
  header written there can hit one of its payloads (`HeapAddresses.HeadersBeside`).
* The last header of a heap page is always written as free, and a block taken whole keeps the requested size in its header, so
  the headers in memory can contradict the kernel's table (`HeapHeaders.AllocDescribes`, `HeapBytes.RequestStands`).
* For a new heap page the CPU is told nothing at all if memory takes only one of the two headers (`HeapTable.NewAnswer`).
* A block is free although the caller is told otherwise when its header could not be written
  (`KernelHeap.FreeBlock`, `HeapHeaders.FreeUntold`). A negative request can make sizes negative (`HeapBlocks.GrantedSized`, `HeapTable.ServedWell`).
* Kernel and memory number heap pages differently once one is released out of order (`HeapNumbers.SameNumber`,
  `HeapRuns.Free`).
* Creating a file trusts a count that only writes renew (`FileSystem.Create`); deleting frees the blocks even if the
  metadata file cannot be removed (`FileSystem.Delete`); NUL bytes cut what is written and read (`FileContent.RoundTrip`).
* A new process that memory refuses is dropped from every queue (`SchedulingCensus.StepPlaced`).
* A process ended for an oversized request is counted out before its CPU aborts it, so the level of multiprogramming can be
  exceeded (`SchedulingRuns.StepBounded`, `LevelExceeded`).
* A process killed at the end of a sentence leaves its CPU listed as idle while it runs the next process
  (`SchedulingCpus.KillConsistentIff`). In such a state the round-robin scan may look at another CPU; the model does the same.
  If no CPU is listed as busy the scan leaves its pointer unset and the kernel uses it all the same: the state is `faulted`,
  and a run ends there (`SchedulingRuns.StepFaults`, `RunFaultsLate`, `UnsetPointerUsed`).
* A CPU that a waiting process leaves keeps its counter, so the next process gets what is left of that quantum
  (`SchedulingSlices.WaitStarts`, `SwitchedInTurn`).
* An abort with processes ready but none new leaves its CPU idle beside them, and so does a CPU that connects until its
  handshake (`SchedulingService.StepServes`). Room made by an oversized request, by a kill or an abort from the console, or by a
  new process that memory refuses is not given to the next new one (`SchedulingService.StepFills`).
* A variable may straddle two pages unless the page size is a multiple of four (`CallStack.StraddlesIff`).

Two repairs are modelled in place of the code: the kill flag set from the kernel console holds the process number,
where `planificacion.c:392` stores the address of a parameter, and arguments travel by value, where
`structs.c:90` and `structs.c:206` transfer the address of a local pointer.

## Model

| member | source | states |
|---|---|---|
| `PageTable.ReservedCoverTable` | Segundo tp/memoria/src/memoria.c:550-561 | the rounded-up number of reserved frames covers the page table, and one fewer would not |
| `PageTable.UserFrameAboveTable` | Segundo tp/memoria/src/memoria.c:556-561 | every unreserved frame begins after the last byte of the table |
| `PageTable.UserStoreKeepsTable` | Segundo tp/memoria/src/gestionDeMemoria.c:32-60 | a store inside an unreserved frame leaves the page table, which lives in the same memory, as it was |
| `PageTable.UserStoreOtherFrame` | Segundo tp/memoria/src/gestionDeMemoria.c:32-60 | such a store changes no byte of any other frame |
| `PageTable.StartSpreads` | Segundo tp/memoria/src/estructurasAdministrativas.c:4-12 | the probe for a page starts next to that for the page before, an eighteenth of the memory behind that for the process before, and never past the last frame |
| `PageTable.ProbeReaches` | Segundo tp/memoria/src/estructurasAdministrativas.c:35-61 | the circular probe reaches every frame within one turn |
| `PageTable.ProbeInjective` | Segundo tp/memoria/src/estructurasAdministrativas.c:35-61 | no frame is visited twice in a turn |
| `PageTable.ProbeExhausted` | Segundo tp/memoria/src/gestionDeMemoria.c:143-160 | a turn without a match means that no frame at all matches |
| `PageTable.Census` | Segundo tp/memoria/src/estructurasAdministrativas.c:4-63 | held pages, empty and reserved frames add up to all frames while no page is held twice |
| `PageTable.Claim` | Segundo tp/memoria/src/estructurasAdministrativas.c:35-52 | claiming an empty frame adds one page to the table and keeps the numbering without gaps |
| `PageTable.Remove` | Segundo tp/memoria/src/estructurasAdministrativas.c:65-78 | removing a process removes its pages and no other |
| `PageTable.RollBackStep` | Segundo tp/memoria/src/gestionDeMemoria.c:256-262 | undoing an assignment gives back one of the pages just claimed, and nobody else's |
| `PageTable.AfterClaims` | Segundo tp/memoria/src/gestionDeMemoria.c:250-284 | claimed frames extend the flat memory by just the new pages |
| `PageTable.AfterRefusal` | Segundo tp/memoria/src/gestionDeMemoria.c:250-284 | after a refused assignment every page has the owner and bytes it had |
| `FrameStore.FrameStore.constructor` | Segundo tp/memoria/src/memoria.c:527-561 | a new memory has an empty, gapless table behind the reserved frames |
| `FrameStore.FrameStore.FindFrame` | Segundo tp/memoria/src/gestionDeMemoria.c:143-160 | a frame is found if and only if the page is mapped, and it is the first along the probe |
| `FrameStore.FrameStore.WriteTable` | Segundo tp/memoria/src/estructurasAdministrativas.c:25-63 | an entry is written if and only if some frame is wanted; all page contents stay |
| `FrameStore.FrameStore.RemoveProcess` | Segundo tp/memoria/src/estructurasAdministrativas.c:65-78 | every frame of the process is emptied and no other |
| `FrameStore.FrameStore.CountPages` | Segundo tp/memoria/src/estructurasAdministrativas.c:15-23 | the count is the number of frames of the process |
| `FrameStore.FrameStore.AssignHeapPages` | Segundo tp/memoria/src/gestionDeMemoria.c:250-266 | succeeds if and only if enough frames are empty; on failure the owners are restored |
| `FrameStore.FrameStore.CreateInitialPages` | Segundo tp/memoria/src/gestionDeMemoria.c:268-284 | the same for the initial pages; of a new process the last ones are marked as stack, the others as code |
| `FrameStore.InitialKinds` | Segundo tp/memoria/src/gestionDeMemoria.c:268-284 | the last pages, as many as the stack has, are the stack; the others are code |
| `FrameStore.HeapKinds` | Segundo tp/memoria/src/gestionDeMemoria.c:250-266 | every frame claimed for the heap is marked so, and a frame with an owner keeps its mark |
| `PageCache.UseKeepsOrder` | Segundo tp/memoria/src/gestionDeMemoria.c:69-81 | putting the used page first keeps the list ordered by last use, without repetitions |
| `PageCache.VictimIsLeastRecent` | Segundo tp/memoria/src/gestionDeMemoria.c:162-219 | the page given up is the least recently used of its process, or of all processes |
| `PageCache.RoomKeepsAccounts` | Segundo tp/memoria/src/gestionDeMemoria.c:162-219 | counters never fall below the truth nor exceed the quota, and exact counters stay exact |
| `PageCache.RoomKeepsOrder` | Segundo tp/memoria/src/gestionDeMemoria.c:162-219 | eviction keeps the order of last use |
| `PageCache.FaultOnlyCold` | Segundo tp/memoria/src/gestionDeMemoria.c:194-204 | with exact counters a global eviction meets an empty cache only if no slot is free and nothing is cached |
| `PageCache.OthersAccounts` | Segundo tp/memoria/src/gestionDeMemoria.c:93-107 | forgetting a process keeps the accounts of all others |
| `PageCache.PageCache.Touch` | Segundo tp/memoria/src/gestionDeMemoria.c:69-81 | a hit moves the page to the front and changes nothing else |
| `PageCache.PageCache.EvictOwn` | Segundo tp/memoria/src/gestionDeMemoria.c:206-219 | drops the least recently used page of a process that fills its quota |
| `PageCache.PageCache.EvictAny` | Segundo tp/memoria/src/gestionDeMemoria.c:194-204 | drops the last page of the list; dereferences nothing only if the list is empty |
| `PageCache.PageCache.MakeRoom` | Segundo tp/memoria/src/gestionDeMemoria.c:162-192 | which entries, counters and slots remain when room has been made, and exactly when it cannot be made |
| `PageCache.PageCache.Insert` | Segundo tp/memoria/src/gestionDeMemoria.c:109-119 | a page just read becomes the most recent one, within capacity and quota; nothing is given up while a slot is free and the quota not used up, and a slot is lost for good exactly if the quota is used up while one is free |
| `PageCache.PageCache.Purge` | Segundo tp/memoria/src/gestionDeMemoria.c:93-107 | all pages and the counter of one process go, no slot comes back |
| `PageCache.PageCache.Flush` | Segundo tp/memoria/src/gestionDeMemoria.c:83-91 | the list is emptied; the counters stay exact if and only if it was empty before |
| `MemoryServer.MemoryServer.Read` | Segundo tp/memoria/src/gestionDeMemoria.c:5-30 | a read through the cache returns what the flat memory holds, or faults exactly when no room can be made |
| `MemoryServer.MemoryServer.Write` | Segundo tp/memoria/src/gestionDeMemoria.c:32-67 | of an integer the first four bytes stand at the offset as they came, of characters all, of metadata none; no other byte of any page changes, and every cached copy stays equal to its frame |
| `MemoryServer.MemoryServer.WriteThenRead` | Segundo tp/memoria/src/gestionDeMemoria.c:32-60 | an integer that is stored is read back byte by byte |
| `MemoryServer.FlatWriteStores` | Segundo tp/memoria/src/gestionDeMemoria.c:32-67 | what a write does to the flat memory, in bytes, for each kind of data |
| `MemoryServer.MemoryServer.AssignHeapPages` | Segundo tp/memoria/src/gestionDeMemoria.c:250-266 | the next page numbers of the process, or nothing at all |
| `MemoryServer.MemoryServer.CreateInitialPages` | Segundo tp/memoria/src/gestionDeMemoria.c:268-284 | the pages from 0 on, or a refusal that takes all pages of the process; for a process that owns pages or has some cached, exactly when that leaves the server inconsistent |
| `MemoryServer.MemoryServer.FinishProcess` | Segundo tp/memoria/src/gestionDeMemoria.c:300-304 | the process is gone from memory and cache, nobody else is touched |
| `MemoryServer.MemoryServer.FreePage` | Segundo tp/memoria/src/gestionDeMemoria.c:306-314 | the table stays gapless if and only if the page was not mapped or the last one; the server stays consistent if and only if, besides, it was not cached |
| `MemoryServer.MemoryServer.ReadReleased` | Segundo tp/memoria/src/gestionDeMemoria.c:306-314 | counterexample: a released page that was cached is still served |
| `MemoryServer.MemoryServer.ReadAfterExit` | Segundo tp/memoria/src/gestionDeMemoria.c:93-107 | slots lost with a finished process bring the next read down |
| `MemoryServer.MemoryServer.Flush` | Segundo tp/memoria/src/memoria.c:128-135 | a flush leaves the flat memory alone, but the counters are right afterwards if and only if nothing was cached |
| `MemoryServer.MemoryServer.ReadAfterFlush` | Segundo tp/memoria/src/gestionDeMemoria.c:83-91 | counterexample: after a flush the next read of a process whose quota was used up brings the server down |
| `MemoryServer.StaleExactly` | Segundo tp/memoria/src/gestionDeMemoria.c:306-314 | dropping a page behind the cache keeps it coherent if and only if that page is not cached |
| `MemoryRuns.Dispatch` | Segundo tp/memoria/src/memoria.c:244-387 | exactly which requests leave the server without a flat memory behind it; all others are answered as that memory would |
| `MemoryRuns.Serve` | Segundo tp/memoria/src/memoria.c:244-387 | over any run of requests, page releases and flushes among them, every reply is that of a flat map from (pid, page) to bytes, up to an unsafe request or a read without room |
| `MemoryRuns.LastSlotLost` | Segundo tp/memoria/src/gestionDeMemoria.c:93-107 | counterexample: a run of a new server in which a process ends with the last cache slot, and the next read brings the server down |
| `Rounding.CeilDivCovers` | Segundo tp/kernel/src/conexionesKernelMemoria.c:80-92 | the rounded-up quotient is enough blocks, and not one more than needed |
| `CodeTransfer.SendCode` | Segundo tp/kernel/src/conexionesKernelMemoria.c:132-221 | after the page loop memory holds the program, byte for byte, no other process noticed, and exact cache counters stay exact |
| `CodeTransfer.LoadProgram` | Segundo tp/kernel/src/conexionesKernelMemoria.c:69-78 | a program asks for the fewest pages that hold its code and the stack behind them; it is admitted if and only if that many are empty, owns exactly these, the last ones marked as stack and free of code, and its code is in place |
| `CodeTransfer.FewestPages` | Segundo tp/kernel/src/conexionesKernelMemoria.c:69-92 | the pages besides the stack hold the code, with one fewer they would not, and no page behind them holds any of it |
| `CodeTransfer.PieceOfCode` | Segundo tp/cpu/src/pedidosMemoria.c:20-60 | a request inside one page reads just that part of the program |
| `CodeTransfer.NextPiece` | Segundo tp/cpu/src/pedidosMemoria.c:20-60 | each request lies inside one page and is followed by the start of the next page |
| `CodeTransfer.FetchInstruction` | Segundo tp/cpu/src/pedidosMemoria.c:3-88 | the requests tile the instruction exactly and reassemble it, for every page size, start and length |
| `CodeTransfer.LoadAndFetch` | Segundo tp/cpu/src/pedidosMemoria.c:3-88 | what the kernel stored page by page the CPU fetches back, any part of it, without a server fault if the cache was sound |
| `HeapBlocks.TiledTotal` | Segundo tp/kernel/src/manejo_heap.c:550-561 | headers and payloads of a page add up to its size |
| `HeapBlocks.Apart` | Segundo tp/kernel/src/manejo_heap.c:550-561 | payloads overlap neither each other nor a header |
| `HeapBlocks.GrantedTiled` | Segundo tp/kernel/src/manejo_heap.c:172-197 | an allocation keeps the page filled and the special block last |
| `HeapBlocks.GrantedSized` | Segundo tp/kernel/src/manejo_heap.c:172-197 | sizes stay legal if and only if the request is not negative or takes a whole block |
| `HeapBlocks.GrantedLive` | Segundo tp/kernel/src/manejo_heap.c:172-197 | exactly one allocation more, of the size asked for or at most 5 bytes more |
| `HeapBlocks.GrantedNoAdjacentFree` | Segundo tp/kernel/src/manejo_heap.c:172-197 | allocation leaves no two adjacent free blocks where there were none |
| `HeapBlocks.FreedLive` | Segundo tp/kernel/src/manejo_heap.c:696-740 | freeing drops that allocation and no other |
| `HeapBlocks.MergeAnywhere` | Segundo tp/kernel/src/manejo_heap.c:32-94 | merging any adjacent free pair does not change the final list and shortens the present one |
| `HeapBlocks.MergedTimesCloser` | Segundo tp/kernel/src/manejo_heap.c:32-127 | compaction that is stopped after any number of merges is that many closer to where it ends; no two free blocks are adjacent if and only if all merges were made |
| `HeapBlocks.SettledPartlyWell` | Segundo tp/kernel/src/manejo_heap.c:32-127 | the page stays filled, with the same allocations, wherever compaction is stopped |
| `HeapBlocks.CoalesceTiled` | Segundo tp/kernel/src/manejo_heap.c:32-127 | compaction keeps the page filled |
| `HeapBlocks.CoalesceLive` | Segundo tp/kernel/src/manejo_heap.c:32-127 | compaction keeps every allocation where it is |
| `HeapBlocks.CoalesceNoAdjacentFree` | Segundo tp/kernel/src/manejo_heap.c:32-127 | after compaction no two free blocks are adjacent |
| `HeapBlocks.CollapsesWhenFree` | Segundo tp/kernel/src/manejo_heap.c:96-127 | a page collapses to one block if and only if nothing in it is allocated |
| `HeapBlocks.OfferedWhenEmpty` | Segundo tp/kernel/src/manejo_heap.c:96-127 | so the page is offered back to memory exactly when it holds no allocation, and its one block is the special one again |
| `HeapBlocks.FreeUndoesGrant` | Segundo tp/kernel/src/manejo_heap.c:696-803 | freeing an allocation restores the geometry the page had before it |
| `HeapTable.SearchByNumber` | Segundo tp/kernel/src/manejo_heap.c:466-529 | the search by page number alone ends in the page found for the process under exactly this condition |
| `HeapTable.ForeignBlock` | Segundo tp/kernel/src/manejo_heap.c:466-529 | counterexample: a process is given a block of another one |
| `HeapTable.ServedWell` | Segundo tp/kernel/src/manejo_heap.c:151-197 | a request served from the table keeps every page filled, with legal sizes, if and only if no block of another process is cut and no negative request cuts a block, and then keeps free blocks apart |
| `HeapTable.ServedAtHome` | Segundo tp/kernel/src/manejo_heap.c:151-197 | when the search ends in the process's own page, that page alone changes, as a grant of that page by itself would change it |
| `HeapTable.ForeignCutHappens` | Segundo tp/kernel/src/manejo_heap.c:172-197 | counterexample: a well-formed table and a request that cuts a block of another process and breaks its page |
| `HeapTable.ForeignBlockStays` | Segundo tp/kernel/src/manejo_heap.c:696-740 | a block of another process, once taken, cannot be freed by the process that got it; whether that process already has something at the address it was told is `HeapAddresses.HandedOut` |
| `HeapTable.HeadersInPage` | Segundo tp/kernel/src/manejo_heap.c:199-300 | every header is written inside the page, wherever the block comes from; whether it hits a payload there is `HeapAddresses.HeadersBeside` |
| `HeapTable.NextNumberFresh` | Segundo tp/kernel/src/manejo_heap.c:670-694 | a new page number is larger than all numbers of the process, and by one than the largest |
| `HeapTable.HeadersInside` | Segundo tp/kernel/src/manejo_heap.c:209-300 | headers are written inside the page and into no payload |
| `HeapHeaders.HeadersOfBlocks` | Segundo tp/kernel/src/manejo_heap.c:209-300 | in its own page a process's request writes headers of blocks only |
| `HeapHeaders.AllocDescribes` | Segundo tp/kernel/src/manejo_heap.c:199-241 | after a request the headers in memory describe the table if and only if the block is the process's own, has the size asked for, and the last block of the page is free |
| `HeapHeaders.NewPageDescribed` | Segundo tp/kernel/src/manejo_heap.c:326-378 | the headers of a new page always describe it |
| `HeapHeaders.FreeDescribes` | Segundo tp/kernel/src/manejo_heap.c:40-76 | a release keeps the headers in step with the table, wherever its compaction stops |
| `HeapHeaders.FreeUntold` | Segundo tp/kernel/src/manejo_heap.c:745-783 | counterexample condition: if the first header is not taken the freed block is described wrongly, unless it was free already |
| `KernelHeap.KernelHeap.FindSpace` | Segundo tp/kernel/src/manejo_heap.c:586-643 | the first page of the process with room, or -1 |
| `KernelHeap.KernelHeap.TakeFirstFree` | Segundo tp/kernel/src/manejo_heap.c:466-548 | marks the first block that fits, or cuts it from the special block |
| `KernelHeap.KernelHeap.RequestBlock` | Segundo tp/kernel/src/capaMemoria.c:509-548 | turned down if and only if it cannot fit a page with two headers; served from a page of the process if and only if a free block there is large enough, to the byte; the successor table, the headers written and the reply for every answer of memory, exactly when the table stays well-formed, and exactly when the address handed out is one where the process has nothing |
| `HeapTable.RoomIff` | Segundo tp/kernel/src/manejo_heap.c:586-643 | a page of the process serves a request if and only if it has a free block of that size, or a special one larger by a header |
| `HeapTable.AnswerTells` | Segundo tp/kernel/src/manejo_heap.c:209-324 | the address is told if and only if memory took both headers, and that of the rest if a block was cut |
| `HeapTable.NewAnswerTells` | Segundo tp/kernel/src/manejo_heap.c:407-421 | for a new page the address is told if both headers were taken, a refusal if neither, and otherwise nothing |
| `KernelHeap.KernelHeap.Compact` | Segundo tp/kernel/src/manejo_heap.c:32-127 | terminates, and returns the number of merges made before memory took a header no more, with the table and the headers they leave |
| `KernelHeap.KernelHeap.FreeBlock` | Segundo tp/kernel/src/manejo_heap.c:696-803 | frees the block of the process that begins at the given address, if there is one; succeeds if and only if its header was taken, and leaves the table compacted if and only if all the others were |
| `KernelHeap.KernelHeap.GiveBack` | Segundo tp/kernel/src/manejo_heap.c:887-930 | every page of an ended process becomes a blank page of nobody, all others stay, and the table stays well-formed |
| `HeapAddresses.HandedOut` | Segundo tp/kernel/src/manejo_heap.c:466-529 | the bytes handed out, by address, meet nothing allocated to the process in any of its pages if and only if the block comes from its own page or that page has nothing allocated at the offset |
| `HeapAddresses.NewPageUnclaimed` | Segundo tp/kernel/src/manejo_heap.c:670-694 | nothing the process has lies in a new page |
| `HeapAddresses.FreshIff` | Segundo tp/kernel/src/manejo_heap.c:466-529 | the same for every address a request is answered with, from a page that is there or from a new one |
| `HeapAddresses.HeadersBeside` | Segundo tp/kernel/src/manejo_heap.c:199-300 | no header is written into a payload of the process's own page if and only if the block comes from that page, or its header and that of its rest lie beside the payloads there |
| `HeapHoldings.BackedApart` | Segundo tp/kernel/src/manejo_heap.c:466-529 | allocations that each have a block of their own behind them share no address and no byte |
| `HeapHoldings.Serve` | Segundo tp/kernel/src/manejo_heap.c:129-330 | over any run of requests, releases and ends served at home, all addresses handed out and not freed since are apart, and each is new to its process when handed out |
| `HeapHoldings.AddressGivenAgain` | Segundo tp/kernel/src/manejo_heap.c:466-529 | counterexample: no foreign block is cut and the table stays well-formed, yet a process is given the address of its own live allocation |
| `HeapHoldings.SameAddressTwice` | Segundo tp/kernel/src/manejo_heap.c:129-330 | counterexample: five calls on an empty heap give one process the same address twice without a release |
| `HeapBytes.WriteHeader` | Segundo tp/kernel/src/manejo_heap.c:57-76 | a header travels as five bytes, size and flag character, and changes those bytes of the flat memory only |
| `HeapBytes.WritesFollow` | Segundo tp/kernel/src/manejo_heap.c:199-300 | a sequence of header writes in bytes is the same sequence of headers, as long as their places do not overlap |
| `HeapBytes.RequestStands` | Segundo tp/kernel/src/manejo_heap.c:199-300 | after a request the bytes of all headers in memory are those of the table if and only if the block is the process's own, has the size asked for, and the last block of the page is free |
| `HeapBytes.NewPageStands` | Segundo tp/kernel/src/manejo_heap.c:326-400 | the header bytes of a new page are those of its blocks, whatever stood in the page |
| `HeapBytes.ReleaseStands` | Segundo tp/kernel/src/manejo_heap.c:40-76 | a release keeps the header bytes those of the table, however many merges memory takes the header of |
| `HeapBytes.PayloadStoreKeeps` | Segundo tp/memoria/src/gestionDeMemoria.c:51-59 | a store inside an allocation leaves every header of the page as it was |
| `HeapBytes.Dump` | Segundo tp/memoria/src/dumps.c:93-107 | the loop of the dump prints the headers it walks over, and where it gets lost |
| `HeapBytes.DumpsTell` | Segundo tp/memoria/src/dumps.c:93-107 | the dump of every heap page is the kernel's table if and only if all header bytes are those of the table |
| `HeapTable.FreeUndoesAlloc` | Segundo tp/kernel/src/manejo_heap.c:696-803 | the pointer of an allocation in the process's own page leads back to its block, and freeing it restores the page |
| `HeapNumbers.ScanIsNext` | Segundo tp/kernel/src/manejo_heap.c:670-694 | the kernel's scan yields one past the largest number known |
| `HeapNumbers.SameNumber` | Segundo tp/memoria/src/gestionDeMemoria.c:250-255 | kernel and memory give a new page the same number if and only if no number below it is missing |
| `HeapNumbers.GapDuplicates` | Segundo tp/memoria/src/gestionDeMemoria.c:250-255 | counterexample: with a gap memory gives out a number the process already has |
| `HeapNumbers.NumbersReleased` | Segundo tp/kernel/src/manejo_heap.c:805-870 | a release takes a number away if and only if the page is left empty and memory takes it back |
| `HeapRuns.Allocate` | Segundo tp/kernel/src/manejo_heap.c:314-326 | a new page gets the same number from the kernel and from memory, and other processes notice nothing |
| `HeapRuns.Free` | Segundo tp/kernel/src/manejo_heap.c:805-850 | after a release both sides agree if and only if the page given back, if any, was the last of its process; else the next numbers differ and memory's is taken |
| `HeapRuns.BeginProcess` | Segundo tp/kernel/src/conexionesKernelMemoria.c:69-78 | a process that memory admits starts with both sides agreeing; one that it refuses leaves no page on either side |
| `HeapRuns.EndProcess` | Segundo tp/kernel/src/manejo_heap.c:887-930 | after the end of a process neither side knows a page of it, and nobody else notices |
| `HeapRuns.Serve` | Segundo tp/kernel/src/manejo_heap.c:670-694 | over any run of starts, requests, releases and ends of processes kernel and memory agree on all heap pages, up to the first release out of order |
| `Bitmap.BitIndex` | Segundo tp/filesystem/src/logicaFileSystem.c:319-329 | the computed bit is `block % 8` from the second byte on |
| `Bitmap.FirstBlockHighest` | Segundo tp/filesystem/src/logicaFileSystem.c:274-316 | the first block of a byte is its highest bit, the last its lowest |
| `Bitmap.OrMask` | Segundo tp/filesystem/src/logicaFileSystem.c:344-363 | or-ing a mask in sets one bit, and changes the byte if and only if the bit was clear |
| `Bitmap.FreeSome` | Segundo tp/filesystem/src/logicaFileSystem.c:370-395 | the count is positive if and only if the search finds a block |
| `Bitmap.PicksWereFree` | Segundo tp/filesystem/src/logicaFileSystem.c:475-484 | successive picks are different blocks that were all free |
| `Bitmap.SetAllAt` | Segundo tp/filesystem/src/logicaFileSystem.c:399-415 | which blocks are used after a list has been marked |
| `Bitmap.Bitmap.FindFirstFree` | Segundo tp/filesystem/src/logicaFileSystem.c:274-316 | the least free block; if there is none, -1 exactly when the metadata counts as many blocks as the bitmap has |
| `Bitmap.Bitmap.MarkUsed` | Segundo tp/filesystem/src/logicaFileSystem.c:345-368 | exactly one flag changes |
| `Bitmap.Bitmap.MarkFree` | Segundo tp/filesystem/src/logicaFileSystem.c:319-342 | exactly one flag changes |
| `Bitmap.Bitmap.CountFree` | Segundo tp/filesystem/src/logicaFileSystem.c:370-395 | the number of free blocks |
| `Bitmap.Bitmap.Assign` | Segundo tp/filesystem/src/logicaFileSystem.c:475-486 | with that many blocks free, no pick fails |
| `FileContent.RoundTrip` | Segundo tp/filesystem/src/logicaFileSystem.c:78-255 | what was stored is read back if and only if it holds no NUL byte |
| `FileContent.StoreInBlock` | Segundo tp/filesystem/src/logicaFileSystem.c:207-253 | a store into a block is a store at the matching place of the file |
| `FileContent.WriteIsOneStore` | Segundo tp/filesystem/src/logicaFileSystem.c:184-255 | the block pieces of a write amount to one store at its offset |
| `FileContent.ReadIsFetched` | Segundo tp/filesystem/src/logicaFileSystem.c:78-143 | the block pieces of a read amount to the bytes from its offset on |
| `FileContent.CutAt` | Segundo tp/filesystem/src/logicaFileSystem.c:207-253 | a byte of a write becomes zero if and only if a NUL byte comes before it in its piece, or it is one |
| `FileContent.StoreOverwrites` | Segundo tp/filesystem/src/logicaFileSystem.c:184-255 | the same in terms of the blocks of the file, for every byte of it |
| `FileContent.ReadUnhidden` | Segundo tp/filesystem/src/logicaFileSystem.c:78-143 | a read returns, in order, just the bytes with no NUL byte before them in their block |
| `FileContent.ContentGrows` | Segundo tp/filesystem/src/logicaFileSystem.c:475-486 | new blocks extend a file and keep what it holds |
| `FileSystem.GrowOwnership` | Segundo tp/filesystem/src/logicaFileSystem.c:475-486 | free blocks may go to a file: nobody else owns them, and the bitmap says so |
| `FileSystem.DeleteOwnership` | Segundo tp/filesystem/src/logicaFileSystem.c:399-415 | a deleted file gives back exactly its own blocks |
| `FileSystem.KeptFileBreaksOwnership` | Segundo tp/filesystem/src/logicaFileSystem.c:69-73 | if the metadata file cannot be removed, its blocks are free and owned at once |
| `FileSystem.FileSystem.Create` | Segundo tp/filesystem/src/filesystem.c:485-527 | succeeds if and only if the file is new, the last count was positive, and some block is free |
| `FileSystem.FileSystem.Delete` | Segundo tp/filesystem/src/filesystem.c:426-456 | ownership holds afterwards if and only if the metadata file could be removed |
| `FileSystem.FileSystem.Write` | Segundo tp/filesystem/src/logicaFileSystem.c:147-182 | fails if and only if the blocks it lacks are not free; else every byte of the file is the old one, the one given, or zero behind a NUL byte of its block, and no byte of another file changed |
| `FileSystem.FileSystem.WriteGrows` | Segundo tp/filesystem/src/logicaFileSystem.c:475-486 | a file that is written grows by free blocks, to its new end and not a block further |
| `FileSystem.FileSystem.WriteBlocks` | Segundo tp/filesystem/src/logicaFileSystem.c:184-255 | every block index is in range, also when the first step moves no byte, and no foreign block is touched |
| `FileSystem.FileSystem.Read` | Segundo tp/filesystem/src/filesystem.c:376-424 | answers if and only if the request lies inside the file, with the bytes there but for those behind a NUL byte of their block |
| `FileSystem.FileSystem.ReadAfterWrite` | Segundo tp/filesystem/src/logicaFileSystem.c:147-182 | a read after a write returns the data if and only if it holds no NUL byte |
| `FileSystem.FileSystem.RefusedAfterDelete` | Segundo tp/filesystem/src/filesystem.c:500-501 | counterexample: a file is refused although blocks are free |
| `SchedulingCensus.StepPlaced` | Segundo tp/kernel/src/pcbOperaciones.c:139-372 | each process is in at most one queue, that of its status, and the count is right; none is lost unless memory refuses one taken from the new ones, and then one is |
| `SchedulingCensus.PromotedLoses` | Segundo tp/kernel/src/planificacion.c:23-107 | a process refused by memory on its way from new to ready is in no queue afterwards |
| `SchedulingCensus.AdmittedPlaced` | Segundo tp/kernel/src/consolaKernel.c:63-77 | the admission loop keeps all that too |
| `SchedulingSemaphores.StepLawful` | Segundo tp/kernel/src/conexionesKernelCpu.c:340-452 | as many processes wait on a semaphore as its value is below zero, after every step |
| `SchedulingSemaphores.OneMoreWaits` | Segundo tp/kernel/src/conexionesKernelCpu.c:356-397 | a wait below zero adds one waiter to that semaphore and to no other |
| `SchedulingSemaphores.OneLessWaits` | Segundo tp/kernel/src/pcbOperaciones.c:114-137 | a waiter that is woken or killed gives one unit to its semaphore and to no other |
| `SchedulingSemaphores.ReleasedOne` | Segundo tp/kernel/src/pcbOperaciones.c:122-133 | the clean-up loop raises exactly the semaphore waited on |
| `SchedulingSemaphores.KilledAtWait` | Segundo tp/kernel/src/conexionesKernelCpu.c:364-376 | killed at a wait, a process leaves all semaphores as if it had not waited |
| `SchedulingSemaphores.SignalWakes` | Segundo tp/kernel/src/conexionesKernelCpu.c:415-452 | a signal wakes the longest waiter if and only if the value was below zero, and nobody else |
| `SchedulingCpus.StepConsistent` | Segundo tp/kernel/src/planificacion.c:146-248 | each running process keeps a busy CPU of its own after every step but one kind, and after that kind it does not |
| `SchedulingCpus.KillConsistentIff` | Segundo tp/kernel/src/planificacion.c:167-183 | the kill branch keeps the CPU lists right if and only if none is ready and a new process, if one is admitted, finds an idle CPU |
| `SchedulingQuantum.StepTimed` | Segundo tp/kernel/src/planificacion.c:187-246 | the counter of a busy CPU exceeds the sentences reported and stays within the quantum |
| `SchedulingQuantum.RoundRobinBound` | Segundo tp/kernel/src/planificacion.c:205-231 | a process is switched at the latest with the report that makes as many as the quantum |
| `SchedulingSlices.ReportCounts` | Segundo tp/kernel/src/planificacion.c:187-231 | a report counts one sentence more; if the counter had reached the quantum, the CPU goes on with the head of the ready queue and a counter of one |
| `SchedulingSlices.ExitStarts` | Segundo tp/kernel/src/conexionesKernelCpu.c:95-135 | the successor of a process that exits starts with a counter of one |
| `SchedulingSlices.WaitStarts` | Segundo tp/kernel/src/conexionesKernelCpu.c:377-397 | the successor of a process that waits starts one above the counter of that process: it gets what is left of the quantum, at least one sentence |
| `SchedulingSlices.StepUndisturbed` | Segundo tp/kernel/src/planificacion.c:146-304 | no event changes the record of a working CPU but its own reports |
| `SchedulingSlices.SwitchedInTurn` | Segundo tp/kernel/src/planificacion.c:187-231 | over any run: a process that goes on working is switched with the report that makes, together with the counter it started from, one more than the quantum, and not before; its successor starts with a counter of one |
| `SchedulingSlices.WholeQuantum` | Segundo tp/kernel/src/planificacion.c:187-231 | so one that starts with a counter of one is switched with the report that makes as many as the quantum, and not before |
| `SchedulingService.StepServes` | Segundo tp/kernel/src/planificacion.c:146-304 | if no process was ready beside an idle CPU before, none is afterwards, if and only if the event is not one of three described kinds |
| `SchedulingService.HandshakeServes` | Segundo tp/kernel/src/conexionesKernelCpu.c:35-65 | the handshake makes up for a CPU that has just connected: the head of the ready queue runs |
| `SchedulingService.RunServes` | Segundo tp/kernel/src/planificacion.c:146-304 | in a run without those events no process is ever ready beside an idle CPU |
| `SchedulingService.StepFills` | Segundo tp/kernel/src/planificacion.c:23-107 | if no process was new while the level left room, none is afterwards, if and only if the event does not make room without asking one in |
| `SchedulingService.RunFills` | Segundo tp/kernel/src/planificacion.c:23-107 | in a run without such events no new process is left out |
| `SchedulingService.StepFate` | Segundo tp/kernel/src/conexionesKernelCpu.c:77-135 | what becomes of the process a CPU reports about: it ends, is blocked, is ready behind all others, or runs on, exactly as flags, quantum and semaphore say |
| `SchedulingService.StartGoes` | Segundo tp/kernel/src/conexionesKernelConsola.c:51-175 | a new process is ready or runs, has ended, or is new, exactly as level and memory say |
| `SchedulingOrder.StepAdvances` | Segundo tp/kernel/src/planificacion.c:274-304 | a ready process moves up one place for each dispatch, unless it is sent or ended |
| `SchedulingRuns.StepBounded` | Segundo tp/kernel/src/planificacion.c:18-21 | a step keeps the processes within the level of multiprogramming unless it is one of two described kinds |
| `SchedulingRuns.LevelExceeded` | Segundo tp/kernel/src/capaMemoria.c:519-540 | counterexample: six messages after which two processes are in a system for one |
| `SchedulingRuns.StepFaults` | Segundo tp/kernel/src/planificacion.c:187-205 | the scan for the CPU leaves its pointer unset if and only if a sentence is reported under round robin with no CPU listed as busy and no kill due |
| `SchedulingExecution.StepExecutes` | Segundo tp/kernel/src/planificacion.c:146-304 | when CPUs report about what they really run, exactly the working CPUs are listed as busy, each with its own process on record, after every step but one kind, and after that kind they are not |
| `SchedulingRuns.RunIsGenuine` | Segundo tp/kernel/src/planificacion.c:187-205 | so every report of such a run comes from a CPU listed as busy, about the process on record |
| `SchedulingRuns.RunFaultsLate` | Segundo tp/kernel/src/planificacion.c:187-205 | a run of truthful reports reaches the unset pointer only after a step of that one kind |
| `SchedulingRuns.UnsetPointerUsed` | Segundo tp/kernel/src/planificacion.c:164-205 | counterexample: five messages after which a process runs on a CPU listed as idle, and a sixth that uses the unset pointer |
| `SchedulingRuns.RunIsSafe` | Segundo tp/kernel/src/pcbOperaciones.c:139-372 | in every state of every run processes are placed, counted, and the semaphore law holds |
| `SchedulingRuns.RunKeepsAll` | Segundo tp/kernel/src/planificacion.c:23-107 | without refusals no process ever disappears |
| `SchedulingRuns.RunIsBounded` | Segundo tp/kernel/src/conexionesKernelConsola.c:69-171 | without the two exceptions the level of multiprogramming is never exceeded |
| `SchedulingRuns.RunKeepsCpus` | Segundo tp/kernel/src/planificacion.c:146-248 | if CPUs report about what they really run, then without the one exception CPU lists, quanta and executing CPUs are in order throughout |
| `SchedulingRuns.ServedInTime` | Segundo tp/kernel/src/planificacion.c:274-304 | a process at position k of the ready queue is sent or ended within k + 1 dispatches |
| `SchedulingLaws.StepKeeps` | Segundo tp/kernel/src/conexionesKernelCpu.c:14-177 | from a valid state each event keeps the census and the semaphore law, and exactly when it loses a process, exceeds the level, uses the unset pointer or misplaces a CPU |
| `SchedulingLaws.AbortEnds` | Segundo tp/kernel/src/planificacion.c:430-469 | an abort from the console flags a process if and only if it runs; any other is finished and in no other queue |
| `SchedulingLaws.KillEnds` | Segundo tp/kernel/src/planificacion.c:358-395 | a kill flags a process if and only if a busy CPU has it; any other that does not run is finished and in no other queue |
| `ProcessScheduler.Kernel.Handle` | Segundo tp/kernel/src/conexionesKernelCpu.c:14-177 | every message does what its transition says, keeps the kernel valid and the laws of `SchedulingLaws.StepKeeps` |
| `ProcessScheduler.Kernel.ToFinished` | Segundo tp/kernel/src/pcbOperaciones.c:139-193 | the process ends from whichever queue it is in, though the scan goes on after the match |
| `ProcessScheduler.Kernel.CleanSemaphores` | Segundo tp/kernel/src/pcbOperaciones.c:114-137 | raises the semaphores the loop over them raises, and clears the entry if one matched |
| `ProcessScheduler.Kernel.RunningToFinished` | Segundo tp/kernel/src/pcbOperaciones.c:302-320 | the process leaves the running ones, is counted out and waits for nothing |
| `ProcessScheduler.Kernel.Dispatch` | Segundo tp/kernel/src/planificacion.c:274-300 | the head of the ready queue runs on the CPU; its law: `SchedulingOrder.StepAdvances` |
| `ProcessScheduler.Kernel.Promote` | Segundo tp/kernel/src/planificacion.c:23-107 | the first new process becomes ready, or disappears if memory refuses it; its law: `SchedulingCensus.PromotedLoses` |
| `ProcessScheduler.Kernel.Start` | Segundo tp/kernel/src/conexionesKernelConsola.c:51-175 | a new process becomes ready if the level allows it, else new; it runs at once if a CPU is idle, and no process stays ready beside an idle one |
| `ProcessScheduler.Kernel.SentenceDone` | Segundo tp/kernel/src/planificacion.c:146-232 | kill, switch or continue, as flags and quantum say; a switch starts a new quantum with the head of the ready queue; exactly when a CPU is misplaced or the unset pointer used |
| `ProcessScheduler.Kernel.Wait` | Segundo tp/kernel/src/conexionesKernelCpu.c:340-413 | the unit is taken, or the process blocks, or it ends and the wait is taken back; as many wait afterwards as the value is below zero, and the head of the ready queue runs on the CPU that is left |
| `ProcessScheduler.Kernel.Signal` | Segundo tp/kernel/src/conexionesKernelCpu.c:415-452 | the unit goes to the semaphore, and the first waiter becomes ready, exactly when the value was below zero |
| `ProcessScheduler.Kernel.Exit` | Segundo tp/kernel/src/conexionesKernelCpu.c:95-135 | the process ends, and the head of the ready queue runs on the CPU it leaves; a new process is admitted, and lost exactly if memory refuses it |
| `ProcessScheduler.Kernel.Abort` | Segundo tp/kernel/src/planificacion.c:398-427 | the process ends and a new one is admitted; a ready process is left beside the idle CPU exactly if none is, as only an admission plans; the level is exceeded exactly if it aborts a process counted out before and admits one at the limit |
| `ProcessScheduler.Kernel.AbortByConsole` | Segundo tp/kernel/src/planificacion.c:430-469 | a running process is flagged, any other is finished and in no other queue |
| `ProcessScheduler.Kernel.Kill` | Segundo tp/kernel/src/planificacion.c:358-395 | a process on a busy CPU is flagged, a running one that is on none is left alone, any other is finished and in no other queue |
| `ProcessScheduler.Kernel.SetDegree` | Segundo tp/kernel/src/consolaKernel.c:63-77 | admits new processes while the level allows it; one is lost exactly if a refusal comes before the level is reached |
| `PcbWire.PointerRoundTrip` | Segundo tp/rocketLibrary/structs/structs.c:3-16 | position and pointer determine each other, given the offset lies in the page |
| `PcbWire.SamePcb` | Segundo tp/rocketLibrary/structs/structs.c:140-248 | no two PCBs are sent as the same bytes, whatever follows |
| `PcbWire.HeaderLayout` | Segundo tp/rocketLibrary/structs/structs.c:140-163 | where in the stream the first seven numbers of a PCB and the count of its instructions are |
| `PcbWire.CodeLayout` | Segundo tp/rocketLibrary/structs/structs.c:160-168 | where the instructions are, eight bytes each, the start before the length |
| `PcbWire.StackLayout` | Segundo tp/rocketLibrary/structs/structs.c:181-189 | where the counts of functions, labels and frames are |
| `PcbWire.FrameLayout` | Segundo tp/rocketLibrary/structs/structs.c:190-217 | where the parts of a frame are |
| `PcbWire.AddressLayout` | Segundo tp/rocketLibrary/structs/structs.c:206-217 | where the parts of an address are |
| `PcbWire.Socket.SendPcb` | Segundo tp/rocketLibrary/structs/structs.c:140-248 | the bytes sent are those of the PCB with each list cut at its count |
| `PcbWire.Socket.ReceivePcb` | Segundo tp/rocketLibrary/structs/structs.c:18-138 | what was sent is received, and what follows stays in the stream |
| `PcbWire.Socket.Transfer` | Segundo tp/rocketLibrary/structs/structs.c:18-248 | a PCB arrives as it was if and only if its counts match its lists |
| `CallStack.Cpu.DefineVariable` | Segundo tp/cpu/src/primitivas.c:44-105 | the top frame has one variable or argument more, at the old stack end, which moves on by four bytes; overflow exactly at the last page; nothing else changes |
| `CallStack.Cpu.CallNoReturn` | Segundo tp/cpu/src/primitivas.c:316-344 | the program goes on at the label, in a new empty frame that remembers the program counter; nothing else changes but two flags |
| `CallStack.Cpu.CallWithReturn` | Segundo tp/cpu/src/primitivas.c:346-375 | the same with one flag, and the frame remembers the place for the returned value |
| `CallStack.Cpu.Return` | Segundo tp/cpu/src/primitivas.c:398-426 | the frame is dropped, the program counter restored, and the value goes where the frame says |
| `CallStack.Cpu.BackToCaller` | Segundo tp/cpu/src/ejecucion.c:81-108 | the same at the end of a procedure |
| `CallStack.DefinedKeeps` | Segundo tp/cpu/src/primitivas.c:95-101 | a new variable shares no byte with another, and the state stays usable |
| `CallStack.StraddlesIff` | Segundo tp/cpu/src/primitivas.c:95-101 | every variable fits its page if and only if the page size is a multiple of four |
| `CallStack.RunKeeps` | Segundo tp/cpu/src/primitivas.c:316-426 | whatever runs, the counts match the lists and no two variables share a byte |
| `CallStack.BodyKeepsBelow` | Segundo tp/cpu/src/primitivas.c:316-426 | a function leaves its callers' frames alone |
| `CallStack.ReturnUndoesCall` | Segundo tp/cpu/src/primitivas.c:346-426 | a return undoes the call it belongs to, whatever lies between |

## Left out

* Sockets, select loops, handshakes, delays, logging, console output and configuration: a message is one atomic step,
  and the answers of other components (memory admits, a header is written, a file is removed) are parameters.
* Interleaving of threads inside one component.
* 32-bit overflow of sums such as offset + size, of counters and of process numbers. Words stored in memory and on the wire are
  32 bits wide; the hash of the page table is computed without wrap-around, and frame counts stay below 2^28.
* Frames smaller than 8 bytes, which could not hold an entry of the page table.
* Negative process and page numbers in requests to the memory server, and accesses that cross the end of their page: only the
  offset is checked by the server, so callers owe the rest. The CPU's own splitting of 4-byte values over two pages is wrong
  in the source (the value is not cut) and is not modelled.
* The statistics of memory server and kernel (hits, collisions, bursts, allocations) and the `fin` field of heap blocks.
* The list of cache counters is a map, and blocks, PCBs and files are values inside their lists; CPUs, which the source shares
  between two lists, are records found by their socket. The searches that only fetch such a record are not modelled.
* Exit codes of processes, the table from console sockets to processes and the kernel's open-file tables, whose removal by
  index shifts all other stored indices.
* Shared variables, which are read and assigned by name.
* Stopping and resuming the planning, disconnection of CPUs, and a reload of the configuration.
* What the parser of programs returns: the code index and the labels are opaque lists, a label's address is a parameter.
* Path normalisation, directories, the text format of metadata files, `msync`, and requests for files that do not exist other than
  creation, which the kernel validates before.
* Blocks of the disk hold `tamanioBLoques` bytes each from the start; the source begins with empty files and reads what was never
  written from uninitialised buffers. When a read meets a NUL byte the source sends bytes beyond the text it has; they are not modelled.
* Semaphores with equal names, empty names or negative initial values.
* The words that a dump prints between the headers, and the bytes of the next frame that it reads once a header has led it out
  of its own.
* Heap calls of a process that is not in the system, and a second start of one that is: in `HeapRuns` they change nothing.
- FileSystem.FileSystem.Read: does not cover a negative offset or size, since the source checks only that their sum lies in
  the file and then reads from a block that is not there.
- FileSystem.FileSystem.Write: does not cover a negative offset or size, since the source does not look at their sign.
- PcbWire.Socket.ReceivePcb: does not model a stream that ends early or was not produced by the sender, since the receiver
  checks nothing.
- MemoryServer.MemoryServer.Read: does not cover an accepted offset with a size that runs past the end of its page, since the
  source then reads beyond the cached copy.
- MemoryServer.MemoryServer.Write: does not cover stored bytes that run past the end of their page, since the source then
  writes into the next frame and beyond the cached copy.
- CallStack.Cpu.DefineVariable: does not say what pointer an identifier yields that is neither letter nor digit, since the source
  returns an uninitialised one.
