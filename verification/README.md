# Frames, page tables and disk requests, verified

A Dafny model of the two stateful parts of a small x86-64 kernel, with proofs.

**Memory.** `Pmm` is the physical frame allocator: a bitmap of 64-bit words filled from the
firmware's memory map, scanned for the lowest clear bit; `LeastFrames` orders its frames.
`PageTable` is the four-level translation tree as the processor reads it (Intel SDM Volume 3A,
section 4.5) with the edits the kernel makes to it. `Entries` reads the entries that the C code
builds with `|`, `&` and shifts back field by field. `Walks`, `Plan` and `Vmm` are the walkers and
what is built on them: map, unmap, page allocation and freeing, and start-up. `Counting` weighs
missing tables against free frames. `Online`, `PageRuns` and `PageAccounts` follow a running system
through any sequence of allocations, frees and stores; `FrameRuns` does so for the bare allocator;
`Startup` joins `pmm_init` and `vmm_init`; `Reach` says where the addresses of the finished address
space lead; `LargePages` says what the walkers do below a large page.

**Disk.** `AtaWire` is the task file: port accesses, the two-deep registers of ATA/ATAPI-6
section 6.20, and the commands, transfers and other writes that a stream of accesses amounts to, by
port number; `AtaStatus` is the status byte. `AtaIrq` and `AtaIrqDriver` are the interrupt-driven
driver, with interrupts landing between any two accesses and statuses chosen freely; `AtaIrqRuns`,
`AtaIrqTheorems`, `AtaIrqOutcomes`, `AtaIrqReads`, `AtaIrqPrompt` and `AtaIrqWrites` prove what every
run of it does. `AtaDevice` is a PIO disk, which decodes the opcodes of ATA/ATAPI-6 and the drive
register by number: a command or a block that was sent makes it busy, it stops at a moment of its own
choosing, and then offers data, has stored the block, or has failed. While it is busy its status shows
BSY and any other bits, commands are lost and transfers move nothing meaningful. `AtaWorld` plays a
trace of accesses against it, and `AtaPoll` is the polling driver working against it.

**Words.** 64-bit words are integers below 2^64. `Words` defines `&`, `|`, `~`, shifts and wrapping
addition and subtraction on them by binary expansion, and proves the shift and mask arithmetic;
`WordsBv` shows that `&` and `|` so defined agree with Dafny's 64-bit vectors.

## Reading guide

A `Snap` is what the memory side consists of at one moment: the contents of every frame, the place
(level and prefix) of every table, the free frames below a limit, and the free frames beyond it, of
which nothing is assumed. `Ok` is its invariant: every table reachable from the root has exactly one
place, is not free, and holds zeros in its unused slots. `View(root, w)` is the processor's
translation of page number `w`. The main memory theorems compare views before and after.

The limit separates free frames that are known to be memory from those that the bitmap merely calls
free. It is a proof device: no code reads it, and each theorem holds for every choice of it that
leaves enough frames below (`Affords`). Since the allocator always takes the least free frame, the
others are then never touched.

A `Ctx` is the interrupt-driven driver's context together with the trace of all port accesses so
far. `Decode` turns a trace into the acts the device sees. `Script(q, gap, n)` is the sequence of
acts that request `q` ought to have caused after `n` blocks.

Where the code departs from what it is evidently meant to do, the model follows the code, and the
theorem says exactly when the intended result holds:

- The bitmap's fill value is a parameter, because `kernel/pmm.c:36` stores `0xFF` in each 64-bit
  word while the comment at lines 29-30 means every bit. `InitiallyFreeIff` and `AboveManaged` give
  the exact free frames for both values. Start-up is proved for every fill word. As coded, the
  frames it and every later run take are memory if and only if enough free frames come before the
  first hole of the memory map (`CodedFillIff`, `CodedRunsIff`); `FirstFrameAsCoded` is an input for
  which they are not. With all ones they always are (`OnesAreRam`, `ReturnedFrameIsRam`).
- The boot map at `bootloader/boot2.asm:253-261` covers 16 MiB. Start-up's requirement that it can
  access the frames it takes then holds only if no frame is free (`BootMapReaches`).
- The scan's bound at `kernel/pmm.c:78` counts frames, not words. `ScanAsCoded` leaves the array
  exactly when no frame is free; `FrameAlloc` stops at the end of the array and returns
  `PMM_INVALID_FRAME` there.
- `kernel/vmm.c:140` does not test for allocation failure. The model's walk then ends in `Fault`,
  and `Init` shows that start-up succeeds if and only if there are as many free frames as tables in
  the plan.
- `kernel/vmm.c:118-120` keeps the data frame when mapping fails. `AllocLosesIff` says exactly when
  this frame is lost: when there is a free frame, but not one more than the tables still missing.
  `FailingState` is such a state.
- The walkers never test PS. For a page of the direct map they take the words of the large page for
  table entries. As long as they reach no table of the tree, mapping then reports success, may take a
  frame and write an entry into someone's data, and maps nothing: success means a mapping exactly
  outside large pages (`MapsIffSmall`). `StrayState` is a running system with such an address.
- `vmm_kernel_map` counts pages from the kernel's size alone. `KernelCoveredIff` gives the exact condition
  under which the last page of an unaligned kernel is still mapped.
- E820 arithmetic wraps. `EntryExact` says for which entries the frames freed are still the pages
  contained.
- Nothing sets `step` back to idle, so one run of the interrupt-driven driver serves one request
  (`StepsAgree`). An interrupt that lands before the flags are cleared after a command
  (`kernel/ata_driver_irq.c:297-299`) is lost (`FlagsAfterCommand`), and the request then waits
  (`WaitsIff`).
- The driver waits for an interrupt before the first block of a write, which section 9.6 of
  ATA/ATAPI-6 does not give. Every block needs an interrupt of its own (`OneInterruptABlock`), so
  against such a device no write ever sends a block (`WriteNeverMoves`).
- The interrupt-driven driver ignores BSY. It believes DRQ shown by a busy device, and then moves
  words that mean nothing: `SlowReadIsWrong` is a whole run of this kind, `TransferIsRightIff` says
  when a transfer is right, and `HonestIsCandidIff` which statuses must not be shown. After a block it
  takes BSY alone for completion: `GoesOnBusyIff` says exactly when it is done, or issues the next
  command, while the device is busy. Reads never do (`ReadsMeetNoBusy`), writes can
  (`DoneWhileStoring`).
- Device addresses are truncated to 28 or 48 bits; `AddressIsExact` says when the truncated address is
  the right one.

## Model

| member | source | states |
|---|---|---|
| Pmm.AlignDownIsFloor | kernel/pmm.c:20-22 | masking with ~(PAGE_SIZE - 1) is rounding down to a page |
| Pmm.AlignUpIsCeiling | kernel/pmm.c:24-26 | align_up is rounding up, for exactly the addresses up to 2^64 - 4096; above it is 0 |
| Pmm.FrameAllocator.FrameBitmapSet | kernel/pmm.c:6-9 | takes exactly the given frame out of the free set |
| Pmm.FrameAllocator.FrameBitmapClear | kernel/pmm.c:11-14 | puts exactly the given frame into the free set |
| Pmm.FrameAllocator.FrameBitmapTest | kernel/pmm.c:16-19 | 1 exactly when the frame is not free |
| Pmm.FrameAllocator.Fill | kernel/pmm.c:35-37 | after the first loop the free frames are the zero bits of the fill word, repeated |
| Pmm.FrameAllocator.ReadEntry | kernel/pmm.c:39-66 | one entry frees its frames and raises the ceiling to its end |
| Pmm.FrameAllocator.InitFromMap | kernel/pmm.c:33-71 | the free set is fill plus map minus the reserved frames; the ceiling is raised by every entry |
| Pmm.EntryExact | kernel/pmm.c:50-65 | for a usable entry, the frames freed are the contained pages if and only if its end does not wrap harmfully |
| Pmm.MapFramesIff | kernel/pmm.c:39-66 | a frame is freed by the map if and only if some entry frees it, in any number and overlap |
| Pmm.InitiallyFreeIff | kernel/pmm.c:33-71 | a frame below 2^24 starts free iff its number is at least 4000h and its page lies inside one usable entry; with the fill as coded, FFh, also iff its bit number is 8 or more |
| Pmm.AboveManaged | kernel/pmm.h:6-10 | from frame 2^24 on the all-ones fill frees nothing, the fill as coded all bits numbered 8 or more up to frame 2^27 |
| Pmm.CeilingIsHighest | kernel/pmm.c:42-45 | the ceiling is the highest entry end and is attained |
| Pmm.Ctz | kernel/pmm.c:83 | count-trailing-zeros is the number of the lowest one bit |
| Pmm.LowestClear | kernel/pmm.c:81-83 | in a block that is not full it finds the lowest clear bit, below 64 |
| Pmm.FrameAllocator.TakeLowest | kernel/pmm.c:83-88 | shift, or and shift give 4096 times the least free frame, and its bit alone is set |
| Pmm.FrameAllocator.FrameAlloc | kernel/pmm.c:77-91 | returns the least free frame and takes exactly it, or PMM_INVALID_FRAME when none is free |
| Pmm.FrameAllocator.ScanAsCoded | kernel/pmm.c:78-81 | with the bound as written the scan leaves the array iff no frame is free |
| Pmm.FrameAllocator.FrameFree | kernel/pmm.c:93-96 | gives back exactly the frame, and does nothing below frame 4000h |
| Pmm.FrameAllocator.Init | kernel/pmm.c:98-107 | the free set without the frames that hold a kernel byte |
| Pmm.KernelFramesIff | kernel/pmm.c:98-107 | the kernel's frames are exactly those with a byte of its image |
| FrameRuns.Call | kernel/pmm.c:77-96 | allocation and freeing on the bitmap are steps of the abstract allocator |
| FrameRuns.RunsConserve | kernel/pmm.c:77-96 | in every run free and held frames stay disjoint and together are the initial ones |
| FrameRuns.HandsOutIff | kernel/pmm.c:77-96 | a frame is handed out in some run while fewer than m are held iff it is among the m least free ones |
| FrameRuns.ReturnedFrameIsSafe | kernel/pmm.c:33-107 | for every fill word, each frame returned in any run is unheld, past the limit, no kernel frame, and among the least free ones |
| FrameRuns.ReturnedFrameIsRam | kernel/pmm.c:29-37 | with the all-ones fill it is memory below the ceiling |
| FrameRuns.CodedRunsIff | kernel/pmm.c:33-96 | with the fill as coded, all frames handed out while fewer than m are held are memory iff m free frames come before every hole of the map |
| FrameRuns.FirstFrameAsCoded | kernel/pmm.c:35-37 | a failing input: with memory ending at 64 MiB the first frame handed out is 4008h, which is not memory |
| FrameRuns.FillMatters | kernel/pmm.c:29-37 | only the all-ones fill leaves exactly the map's frames free |
| FrameRuns.FillAsCodedFreesHoles | kernel/pmm.c:36 | a concrete frame beyond the managed range that the fill as coded frees |
| WordsBv.AndMatchesBv | kernel/pmm.c:11-19 | `&` defined by binary expansion agrees with `&` of 64-bit vectors on every number of low bits |
| WordsBv.OrMatchesBv | kernel/pmm.c:6-9 | `\|` defined by binary expansion agrees with `\|` of 64-bit vectors on every number of low bits |
| Entries.IndexIsPrefix | kernel/vmm.c:63 | `(vaddr >> shift) & 0x1FF` is the index of the walk at that level |
| Entries.AndAddrMask | kernel/vmm.c:79 | masking an entry gives the address of the frame it targets |
| Entries.TableEntryFields | kernel/vmm.c:75 | a new table's entry is present, not large, and targets the new frame |
| Entries.LeafFields | kernel/vmm.c:92 | a leaf is present; its frame bits are those of address and flags together |
| Entries.LeafExact | kernel/vmm.c:92 | a leaf targets the address's frame iff the flags add no frame bit |
| Entries.LeafFlags | kernel/vmm.c:92 | outside the frame bits a leaf has exactly the flags' bits and PRESENT |
| Entries.HhdmEntry | kernel/vmm.c:206 | the large entry of GiB k, as a number |
| Entries.HugeFields | kernel/vmm.c:206 | it is present, large, and targets GiB k |
| PageTable.WalkFrom | kernel/vmm.c:58-86 | the processor's walk passes the table placed on its way |
| PageTable.InstallKeepsTree | kernel/vmm.c:70-76 | hanging a zeroed table in an empty slot keeps the tree and every translation |
| PageTable.ReplaceKeepsTree | kernel/vmm.c:92 | replacing a final entry changes the translation of exactly the pages through it |
| PageTable.StoreKeepsTree | kernel/vmm.c:73 | a store to a frame that is no table changes no translation |
| Walks.FollowLink | kernel/vmm.c:62-80 | a present entry leads to the placed table; an absent one means the page is unmapped |
| Walks.StepKeepsWalk | kernel/vmm.c:62-80 | one round of the walk keeps tree, frames and every translation, and arrives one level lower |
| Walks.StoreLeaf | kernel/vmm.c:92 | a store to the leaf slot updates the abstract map at that page only |
| Walks.StoreLarge | kernel/vmm.c:206 | a large entry maps exactly the pages of its GiB |
| Walks.PathPlaced | kernel/vmm.c:62-80 | where a page has a leaf table, all tables above it are in place |
| Counting.Balance | kernel/vmm.c:67-77 | each table added takes one free frame and fills one missing place |
| Counting.MapsIff | kernel/vmm.c:88-97 | a mapping succeeds iff there is a free frame for every table the page still needs |
| LargePages.WalkersArrive | kernel/vmm.c:62-85 | over present words, the walk without the PS test arrives at the processor's leaf table outside large pages, and inside one goes on into the page's own contents |
| LargePages.StepStrays | kernel/vmm.c:62-80 | a round of the walk at a frame that is no table, its word present or absent, keeps every translation and every table |
| LargePages.AtLeaf | kernel/vmm.c:58-86 | inside the direct map the walk arrives iff a word is present or a frame can be had, takes that frame, and ends at a frame that is no table |
| LargePages.MapsIffSmall | kernel/vmm.c:88-97 | a mapping that reports success has mapped the page iff the page is not in a large page |
| LargePages.StrayState | kernel/vmm.c:62-97 | a running system in which mapping the first page of the direct map reports success, takes the last frame and maps nothing |
| Vmm.AddressSpace.AddTable | kernel/vmm.c:138-148 | a new zeroed table is linked in the slot, from the least free frame; without one nothing is written |
| Vmm.AddressSpace.DescendOffline | kernel/vmm.c:134-153 | one round of the offline walk |
| Vmm.AddressSpace.PteGetOffline | kernel/vmm.c:130-157 | the offline walk returns the leaf slot of the page, keeps every translation, and adds only tables on the path; with create it arrives iff there is a free frame for each table missing |
| Vmm.AddressSpace.MapInternal | kernel/vmm.c:159-165 | the page maps to the leaf and no other translation changes, iff there is a free frame for each table missing |
| Vmm.AddressSpace.EnsurePdpt | kernel/vmm.c:192-200 | the level-4 slot links a table, new or old, and every translation is kept |
| Vmm.AddressSpace.Map1Gb | kernel/vmm.c:187-209 | exactly the pages of one GiB map to the large entry, or no frame was free and nothing changed |
| Vmm.AddressSpace.HhdmCreate | kernel/vmm.c:211-221 | the mapped pages are exactly the GiBs up to the ceiling, or a table frame was missing |
| Vmm.AddressSpace.MapKernel | kernel/vmm.c:168-174 | the kernel loop maps exactly its pages to themselves, or a table frame was missing |
| Vmm.AddressSpace.MapStack | kernel/vmm.c:176-183 | the stack loop maps exactly the pages of its window (StackPagesIff) to themselves, or a table frame was missing |
| Vmm.AddressSpace.StackBounds | kernel/vmm.c:179-180 | the window's bounds are rsp - 256 KiB rounded down and rsp + 4 KiB rounded up to a page |
| Vmm.AddressSpace.KernelMap | kernel/vmm.c:167-184 | both ranges map to themselves, all else as before |
| Vmm.AddressSpace.NewRoot | kernel/vmm.c:224-230 | the root table is a zeroed free frame in which nothing is mapped, or no frame was free |
| Vmm.AddressSpace.Populate | kernel/vmm.c:230-235 | start-up after the root table: the planned space is built iff the frames suffice for all tables; 0 is returned iff they do not suffice for the direct map |
| Vmm.AddressSpace.Init | kernel/vmm.c:223-238 | start-up succeeds iff there are as many free frames as tables needed, returns 0 iff there are too few for the direct map alone, and on success has built exactly the planned address space (MappedIff) from exactly the least free frames |
| Vmm.AddressSpace.Pml4Get | kernel/vmm.c:47-56 | the masked CR3 is the root table's address |
| Vmm.AddressSpace.AddTableVirt | kernel/vmm.c:70-76 | the online counterpart of AddTable, through the direct map |
| Vmm.AddressSpace.DescendVirt | kernel/vmm.c:63-79 | one round of the online walk; running out of frames is NULL |
| Vmm.AddressSpace.PteGet | kernel/vmm.c:58-86 | the online walk keeps every translation and returns the leaf slot in the direct map; outside large pages, with create it is not NULL iff there is a free frame for each table missing, without it iff the leaf table exists; inside them it takes the page's words for entries and hangs a frame where one is absent |
| Vmm.AddressSpace.PageMap | kernel/vmm.c:88-97 | outside the direct map, mapping refines a map update and succeeds iff there is a free frame for each table missing, and a failed one changes no translation and consumed only linked tables, zero but for their links; inside, it writes only frames that are no tables and changes no translation |
| Vmm.AddressSpace.PageUnmap | kernel/vmm.c:99-112 | succeeds iff the page has a leaf table; then exactly that page is unmapped and the frame it had is handed out; inside the direct map it clears a word of data and hands out the frame that the word happens to name |
| Vmm.AddressSpace.PageAlloc | kernel/vmm.c:114-122 | outside the direct map the least free frame is mapped at the page iff there are more free frames than tables missing, and is lost iff there are some but not more; inside it is always lost |
| Vmm.AddressSpace.PageFree | kernel/vmm.c:124-128 | the page is unmapped and exactly its frame becomes free, unless reserved |
| Vmm.AddressSpace.PageCalls | kernel/vmm.c:114-128 | any sequence of page allocations and frees is a run as below and leaves the system running and exclusive, if no free frames lie beyond the limit or four below it for each call |
| Online.HhdmAccess | kernel/vmm.c:14-16 | word i of frame t is read at HHDM_OFFSET + 4096 t + 8 i |
| Online.WalkedRunning | kernel/vmm.c:58-86 | walking keeps the system running: direct map whole, tables and free frames inside it |
| PageRuns.AllocKeepsExclusive | kernel/vmm.c:114-122 | an allocation lets no frame be behind two leaves, or be a table or free while mapped |
| PageRuns.FreeKeepsExclusive | kernel/vmm.c:124-128 | freeing a page leaves no frame behind two leaves, and none mapped that is a table or free |
| PageRuns.StoreIsHarmless | kernel/vmm.c:92 | no store through a mapped page changes any translation |
| PageRuns.RunsStayExclusive | kernel/vmm.c:114-128 | exclusiveness holds in every state of every run of allocations, frees and stores |
| PageRuns.RunTakesFour | kernel/vmm.c:114-128 | a run takes at most four free frames a call |
| PageRuns.AllocThenFree | kernel/vmm.c:114-128 | allocating and freeing an unmapped page restores every translation and the bitmap but for at most three tables |
| PageRuns.FreeOfUnmapped | kernel/vmm.c:124-128 | freeing an unmapped page changes no translation and no bit |
| PageAccounts.AllocIff | kernel/vmm.c:114-122 | an allocation succeeds iff there is a free frame for the page and one for each table it still needs |
| PageAccounts.AllocLosesIff | kernel/vmm.c:114-122 | the data frame goes astray iff there is a free frame but too few; then no translation changes and every other frame is a linked table |
| PageAccounts.FailingState | kernel/vmm.c:118-120 | a running system, with one free frame, in which the allocation of page 0 fails |
| PageAccounts.RunsAccount | kernel/vmm.c:114-128 | in every state of every run, each frame free at the start is exactly one of free, a table, behind a leaf, or lost |
| PageRuns.AtMostThree | kernel/vmm.c:62-80 | one walk adds at most three tables |
| Plan.GibCountIs | kernel/vmm.c:215 | the GiB loop runs for exactly the GiBs that begin below the ceiling |
| Plan.HhdmReaches | kernel/vmm.c:215-217 | every byte of the mapped GiBs is reached at HHDM_OFFSET plus its address |
| Plan.SelfRound | kernel/vmm.c:172-174 | one more page mapped to itself, or the plan's tables are not all there |
| Plan.HhdmMappingMore | kernel/vmm.c:215-217 | one more GiB mapped |
| Plan.TooFew | kernel/vmm.c:223-238 | running out means that there were fewer free frames than tables planned |
| Plan.FramesSufficed | kernel/vmm.c:223-238 | finishing means that there were enough, and that exactly the tables' frames were taken |
| Reach.PhysicalReached | kernel/vmm.c:211-221 | after start-up every byte below the ceiling is reached at FFFF_8000_0000_0000h plus its address |
| Reach.SelfReached | kernel/vmm.c:167-184 | and every byte of the kernel and stack pages at its own address |
| Reach.MappedIff | kernel/vmm.c:223-238 | page by page, what start-up maps and nothing else: the pages of the kernel image and those with a byte from 256 KiB below the stack pointer to 4 KiB above it, each to itself, present and writable; GiB k of the upper half, large, writable and not executable, iff it begins below the ceiling |
| Reach.KernelCoveredIff | kernel/vmm.c:168-174 | the loop covers every byte of the kernel iff the offsets of its start and of its size fit in one page |
| Reach.StackCovered | kernel/vmm.c:176-183 | every byte from 256 KiB below the stack pointer up to a page above it is reached at its own address |
| Reach.StackPagesIff | kernel/vmm.c:176-183 | the pages planned for the stack are exactly those with a byte of that window, up to whole pages at its edges |
| Reach.KernelPagesIff | kernel/vmm.c:168-174 | the pages planned for the kernel are exactly as many as its size needs, from its first page on |
| Reach.WalkIsTranslated | kernel/vmm.c:58-86 | for every memory and address, the model's walk leads where a four-level walk written out by address and entry bits does (Intel SDM Volume 3A, section 4.5) |
| Startup.KernelStart | kernel/main.c:18-19 | for every fill word, pmm_init then vmm_init build the planned space from exactly the least free frames iff there are enough of them; only those need to be accessible |
| Startup.RamIsMapped | kernel/vmm.c:211-218 | free frames that are memory are past the reserved limit and inside the direct map |
| Startup.OnesAreRam | kernel/pmm.c:29-37 | with the all-ones fill every free frame is memory |
| Startup.CodedFillIff | kernel/pmm.c:33-71 | with the fill as coded, the n frames taken first are memory iff n free frames come before every hole of the map |
| Startup.BelowHoles | kernel/pmm.c:33-71 | with the fill as coded, the free frames before every hole are memory inside the direct map |
| Startup.BootMapReaches | bootloader/boot2.asm:253-261 | for every fill, the 16 MiB boot map reaches the frames that start-up takes iff no frame is free |
| Startup.NoUsableMemory | kernel/pmm.c:78 | an input for the scan past the array: with no usable memory and the all-ones fill no frame is free |
| Startup.TwoFramesCrash | kernel/vmm.c:140 | an input for the unchecked failure: with two usable frames start-up crashes, for every kernel and stack |
| Startup.StartsRunning | kernel/vmm.c:223-238 | the address space built satisfies what the running system keeps, with the free frames below a limit that are in the direct map |
| Startup.VouchFor | kernel/main.c:18-19 | the system that start-up leaves is running and exclusive once the free frames below some limit are known to be memory in the direct map |
| Startup.SystemStaysExclusive | kernel/vmm.c:114-128 | from start-up through every run, no frame below the limit is behind two leaves, or a table or free while mapped |
| AtaWire.TaskfileIssues | kernel/ata_driver_irq.c:281-298 | the register writes issue one single-sector command for the address modulo 2^28 or 2^48, in the two-write order of section 6.20 of ATA/ATAPI-6, with the opcode of its operation (20h, 30h, 24h, 34h) and the drive register as selected |
| AtaWire.DriveByteIs | kernel/ata_driver_irq.c:267-269 | the drive-select byte carries address bits 24 to 27 |
| AtaStatus.StatusBits | kernel/ata_driver_irq.h:71-85 | the status masks test the ERR, DF, DRQ, DRDY and BSY bits |
| AtaIrq.IrqsQuiet | kernel/ata_driver_irq.c:113-119 | interrupts at any point touch only the two flags and no register of the task file |
| AtaIrqDriver.Driver.Irq14 | kernel/ata_driver_irq.c:113-119 | the handler's new state, and its three accesses: the status read and an end of interrupt to either controller |
| AtaIrqDriver.Driver.IrqFlagsReset | kernel/ata_driver_irq.c:133-136 | both flags are cleared, one after the other, with interrupts in between |
| AtaIrqDriver.Driver.StatusIsBad | kernel/ata_driver_irq.c:33-37 | true exactly for a floating bus, ERR or DF; FailedIff says by bit number what follows from it |
| AtaIrqDriver.Driver.IsBusy | kernel/ata_driver_irq.c:121-126 | busy in exactly the steps that are neither idle nor final |
| AtaIrqDriver.Driver.BeginInitIrq | kernel/ata_driver_irq.c:143-157 | accepted only when idle; the whole new context, with interrupts inside the call |
| AtaIrqDriver.Driver.BeginIoIrq | kernel/ata_driver_irq.c:159-205 | accepted only when idle and not empty; the whole new context, with interrupts inside the call |
| AtaIrqDriver.Driver.InitTickHandle | kernel/ata_driver_irq.c:219-263 | each initialization step turns the context into the one its specification function gives, for any interrupts; where that leads is InitTickLeads and SevenTicksOrSix |
| AtaIrqDriver.Driver.IoIssueSelectHandle | kernel/ata_driver_irq.c:265-275 | drive selection turns the context into the specified one: drive byte, four delay reads to come, task file next; the byte is settled by SelectByteIs and WireFollowsScript |
| AtaIrqDriver.Driver.IoIssueTaskfileHandle | kernel/ata_driver_irq.c:277-301 | the task file is written in the specified order, with interrupts after any write, and the flags are cleared last |
| AtaIrqDriver.Driver.IoWaitIrqHandle | kernel/ata_driver_irq.c:303-323 | the wait judges the status of the interrupt, or alternate status after a transfer, as specified, with interrupts before and after each read; where each status leads is WaitLeads |
| AtaIrqDriver.Driver.IoXferBlockHandle | kernel/ata_driver_irq.c:325-342 | the transfer moves one block and all counters, as specified |
| AtaIrqDriver.Driver.TickAta | kernel/ata_driver_irq.c:354-364 | a whole tick, delay counter included, turns the context into the specified one, about which TickKeeps, TickFailsIff and TickGetsAhead speak |
| AtaIrqDriver.Driver.Drive | kernel/ata_driver_irq.c:113-364 | after any sequence of calls and interrupts on the driver object, its ports have seen a prefix of the request's script, inside the request's buffer, and all of it once it is done |
| AtaIrqRuns.TaskfileKeeps | kernel/ata_driver_irq.c:277-301 | the command issued is the one the script wants next, although its address was split over two ticks |
| AtaIrqRuns.XferKeeps | kernel/ata_driver_irq.c:325-342 | the transfer is the one the script wants next, and all counters move together |
| AtaIrqRuns.TickKeeps | kernel/ata_driver_irq.c:354-364 | every tick of a request keeps the invariant, for any statuses and interrupts |
| AtaIrqRuns.SelectByteIs | kernel/ata_driver_irq.c:265-272 | the drive-select byte is E0h, plus address bits 24 to 27 for a 28-bit request, whatever the width of the address variable |
| AtaIrqRuns.InitTickKeeps | kernel/ata_driver_irq.c:219-263 | every tick of initialization keeps its invariant: device control 0 first, then at most one IDENTIFY to drive 0 after four delay reads, and one transfer |
| AtaIrqRuns.ApplyKeeps | kernel/ata_driver_irq.c:113-364 | every begin call, tick and interrupt keeps the invariant of the run |
| AtaIrqTheorems.WireFollowsScript | kernel/ata_driver_irq.c:265-342 | in every run the acts are the first blocks of the script and at most one more command: act 2i commands sector lba + i, act 2i + 1 moves words 256i to 256i + 255; every command goes to drive 0 in LBA mode, with drive register E0h if its opcode is 24h or 34h; no status read and no write to another port is among the acts; done means all count blocks |
| AtaIrqTheorems.CountersAgree | kernel/ata_driver_irq.c:336-341 | address, pointer and counters agree in every reachable state |
| AtaIrqTheorems.TransfersStayInside | kernel/ata_driver_irq.c:325-342 | no word outside the buffer is ever transferred |
| AtaIrqTheorems.AddressIsExact | kernel/ata_driver_irq.c:281-298 | a command names its sector iff the address fits the command's width |
| AtaIrqTheorems.FourReadsBeforeCommands | kernel/ata_driver_irq.c:102-111 | exactly four alternate-status reads separate drive select and command in every run, IDENTIFY included, and the upper half of the drive register is Eh |
| AtaIrqTheorems.StepsAgree | kernel/ata_driver_irq.c:121-263 | operation and step agree, three steps are never entered, at most one begin succeeds |
| AtaIrqTheorems.TerminalIsAbsorbing | kernel/ata_driver_irq.c:209-217 | a finished request stays finished and touches no register |
| AtaIrqTheorems.TickGetsAhead | kernel/ata_driver_irq.c:303-364 | a lexicographic measure falls on every active tick but for waiting and the empty wait-transfer round trip |
| AtaIrqTheorems.WaitsIff | kernel/ata_driver_irq.c:303-310 | a tick that waits for a block does nothing iff no interrupt was noted |
| AtaIrqTheorems.FlagsAfterCommand | kernel/ata_driver_irq.c:297-300 | an interrupt during the command's writes is lost; only one between the two clearing stores is noted, without its status |
| AtaIrqTheorems.EightTicksABlock | kernel/ata_driver_irq.c:265-364 | against a device that answers every wait at once, with any statuses, a request is done after exactly 8 count ticks |
| AtaIrqOutcomes.WaitLeads | kernel/ata_driver_irq.c:303-323 | a waiting tick fails, goes on to a transfer, to the next command, or is done, each iff the statuses it judges have the bits for it, interrupts in the tick included |
| AtaIrqOutcomes.FailureFails | kernel/ata_driver_irq.c:33-37 | an interrupt that read FFh, or bit 0 or 5, makes the next tick fail the request |
| AtaIrqOutcomes.TickFailsIff | kernel/ata_driver_irq.c:303-364 | exactly a waiting tick that judges such a status makes a request, or initialization, fail |
| AtaIrqOutcomes.FailedIff | kernel/ata_driver_irq.c:209-364 | a run has failed iff one of its ticks judged a status of FFh or with bit 0 or 5; so no request is done that met one |
| AtaIrqOutcomes.DoneIff | kernel/ata_driver_irq.c:311-320 | a request is done iff, with no sector left, a waiting tick judged a status other than FFh with bits 0, 3 and 5 clear |
| AtaIrqOutcomes.FailedDeviceJudged | kernel/ata_driver_irq.c:303-323 | whatever an honest device shows once it has failed, the request fails on it |
| AtaIrqOutcomes.FailedDeviceFails | kernel/ata_driver_irq.c:303-323 | after a block, the request fails at the next tick if the device has failed, for any interrupts in the tick |
| AtaIrqOutcomes.InitTickLeads | kernel/ata_driver_irq.c:219-263 | every tick of initialization: it fails, or goes on to the transfer, iff the statuses judged have the bits for it; it is done iff the words are transferred; without an interrupt it waits |
| AtaIrqOutcomes.InitFailureFails | kernel/ata_driver_irq.c:233-245 | an interrupt that read FFh, or bit 0 or 5, makes the next tick of initialization fail |
| AtaIrqOutcomes.SevenTicksOrSix | kernel/ata_driver_irq.c:219-263 | interrupted for at once, initialization is done after exactly 7 ticks if the status has bit 3 and no failure, and has failed after exactly 6 if it has one |
| AtaIrqOutcomes.FlagsAfterBegin | kernel/ata_driver_irq.c:138-205 | a new request starts with no interrupt noted, but for one that lands between the two clearing stores |
| AtaIrqReads.CommandAccepted | kernel/ata_driver_irq.c:277-301 | a device that is not busy takes the command, and from then on is on its way to the sector asked for, offers it, or has failed |
| AtaIrqReads.TickReads | kernel/ata_driver_irq.c:303-364 | every tick of a read keeps memory equal to the copy of the first blocks, for any busy times of a device that shows DRQ only with its data |
| AtaIrqReads.ReadsArrive | kernel/ata_driver_irq.c:159-193 | a read from an honest device that never shows DRQ with BSY has, when finished, copied exactly the sectors asked for, and before that the first blocks, for any failures and busy times |
| AtaIrqReads.ReadsMeetNoBusy | kernel/ata_driver_irq.c:311-320 | such a read is never done, and never issues its next command, while the device is busy |
| AtaWorld.HonestIsCandidIff | kernel/ata_driver_irq.c:33-37 | an honest device shows DRQ only with its data, as the driver sees it, iff no status has BSY and DRQ and no failure |
| AtaIrqReads.ReadsAgree | kernelLoader/atadriver.c:98-199 | interrupt-driven and polling reads of the same sectors leave the same memory |
| AtaIrqPrompt.PromptReadArrives | kernel/ata_driver_irq.c:265-364 | a read interrupted for at once, by a device that shows DRQ only with its data, is done after exactly 8 count ticks with the sectors asked for in its buffer |
| AtaIrqPrompt.SwiftIsCandid | kernel/ata_driver_irq.c:265-364 | a device that is done at the next access is of this kind |
| AtaIrqPrompt.TransferIsRightIff | kernel/ata_driver_irq.c:325-342 | a transfer copies the right sector iff the device has stopped being busy by then and offers it |
| AtaIrqPrompt.SlowReadIsWrong | kernel/ata_driver_irq.c:303-342 | a whole run with an honest device that stays busy and shows DRQ with BSY: the read is done and not one right word has arrived |
| AtaIrqPrompt.SlowRun | kernel/ata_driver_irq.c:265-364 | there is such a run for every request |
| AtaIrqPrompt.GoesOnBusyIff | kernel/ata_driver_irq.c:311-320 | after a block the driver is done, or goes on to the next command, with the device busy iff the status it judges shows BSY and neither DRQ nor a failure |
| AtaIrqPrompt.DoneWhileStoring | kernel/ata_driver_irq.c:311-320 | so a write can be done while its last block is not on the disk yet |
| AtaIrqWrites.OneInterruptABlock | kernel/ata_driver_irq.c:303-342 | in every run no more blocks are moved than interrupts came in |
| AtaIrqWrites.NoInterruptNoBlock | kernel/ata_driver_irq.c:303-310 | without interrupts at most the first command is issued and no block moves |
| AtaIrqWrites.WriteNeverMoves | kernel/ata_driver_irq.c:303-342 | against a device that interrupts only once a block is sent (section 9.6 of ATA/ATAPI-6), no write ever sends one |
| AtaDevice.CopyInBlock | kernelLoader/atadriver.c:98-121 | after a copy, block i of the buffer is sector lba + i |
| AtaDevice.CopyInOutside | kernelLoader/atadriver.c:98-121 | words outside the buffer are untouched |
| AtaDevice.CopyOutBlock | kernelLoader/atadriver.c:73-96 | after a copy to disk, sector lba + i is block i of the buffer |
| AtaDevice.CopyOutOutside | kernelLoader/atadriver.c:73-96 | sectors not named are untouched |
| AtaDevice.WriteThenRead | kernelLoader/atadriver.c:73-199 | what was written is read back, block by block |
| AtaPoll.Poller.WaitIdle | kernelLoader/atadriver.c:8-19 | succeeds iff the first status not to be waited on within 10^8 reads says ready; then the device is not busy and shows no failure |
| AtaPoll.Poller.WaitDrq | kernelLoader/atadriver.c:21-31 | succeeds iff the first status not to be waited on within 10^7 reads requests data; then data is offered, and the device not busy |
| AtaPoll.WaitWords | kernelLoader/atadriver.c:8-31 | the statuses that end each wait, are waited on, or make it give up, by bit number |
| AtaPoll.Poller.Lba28Set | kernelLoader/atadriver.c:64-71 | the registers hold the 28-bit address, the drive register E0h plus bits 24 to 27; four status reads have passed |
| AtaPoll.Poller.Lba48Set | kernelLoader/atadriver.c:123-151 | the registers read back the 48-bit address and the sector count modulo 65536, zero meaning 65536; the drive register is E0h |
| AtaPoll.Poller.IssueCommand | kernelLoader/atadriver.c:77-84 | one single-sector command with the operation's opcode (20h, 30h, 24h, 34h), for drive 0 and the address modulo 2^28 or 2^48, reaches the device after four or eight status reads; a device that is not busy, which decodes opcode and drive by number, is on its way to the sector; four more reads follow |
| AtaPoll.Poller.Approach | kernelLoader/atadriver.c:79-86 | command and wait: success means that exactly the sector asked for is offered, or room for it, and the device is not busy |
| AtaPoll.Poller.Insw | kernelLoader/atadriver.c:112 | one block arrives at the pointer and nowhere else |
| AtaPoll.Poller.Outsw | kernelLoader/atadriver.c:87 | one block is sent, and the device is busy storing it |
| AtaPoll.Poller.ReadPoll | kernelLoader/atadriver.c:98-121 | success means exactly the sectors asked for are in the buffer, failure a prefix of them, whatever the device's busy times; a device without failures that answers in time makes it succeed; at most count (10^8 + 10^7) + 10^8 status reads |
| AtaPoll.Poller.WritePoll | kernelLoader/atadriver.c:73-96 | success means exactly the buffer is on the disk and the device idle, failure a prefix of it with at most one sector in doubt or still being stored; a device without failures that answers in time makes it succeed; at most count (10^8 + 10^7) + 10^8 status reads |
| AtaPoll.OtherSectorsKept | kernelLoader/atadriver.c:73-96 | however a write ends, and while a block is being stored, sectors it does not name are kept |
| AtaPoll.ObligingDevice | kernelLoader/atadriver.c:8-31 | there is a device, busy after every command and block, that answers every wait in time |

## Left out

- Port input and output, `invlpg`, loading CR3 and reading the stack pointer: hardware effects. Port accesses are events of a trace, CR3 is a field, the stack pointer and the kernel's bounds are parameters.
- TLB contents and access rights: table entries never carry the user bit, so only the flags stored in the leaf are spoken of.
- Identity access while the boot map is loaded: the frames that it reaches are those in `mem`, and start-up requires the frames it takes to be among them.
- `zero`: modelled word by word, not byte by byte; nothing else runs in between.
- Vmm.AddressSpace.Init: requires a ceiling of at most 2^47 and a kernel and stack window below 2^47, because above that HHDM_OFFSET plus the address wraps; and that the frames it takes can be written.
- Vmm.AddressSpace.MapInternal: says nothing about what memory holds after the C code has zeroed page ~0; the machine's run ends there in `Fault`, and `Init` then reports `Crashed`.
- Vmm.AddressSpace.AddTable: stops where the C code, with no free frame, goes on to write at address ~0.
- Vmm.AddressSpace.Map1Gb: requires that the GiB has no level-2 table, as is so in every call the kernel makes; the C code would overwrite its link.
- Pmm.FrameAllocator.FrameAlloc: stops at the end of the array with no free frame, where the C code reads on past it (see ScanAsCoded).
- Vmm.AddressSpace.PageMap: requires, for a page of the direct map, that the words followed there name no tables of the tree; if they do, the walk edits the tree itself. So do PteGet, PageAlloc and PageUnmap.
- Vmm.AddressSpace.PteGetOffline: requires an address outside large pages, as in every call start-up makes.
- Vmm.AddressSpace.PageFree: requires a page outside the direct map, and that the frame behind the leaf, if not reserved, is memory of this bitmap that is neither free nor a table, as is so for every page made by page allocation or start-up. The C function's `flags` parameter is never used.
- Vmm.AddressSpace.PageAlloc: for page 0 the C function's result, the address 0, cannot be told from NULL; the ghost result says which it was.
- Vmm.AddressSpace.PteGet: the table passed is the one in CR3, as in every call the kernel makes.
- Pmm.FrameAllocator.FrameFree: requires a frame number that the bitmap has; the C code does not test it.
- Pmm.FrameAllocator.Init: requires the kernel's end to lie inside the bitmap.
- Interrupts inside `insw` and `outsw`: each block transfer is one event, since the handler touches neither buffer nor data port.
- The identify buffer: its transfer is an event, its contents are not kept.
- PIC remapping and unmasking (`kernel/ata_driver_irq.c:39-100`): straight-line port writes. The end-of-interrupt writes are events.
- AtaIrqReads.ReadsArrive: assumes that the device is not busy when the request begins and never shows DRQ with BSY; without the latter SlowReadIsWrong is a counterexample. ReadsAgree assumes the same for the interrupt-driven side.
- AtaIrqPrompt.DoneWhileStoring: begins at the last block of a write; how such a device comes to interrupt before the block is not modelled.
- AtaPoll.Poller.ReadPoll: one method stands for the 28-bit and the 48-bit function, as does WritePoll; the widths differ in `IssueCommand` and `Width`.
- AtaPoll.Poller.StatusGet: assumes an honest device: BSY while busy, DRQ otherwise only in a data phase, a failure shown until the next command.
- What the data register holds while the device is busy: such a transfer leaves memory, or the disk, unknown, which the model writes as empty.
- `ata_init` of the polling driver, `kernelLoader/ata_driver.c` (a near copy of `kernelLoader/atadriver.c`), `kernelLoader/idt.c`, the boot loader, the entry code and the linker scripts.
