# A Dafny model of a small RISC-V teaching kernel

The project models the parts of the kernel whose correctness does not show in any single
function, and proves what they promise. The kernel has one active core and changes tasks only
inside `do_block` and `do_scheduler`, so a kernel history is a sequence of steps between those
points. Clocks, interrupts, devices and user programs appear as the order and the arguments of
those steps.

| part | files |
|---|---|
| physical pages, Sv39 tables, copy-on-write fork, page faults, teardown | `Sv39`, `Ownership`, `Pool`, `Memory`, `Fork`, `Fault`, `Teardown`, `Reference`, `Halves`, `Runs` |
| write-back buffer cache | `BufferCache`, `Bio`, `Disk`, `Interleave` |
| linked lists, scheduler, futexes | `List`, `Sched`, `SlotWaits`, `Futex` |
| ring buffer and pipes | `RingBuffer`, `Pipe` |
| FAT32 allocation, cluster chains, file names | `FatTable`, `Chains`, `FatRuns`, `FatVolume`, `LongName` |
| clock page replacement and swapping | `Clock`, `Swap` |
| time conversion, descriptor numbers | `TimeConv`, `FdTable` |
| shared lemmas | `Arith`, `Seqs` |

## Main results

- **Fork by sharing behaves as fork by copying.** For every list of process creations, forks,
  stores, loads, unmappings and exits, each address space reads exactly what it would read if
  fork had copied every page. This includes forks, creations and copy-on-write faults that sleep
  in `allocPage` at any point of their work, while the other tasks go on, and that are resumed
  later. A request is refused exactly when the reference machine does not enable it, new spaces
  are fresh, a task sleeps only when the free pages have run out, and once all tasks are gone
  every page of the pool is free again (`Runs.Run`, `Runs.RunFromBoot`). Behind it stands one
  invariant: a page is free iff it has no holder, the holders of a data page are the leaf entries
  that map it, `share_num` is their number less the tasks asleep in `deal_no_W`, a writable leaf
  entry is the only mapping of its page, and the three-level tables are trees of pointer entries
  whose walk is a map lookup. By the access check of section 4.3.2 of the RISC-V privileged
  architecture a program reaches exactly its mapped pages, under exactly their permissions
  (`Sv39.TranslateIff`). The stack pages of a forked child are copies of its own and writable
  (`Fork.CopyStack`, `Runs.PagesStage`). A run has to stop exactly at a request that takes a page from such sleepers, see below.
- **The buffer cache is a plain array of sectors.** For every list of multi-sector reads, writes
  and syncs, with any evictions, each read gives the last write, and after a sync the disk itself
  is that array (`Disk.Serve`). Under every interleaving of processes at the yield points the log
  consists of exactly the accesses of the lock holders, in order, each read in it sees the last
  write to its sector (`Interleave.Schedule`), and nobody sleeps on a free lock or for a buffer
  while one is free (`Interleave.Safe`).
- **No task is lost or duplicated.** Every sequence of scheduler steps, with clones that sleep
  between taking a slot, marking it ready and enqueueing it, leaves every task in exactly one
  place, and its status names that place exactly when it is not under construction
  (`Sched.Scheduler.Run`). Freeing a slot wakes one task that waits for one, and over every run
  this is enough: while somebody sleeps for a slot, each free slot has a woken task of its own that
  is still to try (`SlotWaits.SlotsServed`). Futex requeueing conserves waiters (`Futex.RequeueConserves`). Pipes
  deliver a prefix of what they accepted and never have sleeping readers and sleeping writers
  together (`Pipe.Stream`, `Pipe.Pipe.Run`).
- **The two FAT copies agree, so both free-cluster scanners choose the same cluster, and cluster
  chains stay apart, acyclic and ended** over every run of allocations by any number of tasks,
  exactly as long as every cluster that is written is in no chain at its write
  (`FatVolume.Volume.ScanBoth`, `FatRuns.RunIff`, `Chains.ChainAcyclic`).
- **Swapping is invisible.** Loads give the bytes stored last, whatever is swapped out in between
  (`Swap.Swapper.Run`).

Where a property one would expect is false of the code, the model keeps the code and states
exactly when the property holds:

- `deal_no_W` lowers `share_num` before it allocates the page for the copy. While the allocation
  sleeps, `share_num` is too low: a store leaves it so exactly when its page is mapped read-only,
  has a `share_num` other than one and no page is free (`Fault.HandleStoreFault`,
  `Fault.UserStore`). The other tasks may go on all the same, and the eager copy is still refined,
  until the one holder of the page that is awake stores to it, unmaps it or exits: that is exactly
  the guard of the failure (`Runs.Step`, `Runs.Run`, and in terms of the tasks
  `Halves.ContestedIff`), and after it no account of holders makes the invariant true again. A
  store then shows in the sleepers' spaces and in their copies (`Fault.UserStore`,
  `Fault.SleepLeaks`); an unmapping or exit hands the page out again, and a sleeper copies zeros
  (`Fault.FreePageHelper`, `Teardown.RecyclePages`, `Fault.FreeLeaks`).
- One store fault makes a store possible iff the page is mapped and its entry is not already
  writable with A or D set; a missing page takes a second fault, because `deal_no_alloc` sets
  neither bit; a load followed by a store on hardware that traps on a clear D bit is stuck
  (`Fault.StoreFaultProgress`, `Fault.LoadThenStoreStuck`).
- The status of a task names its place iff no clone has it under construction. Of a task under
  construction "exited iff on the free list" fails exactly until it is marked READY, and "ready
  iff on the ready queue" exactly from then on (`Sched.StatusNamesPlace`).
- The idle task has the status Running from its first dispatch on, for ever, and READY before. So
  "Running iff it has the processor" holds of it, before that dispatch, exactly once some task has
  been dispatched, and afterwards exactly while it has the processor (`Sched.IdleRun`).
- The free-cluster scans do not look where the table ends: they give the lowest free cluster iff
  there is a free one, else a number past the table (`FatVolume.FirstEmptyFree`).
- The scan for a free cluster and the table writes that take it are apart, and a task can sleep in
  between. A write keeps the files apart, acyclic and ended iff its cluster is in no chain at that
  moment and, for a growth, the file still ends where it did (`FatRuns.StepIff`); two tasks that
  scan before either writes break it (`FatRuns.ScansCollide`), allocations that do not overlap
  never do (`FatRuns.AloneRun`).
- `fat32_write` takes only 0x0FFFFFFF for the end of a chain: on a chain that ends in another end
  mark of FAT32 it does not allocate but goes on to a cluster past the table
  (`FatVolume.Volume.AtChainEnd`).
- `find_swap_A` compares its cursor with the page it has just left, so it stops iff the list has
  one page or holds a page that can be swapped (`Clock.ScanStops`).
- A long file name comes back iff it has at most 194 characters, all of the supported set, since
  the decoder keeps four bits of the sequence number (`LongName.LongNameRoundTrip`); a short one
  comes back, up to case, iff it holds no space and no dot without an extension
  (`LongName.ShortNameRoundTrip`).
- A write of no bytes breaks "sleeping writers mean a full pipe" iff the pipe has a reader and is
  not full (`Pipe.ZeroWrite`).
- Whoever sleeps on a pipe has an open end on the other side to wake it, until the last end of one
  side is closed while somebody sleeps on the other: exactly that step breaks it, because a close
  wakes nobody (`Pipe.OrphansIff`), and a reader left behind so sleeps through every later run
  (`Pipe.OrphanSleeps`).
- The free-cluster scans start at the table copies iff the volume has two tables
  (`FatTable.ScanStart`).
- `do_futex` decides by bits: an odd operation code wakes, 3 modulo 4 also requeues, every even
  code waits, so `FUTEX_CMP_REQUEUE` (4) waits. The assertion of `get_node` fails exactly when more
  of the addresses concerned lack a node than there are nodes left (`Futex.FutexTable.DoFutex`).

Where comments and code differ the model follows the code; in particular
`free_page_helper` tests `x & _PAGE_PRESENT == 0`, which binds as `x & 0`, so it is modelled on
mapped pages, where this makes no difference.

## Model

| member | source | states |
|---|---|---|
| `Sv39.WalkIsLookup` | arch/riscv/include/pgtable.h:295-318 | in a well-formed table tree the three-level walk of any user page gives exactly the recorded leaf entry |
| `Sv39.UserPageAdmits` | arch/riscv/include/pgtable.h:160-170 | the permissions of a program page admit user loads and fetches, and stores iff W is set, once A and D are |
| `Sv39.TranslateIff` | arch/riscv/include/pgtable.h:295-318 | the hardware walk with the access check finds a page for a user load, store or fetch iff the leaf map has one that admits it, and then that page |
| `Sv39.LowAtRole` | kernel/mm/mm.c:147-167 | a walk arrives only at the third-level table of its own address space and region, so tables are never shared |
| `Sv39.TreeSetLeaf` | kernel/mm/mm.c:255-293 | writing one third-level entry is an update of one key of the leaf map and keeps the tree |
| `Sv39.TreeLinkMid` | kernel/mm/mm.c:147-167 | hanging a cleared page below an empty root entry keeps the tree and all translations |
| `Sv39.TreeLinkLow` | kernel/mm/mm.c:147-167 | the same one level down |
| `Sv39.TreeDropRoot` | kernel/mm/recycle.c:11-50 | removing all tables of one root leaves a tree with the leaves of the others |
| `Ownership.SoleMapping` | kernel/mm/mmirq.c:24-30 | a share count of one means that no other leaf entry maps the page |
| `Ownership.OwnedShare` | kernel/sched/init.c:599-608 | sharing a page with both entries read-only keeps counts, free list and the sole-writer rule |
| `Ownership.OwnedSplit` | kernel/mm/mmirq.c:57-79 | moving one entry to a private copy keeps counts, free list and the sole-writer rule |
| `Ownership.OwnedUnmap` | kernel/mm/mm.c:436-464 | unmapping lowers one count by one and frees the page with its last holder |
| `Pool.BootInv` | kernel/mm/mm.c:27-42 | the pool after boot satisfies the invariant |
| `Pool.DropInv` | kernel/mm/recycle.c:11-50 | after the teardown of a space the invariant holds and every other space reads as before |
| `Pool.AllFreed` | kernel/mm/recycle.c:11-50 | without address spaces, free pages plus kernel-held pages are all pages |
| `Pool.ShareBound` | kernel/mm/mm.c:173-184 | a share count never exceeds the number of address spaces |
| `Pool.FillSole` | kernel/mm/mmirq.c:13-79 | writing through a page with a single mapping changes what that mapping reads and nothing else |
| `Pool.LagBreaks` | kernel/mm/mmirq.c:32-32 | while a task sleeps in deal_no_W, share_num does not satisfy the invariant |
| `Pool.WriterLost` | kernel/mm/mmirq.c:24-30 | a writable entry for a page with another entry: no counts and roles satisfy the invariant |
| `Pool.FreedLost` | kernel/mm/mm.c:71-87 | a mapped page on the free list: no counts and roles satisfy the invariant |
| `Mm.Memory.constructor` | kernel/mm/mm.c:27-42 | boot gives n free pages, cleared and in address order, that satisfy the invariant |
| `Mm.Memory.AllocPage` | kernel/mm/mm.c:45-68 | takes the head of the free list, cleared, with one holder, and counts it; nothing else changes, and what all spaces read stays |
| `Mm.Memory.FreePage` | kernel/mm/mm.c:71-87 | one holder less; the last one puts the page at the head of the free list and counts it |
| `Mm.Memory.CheckPage` | kernel/mm/mm.c:147-167 | follows a table entry or hangs a fresh table of the right role below it; the entry is a pointer (V set, R, W and X clear); all translations stay |
| `Mm.Memory.CheckLeaf` | kernel/mm/mm.c:147-167 | keeps a present leaf entry, else maps a fresh zero page whose entry admits user loads, stores and fetches once A and D are set |
| `Mm.Memory.TablesFor` | kernel/mm/mm.c:255-293 | the two table levels of a user page are there afterwards and all translations stay, or the pool is empty |
| `Mm.Memory.AllocPageHelper` | kernel/mm/mm.c:255-293 | a mapped page is left unchanged; otherwise exactly one key of the leaf map is added, with a zero page that admits user loads, stores and fetches once A and D are set, and every other page of every space translates and reads as before |
| `Mm.Memory.GetPte` | arch/riscv/include/pgtable.h:295-318 | finds the entry iff the page is mapped |
| `Mm.ExactIff` | kernel/mm/mmirq.c:32-60 | share_num is exact iff nobody sleeps in deal_no_W |
| `Fork.ShareOne` | kernel/sched/init.c:599-608 | one shared page: both entries lose W, map the same page and admit every load and fetch that the parent's did and no store; the child reads the parent's bytes, everything else reads as before |
| `Fork.CopyThird` | kernel/sched/init.c:586-609 | the innermost loop shares exactly the entries of one third-level table and touches the entries of no third space |
| `Fork.CopySecond` | kernel/sched/init.c:576-610 | the middle loop shares exactly the pages of one second-level table, or stops at a known page when the pool is empty |
| `Fork.CopyOnWrite` | kernel/sched/init.c:562-612 | afterwards the spaces are those of an eager copy of source to destination: every entry of the source is in the destination, shared read-only unless it was there before, and no entry of a third space changes; when the kernel has to sleep on the way no other space has changed, what the destination has so far reads as the source, and the call can be made again |
| `Fork.CopyStack` | kernel/sched/sched.c:478-501 | the child's pages are exactly the run of mapped pages of the parent from the first stack page down, each writable, on a page other than the parent's and with the parent's bytes; at a sleep this holds of the run above the page that it names, from which it can go on |
| `Fork.BoundedIffEnds` | kernel/sched/sched.c:478-501 | the stack loop meets an unmapped user page on the tables iff the leaf map has one below |
| `Fork.NewSpace` | kernel/sched/sched.c:454-456 | a fresh root, without pages; what all spaces read stays |
| `Fault.CheckWSdAndSetAd` | kernel/mm/mm.c:378-434 | says which of the three cases a mapped page is in (no write permission, nothing to do, A or D missing), sets A, and D for a store, and changes nothing else; what any space reads stays |
| `Fault.LoadFaultProgress` | kernel/mm/mm.c:418-430 | a load fault makes the load admissible iff the page is mapped, and sets A alone |
| `Fault.StoreFaultProgress` | kernel/mm/mm.c:418-430 | one store fault makes the store admissible iff the page is mapped and was not already writable with A or D set; a missing page takes two; the other permissions stay |
| `Fault.LoadThenStoreStuck` | kernel/mm/mm.c:425-428 | the failing case is reached by a load from a fresh page, and no further fault leaves it |
| `Fault.SplitPage` | kernel/mm/mmirq.c:57-79 | with share_num already lowered, directly or before a sleep, the faulting entry moves to a writable private copy; all spaces read as before and there is one sleeper less |
| `Fault.ShareSub` | kernel/mm/mmirq.c:32-32 | share_num falls by one, and the caller is the sleeper that accounts for it |
| `Fault.DealNoW` | kernel/mm/mmirq.c:13-79 | takes over a page with a share_num of one, else lowers it and splits; sleeps iff a copy is needed and no page is free; the invariant fails, for good, iff the page is taken over from sleeping holders |
| `Fault.SleepLeaks` | kernel/mm/mmirq.c:13-79 | what leaks to a sleeper is in the copy that it makes when it is woken |
| `Fault.FreeLeaks` | kernel/mm/mm.c:45-87 | a sleeper whose page has been given up is woken with that very page, cleared, and copies zeros |
| `Fault.HandleStoreFault` | kernel/irq/irq.c:108-146 | afterwards the page is mapped and writable with exactly the entry of AfterStoreFault, and all spaces read as before except that a missing page now reads as zeros; it sleeps in deal_no_W, and share_num stops being exact, iff the page is mapped read-only with a share_num other than one and no page is free; the invariant fails, for good, iff the page is taken over from sleepers |
| `Fault.UserStore` | kernel/irq/irq.c:108-146 | a store changes one word of one page of one space, also when the page was shared; the same guards as for the fault; where the page is taken over, every sleeper's space shows the store |
| `Fault.ResumeStore` | kernel/mm/mmirq.c:57-79 | a store woken in deal_no_W changes one word of its own space, or sleeps on iff the pool is still empty |
| `Fault.UserLoad` | kernel/irq/irq.c:74-105 | a load returns the space's own word and touches no other space; it sleeps only with fewer than three free pages |
| `Fault.FreePageHelper` | kernel/mm/mm.c:436-464 | exactly one key leaves the leaf map, its page loses one holder; the invariant fails, for good, iff the page goes to the free list under its sleepers |
| `Teardown.ReleasePage` | kernel/mm/mm.c:71-87 | the next page of the teardown walk loses one holder and is counted once |
| `Teardown.RecycleThird` | kernel/mm/recycle.c:26-33 | the innermost loop releases exactly the pages of one third-level table |
| `Teardown.RecycleSecond` | kernel/mm/recycle.c:21-36 | the middle loop releases exactly the tables and pages below one second-level table |
| `Teardown.RecyclePages` | kernel/mm/recycle.c:11-50 | one reference dropped per user leaf, all table pages freed, and the result counts the pages; no page mapped elsewhere is freed, and the invariant holds, iff no page of the space has only sleepers besides |
| `Reference.BeganThenDone` | kernel/sched/sched.c:443-517 | a creation that begins and ends in one request shows only its end |
| `Halves.BuiltFrame` | kernel/sched/sched.c:443-517 | unfinished spaces keep what has been built of them while other tasks and other forks run |
| `Halves.OwnStep` | kernel/mm/mm.c:45-68 | a request that touches one space of a task that is awake keeps the whole task table |
| `Halves.StalledOk` | kernel/mm/mmirq.c:32-60 | a store that falls asleep in deal_no_W keeps the task table, with one sleeper more on its page |
| `Halves.WokenOk` | kernel/mm/mmirq.c:57-79 | a store that is woken and finished keeps it, with one sleeper less |
| `Halves.ContestedIff` | kernel/mm/mmirq.c:24-30 | the guard of the failure by counts is: somebody sleeps for the page, and whoever else has it sleeps there too |
| `Halves.VisibleFork` | kernel/sched/sched.c:443-517 | finishing a fork by sharing is, on the finished spaces, the eager copy of the parent |
| `Runs.StackStage` | kernel/sched/sched.c:459-459 | an unfinished space gets its kernel stack, or its creator sleeps on with nothing changed |
| `Runs.PagesStage` | kernel/sched/sched.c:478-501 | the stack copies go on from the page where they stopped; when they are complete the child has exactly the parent's run of stack pages, each private and writable; the reference machine does not move |
| `Runs.ShareStage` | kernel/sched/sched.c:503-505 | the sharing goes on and leaves the stack copies private; when it is complete the reference machine makes one eager fork |
| `Runs.Resume` | kernel/mm/mm.c:63-66 | a sleeping creation goes on to its end, or to the next sleep with the pool empty; the stack of a finished fork is private |
| `Runs.Create` | kernel/sched/sched.c:443-517 | a creation or fork from its first page on: done, with a private stack, or begun under a fresh root with the pool empty |
| `Runs.TryStore` | kernel/irq/irq.c:108-146 | a store moves the reference machine, or waits exactly when it has to copy a page and none is free, or breaks exactly when it takes a page from sleepers |
| `Runs.TryRetry` | kernel/mm/mmirq.c:57-79 | a waiting store moves the reference machine when a page has become free |
| `Runs.TryUnmap` | kernel/mm/mm.c:436-464 | unmapping removes one page of one space; it breaks exactly when it takes the page from sleepers |
| `Runs.TryExit` | kernel/sched/init.c:620-635 | exit removes one space and its kernel stack and nothing else; it breaks exactly when one of its pages has only sleepers besides |
| `Runs.Step` | kernel/sched/sched.c:443-506 | one request moves the reference machine by one event that answers it, is ignored iff the reference does not enable it, and sleeps only when the pages have run out; it breaks the invariant iff, before it, its task is the only awake holder of a page with sleepers that it writes or gives up |
| `Runs.ServedNow` | kernel/irq/irq.c:74-146 | with three free pages every load, store, unmapping and exit of a live task that is not asleep is carried out, and a load gives the word of the reference; a fork is not ignored while a slot is free |
| `Runs.ResumedNow` | kernel/mm/mm.c:63-66 | with two free pages a process creation and a waiting store are finished |
| `Runs.HistoryRefines` | kernel/sched/sched.c:443-517 | the states of a run stand for the states of the reference machine, event by event |
| `Runs.Run` | kernel/sched/sched.c:443-506 | any list of requests: every event answers its request on the eagerly copying reference machine, spaces, live tasks, unfinished children and unfinished stores at the end are the reference's, with no task left the free count is restored, and the run stops early exactly at the first request that takes a page from sleepers |
| `Runs.RunFromBoot` | kernel/mm/mm.c:27-42 | the same from boot with n pages; after the last exit n pages are free |
| `Runs.ShareFitsByte` | kernel/mm/mm.c:173-184 | with at most NUM_MAX_TASK tasks every share count fits in eight bits |
| `BufferCache.EvictInv` | drivers/sdcard/bio.c:146-161 | giving a clean unreferenced buffer to another sector keeps the whole cache invariant |
| `BufferCache.PutInv` | drivers/sdcard/bio.c:239-250 | dropping a reference keeps the invariant, in both the last and the other case |
| `BufferCache.UnusedUnlocked` | drivers/sdcard/bio.c:158-158 | a buffer without references is unlocked, so the acquire after an eviction does not block |
| `BioCode.Bio.constructor` | drivers/sdcard/bio.c:81-104 | a fresh cache shows the disk; all buffers are clean, in order on the LRU list, and nothing is cached |
| `BioCode.Bio.FindInChain` | drivers/sdcard/bio.c:119-122 | finds the buffer of a sector iff the sector is cached |
| `BioCode.Bio.TakeRef` | drivers/sdcard/bio.c:122-138 | a hit references the cached buffer, puts it first in its hash chain, takes it off the LRU list if it was unused, and changes no sector |
| `BioCode.Bio.Recycle` | drivers/sdcard/bio.c:146-161 | a miss takes the last buffer of the LRU list, writes it back if dirty and changes no sector |
| `BioCode.Bio.Bget` | drivers/sdcard/bio.c:110-176 | the caller holds the buffer of its sector, or sleeps on its lock iff that is taken, or for a buffer iff none is free; a miss evicts the last buffer of the LRU list |
| `BioCode.Bio.Fill` | drivers/sdcard/bio.c:180-189 | the holder's buffer has the contents of its sector |
| `BioCode.Bio.Overwrite` | drivers/sdcard/disk.c:36-53 | overwriting a held buffer changes exactly its sector |
| `BioCode.Bio.AcquireSleep` | kernel/smp/sleeplock.c:41-51 | takes a free lock, else sleeps on it |
| `BioCode.Bio.ReleaseSleep` | kernel/smp/sleeplock.c:54-63 | frees the lock and wakes all its sleepers |
| `BioCode.Bio.Bput` | drivers/sdcard/bio.c:239-250 | the last reference returns the buffer to the front of the LRU list and wakes everyone short of a buffer |
| `BioCode.Bio.Brelse` | drivers/sdcard/bio.c:222-226 | unlocks and drops the reference; no sector changes |
| `BioCode.Bio.Bsync` | drivers/sdcard/bio.c:228-236 | no sector changes; afterwards the disk has every sector whose buffer nobody uses, and with nobody inside the cache all of them |
| `BioCode.AllClean` | drivers/sdcard/bio.c:228-236 | with nobody inside and a clean LRU list, the disk is current |
| `BufferCache.RemoveIs` | include/os/list.h:68-81 | removing an element keeps the others in their order |
| `Disk.DiskRead` | drivers/sdcard/disk.c:18-34 | the client's buffer receives exactly the sectors, the rest of it and the sectors stay |
| `Disk.DiskWrite` | drivers/sdcard/disk.c:36-53 | exactly the addressed sectors are replaced by the client's bytes |
| `Disk.ReadAfterWrite` | drivers/sdcard/disk.c:18-53 | a read returns the last write of the same sectors |
| `Disk.WrittenAt` | drivers/sdcard/disk.c:36-53 | sector by sector, what a write replaces and what it keeps |
| `Disk.PlainLast` | drivers/sdcard/disk.c:36-53 | the plain array holds, sector by sector, what was written last, or what it held at first |
| `Disk.Serve` | drivers/sdcard/disk.c:18-53 | any list of requests is answered as by a plain array; after a final sync the disk is that array |
| `Interleave.Safe` | drivers/sdcard/bio.c:110-250 | at every yield point: one buffer per sector, LRU iff unreferenced, LRU buffers unlocked, holders keep their sector, nobody sleeps on a free lock or for a buffer while one is free, one holder at a time |
| `Interleave.Do` | drivers/sdcard/bio.c:110-250 | one step of one process logs exactly the access of a holder to its own sector, or nothing, and moves the cache and the processes as its step says |
| `Interleave.AccessesAre` | drivers/sdcard/disk.c:18-53 | a read of a holder logs its sector as it is, a write changes exactly that sector, and no other step changes a sector |
| `Interleave.MovesAre` | drivers/sdcard/bio.c:110-176 | a process that asks for a sector, or is woken, holds its buffer afterwards unless the buffer is locked or none is free |
| `Interleave.ApplyLast` | drivers/sdcard/disk.c:18-53 | the reference array holds what the log wrote last to a sector, or what it held at first |
| `Interleave.LogPrefix` | drivers/sdcard/bio.c:110-250 | the log of a longer schedule begins with the log of a shorter one |
| `Interleave.Schedule` | drivers/sdcard/bio.c:110-250 | every schedule keeps the invariant; the log consists of exactly the holders' accesses, in order, with their sectors and data; each read returns the last write to its sector |
| `List.InitList` | include/os/list.h:53-56 | an empty list |
| `List.ListEmpty` | include/os/list.h:100-103 | true iff the list has no nodes |
| `List.LinkBetween` | include/os/list.h:59-66 | the node stands between its neighbours, whose other links stay |
| `List.Bypass` | include/os/list.h:68-72 | the neighbours point at each other, their other links stay |
| `List.ListAdd` | include/os/list.h:83-86 | the sequence of nodes with the node in front |
| `List.ListAddTail` | include/os/list.h:88-92 | the sequence of nodes with the node at the end |
| `List.ListDel` | include/os/list.h:74-81 | the sequence without that node, whose links are cleared |
| `List.ListMove` | include/os/list.h:94-98 | out of one list and to the front of another |
| `List.ListMoveWithin` | include/os/list.h:94-98 | to the front of the same list |
| `List.DelBeside` | include/os/list.h:74-81 | deleting from one list leaves any other list alone |
| `List.AddBeside` | include/os/list.h:83-86 | adding to one list leaves any other list alone |
| `Sched.SwitchOk` | kernel/sched/sched.c:86-145 | the scheduler restores the invariant from every settled state |
| `Sched.RoundRobin` | kernel/sched/sched.c:86-145 | the task at position k of the ready queue has the processor after exactly k + 1 switches |
| `Sched.IdleStep` | kernel/sched/sched.c:96-136 | one entry makes the idle task Running exactly when it dispatches it, and never anything else afterwards |
| `Sched.IdleRun` | kernel/sched/sched.c:33-136 | over every run from boot: the status of the idle task, and exactly when it is Running iff it has the processor |
| `Sched.OnePlace` | kernel/sched/sched.c:86-176 | a task is on the ready queue, on a wait queue, on the free list, on the processor, under construction or a zombie, and in exactly one of these |
| `Sched.StatusNamesPlace` | kernel/sched/sched.c:447-516 | the status names the place iff the task is not under construction; Ready iff on the ready queue fails exactly of one marked ready and not enqueued, Exited iff on the free list exactly of one taken and not marked |
| `Sched.EnqueueOk` | kernel/sched/sched.c:157-168 | blocking the running task keeps all lists consistent |
| `Sched.WakeOk` | kernel/sched/sched.c:170-176 | waking any sleeper keeps all lists consistent |
| `Sched.TakeOk` | kernel/sched/sched.c:447-447 | a slot taken off the free list and on no list yet keeps the lists consistent |
| `Sched.MarkOk` | kernel/sched/init.c:229-229 | marking it ready before it is on the ready queue keeps the lists consistent |
| `Sched.PublishOk` | kernel/sched/sched.c:516-516 | its enqueueing makes it an ordinary ready task |
| `Sched.FreePcbOk` | kernel/sched/init.c:741-756 | a zombie or the running task becomes a free slot, the lists stay consistent |
| `Sched.ReapFrees` | kernel/sched/init.c:741-756 | collecting a zombie frees its slot first and wakes exactly the first task that waits for a slot |
| `Sched.ExitFrees` | kernel/sched/sched.c:397-430 | the list part of both exit modes, and which task runs next |
| `Sched.SleepMoves` | kernel/sched/sched.c:157-168 | who sleeps is first in its queue and Blocked, and the first ready task runs |
| `Sched.YieldMoves` | kernel/sched/sched.c:96-136 | who is preempted is last in the ready queue, and the first runs |
| `Sched.WakeMoves` | kernel/sched/sched.c:170-176 | waking one task, and waking a whole queue, list by list |
| `Sched.CloneMoves` | kernel/sched/sched.c:447-516 | the three list steps of a clone |
| `Sched.Scheduler.constructor` | init/main.c:56-120 | the idle task is READY and has the processor, the shell is the ready queue, all other slots are free |
| `Sched.Scheduler.DoScheduler` | kernel/sched/sched.c:86-145 | a running task other than the idle one goes to the back of the ready queue; the first of the queue runs, or the idle task when it is empty; no other status, list or slot changes; the invariant holds |
| `Sched.Scheduler.DoBlock` | kernel/sched/sched.c:157-168 | the caller is Blocked and first in the wait queue, and the first ready task, or else the idle task, runs; the invariant holds |
| `Sched.Scheduler.DoUnblock` | kernel/sched/sched.c:170-176 | exactly the woken task leaves its queue, is Ready and first in the ready queue; the invariant holds |
| `Sched.Scheduler.WakeAll` | kernel/smp/sleeplock.c:22-29 | the queue is empty, its tasks are Ready and stand, reversed, in front of the ready queue; nobody else changes |
| `Sched.Scheduler.WakeUpTo` | kernel/locking/futex.c:96-100 | exactly min(num, waiting) tasks are woken, in queue order |
| `Sched.Scheduler.GetFreePcb` | kernel/sched/init.c:715-734 | takes the first free slot and puts it under construction by the caller, or blocks the caller on the slot queue iff there is none |
| `Sched.Scheduler.MarkReady` | kernel/sched/init.c:216-229 | the slot under construction becomes READY, off all lists |
| `Sched.Scheduler.AddToReady` | kernel/sched/sched.c:516-516 | the slot under construction goes to the front of the ready queue |
| `Sched.Scheduler.FreePcb` | kernel/sched/init.c:741-756 | the slot is first on the free list; the first task waiting for a slot, if there is one, leaves the queue, is Ready and first in the ready queue, and otherwise queues and ready list stay |
| `Sched.Scheduler.Exit` | kernel/sched/sched.c:397-430 | the running task is Exited with its slot first on the free list, or a Zombie when its parent collects it, and never runs on; a task waiting for a slot runs next when one was freed, else the first ready task or the idle one |
| `Sched.Scheduler.Step` | kernel/sched/sched.c:86-176 | any kernel entry is the step of the specification and keeps the invariant |
| `Sched.Scheduler.Run` | kernel/sched/sched.c:86-176 | after any sequence of entries, sleeps inside clone included, every task is in exactly one place, and in the one its status names iff it is not under construction |
| `SlotWaits.StepServed` | kernel/sched/init.c:715-756 | every kernel entry keeps: while somebody sleeps for a slot, the free slots are at most as many as the woken tasks that are still to try, all of them awake |
| `SlotWaits.SlotsServed` | kernel/sched/init.c:715-756 | no lost wake-up: this holds over every run in which a task woken in get_free_pcb tries again when it runs |
| `Futex.InsertOk` | kernel/locking/futex.c:40-61 | a new node keeps one node per address, each once in the bucket of its address |
| `Futex.InsertQueues` | kernel/locking/futex.c:40-61 | creating a node changes nobody's queue |
| `Futex.QueueSet` | kernel/locking/futex.c:29-65 | the queue of a node is the queue of its address and of no other |
| `Futex.MoveOk` | kernel/locking/futex.c:117-123 | moving one waiter between queues keeps all lists consistent, also from a queue to itself |
| `Futex.WakeConserves` | kernel/locking/futex.c:91-105 | woken plus remaining waiters are the former waiters; min(num, waiting) are woken |
| `Futex.RequeueConserves` | kernel/locking/futex.c:106-124 | the waiters of both addresses together stay the same; min(num, waiting) change queue |
| `Futex.FutexTable.constructor` | kernel/locking/futex.c:12-19 | no address has a queue |
| `Futex.FutexTable.FindNode` | kernel/locking/futex.c:31-39 | finds the node of an address iff there is one |
| `Futex.FutexTable.GetNode` | kernel/locking/futex.c:29-65 | the node of the address, created on demand; fails iff there is none and it may not create one or no node is left; no queue changes |
| `Futex.FutexTable.Wait` | kernel/locking/futex.c:67-89 | the caller blocks in front of the queue of its address; fails iff the address has no node and none is left; other queues stay |
| `Futex.FutexTable.WakeUp` | kernel/locking/futex.c:91-105 | the first min(num, waiting) tasks of the address become ready; other queues stay |
| `Futex.FutexTable.GetBoth` | kernel/locking/futex.c:107-116 | both nodes, created on demand; fails iff more of the two addresses lack a node than are left |
| `Futex.FutexTable.Requeue` | kernel/locking/futex.c:106-124 | min(num, waiting) tasks move to the other address; the same address twice changes nothing; fails iff more of the two addresses lack a node than are left |
| `Futex.FutexTable.DoFutex` | kernel/locking/futex.c:169-190 | which operation codes wait, wake and requeue, the -EAGAIN case, the effect on the queue of every address, and exactly when the node table is too full for it |
| `RingBuffer.Copy` | include/os/ring_buffer.h:70-78 | the byte copy between two buffers |
| `RingBuffer.SpanRead` | include/os/ring_buffer.h:63-86 | moving head forward, around the end or not, drops the first bytes of the queue |
| `RingBuffer.SpanWrite` | include/os/ring_buffer.h:89-111 | filling from tail on, around the end or not, appends |
| `RingBuffer.Ring.constructor` | include/os/ring_buffer.h:27-36 | an empty ring |
| `RingBuffer.Ring.Used` | include/os/ring_buffer.h:38-41 | the length of the queue |
| `RingBuffer.Ring.Free` | include/os/ring_buffer.h:43-47 | the room left in a queue of capacity size - 1 |
| `RingBuffer.Ring.Read` | include/os/ring_buffer.h:63-86 | returns and removes the first min(used, count) bytes |
| `RingBuffer.Ring.Write` | include/os/ring_buffer.h:89-111 | appends the first min(free, count) bytes |
| `Pipe.PipeNextOk` | kernel/fat32/pipe.c:33-136 | every step keeps "sleeping readers mean an empty pipe, sleeping writers a full one" |
| `Pipe.ZeroWrite` | kernel/fat32/pipe.c:75-88 | a write of no bytes breaks it iff the pipe has a reader and is not full |
| `Pipe.ReadMoves` | kernel/fat32/pipe.c:33-54 | what a read does to the bytes, the queues and the ready list, over the state before it |
| `Pipe.WriteMoves` | kernel/fat32/pipe.c:67-90 | the same of a write |
| `Pipe.OrphansIff` | kernel/fat32/pipe.c:97-136 | every step keeps "a sleeper has an open end on the other side" iff it does not close the last end of a side while somebody sleeps on the other |
| `Pipe.OrphanSleeps` | kernel/fat32/pipe.c:43-47 | a reader left behind by the last write end stays asleep over every run without a write begun before |
| `Pipe.Stream` | kernel/fat32/pipe.c:33-136 | over every run the bytes read are a prefix of the bytes accepted, the rest is in the ring, and readers and writers never sleep together |
| `Pipe.Pipe.constructor` | kernel/fat32/pipe.c:140-159 | a new pipe is empty and nobody sleeps on it |
| `Pipe.Pipe.TryRead` | kernel/fat32/pipe.c:42-52 | sleeps iff the pipe is empty with a write end open; at the end of the file it returns 0 and the scheduler is unchanged; else it returns the first min(used, count) bytes, which leave the pipe, and wakes all writers |
| `Pipe.Pipe.TryWrite` | kernel/fat32/pipe.c:75-88 | sleeps iff nothing can be written with a read end open; with none it returns 0 and the scheduler is unchanged; else it appends the first min(room, count) bytes and wakes all readers |
| `Pipe.Pipe.Read` | kernel/fat32/pipe.c:33-54 | the argument checks, which change nothing, and the first attempt, with the same exact condition for the sleep and the same result at the end of the file |
| `Pipe.Pipe.Write` | kernel/fat32/pipe.c:67-90 | the argument check, which changes nothing, and the first attempt, also of no bytes, with the same exact condition for the sleep |
| `Pipe.Pipe.Close` | kernel/fat32/pipe.c:97-136 | exactly the named end falls by one, or -EINVAL and nothing changes |
| `Pipe.Pipe.Step` | kernel/fat32/pipe.c:33-136 | any step of any task is the step of the specification; what it read and accepted is what the operation asks for and the pipe allows |
| `Pipe.Pipe.Run` | kernel/fat32/pipe.c:33-136 | for every interleaving the bytes read and accepted are the concatenation of those of the operations, and the stream is intact |
| `FatTable.ScanStart` | kernel/fat32/fat32.c:41-41 | the scans start at the table copies iff there are two tables |
| `FatTable.WordSet` | kernel/utils/utils.c:1066-1068 | a little-endian entry reads back as written, its neighbours stay |
| `FatTable.WordValue` | kernel/utils/utils.c:1067-1068 | an entry is the value of its four bytes, lowest byte first |
| `FatTable.CopyValue` | include/fs/fat32.h:264-272 | entry c of a copy is the value of bytes 4c to 4c + 3 of its sectors |
| `FatTable.StoreBytes` | kernel/utils/utils.c:1059-1075 | storing an entry changes no other byte of either copy and nothing before the tables |
| `FatTable.CopyInside` | include/fs/fat32.h:253-262 | the sector and offset of an entry lie inside its copy of the table |
| `FatTable.StoreOk` | kernel/utils/utils.c:1059-1075 | storing an entry changes that entry of that copy, not the other copy and no data sector |
| `Chains.ChainAcyclic` | kernel/utils/utils.c:1059-1075 | a chain that ends visits no cluster twice |
| `Chains.ChainUnique` | include/fs/fat32.h:264-272 | the first cluster determines the chain |
| `Chains.LinkOk` | kernel/utils/utils.c:1059-1075 | linking behind the last cluster lengthens that file by one and leaves the others as they are |
| `FatRuns.MarkIff` | kernel/utils/utils.c:1059-1075 | marking a cluster as an end keeps the files iff it is last in every chain that has it |
| `FatRuns.NewIff` | kernel/utils/utils.c:1015-1039 | marking a cluster as a file of its own keeps the files iff it is in no chain |
| `FatRuns.AppendIff` | kernel/utils/utils.c:437-465 | link and mark keep the files iff the cluster is in no chain and the file ends at the old cluster |
| `FatRuns.AttachIff` | kernel/fat32/fat32.c:440-442 | linking keeps the files iff, besides, the cluster is marked as an end |
| `FatRuns.StepIff` | kernel/utils/utils.c:627-814 | every scan or write keeps the volume in order iff its condition holds before it |
| `FatRuns.RunIff` | kernel/fat32/fat32.c:437-447 | over every run of scans and writes of any number of tasks the files are apart, acyclic and ended throughout iff every write meets its condition |
| `FatRuns.RunGrows` | kernel/fat32/fat32.c:437-447 | files only gain clusters at their ends |
| `FatRuns.AloneRun` | kernel/fat32/fat32.c:437-447 | allocations that do not overlap keep the files apart, acyclic and ended |
| `FatRuns.ScansCollide` | kernel/utils/utils.c:627-814 | two tasks that scan before either writes choose the same cluster: the first write, a creation or a growth, keeps the files, the second does not |
| `FatVolume.FourZeros` | kernel/utils/utils.c:1022-1029 | four zero bytes iff the entry is 0 |
| `FatVolume.ScanBuffer` | kernel/utils/utils.c:477-482 | the first empty entry of a buffer of sectors, or its end |
| `FatVolume.FirstEmptyFree` | kernel/utils/utils.c:467-493 | the first empty word from the start of a copy is the lowest free cluster iff there is a free one, else past the table |
| `FatVolume.Volume.Store` | kernel/utils/utils.c:1066-1069 | one read-modify-write of a table sector |
| `FatVolume.Volume.WriteFatTable` | kernel/utils/utils.c:1059-1075 | in both copies the four bytes of the same single entry change, to the little-endian value of the next cluster or the end mark; no other byte of the copies, no sector before them and no data sector changes |
| `FatVolume.Volume.WriteFatTableP` | kernel/utils/utils.c:437-465 | both copies get the new last cluster behind the old one: the bytes of these two entries have the values of the link and the end mark, no other byte of the copies and no other sector changes |
| `FatVolume.Volume.NextCluster` | include/fs/fat32.h:264-272 | the little-endian value of the four bytes at byte 4c of the sectors of copy 1 |
| `FatVolume.Volume.ScanCopyOne` | kernel/utils/utils.c:1015-1034 | the byte-wise scan of copy 1 gives the first empty word, which is the lowest free cluster iff there is one and past the table otherwise |
| `FatVolume.Volume.FindEntryClus` | kernel/utils/utils.c:467-493 | the same of the word-wise scan of copy 2, a buffer at a time |
| `FatVolume.Volume.ScanBoth` | kernel/utils/utils.c:467-493 | on a volume in order with a free cluster both scans give the same cluster |
| `FatVolume.Volume.ScanFor` | kernel/utils/utils.c:467-493 | either scan is the scan step of `RunIff`, with the lowest free cluster |
| `FatVolume.Volume.Mark` | kernel/utils/utils.c:1036-1036 | write_fat_table without an old cluster sets the end mark in both copies and, for a file of its own, adds the chain; the volume stays in order iff the condition of the step held |
| `FatVolume.Volume.MarkNew` | kernel/utils/utils.c:814-814 | the same of write_fat_table_p |
| `FatVolume.Volume.AppendTo` | kernel/utils/utils.c:557-557 | write_fat_table_p behind an old cluster links and ends the cluster and extends the chain, with its exact condition |
| `FatVolume.Volume.AttachTo` | kernel/fat32/fat32.c:442-442 | write_fat_table behind an old cluster links a reserved cluster and extends the chain, with its exact condition |
| `FatVolume.Volume.SearchEmptyCluster` | kernel/utils/utils.c:1015-1039 | without a sleep: the lowest free cluster is reserved, or becomes a file of its own, in both copies; a scan and a marking step of `RunIff` |
| `FatVolume.Volume.CreateNew` | kernel/utils/utils.c:627-814 | without a sleep: the lowest free cluster becomes a file of its own in both copies; a scan and a marking step of `RunIff` |
| `FatVolume.Volume.Extend` | kernel/fat32/fat32.c:439-443 | the allocation at the end of a chain, without a sleep |
| `FatVolume.Volume.NextForWrite` | kernel/fat32/fat32.c:437-447 | the next cluster of the file; at its end, without a sleep, the lowest free cluster is allocated and linked: scan, reserve and attach steps of `RunIff` |
| `FatVolume.Volume.GrowDirectory` | kernel/utils/utils.c:437-493 | without a sleep a directory grows by the lowest free cluster, all other chains stay: scan and append steps of `RunIff` |
| `FatVolume.Volume.AtChainEnd` | kernel/fat32/fat32.c:439-445 | at the end of a chain the code allocates iff the end mark is 0x0FFFFFFF, else it goes on to a number past the table |
| `FatVolume.SplitPos` | kernel/utils/utils.c:1088-1097 | dividing by sectors and then by sectors per cluster is dividing by the cluster size, with the right remainder |
| `FatVolume.PosParts` | kernel/utils/utils.c:1088-1097 | cluster and sector number of a position together are its sector in the file |
| `FatVolume.PosInside` | kernel/fat32/fat32.c:529-529 | a position below the file length is inside the chain |
| `FatVolume.SectorOwner` | include/fs/fat32.h:241-250 | sector to cluster undoes cluster to sector, so no two clusters share a sector |
| `FatVolume.Volume.UpdateFdFromPos` | kernel/utils/utils.c:1083-1098 | a seek lands on cluster number pos / cluster size of the chain and on the sector of that byte |
| `LongName.CharRoundTrip` | kernel/utils/utils.c:40-62 | the two character tables are inverse on the supported set |
| `LongName.CharToUnicode` | kernel/utils/utils.c:52-62 | the code of a letter, a digit, _ . - or space is its ASCII code, and 0 of any other character |
| `LongName.UnicodeToChar` | kernel/utils/utils.c:40-50 | the character of that ASCII code where names may hold it, else 0 |
| `LongName.EncodeLong` | kernel/utils/utils.c:687-743 | the entries of a name, last one first, with their sequence numbers; unit by unit the ASCII code of the character, then 0, then 0xffff |
| `LongName.DecodePart` | kernel/utils/utils.c:182-192 | one of the three copy loops stops at the first terminator or padding |
| `LongName.DecodeEntry` | kernel/utils/utils.c:181-214 | an entry fills its own 13 places of the name buffer |
| `LongName.DecodeLong` | kernel/utils/utils.c:174-217 | the name buffer after a run of entries, placed by sequence number: up to the first stop each place holds the character of its unit |
| `LongName.SeenCount` | kernel/utils/utils.c:177-178 | the decoder sees all entries iff the name has at most 194 characters |
| `LongName.LongNameRoundTrip` | kernel/utils/utils.c:170-217 | decoding gives the name back iff it has at most 194 characters, all supported |
| `LongName.StoreAndSearch` | kernel/utils/utils.c:687-743 | the same of the two loops one after the other |
| `LongName.EncodeShort` | kernel/utils/utils.c:593-664 | the padded base name and the padded upper-case extension, character by character, for files and for directories |
| `LongName.DecodeShort` | kernel/utils/utils.c:218-233 | base, dot and extension up to their first spaces |
| `LongName.ShortNameRoundTrip` | kernel/utils/utils.c:218-233 | up to case the name comes back iff it holds no space and no dot without an extension |
| `LongName.StoreAndSearchShort` | kernel/utils/utils.c:593-664 | the same of the loops one after the other |
| `Clock.List.FindAD` | kernel/swap/swap.c:60-86 | the first clean and unaccessed page from the hand on, or every page is free, unwritable, accessed or dirty |
| `Clock.List.FindA` | kernel/swap/swap.c:89-116 | the first unaccessed page from the hand on if there is one, else the first page that can be swapped; only accessed bits are cleared |
| `Clock.ScanStops` | kernel/swap/swap.c:89-116 | the scan stops iff the list has one page or a page that can be swapped, and then within two sweeps |
| `Clock.NeverStops` | kernel/swap/swap.c:89-116 | otherwise no number of rounds ends it |
| `Clock.List.FindSwapPage` | kernel/swap/swap.c:119-141 | a clean unaccessed page if there is one, else an unaccessed one, else any, always the first from the hand on, and unaccessed afterwards |
| `Swap.SlotReadBack` | include/swap/swap.h:53-58 | slots do not overlap: a slot reads back as written, the others stay |
| `Swap.EvictOk` | kernel/swap/swap.c:27-52 | writing a page out, or skipping the write of a clean one, keeps the invariant and what programs see |
| `Swap.MapOk` | kernel/mm/mm.c:296-334 | mapping a free page keeps the invariant and what programs see in all other pages |
| `Swap.Swapper.GetSwapSec` | include/swap/swap.h:53-58 | issues the next slot |
| `Swap.Swapper.ClockAlgorithm` | kernel/swap/swap.c:13-56 | frees the page the scan chooses, moves the hand behind it and never to the list head, and programs see what they saw before |
| `Swap.Swapper.WriteOut` | kernel/swap/swap.c:27-52 | the page's bytes are on the card in its own slot, or a new one, which nobody else owns; a clean page with a slot is not written; no other page, slot or sector changes |
| `Swap.Swapper.DealInSd` | kernel/mm/mmirq.c:133-168 | the page comes back with its bytes, in the page node that the scan chooses when memory is short |
| `Swap.Swapper.DealNoAlloc` | kernel/mm/mmirq.c:86-126 | a page touched for the first time reads as zeros; it gets a new page node, or the one that the scan chooses when memory is short |
| `Swap.Swapper.UserLoad` | kernel/mm/mmirq.c:86-168 | a load gives the page's bytes, wherever they were, and sets the accessed bit |
| `Swap.Swapper.UserStore` | kernel/mm/mmirq.c:86-168 | a store changes one page and sets its accessed and dirty bits |
| `Swap.Swapper.Do` | kernel/mm/mmirq.c:86-168 | an access is served, as by plain memory, exactly when it does not need a page for which nothing can be swapped out |
| `Swap.StoryHas` | kernel/swap/swap.c:13-56 | a page that can be swapped out is there for ever |
| `Swap.PlainLast` | kernel/mm/mmirq.c:86-168 | plain memory holds what was stored last, or what it held at first |
| `Swap.Swapper.Run` | kernel/mm/mmirq.c:86-168 | any run of loads and stores behaves as plain memory, state by state, and stops exactly at the first access for which nothing can be swapped out; with a page that can be it does not stop |
| `TimeConv.Fraction` | kernel/time/utlis.c:19-24 | the digit loop computes floor(left * 10^k / base) |
| `TimeConv.Ticks` | kernel/time/utlis.c:34-39 | the digit loop with its nested floors computes floor(base * frac / 10^k) of the last k digits |
| `TimeConv.NestedFloor` | kernel/time/utlis.c:35-39 | a floor inside a floor can be dropped |
| `TimeConv.FromTicks` | kernel/time/time.c:69-77 | seconds and the rounded-down fraction |
| `TimeConv.ToTicks` | kernel/time/time.c:79-88 | the rounded-down ticks, in 64 bits |
| `TimeConv.BackBounds` | kernel/time/utlis.c:14-41 | rounding down twice never gains and loses less than base / 10^k + 1 |
| `TimeConv.NanoRoundTrip` | kernel/time/utlis.c:14-41 | never later; at most one tick earlier for a base up to 10^9; exact for a base that divides 10^9 |
| `TimeConv.MicroRoundTrip` | kernel/time/time.c:69-88 | never later, and earlier by less than base / 10^6 + 1 ticks |
| `FdTable.Table.GetFdIndex` | kernel/fat32/file.c:92-98 | the slot of a descriptor, or -1 iff it is not in use |
| `FdTable.Table.LowestUnused` | kernel/fat32/file.c:51-64 | the search ends at the lowest number not in use |
| `FdTable.Table.GetOneFd` | kernel/fat32/file.c:49-72 | the lowest unused number, below the number of slots, or -1 iff all slots are taken; numbers stay distinct |
| `FdTable.Pigeonhole` | kernel/fat32/file.c:54-64 | numbers 0 to fd - 1 in use take fd different slots |

## Left out

- Mm.Memory.AllocPage: requires a free page; a caller that finds none sleeps, which is the result `ok == false` of the operations above it. Which sleeper a freed page wakes is not modelled: `Runs` lets any of them go on at any time.
- Fork.NewSpace: the same, for the root.
- Mm.Memory.CheckPage: the same, for a missing table.
- Mm.Memory.CheckLeaf: the same, for a missing page.
- Mm.Memory.AllocPageHelper: mappings of the kernel half (MAP_KERNEL) are not modelled.
- Fork.CopyStack: requires an unmapped user page below the stack, without which the stack loop leaves the user half; clone with CLONE_VM shares the root and is not modelled.
- Runs.Create: a fork that sleeps for its very first page is made again from the start and holds no task slot meanwhile; one without a free slot, which sleeps in `get_free_pcb`, is ignored (that sleep is in `Sched`). User stack, loader and file descriptors of the new task are not part of it.
- Runs.TryStore: a store or load that sleeps for a missing page is made again as a new request; only the sleep in `deal_no_W` is kept with its state.
- Fault.CheckWSdAndSetAd: entries with the SD bit do not occur without swapping.
- Fault.UserLoad: addresses that `is_legal_addr` refuses, which the load handler gives to `handle_other`, and instruction faults are not modelled.
- Fault.HandleStoreFault: swapped pages and the special mode `status_ctx` are in `Swap` only; the combination of swapping and fork is not modelled.
- Fault.FreePageHelper: only for mapped pages, because its test for a missing entry never succeeds.
- Disk.DiskRead: with no other process inside the cache; the interleaved case is `Interleave`, sector by sector.
- Disk.DiskWrite: the same.
- Disk.Serve: the same.
- FatVolume.Volume.SearchEmptyCluster: requires a free cluster; on a full volume the scan gives a number past the table (`FatVolume.FirstEmptyFree`), and where the table writes then go is not modelled.
- FatVolume.Volume.CreateNew: the same.
- FatVolume.Volume.NextForWrite: the same, at the end of the chain.
- FatVolume.Volume.GrowDirectory: the same; and the directory-entry bookkeeping around the growth is not modelled.
- FatRuns.Next: a scan and a table write are one step each; a sleep of a write between its sectors is not modelled, nor a scan that sleeps and passes over a cluster freed meanwhile.
- FatVolume.Volume.ScanCopyOne: requires an empty word somewhere from the table on, without which the scan leaves the disk.
- FatVolume.Volume.FindEntryClus: the same.
- Chains.IsChain: only chains that end in 0x0FFFFFFF, the one mark that the code writes and tests; others are `FatVolume.Volume.AtChainEnd`.
- Pipe.Stream: writes carry at least one byte, see `Pipe.ZeroWrite`; that a sleeper is woken when the other side goes away is false of the code, see `Pipe.OrphansIff`.
- Pipe.Pipe.constructor: for the pipe that `alloc_one_pipe` has found; the search and -ENFILE are not modelled.
- Pipe.Pipe.Close: the release of the buffer with the last end is not modelled.
- Futex.FutexTable.Wait: no timeouts, and futex nodes are not reclaimed when their creator exits.
- SlotWaits.SlotsServed: a task that is killed between its wake-up and its next try, which `handle_signal` can do, is not modelled.
- Sched.Scheduler.GetFreePcb: a slot under construction is described by its status and its builder; the other fields of the task are not modelled.
- LongName.EncodeShort: for extensions of at most three characters, since the code writes longer ones past the extension field.
- LongName.ShortNameRoundTrip: the same.
- LongName.StoreAndSearchShort: the same.
- Swap.Swapper.UserStore: assumes, as the code does, that every store sets the dirty bit.
- TimeConv.ToTicks: the k210 `TIMEBASE` macro variants are not modelled.
- The byte loops of `fat32_read` and `fat32_write`, path lookup, mount, rename and getdents: cursor bookkeeping without a clean invariant.
- `usedPageList`, lazy `mmap` contents, the ELF cache and `recycle_page_part`: pages outside the reference-count discipline.
- Direct disk access that bypasses the buffer cache, and the device argument of the cache, which the driver ignores.
- `get_fd_index` with redirection, `dup`, shared descriptors and poll.
- Signals, timers, sockets, mutexes with contention, TLB, context switches, loaders, device drivers and the second core.
- Linked lists inside the scheduler, futexes, cache and page pool appear as sequences; `List` proves that the list operations act on linked nodes exactly as these sequence operations.
