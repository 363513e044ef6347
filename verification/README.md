# The JOS kernel, its user-level fork and its file server: a model and its proofs

JOS is a small teaching kernel for the 80386.  This project models the parts of it whose
correctness spans many routines and proves what they are for:

- **Physical pages and two-level page tables** (`lab4/kern/pmap.c`, with `env_setup_vm`,
  `env_free`, `region_alloc` and the memory system calls).  `PageTables` gives each routine as a
  function on memory; `PageAccounting`, `AddressSpaces` and `MemoryCalls` show what each keeps;
  `MemoryRuns` draws the conclusions for whole runs: memory safety, exact reference counts,
  conservation of free pages, agreement of the tables with one finite map per address space, and
  the self-map.  `MemoryResults` says of each system call exactly when it succeeds and what it does to
  those maps, and `MemoryContents` what programs then find in their pages.  `BootMap` is
  `boot_map_region`, and class `Pmap.Memory` has the routines as they run, on arrays and a linked free list.
- **Environments, CPUs, the big kernel lock and messages** as one transition system with any number
  of CPUs (`Kernel`; class `Machine.Machine`).  A step is a trap, one exchange on the lock, the
  passage through the kernel under the lock, or a user program reading its message.
  `KernelInvariant` and `KernelSteps` prove one invariant inductive, and say exactly which steps
  keep it; `KernelLosses` shows the others; `KernelRuns`, `KernelProgress` and `KernelMessages` draw
  the conclusions; `EnvIds` is the arithmetic of environment ids.  `KernelResults` says what each passage
  through the kernel does, field by field, and `KernelFamilies` who may do what to whom over whole runs.
- **Copy-on-write fork** (`lab4/lib/fork.c`) against eager copying, and against `dumbfork`'s own
  steps (`CowFork`, `ForkSimulation`, `ForkPrograms`; class `UserMemory.UserMemory`): what programs read,
  and, in `ForkWrites`, what they may write.  `ForkBridge` ties its machine to the page tables.
- **The file server** (`lab5/fs/fs.c`, and the requests of `lab5/fs/serv.c`): `FileSystem` and `Paths`
  give each routine as a function on the bitmap and the blocks; `FileOwnership`, `FreeSpace`,
  `FileRelease`, `FileContents` and `FileTruncation` prove that every block is free or has one owner,
  and say exactly when there is room; `FileBytes` is reading and writing byte by byte; `Directories`,
  `PathLookup`, `DirectoryTree`, `EntryCreation`, `PathWalk`, `PathBytes` and `PathErrors` are names and
  paths; `DirectoryCuts` is resizing a directory; `FileSystemRuns` is whole runs of requests on open
  files, `FileRequests` what clients get back, and `DirectoryLosses` what the requests outside the guards
  lose; class `FileServer.FileServer` has the loops.  `DiskFormat` is `fsformat` (`lab5/fs/fsformat.c`), and `FormattedDisk` the disk it builds.
- **The block cache** (`lab5/fs/bc.c`): `BlockCache`, and class `DiskMap.DiskMap`.
- **Two algorithms**: `StabSearch` (`stab_binsearch`), and `printnum` and `strtol` (`NumberText`,
  `NumberReading`).

How the parts fit.  Each stateful source file has a class whose methods follow the C code and whose
`ensures` equate the new state with a function of the old one; the theorems are lemmas about those
functions.  For every system call and request one of them gives its outcome without reference to how it
is computed: over address spaces, over the fields of environments, or over the bytes and sizes of files.  Words, counts and ids have their widths: `pp_ref` wraps at 2^16, ids and `addr++` at
2^32, a `long` at 2^31.  A panic is a result of its own (`None`, `false`, `PANIC` or the monitor
mode), and where the code is in order it is proved not to happen.

The kernel's invariant over memory is `PageAccounting.Safe(m, false)` ("at least") or
`Safe(m, true)` ("equal"); over CPUs and environments `KernelInvariant.Inv`; over fork
`ForkSimulation.Quiet`; over the disk `FileOwnership.Inv` with `Directories.DirsOk` (together
`DirectoryCuts.Good`), and over the open files `FileSystemRuns.InOrder`; over the cache
`BlockCache.Coherent`.  Each holds at a start: `Pmap.InitBooting`, `KernelRuns.BootInv`,
`FormattedDisk.FormatExact`; an empty page table is `Quiet`, and an empty cache `Coherent`.

Where the code does less than one would wish, the model follows the code and the exact condition is
proved:

- `sys_page_alloc` takes one reference too many, and its failure path frees a page with a count of 1:
  counts stay exact if and only if it does nothing (`MemoryCalls.SysPageAllocLeaks`).
- `region_alloc` ignores a failing `page_insert` and then loses the page (`MemoryCalls.RegionPageKeeps`).
- The two `page_insert` routines differ in one case, a page already mapped at that address with a
  count of zero, which exact or "at least" accounting excludes (`PageTables.InsertsAgree`).
- `env_destroy` frees a DYING environment under the CPU that runs it, and `sys_env_set_status` can
  write over a RUNNING, DYING or receiving environment: `KernelSteps.DestroyExact` and
  `SetStatusExact` say when these calls are safe.
- Calling `sys_ipc_recv` again before reading the message loses it (`KernelSteps.RecvExact`).  States in
  which these calls do harm are `KernelLosses.DestroyedTwice`, `RunningStopped` and `UnreadLost`.
- A hole in a file is filled when it is read, so `file_read` and `dir_lookup` can fail on a full disk
  and change the disk; they never change what any file holds.  `FileContents.Need` counts the free
  blocks a range takes, and reading, writing, looking up a missing name and creating a file succeed
  exactly if there are as many (`FileBytes.ReadReturnsBytes`, `WriteStores`, `PathLookup.LookupFinds`,
  `PathWalk.CreateLeads`).
- The server resizes and writes directories like any other file.  `file_set_size` and `O_TRUNC` on a
  directory leak what the entries of a freed block own, break `dir_lookup` if the size is not a whole
  number of blocks, and lose the paths of the entries cut off: `FileTruncation.FreeBlockExact`,
  `DirectoryCuts.SetSizeDirExact` and `SetSizePathsExact` say exactly when, and
  `FileSystemRuns.ServeExact` when a request keeps order and paths.  Concrete losses are
  `DirectoryLosses.RootTruncated`, `RootLeaks` and, for writes, `WriteLoses`.
- `file_set_size` takes any `off_t`.  A negative size, or one too large to be rounded up to blocks, leaves
  the file out of order, and from -8191 down with all its blocks (`FileTruncation.SetSizeExact`,
  `DirectoryLosses.NegativeSize`).
- `fsformat` without files rounds the size of the empty root directory up to one block that it never
  allocates, and it does not look for equal names: its disk is in order if and only if it was given files,
  and no two of the same name (`FormattedDisk.FormatExact`).
- `alloc_block` flushes only the first bitmap block (`BlockCache.AllocOnDisk`, `LateBitLost`).
- `stab_binsearch` returns the wrong entry when the one for `addr + 1` is still in front of it as it
  meets `addr` (`StabSearch.BracketsExactly`, `NextAddressTaken`), and near the last address, where
  `addr++` wraps around, it is right by luck only.  Its comment says that crossed
  bounds mean that no entry contains `addr`; the converse does not hold: they cross only when the
  type has no entry in the region (`StabSearch.EmptyResult`, `AllAbove`).

## Model

| member | source | states |
|---|---|---|
| `Mmu.PgaddrSplit` | lab4/inc/mmu.h:29-42 | PDX, PTX and PGOFF of any 32-bit address are in range and PGADDR of the three is the address again |
| `Mmu.PgaddrJoin` | lab4/inc/mmu.h:29-42 | PDX, PTX and PGOFF recover the three parts that PGADDR joined |
| `Mmu.UvptSplit` | lab4/inc/mmu.h:29-42 | the address uvpt[PGNUM(va)] selects the directory itself, then va's directory entry, then va's table entry |
| `PageTables.InsertsAgree` | lab2/kern/pmap.c:417-447 | for a page not on the free list the remove-first and the count-first page_insert give the same code, tables, counts and free-list order, exactly when the page is not already mapped there with a zero count |
| `PageTables.CountsCommute` | lab4/kern/pmap.c:507-519 | taking the new reference before dropping the old one, or dropping it first and taking the page back off the free list, gives the same counts and the same list |
| `PageTables.WalkedLeafOk` | lab4/kern/pmap.c:433-457 | a creating walk leaves an entry that names no missing page, and walking again finds the same table |
| `PageAccounting.AllocKeeps` | lab4/kern/pmap.c:374-386 | page_alloc takes the head off the free list, zeroes it if asked and disturbs no reference |
| `PageAccounting.PageFreeKeeps` | lab4/kern/pmap.c:392-398 | giving back an unreferenced page keeps the free list duplicate-free and the counts right |
| `PageAccounting.DecrefCore` | lab4/kern/pmap.c:404-409 | dropping a reference keeps the structural invariant if, when the last one goes, nothing refers to the page |
| `PageAccounting.WalkOk` | lab4/kern/pmap.c:433-457 | on a state in order pgdir_walk and page_lookup never reach a missing page, and they find exactly the table and mapping that are there |
| `PageAccounting.WalkCreates` | lab4/kern/pmap.c:433-457 | a creating walk adds one zeroed, counted page table and changes no other word |
| `PageAccounting.RemoveKeeps` | lab4/kern/pmap.c:557-571 | page_remove clears one mapping, drops its count, frees the page with its last reference and leaves every other place alone |
| `PageAccounting.StoreKeeps` | lab4/kern/pmap.c:507-519 | storing a counted page into an empty slot keeps counts and separation |
| `AddressSpaces.InsertKeeps` | lab4/kern/pmap.c:507-519 | page_insert fails exactly when a table is needed and memory is exhausted, and then changes nothing; otherwise it maps the page there, changes no other mapping of any address space and keeps the accounting |
| `AddressSpaces.EnvSetupKeeps` | lab4/kern/env.c:163-199 | env_setup_vm gives the environment its own directory with nothing mapped below UTOP, or fails and changes nothing |
| `AddressSpaces.FreeTablesKeeps` | lab4/kern/env.c:420-441 | env_free's loops remove every user mapping and page table of the environment and no reference of any other |
| `AddressSpaces.EnvFreeKeeps` | lab4/kern/env.c:404-452 | env_free removes exactly the environment's references; what only it referred to is free again |
| `MemoryCalls.SysPageAllocKeeps` | lab4/kern/syscall.c:170-201 | a refused or failing sys_page_alloc changes no mapping, a successful one maps one fresh page and nothing else, and memory stays safe either way |
| `MemoryCalls.SysPageAllocLeaks` | lab4/kern/syscall.c:190-195 | because of the surplus reference sys_page_alloc keeps counts exact if and only if its arguments are refused or no page is free |
| `MemoryCalls.SysPageAllocContents` | lab4/kern/syscall.c:170-201 | the page mapped holds zeroes and every page mapped before keeps its contents |
| `MemoryCalls.MapIntoKeeps` | lab4/kern/syscall.c:262-262 | the insertion that sys_page_map ends with, of a page that is mapped already, keeps even exact accounting and changes the given destination only |
| `MemoryCalls.SysPageUnmapKeeps` | lab4/kern/syscall.c:287-287 | the removal that sys_page_unmap ends with clears the one mapping and keeps even exact accounting, as does a refusal; when it refuses is `MemoryResults.SysPageUnmapResult` |
| `MemoryCalls.RegionPageKeeps` | lab4/kern/env.c:283-300 | a region_alloc step keeps counts exact if and only if a page is left for the table it may need; the failure it ignores loses the page |
| `MemoryCalls.UserStoreKeeps` | lab4/kern/pmap.c:433-457 | no store by a user program changes any translation, count or list, since no page that serves as a directory or page table is mapped as a writable user page |
| `MemoryCalls.InsertContents` | lab4/kern/pmap.c:507-519 | mapping a page changes the contents of no page that is or could be mapped |
| `MemoryRuns.TranslateIsWord` | lab4/kern/pmap.c:433-457 | the hardware's two-level walk finds exactly the recorded mapping, kern_pgdir's above UTOP |
| `MemoryRuns.TranslationUpdate` | lab4/kern/pmap.c:433-571 | an operation at one virtual page of one address space changes the translation of that page only |
| `MemoryRuns.InsertRefines` | lab4/kern/pmap.c:507-519 | page_insert is one update of the finite map from virtual pages to mappings; a failure changes nothing |
| `MemoryRuns.RemoveRefines` | lab4/kern/pmap.c:557-571 | page_remove deletes one key of that map |
| `MemoryRuns.LookupReads` | lab4/kern/pmap.c:532-540 | page_lookup reads that map |
| `MemoryRuns.SelfMap` | lab4/kern/env.c:192-196 | in every address space the hardware walk of UVPT + 4*PGNUM(va) ends at the physical location of va's page-table entry |
| `MemoryRuns.StepSafe` | lab4/kern/syscall.c:170-291 | every memory operation keeps memory safe |
| `MemoryRuns.StepExact` | lab4/kern/syscall.c:170-291 | a step keeps exact accounting if and only if it takes no surplus reference |
| `MemoryRuns.RunSafe` | lab4/kern/pmap.c:374-571 | over every run counts cover live references, the free list has no duplicate and nothing referenced, and no table or directory is also a user page |
| `MemoryRuns.RunExact` | lab4/kern/env.c:283-300 | over every run of accounted operations pp_ref equals the number of references and a managed page is free exactly when unreferenced |
| `MemoryRuns.FreeSetDetermined` | lab4/kern/pmap.c:404-409 | in exactly accounted states the references alone determine the set of free pages |
| `MemoryRuns.Conservation` | lab4/kern/env.c:404-452 | creating an environment, any accounted operations and destroying it return the free set to what it was, other address spaces being unchanged |
| `MemoryResults.SysPageMapResult` | lab4/kern/syscall.c:219-267 | sys_page_map succeeds if and only if both environments exist, both addresses are page-aligned and below UTOP, the source address space maps a page at srcva, perm has PTE_U and PTE_P, and PTE_W only if that mapping has it, and a page is left for the table it may need; then the destination's map has that page at dstva with perm, and no other map changes; otherwise nothing changes and the code is that of the first check that fails |
| `MemoryResults.SysPageUnmapResult` | lab4/kern/syscall.c:276-291 | sys_page_unmap succeeds if and only if va is page-aligned and below UTOP and the environment exists; then the page at va is gone from its map and no other map changes; otherwise nothing changes and the code says why |
| `MemoryResults.SysIpcPageResult` | lab4/kern/syscall.c:339-352 | the page of a message: with no page offered or none wanted nothing moves and the call goes on; otherwise the page mapped at the page-aligned srcva, with every one of the three permission bits asked for, comes to be mapped at the receiver's dstva, and nothing else changes, or the code says why not |
| `MemoryResults.SysPageAllocResult` | lab4/kern/syscall.c:170-201 | sys_page_alloc succeeds if and only if the environment exists, va is below UTOP, perm has PTE_U and PTE_P and there are pages enough; then the page of va, which need not be aligned, maps the first free page, and nothing else changes |
| `MemoryResults.RegionPageResult` | lab4/kern/env.c:283-300 | one page of region_alloc maps the first free page, writable, unless no page is left for the table it needs: then it maps nothing |
| `MemoryResults.EnvSetupResult` | lab4/kern/env.c:163-199 | a new address space is empty below UTOP and translates above it as kern_pgdir does, and no other changes |
| `MemoryResults.EnvFreeResult` | lab4/kern/env.c:404-452 | a destroyed environment has no address space and the others are unchanged |
| `MemoryContents.StepContents` | lab4/kern/pmap.c:374-571 | no memory operation but a user's store changes the contents of a page mapped anywhere |
| `MemoryContents.StoreResult` | lab4/kern/pmap.c:433-457 | a store through a writable mapping is seen at exactly the addresses, of any environment, that reach the same word; a store without one changes nothing; no address space changes |
| `BootMap.MapRegionKeeps` | lab4/kern/pmap.c:469-480 | boot_map_region maps exactly its interval, counting nothing but the tables it adds, or stops where the code panics |
| `BootMap.RegionTranslates` | lab4/kern/pmap.c:469-480 | it changes the translation of exactly its interval |
| `Pmap.InitBooting` | lab4/kern/pmap.c:322-363 | the state that page_init leaves is exactly accounted, so the invariants above hold from the start |
| `Pmap.DownElements` | lab4/kern/pmap.c:322-363 | the list page_init builds from a range holds each page of it once, highest first |
| `Pmap.LinkedPush` | lab4/kern/pmap.c:392-398 | pushing a page keeps the pp_link chain a spelling of the free list |
| `Pmap.Memory.constructor` | lab4/kern/pmap.c:140-150 | kern_pgdir is zeroed and maps itself at UVPT |
| `Pmap.Memory.PageInit` | lab4/kern/pmap.c:322-363 | the loops put every page but page 0, MPENTRY's page and the kernel's on the list, in descending order, with zero counts |
| `Pmap.Memory.PageAlloc` | lab4/kern/pmap.c:374-386 | the linked list loses its head, in agreement with the specification |
| `Pmap.Memory.PageFree` | lab4/kern/pmap.c:392-398 | the linked list gains the page at its head |
| `Pmap.Memory.PageDecref` | lab4/kern/pmap.c:404-409 | as specified, including the 16-bit wrap of the count |
| `Pmap.Memory.PgdirWalk` | lab4/kern/pmap.c:433-457 | the stores into the directory and the new table are those of the specification |
| `Pmap.Memory.PageLookup` | lab4/kern/pmap.c:532-540 | changes nothing and returns the table of a present entry |
| `Pmap.Memory.PageRemove` | lab4/kern/pmap.c:557-571 | as specified |
| `Pmap.Memory.PageInsert` | lab4/kern/pmap.c:507-519 | as specified, in the code's order of steps |
| `Pmap.Memory.Lab2PageInsert` | lab2/kern/pmap.c:417-447 | the other order of steps on the same memory, as specified |
| `Pmap.Memory.EnvSetupVm` | lab4/kern/env.c:163-199 | as specified |
| `Pmap.Memory.EnvFree` | lab4/kern/env.c:404-452 | the nested loops give the state the specification gives |
| `Pmap.Memory.RegionPage` | lab4/kern/env.c:283-300 | one page of region_alloc, as specified |
| `Pmap.Memory.SysPageAlloc` | lab4/kern/syscall.c:170-201 | as specified, with the same order of argument checks |
| `Pmap.Memory.SysPageMap` | lab4/kern/syscall.c:219-267 | as specified, with the same order of argument checks; what the specification gives is `MemoryResults.SysPageMapResult` |
| `Pmap.Memory.SysPageUnmap` | lab4/kern/syscall.c:276-291 | as specified; what that gives is `MemoryResults.SysPageUnmapResult` |
| `Pmap.Memory.SysIpcPage` | lab4/kern/syscall.c:339-351 | the page transfer of a message, as specified |
| `Pmap.Memory.BootMapRegion` | lab4/kern/pmap.c:469-480 | the loop maps the interval, as specified |
| `EnvIds.NextIdGood` | lab4/kern/env.c:222-227 | a new id is positive, has the slot as ENVX and advances the generation, which wraps to 1 |
| `EnvIds.IdAfterClosed` | lab4/kern/env.c:222-227 | the id after n allocations of a slot in closed form |
| `EnvIds.IdsDistinct` | lab4/inc/env.h:12-30 | two allocations of a slot give the same id exactly when a multiple of 2^19 - 1 apart, so that many consecutive ones are distinct |
| `Kernel.Pick` | lab4/kern/sched.c:37-47 | the circular search finds the first runnable slot from the current one on |
| `KernelInvariant.SwitchInv` | lab4/kern/env.c:507-541 | switching to a runnable environment re-establishes the invariant |
| `KernelInvariant.ResumeInv` | lab4/kern/env.c:507-541 | so does resuming the one that was running |
| `KernelInvariant.HaltInv` | lab4/kern/sched.c:58-99 | so does halting, or falling into the monitor |
| `KernelInvariant.SchedYieldInv` | lab4/kern/sched.c:11-53 | sched_yield re-establishes it from any point inside the kernel |
| `KernelInvariant.TrapReturnInv` | lab4/kern/trap.c:326-332 | so does the end of trap() |
| `KernelSteps.DestroyDying` | lab4/kern/env.c:459-476 | destroying an environment that is DYING already breaks the invariant: it is freed under the CPU that runs it |
| `KernelSteps.DestroyExact` | lab4/kern/syscall.c:58-72 | sys_env_destroy keeps the invariant if and only if its target is not DYING |
| `KernelSteps.SetStatusExact` | lab4/kern/syscall.c:115-132 | sys_env_set_status keeps it if and only if the call is refused or what it writes over is harmless |
| `KernelSteps.SelfRunnable` | lab4/kern/sched.c:41-47 | a caller that marks itself runnable is found by the search and resumed with that status, which breaks the invariant |
| `KernelSteps.RecvExact` | lab4/kern/syscall.c:373-386 | sys_ipc_recv keeps it if and only if the program has read its previous message |
| `KernelSteps.TrySendInv` | lab4/kern/syscall.c:331-360 | sys_ipc_try_send keeps it always |
| `KernelSteps.ExoforkInv` | lab4/kern/syscall.c:85-106 | so does sys_exofork |
| `KernelSteps.NeverReacquires` | lab4/kern/trap.c:286-300 | a CPU on its way in has one acquisition to make and does not hold the lock |
| `KernelSteps.StepExact` | lab4/kern/trap.c:274-333 | any step of any CPU keeps the invariant if and only if the step respects the guards |
| `KernelSteps.RunInv` | lab4/kern/trap.c:274-333 | so it holds over every guarded interleaving of any number of CPUs |
| `KernelLosses.DestroyedTwice` | lab4/kern/syscall.c:58-72 | destroying a running child is safe; doing it again before the child's CPU has trapped breaks the invariant |
| `KernelLosses.RunningStopped` | lab4/kern/syscall.c:115-132 | so does marking a child NOT_RUNNABLE while another CPU runs it |
| `KernelLosses.UnreadLost` | lab4/kern/syscall.c:373-386 | so does sys_ipc_recv with a message unread: it has been sent, was never returned, and the next one goes over it |
| `KernelRuns.BootInv` | lab4/kern/env.c:117-130 | it holds when the other CPUs have been started |
| `KernelRuns.BootFirst` | lab4/kern/env.c:111-130 | env_init leaves the free list in the order of envs: the first environment created is envs[0], with id 4096 |
| `KernelRuns.CreateInv` | lab4/kern/env.c:392-399 | env_create keeps it |
| `KernelRuns.WhenLockFree` | lab4/kern/sched.c:77-88 | whenever the lock is free each RUNNING or DYING environment is cpu_env of exactly one CPU, halted CPUs have none and receivers are not runnable |
| `KernelRuns.BodyExits` | lab4/kern/spinlock.c:82-120 | each passage through the kernel starts with the lock held by its CPU and ends with exactly one release, so that the panic of spin_unlock is never reached, or in the monitor with none; a CPU halts only when nothing is runnable |
| `KernelRuns.StepReleases` | lab4/kern/spinlock.c:82-120 | the lock is released by passages through the kernel that do not end in the monitor, once each, by the CPU that holds it, and by nothing else |
| `KernelRuns.RunReleases` | lab4/kern/spinlock.c:82-120 | so over any guarded run it has been released exactly as often as a CPU has left the kernel |
| `KernelProgress.YieldNearer` | lab4/kern/sched.c:32-52 | one search either chooses t or an environment strictly nearer to t, from slot 0 for a CPU that has none |
| `KernelProgress.BoundedBypass` | lab4/kern/sched.c:32-52 | t being runnable, by the (NENV - 1)-th call of sched_yield of a CPU that does not destroy what it runs, or the NENV-th if it starts halted, t has been chosen by a CPU, stopped by sys_env_set_status or destroyed |
| `KernelProgress.WaitEnds` | lab4/kern/sched.c:32-52 | a runnable environment stops being runnable only by being chosen, stopped by sys_env_set_status or destroyed |
| `KernelMessages.StepTracked` | lab4/kern/syscall.c:331-386 | what an environment has been sent or has received, its id and its parent change only by a successful send to it, a return of its ipc_recv, or its creation |
| `KernelMessages.DeliveredInOrder` | lab4/lib/ipc.c:22-36 | what ipc_recv has returned is what was successfully sent, in order, except for at most one message not yet read |
| `KernelMessages.NoOverwrite` | lab4/kern/syscall.c:331-360 | when a send succeeds everything sent before has been returned |
| `KernelMessages.IdsTrack` | lab4/kern/env.c:209-274 | over a run a slot's id is the one its number of allocations gives |
| `KernelMessages.StaleIdRejected` | lab4/kern/env.c:75-109 | envid2env refuses an id of an earlier occupant for the next 2^19 - 2 allocations of the slot |
| `KernelMessages.IdsUnique` | lab4/kern/env.c:75-109 | live environments have distinct positive ids, and envid2env finds each by its id |
| `KernelResults.Envid2EnvExact` | lab4/kern/env.c:75-109 | id 0 is the caller; any other id is accepted if and only if an environment in use bears it and, with checkperm, that is the caller or has the caller's id as its parent; the result is that environment |
| `KernelResults.ChangeStatusResult` | lab4/kern/syscall.c:115-132 | sys_env_set_status to ENV_RUNNABLE or ENV_NOT_RUNNABLE of an environment that the caller may name gives it that status and changes no other field and no other environment; the caller goes on, unless it stopped itself; anything else changes nothing |
| `KernelResults.DestroyResult` | lab4/kern/syscall.c:58-71 | sys_env_destroy of another environment that the caller may name makes one that runs elsewhere a zombie and frees any other, first in line for reuse; of itself, it is freed and another environment is looked for; otherwise nothing changes |
| `KernelResults.ExoforkResult` | lab4/kern/syscall.c:85-106 | the slot first in line becomes a child of the caller with a fresh id, NOT_RUNNABLE, waiting for no message; without a slot or memory nothing changes; the caller goes on |
| `KernelResults.AllocResult` | lab4/kern/env.c:209-274 | env_alloc makes the slot first in line a runnable environment with the given parent and an id that names the slot and that it did not have just before, or changes nothing |
| `KernelResults.RecvResult` | lab4/kern/syscall.c:373-386 | sys_ipc_recv leaves the caller waiting, not runnable, and another environment is looked for; with a misaligned address it only returns |
| `KernelResults.TrySendResult` | lab4/kern/syscall.c:331-360 | sys_ipc_try_send to a waiting environment, with its page in order, stores value and sender, makes the receiver runnable and no longer waiting, and changes nothing else; otherwise nothing changes |
| `KernelResults.FaultResult` | lab4/kern/trap.c:384-412 | a page fault without an upcall destroys the environment, one with an upcall resumes it |
| `KernelResults.ZombieResult` | lab4/kern/trap.c:304-309 | a zombie is freed when it traps, whatever for, and its CPU looks for another environment |
| `KernelResults.YieldYields` | lab4/kern/sched.c:11-99 | sched_yield switches to the first runnable environment in the circle after the CPU's own, making the one that was running runnable; without one it resumes its own if that still runs, halts if one runs elsewhere, and otherwise enters the monitor |
| `KernelResults.ReadResult` | lab4/lib/ipc.c:22-37 | when ipc_recv returns the program has everything the kernel accepted for it, and nothing else changes |
| `KernelResults.TrapResult` | lab4/kern/trap.c:286-300 | after the beginning of trap() the CPU is marked started and has exactly one acquisition to make, whether it was halted or ran a program |
| `KernelResults.AcquireResult` | lab4/kern/spinlock.c:60-79 | the CPU is inside with the lock as soon as it finds the lock free, and until then nothing changes |
| `KernelFamilies.StatusReasons` | lab4/kern/env.c:97-105 | a step changes the status of an environment only if it runs on that CPU, is picked by the scheduler, is created, gets the message it waits for, or is destroyed or set by its parent |
| `KernelFamilies.ParentFixed` | lab4/kern/env.c:231-231 | over every run an environment keeps the parent it was created with |
| `KernelFamilies.CreatorOnly` | lab4/kern/env.c:97-105 | over every run an environment is created NOT_RUNNABLE, and from then on no system call changes its status but its own and those of the environment that created it, the scheduler and a message it waits for apart |
| `Machine.Machine.SpinLockTurn` | lab4/kern/spinlock.c:60-79 | one exchange on the lock, with the panic on a lock already held |
| `Machine.Machine.SpinUnlock` | lab4/kern/spinlock.c:82-120 | the release, with the panic on a lock not held |
| `Machine.Machine.EnvRun` | lab4/kern/env.c:507-541 | the context switch leaves the state the specification gives |
| `Machine.Machine.SchedHalt` | lab4/kern/sched.c:58-99 | as specified, with its search loop |
| `Machine.Machine.FindRunnable` | lab4/kern/sched.c:37-47 | the loop finds the offset the specification picks |
| `Machine.Machine.SchedYield` | lab4/kern/sched.c:11-53 | as specified |
| `Machine.Machine.EnvDestroy` | lab4/kern/env.c:459-476 | as specified |
| `Machine.Machine.EnvAlloc` | lab4/kern/env.c:209-274 | as specified |
| `Machine.Machine.Envid2Env` | lab4/kern/env.c:75-109 | as specified; which ids that accepts is `KernelResults.Envid2EnvExact` |
| `Machine.Machine.SysExofork` | lab4/kern/syscall.c:85-106 | as specified |
| `Machine.Machine.SysEnvSetStatus` | lab4/kern/syscall.c:115-132 | as specified; what the target's status is afterwards is `KernelResults.ChangeStatusResult` |
| `Machine.Machine.SysIpcTrySend` | lab4/kern/syscall.c:331-360 | as specified |
| `Machine.Machine.SysIpcRecv` | lab4/kern/syscall.c:373-386 | as specified; it returns only to report a misaligned address |
| `Machine.Machine.TrapEnter` | lab4/kern/trap.c:286-300 | as specified |
| `Machine.Machine.Trap` | lab4/kern/trap.c:300-333 | as specified, from holding the lock to leaving the kernel |
| `Machine.Machine.TrapDispatch` | lab4/kern/trap.c:220-272 | as specified |
| `Machine.IpcSend` | lab4/lib/ipc.c:46-57 | against the kernel as it is at each attempt, the retry loop yields after each -E_IPC_NOT_RECV and stops at the first other answer; the attempts before the last change nothing, and the last either delivers exactly this message to the target or changes nothing and the program panics |
| `Machine.AnswerExact` | lab4/kern/syscall.c:335-351 | sys_ipc_try_send answers -E_BAD_ENV exactly if no environment in use bears the id, -E_IPC_NOT_RECV exactly if one does that waits for no message, and otherwise the code of the page transfer |
| `CowFork.PgFaultForm` | lab4/lib/fork.c:14-51 | pgfault on a copy-on-write page leaves a private writable page with the same bytes there, PFTEMP unmapped, and nothing else changed |
| `CowFork.PgFaultView` | lab4/lib/fork.c:14-51 | it keeps every writable page unshared and changes no contents anywhere |
| `CowFork.PokeView` | lab4/lib/fork.c:14-51 | a store through a writable mapping is seen at that address only |
| `ForkBridge.FreePageFresh` | lab4/kern/pmap.c:374-386 | a page on the kernel's free list is mapped by no environment, as the proofs about pgfault and dumbfork take for granted |
| `ForkBridge.InsertBridges` | lab4/kern/pmap.c:507-519 | page_insert on the page tables is the map update that the copy-on-write machine makes |
| `ForkBridge.RemoveBridges` | lab4/kern/pmap.c:557-571 | and page_remove the deletion |
| `ForkSimulation.DupPageView` | lab4/lib/fork.c:64-80 | duppage gives the child the parent's page, changes no other contents, and leaves no writable page shared |
| `ForkSimulation.DumbDupPageView` | lab4/user/dumbfork.c:25-38 | dumbfork's duppage has the same effect on contents |
| `ForkSimulation.StepSimulates` | lab4/lib/fork.c:98-139 | each user-visible action under copy-on-write panics, or has the effect it has under eager copying |
| `ForkSimulation.RunSimulates` | lab4/lib/fork.c:98-139 | so over any run, over any tree of forks |
| `ForkSimulation.EveryReadAgrees` | lab4/lib/fork.c:14-139 | every read returns what it would return had fork copied every page |
| `ForkWrites.StoreExact` | lab4/lib/fork.c:14-50 | a store succeeds exactly on a mapped page that is writable or copy-on-write, and takes nobody's right to write away |
| `ForkWrites.DupExact` | lab4/lib/fork.c:64-80 | duppage panics exactly if there is no page table for a page the parent may write; otherwise the child may write its page exactly if the parent may write its own, and no other right changes |
| `ForkWrites.RunRights` | lab4/lib/fork.c:64-80 | over any tree of forks a program may write exactly the pages it could write had fork copied them |
| `ForkPrograms.ForkPagesView` | lab4/lib/fork.c:115-125 | fork's loop panics exactly if a writable or copy-on-write page finds no page table, and else copies exactly the parent's user pages below USTACKTOP, but for read-only ones without a table |
| `ForkPrograms.ForksAgree` | lab4/user/dumbfork.c:40-79 | with memory for page tables, fork and dumbfork leave every address space with the same contents, when the parent's pages are its program image and its stack page |
| `UserMemory.UserMemory.PgFault` | lab4/lib/fork.c:14-51 | the system calls of pgfault, as specified |
| `UserMemory.UserMemory.Store` | lab4/lib/fork.c:14-51 | a user store with the fault it may cause, as specified; it fails only where pgfault does |
| `UserMemory.UserMemory.DupPage` | lab4/lib/fork.c:64-80 | the two mappings in the code's order, as specified, with and without memory for the child's page table |
| `UserMemory.UserMemory.Fork` | lab4/lib/fork.c:98-139 | the loop over addresses, as specified; it fails exactly if duppage panics or no page is left for the exception stack |
| `UserMemory.UserMemory.DumbDupPage` | lab4/user/dumbfork.c:25-38 | as specified |
| `UserMemory.UserMemory.DumbFork` | lab4/user/dumbfork.c:40-79 | the loop over the program image and the stack page, as specified |
| `Disk.PutGet` | lab5/fs/fs.c:409-409 | a stored byte is read back and no other byte of the block changes |
| `Disk.PutBytesGet` | lab5/fs/fs.c:409-409 | memmove into a block changes exactly its bytes |
| `Disk.WithBitGet` | lab5/fs/fs.c:46-46 | setting or clearing one bit changes that bit only |
| `FileSystem.MarkFree` | lab5/fs/fs.c:39-47 | marking a block changes the free bit of that block only |
| `FileSystem.FindFree` | lab5/fs/fs.c:67-73 | the search finds the first free block from its start |
| `FileSystem.AllocBlock` | lab5/fs/fs.c:57-75 | the block returned was free and lies past the reserved ones; -E_NO_DISK exactly when no data block is free |
| `FileOwnership.Ownership` | lab5/fs/fs.c:29-75 | every nonzero slot of every file names an in-use data block, no two the same, and the in-use data blocks are exactly the ones so named, each of them reached from the root |
| `FileOwnership.CellsApart` | lab5/inc/fs.h:29-44 | no two words of known files, direct, indirect or entries, are stored in the same place |
| `FileOwnership.CellsInUse` | lab5/fs/bc.c:64-68 | every word of a known file lies in the superblock or in a block in use, over which bc_pgfault does not panic |
| `FileOwnership.PutValue` | lab5/fs/fs.c:194-194 | a store to a slot changes no other word of any file |
| `FileOwnership.AttachKeeps` | lab5/fs/fs.c:160-165 | giving a free, cleared block to an empty slot inside the file's size keeps ownership |
| `FileOwnership.OwnersUnique` | lab5/fs/fs.c:29-75 | the disk determines who owns which block |
| `FileOwnership.NeverOwn` | lab5/fs/fs.c:29-75 | no block holds the directory entry that owns it |
| `FreeSpace.SpaceConserved` | lab5/fs/fs.c:39-75 | free and owned data blocks together are all data blocks |
| `FreeSpace.AllocExact` | lab5/fs/fs.c:57-75 | alloc_block fails exactly if no data block is free |
| `FileRelease.ResizeKeeps` | lab5/fs/fs.c:467-467 | storing a size that covers every slot in use keeps ownership |
| `FileContents.FillKeeps` | lab5/fs/fs.c:191-197 | filling one slot changes that slot only, takes one free block if the slot is empty, and fails exactly if it is and none is free |
| `FileContents.GetBlockKeeps` | lab5/fs/fs.c:181-201 | file_get_block never panics, changes no contents and no slot but the empty ones on its way, succeeds exactly if there are free blocks for those, and returns the block now in the slot, which is in use; after a failure no block is free |
| `FileTruncation.FreeBlockCuts` | lab5/fs/fs.c:419-432 | file_free_block empties one slot and frees exactly its block, on files of any kind |
| `FileTruncation.FreeBlockCode` | lab5/fs/fs.c:419-432 | file_free_block returns -E_INVAL past the last block number, -E_NOT_FOUND without the indirect block it needs, and 0 otherwise |
| `FileTruncation.FreeBlocksCuts` | lab5/fs/fs.c:451-453 | the truncation loop empties the slots of its range and frees exactly their blocks |
| `FileTruncation.TruncateCuts` | lab5/fs/fs.c:443-459 | truncation of a file of any kind to any off_t empties exactly the slots past the block count the code computes for it, and that of the indirect block once no entry is needed, and frees exactly their blocks |
| `FileTruncation.EmptiedExact` | lab5/fs/fs.c:443-459 | emptying slots of a file and freeing their blocks leaves the disk in order if and only if no entry in a block freed owns a block |
| `FileTruncation.FreeBlockExact` | lab5/fs/fs.c:419-432 | file_free_block on a file of any kind keeps ownership if and only if no entry in the block freed owns a block |
| `FileTruncation.SetSizeCuts` | lab5/fs/fs.c:462-470 | what file_set_size does to a file of any kind for any off_t: its size, the slots past it, exactly their blocks, and no other word or contents |
| `FileTruncation.SetSizeExact` | lab5/fs/fs.c:462-470 | file_set_size on a file of any kind with any off_t keeps ownership if and only if the size is neither negative nor too large to be rounded up and no entry in the blocks cut off owns a block |
| `FileTruncation.SetSizeKeeps` | lab5/fs/fs.c:462-470 | on a regular file it keeps ownership if and only if the size is neither negative nor too large; then the slots past the size are empty with exactly their blocks freed, and no other word, file or byte has changed |
| `FileBytes.ReadFromBytes` | lab5/fs/fs.c:377-384 | the read loop succeeds exactly if the holes in its range can be filled, and then returns the file's bytes, even a directory's, holes as zeros, across direct and indirect blocks and unaligned ends |
| `FileBytes.ReadReturnsBytes` | lab5/fs/fs.c:365-386 | file_read returns the bytes from offset up to count or the end of the file exactly if the holes among them can be filled; it changes no file, and otherwise leaves no block free or is past the last block number |
| `FileBytes.StoreChunk` | lab5/fs/fs.c:408-409 | a chunk stored in a block of one file changes exactly those bytes of all the bytes of all regular files |
| `FileBytes.WriteFromBytes` | lab5/fs/fs.c:405-412 | the write loop stores a prefix of the buffer, and all of it exactly if the holes in its range can be filled; it leaves no hole in what it wrote |
| `FileBytes.WriteStores` | lab5/fs/fs.c:393-415 | file_write returns count exactly if the last block number is in range and there is a free block for each hole of the range and for the indirect block it may need, and then all of it is stored; every other byte of every regular file, every name, type and other size is unchanged, even on failure |
| `FileBytes.WriteUnfit` | lab5/fs/fs.c:393-415 | a write of at most a page that ends past the largest size stores nothing, fails with -E_INVAL unless it is empty, and has set the size to what the sum reads as |
| `FileBytes.WriteThenRead` | lab5/fs/fs.c:365-415 | after a file_write that returned count, file_read of that range returns count and exactly those bytes |
| `Paths.EntryScan` | lab5/fs/fs.c:224-228 | the first entry of a block from an index on whose name compares equal |
| `Paths.ElemLength` | lab5/fs/fs.c:299-300 | the extent of the first path element |
| `Directories.ScanFinds` | lab5/fs/fs.c:215-230 | the scans fill holes in order and find the first matching entry; one that finds a name changes nothing, and one that does not fails exactly if there is no room for the holes, having missed no entry of that name |
| `Directories.HoleNames` | lab5/fs/fs.c:207-231 | entries of a block that was a hole have empty names |
| `Directories.NamedSame` | lab5/fs/fs.c:181-201 | filling holes adds and loses no name in any directory |
| `PathLookup.LookupFinds` | lab5/fs/fs.c:207-231 | dir_lookup hits the entry of that name and changes nothing, or there is none, only holes have been filled, and the code is -E_NOT_FOUND exactly if there was room for them all |
| `PathLookup.LookupExact` | lab5/fs/fs.c:207-231 | dir_lookup succeeds with an entry if and only if it is the one of that name |
| `DirectoryTree.GrowsTree` | lab5/fs/fs.c:181-201 | filling holes changes where no path leads |
| `DirectoryTree.WriteTree` | lab5/fs/fs.c:393-415 | nor does file_write on a regular file |
| `DirectoryTree.SetSizeTree` | lab5/fs/fs.c:462-470 | nor does file_set_size on a regular file |
| `EntryCreation.AllocFinds` | lab5/fs/fs.c:235-261 | dir_alloc_file yields an unnamed entry of the directory, in one without holes exactly if there is one or room for one more block; it fails on a full disk or at the last block number; no name changes either way |
| `EntryCreation.PutNameValue` | lab5/fs/fs.c:348-348 | copying a name into f_name changes no other word of any file |
| `EntryCreation.PutNameNamed` | lab5/fs/fs.c:348-348 | naming an entry adds exactly one name, in one directory |
| `EntryCreation.PutNameDirs` | lab5/fs/fs.c:341-352 | and keeps names in every directory unique |
| `PathWalk.WalkLeads` | lab5/fs/fs.c:278-326 | walk_path succeeds with the file that the non-empty components lead to one by one, changing nothing; otherwise they lead nowhere, and a directory is handed back only if just the last is missing |
| `PathWalk.OpenExact` | lab5/fs/fs.c:356-360 | file_open succeeds with a file if and only if the components lead to it |
| `PathWalk.CreateLeads` | lab5/fs/fs.c:334-352 | file_create succeeds exactly if just the last component is missing and there is room for the holes of its directory and for one more entry; then the path leads to the new entry, a regular file, and every path that led somewhere still does; -E_FILE_EXISTS exactly when it led somewhere; a failure changes no path |
| `PathWalk.CreateThenOpen` | lab5/fs/fs.c:334-360 | after file_create(p) succeeds file_open(p) yields the same entry, and every path that opened before opens the same file |
| `PathBytes.OpenSame` | lab5/fs/fs.c:356-360 | file_open changes no byte and no size of any regular file |
| `PathBytes.CreateSame` | lab5/fs/fs.c:334-352 | nor does file_create, whether it succeeds or fails |
| `PathErrors.OpenError` | lab5/fs/fs.c:278-326 | a path that leads nowhere fails with the error of the component it gets stuck at: -E_BAD_PATH for a name of 128 bytes or more, -E_NOT_FOUND where there is no directory or no such entry, -E_NO_DISK or -E_INVAL where the holes in front of it cannot be filled |
| `PathErrors.CreateError` | lab5/fs/fs.c:334-352 | file_create fails with the same error unless just the last component is missing from a directory and fits; then only for want of room |
| `PathErrors.StuckSomewhere` | lab5/fs/fs.c:278-326 | every path that leads nowhere gets stuck at one of its components |
| `DirectoryCuts.SetSizeDirExact` | lab5/fs/fs.c:462-470 | file_set_size on a directory with any off_t leaves the disk in order if and only if the size is in range and a whole number of blocks and no entry cut off owns a block |
| `DirectoryCuts.LookupKept` | lab5/fs/fs.c:207-231 | a lookup that found a name finds it after such a cut, whatever the cut leaked, unless the entry or the whole number of blocks is gone |
| `DirectoryCuts.LeadsOnce` | lab5/fs/fs.c:278-326 | no path runs through a directory twice |
| `DirectoryCuts.SetSizePathsExact` | lab5/fs/fs.c:462-470 | file_set_size with any off_t loses no path if and only if the file is no directory, or no name is cut off and, unless the directory has no name, its size is a whole number of blocks |
| `FileSystemRuns.ServeKeeps` | lab5/fs/serv.c:88-261 | a request that respects the guards keeps ownership and directories in order, makes no path lead elsewhere or nowhere, and leaves every file id with a file that a path opens |
| `FileSystemRuns.RunKeeps` | lab5/fs/serv.c:88-261 | so over every guarded run of requests |
| `FileSystemRuns.OpenFileKnown` | lab5/fs/serv.c:88-97 | o_file, kept from one request to the next, is a file of the disk whenever the server is in order |
| `FileSystemRuns.OpenFileKeeps` | lab5/fs/serv.c:127-143 | the first part of serve_open, with O_CREAT and O_EXCL, yields a file that the path now opens, a directory only if the path opened it before, and keeps order and paths |
| `FileSystemRuns.ReadServed` | lab5/fs/serv.c:207-233 | a read of a file of any kind, holes included, keeps order and paths |
| `FileSystemRuns.ServeExact` | lab5/fs/serv.c:88-261 | every open, with O_TRUNC or without, close, read, resize to any off_t, and write to a regular file: it leaves the disk in order if and only if it sets no size that is negative or too large, resizes no directory to a broken block and cuts off no entry that owns a block; it loses no path if and only if it cuts off no name and, unless the directory has no name, leaves a whole number of blocks; then every file id still stands for a file that a path opens |
| `FileRequests.WriteReplies` | lab5/fs/serv.c:240-261 | a write of at most a page to a regular file returns the number of the client's bytes if and only if there is room for them, and advances the seek position; then a read of that range returns exactly these bytes and changes nothing; otherwise a prefix of them is stored; no other byte of any regular file changes |
| `FileRequests.WriteTooFar` | lab5/fs/serv.c:240-261 | a range that ends past the largest size is refused with -E_INVAL, unless it is empty |
| `FileRequests.ReadReplies` | lab5/fs/serv.c:207-233 | a read of a file of any kind returns its bytes from the seek position on, as many as there are up to a page, if and only if there is room for the holes among them, and advances the position; no regular file changes |
| `FileRequests.SetSizeReplies` | lab5/fs/serv.c:181-201 | a size that fits is always set, the blocks past it read as zeros, and nothing else changes |
| `FileRequests.OpenReplies` | lab5/fs/serv.c:102-177 | an open succeeds if and only if the path leads to a file and O_CREAT with O_EXCL did not ask for a new one, or it leads nowhere, O_CREAT was given, just the last component is missing and there is room; then the id stands for the file the path leads to, empty with O_TRUNC; a failure gives no id; no other regular file changes |
| `FileRequests.UnknownReplies` | lab5/fs/serv.c:87-97 | a request on an id not in use gets -E_INVAL and changes nothing |
| `FileRequests.CloseReplies` | lab5/fs/serv.c:87-97 | an id that is given back is the only one that goes |
| `FormattedDisk.FormatExact` | lab5/fs/fsformat.c:219-243 | the disk that fsformat builds is in order if and only if it was given at least one file and no two of the same name |
| `FormattedDisk.FormatSucceeds` | lab5/fs/fsformat.c:219-243 | fsformat succeeds if and only if it is given 4 to 1024 blocks and at most 128 files, each below the largest size, which with their indirect blocks, the directory and the three blocks in front leave a block over |
| `FormattedDisk.FormatSuper` | lab5/fs/fsformat.c:91-121 | the superblock has its magic number, the number of blocks and the root directory "/" |
| `FormattedDisk.FormatReads` | lab5/fs/fsformat.c:134-209 | then every file opens under its name and reads as the bytes it was built from, indirect blocks included |
| `FormattedDisk.FormatRuns` | lab5/fs/fsformat.c:219-243 | from such a disk every guarded run of requests stays in order and every file stays under its name |
| `DirectoryLosses.RootTruncated` | lab5/fs/serv.c:181-201 | on a formatted disk, opening "/" and setting its size to zero loses the path of every file |
| `DirectoryLosses.RootLeaks` | lab5/fs/serv.c:181-201 | if one of the files holds a byte, that leaves a disk on which no assignment of owners is in order |
| `DirectoryLosses.NegativeSize` | lab5/fs/serv.c:181-201 | setting the size of a file to -8192 frees none of its blocks and leaves the disk out of order |
| `DirectoryLosses.WriteLoses` | lab5/fs/serv.c:240-261 | writing one zero byte through the id of a directory, at the start of the entry of a regular file, loses the path of that file, in every state in order |
| `FileServer.FileServer.BlockIsFree` | lab5/fs/fs.c:27-37 | as specified |
| `FileServer.FileServer.FreeBlock` | lab5/fs/fs.c:39-47 | as specified |
| `FileServer.FileServer.AllocBlock` | lab5/fs/fs.c:57-75 | the loop finds the block the specification finds |
| `FileServer.FileServer.FileBlockWalk` | lab5/fs/fs.c:142-171 | as specified, with allocation before clearing |
| `FileServer.FileServer.FileGetBlock` | lab5/fs/fs.c:181-201 | as specified |
| `FileServer.FileServer.FileFreeBlock` | lab5/fs/fs.c:419-432 | as specified |
| `FileServer.FileServer.FileTruncateBlocks` | lab5/fs/fs.c:443-459 | the loop gives the specified state |
| `FileServer.FileServer.FileSetSize` | lab5/fs/fs.c:462-470 | as specified |
| `FileServer.FileServer.FileRead` | lab5/fs/fs.c:365-386 | the loop returns the specified code and bytes; offset + count - pos decreases |
| `FileServer.FileServer.FileWrite` | lab5/fs/fs.c:393-415 | the loop gives the specified state and code; what is left to write decreases |
| `FileServer.FileServer.DirLookup` | lab5/fs/fs.c:207-231 | the nested loops find what the specification finds |
| `FileServer.FileServer.DirAllocFile` | lab5/fs/fs.c:235-261 | as specified, including the size that stays grown when no block is found |
| `FileServer.FileServer.WalkPath` | lab5/fs/fs.c:278-326 | the loop over components gives the specified outcome |
| `FileServer.FileServer.FileOpen` | lab5/fs/fs.c:356-360 | as specified |
| `FileServer.FileServer.FileCreate` | lab5/fs/fs.c:334-352 | as specified |
| `FileServer.FileServer.ServeOpen` | lab5/fs/serv.c:102-177 | create, open, truncate and open again, and the file kept under its id, as specified, with the code that `FileRequests.OpenReplies` is about |
| `FileServer.FileServer.ServeSetSize` | lab5/fs/serv.c:181-201 | as specified, with its code (`FileRequests.SetSizeReplies`) |
| `FileServer.FileServer.ServeRead` | lab5/fs/serv.c:207-233 | at most a page is read from the file of the id; code, bytes and seek position as specified (`FileRequests.ReadReplies`) |
| `FileServer.FileServer.ServeWrite` | lab5/fs/serv.c:240-261 | at most a page of the client's bytes is written to it; code and seek position as specified (`FileRequests.WriteReplies`) |
| `BlockCache.BcPgfault` | lab5/fs/bc.c:29-69 | a fault that does not panic maps the block, changes the view of no block and no disk block, and keeps clean pages equal to disk; the recursive fault on the bitmap terminates because the page is mapped first |
| `BlockCache.FaultMaps` | lab5/fs/bc.c:29-69 | besides the block at most bitmap blocks come to be mapped, all clean and as on the disk, and the pages that were there stay as they were |
| `BlockCache.PanicsOnFree` | lab5/fs/bc.c:64-68 | with the bitmap blocks marked in use a fault panics if and only if the block is free |
| `BlockCache.FlushKeeps` | lab5/fs/bc.c:78-99 | flush_block makes the block's disk copy equal its view, leaves its page clean and changes neither view nor any other page or disk block |
| `BlockCache.SyncFromKeeps` | lab5/fs/fs.c:498-500 | the loop of fs_sync writes back exactly the blocks from its start on, and leaves their pages clean |
| `BlockCache.SyncWritesAll` | lab5/fs/fs.c:494-501 | after fs_sync every block from 1 on is on disk as it is seen and none of their pages is dirty |
| `BlockCache.StoreKeeps` | lab5/fs/bc.c:20-25 | a store is seen at its word only, and reaches the disk only later |
| `BlockCache.RunShows` | lab5/fs/bc.c:29-99 | over any loads, stores, flushes and syncs, clean pages equal the disk and what is seen is what a plain array of blocks would hold |
| `BlockCache.AllocOnDisk` | lab5/fs/fs.c:69-71 | alloc_block's cleared bit reaches the disk at once if and only if the block's number is below BLKBITSIZE or the bit was clear there already |
| `BlockCache.LateBitLost` | lab5/fs/fs.c:69-71 | on a disk whose only free block is number BLKBITSIZE its allocation leaves it marked as free on the disk |
| `DiskMap.DiskMap.BcPgfault` | lab5/fs/bc.c:29-69 | as specified, with the bitmap read that may fault in turn |
| `DiskMap.DiskMap.FlushBlock` | lab5/fs/bc.c:78-99 | as specified |
| `DiskMap.DiskMap.FsSync` | lab5/fs/fs.c:494-501 | the loop gives the specified state |
| `StabSearch.Turn` | lab4/kern/kdebug.c:65-91 | each turn keeps the bounds in the table and decreases twice the width plus one while the entry at l still matches, whatever the table |
| `StabSearch.BracketsExactly` | lab4/kern/kdebug.c:59-103 | on a sorted table with an entry at or below addr, as long as addr++ does not wrap around, the bounds returned bracket addr if and only if the turn that meets addr has no entry for addr + 1 left in front; where it does, if and only if the entry just before the one it wrapped at is the right one; both conditions follow the search's own turns, and the one a caller can check without searching is that of `NoNextBrackets` |
| `StabSearch.BracketsSplit` | lab4/kern/kdebug.c:39-43 | bounds that bracket addr have every entry of the type at or below addr up to left, and the others after it |
| `StabSearch.CleanWithoutNext` | lab4/kern/kdebug.c:84-90 | a search is clean in particular when no entry of the type has addr + 1 |
| `StabSearch.NoNextBrackets` | lab4/kern/kdebug.c:59-103 | so the bounds bracket addr whenever an entry is at or below addr, addr is not the last address and no entry of the type has addr + 1 |
| `StabSearch.WrapResult` | lab4/kern/kdebug.c:84-90 | where addr++ wraps around both bounds come back as the index before the entry it wrapped at |
| `StabSearch.NextAddressTaken` | lab4/kern/kdebug.c:84-90 | with entries at 10 and 11 the search for 10 returns the entry at 11 |
| `StabSearch.EmptyResult` | lab4/kern/kdebug.c:93-94 | without an entry of the type the bounds come back crossed |
| `StabSearch.AllAbove` | lab4/kern/kdebug.c:93-102 | with all entries of the type above addr the bounds do not come back crossed |
| `StabSearch.StabBinSearch` | lab4/kern/kdebug.c:59-103 | the loops, with addr++ on a 32-bit word, return what the recursive specification returns |
| `NumberText.PrintedForm` | lab4/lib/printfmt.c:38-53 | printnum emits the padding and then the digits |
| `NumberText.PrintedLength` | lab4/lib/printfmt.c:38-53 | the length is the larger of the width and the number of digits |
| `NumberText.DigitCount` | lab4/lib/printfmt.c:38-53 | n digits are enough if and only if the number is below base to the n |
| `NumberText.PrintThenParse` | lab4/lib/string.c:239-284 | strtol on printnum's output with the same base returns the number and takes all the text, for every base from 2 to 16, any width, and blanks or zeros as padding |
| `NumberText.PrintNumber` | lab4/lib/printfmt.c:38-53 | the recursion and the padding loop emit the specified text |
| `NumberText.ParseLong` | lab4/lib/string.c:239-284 | the loops return the specified value and end, with 32-bit wrap-around |
| `NumberReading.StrTolReads` | lab4/lib/string.c:239-284 | on any text, blanks, sign, prefix, digits in either case and a rest that starts with no digit, strtol returns the positional value of the digits, negated after a minus sign, kept to 32 bits, and stops where the rest begins |
| `NumberReading.EveryTextDivides` | lab4/lib/string.c:239-284 | every text has such parts |

## Left out

- Hardware and assembly: the TLB, `lcr3`, `iret`, LAPIC and interrupt controllers, boot loaders; a trap is a step, and the disk a sequence of blocks.
- Console, keyboard, monitor commands, `cprintf`, the self-tests, ELF loading, exception-stack layout and the user test programs.
- System call return values and saved registers in the CPU model: `Kernel` keeps the fields of `struct Env` that scheduling and IPC use; `MemoryCalls` has the return codes of the memory calls and `Machine.Answer` that of `sys_ipc_try_send`.
- MemoryResults.SysPageMapResult: environments are named by slot; which ids a caller may name, here and in the other memory calls, is `KernelResults.Envid2EnvExact`.
- Virtual memory and scheduling are two models: that the page transfer of a message happens inside the send step is reflected only by its success flag.
- Page contents: `PageTables` has pages of 1024 words and `CowFork` pages of 4096 bytes; that a user store changes no table is proved in the former, what programs read in the latter.
- `env_free_list` is a sequence, not a chain of `env_link` fields.
- The steps of `duppage` and `pgfault` are atomic with respect to other programs' stores, PFTEMP and UTEMP belong to the library, and no page is shared deliberately by `sys_page_map` or IPC: these are what `ForkSimulation.Allowed` asks of programs.
- MemoryRuns.RunSafe: counts stay three below 65536, since a 16-bit count that wraps loses references.
- FileBytes.WriteStores: offset and count together stay at or below 2^31 - 4096, above which rounding a size up to blocks would overflow; `FileBytes.WriteUnfit` has what happens above.
- FileServer.FileServer.FileRead: offsets are not negative; the code would move bytes of the disk block before the file's.
- FileServer.FileServer.FileWrite: offsets are not negative, for the same reason.
- Shrinking does not clear the tail of the last kept block: what comes into view when the file grows again is what `FileContents.ByteAt` says of positions past the size.
- FileSystem.AllocBlock: the bitmap is a sequence of words of its own rather than disk blocks 2 and up; those blocks are reserved and no file names them.
- FileServer.FileServer.FreeBlock: a block number past the end of the disk would write past the bitmap; here it changes nothing, and with ownership in order it does not occur.
- Flushes inside `fs.c` (`file_flush`, the flush after a size change) and crash consistency: the cached view, which `FileSystem` is about, does not depend on them.
- `vprintfmt`, `printnum` for bases above 16, and errors that `strtol` does not detect.
- `mmio_map_region`, `user_mem_check`, `sfork` and the earlier labs' copies of the same routines, except lab 2's `page_insert`.
- KernelProgress.BoundedBypass: about a CPU that does not destroy the environments it runs meanwhile, since the next search after that starts at slot 0 again.
- MemoryCalls.SysPageAllocKeeps: `perm` is a value of 12 bits; the code lets higher bits through, and `page2pa(pp) | perm` would then name another frame.
- FileSystemRuns.ServeExact: says nothing of a write to a directory, which can turn the entries it overwrites into anything; the guard of `ServeKeeps` excludes such writes, and `DirectoryLosses.WriteLoses` shows one byte that loses a path.
- FileRequests.OpenReplies: O_TRUNC on a directory is left to `FileSystemRuns.ServeExact` and `DirectoryCuts.SetSizePathsExact`.
- FileRequests.WriteReplies: about regular files, for the reason given for `ServeExact`.
- NumberReading.StrTolReads: bases up to 99; the 36 digits make every base above 36 the same.
- DiskFormat.Format: the buffer of directory entries is taken to hold zeros at first, as fresh memory from `malloc` does, and names of 128 bytes and more, which overrun `f_name`, are left out.
- `f_size` of a new entry is what the unnamed entry held; its type is proved not to be a directory's.
- The request loop and IPC of `serv.c`, and how `openfile_alloc` picks an id by page references: the open-file table is a map from ids to files, an id goes when its last client does.  Stat, flush and sync, which change no block, are left out.
