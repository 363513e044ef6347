/** What user programs find in their pages: no memory operation but a store changes a mapped page, and a
    store changes one word of one page, wherever that page is mapped. */
module MemoryContents {
  import opened Mmu
  import opened PageTables
  import opened PageAccounting
  import opened AddressSpaces
  import opened MemoryCalls
  import opened MemoryRuns
  import opened MemoryResults

  /** No directory and no page table. */
  ghost predicate DataPage(m: Mem, q: nat) { q < |m.frames| && forall r :: Target(m, r) == q ==> r.UserRef? }

  /** Page q holds the same words. */
  predicate Kept(m: Mem, m': Mem, q: nat) { q < |m.frames| && q < |m'.frames| && m'.frames[q] == m.frames[q] }

  lemma RestData(m: Mem, m': Mem, r0: Ref, q: nat)
    requires DataPage(m, q) && Rest(m, m', r0) && r0.UserRef?
    ensures DataPage(m', q)
  {
    forall r | Target(m', r) == q ensures r.UserRef? {
      if r != r0 { assert Target(m, r) == q; }
    }
  }

  lemma OutsideData(m: Mem, m': Mem, e: int, d: nat, q: nat)
    requires DataPage(m, q) && SameOutside(m, m', e, d) && forall r: Ref :: !Outside(r, e, d) ==> Word(m', r) == ZERO_PTE
    ensures DataPage(m', q)
  {
    forall r | Target(m', r) == q ensures r.UserRef? {
      if Outside(r, e, d) { assert Target(m, r) == q; }
    }
  }

  lemma RemoveFrames(m: Mem, e: int, va: Addr, q: nat)
    requires Core(m) && Live(m, e) && Pdx(va) < NUSER && DataPage(m, q)
    ensures LeafOk(m, m.pgdirs[e], va) && Kept(m, PageRemove(m, m.pgdirs[e], va), q)
  {
    WalkOk(m, e, va);
    assert Target(m, TableRef(e, Pdx(va))) != q;
    hide Separated, UpperOk, FreeListOk, Word;
  }

  lemma FreeSlotFrames(m: Mem, e: int, d: nat, tp: nat, t: nat, q: nat)
    requires Safe(m, false) && Live(m, e) && d < NUSER && t < NENTRIES && Target(m, TableRef(e, d)) == tp && DataPage(m, q)
    ensures Kept(m, FreeSlot(m, e, d, tp, t), q) && DataPage(FreeSlot(m, e, d, tp, t), q)
  {
    PgaddrJoin(d, t, 0);
    RemoveFrames(m, e, Pgaddr(d, t, 0), q);
    FreeSlotKeeps(m, e, d, tp, t, false);
    RestData(m, FreeSlot(m, e, d, tp, t), UserRef(e, d, t), q);
    hide Core, Acct, PageRemove, Pgaddr, Word, Target;
  }

  lemma {:induction false} FreeTableFrames(m: Mem, e: int, d: nat, tp: nat, t: nat, q: nat)
    requires Safe(m, false) && Live(m, e) && d < NUSER && t <= NENTRIES && Target(m, TableRef(e, d)) == tp && DataPage(m, q)
    ensures Kept(m, FreeTable(m, e, d, tp, t), q) && DataPage(FreeTable(m, e, d, tp, t), q)
    decreases NENTRIES - t
  {
    hide Safe, FreeSlot, Target;
    if t < NENTRIES {
      FreeSlotKeeps(m, e, d, tp, t, false);
      FreeSlotFrames(m, e, d, tp, t, q);
      FreeTableFrames(FreeSlot(m, e, d, tp, t), e, d, tp, t + 1, q);
    }
  }

  lemma FreeDirEntryFrames(m: Mem, e: int, d: nat, q: nat)
    requires Safe(m, false) && Live(m, e) && d < NUSER && DataPage(m, q)
    ensures Kept(m, FreeDirEntry(m, e, d), q) && DataPage(FreeDirEntry(m, e, d), q)
  {
    FreeDirEntryKeeps(m, e, d, false);
    OutsideData(m, FreeDirEntry(m, e, d), e, d, q);
    assert Target(m, DirRef(e)) == m.pgdirs[e];
    var w := m.frames[m.pgdirs[e]][d];
    if Present(w) {
      assert Target(m, TableRef(e, d)) == w.frame;
      FreeTableKeeps(m, e, d, w.frame, 0, false);
      FreeTableFrames(m, e, d, w.frame, 0, q);
    }
    hide Safe, FreeTable, Separated, UpperOk, FreeListOk, SameOutside, Outside, Word, Target;
  }

  lemma {:induction false} FreeTablesFrames(m: Mem, e: int, d: nat, q: nat)
    requires Safe(m, false) && Live(m, e) && d <= NUSER && DataPage(m, q)
    ensures Kept(m, FreeTables(m, e, d), q)
    decreases NUSER - d
  {
    hide Safe, FreeDirEntry, Target, Outside;
    if d < NUSER {
      FreeDirEntryKeeps(m, e, d, false);
      FreeDirEntryFrames(m, e, d, q);
      FreeTablesFrames(FreeDirEntry(m, e, d), e, d + 1, q);
    }
  }

  lemma EnvFreeFrames(m: Mem, e: int, q: nat)
    requires Safe(m, false) && Live(m, e) && DataPage(m, q)
    ensures Kept(m, EnvFree(m, e), q)
  {
    hide FreeTables, Acct, Separated, UpperOk, FreeListOk, Word, Target, FreeTable;
    FreeTablesFrames(m, e, 0, q);
    FreeTablesKeeps(m, e, 0, false);
  }

  lemma InsertKept(m: Mem, e: int, va: Addr, pp: nat, perm: bv12, q: nat)
    requires Core(m) && Live(m, e) && va < UTOP && pp < |m.ref| && Mappable(m, q)
    ensures LeafOk(m, m.pgdirs[e], va) && (m.free != [] ==> m.free[0] != m.pgdirs[e])
    ensures Kept(m, PageInsert(m, m.pgdirs[e], pp, va, perm).0, q)
  {
    hide *;
    CoreShape(m, e, q);
    InsertContents(m, e, va, pp, perm, q);
    InsertLength(m, m.pgdirs[e], pp, va, perm);
    KeptIs(m, PageInsert(m, m.pgdirs[e], pp, va, perm).0, q);
  }

  lemma CoreShape(m: Mem, e: int, q: nat)
    requires Core(m) && Mappable(m, q) && Live(m, e)
    ensures e in m.pgdirs && Shape(m) && |m.ref| == |m.frames| && q < |m.frames|
  {
  }

  lemma KeptIs(m: Mem, m': Mem, q: nat)
    requires q < |m.frames| == |m'.frames| && m'.frames[q] == m.frames[q]
    ensures Kept(m, m', q)
  {
  }

  lemma MapIntoFrames(m: Mem, pg: nat, e: int, va: Addr, perm: bv12, q: nat)
    requires Ready(m) && Mappable(m, pg) && Acct(m, pg, 0, false) && Live(m, e) && va < UTOP && Mappable(m, q)
    ensures Kept(m, MapInto(m, pg, e, va, perm).0, q)
  {
    hide PageInsert, Kept, Separated, UpperOk, FreeListOk, Acct, Word, Target;
    InsertKept(m, e, va, pg, perm, q);
  }

  lemma AllocFrames(m: Mem, e: int, va: Addr, perm: bv12, q: nat)
    requires Ready(m) && Mappable(m, q)
    ensures Kept(m, SysPageAlloc(m, e, va, perm).0, q)
  {
    hide *;
    if AllocArgsOk(m, e, va, perm) && m.free != [] {
      ReadyIs(m, e, va, perm);
      SysPageAllocForm(m, e, va, perm);
      TakenFrame(m, q);
      TakenCore(m, e, va, perm);
      var (m1, p) := (IncRef(PageAlloc(m, true), m.free[0]), m.free[0]);
      InsertKept(m1, e, va, p, perm, q);
      ThenFreed(m, m1, PageInsert(m1, m.pgdirs[e], p, va, perm).0, p, q);
    } else {
      AllocRefused(m, e, va, perm, q);
    }
  }

  lemma ThenFreed(m: Mem, m1: Mem, m2: Mem, p: nat, q: nat)
    requires q < |m.frames| == |m1.frames| && m1.frames[q] == m.frames[q] && Kept(m1, m2, q)
    ensures Kept(m, m2, q) && Kept(m, PageFree(m2, p), q)
  {
  }

  lemma AllocRefused(m: Mem, e: int, va: Addr, perm: bv12, q: nat)
    requires Ready(m) && Mappable(m, q) && !(AllocArgsOk(m, e, va, perm) && m.free != [])
    ensures Kept(m, SysPageAlloc(m, e, va, perm).0, q)
  {
    hide PageInsert, PageAlloc, PageFree, IncRef, Separated, UpperOk, FreeListOk, Acct, PermOk;
  }

  lemma RegionFrames(m: Mem, e: int, va: Addr, q: nat)
    requires Ready(m) && Live(m, e) && va < UTOP && m.free != [] && Mappable(m, q)
    ensures Kept(m, RegionPage(m, e, va), q)
  {
    hide PageInsert, Separated, UpperOk, FreeListOk, Acct, Word;
    var m1 := PageAlloc(m, false);
    AllocKeeps(m, false);
    assert forall x :: x in m1.free ==> x in m.free;
    InsertKept(m1, e, va, m.free[0], PTE_W | PTE_U, q);
  }

  lemma SetupFrames(m: Mem, e: int, q: nat)
    requires Ready(m) && Mappable(m, q)
    ensures Kept(m, EnvSetupVm(m, e).0, q)
  {
    hide Separated, UpperOk, FreeListOk, Acct;
    assert m.free != [] ==> m.free[0] in m.free;
  }

  lemma MapFrames(m: Mem, es: int, srcva: Addr, ed: int, dstva: Addr, perm: bv12, q: nat)
    requires Ready(m) && Mappable(m, q)
    ensures Kept(m, SysPageMap(m, es, srcva, ed, dstva, perm).0, q)
  {
    hide MapInto, Separated, UpperOk, FreeListOk, Acct, PermOk, Word;
    if Live(m, es) && Live(m, ed) && dstva < UTOP && Present(Mapping(m, es, srcva)) {
      MappedHeld(m, es, srcva, false);
      MapIntoFrames(m, Mapping(m, es, srcva).frame, ed, dstva, perm, q);
    }
  }

  lemma IpcFrames(m: Mem, from: int, srcva: Addr, to: int, dstva: Addr, perm: bv12, q: nat)
    requires Ready(m) && Mappable(m, q) && Live(m, from) && Live(m, to)
    ensures Kept(m, SysIpcPage(m, from, srcva, to, dstva, perm).0, q)
  {
    hide MapInto, Separated, UpperOk, FreeListOk, Acct, PermOk, Word;
    if dstva < UTOP && Present(Mapping(m, from, srcva)) {
      MappedHeld(m, from, srcva, false);
      MapIntoFrames(m, Mapping(m, from, srcva).frame, to, dstva, perm, q);
    }
  }

  lemma UnmapFrames(m: Mem, e: int, va: Addr, q: nat)
    requires Ready(m) && Mappable(m, q)
    ensures Kept(m, SysPageUnmap(m, e, va).0, q)
  {
    hide PageRemove, Separated, UpperOk, FreeListOk, Acct, Word, Target;
    if va < UTOP && Live(m, e) { RemoveFrames(m, e, va, q); }
  }

  /** No memory operation but a user's store changes the contents of a page that is mapped anywhere, not even
      the removal of that mapping or of the whole environment. */
  lemma StepContents(m: Mem, op: Op, e: int, va: Addr)
    requires Ready(m) && Enabled(m, op) && !op.Store? && e in m.pgdirs && e != KERN && va < UTOP && Pgnum(va) in SpaceOf(m, e)
    ensures var (m', q) := (Step(m, op), SpaceOf(m, e)[Pgnum(va)].frame);
            q < |m.frames| && q < |m'.frames| && m'.frames[q] == m.frames[q]
  {
    SpaceAt(m, e, va);
    MappedHeld(m, e, va, false);
    StepFrames(m, op, Mapping(m, e, va).frame);
    hide Step, SpaceOf, Mapping, Ready, Enabled, Mappable, Acct;
  }

  lemma StepFrames(m: Mem, op: Op, q: nat)
    requires Ready(m) && Enabled(m, op) && !op.Store? && Mappable(m, q)
    ensures Kept(m, Step(m, op), q)
  {
    hide PageInsert, PageRemove, MapInto, RegionPage, SysPageAlloc, EnvFree, EnvSetupVm, Kept, Separated, UpperOk, FreeListOk, Acct, PermOk, Refs;
    match op
    case EnvSetup(e) => SetupFrames(m, e, q);
    case Free(e) => EnvFreeFrames(m, e, q);
    case Alloc(e, va, perm) => AllocFrames(m, e, va, perm, q);
    case Map(es, srcva, ed, dstva, perm) => MapFrames(m, es, srcva, ed, dstva, perm, q);
    case Unmap(e, va) => UnmapFrames(m, e, va, q);
    case Ipc(from, srcva, to, dstva, perm) => IpcFrames(m, from, srcva, to, dstva, perm, q);
    case Region(e, va) => RegionFrames(m, e, va, q);
  }

  /* ---- a program's own stores ---- */

  /** The word at va that programs of e read. */
  ghost function Load(m: Mem, e: int, va: Addr): Pte
    requires Shape(m) && e in m.pgdirs && Pgnum(va) in SpaceOf(m, e) && SpaceOf(m, e)[Pgnum(va)].frame < |m.frames|
  {
    m.frames[SpaceOf(m, e)[Pgnum(va)].frame][va % PGSIZE / 4]
  }

  /** Every page mapped below UTOP exists. */
  lemma MappedExists(m: Mem, e: int, va: Addr)
    requires Ready(m) && e in m.pgdirs && e != KERN && va < UTOP && Pgnum(va) in SpaceOf(m, e)
    ensures SpaceOf(m, e)[Pgnum(va)].frame < |m.frames|
  {
    SpaceAt(m, e, va);
    MappedHeld(m, e, va, false);
    hide SpaceOf, Mapping, Acct, Separated, UpperOk, FreeListOk;
  }

  /** A store at va of e through a writable mapping is seen at every address, of any environment, that reaches
      the same word, and at no other; without such a mapping it changes nothing.  No address space changes. */
  lemma StoreResult(m: Mem, e: int, va: Addr, w: Pte, e2: int, va2: Addr)
    requires Ready(m) && e in m.pgdirs && e != KERN && va < UTOP
    requires e2 in m.pgdirs && e2 != KERN && va2 < UTOP && Pgnum(va2) in SpaceOf(m, e2)
    ensures SpaceOf(m, e2)[Pgnum(va2)].frame < |m.frames|
    ensures var m' := UserStore(m, e, va, w);
            && Shape(m') && m'.pgdirs == m.pgdirs && |m'.frames| == |m.frames| && SpaceOf(m', e2) == SpaceOf(m, e2)
            && Load(m', e2, va2) ==
                 if && Pgnum(va) in SpaceOf(m, e) && SpaceOf(m, e)[Pgnum(va)].perm & PTE_W != 0
                    && SpaceOf(m, e)[Pgnum(va)].frame == SpaceOf(m, e2)[Pgnum(va2)].frame && va % PGSIZE / 4 == va2 % PGSIZE / 4
                 then w else Load(m, e2, va2)
  {
    hide SpaceOf, Mapping, Acct, Separated, UpperOk, FreeListOk, SameAll;
    MappedExists(m, e2, va2);
    SpaceAt(m, e, va);
    if Pgnum(va) in SpaceOf(m, e) { MappedExists(m, e, va); }
    UserStoreKeeps(m, e, va, w, false);
    var m' := UserStore(m, e, va, w);
    SameBecomes(m, m', e2);
  }
}
