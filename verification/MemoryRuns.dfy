/** What the page tables mean to the hardware, and what holds over every run of the memory calls. */
module MemoryRuns {
  import opened Mmu
  import opened PageTables
  import opened PageAccounting
  import opened AddressSpaces
  import opened MemoryCalls

  /* ---- translation: section 5.2 of the Intel 80386 Programmer's Reference Manual ---- */

  /** The hardware's two-level walk from directory page dir; zero when it faults. */
  function Walk(m: Mem, dir: nat, va: Addr): Pte
    requires Shape(m)
  {
    if dir < |m.frames| && Present(m.frames[dir][Pdx(va)]) then
      var tp := m.frames[dir][Pdx(va)].frame;
      if tp < |m.frames| && Present(m.frames[tp][Ptx(va)]) then m.frames[tp][Ptx(va)] else ZERO_PTE
    else ZERO_PTE
  }

  function Translate(m: Mem, e: int, va: Addr): Pte
    requires Shape(m) && e in m.pgdirs
  {
    Walk(m, m.pgdirs[e], va)
  }

  /** Above UTOP every address space translates as kern_pgdir does. */
  function OwnerOf(e: int, va: Addr): int { if Pdx(va) < NUSER then e else KERN }

  lemma TranslateIsWord(m: Mem, e: int, va: Addr)
    requires Core(m) && e in m.pgdirs && Pdx(va) != UVPT_INDEX
    ensures Translate(m, e, va) == Word(m, UserRef(OwnerOf(e, va), Pdx(va), Ptx(va)))
  {
    assert Target(m, DirRef(e)) == m.pgdirs[e];
    assert Target(m, TableRef(OwnerOf(e, va), Pdx(va))) < |m.frames|;
  }

  /** A mapping operation at va of e changes the translation of exactly that page of e: the tables
      refine one finite map per address space. */
  lemma TranslationUpdate(m: Mem, m': Mem, e: int, va: Addr, e2: int, va2: Addr)
    requires Core(m) && Core(m') && Live(m, e) && va < UTOP && Elsewhere(m, m', SlotOf(e, va))
    requires e2 in m.pgdirs && Pdx(va2) != UVPT_INDEX
    ensures Translate(m', e2, va2) == if e2 == e && Pgnum(va2) == Pgnum(va) then Mapping(m', e, va) else Translate(m, e2, va2)
  {
    TranslateIsWord(m, e2, va2);
    TranslateIsWord(m', e2, va2);
    PgaddrSplit(va);
    PgaddrSplit(va2);
    assert Pgnum(va) == Pdx(va) * 1024 + Ptx(va) && Pgnum(va2) == Pdx(va2) * 1024 + Ptx(va2);
  }

  /** The user part of an address space as a finite map from virtual page number to word. */
  ghost function SpaceOf(m: Mem, e: int): map<nat, Pte>
    requires Shape(m) && e in m.pgdirs
  {
    map v: nat | v < NUSER * NENTRIES && Present(Translate(m, e, v * PGSIZE)) :: Translate(m, e, v * PGSIZE)
  }

  lemma VpnSplit(v: nat)
    requires v < NUSER * NENTRIES
    ensures v * PGSIZE < UTOP && Pgnum(v * PGSIZE) == v && Pdx(v * PGSIZE) < NUSER
  {
  }

  lemma SpaceUpdate(m: Mem, m': Mem, e: int, va: Addr, e2: int)
    requires Core(m) && Core(m') && Live(m, e) && va < UTOP && Elsewhere(m, m', SlotOf(e, va)) && e2 in m.pgdirs
    ensures e2 != e ==> SpaceOf(m', e2) == SpaceOf(m, e2)
    ensures e2 == e ==> SpaceOf(m', e) == if Present(Mapping(m', e, va)) then SpaceOf(m, e)[Pgnum(va) := Mapping(m', e, va)]
                                          else SpaceOf(m, e) - {Pgnum(va)}
  {
    forall v: nat | v < NUSER * NENTRIES
      ensures Translate(m', e2, v * PGSIZE) == if e2 == e && v == Pgnum(va) then Mapping(m', e, va) else Translate(m, e2, v * PGSIZE)
    {
      VpnSplit(v);
      TranslationUpdate(m, m', e, va, e2, v * PGSIZE);
    }
    SpacesDiffer(m, m', e2, if e2 == e then Pgnum(va) else NUSER * NENTRIES, Mapping(m', e, va));
    hide Core, Translate, Mapping, SpaceOf;
  }

  /** Spaces that differ at one page at most. */
  lemma SpacesDiffer(m: Mem, m': Mem, e: int, n: nat, w: Pte)
    requires Shape(m) && Shape(m') && e in m.pgdirs && e in m'.pgdirs && n <= NUSER * NENTRIES
    requires forall v: nat :: v < NUSER * NENTRIES ==> Translate(m', e, v * PGSIZE) == if v == n then w else Translate(m, e, v * PGSIZE)
    ensures SpaceOf(m', e) == if n < NUSER * NENTRIES && Present(w) then SpaceOf(m, e)[n := w] else SpaceOf(m, e) - {n}
    ensures n == NUSER * NENTRIES ==> SpaceOf(m', e) == SpaceOf(m, e)
  {
    hide Translate;
  }

  /** page_insert that succeeds is one map update; all other address spaces keep their maps. */
  lemma InsertRefines(m: Mem, e: int, va: Addr, pp: nat, perm: bv12, exact: bool)
    requires Core(m) && Acct(m, pp, 0, exact) && Mappable(m, pp) && Room(m) && Live(m, e) && va < UTOP
    ensures LeafOk(m, m.pgdirs[e], va) && (m.free != [] ==> m.free[0] != m.pgdirs[e])
    ensures var (m', rc) := PageInsert(m, m.pgdirs[e], pp, va, perm);
            && Shape(m') && m'.pgdirs == m.pgdirs
            && (rc == 0 ==> SpaceOf(m', e) == SpaceOf(m, e)[Pgnum(va) := Pte(pp, perm | PTE_P)])
            && (forall e2 :: e2 in m.pgdirs && (rc != 0 || e2 != e) ==> SpaceOf(m', e2) == SpaceOf(m, e2))
  {
    InsertKeeps(m, e, va, pp, perm, 0, exact);
    var (m', rc) := PageInsert(m, m.pgdirs[e], pp, va, perm);
    if rc == 0 {
      PresentBit(perm);
      forall e2 | e2 in m.pgdirs { SpaceUpdate(m, m', e, va, e2); }
    }
  }

  /** page_remove deletes one key. */
  lemma RemoveRefines(m: Mem, e: int, va: Addr, exact: bool)
    requires Safe(m, exact) && Live(m, e) && va < UTOP
    ensures LeafOk(m, m.pgdirs[e], va)
    ensures var m' := PageRemove(m, m.pgdirs[e], va);
            && Shape(m') && m'.pgdirs == m.pgdirs
            && SpaceOf(m', e) == SpaceOf(m, e) - {Pgnum(va)}
            && (forall e2 :: e2 in m.pgdirs && e2 != e ==> SpaceOf(m', e2) == SpaceOf(m, e2))
  {
    RemoveKeeps(m, e, va, -1, 0, exact);
    forall e2 | e2 in m.pgdirs { SpaceUpdate(m, PageRemove(m, m.pgdirs[e], va), e, va, e2); }
  }

  /** page_lookup reads the map. */
  lemma LookupReads(m: Mem, e: int, va: Addr)
    requires Core(m) && Live(m, e) && va < UTOP
    ensures LeafOk(m, m.pgdirs[e], va)
    ensures var t := PageLookup(m, m.pgdirs[e], va);
            && (t >= 0 <==> Pgnum(va) in SpaceOf(m, e))
            && (t >= 0 ==> m.frames[t][Ptx(va)] == SpaceOf(m, e)[Pgnum(va)])
  {
    WalkOk(m, e, va);
    assert Target(m, DirRef(e)) == m.pgdirs[e];
    var v := Pgnum(va);
    assert Pdx(v * PGSIZE) == Pdx(va) && Ptx(v * PGSIZE) == Ptx(va);
  }

  /** Physical address the hardware reaches from va, or -1 for a fault. */
  function Phys(m: Mem, dir: nat, va: Addr): int
    requires Shape(m)
  {
    var w := Walk(m, dir, va);
    if Present(w) then w.frame * PGSIZE + Pgoff(va) else -1
  }

  /** The self-map: in every address space and for every va with a page table, the hardware walk of
      &uvpt[PGNUM(va)] reaches the physical word that maps va. */
  lemma SelfMap(m: Mem, e: int, va: Addr)
    requires Core(m) && e in m.pgdirs && Present(m.frames[m.pgdirs[e]][Pdx(va)])
    ensures UVPT + 4 * Pgnum(va) < 0x1_0000_0000
    ensures Phys(m, m.pgdirs[e], UVPT + 4 * Pgnum(va)) == m.frames[m.pgdirs[e]][Pdx(va)].frame * PGSIZE + 4 * Ptx(va)
  {
    UvptSplit(va);
    assert (PTE_P | PTE_U) & PTE_P != 0;
  }

  /* ---- runs ---- */

  datatype Op =
    | EnvSetup(e: int)
    | Free(e: int)
    | Alloc(e: int, va: Addr, perm: bv12)
    | Map(es: int, srcva: Addr, ed: int, dstva: Addr, perm: bv12)
    | Unmap(e: int, va: Addr)
    | Ipc(from: int, srcva: Addr, to: int, dstva: Addr, perm: bv12)
    | Region(e: int, va: Addr)
    | Store(e: int, va: Addr, w: Pte)

  /** What the caller guarantees: live environments; a panic of region_alloc ends the run. */
  predicate Enabled(m: Mem, op: Op) {
    match op
    case EnvSetup(e) => e !in m.pgdirs && e != KERN
    case Free(e) => Live(m, e)
    case Ipc(from, _, to, _, _) => Live(m, from) && Live(m, to)
    case Region(e, va) => Live(m, e) && va < UTOP && m.free != []
    case _ => true
  }

  function Step(m: Mem, op: Op): Mem
    requires Ready(m) && Enabled(m, op)
  {
    match op
    case EnvSetup(e) => EnvSetupVm(m, e).0
    case Free(e) => EnvFree(m, e)
    case Alloc(e, va, perm) => SysPageAlloc(m, e, va, perm).0
    case Map(es, srcva, ed, dstva, perm) => SysPageMap(m, es, srcva, ed, dstva, perm).0
    case Unmap(e, va) => SysPageUnmap(m, e, va).0
    case Ipc(from, srcva, to, dstva, perm) => SysIpcPage(m, from, srcva, to, dstva, perm).0
    case Region(e, va) => RegionPage(m, e, va)
    case Store(e, va, w) => UserStore(m, e, va, w)
  }

  lemma StepSafe(m: Mem, op: Op)
    requires Ready(m) && Enabled(m, op)
    ensures Safe(Step(m, op), false)
  {
    match op
    case EnvSetup(e) => EnvSetupKeeps(m, e, false);
    case Free(e) => EnvFreeKeeps(m, e, false);
    case Alloc(e, va, perm) => SysPageAllocKeeps(m, e, va, perm);
    case Map(es, srcva, ed, dstva, perm) =>
      if SysPageMap(m, es, srcva, ed, dstva, perm).0 != m { MapIntoKeeps(m, es, srcva, ed, dstva, perm, false); }
    case Unmap(e, va) => SysPageUnmapKeeps(m, e, va, false);
    case Ipc(from, srcva, to, dstva, perm) =>
      if SysIpcPage(m, from, srcva, to, dstva, perm).0 != m { MapIntoKeeps(m, from, srcva, to, dstva, perm, false); }
    case Region(e, va) => RegionPageSafe(m, e, va);
    case Store(e, va, w) => UserStoreKeeps(m, e, va, w, false);
  }

  /** The operations that take no surplus reference: all but a sys_page_alloc that gets past its
      checks, and a region_alloc whose ignored page_insert fails. */
  predicate Accounted(m: Mem, op: Op) {
    match op
    case Alloc(e, va, perm) => !AllocArgsOk(m, e, va, perm) || m.free == []
    case Region(e, va) => !(NeedsTable(m, e, va) && |m.free| == 1)
    case _ => true
  }

  /** Exact accounting survives a step exactly when the step is one of them. */
  lemma StepExact(m: Mem, op: Op)
    requires Ready(m) && Safe(m, true) && Enabled(m, op)
    ensures Safe(Step(m, op), true) <==> Accounted(m, op)
  {
    match op
    case EnvSetup(e) => EnvSetupKeeps(m, e, true);
    case Free(e) => EnvFreeKeeps(m, e, true);
    case Alloc(e, va, perm) => SysPageAllocLeaks(m, e, va, perm);
    case Map(es, srcva, ed, dstva, perm) =>
      if SysPageMap(m, es, srcva, ed, dstva, perm).0 != m { MapIntoKeeps(m, es, srcva, ed, dstva, perm, true); }
    case Unmap(e, va) => SysPageUnmapKeeps(m, e, va, true);
    case Ipc(from, srcva, to, dstva, perm) =>
      if SysIpcPage(m, from, srcva, to, dstva, perm).0 != m { MapIntoKeeps(m, from, srcva, to, dstva, perm, true); }
    case Region(e, va) => RegionPageKeeps(m, e, va);
    case Store(e, va, w) => UserStoreKeeps(m, e, va, w, true);
  }

  /** ms is a run performing ops, in which no count comes near wrapping. */
  ghost predicate Run(ms: seq<Mem>, ops: seq<Op>) {
    && |ms| == |ops| + 1
    && (forall i :: 0 <= i < |ms| ==> CountsBelow(ms[i]))
    && (forall i :: 0 <= i < |ops| ==> Enabled(ms[i], ops[i]))
    && (forall i :: 0 <= i < |ops| && Ready(ms[i]) ==> ms[i + 1] == Step(ms[i], ops[i]))
  }

  /** Memory safety over every run: at every moment counts cover references, the free list has no
      duplicate and nothing referenced on it, and no table or directory is also a user page. */
  lemma {:induction false} RunSafe(ms: seq<Mem>, ops: seq<Op>, k: nat)
    requires Run(ms, ops) && Safe(ms[0], false) && k < |ms|
    ensures Safe(ms[k], false)
  {
    if k > 0 {
      RunSafe(ms, ops, k - 1);
      StepSafe(ms[k - 1], ops[k - 1]);
    }
  }

  /** Exact accounting over every run of accounted operations. */
  lemma {:induction false} RunExact(ms: seq<Mem>, ops: seq<Op>, k: nat)
    requires Run(ms, ops) && Safe(ms[0], true) && k < |ms|
    requires forall i :: 0 <= i < |ops| ==> Accounted(ms[i], ops[i])
    ensures Safe(ms[k], true) && Safe(ms[k], false)
  {
    if k > 0 {
      RunExact(ms, ops, k - 1);
      StepExact(ms[k - 1], ops[k - 1]);
    }
  }

  ghost function FreeSet(m: Mem): set<nat> { set p | p in m.free }

  /** In exactly accounted states the references alone determine the free pages. */
  lemma FreeSetDetermined(a: Mem, b: Mem)
    requires Safe(a, true) && Safe(b, true) && SameAll(a, b) && a.reserved == b.reserved && |a.frames| == |b.frames|
    ensures FreeSet(a) == FreeSet(b)
  {
    RefsSame(a, b);
    forall p ensures p in FreeSet(a) <==> p in FreeSet(b) {
      assert p in a.free ==> p < |a.frames| && p !in a.reserved;
      assert p in b.free ==> p < |b.frames| && p !in b.reserved;
    }
  }

  lemma StepStable(m: Mem, op: Op)
    requires Ready(m) && Safe(m, true) && Enabled(m, op) && Accounted(m, op)
    ensures Step(m, op).reserved == m.reserved && |Step(m, op).frames| == |m.frames|
  {
    match op
    case EnvSetup(e) => EnvSetupKeeps(m, e, true);
    case Free(e) => EnvFreeKeeps(m, e, true);
    case Alloc(e, va, perm) => SysPageAllocKeeps(m, e, va, perm);
    case Map(es, srcva, ed, dstva, perm) =>
      if SysPageMap(m, es, srcva, ed, dstva, perm).0 != m { MapIntoKeeps(m, es, srcva, ed, dstva, perm, true); }
    case Unmap(e, va) => SysPageUnmapKeeps(m, e, va, true);
    case Ipc(from, srcva, to, dstva, perm) =>
      if SysIpcPage(m, from, srcva, to, dstva, perm).0 != m { MapIntoKeeps(m, from, srcva, to, dstva, perm, true); }
    case Region(e, va) => RegionPageKeeps(m, e, va);
    case Store(e, va, w) =>
  }

  lemma {:induction false} RunStable(ms: seq<Mem>, ops: seq<Op>, k: nat)
    requires Run(ms, ops) && Safe(ms[0], true) && k < |ms|
    requires forall i :: 0 <= i < |ops| ==> Accounted(ms[i], ops[i])
    ensures ms[k].reserved == ms[0].reserved && |ms[k].frames| == |ms[0].frames|
  {
    if k > 0 {
      RunStable(ms, ops, k - 1);
      RunExact(ms, ops, k - 1);
      StepStable(ms[k - 1], ops[k - 1]);
    }
  }

  /** Conservation: create e, perform any accounted operations, destroy e.  If the other address
      spaces are as they were, the free pages are exactly those that were free before. */
  lemma Conservation(ms: seq<Mem>, ops: seq<Op>, e: int)
    requires Run(ms, ops) && Safe(ms[0], true) && |ops| >= 2
    requires forall i :: 0 <= i < |ops| ==> Accounted(ms[i], ops[i])
    requires e !in ms[0].pgdirs && ops[0] == EnvSetup(e) && ops[|ops| - 1] == Free(e)
    requires forall r: Ref :: r.e != e ==> Word(ms[|ops|], r) == Word(ms[0], r)
    ensures FreeSet(ms[|ops|]) == FreeSet(ms[0])
  {
    var n := |ops|;
    RunExact(ms, ops, n);
    RunExact(ms, ops, n - 1);
    RunStable(ms, ops, n);
    assert Enabled(ms[n - 1], ops[n - 1]);
    EnvFreeKeeps(ms[n - 1], e, true);
    assert ms[n] == EnvFree(ms[n - 1], e);
    WordsSame(ms[0], ms[n], e);
    FreeSetDetermined(ms[0], ms[n]);
  }

  lemma WordsSame(a: Mem, b: Mem, e: int)
    requires forall r: Ref :: r.e != e ==> Word(b, r) == Word(a, r)
    requires (forall r: Ref :: r.e == e ==> Word(b, r) == ZERO_PTE) && e !in a.pgdirs
    ensures SameAll(a, b)
  {
    forall r: Ref ensures Word(b, r) == Word(a, r) {
      if r.e == e { assert Word(a, r) == ZERO_PTE; }
    }
  }
}
