/** What each memory system call of lab4/kern/syscall.c does, told by address spaces alone: a finite map
    from virtual page numbers to mappings for every environment, as the hardware walks them. */
module MemoryResults {
  import opened Mmu
  import opened PageTables
  import opened PageAccounting
  import opened AddressSpaces
  import opened MemoryCalls
  import opened MemoryRuns

  /** e has become s; every other address space is what it was. */
  ghost predicate Becomes(m: Mem, m': Mem, e: int, s: map<nat, Pte>) {
    && Shape(m) && Shape(m') && m'.pgdirs == m.pgdirs && e in m.pgdirs
    && SpaceOf(m', e) == s
    && (forall e2 :: e2 in m.pgdirs && e2 != e ==> SpaceOf(m', e2) == SpaceOf(m, e2))
  }

  /** Mapping va in e takes no new page table. */
  predicate HasTable(m: Mem, e: int, va: Addr) {
    && e in m.pgdirs && m.pgdirs[e] < |m.frames| && Pdx(va) < |m.frames[m.pgdirs[e]]|
    && Present(m.frames[m.pgdirs[e]][Pdx(va)])
  }

  lemma TableNeeded(m: Mem, e: int, va: Addr)
    requires Core(m) && Live(m, e) && va < UTOP
    ensures HasTable(m, e, va) <==> !NeedsTable(m, e, va)
  {
  }

  lemma SpaceAt(m: Mem, e: int, va: Addr)
    requires Core(m) && Live(m, e) && va < UTOP
    ensures Pgnum(va) in SpaceOf(m, e) <==> Present(Mapping(m, e, va))
    ensures Pgnum(va) in SpaceOf(m, e) ==> SpaceOf(m, e)[Pgnum(va)] == Mapping(m, e, va)
  {
    VpnSplit(Pgnum(va));
    PageOf(va);
    TranslateIsWord(m, e, Pgnum(va) * PGSIZE);
    hide Translate, Word, Core;
  }

  lemma IndexOfPage(la: Addr)
    ensures Pdx(la) == Pgnum(la) / 1024 && Ptx(la) == Pgnum(la) % 1024
  {
    assert la / 0x40_0000 == la / 0x1000 / 1024;
  }

  lemma PageOf(va: Addr)
    requires va < UTOP
    ensures Pgnum(va) < NUSER * NENTRIES && Pdx(va) < NUSER
    ensures Pdx(Pgnum(va) * PGSIZE) == Pdx(va) && Ptx(Pgnum(va) * PGSIZE) == Ptx(va)
  {
    hide Pdx, Ptx;
    IndexOfPage(va);
    VpnSplit(Pgnum(va));
    IndexOfPage(Pgnum(va) * PGSIZE);
  }

  lemma UpdateBecomes(m: Mem, m': Mem, e: int, va: Addr)
    requires Core(m) && Core(m') && Live(m, e) && va < UTOP && Elsewhere(m, m', SlotOf(e, va))
    ensures Becomes(m, m', e, if Present(Mapping(m', e, va)) then SpaceOf(m, e)[Pgnum(va) := Mapping(m', e, va)]
                              else SpaceOf(m, e) - {Pgnum(va)})
  {
    forall e2 | e2 in m.pgdirs { SpaceUpdate(m, m', e, va, e2); }
    hide SpaceOf, Mapping, Separated, UpperOk, FreeListOk;
  }

  lemma SameBecomes(m: Mem, m': Mem, e: int)
    requires Core(m) && Core(m') && SameAll(m, m') && m'.pgdirs == m.pgdirs && Live(m, e)
    ensures Becomes(m, m', e, SpaceOf(m, e))
  {
    forall e2, v: nat | e2 in m.pgdirs && v < NUSER * NENTRIES ensures Translate(m', e2, v * PGSIZE) == Translate(m, e2, v * PGSIZE) {
      VpnSplit(v);
      TranslateIsWord(m, e2, v * PGSIZE);
      TranslateIsWord(m', e2, v * PGSIZE);
    }
    hide Translate, Word, Target, Separated, UpperOk, FreeListOk;
  }

  lemma SameDirs(m: Mem, m': Mem)
    requires SameAll(m, m')
    ensures m'.pgdirs == m.pgdirs
  {
    forall e ensures DirWord(m', e) == DirWord(m, e) { assert Word(m', DirRef(e)) == Word(m, DirRef(e)); }
    forall e ensures e in m'.pgdirs <==> e in m.pgdirs { assert DirWord(m', e) == DirWord(m, e); }
    forall e | e in m.pgdirs ensures m'.pgdirs[e] == m.pgdirs[e] { assert DirWord(m', e) == DirWord(m, e); }
  }

  lemma PermBits(perm: bv12)
    ensures PermOk(perm) <==> perm & PTE_U != 0 && perm & PTE_P != 0
  {
  }

  /* ---- sys_page_map, sys_page_unmap ---- */

  /** Mapping a page that is mapped already at va of e. */
  lemma ShareResult(m: Mem, es: int, srcva: Addr, pg: nat, e: int, va: Addr, perm: bv12)
    requires Ready(m) && Live(m, es) && Present(Mapping(m, es, srcva)) && Mapping(m, es, srcva).frame == pg
    requires Mappable(m, pg) && Acct(m, pg, 0, false) && Live(m, e) && va < UTOP
    ensures var (m', rc) := MapInto(m, pg, e, va, perm);
            if !HasTable(m, e, va) && m.free == [] then m' == m && rc == -E_NO_MEM
            else rc == 0 && Becomes(m, m', e, SpaceOf(m, e)[Pgnum(va) := Pte(pg, perm | PTE_P)])
  {
    hide Mapping, MapInto, SpaceOf, Becomes, HasTable, NeedsTable, Elsewhere, Separated, UpperOk, FreeListOk, Acct, Mappable;
    TableNeeded(m, e, va);
    MapIntoKeeps(m, es, srcva, e, va, perm, false);
    var (m', rc) := MapInto(m, pg, e, va, perm);
    if rc == 0 {
      PresentBit(perm);
      UpdateBecomes(m, m', e, va);
    }
  }

  /** The same, in terms of the source's address space. */
  lemma SharedAs(m: Mem, es: int, srcva: Addr, e: int, va: Addr, perm: bv12)
    requires Ready(m) && Live(m, es) && srcva < UTOP && Present(Mapping(m, es, srcva)) && Live(m, e) && va < UTOP
    ensures Pgnum(srcva) in SpaceOf(m, es)
    ensures var pg := Mapping(m, es, srcva).frame; Mappable(m, pg) && Acct(m, pg, 0, false)
    ensures var (m', rc) := MapInto(m, Mapping(m, es, srcva).frame, e, va, perm);
            if !HasTable(m, e, va) && m.free == [] then m' == m && rc == -E_NO_MEM
            else rc == 0 && Becomes(m, m', e, SpaceOf(m, e)[Pgnum(va) := Pte(SpaceOf(m, es)[Pgnum(srcva)].frame, perm | PTE_P)])
  {
    hide Mapping, MapInto, SpaceOf, Becomes, HasTable, Separated, UpperOk, FreeListOk, Acct, Mappable, CountsBelow;
    SpaceAt(m, es, srcva);
    MappedHeld(m, es, srcva, false);
    ShareResult(m, es, srcva, Mapping(m, es, srcva).frame, e, va, perm);
  }

  /** The checks of sys_page_map. */
  lemma MapForm(m: Mem, es: int, srcva: Addr, ed: int, dstva: Addr, perm: bv12)
    requires Ready(m)
    ensures Core(m) && Safe(m, false)
    ensures (Live(m, es) <==> es in m.pgdirs && es != KERN) && (Live(m, ed) <==> ed in m.pgdirs && ed != KERN)
    ensures var r := SysPageMap(m, es, srcva, ed, dstva, perm);
            if !Live(m, es) || !Live(m, ed) then r == (m, -E_BAD_ENV)
            else
              var w := Mapping(m, es, srcva);
              if || srcva >= UTOP || srcva % PGSIZE != 0 || dstva >= UTOP || dstva % PGSIZE != 0
                 || !Present(w) || perm & PTE_U == 0 || perm & PTE_P == 0 || (perm & PTE_W != 0 && w.perm & PTE_W == 0)
              then r == (m, -E_INVAL)
              else Mappable(m, w.frame) && Acct(m, w.frame, 0, false) && r == MapInto(m, w.frame, ed, dstva, perm)
  {
    hide Mapping, MapInto, Separated, UpperOk, FreeListOk, Acct, Mappable, CountsBelow, Present, PermOk;
    PermBits(perm);
    if Live(m, es) && Present(Mapping(m, es, srcva)) { MappedHeld(m, es, srcva, false); }
  }

  /** sys_page_map succeeds if and only if both environments exist, both addresses are page-aligned and
      below UTOP, a page is mapped at srcva, perm asks for PTE_U and PTE_P, and for PTE_W only if the page
      is writable there, and a page is left for the table it may need.  Then dstva, and nothing else,
      maps the same page with perm; otherwise nothing changes. */
  lemma SysPageMapResult(m: Mem, es: int, srcva: Addr, ed: int, dstva: Addr, perm: bv12)
    requires Ready(m)
    ensures var (m', rc) := SysPageMap(m, es, srcva, ed, dstva, perm);
            if es !in m.pgdirs || es == KERN || ed !in m.pgdirs || ed == KERN then m' == m && rc == -E_BAD_ENV
            else if || srcva >= UTOP || srcva % PGSIZE != 0 || dstva >= UTOP || dstva % PGSIZE != 0
                    || Pgnum(srcva) !in SpaceOf(m, es) || perm & PTE_U == 0 || perm & PTE_P == 0
                    || (perm & PTE_W != 0 && SpaceOf(m, es)[Pgnum(srcva)].perm & PTE_W == 0)
              then m' == m && rc == -E_INVAL
            else if !HasTable(m, ed, dstva) && m.free == [] then m' == m && rc == -E_NO_MEM
            else rc == 0 && Becomes(m, m', ed, SpaceOf(m, ed)[Pgnum(dstva) := Pte(SpaceOf(m, es)[Pgnum(srcva)].frame, perm | PTE_P)])
  {
    hide *;
    MapForm(m, es, srcva, ed, dstva, perm);
    if Live(m, es) && Live(m, ed) && srcva < UTOP && dstva < UTOP {
      SpaceAt(m, es, srcva);
      if Present(Mapping(m, es, srcva)) { SharedAs(m, es, srcva, ed, dstva, perm); }
    }
  }

  /** sys_page_unmap succeeds if and only if the environment exists and va is page-aligned and below
      UTOP.  Then the page at va, and nothing else, is unmapped; otherwise nothing changes. */
  lemma SysPageUnmapResult(m: Mem, e: int, va: Addr)
    requires Ready(m)
    ensures var (m', rc) := SysPageUnmap(m, e, va);
            if va >= UTOP || va % PGSIZE != 0 then m' == m && rc == -E_INVAL
            else if e !in m.pgdirs || e == KERN then m' == m && rc == -E_BAD_ENV
            else rc == 0 && Becomes(m, m', e, SpaceOf(m, e) - {Pgnum(va)})
  {
    if va < UTOP && Live(m, e) { RemoveRefines(m, e, va, false); }
    hide SpaceOf, Separated, UpperOk, FreeListOk, Acct, CountsBelow, PageRemove;
  }

  /* ---- the page of a message ---- */

  /** Whatever perm asks for of PTE_P, PTE_W and PTE_U, have has. */
  predicate Covers(have: bv12, perm: bv12) {
    && (perm & PTE_P != 0 ==> have & PTE_P != 0)
    && (perm & PTE_W != 0 ==> have & PTE_W != 0)
    && (perm & PTE_U != 0 ==> have & PTE_U != 0)
  }

  /** The page transfer of sys_ipc_try_send.  A sender that offers no page (srcva at UTOP or above), or one
      to a receiver that wants none, moves nothing and succeeds.  Otherwise the page must be mapped at the
      page-aligned srcva with every one of PTE_P, PTE_W and PTE_U that perm asks for; then the
      receiver's dstva, and nothing else, maps it. */
  lemma SysIpcPageResult(m: Mem, from: int, srcva: Addr, to: int, dstva: Addr, perm: bv12)
    requires Ready(m) && Live(m, from) && Live(m, to)
    ensures var (m', rc) := SysIpcPage(m, from, srcva, to, dstva, perm);
            if srcva >= UTOP then m' == m && rc == 0
            else if || srcva % PGSIZE != 0 || Pgnum(srcva) !in SpaceOf(m, from)
                    || !Covers(SpaceOf(m, from)[Pgnum(srcva)].perm, perm)
              then m' == m && rc == -E_INVAL
            else if dstva >= UTOP then m' == m && rc == 0
            else if !HasTable(m, to, dstva) && m.free == [] then m' == m && rc == -E_NO_MEM
            else rc == 0 && Becomes(m, m', to, SpaceOf(m, to)[Pgnum(dstva) := Pte(SpaceOf(m, from)[Pgnum(srcva)].frame, perm | PTE_P)])
  {
    hide Covers;
    if srcva < UTOP {
      SpaceAt(m, from, srcva);
      GrantBits(Mapping(m, from, srcva).perm, perm);
      if Present(Mapping(m, from, srcva)) && dstva < UTOP { SharedAs(m, from, srcva, to, dstva, perm); }
    }
    hide Mapping, MapInto, SpaceOf, Becomes, HasTable, Separated, UpperOk, FreeListOk, Acct, CountsBelow;
  }

  lemma GrantBits(have: bv12, perm: bv12)
    ensures have & perm & 7 == perm & 7 <==> Covers(have, perm)
    ensures Covers(have, perm) ==> !(perm & PTE_W != 0 && have & PTE_W == 0)
  {
  }

  /* ---- sys_page_alloc, region_alloc ---- */

  /** sys_page_alloc succeeds if and only if the environment exists, va is below UTOP, perm asks for PTE_U and
      PTE_P, and there is a page, and another for the table if one is needed.  Then the page of va, which
      need not be aligned, and nothing else, maps the first free page; otherwise no address space changes. */
  lemma SysPageAllocResult(m: Mem, e: int, va: Addr, perm: bv12)
    requires Ready(m)
    ensures var (m', rc) := SysPageAlloc(m, e, va, perm);
            if e !in m.pgdirs || e == KERN then m' == m && rc == -E_BAD_ENV
            else if va >= UTOP || perm & PTE_U == 0 || perm & PTE_P == 0 then m' == m && rc == -E_INVAL
            else if m.free == [] || (!HasTable(m, e, va) && |m.free| == 1) then
              && rc == -E_NO_MEM && m'.free == m.free && Becomes(m, m', e, SpaceOf(m, e))
            else rc == 0 && Becomes(m, m', e, SpaceOf(m, e)[Pgnum(va) := Pte(m.free[0], perm | PTE_P)])
  {
    PermBits(perm);
    SysPageAllocKeeps(m, e, va, perm);
    var m' := SysPageAlloc(m, e, va, perm).0;
    if AllocArgsOk(m, e, va, perm) {
      TableNeeded(m, e, va);
      PresentBit(perm);
      if m.free == [] {
        SameBecomes(m, m, e);
      } else if NeedsTable(m, e, va) && |m.free| == 1 {
        SameDirs(m, m');
        SameBecomes(m, m', e);
      } else {
        UpdateBecomes(m, m', e, va);
      }
    }
    hide Mapping, SpaceOf, Becomes, HasTable, NeedsTable, Elsewhere, SameAll, Separated, UpperOk, FreeListOk, Acct, PermOk, CountsBelow;
  }

  /** One page of region_alloc: the page of va maps the first free page, writable; if none is left for the table it
      needs, nothing is mapped and nobody is told. */
  lemma RegionPageResult(m: Mem, e: int, va: Addr)
    requires Ready(m) && Safe(m, true) && Live(m, e) && va < UTOP && m.free != []
    ensures Becomes(m, RegionPage(m, e, va), e,
                    if !HasTable(m, e, va) && |m.free| == 1 then SpaceOf(m, e)
                    else SpaceOf(m, e)[Pgnum(va) := Pte(m.free[0], PTE_W | PTE_U | PTE_P)])
  {
    hide SpaceOf, Becomes, HasTable, NeedsTable, Elsewhere, SameAll, Separated, UpperOk, FreeListOk, Acct, CountsBelow, RegionPage;
    TableNeeded(m, e, va);
    RegionPageKeeps(m, e, va);
    var m' := RegionPage(m, e, va);
    if NeedsTable(m, e, va) && |m.free| == 1 {
      RegionPageLost(m, e, va);
      SameDirs(m, m');
      SameBecomes(m, m', e);
    } else {
      PresentBit(PTE_W | PTE_U);
      UpdateBecomes(m, m', e, va);
    }
  }

  lemma RegionPageLost(m: Mem, e: int, va: Addr)
    requires Ready(m) && Safe(m, true) && Live(m, e) && va < UTOP && NeedsTable(m, e, va) && |m.free| == 1
    ensures SameAll(m, RegionPage(m, e, va))
  {
    hide Separated, UpperOk, FreeListOk, PageInsert;
    AllocKeeps(m, false);
    AllocAcct(m, false, true);
    InsertKeeps(PageAlloc(m, false), e, va, m.free[0], PTE_W | PTE_U, 0, true);
  }

  /* ---- env_setup_vm, env_free ---- */

  lemma WordsAlike(m: Mem, m': Mem, e: int)
    requires Core(m) && Core(m') && e in m.pgdirs && e in m'.pgdirs
    requires forall d, t :: Word(m', UserRef(e, d, t)) == Word(m, UserRef(e, d, t))
    ensures SpaceOf(m', e) == SpaceOf(m, e)
  {
    forall v: nat | v < NUSER * NENTRIES ensures Translate(m', e, v * PGSIZE) == Translate(m, e, v * PGSIZE) {
      VpnSplit(v);
      TranslateIsWord(m, e, v * PGSIZE);
      TranslateIsWord(m', e, v * PGSIZE);
    }
    hide Translate, Word, Separated, UpperOk, FreeListOk;
  }

  /** A new environment has nothing mapped below UTOP, sees above it what kern_pgdir maps, and changes no other
      address space; with no page for its directory it is not made. */
  lemma EnvSetupResult(m: Mem, e: int)
    requires Ready(m) && e !in m.pgdirs && e != KERN
    ensures var (m', rc) := EnvSetupVm(m, e);
            if m.free == [] then m' == m && rc == -E_NO_MEM
            else
              && rc == 0 && Shape(m') && m'.pgdirs.Keys == m.pgdirs.Keys + {e} && SpaceOf(m', e) == map[]
              && (forall e2 :: e2 in m.pgdirs ==> SpaceOf(m', e2) == SpaceOf(m, e2))
              && (forall va: Addr :: va >= UTOP && Pdx(va) != UVPT_INDEX ==> KERN in m'.pgdirs && Translate(m', e, va) == Translate(m', KERN, va))
  {
    EnvSetupKeeps(m, e, false);
    if m.free != [] {
      var m' := EnvSetupVm(m, e).0;
      forall d: nat, t: nat | d < NUSER ensures Word(m', UserRef(e, d, t)) == ZERO_PTE { NoWords(m, e, d, t); }
      EmptySpace(m', e);
      forall e2 | e2 in m.pgdirs ensures SpaceOf(m', e2) == SpaceOf(m, e2) { WordsAlike(m, m', e2); }
      forall va: Addr | va >= UTOP && Pdx(va) != UVPT_INDEX
        ensures KERN in m'.pgdirs && Translate(m', e, va) == Translate(m', KERN, va)
      {
        AboveUser(m', e, va);
      }
    }
    hide Translate, SpaceOf, Word, Target, Separated, UpperOk, FreeListOk, EnvSetupVm, Acct, CountsBelow;
  }

  lemma NoWords(m: Mem, e: int, d: nat, t: nat)
    requires Ready(m) && e !in m.pgdirs && e != KERN && m.free != []
    ensures Word(EnvSetupVm(m, e).0, UserRef(e, d, t)) == ZERO_PTE
  {
    EnvSetupKeeps(m, e, false);
    assert Word(m, UserRef(e, d, t)) == ZERO_PTE;
    hide EnvSetupVm, Word, Separated, UpperOk, FreeListOk;
  }

  lemma EmptySpace(m: Mem, e: int)
    requires Core(m) && e in m.pgdirs && forall d: nat, t: nat :: d < NUSER ==> Word(m, UserRef(e, d, t)) == ZERO_PTE
    ensures SpaceOf(m, e) == map[]
  {
    forall v: nat | v < NUSER * NENTRIES ensures !Present(Translate(m, e, v * PGSIZE)) {
      VpnSplit(v);
      TranslateIsWord(m, e, v * PGSIZE);
    }
    hide Translate, Word, Core;
  }

  lemma AboveUser(m: Mem, e: int, va: Addr)
    requires Core(m) && e in m.pgdirs && va >= UTOP && Pdx(va) != UVPT_INDEX
    ensures KERN in m.pgdirs && Translate(m, e, va) == Translate(m, KERN, va)
  {
    assert Pdx(va) >= NUSER;
    TranslateIsWord(m, e, va);
    TranslateIsWord(m, KERN, va);
    hide Translate, Word, Separated, FreeListOk;
  }

  /** A destroyed environment has no address space, and the others are what they were. */
  lemma EnvFreeResult(m: Mem, e: int)
    requires Ready(m) && Live(m, e)
    ensures var m' := EnvFree(m, e);
            && Shape(m') && m'.pgdirs == m.pgdirs - {e}
            && (forall e2 :: e2 in m.pgdirs && e2 != e ==> SpaceOf(m', e2) == SpaceOf(m, e2))
  {
    EnvFreeKeeps(m, e, false);
    var m' := EnvFree(m, e);
    forall e2 | e2 in m.pgdirs && e2 != e ensures SpaceOf(m', e2) == SpaceOf(m, e2) {
      forall d, t ensures Word(m', UserRef(e2, d, t)) == Word(m, UserRef(e2, d, t)) { assert UserRef(e2, d, t).e != e; }
      WordsAlike(m, m', e2);
    }
    hide EnvFree, SpaceOf, Word, Target, Separated, UpperOk, FreeListOk, Acct;
  }
}
