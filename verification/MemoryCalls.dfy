/** The memory system calls of lab4/kern/syscall.c, region_alloc and user stores, one at a time. */
module MemoryCalls {
  import opened Mmu
  import opened PageTables
  import opened PageAccounting
  import opened AddressSpaces

  predicate Aligned(va: Addr) { Pgoff(va) == 0 }

  /** PTE_U and PTE_P are both asked for; no other bit is checked. */
  predicate PermOk(perm: bv12) { perm & (PTE_U | PTE_P) == PTE_U | PTE_P }

  predicate Writable(w: Pte) { w.perm & PTE_W != 0 }

  function SlotOf(e: int, va: Addr): Ref { UserRef(e, Pdx(va), Ptx(va)) }

  /** page_lookup below UTOP: the live word mapping va, zero when there is none. */
  function Mapping(m: Mem, e: int, va: Addr): Pte { Word(m, SlotOf(e, va)) }

  ghost predicate Ready(m: Mem) { Safe(m, false) && CountsBelow(m) }

  /* ---- sys_page_alloc ---- */

  predicate AllocArgsOk(m: Mem, e: int, va: Addr, perm: bv12) { Live(m, e) && va < UTOP && PermOk(perm) }

  /** A page taken and counted before it is mapped: the surplus reference of sys_page_alloc. */
  lemma TakeCounted(m: Mem, exact: bool)
    requires Safe(m, exact) && m.free != [] && m.ref[m.free[0]] < REF_MOD - 3
    ensures var (m1, p) := (IncRef(PageAlloc(m, true), m.free[0]), m.free[0]);
            && Core(m1) && Acct(m1, p, 1, exact) && Mappable(m1, p) && SameAll(m, m1) && (forall r :: Target(m1, r) != p)
            && m1.ref == m.ref[p := m.ref[p] + 1] && m1.free == m.free[1..] && |m1.frames| == |m.frames|
            && m1.pgdirs == m.pgdirs && m1.reserved == m.reserved
  {
    FreshTable(m);
    AllocAcct(m, true, exact);
    AllocKeeps(m, true);
    IncRefKeeps(PageAlloc(m, true), m.free[0], 0, exact);
  }

  lemma TakenReady(m: Mem, e: int, va: Addr)
    requires Ready(m) && m.free != [] && Live(m, e) && va < UTOP
    ensures var (m1, p) := (IncRef(PageAlloc(m, true), m.free[0]), m.free[0]);
            && p < |m1.frames| && LeafOk(m1, m.pgdirs[e], va) && (m1.free != [] ==> m1.free[0] != m.pgdirs[e])
  {
    TakeCounted(m, false);
    var m1 := IncRef(PageAlloc(m, true), m.free[0]);
    WalkOk(m1, e, va);
  }

  function SysPageAlloc(m: Mem, e: int, va: Addr, perm: bv12): (r: (Mem, int))
    requires Ready(m)
  {
    if !Live(m, e) then (m, -E_BAD_ENV)
    else if va >= UTOP || !PermOk(perm) then (m, -E_INVAL)
    else if m.free == [] then (m, -E_NO_MEM)
    else
      TakenReady(m, e, va);
      var p := m.free[0];
      var (m2, rc) := PageInsert(IncRef(PageAlloc(m, true), p), m.pgdirs[e], p, va, perm);
      if rc != 0 then (PageFree(m2, p), rc) else (m2, 0)
  }

  lemma SysPageAllocForm(m: Mem, e: int, va: Addr, perm: bv12)
    requires Ready(m) && AllocArgsOk(m, e, va, perm) && m.free != []
    ensures var (m1, p) := (IncRef(PageAlloc(m, true), m.free[0]), m.free[0]);
            && p < |m1.frames| && LeafOk(m1, m.pgdirs[e], va) && (m1.free != [] ==> m1.free[0] != m.pgdirs[e])
            && var (m2, rc) := PageInsert(m1, m.pgdirs[e], p, va, perm);
               SysPageAlloc(m, e, va, perm) == if rc != 0 then (PageFree(m2, p), rc) else (m2, 0)
  {
    TakenReady(m, e, va);
    hide PageInsert, PageAlloc, IncRef, PageFree, Ready, LeafOk;
  }

  /** The failure path: the page goes back on the list with its count of one. */
  lemma FreedCounted(m: Mem, m1: Mem)
    requires Safe(m, false) && m.free != [] && Core(m1) && Acct(m1, m.free[0], 1, false) && SameAll(m, m1)
    requires m1.ref == m.ref[m.free[0] := m.ref[m.free[0]] + 1] && m1.free == m.free[1..] && (forall r :: Target(m1, r) != m.free[0])
    requires m1.reserved == m.reserved && m.free[0] < |m.ref|
    ensures var m' := PageFree(m1, m.free[0]);
            Safe(m', false) && SameAll(m, m') && m'.free == m.free && m'.ref[m.free[0]] == m.ref[m.free[0]] + 1
  {
    var p := m.free[0];
    assert m.free == [p] + m1.free;
    PageFreeCore(m1, p);
    PageFreeKeeps(m1, p, false);
    hide Word, Target, Refs, Separated, UpperOk;
  }

  /** sys_page_alloc keeps memory safe whatever it is asked: a rejected or failing call changes no
      mapping, a successful one maps one fresh page and nothing else. */
  lemma SysPageAllocKeeps(m: Mem, e: int, va: Addr, perm: bv12)
    requires Ready(m)
    ensures var (m', rc) := SysPageAlloc(m, e, va, perm);
            if !AllocArgsOk(m, e, va, perm) || m.free == [] then m' == m && rc < 0
            else
              && Safe(m', false)
              && (if NeedsTable(m, e, va) && |m.free| == 1 then
                    && rc == -E_NO_MEM && SameAll(m, m') && m'.free == m.free && m'.ref[m.free[0]] == m.ref[m.free[0]] + 1
                  else
                    && rc == 0 && Elsewhere(m, m', SlotOf(e, va)) && Mapping(m', e, va) == Pte(m.free[0], perm | PTE_P))
  {
    hide Separated, UpperOk, FreeListOk;
    if AllocArgsOk(m, e, va, perm) && m.free != [] {
      TakeCounted(m, false);
      SysPageAllocForm(m, e, va, perm);
      var (m1, p) := (IncRef(PageAlloc(m, true), m.free[0]), m.free[0]);
      InsertKeeps(m1, e, va, p, perm, 1, false);
      hide PageInsert, PageAlloc, PageFree, SysPageAlloc, Word, Target;
      if PageInsert(m1, m.pgdirs[e], p, va, perm).1 != 0 { FreedCounted(m, m1); }
    }
  }

  /** The surplus reference: sys_page_alloc keeps counts exact only when it does nothing, that is
      when its arguments are refused or no page is free.  Otherwise one page is left with
      a count one above its references. */
  lemma SysPageAllocLeaks(m: Mem, e: int, va: Addr, perm: bv12)
    requires Ready(m) && Safe(m, true)
    ensures Safe(SysPageAlloc(m, e, va, perm).0, true) <==> !AllocArgsOk(m, e, va, perm) || m.free == []
  {
    hide Separated, UpperOk, FreeListOk;
    SysPageAllocKeeps(m, e, va, perm);
    if AllocArgsOk(m, e, va, perm) && m.free != [] {
      TakeCounted(m, true);
      var (m1, p) := (IncRef(PageAlloc(m, true), m.free[0]), m.free[0]);
      InsertKeeps(m1, e, va, p, perm, 1, true);
      var m' := SysPageAlloc(m, e, va, perm).0;
      assert m'.ref[p] == |Refs(m', p)| + 1 by {
        RefsSame(m, m1);
        assert Refs(m1, p) == {};
        if PageInsert(m1, m.pgdirs[e], p, va, perm).1 != 0 { RefsSame(m1, m'); }
      }
    }
  }

  /* ---- sys_page_map, sys_page_unmap, the page part of sys_ipc_try_send, region_alloc ---- */

  /** A mapped page may be mapped again, and holds its counts while it is. */
  lemma MappedHeld(m: Mem, e: int, va: Addr, exact: bool)
    requires Safe(m, exact) && Live(m, e) && Present(Mapping(m, e, va))
    ensures var pg := Mapping(m, e, va).frame; Mappable(m, pg) && Acct(m, pg, 0, exact) && Refs(m, pg) != {}
  {
    var pg := Target(m, SlotOf(e, va));
    assert pg == Mapping(m, e, va).frame;
    assert SlotOf(e, va) in Refs(m, pg);
  }

  lemma ReleaseHold(m: Mem, p: nat, exact: bool)
    requires Core(m) && Acct(m, p, 0, exact) && Refs(m, p) != {}
    ensures Safe(m, exact)
  {
  }

  /** The insertion that sys_page_map and sys_ipc_try_send end with. */
  function MapInto(m: Mem, pg: nat, e: int, va: Addr, perm: bv12): (r: (Mem, int))
    requires Ready(m) && Mappable(m, pg) && Acct(m, pg, 0, false) && Live(m, e) && va < UTOP
  {
    InsertKeeps(m, e, va, pg, perm, 0, false);
    PageInsert(m, m.pgdirs[e], pg, va, perm)
  }

  /** Sharing a mapped page: exact accounting survives, and only the destination changes. */
  lemma MapIntoKeeps(m: Mem, es: int, srcva: Addr, e: int, va: Addr, perm: bv12, exact: bool)
    requires Ready(m) && Safe(m, exact) && Live(m, es) && Present(Mapping(m, es, srcva)) && Live(m, e) && va < UTOP
    ensures var pg := Mapping(m, es, srcva).frame; Mappable(m, pg) && Acct(m, pg, 0, false)
    ensures var pg := Mapping(m, es, srcva).frame;
            var (m', rc) := MapInto(m, pg, e, va, perm);
            && Safe(m', exact)
            && (if NeedsTable(m, e, va) && m.free == [] then m' == m && rc == -E_NO_MEM
                else rc == 0 && Elsewhere(m, m', SlotOf(e, va)) && Mapping(m', e, va) == Pte(pg, perm | PTE_P))
  {
    var pg := Mapping(m, es, srcva).frame;
    MappedHeld(m, es, srcva, exact);
    MappedHeld(m, es, srcva, false);
    InsertKeeps(m, e, va, pg, perm, 0, exact);
    var (m', rc) := PageInsert(m, m.pgdirs[e], pg, va, perm);
    if rc == 0 {
      PresentBit(perm);
      assert SlotOf(e, va) in Refs(m', pg);
      ReleaseHold(m', pg, exact);
    }
  }

  function SysPageMap(m: Mem, es: int, srcva: Addr, ed: int, dstva: Addr, perm: bv12): (r: (Mem, int))
    requires Ready(m)
  {
    if !Live(m, es) || !Live(m, ed) then (m, -E_BAD_ENV)
    else if srcva >= UTOP || dstva >= UTOP || !Aligned(srcva) || !Aligned(dstva) then (m, -E_INVAL)
    else
      var w := Mapping(m, es, srcva);
      if !Present(w) then (m, -E_INVAL)
      else if !PermOk(perm) then (m, -E_INVAL)
      else if !Writable(w) && perm & PTE_W != 0 then (m, -E_INVAL)
      else
        MappedHeld(m, es, srcva, false);
        MapInto(m, w.frame, ed, dstva, perm)
  }

  /** The page transfer of sys_ipc_try_send from the sender's srcva to the receiver's dstva. */
  function SysIpcPage(m: Mem, from: int, srcva: Addr, to: int, dstva: Addr, perm: bv12): (r: (Mem, int))
    requires Ready(m) && Live(m, from) && Live(m, to)
  {
    if srcva >= UTOP then (m, 0)
    else
      var w := Mapping(m, from, srcva);
      if !Present(w) then (m, -E_INVAL)
      else if w.perm & perm & 7 != perm & 7 then (m, -E_INVAL)
      else if perm & PTE_W != 0 && !Writable(w) then (m, -E_INVAL)
      else if !Aligned(srcva) then (m, -E_INVAL)
      else if dstva >= UTOP then (m, 0)
      else
        MappedHeld(m, from, srcva, false);
        MapInto(m, w.frame, to, dstva, perm)
  }

  function SysPageUnmap(m: Mem, e: int, va: Addr): (r: (Mem, int))
    requires Ready(m)
  {
    if va >= UTOP || !Aligned(va) then (m, -E_INVAL)
    else if !Live(m, e) then (m, -E_BAD_ENV)
    else
      RemoveKeeps(m, e, va, -1, 0, false);
      (PageRemove(m, m.pgdirs[e], va), 0)
  }

  lemma SysPageUnmapKeeps(m: Mem, e: int, va: Addr, exact: bool)
    requires Ready(m) && Safe(m, exact)
    ensures var (m', rc) := SysPageUnmap(m, e, va);
            && Safe(m', exact)
            && (if rc < 0 then m' == m else Rest(m, m', SlotOf(e, va)) && Mapping(m', e, va) == ZERO_PTE)
  {
    if va < UTOP && Live(m, e) { RemoveKeeps(m, e, va, -1, 0, exact); }
  }

  /** One page of region_alloc: the result of page_insert is ignored; running out of pages panics. */
  function RegionPage(m: Mem, e: int, va: Addr): (m': Mem)
    requires Ready(m) && Live(m, e) && va < UTOP && m.free != []
  {
    var m1 := PageAlloc(m, false);
    AllocKeeps(m, false);
    WalkOk(m1, e, va);
    PageInsert(m1, m.pgdirs[e], m.free[0], va, PTE_W | PTE_U).0
  }

  /** region_alloc keeps counts exact when a page is left for the table it may need, and only then:
      the failure that it ignores loses the page. */
  lemma RegionPageKeeps(m: Mem, e: int, va: Addr)
    requires Ready(m) && Safe(m, true) && Live(m, e) && va < UTOP && m.free != []
    ensures var m' := RegionPage(m, e, va);
            && Safe(m', false)
            && (Safe(m', true) <==> !(NeedsTable(m, e, va) && |m.free| == 1))
            && (Safe(m', true) ==> Elsewhere(m, m', SlotOf(e, va)) && Mapping(m', e, va) == Pte(m.free[0], PTE_W | PTE_U | PTE_P))
  {
    hide Separated, UpperOk, FreeListOk;
    var (m1, p) := (PageAlloc(m, false), m.free[0]);
    AllocKeeps(m, false);
    AllocAcct(m, false, true);
    InsertKeeps(m1, e, va, p, PTE_W | PTE_U, 0, true);
    var (m', rc) := PageInsert(m1, m.pgdirs[e], p, va, PTE_W | PTE_U);
    if rc == 0 {
      PresentBit(PTE_W | PTE_U);
      assert SlotOf(e, va) in Refs(m', p);
      ReleaseHold(m', p, true);
    } else {
      RefsSame(m, m1);
      assert Refs(m1, p) == {};
      assert p !in m1.free;
    }
  }

  lemma RegionPageSafe(m: Mem, e: int, va: Addr)
    requires Ready(m) && Live(m, e) && va < UTOP && m.free != []
    ensures Safe(RegionPage(m, e, va), false)
  {
    AllocKeeps(m, false);
    AllocAcct(m, false, false);
    InsertKeeps(PageAlloc(m, false), e, va, m.free[0], PTE_W | PTE_U, 0, false);
  }

  /** A user program stores a word through a writable mapping. */
  function UserStore(m: Mem, e: int, va: Addr, w: Pte): Mem
    requires Shape(m)
  {
    var x := Mapping(m, e, va);
    if va < UTOP && Live(m, e) && Present(x) && Writable(x) && x.frame < |m.frames| && Pgoff(va) / 4 < NENTRIES
    then SetEntry(m, x.frame, Pgoff(va) / 4, w) else m
  }

  lemma UserStoreTables(m: Mem, p: nat, i: nat, w: Pte)
    requires Core(m) && p < |m.frames| && i < NENTRIES && forall r :: Target(m, r) == p ==> r.UserRef?
    ensures var m' := SetEntry(m, p, i, w); Shape(m') && SameAll(m, m') && UpperOk(m')
  {
    var m' := SetEntry(m, p, i, w);
    forall e | e in m.pgdirs ensures m.pgdirs[e] != p { assert Target(m, DirRef(e)) == m.pgdirs[e]; }
    forall r ensures Word(m', r) == Word(m, r) {
      if r.UserRef? { assert Target(m, TableRef(r.e, r.d)) != p; }
    }
  }

  /** No store by a user program changes any translation, count or list. */
  lemma UserStoreKeeps(m: Mem, e: int, va: Addr, w: Pte, exact: bool)
    requires Safe(m, exact)
    ensures Safe(UserStore(m, e, va, w), exact) && SameAll(m, UserStore(m, e, va, w))
  {
    var (m', p) := (UserStore(m, e, va, w), Mapping(m, e, va).frame);
    if m' != m {
      assert Target(m, SlotOf(e, va)) == p;
      UserMapped(m, e, va);
      UserStoreTables(m, p, Pgoff(va) / 4, w);
      StoreSafe(m, p, Pgoff(va) / 4, w, exact);
    }
    hide Word, Target, Refs, Separated, UpperOk, FreeListOk, Acct, SetEntry;
  }

  /** A page mapped below UTOP is no table. */
  lemma UserMapped(m: Mem, e: int, va: Addr)
    requires Core(m) && Target(m, SlotOf(e, va)) >= 0
    ensures forall r :: Target(m, r) == Target(m, SlotOf(e, va)) ==> r.UserRef?
  {
    hide Word, Target, UpperOk, FreeListOk;
  }

  lemma StoreSafe(m: Mem, p: nat, i: nat, w: Pte, exact: bool)
    requires Safe(m, exact) && p < |m.frames| && i < NENTRIES
    requires var m' := SetEntry(m, p, i, w); Shape(m') && SameAll(m, m') && UpperOk(m')
    ensures Safe(SetEntry(m, p, i, w), exact)
  {
    RefsSame(m, SetEntry(m, p, i, w));
    hide Word, Target, Refs, UpperOk;
  }

  /* ---- contents of user pages ---- */

  /** page_insert writes only the directory, the page table and a page from the free list. */
  lemma InsertFrames(m: Mem, dir: nat, pp: nat, va: Addr, perm: bv12, q: nat)
    requires LeafOk(m, dir, va) && pp < |m.frames| && (m.free != [] ==> m.free[0] != dir)
    requires q < |m.frames| && q != dir && (m.free != [] ==> q != m.free[0]) && q != PgdirWalk(m, dir, va, true).1
    ensures PageInsert(m, dir, pp, va, perm).0.frames[q] == m.frames[q]
  {
  }

  /** Mapping a page changes the contents of no page that is or could be mapped. */
  lemma InsertContents(m: Mem, e: int, va: Addr, pp: nat, perm: bv12, q: nat)
    requires Core(m) && Live(m, e) && va < UTOP && pp < |m.ref| && Mappable(m, q)
    ensures LeafOk(m, m.pgdirs[e], va) && (m.free != [] ==> m.free[0] != m.pgdirs[e])
    ensures PageInsert(m, m.pgdirs[e], pp, va, perm).0.frames[q] == m.frames[q]
  {
    WalkOk(m, e, va);
    assert Target(m, DirRef(e)) == m.pgdirs[e];
    assert Target(m, TableRef(e, Pdx(va))) != q;
    InsertFrames(m, m.pgdirs[e], pp, va, perm, q);
  }

  lemma TakenFrame(m: Mem, q: nat)
    requires Ready(m) && m.free != [] && (q == m.free[0] || Mappable(m, q))
    ensures var (m1, p) := (IncRef(PageAlloc(m, true), m.free[0]), m.free[0]);
            && q < |m.frames| == |m1.frames| && m1.frames[q] == (if q == p then ZeroPage() else m.frames[q])
            && (Mappable(m, q) ==> q != p) && Mappable(m1, q)
  {
    TakeCounted(m, false);
    var (m1, p) := (IncRef(PageAlloc(m, true), m.free[0]), m.free[0]);
    assert p in m.free && forall x :: x in m1.free ==> x in m.free;
    assert m1.frames[q] == if q == p then ZeroPage() else m.frames[q];
    hide Word, Separated, UpperOk, FreeListOk, PageAlloc, IncRef, Refs;
  }

  /** The page that sys_page_alloc maps holds zeroes, and every page mapped before keeps its contents. */
  lemma SysPageAllocContents(m: Mem, e: int, va: Addr, perm: bv12, q: nat)
    requires Ready(m) && SysPageAlloc(m, e, va, perm).1 == 0
    requires q == m.free[0] || Mappable(m, q)
    ensures var m' := SysPageAlloc(m, e, va, perm).0;
            q < |m.frames| && |m'.frames| == |m.frames| && m'.frames[q] == if Mappable(m, q) then m.frames[q] else ZeroPage()
  {
    hide *;
    AllocSucceeds(m, e, va, perm);
    ReadyIs(m, e, va, perm);
    SysPageAllocForm(m, e, va, perm);
    TakenFrame(m, q);
    TakenCore(m, e, va, perm);
    var (m1, p) := (IncRef(PageAlloc(m, true), m.free[0]), m.free[0]);
    InsertContents(m1, e, va, p, perm, q);
    InsertLength(m1, m.pgdirs[e], p, va, perm);
  }

  lemma ReadyIs(m: Mem, e: int, va: Addr, perm: bv12)
    requires Ready(m) && AllocArgsOk(m, e, va, perm) && m.free != []
    ensures Shape(m) && m.free[0] < |m.ref| == |m.frames| && e in m.pgdirs
    ensures Shape(PageAlloc(m, true)) && |PageAlloc(m, true).ref| == |m.ref|
  {
  }

  lemma TakenCore(m: Mem, e: int, va: Addr, perm: bv12)
    requires Ready(m) && AllocArgsOk(m, e, va, perm) && m.free != []
    ensures var (m1, p) := (IncRef(PageAlloc(m, true), m.free[0]), m.free[0]);
            Core(m1) && p < |m1.ref| == |m1.frames| && m1.pgdirs == m.pgdirs && Live(m1, e) && va < UTOP && |m1.frames| == |m.frames|
  {
    TakeCounted(m, false);
    hide PageAlloc, IncRef, Separated, UpperOk, FreeListOk;
  }

  lemma InsertLength(m: Mem, dir: nat, pp: nat, va: Addr, perm: bv12)
    requires LeafOk(m, dir, va) && pp < |m.frames| && (m.free != [] ==> m.free[0] != dir)
    ensures |PageInsert(m, dir, pp, va, perm).0.frames| == |m.frames|
  {
    if PgdirWalk(m, dir, va, true).1 >= 0 { WalkedLeafOk(m, dir, va); }
  }

  lemma AllocSucceeds(m: Mem, e: int, va: Addr, perm: bv12)
    requires Ready(m) && SysPageAlloc(m, e, va, perm).1 == 0
    ensures AllocArgsOk(m, e, va, perm) && m.free != []
  {
    hide PageInsert, PageAlloc, IncRef, PageFree, Safe;
  }
}
