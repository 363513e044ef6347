/** The pages array, the linked free list and physical memory as lab4/kern/pmap.c updates them. */
module Pmap {
  import opened Mmu
  import opened PageTables
  import opened PageAccounting
  import opened AddressSpaces
  import opened MemoryCalls
  import opened BootMap

  const MPENTRY_PAGE: nat := 7   // MPENTRY_PADDR / PGSIZE

  /** head and link spell out free: pp_link is -1 (NULL) at its end. */
  ghost predicate Linked(link: seq<int>, head: int, free: seq<nat>)
    decreases |free|
  {
    if free == [] then head == -1
    else head == free[0] && 0 <= head < |link| && Linked(link, link[head], free[1..])
  }

  lemma {:induction false} LinkElsewhere(link: seq<int>, head: int, free: seq<nat>, p: nat, x: int)
    requires Linked(link, head, free) && p < |link| && p !in free
    ensures Linked(link[p := x], head, free)
    decreases |free|
  {
    if free != [] { LinkElsewhere(link, link[head], free[1..], p, x); }
  }

  lemma LinkedPush(link: seq<int>, head: int, free: seq<nat>, p: nat)
    requires Linked(link, head, free) && p < |link| && p !in free
    ensures Linked(link[p := head], p, [p] + free)
  {
    LinkElsewhere(link, head, free, p, head);
    assert ([p] + free)[1..] == free;
  }

  /** lo..hi-1, highest first: the order in which page_init pushes them. */
  function Down(lo: nat, hi: nat): seq<nat> { if lo < hi then [hi - 1] + Down(lo, hi - 1) else [] }

  lemma DownStep(lo: nat, i: nat)
    requires lo <= i
    ensures Down(lo, i + 1) == [i] + Down(lo, i)
  {
  }

  lemma DownStart(lo: nat, hi: nat)
    ensures Down(lo, lo) == [] && (hi <= lo ==> Down(lo, hi) == [])
  {
  }

  lemma {:induction false} DownElements(lo: nat, hi: nat)
    ensures forall p :: p in Down(lo, hi) <==> lo <= p < hi
    ensures forall i, j :: 0 <= i < j < |Down(lo, hi)| ==> Down(lo, hi)[i] > Down(lo, hi)[j]
  {
    if lo < hi {
      DownElements(lo, hi - 1);
      assert Down(lo, hi)[1..] == Down(lo, hi - 1);
      forall i, j | 0 <= i < j < |Down(lo, hi)| ensures Down(lo, hi)[i] > Down(lo, hi)[j] {
        assert Down(lo, hi)[j] == Down(lo, hi - 1)[j - 1];
        assert Down(lo, hi)[j] in Down(lo, hi - 1);
      }
    }
  }

  /** The page mapped at va (if any) is not on the free list. */
  ghost predicate NotFreed(m: Mem, dir: nat, va: Addr)
    requires LeafOk(m, dir, va)
  {
    var t := PageTables.PageLookup(m, dir, va);
    t >= 0 ==> m.frames[t][Ptx(va)].frame !in m.free
  }

  lemma CoreNotFreed(m: Mem, e: int, va: Addr)
    requires Core(m) && Live(m, e) && va < UTOP
    ensures LeafOk(m, m.pgdirs[e], va) && NotFreed(m, m.pgdirs[e], va) && (m.free != [] ==> m.free[0] != m.pgdirs[e])
  {
    WalkOk(m, e, va);
    assert Target(m, SlotOf(e, va)) !in m.free;
  }

  lemma FreeTableStep(m: Mem, e: int, d: nat, tp: nat, t: nat)
    requires Safe(m, false) && Live(m, e) && d < NUSER && t < NENTRIES && Target(m, TableRef(e, d)) == tp
    ensures var m1 := FreeSlot(m, e, d, tp, t);
            && Safe(m1, false) && Live(m1, e) && Target(m1, TableRef(e, d)) == tp
            && FreeTable(m, e, d, tp, t) == FreeTable(m1, e, d, tp, t + 1)
  {
    FreeSlotKeeps(m, e, d, tp, t, false);
  }

  lemma FreeTableDone(m: Mem, e: int, d: nat, tp: nat)
    requires Safe(m, false) && Live(m, e) && d < NUSER && Target(m, TableRef(e, d)) == tp
    ensures FreeTable(m, e, d, tp, NENTRIES) == m
  {
  }

  lemma FreeTablesDone(m: Mem, e: int)
    requires Safe(m, false) && Live(m, e)
    ensures FreeTables(m, e, NUSER) == m
  {
  }

  lemma FreeTablesStep(m: Mem, e: int, d: nat)
    requires Safe(m, false) && Live(m, e) && d < NUSER
    ensures var m1 := FreeDirEntry(m, e, d);
            Safe(m1, false) && Live(m1, e) && FreeTables(m, e, d) == FreeTables(m1, e, d + 1)
  {
    FreeDirEntryKeeps(m, e, d, false);
  }

  predicate InUse(p: nat, med: nat) { p == 0 || MPENTRY_PAGE <= p < med }

  /** The pages that page_init leaves out. */
  ghost function Reserved(n: nat, med: nat): set<nat> { set p: nat | p < n && InUse(p, med) }

  lemma InitFreeList(n: nat, med: nat)
    requires MPENTRY_PAGE <= med
    ensures var free := Down(med, n) + Down(1, MPENTRY_PAGE);
            && (forall i, j :: 0 <= i < j < |free| ==> free[i] != free[j])
            && (forall p :: p in free <==> med <= p < n || 1 <= p < MPENTRY_PAGE)
  {
    var (a, b) := (Down(med, n), Down(1, MPENTRY_PAGE));
    DownElements(med, n);
    DownElements(1, MPENTRY_PAGE);
    forall i, j | 0 <= i < j < |a + b| ensures (a + b)[i] != (a + b)[j] {
      if i < |a| <= j { assert a[i] in a && b[j - |a|] in b; }
    }
  }

  lemma InitTargets(m: Mem, kern: nat)
    requires Shape(m) && kern < |m.ref| && m.pgdirs == map[KERN := kern]
    requires m.frames[kern] == ZeroPage()[UVPT_INDEX := Pte(kern, PTE_P | PTE_U)]
    ensures forall r :: Target(m, r) == if r == DirRef(KERN) then kern else -1
    ensures UpperOk(m) && m.pgdirs.Keys == {KERN}
  {
  }

  /** The state that page_init leaves is exactly accounted: nothing is referenced but kern_pgdir. */
  lemma InitBooting(m: Mem, med: nat, kern: nat)
    requires Shape(m) && m.free == Down(med, |m.ref|) + Down(1, MPENTRY_PAGE)
    requires MPENTRY_PAGE <= kern < med && kern < |m.ref| && m.pgdirs == map[KERN := kern]
    requires m.frames[kern] == ZeroPage()[UVPT_INDEX := Pte(kern, PTE_P | PTE_U)]
    requires forall p :: 0 <= p < |m.ref| && p in m.free ==> m.ref[p] == 0
    requires m.reserved == Reserved(|m.ref|, med)
    ensures Booting(m)
  {
    InitFreeList(|m.ref|, med);
    InitTargets(m, kern);
    hide Target, UpperOk, Down;
    assert FreeListOk(m) && Separated(m);
    forall p: nat | p !in m.reserved ensures Refs(m, p) == {} {}
  }

  class Memory {
    const ppRef: array<nat>
    const ppLink: array<int>
    const phys: array<seq<Pte>>
    var freeHead: int
    var pgdirs: map<int, nat>
    ghost var free: seq<nat>
    ghost const reserved: set<nat>

    ghost predicate Valid()
      reads this, ppRef, ppLink, phys
    {
      && ppRef.Length == ppLink.Length == phys.Length
      && ppLink as object != ppRef as object
      && Linked(ppLink[..], freeHead, free)
      && Shape(Abs())
    }

    ghost function Abs(): (m: Mem)
      reads this, ppRef, phys
    {
      Mem(ppRef[..], free, phys[..], pgdirs, reserved)
    }

    /** mem_init up to page_init: kern_pgdir, in page kern below the first unused page med, is zeroed
        and mapped at UVPT; nothing is free yet. */
    constructor (ram: seq<seq<Pte>>, counts: seq<nat>, med: nat, kern: nat)
      requires |counts| == |ram| && forall p :: 0 <= p < |ram| ==> |ram[p]| == NENTRIES && counts[p] < REF_MOD
      requires kern < |ram|
      ensures Valid() && free == [] && ppRef[..] == counts && reserved == Reserved(|ram|, med)
      ensures pgdirs == map[KERN := kern] && phys[..] == ram[kern := ZeroPage()[UVPT_INDEX := Pte(kern, PTE_P | PTE_U)]]
    {
      var n := |ram|;
      ppRef := new nat[n](i requires 0 <= i < n => counts[i]);
      ppLink := new int[n](_ => -1);
      phys := new seq<Pte>[n](i requires 0 <= i < n => ram[i]);
      freeHead := -1;
      pgdirs := map[KERN := kern];
      free := [];
      reserved := Reserved(n, med);
      new;
      phys[kern] := ZeroPage();
      phys[kern] := phys[kern][UVPT_INDEX := Pte(kern, PTE_P | PTE_U)];
    }

    /** page_init: every page but page 0 and MPENTRY's page up to the end of the kernel's data goes
        on the free list, uncounted. */
    method PageInit(med: nat)
      requires Valid() && free == [] && MPENTRY_PAGE <= med && MPENTRY_PAGE < ppRef.Length
      modifies this, ppRef, ppLink
      ensures Valid() && free == Down(med, ppRef.Length) + Down(1, MPENTRY_PAGE)
      ensures forall p :: 0 <= p < ppRef.Length ==> ppRef[p] == if p in free then 0 else old(ppRef[p])
      ensures pgdirs == old(pgdirs)
    {
      FreeRange(1, MPENTRY_PAGE);
      DownElements(1, MPENTRY_PAGE);
      FreeRange(med, ppRef.Length);
      DownElements(med, ppRef.Length);
    }

    /** Either loop of page_init. */
    method FreeRange(lo: nat, hi: nat)
      requires Valid() && hi <= ppRef.Length && forall p :: lo <= p < hi ==> p !in free
      modifies this, ppRef, ppLink
      ensures Valid() && free == Down(lo, hi) + old(free) && pgdirs == old(pgdirs)
      ensures forall p :: 0 <= p < ppRef.Length ==> ppRef[p] == if lo <= p < hi then 0 else old(ppRef[p])
    {
      hide *;
      DownStart(lo, hi);
      var i := lo;
      while i < hi
        invariant lo <= i && (i <= hi || i == lo) && Valid() && pgdirs == old(pgdirs)
        invariant free == Down(lo, i) + old(free)
        invariant forall p :: 0 <= p < ppRef.Length ==> ppRef[p] == if lo <= p < i then 0 else old(ppRef[p])
      {
        DownElements(lo, i);
        DownStep(lo, i);
        InitPage(i);
        i := i + 1;
      }
    }

    method InitPage(i: nat)
      requires Valid() && i < ppRef.Length && i !in free
      modifies this, ppRef, ppLink
      ensures Valid() && free == [i] + old(free) && pgdirs == old(pgdirs) && ppRef[..] == old(ppRef[..])[i := 0]
    {
      ppRef[i] := 0;
      PageFree(i);
    }

    /** pp->pp_ref++ */
    method Retain(pp: nat)
      requires Valid() && pp < ppRef.Length
      modifies ppRef
      ensures Valid() && Abs() == IncRef(old(Abs()), pp)
    {
      ppRef[pp] := Inc16(ppRef[pp]);
    }

    /** A store of one word into a table. */
    method StoreWord(p: nat, i: nat, e: Pte)
      requires Valid() && p < phys.Length && i < NENTRIES
      modifies phys
      ensures Valid() && Abs() == SetEntry(old(Abs()), p, i, e)
    {
      phys[p] := phys[p][i := e];
    }

    method PageAlloc(zero: bool) returns (pp: int)
      requires Valid()
      modifies this, phys
      ensures Valid()
      ensures if old(free) == [] then pp == -1 && Abs() == old(Abs())
              else pp == old(free[0]) && Abs() == PageTables.PageAlloc(old(Abs()), zero)
    {
      if freeHead != -1 {
        pp := freeHead;
        freeHead := ppLink[freeHead];
        free := free[1..];
        if zero { phys[pp] := ZeroPage(); }
      } else {
        pp := -1;
      }
    }

    method PageFree(pp: nat)
      requires Valid() && pp < ppRef.Length && pp !in free
      modifies this, ppLink
      ensures Valid() && Abs() == PageTables.PageFree(old(Abs()), pp)
    {
      LinkedPush(ppLink[..], freeHead, free, pp);
      ghost var link := ppLink[..];
      ppLink[pp] := freeHead;
      assert ppLink[..] == link[pp := freeHead];
      freeHead := pp;
      free := [pp] + free;
    }

    method PageDecref(pp: nat)
      requires Valid() && pp < ppRef.Length && pp !in free
      modifies this, ppRef, ppLink
      ensures Valid() && Abs() == PageTables.PageDecref(old(Abs()), pp)
    {
      ppRef[pp] := Dec16(ppRef[pp]);
      if ppRef[pp] == 0 { PageFree(pp); }
    }

    /** The out-parameter is the table holding va's entry, -1 for NULL. */
    method PgdirWalk(dir: nat, va: Addr, create: bool) returns (t: int)
      requires Valid() && TableOk(Abs(), dir, va)
      modifies this, ppRef, phys
      ensures Valid() && (Abs(), t) == PageTables.PgdirWalk(old(Abs()), dir, va, create)
    {
      var d := Pdx(va);
      if !Present(phys[dir][d]) {
        if create {
          var pg := PageAlloc(true);
          if pg == -1 { return -1; }
          Retain(pg);
          StoreWord(dir, d, Pte(pg, PTE_P | PTE_U | PTE_W));
        } else {
          return -1;
        }
      }
      t := phys[dir][d].frame;
    }

    method PageLookup(dir: nat, va: Addr) returns (t: int)
      requires Valid() && TableOk(Abs(), dir, va)
      modifies this, ppRef, phys
      ensures Valid() && Abs() == old(Abs()) && t == PageTables.PageLookup(Abs(), dir, va)
    {
      t := PgdirWalk(dir, va, false);
      if t == -1 || !Present(phys[t][Ptx(va)]) { return -1; }
    }

    method PageRemove(dir: nat, va: Addr)
      requires Valid() && LeafOk(Abs(), dir, va) && NotFreed(Abs(), dir, va)
      modifies this, ppRef, ppLink, phys
      ensures Valid() && Abs() == PageTables.PageRemove(old(Abs()), dir, va)
    {
      var t := PageLookup(dir, va);
      if t == -1 { return; }
      PageDecref(phys[t][Ptx(va)].frame);
      StoreWord(t, Ptx(va), ZERO_PTE);
    }

    method PageInsert(dir: nat, pp: nat, va: Addr, perm: bv12) returns (rc: int)
      requires Valid() && LeafOk(Abs(), dir, va) && NotFreed(Abs(), dir, va)
      requires pp < ppRef.Length && (free != [] ==> free[0] != dir)
      modifies this, ppRef, ppLink, phys
      ensures Valid() && (Abs(), rc) == PageTables.PageInsert(old(Abs()), dir, pp, va, perm)
    {
      hide PageTables.PageRemove, Linked;
      var t := PgdirWalk(dir, va, true);
      if t == -1 { return -E_NO_MEM; }
      WalkedLeafOk(old(Abs()), dir, va);
      Retain(pp);
      if Present(phys[t][Ptx(va)]) { PageRemove(dir, va); }
      StoreWord(t, Ptx(va), Pte(pp, perm | PTE_P));
      rc := 0;
    }

    /** Takes pp off the free list if it is its head. */
    method Unfree(pp: nat)
      requires Valid() && pp < ppRef.Length
      modifies this`free, this`freeHead
      ensures Valid() && Abs() == TakeBack(old(Abs()), pp)
    {
      if freeHead == pp {
        freeHead := ppLink[freeHead];
        free := free[1..];
      }
    }

    /** page_insert of lab2/kern/pmap.c on the same memory. */
    method Lab2PageInsert(dir: nat, pp: nat, va: Addr, perm: bv12) returns (rc: int)
      requires Valid() && LeafOk(Abs(), dir, va) && NotFreed(Abs(), dir, va)
      requires pp < ppRef.Length && (free != [] ==> free[0] != dir)
      modifies this, ppRef, ppLink, phys
      ensures Valid() && (Abs(), rc) == PageTables.Lab2PageInsert(old(Abs()), dir, pp, va, perm)
    {
      hide PageTables.PageRemove;
      var t := PgdirWalk(dir, va, false);
      if t != -1 {
        if Present(phys[t][Ptx(va)]) { PageRemove(dir, va); }
        Unfree(pp);
      } else {
        t := PgdirWalk(dir, va, true);
        if t == -1 { return -E_NO_MEM; }
      }
      StoreWord(t, Ptx(va), Pte(pp, perm | PTE_P));
      Retain(pp);
      rc := 0;
    }

    /* ---- address spaces ---- */

    method EnvSetupVm(e: int) returns (rc: int)
      requires Valid() && Safe(Abs(), false)
      modifies this, ppRef, phys
      ensures Valid() && (Abs(), rc) == AddressSpaces.EnvSetupVm(old(Abs()), e)
    {
      if free != [] { AllocTargets(Abs(), true); assert Target(Abs(), DirRef(KERN)) == pgdirs[KERN]; }
      var p := PageAlloc(true);
      if p == -1 { return -E_NO_MEM; }
      Retain(p);
      ghost var m1 := Abs();
      phys[p] := phys[pgdirs[KERN]];
      phys[p] := phys[p][UVPT_INDEX := Pte(p, PTE_P | PTE_U)];
      assert phys[..] == m1.frames[p := m1.frames[m1.pgdirs[KERN]][UVPT_INDEX := Pte(p, PTE_P | PTE_U)]];
      pgdirs := pgdirs[e := p];
      rc := 0;
    }

    method EnvFree(e: int)
      requires Valid() && Safe(Abs(), false) && Live(Abs(), e)
      modifies this, ppRef, ppLink, phys
      ensures Valid() && Abs() == AddressSpaces.EnvFree(old(Abs()), e)
    {
      var dir := pgdirs[e];
      FreeUserTables(e);
      FreeTablesKeeps(old(Abs()), e, 0, false);
      assert Target(Abs(), DirRef(e)) == dir;
      pgdirs := pgdirs - {e};
      PageDecref(dir);
    }

    method FreeUserTables(e: int)
      requires Valid() && Safe(Abs(), false) && Live(Abs(), e)
      modifies this, ppRef, ppLink, phys
      ensures Valid() && Abs() == FreeTables(old(Abs()), e, 0)
    {
      hide *;
      var d := 0;
      while d < NUSER
        invariant d <= NUSER && Valid() && Safe(Abs(), false) && Live(Abs(), e)
        invariant FreeTables(Abs(), e, d) == FreeTables(old(Abs()), e, 0)
      {
        FreeTablesStep(Abs(), e, d);
        FreeDirectoryEntry(e, d);
        d := d + 1;
      }
      FreeTablesDone(Abs(), e);
    }

    /** One pass of env_free's outer loop. */
    method FreeDirectoryEntry(e: int, d: nat)
      requires Valid() && Safe(Abs(), false) && Live(Abs(), e) && d < NUSER
      modifies this, ppRef, ppLink, phys
      ensures Valid() && Abs() == FreeDirEntry(old(Abs()), e, d)
    {
      var dir := pgdirs[e];
      assert Target(Abs(), DirRef(e)) == dir;
      if !Present(phys[dir][d]) { return; }
      var pa := phys[dir][d].frame;
      assert Target(Abs(), TableRef(e, d)) == pa;
      FreeTableKeeps(Abs(), e, d, pa, 0, false);
      UnmapTable(e, d, pa);
      StoreWord(dir, d, ZERO_PTE);
      PageDecref(pa);
    }

    /** env_free's inner loop. */
    method UnmapTable(e: int, d: nat, pa: nat)
      requires Valid() && Safe(Abs(), false) && Live(Abs(), e) && d < NUSER && Target(Abs(), TableRef(e, d)) == pa
      modifies this, ppRef, ppLink, phys
      ensures Valid() && Abs() == FreeTable(old(Abs()), e, d, pa, 0)
    {
      hide *;
      var t := 0;
      while t < NENTRIES
        invariant t <= NENTRIES && Valid() && Safe(Abs(), false) && Live(Abs(), e)
        invariant Target(Abs(), TableRef(e, d)) == pa
        invariant FreeTable(Abs(), e, d, pa, t) == FreeTable(old(Abs()), e, d, pa, 0)
      {
        FreeTableStep(Abs(), e, d, pa, t);
        UnmapSlot(e, d, pa, t);
        t := t + 1;
      }
      FreeTableDone(Abs(), e, d, pa);
    }

    method UnmapSlot(e: int, d: nat, pa: nat, t: nat)
      requires Valid() && Safe(Abs(), false) && Live(Abs(), e) && d < NUSER && t < NENTRIES
      requires Target(Abs(), TableRef(e, d)) == pa
      modifies this, ppRef, ppLink, phys
      ensures Valid() && Abs() == FreeSlot(old(Abs()), e, d, pa, t)
    {
      PgaddrJoin(d, t, 0);
      if Present(phys[pa][t]) {
        CoreNotFreed(Abs(), e, Pgaddr(d, t, 0));
        PageRemove(pgdirs[e], Pgaddr(d, t, 0));
      }
    }

    /** One page of region_alloc; false stands for its panic. */
    method RegionPage(e: int, va: Addr) returns (ok: bool)
      requires Valid() && Ready(Abs()) && Live(Abs(), e) && va < UTOP
      modifies this, ppRef, ppLink, phys
      ensures Valid() && ok == (old(free) != [])
      ensures Abs() == if ok then MemoryCalls.RegionPage(old(Abs()), e, va) else old(Abs())
    {
      if free != [] { AllocKeeps(Abs(), false); }
      var pg := PageAlloc(false);
      if pg == -1 { return false; }
      CoreNotFreed(Abs(), e, va);
      var _ := PageInsert(pgdirs[e], pg, va, PTE_W | PTE_U);
      ok := true;
    }

    method SysPageAlloc(e: int, va: Addr, perm: bv12) returns (rc: int)
      requires Valid() && Ready(Abs())
      modifies this, ppRef, ppLink, phys
      ensures Valid() && (Abs(), rc) == MemoryCalls.SysPageAlloc(old(Abs()), e, va, perm)
    {
      hide Separated, UpperOk, FreeListOk, PageTables.PageInsert, PageTables.PageAlloc, Linked, Word, Target, Acct;
      if e == KERN || e !in pgdirs { return -E_BAD_ENV; }
      if va >= UTOP { return -E_INVAL; }
      if perm & (PTE_U | PTE_P) != PTE_U | PTE_P { return -E_INVAL; }
      if free != [] {
        TakeCounted(Abs(), false);
        TakenReady(Abs(), e, va);
      }
      var pg := PageAlloc(true);
      if pg == -1 { return -E_NO_MEM; }
      Retain(pg);
      CoreNotFreed(Abs(), e, va);
      ghost var m1 := Abs();
      rc := PageInsert(pgdirs[e], pg, va, perm);
      if rc != 0 {
        InsertKeeps(m1, e, va, pg, perm, 1, false);
        PageFree(pg);
      }
    }

    /** page_insert of a page that is mapped somewhere. */
    method MapInto(pg: nat, e: int, va: Addr, perm: bv12) returns (rc: int)
      requires Valid() && Ready(Abs()) && Mappable(Abs(), pg) && Acct(Abs(), pg, 0, false) && Live(Abs(), e) && va < UTOP
      modifies this, ppRef, ppLink, phys
      ensures Valid() && (Abs(), rc) == MemoryCalls.MapInto(old(Abs()), pg, e, va, perm)
    {
      CoreNotFreed(Abs(), e, va);
      rc := PageInsert(pgdirs[e], pg, va, perm);
    }

    method SysPageMap(es: int, srcva: Addr, ed: int, dstva: Addr, perm: bv12) returns (rc: int)
      requires Valid() && Ready(Abs())
      modifies this, ppRef, ppLink, phys
      ensures Valid() && (Abs(), rc) == MemoryCalls.SysPageMap(old(Abs()), es, srcva, ed, dstva, perm)
    {
      hide Separated, UpperOk, FreeListOk, PageTables.PageInsert, Linked, Acct;
      if es == KERN || es !in pgdirs { return -E_BAD_ENV; }
      if ed == KERN || ed !in pgdirs { return -E_BAD_ENV; }
      if srcva >= UTOP || dstva >= UTOP || Pgoff(srcva) != 0 || Pgoff(dstva) != 0 { return -E_INVAL; }
      LookupMapping(Abs(), es, srcva);
      var t := PageLookup(pgdirs[es], srcva);
      if t == -1 { return -E_INVAL; }
      var w := phys[t][Ptx(srcva)];
      if perm & (PTE_U | PTE_P) != PTE_U | PTE_P { return -E_INVAL; }
      if w.perm & PTE_W == 0 && perm & PTE_W != 0 { return -E_INVAL; }
      MappedHeld(Abs(), es, srcva, false);
      rc := MapInto(w.frame, ed, dstva, perm);
    }

    method SysPageUnmap(e: int, va: Addr) returns (rc: int)
      requires Valid() && Ready(Abs())
      modifies this, ppRef, ppLink, phys
      ensures Valid() && (Abs(), rc) == MemoryCalls.SysPageUnmap(old(Abs()), e, va)
    {
      if va >= UTOP || Pgoff(va) != 0 { return -E_INVAL; }
      if e == KERN || e !in pgdirs { return -E_BAD_ENV; }
      CoreNotFreed(Abs(), e, va);
      PageRemove(pgdirs[e], va);
      rc := 0;
    }

    /** The page transfer inside sys_ipc_try_send. */
    method SysIpcPage(from: int, srcva: Addr, to: int, dstva: Addr, perm: bv12) returns (rc: int)
      requires Valid() && Ready(Abs()) && Live(Abs(), from) && Live(Abs(), to)
      modifies this, ppRef, ppLink, phys
      ensures Valid() && (Abs(), rc) == MemoryCalls.SysIpcPage(old(Abs()), from, srcva, to, dstva, perm)
    {
      hide Separated, UpperOk, FreeListOk;
      if srcva >= UTOP { return 0; }
      LookupMapping(Abs(), from, srcva);
      var t := PageLookup(pgdirs[from], srcva);
      if t == -1 { return -E_INVAL; }
      var w := phys[t][Ptx(srcva)];
      if w.perm & perm & 7 != perm & 7 { return -E_INVAL; }
      if perm & PTE_W != 0 && w.perm & PTE_W == 0 { return -E_INVAL; }
      if Pgoff(srcva) != 0 { return -E_INVAL; }
      if dstva >= UTOP { return 0; }
      MappedHeld(Abs(), from, srcva, false);
      rc := MapInto(w.frame, to, dstva, perm);
    }

    /** boot_map_region on kern_pgdir; false stands for its panic. */
    method BootMapRegion(v0: nat, n: nat, frame0: nat, perm: bv12) returns (ok: bool)
      requires Valid() && Booting(Abs()) && StaticRange(v0, n)
      modifies this, ppRef, phys
      ensures Valid() && (Abs(), ok) == MapRegion(old(Abs()), v0, n, frame0, perm)
    {
      hide *;
      ghost var end := MapRegion(Abs(), v0, n, frame0, perm);
      var i, v, frame := 0, v0, frame0;
      while i < n
        invariant i <= n && v == v0 + i && frame == frame0 + i
        invariant Valid() && Booting(Abs()) && StaticRange(v, n - i)
        invariant MapRegion(Abs(), v, n - i, frame, perm) == end
      {
        MapRegionStep(Abs(), v, n - i, frame, perm);
        var mapped := BootMapPage(v, frame, perm);
        if !mapped { return false; }
        i, v, frame := i + 1, v + 1, frame + 1;
      }
      MapRegionDone(Abs(), v, frame, perm);
      ok := true;
    }

    method BootMapPage(v: nat, frame: nat, perm: bv12) returns (ok: bool)
      requires Valid() && Booting(Abs()) && Static(v)
      modifies this, ppRef, phys
      ensures Valid() && (Abs(), ok) == MapPage(old(Abs()), v, frame, perm)
    {
      StaticSplit(v);
      WalkOk(Abs(), KERN, v * PGSIZE);
      var t := PgdirWalk(pgdirs[KERN], v * PGSIZE, true);
      if t == -1 { return false; }
      StoreWord(t, Ptx(v * PGSIZE), Pte(frame, perm | PTE_P));
      ok := true;
    }
  }

  /** page_lookup hands back the word that maps va. */
  lemma LookupMapping(m: Mem, e: int, va: Addr)
    requires Core(m) && Live(m, e) && va < UTOP
    ensures LeafOk(m, m.pgdirs[e], va)
    ensures var t := PageTables.PageLookup(m, m.pgdirs[e], va);
            && (t >= 0 <==> Present(Mapping(m, e, va)))
            && (t >= 0 ==> m.frames[t][Ptx(va)] == Mapping(m, e, va))
  {
    WalkOk(m, e, va);
  }
}
