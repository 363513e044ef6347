/** boot_map_region of lab4/kern/pmap.c: the static mappings of kern_pgdir above UTOP, made while
    kern_pgdir is the only address space. */
module BootMap {
  import opened Mmu
  import opened PageTables
  import opened PageAccounting
  import opened MemoryRuns

  /** Page v lies above UTOP and outside the UVPT window. */
  predicate Static(v: nat) { NUSER * NENTRIES <= v < 0x10_0000 && v / NENTRIES != UVPT_INDEX }

  ghost predicate StaticRange(v: nat, n: nat) { forall u :: v <= u < v + n ==> Static(u) }

  ghost predicate Booting(m: Mem) { Safe(m, true) && m.pgdirs.Keys == {KERN} }

  lemma StaticSplit(v: nat)
    requires Static(v)
    ensures v * PGSIZE < 0x1_0000_0000
    ensures Pdx(v * PGSIZE) == v / NENTRIES && Ptx(v * PGSIZE) == v % NENTRIES
    ensures Owns(KERN, v / NENTRIES) && v / NENTRIES >= NUSER
  {
  }

  /** One iteration; the flag is false where the code panics for lack of memory. */
  function MapPage(m: Mem, v: nat, frame: nat, perm: bv12): (r: (Mem, bool))
    requires Booting(m) && Static(v)
  {
    StaticSplit(v);
    WalkOk(m, KERN, v * PGSIZE);
    var (m1, t) := PgdirWalk(m, m.pgdirs[KERN], v * PGSIZE, true);
    if t < 0 then (m1, false)
    else (SetEntry(m1, t, Ptx(v * PGSIZE), Pte(frame, perm | PTE_P)), true)
  }

  ghost function KernSlot(v: nat): Ref { UserRef(KERN, v / NENTRIES, v % NENTRIES) }

  ghost function KernWord(m: Mem, v: nat): Pte { Word(m, KernSlot(v)) }

  /** Page tables are allocated with one counted reference; pages of the unallocated part have none. */
  lemma FreeUncounted(m: Mem)
    requires Safe(m, true) && m.free != []
    ensures m.ref[m.free[0]] == 0
  {
    assert m.free[0] in m.free;
    assert Refs(m, m.free[0]) == {};
  }

  lemma WalkBooting(m: Mem, v: nat)
    requires Booting(m) && Static(v)
    requires m.free != [] || Target(m, TableRef(KERN, v / NENTRIES)) >= 0
    ensures v * PGSIZE < 0x1_0000_0000 && TableOk(m, m.pgdirs[KERN], v * PGSIZE)
    ensures var (m1, t) := PgdirWalk(m, m.pgdirs[KERN], v * PGSIZE, true);
            && Booting(m1) && t >= 0 && t == Target(m1, TableRef(KERN, v / NENTRIES))
            && Same(m, m1, TableRef(KERN, v / NENTRIES)) && m1.pgdirs == m.pgdirs
  {
    StaticSplit(v);
    WalkOk(m, KERN, v * PGSIZE);
    if Target(m, TableRef(KERN, v / NENTRIES)) < 0 {
      FreeUncounted(m);
      WalkCreates(m, KERN, v * PGSIZE);
      var (m1, t) := PgdirWalk(m, m.pgdirs[KERN], v * PGSIZE, true);
      assert (PTE_P | PTE_U | PTE_W) & PTE_P != 0;
      WalkAcct(m, m1, t, TableRef(KERN, v / NENTRIES), -1, 0, true);
    }
  }

  lemma MapPageKeeps(m: Mem, v: nat, frame: nat, perm: bv12)
    requires Booting(m) && Static(v)
    ensures var (m', ok) := MapPage(m, v, frame, perm);
            && (ok <==> m.free != [] || Target(m, TableRef(KERN, v / NENTRIES)) >= 0)
            && (!ok ==> m' == m)
            && (ok ==> Booting(m') && m'.pgdirs == m.pgdirs && RegionMapped(m, m', v, 1, frame, perm))
  {
    StaticSplit(v);
    WalkOk(m, KERN, v * PGSIZE);
    if m.free != [] || Target(m, TableRef(KERN, v / NENTRIES)) >= 0 {
      WalkBooting(m, v);
      var m1 := PgdirWalk(m, m.pgdirs[KERN], v * PGSIZE, true).0;
      StoreStatic(m1, v, Pte(frame, perm | PTE_P));
      PresentBit(perm);
      forall u: nat | u != v ensures KernSlot(u) != KernSlot(v) { SlotsDiffer(u, v); }
    }
  }

  /** A static mapping counts no reference. */
  lemma StoreStatic(m: Mem, v: nat, w: Pte)
    requires Booting(m) && Static(v) && Target(m, TableRef(KERN, v / NENTRIES)) >= 0
    ensures var m' := SetEntry(m, Target(m, TableRef(KERN, v / NENTRIES)), v % NENTRIES, w);
            && Booting(m') && Same(m, m', KernSlot(v)) && Word(m', KernSlot(v)) == (if Present(w) then w else ZERO_PTE)
  {
    SetLeaf(m, KERN, v / NENTRIES, v % NENTRIES, w);
    var m' := SetEntry(m, Target(m, TableRef(KERN, v / NENTRIES)), v % NENTRIES, w);
    CoreAfter(m, m', KernSlot(v));
    StaticAcct(m, m', KernSlot(v));
  }

  lemma StaticAcct(m: Mem, m': Mem, r0: Ref)
    requires Safe(m, true) && Shape(m') && Same(m, m', r0) && r0.UserRef? && r0.e == KERN
    requires m'.free == m.free && m'.reserved == m.reserved && m'.ref == m.ref
    ensures Acct(m', -1, 0, true)
  {
    forall r ensures Target(m', r) == Target(m, r) { if r == r0 { assert Target(m, r) == -1; } }
    RefsSame(m, m');
  }

  lemma SlotsDiffer(u: nat, v: nat)
    requires u != v
    ensures KernSlot(u) != KernSlot(v)
  {
    assert u == u / NENTRIES * NENTRIES + u % NENTRIES;
    assert v == v / NENTRIES * NENTRIES + v % NENTRIES;
  }

  /** boot_map_region over the n pages from page v, to the physical pages from frame on. */
  function MapRegion(m: Mem, v: nat, n: nat, frame: nat, perm: bv12): (r: (Mem, bool))
    requires Booting(m) && StaticRange(v, n)
    decreases n
  {
    if n == 0 then (m, true)
    else
      MapPageKeeps(m, v, frame, perm);
      var (m1, ok) := MapPage(m, v, frame, perm);
      if !ok then (m1, false) else MapRegion(m1, v + 1, n - 1, frame + 1, perm)
  }

  lemma MapRegionDone(m: Mem, v: nat, frame: nat, perm: bv12)
    requires Booting(m)
    ensures StaticRange(v, 0) && MapRegion(m, v, 0, frame, perm) == (m, true)
    ensures RegionMapped(m, m, v, 0, frame, perm)
  {
  }

  lemma MapRegionStep(m: Mem, v: nat, n: nat, frame: nat, perm: bv12)
    requires Booting(m) && n > 0 && StaticRange(v, n)
    ensures var (m1, ok) := MapPage(m, v, frame, perm);
            && Static(v) && StaticRange(v + 1, n - 1)
            && (ok ==> Booting(m1) && MapRegion(m, v, n, frame, perm) == MapRegion(m1, v + 1, n - 1, frame + 1, perm))
            && (!ok ==> MapRegion(m, v, n, frame, perm) == (m1, false))
  {
    MapPageKeeps(m, v, frame, perm);
  }

  /** The pages v..v+n of kern_pgdir map frame.. and all others map what they did. */
  ghost predicate RegionMapped(m: Mem, m': Mem, v: nat, n: nat, frame: nat, perm: bv12) {
    forall u: nat :: KernWord(m', u) == if v <= u < v + n then Pte(frame + (u - v), perm | PTE_P) else KernWord(m, u)
  }

  lemma RegionStep(m: Mem, m1: Mem, m2: Mem, v: nat, n: nat, frame: nat, perm: bv12)
    requires n > 0 && RegionMapped(m, m1, v, 1, frame, perm) && RegionMapped(m1, m2, v + 1, n - 1, frame + 1, perm)
    ensures RegionMapped(m, m2, v, n, frame, perm)
  {
  }

  lemma {:induction false} MapRegionKeeps(m: Mem, v: nat, n: nat, frame: nat, perm: bv12)
    requires Booting(m) && StaticRange(v, n)
    ensures var (m', ok) := MapRegion(m, v, n, frame, perm);
            Booting(m') && m'.pgdirs == m.pgdirs && (ok ==> RegionMapped(m, m', v, n, frame, perm))
    decreases n
  {
    hide *;
    if n == 0 {
      MapRegionDone(m, v, frame, perm);
    } else {
      MapRegionStep(m, v, n, frame, perm);
      MapPageKeeps(m, v, frame, perm);
      var (m1, ok) := MapPage(m, v, frame, perm);
      if ok {
        MapRegionKeeps(m1, v + 1, n - 1, frame + 1, perm);
        var (m2, ok2) := MapRegion(m1, v + 1, n - 1, frame + 1, perm);
        if ok2 { RegionStep(m, m1, m2, v, n, frame, perm); }
      }
    }
  }

  lemma TranslateKern(m: Mem, va: Addr)
    requires Booting(m) && Pdx(va) != UVPT_INDEX
    ensures Translate(m, KERN, va) == KernWord(m, Pgnum(va))
  {
    TranslateIsWord(m, KERN, va);
    PgaddrSplit(va);
    assert Pgnum(va) / NENTRIES == Pdx(va) && Pgnum(va) % NENTRIES == Ptx(va);
  }

  /** boot_map_region changes the translation of exactly its interval, and counts nothing but the
      tables it adds. */
  lemma RegionTranslates(m: Mem, v: nat, n: nat, frame: nat, perm: bv12, va: Addr)
    requires Booting(m) && StaticRange(v, n) && Pdx(va) != UVPT_INDEX
    requires MapRegion(m, v, n, frame, perm).1
    ensures var m' := MapRegion(m, v, n, frame, perm).0;
            && Booting(m')
            && Translate(m', KERN, va) == if v <= Pgnum(va) < v + n then Pte(frame + (Pgnum(va) - v), perm | PTE_P)
                                          else Translate(m, KERN, va)
  {
    MapRegionKeeps(m, v, n, frame, perm);
    TranslateKern(m, va);
    TranslateKern(MapRegion(m, v, n, frame, perm).0, va);
  }
}
