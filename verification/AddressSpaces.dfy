/** Environment address spaces: page_insert into one, env_setup_vm and env_free of lab4/kern/env.c, as
    values, with what they keep. */
module AddressSpaces {
  import opened Mmu
  import opened PageTables
  import opened PageAccounting

  const E_BAD_ENV := 2
  const E_INVAL := 3

  /** No 16-bit count is about to wrap. */
  ghost predicate CountsBelow(m: Mem) { forall p :: 0 <= p < |m.ref| ==> m.ref[p] < REF_MOD - 3 }

  ghost predicate Room(m: Mem) { forall p :: 0 <= p < |m.ref| ==> m.ref[p] < REF_MOD - 1 }

  /** An environment whose address space exists. */
  predicate Live(m: Mem, e: int) { e in m.pgdirs && e != KERN }

  /** What one mapping operation at r0 leaves alone: every other mapping of every owner, every
      directory, and every page table but the one it may have had to add. */
  ghost predicate Elsewhere(m: Mem, m': Mem, r0: Ref)
    requires r0.UserRef?
  {
    && (forall r :: r != r0 && r != TableRef(r0.e, r0.d) ==> Word(m', r) == Word(m, r) && Target(m', r) == Target(m, r))
    && (Target(m, TableRef(r0.e, r0.d)) >= 0 ==> Word(m', TableRef(r0.e, r0.d)) == Word(m, TableRef(r0.e, r0.d)))
    && m'.pgdirs == m.pgdirs && m'.reserved == m.reserved && |m'.frames| == |m.frames|
  }

  /** After a creating walk, page_insert behaves as if the table had been there. */
  lemma InsertAfterWalk(m: Mem, e: int, va: Addr, pp: nat, perm: bv12)
    requires Core(m) && Live(m, e) && va < UTOP && pp < |m.ref|
    requires LeafOk(m, m.pgdirs[e], va) && (m.free != [] ==> m.free[0] != m.pgdirs[e])
    requires Target(m, TableRef(e, Pdx(va))) < 0 && m.free != [] && m.ref[m.free[0]] < REF_MOD - 1
    ensures var m1 := PgdirWalk(m, m.pgdirs[e], va, true).0;
            && LeafOk(m1, m.pgdirs[e], va) && (m1.free != [] ==> m1.free[0] != m.pgdirs[e])
            && PageInsert(m, m.pgdirs[e], pp, va, perm) == PageInsert(m1, m.pgdirs[e], pp, va, perm)
  {
    WalkOk(m, e, va);
    WalkCreates(m, e, va);
    var m1 := PgdirWalk(m, m.pgdirs[e], va, true).0;
    WalkOk(m1, e, va);
  }

  /** page_insert where a table has to be added first. */
  lemma InsertCreating(m: Mem, e: int, va: Addr, pp: nat, perm: bv12, c: nat, exact: bool)
    requires Core(m) && Acct(m, pp, c, exact) && Mappable(m, pp) && Room(m) && Live(m, e) && va < UTOP
    requires Target(m, TableRef(e, Pdx(va))) < 0 && m.free != []
    ensures LeafOk(m, m.pgdirs[e], va) && m.free[0] != m.pgdirs[e]
    ensures var (m', rc) := PageInsert(m, m.pgdirs[e], pp, va, perm);
            var r0 := UserRef(e, Pdx(va), Ptx(va));
            && rc == 0 && Core(m') && Acct(m', pp, c, exact)
            && Elsewhere(m, m', r0) && Word(m', r0) == Pte(pp, perm | PTE_P)
  {
    hide Separated, FreeListOk, UpperOk, PageInsert, LeafOk;
    WalkOk(m, e, va);
    WalkCreates(m, e, va);
    InsertAfterWalk(m, e, va, pp, perm);
    var (m1, t) := PgdirWalk(m, m.pgdirs[e], va, true);
    WalkAcct(m, m1, t, TableRef(e, Pdx(va)), pp, c, exact);
    InsertAt(m1, e, va, pp, perm, c, exact);
  }

  /** page_insert fails exactly when a table is needed and memory is exhausted, and then changes
      nothing; otherwise it maps pp at va with perm|PTE_P, changes no other mapping of any address
      space, and keeps the accounting. */
  lemma InsertKeeps(m: Mem, e: int, va: Addr, pp: nat, perm: bv12, c: nat, exact: bool)
    requires Core(m) && Acct(m, pp, c, exact) && Mappable(m, pp) && Room(m) && Live(m, e) && va < UTOP
    ensures LeafOk(m, m.pgdirs[e], va) && (m.free != [] ==> m.free[0] != m.pgdirs[e])
    ensures var (m', rc) := PageInsert(m, m.pgdirs[e], pp, va, perm);
            var r0 := UserRef(e, Pdx(va), Ptx(va));
            if NeedsTable(m, e, va) && m.free == [] then m' == m && rc == -E_NO_MEM
            else
              && rc == 0 && Core(m') && Acct(m', pp, c, exact)
              && Elsewhere(m, m', r0) && Word(m', r0) == Pte(pp, perm | PTE_P)
  {
    WalkOk(m, e, va);
    if !NeedsTable(m, e, va) {
      InsertAt(m, e, va, pp, perm, c, exact);
    } else if m.free != [] {
      InsertCreating(m, e, va, pp, perm, c, exact);
    }
  }

  predicate NeedsTable(m: Mem, e: int, va: Addr) { Target(m, TableRef(e, Pdx(va))) < 0 }

  /* ---- env_setup_vm ---- */

  function EnvSetupVm(m: Mem, e: int): (r: (Mem, int))
    requires Shape(m) && KERN in m.pgdirs && m.pgdirs[KERN] < |m.frames|
  {
    if m.free == [] then (m, -E_NO_MEM)
    else
      var p := m.free[0];
      var m1 := IncRef(PageAlloc(m, true), p);
      var page := m1.frames[m.pgdirs[KERN]][UVPT_INDEX := Pte(p, PTE_P | PTE_U)];
      (m1.(frames := m1.frames[p := page], pgdirs := m.pgdirs[e := p]), 0)
  }

  /** Installing the copied directory: only the new owner's reference appears. */
  lemma InstallDir(m: Mem, e: int, p: nat)
    requires Core(m) && e !in m.pgdirs && e != KERN
    requires p < |m.frames| && p !in m.free && p !in m.reserved && forall r :: Target(m, r) != p
    ensures var m' := m.(frames := m.frames[p := m.frames[m.pgdirs[KERN]][UVPT_INDEX := Pte(p, PTE_P | PTE_U)]],
                         pgdirs := m.pgdirs[e := p]);
            && Core(m') && Same(m, m', DirRef(e)) && Target(m, DirRef(e)) < 0 && Target(m', DirRef(e)) == p
  {
    var kern := m.frames[m.pgdirs[KERN]];
    var m' := m.(frames := m.frames[p := kern[UVPT_INDEX := Pte(p, PTE_P | PTE_U)]], pgdirs := m.pgdirs[e := p]);
    forall e' | e' in m.pgdirs ensures m.pgdirs[e'] != p { assert Target(m, DirRef(e')) == m.pgdirs[e']; }
    forall d: nat | d < NUSER ensures !Present(kern[d]) {
      assert Target(m, TableRef(KERN, d)) < 0;
    }
    forall r | r != DirRef(e) ensures Word(m', r) == Word(m, r) {
      if r.UserRef? { assert Target(m, TableRef(r.e, r.d)) != p; }
    }
    hide Separated, FreeListOk;
    assert UpperOk(m');
    NewDirCore(m, m', DirRef(e));
  }

  lemma NewDirCore(m: Mem, m': Mem, r0: Ref)
    requires Core(m) && Shape(m') && UpperOk(m') && Same(m, m', r0) && r0 != DirRef(KERN)
    requires m'.free == m.free && m'.reserved == m.reserved && |m'.frames| == |m.frames|
    requires var x := Target(m', r0); 0 <= x < |m.frames| && x !in m.free && x !in m.reserved && forall r :: Target(m, r) != x
    ensures Core(m')
  {
    CoreAfter(m, m', r0);
  }

  /** env_setup_vm gives e a directory of its own with nothing mapped below UTOP, or fails without
      changing anything. */
  lemma EnvSetupKeeps(m: Mem, e: int, exact: bool)
    requires Safe(m, exact) && CountsBelow(m) && e !in m.pgdirs && e != KERN
    ensures var (m', rc) := EnvSetupVm(m, e);
            if m.free == [] then m' == m && rc == -E_NO_MEM
            else
              && rc == 0 && Safe(m', exact) && Same(m, m', DirRef(e)) && m'.pgdirs == m.pgdirs[e := m.free[0]]
              && m'.reserved == m.reserved && |m'.frames| == |m.frames|
  {
    if m.free != [] {
      FreshTable(m);
      var (m', p) := (EnvSetupVm(m, e).0, m.free[0]);
      InstallDir(IncRef(PageAlloc(m, true), p), e, p);
      WalkAcct(m, m', p, DirRef(e), -1, 0, exact);
    }
  }

  /* ---- env_free ---- */

  /** One iteration of the inner loop: unmap entry t of the page table tp under directory entry d. */
  function FreeSlot(m: Mem, e: int, d: nat, tp: nat, t: nat): (m': Mem)
    requires Safe(m, false) && Live(m, e) && d < NUSER && t < NENTRIES && Target(m, TableRef(e, d)) == tp
  {
    PgaddrJoin(d, t, 0);
    RemoveKeeps(m, e, Pgaddr(d, t, 0), -1, 0, false);
    if Present(m.frames[tp][t]) then PageRemove(m, m.pgdirs[e], Pgaddr(d, t, 0)) else m
  }

  lemma FreeSlotKeeps(m: Mem, e: int, d: nat, tp: nat, t: nat, exact: bool)
    requires Safe(m, false) && Safe(m, exact)
    requires Live(m, e) && d < NUSER && t < NENTRIES && Target(m, TableRef(e, d)) == tp
    ensures var m' := FreeSlot(m, e, d, tp, t);
            Safe(m', exact) && Rest(m, m', UserRef(e, d, t)) && Word(m', UserRef(e, d, t)) == ZERO_PTE
  {
    PgaddrJoin(d, t, 0);
    RemoveKeeps(m, e, Pgaddr(d, t, 0), -1, 0, exact);
  }

  /** The inner loop, from entry t on. */
  function FreeTable(m: Mem, e: int, d: nat, tp: nat, t: nat): (m': Mem)
    requires Safe(m, false) && Live(m, e) && d < NUSER && t <= NENTRIES && Target(m, TableRef(e, d)) == tp
    decreases NENTRIES - t
  {
    if t == NENTRIES then m
    else
      FreeSlotKeeps(m, e, d, tp, t, false);
      FreeTable(FreeSlot(m, e, d, tp, t), e, d, tp, t + 1)
  }

  lemma FreeTableKeeps(m: Mem, e: int, d: nat, tp: nat, t: nat, exact: bool)
    requires Safe(m, false) && Safe(m, exact)
    requires Live(m, e) && d < NUSER && t <= NENTRIES && Target(m, TableRef(e, d)) == tp
    requires forall i: nat :: i < t ==> Word(m, UserRef(e, d, i)) == ZERO_PTE
    ensures var m' := FreeTable(m, e, d, tp, t);
            && Safe(m', exact) && Safe(m', false)
            && (forall r: Ref :: !(r.UserRef? && r.e == e && r.d == d) ==> Word(m', r) == Word(m, r) && Target(m', r) == Target(m, r))
            && (forall i: nat :: Word(m', UserRef(e, d, i)) == ZERO_PTE)
            && m'.pgdirs == m.pgdirs && m'.reserved == m.reserved && |m'.frames| == |m.frames|
    decreases NENTRIES - t
  {
    if t == NENTRIES {
      forall i: nat ensures Word(m, UserRef(e, d, i)) == ZERO_PTE {}
    } else {
      FreeSlotKeeps(m, e, d, tp, t, exact);
      FreeSlotKeeps(m, e, d, tp, t, false);
      FreeTableKeeps(FreeSlot(m, e, d, tp, t), e, d, tp, t + 1, exact);
    }
  }

  /** The outer loop: unmap and free every page table from directory entry d on. */
  function FreeTables(m: Mem, e: int, d: nat): (m': Mem)
    requires Safe(m, false) && Live(m, e) && d <= NUSER
    decreases NUSER - d
  {
    if d == NUSER then m
    else
      FreeDirEntryKeeps(m, e, d, false);
      FreeTables(FreeDirEntry(m, e, d), e, d + 1)
  }

  /** One iteration of the outer loop. */
  function FreeDirEntry(m: Mem, e: int, d: nat): (m': Mem)
    requires Safe(m, false) && Live(m, e) && d < NUSER
  {
    assert Target(m, DirRef(e)) == m.pgdirs[e];
    var w := m.frames[m.pgdirs[e]][d];
    if !Present(w) then m
    else
      assert Target(m, TableRef(e, d)) == w.frame;
      FreeTableKeeps(m, e, d, w.frame, 0, false);
      var m1 := FreeTable(m, e, d, w.frame, 0);
      PageDecref(SetEntry(m1, m.pgdirs[e], d, ZERO_PTE), w.frame)
  }

  /** Everything not under directory entry d of e. */
  predicate Outside(r: Ref, e: int, d: nat) { r.DirRef? || r.e != e || r.d != d }

  ghost predicate SameOutside(m: Mem, m': Mem, e: int, d: nat) {
    && (forall r: Ref :: Outside(r, e, d) ==> Word(m', r) == Word(m, r) && Target(m', r) == Target(m, r))
    && m'.pgdirs == m.pgdirs && m'.reserved == m.reserved && |m'.frames| == |m.frames|
  }

  lemma FreeDirEntryKeeps(m: Mem, e: int, d: nat, exact: bool)
    requires Safe(m, false) && Safe(m, exact) && Live(m, e) && d < NUSER
    ensures var m' := FreeDirEntry(m, e, d);
            && Safe(m', exact) && Safe(m', false) && SameOutside(m, m', e, d)
            && (forall r: Ref :: !Outside(r, e, d) ==> Word(m', r) == ZERO_PTE)
  {
    assert Target(m, DirRef(e)) == m.pgdirs[e];
    var w := m.frames[m.pgdirs[e]][d];
    if Present(w) {
      assert Target(m, TableRef(e, d)) == w.frame;
      FreeTableKeeps(m, e, d, w.frame, 0, exact);
      DropTable(FreeTable(m, e, d, w.frame, 0), e, d, w.frame, exact);
      DropTable(FreeTable(m, e, d, w.frame, 0), e, d, w.frame, false);
    }
  }

  /** Clearing a directory entry whose table maps nothing any more, and freeing the table. */
  lemma DropTable(m: Mem, e: int, d: nat, tp: nat, exact: bool)
    requires Safe(m, exact) && Live(m, e) && d < NUSER && Target(m, TableRef(e, d)) == tp
    requires forall i: nat :: Word(m, UserRef(e, d, i)) == ZERO_PTE
    ensures m.pgdirs[e] < |m.frames| && tp < |m.frames|
    ensures var m' := PageDecref(SetEntry(m, m.pgdirs[e], d, ZERO_PTE), tp);
            && Safe(m', exact) && SameOutside(m, m', e, d)
            && (forall r: Ref :: !Outside(r, e, d) ==> Word(m', r) == ZERO_PTE)
  {
    SetTable(m, e, d, ZERO_PTE);
    var n := SetEntry(m, m.pgdirs[e], d, ZERO_PTE);
    CoreAfter(m, n, TableRef(e, d));
    RemovedAcct(m, n, TableRef(e, d), tp, -1, 0, exact);
  }

  lemma FreeTablesKeeps(m: Mem, e: int, d: nat, exact: bool)
    requires Safe(m, false) && Safe(m, exact) && Live(m, e) && d <= NUSER
    requires forall r: Ref :: !r.DirRef? && r.e == e && r.d < d ==> Word(m, r) == ZERO_PTE
    ensures var m' := FreeTables(m, e, d);
            && Safe(m', exact) && Safe(m', false)
            && (forall r: Ref :: r.DirRef? || r.e != e ==> Word(m', r) == Word(m, r) && Target(m', r) == Target(m, r))
            && (forall r: Ref :: !r.DirRef? && r.e == e ==> Word(m', r) == ZERO_PTE)
            && m'.pgdirs == m.pgdirs && m'.reserved == m.reserved && |m'.frames| == |m.frames|
    decreases NUSER - d
  {
    if d < NUSER {
      FreeDirEntryKeeps(m, e, d, exact);
      FreeDirEntryKeeps(m, e, d, false);
      FreeTablesKeeps(FreeDirEntry(m, e, d), e, d + 1, exact);
    }
  }

  /** env_free: all user mappings, all page tables and the directory of e. */
  function EnvFree(m: Mem, e: int): Mem
    requires Safe(m, false) && Live(m, e)
  {
    FreeTablesKeeps(m, e, 0, false);
    assert Target(m, DirRef(e)) == m.pgdirs[e];
    var m1 := FreeTables(m, e, 0);
    PageDecref(m1.(pgdirs := m1.pgdirs - {e}), m.pgdirs[e])
  }

  /** env_free removes exactly the references of e: no other address space changes, and every page
      only e referred to comes back to the free list. */
  lemma EnvFreeKeeps(m: Mem, e: int, exact: bool)
    requires Safe(m, false) && Safe(m, exact) && Live(m, e)
    ensures var m' := EnvFree(m, e);
            && Safe(m', exact)
            && (forall r: Ref :: r.e != e ==> Word(m', r) == Word(m, r) && Target(m', r) == Target(m, r))
            && (forall r: Ref :: r.e == e ==> Word(m', r) == ZERO_PTE)
            && m'.pgdirs == m.pgdirs - {e} && m'.reserved == m.reserved && |m'.frames| == |m.frames|
  {
    FreeTablesKeeps(m, e, 0, exact);
    var m1 := FreeTables(m, e, 0);
    DropDir(m1, e, m.pgdirs[e], exact);
  }

  lemma DropDir(m: Mem, e: int, dir: nat, exact: bool)
    requires Safe(m, exact) && Live(m, e) && m.pgdirs[e] == dir
    requires forall r: Ref :: !r.DirRef? && r.e == e ==> Word(m, r) == ZERO_PTE
    ensures dir < |m.frames|
    ensures var m' := PageDecref(m.(pgdirs := m.pgdirs - {e}), dir);
            && Safe(m', exact) && Same(m, m', DirRef(e)) && Word(m', DirRef(e)) == ZERO_PTE
            && m'.pgdirs == m.pgdirs - {e} && m'.reserved == m.reserved && |m'.frames| == |m.frames|
  {
    assert Target(m, DirRef(e)) == dir;
    var n := m.(pgdirs := m.pgdirs - {e});
    forall r: Ref | r != DirRef(e) ensures Word(n, r) == Word(m, r) {
      if r.e == e { assert Word(m, r) == ZERO_PTE; }
    }
    CoreAfter(m, n, DirRef(e));
    RemovedAcct(m, n, DirRef(e), dir, -1, 0, exact);
  }
}
