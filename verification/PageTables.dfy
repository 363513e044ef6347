/** Physical pages and two-level page tables as values: what each routine of lab4/kern/pmap.c
    does to pp_ref, page_free_list and the words of physical memory. */
module PageTables {
  import opened Mmu

  const KERN := -1             // owner of kern_pgdir; environments own slots 0, 1, ...
  const E_NO_MEM := 4
  const REF_MOD := 0x1_0000    // pp_ref is a uint16_t

  /** ref[p] is pages[p].pp_ref, free is page_free_list from its head, frames[p] is physical page p
      read as words, pgdirs[e] is the page holding env_pgdir of e (kern_pgdir for KERN), and
      reserved holds the pages that page_init never puts on the free list. */
  datatype Mem = Mem(ref: seq<nat>, free: seq<nat>, frames: seq<seq<Pte>>,
                     pgdirs: map<int, nat>, reserved: set<nat>)

  predicate Shape(m: Mem) {
    && |m.ref| == |m.frames|
    && (forall p :: 0 <= p < |m.frames| ==> |m.frames[p]| == NENTRIES)
    && (forall p :: 0 <= p < |m.ref| ==> m.ref[p] < REF_MOD)
    && (forall i :: 0 <= i < |m.free| ==> m.free[i] < |m.frames|)
  }

  function SetEntry(m: Mem, p: nat, i: nat, e: Pte): (m': Mem)
    requires p < |m.frames| && i < |m.frames[p]|
  {
    m.(frames := m.frames[p := m.frames[p][i := e]])
  }

  /** ++ and -- on a uint16_t. */
  function Inc16(n: nat): nat { if n == REF_MOD - 1 then 0 else n + 1 }
  function Dec16(n: nat): nat { if n == 0 then REF_MOD - 1 else n - 1 }

  function IncRef(m: Mem, p: nat): Mem
    requires p < |m.ref|
  {
    m.(ref := m.ref[p := Inc16(m.ref[p])])
  }

  /** page_alloc on a list that is not empty. */
  function PageAlloc(m: Mem, zero: bool): Mem
    requires Shape(m) && m.free != []
  {
    var p := m.free[0];
    m.(free := m.free[1..], frames := if zero then m.frames[p := ZeroPage()] else m.frames)
  }

  function PageFree(m: Mem, p: nat): Mem { m.(free := [p] + m.free) }

  function PageDecref(m: Mem, p: nat): Mem
    requires p < |m.ref|
  {
    var r := Dec16(m.ref[p]);
    var m1 := m.(ref := m.ref[p := r]);
    if r == 0 then PageFree(m1, p) else m1
  }

  /** The page table that dir's entry for va points to exists physically (KADDR does not panic). */
  predicate TableOk(m: Mem, dir: nat, va: Addr) {
    && Shape(m) && dir < |m.frames|
    && (Present(m.frames[dir][Pdx(va)]) ==> m.frames[dir][Pdx(va)].frame < |m.frames|)
  }

  /** pgdir_walk: the new state and the page table holding va's entry, or -1 for NULL.
      The entry itself is word PTX(va) of that table. */
  function PgdirWalk(m: Mem, dir: nat, va: Addr, create: bool): (r: (Mem, int))
    requires TableOk(m, dir, va)
    ensures Shape(r.0) && |r.0.frames| == |m.frames| && -1 <= r.1 < |m.frames|
  {
    var e := m.frames[dir][Pdx(va)];
    var t: int := e.frame;
    if Present(e) then (m, t)
    else if !create || m.free == [] then (m, -1)
    else
      var p: int := m.free[0];
      var m1 := IncRef(PageAlloc(m, true), p);
      (SetEntry(m1, dir, Pdx(va), Pte(p, PTE_P | PTE_U | PTE_W)), p)
  }

  /** page_lookup: the table holding va's present entry, or -1 for NULL. */
  function PageLookup(m: Mem, dir: nat, va: Addr): (t: int)
    requires TableOk(m, dir, va)
    ensures -1 <= t < |m.frames|
    ensures t >= 0 ==> Present(m.frames[t][Ptx(va)])
  {
    var t := PgdirWalk(m, dir, va, false).1;
    if t >= 0 && Present(m.frames[t][Ptx(va)]) then t else -1
  }

  /** The page that va is mapped to exists physically (pa2page does not panic). */
  predicate LeafOk(m: Mem, dir: nat, va: Addr) {
    && TableOk(m, dir, va)
    && var t := PageLookup(m, dir, va);
       t >= 0 ==> m.frames[t][Ptx(va)].frame < |m.frames|
  }

  function PageRemove(m: Mem, dir: nat, va: Addr): Mem
    requires LeafOk(m, dir, va)
  {
    var t := PageLookup(m, dir, va);
    if t < 0 then m
    else SetEntry(PageDecref(m, m.frames[t][Ptx(va)].frame), t, Ptx(va), ZERO_PTE)
  }

  /** page_insert of lab4: take the new reference first, then remove what is mapped at va. */
  function PageInsert(m: Mem, dir: nat, pp: nat, va: Addr, perm: bv12): (r: (Mem, int))
    requires LeafOk(m, dir, va) && pp < |m.frames| && (m.free != [] ==> m.free[0] != dir)
  {
    var (m1, t) := PgdirWalk(m, dir, va, true);
    if t < 0 then (m1, -E_NO_MEM)
    else
      WalkedLeafOk(m, dir, va);
      var m2 := IncRef(m1, pp);
      var m3 := if Present(m2.frames[t][Ptx(va)]) then PageRemove(m2, dir, va) else m2;
      (SetEntry(m3, t, Ptx(va), Pte(pp, perm | PTE_P)), 0)
  }

  /** lab2's "if (page_free_list == pp) page_free_list = page_free_list->pp_link". */
  function TakeBack(m: Mem, pp: nat): Mem {
    if m.free != [] && m.free[0] == pp then m.(free := m.free[1..]) else m
  }

  /** page_insert of lab2: remove first, then take pp off the free list if the removal put it there. */
  function Lab2PageInsert(m: Mem, dir: nat, pp: nat, va: Addr, perm: bv12): (r: (Mem, int))
    requires LeafOk(m, dir, va) && pp < |m.frames| && (m.free != [] ==> m.free[0] != dir)
  {
    var t := PgdirWalk(m, dir, va, false).1;
    if t >= 0 then
      var m1 := if Present(m.frames[t][Ptx(va)]) then PageRemove(m, dir, va) else m;
      (IncRef(SetEntry(TakeBack(m1, pp), t, Ptx(va), Pte(pp, perm | PTE_P)), pp), 0)
    else
      var (m1, t1) := PgdirWalk(m, dir, va, true);
      if t1 < 0 then (m1, -E_NO_MEM)
      else (IncRef(SetEntry(m1, t1, Ptx(va), Pte(pp, perm | PTE_P)), pp), 0)
  }

  /** After a creating walk the entry is still well formed: a fresh table maps nothing. */
  lemma WalkedLeafOk(m: Mem, dir: nat, va: Addr)
    requires LeafOk(m, dir, va) && (m.free != [] ==> m.free[0] != dir)
    requires PgdirWalk(m, dir, va, true).1 >= 0
    ensures LeafOk(PgdirWalk(m, dir, va, true).0, dir, va)
    ensures PgdirWalk(PgdirWalk(m, dir, va, true).0, dir, va, false).1 == PgdirWalk(m, dir, va, true).1
  {
  }

  lemma SetTwice(m: Mem, p: nat, i: nat, e1: Pte, e2: Pte)
    requires p < |m.frames| && i < |m.frames[p]|
    ensures SetEntry(SetEntry(m, p, i, e1), p, i, e2) == SetEntry(m, p, i, e2)
  {
    assert m.frames[p][i := e1][i := e2] == m.frames[p][i := e2];
    assert m.frames[p := m.frames[p][i := e1]][p := m.frames[p][i := e2]] == m.frames[p := m.frames[p][i := e2]];
  }

  /** Taking the reference before or after dropping the old one. */
  lemma CountsCommute(m: Mem, pp: nat, q: nat)
    requires pp < |m.ref| && q < |m.ref| && pp !in m.free
    requires forall p :: 0 <= p < |m.ref| ==> m.ref[p] < REF_MOD
    ensures PageDecref(IncRef(m, pp), q) == IncRef(TakeBack(PageDecref(m, q), pp), pp)
       <==> !(q == pp && m.ref[pp] == 0)
  {
    var (a, b) := (PageDecref(IncRef(m, pp), q), IncRef(TakeBack(PageDecref(m, q), pp), pp));
    assert ([pp] + m.free)[1..] == m.free;
    if q == pp {
      assert a.ref == m.ref && b.ref == m.ref;
      assert m.ref[pp] == 0 ==> |a.free| == |m.free| + 1 && b.free == m.free;
    } else {
      assert a.ref == b.ref;
    }
  }

  predicate MappedTo(m: Mem, dir: nat, va: Addr, pp: nat)
    requires TableOk(m, dir, va)
  {
    var t := PageLookup(m, dir, va);
    t >= 0 && m.frames[t][Ptx(va)].frame == pp
  }

  /** Both insertions over a mapped address, with the cleared entry folded away. */
  lemma InsertOverMapped(m: Mem, dir: nat, pp: nat, va: Addr, perm: bv12)
    requires LeafOk(m, dir, va) && pp < |m.frames| && (m.free != [] ==> m.free[0] != dir)
    requires PageLookup(m, dir, va) >= 0
    ensures var t, i := PageLookup(m, dir, va), Ptx(va);
            PageInsert(m, dir, pp, va, perm) ==
            (SetEntry(PageDecref(IncRef(m, pp), m.frames[t][i].frame), t, i, Pte(pp, perm | PTE_P)), 0)
  {
    var t, i := PageLookup(m, dir, va), Ptx(va);
    SetTwice(PageDecref(IncRef(m, pp), m.frames[t][i].frame), t, i, ZERO_PTE, Pte(pp, perm | PTE_P));
  }

  lemma Lab2InsertOverMapped(m: Mem, dir: nat, pp: nat, va: Addr, perm: bv12)
    requires LeafOk(m, dir, va) && pp < |m.frames| && (m.free != [] ==> m.free[0] != dir)
    requires PageLookup(m, dir, va) >= 0
    ensures var t, i := PageLookup(m, dir, va), Ptx(va);
            Lab2PageInsert(m, dir, pp, va, perm) ==
            (SetEntry(IncRef(TakeBack(PageDecref(m, m.frames[t][i].frame), pp), pp), t, i, Pte(pp, perm | PTE_P)), 0)
  {
    var t, i := PageLookup(m, dir, va), Ptx(va);
    var m2 := TakeBack(PageDecref(m, m.frames[t][i].frame), pp);
    SetTwice(m2, t, i, ZERO_PTE, Pte(pp, perm | PTE_P));
    assert TakeBack(PageRemove(m, dir, va), pp) == SetEntry(m2, t, i, ZERO_PTE);
  }

  /** The two insertions agree on the return code, the tables, the counts and the order of the free
      list, for every page off the free list, exactly when pp is not mapped at va with a count of
      zero.  Reinserting a page where it already is, is the case both were written for. */
  lemma InsertsAgree(m: Mem, dir: nat, pp: nat, va: Addr, perm: bv12)
    requires LeafOk(m, dir, va) && pp < |m.frames| && (m.free != [] ==> m.free[0] != dir)
    requires pp !in m.free
    ensures Lab2PageInsert(m, dir, pp, va, perm) == PageInsert(m, dir, pp, va, perm)
       <==> !(MappedTo(m, dir, va, pp) && m.ref[pp] == 0)
  {
    var t := PageLookup(m, dir, va);
    if t >= 0 {
      InsertOverMapped(m, dir, pp, va, perm);
      Lab2InsertOverMapped(m, dir, pp, va, perm);
      CountsCommute(m, pp, m.frames[t][Ptx(va)].frame);
    }
  }
}
