/** The machine that module CowFork speaks of, read off the page tables of module PageTables. */
module ForkBridge {
  import opened Mmu
  import P = PageTables
  import opened PageAccounting
  import opened AddressSpaces
  import opened MemoryRuns
  import C = CowFork

  ghost function LocsOf(m: P.Mem): set<C.Loc>
    requires P.Shape(m)
  {
    set e: nat, v: nat | e in m.pgdirs && v in SpaceOf(m, e) :: C.Loc(e, v)
  }

  /** The user mappings of all environments, and page contents. */
  ghost function VmOf(m: P.Mem, pages: seq<C.Page>): C.Vm
    requires P.Shape(m)
  {
    C.Vm(map l | l in LocsOf(m) :: SpaceOf(m, l.env)[l.vpn], pages)
  }

  lemma LocIn(m: P.Mem, pages: seq<C.Page>, l: C.Loc)
    requires P.Shape(m)
    ensures l in VmOf(m, pages).pt <==> l.env in m.pgdirs && l.vpn in SpaceOf(m, l.env)
    ensures l in VmOf(m, pages).pt ==> VmOf(m, pages).pt[l] == SpaceOf(m, l.env)[l.vpn]
  {
    assert l == C.Loc(l.env, l.vpn);
  }

  /** Every mapping is a counted reference to a page that exists and is not free. */
  lemma MappedInUse(m: P.Mem, exact: bool, e: nat, v: nat)
    requires Safe(m, exact) && e in m.pgdirs && v in SpaceOf(m, e)
    ensures SpaceOf(m, e)[v].frame < |m.frames| && SpaceOf(m, e)[v].frame !in m.free
  {
    VpnSplit(v);
    var va: Addr := v * PGSIZE;
    TranslateIsWord(m, e, va);
    assert Target(m, UserRef(e, Pdx(va), Ptx(va))) == SpaceOf(m, e)[v].frame;
  }

  /** A page on the kernel's free list is mapped nowhere, as the copy-on-write proofs take for granted of
      the page that sys_page_alloc finds. */
  lemma FreePageFresh(m: P.Mem, exact: bool, pages: seq<C.Page>, p: nat)
    requires Safe(m, exact) && |pages| == |m.frames| && p in m.free
    ensures C.FramesOk(VmOf(m, pages)) && C.Fresh(VmOf(m, pages), p)
  {
    var vm := VmOf(m, pages);
    forall l | l in vm.pt ensures vm.pt[l].frame < |vm.mem| && vm.pt[l].frame != p {
      LocIn(m, pages, l);
      MappedInUse(m, exact, l.env, l.vpn);
    }
    hide Safe, VmOf, SpaceOf;
    assert p < |m.frames| by { FreeBelow(m, exact, p); }
  }

  lemma FreeBelow(m: P.Mem, exact: bool, p: nat)
    requires Safe(m, exact) && p in m.free
    ensures p < |m.frames|
  {
  }

  lemma VmUpdate(m: P.Mem, m': P.Mem, e: nat, v: nat, w: Pte, pages: seq<C.Page>)
    requires P.Shape(m) && P.Shape(m') && m'.pgdirs == m.pgdirs && e in m.pgdirs && SpaceOf(m', e) == SpaceOf(m, e)[v := w]
    requires forall e2 :: e2 in m.pgdirs && e2 != e ==> SpaceOf(m', e2) == SpaceOf(m, e2)
    ensures VmOf(m', pages).pt == VmOf(m, pages).pt[C.Loc(e, v) := w]
  {
    hide SpaceOf, P.Shape, VmOf;
    forall l: C.Loc
      ensures l in VmOf(m', pages).pt <==> l == C.Loc(e, v) || l in VmOf(m, pages).pt
      ensures l in VmOf(m', pages).pt ==> VmOf(m', pages).pt[l] == if l == C.Loc(e, v) then w else VmOf(m, pages).pt[l]
    {
      LocIn(m, pages, l);
      LocIn(m', pages, l);
      assert l == C.Loc(l.env, l.vpn);
    }
  }

  lemma VmDelete(m: P.Mem, m': P.Mem, e: nat, v: nat, pages: seq<C.Page>)
    requires P.Shape(m) && P.Shape(m') && m'.pgdirs == m.pgdirs && e in m.pgdirs && SpaceOf(m', e) == SpaceOf(m, e) - {v}
    requires forall e2 :: e2 in m.pgdirs && e2 != e ==> SpaceOf(m', e2) == SpaceOf(m, e2)
    ensures VmOf(m', pages).pt == VmOf(m, pages).pt - {C.Loc(e, v)}
  {
    hide SpaceOf, P.Shape, VmOf;
    forall l: C.Loc
      ensures l in VmOf(m', pages).pt <==> l != C.Loc(e, v) && l in VmOf(m, pages).pt
      ensures l in VmOf(m', pages).pt ==> VmOf(m', pages).pt[l] == VmOf(m, pages).pt[l]
    {
      LocIn(m, pages, l);
      LocIn(m', pages, l);
      assert l == C.Loc(l.env, l.vpn);
    }
  }

  /** page_insert that succeeds is the map update that CowFork's system calls make. */
  lemma InsertBridges(m: P.Mem, e: nat, va: Addr, pp: nat, perm: bv12, exact: bool, pages: seq<C.Page>)
    requires Core(m) && Acct(m, pp, 0, exact) && Mappable(m, pp) && Room(m) && Live(m, e) && va < UTOP
    ensures P.LeafOk(m, m.pgdirs[e], va) && (m.free != [] ==> m.free[0] != m.pgdirs[e])
    ensures var (m', rc) := P.PageInsert(m, m.pgdirs[e], pp, va, perm);
            P.Shape(m') && (rc == 0 ==> VmOf(m', pages).pt == VmOf(m, pages).pt[C.Loc(e, Pgnum(va)) := Pte(pp, perm | PTE_P)])
  {
    InsertRefines(m, e, va, pp, perm, exact);
    var (m', rc) := P.PageInsert(m, m.pgdirs[e], pp, va, perm);
    hide SpaceOf, VmOf, P.PageInsert, Acct, P.Shape, P.LeafOk;
    if rc == 0 { VmUpdate(m, m', e, Pgnum(va), Pte(pp, perm | PTE_P), pages); }
  }

  /** And page_remove the deletion. */
  lemma RemoveBridges(m: P.Mem, e: nat, va: Addr, exact: bool, pages: seq<C.Page>)
    requires Safe(m, exact) && Live(m, e) && va < UTOP
    ensures P.LeafOk(m, m.pgdirs[e], va)
    ensures var m' := P.PageRemove(m, m.pgdirs[e], va);
            P.Shape(m') && VmOf(m', pages).pt == VmOf(m, pages).pt - {C.Loc(e, Pgnum(va))}
  {
    RemoveRefines(m, e, va, exact);
    hide SpaceOf, VmOf, P.PageRemove, Acct, P.Shape, P.LeafOk;
    VmDelete(m, P.PageRemove(m, m.pgdirs[e], va), e, Pgnum(va), pages);
  }
}
