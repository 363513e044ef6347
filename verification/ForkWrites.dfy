/** Copy-on-write is invisible to writers too: a program may write exactly the pages that it could write if fork had
    copied them, and only there does a store not end in a panic of pgfault. */
module ForkWrites {
  import opened Mmu
  import opened CowFork
  import opened ForkSimulation

  /** Mapped, and writable now or after a copy. */
  predicate MayWrite(vm: Vm, l: Loc) { l in vm.pt && (vm.pt[l].perm & PTE_W != 0 || vm.pt[l].perm & PTE_COW != 0) }

  lemma Bits(f: nat, perm: bv12)
    ensures PTE_W | PTE_U | PTE_P | PTE_P == 0x007 && PTE_COW | PTE_U | PTE_P | PTE_P == 0x805 && PTE_U | PTE_P | PTE_P == 0x005
    ensures (perm | PTE_P) & PTE_W == perm & PTE_W && (perm | PTE_P) & PTE_COW == perm & PTE_COW
    ensures (0x007 as bv12) & PTE_W != 0 && (0x805 as bv12) & PTE_COW != 0
    ensures (0x005 as bv12) & PTE_W == 0 && (0x005 as bv12) & PTE_COW == 0
  {
  }

  /** A store succeeds exactly where the program may write, and changes nobody's right to write. */
  lemma StoreExact(vm: Vm, l: Loc, off: nat, b: bv8, p: nat)
    requires Quiet(vm) && off < PGSIZE && l.vpn != PFTEMP && Fresh(vm, p)
    ensures var r := Store(vm, l, off, b, p);
            && (r.Some? <==> MayWrite(vm, l))
            && (r.Some? ==> forall x :: MayWrite(r.value, x) <==> MayWrite(vm, x))
  {
    Bits(0, 0);
    if l in vm.pt && Has(vm.pt[l], PTE_COW) { PgFaultForm(vm, l, p); }
    hide Exclusive, Reserved, Fresh;
  }

  /** duppage panics exactly if there is no page table for a page that the parent may write; otherwise the child may write
      its page exactly if the parent may write its own, and nobody else's right changes. */
  lemma DupExact(vm: Vm, parent: nat, child: nat, v: nat, short: bool)
    requires Loc(parent, v) in vm.pt && child != parent
    ensures var (r, mine, yours) := (DupPage(vm, parent, child, v, short), Loc(parent, v), Loc(child, v));
            && (r.None? <==> short && MayWrite(vm, mine))
            && (r.Some? ==> forall x :: MayWrite(r.value, x) <==> if x == yours && !short then MayWrite(vm, mine) else MayWrite(vm, x))
  {
    Bits(0, 0);
    if !short { DupPageForm(vm, parent, child, v); }
  }

  /* ---- whole runs ---- */

  /** The pages that may be written, if fork copied them with the right to write. */
  ghost function WriteStep(w: iset<Loc>, a: Act): iset<Loc> {
    match a
    case Read(_, _) => w
    case Write(_, _, _, _) => w
    case Alloc(l, perm, _) => if perm & PTE_W != 0 || perm & PTE_COW != 0 then w + iset{l} else w - iset{l}
    case Unmap(l) => w - iset{l}
    case Dup(parent, child, v, _) => if Loc(parent, v) in w then w + iset{Loc(child, v)} else w - iset{Loc(child, v)}
    case Exit(e) => iset l | l in w && l.env != e
  }

  ghost predicate Rights(vm: Vm, w: iset<Loc>) { forall l :: MayWrite(vm, l) <==> l in w }

  /** A step keeps the rights those of eager copying, and it ends in a panic exactly if it writes where they do not allow
      it, or duplicates a page they allow to write for which there is no page table. */
  lemma StepRights(vm: Vm, w: iset<Loc>, a: Act)
    requires Quiet(vm) && Allowed(vm, a) && Rights(vm, w)
    ensures var r := CowStep(vm, a);
            && (r.None? <==> (a.Write? && a.l !in w) || (a.Dup? && a.short && Loc(a.parent, a.v) in w))
            && (r.Some? ==> Rights(r.value, WriteStep(w, a)))
  {
    hide Store, DupPage, Exclusive, MayWrite, Reserved;
    match a
    case Read(_, _) =>
    case Write(l, off, b, p) => StoreExact(vm, l, off, b, p);
    case Alloc(l, perm, p) => AllocRights(vm, l, perm, p);
    case Unmap(l) => UnmapRights(vm, l);
    case Dup(parent, child, v, short) => DupRights(vm, w, parent, child, v, short);
    case Exit(e) => ExitRights(vm, e);
  }

  lemma AllocRights(vm: Vm, l: Loc, perm: bv12, p: nat)
    requires p < |vm.mem|
    ensures forall x :: MayWrite(SysPageAlloc(vm, l, perm, p), x) <==>
              if x == l then perm & PTE_W != 0 || perm & PTE_COW != 0 else MayWrite(vm, x)
  {
    Bits(p, perm);
  }

  lemma UnmapRights(vm: Vm, l: Loc)
    ensures forall x :: MayWrite(SysPageUnmap(vm, l), x) <==> x != l && MayWrite(vm, x)
  {
  }

  lemma ExitRights(vm: Vm, e: nat)
    ensures forall x :: MayWrite(ExitEnv(vm, e), x) <==> x.env != e && MayWrite(vm, x)
  {
  }

  lemma DupRights(vm: Vm, w: iset<Loc>, parent: nat, child: nat, v: nat, short: bool)
    requires Rights(vm, w) && Allowed(vm, Dup(parent, child, v, short))
    ensures var r := DupPage(vm, parent, child, v, short);
            && (r.None? <==> short && Loc(parent, v) in w)
            && (r.Some? ==> Rights(r.value, WriteStep(w, Dup(parent, child, v, short))))
  {
    DupExact(vm, parent, child, v, short);
    assert !MayWrite(vm, Loc(child, v));
    hide DupPage, MayWrite;
  }

  /** Over every run without panics. */
  lemma {:induction false} RunRights(vms: seq<Vm>, ss: seq<map<Loc, Page>>, ws: seq<iset<Loc>>, acts: seq<Act>, n: nat)
    requires Run(vms, ss, acts) && Quiet(vms[0]) && ss[0] == View(vms[0]) && n <= |acts|
    requires |ws| == |acts| + 1 && Rights(vms[0], ws[0]) && forall i :: 0 <= i < |acts| ==> ws[i + 1] == WriteStep(ws[i], acts[i])
    ensures Rights(vms[n], ws[n])
    ensures forall l: Loc, off: nat, b: bv8, p: nat ::
              off < PGSIZE && !Scratch(l.vpn) && Fresh(vms[n], p) ==> FramesOk(vms[n]) && (Store(vms[n], l, off, b, p).Some? <==> l in ws[n])
  {
    RunSimulates(vms, ss, acts, n);
    if n > 0 {
      RunRights(vms, ss, ws, acts, n - 1);
      RunSimulates(vms, ss, acts, n - 1);
      StepRights(vms[n - 1], ws[n - 1], acts[n - 1]);
    }
    hide Store, MayWrite, CowStep, WriteStep, Allowed, View, EagerStep;
    forall l: Loc, off: nat, b: bv8, p: nat | off < PGSIZE && !Scratch(l.vpn) && Fresh(vms[n], p)
      ensures FramesOk(vms[n]) && (Store(vms[n], l, off, b, p).Some? <==> l in ws[n])
    {
      StoreExact(vms[n], l, off, b, p);
    }
  }
}
