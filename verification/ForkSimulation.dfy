/** Copy-on-write fork simulates eager copying. */
module ForkSimulation {
  import opened Wrappers
  import opened Mmu
  import opened CowFork

  /** Either page is used by the library alone and only between system calls. */
  predicate Scratch(v: nat) { v == PFTEMP || v == UTEMP }

  /** The invariant between user-visible actions. */
  ghost predicate Quiet(vm: Vm) { Exclusive(vm) && Reserved(vm, PFTEMP) && Reserved(vm, UTEMP) }

  /* ---- the two ways to give a child a page ---- */

  lemma DupPageForm(vm: Vm, parent: nat, child: nat, v: nat)
    requires Loc(parent, v) in vm.pt
    ensures var (mine, yours) := (Loc(parent, v), Loc(child, v));
            var f := vm.pt[mine].frame;
            var cow := Pte(f, PTE_COW | PTE_U | PTE_P | PTE_P);
            DupPage(vm, parent, child, v, false) ==
              if Has(vm.pt[mine], PTE_W) || Has(vm.pt[mine], PTE_COW) then Some(vm.(pt := vm.pt[yours := cow][mine := cow]))
              else Some(vm.(pt := vm.pt[yours := Pte(f, PTE_U | PTE_P | PTE_P)]))
  {
    WritableBits();
  }

  /** duppage that does not panic: the child sees the parent's page, and nobody else sees a change.
      The exception is a read-only page for which there is no table: the child does not get it. */
  lemma DupPageView(vm: Vm, parent: nat, child: nat, v: nat, short: bool)
    requires Quiet(vm) && Loc(parent, v) in vm.pt && child != parent && !Scratch(v)
    ensures var r := DupPage(vm, parent, child, v, short);
            r.Some? ==>
              && Quiet(r.value) && |r.value.mem| == |vm.mem|
              && View(r.value) == if short then View(vm) else View(vm)[Loc(child, v) := View(vm)[Loc(parent, v)]]
  {
    hide DupPage, Exclusive, View, Has;
    WritableBits();
    var (mine, yours) := (Loc(parent, v), Loc(child, v));
    if short {
      DupPageShort(vm, parent, child, v);
    } else {
      DupPageForm(vm, parent, child, v);
      var f := vm.pt[mine].frame;
      LessBits(f);
      if Has(vm.pt[mine], PTE_W) || Has(vm.pt[mine], PTE_COW) {
        SharedView(vm, mine, yours, Pte(f, PTE_COW | PTE_U | PTE_P | PTE_P));
      } else {
        SecondView(vm, mine, yours, Pte(f, PTE_U | PTE_P | PTE_P));
      }
    }
  }

  lemma DupPageShort(vm: Vm, parent: nat, child: nat, v: nat)
    requires Loc(parent, v) in vm.pt
    ensures var r := DupPage(vm, parent, child, v, true); r.Some? ==> r.value == vm
  {
  }

  lemma LessBits(f: nat)
    ensures !Has(Pte(f, PTE_COW | PTE_U | PTE_P | PTE_P), PTE_W) && !Has(Pte(f, PTE_U | PTE_P | PTE_P), PTE_W)
  {
    WritableBits();
  }

  /** Both addresses come to map the page without write permission. */
  lemma SharedView(vm: Vm, mine: Loc, yours: Loc, w: Pte)
    requires Exclusive(vm) && mine in vm.pt && mine != yours && w.frame == vm.pt[mine].frame && !Has(w, PTE_W)
    ensures var vm' := vm.(pt := vm.pt[yours := w][mine := w]);
            Exclusive(vm') && View(vm') == View(vm)[yours := View(vm)[mine]]
  {
    LoweredView(vm, mine, w);
    var vm1 := vm.(pt := vm.pt[mine := w]);
    SecondView(vm1, mine, yours, w);
    assert vm.pt[yours := w][mine := w] == vm1.pt[yours := w];
    hide Has, Exclusive;
  }

  lemma LoweredView(vm: Vm, mine: Loc, w: Pte)
    requires Exclusive(vm) && mine in vm.pt && w.frame == vm.pt[mine].frame && !Has(w, PTE_W)
    ensures var vm' := vm.(pt := vm.pt[mine := w]); Exclusive(vm') && View(vm') == View(vm)
  {
    hide Has;
  }

  /** One address more comes to map a page that nobody may write. */
  lemma SecondView(vm: Vm, mine: Loc, yours: Loc, w: Pte)
    requires Exclusive(vm) && mine in vm.pt && mine != yours && w.frame == vm.pt[mine].frame && !Has(w, PTE_W) && !Has(vm.pt[mine], PTE_W)
    ensures var vm' := vm.(pt := vm.pt[yours := w]);
            Exclusive(vm') && View(vm') == View(vm)[yours := View(vm)[mine]]
  {
    hide Has;
  }

  lemma DumbDupPageForm(vm: Vm, parent: nat, child: nat, v: nat, p: nat)
    requires Quiet(vm) && Loc(parent, v) in vm.pt && child != parent && !Scratch(v) && Fresh(vm, p)
    ensures DumbDupPage(vm, parent, child, v, p)
         == Some(Vm(vm.pt[Loc(child, v) := Pte(p, PTE_W | PTE_U | PTE_P | PTE_P)], vm.mem[p := vm.mem[vm.pt[Loc(parent, v)].frame]]))
  {
    WritableBits();
    var (mine, yours, temp) := (Loc(parent, v), Loc(child, v), Loc(parent, UTEMP));
    var w := Pte(p, PTE_W | PTE_U | PTE_P | PTE_P);
    var page := vm.mem[vm.pt[mine].frame];
    assert PTE_P | PTE_U | PTE_W | PTE_P == PTE_W | PTE_U | PTE_P | PTE_P;
    assert vm.pt[yours := w][temp := w] - {temp} == vm.pt[yours := w];
    assert vm.mem[p := ZeroBytes()][p := page] == vm.mem[p := page];
  }

  /** dumbfork's duppage gives the child exactly the same contents. */
  lemma DumbDupPageView(vm: Vm, parent: nat, child: nat, v: nat, p: nat)
    requires Quiet(vm) && Loc(parent, v) in vm.pt && child != parent && !Scratch(v) && Fresh(vm, p)
    ensures var r := DumbDupPage(vm, parent, child, v, p);
            && r.Some? && Quiet(r.value) && |r.value.mem| == |vm.mem|
            && View(r.value) == View(vm)[Loc(child, v) := View(vm)[Loc(parent, v)]]
  {
    DumbDupPageForm(vm, parent, child, v, p);
  }

  /* ---- actions ---- */

  datatype Act =
    | Read(l: Loc, off: nat)
    | Write(l: Loc, off: nat, b: bv8, p: nat)
    | Alloc(l: Loc, perm: bv12, p: nat)
    | Unmap(l: Loc)
    | Dup(parent: nat, child: nat, v: nat, short: bool)
    | Exit(e: nat)

  /** What programs keep to: the scratch pages are the library's, a page is duplicated into a child
      that has none there yet, and new pages come from the kernel's free list. */
  ghost predicate Allowed(vm: Vm, a: Act) {
    match a
    case Read(l, off) => l in vm.pt && off < PGSIZE
    case Write(l, off, _, p) => off < PGSIZE && !Scratch(l.vpn) && Fresh(vm, p)
    case Alloc(l, _, p) => !Scratch(l.vpn) && Fresh(vm, p)
    case Unmap(l) => !Scratch(l.vpn)
    case Dup(parent, child, v, _) => Loc(parent, v) in vm.pt && Loc(child, v) !in vm.pt && child != parent && v < USTACKTOP && !Scratch(v)
    case Exit(e) => true
  }

  function ExitEnv(vm: Vm, e: nat): Vm { vm.(pt := map l | l in vm.pt && l.env != e :: vm.pt[l]) }

  /** The system with copy-on-write fork; None is a panic. */
  function CowStep(vm: Vm, a: Act): Option<Vm>
    requires FramesOk(vm) && Allowed(vm, a)
  {
    match a
    case Read(_, _) => Some(vm)
    case Write(l, off, b, p) => Store(vm, l, off, b, p)
    case Alloc(l, perm, p) => Some(SysPageAlloc(vm, l, perm, p))
    case Unmap(l) => Some(SysPageUnmap(vm, l))
    case Dup(parent, child, v, short) => DupPage(vm, parent, child, v, short)
    case Exit(e) => Some(ExitEnv(vm, e))
  }

  /** The specification: every virtual page of every environment has contents of its own, and fork
      copies them. */
  function EagerStep(s: map<Loc, Page>, a: Act): map<Loc, Page>
    requires (a.Read? || a.Write?) ==> a.off < PGSIZE
  {
    match a
    case Read(_, _) => s
    case Write(l, off, b, _) => if l in s then s[l := s[l][off := b]] else s
    case Alloc(l, _, _) => s[l := ZeroBytes()]
    case Unmap(l) => s - {l}
    case Dup(parent, child, v, _) => if Loc(parent, v) in s then s[Loc(child, v) := s[Loc(parent, v)]] else s
    case Exit(e) => map l | l in s && l.env != e :: s[l]
  }

  /** Everything mapped under copy-on-write has the contents it has under eager copying. */
  ghost predicate Simulates(view: map<Loc, Page>, s: map<Loc, Page>) {
    forall l :: l in view ==> l in s && s[l] == view[l]
  }

  lemma StoreView(vm: Vm, l: Loc, off: nat, b: bv8, p: nat)
    requires Quiet(vm) && off < PGSIZE && !Scratch(l.vpn) && Fresh(vm, p)
    ensures var r := Store(vm, l, off, b, p);
            r.Some? ==> l in vm.pt && Quiet(r.value) && View(r.value) == View(vm)[l := View(vm)[l][off := b]]
  {
    if l in vm.pt && Has(vm.pt[l], PTE_W) {
      PokeView(vm, l, off, b);
    } else if l in vm.pt && Has(vm.pt[l], PTE_COW) {
      PgFaultView(vm, l, p);
      PgFaultForm(vm, l, p);
      PokeView(PgFault(vm, l, p).value, l, off, b);
    }
  }

  lemma ExitView(vm: Vm, e: nat)
    requires Quiet(vm)
    ensures Quiet(ExitEnv(vm, e)) && View(ExitEnv(vm, e)) == map l | l in View(vm) && l.env != e :: View(vm)[l]
  {
  }

  lemma ViewKeys(vm: Vm)
    requires FramesOk(vm)
    ensures forall l :: l in View(vm) <==> l in vm.pt
  {
  }

  /** One step: either a panic, or the invariant and the simulation survive. */
  lemma StepSimulates(vm: Vm, s: map<Loc, Page>, a: Act)
    requires Quiet(vm) && Allowed(vm, a) && Simulates(View(vm), s)
    ensures var r := CowStep(vm, a);
            r.Some? ==> Quiet(r.value) && Simulates(View(r.value), EagerStep(s, a))
  {
    hide Store, DupPage, ExitEnv, View;
    ViewKeys(vm);
    match a
    case Read(_, _) =>
    case Write(l, off, b, p) => StoreView(vm, l, off, b, p);
    case Alloc(l, perm, p) => AllocView(vm, l, perm, p);
    case Unmap(l) => UnmapView(vm, l);
    case Dup(parent, child, v, short) =>
      DupPageView(vm, parent, child, v, short);
      assert Loc(parent, v) in View(vm) && Loc(child, v) !in View(vm);
    case Exit(e) => ExitView(vm, e);
  }

  /** A run without panics, beside the eager run of the same actions. */
  ghost predicate Run(vms: seq<Vm>, ss: seq<map<Loc, Page>>, acts: seq<Act>) {
    && |vms| == |acts| + 1 && |ss| == |acts| + 1
    && (forall i :: 0 <= i < |acts| ==>
          && FramesOk(vms[i]) && Allowed(vms[i], acts[i])
          && CowStep(vms[i], acts[i]) == Some(vms[i + 1]) && ss[i + 1] == EagerStep(ss[i], acts[i]))
  }

  lemma {:induction false} RunSimulates(vms: seq<Vm>, ss: seq<map<Loc, Page>>, acts: seq<Act>, n: nat)
    requires Run(vms, ss, acts) && Quiet(vms[0]) && ss[0] == View(vms[0]) && n <= |acts|
    ensures Quiet(vms[n]) && Simulates(View(vms[n]), ss[n])
  {
    if n > 0 {
      RunSimulates(vms, ss, acts, n - 1);
      StepSimulates(vms[n - 1], ss[n - 1], acts[n - 1]);
    }
  }

  /** The main result: in every run without panics, over any tree of forks, every read returns what
      it would return had fork copied every page. */
  lemma EveryReadAgrees(vms: seq<Vm>, ss: seq<map<Loc, Page>>, acts: seq<Act>, n: nat)
    requires Run(vms, ss, acts) && Quiet(vms[0]) && ss[0] == View(vms[0]) && n < |acts| && acts[n].Read?
    ensures acts[n].l in ss[n] && vms[n].pt[acts[n].l].frame < |vms[n].mem|
    ensures vms[n].mem[vms[n].pt[acts[n].l].frame][acts[n].off] == ss[n][acts[n].l][acts[n].off]
  {
    RunSimulates(vms, ss, acts, n);
    assert Allowed(vms[n], acts[n]);
    assert acts[n].l in View(vms[n]);
  }
}
