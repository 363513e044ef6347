/** Copy-on-write fork (lab4/lib/fork.c) against the eager copier (lab4/user/dumbfork.c), over any
    tree of forks and any interleaving of user reads and writes. */
module CowFork {
  import opened Wrappers
  import opened Mmu

  type Page = p: seq<bv8> | |p| == PGSIZE witness seq(PGSIZE, _ => 0)

  const PTE_COW: bv12 := 0x800
  const PFTEMP: nat := 0x7ff        // virtual page numbers
  const UTEMP: nat := 0x400
  const USTACKTOP: nat := 0xeebfe
  const UXSTACK: nat := 0xeebff

  /** A virtual page of an environment. */
  datatype Loc = Loc(env: nat, vpn: nat)

  /** The page tables as the finite maps that module MemoryRuns shows them to be, and the contents of
      physical pages. */
  datatype Vm = Vm(pt: map<Loc, Pte>, mem: seq<Page>)

  predicate Has(w: Pte, bit: bv12) { w.perm & bit != 0 }

  ghost predicate FramesOk(vm: Vm) { forall l :: l in vm.pt ==> vm.pt[l].frame < |vm.mem| }

  /** No address space refers to page p, as is so of every page on the kernel's free list. */
  ghost predicate Fresh(vm: Vm, p: nat) { p < |vm.mem| && forall l :: l in vm.pt ==> vm.pt[l].frame != p }

  function ZeroBytes(): Page { seq(PGSIZE, _ => 0) }

  /* ---- the system calls ---- */

  function SysPageAlloc(vm: Vm, l: Loc, perm: bv12, p: nat): Vm
    requires p < |vm.mem|
  {
    Vm(vm.pt[l := Pte(p, perm | PTE_P)], vm.mem[p := ZeroBytes()])
  }

  /** None stands for a negative return value. */
  function SysPageMap(vm: Vm, src: Loc, dst: Loc, perm: bv12): Option<Vm> {
    if src !in vm.pt then None
    else if perm & (PTE_U | PTE_P) != PTE_U | PTE_P then None
    else if !Has(vm.pt[src], PTE_W) && perm & PTE_W != 0 then None
    else Some(vm.(pt := vm.pt[dst := Pte(vm.pt[src].frame, perm | PTE_P)]))
  }

  function SysPageUnmap(vm: Vm, l: Loc): Vm { vm.(pt := vm.pt - {l}) }

  /** memcpy of a whole page between two mapped addresses. */
  function CopyPage(vm: Vm, dst: Loc, src: Loc): Vm
    requires FramesOk(vm) && dst in vm.pt && src in vm.pt
  {
    vm.(mem := vm.mem[vm.pt[dst].frame := vm.mem[vm.pt[src].frame]])
  }

  /* ---- lib/fork.c ---- */

  /** pgfault for a write to l, with the page p that sys_page_alloc finds; None is a panic. */
  function PgFault(vm: Vm, l: Loc, p: nat): Option<Vm>
    requires FramesOk(vm) && p < |vm.mem|
  {
    if !(l in vm.pt && Has(vm.pt[l], PTE_COW)) then None
    else
      var temp := Loc(l.env, PFTEMP);
      var vm1 := SysPageAlloc(vm, temp, PTE_W | PTE_U | PTE_P, p);
      if l !in vm1.pt then None
      else
        var vm2 := CopyPage(vm1, temp, l);
        match SysPageMap(vm2, temp, l, PTE_W | PTE_U | PTE_P)
        case None => None
        case Some(vm3) => Some(SysPageUnmap(vm3, temp))
  }

  /** duppage.  short says that the kernel cannot find memory for the child's page table: fatal for a
      writable or copy-on-write page, ignored for a read-only one. */
  function DupPage(vm: Vm, parent: nat, child: nat, v: nat, short: bool): Option<Vm>
    requires Loc(parent, v) in vm.pt
  {
    var (mine, yours) := (Loc(parent, v), Loc(child, v));
    if Has(vm.pt[mine], PTE_W) || Has(vm.pt[mine], PTE_COW) then
      if short then None
      else
        match SysPageMap(vm, mine, yours, PTE_COW | PTE_U | PTE_P)
        case None => None
        case Some(vm1) => SysPageMap(vm1, mine, mine, PTE_COW | PTE_U | PTE_P)
    else
      if short then Some(vm)
      else
        match SysPageMap(vm, mine, yours, PTE_U | PTE_P)
        case None => Some(vm)
        case Some(vm1) => Some(vm1)
  }

  /** A user store: straight through a writable mapping, after pgfault otherwise. */
  function Store(vm: Vm, l: Loc, off: nat, b: bv8, p: nat): Option<Vm>
    requires FramesOk(vm) && off < PGSIZE && p < |vm.mem|
  {
    if l in vm.pt && Has(vm.pt[l], PTE_W) then Some(Poke(vm, l, off, b))
    else
      match PgFault(vm, l, p)
      case None => None
      case Some(vm1) => if l in vm1.pt && vm1.pt[l].frame < |vm1.mem| then Some(Poke(vm1, l, off, b)) else None
  }

  function Poke(vm: Vm, l: Loc, off: nat, b: bv8): Vm
    requires l in vm.pt && vm.pt[l].frame < |vm.mem| && off < PGSIZE
  {
    var f := vm.pt[l].frame;
    vm.(mem := vm.mem[f := vm.mem[f][off := b]])
  }

  /* ---- user/dumbfork.c ---- */

  /** dumbfork's duppage: a page of its own for the child, filled through UTEMP. */
  function DumbDupPage(vm: Vm, parent: nat, child: nat, v: nat, p: nat): Option<Vm>
    requires FramesOk(vm) && p < |vm.mem| && Loc(parent, v) in vm.pt
  {
    var (mine, yours, temp) := (Loc(parent, v), Loc(child, v), Loc(parent, UTEMP));
    var vm1 := SysPageAlloc(vm, yours, PTE_P | PTE_U | PTE_W, p);
    match SysPageMap(vm1, yours, temp, PTE_P | PTE_U | PTE_W)
    case None => None
    case Some(vm2) => if mine in vm2.pt then Some(SysPageUnmap(CopyPage(vm2, temp, mine), temp)) else None
  }

  /* ---- what programs see ---- */

  /** The contents of every mapped virtual page. */
  ghost function View(vm: Vm): map<Loc, Page>
    requires FramesOk(vm)
  {
    map l | l in vm.pt :: vm.mem[vm.pt[l].frame]
  }

  /** The invariant of copy-on-write: a page with a writable mapping has no other mapping. */
  ghost predicate Exclusive(vm: Vm) {
    && FramesOk(vm)
    && (forall l, x :: l in vm.pt && x in vm.pt && l != x && Has(vm.pt[l], PTE_W) ==> vm.pt[l].frame != vm.pt[x].frame)
  }

  ghost predicate Reserved(vm: Vm, v: nat) { forall e: nat :: Loc(e, v) !in vm.pt }

  lemma AllocView(vm: Vm, l: Loc, perm: bv12, p: nat)
    requires Exclusive(vm) && Fresh(vm, p)
    ensures Exclusive(SysPageAlloc(vm, l, perm, p))
    ensures View(SysPageAlloc(vm, l, perm, p)) == View(vm)[l := ZeroBytes()]
  {
  }

  lemma UnmapView(vm: Vm, l: Loc)
    requires FramesOk(vm)
    ensures FramesOk(SysPageUnmap(vm, l)) && View(SysPageUnmap(vm, l)) == View(vm) - {l}
    ensures Exclusive(vm) ==> Exclusive(SysPageUnmap(vm, l))
  {
  }

  /** A store through a writable mapping is seen at that address only. */
  lemma PokeView(vm: Vm, l: Loc, off: nat, b: bv8)
    requires Exclusive(vm) && l in vm.pt && Has(vm.pt[l], PTE_W) && off < PGSIZE
    ensures Exclusive(Poke(vm, l, off, b))
    ensures View(Poke(vm, l, off, b)) == View(vm)[l := View(vm)[l][off := b]]
  {
    assert forall x :: x in vm.pt && x != l ==> vm.pt[x].frame != vm.pt[l].frame;
    hide Has;
  }

  lemma WritableBits()
    ensures (PTE_W | PTE_U | PTE_P) & (PTE_U | PTE_P) == PTE_U | PTE_P
    ensures (PTE_COW | PTE_U | PTE_P) & (PTE_U | PTE_P) == PTE_U | PTE_P
    ensures (PTE_U | PTE_P) & (PTE_U | PTE_P) == PTE_U | PTE_P
    ensures (PTE_W | PTE_U | PTE_P | PTE_P) & PTE_W != 0
    ensures (PTE_COW | PTE_U | PTE_P) & PTE_W == 0 && (PTE_COW | PTE_U | PTE_P | PTE_P) & PTE_W == 0
    ensures (PTE_U | PTE_P) & PTE_W == 0 && (PTE_U | PTE_P | PTE_P) & PTE_W == 0
  {
  }

  /** pgfault leaves a private writable copy at l and changes no contents anywhere. */
  lemma PgFaultForm(vm: Vm, l: Loc, p: nat)
    requires Exclusive(vm) && Fresh(vm, p) && Reserved(vm, PFTEMP) && l in vm.pt && Has(vm.pt[l], PTE_COW) && l.vpn != PFTEMP
    ensures PgFault(vm, l, p) == Some(Vm(vm.pt[l := Pte(p, PTE_W | PTE_U | PTE_P | PTE_P)], vm.mem[p := vm.mem[vm.pt[l].frame]]))
  {
    WritableBits();
    var temp := Loc(l.env, PFTEMP);
    var w := Pte(p, PTE_W | PTE_U | PTE_P | PTE_P);
    assert vm.mem[p := ZeroBytes()][p := vm.mem[vm.pt[l].frame]] == vm.mem[p := vm.mem[vm.pt[l].frame]];
    assert vm.pt[temp := w][l := w] - {temp} == vm.pt[l := w];
  }

  lemma PgFaultView(vm: Vm, l: Loc, p: nat)
    requires Exclusive(vm) && Fresh(vm, p) && Reserved(vm, PFTEMP) && l in vm.pt && Has(vm.pt[l], PTE_COW) && l.vpn != PFTEMP
    ensures PgFault(vm, l, p).Some?
    ensures var vm' := PgFault(vm, l, p).value;
            && Exclusive(vm') && Reserved(vm', PFTEMP) && View(vm') == View(vm)
            && l in vm'.pt && Has(vm'.pt[l], PTE_W) && |vm'.mem| == |vm.mem|
  {
    WritableBits();
    PgFaultForm(vm, l, p);
    MovedView(vm, l, Pte(p, PTE_W | PTE_U | PTE_P | PTE_P));
    hide PgFault, Exclusive, View, Fresh;
  }

  /** A page is moved to one that nobody uses. */
  lemma MovedView(vm: Vm, l: Loc, w: Pte)
    requires Exclusive(vm) && Fresh(vm, w.frame) && Reserved(vm, PFTEMP) && l in vm.pt && l.vpn != PFTEMP
    ensures var vm' := Vm(vm.pt[l := w], vm.mem[w.frame := vm.mem[vm.pt[l].frame]]);
            Exclusive(vm') && Reserved(vm', PFTEMP) && View(vm') == View(vm)
  {
    hide Has;
    var vm' := Vm(vm.pt[l := w], vm.mem[w.frame := vm.mem[vm.pt[l].frame]]);
    assert forall x :: x in vm.pt && x != l ==> vm'.pt[x] == vm.pt[x] && vm.pt[x].frame != w.frame;
    assert View(vm') == View(vm) by { hide Exclusive, Reserved; }
  }
}
