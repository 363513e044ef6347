/** The user-level fork library as it runs: system calls that change mappings and page contents. */
module UserMemory {
  import opened Wrappers
  import opened Mmu
  import opened CowFork
  import opened ForkSimulation
  import opened ForkPrograms

  class UserMemory {
    const mem: array<Page>
    var pt: map<Loc, Pte>
    var free: seq<nat>      // the kernel's free pages, next one first

    ghost function State(): Vm
      reads this, mem
    {
      Vm(pt, mem[..])
    }

    ghost predicate Valid()
      reads this, mem
    {
      FramesOk(State()) && InMemory(State(), free)
    }

    /** false stands for -E_NO_MEM. */
    method SysPageAlloc(l: Loc, perm: bv12) returns (ok: bool)
      requires Valid()
      modifies this, mem
      ensures Valid() && ok == (old(free) != [])
      ensures if ok then State() == CowFork.SysPageAlloc(old(State()), l, perm, old(free[0])) && free == old(free[1..])
              else State() == old(State()) && free == old(free)
    {
      if free == [] { return false; }
      var p := free[0];
      free := free[1..];
      mem[p] := ZeroBytes();
      pt := pt[l := Pte(p, perm | PTE_P)];
      ok := true;
    }

    method SysPageMap(src: Loc, dst: Loc, perm: bv12) returns (ok: bool)
      requires Valid()
      modifies this
      ensures Valid() && free == old(free)
      ensures if ok then CowFork.SysPageMap(old(State()), src, dst, perm) == Some(State())
              else CowFork.SysPageMap(old(State()), src, dst, perm).None? && State() == old(State())
    {
      if src !in pt { return false; }
      if perm & (PTE_U | PTE_P) != PTE_U | PTE_P { return false; }
      if pt[src].perm & PTE_W == 0 && perm & PTE_W != 0 { return false; }
      pt := pt[dst := Pte(pt[src].frame, perm | PTE_P)];
      ok := true;
    }

    method SysPageUnmap(l: Loc)
      requires Valid()
      modifies this
      ensures Valid() && free == old(free) && State() == CowFork.SysPageUnmap(old(State()), l)
    {
      pt := pt - {l};
    }

    method Memmove(dst: Loc, src: Loc)
      requires Valid() && dst in pt && src in pt
      modifies mem
      ensures Valid() && State() == CopyPage(old(State()), dst, src)
    {
      mem[pt[dst].frame] := mem[pt[src].frame];
    }

    /** lib/fork.c: pgfault; false is a panic. */
    method PgFault(l: Loc) returns (ok: bool)
      requires Valid() && l.vpn != PFTEMP
      modifies this, mem
      ensures Valid()
      ensures ok ==> old(free) != [] && CowFork.PgFault(old(State()), l, old(free[0])) == Some(State())
      ensures !ok ==> old(free) == [] || CowFork.PgFault(old(State()), l, old(free[0])).None?
    {
      if !(l in pt && Has(pt[l], PTE_COW)) { return false; }
      var temp := Loc(l.env, PFTEMP);
      ok := SysPageAlloc(temp, PTE_W | PTE_U | PTE_P);
      if !ok { return; }
      Memmove(temp, l);
      ok := SysPageMap(temp, l, PTE_W | PTE_U | PTE_P);
      if !ok { return; }
      SysPageUnmap(temp);
    }

    /** A user store of one byte, with the page fault it may cause; false is a panic of pgfault. */
    method Store(l: Loc, off: nat, b: bv8) returns (ok: bool)
      requires Valid() && off < PGSIZE && l.vpn != PFTEMP
      modifies this, mem
      ensures Valid()
      ensures ok ==> mem.Length > 0 && CowFork.Store(old(State()), l, off, b, NextFree(old(free))) == Some(State())
      ensures !ok ==> old(!(l in pt && Has(pt[l], PTE_W)))
      ensures !ok ==> old(free) == [] || CowFork.Store(old(State()), l, off, b, old(free[0])).None?
    {
      ok := true;
      if !(l in pt && Has(pt[l], PTE_W)) {
        ok := PgFault(l);
        if !ok { return; }
      }
      if l !in pt { return false; }
      mem[pt[l].frame] := mem[pt[l].frame][off := b];
    }

    /** lib/fork.c: duppage; short says that the kernel has no memory for the child's page table. */
    method DupPage(parent: nat, child: nat, v: nat, short: bool) returns (ok: bool)
      requires Valid() && Loc(parent, v) in pt
      modifies this
      ensures Valid() && free == old(free)
      ensures ok == CowFork.DupPage(old(State()), parent, child, v, short).Some?
      ensures ok ==> CowFork.DupPage(old(State()), parent, child, v, short) == Some(State())
    {
      var (mine, yours) := (Loc(parent, v), Loc(child, v));
      ok := true;
      if Has(pt[mine], PTE_W) || Has(pt[mine], PTE_COW) {
        if short { return false; }
        ok := SysPageMap(mine, yours, PTE_COW | PTE_U | PTE_P);
        if !ok { return; }
        ok := SysPageMap(mine, mine, PTE_COW | PTE_U | PTE_P);
      } else if !short {
        var _ := SysPageMap(mine, yours, PTE_U | PTE_P);
      }
    }

    /** fork in the parent, from sys_exofork's return to the child's exception stack: it fails only
        where duppage panics or for want of that page. */
    method Fork(parent: nat, child: nat, short: set<nat>) returns (ok: bool)
      requires Valid() && Quiet(State()) && child != parent
      modifies this, mem
      ensures Valid() && ok == (old(free) != [] && !AnyFatal(old(State()), parent, 0, short))
      ensures var r := ForkPages(old(State()), parent, child, 0, short);
              ok ==> r.Some? && State() == CowFork.SysPageAlloc(r.value, Loc(child, UXSTACK), PTE_U | PTE_W | PTE_P, old(free[0]))
    {
      ForkPagesView(State(), parent, child, 0, short);
      var v := 0;
      while v < USTACKTOP
        invariant v <= USTACKTOP && Valid() && free == old(free)
        invariant ForkPages(old(State()), parent, child, 0, short) == ForkPages(State(), parent, child, v, short)
      {
        if Loc(parent, v) in pt && Has(pt[Loc(parent, v)], PTE_U) {
          ok := DupPage(parent, child, v, v in short);
          if !ok { return; }
        }
        v := v + 1;
      }
      ok := SysPageAlloc(Loc(child, UXSTACK), PTE_U | PTE_W | PTE_P);
    }

    /** user/dumbfork.c: duppage. */
    method DumbDupPage(parent: nat, child: nat, v: nat) returns (ok: bool)
      requires Valid() && Loc(parent, v) in pt && free != []
      modifies this, mem
      ensures Valid() && free == old(free[1..])
      ensures ok == CowFork.DumbDupPage(old(State()), parent, child, v, old(free[0])).Some?
      ensures ok ==> CowFork.DumbDupPage(old(State()), parent, child, v, old(free[0])) == Some(State())
    {
      var (mine, yours, temp) := (Loc(parent, v), Loc(child, v), Loc(parent, UTEMP));
      ok := SysPageAlloc(yours, PTE_P | PTE_U | PTE_W);
      ok := SysPageMap(yours, temp, PTE_P | PTE_U | PTE_W);
      if !ok { return; }
      if mine !in pt { return false; }
      Memmove(temp, mine);
      SysPageUnmap(temp);
    }

    /** One of dumbfork's copies: pages v0..hi. */
    method DumbCopy(parent: nat, child: nat, v0: nat, hi: nat) returns (ok: bool)
      requires Valid() && v0 <= hi && |free| >= hi - v0
      modifies this, mem
      ensures Valid()
      ensures ok ==> DumbPages(old(State()), parent, child, v0, hi, old(free)) == Some(State()) && free == old(free)[hi - v0..]
      ensures !ok ==> DumbPages(old(State()), parent, child, v0, hi, old(free)).None?
    {
      hide CowFork.DumbDupPage, FramesOk, InMemory, DumbPages;
      var v := v0;
      while v < hi
        invariant v0 <= v <= hi && Valid() && free == old(free)[v - v0..]
        invariant DumbPages(old(State()), parent, child, v0, hi, old(free)) == DumbPages(State(), parent, child, v, hi, free)
      {
        DumbPagesNext(State(), parent, child, v, hi, free);
        assert old(free)[v - v0..][1..] == old(free)[v + 1 - v0..];
        if Loc(parent, v) !in pt { return false; }
        ok := DumbDupPage(parent, child, v);
        if !ok { return; }
        v := v + 1;
      }
      DumbPagesEnd(State(), parent, child, hi, free);
      ok := true;
    }

    /** user/dumbfork.c: dumbfork in the parent. */
    method DumbFork(parent: nat, child: nat, end: nat, stack: nat) returns (ok: bool)
      requires Valid() && UTEXT <= end && |free| > end - UTEXT
      modifies this, mem
      ensures Valid()
      ensures ok ==> DumbForkPages(old(State()), parent, child, end, stack, old(free)) == Some(State())
      ensures !ok ==> DumbForkPages(old(State()), parent, child, end, stack, old(free)).None?
    {
      ok := DumbCopy(parent, child, UTEXT, end);
      if !ok { return; }
      ok := DumbCopy(parent, child, stack, stack + 1);
    }
  }

  function NextFree(free: seq<nat>): nat { if free == [] then 0 else free[0] }
}
