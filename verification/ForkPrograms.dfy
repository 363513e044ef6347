/** fork and dumbfork as loops over an address space, and their agreement. */
module ForkPrograms {
  import opened Wrappers
  import opened Mmu
  import opened CowFork
  import opened ForkSimulation

  const UTEXT: nat := 0x800

  predicate UserPage(vm: Vm, e: nat, v: nat) { Loc(e, v) in vm.pt && Has(vm.pt[Loc(e, v)], PTE_U) }

  /** fork's loop from page v on; None is a panic of duppage.  The kernel finds no memory for the child's
      page table when it comes to the pages in short. */
  function ForkPages(vm: Vm, parent: nat, child: nat, v: nat, short: set<nat>): (r: Option<Vm>)
    requires v <= USTACKTOP
    ensures r.Some? ==> r.value.mem == vm.mem
    decreases USTACKTOP - v
  {
    if v == USTACKTOP then Some(vm)
    else if UserPage(vm, parent, v) then
      match DupPage(vm, parent, child, v, v in short)
      case None => None
      case Some(vm1) => ForkPages(vm1, parent, child, v + 1, short)
    else ForkPages(vm, parent, child, v + 1, short)
  }

  /** A page of e that must become copy-on-write, and for which there is no page table. */
  predicate Fatal(vm: Vm, e: nat, v: nat, short: set<nat>) {
    UserPage(vm, e, v) && (Has(vm.pt[Loc(e, v)], PTE_W) || Has(vm.pt[Loc(e, v)], PTE_COW)) && v in short
  }

  ghost predicate AnyFatal(vm: Vm, e: nat, v: nat, short: set<nat>) { exists u: nat :: v <= u < USTACKTOP && Fatal(vm, e, u, short) }

  /** s2 is the contents of vm with the child's pages in lo..hi that the parent has copied from the parent, but for those
      in short. */
  ghost predicate Copied(vm: Vm, s2: map<Loc, Page>, parent: nat, child: nat, lo: nat, hi: nat, short: set<nat>)
    requires FramesOk(vm)
  {
    forall l: Loc ::
      if l.env == child && lo <= l.vpn < hi && UserPage(vm, parent, l.vpn) && l.vpn !in short
      then l in s2 && s2[l] == View(vm)[Loc(parent, l.vpn)]
      else (l in s2 <==> l in View(vm)) && (l in s2 ==> s2[l] == View(vm)[l])
  }

  lemma DupOthers(vm: Vm, parent: nat, child: nat, v: nat, short: set<nat>)
    requires UserPage(vm, parent, v) && child != parent
    ensures var vm1 := DupPage(vm, parent, child, v, v in short);
            && (vm1.None? <==> Fatal(vm, parent, v, short))
            && (vm1.Some? ==> forall u: nat :: u != v ==> (UserPage(vm1.value, parent, u) <==> UserPage(vm, parent, u))
                                                          && (Fatal(vm1.value, parent, u, short) <==> Fatal(vm, parent, u, short)))
  {
    DupPageForm(vm, parent, child, v);
  }

  /** A whole fork without interruption: duppage panics exactly if for some writable or copy-on-write page
      there is no page table; and without a panic the child's copy of every user page below USTACKTOP is
      the parent's, except that a read-only page without a page table is not copied.  Nothing else
      changes. */
  lemma {:induction false} ForkPagesView(vm: Vm, parent: nat, child: nat, v: nat, short: set<nat>)
    requires Quiet(vm) && child != parent && v <= USTACKTOP
    ensures var r := ForkPages(vm, parent, child, v, short);
            && (r.None? <==> AnyFatal(vm, parent, v, short))
            && (r.Some? ==> Quiet(r.value) && FramesOk(r.value) && FramesOk(vm) && Copied(vm, View(r.value), parent, child, v, USTACKTOP, short))
    decreases USTACKTOP - v
  {
    hide *;
    QuietFrames(vm);
    if v == USTACKTOP {
      ForkPagesEnd(vm, parent, child, short);
      NoneFatal(vm, parent, short);
      CopiedNone(vm, parent, child, v, short);
    } else if UserPage(vm, parent, v) {
      UserMapped(vm, parent, v);
      ForkPagesStep(vm, parent, child, v, short);
      DupPageView(vm, parent, child, v, v in short);
      DupOthers(vm, parent, child, v, short);
      FatalHere(vm, parent, v, short);
      if !Fatal(vm, parent, v, short) {
        var vm1 := DupPage(vm, parent, child, v, v in short).value;
        QuietFrames(vm1);
        ForkPagesView(vm1, parent, child, v + 1, short);
        FatalLater(vm, vm1, parent, v, short);
        var r := ForkPages(vm1, parent, child, v + 1, short);
        if r.Some? { CopiedStep(vm, vm1, View(r.value), parent, child, v, USTACKTOP, short); }
      }
    } else {
      ForkPagesStep(vm, parent, child, v, short);
      ForkPagesView(vm, parent, child, v + 1, short);
      NotFatal(vm, parent, v, short);
      FatalLater(vm, vm, parent, v, short);
      var r := ForkPages(vm, parent, child, v + 1, short);
      if r.Some? { CopiedSkip(vm, View(r.value), parent, child, v, USTACKTOP, short); }
    }
  }

  lemma NoneFatal(vm: Vm, e: nat, short: set<nat>)
    ensures !AnyFatal(vm, e, USTACKTOP, short)
  {
  }

  lemma FatalHere(vm: Vm, e: nat, v: nat, short: set<nat>)
    ensures v < USTACKTOP && Fatal(vm, e, v, short) ==> AnyFatal(vm, e, v, short)
  {
  }

  lemma NotFatal(vm: Vm, e: nat, v: nat, short: set<nat>)
    ensures Fatal(vm, e, v, short) ==> UserPage(vm, e, v)
  {
  }

  lemma FatalLater(vm: Vm, vm1: Vm, e: nat, v: nat, short: set<nat>)
    requires !Fatal(vm, e, v, short) && forall u: nat :: u != v ==> (Fatal(vm1, e, u, short) <==> Fatal(vm, e, u, short))
    ensures AnyFatal(vm, e, v, short) <==> AnyFatal(vm1, e, v + 1, short)
  {
    hide Fatal;
    if AnyFatal(vm, e, v, short) {
      var u: nat :| v <= u < USTACKTOP && Fatal(vm, e, u, short);
      assert Fatal(vm1, e, u, short);
    }
    if AnyFatal(vm1, e, v + 1, short) {
      var u: nat :| v + 1 <= u < USTACKTOP && Fatal(vm1, e, u, short);
      assert Fatal(vm, e, u, short);
    }
  }

  lemma ForkPagesEnd(vm: Vm, parent: nat, child: nat, short: set<nat>)
    ensures ForkPages(vm, parent, child, USTACKTOP, short) == Some(vm)
  {
  }

  lemma ForkPagesStep(vm: Vm, parent: nat, child: nat, v: nat, short: set<nat>)
    requires v < USTACKTOP
    ensures !UserPage(vm, parent, v) ==> ForkPages(vm, parent, child, v, short) == ForkPages(vm, parent, child, v + 1, short)
    ensures UserPage(vm, parent, v) ==>
              Loc(parent, v) in vm.pt &&
              var d := DupPage(vm, parent, child, v, v in short);
              ForkPages(vm, parent, child, v, short) == if d.Some? then ForkPages(d.value, parent, child, v + 1, short) else None
  {
    hide DupPage;
  }

  lemma DumbPagesNext(vm: Vm, parent: nat, child: nat, v: nat, hi: nat, free: seq<nat>)
    requires FramesOk(vm) && v < hi && |free| >= hi - v && InMemory(vm, free)
    ensures free[0] < |vm.mem|
    ensures Loc(parent, v) !in vm.pt ==> DumbPages(vm, parent, child, v, hi, free).None?
    ensures Loc(parent, v) in vm.pt ==>
      var r := DumbDupPage(vm, parent, child, v, free[0]);
      if r.None? then DumbPages(vm, parent, child, v, hi, free).None?
      else FramesOk(r.value) && InMemory(r.value, free[1..])
           && DumbPages(vm, parent, child, v, hi, free) == DumbPages(r.value, parent, child, v + 1, hi, free[1..])
  {
    if Loc(parent, v) in vm.pt { DumbFrames(vm, parent, child, v, free[0]); }
    hide DumbDupPage;
  }

  lemma DumbPagesStep(vm: Vm, parent: nat, child: nat, v: nat, hi: nat, free: seq<nat>)
    requires FramesOk(vm) && v < hi && |free| >= hi - v && InMemory(vm, free) && Loc(parent, v) in vm.pt
    requires free[0] < |vm.mem| && DumbDupPage(vm, parent, child, v, free[0]).Some?
    ensures var vm1 := DumbDupPage(vm, parent, child, v, free[0]).value;
            && FramesOk(vm1) && InMemory(vm1, free[1..])
            && DumbPages(vm, parent, child, v, hi, free) == DumbPages(vm1, parent, child, v + 1, hi, free[1..])
  {
    DumbFrames(vm, parent, child, v, free[0]);
    hide DumbDupPage;
  }

  lemma DumbPagesEnd(vm: Vm, parent: nat, child: nat, v: nat, free: seq<nat>)
    requires FramesOk(vm) && InMemory(vm, free)
    ensures DumbPages(vm, parent, child, v, v, free) == Some(vm)
  {
  }

  lemma QuietFrames(vm: Vm)
    requires Quiet(vm)
    ensures FramesOk(vm)
  {
  }

  lemma UserMapped(vm: Vm, e: nat, v: nat)
    requires Quiet(vm) && UserPage(vm, e, v)
    ensures Loc(e, v) in vm.pt && !Scratch(v)
  {
  }

  lemma CopiedNone(vm: Vm, parent: nat, child: nat, v: nat, short: set<nat>)
    requires FramesOk(vm)
    ensures Copied(vm, View(vm), parent, child, v, v, short)
  {
  }

  lemma CopiedSkip(vm: Vm, s: map<Loc, Page>, parent: nat, child: nat, v: nat, hi: nat, short: set<nat>)
    requires FramesOk(vm) && v < hi && !UserPage(vm, parent, v) && Copied(vm, s, parent, child, v + 1, hi, short)
    ensures Copied(vm, s, parent, child, v, hi, short)
  {
  }

  lemma CopiedStep(vm: Vm, vm1: Vm, s: map<Loc, Page>, parent: nat, child: nat, v: nat, hi: nat, short: set<nat>)
    requires FramesOk(vm) && FramesOk(vm1) && child != parent && v < hi && UserPage(vm, parent, v)
    requires View(vm1) == if v in short then View(vm) else View(vm)[Loc(child, v) := View(vm)[Loc(parent, v)]]
    requires forall u: nat :: u != v ==> (UserPage(vm1, parent, u) <==> UserPage(vm, parent, u))
    requires Copied(vm1, s, parent, child, v + 1, hi, short)
    ensures Copied(vm, s, parent, child, v, hi, short)
  {
    forall l: Loc
      ensures if l.env == child && v <= l.vpn < hi && UserPage(vm, parent, l.vpn) && l.vpn !in short
              then l in s && s[l] == View(vm)[Loc(parent, l.vpn)]
              else (l in s <==> l in View(vm)) && (l in s ==> s[l] == View(vm)[l])
    {
    }
  }

  predicate InMemory(vm: Vm, free: seq<nat>) { forall i :: 0 <= i < |free| ==> free[i] < |vm.mem| }

  /** dumbfork's loop over pages v..hi, taking pages from the front of free. */
  function DumbPages(vm: Vm, parent: nat, child: nat, v: nat, hi: nat, free: seq<nat>): (r: Option<Vm>)
    requires FramesOk(vm) && v <= hi && |free| >= hi - v && InMemory(vm, free)
    ensures r.Some? ==> FramesOk(r.value) && |r.value.mem| == |vm.mem|
    decreases hi - v
  {
    if v == hi then Some(vm)
    else if Loc(parent, v) !in vm.pt then None
    else
      DumbFrames(vm, parent, child, v, free[0]);
      match DumbDupPage(vm, parent, child, v, free[0])
      case None => None
      case Some(vm1) => DumbPages(vm1, parent, child, v + 1, hi, free[1..])
  }

  lemma DumbFrames(vm: Vm, parent: nat, child: nat, v: nat, p: nat)
    requires FramesOk(vm) && p < |vm.mem| && Loc(parent, v) in vm.pt
    ensures var r := DumbDupPage(vm, parent, child, v, p);
            r.Some? ==> FramesOk(r.value) && |r.value.mem| == |vm.mem|
  {
  }

  /** dumbfork: the program image UTEXT..end, then the stack page it runs on. */
  function DumbForkPages(vm: Vm, parent: nat, child: nat, end: nat, stack: nat, free: seq<nat>): Option<Vm>
    requires FramesOk(vm) && UTEXT <= end && |free| > end - UTEXT && InMemory(vm, free)
  {
    match DumbPages(vm, parent, child, UTEXT, end, free)
    case None => None
    case Some(vm1) => DumbPages(vm1, parent, child, stack, stack + 1, free[end - UTEXT..])
  }

  ghost predicate FreshList(vm: Vm, free: seq<nat>) {
    && (forall i :: 0 <= i < |free| ==> Fresh(vm, free[i]))
    && (forall i, j :: 0 <= i < j < |free| ==> free[i] != free[j])
  }

  /** dumbfork's duppage uses up one free page and leaves the parent's own mappings alone. */
  lemma DumbOthers(vm: Vm, parent: nat, child: nat, v: nat, free: seq<nat>)
    requires Quiet(vm) && Loc(parent, v) in vm.pt && child != parent && !Scratch(v) && free != [] && FreshList(vm, free)
    ensures var r := DumbDupPage(vm, parent, child, v, free[0]);
            && r.Some? && FreshList(r.value, free[1..])
            && SamePages(vm, r.value, parent)
  {
    DumbDupPageForm(vm, parent, child, v, free[0]);
    var vm1 := DumbDupPage(vm, parent, child, v, free[0]).value;
    forall i | 0 <= i < |free[1..]| ensures Fresh(vm1, free[1..][i]) {
      assert free[1..][i] == free[i + 1] && Fresh(vm, free[i + 1]);
    }
  }

  lemma FreshInMemory(vm: Vm, free: seq<nat>)
    requires FreshList(vm, free)
    ensures InMemory(vm, free) && (free != [] ==> Fresh(vm, free[0]))
  {
    forall i | 0 <= i < |free| ensures free[i] < |vm.mem| { assert Fresh(vm, free[i]); }
  }

  ghost predicate SamePages(vm: Vm, vm': Vm, e: nat) { forall u: nat :: UserPage(vm', e, u) <==> UserPage(vm, e, u) }

  ghost predicate AllMapped(vm: Vm, e: nat, lo: nat, hi: nat) { forall u: nat :: lo <= u < hi ==> UserPage(vm, e, u) }

  lemma StillMapped(vm: Vm, vm1: Vm, e: nat, lo: nat, hi: nat)
    requires AllMapped(vm, e, lo, hi) && SamePages(vm, vm1, e) && lo < hi
    ensures UserPage(vm, e, lo) && AllMapped(vm1, e, lo + 1, hi)
    ensures forall u: nat :: u != lo ==> (UserPage(vm1, e, u) <==> UserPage(vm, e, u))
  {
  }

  /** An eager copy of pages v..hi, all mapped, by dumbfork's own steps. */
  lemma {:induction false} DumbPagesView(vm: Vm, parent: nat, child: nat, v: nat, hi: nat, free: seq<nat>)
    requires Quiet(vm) && child != parent && UTEXT <= v <= hi && |free| >= hi - v && FreshList(vm, free)
    requires AllMapped(vm, parent, v, hi)
    ensures InMemory(vm, free)
    ensures var r := DumbPages(vm, parent, child, v, hi, free);
            && r.Some? && Quiet(r.value) && FreshList(r.value, free[hi - v..])
            && Copied(vm, View(r.value), parent, child, v, hi, {}) && SamePages(vm, r.value, parent)
    decreases hi - v
  {
    hide *;
    QuietFrames(vm);
    FreshInMemory(vm, free);
    if v == hi {
      DumbPagesEnd(vm, parent, child, v, free);
      CopiedNone(vm, parent, child, v, {});
      assert free[0..] == free;
      SamePagesRefl(vm, parent);
    } else {
      FirstMapped(vm, parent, v, hi);
      DumbDupPageView(vm, parent, child, v, free[0]);
      DumbOthers(vm, parent, child, v, free);
      DumbPagesStep(vm, parent, child, v, hi, free);
      var vm1 := DumbDupPage(vm, parent, child, v, free[0]).value;
      StillMapped(vm, vm1, parent, v, hi);
      QuietFrames(vm1);
      DumbPagesView(vm1, parent, child, v + 1, hi, free[1..]);
      var vm2 := DumbPages(vm1, parent, child, v + 1, hi, free[1..]).value;
      assert free[1..][hi - (v + 1)..] == free[hi - v..];
      CopiedStep(vm, vm1, View(vm2), parent, child, v, hi, {});
      SamePagesTrans(vm, vm1, vm2, parent);
    }
  }

  lemma FirstMapped(vm: Vm, e: nat, lo: nat, hi: nat)
    requires Quiet(vm) && AllMapped(vm, e, lo, hi) && lo < hi
    ensures Loc(e, lo) in vm.pt && !Scratch(lo)
  {
    UserMapped(vm, e, lo);
  }

  lemma SamePagesRefl(vm: Vm, e: nat)
    ensures SamePages(vm, vm, e)
  {
  }

  lemma SamePagesTrans(a: Vm, b: Vm, c: Vm, e: nat)
    requires SamePages(a, b, e) && SamePages(b, c, e)
    ensures SamePages(a, c, e)
  {
  }

  /** fork and dumbfork leave every address space with the same contents, when the kernel has memory for
      page tables and the parent's pages are its program image UTEXT..end and the stack page it runs on,
      which is what dumbfork copies. */
  lemma ForksAgree(vm: Vm, parent: nat, child: nat, end: nat, stack: nat, free: seq<nat>)
    requires Quiet(vm) && child != parent && UTEXT <= end <= stack < USTACKTOP && FreshList(vm, free) && |free| > end - UTEXT
    requires ProgramPages(vm, parent, end, stack)
    ensures InMemory(vm, free)
    ensures var (cow, dumb) := (ForkPages(vm, parent, child, 0, {}), DumbForkPages(vm, parent, child, end, stack, free));
            && cow.Some? && dumb.Some? && FramesOk(cow.value) && FramesOk(dumb.value)
            && View(cow.value) == View(dumb.value)
  {
    hide *;
    SamePagesRefl(vm, parent);
    ImageMapped(vm, vm, parent, end, stack);
    ForkPagesView(vm, parent, child, 0, {});
    NoShortage(vm, parent, 0);
    QuietFrames(vm);
    DumbPagesView(vm, parent, child, UTEXT, end, free);
    var d1 := DumbPages(vm, parent, child, UTEXT, end, free).value;
    ImageMapped(vm, d1, parent, end, stack);
    DumbPagesView(d1, parent, child, stack, stack + 1, free[end - UTEXT..]);
    var d2 := DumbPages(d1, parent, child, stack, stack + 1, free[end - UTEXT..]).value;
    QuietFrames(d1);
    QuietFrames(d2);
    DumbForkForm(vm, parent, child, end, stack, free);
    SameCopies(vm, d1, View(d2), View(ForkPages(vm, parent, child, 0, {}).value), parent, child, end, stack);
  }

  lemma NoShortage(vm: Vm, e: nat, v: nat)
    ensures !AnyFatal(vm, e, v, {})
  {
  }

  lemma DumbForkForm(vm: Vm, parent: nat, child: nat, end: nat, stack: nat, free: seq<nat>)
    requires FramesOk(vm) && UTEXT <= end && |free| > end - UTEXT && InMemory(vm, free)
    requires DumbPages(vm, parent, child, UTEXT, end, free).Some?
    ensures InMemory(DumbPages(vm, parent, child, UTEXT, end, free).value, free[end - UTEXT..])
    ensures DumbForkPages(vm, parent, child, end, stack, free)
         == DumbPages(DumbPages(vm, parent, child, UTEXT, end, free).value, parent, child, stack, stack + 1, free[end - UTEXT..])
  {
    hide DumbPages;
  }

  ghost predicate ProgramPages(vm: Vm, e: nat, end: nat, stack: nat) {
    forall v: nat :: v < USTACKTOP ==> (UserPage(vm, e, v) <==> UTEXT <= v < end || v == stack)
  }

  lemma ImageMapped(vm: Vm, vm1: Vm, e: nat, end: nat, stack: nat)
    requires ProgramPages(vm, e, end, stack) && SamePages(vm, vm1, e) && end <= stack < USTACKTOP
    ensures AllMapped(vm1, e, UTEXT, end) && AllMapped(vm1, e, stack, stack + 1)
  {
  }

  lemma SameCopies(vm: Vm, d1: Vm, s2: map<Loc, Page>, s: map<Loc, Page>, parent: nat, child: nat, end: nat, stack: nat)
    requires FramesOk(vm) && FramesOk(d1) && child != parent && UTEXT <= end <= stack < USTACKTOP
    requires ProgramPages(vm, parent, end, stack) && SamePages(vm, d1, parent)
    requires Copied(vm, View(d1), parent, child, UTEXT, end, {}) && Copied(d1, s2, parent, child, stack, stack + 1, {})
    requires Copied(vm, s, parent, child, 0, USTACKTOP, {})
    ensures s2 == s
  {
    forall l: Loc ensures (l in s2 <==> l in s) && (l in s2 ==> s2[l] == s[l]) {
      assert UserPage(d1, parent, stack);
    }
  }
}
