/** References, reference counts and the free list: the invariant that every routine of
    lab4/kern/pmap.c and every address space of lab4/kern/env.c keeps. */
module PageAccounting {
  import opened Mmu
  import opened PageTables

  /** The places that can refer to a physical page: the env_pgdir of an owner, a directory entry
      (which names a page table) and a page-table entry below UTOP (which maps a user page). */
  datatype Ref = DirRef(e: int) | TableRef(e: int, d: nat) | UserRef(e: int, d: nat, t: nat)

  /** Directory entries that own a page table: user entries of an environment; all of kern_pgdir
      but the self-map. */
  predicate Owns(e: int, d: nat) { d < NENTRIES && d != UVPT_INDEX && (e == KERN || d < NUSER) }

  /** Word i of page p, zero unless it is there with its present bit set. */
  function WordAt(m: Mem, p: nat, i: nat): Pte {
    if p < |m.frames| && i < |m.frames[p]| && Present(m.frames[p][i]) then m.frames[p][i] else ZERO_PTE
  }

  function DirWord(m: Mem, e: int): Pte {
    if e in m.pgdirs then Pte(m.pgdirs[e], PTE_P) else ZERO_PTE
  }

  function TableWord(m: Mem, e: int, d: nat): Pte {
    if Owns(e, d) && e in m.pgdirs then WordAt(m, m.pgdirs[e], d) else ZERO_PTE
  }

  function PageWord(m: Mem, e: int, d: nat, t: nat): Pte {
    var w := TableWord(m, e, d);
    if Present(w) then WordAt(m, w.frame, t) else ZERO_PTE
  }

  /** The live word stored at a place; zero where there is none. */
  function Word(m: Mem, r: Ref): Pte {
    match r
    case DirRef(e) => DirWord(m, e)
    case TableRef(e, d) => TableWord(m, e, d)
    case UserRef(e, d, t) => PageWord(m, e, d, t)
  }

  /** The page a place refers to, or -1.  Mappings made by boot_map_region in kern_pgdir's tables
      are not counted references. */
  function Target(m: Mem, r: Ref): int {
    var w := Word(m, r);
    if Present(w) && !(r.UserRef? && r.e == KERN) then w.frame else -1
  }

  ghost predicate AreRefs(m: Mem, p: nat, s: set<Ref>) { forall r :: r in s <==> Target(m, r) == p }

  /** Only finitely many places exist. */
  lemma RefsExist(m: Mem, p: nat)
    requires Shape(m)
    ensures exists s :: AreRefs(m, p, s)
  {
    var all := (set e | e in m.pgdirs :: DirRef(e))
      + (set e, d: nat | e in m.pgdirs && 0 <= d < NENTRIES :: TableRef(e, d))
      + (set e, d: nat, t: nat | e in m.pgdirs && 0 <= d < NENTRIES && 0 <= t < NENTRIES :: UserRef(e, d, t));
    var s := set r | r in all && Target(m, r) == p;
    assert AreRefs(m, p, s);
  }

  /** All live references to page p. */
  ghost function Refs(m: Mem, p: nat): (s: set<Ref>)
    requires Shape(m)
    ensures forall r :: r in s <==> Target(m, r) == p
  {
    RefsExist(m, p);
    var s :| AreRefs(m, p, s);
    s
  }

  ghost predicate FreeListOk(m: Mem) {
    && (forall i, j :: 0 <= i < j < |m.free| ==> m.free[i] != m.free[j])
    && (forall p :: p in m.free ==> p !in m.reserved)
  }

  /** No referenced page is free, and directories and page tables are never shared nor mapped. */
  ghost predicate Separated(m: Mem) {
    && (forall r :: Target(m, r) >= 0 ==>
          && Target(m, r) < |m.frames| && Target(m, r) !in m.free
          && (Target(m, r) in m.reserved <==> r == DirRef(KERN)))
    && (forall r1, r2 :: Target(m, r1) == Target(m, r2) >= 0 ==> r1 == r2 || (r1.UserRef? && r2.UserRef?))
  }

  /** Every directory maps itself at UVPT and agrees with kern_pgdir on the rest above UTOP;
      kern_pgdir is empty below UTOP. */
  ghost predicate UpperOk(m: Mem)
    requires Shape(m)
  {
    && KERN in m.pgdirs && m.pgdirs[KERN] < |m.frames|
    && (forall e :: e in m.pgdirs ==>
          && m.pgdirs[e] < |m.frames|
          && m.frames[m.pgdirs[e]][UVPT_INDEX] == Pte(m.pgdirs[e], PTE_P | PTE_U)
          && (forall d: nat :: NUSER <= d < NENTRIES && d != UVPT_INDEX ==>
                m.frames[m.pgdirs[e]][d] == m.frames[m.pgdirs[KERN]][d]))
    && (forall d: nat :: d < NUSER ==> Target(m, TableRef(KERN, d)) < 0)
  }

  ghost predicate Core(m: Mem) { Shape(m) && FreeListOk(m) && Separated(m) && UpperOk(m) }

  /** Counts and the free list against references.  Page h (if any) is in the kernel's hand: off the
      free list, with c references not yet stored anywhere.  A count is never below the references;
      when exact is set it equals them and the unreferenced managed pages are exactly the free ones. */
  ghost predicate Acct(m: Mem, h: int, c: nat, exact: bool)
    requires Shape(m)
  {
    && h !in m.free
    && (forall p: nat :: p < |m.ref| && p !in m.reserved ==>
          && m.ref[p] >= |Refs(m, p)| + (if p == h then c else 0)
          && (exact ==> m.ref[p] == |Refs(m, p)| + (if p == h then c else 0))
          && (exact ==> (p in m.free <==> Refs(m, p) == {} && p != h)))
  }

  /** A state between system calls. */
  ghost predicate Safe(m: Mem, exact: bool) { Core(m) && Acct(m, -1, 0, exact) }

  /* ---- how one changed place changes the references ---- */

  /** Every place but r0 holds the same live word. */
  ghost predicate Same(m: Mem, m': Mem, r0: Ref) {
    forall r :: r != r0 ==> Word(m', r) == Word(m, r) && Target(m', r) == Target(m, r)
  }

  ghost predicate SameAll(m: Mem, m': Mem) {
    forall r :: Word(m', r) == Word(m, r) && Target(m', r) == Target(m, r)
  }

  lemma SetsDifferAt<T>(a: set<T>, b: set<T>, x: T)
    requires forall y :: y != x ==> (y in a <==> y in b)
    ensures b == a - {x} + (if x in b then {x} else {})
    ensures |b| == |a| - (if x in a then 1 else 0) + (if x in b then 1 else 0)
  {
    assert b - {x} == a - {x};
    SplitAt(a, x);
    SplitAt(b, x);
  }

  lemma SplitAt<T>(a: set<T>, x: T)
    ensures a == a - {x} + (if x in a then {x} else {}) && |a| == |a - {x}| + (if x in a then 1 else 0)
  {
    if x !in a { assert a - {x} == a; }
  }

  lemma RefsChange(m: Mem, m': Mem, r0: Ref, p: nat)
    requires Shape(m) && Shape(m') && Same(m, m', r0)
    ensures Refs(m', p) == Refs(m, p) - {r0} + (if Target(m', r0) == p then {r0} else {})
    ensures |Refs(m', p)| == |Refs(m, p)| - (if Target(m, r0) == p then 1 else 0) + (if Target(m', r0) == p then 1 else 0)
  {
    SetsDifferAt(Refs(m, p), Refs(m', p), r0);
  }

  lemma RefsSame(m: Mem, m': Mem)
    requires Shape(m) && Shape(m') && forall r :: Target(m', r) == Target(m, r)
    ensures forall p: nat :: Refs(m', p) == Refs(m, p)
  {
    forall p: nat ensures Refs(m', p) == Refs(m, p) {
      assert forall r :: r in Refs(m', p) <==> r in Refs(m, p);
    }
  }

  /* ---- taking and dropping counted references ---- */

  lemma IncRefKeeps(m: Mem, p: nat, c: nat, exact: bool)
    requires Core(m) && p < |m.ref| && p !in m.reserved && m.ref[p] < REF_MOD - 1
    requires Acct(m, p, c, exact)
    ensures Core(IncRef(m, p)) && Acct(IncRef(m, p), p, c + 1, exact)
    ensures SameAll(m, IncRef(m, p))
  {
    var m' := IncRef(m, p);
    CountsOnly(m, m'.ref);
    RefsSame(m, m');
    hide Word, Target, Refs, Separated, UpperOk, FreeListOk;
  }

  /** Giving back a page that nothing refers to. */
  lemma PageFreeCore(m: Mem, p: nat)
    requires Core(m) && p < |m.ref| && p !in m.reserved && p !in m.free
    requires forall r :: Target(m, r) != p
    ensures Core(PageFree(m, p))
    ensures SameAll(m, PageFree(m, p))
  {
    var m' := PageFree(m, p);
    assert SameAll(m, m');
    assert m'.free[0] == p && m'.free[1..] == m.free;
    assert forall q :: q in m'.free <==> q == p || q in m.free;
    assert Separated(m') by { hide FreeListOk, UpperOk, Word; }
    assert FreeListOk(m') by { hide Separated, UpperOk, Word, Target; }
    assert UpperOk(m') by { hide Separated, FreeListOk; }
    hide Separated, FreeListOk, UpperOk, Word, Target;
  }

  lemma PageFreeKeeps(m: Mem, p: nat, exact: bool)
    requires Core(m) && p < |m.ref| && p !in m.reserved && p !in m.free
    requires forall r :: Target(m, r) != p
    requires Acct(m, p, 0, exact)
    ensures Safe(PageFree(m, p), exact)
  {
    PageFreeCore(m, p);
    RefsSame(m, PageFree(m, p));
    assert forall q :: q in PageFree(m, p).free <==> q == p || q in m.free;
  }

  /** Counts play no part in the structural invariant. */
  lemma CountsOnly(m: Mem, ref: seq<nat>)
    requires Core(m) && |ref| == |m.ref| && forall p :: 0 <= p < |ref| ==> ref[p] < REF_MOD
    ensures Core(m.(ref := ref))
    ensures SameAll(m, m.(ref := ref))
  {
    var m' := m.(ref := ref);
    assert SameAll(m, m');
    assert Separated(m') by { hide FreeListOk, UpperOk, Word; }
    assert UpperOk(m') by { hide Separated, FreeListOk; }
    hide Separated, UpperOk, Word, Target;
  }

  lemma DecrefCore(m: Mem, p: nat)
    requires Core(m) && p < |m.ref| && p !in m.reserved && m.ref[p] >= 1
    requires m.ref[p] == 1 ==> p !in m.free && forall r :: Target(m, r) != p
    ensures Core(PageDecref(m, p))
    ensures SameAll(m, PageDecref(m, p))
  {
    CountsOnly(m, m.ref[p := m.ref[p] - 1]);
    if m.ref[p] == 1 { PageFreeCore(m.(ref := m.ref[p := m.ref[p] - 1]), p); }
  }

  /* ---- changing one entry of one table ---- */

  /** A page table is no directory, and serves one directory entry. */
  lemma TableNotDir(m: Mem, e: int, d: nat, e': int)
    requires Core(m) && Target(m, TableRef(e, d)) >= 0 && e' in m.pgdirs
    ensures m.pgdirs[e'] != Target(m, TableRef(e, d))
  {
    assert Target(m, DirRef(e')) == m.pgdirs[e'];
    hide FreeListOk;
  }

  lemma TableOnce(m: Mem, e: int, d: nat, e': int, d': nat)
    requires Core(m) && Target(m, TableRef(e, d)) == Target(m, TableRef(e', d')) >= 0
    ensures e' == e && d' == d
  {
    hide FreeListOk, UpperOk, Word, Target;
    assert TableRef(e, d) == TableRef(e', d');
  }

  lemma SetWordAt(m: Mem, p: nat, i: nat, w: Pte, q: nat, j: nat)
    requires p < |m.frames| && i < |m.frames[p]|
    ensures WordAt(SetEntry(m, p, i, w), q, j) == if q == p && j == i then (if Present(w) then w else ZERO_PTE) else WordAt(m, q, j)
  {
  }

  /** The words after a store into a page table. */
  lemma SetLeafWord(m: Mem, e: int, d: nat, t: nat, w: Pte, r: Ref)
    requires Core(m) && Target(m, TableRef(e, d)) >= 0 && t < NENTRIES
    ensures Target(m, TableRef(e, d)) < |m.frames|
    ensures Word(SetEntry(m, Target(m, TableRef(e, d)), t, w), r)
         == if r == UserRef(e, d, t) then (if Present(w) then w else ZERO_PTE) else Word(m, r)
  {
    var tp := Target(m, TableRef(e, d));
    assert tp < |m.frames|;
    if (r.TableRef? || r.UserRef?) && r.e in m.pgdirs {
      TableNotDir(m, e, d, r.e);
      SetWordAt(m, tp, t, w, m.pgdirs[r.e], r.d);
      var table := TableWord(m, r.e, r.d);
      if r.UserRef? && Present(table) {
        if table.frame == tp { TableOnce(m, e, d, r.e, r.d); }
        SetWordAt(m, tp, t, w, table.frame, r.t);
      }
    }
    hide FreeListOk, Separated, UpperOk, WordAt, SetEntry;
  }

  /** Storing into the slot for page (d, t) of an owner. */
  lemma SetLeaf(m: Mem, e: int, d: nat, t: nat, w: Pte)
    requires Core(m) && Target(m, TableRef(e, d)) >= 0 && t < NENTRIES
    ensures Target(m, TableRef(e, d)) < |m.frames|
    ensures var m' := SetEntry(m, Target(m, TableRef(e, d)), t, w);
            && Shape(m') && UpperOk(m') && Same(m, m', UserRef(e, d, t))
            && Word(m', UserRef(e, d, t)) == (if Present(w) then w else ZERO_PTE)
  {
    var tp := Target(m, TableRef(e, d));
    SetLeafWord(m, e, d, t, w, UserRef(e, d, t));
    var m' := SetEntry(m, tp, t, w);
    forall r | r != UserRef(e, d, t) ensures Word(m', r) == Word(m, r) { SetLeafWord(m, e, d, t, w, r); }
    forall e' | e' in m.pgdirs ensures m'.frames[m.pgdirs[e']] == m.frames[m.pgdirs[e']] { TableNotDir(m, e, d, e'); }
    hide FreeListOk, Separated, Word;
  }

  /** Storing into directory entry d of owner e, none of whose pages is mapped before or after. */
  lemma SetTable(m: Mem, e: int, d: nat, w: Pte)
    requires Core(m) && e in m.pgdirs && Owns(e, d)
    requires e == KERN ==> d >= NUSER && m.pgdirs.Keys == {KERN}
    requires forall t: nat :: Word(m, UserRef(e, d, t)) == ZERO_PTE
    requires Present(w) ==> w.frame < |m.frames| && m.frames[w.frame] == ZeroPage() && (forall r :: Target(m, r) != w.frame)
    ensures m.pgdirs[e] < |m.frames|
    ensures var m' := SetEntry(m, m.pgdirs[e], d, w);
            && Shape(m') && UpperOk(m') && Same(m, m', TableRef(e, d))
            && Word(m', TableRef(e, d)) == (if Present(w) then w else ZERO_PTE)
  {
    var m' := SetEntry(m, m.pgdirs[e], d, w);
    OtherDirs(m, e, d, w);
    forall r | r != TableRef(e, d) ensures Word(m', r) == Word(m, r) { OtherWords(m, e, d, w, r); }
    hide FreeListOk, Separated;
  }

  lemma OtherWords(m: Mem, e: int, d: nat, w: Pte, r: Ref)
    requires Core(m) && e in m.pgdirs && Owns(e, d) && r != TableRef(e, d)
    requires e == KERN ==> d >= NUSER && m.pgdirs.Keys == {KERN}
    requires forall t: nat :: Word(m, UserRef(e, d, t)) == ZERO_PTE
    requires Present(w) ==> w.frame < |m.frames| && m.frames[w.frame] == ZeroPage() && (forall x :: Target(m, x) != w.frame)
    ensures m.pgdirs[e] < |m.frames| && Word(SetEntry(m, m.pgdirs[e], d, w), r) == Word(m, r)
  {
    OtherDirs(m, e, d, w);
    var p := m.pgdirs[e];
    if (r.TableRef? || r.UserRef?) && r.e in m.pgdirs {
      if r.e != e { DirsDiffer(m, e, r.e); }
      SetWordAt(m, p, d, w, m.pgdirs[r.e], r.d);
      if r.UserRef? {
        if r.e == e && r.d == d {
          assert Word(m, r) == ZERO_PTE;
          if Present(w) {
            DirAt(m, e);
            SetWordAt(m, p, d, w, w.frame, r.t);
            ZeroWordAt(m, w.frame, r.t);
          }
        } else {
          var table := TableWord(m, r.e, r.d);
          if Present(table) {
            TableNotDir(m, r.e, r.d, e);
            SetWordAt(m, p, d, w, table.frame, r.t);
          }
        }
      }
    }
    hide FreeListOk, Separated, UpperOk, WordAt, SetEntry;
  }

  lemma DirsDiffer(m: Mem, e: int, e': int)
    requires Core(m) && e in m.pgdirs && e' in m.pgdirs && e != e'
    ensures m.pgdirs[e] != m.pgdirs[e']
  {
    DirAt(m, e);
    DirAt(m, e');
    hide FreeListOk, UpperOk, Word, Target;
    assert DirRef(e) != DirRef(e');
  }

  lemma DirAt(m: Mem, e: int)
    requires e in m.pgdirs
    ensures Target(m, DirRef(e)) == m.pgdirs[e]
  {
  }

  lemma ZeroWordAt(m: Mem, p: nat, i: nat)
    requires p < |m.frames| && m.frames[p] == ZeroPage()
    ensures WordAt(m, p, i) == ZERO_PTE
  {
  }

  lemma OtherDirs(m: Mem, e: int, d: nat, w: Pte)
    requires Core(m) && e in m.pgdirs && Owns(e, d)
    requires e == KERN ==> d >= NUSER && m.pgdirs.Keys == {KERN}
    ensures m.pgdirs[e] < |m.frames| && m.pgdirs[e] == Target(m, DirRef(e))
    ensures var m' := SetEntry(m, m.pgdirs[e], d, w);
            && Shape(m') && UpperOk(m')
            && (forall e' :: e' in m.pgdirs && e' != e ==> m'.frames[m.pgdirs[e']] == m.frames[m.pgdirs[e']])
  {
    assert Target(m, DirRef(e)) == m.pgdirs[e];
    var m' := SetEntry(m, m.pgdirs[e], d, w);
    forall e' | e' in m.pgdirs && e' != e ensures m'.frames[m.pgdirs[e']] == m.frames[m.pgdirs[e']] {
      assert Target(m, DirRef(e')) == m.pgdirs[e'];
    }
  }

  /** One place now refers elsewhere (or nowhere): the separation invariant survives when the new
      page is neither free nor reserved and is shared only as a user page. */
  lemma CoreAfter(m: Mem, m': Mem, r0: Ref)
    requires Core(m) && Shape(m') && UpperOk(m') && Same(m, m', r0) && r0 != DirRef(KERN)
    requires m'.free == m.free && m'.reserved == m.reserved && |m'.frames| == |m.frames|
    requires var x := Target(m', r0);
             x >= 0 ==> x < |m.frames| && x !in m.free && x !in m.reserved
                        && forall r :: r != r0 && Target(m, r) == x ==> r.UserRef? && r0.UserRef?
    ensures Core(m')
  {
    assert Separated(m');
  }

  lemma AcctAfter(m: Mem, m': Mem, r0: Ref, h: int, c: nat, c': nat, exact: bool)
    requires Shape(m) && Shape(m') && Same(m, m', r0) && Acct(m, h, c, exact)
    requires m'.free == m.free && m'.reserved == m.reserved && m'.ref == m.ref
    requires Target(m, r0) >= 0 ==> Target(m, r0) == h && Target(m', r0) < 0 && c' == c + 1
    requires Target(m, r0) < 0 ==> Target(m', r0) == h && h >= 0 && c' + 1 == c
    ensures Acct(m', h, c', exact)
  {
    forall p: nat ensures |Refs(m', p)| == |Refs(m, p)| - (if Target(m, r0) == p then 1 else 0) + (if Target(m', r0) == p then 1 else 0) {
      RefsChange(m, m', r0, p);
    }
    forall p: nat | p != h ensures Refs(m', p) == Refs(m, p) { RefsChange(m, m', r0, p); }
  }

  /* ---- pgdir_walk, page_remove, page_insert ---- */

  lemma WalkOk(m: Mem, e: int, va: Addr)
    requires Core(m) && e in m.pgdirs && Owns(e, Pdx(va))
    ensures TableOk(m, m.pgdirs[e], va)
    ensures PgdirWalk(m, m.pgdirs[e], va, false).1 == Target(m, TableRef(e, Pdx(va)))
    ensures e != KERN ==> LeafOk(m, m.pgdirs[e], va)
    ensures e != KERN ==> (PageLookup(m, m.pgdirs[e], va) >= 0 <==> Target(m, UserRef(e, Pdx(va), Ptx(va))) >= 0)
    ensures m.free != [] ==> m.free[0] != m.pgdirs[e]
  {
    assert Target(m, DirRef(e)) == m.pgdirs[e];
    assert Target(m, TableRef(e, Pdx(va))) < |m.frames|;
    assert Target(m, UserRef(e, Pdx(va), Ptx(va))) < |m.frames|;
  }

  /** Nothing refers to the page at the head of the free list, so zeroing it is harmless. */
  lemma AllocTargets(m: Mem, zero: bool)
    requires Core(m) && m.free != []
    ensures Shape(PageAlloc(m, zero)) && UpperOk(PageAlloc(m, zero))
    ensures SameAll(m, PageAlloc(m, zero)) && (forall r :: Target(m, r) != m.free[0])
  {
    var (m', p) := (PageAlloc(m, zero), m.free[0]);
    assert p in m.free;
    forall e | e in m.pgdirs ensures m'.frames[m.pgdirs[e]] == m.frames[m.pgdirs[e]] {
      assert Target(m, DirRef(e)) == m.pgdirs[e];
    }
    forall r ensures Word(m', r) == Word(m, r) && Target(m, r) != p {
      if r.UserRef? { assert Target(m, TableRef(r.e, r.d)) != p; }
    }
  }

  /** page_alloc: the page leaves the free list. */
  lemma AllocKeeps(m: Mem, zero: bool)
    requires Core(m) && m.free != []
    ensures var (m', p) := (PageAlloc(m, zero), m.free[0]);
            && Core(m') && p < |m.frames| && p !in m'.free && p !in m.reserved
            && (zero ==> m'.frames[p] == ZeroPage())
            && SameAll(m, m') && (forall r :: Target(m, r) != p)
  {
    var (m', p) := (PageAlloc(m, zero), m.free[0]);
    AllocTargets(m, zero);
    assert p in m.free;
    assert forall q :: q in m'.free ==> q in m.free;
  }

  lemma AllocAcct(m: Mem, zero: bool, exact: bool)
    requires Safe(m, exact) && m.free != []
    ensures Shape(PageAlloc(m, zero)) && Acct(PageAlloc(m, zero), m.free[0], 0, exact)
  {
    AllocKeeps(m, zero);
    var m' := PageAlloc(m, zero);
    RefsSame(m, m');
    assert m.free == [m.free[0]] + m'.free;
    assert forall p: nat :: Refs(m, p) == {} <==> |Refs(m, p)| == 0;
  }

  /** Hanging a zeroed, counted page under an empty directory entry. */
  lemma HangTable(m: Mem, e: int, d: nat, tp: nat)
    requires Core(m) && e in m.pgdirs && Owns(e, d) && Target(m, TableRef(e, d)) < 0
    requires e == KERN ==> d >= NUSER && m.pgdirs.Keys == {KERN}
    requires tp < |m.frames| && tp !in m.free && tp !in m.reserved
    requires m.frames[tp] == ZeroPage() && forall r :: Target(m, r) != tp
    ensures m.pgdirs[e] < |m.frames|
    ensures var m' := SetEntry(m, m.pgdirs[e], d, Pte(tp, PTE_P | PTE_U | PTE_W));
            Core(m') && Same(m, m', TableRef(e, d)) && Word(m', TableRef(e, d)) == Pte(tp, PTE_P | PTE_U | PTE_W)
  {
    var w := Pte(tp, PTE_P | PTE_U | PTE_W);
    SetTable(m, e, d, w);
    CoreAfter(m, SetEntry(m, m.pgdirs[e], d, w), TableRef(e, d));
  }

  /** The page a creating walk takes: zeroed, counted once, referred to by nothing yet. */
  lemma FreshTable(m: Mem)
    requires Core(m) && m.free != [] && m.ref[m.free[0]] < REF_MOD - 1
    ensures var (m2, tp) := (IncRef(PageAlloc(m, true), m.free[0]), m.free[0]);
            && Core(m2) && SameAll(m, m2) && (forall r :: Target(m2, r) != tp)
            && tp < |m2.frames| && tp !in m2.free && tp !in m2.reserved && m2.frames[tp] == ZeroPage()
            && m2.ref == m.ref[tp := m.ref[tp] + 1] && m2.free == m.free[1..]
            && m2.pgdirs == m.pgdirs && m2.reserved == m.reserved && |m2.frames| == |m.frames|
  {
    AllocKeeps(m, true);
    CountsOnly(PageAlloc(m, true), m.ref[m.free[0] := m.ref[m.free[0]] + 1]);
  }

  /** A creating walk that has to add a table: only the directory entry changes, and the new table
      carries its one reference. */
  lemma WalkCreates(m: Mem, e: int, va: Addr)
    requires Core(m) && e in m.pgdirs && Owns(e, Pdx(va))
    requires e == KERN ==> Pdx(va) >= NUSER && m.pgdirs.Keys == {KERN}
    requires Target(m, TableRef(e, Pdx(va))) < 0 && m.free != [] && m.ref[m.free[0]] < REF_MOD - 1
    ensures TableOk(m, m.pgdirs[e], va)
    ensures var (m', t) := PgdirWalk(m, m.pgdirs[e], va, true);
            && t == m.free[0] && m'.free == m.free[1..] && t !in m'.free && t !in m.reserved
            && Core(m') && (forall r :: Target(m, r) != t)
            && Same(m, m', TableRef(e, Pdx(va))) && Word(m', TableRef(e, Pdx(va))) == Pte(t, PTE_P | PTE_U | PTE_W)
            && m'.pgdirs == m.pgdirs && m'.reserved == m.reserved && |m'.frames| == |m.frames|
            && m'.ref == m.ref[t := m.ref[t] + 1]
  {
    WalkOk(m, e, va);
    FreshTable(m);
    HangTable(IncRef(PageAlloc(m, true), m.free[0]), e, Pdx(va), m.free[0]);
    hide Separated, UpperOk, FreeListOk, PageAlloc, TableOk;
  }

  /** One place that held nothing comes to refer to t. */
  lemma RefsGain(m: Mem, m': Mem, r0: Ref, t: nat, p: nat)
    requires Shape(m) && Shape(m') && Same(m, m', r0) && Target(m, r0) < 0 && Target(m', r0) == t
    ensures |Refs(m', p)| == |Refs(m, p)| + (if p == t then 1 else 0)
    ensures Refs(m', p) == {} <==> Refs(m, p) == {} && p != t
  {
    RefsChange(m, m', r0, p);
    hide Word, Target, Refs, Same;
  }

  lemma WalkAcct(m: Mem, m': Mem, t: nat, r0: Ref, h: int, c: nat, exact: bool)
    requires Core(m) && Shape(m') && Acct(m, h, c, exact) && Same(m, m', r0)
    requires m.free != [] && t == m.free[0] && m'.free == m.free[1..] && t !in m'.free && m'.reserved == m.reserved
    requires t < |m.ref| && m'.ref == m.ref[t := m.ref[t] + 1]
    requires Target(m, r0) < 0 && Target(m', r0) == t && forall r :: Target(m, r) != t
    ensures Acct(m', h, c, exact)
  {
    hide Word, Target, Refs, Same, FreeListOk, UpperOk, Separated;
    assert m.free == [t] + m'.free;
    assert forall q :: q in m.free <==> q == t || q in m'.free;
    forall p: nat
      ensures |Refs(m', p)| == |Refs(m, p)| + (if p == t then 1 else 0) && (Refs(m', p) == {} <==> Refs(m, p) == {} && p != t)
    {
      RefsGain(m, m', r0, t, p);
    }
  }

  /** One place that referred to q comes to hold nothing. */
  lemma RefsLose(m: Mem, m': Mem, r0: Ref, q: nat, p: nat)
    requires Shape(m) && Shape(m') && Same(m, m', r0) && Target(m, r0) == q && Target(m', r0) < 0
    ensures |Refs(m', p)| == |Refs(m, p)| - (if p == q then 1 else 0) && (p != q ==> Refs(m', p) == Refs(m, p))
  {
    RefsChange(m, m', r0, p);
    hide Word, Target, Same;
  }

  /** Dropping the reference at r0: the count goes down by one and the page is freed at zero. */
  lemma RemoveAcct(m: Mem, m': Mem, r0: Ref, q: nat, h: int, c: nat, exact: bool)
    requires Core(m) && Shape(m') && Acct(m, h, c, exact) && Same(m, m', r0) && (h == q ==> c >= 1)
    requires q < |m.ref| && q !in m.reserved && Target(m, r0) == q && Target(m', r0) < 0
    requires m.ref[q] >= 1 && m'.ref == m.ref[q := m.ref[q] - 1] && m'.reserved == m.reserved
    requires m'.free == if m.ref[q] == 1 then [q] + m.free else m.free
    ensures Acct(m', h, c, exact)
    ensures m.ref[q] == 1 ==> Refs(m', q) == {}
  {
    assert r0 in Refs(m, q);
    hide Word, Target, Refs, Same, FreeListOk, UpperOk, Separated;
    forall p: nat ensures |Refs(m', p)| == |Refs(m, p)| - (if p == q then 1 else 0) && (p != q ==> Refs(m', p) == Refs(m, p)) {
      RefsLose(m, m', r0, q, p);
    }
    assert forall p :: p in m'.free <==> p in m.free || (m.ref[q] == 1 && p == q);
    assert m.ref[q] == 1 ==> |Refs(m', q)| == 0;
    assert exact && m.ref[q] != 1 && q != h ==> |Refs(m', q)| != 0;
  }

  /** What a change at one user place leaves alone. */
  ghost predicate Rest(m: Mem, m': Mem, r0: Ref) {
    && Same(m, m', r0) && m'.pgdirs == m.pgdirs && m'.reserved == m.reserved && |m'.frames| == |m.frames|
  }

  /** page_remove of a mapped page: the entry is cleared and the count lowered, in either order. */
  lemma RemoveMapped(m: Mem, e: int, va: Addr, q: nat)
    requires Core(m) && e in m.pgdirs && e != KERN && Pdx(va) < NUSER
    requires Target(m, UserRef(e, Pdx(va), Ptx(va))) == q
    ensures LeafOk(m, m.pgdirs[e], va) && q < |m.ref| && Target(m, TableRef(e, Pdx(va))) >= 0
    ensures var n := SetEntry(m, Target(m, TableRef(e, Pdx(va))), Ptx(va), ZERO_PTE);
            && PageRemove(m, m.pgdirs[e], va) == PageDecref(n, q)
            && Core(n) && Same(m, n, UserRef(e, Pdx(va), Ptx(va))) && Word(n, UserRef(e, Pdx(va), Ptx(va))) == ZERO_PTE
  {
    WalkOk(m, e, va);
    var (d, t, r0) := (Pdx(va), Ptx(va), UserRef(e, Pdx(va), Ptx(va)));
    SetLeaf(m, e, d, t, ZERO_PTE);
    CoreAfter(m, SetEntry(m, Target(m, TableRef(e, d)), t, ZERO_PTE), r0);
  }

  lemma RemoveKeeps(m: Mem, e: int, va: Addr, h: int, c: nat, exact: bool)
    requires Core(m) && Acct(m, h, c, exact) && (h >= 0 ==> c >= 1)
    requires e in m.pgdirs && e != KERN && Pdx(va) < NUSER
    ensures LeafOk(m, m.pgdirs[e], va)
    ensures var m' := PageRemove(m, m.pgdirs[e], va);
            && Core(m') && Acct(m', h, c, exact)
            && Rest(m, m', UserRef(e, Pdx(va), Ptx(va))) && Word(m', UserRef(e, Pdx(va), Ptx(va))) == ZERO_PTE
  {
    var r0 := UserRef(e, Pdx(va), Ptx(va));
    WalkOk(m, e, va);
    var q := Target(m, r0);
    if q >= 0 {
      RemoveMapped(m, e, va, q);
      var n := SetEntry(m, Target(m, TableRef(e, Pdx(va))), Ptx(va), ZERO_PTE);
      assert r0 in Refs(m, q);
      RemovedAcct(m, n, r0, q, h, c, exact);
    }
  }

  /** The cleared entry's page after page_decref: nothing that still refers to it was freed. */
  lemma RemovedAcct(m: Mem, n: Mem, r0: Ref, q: nat, h: int, c: nat, exact: bool)
    requires Core(m) && Core(n) && Acct(m, h, c, exact) && Same(m, n, r0) && (h >= 0 ==> c >= 1)
    requires n.ref == m.ref && n.free == m.free && n.reserved == m.reserved
    requires q < |m.ref| && Target(m, r0) == q && r0 != DirRef(KERN) && Target(n, r0) < 0
    ensures Core(PageDecref(n, q)) && Acct(PageDecref(n, q), h, c, exact)
    ensures Same(m, PageDecref(n, q), r0) && Word(PageDecref(n, q), r0) == Word(n, r0)
  {
    assert r0 in Refs(m, q);
    assert |Refs(m, q)| >= 1;
    var m' := PageDecref(n, q);
    DecrefTables(n, q);
    RemoveAcct(m, m', r0, q, h, c, exact);
    forall r | m.ref[q] == 1 ensures Target(n, r) != q {
      assert r !in Refs(m', q);
    }
    DecrefCore(n, q);
  }

  lemma DecrefTables(m: Mem, p: nat)
    requires Shape(m) && p < |m.ref|
    ensures Shape(PageDecref(m, p)) && SameAll(m, PageDecref(m, p))
  {
    assert PageDecref(m, p).frames == m.frames && PageDecref(m, p).pgdirs == m.pgdirs;
  }

  /** A page that may be mapped: managed, off the free list, and used by nothing but user mappings. */
  ghost predicate Mappable(m: Mem, pp: nat) {
    && pp < |m.ref| && pp !in m.reserved && pp !in m.free
    && (forall r :: Target(m, r) == pp ==> r.UserRef?)
  }

  /** Storing the held page pp into an empty slot. */
  lemma StoreKeeps(m: Mem, e: int, d: nat, t: nat, pp: nat, w: Pte, c: nat, exact: bool)
    requires Core(m) && Acct(m, pp, c + 1, exact) && Mappable(m, pp) && e != KERN && t < NENTRIES
    requires Target(m, TableRef(e, d)) >= 0 && Target(m, UserRef(e, d, t)) < 0
    requires Present(w) && w.frame == pp
    ensures var m' := SetEntry(m, Target(m, TableRef(e, d)), t, w);
            && Core(m') && Acct(m', pp, c, exact)
            && Rest(m, m', UserRef(e, d, t)) && Word(m', UserRef(e, d, t)) == w
  {
    var r0 := UserRef(e, d, t);
    var m' := SetEntry(m, Target(m, TableRef(e, d)), t, w);
    SetLeaf(m, e, d, t, w);
    CoreAfter(m, m', r0);
    AcctAfter(m, m', r0, pp, c + 1, c, exact);
  }

  /** page_insert over an existing table: count the page, clear the entry, store the new word. */
  lemma InsertForm(m: Mem, e: int, va: Addr, pp: nat, perm: bv12)
    requires Core(m) && pp < |m.ref|
    requires e in m.pgdirs && e != KERN && Pdx(va) < NUSER && Target(m, TableRef(e, Pdx(va))) >= 0
    ensures LeafOk(m, m.pgdirs[e], va) && LeafOk(IncRef(m, pp), m.pgdirs[e], va)
    ensures m.free != [] ==> m.free[0] != m.pgdirs[e]
    ensures PageInsert(m, m.pgdirs[e], pp, va, perm)
         == (SetEntry(PageRemove(IncRef(m, pp), m.pgdirs[e], va), Target(m, TableRef(e, Pdx(va))), Ptx(va), Pte(pp, perm | PTE_P)), 0)
  {
    WalkOk(m, e, va);
  }

  lemma CountAndClear(m: Mem, e: int, va: Addr, pp: nat, c: nat, exact: bool)
    requires Core(m) && Acct(m, pp, c, exact) && Mappable(m, pp) && m.ref[pp] < REF_MOD - 1
    requires e in m.pgdirs && e != KERN && Pdx(va) < NUSER
    ensures LeafOk(IncRef(m, pp), m.pgdirs[e], va)
    ensures var m3 := PageRemove(IncRef(m, pp), m.pgdirs[e], va);
            && Core(m3) && Acct(m3, pp, c + 1, exact) && Mappable(m3, pp)
            && Rest(m, m3, UserRef(e, Pdx(va), Ptx(va))) && Target(m3, UserRef(e, Pdx(va), Ptx(va))) < 0
  {
    IncRefKeeps(m, pp, c, exact);
    RemoveKeeps(IncRef(m, pp), e, va, pp, c + 1, exact);
    MappableAfter(m, PageRemove(IncRef(m, pp), m.pgdirs[e], va), UserRef(e, Pdx(va), Ptx(va)), pp);
  }

  /** page_insert where the page table already exists. */
  lemma InsertAt(m: Mem, e: int, va: Addr, pp: nat, perm: bv12, c: nat, exact: bool)
    requires Core(m) && Acct(m, pp, c, exact) && Mappable(m, pp) && m.ref[pp] < REF_MOD - 1
    requires e in m.pgdirs && e != KERN && Pdx(va) < NUSER && Target(m, TableRef(e, Pdx(va))) >= 0
    ensures LeafOk(m, m.pgdirs[e], va) && (m.free != [] ==> m.free[0] != m.pgdirs[e])
    ensures var (m', rc) := PageInsert(m, m.pgdirs[e], pp, va, perm);
            && rc == 0 && Core(m') && Acct(m', pp, c, exact)
            && Rest(m, m', UserRef(e, Pdx(va), Ptx(va))) && Word(m', UserRef(e, Pdx(va), Ptx(va))) == Pte(pp, perm | PTE_P)
  {
    InsertForm(m, e, va, pp, perm);
    CountAndClear(m, e, va, pp, c, exact);
    PresentBit(perm);
    assert Target(PageRemove(IncRef(m, pp), m.pgdirs[e], va), TableRef(e, Pdx(va))) == Target(m, TableRef(e, Pdx(va)));
    StoreKeeps(PageRemove(IncRef(m, pp), m.pgdirs[e], va), e, Pdx(va), Ptx(va), pp, Pte(pp, perm | PTE_P), c, exact);
  }

  lemma PresentBit(perm: bv12)
    ensures (perm | PTE_P) & PTE_P != 0
  {
  }

  lemma MappableAfter(m: Mem, m': Mem, r0: Ref, pp: nat)
    requires Mappable(m, pp) && Rest(m, m', r0) && r0.UserRef? && pp !in m'.free && |m'.ref| == |m.ref|
    ensures Mappable(m', pp)
  {
    forall r | Target(m', r) == pp ensures r.UserRef? {
      if r != r0 { assert Target(m, r) == pp; }
    }
  }
}
