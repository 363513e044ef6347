/** Linear addresses and page-table words, after lab4/inc/mmu.h and lab4/inc/memlayout.h.
    On unsigned 32-bit values a right shift is a division and a low mask is a remainder. */
module Mmu {
  import Words

  type Addr = Words.Addr

  const PGSIZE := 0x1000
  const NENTRIES: nat := 1024            // NPDENTRIES and NPTENTRIES
  const UTOP: Addr := 0xeec0_0000
  const UVPT: Addr := 0xef40_0000
  const NUSER: nat := 955           // PDX(UTOP): directory entries below it belong to the user
  const UVPT_INDEX: nat := 957      // PDX(UVPT)

  const PTE_P: bv12 := 0x001
  const PTE_W: bv12 := 0x002
  const PTE_U: bv12 := 0x004

  function Pgnum(la: Addr): nat { la / 0x1000 }
  function Pdx(la: Addr): (d: nat) { la / 0x40_0000 % 1024 }
  function Ptx(la: Addr): (t: nat) { la / 0x1000 % 1024 }
  function Pgoff(la: Addr): (o: nat) { la % 0x1000 }

  function Pgaddr(d: nat, t: nat, o: nat): (la: Addr)
    requires d < 1024 && t < 1024 && o < 0x1000
  {
    d * 0x40_0000 + t * 0x1000 + o
  }

  /** PDX, PTX and PGOFF split an address exactly as PGADDR joins one. */
  lemma PgaddrSplit(la: Addr)
    ensures Pdx(la) < 1024 && Ptx(la) < 1024 && Pgoff(la) < 0x1000
    ensures Pgaddr(Pdx(la), Ptx(la), Pgoff(la)) == la
  {
    assert la / 0x40_0000 == la / 0x1000 / 1024;
  }

  lemma PgaddrJoin(d: nat, t: nat, o: nat)
    requires d < 1024 && t < 1024 && o < 0x1000
    ensures Pdx(Pgaddr(d, t, o)) == d && Ptx(Pgaddr(d, t, o)) == t && Pgoff(Pgaddr(d, t, o)) == o
  {
    var la := Pgaddr(d, t, o);
    assert la / 0x1000 == d * 1024 + t;
    assert la / 0x40_0000 == d;
  }

  /** The address of uvpt[PGNUM(va)]: its directory index selects the directory itself, its table
      index is va's directory index and its offset is four times va's table index. */
  lemma UvptSplit(va: Addr)
    ensures UVPT + 4 * Pgnum(va) < 0x1_0000_0000
    ensures Pdx(UVPT + 4 * Pgnum(va)) == UVPT_INDEX
    ensures Ptx(UVPT + 4 * Pgnum(va)) == Pdx(va)
    ensures Pgoff(UVPT + 4 * Pgnum(va)) == 4 * Ptx(va)
  {
    PgaddrSplit(va);
    assert Pgnum(va) == Pdx(va) * 1024 + Ptx(va);
    PgaddrJoin(UVPT_INDEX, Pdx(va), 4 * Ptx(va));
    assert Pgaddr(UVPT_INDEX, Pdx(va), 4 * Ptx(va)) == UVPT + 4 * Pgnum(va);
  }

  /** A page-directory or page-table word: PTE_ADDR(w) is frame * PGSIZE, the low 12 bits are perm. */
  datatype Pte = Pte(frame: nat, perm: bv12)

  const ZERO_PTE := Pte(0, 0)

  predicate Present(e: Pte) { e.perm & PTE_P != 0 }

  function ZeroPage(): seq<Pte> { seq(NENTRIES, _ => ZERO_PTE) }
}
