/** file_set_size: truncation empties exactly the slots past the new size and frees exactly their
    blocks, and it keeps ownership exactly when the blocks freed hold no entry that owns a block. */
module FileTruncation {
  import opened Words
  import opened Disk
  import opened FileSystem
  import opened FileOwnership
  import opened FileRelease
  import opened FileContents

  /** Slots of f: those of blocks lo to hi - 1, and that of the indirect block if ind is set. */
  datatype Region = Region(f: File, lo: nat, hi: nat, ind: bool)

  predicate In(r: Region, t: Cell) {
    t.f == r.f && IsSlot(t) && if IsData(t) then r.lo <= Index(t) < r.hi else r.ind
  }

  const END: nat := 0x8000_0000       // above every block count

  /** The block belongs to a slot of r. */
  predicate Drops(o: Owners, r: Region, b: nat) { b in o && In(r, o[b]) }

  function Less(o: Owners, r: Region): Owners { map b | b in o && !In(r, o[b]) :: o[b] }

  /** Block b holds contents of a regular file. */
  ghost predicate DataBlock(fs: Fs, o: Owners, b: nat) { b in o && IsData(o[b]) && !IsDir(fs, o[b].f) }

  ghost predicate Freed(fs: Fs, o: Owners, r: Region, fs': Fs) {
    && Shape(fs') && |fs'.blocks| == |fs.blocks|
    && forall b :: InUse(fs', b) <==> InUse(fs, b) && !Drops(o, r, b)
  }

  /** The slots of r are emptied and exactly their blocks are freed; no other word of a file and no
      contents of a regular file is affected. */
  ghost predicate Cut(fs: Fs, o: Owners, r: Region, fs': Fs) {
    && Freed(fs, o, r, fs')
    && (forall t: Cell :: Known(fs, o, t.f) && IsCell(t) ==> Value(fs', t) == if In(r, t) then 0 else Value(fs, t))
    && (forall b :: DataBlock(fs, o, b) ==> BlockAt(fs', b) == BlockAt(fs, b))
  }

  lemma CutIs(fs: Fs, o: Owners, r: Region, fs': Fs, b: nat)
    requires Cut(fs, o, r, fs')
    ensures Shape(fs') && |fs'.blocks| == |fs.blocks| && Freed(fs, o, r, fs')
    ensures InUse(fs', b) <==> InUse(fs, b) && !Drops(o, r, b)
    ensures DataBlock(fs, o, b) ==> BlockAt(fs', b) == BlockAt(fs, b)
  {
    hide Known, Value, InUse, Drops, DataBlock, BlockAt;
  }

  lemma CutValue(fs: Fs, o: Owners, r: Region, fs': Fs, t: Cell)
    requires Cut(fs, o, r, fs') && Known(fs, o, t.f) && IsCell(t)
    ensures Value(fs', t) == if In(r, t) then 0 else Value(fs, t)
  {
    hide Known, Value, InUse, Drops, DataBlock, BlockAt;
  }

  lemma CutJoin(fs: Fs, o: Owners, r: Region, fs': Fs)
    requires Shape(fs') && |fs'.blocks| == |fs.blocks|
    requires forall b: nat :: InUse(fs', b) <==> InUse(fs, b) && !Drops(o, r, b)
    requires forall t: Cell :: Known(fs, o, t.f) && IsCell(t) ==> Value(fs', t) == if In(r, t) then 0 else Value(fs, t)
    requires forall b: nat :: DataBlock(fs, o, b) ==> BlockAt(fs', b) == BlockAt(fs, b)
    ensures Cut(fs, o, r, fs')
  {
    hide Known, Value, InUse, Drops, DataBlock, BlockAt;
  }

  lemma OwnerNonzero(fs: Fs, o: Owners, b: nat)
    requires Inv(fs, o) && b in o
    ensures Known(fs, o, o[b].f) && IsSlot(o[b]) && IsCell(o[b]) && Value(fs, o[b]) == b != 0
  {
    KnownOwner(fs, o, b);
    assert DataStart(fs) >= 2;
  }

  lemma RegularIs(fs: Fs, o: Owners, g: File)
    ensures Regular(fs, o, g) <==> Known(fs, o, g) && !IsDir(fs, g)
  {
  }

  lemma DataIn(r: Region, g: File, m: nat)
    ensures m < MAXBLOCKS ==> (In(r, DataCell(g, m)) <==> g == r.f && r.lo <= m < r.hi)
    ensures In(r, Part(g, INDIRECT)) <==> g == r.f && r.ind
  {
  }

  lemma InIs(r: Region, t: Cell)
    requires In(r, t)
    ensures t.f == r.f && IsCell(t) && IsSlot(t)
  {
  }

  lemma DropsIs(o: Owners, r: Region, b: nat)
    ensures Drops(o, r, b) <==> b in o && In(r, o[b])
  {
  }

  /** Slots that are empty already may be counted in; r is the empty region at first. */
  lemma CutMore(fs: Fs, o: Owners, r: Region, fs1: Fs, r2: Region)
    requires Inv(fs, o) && Cut(fs, o, r, fs1) && Known(fs, o, r2.f)
    requires forall t :: In(r, t) ==> In(r2, t)
    requires forall t: Cell :: In(r2, t) && !In(r, t) ==> Value(fs, t) == 0
    ensures Cut(fs, o, r2, fs1)
  {
    hide *;
    CutIs(fs, o, r, fs1, 0);
    forall b: nat ensures InUse(fs1, b) <==> InUse(fs, b) && !Drops(o, r2, b) {
      CutIs(fs, o, r, fs1, b);
      DropsIs(o, r, b);
      DropsIs(o, r2, b);
      if b in o { OwnerNonzero(fs, o, b); }
    }
    forall b: nat | DataBlock(fs, o, b) ensures BlockAt(fs1, b) == BlockAt(fs, b) { CutIs(fs, o, r, fs1, b); }
    forall t: Cell | Known(fs, o, t.f) && IsCell(t) ensures Value(fs1, t) == if In(r2, t) then 0 else Value(fs, t) {
      CutValue(fs, o, r, fs1, t);
    }
    CutJoin(fs, o, r2, fs1);
  }

  lemma CutSelf(fs: Fs, o: Owners, f: File, n: nat)
    requires Shape(fs)
    ensures Cut(fs, o, Region(f, n, n, false), fs)
  {
    hide Known, Value, InUse, DataBlock, BlockAt;
  }

  /* ---- one slot ---- */

  /** Slot c, not yet empty, is next; an indirect block only after all its entries. */
  ghost predicate CanCut(fs: Fs, o: Owners, r: Region, fs1: Fs, c: Cell) {
    && Inv(fs, o) && Cut(fs, o, r, fs1) && !r.ind && KnownSlot(fs, o, c) && !In(r, c) && Value(fs, c) != 0
    && (!IsData(c) ==> forall j :: 0 <= j < NINDIRECT ==> In(r, Entry(c.f, j)))
  }

  lemma CanCutIs(fs: Fs, o: Owners, r: Region, fs1: Fs, c: Cell)
    requires CanCut(fs, o, r, fs1, c)
    ensures Inv(fs, o) && Shape(fs) && Cut(fs, o, r, fs1) && !r.ind && Known(fs, o, c.f) && IsSlot(c) && IsCell(c) && Located(fs, c)
    ensures Value(fs, c) in o && o[Value(fs, c)] == c && InUse(fs, Value(fs, c)) && !In(r, c) && Value(fs, c) != 0
    ensures forall t: Cell :: t.Entry? && c == Part(t.f, INDIRECT) && IsCell(t) ==> In(r, t)
  {
  }

  /** Cells stay where they are, but for entries of an indirect block that is gone. */
  lemma CutHome(fs: Fs, o: Owners, r: Region, fs1: Fs, t: Cell)
    requires Inv(fs, o) && Cut(fs, o, r, fs1) && Known(fs, o, t.f) && IsCell(t)
    ensures Home(fs1, t) == if t.Entry? && r.ind && t.f == r.f then 0 else Home(fs, t)
  {
    hide *;
    InvParts(fs, o);
    KnownAt(fs, o, t.f);
    var ind := Part(t.f, INDIRECT);
    ValueForm(fs, t);
    ValueForm(fs1, t);
    ValueForm(fs, ind);
    ValueForm(fs1, ind);
    CutValue(fs, o, r, fs1, ind);
    DataIn(r, t.f, 0);
  }

  lemma CutSlotValue(fs: Fs, o: Owners, r: Region, fs1: Fs, c: Cell, t: Cell)
    requires CanCut(fs, o, r, fs1, c) && Known(fs, o, t.f) && IsCell(t)
    ensures Shape(fs1) && Value(Detach(fs1, c), t) == if In(r, t) || t == c then 0 else Value(fs, t)
  {
    hide *;
    CanCutIs(fs, o, r, fs1, c);
    InvParts(fs, o);
    CutIs(fs, o, r, fs1, 0);
    KnownAt(fs, o, t.f);
    LocatedAt(fs, o, c);
    CutHome(fs, o, r, fs1, c);
    CutHome(fs, o, r, fs1, t);
    CutValue(fs, o, r, fs1, t);
    DetachForm(fs1, c, t);
    var (fs2, ind) := (Put(fs1, c, 0), Part(t.f, INDIRECT));
    ValueForm(fs2, t);
    ValueForm(fs1, t);
    ValueForm(fs, t);
    ValueForm(fs, ind);
    PutPeek(fs1, c, 0, t.f.block, Offset(ind));
    PutPeek(fs1, c, 0, Home(fs, t), Offset(t));
    if c != ind && t.Entry? { CellsApart(fs, o, c, ind); }
    if t != c && Located(fs, t) { CellsApart(fs, o, c, t); }
    ValueForm(fs, c);
  }

  lemma CutSlotUse(fs: Fs, o: Owners, r: Region, fs1: Fs, c: Cell, b: nat)
    requires CanCut(fs, o, r, fs1, c)
    ensures Shape(fs1) && (InUse(Detach(fs1, c), b) <==> InUse(fs, b) && !Drops(o, r, b) && !(b in o && o[b] == c))
  {
    hide *;
    CanCutIs(fs, o, r, fs1, c);
    var v := Value(fs, c);
    CutIs(fs, o, r, fs1, v);
    CutIs(fs, o, r, fs1, b);
    CutValue(fs, o, r, fs1, c);
    DropsIs(o, r, v);
    DetachedInUse(fs1, c, b);
    if b in o { OwnerNonzero(fs, o, b); }
  }

  lemma CutSlotData(fs: Fs, o: Owners, r: Region, fs1: Fs, c: Cell, b: nat)
    requires CanCut(fs, o, r, fs1, c) && DataBlock(fs, o, b)
    ensures Shape(fs1) && BlockAt(Detach(fs1, c), b) == BlockAt(fs, b)
  {
    CanCutIs(fs, o, r, fs1, c);
    InvParts(fs, o);
    DataApart(fs, o, b, c);
    CutHome(fs, o, r, fs1, c);
    CutIs(fs, o, r, fs1, b);
    DetachAt(fs1, c, b);
    hide *;
  }

  lemma CutSlot(fs: Fs, o: Owners, r: Region, fs1: Fs, c: Cell, r2: Region)
    requires CanCut(fs, o, r, fs1, c) && forall t :: In(r2, t) <==> In(r, t) || t == c
    ensures Shape(fs1) && Cut(fs, o, r2, Detach(fs1, c))
  {
    hide *;
    CanCutIs(fs, o, r, fs1, c);
    CutIs(fs, o, r, fs1, 0);
    var fs2 := Detach(fs1, c);
    forall b: nat ensures InUse(fs2, b) <==> InUse(fs, b) && !Drops(o, r2, b) {
      CutSlotUse(fs, o, r, fs1, c, b);
      DropsIs(o, r, b);
      DropsIs(o, r2, b);
    }
    forall t: Cell | Known(fs, o, t.f) && IsCell(t) ensures Value(fs2, t) == if In(r2, t) then 0 else Value(fs, t) {
      CutSlotValue(fs, o, r, fs1, c, t);
    }
    forall b: nat | DataBlock(fs, o, b) ensures BlockAt(fs2, b) == BlockAt(fs, b) { CutSlotData(fs, o, r, fs1, c, b); }
    CutJoin(fs, o, r2, fs2);
  }

  /* ---- file_free_block ---- */

  lemma SlotKnown(fs: Fs, o: Owners, f: File, n: nat)
    requires Known(fs, o, f) && n < MAXBLOCKS
    ensures KnownSlot(fs, o, DataCell(f, n)) && KnownSlot(fs, o, Part(f, INDIRECT)) && IsData(DataCell(f, n))
    ensures IsCell(DataCell(f, n)) && IsCell(Part(f, INDIRECT)) && DataCell(f, n).f == f
  {
    DataCells(f, n);
  }

  lemma FieldIs(fs: Fs, f: File, k: nat)
    ensures f.block != 0 ==> Field(fs, f, k) == Value(fs, Part(f, k))
  {
  }

  lemma KnownBlock(fs: Fs, o: Owners, g: File)
    requires Inv(fs, o) && Known(fs, o, g)
    ensures g.block != 0 && Located(fs, Part(g, INDIRECT))
  {
    KnownAt(fs, o, g);
  }

  /** The indirect block of f halfway through a cut. */
  lemma CutIndirect(fs: Fs, o: Owners, r: Region, fs1: Fs, f: File)
    requires Inv(fs, o) && Cut(fs, o, r, fs1) && !r.ind && Known(fs, o, f)
    ensures Shape(fs1) && At(fs1, f) && f.block != 0
    ensures Field(fs1, f, INDIRECT) == Value(fs1, Part(f, INDIRECT)) == Value(fs, Part(f, INDIRECT)) < |fs1.blocks|
  {
    hide *;
    InvParts(fs, o);
    KnownAt(fs, o, f);
    SlotKnown(fs, o, f, 0);
    CutIs(fs, o, r, fs1, 0);
    CutValue(fs, o, r, fs1, Part(f, INDIRECT));
    DataIn(r, f, 0);
    FieldIs(fs1, f, INDIRECT);
    SlotOwned(fs, o, Part(f, INDIRECT));
    AtSame(fs, fs1, f);
    UseBelow(fs, Value(fs, Part(f, INDIRECT)));
  }

  lemma AtSame(fs: Fs, fs1: Fs, f: File)
    requires Shape(fs1) && |fs1.blocks| == |fs.blocks|
    ensures At(fs, f) ==> At(fs1, f)
  {
  }

  lemma UseBelow(fs: Fs, b: nat)
    ensures InUse(fs, b) ==> b < |fs.blocks|
    ensures Shape(fs) ==> 0 < |fs.blocks|
  {
  }

  lemma FreeForm(fs: Fs, f: File, n: nat)
    requires At(fs, f) && f.block != 0 && Field(fs, f, INDIRECT) < |fs.blocks|
    ensures FileFreeBlock(fs, f, n).0 == if n < MAXBLOCKS && Value(fs, DataCell(f, n)) != 0 then Detach(fs, DataCell(f, n)) else fs
  {
    if n < MAXBLOCKS {
      var c := DataCell(f, n);
      FreeAt(fs, f, n);
      MarkValue(fs, Value(fs, c), true, c);
    }
  }

  lemma FreeAt(fs: Fs, f: File, n: nat)
    requires At(fs, f) && n < MAXBLOCKS && f.block != 0 && Field(fs, f, INDIRECT) < |fs.blocks|
    ensures var (c, v) := (DataCell(f, n), Value(fs, DataCell(f, n)));
            && (v != 0 ==> Home(fs, c) < |fs.blocks| && Offset(c) < BLKWORDS)
            && FileFreeBlock(fs, f, n).0 == if v == 0 then fs else SetWord(Mark(fs, v, true), Home(fs, c), Offset(c), 0)
  {
  }

  lemma NextBlock(f: File, lo: nat, n: nat)
    requires lo <= n
    ensures forall t: Cell :: In(Region(f, lo, n + 1, false), t) <==> In(Region(f, lo, n, false), t) || (n < MAXBLOCKS && t == DataCell(f, n))
    ensures n < MAXBLOCKS ==> !In(Region(f, lo, n, false), DataCell(f, n))
  {
  }

  /** One turn of the truncation loop. */
  lemma FreeNext(fs: Fs, o: Owners, f: File, lo: nat, n: nat, fs1: Fs)
    requires Inv(fs, o) && Known(fs, o, f) && lo <= n && Cut(fs, o, Region(f, lo, n, false), fs1)
    ensures At(fs1, f) && Cut(fs, o, Region(f, lo, n + 1, false), FileFreeBlock(fs1, f, n).0)
  {
    hide *;
    var (r, r2, c) := (Region(f, lo, n, false), Region(f, lo, n + 1, false), DataCell(f, n));
    CutIndirect(fs, o, r, fs1, f);
    FreeForm(fs1, f, n);
    NextBlock(f, lo, n);
    if n < MAXBLOCKS {
      SlotKnown(fs, o, f, n);
      CutValue(fs, o, r, fs1, c);
    }
    if n < MAXBLOCKS && Value(fs1, c) != 0 {
      CanCutJoin(fs, o, r, fs1, c);
      CutSlot(fs, o, r, fs1, c, r2);
    } else {
      CutMore(fs, o, r, fs1, r2);
    }
  }

  lemma CanCutJoin(fs: Fs, o: Owners, r: Region, fs1: Fs, c: Cell)
    requires Inv(fs, o) && Cut(fs, o, r, fs1) && !r.ind && KnownSlot(fs, o, c) && !In(r, c) && Value(fs, c) != 0
    requires !IsData(c) ==> forall j :: 0 <= j < NINDIRECT ==> In(r, Entry(c.f, j))
    ensures CanCut(fs, o, r, fs1, c)
  {
    hide Inv, Cut, KnownSlot, In, Value;
  }

  /** file_free_block empties one slot and frees exactly its block, on files of any kind. */
  lemma FreeBlockCuts(fs: Fs, o: Owners, f: File, n: nat)
    requires Inv(fs, o) && Known(fs, o, f)
    ensures Shape(fs) && At(fs, f) && Cut(fs, o, Region(f, n, n + 1, false), FileFreeBlock(fs, f, n).0)
  {
    hide *;
    InvParts(fs, o);
    CutSelf(fs, o, f, n);
    FreeNext(fs, o, f, n, n, fs);
  }

  /** Its code says why it had nothing to empty. */
  lemma FreeBlockCode(fs: Fs, o: Owners, f: File, n: nat)
    requires Inv(fs, o) && Known(fs, o, f)
    ensures At(fs, f)
    ensures FileFreeBlock(fs, f, n).1 == if n >= MAXBLOCKS then E_INVAL
                                         else if n >= NDIRECT && Value(fs, Part(f, INDIRECT)) == 0 then E_NOT_FOUND else 0
  {
    hide Inv, Known, Value, Mark, SetWord;
    InvParts(fs, o);
    CutSelf(fs, o, f, n);
    CutIndirect(fs, o, Region(f, n, n, false), fs, f);
    SizeIs(fs, o, f);
  }

  /* ---- file_truncate_blocks ---- */

  /** The truncation loop frees the blocks of its range. */
  lemma {:induction false} FreeBlocksCuts(fs: Fs, o: Owners, f: File, lo: nat, bno: nat, end: nat, fs1: Fs)
    requires Inv(fs, o) && Known(fs, o, f) && lo <= bno <= end && Cut(fs, o, Region(f, lo, bno, false), fs1)
    ensures At(fs1, f) && Cut(fs, o, Region(f, lo, end, false), FreeBlocks(fs1, f, bno, end))
    decreases end - bno
  {
    hide *;
    FreeNext(fs, o, f, lo, bno, fs1);
    FreeBlocksForm(fs1, f, bno, end);
    if bno < end { FreeBlocksCuts(fs, o, f, lo, bno + 1, end, FileFreeBlock(fs1, f, bno).0); }
  }

  lemma FreeBlocksForm(fs: Fs, f: File, bno: nat, end: nat)
    requires At(fs, f)
    ensures FreeBlocks(fs, f, bno, end) == if bno >= end then fs else FreeBlocks(FileFreeBlock(fs, f, bno).0, f, bno + 1, end)
  {
    hide FileFreeBlock;
  }

  lemma SizeIs(fs: Fs, o: Owners, f: File)
    requires Inv(fs, o) && Known(fs, o, f)
    ensures At(fs, f) && Field(fs, f, SIZE) == Size(fs, f) <= MAXSIZE && f.block != 0 && SignedSize(fs, f) == Size(fs, f)
    ensures Field(fs, f, INDIRECT) == Value(fs, Part(f, INDIRECT)) && Field(fs, f, TYPE) == Value(fs, Part(f, TYPE))
  {
    KnownAt(fs, o, f);
    SizedIs(fs, o, f);
    hide *;
    FieldIs(fs, f, SIZE);
    FieldIs(fs, f, INDIRECT);
    FieldIs(fs, f, TYPE);
    SizeOf(fs, f);
    SignedIs(fs, f);
  }

  lemma SignedIs(fs: Fs, f: File)
    ensures SignedSize(fs, f) == Wrap32(Field(fs, f, SIZE))
    ensures Fits(Field(fs, f, SIZE)) <==> Field(fs, f, SIZE) <= MAXSIZE
    ensures Field(fs, f, SIZE) <= MAXSIZE ==> SignedSize(fs, f) == Field(fs, f, SIZE)
  {
    hide Field;
  }

  lemma SizeOf(fs: Fs, f: File)
    ensures Size(fs, f) == Value(fs, Part(f, SIZE))
  {
  }

  lemma BlocksMonotone(a: nat, b: nat)
    requires a <= b <= MAXSIZE
    ensures NBlocks(a) <= NBlocks(b) < END
  {
  }

  /** On sizes that fit, file_truncate_blocks counts blocks rightly. */
  lemma CountFits(n: Long)
    ensures Fits(n) <==> 0 <= n <= MAXSIZE
    ensures Fits(n) ==> BlockCount(n) == NBlocks(n) < END && Wrap32(n) == n == n % 0x1_0000_0000
  {
  }

  /** A size too large counts as more blocks than any file has. */
  lemma CountGrows(a: nat, b: Long)
    requires a <= b && a <= MAXSIZE
    ensures NBlocks(a) <= BlockCount(b)
  {
  }

  /** A size that does not fit is stored as one that does not. */
  lemma StoredSize(n: Long)
    ensures n % 0x1_0000_0000 <= MAXSIZE <==> Fits(n)
  {
  }

  /** Slots past the size are empty. */
  lemma PastEnd(fs: Fs, o: Owners, f: File, nb: nat, t: Cell)
    requires Inv(fs, o) && Known(fs, o, f) && NBlocks(Size(fs, f)) <= nb && In(Region(f, nb, END, false), t)
    ensures Value(fs, t) == 0
  {
    SizedIs(fs, o, f);
    assert t == DataCell(f, Index(t));
    hide Inv, Known, Value;
  }

  lemma RangeGrows(f: File, lo: nat, end: nat)
    requires lo <= end
    ensures forall t: Cell :: In(Region(f, lo, end, false), t) ==> In(Region(f, lo, END, false), t)
    ensures forall t: Cell :: In(Region(f, lo, END, false), t) && !In(Region(f, lo, end, false), t) ==> In(Region(f, end, END, false), t)
  {
    assert end <= END || forall t: Cell :: IsSlot(t) ==> Index(t) < END;
  }

  /** The direct and entry slots past the new size are emptied. */
  lemma TruncateData(fs: Fs, o: Owners, f: File, nb: nat)
    requires Inv(fs, o) && Known(fs, o, f)
    ensures Shape(fs) && At(fs, f)
    ensures Cut(fs, o, Region(f, nb, END, false), FreeBlocks(fs, f, nb, BlockCount(SignedSize(fs, f))))
  {
    hide *;
    InvParts(fs, o);
    SizeIs(fs, o, f);
    CountFits(SignedSize(fs, f));
    var end := NBlocks(Size(fs, f));
    var last := if nb <= end then end else nb;
    CutSelf(fs, o, f, nb);
    FreeBlocksCuts(fs, o, f, nb, nb, last, fs);
    FreeBlocksForm(fs, f, nb, end);
    RangeGrows(f, nb, last);
    forall t: Cell | In(Region(f, last, END, false), t) ensures Value(fs, t) == 0 { PastEnd(fs, o, f, last, t); }
    FreeBlocksForm(fs, f, nb, last);
    CutMore(fs, o, Region(f, nb, last, false), FreeBlocks(fs, f, nb, last), Region(f, nb, END, false));
  }

  lemma AndIndirect(f: File, nb: nat)
    ensures forall t: Cell :: In(Region(f, nb, END, true), t) <==> In(Region(f, nb, END, false), t) || t == Part(f, INDIRECT)
    ensures nb <= NDIRECT ==> forall j :: 0 <= j < NINDIRECT ==> In(Region(f, nb, END, false), Entry(f, j))
    ensures !In(Region(f, nb, END, false), Part(f, INDIRECT)) && !IsData(Part(f, INDIRECT))
  {
  }

  /** The second half of truncation: the indirect block, once none of its entries is needed. */
  lemma TruncateIndirect(fs: Fs, o: Owners, f: File, nb: nat, fs1: Fs)
    requires Inv(fs, o) && Known(fs, o, f) && Cut(fs, o, Region(f, nb, END, false), fs1)
    ensures At(fs1, f)
    ensures var ind := Field(fs1, f, INDIRECT);
            Cut(fs, o, Region(f, nb, END, nb <= NDIRECT),
                if nb <= NDIRECT && ind != 0 then SetWord(Mark(fs1, ind, true), f.block, f.base + INDIRECT, 0) else fs1)
  {
    hide *;
    var (c, r, r2) := (Part(f, INDIRECT), Region(f, nb, END, false), Region(f, nb, END, true));
    CutIndirect(fs, o, r, fs1, f);
    AndIndirect(f, nb);
    SlotKnown(fs, o, f, 0);
    if nb <= NDIRECT {
      if Field(fs1, f, INDIRECT) != 0 {
        CanCutJoin(fs, o, r, fs1, c);
        CutSlot(fs, o, r, fs1, c, r2);
        IndirectDetach(fs1, f);
      } else {
        CutMore(fs, o, r, fs1, r2);
      }
    }
  }

  lemma IndirectDetach(fs: Fs, f: File)
    requires At(fs, f)
    ensures Detach(fs, Part(f, INDIRECT)) == SetWord(Mark(fs, Value(fs, Part(f, INDIRECT)), true), f.block, f.base + INDIRECT, 0)
  {
  }

  /** file_truncate_blocks frees exactly the blocks past the new size, as it counts them, and the indirect
      block once it is not needed. */
  lemma TruncateCuts(fs: Fs, o: Owners, f: File, newSize: Long)
    requires Inv(fs, o) && Known(fs, o, f)
    ensures Shape(fs) && At(fs, f)
    ensures Cut(fs, o, Region(f, BlockCount(newSize), END, BlockCount(newSize) <= NDIRECT), FileTruncateBlocks(fs, f, newSize))
  {
    hide *;
    var nb := BlockCount(newSize);
    TruncateData(fs, o, f, nb);
    TruncateIndirect(fs, o, f, nb, FreeBlocks(fs, f, nb, BlockCount(SignedSize(fs, f))));
    TruncateForm(fs, f, newSize);
  }

  lemma TruncateForm(fs: Fs, f: File, newSize: Long)
    requires At(fs, f)
    ensures var nb := BlockCount(newSize);
            var fs1 := FreeBlocks(fs, f, nb, BlockCount(SignedSize(fs, f)));
            var ind := Field(fs1, f, INDIRECT);
            FileTruncateBlocks(fs, f, newSize)
            == if nb <= NDIRECT && ind != 0 then SetWord(Mark(fs1, ind, true), f.block, f.base + INDIRECT, 0) else fs1
  {
  }

  /* ---- who owns what after a cut ---- */

  /** The slots of r are emptied, exactly their blocks are freed, and other slots and types are kept. */
  ghost predicate Emptied(fs: Fs, o: Owners, r: Region, fs': Fs) {
    && Freed(fs, o, r, fs')
    && (forall t: Cell :: Known(fs, o, t.f) && (IsSlot(t) || t == Part(t.f, TYPE)) ==> Value(fs', t) == if In(r, t) then 0 else Value(fs, t))
  }

  /** No entry in the blocks cut off owns a block. */
  ghost predicate Loose(fs: Fs, o: Owners, r: Region) {
    forall c :: KnownSlot(fs, o, c) && Drops(o, r, c.f.block) ==> Value(fs, c) == 0
  }

  ghost predicate Ordered(fs: Fs) { exists p :: Inv(fs, p) }

  lemma EmptiedIs(fs: Fs, o: Owners, r: Region, fs': Fs, b: nat)
    requires Emptied(fs, o, r, fs')
    ensures Shape(fs') && |fs'.blocks| == |fs.blocks| && (InUse(fs', b) <==> InUse(fs, b) && !Drops(o, r, b))
  {
    hide Known, Value, InUse, Drops;
  }

  lemma EmptiedValue(fs: Fs, o: Owners, r: Region, fs': Fs, t: Cell)
    requires Emptied(fs, o, r, fs') && Known(fs, o, t.f)
    ensures IsSlot(t) ==> Value(fs', t) == if In(r, t) then 0 else Value(fs, t)
    ensures IsDir(fs', t.f) == IsDir(fs, t.f)
  {
    hide Known, Value, InUse, Drops;
    assert !In(r, Part(t.f, TYPE));
    assert Value(fs', Part(t.f, TYPE)) == Value(fs, Part(t.f, TYPE));
  }

  lemma LessIs(o: Owners, r: Region, b: nat)
    ensures b in Less(o, r) <==> b in o && !Drops(o, r, b)
    ensures b in Less(o, r) ==> Less(o, r)[b] == o[b]
  {
  }

  lemma LooseAt(fs: Fs, o: Owners, r: Region, c: Cell)
    requires Loose(fs, o, r) && IsSlot(c) && Known(fs, o, c.f) && Value(fs, c) != 0
    ensures !Drops(o, r, c.f.block)
  {
    hide Known, Value, Drops;
    assert KnownSlot(fs, o, c);
  }

  /** The files known afterwards are those outside the blocks cut off. */
  lemma EmptiedKnown(fs: Fs, o: Owners, r: Region, fs': Fs, g: File)
    requires Inv(fs, o) && Emptied(fs, o, r, fs')
    ensures Known(fs', Less(o, r), g) <==> Known(fs, o, g) && (g == ROOT || !Drops(o, r, g.block))
  {
    LessIs(o, r, g.block);
    if g.block in o {
      KnownOwner(fs, o, g.block);
      EmptiedValue(fs, o, r, fs', o[g.block]);
    }
    hide Inv, Emptied, IsDir, IsData, Less, Drops;
  }

  lemma EmptiedOwner(fs: Fs, o: Owners, r: Region, fs': Fs, b: nat)
    requires Inv(fs, o) && Emptied(fs, o, r, fs') && Loose(fs, o, r) && b in Less(o, r)
    ensures InUse(fs', b) && KnownSlot(fs', Less(o, r), o[b]) && Value(fs', o[b]) == b && Less(o, r)[b] == o[b]
  {
    hide *;
    LessIs(o, r, b);
    DropsIs(o, r, b);
    KnownOwner(fs, o, b);
    OwnerNonzero(fs, o, b);
    EmptiedIs(fs, o, r, fs', b);
    EmptiedValue(fs, o, r, fs', o[b]);
    LooseAt(fs, o, r, o[b]);
    EmptiedKnown(fs, o, r, fs', o[b].f);
    SlotOf(fs', Less(o, r), o[b]);
  }

  lemma EmptiedSlot(fs: Fs, o: Owners, r: Region, fs': Fs, d: Cell)
    requires Inv(fs, o) && Emptied(fs, o, r, fs') && KnownSlot(fs', Less(o, r), d) && Value(fs', d) != 0
    ensures Value(fs', d) in Less(o, r) && Less(o, r)[Value(fs', d)] == d
  {
    hide *;
    SlotOf(fs', Less(o, r), d);
    SlotOf(fs, o, d);
    EmptiedKnown(fs, o, r, fs', d.f);
    EmptiedValue(fs, o, r, fs', d);
    SlotOwned(fs, o, d);
    LessIs(o, r, Value(fs, d));
    DropsIs(o, r, Value(fs, d));
  }

  lemma EmptiedGrounded(fs: Fs, o: Owners, r: Region)
    requires Inv(fs, o) && Loose(fs, o, r)
    ensures Grounded(Less(o, r))
  {
    hide *;
    InvParts(fs, o);
    var p := Less(o, r);
    forall x: nat ensures x in p ==> x in o && p[x] == o[x] { LessIs(o, r, x); }
    forall x: nat | x in o && x in p && o[x].f != ROOT && o[x].f.block in o ensures o[x].f.block in p {
      OwnerNonzero(fs, o, x);
      LooseAt(fs, o, r, o[x]);
      LessIs(o, r, o[x].f.block);
    }
    forall b: nat | b in p ensures FromRoot(p, b) {
      RootedIs(o, b);
      RootedSame(o, p, b);
    }
    GroundedJoin(p);
  }

  /** A cut whose blocks hold no owning entry keeps ownership. */
  lemma EmptiedKeeps(fs: Fs, o: Owners, r: Region, fs': Fs)
    requires Inv(fs, o) && Emptied(fs, o, r, fs') && Loose(fs, o, r)
    requires forall g :: Known(fs, o, g) ==> SizedFile(fs', g)
    ensures Inv(fs', Less(o, r))
  {
    hide *;
    var p := Less(o, r);
    EmptiedIs(fs, o, r, fs', 0);
    forall b: nat ensures b in p ==> InUse(fs', b) && KnownSlot(fs', p, p[b]) && Value(fs', p[b]) == b {
      if b in p { EmptiedOwner(fs, o, r, fs', b); }
    }
    forall b: nat ensures InUse(fs', b) ==> b in p {
      EmptiedIs(fs, o, r, fs', b);
      OwnedIs(fs, o, b);
      LessIs(o, r, b);
    }
    forall d ensures KnownSlot(fs', p, d) ==> (Value(fs', d) != 0 ==> Value(fs', d) in p && p[Value(fs', d)] == d) {
      if KnownSlot(fs', p, d) && Value(fs', d) != 0 { EmptiedSlot(fs, o, r, fs', d); }
    }
    forall g ensures Known(fs', p, g) ==> SizedFile(fs', g) { EmptiedKnown(fs, o, r, fs', g); }
    EmptiedGrounded(fs, o, r);
    InvJoin(fs', p);
  }

  /** Whoever owns the blocks afterwards owned them before. */
  lemma {:induction false} StillOwned(fs: Fs, o: Owners, r: Region, fs': Fs, p: Owners, b: nat, n: nat)
    requires Inv(fs, o) && Emptied(fs, o, r, fs') && Inv(fs', p) && Reached(p, b, n)
    ensures b in o && o[b] == p[b] && Known(fs, o, p[b].f)
    decreases n
  {
    hide *;
    ReachedForm(p, b, n);
    var c := p[b];
    KnownOwner(fs', p, b);
    OwnerNonzero(fs', p, b);
    RootKnown(fs, o);
    if c.f != ROOT {
      var x := c.f.block;
      StillOwned(fs, o, r, fs', p, x, n - 1);
      EmptiedValue(fs, o, r, fs', p[x]);
      KnownEntry(fs, o, fs', p, c.f);
    }
    EmptiedValue(fs, o, r, fs', c);
    SlotOf(fs, o, c);
    SlotOwned(fs, o, c);
  }

  lemma ReachedForm(p: Owners, b: nat, n: nat)
    requires Reached(p, b, n)
    ensures b in p && (p[b].f != ROOT ==> n > 0 && Reached(p, p[b].f.block, n - 1))
  {
  }

  lemma RootKnown(fs: Fs, o: Owners)
    ensures Known(fs, o, ROOT)
  {
  }

  lemma KnownParts(fs: Fs, o: Owners, g: File)
    requires Known(fs, o, g) && g != ROOT
    ensures g.block in o && IsData(o[g.block]) && IsDir(fs, o[g.block].f) && g.base < BLKWORDS && g.base % FILEWORDS == 0
  {
    hide IsDir, IsData;
  }

  lemma KnownJoin(fs: Fs, o: Owners, g: File)
    requires g.block in o && IsData(o[g.block]) && IsDir(fs, o[g.block].f) && g.base < BLKWORDS && g.base % FILEWORDS == 0
    ensures Known(fs, o, g)
  {
    hide IsDir, IsData;
  }

  lemma KnownEntry(fs: Fs, o: Owners, fs': Fs, p: Owners, g: File)
    requires Known(fs', p, g) && g != ROOT && g.block in o && g.block in p && p[g.block] == o[g.block]
    requires IsDir(fs', p[g.block].f) == IsDir(fs, p[g.block].f)
    ensures Known(fs, o, g)
  {
    hide IsDir, IsData;
  }

  lemma OrderedLoose(fs: Fs, o: Owners, r: Region, fs': Fs, p: Owners, c: Cell)
    requires Inv(fs, o) && Emptied(fs, o, r, fs') && Inv(fs', p) && KnownSlot(fs, o, c) && Drops(o, r, c.f.block)
    ensures Value(fs, c) == 0
  {
    hide *;
    var (x, v) := (c.f.block, Value(fs, c));
    if v != 0 {
      SlotOwned(fs, o, c);
      DropsIs(o, r, x);
      DropsIs(o, r, v);
      NeverOwn(fs, o, x);
      KnownOwner(fs, o, x);
      InUseNotRoot(fs, x);
      if In(r, c) {
        InIs(r, c);
        InIs(r, o[x]);
      }
      EmptiedIs(fs, o, r, fs', v);
      OwnedIs(fs', p, v);
      InvParts(fs', p);
      RootedIs(p, v);
      var n := RootedBy(p, v);
      StillOwned(fs, o, r, fs', p, v, n);
      KnownOwner(fs', p, v);
      KnownIs(fs', p, c.f);
      KnownOwner(fs', p, x);
      EmptiedIs(fs, o, r, fs', x);
      assert false;
    }
  }

  lemma InUseNotRoot(fs: Fs, b: nat)
    requires InUse(fs, b)
    ensures b != ROOT.block
  {
    assert DataStart(fs) >= 2;
  }

  /** A cut leaves the disk in order exactly when the blocks cut off hold no entry that owns a block. */
  lemma EmptiedExact(fs: Fs, o: Owners, r: Region, fs': Fs)
    requires Inv(fs, o) && Emptied(fs, o, r, fs')
    requires forall g :: Known(fs, o, g) ==> SizedFile(fs', g)
    ensures Inv(fs', Less(o, r)) <==> Loose(fs, o, r)
    ensures Ordered(fs') <==> Loose(fs, o, r)
  {
    hide *;
    if Ordered(fs') {
      var p := OrderedBy(fs');
      forall c ensures KnownSlot(fs, o, c) && Drops(o, r, c.f.block) ==> Value(fs, c) == 0 {
        if KnownSlot(fs, o, c) && Drops(o, r, c.f.block) { OrderedLoose(fs, o, r, fs', p, c); }
      }
      LooseJoin(fs, o, r);
    }
    if Loose(fs, o, r) { EmptiedKeeps(fs, o, r, fs'); }
    if Inv(fs', Less(o, r)) { OrderedIs(fs', Less(o, r)); }
  }

  lemma OrderedBy(fs: Fs) returns (p: Owners)
    requires Ordered(fs)
    ensures Inv(fs, p)
  {
    p :| Inv(fs, p);
  }

  lemma OrderedIs(fs: Fs, p: Owners)
    requires Inv(fs, p)
    ensures Ordered(fs)
  {
  }

  lemma LooseJoin(fs: Fs, o: Owners, r: Region)
    requires forall c :: KnownSlot(fs, o, c) && Drops(o, r, c.f.block) ==> Value(fs, c) == 0
    ensures Loose(fs, o, r)
  {
    hide KnownSlot, Drops, Value;
  }

  /** A regular file owns no directory block, so nothing is at stake. */
  lemma LooseRegular(fs: Fs, o: Owners, r: Region)
    requires Inv(fs, o) && Regular(fs, o, r.f)
    ensures Loose(fs, o, r)
  {
    hide *;
    RegularIs(fs, o, r.f);
    forall c ensures KnownSlot(fs, o, c) && Drops(o, r, c.f.block) ==> Value(fs, c) == 0 {
      SlotOf(fs, o, c);
      KnownIs(fs, o, c.f);
      DropsIs(o, r, c.f.block);
      if KnownSlot(fs, o, c) && Drops(o, r, c.f.block) {
        KnownOwner(fs, o, c.f.block);
        InUseNotRoot(fs, c.f.block);
        InIs(r, o[c.f.block]);
      }
    }
    LooseJoin(fs, o, r);
  }

  /* ---- file_set_size ---- */

  /** The slots that a size of n takes away from f. */
  function Removed(fs: Fs, f: File, n: Long): Region {
    Region(f, BlockCount(n), END, n < Size(fs, f) && BlockCount(n) <= NDIRECT)
  }

  /** The size of f is n, the slots this takes away are empty and exactly their blocks are freed; no other
      word of a file and no contents of a regular file is affected. */
  ghost predicate SizeCut(fs: Fs, o: Owners, f: File, n: Long, fs': Fs) {
    var r := Removed(fs, f, n);
    && Freed(fs, o, r, fs')
    && (forall t: Cell :: Known(fs, o, t.f) && IsCell(t) ==>
          Value(fs', t) == if t == Part(f, SIZE) then n % 0x1_0000_0000 else if In(r, t) then 0 else Value(fs, t))
    && (forall b :: DataBlock(fs, o, b) ==> BlockAt(fs', b) == BlockAt(fs, b))
  }

  lemma SizeCutIs(fs: Fs, o: Owners, f: File, n: Long, fs': Fs, t: Cell)
    requires SizeCut(fs, o, f, n, fs')
    ensures Freed(fs, o, Removed(fs, f, n), fs') && Shape(fs') && |fs'.blocks| == |fs.blocks|
    ensures Known(fs, o, t.f) && IsCell(t) ==>
      Value(fs', t) == if t == Part(f, SIZE) then n % 0x1_0000_0000 else if In(Removed(fs, f, n), t) then 0 else Value(fs, t)
  {
    hide Known, Value, InUse, Drops, DataBlock, BlockAt, Removed;
  }

  lemma SizeCutData(fs: Fs, o: Owners, f: File, n: Long, fs': Fs, b: nat)
    requires SizeCut(fs, o, f, n, fs')
    ensures DataBlock(fs, o, b) ==> BlockAt(fs', b) == BlockAt(fs, b)
  {
    hide Known, Value, InUse, Drops, DataBlock, BlockAt, Removed;
  }

  lemma SizeCutJoin(fs: Fs, o: Owners, f: File, n: Long, fs': Fs)
    requires Freed(fs, o, Removed(fs, f, n), fs')
    requires forall t: Cell :: Known(fs, o, t.f) && IsCell(t) ==>
      Value(fs', t) == if t == Part(f, SIZE) then n % 0x1_0000_0000 else if In(Removed(fs, f, n), t) then 0 else Value(fs, t)
    requires forall b: nat :: DataBlock(fs, o, b) ==> BlockAt(fs', b) == BlockAt(fs, b)
    ensures SizeCut(fs, o, f, n, fs')
  {
    hide Freed, Known, Value, DataBlock, BlockAt, Removed;
  }

  lemma RemovedIs(fs: Fs, f: File, n: Long)
    ensures Removed(fs, f, n) == Region(f, BlockCount(n), END, n < Size(fs, f) && BlockCount(n) <= NDIRECT)
    ensures !In(Removed(fs, f, n), Part(f, SIZE))
  {
    hide BlockCount, Size;
  }

  lemma PartApart(fs: Fs, o: Owners, f: File, k: nat, t: Cell)
    requires Inv(fs, o) && Known(fs, o, f) && SIZE <= k < DIRECT && Known(fs, o, t.f) && Located(fs, t) && t != Part(f, k)
    ensures !(Home(fs, t) == f.block && Offset(t) == f.base + k)
  {
    InvParts(fs, o);
    KnownAt(fs, o, f);
    CellsApart(fs, o, Part(f, k), t);
  }

  /** The store of the size, after a cut. */
  lemma ResizeCutValue(fs: Fs, o: Owners, r: Region, fs1: Fs, f: File, n: Word, t: Cell)
    requires Inv(fs, o) && Cut(fs, o, r, fs1) && Known(fs, o, f) && Known(fs, o, t.f) && IsCell(t) && Shape(fs1)
    ensures Value(Resize(fs1, f, n), t) == if t == Part(f, SIZE) then n else if In(r, t) then 0 else Value(fs, t)
  {
    hide *;
    var (c, fs2, ind) := (Part(f, SIZE), Resize(fs1, f, n), Part(t.f, INDIRECT));
    SizeIs(fs, o, f);
    KnownBlock(fs, o, t.f);
    CutIs(fs, o, r, fs1, 0);
    CutHome(fs, o, r, fs1, t);
    CutHome(fs, o, r, fs1, ind);
    CutValue(fs, o, r, fs1, t);
    SizePlace(fs1, f, n);
    AtSame(fs, fs1, f);
    InvParts(fs, o);
    SizePlace(fs, f, n);
    ValueForm(fs, t);
    ValueForm(fs1, t);
    ValueForm(fs2, t);
    ValueForm(fs, ind);
    PutPeek(fs1, c, n, t.f.block, Offset(ind));
    PartApart(fs, o, f, SIZE, ind);
    PutPeek(fs1, c, n, Home(fs, t), Offset(t));
    if Located(fs, t) && t != c { PartApart(fs, o, f, SIZE, t); }
  }

  lemma SizePlace(fs: Fs, f: File, n: Word)
    requires Shape(fs)
    ensures Resize(fs, f, n) == Put(fs, Part(f, SIZE), n) && Home(fs, Part(f, SIZE)) == f.block && Offset(Part(f, SIZE)) == f.base + SIZE
    ensures At(fs, f) ==> f.block < |fs.blocks| && f.base + SIZE < BLKWORDS && Resize(fs, f, n) == SetWord(fs, f.block, f.base + SIZE, n)
    ensures SIZE <= SIZE < DIRECT && Part(f, INDIRECT) != Part(f, SIZE) && !Part(f, SIZE).Entry?
    ensures forall b: nat :: InUse(Resize(fs, f, n), b) == InUse(fs, b)
    ensures forall b: nat :: b != f.block ==> BlockAt(Resize(fs, f, n), b) == BlockAt(fs, b)
    ensures Shape(Resize(fs, f, n)) && |Resize(fs, f, n).blocks| == |fs.blocks|
  {
  }

  lemma ResizeCuts(fs: Fs, o: Owners, f: File, n: Long, fs1: Fs)
    requires Inv(fs, o) && Known(fs, o, f) && Cut(fs, o, Removed(fs, f, n), fs1)
    ensures Shape(fs1) && SizeCut(fs, o, f, n, Resize(fs1, f, n % 0x1_0000_0000))
  {
    hide *;
    var r := Removed(fs, f, n);
    SizeIs(fs, o, f);
    CutIs(fs, o, r, fs1, 0);
    var w: Word := n % 0x1_0000_0000;
    var fs2 := Resize(fs1, f, w);
    SizePlace(fs1, f, w);
    forall b: nat ensures InUse(fs2, b) <==> InUse(fs, b) && !Drops(o, r, b) { CutIs(fs, o, r, fs1, b); }
    FreedJoin(fs, o, r, fs2);
    forall t: Cell | Known(fs, o, t.f) && IsCell(t)
      ensures Value(fs2, t) == if t == Part(f, SIZE) then w else if In(r, t) then 0 else Value(fs, t)
    {
      ResizeCutValue(fs, o, r, fs1, f, w, t);
    }
    forall b: nat | DataBlock(fs, o, b) ensures BlockAt(fs2, b) == BlockAt(fs, b) {
      CutIs(fs, o, r, fs1, b);
      DataNotFile(fs, o, b, f);
    }
    SizeCutJoin(fs, o, f, n, fs2);
  }

  lemma FreedJoin(fs: Fs, o: Owners, r: Region, fs': Fs)
    requires Shape(fs') && |fs'.blocks| == |fs.blocks|
    requires forall b: nat :: InUse(fs', b) <==> InUse(fs, b) && !Drops(o, r, b)
    ensures Freed(fs, o, r, fs')
  {
    hide InUse, Drops;
  }

  lemma DataNotFile(fs: Fs, o: Owners, b: nat, f: File)
    requires Inv(fs, o) && DataBlock(fs, o, b) && Known(fs, o, f)
    ensures b != f.block
  {
    KnownBlock(fs, o, f);
    InvParts(fs, o);
    DataApart(fs, o, b, Part(f, INDIRECT));
  }

  lemma SetSizeForm(fs: Fs, f: File, n: Long, fs1: Fs)
    requires At(fs, f) && fs1 == if SignedSize(fs, f) > n then FileTruncateBlocks(fs, f, n) else fs
    ensures Shape(fs1) && At(fs1, f) && FileSetSize(fs, f, n) == SetWord(fs1, f.block, f.base + SIZE, n % 0x1_0000_0000)
  {
    hide FileTruncateBlocks, SignedSize;
  }

  /** What file_set_size does to a file of any kind, whatever off_t it is given. */
  lemma SetSizeCuts(fs: Fs, o: Owners, f: File, n: Long)
    requires Inv(fs, o) && Known(fs, o, f)
    ensures Shape(fs) && At(fs, f) && SizeCut(fs, o, f, n, FileSetSize(fs, f, n))
  {
    hide *;
    InvParts(fs, o);
    SizeIs(fs, o, f);
    RemovedIs(fs, f, n);
    var (nb, size) := (BlockCount(n), Size(fs, f));
    var fs1 := if size > n then FileTruncateBlocks(fs, f, n) else fs;
    if size > n {
      TruncateCuts(fs, o, f, n);
    } else {
      CountGrows(size, n);
      CutSelf(fs, o, f, nb);
      forall t: Cell | In(Region(f, nb, END, false), t) ensures Value(fs, t) == 0 { PastEnd(fs, o, f, nb, t); }
      Unfreed(f, nb);
      CutMore(fs, o, Region(f, nb, nb, false), fs, Region(f, nb, END, false));
    }
    SetSizeForm(fs, f, n, fs1);
    ResizeCuts(fs, o, f, n, fs1);
    SizePlace(fs1, f, n % 0x1_0000_0000);
  }

  lemma Unfreed(f: File, nb: nat)
    ensures forall t: Cell :: !In(Region(f, nb, nb, false), t)
  {
  }

  /* ---- sizes after a cut ---- */

  lemma SizedLess(fs: Fs, fs': Fs, f: File)
    requires SizedFile(fs, f) && Size(fs', f) == Size(fs, f)
    requires forall t: Cell :: t.f == f && IsSlot(t) ==> Value(fs', t) == Value(fs, t) || Value(fs', t) == 0
    ensures SizedFile(fs', f)
  {
    hide Value, NBlocks;
    assert IsSlot(Part(f, INDIRECT)) && forall i :: 0 <= i < MAXBLOCKS ==> IsSlot(DataCell(f, i)) && DataCell(f, i).f == f;
  }

  lemma SizedCut(fs: Fs, fs': Fs, f: File, n: Long)
    requires SizedFile(fs, f) && Fits(n) && Size(fs', f) == n
    requires forall t: Cell :: t.f == f && IsSlot(t) ==> Value(fs', t) == if In(Removed(fs, f, n), t) then 0 else Value(fs, t)
    ensures SizedFile(fs', f)
  {
    CountFits(n);
    if Size(fs, f) <= n { BlocksMonotone(Size(fs, f), n); }
    var ind := Part(f, INDIRECT);
    assert IsSlot(ind) && (In(Removed(fs, f, n), ind) <==> n < Size(fs, f) && NBlocks(n) <= NDIRECT);
    forall i | NBlocks(n) <= i < MAXBLOCKS ensures Value(fs', DataCell(f, i)) == 0 {
      DataCells(f, i);
      DataIn(Removed(fs, f, n), f, i);
    }
    hide Value, NBlocks;
  }

  lemma CutSized(fs: Fs, o: Owners, r: Region, fs': Fs, g: File)
    requires Inv(fs, o) && Cut(fs, o, r, fs') && Known(fs, o, g)
    ensures SizedFile(fs', g)
  {
    hide *;
    SizedIs(fs, o, g);
    forall t: Cell | t.f == g && (IsSlot(t) || t == Part(g, SIZE)) ensures Value(fs', t) == if In(r, t) then 0 else Value(fs, t) {
      SlotIsCell(t);
      CutValue(fs, o, r, fs', t);
    }
    SizeOf(fs, g);
    SizeOf(fs', g);
    SizeNoSlot(g);
    if In(r, Part(g, SIZE)) { InIs(r, Part(g, SIZE)); }
    SizedLess(fs, fs', g);
  }

  lemma SizeNoSlot(f: File)
    ensures !IsSlot(Part(f, SIZE)) && IsCell(Part(f, SIZE))
  {
  }

  lemma SizeCutSized(fs: Fs, o: Owners, f: File, n: Long, fs': Fs, g: File)
    requires Inv(fs, o) && Known(fs, o, f) && Fits(n) && SizeCut(fs, o, f, n, fs') && Known(fs, o, g)
    ensures SizedFile(fs', g)
  {
    hide *;
    SizedIs(fs, o, g);
    var r := Removed(fs, f, n);
    RemovedIs(fs, f, n);
    CountFits(n);
    SizeNoSlot(f);
    SizeNoSlot(g);
    forall t: Cell | t.f == g && IsCell(t)
      ensures Value(fs', t) == if t == Part(f, SIZE) then n % 0x1_0000_0000 else if In(r, t) then 0 else Value(fs, t)
    {
      SizeCutIs(fs, o, f, n, fs', t);
    }
    forall t: Cell | t.f == g && IsSlot(t) ensures IsCell(t) && t != Part(f, SIZE) { SlotIsCell(t); }
    SizeOf(fs, g);
    SizeOf(fs', g);
    if In(r, Part(g, SIZE)) { InIs(r, Part(g, SIZE)); }
    if g == f { SizedCut(fs, fs', f, n); } else { SizedLess(fs, fs', g); }
  }

  lemma CutEmpties(fs: Fs, o: Owners, r: Region, fs': Fs)
    requires Cut(fs, o, r, fs')
    ensures Emptied(fs, o, r, fs')
  {
    assert forall t: Cell :: t == Part(t.f, TYPE) ==> IsCell(t) && !In(r, t);
    assert forall t: Cell :: IsSlot(t) ==> IsCell(t);
    hide Known, Value, Freed, DataBlock, BlockAt, In;
  }

  lemma SizeCutEmpties(fs: Fs, o: Owners, f: File, n: Long, fs': Fs)
    requires SizeCut(fs, o, f, n, fs')
    ensures Emptied(fs, o, Removed(fs, f, n), fs')
  {
    assert forall t: Cell :: t == Part(t.f, TYPE) ==> IsCell(t) && !In(Removed(fs, f, n), t) && t != Part(f, SIZE);
    assert forall t: Cell :: IsSlot(t) ==> IsCell(t) && t != Part(f, SIZE);
    hide Known, Value, Freed, DataBlock, BlockAt, In, Removed;
  }

  /* ---- the main results ---- */

  lemma OneSlot(r: Region, f: File, n: nat)
    requires n < MAXBLOCKS && r == Region(f, n, n + 1, false)
    ensures forall t: Cell :: In(r, t) <==> t == DataCell(f, n)
  {
  }

  lemma OneLess(o: Owners, r: Region, c: Cell, b: nat)
    requires b in o && o[b] == c && forall t: Cell :: In(r, t) <==> t == c
    requires forall x: nat :: x in o && x != b ==> o[x] != c
    ensures Less(o, r) == o - {b}
    ensures forall x: nat :: Drops(o, r, x) <==> x == b
  {
  }

  /** file_free_block on a file of any kind keeps ownership exactly when no entry in the block freed owns
      a block. */
  lemma FreeBlockExact(fs: Fs, o: Owners, d: File, n: nat)
    requires Inv(fs, o) && Known(fs, o, d) && BlockOf(fs, d, n) != 0
    ensures Shape(fs) && At(fs, d)
    ensures var b := BlockOf(fs, d, n);
            Inv(FileFreeBlock(fs, d, n).0, o - {b}) <==> forall c :: KnownSlot(fs, o, c) && c.f.block == b ==> Value(fs, c) == 0
    ensures Ordered(FileFreeBlock(fs, d, n).0) <==> Inv(FileFreeBlock(fs, d, n).0, o - {BlockOf(fs, d, n)})
  {
    hide *;
    FreeBlockCuts(fs, o, d, n);
    var (b, r, fs') := (BlockOf(fs, d, n), Region(d, n, n + 1, false), FileFreeBlock(fs, d, n).0);
    CutEmpties(fs, o, r, fs');
    forall g | Known(fs, o, g) ensures SizedFile(fs', g) { CutSized(fs, o, r, fs', g); }
    BlockOfIs(fs, o, d, n);
    forall x: nat | x in o && x != b ensures o[x] != DataCell(d, n) {
      OwnerNonzero(fs, o, x);
      OwnerNonzero(fs, o, b);
    }
    OneSlot(r, d, n);
    OneLess(o, r, DataCell(d, n), b);
    EmptiedExact(fs, o, r, fs');
    if Loose(fs, o, r) {
      forall c ensures KnownSlot(fs, o, c) && c.f.block == b ==> Value(fs, c) == 0 {
        SlotOf(fs, o, c);
        if KnownSlot(fs, o, c) && Value(fs, c) != 0 { LooseAt(fs, o, r, c); }
      }
    }
    if forall c :: KnownSlot(fs, o, c) && c.f.block == b ==> Value(fs, c) == 0 { LooseJoin(fs, o, r); }
  }

  /** The files on the way to g stay known, unless the way runs through f. */
  lemma {:induction false} KnownStill(fs: Fs, o: Owners, f: File, n: Long, fs': Fs, p: Owners, g: File, k: nat)
    requires Inv(fs, o) && SizeCut(fs, o, f, n, fs') && Inv(fs', p) && Known(fs, o, g) && (g == ROOT || Reached(o, g.block, k))
    ensures Known(fs', p, g) || Known(fs', p, f)
    decreases k
  {
    hide *;
    RootKnown(fs', p);
    if g != ROOT {
      var b := g.block;
      ReachedForm(o, b, k);
      var c := o[b];
      KnownOwner(fs, o, b);
      OwnerNonzero(fs, o, b);
      SizeCutEmpties(fs, o, f, n, fs');
      if c.f != ROOT { KnownStill(fs, o, f, n, fs', p, c.f, k - 1); }
      if Known(fs', p, c.f) && c.f != f {
        var r := Removed(fs, f, n);
        RemovedIs(fs, f, n);
        if In(r, c) { InIs(r, c); }
        EmptiedValue(fs, o, r, fs', c);
        SlotOf(fs', p, c);
        SlotOwned(fs', p, c);
        KnownParts(fs, o, g);
        KnownJoin(fs', p, g);
      }
    }
  }

  /** A size that does not fit leaves the disk out of order. */
  lemma UnfitDisorders(fs: Fs, o: Owners, f: File, n: Long, fs': Fs)
    requires Inv(fs, o) && Known(fs, o, f) && SizeCut(fs, o, f, n, fs') && !Fits(n)
    ensures !Ordered(fs')
  {
    hide *;
    if Ordered(fs') {
      var p := OrderedBy(fs');
      var k := Rank(fs, o, f);
      KnownStill(fs, o, f, n, fs', p, f, k);
      SizeIs(fs', p, f);
      SizeNoSlot(f);
      SizeCutIs(fs, o, f, n, fs', Part(f, SIZE));
      SizeOf(fs', f);
      StoredSize(n);
      assert false;
    }
  }

  lemma Rank(fs: Fs, o: Owners, g: File) returns (k: nat)
    requires Inv(fs, o) && Known(fs, o, g)
    ensures g == ROOT || Reached(o, g.block, k)
  {
    hide *;
    k := 0;
    if g != ROOT {
      InvParts(fs, o);
      KnownParts(fs, o, g);
      RootedIs(o, g.block);
      k := RootedBy(o, g.block);
    }
  }

  /** file_set_size on a file of any kind keeps ownership exactly when the size fits and no entry in the
      blocks cut off owns a block. */
  lemma SetSizeExact(fs: Fs, o: Owners, f: File, n: Long)
    requires Inv(fs, o) && Known(fs, o, f)
    ensures Shape(fs) && At(fs, f)
    ensures var (r, fs') := (Removed(fs, f, n), FileSetSize(fs, f, n));
            && (Inv(fs', Less(o, r)) <==> Fits(n) && Loose(fs, o, r))
            && (Ordered(fs') <==> Fits(n) && Loose(fs, o, r))
  {
    hide *;
    SetSizeCuts(fs, o, f, n);
    var (r, fs') := (Removed(fs, f, n), FileSetSize(fs, f, n));
    if Fits(n) {
      SizeCutEmpties(fs, o, f, n, fs');
      forall g | Known(fs, o, g) ensures SizedFile(fs', g) { SizeCutSized(fs, o, f, n, fs', g); }
      EmptiedExact(fs, o, r, fs');
    } else {
      UnfitDisorders(fs, o, f, n, fs');
      if Inv(fs', Less(o, r)) { OrderedIs(fs', Less(o, r)); }
    }
  }

  /* ---- regular files ---- */

  /** Block m of g loses its contents with its slot. */
  predicate Covers(r: Region, g: File, m: nat) { g == r.f && r.lo <= m < r.hi }

  /** The contents of block m of g after the slots of r are emptied. */
  function Cleared(fs: Fs, r: Region, g: File, m: nat): seq<Word> {
    if Covers(r, g, m) then ZeroBlock() else Content(fs, g, m)
  }

  /** The size is n, the slots past it are empty and exactly their blocks are free; every other word,
      every other file and the contents of f up to there are as before. */
  ghost predicate SizeSet(fs: Fs, o: Owners, f: File, n: Long, fs': Fs, o': Owners) {
    var r := Removed(fs, f, n);
    && Inv(fs', o') && |fs'.blocks| == |fs.blocks| && o' == Less(o, r)
    && (forall g :: Known(fs', o', g) <==> Known(fs, o, g))
    && (forall t: Cell :: Known(fs, o, t.f) && IsCell(t) ==>
          Value(fs', t) == if t == Part(f, SIZE) then n else if In(r, t) then 0 else Value(fs, t))
    && (forall g, m: nat :: Regular(fs, o, g) ==> Content(fs', g, m) == Cleared(fs, r, g, m))
  }

  lemma SizeCutContent(fs: Fs, o: Owners, f: File, n: Long, fs': Fs, g: File, m: nat)
    requires Inv(fs, o) && SizeCut(fs, o, f, n, fs') && Regular(fs, o, g)
    ensures Content(fs', g, m) == Cleared(fs, Removed(fs, f, n), g, m)
  {
    hide *;
    RegularIs(fs, o, g);
    var (b, r, c) := (BlockOf(fs, g, m), Removed(fs, f, n), DataCell(g, m));
    BlockIs(fs, g, m);
    BlockIs(fs', g, m);
    DataIn(r, g, m);
    RemovedIs(fs, f, n);
    DataCells(g, m);
    SizeNoSlot(f);
    SizeCutIs(fs, o, f, n, fs', c);
    if b != 0 {
      BlockOfIs(fs, o, g, m);
      DataBlockIs(fs, o, b);
      SizeCutData(fs, o, f, n, fs', b);
    }
    if m < MAXBLOCKS { SlotKnown(fs, o, g, m); SlotIsData(c); }
    ContentForm(fs, r, g, m);
    ContentForm(fs', r, g, m);
  }

  lemma SlotIsData(c: Cell)
    ensures IsData(c) ==> IsSlot(c)
  {
  }

  lemma DataBlockIs(fs: Fs, o: Owners, b: nat)
    ensures DataBlock(fs, o, b) <==> b in o && IsData(o[b]) && !IsDir(fs, o[b].f)
  {
  }

  lemma ContentForm(fs: Fs, r: Region, g: File, m: nat)
    ensures Content(fs, g, m) == BlockAt(fs, BlockOf(fs, g, m)) && BlockAt(fs, 0) == ZeroBlock()
    ensures Cleared(fs, r, g, m) == if g == r.f && r.lo <= m < r.hi then ZeroBlock() else Content(fs, g, m)
  {
  }

  /** file_set_size on a regular file; it leaves the disk in order exactly when the size fits. */
  lemma SetSizeKeeps(fs: Fs, o: Owners, f: File, n: Long)
    requires Inv(fs, o) && Regular(fs, o, f)
    ensures Shape(fs) && At(fs, f)
    ensures Fits(n) ==> SizeSet(fs, o, f, n, FileSetSize(fs, f, n), Less(o, Removed(fs, f, n)))
    ensures Ordered(FileSetSize(fs, f, n)) <==> Fits(n)
  {
    hide *;
    RegularIs(fs, o, f);
    SetSizeCuts(fs, o, f, n);
    var (r, fs') := (Removed(fs, f, n), FileSetSize(fs, f, n));
    RemovedIs(fs, f, n);
    LooseRegular(fs, o, r);
    SetSizeExact(fs, o, f, n);
    SizeCutEmpties(fs, o, f, n, fs');
    SizeCutIs(fs, o, f, n, fs', Part(f, SIZE));
    var p := Less(o, r);
    forall g ensures Known(fs', p, g) <==> Known(fs, o, g) {
      EmptiedKnown(fs, o, r, fs', g);
      if Known(fs, o, g) && g != ROOT && Drops(o, r, g.block) {
        KnownIs(fs, o, g);
        DropsIs(o, r, g.block);
        InIs(r, o[g.block]);
      }
    }
    forall t: Cell | Known(fs, o, t.f) && IsCell(t)
      ensures Value(fs', t) == if t == Part(f, SIZE) then n % 0x1_0000_0000 else if In(r, t) then 0 else Value(fs, t)
    {
      SizeCutIs(fs, o, f, n, fs', t);
    }
    forall g, m: nat | Regular(fs, o, g) ensures Content(fs', g, m) == Cleared(fs, r, g, m) {
      SizeCutContent(fs, o, f, n, fs', g, m);
    }
    CountFits(n);
    if Fits(n) { SizeSetJoin(fs, o, f, n, fs', p); }
  }

  lemma SizeSetJoin(fs: Fs, o: Owners, f: File, n: Long, fs': Fs, o': Owners)
    requires var r := Removed(fs, f, n);
             && Inv(fs', o') && |fs'.blocks| == |fs.blocks| && o' == Less(o, r)
             && (forall g :: Known(fs', o', g) <==> Known(fs, o, g))
             && (forall t: Cell :: Known(fs, o, t.f) && IsCell(t) ==>
                   Value(fs', t) == if t == Part(f, SIZE) then n else if In(r, t) then 0 else Value(fs, t))
             && (forall g, m: nat :: Regular(fs, o, g) ==> Content(fs', g, m) == Cleared(fs, r, g, m))
    ensures SizeSet(fs, o, f, n, fs', o')
  {
    hide Inv, Known, Value, Content, Less, In, Removed;
  }
}
