/** Stores into file structures: names, sizes, and the clearing of a slot. */
module FileRelease {
  import opened Disk
  import opened FileSystem
  import opened FileOwnership

  /* ---- stores that move no block ---- */

  /** The same blocks are in use and every slot and file type is as before. */
  ghost predicate SameMaps(fs: Fs, o: Owners, fs': Fs) {
    && Shape(fs') && |fs'.blocks| == |fs.blocks| && fs'.bitmap == fs.bitmap
    && (forall c: Cell :: Known(fs, o, c.f) && (IsSlot(c) || c == Part(c.f, TYPE)) ==> Value(fs', c) == Value(fs, c))
  }

  lemma SameKnown(fs: Fs, o: Owners, fs': Fs, f: File)
    requires Inv(fs, o) && SameMaps(fs, o, fs')
    ensures Known(fs', o, f) <==> Known(fs, o, f)
  {
    if f.block in o {
      KnownOwner(fs, o, f.block);
      assert IsDir(fs', o[f.block].f) == IsDir(fs, o[f.block].f) by { hide Known, Inv, IsSlot; }
    }
    hide Inv, SameMaps, IsDir, IsData;
  }

  lemma SameSlot(fs: Fs, o: Owners, fs': Fs, c: Cell)
    requires Inv(fs, o) && SameMaps(fs, o, fs')
    ensures KnownSlot(fs', o, c) <==> KnownSlot(fs, o, c)
    ensures KnownSlot(fs, o, c) ==> Value(fs', c) == Value(fs, c) && (Value(fs, c) != 0 ==> Value(fs, c) in o && o[Value(fs, c)] == c)
  {
    SameKnown(fs, o, fs', c.f);
    hide Known, Value;
  }

  lemma SameInUse(fs: Fs, o: Owners, fs': Fs, b: nat)
    requires SameMaps(fs, o, fs')
    ensures Shape(fs') && InUse(fs', b) == InUse(fs, b)
  {
  }

  /** Such a change keeps ownership if the sizes still fit. */
  lemma SameKeeps(fs: Fs, o: Owners, fs': Fs)
    requires Inv(fs, o) && SameMaps(fs, o, fs')
    requires forall f :: Known(fs, o, f) ==> SizedFile(fs', f)
    ensures Inv(fs', o)
  {
    hide *;
    SameInUse(fs, o, fs', 0);
    InvParts(fs, o);
    forall b: nat ensures b in o ==> InUse(fs', b) && KnownSlot(fs', o, o[b]) && Value(fs', o[b]) == b {
      if b in o {
        KnownOwner(fs, o, b);
        SameSlot(fs, o, fs', o[b]);
        SameInUse(fs, o, fs', b);
      }
    }
    forall b: nat ensures InUse(fs', b) ==> b in o {
      SameInUse(fs, o, fs', b);
      OwnedIs(fs, o, b);
    }
    forall d ensures KnownSlot(fs', o, d) ==> (Value(fs', d) != 0 ==> Value(fs', d) in o && o[Value(fs', d)] == d) {
      SameSlot(fs, o, fs', d);
    }
    forall f ensures Known(fs', o, f) ==> SizedFile(fs', f) { SameKnown(fs, o, fs', f); }
    InvJoin(fs', o);
  }

  /** A store into a name, size or other word of a struct File that is no slot nor type. */
  ghost predicate Plain(fs: Fs, o: Owners, c: Cell) {
    Inv(fs, o) && Known(fs, o, c.f) && c.Part? && c.k < FILEWORDS && !IsSlot(c) && c.k != TYPE
  }

  lemma PlainPut(fs: Fs, o: Owners, c: Cell, w: Word, t: Cell)
    requires Plain(fs, o, c) && Known(fs, o, t.f) && IsCell(t)
    ensures Value(Put(fs, c, w), t) == if t == c then w else Value(fs, t)
  {
    KnownAt(fs, o, c.f);
    LocatedAt(fs, o, c);
    PutValue(fs, o, c, w, t);
  }

  lemma PlainSame(fs: Fs, o: Owners, c: Cell, w: Word)
    requires Plain(fs, o, c)
    ensures SameMaps(fs, o, Put(fs, c, w))
  {
    forall t: Cell | Known(fs, o, t.f) && (IsSlot(t) || t == Part(t.f, TYPE)) ensures Value(Put(fs, c, w), t) == Value(fs, t) {
      PlainPut(fs, o, c, w, t);
    }
    hide Value, Known, Home, Offset, Inv;
    assert Shape(fs) by { InvParts(fs, o); }
  }

  lemma SizedIs(fs: Fs, o: Owners, f: File)
    requires Inv(fs, o) && Known(fs, o, f)
    ensures SizedFile(fs, f) && Size(fs, f) <= MAXSIZE
  {
  }

  /** What SizedFile depends on. */
  lemma SizedSame(fs: Fs, fs': Fs, f: File)
    requires SizedFile(fs, f)
    requires forall t: Cell :: t.f == f && (IsSlot(t) || t == Part(f, SIZE)) ==> Value(fs', t) == Value(fs, t)
    ensures SizedFile(fs', f)
  {
    hide Value;
    assert IsSlot(Part(f, INDIRECT)) && forall n :: 0 <= n < MAXBLOCKS ==> IsSlot(DataCell(f, n));
  }

  lemma SlotIsCell(t: Cell)
    ensures IsSlot(t) || t == Part(t.f, SIZE) ==> IsCell(t)
  {
  }

  /* ---- changing a size ---- */

  function Resize(fs: Fs, f: File, n: Word): (fs': Fs)
    requires Shape(fs)
  {
    Put(fs, Part(f, SIZE), n)
  }

  /** No slot of f past a size of n is in use. */
  ghost predicate FitsIn(fs: Fs, f: File, n: nat) {
    && n <= MAXSIZE
    && (NBlocks(n) < NDIRECT ==> Value(fs, Part(f, INDIRECT)) == 0)
    && (forall i :: NBlocks(n) <= i < MAXBLOCKS ==> Value(fs, DataCell(f, i)) == 0)
  }

  lemma ResizeValue(fs: Fs, o: Owners, f: File, n: Word, t: Cell)
    requires Inv(fs, o) && Known(fs, o, f) && Known(fs, o, t.f) && IsCell(t)
    ensures Value(Resize(fs, f, n), t) == if t == Part(f, SIZE) then n else Value(fs, t)
  {
    PlainPut(fs, o, Part(f, SIZE), n, t);
    hide Value, Known, Inv, Put;
    InvParts(fs, o);
  }

  lemma ResizeSized(fs: Fs, o: Owners, f: File, n: Word, g: File)
    requires Inv(fs, o) && Known(fs, o, f) && Known(fs, o, g) && FitsIn(fs, f, n)
    ensures SizedFile(Resize(fs, f, n), g)
  {
    hide *;
    InvParts(fs, o);
    SizedIs(fs, o, g);
    forall t: Cell | t.f == g && (IsSlot(t) || t == Part(g, SIZE))
      ensures Value(Resize(fs, f, n), t) == if t == Part(f, SIZE) then n else Value(fs, t)
    {
      SlotIsCell(t);
      ResizeValue(fs, o, f, n, t);
    }
    if g == f { SizedFits(fs, Resize(fs, f, n), f, n); } else { SizedSame(fs, Resize(fs, f, n), g); }
  }

  lemma SizedFits(fs: Fs, fs': Fs, f: File, n: nat)
    requires FitsIn(fs, f, n)
    requires forall t: Cell :: t.f == f && (IsSlot(t) || t == Part(f, SIZE)) ==> Value(fs', t) == if t == Part(f, SIZE) then n else Value(fs, t)
    ensures SizedFile(fs', f)
  {
    hide Value;
    assert IsSlot(Part(f, INDIRECT)) && forall i :: 0 <= i < MAXBLOCKS ==> IsSlot(DataCell(f, i)) && DataCell(f, i) != Part(f, SIZE);
  }

  lemma ResizeKeeps(fs: Fs, o: Owners, f: File, n: Word)
    requires Inv(fs, o) && Known(fs, o, f) && FitsIn(fs, f, n)
    ensures Inv(Resize(fs, f, n), o)
  {
    PlainSame(fs, o, Part(f, SIZE), n);
    forall g | Known(fs, o, g) ensures SizedFile(Resize(fs, f, n), g) { ResizeSized(fs, o, f, n, g); }
    hide Known, SizedFile, Inv, SameMaps, Put;
    SameKeeps(fs, o, Resize(fs, f, n));
  }

  lemma SlotOwned(fs: Fs, o: Owners, d: Cell)
    requires Inv(fs, o) && KnownSlot(fs, o, d)
    ensures Value(fs, d) != 0 ==> Value(fs, d) in o && o[Value(fs, d)] == d && InUse(fs, Value(fs, d))
  {
  }

  /* ---- taking a block back ---- */

  /** The block of slot c is marked free and the slot cleared. */
  function Detach(fs: Fs, c: Cell): (fs': Fs)
    requires Shape(fs)
    ensures Shape(fs') && |fs'.blocks| == |fs.blocks|
  {
    Put(Mark(fs, Value(fs, c), true), c, 0)
  }

  lemma DetachForm(fs: Fs, c: Cell, t: Cell)
    requires Shape(fs)
    ensures Value(Detach(fs, c), t) == Value(Put(fs, c, 0), t) && Home(Detach(fs, c), t) == Home(Put(fs, c, 0), t)
  {
    var b := Value(fs, c);
    assert Put(Mark(fs, b, true), c, 0) == Mark(Put(fs, c, 0), b, true);
    MarkValue(Put(fs, c, 0), b, true, t);
  }

  lemma DetachedInUse(fs: Fs, c: Cell, b: nat)
    requires Shape(fs) && InUse(fs, Value(fs, c))
    ensures InUse(Detach(fs, c), b) <==> InUse(fs, b) && b != Value(fs, c)
  {
    MarkFree(fs, Value(fs, c), true, b);
    hide Bit, FlipBit;
  }
}
