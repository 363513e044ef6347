/** The contents of regular files, and file_get_block: filling holes changes no file. */
module FileContents {
  import opened Disk
  import opened FileSystem
  import opened FileOwnership
  import opened FreeSpace
  import opened FileRelease

  /** The disk block behind block n of f; 0 is a hole. */
  function BlockOf(fs: Fs, f: File, n: nat): nat { if n < MAXBLOCKS then Value(fs, DataCell(f, n)) else 0 }

  function BlockAt(fs: Fs, b: nat): seq<Word> { if b == 0 || b >= |fs.blocks| then ZeroBlock() else fs.blocks[b] }

  /** What block n of f holds: a hole reads as zeros. */
  function Content(fs: Fs, f: File, n: nat): seq<Word> { BlockAt(fs, BlockOf(fs, f, n)) }

  /** Byte p of f. */
  function ByteAt(fs: Fs, f: File, p: nat): Byte
    requires Shape(fs)
  {
    GetByte(Content(fs, f, BlockNo(p)), BlockOffset(p))
  }

  ghost predicate Regular(fs: Fs, o: Owners, f: File) { Known(fs, o, f) && !IsDir(fs, f) }

  /** A file whose contents a change within f itself leaves alone: a directory's own struct File is elsewhere. */
  ghost predicate Steady(fs: Fs, o: Owners, f: File, g: File) { Known(fs, o, g) && (g == f || !IsDir(fs, g)) }

  lemma BlockOfIs(fs: Fs, o: Owners, f: File, n: nat)
    requires Inv(fs, o) && Known(fs, o, f) && BlockOf(fs, f, n) != 0
    ensures n < MAXBLOCKS && IsData(DataCell(f, n)) && IsCell(DataCell(f, n)) && Index(DataCell(f, n)) == n
    ensures BlockOf(fs, f, n) in o && o[BlockOf(fs, f, n)] == DataCell(f, n) && InUse(fs, BlockOf(fs, f, n))
  {
    assert KnownSlot(fs, o, DataCell(f, n));
  }

  lemma DataCells(f: File, n: nat)
    ensures n < MAXBLOCKS ==> IsData(DataCell(f, n)) && IsCell(DataCell(f, n)) && Index(DataCell(f, n)) == n && DataCell(f, n).f == f
  {
  }

  lemma AttachBlock(fs: Fs, o: Owners, c: Cell, r: nat, g: File, n: nat)
    requires CanAttach(fs, o, c, r) && Known(fs, o, g)
    ensures BlockOf(Attach(fs, c, r), g, n) == if n < MAXBLOCKS && DataCell(g, n) == c then r else BlockOf(fs, g, n)
  {
    DataCells(g, n);
    if n < MAXBLOCKS { AttachValue(fs, o, c, r, DataCell(g, n)); }
    hide Attach, Value, Known, CanAttach, DataCell;
    KnownRoot(fs, o, c, r);
  }

  /** No slot of a file is in one of its own data blocks. */
  lemma OwnApart(fs: Fs, o: Owners, b: nat, c: Cell)
    requires Inv(fs, o) && b in o && IsData(o[b]) && o[b].f == c.f && IsSlot(c) && Located(fs, c)
    ensures Home(fs, c) != b
  {
    KnownOwner(fs, o, b);
    InvParts(fs, o);
    LocatedAt(fs, o, c);
    NeverOwn(fs, o, b);
    hide Inv, Known, Value, InUse;
  }

  /** A cleared block in place of a hole reads the same. */
  lemma AttachContent(fs: Fs, o: Owners, c: Cell, r: nat, g: File, n: nat)
    requires CanAttach(fs, o, c, r) && Steady(fs, o, c.f, g)
    ensures Content(Attach(fs, c, r), g, n) == Content(fs, g, n)
  {
    KnownRoot(fs, o, c, r);
    AttachBlock(fs, o, c, r, g, n);
    var b := BlockOf(fs, g, n);
    if b != 0 {
      BlockOfIs(fs, o, g, n);
      if g == c.f { OwnApart(fs, o, b, c); } else { DataApart(fs, o, b, c); }
    }
    FreeApart(fs, o, r, c);
    assert b != Home(fs, c);
    AttachAt(fs, c, r, b);
    AttachAt(fs, c, r, r);
    hide Known, Inv, BlockOf, Attach, IsData;
  }

  lemma AttachAt(fs: Fs, c: Cell, r: nat, b: nat)
    requires Shape(fs) && 0 < r < |fs.blocks| && b != Home(fs, c)
    ensures BlockAt(Attach(fs, c, r), b) == if b == r then ZeroBlock() else BlockAt(fs, b)
  {
  }

  lemma DetachAt(fs: Fs, c: Cell, b: nat)
    requires Shape(fs)
    ensures b != Home(fs, c) ==> BlockAt(Detach(fs, c), b) == BlockAt(fs, b)
  {
  }

  /* ---- file_get_block as filling slots ---- */

  /** The block of slot c, allocated first if the slot is empty. */
  function Fill(fs: Fs, c: Cell): (r: (Fs, int))
    requires Shape(fs)
    ensures Shape(r.0) && |r.0.blocks| == |fs.blocks|
  {
    var (_, b) := AllocBlock(fs);
    if Value(fs, c) != 0 then (fs, Value(fs, c)) else if b < 0 then (fs, E_NO_DISK) else (Attach(fs, c, b), b)
  }

  /** file_get_block fills the indirect slot, if the block needs it, and then the block's own. */
  function GetBlock(fs: Fs, f: File, n: nat): (r: (Fs, int))
    requires Shape(fs)
  {
    if n >= MAXBLOCKS then (fs, E_INVAL)
    else if n < NDIRECT then Fill(fs, DataCell(f, n))
    else
      var (fs1, ind) := Fill(fs, Part(f, INDIRECT));
      if ind < 0 then (fs1, ind) else Fill(fs1, DataCell(f, n))
  }

  lemma FillForm(fs: Fs, o: Owners, c: Cell)
    requires Inv(fs, o) && KnownSlot(fs, o, c) && Located(fs, c)
    ensures var v := Peek(fs, Home(fs, c), Offset(c));
            && v < |fs.blocks| && Home(fs, c) < |fs.blocks| && Offset(c) < BLKWORDS && v == Value(fs, c)
            && Fill(fs, c) == (if v != 0 then (fs, v) else
                                 var (fs1, r) := AllocBlock(fs);
                                 if r < 0 then (fs1, E_NO_DISK)
                                 else (WithBlock(SetWord(fs1, Home(fs, c), Offset(c), r), r, ZeroBlock()), r))
  {
    hide *;
    InvParts(fs, o);
    SlotOf(fs, o, c);
    LocatedAt(fs, o, c);
    SlotOwned(fs, o, c);
    UseBound(fs, Value(fs, c));
    ValueForm(fs, c);
    FillUnfold(fs, c);
    AllocIs(fs);
    var (fs1, r) := AllocBlock(fs);
    if r >= 0 {
      MarkValue(fs, r, false, c);
      AttachUnfold(fs, c, r);
    }
  }

  lemma UseBound(fs: Fs, b: nat)
    ensures InUse(fs, b) ==> b < |fs.blocks|
    ensures Shape(fs) ==> 0 < |fs.blocks|
  {
  }

  lemma FillUnfold(fs: Fs, c: Cell)
    requires Shape(fs)
    ensures var b := AllocBlock(fs).1;
            Fill(fs, c) == if Value(fs, c) != 0 then (fs, Value(fs, c)) else if b < 0 then (fs, E_NO_DISK) else (Attach(fs, c, b), b)
  {
    hide Attach, AllocBlock, Value;
  }

  lemma AllocIs(fs: Fs)
    requires Shape(fs)
    ensures var (fs1, r) := AllocBlock(fs);
            if r < 0 then fs1 == fs && r == E_NO_DISK
            else DataStart(fs) <= r < |fs.blocks| && IsFree(fs, r) && fs1 == Mark(fs, r, false) && r != 0
  {
    assert DataStart(fs) >= 2;
    hide AllocBlock, IsFree, Mark;
  }

  lemma AttachUnfold(fs: Fs, c: Cell, r: nat)
    requires Shape(fs) && r < |fs.blocks| && Home(Mark(fs, r, false), c) == Home(fs, c) < |fs.blocks| && Offset(c) < BLKWORDS && r < 0x1_0000_0000
    ensures Attach(fs, c, r) == WithBlock(SetWord(Mark(fs, r, false), Home(fs, c), Offset(c), r), r, ZeroBlock())
  {
    hide Home, Mark, SetWord;
  }

  /** file_get_block from what file_block_walk found. */
  lemma SlotForm(fs: Fs, f: File, n: nat, fs1: Fs, h: nat, w: nat, c: Cell)
    requires At(fs, f) && Shape(fs1) && |fs1.blocks| == |fs.blocks| && h < |fs1.blocks| && w < BLKWORDS
    requires FileBlockWalk(fs, f, n, true) == (fs1, Walked(0, h, w))
    requires var v := Peek(fs1, h, w);
             && v < |fs1.blocks|
             && Fill(fs1, c) == (if v != 0 then (fs1, v) else
                                   var (fs2, b) := AllocBlock(fs1);
                                   if b < 0 then (fs2, E_NO_DISK)
                                   else (WithBlock(SetWord(fs2, h, w, b), b, ZeroBlock()), b))
    ensures FileGetBlock(fs, f, n) == Fill(fs1, c)
  {
    hide Fill, FileBlockWalk, AllocBlock, WithBlock, SetWord, Peek, IsBlock, BLKWORDS;
  }

  lemma DirectForm(fs: Fs, o: Owners, f: File, n: nat)
    requires Inv(fs, o) && Known(fs, o, f) && n < NDIRECT
    ensures Shape(fs) && At(fs, f) && FileGetBlock(fs, f, n) == GetBlock(fs, f, n)
  {
    hide Inv, Known, WithBlock, SetWord, IsFree, IsBlock, Shape, Fill, AllocBlock, Peek;
    var c := DataCell(f, n);
    InvParts(fs, o);
    KnownAt(fs, o, f);
    FillForm(fs, o, c);
    SlotForm(fs, f, n, fs, Home(fs, c), Offset(c), c);
  }

  function FillOwners(fs: Fs, o: Owners, c: Cell): Owners
    requires Shape(fs)
  {
    var r := Fill(fs, c).1;
    if Value(fs, c) != 0 || r < 0 then o else o[r := c]
  }

  /** Of the words that matter only empty slots of f have changed, no known file is lost, and the new
      ones are the empty entries of new directory blocks. */
  ghost predicate Grows(fs: Fs, o: Owners, f: File, fs': Fs, o': Owners) {
    && Inv(fs', o') && |fs'.blocks| == |fs.blocks|
    && (forall g :: Known(fs, o, g) ==> Known(fs', o', g))
    && (forall t: Cell :: Known(fs, o, t.f) && IsCell(t) ==> Value(fs', t) == Value(fs, t) || (t.f == f && IsSlot(t) && Value(fs, t) == 0))
    && (forall t: Cell :: Known(fs', o', t.f) && !Known(fs, o, t.f) && IsCell(t) && !IsSlot(t) ==> Value(fs', t) == 0)
  }

  /** Filling holes of f changes no contents of a regular file, nor of f, either. */
  ghost predicate Fills(fs: Fs, o: Owners, f: File, fs': Fs, o': Owners) {
    && Grows(fs, o, f, fs', o')
    && (forall g, m: nat :: Steady(fs, o, f, g) ==> Content(fs', g, m) == Content(fs, g, m))
  }

  lemma FillsSelf(fs: Fs, o: Owners, f: File)
    requires Inv(fs, o)
    ensures Grows(fs, o, f, fs, o) && Fills(fs, o, f, fs, o)
  {
    hide Inv, Known, Value, Content;
  }

  lemma GrowsDir(fs: Fs, o: Owners, f: File, fs': Fs, o': Owners, g: File)
    requires Grows(fs, o, f, fs', o')
    ensures Known(fs, o, g) ==> Known(fs', o', g) && IsDir(fs', g) == IsDir(fs, g) && Size(fs', g) == Size(fs, g)
    ensures Regular(fs, o, g) ==> Regular(fs', o', g)
    ensures Known(fs', o', g) && !Known(fs, o, g) ==> !IsDir(fs', g) && Size(fs', g) == 0
  {
    hide Inv, Known, Value, Content;
    assert forall k :: k in {SIZE, TYPE} ==> IsCell(Part(g, k)) && !IsSlot(Part(g, k));
  }

  lemma GrowsValue(fs: Fs, o: Owners, f: File, fs': Fs, o': Owners, t: Cell)
    requires Grows(fs, o, f, fs', o') && IsCell(t)
    ensures Known(fs, o, t.f) ==> Value(fs', t) == Value(fs, t) || (t.f == f && IsSlot(t) && Value(fs, t) == 0)
    ensures Known(fs, o, t.f) ==> Known(fs', o', t.f)
    ensures Known(fs', o', t.f) && !Known(fs, o, t.f) && !IsSlot(t) ==> Value(fs', t) == 0
  {
    hide Inv, Known, Value, Content;
  }

  lemma GrowsInv(fs: Fs, o: Owners, f: File, fs': Fs, o': Owners)
    requires Grows(fs, o, f, fs', o')
    ensures Shape(fs') && Inv(fs', o') && |fs'.blocks| == |fs.blocks|
  {
  }

  lemma GrowsJoin(fs: Fs, o: Owners, f: File, fs': Fs, o': Owners)
    requires Inv(fs', o') && |fs'.blocks| == |fs.blocks|
    requires forall g :: Known(fs, o, g) ==> Known(fs', o', g)
    requires forall t: Cell :: IsCell(t) ==>
      (Known(fs, o, t.f) ==> Value(fs', t) == Value(fs, t) || (t.f == f && IsSlot(t) && Value(fs, t) == 0))
      && (Known(fs', o', t.f) && !Known(fs, o, t.f) && !IsSlot(t) ==> Value(fs', t) == 0)
    ensures Grows(fs, o, f, fs', o')
  {
    hide Inv, Known, Value, Content;
  }

  lemma GrowsThen(fs: Fs, o: Owners, f: File, fs1: Fs, o1: Owners, fs2: Fs, o2: Owners)
    requires Grows(fs, o, f, fs1, o1) && Grows(fs1, o1, f, fs2, o2)
    ensures Grows(fs, o, f, fs2, o2)
  {
    hide *;
    forall t: Cell | IsCell(t)
      ensures Known(fs, o, t.f) ==> Value(fs2, t) == Value(fs, t) || (t.f == f && IsSlot(t) && Value(fs, t) == 0)
      ensures Known(fs2, o2, t.f) && !Known(fs, o, t.f) && !IsSlot(t) ==> Value(fs2, t) == 0
    {
      GrowsValue(fs, o, f, fs1, o1, t);
      GrowsValue(fs1, o1, f, fs2, o2, t);
    }
    forall g ensures Known(fs, o, g) ==> Known(fs2, o2, g) {
      GrowsDir(fs, o, f, fs1, o1, g);
      GrowsDir(fs1, o1, f, fs2, o2, g);
    }
    GrowsInv(fs, o, f, fs1, o1);
    GrowsInv(fs1, o1, f, fs2, o2);
    GrowsJoin(fs, o, f, fs2, o2);
  }

  lemma FillsGrows(fs: Fs, o: Owners, f: File, fs': Fs, o': Owners)
    requires Fills(fs, o, f, fs', o')
    ensures Grows(fs, o, f, fs', o') && Shape(fs') && Inv(fs', o') && |fs'.blocks| == |fs.blocks|
  {
  }

  lemma FillsContent(fs: Fs, o: Owners, f: File, fs': Fs, o': Owners, g: File, m: nat)
    requires Fills(fs, o, f, fs', o')
    ensures Steady(fs, o, f, g) ==> Content(fs', g, m) == Content(fs, g, m)
    ensures Regular(fs, o, g) ==> Steady(fs, o, f, g)
  {
    hide Inv, Known, Value, Content, Grows;
  }

  lemma FillsThen(fs: Fs, o: Owners, f: File, fs1: Fs, o1: Owners, fs2: Fs, o2: Owners)
    requires Fills(fs, o, f, fs1, o1) && Fills(fs1, o1, f, fs2, o2)
    ensures Fills(fs, o, f, fs2, o2)
  {
    GrowsThen(fs, o, f, fs1, o1, fs2, o2);
    forall g, m: nat ensures Steady(fs, o, f, g) ==> Content(fs2, g, m) == Content(fs, g, m) {
      GrowsDir(fs, o, f, fs1, o1, g);
      FillsContent(fs, o, f, fs1, o1, g, m);
      FillsContent(fs1, o1, f, fs2, o2, g, m);
    }
    hide Grows, Content, Regular;
  }

  /** Filling one slot keeps ownership, changes that slot only, and takes a free block if the slot is
      empty; it fails exactly where the slot is empty and no block is free. */
  lemma FillKeeps(fs: Fs, o: Owners, c: Cell)
    requires Inv(fs, o) && KnownSlot(fs, o, c) && Located(fs, c) && InSize(fs, c)
    ensures var (fs', r) := Fill(fs, c); var o' := FillOwners(fs, o, c);
            && Fills(fs, o, c.f, fs', o')
            && (forall t: Cell :: Known(fs, o, t.f) && IsCell(t) && t != c ==> Value(fs', t) == Value(fs, t))
            && (if r < 0 then fs' == fs && r == E_NO_DISK && Value(fs, c) == 0 else r == Value(fs', c) != 0)
            && (Value(fs, c) != 0 ==> fs' == fs)
            && (r < 0 <==> Value(fs, c) == 0 && Room(fs) == 0)
            && Room(fs') == Room(fs) - (if Value(fs, c) == 0 && r >= 0 then 1 else 0)
  {
    hide *;
    InvParts(fs, o);
    FillCases(fs, o, c);
    FillFails(fs, c);
    if Value(fs, c) == 0 && Fill(fs, c).1 >= 0 {
      var r: nat := Fill(fs, c).1;
      KnownRoot(fs, o, c, r);
      AttachRoom(fs, c, r);
      AttachKeeps(fs, o, c, r);
      AttachFills(fs, o, c, r);
      forall t: Cell | Known(fs, o, t.f) && IsCell(t) && t != c ensures Value(Attach(fs, c, r), t) == Value(fs, t) {
        AttachValue(fs, o, c, r, t);
      }
      KnownRoot(fs, o, c, r);
      SlotIsCell(c);
      AttachValue(fs, o, c, r, c);
    } else {
      FillsSelf(fs, o, c.f);
    }
  }

  lemma FillFails(fs: Fs, c: Cell)
    requires Shape(fs)
    ensures Fill(fs, c).1 < 0 <==> Value(fs, c) == 0 && Room(fs) == 0
  {
    AllocExact(fs);
    hide Value, Room, Attach, IsFree, AllocBlock;
  }

  lemma FillCases(fs: Fs, o: Owners, c: Cell)
    requires Inv(fs, o) && KnownSlot(fs, o, c) && Located(fs, c) && InSize(fs, c)
    ensures var (fs', r) := Fill(fs, c);
            if Value(fs, c) != 0 then fs' == fs && r == Value(fs, c) && FillOwners(fs, o, c) == o
            else if r < 0 then fs' == fs && r == E_NO_DISK && FillOwners(fs, o, c) == o
            else r != 0 && CanAttach(fs, o, c, r) && fs' == Attach(fs, c, r) && FillOwners(fs, o, c) == o[r := c]
  {
    hide *;
    InvParts(fs, o);
    FillUnfold(fs, c);
    FillOwnersIs(fs, o, c);
    AllocIs(fs);
    if Value(fs, c) == 0 && AllocBlock(fs).1 >= 0 { CanAttachJoin(fs, o, c, AllocBlock(fs).1); }
  }

  lemma FillOwnersIs(fs: Fs, o: Owners, c: Cell)
    requires Shape(fs)
    ensures FillOwners(fs, o, c) == if Value(fs, c) != 0 || Fill(fs, c).1 < 0 then o else o[Fill(fs, c).1 := c]
    ensures E_NO_DISK < 0
  {
    hide Fill, Value;
  }

  lemma CanAttachJoin(fs: Fs, o: Owners, c: Cell, r: nat)
    requires Inv(fs, o) && KnownSlot(fs, o, c) && Located(fs, c) && Value(fs, c) == 0 && InSize(fs, c)
    requires DataStart(fs) <= r < |fs.blocks| && IsFree(fs, r)
    ensures CanAttach(fs, o, c, r)
  {
    hide Inv, KnownSlot, Located, Value, InSize, IsFree;
  }

  lemma AttachFills(fs: Fs, o: Owners, c: Cell, r: nat)
    requires CanAttach(fs, o, c, r) && Inv(Attach(fs, c, r), o[r := c])
    ensures Fills(fs, o, c.f, Attach(fs, c, r), o[r := c])
  {
    hide *;
    KnownRoot(fs, o, c, r);
    var (fs', o') := (Attach(fs, c, r), o[r := c]);
    forall g ensures Known(fs, o, g) ==> Known(fs', o', g) { AttachKnown(fs, o, c, r, g); }
    forall t: Cell | IsCell(t)
      ensures Known(fs, o, t.f) ==> Value(fs', t) == Value(fs, t) || (t.f == c.f && IsSlot(t) && Value(fs, t) == 0)
      ensures Known(fs', o', t.f) && !Known(fs, o, t.f) && !IsSlot(t) ==> Value(fs', t) == 0
    {
      AttachKnown(fs, o, c, r, t.f);
      if Known(fs, o, t.f) || Known(fs', o', t.f) { AttachCell(fs, o, c, r, t); }
      AttachZero(fs, o, c, r);
    }
    forall g, m: nat ensures Steady(fs, o, c.f, g) ==> Content(fs', g, m) == Content(fs, g, m) {
      if Steady(fs, o, c.f, g) { AttachContent(fs, o, c, r, g, m); }
    }
    AttachSize(fs, c, r);
    GrowsJoin(fs, o, c.f, fs', o');
    FillsIs(fs, o, c.f, fs', o');
  }

  lemma FillsIs(fs: Fs, o: Owners, f: File, fs': Fs, o': Owners)
    requires Grows(fs, o, f, fs', o')
    requires forall g, m: nat :: Steady(fs, o, f, g) ==> Content(fs', g, m) == Content(fs, g, m)
    ensures Fills(fs, o, f, fs', o')
  {
    hide Grows, Content, Steady;
  }

  lemma AttachSize(fs: Fs, c: Cell, r: nat)
    requires Shape(fs)
    ensures |Attach(fs, c, r).blocks| == |fs.blocks|
  {
  }

  function GetBlockOwners(fs: Fs, o: Owners, f: File, n: nat): Owners
    requires Shape(fs)
  {
    if n >= MAXBLOCKS then o
    else if n < NDIRECT then FillOwners(fs, o, DataCell(f, n))
    else
      var (fs1, ind) := Fill(fs, Part(f, INDIRECT));
      var o1 := FillOwners(fs, o, Part(f, INDIRECT));
      if ind < 0 then o1 else FillOwners(fs1, o1, DataCell(f, n))
  }

  /** The free blocks that file_get_block(f, n) takes. */
  function Cost(fs: Fs, f: File, n: nat): nat {
    (if BlockOf(fs, f, n) == 0 then 1 else 0) + (if n >= NDIRECT && Value(fs, Part(f, INDIRECT)) == 0 then 1 else 0)
  }

  /** There is a block to return exactly if there are that many free ones; after a failure none is left.
      The block returned is in use. */
  ghost predicate Afforded(fs: Fs, f: File, n: nat, fs': Fs, r: int) {
    && (n < MAXBLOCKS ==> (r >= 0 <==> Cost(fs, f, n) <= Room(fs)))
    && (r >= 0 ==> Room(fs') == Room(fs) - Cost(fs, f, n) && InUse(fs', r))
    && (r < 0 && n < MAXBLOCKS ==> Room(fs') == 0)
    && (r >= 0 ==> (Value(fs', Part(f, INDIRECT)) != 0 <==> n >= NDIRECT || Value(fs, Part(f, INDIRECT)) != 0))
  }

  /** What file_get_block(f, n) leaves behind, n being a block of f: nothing but holes are filled, the
      block returned is the one block n now has, and it fails only past the last block number or on
      a full disk. */
  ghost predicate Got(fs: Fs, o: Owners, f: File, n: nat, fs': Fs, o': Owners, r: int) {
    && Fills(fs, o, f, fs', o')
    && (forall t: Cell :: Known(fs, o, t.f) && IsCell(t) && t != DataCell(f, n) && t != Part(f, INDIRECT) ==> Value(fs', t) == Value(fs, t))
    && (if r < 0 then BlockOf(fs, f, n) == 0 == BlockOf(fs', f, n) && r == (if n < MAXBLOCKS then E_NO_DISK else E_INVAL)
        else r == BlockOf(fs', f, n) != 0)
    && (BlockOf(fs, f, n) != 0 ==> fs' == fs)
    && Afforded(fs, f, n, fs', r)
  }

  lemma GotJoin(fs: Fs, o: Owners, f: File, n: nat, fs': Fs, o': Owners, r: int)
    requires Fills(fs, o, f, fs', o')
    requires forall t: Cell :: Known(fs, o, t.f) && IsCell(t) && t != DataCell(f, n) && t != Part(f, INDIRECT) ==> Value(fs', t) == Value(fs, t)
    requires if r < 0 then BlockOf(fs, f, n) == 0 == BlockOf(fs', f, n) && r == (if n < MAXBLOCKS then E_NO_DISK else E_INVAL)
             else r == BlockOf(fs', f, n) != 0
    requires BlockOf(fs, f, n) != 0 ==> fs' == fs
    requires Afforded(fs, f, n, fs', r)
    ensures Got(fs, o, f, n, fs', o', r)
  {
    hide Fills, Known, BlockOf, Value, Afforded, DataCell;
  }

  lemma AffordedJoin(fs: Fs, f: File, n: nat, fs': Fs, r: int)
    requires n < MAXBLOCKS ==> (r >= 0 <==> Cost(fs, f, n) <= Room(fs))
    requires r >= 0 ==> Room(fs') == Room(fs) - Cost(fs, f, n) && InUse(fs', r)
    requires r < 0 && n < MAXBLOCKS ==> Room(fs') == 0
    requires r >= 0 ==> (Value(fs', Part(f, INDIRECT)) != 0 <==> n >= NDIRECT || Value(fs, Part(f, INDIRECT)) != 0)
    ensures Afforded(fs, f, n, fs', r)
  {
    hide Cost, Room, InUse, Value;
  }

  lemma CostIs(fs: Fs, f: File, n: nat)
    ensures Cost(fs, f, n)
         == (if BlockOf(fs, f, n) == 0 then 1 else 0) + (if n >= NDIRECT && Value(fs, Part(f, INDIRECT)) == 0 then 1 else 0)
    ensures IsCell(Part(f, INDIRECT))
  {
  }

  lemma SlotFacts(fs: Fs, o: Owners, f: File, n: nat)
    requires Inv(fs, o) && Known(fs, o, f) && n < NBlocks(Size(fs, f)) && n < MAXBLOCKS
    ensures KnownSlot(fs, o, DataCell(f, n)) && InSize(fs, DataCell(f, n)) && BlockOf(fs, f, n) == Value(fs, DataCell(f, n))
    ensures n < NDIRECT ==> Located(fs, DataCell(f, n))
    ensures n >= NDIRECT ==> KnownSlot(fs, o, Part(f, INDIRECT)) && InSize(fs, Part(f, INDIRECT)) && Located(fs, Part(f, INDIRECT))
    ensures n >= NDIRECT ==> DataCell(f, n) != Part(f, INDIRECT) && IsCell(DataCell(f, n))
    ensures n >= NDIRECT && Value(fs, Part(f, INDIRECT)) != 0 ==> Located(fs, DataCell(f, n))
  {
    KnownAt(fs, o, f);
    DataCells(f, n);
    hide Inv, Known;
  }

  lemma GetDirect(fs: Fs, o: Owners, f: File, n: nat)
    requires Inv(fs, o) && Known(fs, o, f) && n < NBlocks(Size(fs, f)) && n < NDIRECT
    ensures Shape(fs) && var (fs', r) := GetBlock(fs, f, n); Got(fs, o, f, n, fs', GetBlockOwners(fs, o, f, n), r)
  {
    hide *;
    var c := DataCell(f, n);
    DirectIs(f, n);
    InvParts(fs, o);
    SlotFacts(fs, o, f, n);
    FillKeeps(fs, o, c);
    var ((fs', r), o') := (Fill(fs, c), FillOwners(fs, o, c));
    GetForm(fs, o, f, n);
    BlockIs(fs', f, n);
    BlockIs(fs, f, n);
    CostIs(fs, f, n);
    FillsGrows(fs, o, f, fs', o');
    GrowsDir(fs, o, f, fs', o', f);
    if r >= 0 { BlockOfIs(fs', o', f, n); }
    AffordedJoin(fs, f, n, fs', r);
    GotJoin(fs, o, f, n, fs', o', r);
  }

  lemma DirectIs(f: File, n: nat)
    requires n < NDIRECT
    ensures n < MAXBLOCKS && DataCell(f, n) != Part(f, INDIRECT) && DataCell(f, n).f == f
  {
  }

  lemma GetForm(fs: Fs, o: Owners, f: File, n: nat)
    requires Shape(fs) && n < MAXBLOCKS
    ensures n < NDIRECT ==> GetBlock(fs, f, n) == Fill(fs, DataCell(f, n)) && GetBlockOwners(fs, o, f, n) == FillOwners(fs, o, DataCell(f, n))
    ensures n >= NDIRECT ==>
      var ((fs1, ind), o1) := (Fill(fs, Part(f, INDIRECT)), FillOwners(fs, o, Part(f, INDIRECT)));
      && GetBlock(fs, f, n) == (if ind < 0 then (fs1, ind) else Fill(fs1, DataCell(f, n)))
      && GetBlockOwners(fs, o, f, n) == if ind < 0 then o1 else FillOwners(fs1, o1, DataCell(f, n))
  {
    hide Fill, FillOwners, DataCell;
  }

  lemma BlockIs(fs: Fs, f: File, n: nat)
    ensures n < MAXBLOCKS ==> BlockOf(fs, f, n) == Value(fs, DataCell(f, n))
    ensures n >= MAXBLOCKS ==> BlockOf(fs, f, n) == 0
  {
  }

  lemma GetIndirect(fs: Fs, o: Owners, f: File, n: nat)
    requires Inv(fs, o) && Known(fs, o, f) && n < NBlocks(Size(fs, f)) && NDIRECT <= n < MAXBLOCKS
    ensures Shape(fs) && var (fs', r) := GetBlock(fs, f, n); Got(fs, o, f, n, fs', GetBlockOwners(fs, o, f, n), r)
  {
    hide *;
    var (ind, c) := (Part(f, INDIRECT), DataCell(f, n));
    InvParts(fs, o);
    SlotFacts(fs, o, f, n);
    KnownAt(fs, o, f);
    FillKeeps(fs, o, ind);
    var ((fs1, i), o1) := (Fill(fs, ind), FillOwners(fs, o, ind));
    FillsGrows(fs, o, f, fs1, o1);
    GrowsDir(fs, o, f, fs1, o1, f);
    GetForm(fs, o, f, n);
    BlockIs(fs, f, n);
    BlockIs(fs1, f, n);
    EntryBehindIndirect(fs, f, n);
    CostIs(fs, f, n);
    if i < 0 {
      AffordedJoin(fs, f, n, fs, i);
      GotJoin(fs, o, f, n, fs, o1, i);
    } else {
      SlotFacts(fs1, o1, f, n);
      DataCells(f, n);
      FillKeeps(fs1, o1, c);
      var ((fs2, r), o2) := (Fill(fs1, c), FillOwners(fs1, o1, c));
      FillsThen(fs, o, f, fs1, o1, fs2, o2);
      BlockIs(fs2, f, n);
      GrowsKnown(fs, o, f, fs1, o1);
      FillsGrows(fs, o, f, fs2, o2);
      GrowsDir(fs, o, f, fs2, o2, f);
      if r >= 0 { BlockOfIs(fs2, o2, f, n); }
      AffordedJoin(fs, f, n, fs2, r);
      GotJoin(fs, o, f, n, fs2, o2, r);
    }
  }

  lemma EntryBehindIndirect(fs: Fs, f: File, n: nat)
    requires NDIRECT <= n < MAXBLOCKS && f.block != 0
    ensures Value(fs, DataCell(f, n)) != 0 ==> Value(fs, Part(f, INDIRECT)) != 0
    ensures IsCell(DataCell(f, n)) && DataCell(f, n) != Part(f, INDIRECT)
  {
  }

  lemma GrowsKnown(fs: Fs, o: Owners, f: File, fs': Fs, o': Owners)
    requires Grows(fs, o, f, fs', o')
    ensures forall t: Cell :: Known(fs, o, t.f) && IsCell(t) ==> Known(fs', o', t.f)
  {
    hide Known, Inv, Value, Content;
  }

  /** file_get_block behaves as Got says and never panics. */
  lemma GetBlockKeeps(fs: Fs, o: Owners, f: File, n: nat)
    requires Inv(fs, o) && Known(fs, o, f) && n < NBlocks(Size(fs, f))
    ensures Shape(fs) && At(fs, f)
    ensures var (fs', r) := FileGetBlock(fs, f, n); Got(fs, o, f, n, fs', GetBlockOwners(fs, o, f, n), r)
  {
    InvParts(fs, o);
    KnownAt(fs, o, f);
    if n >= MAXBLOCKS {
      FillsSelf(fs, o, f);
      BlockIs(fs, f, n);
      AffordedJoin(fs, f, n, fs, E_INVAL);
    } else if n < NDIRECT {
      DirectForm(fs, o, f, n);
      GetDirect(fs, o, f, n);
    } else {
      IndirectForm(fs, o, f, n);
      GetIndirect(fs, o, f, n);
    }
    hide Inv, Known, Fill, FillOwners, Value, Fills, Located, InSize, KnownSlot, DataCell, Size, IsCell, IsSlot, GetBlock, Afforded;
  }

  lemma SlotWalkForm(fs: Fs, o: Owners, f: File, n: nat)
    requires Inv(fs, o) && Known(fs, o, f) && n < NBlocks(Size(fs, f)) && NDIRECT <= n < MAXBLOCKS
    ensures Shape(fs) && At(fs, f)
    ensures var (fs1, r) := Fill(fs, Part(f, INDIRECT));
            FileBlockWalk(fs, f, n, true) == if r < 0 then (fs1, Walked(E_NO_DISK, 0, 0)) else (fs1, Walked(0, r, n - NDIRECT))
  {
    InvParts(fs, o);
    KnownAt(fs, o, f);
    SlotFacts(fs, o, f, n);
    FillKeeps(fs, o, Part(f, INDIRECT));
    FillForm(fs, o, Part(f, INDIRECT));
    hide Inv, Known, Fill, Value, Fills, InSize, KnownSlot, WithBlock, SetWord, IsFree, AllocBlock;
  }

  lemma IndirectForm(fs: Fs, o: Owners, f: File, n: nat)
    requires Inv(fs, o) && Known(fs, o, f) && n < NBlocks(Size(fs, f)) && NDIRECT <= n < MAXBLOCKS
    ensures Shape(fs) && At(fs, f) && FileGetBlock(fs, f, n) == GetBlock(fs, f, n)
  {
    hide *;
    var (ind, c) := (Part(f, INDIRECT), DataCell(f, n));
    InvParts(fs, o);
    KnownAt(fs, o, f);
    SlotFacts(fs, o, f, n);
    SlotWalkForm(fs, o, f, n);
    FillKeeps(fs, o, ind);
    var (fs1, o1) := (Fill(fs, ind).0, FillOwners(fs, o, ind));
    FillsGrows(fs, o, f, fs1, o1);
    GrowsDir(fs, o, f, fs1, o1, f);
    if Fill(fs, ind).1 >= 0 {
      SlotFacts(fs1, o1, f, n);
      FillForm(fs1, o1, c);
      EntryAt(fs1, f, n);
      SlotForm(fs, f, n, fs1, Home(fs1, c), Offset(c), c);
    }
    IndirectJoin(fs, f, n);
  }

  lemma EntryAt(fs: Fs, f: File, n: nat)
    requires NDIRECT <= n < MAXBLOCKS && f.block != 0
    ensures Home(fs, DataCell(f, n)) == Value(fs, Part(f, INDIRECT)) && Offset(DataCell(f, n)) == n - NDIRECT
  {
  }

  lemma IndirectJoin(fs: Fs, f: File, n: nat)
    requires At(fs, f) && NDIRECT <= n < MAXBLOCKS
    requires var (fs1, r) := Fill(fs, Part(f, INDIRECT));
             if r < 0 then r == E_NO_DISK && FileBlockWalk(fs, f, n, true) == (fs1, Walked(E_NO_DISK, 0, 0))
             else FileGetBlock(fs, f, n) == Fill(fs1, DataCell(f, n))
    ensures FileGetBlock(fs, f, n) == GetBlock(fs, f, n)
  {
    hide Fill, FileBlockWalk;
  }

  /** A block once there stays there. */
  lemma GrowsBlock(fs: Fs, o: Owners, f: File, fs': Fs, o': Owners, g: File, n: nat)
    requires Grows(fs, o, f, fs', o') && Known(fs, o, g) && BlockOf(fs, g, n) != 0
    ensures BlockOf(fs', g, n) == BlockOf(fs, g, n)
  {
    DataCells(g, n);
    if n < MAXBLOCKS { GrowsValue(fs, o, f, fs', o', DataCell(g, n)); }
    hide Grows, Known, Value, DataCell;
  }

  /* ---- what a range of blocks costs ---- */

  /** The holes among blocks lo to hi - 1. */
  function Holes(fs: Fs, f: File, lo: nat, hi: nat): nat
    decreases hi - lo
  {
    if lo >= hi then 0 else (if BlockOf(fs, f, lo) == 0 then 1 else 0) + Holes(fs, f, lo + 1, hi)
  }

  /** The free blocks it takes to have blocks lo to hi - 1: one for each hole, and one for the indirect
      block if it is needed and not there. */
  function Need(fs: Fs, f: File, lo: nat, hi: nat): nat {
    Holes(fs, f, lo, hi) + if lo < hi && hi > NDIRECT && Value(fs, Part(f, INDIRECT)) == 0 then 1 else 0
  }

  /** Blocks lo to hi - 1 are within the last block number, and there is room for them. */
  ghost predicate Enough(fs: Fs, f: File, lo: nat, hi: nat) {
    (lo < hi ==> hi <= MAXBLOCKS) && Need(fs, f, lo, hi) <= Room(fs)
  }

  lemma {:induction false} HolesSame(fs: Fs, fs1: Fs, f: File, lo: nat, hi: nat)
    requires forall m: nat :: lo <= m < hi ==> (BlockOf(fs1, f, m) == 0 <==> BlockOf(fs, f, m) == 0)
    ensures Holes(fs1, f, lo, hi) == Holes(fs, f, lo, hi)
    decreases hi - lo
  {
    hide BlockOf;
    if lo < hi { HolesSame(fs, fs1, f, lo + 1, hi); }
  }

  lemma EnoughSame(fs: Fs, fs1: Fs, f: File, lo: nat, hi: nat)
    requires forall m: nat :: BlockOf(fs1, f, m) == BlockOf(fs, f, m)
    requires Value(fs1, Part(f, INDIRECT)) == Value(fs, Part(f, INDIRECT)) && Room(fs1) == Room(fs)
    ensures Enough(fs1, f, lo, hi) <==> Enough(fs, f, lo, hi)
  {
    HolesSame(fs, fs1, f, lo, hi);
    hide BlockOf, Value, Room, Holes;
  }

  /** Once a block is there, what is left to pay for is the rest of the range. */
  lemma NeedNext(fs: Fs, f: File, lo: nat, hi: nat, fs1: Fs, r: int)
    requires lo < hi && r >= 0 && Afforded(fs, f, lo, fs1, r) && forall m: nat :: m != lo ==> BlockOf(fs1, f, m) == BlockOf(fs, f, m)
    ensures Need(fs, f, lo, hi) == Cost(fs, f, lo) + Need(fs1, f, lo + 1, hi)
    ensures Room(fs1) == Room(fs) - Cost(fs, f, lo)
  {
    HolesSame(fs, fs1, f, lo + 1, hi);
    CostIs(fs, f, lo);
    hide BlockOf, Value, Room, InUse, Cost;
  }

  lemma EnoughNext(fs: Fs, f: File, lo: nat, hi: nat, fs1: Fs, r: int)
    requires lo < hi && lo < MAXBLOCKS && r >= 0 && Afforded(fs, f, lo, fs1, r)
    requires forall m: nat :: m != lo ==> BlockOf(fs1, f, m) == BlockOf(fs, f, m)
    ensures Enough(fs, f, lo, hi) <==> Enough(fs1, f, lo + 1, hi)
  {
    NeedNext(fs, f, lo, hi, fs1, r);
    hide BlockOf, Room, Cost, Need, Afforded;
  }

  /** Where one block cannot be had, neither can the range. */
  lemma EnoughFails(fs: Fs, f: File, lo: nat, hi: nat, fs1: Fs, r: int)
    requires lo < hi && r < 0 && Afforded(fs, f, lo, fs1, r)
    ensures !Enough(fs, f, lo, hi)
  {
    CostIs(fs, f, lo);
    hide BlockOf, Value, Room, InUse, Cost;
  }

  lemma EnoughNone(fs: Fs, f: File, lo: nat, hi: nat)
    requires lo >= hi
    ensures Enough(fs, f, lo, hi)
  {
  }

  lemma GotBlock(fs: Fs, o: Owners, f: File, i: nat, fs1: Fs, o1: Owners, r: int, n: nat)
    requires Got(fs, o, f, i, fs1, o1, r) && Known(fs, o, f) && n != i
    ensures BlockOf(fs1, f, n) == BlockOf(fs, f, n)
  {
    DataCells(f, n);
    if n < MAXBLOCKS { assert DataCell(f, n) != DataCell(f, i) && DataCell(f, n) != Part(f, INDIRECT); }
    hide Known, Fills, Value, DataCell, Afforded;
  }
}
