/** dir_alloc_file and the naming of a new entry. */
module EntryCreation {
  import opened Disk
  import opened FileSystem
  import opened FileOwnership
  import opened FreeSpace
  import opened FileRelease
  import opened FileContents
  import opened FileTruncation
  import opened Paths
  import opened Directories
  import opened PathLookup
  import opened DirectoryTree

  /* ---- dir->f_size += BLKSIZE ---- */

  /** A directory whose blocks are all there can grow by one. */
  lemma DenseSize(fs: Fs, o: Owners, d: File)
    requires Inv(fs, o) && KnownDir(fs, o, d) && DirSize(fs, d) && Dense(fs, d, NBlocks(Size(fs, d)))
    ensures NBlocks(Size(fs, d)) <= MAXBLOCKS && Size(fs, d) + BLKSIZE <= MAXFILESIZE + BLKSIZE <= MAXSIZE
    ensures NBlocks(Size(fs, d) + BLKSIZE) == NBlocks(Size(fs, d)) + 1
  {
    var nb := NBlocks(Size(fs, d));
    WholeBlocks(fs, d);
    if nb > 0 { assert BlockOf(fs, d, nb - 1) != 0 && nb - 1 < MAXBLOCKS; }
    hide Inv, KnownDir, Dense, Size, BlockOf;
  }

  lemma GrowFits(fs: Fs, o: Owners, d: File, n: nat)
    requires Inv(fs, o) && Known(fs, o, d) && Size(fs, d) <= n <= MAXSIZE
    ensures FitsIn(fs, d, n)
  {
    SizedIs(fs, o, d);
    BlocksMonotone(Size(fs, d), n);
    hide Inv, Known, Value, NBlocks;
  }

  lemma SizePlain(fs: Fs, o: Owners, f: File, n: Word)
    requires Inv(fs, o) && Known(fs, o, f)
    ensures Shape(fs) && Plain(fs, o, Part(f, SIZE)) && Resize(fs, f, n) == Put(fs, Part(f, SIZE), n)
  {
    InvParts(fs, o);
    hide Inv, Known, Put;
  }

  lemma GrowElsewhere(fs: Fs, o: Owners, d: File, n: Word)
    requires Inv(fs, o) && Known(fs, o, d) && FitsIn(fs, d, n)
    ensures Shape(fs) && Inv(Resize(fs, d, n), o)
    ensures forall t: Cell :: Known(fs, o, t.f) && IsCell(t) ==> Value(Resize(fs, d, n), t) == if t == Part(d, SIZE) then n else Value(fs, t)
    ensures forall g :: Known(Resize(fs, d, n), o, g) <==> Known(fs, o, g)
  {
    hide *;
    InvParts(fs, o);
    ResizeKeeps(fs, o, d, n);
    SizePlain(fs, o, d, n);
    PlainSame(fs, o, Part(d, SIZE), n);
    forall t: Cell | Known(fs, o, t.f) && IsCell(t)
      ensures Value(Resize(fs, d, n), t) == if t == Part(d, SIZE) then n else Value(fs, t)
    {
      ResizeValue(fs, o, d, n, t);
    }
    forall g ensures Known(Resize(fs, d, n), o, g) <==> Known(fs, o, g) { SameKnown(fs, o, Resize(fs, d, n), g); }
  }

  lemma GrownDirBlock(fs: Fs, o: Owners, d: File, n: Word, g: File, m: nat)
    requires Inv(fs, o) && Known(fs, o, d) && FitsIn(fs, d, n) && Known(fs, o, g)
    ensures Shape(fs) && BlockOf(Resize(fs, d, n), g, m) == BlockOf(fs, g, m)
  {
    GrowElsewhere(fs, o, d, n);
    DataCells(g, m);
    hide Inv, Known, Value, Resize, FitsIn, DataCell;
  }

  lemma GrownDirParts(fs: Fs, o: Owners, d: File, n: Word, g: File)
    requires Inv(fs, o) && Known(fs, o, d) && FitsIn(fs, d, n) && Known(fs, o, g)
    ensures Shape(fs) && SameName(fs, Resize(fs, d, n), g) && IsDir(Resize(fs, d, n), g) == IsDir(fs, g)
    ensures Size(Resize(fs, d, n), g) == if g == d then n else Size(fs, g)
  {
    GrowElsewhere(fs, o, d, n);
    hide Inv, Known, Value, Resize, FitsIn;
    assert forall k :: 0 <= k <= TYPE ==> IsCell(Part(g, k));
  }

  /** Enlarging a directory by a whole block changes no name. */
  lemma GrowDirTree(fs: Fs, o: Owners, d: File, n: Word)
    requires Inv(fs, o) && DirsOk(fs, o) && KnownDir(fs, o, d) && FitsIn(fs, d, n)
    requires n % BLKSIZE == 0
    ensures Shape(fs) && SameTree(fs, o, Resize(fs, d, n), o)
  {
    hide *;
    InvParts(fs, o);
    var fs' := Resize(fs, d, n);
    KnownDirIs(fs, o, d);
    GrowElsewhere(fs, o, d, n);
    forall g ensures Known(fs, o, g) ==> SameName(fs, fs', g) { if Known(fs, o, g) { GrownDirParts(fs, o, d, n, g); } }
    forall g ensures KnownDir(fs', o, g) <==> KnownDir(fs, o, g) {
      KnownDirIs(fs, o, g);
      KnownDirIs(fs', o, g);
      if Known(fs, o, g) { GrownDirParts(fs, o, d, n, g); }
    }
    forall g | KnownDir(fs, o, g) ensures DirSize(fs, g) ==> DirSize(fs', g) {
      KnownDirIs(fs, o, g);
      GrownDirParts(fs, o, d, n, g);
      DirSizeIs(fs', g);
      DirSizeIs(fs, g);
    }
    forall g, m: nat | KnownDir(fs, o, g) ensures BlockOf(fs', g, m) == BlockOf(fs, g, m) {
      KnownDirIs(fs, o, g);
      GrownDirBlock(fs, o, d, n, g, m);
    }
    SameDirsJoin(fs, o, fs', o);
    SameDirsTree(fs, o, fs', o);
  }

  lemma DirSizeIs(fs: Fs, d: File)
    ensures DirSize(fs, d) <==> Size(fs, d) % BLKSIZE == 0
  {
  }

  /* ---- dir_alloc_file ---- */

  /** An entry without a name, with no hole before it. */
  ghost predicate Spare(fs: Fs, d: File, n: nat, j: nat, e: File) { EntryOf(fs, d, n, j, e) && NameIs(fs, e, []) && Dense(fs, d, n) }

  ghost predicate Unnamed(fs: Fs, d: File) { exists n, j, e :: EntryOf(fs, d, n, j, e) && NameIs(fs, e, []) }

  /** An entry with an empty name, if there is no failure; the tree is as before in any case. */
  ghost predicate Allocated(fs: Fs, o: Owners, d: File, r: Found, o': Owners) {
    && SameTree(fs, o, r.fs, o')
    && (r.rc == 0 ==> exists n, j :: Spare(r.fs, d, n, j, r.file))
    && (r.rc != 0 ==> r.rc == E_NO_DISK || r.rc == E_INVAL)
    && (r.rc == E_NO_DISK ==> Room(r.fs) == 0)
  }

  lemma AllocatedAt(fs: Fs, o: Owners, d: File, r: Found, o': Owners, n: nat, j: nat)
    requires SameTree(fs, o, r.fs, o') && r.rc == 0 && Spare(r.fs, d, n, j, r.file)
    ensures Allocated(fs, o, d, r, o')
  {
    hide SameTree, Spare, Room;
  }

  lemma AllocatedNot(fs: Fs, o: Owners, d: File, r: Found, o': Owners)
    requires SameTree(fs, o, r.fs, o') && (r.rc == E_NO_DISK || r.rc == E_INVAL) && (r.rc == E_NO_DISK ==> Room(r.fs) == 0)
    ensures Allocated(fs, o, d, r, o')
  {
    hide SameTree, Spare, Room;
  }

  lemma SpareIs(fs: Fs, d: File, n: nat, j: nat, e: File)
    ensures Spare(fs, d, n, j, e) <==> EntryOf(fs, d, n, j, e) && NameIs(fs, e, []) && Dense(fs, d, n)
    ensures EntryOf(fs, d, n, j, e) && NameIs(fs, e, []) ==> Unnamed(fs, d)
  {
    hide EntryOf, NameIs, Dense;
  }

  lemma UnnamedAt(fs: Fs, d: File) returns (n: nat, j: nat, e: File)
    requires Unnamed(fs, d)
    ensures EntryOf(fs, d, n, j, e) && NameIs(fs, e, [])
  {
    n, j, e :| EntryOf(fs, d, n, j, e) && NameIs(fs, e, []);
  }

  /** A scan of blocks that are all there changes nothing and does not fail. */
  lemma {:induction false} DenseScan(fs: Fs, o: Owners, d: File, name: Name, i: nat, nblock: nat)
    requires Inv(fs, o) && KnownDir(fs, o, d) && Dense(fs, d, nblock) && i <= nblock <= NBlocks(Size(fs, d))
    ensures At(fs, d) && DirScan(fs, d, name, i, nblock).0 == fs && !DirScan(fs, d, name, i, nblock).1.Failed?
    decreases nblock - i
  {
    hide *;
    KnownDirIs(fs, o, d);
    SizeIs(fs, o, d);
    ScanForm(fs, d, name, i, nblock);
    if i < nblock {
      DirBlock(fs, o, d, i);
      var ((fs1, b), o1) := (FileGetBlock(fs, d, i), GetBlockOwners(fs, o, d, i));
      DirGotParts(fs, o, d, i, fs1, o1, b);
      DenseIs(fs, d, nblock, i);
      DenseScan(fs, o, d, name, i + 1, nblock);
    }
  }

  lemma AllocForm(fs: Fs, d: File)
    requires At(fs, d) && DirSize(fs, d) && Field(fs, d, SIZE) == Size(fs, d) <= MAXSIZE
    ensures var (fs1, res) := DirScan(fs, d, [], 0, NBlocks(Size(fs, d)));
            DirAllocFile(fs, d) == match res
                                   case Hit(e) => Found(fs1, 0, e)
                                   case Failed(rc) => Found(fs1, rc, ROOT)
                                   case Miss => AddBlock(fs1, d, NBlocks(Size(fs, d)))
  {
    WholeBlocks(fs, d);
    DirSizeIs(fs, d);
    hide DirScan, Size, Field, AddBlock, NBlocks, DirBlocks, DirSize, IsBlock;
  }

  lemma AddForm(fs: Fs, d: File, nb: nat, n: Word)
    requires At(fs, d) && Field(fs, d, SIZE) + BLKSIZE == n
    ensures At(Resize(fs, d, n), d) && var (fs3, b) := FileGetBlock(Resize(fs, d, n), d, nb);
            AddBlock(fs, d, nb) == if b < 0 then Found(fs3, b, ROOT) else Found(fs3, 0, DirEntry(b, 0))
  {
    hide Field, FileGetBlock, SetWord, IsBlock, Resize, Shape, BLKSIZE;
    ResizeForm(fs, d, n);
  }

  lemma ResizeForm(fs: Fs, d: File, n: Word)
    requires At(fs, d)
    ensures SetWord(fs, d.block, d.base + SIZE, n) == Resize(fs, d, n) && At(Resize(fs, d, n), d)
  {
  }

  /** The last step: the directory has grown and its new block is fetched. */
  lemma AllocGrown(fs: Fs, o: Owners, d: File, n: Word) returns (o': Owners)
    requires Inv(fs, o) && DirsOk(fs, o) && KnownDir(fs, o, d) && Dense(fs, d, NBlocks(Size(fs, d)))
    requires n == Size(fs, d) + BLKSIZE
    ensures At(fs, d) && Allocated(fs, o, d, AddBlock(fs, d, NBlocks(Size(fs, d))), o')
    ensures var nb := NBlocks(Size(fs, d)); AddBlock(fs, d, nb).rc == 0 <==> nb < MAXBLOCKS && Cost(fs, d, nb) <= Room(fs)
  {
    hide *;
    InvParts(fs, o);
    KnownDirIs(fs, o, d);
    DirOkIs(fs, o, d);
    SizeIs(fs, o, d);
    DenseSize(fs, o, d);
    DirSizeIs(fs, d);
    BlockMultiple(Size(fs, d));
    GrowFits(fs, o, d, n);
    SizePlain(fs, o, d, n);
    AddForm(fs, d, NBlocks(Size(fs, d)), n);
    var (fs2, nb) := (Resize(fs, d, n), NBlocks(Size(fs, d)));
    GrowDirTree(fs, o, d, n);
    TreeIs(fs, o, fs2, o);
    TreeKnown(fs, o, fs2, o, d);
    GrownDirParts(fs, o, d, n, d);
    DirOkIs(fs2, o, d);
    forall m: nat ensures BlockOf(fs2, d, m) == BlockOf(fs, d, m) { GrownDirBlock(fs, o, d, n, d, m); }
    DenseSame(fs, fs2, d, nb);
    LastIsHole(fs, o, d);
    GrownCost(fs, o, d, n);
    DirBlock(fs2, o, d, nb);
    var ((fs3, b), o3) := (FileGetBlock(fs2, d, nb), GetBlockOwners(fs2, o, d, nb));
    o' := o3;
    DirGotParts(fs2, o, d, nb, fs3, o3, b);
    DirGotDense(fs2, o, d, nb, fs3, o3, b);
    AffordedIs(fs2, d, nb, fs3, b);
    GrowsTree(fs2, o, d, fs3, o3);
    TreeThen(fs, o, fs2, o, fs3, o3);
    if b >= 0 {
      EmptyString();
      HoleNames(fs2, o, d, nb, fs3, o3, b, 0, []);
      EntryIs(fs3, d, nb, 0, b);
      SpareIs(fs3, d, nb, 0, DirEntry(b, 0));
      AllocatedAt(fs, o, d, Found(fs3, 0, DirEntry(b, 0)), o3, nb, 0);
    } else {
      AllocatedNot(fs, o, d, Found(fs3, b, ROOT), o3);
    }
  }

  /** A larger size leaves the cost of a block as it was. */
  lemma GrownCost(fs: Fs, o: Owners, d: File, n: Word)
    requires Inv(fs, o) && Known(fs, o, d) && FitsIn(fs, d, n)
    ensures Shape(fs) && Room(Resize(fs, d, n)) == Room(fs)
    ensures forall m: nat :: Cost(Resize(fs, d, n), d, m) == Cost(fs, d, m)
  {
    hide *;
    InvParts(fs, o);
    SizeIs(fs, o, d);
    SizePlace(fs, d, n);
    BitmapSame(fs, d, n);
    RoomSame(fs, Resize(fs, d, n));
    GrowElsewhere(fs, o, d, n);
    SizeNotSlot(d);
    forall m: nat ensures Cost(Resize(fs, d, n), d, m) == Cost(fs, d, m) {
      GrownDirBlock(fs, o, d, n, d, m);
      CostIs(fs, d, m);
      CostIs(Resize(fs, d, n), d, m);
    }
  }

  lemma SizeNotSlot(d: File)
    ensures Part(d, INDIRECT) != Part(d, SIZE) && IsCell(Part(d, INDIRECT))
  {
  }

  lemma BitmapSame(fs: Fs, d: File, n: Word)
    requires Shape(fs)
    ensures Resize(fs, d, n).bitmap == fs.bitmap
  {
  }

  lemma BlockMultiple(n: nat)
    requires n % BLKSIZE == 0
    ensures (n + BLKSIZE) % BLKSIZE == 0
  {
  }

  lemma DenseSame(fs: Fs, fs': Fs, d: File, nb: nat)
    requires Dense(fs, d, nb) && forall m: nat :: BlockOf(fs', d, m) == BlockOf(fs, d, m)
    ensures Dense(fs', d, nb)
  {
    hide BlockOf;
  }

  lemma LastIsHole(fs: Fs, o: Owners, d: File)
    requires Inv(fs, o) && Known(fs, o, d)
    ensures BlockOf(fs, d, NBlocks(Size(fs, d))) == 0
  {
    SizedIs(fs, o, d);
    BlockIs(fs, d, NBlocks(Size(fs, d)));
    hide Inv, Known, Value, DataCell;
  }

  /** dir_alloc_file finds or makes an unnamed entry.  Where the directory has no hole, as after
      dir_lookup, it succeeds exactly if there is such an entry or room for one more block. */
  lemma AllocFinds(fs: Fs, o: Owners, d: File) returns (o': Owners)
    requires Inv(fs, o) && DirsOk(fs, o) && KnownDir(fs, o, d)
    ensures Shape(fs) && At(fs, d) && Allocated(fs, o, d, DirAllocFile(fs, d), o')
    ensures var nb := NBlocks(Size(fs, d));
            Dense(fs, d, nb) ==> (DirAllocFile(fs, d).rc == 0 <==> Unnamed(fs, d) || (nb < MAXBLOCKS && Cost(fs, d, nb) <= Room(fs)))
  {
    hide *;
    InvParts(fs, o);
    KnownDirIs(fs, o, d);
    DirOkIs(fs, o, d);
    SizeIs(fs, o, d);
    AllocForm(fs, d);
    DenseIs(fs, d, 0, 0);
    EmptyString();
    var nb := NBlocks(Size(fs, d));
    o' := ScanFinds(fs, o, d, [], 0, nb);
    var (fs1, res) := DirScan(fs, d, [], 0, nb);
    ScannedIs(fs, o, d, [], 0, nb, fs1, o', res);
    ScanRoomIs(fs, d, 0, nb, fs1, res);
    GrowsTree(fs, o, d, fs1, o');
    if Dense(fs, d, nb) { DenseScan(fs, o, d, [], 0, nb); }
    match res {
      case Hit(e) =>
        var n: nat, j: nat :| First(fs1, d, [], 0, nb, n, j, e);
        FirstIs(fs1, d, [], 0, nb, n, j, e);
        SpareIs(fs1, d, n, j, e);
        AllocatedFound(fs, o, d, fs1, o', e, n, j);
      case Failed(rc) => AllocatedNot(fs, o, d, Found(fs1, rc, ROOT), o');
      case Miss =>
        var o1 := o';
        TreeIs(fs, o, fs1, o1);
        TreeKnown(fs, o, fs1, o1, d);
        GrowsDir(fs, o, d, fs1, o1, d);
        KnownDirIs(fs1, o1, d);
        SizeIs(fs1, o1, d);
        DirOkIs(fs1, o1, d);
        DenseSize(fs1, o1, d);
        WordFits(Size(fs, d) + BLKSIZE);
        var n: Word := Size(fs, d) + BLKSIZE;
        o' := AllocGrown(fs1, o1, d, n);
        AllocatedThen(fs, o, d, fs1, o1, DirAllocFile(fs, d), o');
        if fs1 == fs { MissedUnnamed(fs, o, d, fs1, o1); }
    }
  }

  lemma MissedUnnamed(fs: Fs, o: Owners, d: File, fs1: Fs, o1: Owners)
    requires Inv(fs, o) && KnownDir(fs, o, d) && Scanned(fs, o, d, [], 0, NBlocks(Size(fs, d)), fs1, o1, Miss) && fs1 == fs
    ensures !Unnamed(fs, d)
  {
    hide *;
    ScannedIs(fs, o, d, [], 0, NBlocks(Size(fs, d)), fs1, o1, Miss);
    if Unnamed(fs, d) {
      var n, j, e := UnnamedAt(fs, d);
      EntryInSize(fs, o, d, n, j, e);
    }
  }

  lemma WordFits(n: nat)
    ensures n <= MAXSIZE ==> n < 0x1_0000_0000
  {
  }

  lemma AllocatedFound(fs: Fs, o: Owners, d: File, fs1: Fs, o1: Owners, e: File, n: nat, j: nat)
    requires SameTree(fs, o, fs1, o1) && Spare(fs1, d, n, j, e)
    ensures Allocated(fs, o, d, Found(fs1, 0, e), o1)
  {
    AllocatedAt(fs, o, d, Found(fs1, 0, e), o1, n, j);
  }

  lemma AllocatedThen(fs: Fs, o: Owners, d: File, fs1: Fs, o1: Owners, r: Found, o': Owners)
    requires SameTree(fs, o, fs1, o1) && Allocated(fs1, o1, d, r, o')
    ensures Allocated(fs, o, d, r, o')
  {
    TreeThen(fs, o, fs1, o1, r.fs, o');
    hide SameTree, Spare, Room;
  }

  /* ---- strcpy into f_name ---- */

  /** A name is at most one string. */
  lemma NameDetermined(fs: Fs, e: File, a: Name, b: Name)
    requires NameIs(fs, e, a) && NameIs(fs, e, b) && IsString(a) && IsString(b)
    ensures a == b
  {
    hide NameByte;
    assert forall i :: 0 <= i < |a| && i < |b| ==> a[i] == NameByte(fs, e, i) == b[i];
  }

  lemma PutNameByte(fs: Fs, e: File, name: Name, i: nat)
    requires At(fs, e) && |name| < MAXNAMELEN && i <= |name|
    ensures NameByte(PutName(fs, e, name), e, i) == (name + [0])[i]
  {
    PutBytesGet(fs.blocks[e.block], 4 * e.base, name + [0], 4 * e.base + i);
    assert (4 * e.base + i) / 4 == e.base + i / 4 && (4 * e.base + i) % 4 == i % 4;
    hide PutBytes, ByteOf;
  }

  lemma PutNameIs(fs: Fs, e: File, name: Name, nm: Name)
    requires At(fs, e) && |name| < MAXNAMELEN && IsString(name) && IsString(nm)
    ensures NameIs(PutName(fs, e, name), e, nm) <==> nm == name
  {
    hide *;
    forall i: nat | i <= |name| ensures NameByte(PutName(fs, e, name), e, i) == (name + [0])[i] {
      PutNameByte(fs, e, name, i);
    }
    NameFrom(PutName(fs, e, name), e, name);
    if NameIs(PutName(fs, e, name), e, nm) { NameDetermined(PutName(fs, e, name), e, nm, name); }
  }

  lemma NameFrom(fs: Fs, e: File, name: Name)
    requires |name| < MAXNAMELEN && forall i: nat :: i <= |name| ==> NameByte(fs, e, i) == (name + [0])[i]
    ensures NameIs(fs, e, name)
  {
    hide NameByte;
  }

  predicate InName(e: File, t: Cell) { t.Part? && t.f == e && t.k < SIZE }

  /** The copy stays inside f_name. */
  lemma PutNamePeek(fs: Fs, e: File, name: Name, b: nat, i: nat)
    requires At(fs, e) && |name| < MAXNAMELEN && !(b == e.block && e.base <= i < e.base + SIZE)
    ensures Peek(PutName(fs, e, name), b, i) == Peek(fs, b, i)
  {
    if b == e.block && i < BLKWORDS { PutBytesWord(fs.blocks[e.block], 4 * e.base, name + [0], i); }
    hide PutBytes;
  }

  lemma OutsideName(fs: Fs, o: Owners, e: File, t: Cell)
    requires Inv(fs, o) && Known(fs, o, e) && Known(fs, o, t.f) && Located(fs, t) && !InName(e, t)
    ensures !(Home(fs, t) == e.block && e.base <= Offset(t) < e.base + SIZE)
  {
    hide *;
    InvParts(fs, o);
    KnownBlock(fs, o, e);
    if Home(fs, t) == e.block && e.base <= Offset(t) < e.base + SIZE {
      var k := Offset(t) - e.base;
      NamePart(fs, e, k, t);
      CellsApart(fs, o, Part(e, k), t);
    }
  }

  lemma NamePart(fs: Fs, e: File, k: nat, t: Cell)
    requires k < SIZE && e.block != 0 && !InName(e, t)
    ensures Part(e, k).f == e && Located(fs, Part(e, k)) && Home(fs, Part(e, k)) == e.block && Offset(Part(e, k)) == e.base + k
    ensures Part(e, k) != t
  {
  }

  /** So it changes no other word that matters. */
  lemma PutNameValue(fs: Fs, o: Owners, e: File, name: Name, t: Cell)
    requires Inv(fs, o) && Known(fs, o, e) && |name| < MAXNAMELEN && Known(fs, o, t.f) && IsCell(t) && !InName(e, t)
    ensures At(fs, e) && Value(PutName(fs, e, name), t) == Value(fs, t)
  {
    hide *;
    SizeIs(fs, o, e);
    KnownBlock(fs, o, t.f);
    var (fs', ind) := (PutName(fs, e, name), Part(t.f, INDIRECT));
    ValueForm(fs, t);
    ValueForm(fs', t);
    ValueForm(fs, ind);
    IndirectApart(e, t.f);
    OutsideName(fs, o, e, ind);
    PutNamePeek(fs, e, name, t.f.block, Offset(ind));
    if Home(fs, t) != 0 {
      OutsideName(fs, o, e, t);
      PutNamePeek(fs, e, name, Home(fs, t), Offset(t));
    }
  }

  lemma IndirectApart(e: File, g: File)
    ensures !InName(e, Part(g, INDIRECT)) && IsCell(Part(g, INDIRECT))
  {
  }

  /* ---- the new entry ---- */

  /** An unnamed entry e of d, and a name that d does not have yet. */
  ghost predicate CanName(fs: Fs, o: Owners, d: File, n: nat, j: nat, e: File, name: Name) {
    && Inv(fs, o) && DirsOk(fs, o) && KnownDir(fs, o, d) && Spare(fs, d, n, j, e)
    && IsElem(name) && |name| < MAXNAMELEN && forall x :: !Named(fs, d, name, x)
  }

  lemma CanNameIs(fs: Fs, o: Owners, d: File, n: nat, j: nat, e: File, name: Name)
    requires CanName(fs, o, d, n, j, e, name)
    ensures Inv(fs, o) && DirsOk(fs, o) && KnownDir(fs, o, d) && EntryOf(fs, d, n, j, e) && NameIs(fs, e, []) && Dense(fs, d, n)
    ensures IsElem(name) && IsString(name) && name != [] && |name| < MAXNAMELEN && forall x :: !Named(fs, d, name, x)
    ensures Known(fs, o, e) && At(fs, e) && Shape(fs) && e.block != 0
  {
    EntryKnown(fs, o, d, n, j, e);
    hide Inv, DirsOk, KnownDir, EntryOf, NameIs, Named, Dense;
  }

  /** What stays the same when e is named. */
  lemma PutNameKept(fs: Fs, o: Owners, e: File, name: Name, g: File)
    requires Inv(fs, o) && Known(fs, o, e) && |name| < MAXNAMELEN && Known(fs, o, g)
    ensures At(fs, e)
    ensures var fs' := PutName(fs, e, name);
            && Size(fs', g) == Size(fs, g) && IsDir(fs', g) == IsDir(fs, g) && (SizedFile(fs, g) ==> SizedFile(fs', g))
            && (forall m: nat :: BlockOf(fs', g, m) == BlockOf(fs, g, m))
            && (g != e ==> SameName(fs, fs', g))
  {
    SizeIs(fs, o, e);
    var fs' := PutName(fs, e, name);
    forall t: Cell | t.f == g && IsCell(t) && !InName(e, t) ensures Value(fs', t) == Value(fs, t) { PutNameValue(fs, o, e, name, t); }
    hide Inv, Known, Value, PutName;
    assert forall k :: SIZE <= k <= INDIRECT ==> IsCell(Part(g, k)) && !InName(e, Part(g, k));
    assert forall k :: g != e && 0 <= k < SIZE ==> IsCell(Part(g, k)) && !InName(e, Part(g, k));
    forall m: nat ensures BlockOf(fs', g, m) == BlockOf(fs, g, m) { DataCells(g, m); }
    if SizedFile(fs, g) { SizedSame(fs, fs', g); }
  }

  lemma PutNameKeeps(fs: Fs, o: Owners, e: File, name: Name)
    requires Inv(fs, o) && Known(fs, o, e) && |name| < MAXNAMELEN
    ensures At(fs, e) && Inv(PutName(fs, e, name), o)
    ensures forall g :: Known(PutName(fs, e, name), o, g) <==> Known(fs, o, g)
  {
    hide *;
    SizeIs(fs, o, e);
    var fs' := PutName(fs, e, name);
    forall t: Cell | Known(fs, o, t.f) && (IsSlot(t) || t == Part(t.f, TYPE)) ensures Value(fs', t) == Value(fs, t) {
      SlotNotName(e, t);
      PutNameValue(fs, o, e, name, t);
    }
    PutNameSame(fs, o, e, name);
    forall g | Known(fs, o, g) ensures SizedFile(fs', g) {
      SizedIs(fs, o, g);
      PutNameKept(fs, o, e, name, g);
    }
    SameKeeps(fs, o, fs');
    forall g ensures Known(fs', o, g) <==> Known(fs, o, g) { SameKnown(fs, o, fs', g); }
  }

  lemma SlotNotName(e: File, t: Cell)
    ensures IsSlot(t) || t == Part(t.f, TYPE) ==> IsCell(t) && !InName(e, t)
  {
  }

  lemma PutNameSame(fs: Fs, o: Owners, e: File, name: Name)
    requires At(fs, e) && |name| < MAXNAMELEN
    requires forall t: Cell :: Known(fs, o, t.f) && (IsSlot(t) || t == Part(t.f, TYPE)) ==> Value(PutName(fs, e, name), t) == Value(fs, t)
    ensures SameMaps(fs, o, PutName(fs, e, name))
  {
    hide Known, Value, IsSlot, PutBytes;
  }

  /** Exactly one name is new: name in d, for e. */
  lemma PutNameNamed(fs: Fs, o: Owners, d: File, n: nat, j: nat, e: File, name: Name, g: File, nm: Name, x: File)
    requires CanName(fs, o, d, n, j, e, name) && KnownDir(fs, o, g) && IsElem(nm)
    ensures At(fs, e) && (Named(PutName(fs, e, name), g, nm, x) <==> Named(fs, g, nm, x) || (g == d && nm == name && x == e))
  {
    hide *;
    CanNameIs(fs, o, d, n, j, e, name);
    var fs' := PutName(fs, e, name);
    KnownDirIs(fs, o, g);
    KnownDirIs(fs, o, d);
    PutNameKept(fs, o, e, name, g);
    PutNameKept(fs, o, e, name, d);
    ElemIs(nm);
    EmptyString();
    PutNameIs(fs, e, name, nm);
    EntryBlock(fs, d, n, j, e);
    EntryBlock(fs', d, n, j, e);
    NamedIs(fs', d, name, n, j, e);
    if Named(fs, g, nm, x) || Named(fs', g, nm, x) {
      var m, k := NamedEither(fs, fs', g, nm, x);
      EntryKnown(fs, o, g, m, k, x);
      if x == e {
        EntryUnique(fs, o, d, n, j, g, m, k, e);
        if NameIs(fs, e, nm) { NameDetermined(fs, e, [], nm); }
      } else {
        PutNameKept(fs, o, e, name, x);
        NameSame(fs, fs', x, nm);
      }
      NamedIs(fs, g, nm, m, k, x);
      NamedIs(fs', g, nm, m, k, x);
    }
  }

  /** The entries of a directory once e is named. */
  lemma PutNameEntry(fs: Fs, o: Owners, d: File, n: nat, j: nat, e: File, name: Name, g: File, m: nat, k: nat, x: File, nm: Name)
    requires Inv(fs, o) && KnownDir(fs, o, d) && EntryOf(fs, d, n, j, e) && |name| < MAXNAMELEN && IsString(name)
    requires KnownDir(fs, o, g) && At(fs, e) && EntryOf(PutName(fs, e, name), g, m, k, x) && IsString(nm)
    ensures EntryOf(fs, g, m, k, x) && IsDir(PutName(fs, e, name), x) == IsDir(fs, x)
    ensures if x == e then g == d && m == n && (NameIs(PutName(fs, e, name), x, nm) <==> nm == name)
            else NameIs(PutName(fs, e, name), x, nm) == NameIs(fs, x, nm)
  {
    hide *;
    EntryKnown(fs, o, d, n, j, e);
    var fs' := PutName(fs, e, name);
    KnownDirIs(fs, o, g);
    PutNameKept(fs, o, e, name, g);
    EntryBlock(fs, g, m, k, x);
    EntryBlock(fs', g, m, k, x);
    EntryKnown(fs, o, g, m, k, x);
    PutNameKept(fs, o, e, name, x);
    PutNameIs(fs, e, name, nm);
    if x == e { EntryUnique(fs, o, d, n, j, g, m, k, e); } else { NameSame(fs, fs', x, nm); }
  }

  lemma PutNamePacked(fs: Fs, o: Owners, d: File, n: nat, j: nat, e: File, name: Name, g: File)
    requires CanName(fs, o, d, n, j, e, name) && KnownDir(fs, o, g) && Packed(fs, g) && PlainNew(fs, g) && At(fs, e)
    ensures Packed(PutName(fs, e, name), g) && PlainNew(PutName(fs, e, name), g)
  {
    hide *;
    CanNameIs(fs, o, d, n, j, e, name);
    EmptyString();
    KnownDirIs(fs, o, g);
    var fs' := PutName(fs, e, name);
    PutNameKept(fs, o, e, name, g);
    forall m: nat, k: nat, x, nm | EntryOf(fs', g, m, k, x) && IsElem(nm) && NameIs(fs', x, nm) ensures Dense(fs', g, m) {
      ElemIs(nm);
      PutNameEntry(fs, o, d, n, j, e, name, g, m, k, x, nm);
      if x != e { PackedAt(fs, g, m, k, x, nm); }
      DenseSame(fs, fs', g, m);
    }
    PackedJoin(fs', g);
    forall m: nat, k: nat, x | EntryOf(fs', g, m, k, x) && NameIs(fs', x, []) ensures !IsDir(fs', x) {
      PutNameEntry(fs, o, d, n, j, e, name, g, m, k, x, []);
      if x != e { PlainNewIs(fs, g, m, k, x); }
    }
    PlainNewJoin(fs', g);
  }

  /** Naming the entry keeps the directories in order. */
  lemma PutNameDirs(fs: Fs, o: Owners, d: File, n: nat, j: nat, e: File, name: Name)
    requires CanName(fs, o, d, n, j, e, name)
    ensures At(fs, e) && Inv(PutName(fs, e, name), o) && DirsOk(PutName(fs, e, name), o)
    ensures forall g :: KnownDir(PutName(fs, e, name), o, g) <==> KnownDir(fs, o, g)
  {
    hide *;
    CanNameIs(fs, o, d, n, j, e, name);
    var fs' := PutName(fs, e, name);
    PutNameKeeps(fs, o, e, name);
    forall g ensures KnownDir(fs', o, g) <==> KnownDir(fs, o, g) {
      KnownDirIs(fs, o, g);
      KnownDirIs(fs', o, g);
      if Known(fs, o, g) { PutNameKept(fs, o, e, name, g); }
    }
    forall g | KnownDir(fs', o, g) ensures DirOk(fs', g) {
      KnownDirIs(fs, o, g);
      PutNameKept(fs, o, e, name, g);
      DirOkIs(fs, o, g);
      PutNamePacked(fs, o, d, n, j, e, name, g);
      SizeSame(fs, fs', g);
      forall nm, x, x' | IsElem(nm) && Named(fs', g, nm, x) && Named(fs', g, nm, x') ensures x == x' {
        PutNameNamed(fs, o, d, n, j, e, name, g, nm, x);
        PutNameNamed(fs, o, d, n, j, e, name, g, nm, x');
        if Named(fs, g, nm, x) && Named(fs, g, nm, x') { UniqueIs(fs, g, nm, x, x'); }
      }
      DirJoin(fs', g);
    }
    DirsJoin(fs', o);
  }
}
