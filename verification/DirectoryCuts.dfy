/** file_set_size on a directory: when it leaves the disk in order, and when every path still leads where
    it led. */
module DirectoryCuts {
  import opened Words
  import opened Wrappers
  import opened Disk
  import opened FileSystem
  import opened FileOwnership
  import opened FileRelease
  import opened FileContents
  import opened FileTruncation
  import opened Paths
  import opened Directories
  import opened PathLookup
  import opened DirectoryTree
  import opened PathWalk

  /* ---- the entries that are cut off ---- */

  /** The entries in blocks nb and up own no block. */
  ghost predicate BarrenPast(fs: Fs, d: File, nb: nat) {
    forall m: nat, j: nat, c: Cell :: nb <= m && EntryOf(fs, d, m, j, c.f) && IsSlot(c) ==> Value(fs, c) == 0
  }

  /** The entries in blocks nb and up have no name that can stand in a path. */
  ghost predicate NamelessPast(fs: Fs, d: File, nb: nat) {
    forall m: nat, j: nat, e, name :: nb <= m && EntryOf(fs, d, m, j, e) && IsElem(name) ==> !NameIs(fs, e, name)
  }

  /** No path is lost when the size of d becomes n: d is no directory, or only nameless entries are cut off
      and, if any name is left, the size is a whole number of blocks. */
  ghost predicate Sparing(fs: Fs, d: File, n: Long) {
    IsDir(fs, d) ==> NamelessPast(fs, d, BlockCount(n)) && (n % BLKSIZE == 0 || NamelessPast(fs, d, 0))
  }

  /** Entries past the new size are in blocks that are cut off. */
  lemma EntryDrops(fs: Fs, o: Owners, d: File, n: Long, m: nat, j: nat, e: File)
    requires Inv(fs, o) && KnownDir(fs, o, d) && BlockCount(n) <= m && EntryOf(fs, d, m, j, e)
    ensures Drops(o, Removed(fs, d, n), e.block) && Known(fs, o, e) && e != ROOT && e.block != ROOT.block
  {
    hide *;
    KnownDirIs(fs, o, d);
    EntryKnown(fs, o, d, m, j, e);
    EntryBlock(fs, d, m, j, e);
    BlockOfIs(fs, o, d, m);
    InUseNotRoot(fs, e.block);
    RemovedIs(fs, d, n);
    DataIn(Removed(fs, d, n), d, m);
    EndIs(m);
    DropsIs(o, Removed(fs, d, n), e.block);
  }

  lemma EndIs(m: nat)
    ensures m < MAXBLOCKS ==> m < END
  {
  }

  /** And those are all the files in such blocks. */
  lemma DropsAt(fs: Fs, o: Owners, d: File, n: Long, g: File) returns (m: nat, j: nat)
    requires Inv(fs, o) && KnownDir(fs, o, d) && Known(fs, o, g) && Drops(o, Removed(fs, d, n), g.block)
    ensures BlockCount(n) <= m && EntryOf(fs, d, m, j, g)
  {
    hide *;
    var r := Removed(fs, d, n);
    RemovedIs(fs, d, n);
    DropsIs(o, r, g.block);
    KnownOwner(fs, o, g.block);
    OwnerNonzero(fs, o, g.block);
    InUseNotRoot(fs, g.block);
    KnownParts(fs, o, g);
    InIs(r, o[g.block]);
    m := DataIndex(o[g.block]);
    DataIn(r, d, m);
    BlockIs(fs, d, m);
    j := EntryIndex(g);
    EntryBlock(fs, d, m, j, g);
  }

  lemma DataIndex(c: Cell) returns (m: nat)
    requires IsData(c)
    ensures m < MAXBLOCKS && c == DataCell(c.f, m)
  {
    m := Index(c);
  }

  lemma EntryIndex(g: File) returns (j: nat)
    requires g.base < BLKWORDS && g.base % FILEWORDS == 0
    ensures j < BLKFILES && g == DirEntry(g.block, j)
  {
    j := g.base / FILEWORDS;
  }

  /** What must be empty is what the entries past the new size own. */
  lemma LooseDir(fs: Fs, o: Owners, d: File, n: Long)
    requires Inv(fs, o) && KnownDir(fs, o, d)
    ensures Loose(fs, o, Removed(fs, d, n)) <==> BarrenPast(fs, d, BlockCount(n))
  {
    hide *;
    var (r, nb) := (Removed(fs, d, n), BlockCount(n));
    if Loose(fs, o, r) {
      forall m: nat, j: nat, c: Cell | nb <= m && EntryOf(fs, d, m, j, c.f) && IsSlot(c) ensures Value(fs, c) == 0 {
        EntryDrops(fs, o, d, n, m, j, c.f);
        if Value(fs, c) != 0 { LooseAt(fs, o, r, c); }
      }
      BarrenJoin(fs, d, nb);
    }
    if BarrenPast(fs, d, nb) {
      forall c ensures KnownSlot(fs, o, c) && Drops(o, r, c.f.block) ==> Value(fs, c) == 0 {
        SlotOf(fs, o, c);
        if KnownSlot(fs, o, c) && Drops(o, r, c.f.block) {
          var m, j := DropsAt(fs, o, d, n, c.f);
          BarrenAt(fs, d, nb, m, j, c);
        }
      }
      LooseJoin(fs, o, r);
    }
  }

  lemma BarrenJoin(fs: Fs, d: File, nb: nat)
    requires forall m: nat, j: nat, c: Cell :: nb <= m && EntryOf(fs, d, m, j, c.f) && IsSlot(c) ==> Value(fs, c) == 0
    ensures BarrenPast(fs, d, nb)
  {
    hide EntryOf, Value;
  }

  lemma BarrenAt(fs: Fs, d: File, nb: nat, m: nat, j: nat, c: Cell)
    requires BarrenPast(fs, d, nb) && nb <= m && EntryOf(fs, d, m, j, c.f) && IsSlot(c)
    ensures Value(fs, c) == 0
  {
    hide EntryOf, Value;
  }

  lemma NamelessJoin(fs: Fs, d: File, nb: nat)
    requires forall m: nat, j: nat, e, name :: nb <= m && EntryOf(fs, d, m, j, e) && IsElem(name) ==> !NameIs(fs, e, name)
    ensures NamelessPast(fs, d, nb)
  {
    hide EntryOf, NameIs, IsElem;
  }

  lemma NamelessAt(fs: Fs, d: File, nb: nat, m: nat, j: nat, e: File, name: Name)
    requires NamelessPast(fs, d, nb) && EntryOf(fs, d, m, j, e) && IsElem(name) && NameIs(fs, e, name)
    ensures m < nb
  {
    hide EntryOf, NameIs, IsElem;
  }

  /* ---- what the cut leaves of blocks, names and types ---- */

  lemma CutBlock(fs: Fs, o: Owners, d: File, n: Long, fs': Fs, g: File, m: nat)
    requires Inv(fs, o) && SizeCut(fs, o, d, n, fs') && Known(fs, o, g)
    ensures BlockOf(fs', g, m) == if g == d && BlockCount(n) <= m then 0 else BlockOf(fs, g, m)
  {
    hide *;
    BlockIs(fs, g, m);
    BlockIs(fs', g, m);
    EndIs(m);
    SizeNoSlot(d);
    RemovedIs(fs, d, n);
    if m < MAXBLOCKS {
      SlotKnown(fs, o, g, m);
      SlotIsData(DataCell(g, m));
      DataIn(Removed(fs, d, n), g, m);
      SizeCutIs(fs, o, d, n, fs', DataCell(g, m));
    }
  }

  lemma CutWord(fs: Fs, o: Owners, d: File, n: Long, fs': Fs, g: File, k: nat)
    requires SizeCut(fs, o, d, n, fs') && Known(fs, o, g) && k <= TYPE
    ensures Value(fs', Part(g, k)) == if g == d && k == SIZE then n % 0x1_0000_0000 else Value(fs, Part(g, k))
  {
    SizeCutIs(fs, o, d, n, fs', Part(g, k));
    assert IsCell(Part(g, k)) && !IsSlot(Part(g, k));
    assert !In(Removed(fs, d, n), Part(g, k));
    hide Known, Value, Removed, SizeCut;
  }

  /** Names and types are kept, and all sizes but that of d. */
  lemma CutKept(fs: Fs, o: Owners, d: File, n: Long, fs': Fs, g: File, name: Name)
    requires Inv(fs, o) && SizeCut(fs, o, d, n, fs') && Known(fs, o, g)
    ensures NameIs(fs', g, name) == NameIs(fs, g, name) && IsDir(fs', g) == IsDir(fs, g)
    ensures Size(fs', g) == if g == d then n % 0x1_0000_0000 else Size(fs, g)
  {
    hide *;
    forall k: nat | k < SIZE ensures Value(fs', Part(g, k)) == Value(fs, Part(g, k)) {
      NameBefore(k);
      CutWord(fs, o, d, n, fs', g, k);
    }
    KnownBlock(fs, o, g);
    NameFrame(fs, fs', g, name);
    NameBefore(SIZE);
    NameBefore(TYPE);
    CutWord(fs, o, d, n, fs', g, SIZE);
    CutWord(fs, o, d, n, fs', g, TYPE);
    TypeOf(fs, g);
    TypeOf(fs', g);
    SizeOf(fs, g);
    SizeOf(fs', g);
  }

  lemma NameBefore(k: nat)
    ensures k < SIZE ==> k != SIZE && k <= TYPE
    ensures SIZE <= TYPE && TYPE != SIZE
  {
  }

  lemma NameFrame(fs: Fs, fs': Fs, g: File, name: Name)
    requires g.block != 0 && forall k: nat :: k < SIZE ==> Value(fs', Part(g, k)) == Value(fs, Part(g, k))
    ensures NameIs(fs', g, name) == NameIs(fs, g, name)
  {
    NameSame(fs, fs', g, name);
    hide Value, NameIs;
  }

  lemma TypeOf(fs: Fs, g: File)
    ensures IsDir(fs, g) <==> Value(fs, Part(g, TYPE)) == FTYPE_DIR
  {
  }

  /** The entries of a directory after the cut are those before, without the ones cut off. */
  lemma CutEntry(fs: Fs, o: Owners, d: File, n: Long, fs': Fs, g: File, m: nat, j: nat, e: File)
    requires Inv(fs, o) && SizeCut(fs, o, d, n, fs') && Known(fs, o, g)
    ensures EntryOf(fs', g, m, j, e) <==> EntryOf(fs, g, m, j, e) && !(g == d && BlockCount(n) <= m)
  {
    hide *;
    CutBlock(fs, o, d, n, fs', g, m);
    EntryBlock(fs, g, m, j, e);
    EntryBlock(fs', g, m, j, e);
  }

  lemma CutDense(fs: Fs, o: Owners, d: File, n: Long, fs': Fs, g: File, m: nat)
    requires Inv(fs, o) && SizeCut(fs, o, d, n, fs') && Known(fs, o, g) && Dense(fs, g, m) && (g == d ==> m <= BlockCount(n))
    ensures Dense(fs', g, m)
  {
    hide *;
    forall k: nat | k < m ensures BlockOf(fs', g, k) != 0 {
      DenseIs(fs, g, m, k);
      CutBlock(fs, o, d, n, fs', g, k);
    }
    DenseJoin(fs', g, m);
  }

  /* ---- order ---- */

  /** Every directory stays in order, if the size of d is one for a directory. */
  lemma CutDirOk(fs: Fs, o: Owners, d: File, n: Long, fs': Fs, g: File)
    requires Inv(fs, o) && SizeCut(fs, o, d, n, fs') && KnownDir(fs, o, g) && DirOk(fs, g)
    ensures DirOk(fs', g) <==> (g == d ==> n % BLKSIZE == 0)
  {
    hide *;
    KnownDirIs(fs, o, g);
    DirParts(fs, g);
    EmptyString();
    CutKept(fs, o, d, n, fs', g, []);
    SizeParts(fs, g);
    SizeParts(fs', g);
    SameRest(n);
    forall m: nat, j: nat, e, name | EntryOf(fs', g, m, j, e) && IsElem(name) && NameIs(fs', e, name) ensures Dense(fs', g, m) {
      CutEntry(fs, o, d, n, fs', g, m, j, e);
      EntryKnown(fs, o, g, m, j, e);
      CutKept(fs, o, d, n, fs', e, name);
      PackedAt(fs, g, m, j, e, name);
      CutDense(fs, o, d, n, fs', g, m);
    }
    PackedJoin(fs', g);
    forall m: nat, j: nat, e | EntryOf(fs', g, m, j, e) && NameIs(fs', e, []) ensures !IsDir(fs', e) {
      CutEntry(fs, o, d, n, fs', g, m, j, e);
      EntryKnown(fs, o, g, m, j, e);
      CutKept(fs, o, d, n, fs', e, []);
      PlainNewIs(fs, g, m, j, e);
    }
    PlainNewJoin(fs', g);
    forall name, e, e' | IsElem(name) && Named(fs', g, name, e) && Named(fs', g, name, e') ensures e == e' {
      CutNamed(fs, o, d, n, fs', g, name, e);
      CutNamed(fs, o, d, n, fs', g, name, e');
      UniqueIs(fs, g, name, e, e');
    }
    if DirSize(fs', g) { DirJoin(fs', g); }
    if DirOk(fs', g) { DirParts(fs', g); }
  }

  lemma SameRest(n: Long)
    ensures n % 0x1_0000_0000 % BLKSIZE == 0 <==> n % BLKSIZE == 0
  {
  }

  lemma SizeParts(fs: Fs, g: File)
    ensures DirSize(fs, g) <==> Size(fs, g) % BLKSIZE == 0
  {
  }

  lemma CutNamed(fs: Fs, o: Owners, d: File, n: Long, fs': Fs, g: File, name: Name, e: File)
    requires Inv(fs, o) && SizeCut(fs, o, d, n, fs') && KnownDir(fs, o, g)
    ensures Named(fs', g, name, e) ==> Named(fs, g, name, e)
  {
    hide *;
    KnownDirIs(fs, o, g);
    if Named(fs', g, name, e) {
      var m, j := NamedAt(fs', g, name, e);
      CutEntry(fs, o, d, n, fs', g, m, j, e);
      EntryKnown(fs, o, g, m, j, e);
      CutKept(fs, o, d, n, fs', e, name);
      NamedIs(fs, g, name, m, j, e);
    }
  }

  lemma CutDirKnown(fs: Fs, o: Owners, d: File, n: Long, fs': Fs, g: File)
    requires Inv(fs, o) && SizeCut(fs, o, d, n, fs')
    ensures KnownDir(fs', Less(o, Removed(fs, d, n)), g) ==> KnownDir(fs, o, g)
    ensures g == d && KnownDir(fs, o, d) ==> KnownDir(fs', Less(o, Removed(fs, d, n)), d)
  {
    hide *;
    var r := Removed(fs, d, n);
    SizeCutEmpties(fs, o, d, n, fs');
    EmptiedKnown(fs, o, r, fs', g);
    KnownDirIs(fs, o, g);
    KnownDirIs(fs', Less(o, r), g);
    if Known(fs, o, g) { CutKept(fs, o, d, n, fs', g, []); }
    if g == d && Known(fs, o, d) && d != ROOT && Drops(o, r, d.block) {
      DropsIs(o, r, d.block);
      InIs(r, o[d.block]);
      RemovedIs(fs, d, n);
      NeverOwn(fs, o, d.block);
    }
  }

  lemma CutDirs(fs: Fs, o: Owners, d: File, n: Long, fs': Fs)
    requires Inv(fs, o) && DirsOk(fs, o) && KnownDir(fs, o, d) && SizeCut(fs, o, d, n, fs')
    ensures DirsOk(fs', Less(o, Removed(fs, d, n))) <==> n % BLKSIZE == 0
  {
    hide *;
    var p := Less(o, Removed(fs, d, n));
    CutDirKnown(fs, o, d, n, fs', d);
    DirOkIs(fs, o, d);
    CutDirOk(fs, o, d, n, fs', d);
    if DirsOk(fs', p) { DirOkIs(fs', p, d); }
    if n % BLKSIZE == 0 {
      forall g | KnownDir(fs', p, g) ensures DirOk(fs', g) {
        CutDirKnown(fs, o, d, n, fs', g);
        DirOkIs(fs, o, g);
        CutDirOk(fs, o, d, n, fs', g);
      }
      DirsJoin(fs', p);
    }
  }

  /** Ownership and directories are in order. */
  ghost predicate Good(fs: Fs) { exists o :: Inv(fs, o) && DirsOk(fs, o) }

  lemma GoodOwners(fs: Fs) returns (o: Owners)
    requires Good(fs)
    ensures Inv(fs, o) && DirsOk(fs, o)
  {
    o :| Inv(fs, o) && DirsOk(fs, o);
  }

  lemma GoodIs(fs: Fs, o: Owners)
    requires Inv(fs, o) && DirsOk(fs, o)
    ensures Good(fs)
  {
    hide Inv, DirsOk;
  }

  /** file_set_size on a directory leaves the disk in order exactly when the size fits and is a whole
      number of blocks, and no entry cut off owns a block. */
  lemma SetSizeDirExact(fs: Fs, o: Owners, d: File, n: Long)
    requires Inv(fs, o) && DirsOk(fs, o) && KnownDir(fs, o, d)
    ensures Shape(fs) && At(fs, d)
    ensures Good(FileSetSize(fs, d, n)) <==> Fits(n) && n % BLKSIZE == 0 && BarrenPast(fs, d, NBlocks(n))
  {
    hide *;
    KnownDirIs(fs, o, d);
    SetSizeCuts(fs, o, d, n);
    CountFits(n);
    var (fs', p) := (FileSetSize(fs, d, n), Less(o, Removed(fs, d, n)));
    SetSizeExact(fs, o, d, n);
    LooseDir(fs, o, d, n);
    CutDirs(fs, o, d, n, fs');
    if Good(fs') {
      var q := GoodOwners(fs');
      OrderedIs(fs', q);
      OwnersUnique(fs', p, q);
    }
    if Fits(n) && n % BLKSIZE == 0 && BarrenPast(fs, d, NBlocks(n)) { GoodIs(fs', p); }
  }

  /* ---- lookups that find what they look for read no further ---- */

  /** Slots of f point into the disk. */
  ghost predicate Sound(fs: Fs, f: File) {
    At(fs, f) && f.block != 0 && Value(fs, Part(f, INDIRECT)) < |fs.blocks| && forall k: nat :: BlockOf(fs, f, k) < |fs.blocks|
  }

  lemma SoundIs(fs: Fs, f: File, k: nat)
    requires Sound(fs, f)
    ensures At(fs, f) && Shape(fs) && f.block != 0 && Value(fs, Part(f, INDIRECT)) < |fs.blocks| && BlockOf(fs, f, k) < |fs.blocks|
  {
    hide Value, BlockOf;
  }

  /** file_get_block of a block that is there. */
  lemma GetThere(fs: Fs, f: File, n: nat)
    requires Sound(fs, f) && BlockOf(fs, f, n) != 0
    ensures At(fs, f) && FileGetBlock(fs, f, n) == (fs, BlockOf(fs, f, n))
  {
    SoundIs(fs, f, n);
    hide *;
    BlockIs(fs, f, n);
    FieldIs(fs, f, INDIRECT);
    ThereForm(fs, f, n);
  }

  lemma ThereForm(fs: Fs, f: File, n: nat)
    requires At(fs, f) && f.block != 0 && n < MAXBLOCKS && Field(fs, f, INDIRECT) == Value(fs, Part(f, INDIRECT)) < |fs.blocks|
    requires 0 != Value(fs, DataCell(f, n)) < |fs.blocks|
    ensures FileGetBlock(fs, f, n) == (fs, Value(fs, DataCell(f, n)))
  {
    if n >= NDIRECT { EntryBehindIndirect(fs, f, n); }
    hide AllocBlock, WithBlock, SetWord;
  }

  /** A scan whose first match comes before any hole finds it and changes nothing. */
  lemma {:induction false} FirstFound(fs: Fs, f: File, name: Name, i: nat, nblock: nat, n: nat, j: nat, e: File)
    requires Sound(fs, f) && First(fs, f, name, i, nblock, n, j, e)
    ensures At(fs, f) && DirScan(fs, f, name, i, nblock) == (fs, Hit(e))
    decreases nblock - i
  {
    hide *;
    FirstIs(fs, f, name, i, nblock, n, j, e);
    SoundIs(fs, f, i);
    ScanForm(fs, f, name, i, nblock);
    EntryBlock(fs, f, n, j, e);
    DenseIs(fs, f, n, i);
    GetThere(fs, f, i);
    var b := BlockOf(fs, f, i);
    var k := EntryScan(fs, b, name, 0);
    if k < BLKFILES { EntryIs(fs, f, i, k, b); }
    if i == n {
      if j < k { EntryIs(fs, f, i, j, b); }
    } else {
      FirstNext(fs, f, name, i, nblock, n, j, e);
      FirstFound(fs, f, name, i + 1, nblock, n, j, e);
    }
  }

  lemma FirstNext(fs: Fs, f: File, name: Name, i: nat, nblock: nat, n: nat, j: nat, e: File)
    requires First(fs, f, name, i, nblock, n, j, e) && i < n
    ensures First(fs, f, name, i + 1, nblock, n, j, e)
  {
    hide EntryOf, NameIs, Dense;
  }

  lemma LookupFound(fs: Fs, f: File, name: Name, n: nat, j: nat, e: File)
    requires Sound(fs, f) && Size(fs, f) % BLKSIZE == 0 && First(fs, f, name, 0, DirBlocks(Size(fs, f)), n, j, e)
    ensures At(fs, f) && DirLookup(fs, f, name) == Found(fs, 0, e)
  {
    hide *;
    SoundIs(fs, f, 0);
    FirstFound(fs, f, name, 0, DirBlocks(Size(fs, f)), n, j, e);
    FieldIs(fs, f, SIZE);
    SizeOf(fs, f);
    SizeParts(fs, f);
    LookupForm(fs, f, name);
  }

  /** A successful lookup in a directory in order. */
  lemma LookupFirst(fs: Fs, o: Owners, d: File, name: Name) returns (n: nat, j: nat)
    requires Inv(fs, o) && DirsOk(fs, o) && KnownDir(fs, o, d) && IsElem(name) && At(fs, d) && DirLookup(fs, d, name).rc == 0
    ensures First(fs, d, name, 0, NBlocks(Size(fs, d)), n, j, DirLookup(fs, d, name).file)
    ensures DirLookup(fs, d, name).fs == fs
  {
    hide *;
    KnownDirIs(fs, o, d);
    DirOkIs(fs, o, d);
    SizeIs(fs, o, d);
    LookupForm(fs, d, name);
    DenseIs(fs, d, 0, 0);
    ElemIs(name);
    ErrorsDiffer();
    var nb := NBlocks(Size(fs, d));
    var o' := ScanFinds(fs, o, d, name, 0, nb);
    var (fs', res) := DirScan(fs, d, name, 0, nb);
    ScannedIs(fs, o, d, name, 0, nb, fs', o', res);
    n, j :| First(fs', d, name, 0, nb, n, j, res.file);
  }

  lemma CutSound(fs: Fs, o: Owners, d: File, n: Long, fs': Fs, g: File)
    requires Inv(fs, o) && SizeCut(fs, o, d, n, fs') && Known(fs, o, g)
    ensures Sound(fs', g)
  {
    hide *;
    InvParts(fs, o);
    KnownAt(fs, o, g);
    SizeCutIs(fs, o, d, n, fs', Part(g, INDIRECT));
    AtSame(fs, fs', g);
    UseBelow(fs, 0);
    forall k: nat ensures BlockOf(fs', g, k) < |fs'.blocks| {
      CutBlock(fs, o, d, n, fs', g, k);
      if BlockOf(fs, g, k) != 0 {
        BlockOfIs(fs, o, g, k);
        UseBelow(fs, BlockOf(fs, g, k));
      }
    }
    SlotKnown(fs, o, g, 0);
    SlotOwned(fs, o, Part(g, INDIRECT));
    UseBelow(fs, Value(fs, Part(g, INDIRECT)));
    SizeNotIndirect(d, g);
    SoundJoin(fs', g);
  }

  lemma SizeNotIndirect(d: File, g: File)
    ensures Part(g, INDIRECT) != Part(d, SIZE)
  {
  }

  lemma SoundJoin(fs: Fs, f: File)
    requires At(fs, f) && f.block != 0 && Value(fs, Part(f, INDIRECT)) < |fs.blocks| && forall k: nat :: BlockOf(fs, f, k) < |fs.blocks|
    ensures Sound(fs, f)
  {
    hide Value, BlockOf;
  }

  /** A lookup in f finds after the cut what it found before, unless f is d and the entry, or the whole
      number of blocks, is gone. */
  lemma LookupKept(fs: Fs, o: Owners, d: File, n: Long, fs': Fs, f: File, name: Name)
    requires Inv(fs, o) && DirsOk(fs, o) && SizeCut(fs, o, d, n, fs') && KnownDir(fs, o, f) && IsElem(name)
    requires At(fs, f) && DirLookup(fs, f, name).rc == 0 && (f == d ==> Sparing(fs, d, n))
    ensures At(fs', f) && DirLookup(fs', f, name) == Found(fs', 0, DirLookup(fs, f, name).file)
  {
    hide *;
    var e := DirLookup(fs, f, name).file;
    KnownDirIs(fs, o, f);
    DirOkIs(fs, o, f);
    SizeParts(fs, f);
    var m, j := LookupFirst(fs, o, f, name);
    var nb := NBlocks(Size(fs, f));
    FirstIs(fs, f, name, 0, nb, m, j, e);
    CutKept(fs, o, d, n, fs', f, name);
    CutSound(fs, o, d, n, fs', f);
    SizeIs(fs, o, f);
    LookupForm(fs, f, name);
    EntryInSize(fs, o, f, m, j, e);
    SameRest(n);
    if f == d {
      SparingAt(fs, d, n, m, j, e, name);
      StillWithin(n, m);
    }
    CutEntry(fs, o, d, n, fs', f, m, j, e);
    EntryKnown(fs, o, f, m, j, e);
    CutKept(fs, o, d, n, fs', e, name);
    CutDense(fs, o, d, n, fs', f, m);
    forall k: nat, i: nat, x | 0 <= k && EntryOf(fs', f, k, i, x) && (k < m || (k == m && i < j)) ensures !NameIs(fs', x, name) {
      CutEntry(fs, o, d, n, fs', f, k, i, x);
      EntryKnown(fs, o, f, k, i, x);
      CutKept(fs, o, d, n, fs', x, name);
    }
    FirstJoin(fs', f, name, 0, DirBlocks(Size(fs', f)), m, j, e);
    LookupFound(fs', f, name, m, j, e);
  }

  lemma SparingAt(fs: Fs, d: File, n: Long, m: nat, j: nat, e: File, name: Name)
    requires Sparing(fs, d, n) && IsDir(fs, d) && EntryOf(fs, d, m, j, e) && IsElem(name) && NameIs(fs, e, name)
    ensures m < BlockCount(n) && n % BLKSIZE == 0
  {
    hide *;
    SparingIs(fs, d, n);
    if n % BLKSIZE != 0 { NamelessAt(fs, d, 0, m, j, e, name); }
    NamelessAt(fs, d, BlockCount(n), m, j, e, name);
  }

  /** A scan goes on at least to the blocks that a cut to a whole number of blocks leaves. */
  lemma StillWithin(n: Long, m: nat)
    requires n % BLKSIZE == 0 && m < BlockCount(n) && m < MAXBLOCKS
    ensures m < DirBlocks(n % 0x1_0000_0000)
  {
    assert n == n / BLKSIZE * BLKSIZE;
  }

  /* ---- no path runs through a directory twice ---- */

  lemma {:induction false} LeadsRank(fs: Fs, o: Owners, f: File, es: seq<Name>, g: File, n: nat)
    requires Inv(fs, o) && DirsOk(fs, o) && Known(fs, o, f) && Leads(fs, f, es, g) && es != [] && Reached(o, g.block, n)
    ensures f == ROOT || (n >= |es| && Reached(o, f.block, n - |es|))
    decreases |es|
  {
    hide *;
    LeadsStep(fs, f, es, g);
    var e :| Named(fs, f, es[0], e) && Leads(fs, e, es[1..], g);
    var m, j := NamedAt(fs, f, es[0], e);
    KnownDirIs(fs, o, f);
    EntryKnown(fs, o, f, m, j, e);
    EntryBlock(fs, f, m, j, e);
    BlockOfIs(fs, o, f, m);
    InUseNotRoot(fs, e.block);
    DataCells(f, m);
    if es[1..] == [] {
      LeadsNone(fs, e, g);
    } else {
      LeadsRank(fs, o, e, es[1..], g, n);
    }
    ReachedForm(o, e.block, if es[1..] == [] then n else n - |es[1..]|);
  }

  lemma {:induction false} NoCycle(fs: Fs, o: Owners, f: File, es: seq<Name>, n: nat)
    requires Inv(fs, o) && DirsOk(fs, o) && Known(fs, o, f) && Leads(fs, f, es, f) && es != [] && f != ROOT
    ensures !Reached(o, f.block, n)
    decreases n
  {
    hide *;
    if Reached(o, f.block, n) {
      LeadsRank(fs, o, f, es, f, n);
      NoCycle(fs, o, f, es, n - |es|);
    }
  }

  lemma {:induction false} NeverRoot(fs: Fs, o: Owners, f: File, es: seq<Name>)
    requires Inv(fs, o) && DirsOk(fs, o) && Known(fs, o, f) && Leads(fs, f, es, ROOT)
    ensures es == []
    decreases |es|
  {
    hide *;
    if es != [] {
      LeadsStep(fs, f, es, ROOT);
      var e :| Named(fs, f, es[0], e) && Leads(fs, e, es[1..], ROOT);
      var m, j := NamedAt(fs, f, es[0], e);
      KnownDirIs(fs, o, f);
      EntryKnown(fs, o, f, m, j, e);
      EntryBlock(fs, f, m, j, e);
      BlockOfIs(fs, o, f, m);
      InUseNotRoot(fs, e.block);
      NeverRoot(fs, o, e, es[1..]);
      LeadsNone(fs, e, ROOT);
    }
  }

  lemma LeadsOnce(fs: Fs, o: Owners, f: File, es: seq<Name>)
    requires Inv(fs, o) && DirsOk(fs, o) && Known(fs, o, f) && Leads(fs, f, es, f)
    ensures es == []
  {
    hide *;
    if es != [] {
      if f == ROOT {
        NeverRoot(fs, o, f, es);
      } else {
        KnownParts(fs, o, f);
        InvParts(fs, o);
        RootedIs(o, f.block);
        var n := RootedBy(o, f.block);
        NoCycle(fs, o, f, es, n);
      }
    }
  }

  /* ---- walks ---- */

  /** A walk that succeeded succeeds after the cut, if the cut is sparing or d is where it ends. */
  lemma {:induction false} WalkKept(fs: Fs, o: Owners, d: File, n: Long, fs': Fs, f: File, dir: Option<File>, path: Name)
    requires Inv(fs, o) && DirsOk(fs, o) && Known(fs, o, f) && SizeCut(fs, o, d, n, fs')
    requires IsString(path) && (path != [] ==> path[0] != SLASH) && At(fs, f)
    requires var w := WalkFrom(fs, f, dir, path); w.rc == 0 && (Sparing(fs, d, n) || w.file == d)
    ensures At(fs', f) && WalkFrom(fs', f, dir, path).(fs := fs) == WalkFrom(fs, f, dir, path) && WalkFrom(fs', f, dir, path).fs == fs'
    ensures WalkFrom(fs, f, dir, path).fs == fs
    decreases |path|
  {
    hide *;
    CutSound(fs, o, d, n, fs', f);
    SoundIs(fs', f, 0);
    KnownBlock(fs, o, f);
    WalkForm(fs, f, dir, path);
    WalkForm(fs', f, dir, path);
    CodesNonzero();
    if path != [] {
      ElemsStep(path);
      var k := ElemLength(path);
      var (name, rest) := (path[..k], SkipSlash(path[k..]));
      TypeIs(fs, f);
      TypeIs(fs', f);
      CutKept(fs, o, d, n, fs', f, name);
      KnownDirIs(fs, o, f);
      var e := DirLookup(fs, f, name).file;
      var m, j := LookupFirst(fs, o, f, name);
      FirstIs(fs, f, name, 0, NBlocks(Size(fs, f)), m, j, e);
      EntryKnown(fs, o, f, m, j, e);
      if f == d && !Sparing(fs, d, n) { WalkBack(fs, o, d, dir, path); }
      LookupKept(fs, o, d, n, fs', f, name);
      CutSound(fs, o, d, n, fs', e);
      SoundIs(fs', e, 0);
      WalkKept(fs, o, d, n, fs', e, Some(f), rest);
    }
  }

  lemma CodesNonzero()
    ensures E_NOT_FOUND != 0 && E_BAD_PATH != 0 && PANIC != 0 && E_NO_DISK != 0 && E_INVAL != 0
  {
  }

  /** No walk comes back to where it started. */
  lemma WalkBack(fs: Fs, o: Owners, d: File, dir: Option<File>, path: Name)
    requires Inv(fs, o) && DirsOk(fs, o) && Known(fs, o, d) && IsString(path) && path != [] && path[0] != SLASH && At(fs, d)
    ensures !(WalkFrom(fs, d, dir, path).rc == 0 && WalkFrom(fs, d, dir, path).file == d)
  {
    hide *;
    var o' := WalkLeads(fs, o, d, dir, path);
    var w := WalkFrom(fs, d, dir, path);
    WalkedIs(fs, o, d, Elems(path), w, o');
    if w.rc == 0 && w.file == d {
      LeadsOnce(fs, o, d, Elems(path));
      ElemsStep(path);
    }
  }

  /** A path that opened a file opens it after a sparing cut, and so does the path of d after any cut. */
  lemma OpenKept(fs: Fs, o: Owners, d: File, n: Long, fs': Fs, q: Name, g: File)
    requires Inv(fs, o) && DirsOk(fs, o) && SizeCut(fs, o, d, n, fs') && IsString(q) && (Sparing(fs, d, n) || g == d)
    requires Shape(fs) && FileOpen(fs, q) == Found(fs, 0, g)
    ensures Shape(fs') && FileOpen(fs', q) == Found(fs', 0, g)
  {
    hide *;
    RootKnown(fs, o);
    SizeIs(fs, o, ROOT);
    SkipIs(q);
    OpenForm(fs, q);
    WalkPathForm(fs, q);
    WalkKept(fs, o, d, n, fs', ROOT, None, SkipSlash(q));
    CutSound(fs, o, d, n, fs', ROOT);
    SoundIs(fs', ROOT, 0);
    OpenForm(fs', q);
    WalkPathForm(fs', q);
  }

  /* ---- one component more ---- */

  lemma {:induction false} SkipAppend(a: Name, b: Name)
    ensures SkipSlash(a + b) == SkipSlash(SkipSlash(a) + b)
  {
    if a != [] && a[0] == SLASH {
      assert (a + b)[1..] == a[1..] + b;
      SkipAppend(a[1..], b);
    } else if a == [] {
      assert a + b == b;
    }
  }

  lemma {:induction false} ElemAppend(a: Name, b: Name)
    requires b != [] && b[0] == SLASH
    ensures ElemLength(a + b) == ElemLength(a)
  {
    if a != [] && a[0] != SLASH {
      assert (a + b)[1..] == a[1..] + b;
      ElemAppend(a[1..], b);
    } else if a == [] {
      assert a + b == b;
    }
  }

  lemma SkipOne(nm: Name)
    requires nm != [] && nm[0] != SLASH
    ensures SkipSlash([] + ([SLASH] + nm)) == nm
  {
    assert ([] + ([SLASH] + nm))[1..] == nm;
  }

  lemma SkipStays(path: Name, b: Name)
    requires path != [] && path[0] != SLASH
    ensures SkipSlash(path + b) == path + b
  {
  }

  /** A walk along one component more goes on where the shorter one ended. */
  lemma {:induction false} WalkAppend(fs: Fs, f: File, dir: Option<File>, path: Name, nm: Name)
    requires At(fs, f) && (path != [] ==> path[0] != SLASH) && nm != [] && nm[0] != SLASH
    requires var w := WalkFrom(fs, f, dir, path); w.rc == 0 && At(w.fs, w.file)
    ensures var (w, p) := (WalkFrom(fs, f, dir, path), SkipSlash(path + ([SLASH] + nm)));
            (p != [] ==> p[0] != SLASH) && WalkFrom(fs, f, dir, p) == WalkFrom(w.fs, w.file, w.dir, nm)
    decreases |path|
  {
    hide *;
    var tail := [SLASH] + nm;
    WalkForm(fs, f, dir, path);
    CodesNonzero();
    if path == [] {
      SkipOne(nm);
    } else {
      SkipStays(path, tail);
      var long := path + tail;
      WalkForm(fs, f, dir, long);
      ElemAppend(path, tail);
      LengthIs(path);
      var k := ElemLength(path);
      assert long[..k] == path[..k] && long[k..] == path[k..] + tail;
      SkipAppend(path[k..], tail);
      var l := DirLookup(fs, f, path[..k]);
      SkipNonempty(path[k..], nm);
      if l.rc == 0 { WalkAppend(l.fs, l.file, Some(f), SkipSlash(path[k..]), nm); }
    }
  }

  lemma LengthIs(path: Name)
    ensures ElemLength(path) <= |path|
    ensures SkipSlash(path) != [] ==> SkipSlash(path)[0] != SLASH
  {
  }

  lemma SkipNonempty(a: Name, nm: Name)
    requires nm != [] && nm[0] != SLASH
    ensures var p := SkipSlash(SkipSlash(a) + ([SLASH] + nm)); p != [] && p[0] != SLASH
    ensures SkipSlash(a) != [] ==> SkipSlash(a)[0] != SLASH
  {
    var s := SkipSlash(a);
    if s == [] { SkipOne(nm); assert s + ([SLASH] + nm) == [] + ([SLASH] + nm); } else { SkipStays(s, [SLASH] + nm); }
  }

  /** The path of d with one component more. */
  function Below(q: Name, nm: Name): Name { q + ([SLASH] + nm) }

  lemma OpenBelow(fs: Fs, q: Name, d: File, nm: Name)
    requires Shape(fs) && FileOpen(fs, q) == Found(fs, 0, d) && At(fs, d) && IsElem(nm)
    ensures FileOpen(fs, Below(q, nm)).rc == 0 ==>
      Field(fs, d, TYPE) == FTYPE_DIR && DirLookup(fs, d, nm) == Found(FileOpen(fs, Below(q, nm)).fs, 0, FileOpen(fs, Below(q, nm)).file)
    ensures var l := DirLookup(fs, d, nm);
            l.rc == 0 && Field(fs, d, TYPE) == FTYPE_DIR && |nm| < MAXNAMELEN && At(l.fs, l.file) ==> FileOpen(fs, Below(q, nm)) == l
  {
    hide *;
    RootAt(fs);
    OpenForm(fs, q);
    OpenForm(fs, Below(q, nm));
    WalkPathForm(fs, q);
    WalkPathForm(fs, Below(q, nm));
    LengthIs(q);
    ElemIs(nm);
    SkipAppend(q, [SLASH] + nm);
    BelowIs(q, nm);
    var w := WalkFrom(fs, ROOT, None, SkipSlash(q));
    SlashFree(nm);
    WalkAppend(fs, ROOT, None, SkipSlash(q), nm);
    WalkForm(fs, d, w.dir, nm);
    CodesNonzero();
    assert nm[..|nm|] == nm && nm[|nm|..] == [];
    SkipNone();
    var l := DirLookup(fs, d, nm);
    if l.rc == 0 && At(l.fs, l.file) { WalkForm(l.fs, l.file, Some(d), []); }
  }

  lemma RootAt(fs: Fs)
    requires Shape(fs)
    ensures At(fs, ROOT)
  {
  }

  lemma BelowIs(q: Name, nm: Name)
    ensures Below(q, nm) == q + ([SLASH] + nm)
    ensures IsString(q) && IsElem(nm) ==> IsString(Below(q, nm))
  {
  }

  lemma SkipNone()
    ensures SkipSlash([]) == []
  {
  }

  lemma {:induction false} SlashFree(nm: Name)
    requires SLASH !in nm
    ensures ElemLength(nm) == |nm| && (nm != [] ==> nm[0] != SLASH)
  {
    if nm != [] {
      assert nm[0] in nm;
      SlashFree(nm[1..]);
    }
  }

  /* ---- when paths are kept ---- */

  /** Every path that opened a file opens it still, and changes nothing on its way. */
  ghost predicate PathsKept(fs: Fs, fs': Fs)
    requires Shape(fs) && Shape(fs')
  {
    forall q, g :: IsString(q) && FileOpen(fs, q) == Found(fs, 0, g) ==> FileOpen(fs', q) == Found(fs', 0, g)
  }

  /** A scan of blocks that are all there ends with an entry of one of them, if with any. */
  lemma {:induction false} ScanWithin(fs: Fs, f: File, name: Name, i: nat, nblock: nat)
    requires Sound(fs, f) && Dense(fs, f, nblock)
    ensures At(fs, f)
    ensures var res := DirScan(fs, f, name, i, nblock).1;
            !res.Failed? && (res.Hit? ==> exists k: nat :: k < nblock && res.file.block == BlockOf(fs, f, k))
    decreases nblock - i
  {
    hide *;
    SoundIs(fs, f, i);
    ScanForm(fs, f, name, i, nblock);
    if i < nblock {
      DenseIs(fs, f, nblock, i);
      GetThere(fs, f, i);
      var b := BlockOf(fs, f, i);
      var j := EntryScan(fs, b, name, 0);
      EntryIs(fs, f, i, j, b);
      if j >= BLKFILES { ScanWithin(fs, f, name, i + 1, nblock); }
    }
  }

  /** Blocks are taken, never given back. */
  ghost predicate Takes(fs: Fs, fs': Fs) { forall b: nat :: IsFree(fs', b) ==> IsFree(fs, b) }

  lemma GetTakes(fs: Fs, f: File, n: nat)
    requires At(fs, f)
    ensures Takes(fs, FileGetBlock(fs, f, n).0)
  {
    var (fs1, w) := FileBlockWalk(fs, f, n, true);
    WalkTakes(fs, f, n);
    AllocTakes(fs1);
    hide FileBlockWalk, AllocBlock, IsFree, Peek, IsBlock;
  }

  lemma WalkTakes(fs: Fs, f: File, n: nat)
    requires At(fs, f)
    ensures Takes(fs, FileBlockWalk(fs, f, n, true).0)
  {
    AllocTakes(fs);
    hide AllocBlock, IsFree, Peek, IsBlock, Field;
  }

  lemma AllocTakes(fs: Fs)
    requires Shape(fs)
    ensures forall b: nat :: IsFree(AllocBlock(fs).0, b) ==> IsFree(fs, b)
    ensures AllocBlock(fs).1 >= 0 ==> IsFree(fs, AllocBlock(fs).1) && !IsFree(AllocBlock(fs).0, AllocBlock(fs).1)
    ensures forall fs': Fs, b: nat :: fs'.bitmap == AllocBlock(fs).0.bitmap && |fs'.blocks| == |fs.blocks| ==>
      IsFree(fs', b) == IsFree(AllocBlock(fs).0, b)
    ensures forall fs': Fs, b: nat :: fs'.bitmap == fs.bitmap && |fs'.blocks| == |fs.blocks| ==> IsFree(fs', b) == IsFree(fs, b)
  {
    var r := AllocBlock(fs).1;
    if r >= 0 {
      forall b: nat ensures IsFree(AllocBlock(fs).0, b) == if b == r then false else IsFree(fs, b) { MarkFree(fs, r, false, b); }
    }
    hide FindFree, Mark, Bit;
  }

  /** The first block, if it is a hole, is filled with a block that was free. */
  lemma HoleTaken(fs: Fs, f: File) returns (b: nat)
    requires At(fs, f) && BlockOf(fs, f, 0) == 0 && f.block != 0 && FileGetBlock(fs, f, 0).1 >= 0
    ensures IsFree(fs, b) && !IsFree(FileGetBlock(fs, f, 0).0, b)
  {
    AllocTakes(fs);
    b := AllocBlock(fs).1;
    hide AllocBlock, IsFree, IsBlock;
  }

  lemma {:induction false} ScanTakes(fs: Fs, f: File, name: Name, i: nat, nblock: nat)
    requires At(fs, f)
    ensures Takes(fs, DirScan(fs, f, name, i, nblock).0)
    decreases nblock - i
  {
    hide IsFree, FileGetBlock, EntryScan;
    if i < nblock {
      GetTakes(fs, f, i);
      ScanTakes(FileGetBlock(fs, f, i).0, f, name, i + 1, nblock);
    }
  }

  /** A scan that starts at a hole does not end without a change. */
  lemma HoleChanges(fs: Fs, f: File, name: Name, nblock: nat)
    requires At(fs, f) && BlockOf(fs, f, 0) == 0 && f.block != 0 && nblock > 0
    ensures DirScan(fs, f, name, 0, nblock).1.Hit? ==> DirScan(fs, f, name, 0, nblock).0 != fs
  {
    hide *;
    ScanForm(fs, f, name, 0, nblock);
    if DirScan(fs, f, name, 0, nblock).1.Hit? && FileGetBlock(fs, f, 0).1 >= 0 {
      var b := HoleTaken(fs, f);
      AtSame(fs, FileGetBlock(fs, f, 0).0, f);
      ScanTakes(FileGetBlock(fs, f, 0).0, f, name, 1, nblock);
      TakesIs(FileGetBlock(fs, f, 0).0, DirScan(FileGetBlock(fs, f, 0).0, f, name, 1, nblock).0, b);
    }
  }

  lemma TakesIs(fs: Fs, fs': Fs, b: nat)
    requires Takes(fs, fs')
    ensures IsFree(fs', b) ==> IsFree(fs, b)
  {
    hide IsFree;
  }

  lemma UnfitCount(n: Long, m: nat)
    requires n % BLKSIZE == 0 && !Fits(n) && BlockCount(n) <= m < MAXBLOCKS
    ensures BlockCount(n) == 0 < DirBlocks(n % 0x1_0000_0000)
  {
    assert n == n / BLKSIZE * BLKSIZE;
  }

  /** A named entry of d is not found any more if it is cut off, or if d has no whole number of blocks. */
  lemma LookupLost(fs: Fs, o: Owners, d: File, n: Long, fs': Fs, m: nat, j: nat, e: File, name: Name)
    requires Inv(fs, o) && DirsOk(fs, o) && KnownDir(fs, o, d) && SizeCut(fs, o, d, n, fs')
    requires EntryOf(fs, d, m, j, e) && IsElem(name) && NameIs(fs, e, name) && (BlockCount(n) <= m || n % BLKSIZE != 0)
    ensures At(fs', d) && DirLookup(fs', d, name) != Found(fs', 0, e)
  {
    hide *;
    KnownDirIs(fs, o, d);
    CutSound(fs, o, d, n, fs', d);
    SoundIs(fs', d, 0);
    CutKept(fs, o, d, n, fs', d, name);
    FieldIs(fs', d, SIZE);
    SizeOf(fs', d);
    CodesNonzero();
    SameRest(n);
    if n % BLKSIZE != 0 {
      LookupPanics(fs', d, name);
    } else {
      SizeParts(fs', d);
      LookupForm(fs', d, name);
      if Fits(n) {
        CountFits(n);
        CutOffUnseen(fs, o, d, n, fs', m, j, e, name);
      } else {
        EntryInSize(fs, o, d, m, j, e);
        UnfitCount(n, m);
        CutBlock(fs, o, d, n, fs', d, 0);
        HoleChanges(fs', d, name, DirBlocks(Size(fs', d)));
      }
    }
  }

  /** Where the size fits the scan ends before the entry. */
  lemma CutOffUnseen(fs: Fs, o: Owners, d: File, n: Long, fs': Fs, m: nat, j: nat, e: File, name: Name)
    requires Inv(fs, o) && DirsOk(fs, o) && KnownDir(fs, o, d) && SizeCut(fs, o, d, n, fs')
    requires EntryOf(fs, d, m, j, e) && IsElem(name) && NameIs(fs, e, name) && BlockCount(n) <= m
    ensures At(fs', d) && DirScan(fs', d, name, 0, BlockCount(n)).1 != Hit(e)
  {
    hide *;
    var nb := BlockCount(n);
    KnownDirIs(fs, o, d);
    DirOkIs(fs, o, d);
    CutSound(fs, o, d, n, fs', d);
    SoundIs(fs', d, 0);
    PackedAt(fs, d, m, j, e, name);
    DenseIs(fs, d, m, nb);
    CutDense(fs, o, d, n, fs', d, nb);
    ScanWithin(fs', d, name, 0, nb);
    var res := DirScan(fs', d, name, 0, nb).1;
    if res == Hit(e) {
      var k: nat :| k < nb && res.file.block == BlockOf(fs', d, k);
      CutBlock(fs, o, d, n, fs', d, k);
      EntryBlock(fs, d, m, j, e);
      BlocksSame(fs, o, d, m, d, k);
    }
  }

  lemma LookupPanics(fs: Fs, d: File, name: Name)
    requires At(fs, d) && Field(fs, d, SIZE) % BLKSIZE != 0
    ensures DirLookup(fs, d, name).rc == PANIC
  {
  }

  /** A path that is lost, for every name that is. */
  lemma NameLost(fs: Fs, o: Owners, d: File, n: Long, fs': Fs, q: Name, m: nat, j: nat, e: File, name: Name)
    requires Inv(fs, o) && DirsOk(fs, o) && KnownDir(fs, o, d) && SizeCut(fs, o, d, n, fs') && Shape(fs) && Shape(fs')
    requires IsString(q) && FileOpen(fs, q) == Found(fs, 0, d)
    requires EntryOf(fs, d, m, j, e) && IsElem(name) && NameIs(fs, e, name) && (BlockCount(n) <= m || n % BLKSIZE != 0)
    ensures FileOpen(fs, Below(q, name)) == Found(fs, 0, e)
    ensures FileOpen(fs', q) == Found(fs', 0, d) ==> FileOpen(fs', Below(q, name)) != Found(fs', 0, e)
    ensures !PathsKept(fs, fs')
  {
    hide *;
    KnownDirIs(fs, o, d);
    SizeIs(fs, o, d);
    TypeOf(fs, d);
    NamedIs(fs, d, name, m, j, e);
    NamedShort(fs, d, name, e);
    LookupExact(fs, o, d, name, e);
    var m', j' := LookupFirst(fs, o, d, name);
    EntryKnown(fs, o, d, m, j, e);
    OpenBelow(fs, q, d, name);
    BelowIs(q, name);
    LookupLost(fs, o, d, n, fs', m, j, e, name);
    if FileOpen(fs', q) == Found(fs', 0, d) { OpenBelow(fs', q, d, name); }
    if PathsKept(fs, fs') {
      PathsKeptAt(fs, fs', q, d);
      PathsKeptAt(fs, fs', Below(q, name), e);
    }
  }

  lemma PathsKeptAt(fs: Fs, fs': Fs, q: Name, g: File)
    requires Shape(fs) && Shape(fs') && PathsKept(fs, fs') && IsString(q) && FileOpen(fs, q) == Found(fs, 0, g)
    ensures FileOpen(fs', q) == Found(fs', 0, g)
  {
    hide FileOpen, IsString;
  }

  lemma PathsKeptJoin(fs: Fs, fs': Fs)
    requires Shape(fs) && Shape(fs')
    requires forall q, g :: IsString(q) && FileOpen(fs, q) == Found(fs, 0, g) ==> FileOpen(fs', q) == Found(fs', 0, g)
    ensures PathsKept(fs, fs')
  {
    hide FileOpen, IsString;
  }

  /** file_set_size on a file that some path leads to loses no path exactly when the file is no directory,
      or no name is cut off and, unless the directory has no name at all, its size is a whole number of
      blocks. */
  lemma SetSizePathsExact(fs: Fs, o: Owners, d: File, n: Long, q: Name)
    requires Inv(fs, o) && DirsOk(fs, o) && Known(fs, o, d)
    requires Shape(fs) && IsString(q) && FileOpen(fs, q) == Found(fs, 0, d)
    ensures At(fs, d) && (PathsKept(fs, FileSetSize(fs, d, n)) <==> Sparing(fs, d, n))
  {
    hide *;
    KnownDirIs(fs, o, d);
    SetSizeCuts(fs, o, d, n);
    var fs' := FileSetSize(fs, d, n);
    if Sparing(fs, d, n) {
      forall p, g | IsString(p) && FileOpen(fs, p) == Found(fs, 0, g) ensures FileOpen(fs', p) == Found(fs', 0, g) {
        OpenKept(fs, o, d, n, fs', p, g);
      }
      PathsKeptJoin(fs, fs');
    }
    SparingIs(fs, d, n);
    if PathsKept(fs, fs') && IsDir(fs, d) {
      forall m: nat, j: nat, e, name | BlockCount(n) <= m && EntryOf(fs, d, m, j, e) && IsElem(name) ensures !NameIs(fs, e, name) {
        if NameIs(fs, e, name) { NameLost(fs, o, d, n, fs', q, m, j, e, name); }
      }
      NamelessJoin(fs, d, BlockCount(n));
      if n % BLKSIZE != 0 {
        forall m: nat, j: nat, e, name | 0 <= m && EntryOf(fs, d, m, j, e) && IsElem(name) ensures !NameIs(fs, e, name) {
          if NameIs(fs, e, name) { NameLost(fs, o, d, n, fs', q, m, j, e, name); }
        }
        NamelessJoin(fs, d, 0);
      }
    }
  }

  lemma SparingIs(fs: Fs, d: File, n: Long)
    ensures Sparing(fs, d, n) <==> !IsDir(fs, d) || (NamelessPast(fs, d, BlockCount(n)) && (n % BLKSIZE == 0 || NamelessPast(fs, d, 0)))
  {
    hide NamelessPast, BlockCount, IsDir;
  }
}
