/** The entries of a directory, and the scans of dir_lookup and dir_alloc_file. */
module Directories {
  import opened Disk
  import opened FileSystem
  import opened FileOwnership
  import opened FreeSpace
  import opened FileRelease
  import opened FileContents
  import opened FileTruncation
  import opened Paths

  /** e is entry j of block n of directory d. */
  ghost predicate EntryOf(fs: Fs, d: File, n: nat, j: nat, e: File) {
    BlockOf(fs, d, n) != 0 && j < BLKFILES && e == DirEntry(BlockOf(fs, d, n), j)
  }

  /** A name that can stand in a path. */
  predicate IsElem(name: Name) { name != [] && IsString(name) && SLASH !in name }

  /** Blocks 0 to i - 1 are there. */
  ghost predicate Dense(fs: Fs, d: File, i: nat) { forall k: nat :: k < i ==> BlockOf(fs, d, k) != 0 }

  /** No hole comes before a named entry. */
  ghost predicate Packed(fs: Fs, d: File) {
    forall n, j, e, name :: EntryOf(fs, d, n, j, e) && IsElem(name) && NameIs(fs, e, name) ==> Dense(fs, d, n)
  }

  ghost predicate KnownDir(fs: Fs, o: Owners, d: File) { Known(fs, o, d) && IsDir(fs, d) }

  /** What the code expects of a directory's size. */
  predicate DirSize(fs: Fs, d: File) { Size(fs, d) % BLKSIZE == 0 }

  /** Entries of known directories are known files. */
  lemma EntryKnown(fs: Fs, o: Owners, d: File, n: nat, j: nat, e: File)
    requires Inv(fs, o) && KnownDir(fs, o, d) && EntryOf(fs, d, n, j, e)
    ensures Known(fs, o, e) && e.block != 0 && e.block == BlockOf(fs, d, n) && At(fs, e)
  {
    hide *;
    KnownDirIs(fs, o, d);
    EntryBlock(fs, d, n, j, e);
    BlockOfIs(fs, o, d, n);
    DataCells(d, n);
    EntryBase(BlockOf(fs, d, n), j);
    KnownJoin(fs, o, e);
    InvParts(fs, o);
    KnownAt(fs, o, e);
  }

  lemma EntryBase(b: nat, j: nat)
    requires j < BLKFILES
    ensures DirEntry(b, j).block == b && DirEntry(b, j).base < BLKWORDS && DirEntry(b, j).base % FILEWORDS == 0
  {
  }

  /** Entries keep their place. */
  lemma EntryUnique(fs: Fs, o: Owners, d: File, n: nat, j: nat, d': File, n': nat, j': nat, e: File)
    requires Inv(fs, o) && KnownDir(fs, o, d) && KnownDir(fs, o, d') && EntryOf(fs, d, n, j, e) && EntryOf(fs, d', n', j', e)
    ensures d == d' && n == n' && j == j'
  {
    BlocksSame(fs, o, d, n, d', n');
    hide Inv, Known, IsDir, BlockOf;
  }

  lemma BlocksSame(fs: Fs, o: Owners, f: File, n: nat, g: File, m: nat)
    requires Inv(fs, o) && Known(fs, o, f) && Known(fs, o, g) && BlockOf(fs, f, n) == BlockOf(fs, g, m) != 0
    ensures f == g && n == m
  {
    BlockOfIs(fs, o, f, n);
    BlockOfIs(fs, o, g, m);
    hide Inv, Known, BlockOf, Value;
  }

  /* ---- names ---- */

  ghost predicate SameName(fs: Fs, fs': Fs, e: File) { forall k :: 0 <= k < SIZE ==> Value(fs', Part(e, k)) == Value(fs, Part(e, k)) }

  lemma NameCell(fs: Fs, e: File, i: nat)
    requires e.block != 0
    ensures NameByte(fs, e, i) == ByteOf(Value(fs, Part(e, i / 4)), i % 4)
  {
  }

  lemma NameSame(fs: Fs, fs': Fs, e: File, name: Name)
    requires e.block != 0 && SameName(fs, fs', e)
    ensures NameIs(fs', e, name) == NameIs(fs, e, name)
  {
    forall i: nat | i < MAXNAMELEN ensures NameByte(fs', e, i) == NameByte(fs, e, i) {
      NameCell(fs, e, i);
      NameCell(fs', e, i);
    }
    hide NameByte, SameName;
  }

  lemma GrowsName(fs: Fs, o: Owners, d: File, fs': Fs, o': Owners, e: File, name: Name)
    requires Grows(fs, o, d, fs', o') && Known(fs, o, e) && e.block != 0
    ensures NameIs(fs', e, name) == NameIs(fs, e, name)
  {
    forall k | 0 <= k < SIZE ensures Value(fs', Part(e, k)) == Value(fs, Part(e, k)) { GrowsValue(fs, o, d, fs', o', Part(e, k)); }
    hide Grows, Value, Known, NameIs;
    NameSame(fs, fs', e, name);
  }

  /** Entries of new directory blocks have empty names. */
  lemma FreshName(fs: Fs, o: Owners, d: File, fs': Fs, o': Owners, e: File, name: Name)
    requires Grows(fs, o, d, fs', o') && Known(fs', o', e) && !Known(fs, o, e) && e.block != 0
    ensures IsString(name) ==> (NameIs(fs', e, name) <==> name == [])
  {
    hide *;
    forall k: nat | k < SIZE ensures Value(fs', Part(e, k)) == 0 {
      NameWord(e, k);
      GrowsValue(fs, o, d, fs', o', Part(e, k));
    }
    forall i: nat | i < MAXNAMELEN ensures NameByte(fs', e, i) == 0 {
      NameCell(fs', e, i);
      ZeroByte(i);
    }
    EmptyName(fs', e, name);
  }

  lemma NameWord(e: File, k: nat)
    ensures k < SIZE ==> IsCell(Part(e, k)) && !IsSlot(Part(e, k)) && Part(e, k) != Part(e, SIZE) && Part(e, k) != Part(e, TYPE)
  {
  }

  lemma ZeroByte(i: nat)
    ensures ByteOf(0, i % 4) == 0
    ensures i < MAXNAMELEN ==> i / 4 < SIZE
  {
  }

  lemma EmptyName(fs: Fs, e: File, name: Name)
    requires forall i: nat :: i < MAXNAMELEN ==> NameByte(fs, e, i) == 0
    ensures IsString(name) ==> (NameIs(fs, e, name) <==> name == [])
  {
    hide NameByte;
    if name != [] { assert NameIs(fs, e, name) ==> NameByte(fs, e, 0) == name[0]; }
  }

  /* ---- one block of a scan ---- */

  lemma DenseIs(fs: Fs, d: File, i: nat, k: nat)
    ensures Dense(fs, d, i) && k < i ==> BlockOf(fs, d, k) != 0
    ensures Dense(fs, d, i) && k <= i ==> Dense(fs, d, k)
    ensures Dense(fs, d, 0)
    ensures Dense(fs, d, i) && BlockOf(fs, d, i) != 0 ==> Dense(fs, d, i + 1)
  {
    hide BlockOf;
  }

  lemma DenseJoin(fs: Fs, d: File, i: nat)
    requires forall k: nat :: k < i ==> BlockOf(fs, d, k) != 0
    ensures Dense(fs, d, i)
  {
    hide BlockOf;
  }

  lemma PackedAt(fs: Fs, d: File, n: nat, j: nat, e: File, name: Name)
    requires Packed(fs, d) && EntryOf(fs, d, n, j, e) && IsElem(name) && NameIs(fs, e, name)
    ensures Dense(fs, d, n)
  {
    hide EntryOf, IsElem, NameIs, Dense;
  }

  lemma PackedJoin(fs: Fs, d: File)
    requires forall n, j, e, name :: EntryOf(fs, d, n, j, e) && IsElem(name) && NameIs(fs, e, name) ==> Dense(fs, d, n)
    ensures Packed(fs, d)
  {
    hide EntryOf, IsElem, NameIs, Dense;
  }

  lemma ElemIs(name: Name)
    ensures IsElem(name) <==> name != [] && IsString(name) && SLASH !in name
  {
  }

  /** file_get_block(d, i) in the middle of a scan. */
  ghost predicate DirGot(fs: Fs, o: Owners, d: File, i: nat, fs1: Fs, o1: Owners, b: int) {
    && Fills(fs, o, d, fs1, o1) && Inv(fs1, o1) && KnownDir(fs1, o1, d) && Size(fs1, d) == Size(fs, d)
    && (forall n: nat :: n != i ==> BlockOf(fs1, d, n) == BlockOf(fs, d, n))
    && (if b >= 0 then b == BlockOf(fs1, d, i) != 0
        else (b == E_NO_DISK || b == E_INVAL) && BlockOf(fs1, d, i) == 0 == BlockOf(fs, d, i))
    && (BlockOf(fs, d, i) != 0 ==> fs1 == fs)
    && Afforded(fs, d, i, fs1, b) && (b >= 0 ==> i < MAXBLOCKS) && (b == E_NO_DISK ==> Room(fs1) == 0)
  }

  lemma GotRest(fs: Fs, o: Owners, f: File, i: nat, fs1: Fs, o1: Owners, r: int)
    requires Got(fs, o, f, i, fs1, o1, r)
    ensures Fills(fs, o, f, fs1, o1)
    ensures if r >= 0 then r == BlockOf(fs1, f, i) != 0
            else (r == E_NO_DISK || r == E_INVAL) && BlockOf(fs1, f, i) == 0 == BlockOf(fs, f, i)
    ensures BlockOf(fs, f, i) != 0 ==> fs1 == fs
    ensures Afforded(fs, f, i, fs1, r) && (r >= 0 ==> i < MAXBLOCKS) && (r == E_NO_DISK ==> Room(fs1) == 0)
  {
    hide Fills, Cost, Room, Value, InUse;
  }

  lemma DirBlock(fs: Fs, o: Owners, d: File, i: nat)
    requires Inv(fs, o) && KnownDir(fs, o, d) && i < NBlocks(Size(fs, d))
    ensures Shape(fs) && At(fs, d)
    ensures var (fs1, b) := FileGetBlock(fs, d, i); DirGot(fs, o, d, i, fs1, GetBlockOwners(fs, o, d, i), b)
  {
    hide *;
    KnownDirIs(fs, o, d);
    GetBlockKeeps(fs, o, d, i);
    var ((fs1, b), o1) := (FileGetBlock(fs, d, i), GetBlockOwners(fs, o, d, i));
    GotRest(fs, o, d, i, fs1, o1, b);
    FillsGrows(fs, o, d, fs1, o1);
    GrowsDir(fs, o, d, fs1, o1, d);
    KnownDirIs(fs1, o1, d);
    forall n: nat | n != i ensures BlockOf(fs1, d, n) == BlockOf(fs, d, n) { GotBlock(fs, o, d, i, fs1, o1, b, n); }
    DirGotJoin(fs, o, d, i, fs1, o1, b);
  }

  lemma KnownDirIs(fs: Fs, o: Owners, d: File)
    ensures KnownDir(fs, o, d) <==> Known(fs, o, d) && IsDir(fs, d)
  {
  }

  lemma DirGotJoin(fs: Fs, o: Owners, d: File, i: nat, fs1: Fs, o1: Owners, b: int)
    requires Fills(fs, o, d, fs1, o1) && Inv(fs1, o1) && KnownDir(fs1, o1, d) && Size(fs1, d) == Size(fs, d)
    requires forall n: nat :: n != i ==> BlockOf(fs1, d, n) == BlockOf(fs, d, n)
    requires if b >= 0 then b == BlockOf(fs1, d, i) != 0
             else (b == E_NO_DISK || b == E_INVAL) && BlockOf(fs1, d, i) == 0 == BlockOf(fs, d, i)
    requires BlockOf(fs, d, i) != 0 ==> fs1 == fs
    requires Afforded(fs, d, i, fs1, b) && (b >= 0 ==> i < MAXBLOCKS) && (b == E_NO_DISK ==> Room(fs1) == 0)
    ensures DirGot(fs, o, d, i, fs1, o1, b)
  {
    hide Fills, Inv, KnownDir, BlockOf, Size, Afforded, Room;
  }

  lemma DirGotParts(fs: Fs, o: Owners, d: File, i: nat, fs1: Fs, o1: Owners, b: int)
    requires DirGot(fs, o, d, i, fs1, o1, b)
    ensures Fills(fs, o, d, fs1, o1) && Grows(fs, o, d, fs1, o1) && Shape(fs1) && Inv(fs1, o1)
    ensures KnownDir(fs1, o1, d) && Size(fs1, d) == Size(fs, d)
    ensures if b >= 0 then b == BlockOf(fs1, d, i) != 0
            else (b == E_NO_DISK || b == E_INVAL) && BlockOf(fs1, d, i) == 0 == BlockOf(fs, d, i)
    ensures BlockOf(fs, d, i) != 0 ==> fs1 == fs
    ensures Afforded(fs, d, i, fs1, b) && (b >= 0 ==> i < MAXBLOCKS) && (b == E_NO_DISK ==> Room(fs1) == 0)
    ensures forall n: nat :: n != i ==> BlockOf(fs1, d, n) == BlockOf(fs, d, n)
  {
    FillsGrows(fs, o, d, fs1, o1);
    hide Fills, Grows, KnownDir, BlockOf, Size, Afforded, Room;
  }

  lemma DirGotDense(fs: Fs, o: Owners, d: File, i: nat, fs1: Fs, o1: Owners, b: int)
    requires DirGot(fs, o, d, i, fs1, o1, b) && Dense(fs, d, i)
    ensures Dense(fs1, d, i) && (b >= 0 ==> Dense(fs1, d, i + 1))
  {
    hide Fills, Inv, KnownDir, BlockOf, Size, Afforded, Room;
  }

  /** Behind a hole nothing is named. */
  lemma HoleNone(fs: Fs, d: File, i: nat, n: nat, j: nat, e: File, name: Name)
    requires Packed(fs, d) && BlockOf(fs, d, i) == 0 && i <= n && EntryOf(fs, d, n, j, e) && IsElem(name)
    ensures !NameIs(fs, e, name)
  {
    hide *;
    EntryBlock(fs, d, n, j, e);
    if NameIs(fs, e, name) {
      PackedAt(fs, d, n, j, e, name);
      DenseIs(fs, d, n, i);
    }
  }

  lemma EntryBlock(fs: Fs, d: File, n: nat, j: nat, e: File)
    ensures EntryOf(fs, d, n, j, e) <==> BlockOf(fs, d, n) != 0 && j < BLKFILES && e == DirEntry(BlockOf(fs, d, n), j)
    ensures e == DirEntry(BlockOf(fs, d, n), j) ==> e.block == BlockOf(fs, d, n)
  {
  }

  /** The entries of a block that was a hole are new, so their names are empty. */
  lemma HoleNames(fs: Fs, o: Owners, d: File, i: nat, fs1: Fs, o1: Owners, b: nat, j: nat, name: Name)
    requires Inv(fs, o) && KnownDir(fs, o, d) && DirGot(fs, o, d, i, fs1, o1, b) && BlockOf(fs, d, i) == 0
    requires j < BLKFILES && IsString(name)
    ensures NameIs(fs1, DirEntry(b, j), name) <==> name == []
  {
    hide *;
    var e := DirEntry(b, j);
    DirGotParts(fs, o, d, i, fs1, o1, b);
    EntryIs(fs1, d, i, j, b);
    EntryKnown(fs1, o1, d, i, j, e);
    KnownDirIs(fs, o, d);
    HoleNew(fs, o, d, d, i, fs1, o1, e);
    FreshName(fs, o, d, fs1, o1, e, name);
  }

  lemma EntryIs(fs: Fs, d: File, n: nat, j: nat, b: nat)
    ensures b == BlockOf(fs, d, n) != 0 && j < BLKFILES ==> EntryOf(fs, d, n, j, DirEntry(b, j))
    ensures DirEntry(b, j).block == b
  {
  }

  /** A block that fills a hole was not known before. */
  lemma HoleNew(fs: Fs, o: Owners, d: File, g: File, i: nat, fs1: Fs, o1: Owners, e: File)
    requires Inv(fs, o) && Grows(fs, o, d, fs1, o1) && Known(fs, o, g) && BlockOf(fs, g, i) == 0
    requires BlockOf(fs1, g, i) == e.block != 0
    ensures !Known(fs, o, e)
  {
    hide *;
    var b := e.block;
    GrowsInv(fs, o, d, fs1, o1);
    GrowsDir(fs, o, d, fs1, o1, g);
    BlockOfIs(fs1, o1, g, i);
    if Known(fs, o, e) {
      InvParts(fs, o);
      KnownAt(fs, o, e);
      InUseNotRoot(fs1, b);
      if e != ROOT {
        var c := o[b];
        OwnerNonzero(fs, o, b);
        GrowsValue(fs, o, d, fs1, o1, c);
        SlotOf(fs1, o1, c);
        SlotOwned(fs1, o1, c);
        BlockIs(fs, g, i);
        assert false;
      }
    }
  }

  /** What growing a file makes of the entries of a directory: an entry is either an old one, or new,
      without a name and no directory. */
  lemma GrowsEntry(fs: Fs, o: Owners, f: File, fs': Fs, o': Owners, d: File, n: nat, j: nat, e: File, name: Name)
    requires Inv(fs, o) && Grows(fs, o, f, fs', o') && KnownDir(fs, o, d) && EntryOf(fs', d, n, j, e) && IsString(name)
    ensures BlockOf(fs, d, n) != 0 ==> EntryOf(fs, d, n, j, e) && NameIs(fs', e, name) == NameIs(fs, e, name) && IsDir(fs', e) == IsDir(fs, e)
    ensures BlockOf(fs, d, n) == 0 ==> (NameIs(fs', e, name) <==> name == []) && !IsDir(fs', e)
  {
    hide *;
    KnownDirIs(fs, o, d);
    GrowsInv(fs, o, f, fs', o');
    GrowsDir(fs, o, f, fs', o', d);
    KnownDirIs(fs', o', d);
    EntryKnown(fs', o', d, n, j, e);
    EntryBlock(fs', d, n, j, e);
    GrowsDir(fs, o, f, fs', o', e);
    if BlockOf(fs, d, n) == 0 {
      HoleNew(fs, o, f, d, n, fs', o', e);
      FreshName(fs, o, f, fs', o', e, name);
    } else {
      GrowsBlock(fs, o, f, fs', o', d, n);
      EntryBlock(fs, d, n, j, e);
      EntryKnown(fs, o, d, n, j, e);
      GrowsName(fs, o, f, fs', o', e, name);
    }
  }

  /* ---- the scan ---- */

  /** Entry j of block n is the first from block i on with this name, and no hole comes before it. */
  ghost predicate First(fs: Fs, d: File, name: Name, i: nat, nblock: nat, n: nat, j: nat, e: File) {
    && i <= n < nblock && EntryOf(fs, d, n, j, e) && NameIs(fs, e, name) && Dense(fs, d, n)
    && forall m: nat, k: nat, x :: i <= m && EntryOf(fs, d, m, k, x) && (m < n || (m == n && k < j)) ==> !NameIs(fs, x, name)
  }

  /** What a scan from block i on costs: it passes all blocks or fails exactly if there is enough room. */
  ghost predicate ScanRoom(fs: Fs, d: File, i: nat, nblock: nat, fs': Fs, res: Scan) {
    match res
    case Hit(_) => true
    case Miss =>
      && Enough(fs, d, i, nblock) && Room(fs') + Need(fs, d, i, nblock) == Room(fs)
      && (Value(fs', Part(d, INDIRECT)) != 0 <==> Value(fs, Part(d, INDIRECT)) != 0 || (i < nblock && nblock > NDIRECT))
    case Failed(rc) => !Enough(fs, d, i, nblock) && (rc == E_NO_DISK ==> Room(fs') == 0)
  }

  /** What a scan from block i on leaves and finds. */
  ghost predicate Scanned(fs: Fs, o: Owners, d: File, name: Name, i: nat, nblock: nat, fs': Fs, o': Owners, res: Scan) {
    && Fills(fs, o, d, fs', o') && ScanRoom(fs, d, i, nblock, fs', res)
    && match res
       case Hit(e) => (name != [] ==> fs' == fs) && exists n, j :: First(fs', d, name, i, nblock, n, j, e)
       case Miss =>
         && Dense(fs', d, nblock)
         && (forall n, j, e :: i <= n < nblock && EntryOf(fs', d, n, j, e) ==> !NameIs(fs', e, name))
       case Failed(rc) =>
         && (rc == E_NO_DISK || rc == E_INVAL)
         && (name != [] ==> forall n, j, e :: i <= n && EntryOf(fs, d, n, j, e) ==> !NameIs(fs, e, name))
  }

  lemma ScanForm(fs: Fs, d: File, name: Name, i: nat, nblock: nat)
    requires At(fs, d)
    ensures i >= nblock ==> DirScan(fs, d, name, i, nblock) == (fs, Miss)
    ensures i < nblock ==>
      var (fs1, b) := FileGetBlock(fs, d, i);
      if b < 0 then DirScan(fs, d, name, i, nblock) == (fs1, Failed(b))
      else
        var j := EntryScan(fs1, b, name, 0);
        && j <= BLKFILES
        && (j < BLKFILES ==> NameIs(fs1, DirEntry(b, j), name))
        && (forall k :: 0 <= k < j ==> !NameIs(fs1, DirEntry(b, k), name))
        && DirScan(fs, d, name, i, nblock) == if j < BLKFILES then (fs1, Hit(DirEntry(b, j))) else DirScan(fs1, d, name, i + 1, nblock)
  {
    hide FileGetBlock, NameIs, EntryScan;
  }

  lemma ScannedHit(fs: Fs, o: Owners, d: File, name: Name, i: nat, nblock: nat, fs': Fs, o': Owners, n: nat, j: nat, e: File)
    requires Fills(fs, o, d, fs', o') && (name != [] ==> fs' == fs) && First(fs', d, name, i, nblock, n, j, e)
    ensures Scanned(fs, o, d, name, i, nblock, fs', o', Hit(e))
  {
    hide Fills, First;
  }

  lemma ScannedMiss(fs: Fs, o: Owners, d: File, name: Name, i: nat, nblock: nat, fs': Fs, o': Owners)
    requires Fills(fs, o, d, fs', o') && Dense(fs', d, nblock) && ScanRoom(fs, d, i, nblock, fs', Miss)
    requires forall n, j, e :: i <= n < nblock && EntryOf(fs', d, n, j, e) ==> !NameIs(fs', e, name)
    ensures Scanned(fs, o, d, name, i, nblock, fs', o', Miss)
  {
    hide Fills, NameIs, EntryOf, Dense, ScanRoom;
  }

  lemma ScannedFailed(fs: Fs, o: Owners, d: File, name: Name, i: nat, nblock: nat, fs': Fs, o': Owners, rc: int)
    requires Fills(fs, o, d, fs', o') && (rc == E_NO_DISK || rc == E_INVAL) && ScanRoom(fs, d, i, nblock, fs', Failed(rc))
    requires name != [] ==> forall n, j, e :: i <= n && EntryOf(fs, d, n, j, e) ==> !NameIs(fs, e, name)
    ensures Scanned(fs, o, d, name, i, nblock, fs', o', Failed(rc))
  {
    hide Fills, NameIs, EntryOf, ScanRoom;
  }

  lemma ScannedIs(fs: Fs, o: Owners, d: File, name: Name, i: nat, nblock: nat, fs': Fs, o': Owners, res: Scan)
    requires Scanned(fs, o, d, name, i, nblock, fs', o', res)
    ensures Fills(fs, o, d, fs', o') && Grows(fs, o, d, fs', o') && Shape(fs') && Inv(fs', o') && ScanRoom(fs, d, i, nblock, fs', res)
    ensures res.Hit? ==> (name != [] ==> fs' == fs) && exists n, j :: First(fs', d, name, i, nblock, n, j, res.file)
    ensures res.Miss? ==> Dense(fs', d, nblock) && forall n, j, e :: i <= n < nblock && EntryOf(fs', d, n, j, e) ==> !NameIs(fs', e, name)
    ensures res.Failed? ==> res.rc == E_NO_DISK || res.rc == E_INVAL
    ensures res.Failed? && name != [] ==> forall n, j, e :: i <= n && EntryOf(fs, d, n, j, e) ==> !NameIs(fs, e, name)
  {
    FillsGrows(fs, o, d, fs', o');
    hide Fills, First, NameIs, EntryOf, Dense, Grows, Inv, ScanRoom;
  }

  lemma ScanRoomIs(fs: Fs, d: File, i: nat, nblock: nat, fs': Fs, res: Scan)
    ensures ScanRoom(fs, d, i, nblock, fs', res) <==>
            match res
            case Hit(_) => true
            case Miss =>
              && Enough(fs, d, i, nblock) && Room(fs') + Need(fs, d, i, nblock) == Room(fs)
              && (Value(fs', Part(d, INDIRECT)) != 0 <==> Value(fs, Part(d, INDIRECT)) != 0 || (i < nblock && nblock > NDIRECT))
            case Failed(rc) => !Enough(fs, d, i, nblock) && (rc == E_NO_DISK ==> Room(fs') == 0)
  {
    hide Enough, Room, Need, Value;
  }

  lemma FirstIs(fs: Fs, d: File, name: Name, i: nat, nblock: nat, n: nat, j: nat, e: File)
    requires First(fs, d, name, i, nblock, n, j, e)
    ensures i <= n < nblock && EntryOf(fs, d, n, j, e) && NameIs(fs, e, name) && Dense(fs, d, n)
    ensures forall m: nat, k: nat, x :: i <= m && EntryOf(fs, d, m, k, x) && (m < n || (m == n && k < j)) ==> !NameIs(fs, x, name)
  {
    hide EntryOf, NameIs, Dense;
  }

  lemma FirstJoin(fs: Fs, d: File, name: Name, i: nat, nblock: nat, n: nat, j: nat, e: File)
    requires i <= n < nblock && EntryOf(fs, d, n, j, e) && NameIs(fs, e, name) && Dense(fs, d, n)
    requires forall m: nat, k: nat, x :: i <= m && EntryOf(fs, d, m, k, x) && (m < n || (m == n && k < j)) ==> !NameIs(fs, x, name)
    ensures First(fs, d, name, i, nblock, n, j, e)
  {
    hide EntryOf, NameIs, Dense;
  }

  /** An entry found in block i itself. */
  lemma ScanHit(fs: Fs, o: Owners, d: File, name: Name, i: nat, nblock: nat, fs1: Fs, o1: Owners, b: nat, j: nat)
    requires Inv(fs, o) && KnownDir(fs, o, d) && IsString(name) && i < nblock && Dense(fs, d, i)
    requires DirGot(fs, o, d, i, fs1, o1, b) && j < BLKFILES && NameIs(fs1, DirEntry(b, j), name)
    requires forall k :: 0 <= k < j ==> !NameIs(fs1, DirEntry(b, k), name)
    ensures Scanned(fs, o, d, name, i, nblock, fs1, o1, Hit(DirEntry(b, j)))
  {
    hide *;
    DirGotParts(fs, o, d, i, fs1, o1, b);
    DirGotDense(fs, o, d, i, fs1, o1, b);
    if BlockOf(fs, d, i) == 0 { HoleNames(fs, o, d, i, fs1, o1, b, j, name); }
    EntryIs(fs1, d, i, j, b);
    forall m: nat, k: nat, x | i <= m && EntryOf(fs1, d, m, k, x) && (m < i || (m == i && k < j)) ensures !NameIs(fs1, x, name) {
      EntryBlock(fs1, d, m, k, x);
    }
    FirstJoin(fs1, d, name, i, nblock, i, j, DirEntry(b, j));
    ScannedHit(fs, o, d, name, i, nblock, fs1, o1, i, j, DirEntry(b, j));
  }

  /** No entry of block i has the name; the scan goes on from i + 1. */
  ghost predicate Passed(fs: Fs, o: Owners, d: File, name: Name, i: nat, fs1: Fs, o1: Owners, b: nat) {
    && Inv(fs, o) && KnownDir(fs, o, d) && DirGot(fs, o, d, i, fs1, o1, b) && Packed(fs, d) && Dense(fs, d, i)
    && (name == [] || IsElem(name)) && forall k :: 0 <= k < BLKFILES ==> !NameIs(fs1, DirEntry(b, k), name)
  }

  lemma PassedParts(fs: Fs, o: Owners, d: File, name: Name, i: nat, fs1: Fs, o1: Owners, b: nat)
    requires Passed(fs, o, d, name, i, fs1, o1, b)
    ensures Inv(fs, o) && KnownDir(fs, o, d) && DirGot(fs, o, d, i, fs1, o1, b) && Packed(fs, d) && (name == [] || IsElem(name))
    ensures Dense(fs1, d, i) && Dense(fs1, d, i + 1)
  {
    DirGotDense(fs, o, d, i, fs1, o1, b);
    hide Inv, KnownDir, DirGot, Packed, Dense, NameIs, IsElem;
  }

  lemma PassedName(fs: Fs, o: Owners, d: File, name: Name, i: nat, fs1: Fs, o1: Owners, b: nat, k: nat)
    requires Passed(fs, o, d, name, i, fs1, o1, b) && k < BLKFILES
    ensures !NameIs(fs1, DirEntry(b, k), name)
  {
    hide Inv, KnownDir, DirGot, Packed, Dense, NameIs, IsElem;
  }

  /** The entries of block i after the rest of the scan. */
  lemma PassedEntry(fs: Fs, o: Owners, d: File, name: Name, i: nat, fs1: Fs, o1: Owners, b: nat, fs2: Fs, o2: Owners, j: nat, e: File)
    requires Passed(fs, o, d, name, i, fs1, o1, b) && Fills(fs1, o1, d, fs2, o2) && EntryOf(fs2, d, i, j, e)
    ensures !NameIs(fs2, e, name)
  {
    hide *;
    PassedParts(fs, o, d, name, i, fs1, o1, b);
    DirGotParts(fs, o, d, i, fs1, o1, b);
    KnownDirIs(fs1, o1, d);
    FillsGrows(fs1, o1, d, fs2, o2);
    GrowsBlock(fs1, o1, d, fs2, o2, d, i);
    EntryBlock(fs2, d, i, j, e);
    EntryIs(fs1, d, i, j, b);
    EntryKnown(fs1, o1, d, i, j, e);
    PassedName(fs, o, d, name, i, fs1, o1, b, j);
    GrowsName(fs1, o1, d, fs2, o2, e, name);
  }

  /** A scan that finds a name has filled no hole. */
  lemma PassedSame(fs: Fs, o: Owners, d: File, name: Name, i: nat, fs1: Fs, o1: Owners, b: nat, n: nat, j: nat, e: File)
    requires Passed(fs, o, d, name, i, fs1, o1, b) && i < n && EntryOf(fs1, d, n, j, e) && NameIs(fs1, e, name) && name != []
    ensures fs1 == fs
  {
    hide *;
    PassedParts(fs, o, d, name, i, fs1, o1, b);
    DirGotParts(fs, o, d, i, fs1, o1, b);
    ElemIs(name);
    EntryBlock(fs1, d, n, j, e);
    GrowsEntry(fs, o, d, fs1, o1, d, n, j, e, name);
    PackedAt(fs, d, n, j, e, name);
    DenseIs(fs, d, n, i);
  }

  lemma PassedHit(fs: Fs, o: Owners, d: File, name: Name, i: nat, nblock: nat, fs1: Fs, o1: Owners, b: nat, fs2: Fs, o2: Owners, e: File)
    requires Passed(fs, o, d, name, i, fs1, o1, b) && Scanned(fs1, o1, d, name, i + 1, nblock, fs2, o2, Hit(e))
    ensures Scanned(fs, o, d, name, i, nblock, fs2, o2, Hit(e))
  {
    hide *;
    PassedParts(fs, o, d, name, i, fs1, o1, b);
    DirGotParts(fs, o, d, i, fs1, o1, b);
    ScannedIs(fs1, o1, d, name, i + 1, nblock, fs2, o2, Hit(e));
    FillsThen(fs, o, d, fs1, o1, fs2, o2);
    var n, j :| First(fs2, d, name, i + 1, nblock, n, j, e);
    FirstIs(fs2, d, name, i + 1, nblock, n, j, e);
    if name != [] { PassedSame(fs, o, d, name, i, fs1, o1, b, n, j, e); }
    forall m: nat, k: nat, x | i <= m && EntryOf(fs2, d, m, k, x) && (m < n || (m == n && k < j)) ensures !NameIs(fs2, x, name) {
      if m == i { PassedEntry(fs, o, d, name, i, fs1, o1, b, fs2, o2, k, x); }
    }
    FirstJoin(fs2, d, name, i, nblock, n, j, e);
    ScannedHit(fs, o, d, name, i, nblock, fs2, o2, n, j, e);
  }

  lemma PassedRoom(fs: Fs, o: Owners, d: File, i: nat, nblock: nat, fs1: Fs, o1: Owners, b: nat, fs2: Fs, res: Scan)
    requires DirGot(fs, o, d, i, fs1, o1, b) && i < nblock && ScanRoom(fs1, d, i + 1, nblock, fs2, res)
    ensures ScanRoom(fs, d, i, nblock, fs2, res)
  {
    hide *;
    DirGotParts(fs, o, d, i, fs1, o1, b);
    NeedNext(fs, d, i, nblock, fs1, b);
    EnoughNext(fs, d, i, nblock, fs1, b);
    AffordedIs(fs, d, i, fs1, b);
    ScanRoomIs(fs1, d, i + 1, nblock, fs2, res);
    ScanRoomIs(fs, d, i, nblock, fs2, res);
  }

  lemma AffordedIs(fs: Fs, f: File, n: nat, fs': Fs, r: int)
    requires Afforded(fs, f, n, fs', r)
    ensures n < MAXBLOCKS ==> (r >= 0 <==> Cost(fs, f, n) <= Room(fs))
    ensures r >= 0 ==> (Value(fs', Part(f, INDIRECT)) != 0 <==> n >= NDIRECT || Value(fs, Part(f, INDIRECT)) != 0)
  {
    hide Cost, Room, InUse, Value;
  }

  lemma PassedMiss(fs: Fs, o: Owners, d: File, name: Name, i: nat, nblock: nat, fs1: Fs, o1: Owners, b: nat, fs2: Fs, o2: Owners)
    requires i < nblock && Passed(fs, o, d, name, i, fs1, o1, b) && Scanned(fs1, o1, d, name, i + 1, nblock, fs2, o2, Miss)
    ensures Scanned(fs, o, d, name, i, nblock, fs2, o2, Miss)
  {
    hide *;
    PassedParts(fs, o, d, name, i, fs1, o1, b);
    DirGotParts(fs, o, d, i, fs1, o1, b);
    ScannedIs(fs1, o1, d, name, i + 1, nblock, fs2, o2, Miss);
    FillsThen(fs, o, d, fs1, o1, fs2, o2);
    PassedRoom(fs, o, d, i, nblock, fs1, o1, b, fs2, Miss);
    forall n: nat, j: nat, e | i <= n < nblock && EntryOf(fs2, d, n, j, e) ensures !NameIs(fs2, e, name) {
      if n == i { PassedEntry(fs, o, d, name, i, fs1, o1, b, fs2, o2, j, e); }
    }
    ScannedMiss(fs, o, d, name, i, nblock, fs2, o2);
  }

  lemma PassedFailed(fs: Fs, o: Owners, d: File, name: Name, i: nat, nblock: nat, fs1: Fs, o1: Owners, b: nat, fs2: Fs, o2: Owners, rc: int)
    requires i < nblock && Passed(fs, o, d, name, i, fs1, o1, b) && Scanned(fs1, o1, d, name, i + 1, nblock, fs2, o2, Failed(rc))
    ensures Scanned(fs, o, d, name, i, nblock, fs2, o2, Failed(rc))
  {
    hide *;
    PassedParts(fs, o, d, name, i, fs1, o1, b);
    DirGotParts(fs, o, d, i, fs1, o1, b);
    ScannedIs(fs1, o1, d, name, i + 1, nblock, fs2, o2, Failed(rc));
    FillsThen(fs, o, d, fs1, o1, fs2, o2);
    PassedRoom(fs, o, d, i, nblock, fs1, o1, b, fs2, Failed(rc));
    if name != [] {
      ElemIs(name);
      forall n: nat, j: nat, e | i <= n && EntryOf(fs, d, n, j, e) ensures !NameIs(fs, e, name) {
        EntryBlock(fs, d, n, j, e);
        if BlockOf(fs, d, i) == 0 {
          HoleNone(fs, d, i, n, j, e, name);
        } else if n == i {
          PassedName(fs, o, d, name, i, fs1, o1, b, j);
        }
      }
    }
    ScannedFailed(fs, o, d, name, i, nblock, fs2, o2, rc);
  }

  /** The scans fill holes in order and find the first matching entry.  A scan for a name that finds
      it changes nothing, and one that fails on a hole has missed no entry of that name; where no
      entry matches, it fails exactly if there is not enough room for the holes. */
  lemma {:induction false} ScanFinds(fs: Fs, o: Owners, d: File, name: Name, i: nat, nblock: nat) returns (o': Owners)
    requires Inv(fs, o) && KnownDir(fs, o, d) && Packed(fs, d) && Dense(fs, d, i) && (name == [] || IsElem(name))
    requires i <= nblock <= NBlocks(Size(fs, d))
    ensures Shape(fs) && At(fs, d)
    ensures var (fs', res) := DirScan(fs, d, name, i, nblock); Scanned(fs, o, d, name, i, nblock, fs', o', res)
    decreases nblock - i
  {
    hide *;
    InvParts(fs, o);
    KnownDirIs(fs, o, d);
    SizeIs(fs, o, d);
    ScanForm(fs, d, name, i, nblock);
    if i >= nblock {
      o' := o;
      FillsSelf(fs, o, d);
      ScanDone(fs, d, i, nblock);
      ScannedMiss(fs, o, d, name, i, nblock, fs, o);
    } else {
      DirBlock(fs, o, d, i);
      var ((fs1, b), o1) := (FileGetBlock(fs, d, i), GetBlockOwners(fs, o, d, i));
      DirGotParts(fs, o, d, i, fs1, o1, b);
      o' := o1;
      if b < 0 {
        EnoughFails(fs, d, i, nblock, fs1, b);
        ScanRoomIs(fs, d, i, nblock, fs1, Failed(b));
        if name != [] {
          ElemIs(name);
          forall n: nat, j: nat, e | i <= n && EntryOf(fs, d, n, j, e) ensures !NameIs(fs, e, name) { HoleNone(fs, d, i, n, j, e, name); }
        }
        ScannedFailed(fs, o, d, name, i, nblock, fs1, o1, b);
      } else {
        var j := EntryScan(fs1, b, name, 0);
        if j < BLKFILES {
          ElemIs(name);
          EmptyString();
          ScanHit(fs, o, d, name, i, nblock, fs1, o1, b, j);
        } else {
          PassedIs(fs, o, d, name, i, fs1, o1, b);
          PassedParts(fs, o, d, name, i, fs1, o1, b);
          GrowsPacked(fs, o, d, fs1, o1, d);
          o' := ScanFinds(fs1, o1, d, name, i + 1, nblock);
          var (fs2, res) := DirScan(fs1, d, name, i + 1, nblock);
          match res {
            case Hit(e) => PassedHit(fs, o, d, name, i, nblock, fs1, o1, b, fs2, o', e);
            case Miss => PassedMiss(fs, o, d, name, i, nblock, fs1, o1, b, fs2, o');
            case Failed(rc) => PassedFailed(fs, o, d, name, i, nblock, fs1, o1, b, fs2, o', rc);
          }
        }
      }
    }
  }

  lemma ScanDone(fs: Fs, d: File, i: nat, nblock: nat)
    requires i >= nblock
    ensures ScanRoom(fs, d, i, nblock, fs, Miss)
  {
  }

  lemma PassedIs(fs: Fs, o: Owners, d: File, name: Name, i: nat, fs1: Fs, o1: Owners, b: nat)
    requires Inv(fs, o) && KnownDir(fs, o, d) && DirGot(fs, o, d, i, fs1, o1, b) && Packed(fs, d) && Dense(fs, d, i) && (name == [] || IsElem(name))
    requires forall k :: 0 <= k < BLKFILES ==> !NameIs(fs1, DirEntry(b, k), name)
    ensures Passed(fs, o, d, name, i, fs1, o1, b)
  {
    hide Inv, KnownDir, DirGot, Packed, Dense, NameIs, IsElem;
  }

  /** Growing a file leaves no hole before a named entry. */
  lemma GrowsPacked(fs: Fs, o: Owners, f: File, fs': Fs, o': Owners, d: File)
    requires Inv(fs, o) && Grows(fs, o, f, fs', o') && KnownDir(fs, o, d) && Packed(fs, d)
    ensures Packed(fs', d)
  {
    hide *;
    KnownDirIs(fs, o, d);
    forall n: nat, j: nat, e, name | EntryOf(fs', d, n, j, e) && IsElem(name) && NameIs(fs', e, name) ensures Dense(fs', d, n) {
      ElemIs(name);
      GrowsEntry(fs, o, f, fs', o', d, n, j, e, name);
      PackedAt(fs, d, n, j, e, name);
      forall k: nat | k < n ensures BlockOf(fs', d, k) != 0 {
        DenseIs(fs, d, n, k);
        GrowsBlock(fs, o, f, fs', o', d, k);
      }
      DenseJoin(fs', d, n);
    }
    PackedJoin(fs', d);
  }

  /* ---- directories as sets of names ---- */

  /** Directory d has an entry e of this name. */
  ghost predicate Named(fs: Fs, d: File, name: Name, e: File) {
    exists n, j :: EntryOf(fs, d, n, j, e) && NameIs(fs, e, name)
  }

  ghost predicate UniqueNames(fs: Fs, d: File) {
    forall name, e, e' :: IsElem(name) && Named(fs, d, name, e) && Named(fs, d, name, e') ==> e == e'
  }

  /** Entries without a name are no directories. */
  ghost predicate PlainNew(fs: Fs, d: File) { forall n, j, e :: EntryOf(fs, d, n, j, e) && NameIs(fs, e, []) ==> !IsDir(fs, e) }

  ghost predicate DirOk(fs: Fs, d: File) { DirSize(fs, d) && Packed(fs, d) && UniqueNames(fs, d) && PlainNew(fs, d) }

  ghost predicate DirsOk(fs: Fs, o: Owners) { forall d :: KnownDir(fs, o, d) ==> DirOk(fs, d) }

  lemma DirOkIs(fs: Fs, o: Owners, d: File)
    requires DirsOk(fs, o) && KnownDir(fs, o, d)
    ensures DirOk(fs, d) && DirSize(fs, d) && Packed(fs, d) && UniqueNames(fs, d) && PlainNew(fs, d)
  {
    hide KnownDir, DirSize, Packed, UniqueNames, PlainNew;
  }

  lemma PlainNewIs(fs: Fs, d: File, n: nat, j: nat, e: File)
    requires PlainNew(fs, d) && EntryOf(fs, d, n, j, e) && NameIs(fs, e, [])
    ensures !IsDir(fs, e)
  {
    hide EntryOf, NameIs, IsDir;
  }

  lemma PlainNewJoin(fs: Fs, d: File)
    requires forall n, j, e :: EntryOf(fs, d, n, j, e) && NameIs(fs, e, []) ==> !IsDir(fs, e)
    ensures PlainNew(fs, d)
  {
    hide EntryOf, NameIs, IsDir;
  }

  /** Growing a file adds and loses no name. */
  lemma NamedSame(fs: Fs, o: Owners, f: File, fs': Fs, o': Owners, d: File, name: Name, e: File)
    requires Inv(fs, o) && Grows(fs, o, f, fs', o') && KnownDir(fs, o, d) && IsElem(name)
    ensures Named(fs', d, name, e) <==> Named(fs, d, name, e)
  {
    hide *;
    KnownDirIs(fs, o, d);
    ElemIs(name);
    if Named(fs, d, name, e) {
      var n, j := NamedAt(fs, d, name, e);
      EntryBlock(fs, d, n, j, e);
      GrowsBlock(fs, o, f, fs', o', d, n);
      EntryBlock(fs', d, n, j, e);
      GrowsEntry(fs, o, f, fs', o', d, n, j, e, name);
      NamedIs(fs', d, name, n, j, e);
    }
    if Named(fs', d, name, e) {
      var n, j := NamedAt(fs', d, name, e);
      GrowsEntry(fs, o, f, fs', o', d, n, j, e, name);
      NamedIs(fs, d, name, n, j, e);
    }
  }

  lemma NamedAt(fs: Fs, d: File, name: Name, e: File) returns (n: nat, j: nat)
    requires Named(fs, d, name, e)
    ensures EntryOf(fs, d, n, j, e) && NameIs(fs, e, name)
  {
    n, j :| EntryOf(fs, d, n, j, e) && NameIs(fs, e, name);
  }

  lemma NamedIs(fs: Fs, d: File, name: Name, n: nat, j: nat, e: File)
    ensures EntryOf(fs, d, n, j, e) && NameIs(fs, e, name) ==> Named(fs, d, name, e)
  {
    hide EntryOf, NameIs;
  }

  /** Filling holes keeps all directories in order. */
  lemma GrowsDirs(fs: Fs, o: Owners, f: File, fs': Fs, o': Owners)
    requires Inv(fs, o) && DirsOk(fs, o) && Grows(fs, o, f, fs', o')
    ensures DirsOk(fs', o')
  {
    hide *;
    forall d | KnownDir(fs', o', d) ensures DirOk(fs', d) { GrowsDirOk(fs, o, f, fs', o', d); }
    DirsJoin(fs', o');
  }

  lemma DirsJoin(fs: Fs, o: Owners)
    requires forall d :: KnownDir(fs, o, d) ==> DirOk(fs, d)
    ensures DirsOk(fs, o)
  {
    hide KnownDir, DirOk;
  }

  lemma DirJoin(fs: Fs, d: File)
    requires DirSize(fs, d) && Packed(fs, d) && PlainNew(fs, d)
    requires forall name, e, e' :: IsElem(name) && Named(fs, d, name, e) && Named(fs, d, name, e') ==> e == e'
    ensures DirOk(fs, d)
  {
    hide DirSize, Packed, IsElem, Named, PlainNew;
  }

  lemma UniqueIs(fs: Fs, d: File, name: Name, e: File, e': File)
    requires UniqueNames(fs, d) && IsElem(name) && Named(fs, d, name, e) && Named(fs, d, name, e')
    ensures e == e'
  {
    hide IsElem, Named;
  }

  lemma EmptyString()
    ensures IsString([]) && 0 < BLKFILES
  {
  }

  lemma GrowsDirOk(fs: Fs, o: Owners, f: File, fs': Fs, o': Owners, d: File)
    requires Inv(fs, o) && DirsOk(fs, o) && Grows(fs, o, f, fs', o') && KnownDir(fs', o', d)
    ensures DirOk(fs', d)
  {
    hide *;
    GrowsDir(fs, o, f, fs', o', d);
    KnownDirIs(fs', o', d);
    KnownDirIs(fs, o, d);
    DirOkIs(fs, o, d);
    GrowsPacked(fs, o, f, fs', o', d);
    SizeSame(fs, fs', d);
    EmptyString();
    forall n: nat, j: nat, e | EntryOf(fs', d, n, j, e) && NameIs(fs', e, []) ensures !IsDir(fs', e) {
      GrowsEntry(fs, o, f, fs', o', d, n, j, e, []);
      if BlockOf(fs, d, n) != 0 { PlainNewIs(fs, d, n, j, e); }
    }
    PlainNewJoin(fs', d);
    forall name, e, e' | IsElem(name) && Named(fs', d, name, e) && Named(fs', d, name, e') ensures e == e' {
      NamedSame(fs, o, f, fs', o', d, name, e);
      NamedSame(fs, o, f, fs', o', d, name, e');
      UniqueIs(fs, d, name, e, e');
    }
    DirJoin(fs', d);
  }

  lemma SizeSame(fs: Fs, fs': Fs, d: File)
    requires Size(fs', d) == Size(fs, d)
    ensures DirSize(fs', d) <==> DirSize(fs, d)
  {
    hide Size;
  }
}
