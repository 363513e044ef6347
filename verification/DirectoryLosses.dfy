/** Requests that the guards exclude, and what they lose. */
module DirectoryLosses {
  import opened Words
  import opened Disk
  import opened FileSystem
  import opened FileOwnership
  import opened FileRelease
  import opened FileContents
  import opened FileTruncation
  import opened FileBytes
  import opened Paths
  import opened Directories
  import opened PathLookup
  import opened EntryCreation
  import opened PathWalk
  import opened DirectoryCuts
  import opened FileSystemRuns
  import opened DiskFormat
  import opened FormattedDisk

  /* ---- resizing what a path opens ---- */

  /** Open a path with id 0, without creating or truncating, and set the size of what it opens. */
  function OpenPath(q: Path): Request { Open(0, q, false, false, false) }

  function Resize0(n: Long): Request { Request.SetSize(0, n) }

  function OpenResize(fs: Fs, q: Path, n: Long): (s: Server)
    requires Shape(fs)
    ensures Shape(s.fs)
  {
    Serve(Serve(Idle(fs), OpenPath(q)), Resize0(n))
  }

  lemma OpenedForm(fs: Fs, q: Path, f: File, n: Long)
    requires Shape(fs) && FileOpen(fs, q) == Found(fs, 0, f) && At(fs, f)
    ensures Serve(Idle(fs), OpenPath(q)) == Server(fs, map[0 := f]) && OpenResize(fs, q, n).fs == FileSetSize(fs, f, n)
  {
    assert ServeOpen(fs, q, false, false, false) == Found(fs, 0, f) by { hide FileOpen, FileCreate, FileSetSize; }
    assert Serve(Server(fs, map[0 := f]), Resize0(n)).fs == FileSetSize(fs, f, n) by { hide FileSetSize; }
    hide ServeOpen, FileSetSize, FileOpen;
  }

  lemma RootPath(fs: Fs, o: Owners)
    requires Inv(fs, o) && DirsOk(fs, o)
    ensures Shape(fs) && At(fs, ROOT) && IsString([]) && FileOpen(fs, []) == Found(fs, 0, ROOT)
  {
    hide *;
    EmptyString();
    NoElems();
    LeadsNone(fs, ROOT, ROOT);
    OpenExact(fs, o, [], ROOT);
    RootKnown(fs, o);
    SizeIs(fs, o, ROOT);
  }

  lemma NoElems()
    ensures Elems([]) == []
  {
  }

  lemma NoBlocksLeft()
    ensures BlockCount(0) == 0 && NBlocks(0) == 0 && Fits(0)
  {
  }

  /** Setting the size of "/" to zero on a formatted disk: the files are not found any more. */
  lemma RootTruncated(nblocks: nat, ss: seq<Source>, x: nat)
    requires Format(nblocks, ss).Some? && ss != [] && Distinct(ss) && x < |ss|
    ensures var fs := Format(nblocks, ss).value;
            var (path, fs') := (Below([], ss[x].name), OpenResize(fs, [], 0).fs);
            FileOpen(fs, path) == Found(fs, 0, EntryFile(ss, x)) && FileOpen(fs', path) != Found(fs', 0, EntryFile(ss, x))
  {
    hide *;
    var (fs, o, e) := (Format(nblocks, ss).value, OwnersOf(ss), EntryFile(ss, x));
    FormatLaid(nblocks, ss);
    LaidInv(fs, ss);
    LaidDirs(fs, ss);
    RootPath(fs, o);
    RootKnown(fs, o);
    RootDir(fs, ss);
    KnownDirIs(fs, o, ROOT);
    OpenedForm(fs, [], ROOT, 0);
    SetSizeCuts(fs, o, ROOT, 0);
    NoBlocksLeft();
    FileNamed(fs, ss, x);
    var m, j := NamedAt(fs, ROOT, ss[x].name, e);
    var fs' := FileSetSize(fs, ROOT, 0);
    OpenKept(fs, o, ROOT, 0, fs', [], ROOT);
    NameLost(fs, o, ROOT, 0, fs', [], m, j, e, ss[x].name);
  }

  /** If one of the files holds a byte, its blocks are lost with it: nobody owns them, yet they stay in
      use. */
  lemma RootLeaks(nblocks: nat, ss: seq<Source>, x: nat)
    requires Format(nblocks, ss).Some? && ss != [] && Distinct(ss) && x < |ss| && ss[x].bytes != []
    ensures !Good(OpenResize(Format(nblocks, ss).value, [], 0).fs)
  {
    hide *;
    var (fs, o, e) := (Format(nblocks, ss).value, OwnersOf(ss), EntryFile(ss, x));
    FormatLaid(nblocks, ss);
    LaidInv(fs, ss);
    LaidDirs(fs, ss);
    RootPath(fs, o);
    RootKnown(fs, o);
    RootDir(fs, ss);
    KnownDirIs(fs, o, ROOT);
    OpenedForm(fs, [], ROOT, 0);
    SetSizeDirExact(fs, o, ROOT, 0);
    NoBlocksLeft();
    LaidFile(fs, ss, x);
    EntryIsThere(fs, ss, x);
    var c := DataCell(e, 0);
    FirstSlot(e);
    SlotIn(fs, ss, x, c);
    FileSlotIs(ss, x, c);
    OneBlock(ss[x]);
    Bounded(ss, x);
    if BarrenPast(fs, ROOT, 0) { BarrenAt(fs, ROOT, 0, x / BLKFILES, x % BLKFILES, c); }
  }

  lemma FirstSlot(e: File)
    ensures IsSlot(DataCell(e, 0)) && DataCell(e, 0).f == e && Index(DataCell(e, 0)) == 0 && DataCell(e, 0) != Part(e, INDIRECT)
  {
  }

  lemma OneBlock(s: Source)
    requires s.bytes != []
    ensures Blocks(s) > 0
  {
  }

  /** A size of -8192: the file keeps all its blocks, its size says it has none. */
  lemma NegativeSize(nblocks: nat, ss: seq<Source>, x: nat, m: nat)
    requires Format(nblocks, ss).Some? && ss != [] && Distinct(ss) && x < |ss|
    ensures var (fs, e) := (Format(nblocks, ss).value, EntryFile(ss, x));
            var fs' := OpenResize(fs, ss[x].name, -8192).fs;
            !Good(fs') && BlockOf(fs', e, m) == BlockOf(fs, e, m) && Size(fs', e) == 0x1_0000_0000 - 8192
  {
    hide *;
    var (fs, o, e) := (Format(nblocks, ss).value, OwnersOf(ss), EntryFile(ss, x));
    FormatLaid(nblocks, ss);
    LaidInv(fs, ss);
    LaidFile(fs, ss, x);
    EntriesKnown(fs, ss, x);
    NameAlone(ss[x].name);
    FormatReads(nblocks, ss, x);
    OpenedForm(fs, ss[x].name, e, -8192);
    var fs' := FileSetSize(fs, e, -8192);
    Minus8192();
    SetSizeExact(fs, o, e, -8192);
    if Good(fs') { GoodOrdered(fs'); }
    SetSizeCuts(fs, o, e, -8192);
    CutBlock(fs, o, e, -8192, fs', e, m);
    CutKept(fs, o, e, -8192, fs', e, []);
    BlockIs(fs, e, m);
  }

  lemma Minus8192()
    ensures !Fits(-8192) && BlockCount(-8192) >= MAXBLOCKS && -8192 % 0x1_0000_0000 == 0x1_0000_0000 - 8192
  {
  }

  /* ---- writing to a directory ---- */

  lemma InvSound(fs: Fs, o: Owners, g: File)
    requires Inv(fs, o) && Known(fs, o, g)
    ensures Sound(fs, g)
  {
    hide *;
    InvParts(fs, o);
    KnownAt(fs, o, g);
    UseBelow(fs, 0);
    forall k: nat ensures BlockOf(fs, g, k) < |fs.blocks| {
      if BlockOf(fs, g, k) != 0 {
        BlockOfIs(fs, o, g, k);
        UseBelow(fs, BlockOf(fs, g, k));
      }
    }
    SlotKnown(fs, o, g, 0);
    SlotOwned(fs, o, Part(g, INDIRECT));
    UseBelow(fs, Value(fs, Part(g, INDIRECT)));
    SoundJoin(fs, g);
  }

  /** Where entry j of block n of a directory starts. */
  function EntryPos(n: nat, j: nat): nat { BLKSIZE * n + 4 * FILEWORDS * j }

  lemma EntryPosIs(n: nat, j: nat)
    requires j < BLKFILES
    ensures BlockNo(EntryPos(n, j)) == n && BlockOffset(EntryPos(n, j)) == 4 * FILEWORDS * j < BLKSIZE
    ensures Min(BLKSIZE - BlockOffset(EntryPos(n, j)), 1) == 1
  {
    assert 4 * FILEWORDS * j < BLKSIZE;
    assert (BLKSIZE * n + 4 * FILEWORDS * j) / BLKSIZE == n;
  }

  lemma PosInSize(n: nat, j: nat, size: nat)
    requires j < BLKFILES && n < NBlocks(size) && size % BLKSIZE == 0 && size <= MAXSIZE
    ensures EntryPos(n, j) + 1 <= size
  {
    assert size == NBlocks(size) * BLKSIZE;
    assert BLKSIZE * (n + 1) <= size;
  }

  lemma EntryFits(n: nat, j: nat, size: nat)
    requires EntryPos(n, j) + 1 <= size && size <= MAXSIZE
    ensures Fits(EntryPos(n, j) + |[0]|) && EntryPos(n, j) < 0x8000_0000
  {
  }

  /** One zero byte written at the start of an entry takes its name away. */
  lemma ZeroByteErases(fs: Fs, o: Owners, d: File, n: nat, j: nat, e: File)
    requires Inv(fs, o) && DirsOk(fs, o) && KnownDir(fs, o, d) && EntryOf(fs, d, n, j, e)
    ensures At(fs, d) && At(fs, e) && EntryPos(n, j) + 1 <= MAXSIZE && FileWrite(fs, d, [0], EntryPos(n, j)).0 == PutName(fs, e, [])
  {
    hide *;
    KnownDirIs(fs, o, d);
    DirOkIs(fs, o, d);
    SizeParts(fs, d);
    SizeIs(fs, o, d);
    EntryBlock(fs, d, n, j, e);
    EntryKnown(fs, o, d, n, j, e);
    EntryInSize(fs, o, d, n, j, e);
    EntryPosIs(n, j);
    PosInSize(n, j, Size(fs, d));
    EntryFits(n, j, Size(fs, d));
    InvSound(fs, o, d);
    GetThere(fs, d, n);
    var pos := EntryPos(n, j);
    FileWriteForm(fs, d, [0], pos);
    WriteFromForm(fs, d, [0], pos);
    NoBytes();
    ContentIs(fs, o, d, n);
    PutNameForm(fs, e, j);
    AtSame(fs, PutName(fs, e, []), d);
    WriteFromForm(PutName(fs, e, []), d, [], pos + 1);
  }

  lemma NoBytes()
    ensures |[0]| == 1 && [0][..1] == [0] && [0][1..] == [] && [0] != []
  {
  }

  lemma PutNameForm(fs: Fs, e: File, j: nat)
    requires At(fs, e) && e == DirEntry(e.block, j) && IsBlock(fs.blocks[e.block])
    ensures 0 < MAXNAMELEN && 4 * FILEWORDS * j + 1 <= BLKSIZE
    ensures PutName(fs, e, []) == WithBlock(fs, e.block, PutBytes(fs.blocks[e.block], 4 * FILEWORDS * j, [0]))
    ensures |PutName(fs, e, []).blocks| == |fs.blocks|
  {
    assert [] + [0] == [0];
  }

  /** An unnamed regular file leaves the directories in order. */
  lemma ErasedDirs(fs: Fs, o: Owners, d: File, n: nat, j: nat, e: File)
    requires Inv(fs, o) && DirsOk(fs, o) && KnownDir(fs, o, d) && EntryOf(fs, d, n, j, e) && !IsDir(fs, e)
    ensures At(fs, e) && Inv(PutName(fs, e, []), o) && DirsOk(PutName(fs, e, []), o)
  {
    hide *;
    EntryKnown(fs, o, d, n, j, e);
    EmptyString();
    ShortName();
    PutNameKeeps(fs, o, e, []);
    var fs' := PutName(fs, e, []);
    forall g | KnownDir(fs', o, g) ensures DirOk(fs', g) {
      KnownDirIs(fs, o, g);
      KnownDirIs(fs', o, g);
      PutNameKept(fs, o, e, [], g);
      ErasedDir(fs, o, d, n, j, e, g);
    }
    DirsJoin(fs', o);
  }

  lemma ShortName()
    ensures 0 < MAXNAMELEN
  {
  }

  lemma ErasedDir(fs: Fs, o: Owners, d: File, n: nat, j: nat, e: File, g: File)
    requires Inv(fs, o) && DirsOk(fs, o) && KnownDir(fs, o, d) && EntryOf(fs, d, n, j, e) && !IsDir(fs, e) && KnownDir(fs, o, g)
    requires At(fs, e) && 0 < MAXNAMELEN && IsString([])
    ensures DirOk(PutName(fs, e, []), g)
  {
    hide *;
    EntryKnown(fs, o, d, n, j, e);
    KnownDirIs(fs, o, g);
    DirOkIs(fs, o, g);
    var fs' := PutName(fs, e, []);
    PutNameKept(fs, o, e, [], g);
    SizeSame(fs, fs', g);
    forall m: nat, k: nat, x, nm | EntryOf(fs', g, m, k, x) && IsElem(nm) && NameIs(fs', x, nm)
      ensures Dense(fs', g, m) && x != e && EntryOf(fs, g, m, k, x) && NameIs(fs, x, nm)
    {
      ElemIs(nm);
      PutNameEntry(fs, o, d, n, j, e, [], g, m, k, x, nm);
      PackedAt(fs, g, m, k, x, nm);
      DenseSame(fs, fs', g, m);
    }
    PackedJoin(fs', g);
    forall m: nat, k: nat, x | EntryOf(fs', g, m, k, x) && NameIs(fs', x, []) ensures !IsDir(fs', x) {
      PutNameEntry(fs, o, d, n, j, e, [], g, m, k, x, []);
      if x != e { PlainNewIs(fs, g, m, k, x); }
    }
    PlainNewJoin(fs', g);
    forall nm, x, x' | IsElem(nm) && Named(fs', g, nm, x) && Named(fs', g, nm, x') ensures x == x' {
      var m, k := NamedAt(fs', g, nm, x);
      NamedIs(fs, g, nm, m, k, x);
      var m', k' := NamedAt(fs', g, nm, x');
      NamedIs(fs, g, nm, m', k', x');
      UniqueIs(fs, g, nm, x, x');
    }
    DirJoin(fs', g);
  }

  /** Through an id that stands for a directory, one byte written loses the path of a file. */
  lemma WriteLoses(s: Server, id: nat, q: Path, o: Owners, n: nat, j: nat, e: File, name: Name)
    requires Shape(s.fs) && Inv(s.fs, o) && DirsOk(s.fs, o) && id in s.open && FileOpen(s.fs, q) == Found(s.fs, 0, s.open[id])
    requires KnownDir(s.fs, o, s.open[id]) && EntryOf(s.fs, s.open[id], n, j, e) && IsElem(name) && NameIs(s.fs, e, name) && !IsDir(s.fs, e)
    ensures EntryPos(n, j) < 0x8000_0000
    ensures WritesDir(s, Write(id, [0], EntryPos(n, j))) && !PathsKept(s.fs, Serve(s, Write(id, [0], EntryPos(n, j))).fs)
  {
    hide *;
    var (fs, d) := (s.fs, s.open[id]);
    KnownDirIs(fs, o, d);
    ZeroByteErases(fs, o, d, n, j, e);
    ErasedDirs(fs, o, d, n, j, e);
    EntryKnown(fs, o, d, n, j, e);
    ShortName();
    var fs' := PutName(fs, e, []);
    PutNameKept(fs, o, e, [], d);
    PutNameKeeps(fs, o, e, []);
    KnownDirIs(fs', o, d);
    SizeIs(fs', o, d);
    EntryFits(n, j, MAXSIZE);
    WriteDirForm(s, id, EntryPos(n, j));
    ElemIs(name);
    NamedIs(fs, d, name, n, j, e);
    BelowElems(fs, o, q, d, name, e);
    ErasedName(fs, e, name);
    if PathsKept(fs, fs') {
      PathsKeptAt(fs, fs', q, d);
      PathsKeptAt(fs, fs', Below(q, name), e);
      OpenBelow(fs', q, d, name);
      FieldIs(fs', d, TYPE);
      LookupNames(fs', o, d, name, e);
    }
  }

  lemma WriteDirForm(s: Server, id: nat, pos: nat)
    requires Shape(s.fs) && id in s.open && At(s.fs, s.open[id]) && IsDir(s.fs, s.open[id]) && pos < 0x8000_0000
    ensures WritesDir(s, Write(id, [0], pos)) && Serve(s, Write(id, [0], pos)).fs == FileWrite(s.fs, s.open[id], [0], pos).0
  {
    hide FileWrite, IsDir;
  }

  lemma BelowElems(fs: Fs, o: Owners, q: Name, d: File, name: Name, e: File)
    requires Inv(fs, o) && DirsOk(fs, o) && Shape(fs) && IsString(q) && FileOpen(fs, q) == Found(fs, 0, d) && KnownDir(fs, o, d)
    requires IsElem(name) && Named(fs, d, name, e)
    ensures IsString(Below(q, name)) && FileOpen(fs, Below(q, name)) == Found(fs, 0, e)
  {
    hide *;
    KnownDirIs(fs, o, d);
    SizeIs(fs, o, d);
    TypeOf(fs, d);
    NamedShort(fs, d, name, e);
    LookupExact(fs, o, d, name, e);
    LookupNamed(fs, o, d, name);
    var n, j := NamedAt(fs, d, name, e);
    EntryKnown(fs, o, d, n, j, e);
    FoundIs(fs, d, name, e);
    OpenBelow(fs, q, d, name);
    BelowIs(q, name);
  }

  lemma FoundIs(fs: Fs, d: File, name: Name, e: File)
    requires At(fs, d)
    ensures var l := DirLookup(fs, d, name); l.rc == 0 && l.file == e && l.fs == fs ==> l == Found(fs, 0, e)
  {
    hide DirLookup;
  }

  lemma ErasedName(fs: Fs, e: File, name: Name)
    requires At(fs, e) && IsElem(name) && 0 < MAXNAMELEN
    ensures !NameIs(PutName(fs, e, []), e, name)
  {
    hide *;
    EmptyString();
    ElemIs(name);
    PutNameIs(fs, e, [], name);
  }

  lemma LookupNames(fs: Fs, o: Owners, d: File, name: Name, e: File)
    requires Inv(fs, o) && DirsOk(fs, o) && KnownDir(fs, o, d) && IsElem(name) && At(fs, d)
    requires DirLookup(fs, d, name).rc == 0 && DirLookup(fs, d, name).file == e
    ensures NameIs(fs, e, name)
  {
    hide *;
    LookupExact(fs, o, d, name, e);
    var n, j := NamedAt(fs, d, name, e);
  }
}
