/** The disk that fsformat builds: exactly when it is in order, that its files hold the bytes they were
    built from, and that they stay reachable while the file server runs. */
module FormattedDisk {
  import opened Wrappers
  import opened Disk
  import opened FileSystem
  import opened FileOwnership
  import opened FileContents
  import opened FileTruncation
  import opened FileBytes
  import opened Paths
  import opened Directories
  import opened PathWalk
  import opened DirectoryCuts
  import opened FileSystemRuns
  import opened DiskFormat

  /* ---- where everything is ---- */

  function Blocks(s: Source): nat { NBlocks(|s.bytes|) }

  /** The blocks a file takes, with its indirect block. */
  function Extent(s: Source): nat { Blocks(s) + if Blocks(s) >= NDIRECT then 1 else 0 }

  function StartOf(ss: seq<Source>, x: nat): nat
    requires x <= |ss|
  {
    if x == 0 then FIRST else StartOf(ss, x - 1) + Extent(ss[x - 1])
  }

  function RecordAt(s: Source, start: nat): Record
    requires |s.bytes| < MAXFILESIZE && start + Extent(s) <= 1024
  {
    Record(s.name, |s.bytes|, FTYPE_REG, start, Blocks(s), if Blocks(s) >= NDIRECT then start + Blocks(s) else 0)
  }

  /** The blocks of a file hold its bytes, and its indirect block their numbers. */
  ghost predicate FileThere(blocks: seq<seq<Word>>, s: Source, start: nat) {
    && start + Extent(s) <= |blocks|
    && (forall m: nat :: m < Blocks(s) ==> blocks[start + m] == Chunk(s.bytes, m))
    && (Blocks(s) >= NDIRECT ==> blocks[start + Blocks(s)] == IndirectBlock(start, Blocks(s)))
  }

  lemma {:induction false} StartGrows(ss: seq<Source>, x: nat, y: nat)
    requires x <= y <= |ss|
    ensures FIRST <= StartOf(ss, x) <= StartOf(ss, y)
    ensures x < y ==> StartOf(ss, x) + Extent(ss[x]) <= StartOf(ss, y)
    decreases y
  {
    if x < y { StartGrows(ss, x, y - 1); } else if y > 0 { StartGrows(ss, y - 1, y - 1); }
    hide Extent;
  }

  /* ---- what the steps write ---- */

  ghost predicate Written(img: Image, ss: seq<Source>, k: nat) {
    && k <= |ss| && |img.records| == k <= MAX_DIR_ENTS && img.pos == StartOf(ss, k) < |img.blocks| <= 1024
    && forall x: nat :: x < k ==> WrittenAt(img, ss, x)
  }

  ghost predicate WrittenAt(img: Image, ss: seq<Source>, x: nat) {
    && x < |ss| && x < |img.records| && |ss[x].bytes| < MAXFILESIZE && StartOf(ss, x) + Extent(ss[x]) <= 1024
    && img.records[x] == RecordAt(ss[x], StartOf(ss, x)) && FileThere(img.blocks, ss[x], StartOf(ss, x))
  }

  /** writefile appends one file and touches no block before diskpos. */
  lemma WriteFileForm(img: Image, s: Source)
    requires img.pos < |img.blocks| <= 1024
    ensures var r := WriteFile(img, s); r.Some? ==>
      && |s.bytes| < MAXFILESIZE && |img.records| < MAX_DIR_ENTS
      && r.value.pos == img.pos + Extent(s) < |img.blocks| == |r.value.blocks|
      && r.value.records == img.records + [RecordAt(s, img.pos)]
      && FileThere(r.value.blocks, s, img.pos)
      && forall b :: 0 <= b < img.pos ==> r.value.blocks[b] == img.blocks[b]
  {
    hide NBlocks, Chunk, IndirectBlock;
  }

  lemma ThereStill(blocks: seq<seq<Word>>, blocks': seq<seq<Word>>, s: Source, start: nat)
    requires FileThere(blocks, s, start) && |blocks'| == |blocks|
    requires forall b: nat :: start <= b < start + Extent(s) ==> blocks'[b] == blocks[b]
    ensures FileThere(blocks', s, start)
  {
    hide Blocks, Chunk, IndirectBlock;
  }

  lemma WriteNext(img: Image, ss: seq<Source>, k: nat)
    requires Written(img, ss, k) && k < |ss|
    ensures var r := WriteFile(img, ss[k]); r.Some? ==> Written(r.value, ss, k + 1) && |r.value.blocks| == |img.blocks|
  {
    WriteFileForm(img, ss[k]);
    var r := WriteFile(img, ss[k]);
    hide WriteFile, FileThere, Extent, RecordAt;
    if r.Some? {
      forall x: nat | x < k + 1 ensures WrittenAt(r.value, ss, x) {
        StartGrows(ss, x, k);
        if x < k {
          assert WrittenAt(img, ss, x);
          ThereStill(img.blocks, r.value.blocks, ss[x], StartOf(ss, x));
        }
      }
    }
  }

  lemma {:induction false} AllWritten(nblocks: nat, ss: seq<Source>, k: nat)
    requires FIRST < nblocks <= 1024 && k <= |ss|
    ensures var r := WriteFiles(Blank(nblocks), ss, k); r.Some? ==> Written(r.value, ss, k) && |r.value.blocks| == nblocks
  {
    hide Written, WriteFile;
    if k == 0 {
      WrittenNone(nblocks, ss);
    } else {
      AllWritten(nblocks, ss, k - 1);
      var r := WriteFiles(Blank(nblocks), ss, k - 1);
      if r.Some? { WriteNext(r.value, ss, k - 1); }
    }
  }

  lemma WrittenNone(nblocks: nat, ss: seq<Source>)
    requires FIRST < nblocks <= 1024
    ensures Written(Blank(nblocks), ss, 0)
  {
  }

  /* ---- the finished disk ---- */

  function DirBytes(ss: seq<Source>): nat { 4 * FILEWORDS * |ss| }

  function DirStart(ss: seq<Source>): nat { StartOf(ss, |ss|) }

  /** Blocks of the root directory. */
  function DirCount(ss: seq<Source>): nat { NBlocks(DirBytes(ss)) }

  function EndOf(ss: seq<Source>): nat { DirStart(ss) + DirCount(ss) }

  /** The struct File of file x, and of unused entries. */
  function EntryFile(ss: seq<Source>, x: nat): File { DirEntry(DirStart(ss) + x / BLKFILES, x % BLKFILES) }

  function RootRecord(ss: seq<Source>): Record
    requires |ss| <= MAX_DIR_ENTS
  {
    Record([SLASH], RoundUp(DirBytes(ss)), FTYPE_DIR, DirStart(ss), NBlocks(RoundUp(DirBytes(ss))), 0)
  }

  ghost predicate SourceOk(ss: seq<Source>, x: nat) {
    x < |ss| && |ss[x].bytes| < MAXFILESIZE && StartOf(ss, x) + Extent(ss[x]) <= 1024
  }

  /** Word k of entry x of the root. */
  ghost function EntryValue(ss: seq<Source>, x: nat, k: nat): Word {
    if SourceOk(ss, x) then RecordWord(RecordAt(ss[x], StartOf(ss, x)), k) else 0
  }

  /** What is on the disk: the blocks in use, the root, its entries, and the files. */
  ghost predicate Laid(fs: Fs, ss: seq<Source>) {
    && Shape(fs) && EndOf(ss) < |fs.blocks| <= 1024 && |ss| <= MAX_DIR_ENTS
    && (forall b: nat :: IsFree(fs, b) <==> EndOf(ss) <= b < |fs.blocks|)
    && (forall k: nat :: k < FILEWORDS ==> Field(fs, ROOT, k) == RecordWord(RootRecord(ss), k))
    && (forall x: nat, k: nat :: x < BLKFILES * DirCount(ss) && k < FILEWORDS ==> Field(fs, EntryFile(ss, x), k) == EntryValue(ss, x, k))
    && (forall x: nat :: x < |ss| ==> SourceOk(ss, x) && FileThere(fs.blocks, ss[x], StartOf(ss, x)))
  }

  lemma DirFits(n: nat)
    requires n <= MAX_DIR_ENTS
    ensures NBlocks(4 * FILEWORDS * n) <= 8 && NBlocks(RoundUp(4 * FILEWORDS * n)) <= 8 && RoundUp(4 * FILEWORDS * n) <= 32768
    ensures n <= BLKFILES * NBlocks(4 * FILEWORDS * n)
    ensures n > 0 ==> RoundUp(4 * FILEWORDS * n) == BLKSIZE * NBlocks(4 * FILEWORDS * n)
    ensures n > 0 ==> NBlocks(RoundUp(4 * FILEWORDS * n)) == NBlocks(4 * FILEWORDS * n)
    ensures n == 0 ==> NBlocks(4 * FILEWORDS * n) == 0 && RoundUp(4 * FILEWORDS * n) == BLKSIZE && NBlocks(BLKSIZE) == 1
  {
  }

  /** finishdir. */
  lemma FinishDirForm(img: Image, ss: seq<Source>)
    requires Written(img, ss, |ss|)
    ensures var r := FinishDir(img); r.Some? ==>
      && r.value.1 == RootRecord(ss) && r.value.0.pos == EndOf(ss) < |img.blocks| == |r.value.0.blocks|
      && (forall b: nat :: b < DirStart(ss) ==> r.value.0.blocks[b] == img.blocks[b])
      && (forall m: nat :: m < DirCount(ss) ==> r.value.0.blocks[DirStart(ss) + m] == RootBlock(img.records, m))
  {
    DirFits(|ss|);
    hide NBlocks, RoundUp, RootBlock, IndirectBlock, WrittenAt, StartOf;
  }

  lemma {:induction false} ClearBitsFree(fs: Fs, i: nat, pos: nat, b: nat)
    requires Shape(fs) && pos <= |fs.blocks|
    ensures IsFree(ClearBits(fs, i, pos), b) <==> IsFree(fs, b) && !(i <= b < pos)
    decreases pos - i
  {
    hide IsFree, Mark, IsBlock;
    if i < pos {
      MarkFree(fs, i, false, b);
      ClearBitsFree(Mark(fs, i, false), i + 1, pos, b);
    }
  }

  lemma {:induction false} AllOnes(n: nat, i: nat)
    requires i < n
    ensures Pow2(n) > 0 && Bit(Pow2(n) - 1, i)
  {
    PowPositive(n - 1);
    assert (Pow2(n) - 1) / 2 == Pow2(n - 1) - 1 && (Pow2(n) - 1) % 2 == 1;
    if i > 0 { AllOnes(n - 1, i - 1); }
  }

  lemma {:induction false} PowPositive(n: nat)
    ensures Pow2(n) > 0
  {
    if n > 0 { PowPositive(n - 1); }
  }

  lemma OnesFree(blocks: seq<seq<Word>>, b: nat)
    requires |blocks| <= 1024
    ensures IsFree(Fs(seq<Word>(BLKWORDS, (w: nat) => 0xFFFF_FFFF), blocks), b) <==> b < |blocks|
  {
    WordBits();
    AllOnes(32, b % 32);
    hide Bit;
  }

  lemma FormatForm(nblocks: nat, ss: seq<Source>) returns (img1: Image, img: Image, root: Record)
    requires Format(nblocks, ss).Some?
    ensures FIRST < nblocks <= 1024 && WriteFiles(Blank(nblocks), ss, |ss|) == Some(img1) && FinishDir(img1) == Some((img, root))
    ensures |img.blocks| == nblocks && Whole(img)
    ensures var (ones, blocks) := (seq<Word>(BLKWORDS, (w: nat) => 0xFFFF_FFFF), img.blocks[1 := SuperBlock(nblocks, root)]);
            Shape(Fs(ones, blocks)) && Format(nblocks, ss) == Some(ClearBits(Fs(ones, blocks), 0, img.pos))
  {
    img1 := WriteFiles(Blank(nblocks), ss, |ss|).value;
    img, root := FinishDir(img1).value.0, FinishDir(img1).value.1;
    FormatWhole(nblocks, ss, img1, img, root);
    hide WriteFiles, FinishDir, SuperBlock, ClearBits;
  }

  /** The words of the root's entries. */
  lemma EntryAt(fs: Fs, ss: seq<Source>, img1: Image, x: nat, k: nat)
    requires Written(img1, ss, |ss|) && x < BLKFILES * DirCount(ss) && k < FILEWORDS
    requires EndOf(ss) < |fs.blocks| && fs.blocks[DirStart(ss) + x / BLKFILES] == RootBlock(img1.records, x / BLKFILES)
    ensures Field(fs, EntryFile(ss, x), k) == EntryValue(ss, x, k)
  {
    var (m, j) := (x / BLKFILES, x % BLKFILES);
    var w := FILEWORDS * j + k;
    assert w < BLKWORDS && w / FILEWORDS == j && w % FILEWORDS == k && BLKFILES * m + j == x;
    assert Field(fs, EntryFile(ss, x), k) == EntryWord(img1.records, x, k) by { hide Written, EntryWord, StartOf, DirCount; }
    if x < |ss| { assert WrittenAt(img1, ss, x); }
    hide RecordWord, FileThere, RecordAt, Extent;
  }

  lemma FormatLaid(nblocks: nat, ss: seq<Source>)
    requires Format(nblocks, ss).Some?
    ensures Laid(Format(nblocks, ss).value, ss) && |Format(nblocks, ss).value.blocks| == nblocks
  {
    var img1, img, root := FormatForm(nblocks, ss);
    AllWritten(nblocks, ss, |ss|);
    FinishDirForm(img1, ss);
    var fs := Format(nblocks, ss).value;
    hide *;
    WrittenIs(img1, ss);
    var (ones, blocks) := (seq<Word>(BLKWORDS, (w: nat) => 0xFFFF_FFFF), img.blocks[1 := SuperBlock(nblocks, root)]);
    forall b: nat ensures IsFree(fs, b) <==> EndOf(ss) <= b < |fs.blocks| {
      ClearBitsFree(Fs(ones, blocks), 0, img.pos, b);
      OnesFree(blocks, b);
    }
    forall k: nat | k < FILEWORDS ensures Field(fs, ROOT, k) == RecordWord(RootRecord(ss), k) { RootField(fs, nblocks, root, k); }
    Bounds(ss);
    forall x: nat, k: nat | x < BLKFILES * DirCount(ss) && k < FILEWORDS ensures Field(fs, EntryFile(ss, x), k) == EntryValue(ss, x, k) {
      EntryBlockIn(x, DirCount(ss));
      EntryAt(fs, ss, img1, x, k);
    }
    forall x: nat | x < |ss| ensures SourceOk(ss, x) && FileThere(fs.blocks, ss[x], StartOf(ss, x)) {
      WrittenFile(img1, ss, x);
      StartGrows(ss, x, |ss|);
      BoundsAre(ss);
      ThereStill(img1.blocks, fs.blocks, ss[x], StartOf(ss, x));
    }
    LaidJoin(fs, ss);
  }

  lemma LaidJoin(fs: Fs, ss: seq<Source>)
    requires Shape(fs) && EndOf(ss) < |fs.blocks| <= 1024 && |ss| <= MAX_DIR_ENTS
    requires forall b: nat :: IsFree(fs, b) <==> EndOf(ss) <= b < |fs.blocks|
    requires forall k: nat :: k < FILEWORDS ==> Field(fs, ROOT, k) == RecordWord(RootRecord(ss), k)
    requires forall x: nat, k: nat :: x < BLKFILES * DirCount(ss) && k < FILEWORDS ==> Field(fs, EntryFile(ss, x), k) == EntryValue(ss, x, k)
    requires forall x: nat :: x < |ss| ==> SourceOk(ss, x) && FileThere(fs.blocks, ss[x], StartOf(ss, x))
    ensures Laid(fs, ss)
  {
    hide IsFree, Field, EndOf, DirCount, EntryFile, EntryValue, SourceOk, FileThere, StartOf, RecordWord, IsBlock, RootRecord;
  }

  lemma EntryBlockIn(x: nat, n: nat)
    requires x < BLKFILES * n
    ensures x / BLKFILES < n
  {
  }

  lemma WrittenIs(img: Image, ss: seq<Source>)
    requires Written(img, ss, |ss|)
    ensures img.pos == DirStart(ss) < |img.blocks| <= 1024 && |ss| <= MAX_DIR_ENTS && DirStart(ss) == StartOf(ss, |ss|)
  {
    hide WrittenAt, StartOf;
  }

  lemma WrittenFile(img: Image, ss: seq<Source>, x: nat)
    requires Written(img, ss, |ss|) && x < |ss|
    ensures SourceOk(ss, x) && FileThere(img.blocks, ss[x], StartOf(ss, x))
  {
    assert WrittenAt(img, ss, x);
    hide StartOf, FileThere, Extent, RecordAt;
  }

  lemma Bounds(ss: seq<Source>)
    ensures FIRST <= DirStart(ss) && EndOf(ss) == DirStart(ss) + DirCount(ss) && FIRST == 3
  {
    StartGrows(ss, 0, |ss|);
    hide StartOf, DirCount;
  }

  lemma BoundsAre(ss: seq<Source>)
    ensures DirStart(ss) == StartOf(ss, |ss|)
  {
  }

  lemma RootField(fs: Fs, nblocks: Word, root: Record, k: nat)
    requires |fs.blocks| > 1 && fs.blocks[1] == SuperBlock(nblocks, root) && k < FILEWORDS
    ensures Field(fs, ROOT, k) == RecordWord(root, k)
  {
    hide RecordWord;
  }

  lemma SuperField(blocks: seq<seq<Word>>, nblocks: Word, root: Record)
    requires |blocks| > 1 && blocks[1] == SuperBlock(nblocks, root)
    ensures Peek(Fs([], blocks), 1, 0) == 0x4A05_30AE && Peek(Fs([], blocks), 1, 1) == nblocks
  {
  }

  lemma PeekSame(fs: Fs, blocks: seq<seq<Word>>, i: nat)
    requires fs.blocks == blocks
    ensures Peek(fs, 1, i) == Peek(Fs([], blocks), 1, i)
  {
  }

  lemma ClearBitsBlocks(fs: Fs, i: nat, pos: nat)
    requires Shape(fs)
    ensures ClearBits(fs, i, pos).blocks == fs.blocks
  {
    hide Mark, IsBlock;
  }

  /** The superblock has its magic number and the number of blocks, and the root is the directory "/". */
  lemma FormatSuper(nblocks: nat, ss: seq<Source>)
    requires Format(nblocks, ss).Some?
    ensures var fs := Format(nblocks, ss).value;
            && nblocks == |fs.blocks| && Peek(fs, 1, 0) == 0x4A05_30AE && Peek(fs, 1, 1) == nblocks
            && Field(fs, ROOT, TYPE) == FTYPE_DIR && NameIs(fs, ROOT, [SLASH])
  {
    hide *;
    Limits();
    var img1, img, root := FormatForm(nblocks, ss);
    var fs := Format(nblocks, ss).value;
    var (ones, blocks) := (seq<Word>(BLKWORDS, (w: nat) => 0xFFFF_FFFF), img.blocks[1 := SuperBlock(nblocks, root)]);
    ClearBitsBlocks(Fs(ones, blocks), 0, img.pos);
    SuperField(blocks, nblocks, root);
    PeekSame(fs, blocks, 0);
    PeekSame(fs, blocks, 1);
    FormatLaid(nblocks, ss);
    RootNamed(fs, ss);
  }

  lemma RootNamed(fs: Fs, ss: seq<Source>)
    requires Laid(fs, ss)
    ensures Field(fs, ROOT, TYPE) == FTYPE_DIR && NameIs(fs, ROOT, [SLASH])
  {
    hide *;
    SlashIs();
    LaidWord(fs, ss, TYPE);
    forall i: nat | i < MAXNAMELEN ensures NameByte(fs, ROOT, i) == NameChar([SLASH], i) {
      ByteWord(i);
      NameByteIs(fs, ROOT, i);
      LaidWord(fs, ss, i / 4);
      NameCharOf([SLASH], i);
    }
    NameMatches(fs, ROOT, [SLASH], [SLASH]);
  }

  lemma SlashIs()
    ensures IsString([SLASH]) && 1 < MAXNAMELEN <= 4 * SIZE && SIZE < TYPE < FILEWORDS
  {
  }

  lemma LaidWord(fs: Fs, ss: seq<Source>, k: nat)
    requires Laid(fs, ss) && k < FILEWORDS
    ensures k < SIZE ==> Field(fs, ROOT, k) == WordOfName([SLASH], k)
    ensures k == TYPE ==> Field(fs, ROOT, k) == FTYPE_DIR
  {
    hide Field, WordOfName, NBlocks, EntryValue, FileThere, SourceOk, IsFree, StartOf, RoundUp;
  }

  /* ---- slots ---- */

  lemma LaidIs(fs: Fs, ss: seq<Source>)
    requires Laid(fs, ss)
    ensures Shape(fs) && EndOf(ss) < |fs.blocks| <= 1024 && |ss| <= MAX_DIR_ENTS
    ensures forall b: nat :: InUse(fs, b) <==> FIRST <= b < EndOf(ss)
  {
    assert DataStart(fs) == FIRST;
    hide IsFree, EndOf, FileThere, Field, RecordWord, EntryValue, IsBlock, SourceOk;
  }

  lemma LaidRoot(fs: Fs, ss: seq<Source>, k: nat)
    requires Laid(fs, ss) && k < FILEWORDS
    ensures |ss| <= MAX_DIR_ENTS && Field(fs, ROOT, k) == Value(fs, Part(ROOT, k)) == RecordWord(RootRecord(ss), k)
  {
    hide IsFree, EndOf, FileThere, Field, RecordWord, EntryValue, IsBlock, SourceOk;
    FieldIs(fs, ROOT, k);
  }

  lemma LaidEntry(fs: Fs, ss: seq<Source>, x: nat, k: nat)
    requires Laid(fs, ss) && x < BLKFILES * DirCount(ss) && k < FILEWORDS
    ensures Field(fs, EntryFile(ss, x), k) == Value(fs, Part(EntryFile(ss, x), k)) == EntryValue(ss, x, k)
  {
    Bounds(ss);
    EntryFileIs(ss, x);
    FieldIs(fs, EntryFile(ss, x), k);
    hide IsFree, EndOf, FileThere, Field, RecordWord, EntryValue, IsBlock, SourceOk, EntryFile, DirCount, DirStart;
  }

  lemma EntryFileIs(ss: seq<Source>, x: nat)
    ensures var f := EntryFile(ss, x);
            f.block == DirStart(ss) + x / BLKFILES && f.base == FILEWORDS * (x % BLKFILES) && f == DirEntry(f.block, x % BLKFILES)
    ensures EntryFile(ss, x).base < BLKWORDS && EntryFile(ss, x).base % FILEWORDS == 0
    ensures x < BLKFILES * DirCount(ss) ==> EntryFile(ss, x).block < EndOf(ss)
  {
    var j := x % BLKFILES;
    assert (FILEWORDS * j) % FILEWORDS == 0;
    hide StartOf, DirCount;
  }

  lemma LaidFile(fs: Fs, ss: seq<Source>, x: nat)
    requires Laid(fs, ss) && x < |ss|
    ensures SourceOk(ss, x) && FileThere(fs.blocks, ss[x], StartOf(ss, x)) && x < BLKFILES * DirCount(ss)
    ensures |ss[x].bytes| < MAXFILESIZE && Blocks(ss[x]) <= MAXBLOCKS && StartOf(ss, x) + Extent(ss[x]) <= DirStart(ss) < 1024
  {
    DirFits(|ss|);
    StartGrows(ss, x, |ss|);
    assert StartOf(ss, x) + Extent(ss[x]) <= StartOf(ss, |ss|) by { hide StartOf, Extent; }
    assert SourceOk(ss, x) by { hide StartOf, Extent, IsFree, Field, FileThere; }
    hide IsFree, FileThere, Field, RecordWord, EntryValue, IsBlock, StartOf, RoundUp, Extent;
  }

  /** The block that a slot of entry x holds. */
  ghost function FileSlot(ss: seq<Source>, x: nat, c: Cell): nat {
    if x >= |ss| then 0
    else
      var (start, n) := (StartOf(ss, x), Blocks(ss[x]));
      if c == Part(c.f, INDIRECT) then (if n >= NDIRECT then start + n else 0)
      else if 0 <= Index(c) < n then start + Index(c)
      else 0
  }

  lemma IndirectWord(fs: Fs, s: Source, start: nat, j: nat)
    requires FileThere(fs.blocks, s, start) && Blocks(s) >= NDIRECT && j < NINDIRECT && start + Extent(s) <= 1024
    ensures Peek(fs, start + Blocks(s), j) == if NDIRECT + j < Blocks(s) then start + NDIRECT + j else 0
  {
    assert fs.blocks[start + Blocks(s)][j] == RowBlock(start, Blocks(s), NDIRECT + j);
    hide Blocks, Chunk;
  }

  lemma PartIn(fs: Fs, ss: seq<Source>, x: nat, k: nat)
    requires Laid(fs, ss) && x < BLKFILES * DirCount(ss) && DIRECT <= k <= INDIRECT
    ensures Value(fs, Part(EntryFile(ss, x), k)) == FileSlot(ss, x, Part(EntryFile(ss, x), k))
  {
    hide *;
    var c := Part(EntryFile(ss, x), k);
    SlotPart(c.f, k);
    LaidEntry(fs, ss, x, k);
    if x < |ss| { LaidFile(fs, ss, x); }
    EntrySlot(ss, x, k);
    FileSlotIs(ss, x, c);
  }

  lemma EntryIn(fs: Fs, ss: seq<Source>, x: nat, j: nat)
    requires Laid(fs, ss) && x < BLKFILES * DirCount(ss) && j < NINDIRECT
    ensures Value(fs, Entry(EntryFile(ss, x), j)) == FileSlot(ss, x, Entry(EntryFile(ss, x), j))
  {
    hide *;
    var f := EntryFile(ss, x);
    var (c, ind) := (Entry(f, j), Part(f, INDIRECT));
    SlotPart(f, INDIRECT);
    PartIn(fs, ss, x, INDIRECT);
    FileSlotIs(ss, x, c);
    FileSlotIs(ss, x, ind);
    Bounds(ss);
    EntryFileIs(ss, x);
    HomeIs(fs, c);
    if x < |ss| {
      LaidFile(fs, ss, x);
      ExtentIs(ss[x]);
      Bounded(ss, x);
      if Blocks(ss[x]) >= NDIRECT { IndirectWord(fs, ss[x], StartOf(ss, x), j); }
    }
  }

  lemma HomeIs(fs: Fs, c: Cell)
    requires c.Entry? && c.f.block != 0
    ensures Value(fs, c) == if Value(fs, Part(c.f, INDIRECT)) == 0 then 0 else Peek(fs, Value(fs, Part(c.f, INDIRECT)), c.j)
    ensures Index(c) == NDIRECT + c.j && c != Part(c.f, INDIRECT)
  {
  }

  lemma SlotPart(f: File, k: nat)
    ensures DIRECT <= INDIRECT && (k <= INDIRECT ==> k < FILEWORDS) && Index(Part(f, k)) == k - DIRECT
    ensures Part(f, k) == Part(f, INDIRECT) <==> k == INDIRECT
  {
  }

  lemma SlotIn(fs: Fs, ss: seq<Source>, x: nat, c: Cell)
    requires Laid(fs, ss) && x < BLKFILES * DirCount(ss) && c.f == EntryFile(ss, x) && IsSlot(c)
    ensures Value(fs, c) == FileSlot(ss, x, c)
  {
    assert c == if c.Part? then Part(c.f, c.k) else Entry(c.f, c.j);
    if c.Part? { PartIn(fs, ss, x, c.k); } else { EntryIn(fs, ss, x, c.j); }
    hide Laid, Value, FileSlot, EntryFile, DirCount;
  }

  lemma Bounded(ss: seq<Source>, x: nat)
    requires x < |ss|
    ensures StartOf(ss, x) >= FIRST == 3
  {
    StartGrows(ss, 0, x);
    hide Extent;
  }

  lemma FileSlotIs(ss: seq<Source>, x: nat, c: Cell)
    ensures x >= |ss| ==> FileSlot(ss, x, c) == 0
    ensures x < |ss| ==>
      FileSlot(ss, x, c) == if c == Part(c.f, INDIRECT) then (if Blocks(ss[x]) >= NDIRECT then StartOf(ss, x) + Blocks(ss[x]) else 0)
                            else if 0 <= Index(c) < Blocks(ss[x]) then StartOf(ss, x) + Index(c) else 0
  {
    hide StartOf, Blocks;
  }

  lemma ExtentIs(s: Source)
    ensures Extent(s) == Blocks(s) + if Blocks(s) >= NDIRECT then 1 else 0
  {
    hide Blocks;
  }

  /** The slots among the words of an entry. */
  lemma EntrySlot(ss: seq<Source>, x: nat, k: nat)
    requires DIRECT <= k <= INDIRECT && (x < |ss| ==> SourceOk(ss, x))
    ensures x >= |ss| ==> EntryValue(ss, x, k) == 0
    ensures x < |ss| ==>
      EntryValue(ss, x, k) == if k == INDIRECT then (if Blocks(ss[x]) >= NDIRECT then StartOf(ss, x) + Blocks(ss[x]) else 0)
                              else if k - DIRECT < Blocks(ss[x]) then StartOf(ss, x) + (k - DIRECT) else 0
  {
    hide StartOf, Blocks;
  }

  /** The block that a slot of the root holds. */
  ghost function RootSlot(ss: seq<Source>, c: Cell): nat {
    if c != Part(c.f, INDIRECT) && 0 <= Index(c) < NBlocks(RoundUp(DirBytes(ss))) then DirStart(ss) + Index(c) else 0
  }

  lemma RootSlotIn(fs: Fs, ss: seq<Source>, c: Cell)
    requires Laid(fs, ss) && c.f == ROOT && IsSlot(c)
    ensures Value(fs, c) == RootSlot(ss, c)
  {
    LaidIs(fs, ss);
    LaidRoot(fs, ss, INDIRECT);
    RootWord(ss, INDIRECT);
    if c.Part? {
      LaidRoot(fs, ss, c.k);
      RootWord(ss, c.k);
    } else {
      HomeIs(fs, c);
    }
    hide Laid, Value, StartOf, RoundUp, NBlocks, RecordWord, Field;
  }

  lemma RootWord(ss: seq<Source>, k: nat)
    requires |ss| <= MAX_DIR_ENTS && EndOf(ss) < 1024
    ensures k == INDIRECT ==> RecordWord(RootRecord(ss), k) == 0
    ensures DIRECT <= k < INDIRECT ==>
      RecordWord(RootRecord(ss), k) == if k - DIRECT < NBlocks(RoundUp(DirBytes(ss))) then DirStart(ss) + (k - DIRECT) else 0
    ensures NBlocks(RoundUp(DirBytes(ss))) < NDIRECT
    ensures k == TYPE ==> RecordWord(RootRecord(ss), k) == FTYPE_DIR
    ensures k == SIZE ==> RecordWord(RootRecord(ss), k) == RoundUp(DirBytes(ss)) <= MAXSIZE
  {
    DirFits(|ss|);
    hide StartOf, RoundUp, NBlocks, WordOfName;
  }

  /* ---- owners ---- */

  /** The file of the first k whose blocks b is one of. */
  ghost function FileOf(ss: seq<Source>, b: nat, k: nat): (x: nat)
    requires k <= |ss| && FIRST <= b < StartOf(ss, k)
    ensures x < k && StartOf(ss, x) <= b < StartOf(ss, x) + Extent(ss[x])
  {
    if b >= StartOf(ss, k - 1) then k - 1 else FileOf(ss, b, k - 1)
  }

  lemma FileUnique(ss: seq<Source>, b: nat, x: nat, y: nat)
    requires x < |ss| && y < |ss|
    requires StartOf(ss, x) <= b < StartOf(ss, x) + Extent(ss[x]) && StartOf(ss, y) <= b < StartOf(ss, y) + Extent(ss[y])
    ensures x == y
  {
    if x < y { StartGrows(ss, x, y); }
    if y < x { StartGrows(ss, y, x); }
    hide StartOf, Extent;
  }

  ghost function FileCell(ss: seq<Source>, x: nat, b: nat): Cell
    requires x < |ss| && StartOf(ss, x) <= b
  {
    var f := EntryFile(ss, x);
    if b - StartOf(ss, x) < Blocks(ss[x]) then DataCell(f, b - StartOf(ss, x)) else Part(f, INDIRECT)
  }

  /** The slot that holds block b. */
  ghost function OwnerOf(ss: seq<Source>, b: nat): Cell
    requires FIRST <= b
  {
    if b >= DirStart(ss) then DataCell(ROOT, b - DirStart(ss)) else FileCell(ss, FileOf(ss, b, |ss|), b)
  }

  ghost function OwnersOf(ss: seq<Source>): Owners { map b: nat | FIRST <= b < EndOf(ss) :: OwnerOf(ss, b) }

  lemma OwnersAre(ss: seq<Source>, b: nat)
    ensures b in OwnersOf(ss) <==> FIRST <= b < EndOf(ss)
    ensures FIRST <= b < EndOf(ss) ==> OwnersOf(ss)[b] == OwnerOf(ss, b)
  {
    hide OwnerOf, EndOf;
  }

  /** Block b belongs to file x, or to the root. */
  lemma OwnerCases(ss: seq<Source>, b: nat) returns (x: nat)
    requires FIRST <= b < EndOf(ss)
    ensures b >= DirStart(ss) ==> OwnerOf(ss, b) == DataCell(ROOT, b - DirStart(ss))
    ensures b < DirStart(ss) ==> x < |ss| && StartOf(ss, x) <= b < StartOf(ss, x) + Extent(ss[x]) && OwnerOf(ss, b) == FileCell(ss, x, b)
  {
    x := 0;
    if b < DirStart(ss) { x := FileOf(ss, b, |ss|); }
    hide FileOf, FileCell, Extent, StartOf, DirCount;
  }

  lemma OwnerIs(ss: seq<Source>, b: nat, x: nat)
    requires x < |ss| && StartOf(ss, x) <= b < StartOf(ss, x) + Extent(ss[x])
    ensures FIRST <= b < DirStart(ss) && OwnerOf(ss, b) == FileCell(ss, x, b)
  {
    StartGrows(ss, 0, x);
    StartGrows(ss, x, |ss|);
    FileUnique(ss, b, x, FileOf(ss, b, |ss|));
    hide StartOf, Extent, FileCell;
  }

  /** Slots of entry x that hold a block own it. */
  lemma SlotOwns(ss: seq<Source>, x: nat, c: Cell)
    requires c.f == EntryFile(ss, x) && IsSlot(c) && FileSlot(ss, x, c) != 0
    ensures x < |ss| && FIRST <= FileSlot(ss, x, c) < DirStart(ss) && OwnerOf(ss, FileSlot(ss, x, c)) == c
  {
    FileSlotIs(ss, x, c);
    var b := FileSlot(ss, x, c);
    ExtentIs(ss[x]);
    OwnerIs(ss, b, x);
    if c != Part(c.f, INDIRECT) { CellAt(c); }
    hide StartOf, Extent, OwnerOf, FileSlot, Blocks, EntryFile, DirStart;
  }

  lemma CellAt(c: Cell)
    requires IsSlot(c) && c != Part(c.f, INDIRECT)
    ensures 0 <= Index(c) < MAXBLOCKS && c == DataCell(c.f, Index(c)) && IsData(c)
  {
  }

  /** And every block in use before the directory is held by the slot that owns it. */
  lemma OwnedSlot(ss: seq<Source>, x: nat, b: nat)
    requires x < |ss| && StartOf(ss, x) <= b < StartOf(ss, x) + Extent(ss[x]) && Blocks(ss[x]) <= MAXBLOCKS
    ensures var c := FileCell(ss, x, b); c.f == EntryFile(ss, x) && IsSlot(c) && FileSlot(ss, x, c) == b
  {
    FileSlotIs(ss, x, FileCell(ss, x, b));
    ExtentIs(ss[x]);
    DataCells(EntryFile(ss, x), b - StartOf(ss, x));
    hide StartOf, Extent, Blocks, EntryFile, FileSlot;
  }

  /* ---- order ---- */

  /** Files are the root and the entries of its blocks. */
  lemma KnownForm(fs: Fs, ss: seq<Source>, f: File) returns (x: nat)
    requires Laid(fs, ss) && ss != [] && Known(fs, OwnersOf(ss), f)
    ensures f != ROOT ==> x < BLKFILES * DirCount(ss) && f == EntryFile(ss, x)
  {
    hide *;
    x := 0;
    if f != ROOT {
      KnownParts(fs, OwnersOf(ss), f);
      OwnersAre(ss, f.block);
      InDirectory(fs, ss, f);
      x := EntryNumber(ss, f);
    }
  }

  lemma InDirectory(fs: Fs, ss: seq<Source>, f: File)
    requires Laid(fs, ss) && FIRST <= f.block < EndOf(ss) && IsDir(fs, OwnerOf(ss, f.block).f)
    ensures f.block >= DirStart(ss)
  {
    hide *;
    var b := f.block;
    var y := OwnerCases(ss, b);
    if b < DirStart(ss) {
      LaidFile(fs, ss, y);
      OwnedSlot(ss, y, b);
      EntryRegular(fs, ss, y);
    }
  }

  lemma EntryNumber(ss: seq<Source>, f: File) returns (x: nat)
    requires DirStart(ss) <= f.block < EndOf(ss) && f.base < BLKWORDS && f.base % FILEWORDS == 0
    ensures x < BLKFILES * DirCount(ss) && f == EntryFile(ss, x)
  {
    var m := f.block - DirStart(ss);
    var j := EntryIndex(f);
    x := BLKFILES * m + j;
    EntryFileAt(ss, m, j);
    hide StartOf, EntryFile, DirStart;
  }

  lemma EntryFileAt(ss: seq<Source>, m: nat, j: nat)
    requires j < BLKFILES
    ensures EntryFile(ss, BLKFILES * m + j) == DirEntry(DirStart(ss) + m, j)
  {
    Rows(m, j);
    hide StartOf, DirStart, DirEntry;
  }

  lemma Rows(m: nat, j: nat)
    requires j < BLKFILES
    ensures (BLKFILES * m + j) / BLKFILES == m && (BLKFILES * m + j) % BLKFILES == j
  {
  }

  lemma EntryRegular(fs: Fs, ss: seq<Source>, x: nat)
    requires Laid(fs, ss) && x < BLKFILES * DirCount(ss)
    ensures !IsDir(fs, EntryFile(ss, x))
  {
    LaidEntry(fs, ss, x, TYPE);
    TypeOf(fs, EntryFile(ss, x));
    hide Laid, Value, StartOf, Field, Extent, DirCount, EntryFile, IsDir;
  }

  lemma RootDir(fs: Fs, ss: seq<Source>)
    requires Laid(fs, ss)
    ensures IsDir(fs, ROOT)
  {
    LaidIs(fs, ss);
    LaidRoot(fs, ss, TYPE);
    RootWord(ss, TYPE);
    TypeOf(fs, ROOT);
    hide Laid, Value, StartOf, Field, RecordWord, EndOf, IsDir;
  }

  lemma EntriesKnown(fs: Fs, ss: seq<Source>, x: nat)
    requires Laid(fs, ss) && ss != [] && x < BLKFILES * DirCount(ss)
    ensures Known(fs, OwnersOf(ss), EntryFile(ss, x)) && EntryFile(ss, x) != ROOT
  {
    hide *;
    var f := EntryFile(ss, x);
    EntryFileIs(ss, x);
    RowStart(ss, x);
    LaidIs(fs, ss);
    DirBlockOwned(ss, f.block);
    RootDir(fs, ss);
    KnownJoin(fs, OwnersOf(ss), f);
  }

  lemma RowStart(ss: seq<Source>, x: nat)
    ensures EntryFile(ss, x).block >= DirStart(ss) && EntryFile(ss, x) != ROOT
  {
    Bounds(ss);
    hide StartOf, DirStart;
  }

  lemma DirBlockOwned(ss: seq<Source>, b: nat)
    requires DirStart(ss) <= b < EndOf(ss) && |ss| <= MAX_DIR_ENTS
    ensures b in OwnersOf(ss) && OwnersOf(ss)[b] == DataCell(ROOT, b - DirStart(ss)) && IsData(OwnersOf(ss)[b]) && OwnersOf(ss)[b].f == ROOT
  {
    hide *;
    Bounds(ss);
    OwnersAre(ss, b);
    var _ := OwnerCases(ss, b);
    DirFits(|ss|);
    BytesIs(ss);
    RootAway();
    DataCells(ROOT, b - DirStart(ss));
  }

  lemma BytesIs(ss: seq<Source>)
    ensures DirBytes(ss) == 4 * FILEWORDS * |ss| && DirCount(ss) == NBlocks(DirBytes(ss))
    ensures ss != [] ==> |ss| > 0
  {
    hide NBlocks;
  }

  lemma RootAway()
    ensures ROOT.block == 1 && 8 < MAXBLOCKS && MAX_DIR_ENTS == 128 && 8 < NDIRECT
  {
  }

  /** The owner of a block holds it. */
  lemma OwnsIt(fs: Fs, ss: seq<Source>, b: nat)
    requires Laid(fs, ss) && ss != [] && FIRST <= b < EndOf(ss)
    ensures InUse(fs, b) && KnownSlot(fs, OwnersOf(ss), OwnersOf(ss)[b]) && Value(fs, OwnersOf(ss)[b]) == b
  {
    hide *;
    LaidIs(fs, ss);
    OwnersAre(ss, b);
    var o := OwnersOf(ss);
    var x := OwnerCases(ss, b);
    SlotOf(fs, o, o[b]);
    Bounds(ss);
    if b >= DirStart(ss) {
      var m := b - DirStart(ss);
      RootKnown(fs, o);
      DirFits(|ss|);
      BytesIs(ss);
      RootAway();
      DataCells(ROOT, m);
      SlotIsData(DataCell(ROOT, m));
      RootSlotIn(fs, ss, DataCell(ROOT, m));
      RootSlotIs(ss, DataCell(ROOT, m));
      NotIndirect(DataCell(ROOT, m));
    } else {
      LaidFile(fs, ss, x);
      OwnedSlot(ss, x, b);
      EntriesKnown(fs, ss, x);
      SlotIn(fs, ss, x, o[b]);
    }
  }

  lemma NotIndirect(c: Cell)
    ensures IsData(c) ==> c != Part(c.f, INDIRECT)
  {
  }

  lemma RootSlotIs(ss: seq<Source>, c: Cell)
    ensures RootSlot(ss, c) == if c != Part(c.f, INDIRECT) && 0 <= Index(c) < NBlocks(RoundUp(DirBytes(ss))) then DirStart(ss) + Index(c) else 0
  {
    hide StartOf, NBlocks, RoundUp;
  }

  /** A slot that holds a block owns it. */
  lemma HeldIsOwned(fs: Fs, ss: seq<Source>, c: Cell)
    requires Laid(fs, ss) && ss != [] && KnownSlot(fs, OwnersOf(ss), c) && Value(fs, c) != 0
    ensures Value(fs, c) in OwnersOf(ss) && OwnersOf(ss)[Value(fs, c)] == c
  {
    hide *;
    var o := OwnersOf(ss);
    SlotOf(fs, o, c);
    var x := KnownForm(fs, ss, c.f);
    var b: nat := Value(fs, c);
    OwnersAre(ss, b);
    Bounds(ss);
    if c.f == ROOT {
      RootSlotIn(fs, ss, c);
      RootSlotIs(ss, c);
      LaidIs(fs, ss);
      DirFits(|ss|);
      BytesIs(ss);
      CellAt(c);
      var _ := OwnerCases(ss, b);
    } else {
      SlotIn(fs, ss, x, c);
      SlotOwns(ss, x, c);
    }
  }

  lemma LaidSized(fs: Fs, ss: seq<Source>, f: File)
    requires Laid(fs, ss) && ss != [] && Known(fs, OwnersOf(ss), f)
    ensures SizedFile(fs, f)
  {
    hide *;
    var x := KnownForm(fs, ss, f);
    LaidIs(fs, ss);
    SizeOf(fs, f);
    IndirectSlot(f);
    if f == ROOT {
      LaidRoot(fs, ss, SIZE);
      RootWord(ss, SIZE);
      RootSlotIn(fs, ss, Part(ROOT, INDIRECT));
      RootSlotIs(ss, Part(ROOT, INDIRECT));
      forall n: nat | NBlocks(Size(fs, f)) <= n < MAXBLOCKS ensures Value(fs, DataCell(f, n)) == 0 {
        DataCells(f, n);
        SlotIsData(DataCell(f, n));
        RootSlotIn(fs, ss, DataCell(f, n));
        RootSlotIs(ss, DataCell(f, n));
      }
    } else {
      LaidEntry(fs, ss, x, SIZE);
      if x < |ss| { LaidFile(fs, ss, x); }
      EntrySize(ss, x);
      SlotIn(fs, ss, x, Part(f, INDIRECT));
      FileSlotIs(ss, x, Part(f, INDIRECT));
      forall n: nat | NBlocks(Size(fs, f)) <= n < MAXBLOCKS ensures Value(fs, DataCell(f, n)) == 0 {
        DataCells(f, n);
        SlotIsData(DataCell(f, n));
        SlotIn(fs, ss, x, DataCell(f, n));
        FileSlotIs(ss, x, DataCell(f, n));
        NotIndirect(DataCell(f, n));
      }
    }
    SizedJoin(fs, f);
  }

  lemma IndirectSlot(f: File)
    ensures IsSlot(Part(f, INDIRECT)) && SIZE < FILEWORDS
  {
  }

  lemma EntrySize(ss: seq<Source>, x: nat)
    requires x < |ss| ==> SourceOk(ss, x)
    ensures EntryValue(ss, x, SIZE) == (if x < |ss| then |ss[x].bytes| else 0) <= MAXSIZE
    ensures x < |ss| ==> Blocks(ss[x]) == NBlocks(|ss[x].bytes|)
    ensures NBlocks(0) == 0 < NDIRECT
  {
    hide StartOf, Extent;
  }

  lemma SizedJoin(fs: Fs, f: File)
    requires Size(fs, f) <= MAXSIZE && (NBlocks(Size(fs, f)) < NDIRECT ==> Value(fs, Part(f, INDIRECT)) == 0)
    requires forall n: nat :: NBlocks(Size(fs, f)) <= n < MAXBLOCKS ==> Value(fs, DataCell(f, n)) == 0
    ensures SizedFile(fs, f)
  {
    hide Value, NBlocks, Size;
  }

  lemma LaidGrounded(ss: seq<Source>)
    ensures Grounded(OwnersOf(ss))
  {
    hide *;
    var o := OwnersOf(ss);
    forall b: nat | b in o ensures FromRoot(o, b) {
      OwnersAre(ss, b);
      Bounds(ss);
      if b < DirStart(ss) { FileRooted(ss, b); } else { DirRooted(ss, b); }
    }
    GroundedJoin(o);
  }

  lemma DirRooted(ss: seq<Source>, b: nat)
    requires DirStart(ss) <= b < EndOf(ss)
    ensures FromRoot(OwnersOf(ss), b)
  {
    hide *;
    Bounds(ss);
    OwnersAre(ss, b);
    var _ := OwnerCases(ss, b);
    RootRow(b - DirStart(ss));
    RootedNext(OwnersOf(ss), b);
  }

  lemma FileRooted(ss: seq<Source>, b: nat)
    requires FIRST <= b < DirStart(ss) <= EndOf(ss) && b < EndOf(ss)
    ensures FromRoot(OwnersOf(ss), b)
  {
    hide *;
    OwnersAre(ss, b);
    var x := OwnerCases(ss, b);
    FileCellIs(ss, x, b);
    EntryInDir(ss, x);
    DirRooted(ss, EntryFile(ss, x).block);
    RootedNext(OwnersOf(ss), b);
  }

  lemma EntryInDir(ss: seq<Source>, x: nat)
    requires x < |ss|
    ensures DirStart(ss) <= EntryFile(ss, x).block < EndOf(ss)
  {
    hide StartOf;
  }

  lemma RootRow(m: nat)
    ensures DataCell(ROOT, m).f == ROOT
  {
  }

  lemma FileCellIs(ss: seq<Source>, x: nat, b: nat)
    requires x < |ss| && StartOf(ss, x) <= b
    ensures FileCell(ss, x, b).f == EntryFile(ss, x)
  {
    hide StartOf, Blocks, EntryFile;
  }

  lemma LaidInv(fs: Fs, ss: seq<Source>)
    requires Laid(fs, ss) && ss != []
    ensures Inv(fs, OwnersOf(ss))
  {
    hide *;
    var o := OwnersOf(ss);
    LaidIs(fs, ss);
    forall b: nat ensures b in o ==> InUse(fs, b) && KnownSlot(fs, o, o[b]) && Value(fs, o[b]) == b {
      OwnersAre(ss, b);
      if b in o { OwnsIt(fs, ss, b); }
    }
    forall b: nat ensures InUse(fs, b) ==> b in o { OwnersAre(ss, b); }
    forall c ensures KnownSlot(fs, o, c) ==> (Value(fs, c) != 0 ==> Value(fs, c) in o && o[Value(fs, c)] == c) {
      if KnownSlot(fs, o, c) && Value(fs, c) != 0 { HeldIsOwned(fs, ss, c); }
    }
    forall f ensures Known(fs, o, f) ==> SizedFile(fs, f) { if Known(fs, o, f) { LaidSized(fs, ss, f); } }
    LaidGrounded(ss);
    InvJoin(fs, o);
  }

  /* ---- names ---- */

  lemma NameCharOf(name: Name, i: nat)
    ensures ByteOf(WordOfName(name, i / 4), i % 4) == NameChar(name, i)
  {
    var k := i / 4;
    JoinSplit(NameChar(name, 4 * k), NameChar(name, 4 * k + 1), NameChar(name, 4 * k + 2), NameChar(name, 4 * k + 3));
    assert i == 4 * k + i % 4;
    hide ByteOf, Join, NameChar;
  }

  /** The name of entry x: that of file x, or none. */
  ghost function EntryName(ss: seq<Source>, x: nat): Name { if x < |ss| then ss[x].name else [] }

  lemma EntryNameByte(fs: Fs, ss: seq<Source>, x: nat, i: nat)
    requires Laid(fs, ss) && x < BLKFILES * DirCount(ss) && i < MAXNAMELEN
    ensures NameByte(fs, EntryFile(ss, x), i) == NameChar(EntryName(ss, x), i)
  {
    hide *;
    ByteWord(i);
    LaidEntry(fs, ss, x, i / 4);
    NameByteIs(fs, EntryFile(ss, x), i);
    NameCharOf(EntryName(ss, x), i);
    if x < |ss| { LaidFile(fs, ss, x); }
    EntryNameWord(ss, x, i / 4);
    NoName(ss, x, i);
    ZeroByte(i);
  }

  lemma ByteWord(i: nat)
    requires i < MAXNAMELEN
    ensures i / 4 < SIZE < FILEWORDS
  {
  }

  lemma NameByteIs(fs: Fs, g: File, i: nat)
    ensures NameByte(fs, g, i) == ByteOf(Field(fs, g, i / 4), i % 4)
  {
  }

  lemma NoName(ss: seq<Source>, x: nat, i: nat)
    ensures x >= |ss| ==> NameChar(EntryName(ss, x), i) == 0
  {
  }

  lemma EntryNameWord(ss: seq<Source>, x: nat, k: nat)
    requires k < SIZE && (x < |ss| ==> SourceOk(ss, x))
    ensures EntryValue(ss, x, k) == if x < |ss| then WordOfName(EntryName(ss, x), k) else 0
  {
    hide StartOf, WordOfName, Extent;
  }

  lemma NameMatches(fs: Fs, g: File, src: Name, name: Name)
    requires IsString(src) && IsString(name) && |src| < MAXNAMELEN
    requires forall i: nat :: i < MAXNAMELEN ==> NameByte(fs, g, i) == NameChar(src, i)
    ensures NameIs(fs, g, name) <==> name == src
  {
    hide NameByte;
    if NameIs(fs, g, name) {
      assert NameChar(src, |name|) == 0;
      assert |src| <= |name|;
      assert NameByte(fs, g, |src|) == 0;
      assert |name| <= |src|;
      assert name == src;
    }
  }

  lemma EntryNamed(fs: Fs, ss: seq<Source>, x: nat, name: Name)
    requires Laid(fs, ss) && x < BLKFILES * DirCount(ss) && IsString(name)
    ensures NameIs(fs, EntryFile(ss, x), name) <==> name == EntryName(ss, x)
  {
    hide *;
    forall i: nat | i < MAXNAMELEN ensures NameByte(fs, EntryFile(ss, x), i) == NameChar(EntryName(ss, x), i) { EntryNameByte(fs, ss, x, i); }
    SourceName(ss, x);
    NameMatches(fs, EntryFile(ss, x), EntryName(ss, x), name);
  }

  lemma SourceName(ss: seq<Source>, x: nat)
    ensures IsString(EntryName(ss, x)) && |EntryName(ss, x)| < MAXNAMELEN
    ensures x < |ss| ==> IsElem(EntryName(ss, x)) && EntryName(ss, x) == ss[x].name
    ensures x >= |ss| ==> EntryName(ss, x) == [] && !IsElem([])
  {
  }

  /** Entry j of block n of the root is entry 16 * n + j. */
  lemma RootEntry(fs: Fs, ss: seq<Source>, n: nat, j: nat, e: File) returns (x: nat)
    requires Laid(fs, ss) && ss != [] && EntryOf(fs, ROOT, n, j, e)
    ensures n < DirCount(ss) && x < BLKFILES * DirCount(ss) && e == EntryFile(ss, x)
  {
    hide *;
    RootBlocks(fs, ss, n);
    EntryBlock(fs, ROOT, n, j, e);
    x := BLKFILES * n + j;
    EntryFileAt(ss, n, j);
    RowBound(n, j, DirCount(ss));
  }

  lemma RowBound(n: nat, j: nat, count: nat)
    requires n < count && j < BLKFILES
    ensures BLKFILES * n + j < BLKFILES * count
  {
  }

  lemma RootBlocks(fs: Fs, ss: seq<Source>, n: nat)
    requires Laid(fs, ss)
    ensures BlockOf(fs, ROOT, n) == if n < NBlocks(RoundUp(DirBytes(ss))) then DirStart(ss) + n else 0
    ensures ss != [] ==> NBlocks(RoundUp(DirBytes(ss))) == DirCount(ss)
  {
    hide *;
    LaidIs(fs, ss);
    DirFits(|ss|);
    BytesIs(ss);
    BlockIs(fs, ROOT, n);
    DataCells(ROOT, n);
    RootAway();
    if n < MAXBLOCKS {
      SlotIsData(DataCell(ROOT, n));
      RootSlotIn(fs, ss, DataCell(ROOT, n));
      RootSlotIs(ss, DataCell(ROOT, n));
      NotIndirect(DataCell(ROOT, n));
    }
  }

  lemma EntryIsThere(fs: Fs, ss: seq<Source>, x: nat)
    requires Laid(fs, ss) && x < BLKFILES * DirCount(ss)
    ensures EntryOf(fs, ROOT, x / BLKFILES, x % BLKFILES, EntryFile(ss, x))
  {
    hide *;
    EntryFileIs(ss, x);
    EntryBlockIn(x, DirCount(ss));
    NotEmpty(ss);
    RootBlocks(fs, ss, x / BLKFILES);
    Bounds(ss);
    LastDigit(x);
    EntryBlock(fs, ROOT, x / BLKFILES, x % BLKFILES, EntryFile(ss, x));
  }

  lemma NotEmpty(ss: seq<Source>)
    ensures DirCount(ss) > 0 ==> ss != []
  {
    hide StartOf;
  }

  lemma LastDigit(x: nat)
    ensures x % BLKFILES < BLKFILES
  {
  }

  /* ---- exactly when the disk is in order ---- */

  /** No two files have the same name. */
  predicate Distinct(ss: seq<Source>) { forall x, y :: 0 <= x < y < |ss| ==> ss[x].name != ss[y].name }

  lemma NamedRoot(fs: Fs, ss: seq<Source>, name: Name, e: File) returns (x: nat)
    requires Laid(fs, ss) && ss != [] && IsElem(name) && Named(fs, ROOT, name, e)
    ensures x < |ss| && e == EntryFile(ss, x) && name == ss[x].name
  {
    hide *;
    var n, j := NamedAt(fs, ROOT, name, e);
    x := RootEntry(fs, ss, n, j, e);
    ElemIs(name);
    EntryNamed(fs, ss, x, name);
    SourceName(ss, x);
  }

  lemma FileNamed(fs: Fs, ss: seq<Source>, x: nat)
    requires Laid(fs, ss) && x < |ss|
    ensures IsElem(ss[x].name) && |ss[x].name| < MAXNAMELEN && Named(fs, ROOT, ss[x].name, EntryFile(ss, x)) && x < BLKFILES * DirCount(ss)
  {
    hide *;
    LaidFile(fs, ss, x);
    EntryIsThere(fs, ss, x);
    SourceName(ss, x);
    EntryNamed(fs, ss, x, ss[x].name);
    NamedIs(fs, ROOT, ss[x].name, x / BLKFILES, x % BLKFILES, EntryFile(ss, x));
  }

  lemma RootSize(fs: Fs, ss: seq<Source>)
    requires Laid(fs, ss) && ss != []
    ensures DirSize(fs, ROOT)
  {
    hide *;
    LaidIs(fs, ss);
    IndirectSlot(ROOT);
    LaidRoot(fs, ss, SIZE);
    RootWord(ss, SIZE);
    SizeOf(fs, ROOT);
    SizeParts(fs, ROOT);
    DirFits(|ss|);
    BytesIs(ss);
    Multiple(NBlocks(DirBytes(ss)));
  }

  lemma Multiple(n: nat)
    ensures BLKSIZE * n % BLKSIZE == 0
  {
  }

  lemma LaidDirs(fs: Fs, ss: seq<Source>)
    requires Laid(fs, ss) && ss != [] && Distinct(ss)
    ensures DirsOk(fs, OwnersOf(ss))
  {
    hide *;
    RootSize(fs, ss);
    forall n: nat, j: nat, e, name | EntryOf(fs, ROOT, n, j, e) && IsElem(name) && NameIs(fs, e, name) ensures Dense(fs, ROOT, n) {
      var _ := RootEntry(fs, ss, n, j, e);
      forall k: nat | k < n ensures BlockOf(fs, ROOT, k) != 0 {
        RootBlocks(fs, ss, k);
        Bounds(ss);
      }
      DenseJoin(fs, ROOT, n);
    }
    PackedJoin(fs, ROOT);
    forall n: nat, j: nat, e | EntryOf(fs, ROOT, n, j, e) && NameIs(fs, e, []) ensures !IsDir(fs, e) {
      var x := RootEntry(fs, ss, n, j, e);
      EntryRegular(fs, ss, x);
    }
    PlainNewJoin(fs, ROOT);
    forall name, e, e' | IsElem(name) && Named(fs, ROOT, name, e) && Named(fs, ROOT, name, e') ensures e == e' {
      var x := NamedRoot(fs, ss, name, e);
      var y := NamedRoot(fs, ss, name, e');
      DistinctAt(ss, x, y);
    }
    DirJoin(fs, ROOT);
    forall d | KnownDir(fs, OwnersOf(ss), d) ensures DirOk(fs, d) {
      KnownDirIs(fs, OwnersOf(ss), d);
      var x := KnownForm(fs, ss, d);
      if d != ROOT { EntryRegular(fs, ss, x); }
    }
    DirsJoin(fs, OwnersOf(ss));
  }

  lemma DistinctAt(ss: seq<Source>, x: nat, y: nat)
    requires Distinct(ss) && x < |ss| && y < |ss| && ss[x].name == ss[y].name
    ensures x == y
  {
  }

  /** Without files the root's block is marked as free. */
  lemma NoFilesDisorder(fs: Fs, o: Owners)
    requires Laid(fs, [])
    ensures !Inv(fs, o)
  {
    hide *;
    if Inv(fs, o) {
      RootBlocks(fs, [], 0);
      LaidIs(fs, []);
      DirFits(0);
      BytesIs([]);
      Bounds([]);
      RootKnown(fs, o);
      BlockOfIs(fs, o, ROOT, 0);
      assert false;
    }
  }

  /** Two files of one name are two entries of that name. */
  lemma SameNameDisorder(fs: Fs, ss: seq<Source>, x: nat, y: nat, o: Owners)
    requires Laid(fs, ss) && x < y < |ss| && ss[x].name == ss[y].name && Inv(fs, o)
    ensures !DirsOk(fs, o)
  {
    hide *;
    if DirsOk(fs, o) {
      RootKnown(fs, o);
      RootDir(fs, ss);
      KnownDirIs(fs, o, ROOT);
      DirOkIs(fs, o, ROOT);
      FileNamed(fs, ss, x);
      FileNamed(fs, ss, y);
      UniqueIs(fs, ROOT, ss[x].name, EntryFile(ss, x), EntryFile(ss, y));
      EntriesDiffer(ss, x, y);
      assert false;
    }
  }

  lemma EntriesDiffer(ss: seq<Source>, x: nat, y: nat)
    requires x != y
    ensures EntryFile(ss, x) != EntryFile(ss, y)
  {
    assert x == BLKFILES * (x / BLKFILES) + x % BLKFILES && y == BLKFILES * (y / BLKFILES) + y % BLKFILES;
    hide DirStart, StartOf;
  }

  /* ---- when fsformat succeeds ---- */

  lemma WriteFileSome(img: Image, s: Source)
    requires |s.bytes| < MAXFILESIZE && |img.records| < MAX_DIR_ENTS && img.pos + Extent(s) < |img.blocks|
    ensures WriteFile(img, s).Some?
  {
    hide NBlocks, Chunk, IndirectBlock, PutRow;
  }

  lemma {:induction false} WriteFilesSome(nblocks: nat, ss: seq<Source>, k: nat)
    requires FIRST < nblocks <= 1024 && k <= |ss| <= MAX_DIR_ENTS && StartOf(ss, |ss|) < nblocks
    requires forall x :: 0 <= x < |ss| ==> |ss[x].bytes| < MAXFILESIZE
    ensures WriteFiles(Blank(nblocks), ss, k).Some?
  {
    hide WriteFile, FileThere, RecordAt, Extent, WrittenAt, Blank;
    if k > 0 {
      WriteFilesSome(nblocks, ss, k - 1);
      AllWritten(nblocks, ss, k - 1);
      StartGrows(ss, k - 1, |ss|);
      WriteFileSome(WriteFiles(Blank(nblocks), ss, k - 1).value, ss[k - 1]);
    }
  }

  lemma FinishDirSome(img: Image, ss: seq<Source>)
    requires Written(img, ss, |ss|) && EndOf(ss) < |img.blocks|
    ensures FinishDir(img).Some?
  {
    DirFits(|ss|);
    hide NBlocks, RoundUp, RootBlock, IndirectBlock, WrittenAt, StartOf, PutRow;
  }

  lemma FormatSome(nblocks: nat, ss: seq<Source>)
    requires FIRST < nblocks <= 1024 && WriteFiles(Blank(nblocks), ss, |ss|).Some?
    requires FinishDir(WriteFiles(Blank(nblocks), ss, |ss|).value).Some?
    ensures Format(nblocks, ss).Some?
  {
    hide WriteFiles, FinishDir, SuperBlock, ClearBits, Blank;
  }

  lemma Limits()
    ensures FIRST == 3 && MAX_DIR_ENTS == 128
  {
  }

  lemma EndIs(ss: seq<Source>)
    ensures StartOf(ss, |ss|) <= EndOf(ss)
  {
    hide StartOf, NBlocks;
  }

  lemma LaidFits(fs: Fs, ss: seq<Source>)
    requires Laid(fs, ss)
    ensures EndOf(ss) < |fs.blocks| && |ss| <= MAX_DIR_ENTS && forall x :: 0 <= x < |ss| ==> |ss[x].bytes| < MAXFILESIZE
  {
    forall x | 0 <= x < |ss| ensures |ss[x].bytes| < MAXFILESIZE { assert SourceOk(ss, x); }
    hide Field, RecordWord, EntryValue, EndOf, FileThere, StartOf, Extent;
  }

  /** fsformat succeeds if and only if it is given 4 to 1024 blocks and at most 128 files, each smaller than the largest
      size, and the three blocks at the front, the blocks of the files with their indirect blocks, and the
      directory leave at least one block over. */
  lemma FormatSucceeds(nblocks: nat, ss: seq<Source>)
    ensures Format(nblocks, ss).Some? <==>
      && 4 <= nblocks <= 1024 && |ss| <= 128 && (forall x :: 0 <= x < |ss| ==> |ss[x].bytes| < MAXFILESIZE)
      && EndOf(ss) < nblocks
  {
    hide *;
    Limits();
    if Format(nblocks, ss).Some? {
      FormatLaid(nblocks, ss);
      LaidFits(Format(nblocks, ss).value, ss);
      var _, _, _ := FormatForm(nblocks, ss);
    } else if 4 <= nblocks <= 1024 && |ss| <= 128 && EndOf(ss) < nblocks && forall x :: 0 <= x < |ss| ==> |ss[x].bytes| < MAXFILESIZE {
      EndIs(ss);
      WriteFilesSome(nblocks, ss, |ss|);
      AllWritten(nblocks, ss, |ss|);
      var img := WriteFiles(Blank(nblocks), ss, |ss|).value;
      FinishDirSome(img, ss);
      FormatSome(nblocks, ss);
    }
  }

  /** The disk that fsformat builds is in order exactly if it was given at least one file, and no two of the
      same name. */
  lemma FormatExact(nblocks: nat, ss: seq<Source>)
    requires Format(nblocks, ss).Some?
    ensures Good(Format(nblocks, ss).value) <==> ss != [] && Distinct(ss)
  {
    hide *;
    var fs := Format(nblocks, ss).value;
    FormatLaid(nblocks, ss);
    if ss != [] && Distinct(ss) {
      LaidInv(fs, ss);
      LaidDirs(fs, ss);
      GoodIs(fs, OwnersOf(ss));
    }
    if Good(fs) {
      var o := GoodOwners(fs);
      if ss == [] { NoFilesDisorder(fs, o); }
      if !Distinct(ss) {
        var x, y := SameNames(ss);
        SameNameDisorder(fs, ss, x, y, o);
      }
    }
  }

  lemma SameNames(ss: seq<Source>) returns (x: nat, y: nat)
    requires !Distinct(ss)
    ensures x < y < |ss| && ss[x].name == ss[y].name
  {
    x, y :| x < y < |ss| && ss[x].name == ss[y].name;
  }

  /* ---- the files of a formatted disk ---- */

  /** Byte p of file x. */
  lemma ByteThere(fs: Fs, ss: seq<Source>, x: nat, p: nat)
    requires Laid(fs, ss) && x < |ss| && p < |ss[x].bytes|
    ensures Shape(fs) && ByteAt(fs, EntryFile(ss, x), p) == ss[x].bytes[p]
  {
    hide *;
    LaidIs(fs, ss);
    LaidFile(fs, ss, x);
    var (e, m, s) := (EntryFile(ss, x), BlockNo(p), ss[x]);
    PosIn(s, p);
    BlockIs(fs, e, m);
    DataCells(e, m);
    SlotIsData(DataCell(e, m));
    NotIndirect(DataCell(e, m));
    SlotIn(fs, ss, x, DataCell(e, m));
    FileSlotIs(ss, x, DataCell(e, m));
    Bounded(ss, x);
    ExtentIs(s);
    ChunkThere(fs.blocks, s, StartOf(ss, x), m);
    ChunkByte(s.bytes, p);
    ByteForm(fs, e, p);
  }

  lemma ByteForm(fs: Fs, e: File, p: nat)
    requires Shape(fs) && 0 != BlockOf(fs, e, BlockNo(p)) < |fs.blocks|
    ensures BlockOffset(p) < BLKSIZE && IsBlock(fs.blocks[BlockOf(fs, e, BlockNo(p))])
    ensures ByteAt(fs, e, p) == GetByte(fs.blocks[BlockOf(fs, e, BlockNo(p))], BlockOffset(p))
  {
    hide BlockOf, GetByte;
  }

  lemma PosIn(s: Source, p: nat)
    requires p < |s.bytes|
    ensures BlockNo(p) < Blocks(s)
  {
  }

  lemma ChunkThere(blocks: seq<seq<Word>>, s: Source, start: nat, m: nat)
    requires FileThere(blocks, s, start) && m < Blocks(s) && start + Blocks(s) <= start + Extent(s)
    ensures start + m < |blocks| && blocks[start + m] == Chunk(s.bytes, m)
  {
    hide Blocks, Chunk;
  }

  lemma ChunkByte(bytes: seq<Byte>, p: nat)
    requires p < |bytes|
    ensures BlockOffset(p) < BLKSIZE && GetByte(Chunk(bytes, BlockNo(p)), BlockOffset(p)) == bytes[p]
  {
    var (m, i) := (BlockNo(p), BlockOffset(p));
    assert p == BLKSIZE * m + i;
    var (lo, hi) := (BLKSIZE * m, BLKSIZE * m + BLKSIZE);
    var row := if hi <= |bytes| then bytes[lo..hi] else bytes[lo..];
    PutBytesGet(ZeroBlock(), 0, row, i);
    hide GetByte, PutBytes, ZeroBlock;
  }

  /** On a formatted disk in order every file opens under its name, and reads as the bytes it was built
      from. */
  lemma FormatReads(nblocks: nat, ss: seq<Source>, x: nat)
    requires Format(nblocks, ss).Some? && ss != [] && Distinct(ss) && x < |ss|
    ensures var (fs, e) := (Format(nblocks, ss).value, EntryFile(ss, x));
            && FileOpen(fs, ss[x].name) == Found(fs, 0, e)
            && At(fs, e) && FileRead(fs, e, |ss[x].bytes|, 0) == ReadResult(fs, |ss[x].bytes|, ss[x].bytes)
  {
    hide *;
    var (fs, e, o, name, bytes) := (Format(nblocks, ss).value, EntryFile(ss, x), OwnersOf(ss), ss[x].name, ss[x].bytes);
    FormatLaid(nblocks, ss);
    LaidInv(fs, ss);
    LaidDirs(fs, ss);
    FileNamed(fs, ss, x);
    RootDir(fs, ss);
    NameAlone(name);
    LeadsNamed(fs, name, e);
    OpenExact(fs, o, name, e);
    EntriesKnown(fs, ss, x);
    EntryRegular(fs, ss, x);
    RegularIs(fs, o, e);
    var o' := ReadReturnsBytes(fs, o, e, |bytes|, 0);
    IndirectSlot(e);
    LaidFile(fs, ss, x);
    LaidEntry(fs, ss, x, SIZE);
    EntrySize(ss, x);
    SizeOf(fs, e);
    ReadLengthIs(fs, e, |bytes|, 0);
    NoHolesIn(fs, ss, x);
    var r := FileRead(fs, e, |bytes|, 0);
    forall i | 0 <= i < |bytes| ensures r.bytes[i] == bytes[i] { ByteThere(fs, ss, x, i); }
    assert r.bytes == bytes;
  }

  lemma NoHolesIn(fs: Fs, ss: seq<Source>, x: nat)
    requires Laid(fs, ss) && x < |ss|
    ensures NoHoles(fs, EntryFile(ss, x), 0, |ss[x].bytes|)
  {
    hide *;
    LaidFile(fs, ss, x);
    var e := EntryFile(ss, x);
    forall p: nat | p < |ss[x].bytes| ensures BlockOf(fs, e, BlockNo(p)) != 0 {
      PosIn(ss[x], p);
      var m := BlockNo(p);
      BlockIs(fs, e, m);
      DataCells(e, m);
      SlotIsData(DataCell(e, m));
      NotIndirect(DataCell(e, m));
      SlotIn(fs, ss, x, DataCell(e, m));
      FileSlotIs(ss, x, DataCell(e, m));
      Bounded(ss, x);
    }
    NoHolesJoin(fs, e, |ss[x].bytes|);
  }

  lemma NoHolesJoin(fs: Fs, e: File, end: nat)
    requires forall p: nat :: p < end ==> BlockOf(fs, e, BlockNo(p)) != 0
    ensures NoHoles(fs, e, 0, end)
  {
    hide BlockOf, BlockNo;
  }

  lemma NameAlone(name: Name)
    requires IsElem(name)
    ensures Elems(name) == [name] && IsString(name)
  {
    SlashFree(name);
    assert name[..|name|] == name && name[|name|..] == [];
    assert SkipSlash(name) == name;
    assert Elems([]) == [];
    assert Elems(name) == [name[..|name|]] + Elems(name[|name|..]);
  }

  lemma LeadsNamed(fs: Fs, name: Name, e: File)
    requires IsDir(fs, ROOT) && Named(fs, ROOT, name, e)
    ensures Leads(fs, ROOT, [name], e)
  {
    assert [name][1..] == [];
    assert Leads(fs, e, [name][1..], e);
    hide IsDir, Named;
  }

  /* ---- runs ---- */

  /** The server with no file open. */
  function Idle(fs: Fs): Server { Server(fs, map[]) }

  /** What was in order on the disk is so for the server. */
  lemma FormatServes(nblocks: nat, ss: seq<Source>)
    requires Format(nblocks, ss).Some? && ss != [] && Distinct(ss)
    ensures InOrder(Idle(Format(nblocks, ss).value))
  {
    FormatExact(nblocks, ss);
    InOrderIs(Idle(Format(nblocks, ss).value));
    hide Good, Format, Distinct, InOrder, HasPath;
  }

  /** From a formatted disk every guarded run stays in order, and every file stays under its name. */
  lemma FormatRuns(nblocks: nat, ss: seq<Source>, rs: seq<Request>, x: nat)
    requires Format(nblocks, ss).Some? && ss != [] && Distinct(ss) && x < |ss|
    requires Guarded(Idle(Format(nblocks, ss).value), rs)
    ensures var s := Run(Idle(Format(nblocks, ss).value), rs);
            InOrder(s) && FileOpen(s.fs, ss[x].name) == Found(s.fs, 0, EntryFile(ss, x))
  {
    FormatServes(nblocks, ss);
    FormatReads(nblocks, ss, x);
    NameAlone(ss[x].name);
    hide Format, Distinct, InOrder, Run, Guarded, FileOpen, FileRead, EntryFile, IsString, IsElem;
    RunKeeps(Idle(Format(nblocks, ss).value), rs, ss[x].name, EntryFile(ss, x));
  }
}
