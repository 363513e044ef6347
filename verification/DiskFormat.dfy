/** fsformat of lab5/fs/fsformat.c: the disk image it builds from a list of host files. */
module DiskFormat {
  import opened Wrappers
  import opened Disk
  import opened FileSystem
  import opened Paths
  import opened Directories

  const MAX_DIR_ENTS: nat := 128
  const FS_MAGIC: Word := 0x4A05_30AE
  const FTYPE_REG: Word := 0
  const FIRST: nat := 3               // after the boot block, the superblock and the one bitmap block

  type FileName = n: Name | IsElem(n) && |n| < MAXNAMELEN witness [97]

  /** A host file: the last component of its name, and its bytes. */
  datatype Source = Source(name: FileName, bytes: seq<Byte>)

  /** A struct File: n blocks in a row from start on, and the indirect block or 0. */
  datatype Record = Record(name: Name, size: Word, kind: Word, start: nat, n: nat, ind: Word)

  /** The image under construction: diskpos in blocks, and the entries of the root directory. */
  datatype Image = Image(blocks: seq<seq<Word>>, pos: nat, records: seq<Record>)

  predicate Whole(img: Image) { forall b :: 0 <= b < |img.blocks| ==> IsBlock(img.blocks[b]) }

  /* ---- a struct File as words ---- */

  function NameChar(name: Name, i: nat): Byte { if i < |name| then name[i] else 0 }

  function WordOfName(name: Name, k: nat): Word {
    Join(NameChar(name, 4 * k), NameChar(name, 4 * k + 1), NameChar(name, 4 * k + 2), NameChar(name, 4 * k + 3))
  }

  /** Block i of n blocks in a row. */
  function RowBlock(start: nat, n: nat, i: nat): Word { if i < n then (start + i) % 0x1_0000_0000 else 0 }

  function RecordWord(r: Record, k: nat): Word {
    if k < SIZE then WordOfName(r.name, k)
    else if k == SIZE then r.size
    else if k == TYPE then r.kind
    else if k < INDIRECT then RowBlock(r.start, r.n, k - DIRECT)
    else if k == INDIRECT then r.ind
    else 0
  }

  /* ---- the steps of fsformat; a panic is None ---- */

  /** Block m of a file of these bytes. */
  function Chunk(bytes: seq<Byte>, m: nat): (blk: seq<Word>)
    ensures IsBlock(blk)
  {
    var (lo, hi) := (BLKSIZE * m, BLKSIZE * m + BLKSIZE);
    if lo > |bytes| then ZeroBlock() else PutBytes(ZeroBlock(), 0, if hi <= |bytes| then bytes[lo..hi] else bytes[lo..])
  }

  function IndirectBlock(start: nat, n: nat): (blk: seq<Word>)
    ensures IsBlock(blk)
  {
    seq<Word>(BLKWORDS, (j: nat) => RowBlock(start, n, NDIRECT + j))
  }

  function PutRow(blocks: seq<seq<Word>>, start: nat, row: seq<seq<Word>>): (blocks': seq<seq<Word>>)
    requires start + |row| <= |blocks|
    ensures |blocks'| == |blocks|
    ensures forall b :: 0 <= b < |blocks| ==> blocks'[b] == if start <= b < start + |row| then row[b - start] else blocks[b]
  {
    blocks[..start] + row + blocks[start + |row|..]
  }

  /** finishfile: size and block numbers, and an indirect block from NDIRECT blocks on. */
  function FinishFile(img: Image, name: Name, kind: Word, start: nat, size: Word): Option<(Image, Record)> {
    var n := NBlocks(size);
    if n < NDIRECT then Some((img, Record(name, size, kind, start, n, 0)))
    else if img.pos + 1 >= |img.blocks| then None
    else Some((img.(blocks := img.blocks[img.pos := IndirectBlock(start, n)], pos := img.pos + 1),
               Record(name, size, kind, start, n, img.pos % 0x1_0000_0000)))
  }

  /** writefile. */
  function WriteFile(img: Image, s: Source): Option<Image> {
    if |s.bytes| >= MAXFILESIZE || |img.records| >= MAX_DIR_ENTS then None
    else
      var (start, n) := (img.pos, NBlocks(|s.bytes|));
      if start + n >= |img.blocks| then None
      else
        var row := seq(n, (m: nat) => Chunk(s.bytes, m));
        match FinishFile(img.(blocks := PutRow(img.blocks, start, row), pos := start + n), s.name, FTYPE_REG, start, |s.bytes|)
        case None => None
        case Some((img', r)) => Some(img'.(records := img.records + [r]))
  }

  /** The first k files are written. */
  function WriteFiles(img: Image, ss: seq<Source>, k: nat): Option<Image>
    requires k <= |ss|
  {
    if k == 0 then Some(img)
    else
      match WriteFiles(img, ss, k - 1)
      case None => None
      case Some(img') => WriteFile(img', ss[k - 1])
  }

  function EntryWord(records: seq<Record>, x: nat, k: nat): Word { if x < |records| then RecordWord(records[x], k) else 0 }

  /** Block m of the root directory. */
  function RootBlock(records: seq<Record>, m: nat): (blk: seq<Word>)
    ensures IsBlock(blk)
  {
    seq<Word>(BLKWORDS, (w: nat) => EntryWord(records, BLKFILES * m + w / FILEWORDS, w % FILEWORDS))
  }

  /** ROUNDUP of an int to whole blocks: the remainder of -1 is negative in C, and 0 becomes a block. */
  function RoundUp(size: nat): nat { if size == 0 then BLKSIZE else NBlocks(size) * BLKSIZE }

  /** finishdir: the image and the root's struct File; a directory of at most 128 entries needs no indirect
      block. */
  function FinishDir(img: Image): Option<(Image, Record)> {
    var size := 4 * FILEWORDS * |img.records|;
    var n := NBlocks(size);
    if img.pos + n >= |img.blocks| then None
    else
      var row := seq(n, (m: nat) => RootBlock(img.records, m));
      FinishFile(img.(blocks := PutRow(img.blocks, img.pos, row), pos := img.pos + n), [SLASH], FTYPE_DIR, img.pos,
                 RoundUp(size) % 0x1_0000_0000)
  }

  function SuperWord(nblocks: Word, root: Record, w: nat): Word {
    if w == 0 then FS_MAGIC
    else if w == 1 then nblocks
    else if w < ROOT.base + FILEWORDS then RecordWord(root, w - ROOT.base)
    else 0
  }

  function SuperBlock(nblocks: Word, root: Record): (blk: seq<Word>)
    ensures IsBlock(blk)
  {
    seq<Word>(BLKWORDS, (w: nat) => SuperWord(nblocks, root, w))
  }

  /** finishdisk: blocks i to pos - 1 are marked as used. */
  function ClearBits(fs: Fs, i: nat, pos: nat): (fs': Fs)
    requires Shape(fs)
    ensures Shape(fs') && fs'.blocks == fs.blocks
    decreases pos - i
  {
    if i >= pos then fs else ClearBits(Mark(fs, i, false), i + 1, pos)
  }

  /** opendisk. */
  function Blank(nblocks: nat): (img: Image)
    ensures Whole(img) && |img.blocks| == nblocks
  {
    Image(seq(nblocks, (b: nat) => ZeroBlock()), FIRST, [])
  }

  /** fsformat with a disk of nblocks blocks: the image as the file server finds it, or None where fsformat
      gives up. */
  function Format(nblocks: nat, ss: seq<Source>): (r: Option<Fs>)
    ensures r.Some? ==> Shape(r.value) && |r.value.blocks| == nblocks
  {
    if nblocks <= FIRST || nblocks > 1024 then None
    else
      match WriteFiles(Blank(nblocks), ss, |ss|)
      case None => None
      case Some(img1) =>
        match FinishDir(img1)
        case None => None
        case Some((img, root)) =>
          FormatWhole(nblocks, ss, img1, img, root);
          var blocks := img.blocks[1 := SuperBlock(nblocks, root)];
          Some(ClearBits(Fs(seq<Word>(BLKWORDS, (w: nat) => 0xFFFF_FFFF), blocks), 0, img.pos))
  }

  lemma FormatWhole(nblocks: nat, ss: seq<Source>, img1: Image, img: Image, root: Record)
    requires WriteFiles(Blank(nblocks), ss, |ss|) == Some(img1) && FinishDir(img1) == Some((img, root))
    ensures |img.blocks| == nblocks && Whole(img)
  {
    FilesWhole(Blank(nblocks), ss, |ss|);
    DirWhole(img1);
    hide WriteFiles, FinishDir;
  }

  lemma {:induction false} FilesWhole(img: Image, ss: seq<Source>, k: nat)
    requires k <= |ss| && Whole(img)
    ensures var r := WriteFiles(img, ss, k); r.Some? ==> Whole(r.value) && |r.value.blocks| == |img.blocks|
  {
    if k > 0 {
      FilesWhole(img, ss, k - 1);
      var r := WriteFiles(img, ss, k - 1);
      if r.Some? { FileWhole(r.value, ss[k - 1]); }
    }
    hide WriteFile, Whole;
  }

  lemma FileWhole(img: Image, s: Source)
    requires Whole(img)
    ensures var r := WriteFile(img, s); r.Some? ==> Whole(r.value) && |r.value.blocks| == |img.blocks|
  {
    hide NBlocks, Chunk, IndirectBlock;
  }

  lemma DirWhole(img: Image)
    requires Whole(img)
    ensures var r := FinishDir(img); r.Some? ==> Whole(r.value.0) && |r.value.0.blocks| == |img.blocks|
  {
    hide NBlocks, RootBlock, IndirectBlock, RoundUp;
  }
}
