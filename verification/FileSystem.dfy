/** The block maps of the file server as values: what each routine of lab5/fs/fs.c does to the free
    bitmap and to the blocks (constants from lab5/inc/fs.h). */
module FileSystem {
  import opened Words
  import opened Disk

  const NDIRECT: nat := 10
  const NINDIRECT: nat := 1024
  const MAXBLOCKS: Positive := 1034   // NDIRECT + NINDIRECT
  const MAXFILESIZE: nat := 4235264   // MAXBLOCKS * BLKSIZE
  const BLKBITSIZE: nat := 32768
  const FTYPE_DIR := 1

  type Failure = e: int | e < 0 witness -1

  // Error returns (lab5/inc/error.h), with their minus sign.
  const E_INVAL: Failure := -3
  const E_NO_DISK: Failure := -9
  const E_NOT_FOUND: Failure := -11
  const PANIC: Failure := -1000       // no error return: diskaddr or an assert panics

  const MAXSIZE: nat := 0x7FFF_F000   // above this, rounding an off_t up to blocks overflows

  /** A size of a file that is in order. */
  predicate Fits(n: int) { 0 <= n <= MAXSIZE }

  /** The address of a struct File: its block and its first word there. */
  datatype File = File(block: nat, base: nat)

  const FILEWORDS: nat := 64          // sizeof(struct File) / 4
  const BLKFILES: nat := 16
  const ROOT := File(1, 2)            // &super->s_root

  // Word offsets in a struct File; f_name is words 0 to 31.
  const SIZE: nat := 32
  const TYPE: nat := 33
  const DIRECT: nat := 34
  const INDIRECT: nat := 44

  /** bitmap is the free-block bitmap; blocks[b] is the cached view of disk block b; their number is
      super->s_nblocks. */
  datatype Fs = Fs(bitmap: seq<Word>, blocks: seq<seq<Word>>)

  predicate Shape(fs: Fs) {
    && 2 <= |fs.blocks| < 0x1_0000_0000 && |fs.blocks| <= 32 * |fs.bitmap|
    && (forall b :: 0 <= b < |fs.blocks| ==> IsBlock(fs.blocks[b]))
  }

  /** A struct File lies inside a block: the C pointer to it is valid. */
  predicate At(fs: Fs, f: File) { Shape(fs) && f.block < |fs.blocks| && f.base + FILEWORDS <= BLKWORDS }

  function Peek(fs: Fs, b: nat, i: nat): Word {
    if b < |fs.blocks| && i < |fs.blocks[b]| then fs.blocks[b][i] else 0
  }

  function Field(fs: Fs, f: File, i: nat): Word { Peek(fs, f.block, f.base + i) }

  function WithBlock(fs: Fs, b: nat, blk: seq<Word>): (fs': Fs)
    requires Shape(fs) && b < |fs.blocks| && IsBlock(blk)
    ensures Shape(fs') && |fs'.blocks| == |fs.blocks|
  {
    fs.(blocks := fs.blocks[b := blk])
  }

  function SetWord(fs: Fs, b: nat, i: nat, w: Word): (fs': Fs)
    requires Shape(fs) && b < |fs.blocks| && i < BLKWORDS
    ensures Shape(fs') && |fs'.blocks| == |fs.blocks|
  {
    WithBlock(fs, b, fs.blocks[b][i := w])
  }

  /* ---- free block bitmap ---- */

  predicate IsFree(fs: Fs, b: nat) {
    b < |fs.blocks| && b / 32 < |fs.bitmap| && Bit(fs.bitmap[b / 32], b % 32)
  }

  /** Sets or clears a bit of the bitmap (a write past its end is not modelled). */
  function Mark(fs: Fs, b: nat, free: bool): (fs': Fs)
    requires Shape(fs)
    ensures Shape(fs') && fs'.blocks == fs.blocks
  {
    if b >= |fs.blocks| then fs
    else fs.(bitmap := fs.bitmap[b / 32 := FlipBit(fs.bitmap[b / 32], b % 32, free)])
  }

  lemma MarkFree(fs: Fs, b: nat, free: bool, x: nat)
    requires Shape(fs) && b < |fs.blocks|
    ensures IsFree(Mark(fs, b, free), x) == if x == b then free else IsFree(fs, x)
  {
    if x < |fs.blocks| {
      WithBitGet(fs.bitmap[b / 32], b % 32, free, x % 32);
      if x / 32 == b / 32 && x % 32 == b % 32 { assert x == b; }
    }
  }

  /** The first block after the boot block, the superblock and the bitmap. */
  function DataStart(fs: Fs): nat { 2 + (|fs.blocks| + BLKBITSIZE - 1) / BLKBITSIZE }

  predicate InUse(fs: Fs, b: nat) { DataStart(fs) <= b < |fs.blocks| && !IsFree(fs, b) }

  /** The first free block from b on, or the number of blocks. */
  function FindFree(fs: Fs, b: nat): (r: nat)
    requires Shape(fs)
    ensures r >= b && (r < |fs.blocks| ==> IsFree(fs, r)) && (b <= |fs.blocks| ==> r <= |fs.blocks|)
    ensures forall x :: b <= x < r ==> !IsFree(fs, x)
    decreases |fs.blocks| - b
  {
    if b >= |fs.blocks| || IsFree(fs, b) then b else FindFree(fs, b + 1)
  }

  /** alloc_block: the block, or E_NO_DISK exactly when no data block is free. */
  function AllocBlock(fs: Fs): (r: (Fs, int))
    requires Shape(fs)
    ensures Shape(r.0) && r.0.blocks == fs.blocks
    ensures r.1 >= 0 ==> DataStart(fs) <= r.1 < |fs.blocks| && IsFree(fs, r.1) && r.0 == Mark(fs, r.1, false)
    ensures r.1 < 0 ==> r == (fs, E_NO_DISK) && forall x :: DataStart(fs) <= x < |fs.blocks| ==> !IsFree(fs, x)
  {
    var b: int := FindFree(fs, DataStart(fs));
    if b >= |fs.blocks| then (fs, E_NO_DISK) else (Mark(fs, b, false), b)
  }

  /* ---- block maps ---- */

  /** Where file_block_walk points: a return code, then block and word of the slot. */
  datatype Walked = Walked(rc: int, block: nat, word: nat)

  function FileBlockWalk(fs: Fs, f: File, n: nat, alloc: bool): (r: (Fs, Walked))
    requires At(fs, f)
    ensures Shape(r.0) && |r.0.blocks| == |fs.blocks|
    ensures r.1.rc == 0 ==> r.1.block < |fs.blocks| && r.1.word < BLKWORDS
  {
    if n >= MAXBLOCKS then (fs, Walked(E_INVAL, 0, 0))
    else if n < NDIRECT then (fs, Walked(0, f.block, f.base + DIRECT + n))
    else
      var ind := Field(fs, f, INDIRECT);
      if ind >= |fs.blocks| then (fs, Walked(PANIC, 0, 0))
      else if ind != 0 then (fs, Walked(0, ind, n - NDIRECT))
      else if !alloc then (fs, Walked(E_NOT_FOUND, 0, 0))
      else
        var (fs1, r) := AllocBlock(fs);
        if r < 0 then (fs1, Walked(E_NO_DISK, 0, 0))
        else (WithBlock(SetWord(fs1, f.block, f.base + INDIRECT, r), r, ZeroBlock()), Walked(0, r, n - NDIRECT))
  }

  /** file_get_block: an error, or the disk block that holds block n of f. */
  function FileGetBlock(fs: Fs, f: File, n: nat): (r: (Fs, int))
    requires At(fs, f)
    ensures Shape(r.0) && |r.0.blocks| == |fs.blocks| && r.1 < |fs.blocks|
  {
    var (fs1, w) := FileBlockWalk(fs, f, n, true);
    if w.rc != 0 then (fs1, w.rc)
    else
      var b := Peek(fs1, w.block, w.word);
      if b >= |fs.blocks| then (fs1, PANIC)
      else if b != 0 then (fs1, b)
      else
        var (fs2, r) := AllocBlock(fs1);
        if r < 0 then (fs2, E_NO_DISK)
        else (WithBlock(SetWord(fs2, w.block, w.word, r), r, ZeroBlock()), r)
  }

  function FileFreeBlock(fs: Fs, f: File, n: nat): (r: (Fs, int))
    requires At(fs, f)
    ensures Shape(r.0) && |r.0.blocks| == |fs.blocks|
  {
    var (fs1, w) := FileBlockWalk(fs, f, n, false);
    if w.rc != 0 then (fs1, w.rc)
    else
      var b := Peek(fs1, w.block, w.word);
      if b == 0 then (fs1, 0) else (SetWord(Mark(fs1, b, true), w.block, w.word, 0), 0)
  }

  /** Blocks needed for a size in bytes. */
  function NBlocks(size: nat): nat { (size + BLKSIZE - 1) / BLKSIZE }

  /** The number that file_truncate_blocks computes for an off_t, as a uint32_t: the sum wraps around, the
      quotient is cut off toward zero. */
  function BlockCount(size: Long): Word {
    var x: int := Wrap32(size + BLKSIZE - 1);
    (if x >= 0 then x / BLKSIZE else -(-x / BLKSIZE)) % 0x1_0000_0000
  }

  /** f_size is an off_t. */
  function SignedSize(fs: Fs, f: File): Long { Wrap32(Field(fs, f, SIZE)) }

  /** Frees blocks bno to old - 1, ignoring errors. */
  function FreeBlocks(fs: Fs, f: File, bno: nat, oldBlocks: nat): (fs': Fs)
    requires At(fs, f)
    ensures Shape(fs') && |fs'.blocks| == |fs.blocks|
    decreases oldBlocks - bno
  {
    if bno >= oldBlocks then fs else FreeBlocks(FileFreeBlock(fs, f, bno).0, f, bno + 1, oldBlocks)
  }

  function FileTruncateBlocks(fs: Fs, f: File, newSize: Long): (fs': Fs)
    requires At(fs, f)
    ensures Shape(fs') && |fs'.blocks| == |fs.blocks|
  {
    var fs1 := FreeBlocks(fs, f, BlockCount(newSize), BlockCount(SignedSize(fs, f)));
    var ind := Field(fs1, f, INDIRECT);
    if BlockCount(newSize) <= NDIRECT && ind != 0 then SetWord(Mark(fs1, ind, true), f.block, f.base + INDIRECT, 0)
    else fs1
  }

  function FileSetSize(fs: Fs, f: File, newSize: Long): (fs': Fs)
    requires At(fs, f)
    ensures Shape(fs') && |fs'.blocks| == |fs.blocks|
  {
    var fs1 := if SignedSize(fs, f) > newSize then FileTruncateBlocks(fs, f, newSize) else fs;
    SetWord(fs1, f.block, f.base + SIZE, newSize % 0x1_0000_0000)
  }

  /* ---- reading and writing ---- */

  function BlockNo(pos: nat): nat { pos / BLKSIZE }

  function BlockOffset(pos: nat): (r: nat)
    ensures r < BLKSIZE
  {
    pos % BLKSIZE
  }

  function Min(a: int, b: int): int { if a < b then a else b }

  datatype ReadResult = ReadResult(fs: Fs, rc: int, bytes: seq<Byte>)

  /** The loop of file_read from pos to end. */
  function ReadFrom(fs: Fs, f: File, pos: nat, end: nat): (r: ReadResult)
    requires At(fs, f)
    ensures Shape(r.fs) && |r.fs.blocks| == |fs.blocks|
    decreases end - pos
  {
    if pos >= end then ReadResult(fs, 0, [])
    else
      var (fs1, b) := FileGetBlock(fs, f, BlockNo(pos));
      if b < 0 then ReadResult(fs1, b, [])
      else
        var bn := Min(BLKSIZE - BlockOffset(pos), end - pos);
        var rest := ReadFrom(fs1, f, pos + bn, end);
        rest.(bytes := GetBytes(fs1.blocks[b], BlockOffset(pos), bn) + rest.bytes)
  }

  function FileRead(fs: Fs, f: File, count: nat, offset: nat): (r: ReadResult)
    requires At(fs, f)
    ensures Shape(r.fs) && |r.fs.blocks| == |fs.blocks|
  {
    var size := SignedSize(fs, f);
    if offset >= size then ReadResult(fs, 0, [])
    else
      var n := Min(count, size - offset);
      var r := ReadFrom(fs, f, offset, offset + n);
      if r.rc < 0 then r else r.(rc := n)
  }

  /** The loop of file_write: stores buf from pos on. */
  function WriteFrom(fs: Fs, f: File, buf: seq<Byte>, pos: nat): (r: (Fs, int))
    requires At(fs, f)
    ensures Shape(r.0) && |r.0.blocks| == |fs.blocks|
    decreases |buf|
  {
    if buf == [] then (fs, 0)
    else
      var (fs1, b) := FileGetBlock(fs, f, BlockNo(pos));
      if b < 0 then (fs1, b)
      else
        var bn := Min(BLKSIZE - BlockOffset(pos), |buf|);
        var fs2 := WithBlock(fs1, b, PutBytes(fs1.blocks[b], BlockOffset(pos), buf[..bn]));
        WriteFrom(fs2, f, buf[bn..], pos + bn)
  }

  /** The sum offset + count is unsigned, and so is its comparison with f_size. */
  function FileWrite(fs: Fs, f: File, buf: seq<Byte>, offset: nat): (r: (Fs, int))
    requires At(fs, f) && offset + |buf| < 0x1_0000_0000
    ensures Shape(r.0) && |r.0.blocks| == |fs.blocks|
  {
    var fs1 := if offset + |buf| > Field(fs, f, SIZE) then FileSetSize(fs, f, Wrap32(offset + |buf|)) else fs;
    var r := WriteFrom(fs1, f, buf, offset);
    if r.1 < 0 then r else (r.0, |buf|)
  }
}
