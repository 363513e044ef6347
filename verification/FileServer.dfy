/** The file server as it runs: bitmap words and cached blocks updated in place by the loops of
    lab5/fs/fs.c, and the requests and open files of lab5/fs/serv.c, each routine against its
    specification. */
module FileServer {
  import opened Words
  import opened Wrappers
  import opened Disk
  import opened FileSystem
  import opened FileBytes
  import opened FileTruncation
  import opened Paths
  import opened Directories
  import opened PathWalk
  import opened FileSystemRuns

  class FileServer {
    const bitmap: array<Word>
    const blocks: array<seq<Word>>      // the cached view of each disk block
    var open: map<nat, File>            // o_file for each file id in use

    ghost function State(): Fs
      reads this, bitmap, blocks
    {
      Fs(bitmap[..], blocks[..])
    }

    ghost predicate Valid()
      reads this, bitmap, blocks
    {
      Shape(State())
    }

    method BlockIsFree(b: nat) returns (free: bool)
      requires Valid()
      ensures free == IsFree(State(), b)
    {
      if b >= blocks.Length { return false; }
      free := Bit(bitmap[b / 32], b % 32);
    }

    /** Sets or clears the bit of a block. */
    method SetBit(b: nat, free: bool)
      requires Valid() && b < blocks.Length
      modifies bitmap
      ensures Valid() && State() == Mark(old(State()), b, free)
    {
      bitmap[b / 32] := FlipBit(bitmap[b / 32], b % 32, free);
      hide FlipBit, IsBlock;
    }

    method FreeBlock(b: nat)
      requires Valid() && b != 0
      modifies bitmap
      ensures Valid() && State() == Mark(old(State()), b, true)
    {
      if b < blocks.Length { SetBit(b, true); }
    }

    method AllocBlock() returns (r: int)
      requires Valid()
      modifies bitmap
      ensures Valid() && (State(), r) == FileSystem.AllocBlock(old(State()))
    {
      var bitmapBlocks := (blocks.Length + BLKBITSIZE - 1) / BLKBITSIZE;
      var b := 2 + bitmapBlocks;
      while b < blocks.Length
        invariant State() == old(State()) && FindFree(State(), b) == FindFree(State(), DataStart(State()))
      {
        var free := BlockIsFree(b);
        if free {
          SetBit(b, false);
          return b;
        }
        b := b + 1;
      }
      r := E_NO_DISK;
    }

    /** memset(diskaddr(b), 0, BLKSIZE) */
    method Clear(b: nat)
      requires Valid() && b < blocks.Length
      modifies blocks
      ensures Valid() && State() == WithBlock(old(State()), b, ZeroBlock())
    {
      blocks[b] := seq(BLKWORDS, _ => 0);
      assert blocks[b] == ZeroBlock();
    }

    method Store(b: nat, i: nat, w: Word)
      requires Valid() && b < blocks.Length && i < BLKWORDS
      modifies blocks
      ensures Valid() && State() == SetWord(old(State()), b, i, w)
    {
      blocks[b] := blocks[b][i := w];
    }

    method Load(b: nat, i: nat) returns (w: Word)
      requires Valid() && b < blocks.Length && i < BLKWORDS
      ensures w == Peek(State(), b, i)
    {
      w := blocks[b][i];
    }

    method FileBlockWalk(f: File, n: nat, alloc: bool) returns (rc: int, block: nat, word: nat)
      requires Valid() && At(State(), f)
      modifies bitmap, blocks
      ensures Valid() && (State(), Walked(rc, block, word)) == FileSystem.FileBlockWalk(old(State()), f, n, alloc)
    {
      if n >= MAXBLOCKS { return E_INVAL, 0, 0; }
      if n < NDIRECT { return 0, f.block, f.base + DIRECT + n; }
      var ind := Load(f.block, f.base + INDIRECT);
      if ind >= blocks.Length { return PANIC, 0, 0; }
      if ind == 0 {
        if !alloc { return E_NOT_FOUND, 0, 0; }
        var r := AllocBlock();
        if r < 0 { return E_NO_DISK, 0, 0; }
        Store(f.block, f.base + INDIRECT, r);
        Clear(r);
        ind := r;
      }
      rc, block, word := 0, ind, n - NDIRECT;
    }

    method FileGetBlock(f: File, n: nat) returns (r: int)
      requires Valid() && At(State(), f)
      modifies bitmap, blocks
      ensures Valid() && (State(), r) == FileSystem.FileGetBlock(old(State()), f, n)
    {
      hide FileSystem.FileBlockWalk, FileSystem.AllocBlock, Peek, SetWord, WithBlock, Mark;
      var rc, block, word := FileBlockWalk(f, n, true);
      if rc != 0 { return rc; }
      var b := Load(block, word);
      if b >= blocks.Length { return PANIC; }
      if b != 0 { return b; }
      r := AllocBlock();
      if r < 0 { return E_NO_DISK; }
      Store(block, word, r);
      Clear(r);
    }

    method FileFreeBlock(f: File, n: nat) returns (r: int)
      requires Valid() && At(State(), f)
      modifies bitmap, blocks
      ensures Valid() && (State(), r) == FileSystem.FileFreeBlock(old(State()), f, n)
    {
      hide FileSystem.FileBlockWalk, Peek, SetWord, WithBlock, Mark;
      var rc, block, word := FileBlockWalk(f, n, false);
      if rc != 0 { return rc; }
      var b := Load(block, word);
      if b != 0 {
        FreeBlock(b);
        Store(block, word, 0);
      }
      r := 0;
    }

    /** (size + BLKSIZE - 1) / BLKSIZE on an off_t, stored in a uint32_t. */
    method CountBlocks(size: Long) returns (n: Word)
      ensures n == BlockCount(size)
    {
      var sum: int := Wrap32(size + BLKSIZE - 1);
      var quotient := if sum >= 0 then sum / BLKSIZE else -(-sum / BLKSIZE);
      n := quotient % 0x1_0000_0000;
    }

    method FileTruncateBlocks(f: File, newSize: Long)
      requires Valid() && At(State(), f)
      modifies bitmap, blocks
      ensures Valid() && State() == FileSystem.FileTruncateBlocks(old(State()), f, newSize)
    {
      hide FileSystem.FileFreeBlock, Peek, SetWord, WithBlock, Mark;
      hide BlockCount;
      var size := Load(f.block, f.base + SIZE);
      var oldBlocks := CountBlocks(Wrap32(size));
      var newBlocks := CountBlocks(newSize);
      var bno: nat := newBlocks;
      while bno < oldBlocks
        invariant Valid() && At(State(), f)
        invariant FreeBlocks(State(), f, bno, oldBlocks) == FreeBlocks(old(State()), f, newBlocks, oldBlocks)
      {
        var _ := FileFreeBlock(f, bno);
        bno := bno + 1;
      }
      var ind := Load(f.block, f.base + INDIRECT);
      if newBlocks <= NDIRECT && ind != 0 {
        FreeBlock(ind);
        Store(f.block, f.base + INDIRECT, 0);
      }
    }

    method FileSetSize(f: File, newSize: Long)
      requires Valid() && At(State(), f)
      modifies bitmap, blocks
      ensures Valid() && State() == FileSystem.FileSetSize(old(State()), f, newSize)
    {
      hide FileSystem.FileTruncateBlocks, Peek, SetWord, WithBlock, Mark;
      var size := Load(f.block, f.base + SIZE);
      if Wrap32(size) > newSize { FileTruncateBlocks(f, newSize); }
      Store(f.block, f.base + SIZE, newSize % 0x1_0000_0000);
    }

    method FileRead(f: File, count: nat, offset: nat) returns (rc: int, buf: seq<Byte>)
      requires Valid() && At(State(), f)
      modifies bitmap, blocks
      ensures Valid() && ReadResult(State(), rc, buf) == FileSystem.FileRead(old(State()), f, count, offset)
    {
      hide FileSystem.FileGetBlock, Peek, ReadFrom, BlockNo, BlockOffset, Min, IsBlock;
      var word := Load(f.block, f.base + SIZE);
      var size: int := Wrap32(word);
      buf := [];
      if offset >= size { return 0, []; }
      FileReadForm(State(), f, count, offset);
      var n: nat := Min(count, size - offset);
      var pos: nat, end: nat := offset, offset + n;
      while pos < end
        invariant Valid() && At(State(), f)
        invariant var rest := ReadFrom(State(), f, pos, end);
                  ReadFrom(old(State()), f, offset, end) == ReadResult(rest.fs, rest.rc, buf + rest.bytes)
        decreases end - pos
      {
        ReadFromForm(State(), f, pos, end);
        MinIs(pos, end - pos);
        var b := FileGetBlock(f, BlockNo(pos));
        if b < 0 {
          assert buf + [] == buf;
          return b, buf;
        }
        var bn: nat := Min(BLKSIZE - BlockOffset(pos), end - pos);
        var chunk := GetBytes(blocks[b], BlockOffset(pos), bn);
        ghost var rest := ReadFrom(State(), f, pos + bn, end);
        assert buf + (chunk + rest.bytes) == (buf + chunk) + rest.bytes;
        buf := buf + chunk;
        pos := pos + bn;
      }
      ReadFromForm(State(), f, pos, end);
      assert buf + [] == buf;
      rc := n;
    }

    method FileWrite(f: File, buf: seq<Byte>, offset: nat) returns (rc: int)
      requires Valid() && At(State(), f) && offset + |buf| < 0x1_0000_0000
      modifies bitmap, blocks
      ensures Valid() && (State(), rc) == FileSystem.FileWrite(old(State()), f, buf, offset)
    {
      hide FileSystem.FileGetBlock, FileSystem.FileSetSize, Peek, WriteFrom, PutBytes, BlockNo, BlockOffset, Min, WithBlock;
      var size := Load(f.block, f.base + SIZE);
      if offset + |buf| > size { FileSetSize(f, Wrap32(offset + |buf|)); }
      ghost var start := State();
      var pos: nat, left := offset, buf;
      while left != []
        invariant Valid() && At(State(), f)
        invariant WriteFrom(State(), f, left, pos) == WriteFrom(start, f, buf, offset)
        decreases |left|
      {
        WriteFromForm(State(), f, left, pos);
        MinIs(pos, |left|);
        var b := FileGetBlock(f, BlockNo(pos));
        if b < 0 { return b; }
        var bn := Min(BLKSIZE - BlockOffset(pos), |left|);
        Replace(b, PutBytes(blocks[b], BlockOffset(pos), left[..bn]));
        left := left[bn..];
        pos := pos + bn;
      }
      WriteFromForm(State(), f, left, pos);
      rc := |buf|;
    }

    /** A memmove into block b, blk being its result. */
    method Replace(b: nat, blk: seq<Word>)
      requires Valid() && b < blocks.Length && IsBlock(blk)
      modifies blocks
      ensures Valid() && State() == WithBlock(old(State()), b, blk)
    {
      blocks[b] := blk;
    }

    /* ---- directories and paths ---- */

    method NameMatches(g: File, name: Name) returns (same: bool)
      requires Valid()
      ensures same == NameIs(State(), g, name)
    {
      same := NameIs(Fs(bitmap[..], blocks[..]), g, name);
    }

    /** The inner loop of the directory scans. */
    method FindEntry(b: nat, name: Name) returns (j: nat)
      requires Valid() && b < blocks.Length
      ensures j == EntryScan(State(), b, name, 0)
    {
      hide NameIs;
      j := 0;
      while j < BLKFILES
        invariant j <= BLKFILES && EntryScan(State(), b, name, j) == EntryScan(State(), b, name, 0)
      {
        var same := NameMatches(DirEntry(b, j), name);
        if same { return; }
        j := j + 1;
      }
    }

    /** The outer loop of the directory scans. */
    method ScanBlocks(dir: File, name: Name, nblock: nat) returns (res: Scan)
      requires Valid() && At(State(), dir)
      modifies bitmap, blocks
      ensures Valid() && (State(), res) == DirScan(old(State()), dir, name, 0, nblock)
    {
      hide FileSystem.FileGetBlock, NameIs, EntryScan, DirScan;
      var i := 0;
      while i < nblock
        invariant Valid() && At(State(), dir)
        invariant i <= nblock && DirScan(State(), dir, name, i, nblock) == DirScan(old(State()), dir, name, 0, nblock)
      {
        ScanForm(State(), dir, name, i, nblock);
        var b := FileGetBlock(dir, i);
        if b < 0 { return Failed(b); }
        var j := FindEntry(b, name);
        if j < BLKFILES { return Hit(DirEntry(b, j)); }
        i := i + 1;
      }
      ScanForm(State(), dir, name, i, nblock);
      res := Miss;
    }

    method DirLookup(dir: File, name: Name) returns (rc: int, file: File)
      requires Valid() && At(State(), dir)
      modifies bitmap, blocks
      ensures Valid() && Found(State(), rc, file) == Paths.DirLookup(old(State()), dir, name)
    {
      hide DirScan, Peek;
      var size := Load(dir.block, dir.base + SIZE);
      if size % BLKSIZE != 0 { return PANIC, ROOT; }
      var res := ScanBlocks(dir, name, DirBlocks(size));
      match res {
        case Hit(f) => return 0, f;
        case Miss => return E_NOT_FOUND, ROOT;
        case Failed(r) => return r, ROOT;
      }
    }

    method DirAllocFile(dir: File) returns (rc: int, file: File)
      requires Valid() && At(State(), dir)
      modifies bitmap, blocks
      ensures Valid() && Found(State(), rc, file) == Paths.DirAllocFile(old(State()), dir)
    {
      hide DirScan, Peek, FileSystem.FileGetBlock, SetWord;
      var size := Load(dir.block, dir.base + SIZE);
      if size % BLKSIZE != 0 { return PANIC, ROOT; }
      var nblock := DirBlocks(size);
      var res := ScanBlocks(dir, [], nblock);
      match res {
        case Hit(f) => return 0, f;
        case Failed(r) => return r, ROOT;
        case Miss =>
          size := Load(dir.block, dir.base + SIZE);
          Store(dir.block, dir.base + SIZE, (size + BLKSIZE) % 0x1_0000_0000);
          var b := FileGetBlock(dir, nblock);
          if b < 0 { return b, ROOT; }
          return 0, DirEntry(b, 0);
      }
    }

    method Skip(path: Name) returns (rest: Name)
      ensures rest == SkipSlash(path)
    {
      rest := path;
      while rest != [] && rest[0] == SLASH
        invariant SkipSlash(rest) == SkipSlash(path)
      {
        rest := rest[1..];
      }
    }

    /** The length of the first path element, as walk_path's inner loop finds it. */
    method ElemEnd(path: Name) returns (n: nat)
      ensures n == ElemLength(path)
    {
      n := 0;
      while n < |path| && path[n] != SLASH
        invariant n <= |path| && ElemLength(path) == n + ElemLength(path[n..])
      {
        assert path[n..][1..] == path[n + 1..];
        n := n + 1;
      }
    }

    method WalkPath(path: Name) returns (rc: int, file: File, pdir: Option<File>, last: Name)
      requires Valid()
      modifies bitmap, blocks
      ensures Valid() && Walk(State(), rc, file, pdir, last) == Paths.WalkPath(old(State()), path)
    {
      hide Paths.DirLookup, SkipSlash, ElemLength, WalkFrom, Peek;
      RootAt(State());
      var rest := Skip(path);
      file, pdir, last := ROOT, None, [];
      WalkPathForm(State(), path);
      while rest != []
        invariant Valid() && At(State(), file) && (rest != [] ==> rest[0] != SLASH)
        invariant WalkFrom(State(), file, pdir, rest) == WalkFrom(old(State()), ROOT, None, SkipSlash(path))
        decreases |rest|
      {
        WalkForm(State(), file, pdir, rest);
        var n := ElemEnd(rest);
        var name := rest[..n];
        rest := Skip(rest[n..]);
        if n >= MAXNAMELEN { return E_BAD_PATH, ROOT, None, []; }
        var kind := Load(file.block, file.base + TYPE);
        if kind != FTYPE_DIR { return E_NOT_FOUND, ROOT, None, []; }
        var r, f := DirLookup(file, name);
        if r != 0 {
          if r == E_NOT_FOUND && rest == [] { return r, ROOT, Some(file), name; }
          return r, ROOT, None, [];
        }
        if !(f.block < blocks.Length && f.base + FILEWORDS <= BLKWORDS) { return PANIC, ROOT, None, []; }
        file, pdir := f, Some(file);
      }
      WalkForm(State(), file, pdir, rest);
      rc := 0;
    }

    lemma RootAt(fs: Fs)
      requires Shape(fs)
      ensures At(fs, ROOT)
    {
    }

    method FileOpen(path: Name) returns (rc: int, file: File)
      requires Valid()
      modifies bitmap, blocks
      ensures Valid() && Found(State(), rc, file) == Paths.FileOpen(old(State()), path)
    {
      hide Paths.WalkPath;
      var pdir, last;
      rc, file, pdir, last := WalkPath(path);
    }

    method FileCreate(path: Name) returns (rc: int, file: File)
      requires Valid()
      modifies bitmap, blocks
      ensures Valid() && Found(State(), rc, file) == Paths.FileCreate(old(State()), path)
    {
      hide Paths.WalkPath, Paths.DirAllocFile, PutName;
      var pdir, name;
      rc, file, pdir, name := WalkPath(path);
      if rc == 0 { return E_FILE_EXISTS, ROOT; }
      if rc != E_NOT_FOUND || pdir == None { return rc, ROOT; }
      var dir := pdir.value;
      if !(dir.block < blocks.Length && dir.base + FILEWORDS <= BLKWORDS) { return rc, ROOT; }
      rc, file := DirAllocFile(dir);
      if rc < 0 { return; }
      if !(file.block < blocks.Length && file.base + FILEWORDS <= BLKWORDS && |name| < MAXNAMELEN) { return PANIC, ROOT; }
      CopyName(file, name);
      rc := 0;
    }

    /* ---- requests ---- */

    /** The disk and the open files. */
    ghost function Whole(): Server
      reads this, bitmap, blocks
    {
      Server(State(), open)
    }

    /** The part of serve_open that finds or makes the file. */
    method OpenPath(path: Name, create: bool, excl: bool, trunc: bool) returns (rc: int, file: File)
      requires Valid()
      modifies bitmap, blocks
      ensures Valid() && Found(State(), rc, file) == FileSystemRuns.ServeOpen(old(State()), path, create, excl, trunc)
    {
      hide Paths.FileCreate, Paths.FileOpen, FileSystem.FileSetSize;
      var tryOpen := !create;
      if create {
        rc, file := FileCreate(path);
        if rc < 0 {
          if excl || rc != E_FILE_EXISTS { return; }
          tryOpen := true;
        }
      }
      if tryOpen {
        rc, file := FileOpen(path);
        if rc < 0 { return; }
      }
      if !(file.block < blocks.Length && file.base + FILEWORDS <= BLKWORDS) { return; }
      if trunc { FileSetSize(file, 0); }
      rc, file := FileOpen(path);
    }

    /** serve_open, with the id that openfile_alloc returned. */
    method ServeOpen(id: nat, path: Path, create: bool, excl: bool, trunc: bool) returns (rc: int)
      requires Valid()
      modifies bitmap, blocks, this`open
      ensures Valid() && Whole() == Serve(old(Whole()), Open(id, path, create, excl, trunc))
      ensures rc == Answer(old(Whole()), Open(id, path, create, excl, trunc)).rc
    {
      hide FileSystemRuns.ServeOpen;
      var file;
      rc, file := OpenPath(path, create, excl, trunc);
      if rc == 0 { open := open[id := file]; }
    }

    /** openfile_lookup. */
    method Lookup(id: nat) returns (file: Option<File>)
      requires Valid()
      ensures file == if id in open && At(State(), open[id]) then Some(open[id]) else None
    {
      if id !in open { return None; }
      var f := open[id];
      if !(f.block < blocks.Length && f.base + FILEWORDS <= BLKWORDS) { return None; }
      file := Some(f);
    }

    method ServeSetSize(id: nat, size: Long) returns (rc: int)
      requires Valid()
      modifies bitmap, blocks
      ensures Valid() && Whole() == Serve(old(Whole()), Request.SetSize(id, size))
      ensures rc == Answer(old(Whole()), Request.SetSize(id, size)).rc
    {
      hide FileSystem.FileSetSize, Shape;
      var o := Lookup(id);
      if o == None { return E_INVAL; }
      FileSetSize(o.value, size);
      rc := 0;
    }

    /** A read moves at most a page; next is the fd_offset it leaves. */
    method ServeRead(id: nat, count: nat, offset: Offset) returns (rc: int, buf: seq<Byte>, next: int)
      requires Valid()
      modifies bitmap, blocks
      ensures Valid() && Whole() == Serve(old(Whole()), Read(id, count, offset))
      ensures Reply(rc, buf, next) == Answer(old(Whole()), Read(id, count, offset))
    {
      hide FileSystem.FileRead, Shape;
      next := offset;
      var o := Lookup(id);
      if o == None { return E_INVAL, [], next; }
      rc, buf := FileRead(o.value, Min(count, BLKSIZE), offset);
      if rc < 0 { return; }
      next := next + rc;
    }

    method ServeWrite(id: nat, buf: seq<Byte>, offset: Offset) returns (rc: int, next: int)
      requires Valid()
      modifies bitmap, blocks
      ensures Valid() && Whole() == Serve(old(Whole()), Write(id, buf, offset))
      ensures Reply(rc, [], next) == Answer(old(Whole()), Write(id, buf, offset))
    {
      hide FileSystem.FileWrite, Shape;
      next := offset;
      var o := Lookup(id);
      if o == None { return E_INVAL, next; }
      ClipFits(buf, offset);
      rc := FileWrite(o.value, Clip(buf), offset);
      if rc < 0 { return; }
      next := next + rc;
    }

    method CopyName(g: File, name: Name)
      requires Valid() && At(State(), g) && |name| < MAXNAMELEN
      modifies blocks
      ensures Valid() && State() == PutName(old(State()), g, name)
    {
      hide PutBytes, WithBlock;
      Replace(g.block, PutBytes(blocks[g.block], 4 * g.base, name + [0]));
    }
  }
}
