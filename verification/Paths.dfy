/** Directories and path names as lab5/fs/fs.c walks them, on values. */
module Paths {
  import opened Words
  import opened Wrappers
  import opened Disk
  import opened FileSystem

  const MAXNAMELEN: nat := 128
  const SLASH: Byte := 47
  const E_BAD_PATH: Failure := -12
  const E_FILE_EXISTS: Failure := -13

  /** C strings, without their final zero. */
  type Name = seq<Byte>

  predicate IsString(s: Name) { forall i :: 0 <= i < |s| ==> s[i] != 0 }

  /* ---- names in directory entries ---- */

  /** Byte i of f_name. */
  function NameByte(fs: Fs, g: File, i: nat): Byte { ByteOf(Field(fs, g, i / 4), i % 4) }

  /** strcmp(g->f_name, name) == 0, for a name shorter than f_name. */
  predicate NameIs(fs: Fs, g: File, name: Name) {
    && |name| < MAXNAMELEN
    && (forall i :: 0 <= i < |name| ==> NameByte(fs, g, i) == name[i])
    && NameByte(fs, g, |name|) == 0
  }

  /** strcpy(g->f_name, name). */
  function PutName(fs: Fs, g: File, name: Name): (fs': Fs)
    requires At(fs, g) && |name| < MAXNAMELEN
    ensures Shape(fs') && |fs'.blocks| == |fs.blocks|
  {
    WithBlock(fs, g.block, PutBytes(fs.blocks[g.block], 4 * g.base, name + [0]))
  }

  /* ---- directories ---- */

  /** The struct File at index j of block b. */
  function DirEntry(b: nat, j: nat): File { File(b, FILEWORDS * j) }

  /** The first entry of block b from j on with this name, or BLKFILES. */
  function EntryScan(fs: Fs, b: nat, name: Name, j: nat): (r: nat)
    requires j <= BLKFILES
    ensures j <= r <= BLKFILES && (r < BLKFILES ==> NameIs(fs, DirEntry(b, r), name))
    ensures forall k :: j <= k < r ==> !NameIs(fs, DirEntry(b, k), name)
    decreases BLKFILES - j
  {
    if j == BLKFILES || NameIs(fs, DirEntry(b, j), name) then j else EntryScan(fs, b, name, j + 1)
  }

  datatype Scan = Hit(file: File) | Miss | Failed(rc: int)

  /** The loops of dir_lookup and dir_alloc_file from block i on; the latter looks for an empty name. */
  function DirScan(fs: Fs, dir: File, name: Name, i: nat, nblock: nat): (r: (Fs, Scan))
    requires At(fs, dir)
    ensures Shape(r.0) && |r.0.blocks| == |fs.blocks| && (r.1.Failed? ==> r.1.rc < 0)
    decreases nblock - i
  {
    if i >= nblock then (fs, Miss)
    else
      var (fs1, b) := FileGetBlock(fs, dir, i);
      if b < 0 then (fs1, Failed(b))
      else
        var j := EntryScan(fs1, b, name, 0);
        if j < BLKFILES then (fs1, Hit(DirEntry(b, j))) else DirScan(fs1, dir, name, i + 1, nblock)
  }

  /** The new state, a return code, and the file if that is 0. */
  datatype Found = Found(fs: Fs, rc: int, file: File)

  /** nblock, a uint32_t, for a size that is a whole number of blocks. */
  function DirBlocks(size: nat): Word { Wrap32(size) / BLKSIZE % 0x1_0000_0000 }

  function DirLookup(fs: Fs, dir: File, name: Name): (r: Found)
    requires At(fs, dir)
    ensures Shape(r.fs) && |r.fs.blocks| == |fs.blocks|
  {
    var size := Field(fs, dir, SIZE);
    if size % BLKSIZE != 0 then Found(fs, PANIC, ROOT)
    else
      match DirScan(fs, dir, name, 0, DirBlocks(size))
      case (fs1, Hit(f)) => Found(fs1, 0, f)
      case (fs1, Miss) => Found(fs1, E_NOT_FOUND, ROOT)
      case (fs1, Failed(rc)) => Found(fs1, rc, ROOT)
  }

  /** The end of dir_alloc_file: a new block for the directory. */
  function AddBlock(fs: Fs, dir: File, nblock: nat): (r: Found)
    requires At(fs, dir)
    ensures Shape(r.fs) && |r.fs.blocks| == |fs.blocks|
  {
    var fs1 := SetWord(fs, dir.block, dir.base + SIZE, (Field(fs, dir, SIZE) + BLKSIZE) % 0x1_0000_0000);
    var (fs2, b) := FileGetBlock(fs1, dir, nblock);
    if b < 0 then Found(fs2, b, ROOT) else Found(fs2, 0, DirEntry(b, 0))
  }

  function DirAllocFile(fs: Fs, dir: File): (r: Found)
    requires At(fs, dir)
    ensures Shape(r.fs) && |r.fs.blocks| == |fs.blocks|
  {
    var size := Field(fs, dir, SIZE);
    if size % BLKSIZE != 0 then Found(fs, PANIC, ROOT)
    else
      match DirScan(fs, dir, [], 0, DirBlocks(size))
      case (fs1, Hit(f)) => Found(fs1, 0, f)
      case (fs1, Failed(rc)) => Found(fs1, rc, ROOT)
      case (fs1, Miss) => AddBlock(fs1, dir, DirBlocks(size))
  }

  /* ---- paths ---- */

  function SkipSlash(path: Name): (r: Name)
    ensures |r| <= |path| && (r != [] ==> r[0] != SLASH)
  {
    if path != [] && path[0] == SLASH then SkipSlash(path[1..]) else path
  }

  /** The length of the first path element. */
  function ElemLength(path: Name): (n: nat)
    ensures n <= |path| && (path != [] && path[0] != SLASH ==> n > 0)
    ensures forall i :: 0 <= i < n ==> path[i] != SLASH
    ensures n < |path| ==> path[n] == SLASH
  {
    if path == [] || path[0] == SLASH then 0 else 1 + ElemLength(path[1..])
  }

  /** What walk_path leaves in *pf (file), *pdir (dir) and lastelem. */
  datatype Walk = Walk(fs: Fs, rc: int, file: File, dir: Option<File>, last: Name)

  /** The loop of walk_path: path has no leading slash. */
  function WalkFrom(fs: Fs, f: File, dir: Option<File>, path: Name): (r: Walk)
    requires At(fs, f) && (path != [] ==> path[0] != SLASH)
    ensures Shape(r.fs) && |r.fs.blocks| == |fs.blocks|
    decreases |path|
  {
    if path == [] then Walk(fs, 0, f, dir, [])
    else
      var n := ElemLength(path);
      var (name, rest) := (path[..n], SkipSlash(path[n..]));
      if n >= MAXNAMELEN then Walk(fs, E_BAD_PATH, ROOT, None, [])
      else if Field(fs, f, TYPE) != FTYPE_DIR then Walk(fs, E_NOT_FOUND, ROOT, None, [])
      else
        var l := DirLookup(fs, f, name);
        if l.rc == 0 then
          if At(l.fs, l.file) then WalkFrom(l.fs, l.file, Some(f), rest) else Walk(l.fs, PANIC, ROOT, None, [])
        else if l.rc == E_NOT_FOUND && rest == [] then Walk(l.fs, l.rc, ROOT, Some(f), name)
        else Walk(l.fs, l.rc, ROOT, None, [])
  }

  function WalkPath(fs: Fs, path: Name): (r: Walk)
    requires Shape(fs)
    ensures Shape(r.fs) && |r.fs.blocks| == |fs.blocks|
  {
    WalkFrom(fs, ROOT, None, SkipSlash(path))
  }

  function FileOpen(fs: Fs, path: Name): (r: Found)
    requires Shape(fs)
    ensures Shape(r.fs) && |r.fs.blocks| == |fs.blocks|
  {
    var w := WalkPath(fs, path);
    Found(w.fs, w.rc, w.file)
  }

  function FileCreate(fs: Fs, path: Name): (r: Found)
    requires Shape(fs)
    ensures Shape(r.fs) && |r.fs.blocks| == |fs.blocks|
  {
    var w := WalkPath(fs, path);
    if w.rc == 0 then Found(w.fs, E_FILE_EXISTS, ROOT)
    else if w.rc != E_NOT_FOUND || w.dir == None || !At(w.fs, w.dir.value) then Found(w.fs, w.rc, ROOT)
    else
      var a := DirAllocFile(w.fs, w.dir.value);
      if a.rc < 0 then a
      else if !At(a.fs, a.file) || |w.last| >= MAXNAMELEN then Found(a.fs, PANIC, ROOT)
      else Found(PutName(a.fs, a.file, w.last), 0, a.file)
  }
}
