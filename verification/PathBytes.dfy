/** Looking a path up, opening and creating touch no regular file: every byte and every size stays. */
module PathBytes {
  import opened Wrappers
  import opened Disk
  import opened FileSystem
  import opened FileOwnership
  import opened FileRelease
  import opened FileContents
  import opened FileTruncation
  import opened FileBytes
  import opened Paths
  import opened Directories
  import opened PathLookup
  import opened DirectoryTree
  import opened EntryCreation
  import opened PathWalk

  /** Every regular file is one still, with the same size and the same bytes. */
  ghost predicate SameFiles(fs: Fs, o: Owners, fs': Fs, o': Owners) {
    && Shape(fs) && Shape(fs')
    && (forall g :: Regular(fs, o, g) ==> Regular(fs', o', g) && Size(fs', g) == Size(fs, g))
    && (forall g, p: nat :: Regular(fs, o, g) ==> ByteAt(fs', g, p) == ByteAt(fs, g, p))
  }

  lemma SameSelf(fs: Fs, o: Owners)
    requires Shape(fs)
    ensures SameFiles(fs, o, fs, o)
  {
  }

  lemma SameThen(fs: Fs, o: Owners, fs1: Fs, o1: Owners, fs2: Fs, o2: Owners)
    requires SameFiles(fs, o, fs1, o1) && SameFiles(fs1, o1, fs2, o2)
    ensures SameFiles(fs, o, fs2, o2)
  {
    hide Regular, ByteAt, Size;
  }

  lemma SameJoin(fs: Fs, o: Owners, fs': Fs, o': Owners)
    requires Shape(fs) && Shape(fs')
    requires forall g :: Regular(fs, o, g) ==> Regular(fs', o', g) && Size(fs', g) == Size(fs, g)
    requires forall g, m: nat :: Regular(fs, o, g) ==> Content(fs', g, m) == Content(fs, g, m)
    ensures SameFiles(fs, o, fs', o')
  {
    hide Regular, Content, Size;
  }

  lemma FillsSame(fs: Fs, o: Owners, f: File, fs': Fs, o': Owners)
    requires Shape(fs) && Fills(fs, o, f, fs', o')
    ensures SameFiles(fs, o, fs', o')
  {
    hide *;
    FillsGrows(fs, o, f, fs', o');
    forall g ensures Regular(fs, o, g) ==> Regular(fs', o', g) && Size(fs', g) == Size(fs, g) {
      GrowsDir(fs, o, f, fs', o', g);
      RegularIs(fs, o, g);
    }
    forall g, m: nat ensures Regular(fs, o, g) ==> Content(fs', g, m) == Content(fs, g, m) { FillsContent(fs, o, f, fs', o', g, m); }
    SameJoin(fs, o, fs', o');
  }

  /** A change within the block of a known file. */
  lemma EntryBlockSame(fs: Fs, o: Owners, d: File, fs': Fs)
    requires Inv(fs, o) && Known(fs, o, d) && Shape(fs') && |fs'.blocks| == |fs.blocks|
    requires forall b: nat :: b != d.block && b < |fs.blocks| ==> fs'.blocks[b] == fs.blocks[b]
    requires forall g :: Known(fs, o, g) ==> Known(fs', o, g) && (IsDir(fs, g) || Size(fs', g) == Size(fs, g)) && IsDir(fs', g) == IsDir(fs, g)
    requires forall g, m: nat :: Known(fs, o, g) ==> BlockOf(fs', g, m) == BlockOf(fs, g, m)
    ensures Shape(fs) && SameFiles(fs, o, fs', o)
  {
    hide *;
    InvParts(fs, o);
    forall g ensures Regular(fs, o, g) ==> Regular(fs', o, g) && Size(fs', g) == Size(fs, g) {
      RegularIs(fs, o, g);
      RegularIs(fs', o, g);
    }
    forall g, m: nat ensures Regular(fs, o, g) ==> Content(fs', g, m) == Content(fs, g, m) {
      RegularIs(fs, o, g);
      if Regular(fs, o, g) { RegularContent(fs, o, d, fs', g, m); }
    }
    SameJoin(fs, o, fs', o);
  }

  lemma RegularContent(fs: Fs, o: Owners, d: File, fs': Fs, g: File, m: nat)
    requires Inv(fs, o) && Known(fs, o, d) && |fs'.blocks| == |fs.blocks| && Known(fs, o, g) && !IsDir(fs, g)
    requires forall b: nat :: b != d.block && b < |fs.blocks| ==> fs'.blocks[b] == fs.blocks[b]
    requires BlockOf(fs', g, m) == BlockOf(fs, g, m)
    ensures Content(fs', g, m) == Content(fs, g, m)
  {
    hide Inv, Known, IsDir, BlockOf;
    if BlockOf(fs, g, m) != 0 {
      BlockOfIs(fs, o, g, m);
      DataCells(g, m);
      SizeNotSlot(d);
      CellBlock(fs, o, BlockOf(fs, g, m), Part(d, INDIRECT));
    }
  }

  /* ---- walk_path and file_open ---- */

  /** walk_path fills holes of directories at most. */
  lemma {:induction false} WalkSame(fs: Fs, o: Owners, f: File, dir: Option<File>, path: Name) returns (o': Owners)
    requires Inv(fs, o) && DirsOk(fs, o) && Known(fs, o, f) && IsString(path) && (path != [] ==> path[0] != SLASH)
    ensures At(fs, f) && var w := WalkFrom(fs, f, dir, path); Inv(w.fs, o') && SameFiles(fs, o, w.fs, o')
    decreases |path|
  {
    hide *;
    SizeIs(fs, o, f);
    InvParts(fs, o);
    WalkForm(fs, f, dir, path);
    SameSelf(fs, o);
    o' := o;
    if path != [] {
      ElemsStep(path);
      var n := ElemLength(path);
      var (name, rest) := (path[..n], SkipSlash(path[n..]));
      TypeIs(fs, f);
      if n < MAXNAMELEN && IsDir(fs, f) {
        KnownDirIs(fs, o, f);
        var o1 := LookupFinds(fs, o, f, name);
        var l := DirLookup(fs, f, name);
        LookedUpIs(fs, o, f, name, l, o1);
        if l.rc == 0 {
          var m, j := NamedAt(fs, f, name, l.file);
          EntryKnown(fs, o, f, m, j, l.file);
          o' := WalkSame(fs, o, l.file, Some(f), rest);
        } else {
          o' := o1;
          FillsSame(fs, o, f, l.fs, o1);
        }
      }
    }
  }

  lemma WalkPathSame(fs: Fs, o: Owners, path: Name, o': Owners)
    requires Inv(fs, o) && DirsOk(fs, o) && IsString(path) && Shape(fs) && Inv(WalkPath(fs, path).fs, o')
    ensures SameFiles(fs, o, WalkPath(fs, path).fs, o')
  {
    hide *;
    RootKnown(fs, o);
    SizeIs(fs, o, ROOT);
    SkipIs(path);
    var p := WalkSame(fs, o, ROOT, None, SkipSlash(path));
    WalkPathForm(fs, path);
    OwnersUnique(WalkPath(fs, path).fs, o', p);
  }

  /* ---- dir_alloc_file ---- */

  lemma ResizeBlocks(fs: Fs, d: File, n: Word)
    requires At(fs, d)
    ensures var fs' := Resize(fs, d, n);
            Shape(fs') && |fs'.blocks| == |fs.blocks| && forall b: nat :: b != d.block && b < |fs.blocks| ==> fs'.blocks[b] == fs.blocks[b]
  {
  }

  /** A directory grows: its f_size is in a block of a directory, or in the super-block. */
  lemma GrownSame(fs: Fs, o: Owners, d: File, n: Word)
    requires Inv(fs, o) && KnownDir(fs, o, d) && FitsIn(fs, d, n)
    ensures Shape(fs) && SameFiles(fs, o, Resize(fs, d, n), o)
  {
    hide *;
    InvParts(fs, o);
    KnownDirIs(fs, o, d);
    SizeIs(fs, o, d);
    ResizeBlocks(fs, d, n);
    var fs' := Resize(fs, d, n);
    GrowElsewhere(fs, o, d, n);
    forall g ensures Known(fs, o, g) ==> (IsDir(fs, g) || Size(fs', g) == Size(fs, g)) && IsDir(fs', g) == IsDir(fs, g) {
      if Known(fs, o, g) { GrownDirParts(fs, o, d, n, g); }
    }
    forall g, m: nat ensures Known(fs, o, g) ==> BlockOf(fs', g, m) == BlockOf(fs, g, m) {
      if Known(fs, o, g) { GrownDirBlock(fs, o, d, n, g, m); }
    }
    EntryBlockSame(fs, o, d, fs');
  }

  lemma AddSame(fs: Fs, o: Owners, d: File, n: Word) returns (o': Owners)
    requires Inv(fs, o) && DirsOk(fs, o) && KnownDir(fs, o, d) && Dense(fs, d, NBlocks(Size(fs, d)))
    requires n == Size(fs, d) + BLKSIZE
    ensures At(fs, d) && var a := AddBlock(fs, d, NBlocks(Size(fs, d))); Inv(a.fs, o') && SameFiles(fs, o, a.fs, o')
  {
    hide *;
    InvParts(fs, o);
    KnownDirIs(fs, o, d);
    DirOkIs(fs, o, d);
    SizeIs(fs, o, d);
    DenseSize(fs, o, d);
    DirSizeIs(fs, d);
    GrowFits(fs, o, d, n);
    AddForm(fs, d, NBlocks(Size(fs, d)), n);
    GrownSame(fs, o, d, n);
    GrowElsewhere(fs, o, d, n);
    GrownDirParts(fs, o, d, n, d);
    var (fs2, nb) := (Resize(fs, d, n), NBlocks(Size(fs, d)));
    KnownDirIs(fs2, o, d);
    DirBlock(fs2, o, d, nb);
    var ((fs3, b), o3) := (FileGetBlock(fs2, d, nb), GetBlockOwners(fs2, o, d, nb));
    DirGotParts(fs2, o, d, nb, fs3, o3, b);
    InvParts(fs2, o);
    FillsSame(fs2, o, d, fs3, o3);
    SameThen(fs, o, fs2, o, fs3, o3);
    o' := o3;
  }

  lemma AllocSame(fs: Fs, o: Owners, d: File) returns (o': Owners)
    requires Inv(fs, o) && DirsOk(fs, o) && KnownDir(fs, o, d)
    ensures At(fs, d) && var a := DirAllocFile(fs, d); Inv(a.fs, o') && SameFiles(fs, o, a.fs, o')
  {
    hide *;
    InvParts(fs, o);
    KnownDirIs(fs, o, d);
    DirOkIs(fs, o, d);
    SizeIs(fs, o, d);
    AllocForm(fs, d);
    DenseIs(fs, d, 0, 0);
    EmptyString();
    var nb := NBlocks(Size(fs, d));
    o' := ScanFinds(fs, o, d, [], 0, nb);
    var (fs1, res) := DirScan(fs, d, [], 0, nb);
    ScannedIs(fs, o, d, [], 0, nb, fs1, o', res);
    FillsSame(fs, o, d, fs1, o');
    FillsGrows(fs, o, d, fs1, o');
    if res.Miss? {
      var o1 := o';
      GrowsTree(fs, o, d, fs1, o1);
      TreeIs(fs, o, fs1, o1);
      TreeKnown(fs, o, fs1, o1, d);
      GrowsDir(fs, o, d, fs1, o1, d);
      KnownDirIs(fs1, o1, d);
      WordFits(Size(fs, d) + BLKSIZE);
      DirOkIs(fs1, o1, d);
      DenseSize(fs1, o1, d);
      var n: Word := Size(fs, d) + BLKSIZE;
      o' := AddSame(fs1, o1, d, n);
      SameThen(fs, o, fs1, o1, DirAllocFile(fs, d).fs, o');
    }
  }

  /* ---- strcpy into f_name ---- */

  lemma PutNameBlocks(fs: Fs, e: File, name: Name)
    requires At(fs, e) && |name| < MAXNAMELEN
    ensures var fs' := PutName(fs, e, name); forall b: nat :: b != e.block && b < |fs.blocks| ==> fs'.blocks[b] == fs.blocks[b]
  {
    hide PutBytes;
  }

  lemma PutNameSameFiles(fs: Fs, o: Owners, e: File, name: Name)
    requires Inv(fs, o) && Known(fs, o, e) && |name| < MAXNAMELEN
    ensures At(fs, e) && SameFiles(fs, o, PutName(fs, e, name), o)
  {
    hide *;
    SizeIs(fs, o, e);
    PutNameBlocks(fs, e, name);
    PutNameKeeps(fs, o, e, name);
    var fs' := PutName(fs, e, name);
    forall g ensures Known(fs, o, g) ==> Size(fs', g) == Size(fs, g) && IsDir(fs', g) == IsDir(fs, g) {
      if Known(fs, o, g) { PutNameKept(fs, o, e, name, g); }
    }
    forall g, m: nat ensures Known(fs, o, g) ==> BlockOf(fs', g, m) == BlockOf(fs, g, m) {
      if Known(fs, o, g) { PutNameKept(fs, o, e, name, g); }
    }
    EntryBlockSame(fs, o, e, fs');
  }

  /* ---- file_open and file_create ---- */

  /** file_open changes no byte of any regular file. */
  lemma OpenSame(fs: Fs, o: Owners, path: Name, o': Owners)
    requires Inv(fs, o) && DirsOk(fs, o) && IsString(path) && Shape(fs) && Inv(FileOpen(fs, path).fs, o')
    ensures SameFiles(fs, o, FileOpen(fs, path).fs, o')
  {
    hide *;
    OpenForm(fs, path);
    WalkPathSame(fs, o, path, o');
  }

  /** file_create changes no byte of any regular file, whether it succeeds or fails. */
  lemma CreateSame(fs: Fs, o: Owners, path: Name, o': Owners)
    requires Inv(fs, o) && DirsOk(fs, o) && IsString(path) && Shape(fs) && Inv(FileCreate(fs, path).fs, o')
    ensures SameFiles(fs, o, FileCreate(fs, path).fs, o')
  {
    hide *;
    var o1 := PathLeads(fs, o, path);
    var (w, es, c) := (WalkPath(fs, path), Elems(path), FileCreate(fs, path));
    WalkedIs(fs, o, ROOT, es, w, o1);
    TreeIs(fs, o, w.fs, o1);
    CreateForm(fs, path);
    WalkPathSame(fs, o, path, o1);
    if w.rc == 0 || w.dir == None {
      OwnersUnique(c.fs, o1, o');
    } else {
      WalkedIntoIs(fs, o, ROOT, es, w, o1);
      var (d, last) := (w.dir.value, w.last);
      MissingIs(fs, o, ROOT, es, d, last);
      TreeKnown(fs, o, w.fs, o1, d);
      KnownDirIs(w.fs, o1, d);
      SizeIs(w.fs, o1, d);
      var o2 := AllocSame(w.fs, o1, d);
      var a := DirAllocFile(w.fs, d);
      SameThen(fs, o, w.fs, o1, a.fs, o2);
      var o3 := AllocFinds(w.fs, o1, d);
      AllocatedIs(w.fs, o1, d, a, o3);
      TreeIs(w.fs, o1, a.fs, o3);
      OwnersUnique(a.fs, o2, o3);
      if a.rc < 0 {
        OwnersUnique(c.fs, o2, o');
      } else {
        var n, j :| Spare(a.fs, d, n, j, a.file);
        SpareIs(a.fs, d, n, j, a.file);
        TreeKnown(w.fs, o1, a.fs, o3, d);
        EntryKnown(a.fs, o3, d, n, j, a.file);
        PutNameSameFiles(a.fs, o3, a.file, last);
        PutNameKeeps(a.fs, o3, a.file, last);
        OwnersUnique(c.fs, o3, o');
        SameThen(fs, o, a.fs, o3, c.fs, o');
      }
    }
  }
}
