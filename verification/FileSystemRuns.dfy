/** Whole runs of the file server: exactly when a request keeps the disk in order and every path leading
    where it led.  Over requests that respect the guards all blocks keep their one owner, all directories
    stay in order, no path is lost, and every open file stays a file that some path leads to. */
module FileSystemRuns {
  import opened Words
  import opened Wrappers
  import opened Disk
  import opened FileSystem
  import opened FileOwnership
  import opened FileContents
  import opened FileTruncation
  import opened FileBytes
  import opened Paths
  import opened Directories
  import opened DirectoryTree
  import opened PathWalk
  import opened DirectoryCuts

  type Path = p: Name | IsString(p) witness []
  type Offset = n: nat | n < 0x8000_0000    // fd_offset, an off_t, where it is not negative

  /** The disk, and o_file for each file id in use. */
  datatype Server = Server(fs: Fs, open: map<nat, File>)

  /** What clients ask for: serve_open with O_CREAT, O_EXCL and O_TRUNC and the id of openfile_alloc,
      serve_read, serve_write and serve_set_size.  An id is free again when its last client is gone. */
  datatype Request =
    | Open(id: nat, path: Path, create: bool, excl: bool, trunc: bool)
    | Close(id: nat)
    | Read(id: nat, count: nat, offset: Offset)
    | Write(id: nat, buf: seq<Byte>, offset: Offset)
    | SetSize(id: nat, size: Long)

  /** The first part of serve_open: the file is created if so asked, or else opened. */
  function OpenFile(fs: Fs, path: Name, create: bool, excl: bool): (r: Found)
    requires Shape(fs)
    ensures Shape(r.fs) && |r.fs.blocks| == |fs.blocks|
  {
    if !create then FileOpen(fs, path)
    else
      var c := FileCreate(fs, path);
      if c.rc == E_FILE_EXISTS && !excl then FileOpen(c.fs, path) else c
  }

  /** serve_open: after truncation the path is walked once more. */
  function ServeOpen(fs: Fs, path: Name, create: bool, excl: bool, trunc: bool): (r: Found)
    requires Shape(fs)
    ensures Shape(r.fs) && |r.fs.blocks| == |fs.blocks|
  {
    var f := OpenFile(fs, path, create, excl);
    if f.rc < 0 || !At(f.fs, f.file) then f
    else FileOpen(if trunc then FileSetSize(f.fs, f.file, 0) else f.fs, path)
  }

  /** No more than a page at a time. */
  function Clip(buf: seq<Byte>): (r: seq<Byte>)
    ensures |r| <= BLKSIZE
  {
    if |buf| > BLKSIZE then buf[..BLKSIZE] else buf
  }

  /** The requests on the file that an id stands for. */
  function Perform(fs: Fs, f: File, r: Request): (fs': Fs)
    requires At(fs, f)
    ensures Shape(fs') && |fs'.blocks| == |fs.blocks|
  {
    match r
    case Read(_, count, offset) => FileRead(fs, f, Min(count, BLKSIZE), offset).fs
    case Write(_, buf, offset) => FileWrite(fs, f, Clip(buf), offset).0
    case SetSize(_, size) => FileSetSize(fs, f, size)
    case _ => fs
  }

  function Serve(s: Server, r: Request): (s': Server)
    requires Shape(s.fs)
    ensures Shape(s'.fs) && |s'.fs.blocks| == |s.fs.blocks|
  {
    if r.Close? then s.(open := s.open - {r.id})
    else if r.Open? then
      var f := ServeOpen(s.fs, r.path, r.create, r.excl, r.trunc);
      Server(f.fs, if f.rc == 0 then s.open[r.id := f.file] else s.open)
    else if r.id !in s.open || !At(s.fs, s.open[r.id]) then s
    else s.(fs := Perform(s.fs, s.open[r.id], r))
  }

  /** What a client gets back: the code, the bytes of a read, and the seek position that a read or a write leaves in
      the shared page. */
  datatype Reply = Reply(rc: int, buf: seq<Byte>, next: int)

  function Advanced(offset: Offset, rc: int): int { if rc < 0 then offset else offset + rc }

  function AnswerOn(fs: Fs, f: File, r: Request): Reply
    requires At(fs, f)
  {
    match r
    case Read(_, count, offset) =>
      var a := FileRead(fs, f, Min(count, BLKSIZE), offset);
      Reply(a.rc, a.bytes, Advanced(offset, a.rc))
    case Write(_, buf, offset) =>
      var rc := FileWrite(fs, f, Clip(buf), offset).1;
      Reply(rc, [], Advanced(offset, rc))
    case _ => Reply(0, [], 0)
  }

  /** The reply to a request; the file of an id that is not in use is not looked at. */
  function Answer(s: Server, r: Request): Reply
    requires Shape(s.fs)
  {
    if r.Close? then Reply(0, [], 0)
    else if r.Open? then Reply(ServeOpen(s.fs, r.path, r.create, r.excl, r.trunc).rc, [], 0)
    else if r.id !in s.open || !At(s.fs, s.open[r.id]) then Reply(E_INVAL, [], if r.SetSize? then 0 else r.offset)
    else AnswerOn(s.fs, s.open[r.id], r)
  }

  /* ---- order ---- */

  /** Some path opens f. */
  ghost predicate HasPath(fs: Fs, f: File)
    requires Shape(fs)
  {
    exists q: Path :: FileOpen(fs, q) == Found(fs, 0, f)
  }

  ghost predicate InOrder(s: Server) {
    Shape(s.fs) && Good(s.fs) && forall id :: id in s.open ==> HasPath(s.fs, s.open[id])
  }

  /* ---- the guards ---- */

  /** The file that the request resizes: that of serve_set_size, or the one O_TRUNC finds where the open
      does not fail for O_EXCL. */
  function Resized(s: Server, r: Request): Option<File>
    requires Shape(s.fs)
  {
    if r.SetSize? && r.id in s.open then Some(s.open[r.id])
    else if r.Open? && r.trunc && !(r.create && r.excl) && FileOpen(s.fs, r.path).rc == 0 then Some(FileOpen(s.fs, r.path).file)
    else None
  }

  function NewLength(r: Request): Long { if r.SetSize? then r.size else 0 }

  /** The size fits; a directory gets a whole number of blocks, and only entries that own no block are cut
      off. */
  ghost predicate SizeOk(fs: Fs, f: File, n: int) {
    Fits(n) && (IsDir(fs, f) ==> n % BLKSIZE == 0 && BarrenPast(fs, f, NBlocks(n)))
  }

  predicate Writes(s: Server, r: Request) { r.Write? && r.id in s.open }

  predicate WritesDir(s: Server, r: Request) { Writes(s, r) && IsDir(s.fs, s.open[r.id]) }

  ghost predicate OrderGuard(s: Server, r: Request)
    requires Shape(s.fs)
  {
    var f := Resized(s, r);
    (f.Some? ==> SizeOk(s.fs, f.value, NewLength(r))) && (Writes(s, r) ==> Fits(r.offset + |Clip(r.buf)|))
  }

  /** Only entries without a name are cut off. */
  ghost predicate PathGuard(s: Server, r: Request)
    requires Shape(s.fs)
  {
    var f := Resized(s, r);
    f.Some? ==> Sparing(s.fs, f.value, NewLength(r))
  }

  ghost predicate Guard(s: Server, r: Request)
    requires Shape(s.fs)
  {
    !WritesDir(s, r) && OrderGuard(s, r) && PathGuard(s, r)
  }

  /* ---- what the parts of a request keep ---- */

  /** Everything is in order again, and the components that led somewhere lead there still. */
  ghost predicate LeadsKept(fs: Fs, fs': Fs, o': Owners) {
    && Inv(fs', o') && DirsOk(fs', o')
    && forall q, g :: AllElems(q) && Leads(fs, ROOT, q, g) ==> Leads(fs', ROOT, q, g)
  }

  lemma LeadsKeptIs(fs: Fs, fs': Fs, o': Owners)
    requires LeadsKept(fs, fs', o')
    ensures Inv(fs', o') && DirsOk(fs', o') && Shape(fs')
    ensures forall q, g :: AllElems(q) && Leads(fs, ROOT, q, g) ==> Leads(fs', ROOT, q, g)
  {
    hide Inv, DirsOk, AllElems, Leads;
    InvParts(fs', o');
  }

  lemma LeadsKeptJoin(fs: Fs, fs': Fs, o': Owners)
    requires Inv(fs', o') && DirsOk(fs', o')
    requires forall q, g :: AllElems(q) && Leads(fs, ROOT, q, g) ==> Leads(fs', ROOT, q, g)
    ensures LeadsKept(fs, fs', o')
  {
    hide Inv, DirsOk, AllElems, Leads;
  }

  lemma TreeLeads(fs: Fs, o: Owners, fs': Fs, o': Owners)
    requires Inv(fs, o) && SameTree(fs, o, fs', o')
    ensures LeadsKept(fs, fs', o')
  {
    hide *;
    RootKnown(fs, o);
    TreeIs(fs, o, fs', o');
    forall q, g ensures AllElems(q) && Leads(fs, ROOT, q, g) ==> Leads(fs', ROOT, q, g) {
      if AllElems(q) { LeadsSame(fs, o, fs', o', ROOT, q, g); }
    }
    LeadsKeptJoin(fs, fs', o');
  }

  lemma LeadsThen(fs: Fs, fs1: Fs, o1: Owners, fs2: Fs, o2: Owners)
    requires LeadsKept(fs, fs1, o1) && LeadsKept(fs1, fs2, o2)
    ensures LeadsKept(fs, fs2, o2)
  {
    hide Inv, DirsOk, AllElems, Leads;
  }

  /** So the disk is in order and no path is lost. */
  lemma KeptBoth(fs: Fs, o: Owners, fs': Fs, o': Owners)
    requires Inv(fs, o) && DirsOk(fs, o) && LeadsKept(fs, fs', o')
    ensures Shape(fs) && Shape(fs') && Good(fs') && PathsKept(fs, fs')
  {
    hide *;
    InvParts(fs, o);
    LeadsKeptIs(fs, fs', o');
    GoodIs(fs', o');
    forall q, g | IsString(q) && FileOpen(fs, q) == Found(fs, 0, g) ensures FileOpen(fs', q) == Found(fs', 0, g) {
      OpenExact(fs, o, q, g);
      ElemsAre(q);
      OpenExact(fs', o', q, g);
    }
    PathsKeptJoin(fs, fs');
  }

  /** file_open: a failure fills holes at most. */
  lemma OpenKeeps(fs: Fs, o: Owners, path: Name) returns (o': Owners)
    requires Inv(fs, o) && DirsOk(fs, o) && IsString(path)
    ensures Shape(fs) && LeadsKept(fs, FileOpen(fs, path).fs, o') && FileOpen(fs, path).rc <= 0
    ensures FileOpen(fs, path).rc == 0 ==> FileOpen(fs, path).fs == fs && o' == o && Known(fs, o, FileOpen(fs, path).file)
    ensures FileOpen(fs, path).rc == 0 ==> LeadsSomewhere(fs, Elems(path))
  {
    hide *;
    o' := PathLeads(fs, o, path);
    var w := WalkPath(fs, path);
    WalkedIs(fs, o, ROOT, Elems(path), w, o');
    OpenForm(fs, path);
    SomewhereIs(fs, Elems(path), w.file);
    if w.rc == 0 {
      o' := o;
      RootKnown(fs, o);
      LeadsUnique(fs, o, ROOT, Elems(path), w.file, w.file);
      TreeSelf(fs, o);
    }
    TreeLeads(fs, o, w.fs, o');
  }

  /** What the first part of serve_open returns: a file that the path now opens.  It is a directory only if
      the path opened it before, and then nothing has changed. */
  ghost predicate Opened(fs: Fs, path: Name, create: bool, excl: bool, f: Found, o1: Owners)
    requires Shape(fs) && Shape(f.fs)
  {
    && LeadsKept(fs, f.fs, o1) && f.rc <= 0
    && (f.rc == 0 ==> Known(f.fs, o1, f.file) && FileOpen(f.fs, path) == Found(f.fs, 0, f.file))
    && (f.rc == 0 && IsDir(f.fs, f.file) ==> f.fs == fs)
    && (f.rc == 0 && create && excl ==> FileOpen(fs, path).rc != 0)
    && (FileOpen(fs, path).rc == 0 && !(create && excl) ==> f == FileOpen(fs, path))
    && (FileOpen(fs, path).rc == 0 && create && excl ==> f.rc == E_FILE_EXISTS)
  }

  lemma OpenedIs(fs: Fs, path: Name, create: bool, excl: bool, f: Found, o1: Owners)
    requires Shape(fs) && Shape(f.fs) && Opened(fs, path, create, excl, f, o1)
    ensures LeadsKept(fs, f.fs, o1) && f.rc <= 0
    ensures f.rc == 0 ==> Known(f.fs, o1, f.file) && FileOpen(f.fs, path) == Found(f.fs, 0, f.file)
    ensures f.rc == 0 && IsDir(f.fs, f.file) ==> f.fs == fs
    ensures f.rc == 0 && create && excl ==> FileOpen(fs, path).rc != 0
    ensures FileOpen(fs, path).rc == 0 && !(create && excl) ==> f == FileOpen(fs, path)
    ensures FileOpen(fs, path).rc == 0 && create && excl ==> f.rc == E_FILE_EXISTS
  {
    hide LeadsKept, Known, FileOpen, IsDir;
  }

  lemma OpenedJoin(fs: Fs, path: Name, create: bool, excl: bool, f: Found, o1: Owners)
    requires Shape(fs) && Shape(f.fs) && LeadsKept(fs, f.fs, o1) && f.rc <= 0
    requires f.rc == 0 ==> Known(f.fs, o1, f.file) && FileOpen(f.fs, path) == Found(f.fs, 0, f.file)
    requires f.rc == 0 && IsDir(f.fs, f.file) ==> f.fs == fs
    requires f.rc == 0 && create && excl ==> FileOpen(fs, path).rc != 0
    requires FileOpen(fs, path).rc == 0 && !(create && excl) ==> f == FileOpen(fs, path)
    requires FileOpen(fs, path).rc == 0 && create && excl ==> f.rc == E_FILE_EXISTS
    ensures Opened(fs, path, create, excl, f, o1)
  {
    hide LeadsKept, Known, FileOpen, IsDir;
  }

  lemma FoundForm(fs: Fs, path: Name)
    requires Shape(fs)
    ensures var op := FileOpen(fs, path); op.rc == 0 && op.fs == fs ==> op == Found(fs, 0, op.file)
  {
    hide FileOpen;
  }

  lemma OpenFileForm(fs: Fs, path: Name, create: bool, excl: bool)
    requires Shape(fs)
    ensures !create ==> OpenFile(fs, path, create, excl) == FileOpen(fs, path)
    ensures create ==> var c := FileCreate(fs, path);
                       OpenFile(fs, path, create, excl) == if c.rc == E_FILE_EXISTS && !excl then FileOpen(c.fs, path) else c
    ensures E_FILE_EXISTS < 0
  {
    hide FileOpen, FileCreate;
  }

  /** A path that leads somewhere is opened, not created. */
  lemma ExistsForm(fs: Fs, o: Owners, path: Name)
    requires Inv(fs, o) && DirsOk(fs, o) && IsString(path)
    ensures Shape(fs) && (LeadsSomewhere(fs, Elems(path)) <==> FileOpen(fs, path).rc == 0)
    ensures FileOpen(fs, path).rc == 0 ==> FileCreate(fs, path).fs == fs && FileOpen(fs, path).fs == fs
  {
    hide *;
    var o1 := PathLeads(fs, o, path);
    var w := WalkPath(fs, path);
    WalkedIs(fs, o, ROOT, Elems(path), w, o1);
    SomewhereIs(fs, Elems(path), w.file);
    OpenForm(fs, path);
    CreateForm(fs, path);
  }

  lemma OpenFileKeeps(fs: Fs, o: Owners, path: Name, create: bool, excl: bool) returns (o1: Owners)
    requires Inv(fs, o) && DirsOk(fs, o) && IsString(path)
    ensures Shape(fs) && Opened(fs, path, create, excl, OpenFile(fs, path, create, excl), o1)
  {
    hide *;
    InvParts(fs, o);
    var f := OpenFile(fs, path, create, excl);
    OpenFileForm(fs, path, create, excl);
    o1 := OpenKeeps(fs, o, path);
    FoundForm(fs, path);
    if create {
      var c := FileCreate(fs, path);
      ExistsForm(fs, o, path);
      var o2 := CreateLeads(fs, o, path);
      CreatedParts(fs, o, Elems(path), c, o2);
      if c.rc != 0 { TreeLeads(fs, o, c.fs, o2); } else { LeadsKeptJoin(fs, c.fs, o2); }
      LeadsKeptIs(fs, c.fs, o2);
      OpenExact(c.fs, o2, path, c.file);
      RegularIs(c.fs, o2, c.file);
      if !(c.rc == E_FILE_EXISTS && !excl) { o1 := o2; }
    }
    OpenedJoin(fs, path, create, excl, f, o1);
  }

  /** Reading a file of any kind. */
  lemma ReadServed(fs: Fs, o: Owners, f: File, count: nat, offset: nat) returns (o': Owners)
    requires Inv(fs, o) && DirsOk(fs, o) && Known(fs, o, f)
    ensures At(fs, f) && LeadsKept(fs, FileRead(fs, f, count, offset).fs, o')
  {
    hide *;
    o' := ReadReturnsBytes(fs, o, f, count, offset);
    FillsGrows(fs, o, f, FileRead(fs, f, count, offset).fs, o');
    GrowsTree(fs, o, f, FileRead(fs, f, count, offset).fs, o');
    TreeLeads(fs, o, FileRead(fs, f, count, offset).fs, o');
  }

  lemma WriteServed(fs: Fs, o: Owners, f: File, buf: seq<Byte>, offset: nat) returns (o': Owners)
    requires Inv(fs, o) && DirsOk(fs, o) && Regular(fs, o, f) && Fits(offset + |buf|) && offset + |buf| < 0x1_0000_0000
    ensures At(fs, f) && LeadsKept(fs, FileWrite(fs, f, buf, offset).0, o')
  {
    hide *;
    var k;
    o', k := WriteStores(fs, o, f, buf, offset);
    WriteTree(fs, o, f, NewSize(fs, f, offset, buf), offset, buf[..k], FileWrite(fs, f, buf, offset).0, o');
    TreeLeads(fs, o, FileWrite(fs, f, buf, offset).0, o');
  }

  lemma SizeServed(fs: Fs, o: Owners, f: File, n: Long) returns (o': Owners)
    requires Inv(fs, o) && DirsOk(fs, o) && Regular(fs, o, f) && Fits(n)
    ensures At(fs, f) && LeadsKept(fs, FileSetSize(fs, f, n), o')
  {
    hide *;
    SetSizeKeeps(fs, o, f, n);
    o' := Less(o, Removed(fs, f, n));
    SetSizeTree(fs, o, f, n, FileSetSize(fs, f, n), o');
    TreeLeads(fs, o, FileSetSize(fs, f, n), o');
  }

  /* ---- one request ---- */

  /** The disk stays in order exactly if inOrder, and no path is lost exactly if kept. */
  ghost predicate Exact(fs: Fs, fs': Fs, inOrder: bool, kept: bool)
    requires Shape(fs)
  {
    Shape(fs') && (Good(fs') <==> inOrder) && (PathsKept(fs, fs') <==> kept)
  }

  lemma ExactKept(fs: Fs, o: Owners, fs': Fs, o': Owners)
    requires Inv(fs, o) && DirsOk(fs, o) && Shape(fs) && LeadsKept(fs, fs', o')
    ensures Exact(fs, fs', true, true)
  {
    KeptBoth(fs, o, fs', o');
    hide Inv, DirsOk, LeadsKept, Good, PathsKept;
  }

  lemma ExactIs(fs: Fs, fs': Fs, inOrder: bool, kept: bool)
    requires Shape(fs)
    ensures Exact(fs, fs', inOrder, kept) <==> Shape(fs') && (Good(fs') <==> inOrder) && (PathsKept(fs, fs') <==> kept)
  {
    hide Good, PathsKept;
  }

  lemma GoodOrdered(fs: Fs)
    requires Good(fs)
    ensures Ordered(fs)
  {
    hide *;
    var o := GoodOwners(fs);
    OrderedIs(fs, o);
  }

  lemma SizeOkIs(fs: Fs, f: File, n: int)
    ensures SizeOk(fs, f, n) <==> Fits(n) && (IsDir(fs, f) ==> n % BLKSIZE == 0 && BarrenPast(fs, f, NBlocks(n)))
    ensures Fits(n) ==> 0 <= n
  {
    hide IsDir, BarrenPast, NBlocks;
  }

  /** The file that path q opens is resized. */
  lemma ResizeServed(fs: Fs, o: Owners, f: File, n: Long, q: Name)
    requires Inv(fs, o) && DirsOk(fs, o) && Shape(fs) && Known(fs, o, f) && IsString(q) && FileOpen(fs, q) == Found(fs, 0, f)
    ensures At(fs, f) && Exact(fs, FileSetSize(fs, f, n), SizeOk(fs, f, n), Sparing(fs, f, n))
  {
    hide *;
    SizeOkIs(fs, f, n);
    SetSizePathsExact(fs, o, f, n, q);
    var fs' := FileSetSize(fs, f, n);
    KnownDirIs(fs, o, f);
    RegularIs(fs, o, f);
    if IsDir(fs, f) {
      SetSizeDirExact(fs, o, f, n);
    } else {
      SetSizeKeeps(fs, o, f, n);
      if Good(fs') { GoodOrdered(fs'); }
      if Fits(n) {
        var o' := SizeServed(fs, o, f, n);
        KeptBoth(fs, o, fs', o');
      }
    }
    ExactIs(fs, fs', SizeOk(fs, f, n), Sparing(fs, f, n));
  }

  lemma ClipFits(buf: seq<Byte>, offset: Offset)
    ensures |Clip(buf)| <= BLKSIZE && offset + |Clip(buf)| < 0x1_0000_0000 && offset < 0x8000_0000
  {
  }

  /** A regular file is written: only a size that does not fit does harm. */
  lemma WriteExact(fs: Fs, o: Owners, f: File, buf: seq<Byte>, offset: Offset, q: Name)
    requires Inv(fs, o) && DirsOk(fs, o) && Shape(fs) && Regular(fs, o, f) && IsString(q) && FileOpen(fs, q) == Found(fs, 0, f)
    requires |buf| <= BLKSIZE && offset + |buf| < 0x1_0000_0000
    ensures At(fs, f) && Exact(fs, FileWrite(fs, f, buf, offset).0, Fits(offset + |buf|), true)
  {
    hide *;
    RegularIs(fs, o, f);
    if Fits(offset + |buf|) {
      var o' := WriteServed(fs, o, f, buf, offset);
      ExactKept(fs, o, FileWrite(fs, f, buf, offset).0, o');
    } else {
      var n := Wrap32(offset + |buf|);
      StillUnfit(offset + |buf|);
      WriteUnfit(fs, o, f, buf, offset);
      ResizeServed(fs, o, f, n, q);
      SizeOkIs(fs, f, n);
      SparingIs(fs, f, n);
      ExactIs(fs, FileSetSize(fs, f, n), SizeOk(fs, f, n), Sparing(fs, f, n));
    }
    ExactIs(fs, FileWrite(fs, f, buf, offset).0, Fits(offset + |buf|), true);
  }

  lemma StillUnfit(n: nat)
    requires n < 0x1_0000_0000 && !Fits(n)
    ensures !Fits(Wrap32(n))
  {
  }

  lemma PerformForm(fs: Fs, f: File, r: Request)
    requires At(fs, f)
    ensures r.Read? ==> exists n: nat :: Perform(fs, f, r) == FileRead(fs, f, n, r.offset).fs
    ensures r.Write? ==> |Clip(r.buf)| <= BLKSIZE && r.offset + |Clip(r.buf)| < 0x1_0000_0000
    ensures r.Write? ==> Perform(fs, f, r) == FileWrite(fs, f, Clip(r.buf), r.offset).0
    ensures r.SetSize? ==> Perform(fs, f, r) == FileSetSize(fs, f, r.size)
  {
    if r.Read? {
      var n: nat := Min(r.count, BLKSIZE);
      assert Perform(fs, f, r) == FileRead(fs, f, n, r.offset).fs;
    }
    hide FileRead, FileWrite, FileSetSize;
  }

  /** A request on an open file, but for writing to a directory. */
  lemma Performed(fs: Fs, o: Owners, f: File, r: Request, q: Name)
    requires Inv(fs, o) && DirsOk(fs, o) && Shape(fs) && Known(fs, o, f) && IsString(q) && FileOpen(fs, q) == Found(fs, 0, f)
    requires (r.Read? || r.Write? || r.SetSize?) && (r.Write? ==> !IsDir(fs, f))
    ensures At(fs, f)
    ensures Exact(fs, Perform(fs, f, r),
                  (r.SetSize? ==> SizeOk(fs, f, r.size)) && (r.Write? ==> Fits(r.offset + |Clip(r.buf)|)),
                  r.SetSize? ==> Sparing(fs, f, r.size))
  {
    hide *;
    SizeIs(fs, o, f);
    RegularIs(fs, o, f);
    PerformForm(fs, f, r);
    match r {
      case Read(_, _, offset) =>
        var n: nat :| Perform(fs, f, r) == FileRead(fs, f, n, offset).fs;
        var o' := ReadServed(fs, o, f, n, offset);
        ExactKept(fs, o, Perform(fs, f, r), o');
      case Write(_, buf, offset) =>
        ClipFits(buf, offset);
        WriteExact(fs, o, f, Clip(buf), offset, q);
      case SetSize(_, size) =>
        ResizeServed(fs, o, f, size, q);
      case _ =>
    }
  }

  lemma ServeOpenForm(fs: Fs, path: Name, create: bool, excl: bool, trunc: bool)
    requires Shape(fs)
    ensures var f := OpenFile(fs, path, create, excl);
            && (f.rc < 0 ==> ServeOpen(fs, path, create, excl, trunc) == f)
            && (f.rc == 0 && At(f.fs, f.file) ==>
                  ServeOpen(fs, path, create, excl, trunc) == FileOpen(if trunc then FileSetSize(f.fs, f.file, 0) else f.fs, path))
  {
    hide FileOpen, OpenFile, FileSetSize;
  }

  lemma ResizedIs(s: Server, r: Request)
    requires Shape(s.fs)
    ensures r.Open? ==> var f := Resized(s, r);
              && (f.Some? <==> r.trunc && !(r.create && r.excl) && FileOpen(s.fs, r.path).rc == 0)
              && (f.Some? ==> f.value == FileOpen(s.fs, r.path).file) && NewLength(r) == 0
    ensures r.SetSize? ==> Resized(s, r) == (if r.id in s.open then Some(s.open[r.id]) else None) && NewLength(r) == r.size
    ensures !r.Open? && !r.SetSize? ==> Resized(s, r) == None
    ensures r.Open? ==> IsString(r.path)
  {
    hide FileOpen;
  }

  lemma GuardsAre(s: Server, r: Request)
    requires Shape(s.fs)
    ensures OrderGuard(s, r) <==> && (Resized(s, r).Some? ==> SizeOk(s.fs, Resized(s, r).value, NewLength(r)))
                                  && (r.Write? && r.id in s.open ==> Fits(r.offset + |Clip(r.buf)|))
    ensures PathGuard(s, r) <==> (Resized(s, r).Some? ==> Sparing(s.fs, Resized(s, r).value, NewLength(r)))
    ensures WritesDir(s, r) <==> r.Write? && r.id in s.open && IsDir(s.fs, s.open[r.id])
  {
    hide Resized, SizeOk, Sparing, IsDir, Fits;
  }

  /** serve_open: exactly when it keeps order and paths; a file it returns is one that the path opens. */
  lemma OpenServed(s: Server, o: Owners, r: Request)
    requires Inv(s.fs, o) && DirsOk(s.fs, o) && Shape(s.fs) && r.Open?
    ensures var f := ServeOpen(s.fs, r.path, r.create, r.excl, r.trunc);
            && Exact(s.fs, f.fs, OrderGuard(s, r), PathGuard(s, r))
            && (f.rc == 0 ==> FileOpen(f.fs, r.path) == Found(f.fs, 0, f.file))
  {
    hide *;
    var fs := s.fs;
    ResizedIs(s, r);
    GuardsAre(s, r);
    var f := OpenFile(fs, r.path, r.create, r.excl);
    var o1 := OpenFileKeeps(fs, o, r.path, r.create, r.excl);
    OpenedIs(fs, r.path, r.create, r.excl, f, o1);
    var _ := OpenKeeps(fs, o, r.path);
    LeadsKeptIs(fs, f.fs, o1);
    FileExistsDiffers();
    if f.rc == 0 { SizeIs(f.fs, o1, f.file); }
    ServeOpenForm(fs, r.path, r.create, r.excl, r.trunc);
    if f.rc != 0 || !r.trunc {
      ExactKept(fs, o, f.fs, o1);
    } else if Resized(s, r).Some? {
      KnownAgain(fs, o, r.path, f.file);
      ResizeServed(fs, o, f.file, 0, r.path);
      SetSizeCuts(fs, o, f.file, 0);
      OpenKept(fs, o, f.file, 0, FileSetSize(fs, f.file, 0), r.path, f.file);
    } else {
      NewTruncated(fs, o, f, o1, r.path);
    }
  }

  lemma KnownAgain(fs: Fs, o: Owners, path: Name, f: File)
    requires Inv(fs, o) && DirsOk(fs, o) && Shape(fs) && IsString(path) && FileOpen(fs, path) == Found(fs, 0, f)
    ensures Known(fs, o, f)
  {
    hide *;
    var _ := OpenKeeps(fs, o, path);
  }

  /** A new file is truncated. */
  lemma NewTruncated(fs: Fs, o: Owners, f: Found, o1: Owners, path: Name)
    requires Inv(fs, o) && DirsOk(fs, o) && Shape(fs) && LeadsKept(fs, f.fs, o1) && IsString(path) && Shape(f.fs)
    requires FileOpen(fs, path).rc != 0 && FileOpen(f.fs, path) == Found(f.fs, 0, f.file) && Known(f.fs, o1, f.file)
    requires IsDir(f.fs, f.file) ==> f.fs == fs
    ensures At(f.fs, f.file)
    ensures var fs' := FileSetSize(f.fs, f.file, 0); Exact(fs, fs', true, true) && FileOpen(fs', path) == Found(fs', 0, f.file)
  {
    hide *;
    LeadsKeptIs(fs, f.fs, o1);
    RegularIs(f.fs, o1, f.file);
    ZeroFits();
    var o2 := SizeServed(f.fs, o1, f.file, 0);
    var fs' := FileSetSize(f.fs, f.file, 0);
    LeadsThen(fs, f.fs, o1, fs', o2);
    KeptBoth(f.fs, o1, fs', o2);
    PathsKeptAt(f.fs, fs', path, f.file);
    ExactKept(fs, o, fs', o2);
  }

  lemma ZeroFits()
    ensures Fits(0)
  {
  }

  lemma HasPathBy(fs: Fs, f: File) returns (q: Path)
    requires Shape(fs) && HasPath(fs, f)
    ensures FileOpen(fs, q) == Found(fs, 0, f)
  {
    hide FileOpen;
    q :| FileOpen(fs, q) == Found(fs, 0, f);
  }

  lemma HasPathIs(fs: Fs, f: File, q: Path)
    requires Shape(fs) && FileOpen(fs, q) == Found(fs, 0, f)
    ensures HasPath(fs, f)
  {
    hide FileOpen;
  }

  lemma InOrderIs(s: Server)
    ensures InOrder(s) <==> Shape(s.fs) && Good(s.fs) && forall id :: id in s.open ==> HasPath(s.fs, s.open[id])
  {
    hide Good, HasPath;
  }

  /** The file behind an id is a file of the disk. */
  lemma OpenFileKnown(s: Server, id: nat) returns (o: Owners)
    requires InOrder(s) && id in s.open
    ensures Inv(s.fs, o) && DirsOk(s.fs, o) && Known(s.fs, o, s.open[id]) && At(s.fs, s.open[id])
  {
    hide *;
    InOrderIs(s);
    o := GoodOwners(s.fs);
    var q := HasPathBy(s.fs, s.open[id]);
    KnownAgain(s.fs, o, q, s.open[id]);
    SizeIs(s.fs, o, s.open[id]);
  }

  lemma ServeForm(s: Server, r: Request)
    requires Shape(s.fs)
    ensures r.Open? ==> var f := ServeOpen(s.fs, r.path, r.create, r.excl, r.trunc);
                        Serve(s, r) == Server(f.fs, if f.rc == 0 then s.open[r.id := f.file] else s.open)
    ensures r.Close? ==> Serve(s, r) == Server(s.fs, s.open - {r.id})
    ensures !r.Open? && !r.Close? ==>
      if r.id !in s.open then Serve(s, r) == s
      else At(s.fs, s.open[r.id]) ==> Serve(s, r) == Server(Perform(s.fs, s.open[r.id], r), s.open)
  {
    hide ServeOpen, Perform;
  }

  /** Every request but a write to a directory: it leaves the disk in order if and only if OrderGuard holds,
      and no path that opened a file is lost if and only if PathGuard does; then every id still stands for
      a file that a path opens. */
  lemma ServeExact(s: Server, r: Request)
    requires InOrder(s) && !WritesDir(s, r)
    ensures Good(Serve(s, r).fs) <==> OrderGuard(s, r)
    ensures PathsKept(s.fs, Serve(s, r).fs) <==> PathGuard(s, r)
    ensures PathGuard(s, r) ==> forall id :: id in Serve(s, r).open ==> HasPath(Serve(s, r).fs, Serve(s, r).open[id])
  {
    hide *;
    InOrderIs(s);
    var o := GoodOwners(s.fs);
    var s' := Serve(s, r);
    ServeForm(s, r);
    ResizedIs(s, r);
    GuardsAre(s, r);
    if r.Open? {
      OpenServed(s, o, r);
    } else if r.Close? || r.id !in s.open {
      ExactSame(s.fs);
    } else {
      var f := s.open[r.id];
      var q := HasPathBy(s.fs, f);
      KnownAgain(s.fs, o, q, f);
      Performed(s.fs, o, f, r, q);
    }
    ExactIs(s.fs, s'.fs, OrderGuard(s, r), PathGuard(s, r));
    if PathGuard(s, r) {
      forall id | id in s'.open ensures HasPath(s'.fs, s'.open[id]) {
        if r.Open? && id == r.id && ServeOpen(s.fs, r.path, r.create, r.excl, r.trunc).rc == 0 {
          HasPathIs(s'.fs, s'.open[id], r.path);
        } else {
          var q := HasPathBy(s.fs, s.open[id]);
          PathsKeptAt(s.fs, s'.fs, q, s.open[id]);
          HasPathIs(s'.fs, s.open[id], q);
        }
      }
    }
  }

  lemma ExactSame(fs: Fs)
    requires Good(fs) && Shape(fs)
    ensures Exact(fs, fs, true, true)
  {
    hide Good, FileOpen;
  }

  /* ---- runs ---- */

  function Run(s: Server, rs: seq<Request>): (s': Server)
    requires Shape(s.fs)
    ensures Shape(s'.fs)
    decreases |rs|
  {
    if rs == [] then s else Run(Serve(s, rs[0]), rs[1..])
  }

  /** Each request respects the guards when its turn comes. */
  ghost predicate Guarded(s: Server, rs: seq<Request>)
    requires Shape(s.fs)
    decreases |rs|
  {
    rs == [] || (Guard(s, rs[0]) && Guarded(Serve(s, rs[0]), rs[1..]))
  }

  lemma ServeKeeps(s: Server, r: Request)
    requires InOrder(s) && Guard(s, r)
    ensures InOrder(Serve(s, r)) && PathsKept(s.fs, Serve(s, r).fs)
  {
    InOrderIs(s);
    InOrderIs(Serve(s, r));
    hide Good, Serve, PathsKept, OrderGuard, PathGuard, WritesDir, HasPath, Shape, InOrder;
    ServeExact(s, r);
  }

  /** Over any guarded run everything stays in order, and a path that once led to a file leads to it for
      ever. */
  lemma {:induction false} RunKeeps(s: Server, rs: seq<Request>, q: Path, g: File)
    requires InOrder(s) && Guarded(s, rs)
    ensures InOrder(Run(s, rs))
    ensures FileOpen(s.fs, q) == Found(s.fs, 0, g) ==> var fs' := Run(s, rs).fs; FileOpen(fs', q) == Found(fs', 0, g)
    decreases |rs|
  {
    InOrderIs(s);
    hide Good, Serve, FileOpen, Shape, PathsKept, Guard, InOrder;
    if rs != [] {
      var s1 := Serve(s, rs[0]);
      ServeKeeps(s, rs[0]);
      InOrderIs(s1);
      if FileOpen(s.fs, q) == Found(s.fs, 0, g) { PathsKeptAt(s.fs, s1.fs, q, g); }
      RunKeeps(s1, rs[1..], q, g);
    }
  }
}
