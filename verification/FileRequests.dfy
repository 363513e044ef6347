/** What clients of the file server see: bytes written are the bytes read, sizes set are the sizes files have, and a
    request disturbs no other file. */
module FileRequests {
  import opened Words
  import opened Disk
  import opened FileSystem
  import opened FileOwnership
  import opened FreeSpace
  import opened FileContents
  import opened FileTruncation
  import opened FileBytes
  import opened Paths
  import opened Directories
  import opened PathWalk
  import opened PathBytes
  import opened FileSystemRuns

  /** An id for file f, on a server in order whose blocks have the owners o. */
  ghost predicate Stands(s: Server, o: Owners, id: nat, f: File) {
    InOrder(s) && Inv(s.fs, o) && DirsOk(s.fs, o) && id in s.open && s.open[id] == f
  }

  lemma StandsIs(s: Server, o: Owners, id: nat, f: File)
    requires Stands(s, o, id, f)
    ensures InOrder(s) && Inv(s.fs, o) && DirsOk(s.fs, o) && Shape(s.fs) && id in s.open && s.open[id] == f
    ensures Known(s.fs, o, f) && At(s.fs, f)
  {
    hide *;
    StandsParts(s, o, id, f);
    var p := OpenFileKnown(s, id);
    OwnersUnique(s.fs, o, p);
    InvParts(s.fs, o);
  }

  lemma StandsParts(s: Server, o: Owners, id: nat, f: File)
    requires Stands(s, o, id, f)
    ensures InOrder(s) && Inv(s.fs, o) && DirsOk(s.fs, o) && id in s.open && s.open[id] == f
  {
    hide InOrder, Inv, DirsOk;
  }

  /** The request on the file behind the id. */
  lemma OnFile(s: Server, id: nat, f: File, r: Request)
    requires Shape(s.fs) && id in s.open && s.open[id] == f && At(s.fs, f) && !r.Open? && !r.Close? && r.id == id
    ensures Serve(s, r) == Server(Perform(s.fs, f, r), s.open) && Answer(s, r) == AnswerOn(s.fs, f, r)
  {
    hide Perform, AnswerOn;
  }

  /** No more than a page at a time. */
  function PageOf(n: nat): (r: nat)
    ensures r <= n
  {
    if n > 4096 then 4096 else n
  }

  lemma ClipIs(buf: seq<Byte>)
    ensures Clip(buf) == buf[..PageOf(|buf|)]
  {
  }

  /* ---- writing ---- */

  /** Of the regular files exactly bytes lo to lo + |t| - 1 of f have changed, to t, and at most the size of f. */
  ghost predicate OnlyBytes(fs: Fs, o: Owners, f: File, lo: nat, t: seq<Byte>, fs': Fs) {
    && Shape(fs) && Shape(fs')
    && (forall g, p: nat :: Regular(fs, o, g) ==>
          ByteAt(fs', g, p) == if g == f && lo <= p < lo + |t| then t[p - lo] else ByteAt(fs, g, p))
    && (forall g :: Regular(fs, o, g) && g != f ==> Size(fs', g) == Size(fs, g))
  }

  lemma StoredOnly(fs: Fs, o: Owners, f: File, size: nat, pos: nat, t: seq<Byte>, fs': Fs, o': Owners)
    requires Stored(fs, o, f, size, pos, t, fs', o')
    ensures OnlyBytes(fs, o, f, pos, t, fs')
  {
    assert forall g: File :: IsCell(Part(g, SIZE)) && !IsSlot(Part(g, SIZE));
    hide Known, Value, ByteAt;
  }

  lemma WriteAnswer(fs: Fs, f: File, id: nat, buf: seq<Byte>, offset: Offset)
    requires At(fs, f)
    ensures var (r, t) := (Write(id, buf, offset), buf[..PageOf(|buf|)]);
            && Perform(fs, f, r) == FileWrite(fs, f, t, offset).0
            && AnswerOn(fs, f, r) == Reply(FileWrite(fs, f, t, offset).1, [], if FileWrite(fs, f, t, offset).1 < 0 then offset
                                                                            else offset + FileWrite(fs, f, t, offset).1)
  {
    ClipIs(buf);
    hide FileWrite;
  }

  lemma ReadAnswer(fs: Fs, f: File, id: nat, count: nat, offset: Offset)
    requires At(fs, f)
    ensures var (r, a) := (Read(id, count, offset), FileRead(fs, f, PageOf(count), offset));
            && Perform(fs, f, r) == a.fs
            && AnswerOn(fs, f, r) == Reply(a.rc, a.bytes, if a.rc < 0 then offset else offset + a.rc)
  {
    hide FileRead;
  }

  lemma Codes()
    ensures E_NO_DISK < 0 && E_INVAL < 0 && E_NO_DISK != E_INVAL && E_FILE_EXISTS < 0
    ensures PageOf(PageOf(0)) == 0
  {
  }

  lemma PageAgain(n: nat)
    ensures PageOf(PageOf(n)) == PageOf(n) <= BLKSIZE
  {
  }

  /** serve_write on a regular file, for at most a page of the client's bytes: it returns their number exactly if there
      is room for them, and then advances the seek position, and whoever reads that range gets exactly these bytes,
      without any change to the disk.  Otherwise a prefix of them is stored, the disk is full or the file at its
      largest, and the position stays.  Either way the size is set first, and no other byte of any regular file
      and no other size changes. */
  lemma WriteReplies(s: Server, o: Owners, id: nat, f: File, buf: seq<Byte>, offset: Offset) returns (k: nat)
    requires Stands(s, o, id, f) && !IsDir(s.fs, f) && Fits(offset + PageOf(|buf|))
    ensures k <= |buf| && Shape(s.fs)
    ensures var (s', a, n) := (Serve(s, Write(id, buf, offset)), Answer(s, Write(id, buf, offset)), PageOf(|buf|));
            && s'.open == s.open
            && (a.rc == n <==> RoomFor(s.fs, f, offset, offset + n))
            && (a.rc == n ==> && a == Reply(n, [], offset + n) && k == n
                              && Answer(s', Read(id, n, offset)) == Reply(n, buf[..n], offset + n)
                              && Serve(s', Read(id, n, offset)) == s')
            && (a.rc != n ==> && a.rc < 0 && a.next == offset
                              && ((a.rc == E_NO_DISK && Room(s'.fs) == 0) || (a.rc == E_INVAL && offset + n > MAXFILESIZE)))
            && Size(s'.fs, f) == (if offset + n > Size(s.fs, f) then offset + n else Size(s.fs, f))
            && OnlyBytes(s.fs, o, f, offset, buf[..k], s'.fs)
  {
    hide *;
    StandsIs(s, o, id, f);
    SizeIs(s.fs, o, f);
    RegularIs(s.fs, o, f);
    var (n, t, r) := (PageOf(|buf|), buf[..PageOf(|buf|)], Write(id, buf, offset));
    OnFile(s, id, f, r);
    WriteAnswer(s.fs, f, id, buf, offset);
    Codes();
    PageAgain(|buf|);
    NewSizeIs(s.fs, f, offset, t);
    var o', j := WriteStores(s.fs, o, f, t, offset);
    var s' := Serve(s, r);
    k := j;
    assert t[..j] == buf[..k];
    StoredParts(s.fs, o, f, NewSize(s.fs, f, offset, t), offset, t[..j], s'.fs, o');
    StoredOnly(s.fs, o, f, NewSize(s.fs, f, offset, t), offset, t[..j], s'.fs, o');
    if FileWrite(s.fs, f, t, offset).1 == n {
      WriteThenRead(s.fs, o, f, t, offset);
      OnFile(s', id, f, Read(id, n, offset));
      ReadAnswer(s'.fs, f, id, n, offset);
    }
  }

  /** A range that ends past what an off_t can hold, rounded up to blocks, is refused, unless it is empty; no byte is
      stored. */
  lemma WriteTooFar(s: Server, o: Owners, id: nat, f: File, buf: seq<Byte>, offset: Offset)
    requires Stands(s, o, id, f) && !Fits(offset + PageOf(|buf|))
    ensures Shape(s.fs) && Answer(s, Write(id, buf, offset)) == Reply(if buf == [] then 0 else E_INVAL, [], offset)
  {
    hide *;
    StandsIs(s, o, id, f);
    OnFile(s, id, f, Write(id, buf, offset));
    WriteAnswer(s.fs, f, id, buf, offset);
    Codes();
    PageAgain(|buf|);
    EmptyPage(buf);
    WriteUnfit(s.fs, o, f, buf[..PageOf(|buf|)], offset);
  }

  lemma EmptyPage(buf: seq<Byte>)
    ensures buf[..PageOf(|buf|)] == [] <==> buf == []
  {
  }

  /* ---- reading ---- */

  /** The bytes a read may get: at most a page, and none past the end of the file. */
  function Available(fs: Fs, f: File, count: nat, offset: nat): nat {
    if offset >= Size(fs, f) then 0
    else if PageOf(count) < Size(fs, f) - offset then PageOf(count) else Size(fs, f) - offset
  }

  lemma AvailableIs(fs: Fs, f: File, count: nat, offset: nat)
    ensures Available(fs, f, count, offset) == ReadLength(fs, f, PageOf(count), offset)
  {
    hide Size;
  }

  /** serve_read returns the bytes of the file from the seek position on, as many as there are up to a page, exactly if
      there is room for the holes among them, and advances the position; otherwise it fails and the position stays.
      No regular file changes, and nothing at all if there is no hole. */
  lemma ReadReplies(s: Server, o: Owners, id: nat, f: File, count: nat, offset: Offset) returns (o': Owners)
    requires Stands(s, o, id, f)
    ensures Shape(s.fs)
    ensures var (s', a) := (Serve(s, Read(id, count, offset)), Answer(s, Read(id, count, offset)));
            var n := Available(s.fs, f, count, offset);
            && s'.open == s.open && SameFiles(s.fs, o, s'.fs, o')
            && (a.rc == n <==> RoomFor(s.fs, f, offset, offset + n))
            && (a.rc == n ==> |a.buf| == n && a.next == offset + n)
            && (a.rc == n ==> forall i | 0 <= i < n :: a.buf[i] == ByteAt(s.fs, f, offset + i))
            && (a.rc != n ==> a.rc < 0 && a.next == offset)
            && (NoHoles(s.fs, f, offset, offset + n) ==> a.rc == n && s' == s)
  {
    hide *;
    StandsIs(s, o, id, f);
    RegularIs(s.fs, o, f);
    OnFile(s, id, f, Read(id, count, offset));
    ReadAnswer(s.fs, f, id, count, offset);
    AvailableIs(s.fs, f, count, offset);
    Codes();
    o' := FileBytes.ReadReturnsBytes(s.fs, o, f, PageOf(count), offset);
    FillsSame(s.fs, o, f, FileRead(s.fs, f, PageOf(count), offset).fs, o');
  }

  /* ---- resizing ---- */

  /** f has size n; its blocks past that, whole, read as zeros; no other byte and no other size of a regular file
      changes. */
  ghost predicate SizeBecomes(fs: Fs, o: Owners, f: File, n: nat, fs': Fs) {
    && Shape(fs) && Shape(fs') && Size(fs', f) == n
    && (forall g :: Regular(fs, o, g) && g != f ==> Size(fs', g) == Size(fs, g))
    && (forall g, p: nat :: Regular(fs, o, g) ==>
          ByteAt(fs', g, p) == if g == f && p / 4096 * 4096 >= n then 0 else ByteAt(fs, g, p))
  }

  lemma SizedSizes(fs: Fs, o: Owners, f: File, n: Long, fs': Fs, o': Owners, g: File)
    requires SizeSet(fs, o, f, n, fs', o') && Known(fs, o, g) && Known(fs, o, f)
    ensures Size(fs', g) == if g == f then n else Size(fs, g)
  {
    SizeCell(g);
    NotRemoved(fs, f, n, g);
    hide Known, Value, Content, Removed, In;
  }

  lemma SizeCell(g: File)
    ensures IsCell(Part(g, SIZE)) && Part(g, SIZE).f == g
  {
  }

  lemma NotRemoved(fs: Fs, f: File, n: Long, g: File)
    ensures !In(Removed(fs, f, n), Part(g, SIZE))
  {
  }

  lemma PastBlocks(p: nat, n: nat)
    ensures NBlocks(n) <= BlockNo(p) <==> p / 4096 * 4096 >= n
  {
  }

  lemma ByteIs(fs: Fs, g: File, p: nat)
    requires Shape(fs)
    ensures ByteAt(fs, g, p) == GetByte(Content(fs, g, BlockNo(p)), BlockOffset(p))
    ensures GetByte(ZeroBlock(), BlockOffset(p)) == 0
    ensures BlockNo(p) >= END ==> Content(fs, g, BlockNo(p)) == ZeroBlock()
  {
    hide Value;
  }

  lemma SizedBytes(fs: Fs, o: Owners, f: File, n: Long, fs': Fs, o': Owners, g: File, p: nat)
    requires SizeSet(fs, o, f, n, fs', o') && Regular(fs, o, g) && Fits(n) && Shape(fs) && Shape(fs')
    ensures ByteAt(fs', g, p) == if g == f && p / 4096 * 4096 >= n then 0 else ByteAt(fs, g, p)
  {
    hide *;
    SizeSetContent(fs, o, f, n, fs', o', g, BlockNo(p));
    FitsIs(n);
    PastBlocks(p, n);
    ByteIs(fs, g, p);
    ByteIs(fs', g, p);
  }

  lemma FitsIs(n: int)
    ensures Fits(n) ==> 0 <= n
  {
  }

  lemma SetSized(fs: Fs, o: Owners, f: File, n: Long)
    requires Inv(fs, o) && Regular(fs, o, f) && Fits(n)
    ensures At(fs, f) && n >= 0 && SizeBecomes(fs, o, f, n, FileSetSize(fs, f, n))
  {
    hide *;
    FitsIs(n);
    InvParts(fs, o);
    SetSizeKeeps(fs, o, f, n);
    var (fs', o') := (FileSetSize(fs, f, n), Less(o, Removed(fs, f, n)));
    RegularIs(fs, o, f);
    SetSizeSize(fs, o, f, n, fs', o');
    forall g | Regular(fs, o, g) && g != f ensures Size(fs', g) == Size(fs, g) {
      RegularIs(fs, o, g);
      SizedSizes(fs, o, f, n, fs', o', g);
    }
    forall g, p: nat | Regular(fs, o, g)
      ensures ByteAt(fs', g, p) == if g == f && p / 4096 * 4096 >= n then 0 else ByteAt(fs, g, p)
    {
      SizedBytes(fs, o, f, n, fs', o', g, p);
    }
    SizedJoin(fs, o, f, n, fs');
  }

  lemma SizedJoin(fs: Fs, o: Owners, f: File, n: nat, fs': Fs)
    requires Shape(fs) && Shape(fs') && Size(fs', f) == n
    requires forall g :: Regular(fs, o, g) && g != f ==> Size(fs', g) == Size(fs, g)
    requires forall g, p: nat :: Regular(fs, o, g) ==>
               ByteAt(fs', g, p) == if g == f && p / 4096 * 4096 >= n then 0 else ByteAt(fs, g, p)
    ensures SizeBecomes(fs, o, f, n, fs')
  {
    hide Regular, ByteAt, Size;
  }

  /** serve_set_size on a regular file, with a size that fits, always succeeds. */
  lemma SetSizeReplies(s: Server, o: Owners, id: nat, f: File, n: Long)
    requires Stands(s, o, id, f) && !IsDir(s.fs, f) && Fits(n)
    ensures Shape(s.fs) && n >= 0
    ensures var (s', a) := (Serve(s, Request.SetSize(id, n)), Answer(s, Request.SetSize(id, n)));
            a.rc == 0 && s'.open == s.open && SizeBecomes(s.fs, o, f, n, s'.fs)
  {
    hide *;
    StandsIs(s, o, id, f);
    RegularIs(s.fs, o, f);
    OnFile(s, id, f, Request.SetSize(id, n));
    SetSized(s.fs, o, f, n);
    SetSizeAnswer(s.fs, f, id, n);
  }

  lemma SetSizeAnswer(fs: Fs, f: File, id: nat, n: Long)
    requires At(fs, f)
    ensures Perform(fs, f, Request.SetSize(id, n)) == FileSetSize(fs, f, n) && AnswerOn(fs, f, Request.SetSize(id, n)).rc == 0
  {
    hide FileSetSize;
  }

  /* ---- ids ---- */

  /** A request on an id that is not in use is refused, and changes nothing. */
  lemma UnknownReplies(s: Server, r: Request)
    requires Shape(s.fs) && (r.Read? || r.Write? || r.SetSize?) && r.id !in s.open
    ensures Serve(s, r) == s && Answer(s, r).rc == E_INVAL < 0 && Answer(s, r).buf == []
    ensures !r.SetSize? ==> Answer(s, r).next == r.offset
  {
  }

  /** Closing ends the use of that id and of no other. */
  lemma CloseReplies(s: Server, id: nat)
    requires Shape(s.fs)
    ensures var s' := Serve(s, Close(id));
            s'.fs == s.fs && s'.open.Keys == s.open.Keys - {id} && forall x :: x in s'.open ==> s'.open[x] == s.open[x]
  {
  }

  /* ---- opening ---- */

  /** The code of the first part of serve_open, and its effect on regular files. */
  lemma OpenFileResult(fs: Fs, o: Owners, path: Name, create: bool, excl: bool, o1: Owners)
    requires Inv(fs, o) && DirsOk(fs, o) && IsString(path) && Shape(fs) && Inv(OpenFile(fs, path, create, excl).fs, o1)
    ensures var (f, there) := (OpenFile(fs, path, create, excl), LeadsSomewhere(fs, Elems(path)));
            && f.rc <= 0
            && (f.rc == 0 <==> if there then !(create && excl) else create && Creatable(fs, o, Elems(path)))
            && (there ==> f.fs == fs && (create && excl ==> f.rc == E_FILE_EXISTS))
            && SameFiles(fs, o, f.fs, o1)
  {
    hide *;
    OpenFileForm(fs, path, create, excl);
    ExistsForm(fs, o, path);
    FileExistsDiffers();
    var f := OpenFile(fs, path, create, excl);
    var p := OpenKeeps(fs, o, path);
    if create {
      var c := FileCreate(fs, path);
      var o2 := CreateLeads(fs, o, path);
      CreatedParts(fs, o, Elems(path), c, o2);
      if LeadsSomewhere(fs, Elems(path)) {
        OwnersUnique(fs, o, o1);
        SameSelf(fs, o);
      } else {
        OwnersUnique(c.fs, o1, o2);
        CreateSame(fs, o, path, o1);
      }
    } else {
      OpenSame(fs, o, path, o1);
    }
  }

  /** Whether the path of an open request leads to a file. */
  ghost predicate There(s: Server, r: Request)
    requires Shape(s.fs) && r.Open?
  {
    LeadsSomewhere(s.fs, Elems(r.path))
  }

  /** The regular files outside x are as they were. */
  ghost predicate OthersKept(fs: Fs, o: Owners, fs': Fs, x: set<File>) {
    && Shape(fs) && Shape(fs')
    && (forall g :: Regular(fs, o, g) && g !in x ==> Size(fs', g) == Size(fs, g))
    && (forall g, p: nat :: Regular(fs, o, g) && g !in x ==> ByteAt(fs', g, p) == ByteAt(fs, g, p))
  }

  lemma SameOthers(fs: Fs, o: Owners, fs1: Fs, o1: Owners, fs2: Fs, x: set<File>)
    requires SameFiles(fs, o, fs1, o1) && OthersKept(fs1, o1, fs2, x)
    ensures OthersKept(fs, o, fs2, x) && OthersKept(fs, o, fs1, {})
  {
    hide Regular, ByteAt, Size;
  }

  lemma NoneKept(fs: Fs, o: Owners)
    requires Shape(fs)
    ensures OthersKept(fs, o, fs, {})
  {
  }

  lemma SizedOthers(fs: Fs, o: Owners, f: File, n: nat, fs': Fs)
    requires SizeBecomes(fs, o, f, n, fs')
    ensures OthersKept(fs, o, fs', {f}) && Size(fs', f) == n && Shape(fs')
  {
    hide Regular, ByteAt, Size;
  }

  /** O_TRUNC on a regular file. */
  lemma Truncated(fs: Fs, o: Owners, f: File, path: Name)
    requires Inv(fs, o) && DirsOk(fs, o) && Regular(fs, o, f) && IsString(path) && Leads(fs, ROOT, Elems(path), f)
    ensures At(fs, f)
    ensures var fs' := FileSetSize(fs, f, 0);
            && Shape(fs') && FileOpen(fs', path) == Found(fs', 0, f) && Leads(fs', ROOT, Elems(path), f)
            && !IsDir(fs', f) && Size(fs', f) == 0 && OthersKept(fs, o, fs', {f})
  {
    hide *;
    ZeroFits();
    SetSized(fs, o, f, 0);
    SizedOthers(fs, o, f, 0, FileSetSize(fs, f, 0));
    var o2 := SizeServed(fs, o, f, 0);
    var fs' := FileSetSize(fs, f, 0);
    LeadsKeptIs(fs, fs', o2);
    ElemsAre(path);
    OpenExact(fs', o2, path, f);
    SetSizeKeeps(fs, o, f, 0);
    SetSizeSize(fs, o, f, 0, fs', Less(o, Removed(fs, f, 0)));
    RegularIs(fs', Less(o, Removed(fs, f, 0)), f);
  }

  /** What an open request does: its id stands for file g, to which the path leads, the one it led to before if there
      was one, else a new regular file. */
  ghost predicate Yields(s: Server, r: Request, s': Server, g: File)
    requires Shape(s.fs) && r.Open?
  {
    && s'.open == s.open[r.id := g]
    && Leads(s'.fs, ROOT, Elems(r.path), g)
    && (if There(s, r) then Leads(s.fs, ROOT, Elems(r.path), g) else !IsDir(s'.fs, g))
    && (r.trunc ==> Size(s'.fs, g) == 0)
  }

  lemma YieldsJoin(s: Server, r: Request, s': Server, g: File)
    requires Shape(s.fs) && r.Open? && s'.open == s.open[r.id := g] && Leads(s'.fs, ROOT, Elems(r.path), g)
    requires if LeadsSomewhere(s.fs, Elems(r.path)) then Leads(s.fs, ROOT, Elems(r.path), g) else !IsDir(s'.fs, g)
    requires r.trunc ==> Size(s'.fs, g) == 0
    ensures Yields(s, r, s', g)
  {
    hide Leads, IsDir, Size, LeadsSomewhere;
  }

  lemma OpenAnswer(s: Server, r: Request)
    requires Shape(s.fs) && r.Open?
    ensures var f := FileSystemRuns.ServeOpen(s.fs, r.path, r.create, r.excl, r.trunc);
            Answer(s, r).rc == f.rc && Serve(s, r) == Server(f.fs, if f.rc == 0 then s.open[r.id := f.file] else s.open)
    ensures There(s, r) <==> LeadsSomewhere(s.fs, Elems(r.path))
    ensures IsString(r.path)
  {
    hide FileSystemRuns.ServeOpen;
  }

  /** serve_open succeeds exactly if the path leads to a file and it was not asked for a new one, or it leads nowhere, a
      new one was asked for, just the last component is missing and there is room.  A failure gives no id and
      changes no regular file, and nothing at all if the path leads to a file; O_TRUNC, on a regular file, changes
      that file alone. */
  lemma OpenReplies(s: Server, o: Owners, r: Request) returns (g: File)
    requires InOrder(s) && Inv(s.fs, o) && DirsOk(s.fs, o) && Shape(s.fs) && r.Open?
    requires r.trunc ==> forall x :: Leads(s.fs, ROOT, Elems(r.path), x) ==> !IsDir(s.fs, x)
    ensures var (s', a) := (Serve(s, r), Answer(s, r));
            && (a.rc == 0 <==> if There(s, r) then !(r.create && r.excl) else r.create && Creatable(s.fs, o, Elems(r.path)))
            && (a.rc == 0 ==> Yields(s, r, s', g))
            && (a.rc != 0 ==> a.rc < 0 && s'.open == s.open)
            && (There(s, r) && (a.rc != 0 || !r.trunc) ==> s'.fs == s.fs)
            && (There(s, r) && a.rc != 0 ==> a.rc == E_FILE_EXISTS)
            && OthersKept(s.fs, o, s'.fs, if a.rc == 0 && r.trunc then {g} else {})
  {
    hide *;
    var (fs, es) := (s.fs, Elems(r.path));
    OpenAnswer(s, r);
    var o1 := OpenFileKeeps(fs, o, r.path, r.create, r.excl);
    var f := OpenFile(fs, r.path, r.create, r.excl);
    OpenedIs(fs, r.path, r.create, r.excl, f, o1);
    LeadsKeptIs(fs, f.fs, o1);
    OpenFileResult(fs, o, r.path, r.create, r.excl, o1);
    ServeOpenForm(fs, r.path, r.create, r.excl, r.trunc);
    g := f.file;
    NoneKept(f.fs, o1);
    SameOthers(fs, o, f.fs, o1, f.fs, {});
    if f.rc == 0 {
      OpenExact(f.fs, o1, r.path, g);
      SomewhereIs(fs, es, g);
      SizeIs(f.fs, o1, g);
      RegularIs(f.fs, o1, g);
      if r.trunc {
        Truncated(f.fs, o1, g, r.path);
        SameOthers(fs, o, f.fs, o1, Serve(s, r).fs, {g});
      }
      YieldsJoin(s, r, Serve(s, r), g);
    }
  }
}
