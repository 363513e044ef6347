/** dir_lookup finds exactly the entry of the name asked for. */
module PathLookup {
  import opened Disk
  import opened FileSystem
  import opened FileOwnership
  import opened FreeSpace
  import opened FileRelease
  import opened FileContents
  import opened FileTruncation
  import opened Paths
  import opened Directories

  /* ---- dir_lookup ---- */

  lemma LookupForm(fs: Fs, d: File, name: Name)
    requires At(fs, d) && DirSize(fs, d) && Field(fs, d, SIZE) == Size(fs, d)
    ensures var (fs', res) := DirScan(fs, d, name, 0, DirBlocks(Size(fs, d)));
            DirLookup(fs, d, name) == match res
                                      case Hit(e) => Found(fs', 0, e)
                                      case Miss => Found(fs', E_NOT_FOUND, ROOT)
                                      case Failed(rc) => Found(fs', rc, ROOT)
    ensures Size(fs, d) <= MAXSIZE ==> DirBlocks(Size(fs, d)) == NBlocks(Size(fs, d))
  {
    WholeBlocks(fs, d);
    hide DirScan, Size, Field, DirBlocks;
  }

  lemma WholeBlocks(fs: Fs, d: File)
    requires DirSize(fs, d)
    ensures Size(fs, d) <= MAXSIZE ==> DirBlocks(Size(fs, d)) == NBlocks(Size(fs, d))
    ensures Size(fs, d) == NBlocks(Size(fs, d)) * BLKSIZE
  {
    hide Size;
  }

  /** Entries lie within the directory's size. */
  lemma EntryInSize(fs: Fs, o: Owners, d: File, n: nat, j: nat, e: File)
    requires Inv(fs, o) && KnownDir(fs, o, d) && EntryOf(fs, d, n, j, e)
    ensures n < NBlocks(Size(fs, d)) && n < MAXBLOCKS
  {
    SizedIs(fs, o, d);
    BlockIs(fs, d, n);
    hide Inv, Known, Value, DataCell;
  }

  /** All holes of d have been filled, and paid for. */
  ghost predicate Filled(fs: Fs, d: File, fs': Fs) {
    var nb := NBlocks(Size(fs, d));
    && Dense(fs', d, nb) && Enough(fs, d, 0, nb) && Room(fs') + Need(fs, d, 0, nb) == Room(fs)
    && (Value(fs', Part(d, INDIRECT)) != 0 <==> Value(fs, Part(d, INDIRECT)) != 0 || nb > NDIRECT)
  }

  lemma FilledIs(fs: Fs, d: File, fs': Fs)
    ensures var nb := NBlocks(Size(fs, d));
            Filled(fs, d, fs') <==>
            && Dense(fs', d, nb) && Enough(fs, d, 0, nb) && Room(fs') + Need(fs, d, 0, nb) == Room(fs)
            && (Value(fs', Part(d, INDIRECT)) != 0 <==> Value(fs, Part(d, INDIRECT)) != 0 || nb > NDIRECT)
  {
    hide Dense, Enough, Room, Need, Value, NBlocks, Size;
  }

  /** What dir_lookup returns and leaves: a hit is the entry of that name and changes nothing; without
      a hit there is no such entry, only holes have been filled, and the code is E_NOT_FOUND exactly if
      there was room to fill them all. */
  ghost predicate LookedUp(fs: Fs, o: Owners, d: File, name: Name, r: Found, o': Owners) {
    var nb := NBlocks(Size(fs, d));
    && Fills(fs, o, d, r.fs, o') && DirsOk(r.fs, o')
    && (r.rc == 0 ==> Named(fs, d, name, r.file) && r.fs == fs)
    && (r.rc != 0 ==> (r.rc == E_NOT_FOUND || r.rc == E_NO_DISK || r.rc == E_INVAL) && forall e :: !Named(fs, d, name, e))
    && (r.rc != 0 ==> (r.rc == E_NOT_FOUND <==> Enough(fs, d, 0, nb)))
    && (r.rc == E_NOT_FOUND ==> Filled(fs, d, r.fs))
    && (r.rc == E_NO_DISK ==> Room(r.fs) == 0)
  }

  lemma MissedNone(fs: Fs, o: Owners, d: File, name: Name, fs': Fs, o': Owners, e: File)
    requires Inv(fs, o) && KnownDir(fs, o, d) && IsElem(name) && Scanned(fs, o, d, name, 0, NBlocks(Size(fs, d)), fs', o', Miss)
    ensures !Named(fs, d, name, e)
  {
    hide *;
    ScannedIs(fs, o, d, name, 0, NBlocks(Size(fs, d)), fs', o', Miss);
    if Named(fs, d, name, e) {
      NamedSame(fs, o, d, fs', o', d, name, e);
      KnownDirIs(fs, o, d);
      GrowsDir(fs, o, d, fs', o', d);
      KnownDirIs(fs', o', d);
      var n, j := NamedAt(fs', d, name, e);
      EntryInSize(fs', o', d, n, j, e);
      assert false;
    }
  }

  lemma FailedNone(fs: Fs, o: Owners, d: File, name: Name, fs': Fs, o': Owners, rc: int, e: File)
    requires IsElem(name) && Scanned(fs, o, d, name, 0, NBlocks(Size(fs, d)), fs', o', Failed(rc))
    ensures !Named(fs, d, name, e)
  {
    hide *;
    ElemIs(name);
    ScannedIs(fs, o, d, name, 0, NBlocks(Size(fs, d)), fs', o', Failed(rc));
    if Named(fs, d, name, e) {
      var n, j := NamedAt(fs, d, name, e);
      assert false;
    }
  }

  lemma HitNamed(fs: Fs, o: Owners, d: File, name: Name, fs': Fs, o': Owners, e: File)
    requires IsElem(name) && Scanned(fs, o, d, name, 0, NBlocks(Size(fs, d)), fs', o', Hit(e))
    ensures fs' == fs && Named(fs, d, name, e)
  {
    hide *;
    ElemIs(name);
    ScannedIs(fs, o, d, name, 0, NBlocks(Size(fs, d)), fs', o', Hit(e));
    var n, j :| First(fs', d, name, 0, NBlocks(Size(fs, d)), n, j, e);
    FirstIs(fs', d, name, 0, NBlocks(Size(fs, d)), n, j, e);
    NamedIs(fs, d, name, n, j, e);
  }

  lemma LookupFinds(fs: Fs, o: Owners, d: File, name: Name) returns (o': Owners)
    requires Inv(fs, o) && DirsOk(fs, o) && KnownDir(fs, o, d) && IsElem(name)
    ensures Shape(fs) && At(fs, d) && LookedUp(fs, o, d, name, DirLookup(fs, d, name), o')
  {
    hide *;
    InvParts(fs, o);
    KnownDirIs(fs, o, d);
    DirOkIs(fs, o, d);
    SizeIs(fs, o, d);
    ElemIs(name);
    LookupForm(fs, d, name);
    DenseIs(fs, d, 0, 0);
    ErrorsDiffer();
    var nb := NBlocks(Size(fs, d));
    o' := ScanFinds(fs, o, d, name, 0, nb);
    var (fs', res) := DirScan(fs, d, name, 0, nb);
    ScannedIs(fs, o, d, name, 0, nb, fs', o', res);
    ScanRoomIs(fs, d, 0, nb, fs', res);
    FilledIs(fs, d, fs');
    GrowsDirs(fs, o, d, fs', o');
    match res {
      case Hit(e) => HitNamed(fs, o, d, name, fs', o', e);
      case Miss => forall e ensures !Named(fs, d, name, e) { MissedNone(fs, o, d, name, fs', o', e); }
      case Failed(rc) => forall e ensures !Named(fs, d, name, e) { FailedNone(fs, o, d, name, fs', o', rc, e); }
    }
    LookedUpJoin(fs, o, d, name, DirLookup(fs, d, name), o');
  }

  lemma ErrorsDiffer()
    ensures E_NOT_FOUND != E_NO_DISK && E_NOT_FOUND != E_INVAL && E_NO_DISK != E_INVAL && E_NOT_FOUND != E_BAD_PATH && E_NOT_FOUND != PANIC
  {
  }

  lemma LookedUpJoin(fs: Fs, o: Owners, d: File, name: Name, r: Found, o': Owners)
    requires Fills(fs, o, d, r.fs, o') && DirsOk(r.fs, o')
    requires r.rc == 0 ==> Named(fs, d, name, r.file) && r.fs == fs
    requires r.rc != 0 ==> (r.rc == E_NOT_FOUND || r.rc == E_NO_DISK || r.rc == E_INVAL) && forall e :: !Named(fs, d, name, e)
    requires r.rc != 0 ==> (r.rc == E_NOT_FOUND <==> Enough(fs, d, 0, NBlocks(Size(fs, d))))
    requires r.rc == E_NOT_FOUND ==> Filled(fs, d, r.fs)
    requires r.rc == E_NO_DISK ==> Room(r.fs) == 0
    ensures LookedUp(fs, o, d, name, r, o')
  {
    hide Fills, DirsOk, Named, Filled, Size, NBlocks, Enough, Room;
  }

  lemma LookedUpIs(fs: Fs, o: Owners, d: File, name: Name, r: Found, o': Owners)
    requires LookedUp(fs, o, d, name, r, o')
    ensures Fills(fs, o, d, r.fs, o') && Grows(fs, o, d, r.fs, o') && DirsOk(r.fs, o') && Inv(r.fs, o') && Shape(r.fs)
    ensures r.rc == 0 ==> Named(fs, d, name, r.file) && r.fs == fs
    ensures r.rc != 0 ==> (r.rc == E_NOT_FOUND || r.rc == E_NO_DISK || r.rc == E_INVAL) && forall e :: !Named(fs, d, name, e)
    ensures r.rc != 0 ==> (r.rc == E_NOT_FOUND <==> Enough(fs, d, 0, NBlocks(Size(fs, d))))
    ensures r.rc == E_NOT_FOUND ==> Filled(fs, d, r.fs)
    ensures r.rc == E_NO_DISK ==> Room(r.fs) == 0
  {
    FillsGrows(fs, o, d, r.fs, o');
    hide Fills, DirsOk, Named, Filled, Size, NBlocks, Grows, Inv, Enough, Room;
  }

  /** dir_lookup succeeds with e exactly when e is the entry of that name. */
  lemma LookupExact(fs: Fs, o: Owners, d: File, name: Name, e: File)
    requires Inv(fs, o) && DirsOk(fs, o) && KnownDir(fs, o, d) && IsElem(name)
    ensures Shape(fs) && At(fs, d)
    ensures Named(fs, d, name, e) <==> DirLookup(fs, d, name).rc == 0 && DirLookup(fs, d, name).file == e
  {
    hide *;
    var o' := LookupFinds(fs, o, d, name);
    LookedUpIs(fs, o, d, name, DirLookup(fs, d, name), o');
    DirOkIs(fs, o, d);
    var r := DirLookup(fs, d, name);
    if Named(fs, d, name, e) && r.rc == 0 { UniqueIs(fs, d, name, e, r.file); }
  }
}
