/** Why a path cannot be opened: the error says at which component the walk got stuck, and how. */
module PathErrors {
  import opened Wrappers
  import opened FileSystem
  import opened FileOwnership
  import opened FreeSpace
  import opened FileContents
  import opened FileTruncation
  import opened Paths
  import opened Directories
  import opened PathLookup
  import opened DirectoryTree
  import opened EntryCreation
  import opened PathWalk

  ghost predicate LeadsNowhere(fs: Fs, f: File, es: seq<Name>) { forall x :: !Leads(fs, f, es, x) }

  /** From f the first k components lead to d, and the next leads no further. */
  ghost predicate Stuck(fs: Fs, f: File, es: seq<Name>, k: nat, d: File) {
    k < |es| && Leads(fs, f, es[..k], d) && LeadsNowhere(fs, f, es[..k + 1])
  }

  /** The error that a component stuck at d gives: the name is too long for any entry; d is no directory, or has no such
      entry; or the holes in d that the search came upon could not be filled. */
  ghost predicate ErrorAt(fs: Fs, d: File, name: Name, rc: int) {
    if |name| >= MAXNAMELEN then rc == E_BAD_PATH
    else if !IsDir(fs, d) || Enough(fs, d, 0, NBlocks(Size(fs, d))) then rc == E_NOT_FOUND
    else rc == E_NO_DISK || rc == E_INVAL
  }

  lemma StuckHere(fs: Fs, f: File, es: seq<Name>, d: File)
    requires Stuck(fs, f, es, 0, d)
    ensures es != [] && d == f && (!IsDir(fs, f) || forall e :: !Named(fs, f, es[0], e))
  {
    hide IsDir, Named;
    assert es[..1] == [es[0]] && es[..1][1..] == [];
    forall e | IsDir(fs, f) ensures !Named(fs, f, es[0], e) {
      LeadsStep(fs, f, es[..1], e);
      LeadsNone(fs, e, e);
    }
    LeadsNone(fs, f, d);
    assert es[..0] == [];
  }

  lemma StuckLater(fs: Fs, o: Owners, f: File, es: seq<Name>, k: nat, d: File) returns (e: File)
    requires Inv(fs, o) && DirsOk(fs, o) && Known(fs, o, f) && AllElems(es) && k > 0 && Stuck(fs, f, es, k, d)
    ensures es != [] && KnownDir(fs, o, f) && Named(fs, f, es[0], e) && Stuck(fs, e, es[1..], k - 1, d)
  {
    hide Inv, DirsOk, Known, IsDir, Named, IsElem, Leads;
    var (init, more) := (es[..k], es[..k + 1]);
    LeadsStep(fs, f, init, d);
    KnownDirIs(fs, o, f);
    e :| Named(fs, f, init[0], e) && Leads(fs, e, init[1..], d);
    assert init[1..] == es[1..][..k - 1] && more[1..] == es[1..][..k] && more[0] == es[0];
    OneStep(fs, o, f, more, e);
  }

  lemma ErrorJoin(fs: Fs, d: File, name: Name, rc: int)
    requires if |name| >= MAXNAMELEN then rc == E_BAD_PATH
             else if !IsDir(fs, d) || Enough(fs, d, 0, NBlocks(Size(fs, d))) then rc == E_NOT_FOUND
             else rc == E_NO_DISK || rc == E_INVAL
    ensures ErrorAt(fs, d, name, rc)
  {
    hide IsDir, Enough, NBlocks, Size;
  }

  /** walk_path from f on. */
  lemma {:induction false} WalkStuck(fs: Fs, o: Owners, f: File, dir: Option<File>, path: Name, k: nat, d: File)
    requires Inv(fs, o) && DirsOk(fs, o) && Known(fs, o, f) && IsString(path) && (path != [] ==> path[0] != SLASH)
    requires Stuck(fs, f, Elems(path), k, d)
    ensures At(fs, f) && k < |Elems(path)| && ErrorAt(fs, d, Elems(path)[k], WalkFrom(fs, f, dir, path).rc)
    ensures WalkFrom(fs, f, dir, path).dir ==
              if k == |Elems(path)| - 1 && |Elems(path)[k]| < MAXNAMELEN && IsDir(fs, d) && Enough(fs, d, 0, NBlocks(Size(fs, d)))
              then Some(d) else None
    decreases |path|
  {
    hide *;
    SizeIs(fs, o, f);
    WalkForm(fs, f, dir, path);
    StuckIs(fs, f, Elems(path), k, d);
    ElemsNone(path);
    ElemsStep(path);
    ElemsAre(path);
    TypeIs(fs, f);
    var (n, es) := (ElemLength(path), Elems(path));
    var (name, rest) := (path[..n], SkipSlash(path[n..]));
    if k == 0 {
      StuckHere(fs, f, es, d);
      assert |es| == 1 <==> rest == [];
      if n < MAXNAMELEN && IsDir(fs, f) {
        KnownDirIs(fs, o, f);
        var o1 := LookupFinds(fs, o, f, name);
        LookedUpIs(fs, o, f, name, DirLookup(fs, f, name), o1);
        ErrorsDiffer();
      }
      ErrorJoin(fs, d, es[k], WalkFrom(fs, f, dir, path).rc);
    } else {
      var e := StuckLater(fs, o, f, es, k, d);
      KnownDirIs(fs, o, f);
      NamedShort(fs, f, name, e);
      LookupExact(fs, o, f, name, e);
      LookupNamed(fs, o, f, name);
      var m, j := NamedAt(fs, f, name, e);
      EntryKnown(fs, o, f, m, j, e);
      assert es[1..] == Elems(rest) && es[k] == Elems(rest)[k - 1];
      WalkStuck(fs, o, e, Some(f), rest, k - 1, d);
    }
  }

  lemma StuckIs(fs: Fs, f: File, es: seq<Name>, k: nat, d: File)
    requires Stuck(fs, f, es, k, d)
    ensures k < |es| && es != []
  {
    hide Leads;
  }

  lemma NothingLeads(fs: Fs, es: seq<Name>)
    ensures Leads(fs, ROOT, es[..0], ROOT)
  {
    assert es[..0] == [];
  }

  /** A path that leads nowhere gets stuck at one of its components. */
  lemma {:induction false} StuckSomewhere(fs: Fs, es: seq<Name>, n: nat) returns (k: nat, d: File)
    requires n <= |es| && LeadsNowhere(fs, ROOT, es[..n])
    ensures k < n && Stuck(fs, ROOT, es, k, d)
  {
    hide Leads;
    NothingLeads(fs, es);
    if LeadsNowhere(fs, ROOT, es[..n - 1]) {
      k, d := StuckSomewhere(fs, es, n - 1);
    } else {
      k := n - 1;
      d :| Leads(fs, ROOT, es[..k], d);
    }
  }

  /** file_open on a path that leads nowhere fails with the error of the component at which it gets stuck. */
  lemma OpenError(fs: Fs, o: Owners, path: Name, k: nat, d: File)
    requires Inv(fs, o) && DirsOk(fs, o) && IsString(path) && Stuck(fs, ROOT, Elems(path), k, d)
    ensures Shape(fs) && k < |Elems(path)| && ErrorAt(fs, d, Elems(path)[k], FileOpen(fs, path).rc)
    ensures FileOpen(fs, path).rc == WalkPath(fs, path).rc
    ensures WalkPath(fs, path).dir ==
              if k == |Elems(path)| - 1 && |Elems(path)[k]| < MAXNAMELEN && IsDir(fs, d) && Enough(fs, d, 0, NBlocks(Size(fs, d)))
              then Some(d) else None
  {
    hide *;
    InvParts(fs, o);
    RootKnown(fs, o);
    SizeIs(fs, o, ROOT);
    SkipIs(path);
    ElemsAre(path);
    StuckIs(fs, ROOT, Elems(path), k, d);
    WalkStuck(fs, o, ROOT, None, SkipSlash(path), k, d);
    WalkPathForm(fs, path);
    OpenForm(fs, path);
  }

  lemma AllocCode(fs: Fs, o: Owners, d: File, r: Found, o': Owners)
    requires Allocated(fs, o, d, r, o')
    ensures r.rc == 0 || r.rc == E_NO_DISK || r.rc == E_INVAL
    ensures r.rc == 0 ==> exists n, j :: Spare(r.fs, d, n, j, r.file)
  {
    hide SameTree, Spare, Room;
  }

  /** file_create fails with the same error, unless just the last component is missing from a directory; then, with a name
      that fits and without room, the error is that of a full disk or a directory at its largest. */
  lemma CreateError(fs: Fs, o: Owners, path: Name, k: nat, d: File)
    requires Inv(fs, o) && DirsOk(fs, o) && IsString(path) && Stuck(fs, ROOT, Elems(path), k, d)
    ensures Shape(fs) && k < |Elems(path)|
    ensures var c := FileCreate(fs, path);
            if k == |Elems(path)| - 1 && IsDir(fs, d) && |Elems(path)[k]| < MAXNAMELEN then c.rc == 0 || c.rc == E_NO_DISK || c.rc == E_INVAL
            else ErrorAt(fs, d, Elems(path)[k], c.rc)
  {
    hide *;
    var o1 := PathLeads(fs, o, path);
    var (w, es, c) := (WalkPath(fs, path), Elems(path), FileCreate(fs, path));
    OpenError(fs, o, path, k, d);
    WalkedIs(fs, o, ROOT, es, w, o1);
    TreeIs(fs, o, w.fs, o1);
    CreateForm(fs, path);
    ErrorIs(fs, d, es[k], w.rc);
    if w.dir != None {
      WalkedIntoIs(fs, o, ROOT, es, w, o1);
      MissingIs(fs, o, ROOT, es, d, w.last);
      TreeKnown(fs, o, w.fs, o1, d);
      KnownDirIs(w.fs, o1, d);
      SizeIs(w.fs, o1, d);
      var o2 := AllocFinds(w.fs, o1, d);
      var a := DirAllocFile(w.fs, d);
      AllocCode(w.fs, o1, d, a, o2);
      if a.rc == 0 {
        AllocatedIs(w.fs, o1, d, a, o2);
        TreeIs(w.fs, o1, a.fs, o2);
        TreeKnown(w.fs, o1, a.fs, o2, d);
        var n, j :| Spare(a.fs, d, n, j, a.file);
        SpareIs(a.fs, d, n, j, a.file);
        EntryKnown(a.fs, o2, d, n, j, a.file);
      }
    }
  }

  lemma ErrorIs(fs: Fs, d: File, name: Name, rc: int)
    requires ErrorAt(fs, d, name, rc)
    ensures rc != 0 && rc < 0
    ensures |name| >= MAXNAMELEN ==> rc == E_BAD_PATH
    ensures |name| < MAXNAMELEN && (!IsDir(fs, d) || Enough(fs, d, 0, NBlocks(Size(fs, d)))) ==> rc == E_NOT_FOUND
    ensures |name| < MAXNAMELEN && IsDir(fs, d) && !Enough(fs, d, 0, NBlocks(Size(fs, d))) ==> rc == E_NO_DISK || rc == E_INVAL
  {
    hide IsDir, Enough, NBlocks, Size;
  }
}
