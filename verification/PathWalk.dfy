/** walk_path is lookup component by component, and file_create adds exactly one name. */
module PathWalk {
  import opened Wrappers
  import opened FileSystem
  import opened FileOwnership
  import opened FreeSpace
  import opened FileContents
  import opened FileTruncation
  import opened Paths
  import opened Directories
  import opened PathLookup
  import opened DirectoryTree
  import opened EntryCreation

  /** The non-empty slash-separated components of a path. */
  function Elems(path: Name): (es: seq<Name>)
    decreases |path|
  {
    var p := SkipSlash(path);
    if p == [] then [] else [p[..ElemLength(p)]] + Elems(p[ElemLength(p)..])
  }

  /** From f the components es lead to g. */
  ghost predicate Leads(fs: Fs, f: File, es: seq<Name>, g: File)
    decreases |es|
  {
    if es == [] then g == f else IsDir(fs, f) && exists e :: Named(fs, f, es[0], e) && Leads(fs, e, es[1..], g)
  }

  predicate AllElems(es: seq<Name>) { forall i :: 0 <= i < |es| ==> IsElem(es[i]) }

  /* ---- strings ---- */

  lemma {:induction false} SkipIs(path: Name)
    ensures SkipSlash(SkipSlash(path)) == SkipSlash(path) && (IsString(path) ==> IsString(SkipSlash(path)))
    ensures path != [] && path[0] != SLASH ==> SkipSlash(path) == path
  {
    if path != [] && path[0] == SLASH { SkipIs(path[1..]); }
  }

  /** One component of a path that starts with one. */
  lemma ElemsStep(path: Name)
    requires path != [] && path[0] != SLASH && IsString(path)
    ensures var n := ElemLength(path);
            && Elems(path) == [path[..n]] + Elems(SkipSlash(path[n..]))
            && IsElem(path[..n]) && IsString(SkipSlash(path[n..]))
            && (Elems(SkipSlash(path[n..])) == [] <==> SkipSlash(path[n..]) == [])
  {
    var n := ElemLength(path);
    SkipIs(path);
    SkipIs(path[n..]);
  }

  lemma {:induction false} ElemsAre(path: Name)
    requires IsString(path)
    ensures AllElems(Elems(path)) && Elems(SkipSlash(path)) == Elems(path)
    decreases |path|
  {
    SkipIs(path);
    var p := SkipSlash(path);
    if p != [] {
      ElemsStep(p);
      ElemsAre(p[ElemLength(p)..]);
    }
  }

  /* ---- where paths lead ---- */

  /** A path leads to at most one file, and it is a known one. */
  lemma {:induction false} LeadsUnique(fs: Fs, o: Owners, f: File, es: seq<Name>, g: File, g': File)
    requires Inv(fs, o) && DirsOk(fs, o) && Known(fs, o, f) && AllElems(es) && Leads(fs, f, es, g) && Leads(fs, f, es, g')
    ensures g == g' && Known(fs, o, g)
    decreases |es|
  {
    hide Inv, Known, Named, IsDir, DirsOk, IsElem;
    if es != [] {
      KnownDirIs(fs, o, f);
      DirOkIs(fs, o, f);
      var e :| Named(fs, f, es[0], e) && Leads(fs, e, es[1..], g);
      var e' :| Named(fs, f, es[0], e') && Leads(fs, e', es[1..], g');
      UniqueIs(fs, f, es[0], e, e');
      var n, j := NamedAt(fs, f, es[0], e);
      EntryKnown(fs, o, f, n, j, e);
      LeadsUnique(fs, o, e, es[1..], g, g');
    }
  }

  /** Where the tree is the same, paths lead where they led. */
  lemma {:induction false} LeadsSame(fs: Fs, o: Owners, fs': Fs, o': Owners, f: File, es: seq<Name>, g: File)
    requires Inv(fs, o) && SameTree(fs, o, fs', o') && Known(fs, o, f) && AllElems(es)
    ensures Leads(fs', f, es, g) <==> Leads(fs, f, es, g)
    decreases |es|
  {
    hide Inv, Known, Named, IsDir, IsElem, SameTree;
    TreeKnown(fs, o, fs', o', f);
    KnownDirIs(fs, o, f);
    KnownDirIs(fs', o', f);
    if es != [] && IsDir(fs, f) {
      forall e ensures (Named(fs', f, es[0], e) && Leads(fs', e, es[1..], g)) <==> (Named(fs, f, es[0], e) && Leads(fs, e, es[1..], g)) {
        TreeNamed(fs, o, fs', o', f, es[0], e);
        if Named(fs, f, es[0], e) {
          var n, j := NamedAt(fs, f, es[0], e);
          EntryKnown(fs, o, f, n, j, e);
          LeadsSame(fs, o, fs', o', e, es[1..], g);
        }
      }
    }
  }

  /** Where directories only gain names, paths that led somewhere still lead there. */
  lemma {:induction false} LeadsMore(fs: Fs, o: Owners, fs': Fs, o': Owners, f: File, es: seq<Name>, g: File)
    requires Inv(fs, o) && Known(fs, o, f) && AllElems(es)
    requires forall d :: KnownDir(fs, o, d) ==> KnownDir(fs', o', d)
    requires forall d, name, e :: KnownDir(fs, o, d) && IsElem(name) && Named(fs, d, name, e) ==> Named(fs', d, name, e)
    ensures Leads(fs, f, es, g) ==> Leads(fs', f, es, g)
    decreases |es|
  {
    hide Inv, Known, Named, IsDir, IsElem;
    if es != [] && Leads(fs, f, es, g) {
      KnownDirIs(fs, o, f);
      KnownDirIs(fs', o', f);
      var e :| Named(fs, f, es[0], e) && Leads(fs, e, es[1..], g);
      var n, j := NamedAt(fs, f, es[0], e);
      EntryKnown(fs, o, f, n, j, e);
      LeadsMore(fs, o, fs', o', e, es[1..], g);
      assert Named(fs', f, es[0], e);
    }
  }

  lemma {:induction false} LeadsOn(fs: Fs, f: File, es: seq<Name>, d: File, name: Name, e: File)
    requires Leads(fs, f, es, d) && IsDir(fs, d) && Named(fs, d, name, e)
    ensures Leads(fs, f, es + [name], e)
    decreases |es|
  {
    hide Named, IsDir;
    if es == [] {
      assert [name][1..] == [] && Leads(fs, e, [], e);
      assert es + [name] == [name];
    } else {
      var x :| Named(fs, f, es[0], x) && Leads(fs, x, es[1..], d);
      LeadsOn(fs, x, es[1..], d, name, e);
      assert (es + [name])[1..] == es[1..] + [name] && (es + [name])[0] == es[0];
    }
  }

  /* ---- walk_path ---- */

  /** All components but the last lead to the directory d, which has no entry named by the last. */
  ghost predicate MissingLast(fs: Fs, o: Owners, f: File, es: seq<Name>, d: File, last: Name) {
    && es != [] && last == es[|es| - 1] && |last| < MAXNAMELEN
    && KnownDir(fs, o, d) && Leads(fs, f, es[..|es| - 1], d) && forall x :: !Named(fs, d, last, x)
  }

  /** The walk succeeds with the file the components lead to, changing nothing; without success they
      lead nowhere, and a directory is handed back only if just the last component is missing there
      and all the holes of the directory have been filled. */
  ghost predicate WalkedTo(fs: Fs, o: Owners, f: File, es: seq<Name>, w: Walk, o': Owners) {
    && SameTree(fs, o, w.fs, o')
    && (w.rc == 0 ==> w.fs == fs && Leads(fs, f, es, w.file))
    && (w.rc != 0 ==>
          && (w.rc == E_NOT_FOUND || w.rc == E_BAD_PATH || w.rc == E_NO_DISK || w.rc == E_INVAL)
          && (forall g :: !Leads(fs, f, es, g))
          && (w.rc == E_NO_DISK ==> Room(w.fs) == 0)
          && (w.dir != None ==> w.rc == E_NOT_FOUND && WalkedInto(fs, o, f, es, w, o')))
  }

  ghost predicate WalkedInto(fs: Fs, o: Owners, f: File, es: seq<Name>, w: Walk, o': Owners) {
    w.dir != None && MissingLast(fs, o, f, es, w.dir.value, w.last) && Fills(fs, o, w.dir.value, w.fs, o') && Filled(fs, w.dir.value, w.fs)
  }

  lemma TreeSelf(fs: Fs, o: Owners)
    requires Inv(fs, o) && DirsOk(fs, o)
    ensures SameTree(fs, o, fs, o)
  {
    hide Inv, DirsOk, Known, KnownDir, Named;
  }

  lemma LeadsStep(fs: Fs, f: File, es: seq<Name>, g: File)
    requires es != []
    ensures Leads(fs, f, es, g) <==> IsDir(fs, f) && exists e :: Named(fs, f, es[0], e) && Leads(fs, e, es[1..], g)
  {
  }

  lemma NamedShort(fs: Fs, f: File, name: Name, e: File)
    ensures Named(fs, f, name, e) ==> |name| < MAXNAMELEN
  {
  }

  /** The first component already fails. */
  lemma NoStep(fs: Fs, f: File, es: seq<Name>)
    requires es != [] && (!IsDir(fs, f) || forall e :: !Named(fs, f, es[0], e))
    ensures forall g :: !Leads(fs, f, es, g)
  {
    hide IsDir, Named;
    forall g ensures !Leads(fs, f, es, g) { LeadsStep(fs, f, es, g); }
  }

  /** The first component leads to e alone. */
  lemma OneStep(fs: Fs, o: Owners, f: File, es: seq<Name>, e: File)
    requires Inv(fs, o) && DirsOk(fs, o) && KnownDir(fs, o, f) && es != [] && IsElem(es[0]) && Named(fs, f, es[0], e)
    ensures forall g :: Leads(fs, f, es, g) <==> Leads(fs, e, es[1..], g)
  {
    hide *;
    KnownDirIs(fs, o, f);
    DirOkIs(fs, o, f);
    forall g ensures Leads(fs, f, es, g) <==> Leads(fs, e, es[1..], g) {
      LeadsStep(fs, f, es, g);
      if Leads(fs, f, es, g) {
        var x :| Named(fs, f, es[0], x) && Leads(fs, x, es[1..], g);
        UniqueIs(fs, f, es[0], e, x);
      }
    }
  }

  lemma WalkForm(fs: Fs, f: File, dir: Option<File>, path: Name)
    requires At(fs, f) && (path != [] ==> path[0] != SLASH)
    ensures path == [] ==> WalkFrom(fs, f, dir, path) == Walk(fs, 0, f, dir, [])
    ensures path != [] ==>
      var n := ElemLength(path);
      var (name, rest) := (path[..n], SkipSlash(path[n..]));
      var w := WalkFrom(fs, f, dir, path);
      if n >= MAXNAMELEN then w == Walk(fs, E_BAD_PATH, ROOT, None, [])
      else if Field(fs, f, TYPE) != FTYPE_DIR then w == Walk(fs, E_NOT_FOUND, ROOT, None, [])
      else
        var l := DirLookup(fs, f, name);
        if l.rc == 0 then w == if At(l.fs, l.file) then WalkFrom(l.fs, l.file, Some(f), rest) else Walk(l.fs, PANIC, ROOT, None, [])
        else w == Walk(l.fs, l.rc, ROOT, if l.rc == E_NOT_FOUND && rest == [] then Some(f) else None,
                       if l.rc == E_NOT_FOUND && rest == [] then name else [])
  {
    hide DirLookup, SkipSlash, ElemLength, Field;
  }

  /** A walk whose first lookup failed. */
  lemma WalkStops(fs: Fs, o: Owners, f: File, es: seq<Name>, w: Walk, o': Owners)
    requires SameTree(fs, o, w.fs, o') && Inv(fs, o) && Known(fs, o, f) && es != [] && w.rc != 0
    requires !IsDir(fs, f) || forall e :: !Named(fs, f, es[0], e)
    requires w.rc == E_NOT_FOUND || w.rc == E_BAD_PATH || w.rc == E_NO_DISK || w.rc == E_INVAL
    requires w.rc == E_NO_DISK ==> Room(w.fs) == 0
    requires w.dir != None ==> w.rc == E_NOT_FOUND && w.dir == Some(f) && es == [w.last] && IsDir(fs, f) && |w.last| < MAXNAMELEN
    requires w.dir != None ==> Fills(fs, o, f, w.fs, o') && Filled(fs, f, w.fs)
    ensures WalkedTo(fs, o, f, es, w, o')
  {
    hide *;
    NoStep(fs, f, es);
    if w.dir != None {
      assert es[0] == w.last;
      OneMissing(fs, o, f, es, w.last);
      WalkedIntoJoin(fs, o, f, es, w, o');
    }
    NotWalked(fs, o, f, es, w, o');
  }

  lemma OneMissing(fs: Fs, o: Owners, f: File, es: seq<Name>, last: Name)
    requires Known(fs, o, f) && IsDir(fs, f) && es == [last] && |last| < MAXNAMELEN && forall e :: !Named(fs, f, last, e)
    ensures MissingLast(fs, o, f, es, f, last)
  {
    assert es[..0] == [] && es[|es| - 1] == last;
    hide Known, IsDir, Named;
  }

  lemma WalkedIntoJoin(fs: Fs, o: Owners, f: File, es: seq<Name>, w: Walk, o': Owners)
    requires w.dir != None && MissingLast(fs, o, f, es, w.dir.value, w.last)
    requires Fills(fs, o, w.dir.value, w.fs, o') && Filled(fs, w.dir.value, w.fs)
    ensures WalkedInto(fs, o, f, es, w, o')
  {
    hide MissingLast, Fills, Filled;
  }

  lemma NotWalked(fs: Fs, o: Owners, f: File, es: seq<Name>, w: Walk, o': Owners)
    requires SameTree(fs, o, w.fs, o') && w.rc != 0 && forall g :: !Leads(fs, f, es, g)
    requires w.rc == E_NOT_FOUND || w.rc == E_BAD_PATH || w.rc == E_NO_DISK || w.rc == E_INVAL
    requires w.rc == E_NO_DISK ==> Room(w.fs) == 0
    requires w.dir != None ==> w.rc == E_NOT_FOUND && WalkedInto(fs, o, f, es, w, o')
    ensures WalkedTo(fs, o, f, es, w, o')
  {
    hide SameTree, Leads, WalkedInto, Room;
  }

  /** The last component is missing behind e exactly if it is missing behind the first component. */
  lemma MissingStep(fs: Fs, o: Owners, f: File, es: seq<Name>, e: File, d: File, last: Name)
    requires Inv(fs, o) && DirsOk(fs, o) && KnownDir(fs, o, f) && |es| > 1 && IsElem(es[0]) && Named(fs, f, es[0], e)
    ensures MissingLast(fs, o, f, es, d, last) <==> MissingLast(fs, o, e, es[1..], d, last)
  {
    var (rest, init) := (es[1..], es[..|es| - 1]);
    assert init[1..] == rest[..|rest| - 1] && init[0] == es[0] && rest[|rest| - 1] == es[|es| - 1];
    OneStep(fs, o, f, init, e);
    hide Inv, Known, KnownDir, Named, Leads, DirsOk, IsElem, IsDir;
  }

  /** A walk after a lookup that led to e. */
  lemma WalkGoesOn(fs: Fs, o: Owners, f: File, es: seq<Name>, e: File, w: Walk, o': Owners)
    requires Inv(fs, o) && DirsOk(fs, o) && KnownDir(fs, o, f) && es != [] && IsElem(es[0]) && Named(fs, f, es[0], e)
    requires WalkedTo(fs, o, e, es[1..], w, o')
    ensures WalkedTo(fs, o, f, es, w, o')
  {
    hide SameTree, Inv, Known, KnownDir, Named, Leads, DirsOk, IsElem, IsDir, Fills, Filled, Room;
    OneStep(fs, o, f, es, e);
    if w.rc != 0 && w.dir != None {
      assert |es| > 1;
      MissingStep(fs, o, f, es, e, w.dir.value, w.last);
    }
  }

  lemma {:induction false} WalkLeads(fs: Fs, o: Owners, f: File, dir: Option<File>, path: Name) returns (o': Owners)
    requires Inv(fs, o) && DirsOk(fs, o) && Known(fs, o, f) && IsString(path) && (path != [] ==> path[0] != SLASH)
    ensures At(fs, f) && WalkedTo(fs, o, f, Elems(path), WalkFrom(fs, f, dir, path), o')
    decreases |path|
  {
    hide *;
    SizeIs(fs, o, f);
    InvParts(fs, o);
    WalkForm(fs, f, dir, path);
    TreeSelf(fs, o);
    o' := o;
    if path == [] {
      WalkedHere(fs, o, f, dir);
    } else {
      ElemsStep(path);
      var n := ElemLength(path);
      var (name, rest, es, w) := (path[..n], SkipSlash(path[n..]), Elems(path), WalkFrom(fs, f, dir, path));
      TypeIs(fs, f);
      forall e ensures Named(fs, f, name, e) ==> |name| < MAXNAMELEN { NamedShort(fs, f, name, e); }
      if n >= MAXNAMELEN || !IsDir(fs, f) {
        CodesDiffer();
        WalkStops(fs, o, f, es, w, o);
      } else {
        KnownDirIs(fs, o, f);
        var o1 := LookupFinds(fs, o, f, name);
        var l := DirLookup(fs, f, name);
        LookedUpIs(fs, o, f, name, l, o1);
        ErrorsDiffer();
        if l.rc == 0 {
          var m, j := NamedAt(fs, f, name, l.file);
          EntryKnown(fs, o, f, m, j, l.file);
          o' := WalkLeads(fs, o, l.file, Some(f), rest);
          assert es[1..] == Elems(rest);
          WalkGoesOn(fs, o, f, es, l.file, w, o');
        } else {
          o' := o1;
          GrowsTree(fs, o, f, l.fs, o1);
          assert rest == [] ==> es == [name];
          WalkStops(fs, o, f, es, w, o1);
        }
      }
    }
  }

  lemma CodesDiffer()
    ensures E_NO_DISK != E_NOT_FOUND && E_NO_DISK != E_BAD_PATH
  {
  }

  /** Where just the last component is missing, and there is room for the holes of the directory it is
      missing from, the walk hands that directory back. */
  lemma {:induction false} WalkMissing(fs: Fs, o: Owners, f: File, dir: Option<File>, path: Name, d: File, last: Name)
    requires Inv(fs, o) && DirsOk(fs, o) && Known(fs, o, f) && IsString(path) && (path != [] ==> path[0] != SLASH)
    requires MissingLast(fs, o, f, Elems(path), d, last) && Enough(fs, d, 0, NBlocks(Size(fs, d)))
    ensures At(fs, f) && WalkFrom(fs, f, dir, path).rc == E_NOT_FOUND && WalkFrom(fs, f, dir, path).dir == Some(d)
    decreases |path|
  {
    hide *;
    SizeIs(fs, o, f);
    WalkForm(fs, f, dir, path);
    TypeIs(fs, f);
    var es := Elems(path);
    MissingIs(fs, o, f, es, d, last);
    ElemsNone(path);
    ElemsStep(path);
    var n := ElemLength(path);
    var (name, rest) := (path[..n], SkipSlash(path[n..]));
    KnownDirIs(fs, o, f);
    KnownDirIs(fs, o, d);
    if |es| == 1 {
      assert es[..|es| - 1] == [];
      LeadsNone(fs, f, d);
      var o1 := LookupFinds(fs, o, f, name);
      LookedUpIs(fs, o, f, name, DirLookup(fs, f, name), o1);
    } else {
      var init := es[..|es| - 1];
      assert init[0] == name && es[1..] == Elems(rest);
      LeadsStep(fs, f, init, d);
      var e :| Named(fs, f, name, e) && Leads(fs, e, init[1..], d);
      NamedShort(fs, f, name, e);
      LookupExact(fs, o, f, name, e);
      LookupNamed(fs, o, f, name);
      var m, j := NamedAt(fs, f, name, e);
      EntryKnown(fs, o, f, m, j, e);
      MissingStep(fs, o, f, es, e, d, last);
      WalkMissing(fs, o, e, Some(f), rest, d, last);
    }
  }

  lemma LookupNamed(fs: Fs, o: Owners, d: File, name: Name)
    requires Inv(fs, o) && DirsOk(fs, o) && KnownDir(fs, o, d) && IsElem(name)
    ensures At(fs, d) && (DirLookup(fs, d, name).rc == 0 ==> DirLookup(fs, d, name).fs == fs)
  {
    hide *;
    var o1 := LookupFinds(fs, o, d, name);
    LookedUpIs(fs, o, d, name, DirLookup(fs, d, name), o1);
  }

  lemma ElemsNone(path: Name)
    ensures Elems([]) == [] && (path == [] ==> Elems(path) == [])
  {
  }

  lemma LeadsNone(fs: Fs, f: File, g: File)
    ensures Leads(fs, f, [], g) <==> g == f
  {
  }

  lemma TypeIs(fs: Fs, f: File)
    ensures f.block != 0 ==> (Field(fs, f, TYPE) == FTYPE_DIR <==> IsDir(fs, f))
  {
  }

  lemma WalkedHere(fs: Fs, o: Owners, f: File, dir: Option<File>)
    requires SameTree(fs, o, fs, o)
    ensures WalkedTo(fs, o, f, Elems([]), Walk(fs, 0, f, dir, []), o)
  {
    hide SameTree;
  }

  /* ---- file_open and file_create ---- */

  lemma WalkedIs(fs: Fs, o: Owners, f: File, es: seq<Name>, w: Walk, o': Owners)
    requires WalkedTo(fs, o, f, es, w, o')
    ensures SameTree(fs, o, w.fs, o')
    ensures w.rc == 0 ==> w.fs == fs && Leads(fs, f, es, w.file)
    ensures w.rc != 0 ==> (forall g :: !Leads(fs, f, es, g)) && w.rc < 0
    ensures w.rc != 0 && w.dir != None ==> w.rc == E_NOT_FOUND && WalkedInto(fs, o, f, es, w, o')
    ensures w.rc == E_NO_DISK ==> Room(w.fs) == 0
  {
    hide SameTree, WalkedInto, Leads, Room;
  }

  lemma WalkedIntoIs(fs: Fs, o: Owners, f: File, es: seq<Name>, w: Walk, o': Owners)
    requires WalkedInto(fs, o, f, es, w, o')
    ensures w.dir != None && MissingLast(fs, o, f, es, w.dir.value, w.last)
    ensures Fills(fs, o, w.dir.value, w.fs, o') && Grows(fs, o, w.dir.value, w.fs, o') && Filled(fs, w.dir.value, w.fs)
  {
    FillsGrows(fs, o, w.dir.value, w.fs, o');
    hide MissingLast, Fills, Filled, Grows;
  }

  /** The walk from the root. */
  lemma PathLeads(fs: Fs, o: Owners, path: Name) returns (o': Owners)
    requires Inv(fs, o) && DirsOk(fs, o) && IsString(path)
    ensures Shape(fs) && WalkedTo(fs, o, ROOT, Elems(path), WalkPath(fs, path), o')
    ensures AllElems(Elems(path))
  {
    hide *;
    InvParts(fs, o);
    RootKnown(fs, o);
    SizeIs(fs, o, ROOT);
    SkipIs(path);
    ElemsAre(path);
    o' := WalkLeads(fs, o, ROOT, None, SkipSlash(path));
    WalkPathForm(fs, path);
  }

  lemma WalkPathForm(fs: Fs, path: Name)
    requires At(fs, ROOT)
    ensures WalkPath(fs, path) == WalkFrom(fs, ROOT, None, SkipSlash(path))
  {
    hide WalkFrom, SkipSlash;
  }

  /** file_open succeeds with g exactly when the components of the path lead from the root to g. */
  lemma OpenExact(fs: Fs, o: Owners, path: Name, g: File)
    requires Inv(fs, o) && DirsOk(fs, o) && IsString(path)
    ensures Shape(fs) && (FileOpen(fs, path) == Found(fs, 0, g) <==> Leads(fs, ROOT, Elems(path), g))
    ensures FileOpen(fs, path).rc == 0 ==> FileOpen(fs, path).fs == fs
  {
    hide *;
    var o' := PathLeads(fs, o, path);
    var w := WalkPath(fs, path);
    WalkedIs(fs, o, ROOT, Elems(path), w, o');
    RootKnown(fs, o);
    OpenForm(fs, path);
    if w.rc == 0 && Leads(fs, ROOT, Elems(path), g) { LeadsUnique(fs, o, ROOT, Elems(path), g, w.file); }
  }

  lemma OpenForm(fs: Fs, path: Name)
    requires Shape(fs)
    ensures var w := WalkPath(fs, path); FileOpen(fs, path) == Found(w.fs, w.rc, w.file)
  {
    hide WalkPath;
  }

  lemma CreateForm(fs: Fs, path: Name)
    requires Shape(fs)
    ensures var (w, c) := (WalkPath(fs, path), FileCreate(fs, path));
            && (w.rc == 0 ==> c == Found(w.fs, E_FILE_EXISTS, ROOT))
            && (w.rc != 0 && w.dir == None ==> c == Found(w.fs, w.rc, ROOT))
            && (w.rc == E_NOT_FOUND && w.dir != None && At(w.fs, w.dir.value) ==>
                  var a := DirAllocFile(w.fs, w.dir.value);
                  if a.rc < 0 then c == a
                  else At(a.fs, a.file) && |w.last| < MAXNAMELEN ==> c == Found(PutName(a.fs, a.file, w.last), 0, a.file))
  {
    hide WalkPath, DirAllocFile, PutName;
  }

  ghost predicate LeadsSomewhere(fs: Fs, es: seq<Name>) { exists g :: Leads(fs, ROOT, es, g) }

  /** A hole that the scan fills, or an entry without a name. */
  ghost predicate SpareIn(fs: Fs, d: File) { Unnamed(fs, d) || !Dense(fs, d, NBlocks(Size(fs, d))) }

  /** There is room for the holes of d and then for one entry more: in its blocks, or in a new one. */
  ghost predicate HasRoom(fs: Fs, d: File) {
    var nb := NBlocks(Size(fs, d));
    Enough(fs, d, 0, nb) && (SpareIn(fs, d) || Enough(fs, d, 0, nb + 1))
  }

  /** Just the last component is missing, from a directory with room for it. */
  ghost predicate CreatableIn(fs: Fs, o: Owners, es: seq<Name>, d: File) {
    es != [] && MissingLast(fs, o, ROOT, es, d, es[|es| - 1]) && HasRoom(fs, d)
  }

  ghost predicate Creatable(fs: Fs, o: Owners, es: seq<Name>) { exists d :: CreatableIn(fs, o, es, d) }

  /** Creation succeeds exactly if just the last component is missing and there is room.  After success
      the path leads to the new file, a regular one, and every path that led somewhere still leads
      there; a failure changes no path, and it is E_FILE_EXISTS exactly when the path leads somewhere. */
  ghost predicate Created(fs: Fs, o: Owners, es: seq<Name>, c: Found, o': Owners) {
    && Inv(c.fs, o') && DirsOk(c.fs, o')
    && (c.rc == 0 <==> Creatable(fs, o, es))
    && (c.rc == E_FILE_EXISTS <==> LeadsSomewhere(fs, es))
    && (c.rc != 0 ==> c.rc < 0 && SameTree(fs, o, c.fs, o'))
    && (c.rc == E_NO_DISK ==> Room(c.fs) == 0)
    && (c.rc == 0 ==> Leads(c.fs, ROOT, es, c.file) && Regular(c.fs, o', c.file))
    && (c.rc == 0 ==> forall q, g :: AllElems(q) && Leads(fs, ROOT, q, g) ==> Leads(c.fs, ROOT, q, g))
  }

  /** One more block costs what the holes cost and then what the block costs. */
  lemma {:induction false} HolesLast(fs: Fs, d: File, lo: nat, nb: nat)
    requires lo <= nb
    ensures Holes(fs, d, lo, nb + 1) == Holes(fs, d, lo, nb) + (if BlockOf(fs, d, nb) == 0 then 1 else 0)
    decreases nb - lo
  {
    hide BlockOf;
    if lo < nb { HolesLast(fs, d, lo + 1, nb); } else { assert Holes(fs, d, nb, nb) == 0 == Holes(fs, d, nb + 1, nb + 1); }
  }

  lemma LastCost(fs: Fs, d: File, fs': Fs)
    requires Filled(fs, d, fs') && BlockOf(fs, d, NBlocks(Size(fs, d))) == 0 == BlockOf(fs', d, NBlocks(Size(fs, d)))
    ensures var nb := NBlocks(Size(fs, d));
            Enough(fs, d, 0, nb + 1) <==> nb < MAXBLOCKS && Cost(fs', d, nb) <= Room(fs')
  {
    HolesLast(fs, d, 0, NBlocks(Size(fs, d)));
    CostIs(fs', d, NBlocks(Size(fs, d)));
    hide BlockOf, Room, Holes, Value, Size, NBlocks, Cost, Dense;
  }

  /** The unnamed entries after the scan. */
  lemma SpareAfter(fs: Fs, o: Owners, d: File, fs': Fs, o': Owners)
    requires Inv(fs, o) && KnownDir(fs, o, d) && Grows(fs, o, d, fs', o') && Filled(fs, d, fs')
    ensures Unnamed(fs', d) <==> SpareIn(fs, d)
  {
    hide *;
    var nb := NBlocks(Size(fs, d));
    FilledIs(fs, d, fs');
    SpareInIs(fs, d);
    EmptyString();
    KnownDirIs(fs, o, d);
    GrowsInv(fs, o, d, fs', o');
    GrowsDir(fs, o, d, fs', o', d);
    KnownDirIs(fs', o', d);
    if Unnamed(fs', d) {
      var n, j, e := UnnamedAt(fs', d);
      GrowsEntry(fs, o, d, fs', o', d, n, j, e, []);
      EntryInSize(fs', o', d, n, j, e);
      if BlockOf(fs, d, n) != 0 { SpareIs(fs, d, n, j, e); } else { DenseIs(fs, d, nb, n); }
    }
    if Unnamed(fs, d) {
      var n, j, e := UnnamedAt(fs, d);
      EntryBlock(fs, d, n, j, e);
      GrowsBlock(fs, o, d, fs', o', d, n);
      EntryBlock(fs', d, n, j, e);
      GrowsEntry(fs, o, d, fs', o', d, n, j, e, []);
      SpareIs(fs', d, n, j, e);
    }
    if !Dense(fs, d, nb) {
      var k := HoleBelow(fs, d, nb);
      DenseIs(fs', d, nb, k);
      var e := DirEntry(BlockOf(fs', d, k), 0);
      EntryIs(fs', d, k, 0, BlockOf(fs', d, k));
      GrowsEntry(fs, o, d, fs', o', d, k, 0, e, []);
      SpareIs(fs', d, k, 0, e);
    }
  }

  lemma SpareInIs(fs: Fs, d: File)
    ensures SpareIn(fs, d) <==> Unnamed(fs, d) || !Dense(fs, d, NBlocks(Size(fs, d)))
    ensures HasRoom(fs, d) <==> Enough(fs, d, 0, NBlocks(Size(fs, d))) && (SpareIn(fs, d) || Enough(fs, d, 0, NBlocks(Size(fs, d)) + 1))
  {
    hide Unnamed, Dense, Enough, NBlocks, Size;
  }

  lemma HoleBelow(fs: Fs, d: File, nb: nat) returns (k: nat)
    requires !Dense(fs, d, nb)
    ensures k < nb && BlockOf(fs, d, k) == 0
  {
    k :| k < nb && BlockOf(fs, d, k) == 0;
  }

  /** What the walk leaves for dir_alloc_file is exactly what HasRoom asks of the start. */
  lemma AllocRoom(fs: Fs, o: Owners, d: File, fs': Fs, o': Owners)
    requires Inv(fs, o) && KnownDir(fs, o, d) && Grows(fs, o, d, fs', o') && Filled(fs, d, fs')
    ensures var nb := NBlocks(Size(fs', d));
            && Dense(fs', d, nb)
            && (HasRoom(fs, d) <==> Unnamed(fs', d) || (nb < MAXBLOCKS && Cost(fs', d, nb) <= Room(fs')))
  {
    hide *;
    KnownDirIs(fs, o, d);
    GrowsInv(fs, o, d, fs', o');
    GrowsDir(fs, o, d, fs', o', d);
    FilledIs(fs, d, fs');
    SpareInIs(fs, d);
    SpareAfter(fs, o, d, fs', o');
    LastIsHole(fs, o, d);
    LastIsHole(fs', o', d);
    LastCost(fs, d, fs');
  }

  lemma AllocatedIs(fs: Fs, o: Owners, d: File, r: Found, o': Owners)
    requires Allocated(fs, o, d, r, o')
    ensures SameTree(fs, o, r.fs, o') && (r.rc != 0 ==> r.rc < 0 && r.rc != E_FILE_EXISTS)
    ensures r.rc == 0 ==> exists n, j :: Spare(r.fs, d, n, j, r.file)
    ensures r.rc == E_NO_DISK ==> Room(r.fs) == 0
  {
    hide SameTree, Spare, Room;
  }

  lemma CanNameJoin(fs: Fs, o: Owners, d: File, n: nat, j: nat, e: File, name: Name)
    requires Inv(fs, o) && DirsOk(fs, o) && KnownDir(fs, o, d) && Spare(fs, d, n, j, e)
    requires IsElem(name) && |name| < MAXNAMELEN && forall x :: !Named(fs, d, name, x)
    ensures CanName(fs, o, d, n, j, e, name)
  {
    hide Inv, DirsOk, KnownDir, Spare, Named, IsElem;
  }

  /** Naming the entry of a directory that the other components lead to. */
  lemma NamedLeads(fs: Fs, o: Owners, d: File, n: nat, j: nat, e: File, es: seq<Name>)
    requires es != [] && AllElems(es) && CanName(fs, o, d, n, j, e, es[|es| - 1]) && Leads(fs, ROOT, es[..|es| - 1], d)
    ensures At(fs, e) && |es[|es| - 1]| < MAXNAMELEN && Inv(PutName(fs, e, es[|es| - 1]), o) && DirsOk(PutName(fs, e, es[|es| - 1]), o)
    ensures Leads(PutName(fs, e, es[|es| - 1]), ROOT, es, e) && Regular(PutName(fs, e, es[|es| - 1]), o, e)
    ensures forall q, g :: AllElems(q) && Leads(fs, ROOT, q, g) ==> Leads(PutName(fs, e, es[|es| - 1]), ROOT, q, g)
  {
    hide *;
    var (init, last) := (es[..|es| - 1], es[|es| - 1]);
    CanNameIs(fs, o, d, n, j, e, last);
    PutNameDirs(fs, o, d, n, j, e, last);
    var fs' := PutName(fs, e, last);
    RootKnown(fs, o);
    forall g, nm, x | KnownDir(fs, o, g) && IsElem(nm) && Named(fs, g, nm, x) ensures Named(fs', g, nm, x) {
      PutNameNamed(fs, o, d, n, j, e, last, g, nm, x);
    }
    forall q, g ensures AllElems(q) && Leads(fs, ROOT, q, g) ==> Leads(fs', ROOT, q, g) {
      if AllElems(q) { LeadsMore(fs, o, fs', o, ROOT, q, g); }
    }
    InitElems(es);
    PutNameNamed(fs, o, d, n, j, e, last, d, last, e);
    DirOkIs(fs, o, d);
    PlainNewIs(fs, d, n, j, e);
    PutNameKeeps(fs, o, e, last);
    PutNameKept(fs, o, e, last, e);
    RegularIs(fs', o, e);
    KnownDirIs(fs', o, d);
    LeadsOn(fs', ROOT, init, d, last, e);
    assert es == init + [last];
  }

  lemma InitElems(es: seq<Name>)
    requires AllElems(es) && es != []
    ensures AllElems(es[..|es| - 1]) && IsElem(es[|es| - 1])
  {
    hide IsElem;
  }

  lemma MissingIs(fs: Fs, o: Owners, f: File, es: seq<Name>, d: File, last: Name)
    requires MissingLast(fs, o, f, es, d, last)
    ensures es != [] && last == es[|es| - 1] && |last| < MAXNAMELEN
    ensures KnownDir(fs, o, d) && Leads(fs, f, es[..|es| - 1], d) && forall x :: !Named(fs, d, last, x)
  {
    hide KnownDir, Leads, Named;
  }

  lemma FileExistsDiffers()
    ensures E_FILE_EXISTS != E_NOT_FOUND && E_FILE_EXISTS != E_BAD_PATH && E_FILE_EXISTS != E_NO_DISK && E_FILE_EXISTS != E_INVAL
  {
  }

  lemma WalkedError(fs: Fs, o: Owners, f: File, es: seq<Name>, w: Walk, o': Owners)
    requires WalkedTo(fs, o, f, es, w, o')
    ensures w.rc != E_FILE_EXISTS
  {
    FileExistsDiffers();
    hide SameTree, MissingLast, Leads;
  }

  lemma CreateLeads(fs: Fs, o: Owners, path: Name) returns (o': Owners)
    requires Inv(fs, o) && DirsOk(fs, o) && IsString(path)
    ensures Shape(fs) && AllElems(Elems(path)) && Created(fs, o, Elems(path), FileCreate(fs, path), o')
  {
    hide *;
    var o1 := PathLeads(fs, o, path);
    var (w, es, c) := (WalkPath(fs, path), Elems(path), FileCreate(fs, path));
    WalkedIs(fs, o, ROOT, es, w, o1);
    WalkedError(fs, o, ROOT, es, w, o1);
    TreeIs(fs, o, w.fs, o1);
    CreateForm(fs, path);
    FileExistsDiffers();
    o' := o1;
    SomewhereIs(fs, es, w.file);
    if w.rc == 0 || w.dir == None {
      NotCreatable(fs, o, path);
      CreatedNot(fs, o, es, c, o1);
    } else {
      WalkedIntoIs(fs, o, ROOT, es, w, o1);
      var (d, last) := (w.dir.value, w.last);
      MissingIs(fs, o, ROOT, es, d, last);
      AllocRoom(fs, o, d, w.fs, o1);
      CreatableOnly(fs, o, path);
      TreeKnown(fs, o, w.fs, o1, d);
      KnownDirIs(w.fs, o1, d);
      SizeIs(w.fs, o1, d);
      o' := AllocFinds(w.fs, o1, d);
      var a := DirAllocFile(w.fs, d);
      AllocatedIs(w.fs, o1, d, a, o');
      TreeThen(fs, o, w.fs, o1, a.fs, o');
      TreeIs(fs, o, a.fs, o');
      if a.rc < 0 {
        CreatedNot(fs, o, es, c, o');
      } else {
        TreeKnown(fs, o, a.fs, o', d);
        InitElems(es);
        forall x ensures !Named(a.fs, d, last, x) { TreeNamed(fs, o, a.fs, o', d, last, x); }
        var n, j :| Spare(a.fs, d, n, j, a.file);
        RootKnown(fs, o);
        forall q, g ensures AllElems(q) ==> (Leads(a.fs, ROOT, q, g) <==> Leads(fs, ROOT, q, g)) {
          if AllElems(q) { LeadsSame(fs, o, a.fs, o', ROOT, q, g); }
        }
        CanNameJoin(a.fs, o', d, n, j, a.file, last);
        NamedLeads(a.fs, o', d, n, j, a.file, es);
        CreatedIs(fs, o, es, c, o');
      }
    }
  }

  /** Where something can be created, the walk hands back the directory for it. */
  lemma CreatableWalk(fs: Fs, o: Owners, path: Name, d: File)
    requires Inv(fs, o) && DirsOk(fs, o) && IsString(path) && CreatableIn(fs, o, Elems(path), d)
    ensures Shape(fs) && WalkPath(fs, path).rc == E_NOT_FOUND && WalkPath(fs, path).dir == Some(d)
  {
    hide *;
    InvParts(fs, o);
    RootKnown(fs, o);
    SizeIs(fs, o, ROOT);
    SkipIs(path);
    ElemsAre(path);
    CreatableIs(fs, o, Elems(path), d);
    SpareInIs(fs, d);
    WalkMissing(fs, o, ROOT, None, SkipSlash(path), d, Elems(path)[|Elems(path)| - 1]);
    WalkPathForm(fs, path);
  }

  lemma CreatableIs(fs: Fs, o: Owners, es: seq<Name>, d: File)
    ensures CreatableIn(fs, o, es, d) <==> es != [] && MissingLast(fs, o, ROOT, es, d, es[|es| - 1]) && HasRoom(fs, d)
    ensures CreatableIn(fs, o, es, d) ==> Creatable(fs, o, es)
  {
    hide MissingLast, HasRoom;
  }

  lemma NotCreatable(fs: Fs, o: Owners, path: Name)
    requires Inv(fs, o) && DirsOk(fs, o) && IsString(path)
    requires Shape(fs) ==> WalkPath(fs, path).rc == 0 || WalkPath(fs, path).dir == None
    ensures !Creatable(fs, o, Elems(path))
  {
    hide CreatableIn, Inv, DirsOk, WalkPath, Elems, IsString, Shape;
    ErrorsDiffer();
    forall d ensures !CreatableIn(fs, o, Elems(path), d) {
      if CreatableIn(fs, o, Elems(path), d) { CreatableWalk(fs, o, path, d); }
    }
  }

  /** The directory handed back decides. */
  lemma CreatableOnly(fs: Fs, o: Owners, path: Name)
    requires Inv(fs, o) && DirsOk(fs, o) && IsString(path) && Shape(fs) && WalkPath(fs, path).dir != None
    requires var w := WalkPath(fs, path); MissingLast(fs, o, ROOT, Elems(path), w.dir.value, w.last)
    ensures Creatable(fs, o, Elems(path)) <==> HasRoom(fs, WalkPath(fs, path).dir.value)
  {
    hide *;
    var (w, es) := (WalkPath(fs, path), Elems(path));
    MissingIs(fs, o, ROOT, es, w.dir.value, w.last);
    CreatableIs(fs, o, es, w.dir.value);
    if Creatable(fs, o, es) {
      var d := CreatableAt(fs, o, es);
      CreatableIs(fs, o, es, d);
      CreatableWalk(fs, o, path, d);
    }
  }

  lemma CreatableAt(fs: Fs, o: Owners, es: seq<Name>) returns (d: File)
    requires Creatable(fs, o, es)
    ensures CreatableIn(fs, o, es, d)
  {
    d :| CreatableIn(fs, o, es, d);
  }

  lemma SomewhereIs(fs: Fs, es: seq<Name>, g: File)
    ensures Leads(fs, ROOT, es, g) ==> LeadsSomewhere(fs, es)
    ensures LeadsSomewhere(fs, es) ==> exists x :: Leads(fs, ROOT, es, x)
  {
  }

  lemma CreatedNot(fs: Fs, o: Owners, es: seq<Name>, c: Found, o': Owners)
    requires SameTree(fs, o, c.fs, o') && c.rc < 0 && (c.rc == E_FILE_EXISTS <==> LeadsSomewhere(fs, es))
    requires !Creatable(fs, o, es) && (c.rc == E_NO_DISK ==> Room(c.fs) == 0)
    ensures Created(fs, o, es, c, o')
  {
    hide SameTree, Inv, DirsOk, Creatable, Room;
    TreeIs(fs, o, c.fs, o');
  }

  lemma CreatedIs(fs: Fs, o: Owners, es: seq<Name>, c: Found, o': Owners)
    requires Inv(c.fs, o') && DirsOk(c.fs, o') && c.rc == 0 && Leads(c.fs, ROOT, es, c.file) && Regular(c.fs, o', c.file)
    requires !LeadsSomewhere(fs, es) && Creatable(fs, o, es)
    requires forall q, g :: AllElems(q) && Leads(fs, ROOT, q, g) ==> Leads(c.fs, ROOT, q, g)
    ensures Created(fs, o, es, c, o')
  {
    hide SameTree, Leads, Inv, DirsOk, AllElems, Creatable, Regular, Room;
  }

  /** After file_create(p) succeeds, file_open(p) opens the same entry, and every path that opened
      before still opens the file it did; after a failure so does every path. */
  lemma CreateThenOpen(fs: Fs, o: Owners, path: Name, q: Name)
    requires Inv(fs, o) && DirsOk(fs, o) && IsString(path) && IsString(q)
    ensures Shape(fs)
    ensures var (c, before, after) := (FileCreate(fs, path), FileOpen(fs, q), FileOpen(FileCreate(fs, path).fs, q));
            && (c.rc == 0 ==> FileOpen(c.fs, path) == Found(c.fs, 0, c.file))
            && (before.rc == 0 ==> after == Found(c.fs, 0, before.file))
            && (c.rc != 0 && after.rc == 0 ==> before.rc == 0)
  {
    hide *;
    InvParts(fs, o);
    var o' := CreateLeads(fs, o, path);
    var (c, before) := (FileCreate(fs, path), FileOpen(fs, q));
    var after := FileOpen(c.fs, q);
    ElemsAre(q);
    CreatedParts(fs, o, Elems(path), c, o');
    OpenExact(c.fs, o', path, c.file);
    OpenExact(fs, o, q, before.file);
    OpenExact(c.fs, o', q, before.file);
    OpenExact(c.fs, o', q, after.file);
    OpenExact(fs, o, q, after.file);
    RootKnown(fs, o);
    if c.rc != 0 {
      LeadsSame(fs, o, c.fs, o', ROOT, Elems(q), before.file);
      LeadsSame(fs, o, c.fs, o', ROOT, Elems(q), after.file);
    }
  }

  lemma CreatedParts(fs: Fs, o: Owners, es: seq<Name>, c: Found, o': Owners)
    requires Created(fs, o, es, c, o')
    ensures Inv(c.fs, o') && DirsOk(c.fs, o') && (c.rc != 0 ==> SameTree(fs, o, c.fs, o'))
    ensures c.rc == 0 ==> Leads(c.fs, ROOT, es, c.file) && Regular(c.fs, o', c.file)
    ensures c.rc == 0 ==> forall q, g :: AllElems(q) && Leads(fs, ROOT, q, g) ==> Leads(c.fs, ROOT, q, g)
    ensures c.rc == E_FILE_EXISTS <==> LeadsSomewhere(fs, es)
    ensures c.rc == 0 <==> Creatable(fs, o, es)
    ensures c.rc <= 0
  {
    hide SameTree, Leads, Inv, DirsOk, AllElems, Creatable, Regular, Room;
  }
}
