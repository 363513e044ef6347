/** The tree of names that path lookups see, and the operations that leave it alone. */
module DirectoryTree {
  import opened Words
  import opened Disk
  import opened FileSystem
  import opened FileOwnership
  import opened FileContents
  import opened FileTruncation
  import opened FileBytes
  import opened Paths
  import opened Directories

  /** Everything is in order again, no file is lost, no file changes its type, no new one is a
      directory, and every directory has the same names for the same files. */
  ghost predicate SameTree(fs: Fs, o: Owners, fs': Fs, o': Owners) {
    && Inv(fs', o') && DirsOk(fs', o')
    && (forall g :: Known(fs, o, g) ==> Known(fs', o', g))
    && (forall d :: KnownDir(fs', o', d) <==> KnownDir(fs, o, d))
    && (forall d, name, e :: KnownDir(fs, o, d) && IsElem(name) ==> (Named(fs', d, name, e) <==> Named(fs, d, name, e)))
  }

  lemma TreeIs(fs: Fs, o: Owners, fs': Fs, o': Owners)
    requires SameTree(fs, o, fs', o')
    ensures Inv(fs', o') && DirsOk(fs', o') && Shape(fs')
  {
    hide Known, Named, KnownDir, DirsOk;
    InvParts(fs', o');
  }

  lemma TreeKnown(fs: Fs, o: Owners, fs': Fs, o': Owners, g: File)
    requires SameTree(fs, o, fs', o')
    ensures Known(fs, o, g) ==> Known(fs', o', g)
    ensures KnownDir(fs', o', g) <==> KnownDir(fs, o, g)
  {
    hide Known, Named, KnownDir, DirsOk, Inv;
  }

  lemma TreeNamed(fs: Fs, o: Owners, fs': Fs, o': Owners, d: File, name: Name, e: File)
    requires SameTree(fs, o, fs', o') && KnownDir(fs, o, d) && IsElem(name)
    ensures Named(fs', d, name, e) <==> Named(fs, d, name, e)
  {
    hide Known, Named, KnownDir, DirsOk, Inv, IsElem;
  }

  lemma TreeJoin(fs: Fs, o: Owners, fs': Fs, o': Owners)
    requires Inv(fs', o') && DirsOk(fs', o')
    requires forall g :: Known(fs, o, g) ==> Known(fs', o', g)
    requires forall d :: KnownDir(fs', o', d) <==> KnownDir(fs, o, d)
    requires forall d, name, e :: KnownDir(fs, o, d) && IsElem(name) ==> (Named(fs', d, name, e) <==> Named(fs, d, name, e))
    ensures SameTree(fs, o, fs', o')
  {
    hide Known, Named, KnownDir, DirsOk, Inv, IsElem;
  }

  lemma TreeThen(fs: Fs, o: Owners, fs1: Fs, o1: Owners, fs2: Fs, o2: Owners)
    requires SameTree(fs, o, fs1, o1) && SameTree(fs1, o1, fs2, o2)
    ensures SameTree(fs, o, fs2, o2)
  {
    hide *;
    TreeIs(fs1, o1, fs2, o2);
    forall g ensures Known(fs, o, g) ==> Known(fs2, o2, g) {
      TreeKnown(fs, o, fs1, o1, g);
      TreeKnown(fs1, o1, fs2, o2, g);
    }
    forall d ensures KnownDir(fs2, o2, d) <==> KnownDir(fs, o, d) {
      TreeKnown(fs, o, fs1, o1, d);
      TreeKnown(fs1, o1, fs2, o2, d);
    }
    forall d, name, e | KnownDir(fs, o, d) && IsElem(name) ensures Named(fs2, d, name, e) <==> Named(fs, d, name, e) {
      TreeKnown(fs, o, fs1, o1, d);
      TreeNamed(fs, o, fs1, o1, d, name, e);
      TreeNamed(fs1, o1, fs2, o2, d, name, e);
    }
    TreeJoin(fs, o, fs2, o2);
  }

  /** Filling holes leaves the tree alone (reads, and scans of a directory). */
  lemma GrowsTree(fs: Fs, o: Owners, f: File, fs': Fs, o': Owners)
    requires Inv(fs, o) && DirsOk(fs, o) && Grows(fs, o, f, fs', o')
    ensures SameTree(fs, o, fs', o')
  {
    hide *;
    GrowsInv(fs, o, f, fs', o');
    GrowsDirs(fs, o, f, fs', o');
    forall g ensures Known(fs, o, g) ==> Known(fs', o', g) { GrowsDir(fs, o, f, fs', o', g); }
    forall d ensures KnownDir(fs', o', d) <==> KnownDir(fs, o, d) {
      GrowsDir(fs, o, f, fs', o', d);
      KnownDirIs(fs, o, d);
      KnownDirIs(fs', o', d);
    }
    forall d, name, e | KnownDir(fs, o, d) && IsElem(name) ensures Named(fs', d, name, e) <==> Named(fs, d, name, e) {
      NamedSame(fs, o, f, fs', o', d, name, e);
    }
    TreeJoin(fs, o, fs', o');
  }

  /* ---- changes that do not touch directories ---- */

  /** All directories have the same blocks, and all their entries the same names. */
  ghost predicate SameDirs(fs: Fs, o: Owners, fs': Fs, o': Owners) {
    && Inv(fs, o) && Inv(fs', o')
    && (forall g :: Known(fs, o, g) ==> Known(fs', o', g))
    && (forall d :: KnownDir(fs', o', d) <==> KnownDir(fs, o, d))
    && (forall d :: KnownDir(fs, o, d) ==> DirSize(fs, d) ==> DirSize(fs', d))
    && (forall d, n: nat :: KnownDir(fs, o, d) ==> BlockOf(fs', d, n) == BlockOf(fs, d, n))
    && (forall e :: Known(fs, o, e) ==> SameName(fs, fs', e))
  }

  lemma SameDirsIs(fs: Fs, o: Owners, fs': Fs, o': Owners, d: File)
    requires SameDirs(fs, o, fs', o')
    ensures Inv(fs, o) && Inv(fs', o')
    ensures Known(fs, o, d) ==> Known(fs', o', d) && SameName(fs, fs', d)
    ensures KnownDir(fs', o', d) <==> KnownDir(fs, o, d)
    ensures KnownDir(fs, o, d) ==> (forall n: nat :: BlockOf(fs', d, n) == BlockOf(fs, d, n)) && (DirSize(fs, d) ==> DirSize(fs', d))
  {
    hide Known, KnownDir, DirSize, BlockOf, SameName, Inv;
  }

  lemma SameDirsNamed(fs: Fs, o: Owners, fs': Fs, o': Owners, d: File, name: Name, e: File)
    requires SameDirs(fs, o, fs', o') && KnownDir(fs, o, d)
    ensures Named(fs', d, name, e) <==> Named(fs, d, name, e)
  {
    hide *;
    SameDirsIs(fs, o, fs', o', d);
    if Named(fs, d, name, e) || Named(fs', d, name, e) {
      var n, j := NamedEither(fs, fs', d, name, e);
      EntryBlock(fs, d, n, j, e);
      EntryBlock(fs', d, n, j, e);
      EntryKnown(fs, o, d, n, j, e);
      SameDirsIs(fs, o, fs', o', e);
      NameSame(fs, fs', e, name);
      NamedIs(fs, d, name, n, j, e);
      NamedIs(fs', d, name, n, j, e);
    }
  }

  lemma NamedEither(fs: Fs, fs': Fs, d: File, name: Name, e: File) returns (n: nat, j: nat)
    requires Named(fs, d, name, e) || Named(fs', d, name, e)
    requires forall n: nat :: BlockOf(fs', d, n) == BlockOf(fs, d, n)
    ensures EntryOf(fs, d, n, j, e) && EntryOf(fs', d, n, j, e) && (NameIs(fs, e, name) || NameIs(fs', e, name))
  {
    hide *;
    if Named(fs, d, name, e) { n, j := NamedAt(fs, d, name, e); } else { n, j := NamedAt(fs', d, name, e); }
    EntryBlock(fs, d, n, j, e);
    EntryBlock(fs', d, n, j, e);
  }

  lemma SameDirsEntry(fs: Fs, o: Owners, fs': Fs, o': Owners, d: File, n: nat, j: nat, e: File, name: Name)
    requires SameDirs(fs, o, fs', o') && KnownDir(fs, o, d) && EntryOf(fs', d, n, j, e)
    ensures EntryOf(fs, d, n, j, e) && NameIs(fs', e, name) == NameIs(fs, e, name) && IsDir(fs', e) == IsDir(fs, e)
  {
    hide *;
    SameDirsIs(fs, o, fs', o', d);
    EntryBlock(fs, d, n, j, e);
    EntryBlock(fs', d, n, j, e);
    EntryKnown(fs, o, d, n, j, e);
    SameDirsIs(fs, o, fs', o', e);
    KnownDirIs(fs, o, e);
    KnownDirIs(fs', o', e);
    NameSame(fs, fs', e, name);
  }

  lemma SameDirOk(fs: Fs, o: Owners, fs': Fs, o': Owners, d: File)
    requires SameDirs(fs, o, fs', o') && KnownDir(fs, o, d) && DirOk(fs, d) && DirSize(fs', d)
    ensures DirOk(fs', d)
  {
    hide *;
    SameDirsIs(fs, o, fs', o', d);
    DirParts(fs, d);
    forall n: nat, j: nat, e, name | EntryOf(fs', d, n, j, e) && IsElem(name) && NameIs(fs', e, name) ensures Dense(fs', d, n) {
      SameDirsEntry(fs, o, fs', o', d, n, j, e, name);
      PackedAt(fs, d, n, j, e, name);
      forall k: nat | k < n ensures BlockOf(fs', d, k) != 0 { DenseIs(fs, d, n, k); }
      DenseJoin(fs', d, n);
    }
    PackedJoin(fs', d);
    forall n: nat, j: nat, e | EntryOf(fs', d, n, j, e) && NameIs(fs', e, []) ensures !IsDir(fs', e) {
      SameDirsEntry(fs, o, fs', o', d, n, j, e, []);
      PlainNewIs(fs, d, n, j, e);
    }
    PlainNewJoin(fs', d);
    forall name, e, e' | IsElem(name) && Named(fs', d, name, e) && Named(fs', d, name, e') ensures e == e' {
      SameDirsNamed(fs, o, fs', o', d, name, e);
      SameDirsNamed(fs, o, fs', o', d, name, e');
      UniqueIs(fs, d, name, e, e');
    }
    DirJoin(fs', d);
  }

  lemma DirParts(fs: Fs, d: File)
    requires DirOk(fs, d)
    ensures DirSize(fs, d) && Packed(fs, d) && UniqueNames(fs, d) && PlainNew(fs, d)
  {
    hide DirSize, Packed, UniqueNames, PlainNew;
  }

  lemma SameDirsTree(fs: Fs, o: Owners, fs': Fs, o': Owners)
    requires SameDirs(fs, o, fs', o') && DirsOk(fs, o)
    ensures SameTree(fs, o, fs', o')
  {
    hide *;
    SameDirsIs(fs, o, fs', o', ROOT);
    forall g ensures Known(fs, o, g) ==> Known(fs', o', g) { SameDirsIs(fs, o, fs', o', g); }
    forall d ensures KnownDir(fs', o', d) <==> KnownDir(fs, o, d) { SameDirsIs(fs, o, fs', o', d); }
    forall d, name, e | KnownDir(fs, o, d) && IsElem(name) ensures Named(fs', d, name, e) <==> Named(fs, d, name, e) {
      SameDirsNamed(fs, o, fs', o', d, name, e);
    }
    forall d | KnownDir(fs', o', d) ensures DirOk(fs', d) {
      SameDirsIs(fs, o, fs', o', d);
      DirOkIs(fs, o, d);
      SameDirOk(fs, o, fs', o', d);
    }
    DirsJoin(fs', o');
    TreeJoin(fs, o, fs', o');
  }

  lemma SameDirsJoin(fs: Fs, o: Owners, fs': Fs, o': Owners)
    requires Inv(fs, o) && Inv(fs', o')
    requires forall g :: Known(fs, o, g) ==> Known(fs', o', g)
    requires forall d :: KnownDir(fs', o', d) <==> KnownDir(fs, o, d)
    requires forall d :: KnownDir(fs, o, d) ==> DirSize(fs, d) ==> DirSize(fs', d)
    requires forall d, n: nat :: KnownDir(fs, o, d) ==> BlockOf(fs', d, n) == BlockOf(fs, d, n)
    requires forall e :: Known(fs, o, e) ==> SameName(fs, fs', e)
    ensures SameDirs(fs, o, fs', o')
  {
    hide Known, KnownDir, DirSize, BlockOf, SameName, Inv;
  }

  /** What a change of a regular file f, or of one size, leaves of every other word. */
  ghost predicate Elsewhere(fs: Fs, o: Owners, f: File, fs': Fs, o': Owners) {
    && (forall g :: Known(fs, o, g) ==> Known(fs', o', g))
    && (forall t: Cell :: Known(fs, o, t.f) && IsCell(t) && !(t.f == f && IsSlot(t)) && t != Part(f, SIZE) ==> Value(fs', t) == Value(fs, t))
    && (forall t: Cell :: Known(fs', o', t.f) && !Known(fs, o, t.f) && IsCell(t) && !IsSlot(t) ==> Value(fs', t) == 0)
  }

  lemma ElsewhereDir(fs: Fs, o: Owners, f: File, fs': Fs, o': Owners, d: File)
    requires Elsewhere(fs, o, f, fs', o')
    ensures Known(fs, o, d) ==> Known(fs', o', d)
    ensures KnownDir(fs', o', d) <==> KnownDir(fs, o, d)
    ensures d != f && Known(fs, o, d) ==> Size(fs', d) == Size(fs, d)
    ensures Known(fs, o, d) ==> SameName(fs, fs', d)
  {
    hide Value, Known;
    assert IsCell(Part(d, TYPE)) && !IsSlot(Part(d, TYPE)) && Part(d, TYPE) != Part(f, SIZE);
    assert IsCell(Part(d, SIZE)) && !IsSlot(Part(d, SIZE));
    assert forall k :: 0 <= k < SIZE ==> IsCell(Part(d, k)) && !IsSlot(Part(d, k)) && Part(d, k) != Part(f, SIZE);
  }

  lemma ElsewhereBlock(fs: Fs, o: Owners, f: File, fs': Fs, o': Owners, d: File, n: nat)
    requires Elsewhere(fs, o, f, fs', o') && Known(fs, o, d) && d != f
    ensures BlockOf(fs', d, n) == BlockOf(fs, d, n)
  {
    DataCells(d, n);
    hide Value, Known, DataCell;
  }

  /** Reading, writing and resizing a regular file leaves the tree alone. */
  lemma RegularTree(fs: Fs, o: Owners, f: File, fs': Fs, o': Owners)
    requires Inv(fs, o) && Inv(fs', o') && DirsOk(fs, o) && Regular(fs, o, f) && Elsewhere(fs, o, f, fs', o')
    ensures SameTree(fs, o, fs', o')
  {
    hide *;
    RegularIs(fs, o, f);
    KnownDirIs(fs, o, f);
    forall g ensures Known(fs, o, g) ==> Known(fs', o', g) && SameName(fs, fs', g) { ElsewhereDir(fs, o, f, fs', o', g); }
    forall d ensures KnownDir(fs', o', d) <==> KnownDir(fs, o, d) { ElsewhereDir(fs, o, f, fs', o', d); }
    forall d | KnownDir(fs, o, d) ensures DirSize(fs, d) ==> DirSize(fs', d) {
      KnownDirIs(fs, o, d);
      ElsewhereDir(fs, o, f, fs', o', d);
      SizeSame(fs, fs', d);
    }
    forall d, n: nat | KnownDir(fs, o, d) ensures BlockOf(fs', d, n) == BlockOf(fs, d, n) {
      KnownDirIs(fs, o, d);
      ElsewhereBlock(fs, o, f, fs', o', d, n);
    }
    SameDirsJoin(fs, o, fs', o');
    SameDirsTree(fs, o, fs', o');
  }

  /** After file_write every path still leads where it led. */
  lemma WriteTree(fs: Fs, o: Owners, f: File, size: nat, pos: nat, s: seq<Byte>, fs': Fs, o': Owners)
    requires Inv(fs, o) && DirsOk(fs, o) && Regular(fs, o, f) && Stored(fs, o, f, size, pos, s, fs', o')
    ensures SameTree(fs, o, fs', o')
  {
    assert Elsewhere(fs, o, f, fs', o') by { hide Value, Known, ByteAt, Inv, DirsOk, IsSlot, IsCell, Overlaid; }
    assert Inv(fs', o') by { hide Value, Known, ByteAt, DirsOk, Overlaid; }
    hide Stored, Elsewhere, Inv, DirsOk;
    RegularTree(fs, o, f, fs', o');
  }

  /** So after file_set_size. */
  lemma SetSizeTree(fs: Fs, o: Owners, f: File, n: Long, fs': Fs, o': Owners)
    requires Inv(fs, o) && DirsOk(fs, o) && Regular(fs, o, f) && SizeSet(fs, o, f, n, fs', o')
    ensures SameTree(fs, o, fs', o')
  {
    assert Elsewhere(fs, o, f, fs', o') by {
      var r := Removed(fs, f, n);
      assert forall t :: In(r, t) ==> t.f == f && IsSlot(t);
      hide Value, Known, Content, Inv, DirsOk, IsSlot, IsCell, In, Removed;
    }
    assert Inv(fs', o') by { hide Value, Known, Content, DirsOk; }
    hide SizeSet, Elsewhere, Inv, DirsOk;
    RegularTree(fs, o, f, fs', o');
  }
}
