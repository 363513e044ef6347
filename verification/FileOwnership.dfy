/** Who owns which disk block: the invariant that every routine of lab5/fs/fs.c keeps. */
module FileOwnership {
  import opened Disk
  import opened FileSystem

  /** The words that matter: those of a struct File, and the entries of its indirect block. */
  datatype Cell = Part(f: File, k: nat) | Entry(f: File, j: nat)

  predicate IsCell(c: Cell) { if c.Part? then c.k < FILEWORDS else c.j < NINDIRECT }

  /** Cells that hold block numbers. */
  predicate IsSlot(c: Cell) { if c.Part? then DIRECT <= c.k <= INDIRECT else c.j < NINDIRECT }

  predicate IsData(c: Cell) { IsSlot(c) && c != Part(c.f, INDIRECT) }

  /** The slot of block n of f, and back. */
  function DataCell(f: File, n: nat): Cell { if n < NDIRECT then Part(f, DIRECT + n) else Entry(f, n - NDIRECT) }

  function Index(c: Cell): int { if c.Part? then c.k - DIRECT else c.j + NDIRECT }

  /** Where a cell is stored; block 0 if nowhere. */
  function Home(fs: Fs, c: Cell): nat { if c.Part? then c.f.block else Field(fs, c.f, INDIRECT) }

  function Offset(c: Cell): nat { if c.Part? then c.f.base + c.k else c.j }

  predicate Located(fs: Fs, c: Cell) { IsCell(c) && Home(fs, c) != 0 }

  /** What a cell holds: an entry without an indirect block counts as zero. */
  function Value(fs: Fs, c: Cell): Word { if Home(fs, c) == 0 then 0 else Peek(fs, Home(fs, c), Offset(c)) }

  function Size(fs: Fs, f: File): nat { Value(fs, Part(f, SIZE)) }

  predicate IsDir(fs: Fs, f: File) { Value(fs, Part(f, TYPE)) == FTYPE_DIR }

  /** The owner map: for each in-use data block, the slot that refers to it. */
  type Owners = map<nat, Cell>

  /** The root, and the 16 entries of each data block of a directory. */
  predicate Known(fs: Fs, o: Owners, f: File) {
    || f == ROOT
    || (f.block in o && IsData(o[f.block]) && IsDir(fs, o[f.block].f)
        && f.base < BLKWORDS && f.base % FILEWORDS == 0)
  }

  predicate KnownSlot(fs: Fs, o: Owners, c: Cell) { IsSlot(c) && Known(fs, o, c.f) }

  ghost predicate OwnersOk(fs: Fs, o: Owners) {
    forall b :: b in o ==> InUse(fs, b) && KnownSlot(fs, o, o[b]) && Value(fs, o[b]) == b
  }

  ghost predicate AllOwned(fs: Fs, o: Owners) {
    forall b :: InUse(fs, b) ==> b in o
  }

  ghost predicate SlotsOk(fs: Fs, o: Owners) {
    forall c :: KnownSlot(fs, o, c) && Value(fs, c) != 0 ==> Value(fs, c) in o && o[Value(fs, c)] == c
  }

  /** Slots past the file's block count are zero.  A file of NDIRECT blocks may have an indirect block:
      fsformat gives it one. */
  ghost predicate SizedFile(fs: Fs, f: File) {
    && Size(fs, f) <= MAXSIZE
    && (NBlocks(Size(fs, f)) < NDIRECT ==> Value(fs, Part(f, INDIRECT)) == 0)
    && (forall n :: NBlocks(Size(fs, f)) <= n < MAXBLOCKS ==> Value(fs, DataCell(f, n)) == 0)
  }

  ghost predicate Sized(fs: Fs, o: Owners) { forall f :: Known(fs, o, f) ==> SizedFile(fs, f) }

  /** The slot of block b belongs to the root, or to an entry of a block that is reached in n - 1 steps. */
  ghost predicate Reached(o: Owners, b: nat, n: nat)
    decreases n
  {
    b in o && (o[b].f == ROOT || (n > 0 && Reached(o, o[b].f.block, n - 1)))
  }

  ghost predicate FromRoot(o: Owners, b: nat) { exists n: nat :: Reached(o, b, n) }

  /** Every owned block hangs from the root. */
  ghost predicate Grounded(o: Owners) { forall b :: b in o ==> FromRoot(o, b) }

  ghost predicate Inv(fs: Fs, o: Owners) {
    Shape(fs) && OwnersOk(fs, o) && AllOwned(fs, o) && SlotsOk(fs, o) && Sized(fs, o) && Grounded(o)
  }

  /** Every nonzero slot of every file names an in-use data block, two slots never the same one, and
      the in-use data blocks are exactly the ones so named, each of them reached from the root. */
  lemma Ownership(fs: Fs, o: Owners)
    requires Inv(fs, o)
    ensures forall c :: KnownSlot(fs, o, c) && Value(fs, c) != 0 ==> InUse(fs, Value(fs, c))
    ensures forall c, d :: KnownSlot(fs, o, c) && KnownSlot(fs, o, d) && Value(fs, c) == Value(fs, d) != 0 ==> c == d
    ensures forall b :: InUse(fs, b) ==> exists c :: KnownSlot(fs, o, c) && Value(fs, c) == b
    ensures forall b :: InUse(fs, b) <==> FromRoot(o, b)
  {
    hide FromRoot;
    forall b: nat ensures InUse(fs, b) <==> FromRoot(o, b) { RootedIs(o, b); }
    forall b | InUse(fs, b) ensures exists c :: KnownSlot(fs, o, c) && Value(fs, c) == b {
      assert KnownSlot(fs, o, o[b]);
    }
  }

  /* ---- reaching blocks from the root ---- */

  lemma RootedIs(o: Owners, b: nat)
    ensures FromRoot(o, b) ==> b in o
    ensures Grounded(o) && b in o ==> FromRoot(o, b)
  {
    hide Reached;
    if FromRoot(o, b) {
      var n: nat :| Reached(o, b, n);
      ReachedIn(o, b, n);
    }
  }

  lemma ReachedIn(o: Owners, b: nat, n: nat)
    requires Reached(o, b, n)
    ensures b in o
  {
  }

  /** p has the same slots for its blocks as o, and all of b's chain. */
  lemma {:induction false} ReachedSame(o: Owners, p: Owners, b: nat, n: nat)
    requires Reached(o, b, n) && b in p
    requires forall x :: x in o && x in p ==> p[x] == o[x]
    requires forall x :: x in o && x in p && o[x].f != ROOT && o[x].f.block in o ==> o[x].f.block in p
    ensures Reached(p, b, n)
    decreases n
  {
    if o[b].f != ROOT {
      ReachedIn(o, o[b].f.block, n - 1);
      ReachedSame(o, p, o[b].f.block, n - 1);
    }
  }

  lemma RootedSame(o: Owners, p: Owners, b: nat)
    requires FromRoot(o, b) && b in p
    requires forall x :: x in o && x in p ==> p[x] == o[x]
    requires forall x :: x in o && x in p && o[x].f != ROOT && o[x].f.block in o ==> o[x].f.block in p
    ensures FromRoot(p, b)
  {
    hide Reached;
    var n: nat :| Reached(o, b, n);
    ReachedSame(o, p, b, n);
  }

  /** A block that hangs from a rooted one. */
  lemma RootedNext(o: Owners, b: nat)
    requires b in o && (o[b].f == ROOT || FromRoot(o, o[b].f.block))
    ensures FromRoot(o, b)
  {
    if o[b].f == ROOT {
      assert Reached(o, b, 0);
    } else {
      var n: nat :| Reached(o, o[b].f.block, n);
      assert Reached(o, b, n + 1);
    }
  }

  /** No block holds the file that owns it. */
  lemma {:induction false} NotOwn(o: Owners, b: nat, n: nat)
    requires Reached(o, b, n)
    ensures o[b].f == ROOT || o[b].f.block != b
    decreases n
  {
    if o[b].f != ROOT && o[b].f.block == b { NotOwn(o, b, n - 1); }
  }

  lemma NeverOwn(fs: Fs, o: Owners, b: nat)
    requires Inv(fs, o) && b in o
    ensures o[b].f == ROOT || o[b].f.block != b
  {
    RootedIs(o, b);
    hide Reached;
    var n: nat :| Reached(o, b, n);
    NotOwn(o, b, n);
  }

  /** The disk determines who owns what. */
  lemma {:induction false} OwnerSame(fs: Fs, o: Owners, p: Owners, b: nat, n: nat)
    requires Inv(fs, o) && Inv(fs, p) && Reached(o, b, n)
    ensures b in p && p[b] == o[b]
    decreases n
  {
    var c := o[b];
    KnownOwner(fs, o, b);
    if c.f != ROOT {
      ReachedIn(o, c.f.block, n - 1);
      OwnerSame(fs, o, p, c.f.block, n - 1);
    }
    assert KnownSlot(fs, p, c) by { hide InUse, Value, IsDir, Inv; }
    assert b != 0 by { assert DataStart(fs) >= 2; }
  }

  lemma RootedBy(o: Owners, b: nat) returns (n: nat)
    requires FromRoot(o, b)
    ensures Reached(o, b, n)
  {
    n :| Reached(o, b, n);
  }

  lemma OwnersUnique(fs: Fs, o: Owners, p: Owners)
    requires Inv(fs, o) && Inv(fs, p)
    ensures o == p
  {
    hide *;
    InvParts(fs, o);
    forall b: nat ensures b in o <==> b in p {
      OwnedIs(fs, o, b);
      OwnedIs(fs, p, b);
      if b in o { KnownOwner(fs, o, b); }
      if b in p { KnownOwner(fs, p, b); }
    }
    forall b: nat | b in o ensures b in p && p[b] == o[b] {
      RootedIs(o, b);
      var n := RootedBy(o, b);
      OwnerSame(fs, o, p, b, n);
    }
  }

  /* ---- cells do not overlap ---- */

  /** A known struct File lies in the superblock or in a directory's data block. */
  lemma KnownAt(fs: Fs, o: Owners, f: File)
    requires Shape(fs) && OwnersOk(fs, o) && Known(fs, o, f)
    ensures At(fs, f) && f.block != 0
    ensures f == ROOT || (f.block >= DataStart(fs) && f.block in o && IsData(o[f.block]) && IsDir(fs, o[f.block].f))
  {
    hide IsFree, IsDir, IsData, Value, IsBlock, KnownSlot;
  }

  lemma LocatedAt(fs: Fs, o: Owners, c: Cell)
    requires Shape(fs) && OwnersOk(fs, o) && SlotsOk(fs, o) && Known(fs, o, c.f) && Located(fs, c)
    ensures Home(fs, c) < |fs.blocks| && Offset(c) < BLKWORDS
    ensures c.Part? ==> c.f.block == 1 || (c.f.block in o && IsData(o[c.f.block]) && IsDir(fs, o[c.f.block].f))
    ensures c.Entry? ==> Home(fs, c) in o && o[Home(fs, c)] == Part(c.f, INDIRECT)
    ensures Home(fs, c) == 1 || Home(fs, c) >= DataStart(fs)
  {
    KnownAt(fs, o, c.f);
    if c.Entry? { assert KnownSlot(fs, o, Part(c.f, INDIRECT)); }
  }

  lemma PartsApart(fs: Fs, o: Owners, c: Cell, t: Cell)
    requires Shape(fs) && OwnersOk(fs, o) && Known(fs, o, c.f) && Known(fs, o, t.f)
    requires c.Part? && t.Part? && IsCell(c) && IsCell(t) && c != t
    ensures c.f.block != t.f.block || Offset(c) != Offset(t)
  {
    KnownAt(fs, o, c.f);
    KnownAt(fs, o, t.f);
    assert DataStart(fs) >= 2;
    if c.f.block == t.f.block && c.f.base != t.f.base {
      assert c.f.base / FILEWORDS != t.f.base / FILEWORDS;
    }
  }

  /** Distinct cells are stored in distinct words. */
  lemma CellsApart(fs: Fs, o: Owners, c: Cell, t: Cell)
    requires Shape(fs) && OwnersOk(fs, o) && SlotsOk(fs, o) && Known(fs, o, c.f) && Known(fs, o, t.f)
    requires Located(fs, c) && Located(fs, t) && c != t
    ensures Home(fs, c) != Home(fs, t) || Offset(c) != Offset(t)
  {
    if c.Part? && t.Part? {
      PartsApart(fs, o, c, t);
    } else {
      LocatedAt(fs, o, c);
      LocatedAt(fs, o, t);
      hide Known, Home, OwnersOk, SlotsOk;
    }
  }

  /** Every word of a file lies in the superblock or in a block in use. */
  lemma CellsInUse(fs: Fs, o: Owners, c: Cell)
    requires Inv(fs, o) && Known(fs, o, c.f) && Located(fs, c)
    ensures Home(fs, c) == ROOT.block || InUse(fs, Home(fs, c))
  {
    LocatedAt(fs, o, c);
    hide InUse, Home, Value;
  }

  /** Data blocks of regular files hold no cell. */
  lemma DataApart(fs: Fs, o: Owners, b: nat, t: Cell)
    requires Shape(fs) && OwnersOk(fs, o) && SlotsOk(fs, o) && Known(fs, o, t.f) && Located(fs, t)
    requires b in o && IsData(o[b]) && !IsDir(fs, o[b].f)
    ensures Home(fs, t) != b
  {
    LocatedAt(fs, o, t);
  }

  /* ---- storing into a cell ---- */

  function Put(fs: Fs, c: Cell, w: Word): (fs': Fs)
    requires Shape(fs)
    ensures Shape(fs') && |fs'.blocks| == |fs.blocks|
  {
    if Home(fs, c) < |fs.blocks| && Offset(c) < BLKWORDS then SetWord(fs, Home(fs, c), Offset(c), w) else fs
  }

  lemma PutPeek(fs: Fs, c: Cell, w: Word, b: nat, i: nat)
    requires Shape(fs) && Home(fs, c) < |fs.blocks| && Offset(c) < BLKWORDS
    ensures Peek(Put(fs, c, w), b, i) == if b == Home(fs, c) && i == Offset(c) then w else Peek(fs, b, i)
  {
  }

  /** Reading a cell through its parts. */
  lemma ValueForm(fs: Fs, t: Cell)
    ensures Value(fs, t) == if Home(fs, t) == 0 then 0 else Peek(fs, Home(fs, t), Offset(t))
    ensures Home(fs, t) == if t.Part? then t.f.block else Peek(fs, t.f.block, Offset(Part(t.f, INDIRECT)))
    ensures IsCell(t) ==> (Located(fs, t) <==> Home(fs, t) != 0)
    ensures Home(fs, Part(t.f, INDIRECT)) == t.f.block && IsCell(Part(t.f, INDIRECT))
  {
  }

  /** A store changes its own cell and no other, except that a new or removed indirect block changes
      where entries are. */
  lemma PutValue(fs: Fs, o: Owners, c: Cell, w: Word, t: Cell)
    requires Shape(fs) && OwnersOk(fs, o) && SlotsOk(fs, o) && Known(fs, o, c.f) && Known(fs, o, t.f)
    requires Located(fs, c) && IsCell(t) && !(t.Entry? && c == Part(t.f, INDIRECT))
    ensures Home(Put(fs, c, w), t) == Home(fs, t)
    ensures Value(Put(fs, c, w), t) == if t == c then w else Value(fs, t)
  {
    hide *;
    var ind := Part(t.f, INDIRECT);
    ValueForm(fs, t);
    ValueForm(Put(fs, c, w), t);
    ValueForm(fs, ind);
    KnownAt(fs, o, t.f);
    LocatedAt(fs, o, c);
    if t.Entry? {
      CellsApart(fs, o, c, ind);
      PutPeek(fs, c, w, t.f.block, Offset(ind));
    }
    PutPeek(fs, c, w, Home(fs, t), Offset(t));
    if Located(fs, t) && t != c { CellsApart(fs, o, c, t); }
  }

  /** Marking blocks moves no cell. */
  lemma MarkValue(fs: Fs, b: nat, free: bool, t: Cell)
    requires Shape(fs)
    ensures Value(Mark(fs, b, free), t) == Value(fs, t) && Home(Mark(fs, b, free), t) == Home(fs, t)
  {
  }

  /** Overwriting a block that holds no cell changes no cell. */
  lemma BlockValue(fs: Fs, b: nat, blk: seq<Word>, t: Cell)
    requires Shape(fs) && b < |fs.blocks| && IsBlock(blk) && t.f.block != b && Home(fs, t) != b
    ensures Value(WithBlock(fs, b, blk), t) == Value(fs, t) && Home(WithBlock(fs, b, blk), t) == Home(fs, t)
  {
  }

  /* ---- giving a slot a block ---- */

  /** A free block is taken, stored in slot c and cleared. */
  function Attach(fs: Fs, c: Cell, r: nat): (fs': Fs)
    requires Shape(fs)
    ensures Shape(fs') && |fs'.blocks| == |fs.blocks|
  {
    if r < |fs.blocks| then WithBlock(Put(Mark(fs, r, false), c, r), r, ZeroBlock()) else fs
  }

  /** The slot belongs to a block of the file. */
  ghost predicate InSize(fs: Fs, c: Cell) {
    if IsData(c) then Index(c) < NBlocks(Size(fs, c.f)) else NDIRECT < NBlocks(Size(fs, c.f))
  }

  ghost predicate CanAttach(fs: Fs, o: Owners, c: Cell, r: nat) {
    && Inv(fs, o) && KnownSlot(fs, o, c) && Located(fs, c) && Value(fs, c) == 0 && InSize(fs, c)
    && DataStart(fs) <= r < |fs.blocks| && IsFree(fs, r)
  }

  /** Nothing known lives in a free block. */
  lemma FreeApart(fs: Fs, o: Owners, r: nat, t: Cell)
    requires Shape(fs) && OwnersOk(fs, o) && SlotsOk(fs, o) && Known(fs, o, t.f) && IsCell(t)
    requires DataStart(fs) <= r < |fs.blocks| && IsFree(fs, r)
    ensures r !in o && t.f.block != r && Home(fs, t) != r
  {
    KnownAt(fs, o, t.f);
    if Located(fs, t) { LocatedAt(fs, o, t); }
  }

  lemma InvParts(fs: Fs, o: Owners)
    requires Inv(fs, o)
    ensures Shape(fs) && OwnersOk(fs, o) && AllOwned(fs, o) && SlotsOk(fs, o) && Sized(fs, o) && Grounded(o)
  {
  }

  lemma OwnedIs(fs: Fs, o: Owners, b: nat)
    requires Inv(fs, o)
    ensures InUse(fs, b) ==> b in o
  {
  }

  lemma InvJoin(fs: Fs, o: Owners)
    requires Shape(fs)
    requires forall b :: b in o ==> InUse(fs, b) && KnownSlot(fs, o, o[b]) && Value(fs, o[b]) == b
    requires forall b :: InUse(fs, b) ==> b in o
    requires forall d :: KnownSlot(fs, o, d) ==> (Value(fs, d) != 0 ==> Value(fs, d) in o && o[Value(fs, d)] == d)
    requires forall f :: Known(fs, o, f) ==> SizedFile(fs, f)
    requires Grounded(o)
    ensures Inv(fs, o)
  {
    hide Grounded, InUse, Value, Known, KnownSlot, SizedFile;
  }

  lemma KnownOwner(fs: Fs, o: Owners, b: nat)
    requires Inv(fs, o) && b in o
    ensures KnownSlot(fs, o, o[b]) && Known(fs, o, o[b].f) && IsSlot(o[b]) && InUse(fs, b) && Value(fs, o[b]) == b
  {
  }

  lemma KnownRoot(fs: Fs, o: Owners, c: Cell, r: nat)
    requires CanAttach(fs, o, c, r)
    ensures Shape(fs) && Inv(fs, o) && Known(fs, o, c.f) && IsSlot(c) && Located(fs, c) && Known(fs, o, ROOT) && r != ROOT.block && r !in o
    ensures DataStart(fs) <= r < |fs.blocks| && IsFree(fs, r)
  {
    FreeApart(fs, o, r, c);
  }

  /** Attaching changes the value of its own slot only. */
  lemma AttachValue(fs: Fs, o: Owners, c: Cell, r: nat, t: Cell)
    requires CanAttach(fs, o, c, r) && Known(fs, o, t.f) && IsCell(t)
    ensures Value(Attach(fs, c, r), t) == if t == c then r else Value(fs, t)
  {
    hide *;
    KnownRoot(fs, o, c, r);
    InvParts(fs, o);
    LocatedAt(fs, o, c);
    FreeApart(fs, o, r, t);
    FreeApart(fs, o, r, c);
    if t.Entry? && c == Part(t.f, INDIRECT) {
      AttachZero(fs, o, c, r);
      AttachIndirect(fs, c, r, t);
    } else {
      PutValue(fs, o, c, r, t);
      AttachForm(fs, c, r, t);
    }
  }

  lemma AttachForm(fs: Fs, c: Cell, r: nat, t: Cell)
    requires Shape(fs) && r < |fs.blocks| && t.f.block != r && Home(Put(fs, c, r), t) != r
    ensures Value(Attach(fs, c, r), t) == Value(Put(fs, c, r), t)
  {
    var fs2 := Put(fs, c, r);
    assert Put(Mark(fs, r, false), c, r) == Mark(fs2, r, false);
    MarkValue(fs2, r, false, t);
    BlockValue(Mark(fs2, r, false), r, ZeroBlock(), t);
    hide Mark, WithBlock, Put, Value, Home;
  }

  lemma AttachZero(fs: Fs, o: Owners, c: Cell, r: nat)
    requires CanAttach(fs, o, c, r)
    ensures Value(fs, c) == 0 && c.f.block != 0 && DataStart(fs) >= 2
  {
    KnownAt(fs, o, c.f);
  }

  lemma AttachIndirect(fs: Fs, c: Cell, r: nat, t: Cell)
    requires Shape(fs) && c.f.block != r && t.Entry? && c == Part(t.f, INDIRECT) && IsCell(t)
    requires Home(fs, c) < |fs.blocks| && Offset(c) < BLKWORDS
    requires 0 < r < |fs.blocks| && Value(fs, c) == 0 && c.f.block != 0
    ensures Value(Attach(fs, c, r), t) == Value(fs, t)
  {
  }

  lemma AttachInUse(fs: Fs, c: Cell, r: nat, b: nat)
    requires Shape(fs) && DataStart(fs) <= r < |fs.blocks|
    ensures InUse(Attach(fs, c, r), b) <==> InUse(fs, b) || b == r
  {
    MarkFree(fs, r, false, b);
  }

  /** Cells of a cleared block are zero. */
  lemma AttachFresh(fs: Fs, c: Cell, r: nat, t: Cell)
    requires Shape(fs) && r < |fs.blocks|
    requires t.f.block == r && t.f.base + FILEWORDS <= BLKWORDS && IsCell(t)
    ensures Value(Attach(fs, c, r), t) == 0
  {
  }

  ghost predicate FreshFile(r: nat, f: File) { f.block == r && f.base + FILEWORDS <= BLKWORDS }

  lemma AttachDir(fs: Fs, o: Owners, c: Cell, r: nat, g: File)
    requires CanAttach(fs, o, c, r) && Known(fs, o, g)
    ensures IsDir(Attach(fs, c, r), g) == IsDir(fs, g) && Size(Attach(fs, c, r), g) == Size(fs, g)
  {
    AttachValue(fs, o, c, r, Part(g, TYPE));
    AttachValue(fs, o, c, r, Part(g, SIZE));
    hide Attach, Value, CanAttach;
    assert IsSlot(c) by { KnownRoot(fs, o, c, r); }
  }

  lemma KnownMore(fs: Fs, fs': Fs, o: Owners, r: nat, c: Cell, f: File)
    requires r !in o && r != ROOT.block
    requires f.block in o ==> IsDir(fs', o[f.block].f) == IsDir(fs, o[f.block].f)
    ensures Known(fs, o, f) ==> Known(fs', o[r := c], f)
    ensures Known(fs', o[r := c], f) ==> Known(fs, o, f) || FreshFile(r, f)
  {
    hide IsDir, IsData;
    assert f.base < BLKWORDS && f.base % FILEWORDS == 0 ==> f.base + FILEWORDS <= BLKWORDS;
  }

  /** Known files stay known; the only new ones are the empty entries of a new directory block. */
  lemma AttachKnown(fs: Fs, o: Owners, c: Cell, r: nat, f: File)
    requires CanAttach(fs, o, c, r)
    ensures Known(fs, o, f) ==> Known(Attach(fs, c, r), o[r := c], f)
    ensures Known(Attach(fs, c, r), o[r := c], f) ==> Known(fs, o, f) || FreshFile(r, f)
  {
    hide *;
    KnownRoot(fs, o, c, r);
    if f.block in o {
      KnownOwner(fs, o, f.block);
      AttachDir(fs, o, c, r, o[f.block].f);
    }
    KnownMore(fs, Attach(fs, c, r), o, r, c, f);
  }

  lemma AttachOwners(fs: Fs, o: Owners, c: Cell, r: nat, b: nat)
    requires CanAttach(fs, o, c, r)
    ensures var (fs', o') := (Attach(fs, c, r), o[r := c]);
            b in o' ==> InUse(fs', b) && KnownSlot(fs', o', o'[b]) && Value(fs', o'[b]) == b
  {
    hide *;
    CanAttachIs(fs, o, c, r);
    if b in o || b == r {
      var d := if b == r then c else o[b];
      if b in o {
        KnownOwner(fs, o, b);
        UseNonzero(fs, b);
      }
      SlotOf(fs, o, d);
      SlotOf(fs, o, c);
      FreeApart(fs, o, r, c);
      AttachInUse(fs, c, r, b);
      AttachKnown(fs, o, c, r, d.f);
      AttachValue(fs, o, c, r, d);
      SlotOf(Attach(fs, c, r), o[r := c], d);
    }
  }

  lemma UseNonzero(fs: Fs, b: nat)
    requires InUse(fs, b)
    ensures b != 0
  {
  }

  lemma CanAttachIs(fs: Fs, o: Owners, c: Cell, r: nat)
    requires CanAttach(fs, o, c, r)
    ensures Inv(fs, o) && Shape(fs) && OwnersOk(fs, o) && SlotsOk(fs, o) && KnownSlot(fs, o, c) && Located(fs, c) && Value(fs, c) == 0
    ensures DataStart(fs) <= r < |fs.blocks| && IsFree(fs, r) && !InUse(fs, r)
  {
    hide OwnersOk, SlotsOk, KnownSlot, Located, Value, IsFree;
  }

  lemma AttachSlots(fs: Fs, o: Owners, c: Cell, r: nat, d: Cell)
    requires CanAttach(fs, o, c, r)
    requires KnownSlot(Attach(fs, c, r), o[r := c], d)
    ensures var (fs', o') := (Attach(fs, c, r), o[r := c]);
            Value(fs', d) != 0 ==> Value(fs', d) in o' && o'[Value(fs', d)] == d
  {
    hide *;
    KnownRoot(fs, o, c, r);
    AttachKnown(fs, o, c, r, d.f);
    SlotOf(Attach(fs, c, r), o[r := c], d);
    if Known(fs, o, d.f) {
      AttachValue(fs, o, c, r, d);
      if Value(fs, d) != 0 { SlotOwnedAt(fs, o, d); }
    } else {
      AttachFresh(fs, c, r, d);
    }
  }

  lemma SlotOf(fs: Fs, o: Owners, d: Cell)
    ensures KnownSlot(fs, o, d) <==> IsSlot(d) && Known(fs, o, d.f)
    ensures IsSlot(d) ==> IsCell(d)
    ensures forall r :: FreshFile(r, d.f) ==> d.f.block == r && d.f.base + FILEWORDS <= BLKWORDS
  {
  }

  lemma SlotOwnedAt(fs: Fs, o: Owners, d: Cell)
    requires Inv(fs, o) && IsSlot(d) && Known(fs, o, d.f) && Value(fs, d) != 0
    ensures Value(fs, d) in o && o[Value(fs, d)] == d
  {
    assert KnownSlot(fs, o, d);
  }

  lemma AttachSized(fs: Fs, o: Owners, c: Cell, r: nat, f: File)
    requires CanAttach(fs, o, c, r)
    requires Known(Attach(fs, c, r), o[r := c], f)
    ensures SizedFile(Attach(fs, c, r), f)
  {
    hide *;
    KnownRoot(fs, o, c, r);
    AttachKnown(fs, o, c, r, f);
    forall t: Cell | t.f == f && IsCell(t)
      ensures Value(Attach(fs, c, r), t) == if !Known(fs, o, f) then 0 else if t == c then r else Value(fs, t)
    {
      AttachCell(fs, o, c, r, t);
    }
    if Known(fs, o, f) {
      KnownSized(fs, o, c, r, f);
      SizedAfter(fs, Attach(fs, c, r), c, f);
    } else {
      SizedFresh(Attach(fs, c, r), f);
    }
  }

  lemma AttachCell(fs: Fs, o: Owners, c: Cell, r: nat, t: Cell)
    requires CanAttach(fs, o, c, r) && IsCell(t) && (Known(fs, o, t.f) || FreshFile(r, t.f))
    ensures Value(Attach(fs, c, r), t) == if !Known(fs, o, t.f) then 0 else if t == c then r else Value(fs, t)
  {
    if Known(fs, o, t.f) { AttachValue(fs, o, c, r, t); } else { AttachFresh(fs, c, r, t); }
  }

  lemma KnownSized(fs: Fs, o: Owners, c: Cell, r: nat, f: File)
    requires CanAttach(fs, o, c, r) && Known(fs, o, f)
    ensures SizedFile(fs, f) && InSize(fs, c) && IsSlot(c)
  {
  }

  /** A slot inside its file's size may be filled. */
  lemma SizedAfter(fs: Fs, fs': Fs, c: Cell, f: File)
    requires SizedFile(fs, f) && InSize(fs, c) && IsSlot(c)
    requires forall t: Cell :: t.f == f && IsCell(t) && t != c ==> Value(fs', t) == Value(fs, t)
    ensures SizedFile(fs', f)
  {
    hide Value;
    assert IsCell(Part(f, SIZE)) && IsCell(Part(f, INDIRECT)) && Part(f, SIZE) != c;
    assert forall n :: 0 <= n < MAXBLOCKS ==> IsCell(DataCell(f, n)) && Index(DataCell(f, n)) == n && IsData(DataCell(f, n));
  }

  lemma SizedFresh(fs': Fs, f: File)
    requires forall t: Cell :: t.f == f && IsCell(t) ==> Value(fs', t) == 0
    ensures SizedFile(fs', f)
  {
    hide Value;
    assert IsCell(Part(f, SIZE)) && IsCell(Part(f, INDIRECT));
    assert forall n :: 0 <= n < MAXBLOCKS ==> IsCell(DataCell(f, n));
  }

  lemma AttachGrounded(fs: Fs, o: Owners, c: Cell, r: nat)
    requires CanAttach(fs, o, c, r)
    ensures Grounded(o[r := c])
  {
    hide *;
    KnownRoot(fs, o, c, r);
    InvParts(fs, o);
    KnownIs(fs, o, c.f);
    var p := o[r := c];
    forall b: nat | b in o ensures FromRoot(p, b) {
      RootedIs(o, b);
      RootedSame(o, p, b);
    }
    RootedNext(p, r);
    GroundedJoin(p);
  }

  lemma GroundedJoin(o: Owners)
    requires forall b: nat :: b in o ==> FromRoot(o, b)
    ensures Grounded(o)
  {
    hide FromRoot;
  }

  lemma KnownIs(fs: Fs, o: Owners, f: File)
    ensures Known(fs, o, f) ==> f == ROOT || (f.block in o && IsData(o[f.block]) && IsDir(fs, o[f.block].f))
  {
  }

  /** Filling an empty slot of a file with a free block keeps ownership. */
  lemma AttachKeeps(fs: Fs, o: Owners, c: Cell, r: nat)
    requires CanAttach(fs, o, c, r)
    ensures Inv(Attach(fs, c, r), o[r := c])
  {
    hide *;
    KnownRoot(fs, o, c, r);
    InvParts(fs, o);
    LocatedAt(fs, o, c);
    var (fs', o') := (Attach(fs, c, r), o[r := c]);
    forall b: nat ensures b in o' ==> InUse(fs', b) && KnownSlot(fs', o', o'[b]) && Value(fs', o'[b]) == b {
      AttachOwners(fs, o, c, r, b);
    }
    forall b: nat ensures InUse(fs', b) ==> b in o' {
      AttachInUse(fs, c, r, b);
      OwnedIs(fs, o, b);
    }
    forall d | KnownSlot(fs', o', d) ensures Value(fs', d) != 0 ==> Value(fs', d) in o' && o'[Value(fs', d)] == d {
      AttachSlots(fs, o, c, r, d);
    }
    forall f | Known(fs', o', f) ensures SizedFile(fs', f) { AttachSized(fs, o, c, r, f); }
    AttachGrounded(fs, o, c, r);
    InvJoin(fs', o');
  }
}
