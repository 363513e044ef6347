/** The demand-filled, dirty-tracked block cache of lab5/fs/bc.c, and fs_sync. */
module BlockCache {
  import opened Wrappers
  import opened Disk
  import opened FileSystem

  type Block = blk: seq<Word> | IsBlock(blk) witness ZeroBlock()

  /** A mapped page of the disk map region, with its dirty bit (PTE_D). */
  datatype Page = Page(content: Block, dirty: bool)

  /** pages[b] is there when the page of block b is mapped; disk is what ide_read returns. */
  datatype Cache = Cache(pages: map<nat, Page>, disk: seq<Block>)

  /** The superblock and the bitmap are on the disk. */
  predicate CacheOk(c: Cache) {
    && 2 + (|c.disk| + BLKBITSIZE - 1) / BLKBITSIZE <= |c.disk|
    && (forall b :: b in c.pages ==> b < |c.disk|)
  }

  /** What a program reading the disk map region sees in block b. */
  function View(c: Cache, b: nat): Block
    requires b < |c.disk|
  {
    if b in c.pages then c.pages[b].content else c.disk[b]
  }

  /** A mapped clean page equals its disk block. */
  ghost predicate Coherent(c: Cache) {
    CacheOk(c) && forall b :: b in c.pages && !c.pages[b].dirty ==> c.pages[b].content == c.disk[b]
  }

  /** The bitmap block that holds the bit of block b, and that bit as seen through the cache. */
  function BitmapBlock(b: nat): nat { 2 + b / BLKBITSIZE }

  predicate FreeBit(c: Cache, b: nat)
    requires CacheOk(c) && b < |c.disk|
  {
    BitmapThere(c, b);
    Bit(View(c, BitmapBlock(b))[b / 32 % BLKWORDS], b % 32)
  }

  lemma BitmapThere(c: Cache, b: nat)
    requires CacheOk(c) && b < |c.disk|
    ensures BitmapBlock(b) < |c.disk|
  {
  }

  function Unmapped(c: Cache): set<nat> { set b: nat | b < |c.disk| && b !in c.pages }

  /** The same view of the same disk, with at least the same pages mapped. */
  ghost predicate SameView(c: Cache, c': Cache) {
    && CacheOk(c') && c'.disk == c.disk && c.pages.Keys <= c'.pages.Keys
    && (forall b: nat :: b < |c.disk| ==> View(c', b) == View(c, b))
  }

  /** The page is mapped, filled from disk and clean. */
  function FaultPage(c: Cache, b: nat): (c1: Cache)
    requires CacheOk(c) && b < |c.disk|
    ensures CacheOk(c1) && c1.disk == c.disk
  {
    c.(pages := c.pages[b := Page(c.disk[b], false)])
  }

  /** bc_pgfault on an address of block b; None is a panic.  The page is mapped before its bit is
      checked, because looking at the bitmap may fault in turn. */
  function BcPgfault(c: Cache, b: nat): (r: Option<Cache>)
    requires CacheOk(c) && b < |c.disk| && b !in c.pages
    ensures r.Some? ==> SameView(c, r.value) && b in r.value.pages && !FreeBit(c, b) && (Coherent(c) ==> Coherent(r.value))
    decreases Unmapped(c)
  {
    hide SameView, View, FreeBit, Coherent, FaultPage, BitmapBlock;
    FaultSame(c, b);
    BitmapThere(c, b);
    var c1 := FaultPage(c, b);
    var bb := BitmapBlock(b);
    if bb in c1.pages then if FreeBit(c1, b) then None else SameFree(c, c1, b); Some(c1)
    else
      match BcPgfault(c1, bb)
      case None => None
      case Some(c2) => SameTwice(c, c1, c2); if FreeBit(c2, b) then None else SameFree(c, c2, b); Some(c2)
  }

  lemma FaultSame(c: Cache, b: nat)
    requires CacheOk(c) && b < |c.disk| && b !in c.pages
    ensures var c1 := FaultPage(c, b);
            && SameView(c, c1) && b in c1.pages && (Unmapped(c) decreases to Unmapped(c1)) && (Coherent(c) ==> Coherent(c1))
  {
    assert b in Unmapped(c) && b !in Unmapped(FaultPage(c, b));
  }

  lemma SameTwice(c: Cache, c1: Cache, c2: Cache)
    requires SameView(c, c1) && SameView(c1, c2)
    ensures SameView(c, c2) && c1.pages.Keys <= c2.pages.Keys
  {
    hide View;
  }

  /** The bitmap blocks are marked in use, as check_bitmap asserts. */
  ghost predicate BitmapInUse(c: Cache)
    requires CacheOk(c)
  {
    forall b: nat :: b < |c.disk| ==> BitmapBlock(b) < |c.disk| && !FreeBit(c, BitmapBlock(b))
  }

  /** Then a fault panics exactly on free blocks. */
  lemma {:induction false} PanicsOnFree(c: Cache, b: nat)
    requires CacheOk(c) && BitmapInUse(c) && b < |c.disk| && b !in c.pages
    ensures BcPgfault(c, b).None? <==> FreeBit(c, b)
    decreases Unmapped(c)
  {
    hide *;
    FaultForm(c, b);
    var c1 := FaultPage(c, b);
    forall x: nat | x < |c.disk| ensures FreeBit(c1, x) == FreeBit(c, x) { SameFree(c, c1, x); }
    InUseSame(c, c1);
    InUseIs(c, b);
    if BitmapBlock(b) !in c1.pages {
      PanicsOnFree(c1, BitmapBlock(b));
      if BcPgfault(c1, BitmapBlock(b)).Some? { SameFree(c1, BcPgfault(c1, BitmapBlock(b)).value, b); }
    }
  }

  /** A fault that does not panic maps the block and at most bitmap blocks besides, all clean and as they are on the disk;
      pages that were there stay as they are. */
  lemma {:induction false} FaultMaps(c: Cache, b: nat)
    requires CacheOk(c) && b < |c.disk| && b !in c.pages && BcPgfault(c, b).Some?
    ensures var c' := BcPgfault(c, b).value;
            && (forall x: nat :: x in c'.pages ==> x < |c.disk| == |c'.disk|)
            && b in c'.pages
            && (forall x: nat :: x in c.pages ==> x in c'.pages && c'.pages[x] == c.pages[x])
            && (forall x: nat :: x in c'.pages && x !in c.pages ==>
                  c'.pages[x] == Page(c.disk[x], false) && (x == b || exists y :: x == BitmapBlock(y)))
    decreases Unmapped(c)
  {
    hide *;
    FaultForm(c, b);
    FaultPageIs(c, b);
    var (c1, c') := (FaultPage(c, b), BcPgfault(c, b).value);
    if BitmapBlock(b) !in c1.pages { FaultMaps(c1, BitmapBlock(b)); }
    ViewPages(c, c');
  }

  lemma FaultPageIs(c: Cache, b: nat)
    requires CacheOk(c) && b < |c.disk|
    ensures FaultPage(c, b) == c.(pages := c.pages[b := Page(c.disk[b], false)])
  {
  }

  lemma ViewPages(c: Cache, c': Cache)
    requires SameView(c, c')
    ensures |c'.disk| == |c.disk| && forall b :: b in c'.pages ==> b < |c.disk|
  {
    hide View;
  }

  lemma SameFree(c: Cache, c': Cache, b: nat)
    requires CacheOk(c) && SameView(c, c') && b < |c.disk|
    ensures CacheOk(c') && c'.disk == c.disk && FreeBit(c', b) == FreeBit(c, b)
  {
    BitmapThere(c, b);
    hide Bit, View;
  }

  lemma InUseIs(c: Cache, b: nat)
    requires CacheOk(c) && BitmapInUse(c) && b < |c.disk|
    ensures BitmapBlock(b) < |c.disk| && !FreeBit(c, BitmapBlock(b))
  {
    hide FreeBit, BitmapBlock;
  }

  lemma InUseSame(c: Cache, c': Cache)
    requires CacheOk(c) && CacheOk(c') && |c'.disk| == |c.disk| && BitmapInUse(c)
    requires forall x: nat :: x < |c.disk| ==> FreeBit(c', x) == FreeBit(c, x)
    ensures BitmapInUse(c')
  {
    hide FreeBit, BitmapBlock;
  }

  lemma FaultForm(c: Cache, b: nat)
    requires CacheOk(c) && b < |c.disk| && b !in c.pages
    ensures var (c1, bb) := (FaultPage(c, b), BitmapBlock(b));
            && SameView(c, c1) && bb < |c1.disk| && (Unmapped(c) decreases to Unmapped(c1)) && CacheOk(c1) && |c1.disk| == |c.disk|
            && (bb in c1.pages ==> BcPgfault(c, b) == if FreeBit(c1, b) then None else Some(c1))
            && (bb !in c1.pages ==>
                  match BcPgfault(c1, bb)
                  case None => BcPgfault(c, b) == None
                  case Some(c2) => SameView(c1, c2) && |c2.disk| == |c.disk| && BcPgfault(c, b) == if FreeBit(c2, b) then None else Some(c2))
  {
    var c1 := FaultPage(c, b);
    assert b in Unmapped(c) && b !in Unmapped(c1);
    BitmapThere(c, b);
    hide Bit;
  }

  /* ---- flush_block and fs_sync ---- */

  function FlushBlock(c: Cache, b: nat): (c': Cache)
    requires CacheOk(c) && b < |c.disk|
    ensures CacheOk(c') && |c'.disk| == |c.disk|
  {
    if b !in c.pages || !c.pages[b].dirty then c
    else Cache(c.pages[b := Page(c.pages[b].content, false)], c.disk[b := c.pages[b].content])
  }

  /** flush_block writes the block's view to disk, leaves its page, if it has one, clean, and changes neither view nor
      any other page or disk block. */
  lemma FlushKeeps(c: Cache, b: nat)
    requires Coherent(c) && b < |c.disk|
    ensures Coherent(FlushBlock(c, b)) && FlushBlock(c, b).disk == c.disk[b := View(c, b)]
    ensures FlushBlock(c, b).pages == if b in c.pages then c.pages[b := Page(View(c, b), false)] else c.pages
    ensures forall x: nat :: x < |c.disk| ==> View(FlushBlock(c, b), x) == View(c, x)
  {
  }

  /** The loop of fs_sync from block i on. */
  function SyncFrom(c: Cache, i: nat): (c': Cache)
    requires CacheOk(c)
    ensures CacheOk(c') && |c'.disk| == |c.disk|
    decreases |c.disk| - i
  {
    if i >= |c.disk| then c else SyncFrom(FlushBlock(c, i), i + 1)
  }

  function FsSync(c: Cache): (c': Cache)
    requires CacheOk(c)
    ensures CacheOk(c') && |c'.disk| == |c.disk|
  {
    SyncFrom(c, 1)
  }

  lemma {:induction false} SyncFromKeeps(c: Cache, i: nat)
    requires Coherent(c)
    ensures Coherent(SyncFrom(c, i))
    ensures forall x: nat :: x < |c.disk| ==> View(SyncFrom(c, i), x) == View(c, x)
    ensures forall x: nat :: x < |c.disk| ==> SyncFrom(c, i).disk[x] == if x < i then c.disk[x] else View(c, x)
    ensures SyncFrom(c, i).pages.Keys == c.pages.Keys
    ensures forall x: nat :: x in c.pages ==> SyncFrom(c, i).pages[x] == if x < i then c.pages[x] else Page(View(c, x), false)
    decreases |c.disk| - i
  {
    if i < |c.disk| {
      FlushKeeps(c, i);
      hide FlushBlock, View, Coherent;
      SyncFromKeeps(FlushBlock(c, i), i + 1);
    }
  }

  /** After fs_sync every block from 1 on is on disk as it is seen, and no page of theirs is dirty; block 0 is not
      touched. */
  lemma SyncWritesAll(c: Cache)
    requires Coherent(c)
    ensures var c' := FsSync(c);
            && Coherent(c')
            && (forall b: nat :: b < |c.disk| ==> View(c', b) == View(c, b))
            && (forall b: nat :: 1 <= b < |c.disk| ==> c'.disk[b] == View(c', b))
            && (forall b: nat :: 1 <= b < |c.disk| && b in c.pages ==> b in c'.pages && !c'.pages[b].dirty)
            && c'.disk[0] == c.disk[0]
  {
    SyncFromKeeps(c, 1);
    hide SyncFrom, View, Coherent;
  }

  /* ---- loads and stores ---- */

  /** Any access maps the page first. */
  function Touch(c: Cache, b: nat): (r: Option<Cache>)
    requires CacheOk(c) && b < |c.disk|
    ensures r.Some? ==> SameView(c, r.value) && b in r.value.pages && (Coherent(c) ==> Coherent(r.value))
  {
    if b in c.pages then Some(c) else BcPgfault(c, b)
  }

  /** A store of one word: the hardware sets the dirty bit. */
  function StoreWord(c: Cache, b: nat, i: nat, w: Word): (r: Option<Cache>)
    requires CacheOk(c) && b < |c.disk| && i < BLKWORDS
    ensures r.Some? ==> CacheOk(r.value) && r.value.disk == c.disk
  {
    match Touch(c, b)
    case None => None
    case Some(c1) => Some(c1.(pages := c1.pages[b := Page(c1.pages[b].content[i := w], true)]))
  }

  lemma StoreKeeps(c: Cache, b: nat, i: nat, w: Word)
    requires Coherent(c) && b < |c.disk| && i < BLKWORDS && StoreWord(c, b, i, w).Some?
    ensures var c' := StoreWord(c, b, i, w).value;
            && Coherent(c') && c'.disk == c.disk
            && (forall x: nat :: x < |c.disk| ==> View(c', x) == if x == b then View(c, b)[i := w] else View(c, x))
  {
    hide BcPgfault;
    var c1 := Touch(c, b).value;
    assert View(c1, b) == View(c, b);
  }

  /* ---- the cache is invisible ---- */

  datatype Op = Load(b: nat) | Store(b: nat, i: nat, w: Word) | Flush(b: nat) | Sync

  predicate OpOk(n: nat, op: Op) {
    (!op.Sync? ==> 0 < op.b < n) && (op.Store? ==> op.i < BLKWORDS)
  }

  /** One operation on the cache; None is a panic. */
  function Step(c: Cache, op: Op): (r: Option<Cache>)
    requires CacheOk(c) && OpOk(|c.disk|, op)
    ensures r.Some? ==> CacheOk(r.value) && |r.value.disk| == |c.disk|
  {
    match op
    case Load(b) => Touch(c, b)
    case Store(b, i, w) => StoreWord(c, b, i, w)
    case Flush(b) => Some(FlushBlock(c, b))
    case Sync => Some(FsSync(c))
  }

  function Run(c: Cache, ops: seq<Op>): (r: Option<Cache>)
    requires CacheOk(c) && forall k :: 0 <= k < |ops| ==> OpOk(|c.disk|, ops[k])
    ensures r.Some? ==> CacheOk(r.value) && |r.value.disk| == |c.disk|
    decreases |ops|
  {
    if ops == [] then Some(c)
    else
      match Step(c, ops[0])
      case None => None
      case Some(c1) => Run(c1, ops[1..])
  }

  /** The same operations on a plain array of blocks: only stores matter. */
  function Direct(m: seq<Block>, ops: seq<Op>): (m': seq<Block>)
    requires forall k :: 0 <= k < |ops| ==> OpOk(|m|, ops[k])
    ensures |m'| == |m|
    decreases |ops|
  {
    if ops == [] then m
    else
      assert OpOk(|m|, ops[0]);
      if ops[0].Store? then
        var blk: Block := m[ops[0].b][ops[0].i := ops[0].w];
        Direct(m[ops[0].b := blk], ops[1..])
      else Direct(m, ops[1..])
  }

  ghost predicate Shows(c: Cache, m: seq<Block>) {
    |m| == |c.disk| && forall b: nat :: b < |m| ==> View(c, b) == m[b]
  }

  lemma StepShows(c: Cache, op: Op, m: seq<Block>)
    requires Coherent(c) && OpOk(|c.disk|, op) && Shows(c, m) && Step(c, op).Some?
    ensures var c' := Step(c, op).value;
            Coherent(c') && if op.Store? then Shows(c', m[op.b := m[op.b][op.i := op.w]]) else Shows(c', m)
  {
    match op {
      case Load(b) =>
      case Store(b, i, w) => StoreKeeps(c, b, i, w);
      case Flush(b) => FlushKeeps(c, b);
      case Sync => SyncWritesAll(c);
    }
    hide Coherent, Touch, StoreWord, FlushBlock, FsSync, View;
  }

  /** Whatever is loaded, stored, flushed and synced, a clean page equals its disk block, and what is
      seen is what a plain array of blocks would hold. */
  lemma {:induction false} RunShows(c: Cache, ops: seq<Op>, m: seq<Block>)
    requires Coherent(c) && Shows(c, m) && forall k :: 0 <= k < |ops| ==> OpOk(|c.disk|, ops[k])
    requires Run(c, ops).Some?
    ensures Coherent(Run(c, ops).value) && Shows(Run(c, ops).value, Direct(m, ops))
    decreases |ops|
  {
    hide Coherent, Shows, Step, CacheOk;
    ShowsLength(c, m);
    if ops != [] {
      StepShows(c, ops[0], m);
      var c1 := Step(c, ops[0]).value;
      var m1 := if ops[0].Store? then m[ops[0].b := m[ops[0].b][ops[0].i := ops[0].w]] else m;
      RunShows(c1, ops[1..], m1);
    }
  }

  lemma ShowsLength(c: Cache, m: seq<Block>)
    requires Coherent(c) && Shows(c, m)
    ensures |m| == |c.disk| && CacheOk(c)
  {
  }

  /* ---- alloc_block's flush ---- */

  /** alloc_block clears the bit of block n in the cached bitmap and flushes the first bitmap block. */
  function AllocFlush(c: Cache, n: nat): (r: Option<Cache>)
    requires CacheOk(c) && n < |c.disk|
    ensures r.Some? ==> CacheOk(r.value) && |r.value.disk| == |c.disk|
  {
    BitmapThere(c, n);
    var i := n / 32 % BLKWORDS;
    match StoreWord(c, BitmapBlock(n), i, FlipBit(View(c, BitmapBlock(n))[i], n % 32, false))
    case None => None
    case Some(c1) => Some(FlushBlock(c1, BitmapBlock(0)))
  }

  /** The cleared bit reaches the disk at once exactly when it lies in the first bitmap block or was
      already clear there: blocks numbered BLKBITSIZE and above are allocated in the cache alone. */
  lemma AllocOnDisk(c: Cache, n: nat)
    requires Coherent(c) && n < |c.disk| && AllocFlush(c, n).Some?
    ensures var c' := AllocFlush(c, n).value; var i := n / 32 % BLKWORDS; var bb := BitmapBlock(n);
            && bb < |c.disk| && Coherent(c') && !FreeBit(c', n)
            && (!Bit(c'.disk[bb][i], n % 32) <==> n < BLKBITSIZE || !Bit(c.disk[bb][i], n % 32))
  {
    BitmapThere(c, n);
    BitmapThere(c, 0);
    var (bb, i) := (BitmapBlock(n), n / 32 % BLKWORDS);
    var w := FlipBit(View(c, bb)[i], n % 32, false);
    StoreKeeps(c, bb, i, w);
    var c1 := StoreWord(c, bb, i, w).value;
    FlushKeeps(c1, BitmapBlock(0));
    WithBitGet(View(c, bb)[i], n % 32, false, n % 32);
    assert bb == BitmapBlock(0) <==> n < BLKBITSIZE;
    hide StoreWord, FlushBlock, Coherent, View, Bit, WithBit, BitmapBlock;
  }

  /* ---- a bit that does not reach the disk ---- */

  /** On a disk of one block more than a bitmap block has bits, only that last block is free. */
  function LateBlock(b: nat): Block { if b == 3 then ZeroBlock()[0 := 1] else ZeroBlock() }

  function LateDisk(): (c: Cache)
    ensures CacheOk(c) && |c.disk| == BLKBITSIZE + 1
  {
    Cache(map[], seq<Block>(BLKBITSIZE + 1, (b: nat) => LateBlock(b)))
  }

  lemma {:induction false} ZeroBit(i: nat)
    ensures !Bit(0, i)
  {
    if i > 0 { ZeroBit(i - 1); }
  }

  lemma LateFree(b: nat)
    requires b <= BLKBITSIZE
    ensures FreeBit(LateDisk(), b) <==> b == BLKBITSIZE
  {
    ZeroBit(b % 32);
    assert Bit(1, 0);
    BitmapThere(LateDisk(), b);
    hide Bit;
    var w := View(LateDisk(), BitmapBlock(b))[b / 32 % BLKWORDS];
    if b < BLKBITSIZE {
      assert BitmapBlock(b) == 2 && w == LateBlock(2)[b / 32 % BLKWORDS] == 0;
    } else {
      assert BitmapBlock(b) == 3 && b / 32 % BLKWORDS == 0 && b % 32 == 0 && w == LateBlock(3)[0] == 1;
    }
  }

  lemma LateInUse()
    ensures BitmapInUse(LateDisk())
  {
    forall b: nat | b <= BLKBITSIZE ensures BitmapBlock(b) <= BLKBITSIZE && !FreeBit(LateDisk(), BitmapBlock(b)) {
      assert BitmapBlock(b) <= 3;
      LateFree(BitmapBlock(b));
    }
    hide FreeBit, BitmapBlock, LateDisk;
  }

  /** Allocating it succeeds, and leaves it marked as free on the disk. */
  lemma LateBitLost()
    ensures var c := LateDisk();
            && Coherent(c) && FreeBit(c, BLKBITSIZE) && AllocFlush(c, BLKBITSIZE).Some?
            && var c' := AllocFlush(c, BLKBITSIZE).value; !FreeBit(c', BLKBITSIZE) && Bit(c'.disk[3][0], 0)
  {
    var c := LateDisk();
    LateInUse();
    LateFree(3);
    LateFree(BLKBITSIZE);
    assert BitmapBlock(BLKBITSIZE) == 3 && BLKBITSIZE / 32 % BLKWORDS == 0 && BLKBITSIZE % 32 == 0 && 3 !in c.pages;
    assert Bit(c.disk[3][0], 0);
    PanicsOnFree(c, 3);
    hide BcPgfault, FreeBit, Bit, BitmapBlock, BitmapInUse, FlipBit;
    AllocOnDisk(c, BLKBITSIZE);
  }
}
