/** The disk map region as it runs: pages mapped, dirtied, written back and cleaned in place. */
module DiskMap {
  import opened Wrappers
  import opened Disk
  import opened FileSystem
  import opened BlockCache

  class DiskMap {
    var pages: map<nat, Page>
    const disk: array<Block>

    ghost function State(): Cache
      reads this, disk
    {
      Cache(pages, disk[..])
    }

    ghost predicate Valid()
      reads this, disk
    {
      CacheOk(State())
    }

    method VaIsMapped(b: nat) returns (mapped: bool)
      ensures mapped == (b in State().pages)
    {
      mapped := b in pages;
    }

    method VaIsDirty(b: nat) returns (dirty: bool)
      requires b in pages
      ensures dirty == State().pages[b].dirty
    {
      dirty := pages[b].dirty;
    }

    /** block_is_free as bc_pgfault calls it: reading the bitmap may fault. */
    method BlockIsFree(b: nat) returns (ok: bool, free: bool)
      requires Valid() && b < disk.Length
      modifies this
      ensures Valid() && unchanged(disk)
      ensures !ok ==> BitmapBlock(b) !in old(State()).pages && BlockCache.BcPgfault(old(State()), BitmapBlock(b)) == None
      ensures ok ==> free == FreeBit(State(), b)
      ensures ok ==> if BitmapBlock(b) in old(State()).pages then State() == old(State())
                     else BlockCache.BcPgfault(old(State()), BitmapBlock(b)) == Some(State())
      decreases Unmapped(State()), 1
    {
      BitmapThere(State(), b);
      var bb := BitmapBlock(b);
      ok := true;
      var mapped := VaIsMapped(bb);
      if !mapped {
        ok := BcPgfault(bb);
        if !ok { return false, false; }
      }
      free := Bit(pages[bb].content[b / 32 % BLKWORDS], b % 32);
    }

    /** false is a panic. */
    method BcPgfault(b: nat) returns (ok: bool)
      requires Valid() && b < disk.Length && b !in pages
      modifies this
      ensures Valid() && unchanged(disk)
      ensures if ok then BlockCache.BcPgfault(old(State()), b) == Some(State()) else BlockCache.BcPgfault(old(State()), b) == None
      decreases Unmapped(State()), 0
    {
      FaultForm(State(), b);
      pages := pages[b := Page(disk[b], false)];
      assert State() == FaultPage(old(State()), b);
      assert State().disk == old(State()).disk;
      hide BlockCache.BcPgfault, FreeBit, Unmapped, CacheOk;
      var free;
      ok, free := BlockIsFree(b);
      if !ok || free { ok := false; }
    }

    method FlushBlock(b: nat)
      requires Valid() && b < disk.Length
      modifies this, disk
      ensures Valid() && State() == BlockCache.FlushBlock(old(State()), b)
    {
      var mapped := VaIsMapped(b);
      if !mapped { return; }
      var dirty := VaIsDirty(b);
      if !dirty { return; }
      disk[b] := pages[b].content;
      pages := pages[b := Page(pages[b].content, false)];
    }

    /** A store into the region. */
    method StoreWord(b: nat, i: nat, w: Word) returns (ok: bool)
      requires Valid() && b < disk.Length && i < BLKWORDS
      modifies this
      ensures Valid() && unchanged(disk)
      ensures if ok then BlockCache.StoreWord(old(State()), b, i, w) == Some(State()) else BlockCache.StoreWord(old(State()), b, i, w) == None
    {
      hide BlockCache.BcPgfault;
      ok := true;
      if b !in pages {
        ok := BcPgfault(b);
        if !ok { return; }
      }
      pages := pages[b := Page(pages[b].content[i := w], true)];
    }

    method FsSync()
      requires Valid()
      modifies this, disk
      ensures Valid() && State() == BlockCache.FsSync(old(State()))
    {
      hide BlockCache.FlushBlock, CacheOk;
      var i := 1;
      while i < disk.Length
        invariant Valid() && SyncFrom(State(), i) == SyncFrom(old(State()), 1)
      {
        FlushBlock(i);
        i := i + 1;
      }
    }
  }
}
