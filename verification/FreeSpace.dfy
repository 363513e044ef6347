/** How many data blocks are free, and what that says about allocation. */
module FreeSpace {
  import opened Disk
  import opened FileSystem
  import opened FileOwnership

  ghost function FreeSet(fs: Fs): set<nat> { set b: nat | DataStart(fs) <= b < |fs.blocks| && IsFree(fs, b) }

  /** The number of free data blocks. */
  ghost function Room(fs: Fs): nat { |FreeSet(fs)| }

  lemma RoomNone(fs: Fs)
    ensures Room(fs) == 0 <==> forall b: nat :: DataStart(fs) <= b < |fs.blocks| ==> !IsFree(fs, b)
  {
    assert Room(fs) == 0 <==> FreeSet(fs) == {};
    forall b: nat ensures b in FreeSet(fs) <==> DataStart(fs) <= b < |fs.blocks| && IsFree(fs, b) {}
    hide IsFree;
  }

  /** The disk is full exactly when alloc_block fails. */
  lemma AllocExact(fs: Fs)
    requires Shape(fs)
    ensures AllocBlock(fs).1 < 0 <==> Room(fs) == 0
  {
    RoomNone(fs);
    hide IsFree, Mark, FindFree, Room;
  }

  lemma RoomSame(fs: Fs, fs': Fs)
    requires fs'.bitmap == fs.bitmap && |fs'.blocks| == |fs.blocks|
    ensures Room(fs') == Room(fs)
  {
    forall b: nat ensures IsFree(fs', b) == IsFree(fs, b) {}
    assert DataStart(fs') == DataStart(fs);
    hide IsFree, DataStart;
    assert FreeSet(fs') == FreeSet(fs);
  }

  lemma AttachRoom(fs: Fs, c: Cell, r: nat)
    requires Shape(fs) && DataStart(fs) <= r < |fs.blocks| && IsFree(fs, r)
    ensures Room(Attach(fs, c, r)) == Room(fs) - 1
  {
    var fs' := Attach(fs, c, r);
    forall b: nat ensures b in FreeSet(fs') <==> b in FreeSet(fs) && b != r { AttachFree(fs, c, r, b); }
    hide Attach, IsFree;
    assert FreeSet(fs') == FreeSet(fs) - {r};
  }

  lemma AttachFree(fs: Fs, c: Cell, r: nat, b: nat)
    requires Shape(fs) && r < |fs.blocks|
    ensures |Attach(fs, c, r).blocks| == |fs.blocks| && (IsFree(Attach(fs, c, r), b) <==> IsFree(fs, b) && b != r)
  {
    MarkFree(fs, r, false, b);
    hide Bit, FlipBit;
  }

  function Range(lo: nat, hi: nat): (s: set<nat>)
    ensures |s| == if lo < hi then hi - lo else 0
    ensures forall x :: x in s <==> lo <= x < hi
    decreases hi - lo
  {
    if lo >= hi then {} else {lo} + Range(lo + 1, hi)
  }

  lemma FreeOrOwned(fs: Fs, o: Owners, b: nat)
    requires Inv(fs, o)
    ensures b in Range(DataStart(fs), |fs.blocks|) <==> b in FreeSet(fs) || b in o
    ensures !(b in FreeSet(fs) && b in o)
  {
    OwnedIs(fs, o, b);
    if b in o { KnownOwner(fs, o, b); }
    hide Inv, IsFree, Range, KnownSlot, Known, Value, IsSlot, DataStart;
  }

  lemma Parts(all: set<nat>, free: set<nat>, o: Owners)
    requires forall b: nat :: (b in all <==> b in free || b in o) && !(b in free && b in o)
    ensures |all| == |free| + |o|
  {
    assert all == free + o.Keys && free !! o.Keys;
    assert |o.Keys| == |o|;
  }

  lemma DataBlocks(fs: Fs)
    requires DataStart(fs) <= |fs.blocks|
    ensures |Range(DataStart(fs), |fs.blocks|)| == |fs.blocks| - DataStart(fs) && Room(fs) == |FreeSet(fs)|
  {
    hide DataStart, FreeSet;
  }

  /** Every data block is either free or owned, by exactly one slot. */
  lemma SpaceConserved(fs: Fs, o: Owners)
    requires Inv(fs, o) && DataStart(fs) <= |fs.blocks|
    ensures Room(fs) + |o| == |fs.blocks| - DataStart(fs)
  {
    hide *;
    DataBlocks(fs);
    forall b: nat
      ensures (b in Range(DataStart(fs), |fs.blocks|) <==> b in FreeSet(fs) || b in o) && !(b in FreeSet(fs) && b in o)
    {
      FreeOrOwned(fs, o, b);
    }
    Parts(Range(DataStart(fs), |fs.blocks|), FreeSet(fs), o);
  }
}
