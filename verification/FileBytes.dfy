/** file_read and file_write, byte by byte: holes read as zeros, a read returns the file's bytes and a
    write changes exactly its own. */
module FileBytes {
  import opened Words
  import opened Disk
  import opened FileSystem
  import opened FileOwnership
  import opened FreeSpace
  import opened FileRelease
  import opened FileContents
  import opened FileTruncation

  /* ---- positions ---- */

  /** A chunk of one turn of the read or write loop stays inside a block. */
  lemma ChunkAt(pos: nat, i: nat)
    requires BlockOffset(pos) + i < BLKSIZE
    ensures BlockNo(pos + i) == BlockNo(pos) && BlockOffset(pos + i) == BlockOffset(pos) + i
  {
    var (q, m) := (pos / BLKSIZE, pos % BLKSIZE);
    assert pos + i == q * BLKSIZE + (m + i);
  }

  lemma InFile(pos: nat, size: nat)
    requires pos < size
    ensures BlockNo(pos) < NBlocks(size)
    ensures pos < MAXFILESIZE ==> BlockNo(pos) < MAXBLOCKS
  {
  }

  /** Block n of a file whose block n is b. */
  lemma ByteIs(fs: Fs, f: File, p: nat)
    requires Shape(fs)
    ensures ByteAt(fs, f, p) == GetByte(Content(fs, f, BlockNo(p)), BlockOffset(p))
  {
  }

  lemma FillsByte(fs: Fs, o: Owners, f: File, fs': Fs, o': Owners, g: File, p: nat)
    requires Shape(fs) && Fills(fs, o, f, fs', o') && Steady(fs, o, f, g)
    ensures Shape(fs') && ByteAt(fs', g, p) == ByteAt(fs, g, p)
  {
    FillsContent(fs, o, f, fs', o', g, BlockNo(p));
    FillsGrows(fs, o, f, fs', o');
    hide Fills, Content, GetByte;
  }

  lemma SteadySelf(fs: Fs, o: Owners, f: File)
    requires Known(fs, o, f)
    ensures Steady(fs, o, f, f)
  {
    hide Known;
  }

  /* ---- file_read ---- */

  /** No block of positions pos to end - 1 is a hole. */
  ghost predicate NoHoles(fs: Fs, f: File, pos: nat, end: nat) {
    forall p: nat :: pos <= p < end ==> BlockOf(fs, f, BlockNo(p)) != 0
  }

  lemma GotParts(fs: Fs, o: Owners, f: File, n: nat, fs': Fs, o': Owners, r: int)
    requires Got(fs, o, f, n, fs', o', r)
    ensures Fills(fs, o, f, fs', o') && Grows(fs, o, f, fs', o') && Shape(fs') && Inv(fs', o') && |fs'.blocks| == |fs.blocks|
    ensures r >= 0 ==> r == BlockOf(fs', f, n) != 0
    ensures BlockOf(fs, f, n) != 0 ==> fs' == fs && r >= 0
    ensures r < 0 ==> r == E_NO_DISK || r == E_INVAL
    ensures r < 0 ==> BlockOf(fs', f, n) == 0
    ensures n < MAXBLOCKS && r < 0 ==> r == E_NO_DISK != E_INVAL
    ensures Afforded(fs, f, n, fs', r)
    ensures r == E_NO_DISK ==> Room(fs') == 0
    ensures r >= 0 ==> n < MAXBLOCKS
  {
    FillsGrows(fs, o, f, fs', o');
    hide Grows, Fills, Cost, Room, InUse, Value;
  }

  lemma GotOthers(fs: Fs, o: Owners, f: File, n: nat, fs': Fs, o': Owners, r: int)
    requires Got(fs, o, f, n, fs', o', r) && Known(fs, o, f)
    ensures forall m: nat :: m != n ==> BlockOf(fs', f, m) == BlockOf(fs, f, m)
  {
    forall m: nat | m != n ensures BlockOf(fs', f, m) == BlockOf(fs, f, m) { GotBlock(fs, o, f, n, fs', o', r, m); }
  }

  /** The holes at positions pos to end - 1 can be filled. */
  ghost predicate RoomFor(fs: Fs, f: File, pos: nat, end: nat) { pos >= end || Enough(fs, f, BlockNo(pos), NBlocks(end)) }

  /** The blocks of one turn of a loop and of the rest. */
  lemma NextChunk(pos: nat, end: nat)
    requires pos < end
    ensures var bn := Min(BLKSIZE - BlockOffset(pos), end - pos);
            && BlockNo(pos) < NBlocks(end)
            && (pos + bn < end ==> BlockNo(pos + bn) == BlockNo(pos) + 1)
            && (pos + bn >= end ==> NBlocks(end) == BlockNo(pos) + 1)
  {
    var (q, m) := (pos / BLKSIZE, pos % BLKSIZE);
    assert pos + (BLKSIZE - m) == (q + 1) * BLKSIZE;
    if end <= pos + (BLKSIZE - m) {
      assert q * BLKSIZE < end <= (q + 1) * BLKSIZE;
      assert (end + BLKSIZE - 1) / BLKSIZE == q + 1;
    }
  }

  lemma RoomNext(fs: Fs, f: File, pos: nat, end: nat, fs1: Fs, r: int)
    requires pos < end && BlockNo(pos) < MAXBLOCKS && r >= 0 && Afforded(fs, f, BlockNo(pos), fs1, r)
    requires forall m: nat :: m != BlockNo(pos) ==> BlockOf(fs1, f, m) == BlockOf(fs, f, m)
    ensures RoomFor(fs, f, pos, end) <==> RoomFor(fs1, f, pos + Min(BLKSIZE - BlockOffset(pos), end - pos), end)
  {
    hide *;
    MinIs(pos, end - pos);
    NextChunk(pos, end);
    var next := pos + Min(BLKSIZE - BlockOffset(pos), end - pos);
    EnoughNext(fs, f, BlockNo(pos), NBlocks(end), fs1, r);
    if next >= end { EnoughNone(fs1, f, BlockNo(pos) + 1, NBlocks(end)); }
    RoomForIs(fs, f, pos, end);
    RoomForIs(fs1, f, next, end);
  }

  lemma RoomForIs(fs: Fs, f: File, pos: nat, end: nat)
    ensures RoomFor(fs, f, pos, end) <==> pos >= end || Enough(fs, f, BlockNo(pos), NBlocks(end))
  {
    hide Enough;
  }

  lemma RoomFails(fs: Fs, f: File, pos: nat, end: nat, fs1: Fs, r: int)
    requires pos < end && r < 0 && Afforded(fs, f, BlockNo(pos), fs1, r)
    ensures !RoomFor(fs, f, pos, end)
  {
    hide *;
    NextChunk(pos, end);
    EnoughFails(fs, f, BlockNo(pos), NBlocks(end), fs1, r);
    RoomForIs(fs, f, pos, end);
  }

  lemma ContentIs(fs: Fs, o: Owners, f: File, n: nat)
    requires Inv(fs, o) && Known(fs, o, f) && BlockOf(fs, f, n) != 0
    ensures BlockOf(fs, f, n) < |fs.blocks| && Content(fs, f, n) == fs.blocks[BlockOf(fs, f, n)] && Shape(fs)
    ensures IsBlock(fs.blocks[BlockOf(fs, f, n)])
  {
    InvParts(fs, o);
    BlockOfIs(fs, o, f, n);
  }

  /** The bytes moved by one turn of the read loop. */
  lemma ChunkBytes(fs: Fs, f: File, pos: nat, bn: nat, b: nat)
    requires Shape(fs) && b < |fs.blocks| && Content(fs, f, BlockNo(pos)) == fs.blocks[b] && BlockOffset(pos) + bn <= BLKSIZE
    ensures forall i | 0 <= i < bn :: GetBytes(fs.blocks[b], BlockOffset(pos), bn)[i] == ByteAt(fs, f, pos + i)
  {
    forall i: nat | i < bn ensures GetBytes(fs.blocks[b], BlockOffset(pos), bn)[i] == ByteAt(fs, f, pos + i) {
      ChunkAt(pos, i);
    }
    hide GetByte;
  }

  /** The read loop returns exactly if every hole on its way can be filled, and then with the bytes of
      the file, even those of a directory.  It changes no file, and stops only on a full disk or past the
      last block number. */
  lemma {:induction false} ReadFromBytes(fs: Fs, o: Owners, f: File, pos: nat, end: nat) returns (o': Owners)
    requires Inv(fs, o) && Known(fs, o, f) && end <= Size(fs, f)
    ensures Shape(fs) && At(fs, f)
    ensures var r := ReadFrom(fs, f, pos, end);
            && Fills(fs, o, f, r.fs, o')
            && (r.rc == 0 || r.rc == E_NO_DISK || r.rc == E_INVAL)
            && (r.rc == 0 <==> RoomFor(fs, f, pos, end))
            && (r.rc == 0 && pos <= end ==> |r.bytes| == end - pos)
            && (r.rc == 0 && pos <= end ==> forall i | 0 <= i < end - pos :: r.bytes[i] == ByteAt(fs, f, pos + i))
            && (NoHoles(fs, f, pos, end) ==> r.rc == 0 && r.fs == fs)
            && (r.rc == E_NO_DISK ==> Room(r.fs) == 0)
            && (r.rc == E_INVAL ==> end > MAXFILESIZE)
    decreases end - pos
  {
    hide *;
    RegularIs(fs, o, f);
    InvParts(fs, o);
    SizeIs(fs, o, f);
    ReadFromForm(fs, f, pos, end);
    RoomForIs(fs, f, pos, end);
    if pos >= end {
      o' := o;
      FillsSelf(fs, o, f);
    } else {
      var n := BlockNo(pos);
      InFile(pos, Size(fs, f));
      GetBlockKeeps(fs, o, f, n);
      o' := GetBlockOwners(fs, o, f, n);
      var (fs1, b) := FileGetBlock(fs, f, n);
      GotParts(fs, o, f, n, fs1, o', b);
      GotOthers(fs, o, f, n, fs1, o', b);
      NoHolesAt(fs, f, pos, end);
      if b >= 0 {
        RoomNext(fs, f, pos, end, fs1, b);
        GrowsDir(fs, o, f, fs1, o', f);
        ContentIs(fs1, o', f, n);
        var bn := Min(BLKSIZE - BlockOffset(pos), end - pos);
        MinIs(pos, end - pos);
        NoHolesFrom(fs, f, pos, end, pos + bn);
        ChunkBytes(fs1, f, pos, bn, b);
        var o2 := ReadFromBytes(fs1, o', f, pos + bn, end);
        var rest := ReadFrom(fs1, f, pos + bn, end);
        FillsThen(fs, o, f, fs1, o', rest.fs, o2);
        SteadySelf(fs, o, f);
        ReadJoin(fs, o, fs1, o', f, pos, bn, end, GetBytes(fs1.blocks[b], BlockOffset(pos), bn), rest.bytes);
        o' := o2;
      } else {
        RoomFails(fs, f, pos, end, fs1, b);
      }
    }
  }

  lemma MinIs(pos: nat, left: nat)
    requires left > 0
    ensures 0 < Min(BLKSIZE - BlockOffset(pos), left) <= left && BlockOffset(pos) + Min(BLKSIZE - BlockOffset(pos), left) <= BLKSIZE
    ensures BlockOffset(pos) < BLKSIZE
  {
  }

  lemma NoHolesAt(fs: Fs, f: File, pos: nat, end: nat)
    requires pos < end
    ensures NoHoles(fs, f, pos, end) ==> BlockOf(fs, f, BlockNo(pos)) != 0
  {
    hide BlockOf;
  }

  lemma NoHolesFrom(fs: Fs, f: File, pos: nat, end: nat, next: nat)
    requires pos <= next
    ensures NoHoles(fs, f, pos, end) ==> NoHoles(fs, f, next, end)
  {
    hide BlockOf;
  }

  lemma ReadFromForm(fs: Fs, f: File, pos: nat, end: nat)
    requires At(fs, f)
    ensures pos >= end ==> ReadFrom(fs, f, pos, end) == ReadResult(fs, 0, [])
    ensures pos < end ==>
      var (fs1, b) := FileGetBlock(fs, f, BlockNo(pos));
      var bn := Min(BLKSIZE - BlockOffset(pos), end - pos);
      var rest := ReadFrom(fs1, f, pos + bn, end);
      ReadFrom(fs, f, pos, end) == if b < 0 then ReadResult(fs1, b, [])
                                   else ReadResult(rest.fs, rest.rc, GetBytes(fs1.blocks[b], BlockOffset(pos), bn) + rest.bytes)
  {
    hide FileGetBlock, GetBytes;
  }

  lemma ReadJoin(fs: Fs, o: Owners, fs1: Fs, o1: Owners, f: File, pos: nat, bn: nat, end: nat, chunk: seq<Byte>, rest: seq<Byte>)
    requires Shape(fs) && Shape(fs1) && Fills(fs, o, f, fs1, o1) && Steady(fs, o, f, f) && bn == |chunk| && pos + bn <= end
    requires forall i | 0 <= i < bn :: chunk[i] == ByteAt(fs1, f, pos + i)
    ensures (|rest| == end - pos - bn && forall i | 0 <= i < |rest| :: rest[i] == ByteAt(fs1, f, pos + bn + i))
            ==> |chunk + rest| == end - pos && forall i | 0 <= i < end - pos :: (chunk + rest)[i] == ByteAt(fs, f, pos + i)
  {
    hide Fills, ByteAt, Steady;
    if |rest| == end - pos - bn && forall i | 0 <= i < |rest| :: rest[i] == ByteAt(fs1, f, pos + bn + i) {
      forall i: nat | i < end - pos ensures (chunk + rest)[i] == ByteAt(fs, f, pos + i) {
        FillsByte(fs, o, f, fs1, o1, f, pos + i);
        if i >= bn { assert rest[i - bn] == ByteAt(fs1, f, pos + bn + (i - bn)); }
      }
    }
  }

  lemma FileReadForm(fs: Fs, f: File, count: nat, offset: nat)
    requires At(fs, f)
    ensures var (r, size) := (FileRead(fs, f, count, offset), SignedSize(fs, f));
            if offset >= size then r == ReadResult(fs, 0, [])
            else
              var n := Min(count, size - offset);
              var l := ReadFrom(fs, f, offset, offset + n);
              0 <= n && n == (if count < size - offset then count else size - offset)
              && r == if l.rc < 0 then l else l.(rc := n)
  {
    hide ReadFrom;
  }

  /** The number of bytes that a read of count bytes at offset is to return. */
  function ReadLength(fs: Fs, f: File, count: nat, offset: nat): nat {
    if offset >= Size(fs, f) then 0 else if count < Size(fs, f) - offset then count else Size(fs, f) - offset
  }

  /** file_read: it returns the bytes from offset up to count or the end of the file exactly if every
      hole among them can be filled; no file changes. */
  lemma ReadReturnsBytes(fs: Fs, o: Owners, f: File, count: nat, offset: nat) returns (o': Owners)
    requires Inv(fs, o) && Known(fs, o, f)
    ensures Shape(fs) && At(fs, f)
    ensures var (r, n) := (FileRead(fs, f, count, offset), ReadLength(fs, f, count, offset));
            && Fills(fs, o, f, r.fs, o')
            && (r.rc == n || r.rc == E_NO_DISK || r.rc == E_INVAL)
            && (r.rc == n <==> RoomFor(fs, f, offset, offset + n))
            && (r.rc == n ==> |r.bytes| == n)
            && (r.rc == n ==> forall i | 0 <= i < n :: r.bytes[i] == ByteAt(fs, f, offset + i))
            && (NoHoles(fs, f, offset, offset + n) ==> r.rc == n && r.fs == fs)
            && (r.rc == E_NO_DISK ==> Room(r.fs) == 0)
            && (r.rc == E_INVAL ==> offset + n > MAXFILESIZE)
  {
    hide *;
    RegularIs(fs, o, f);
    InvParts(fs, o);
    SizeIs(fs, o, f);
    FileReadForm(fs, f, count, offset);
    ReadLengthIs(fs, f, count, offset);
    var n := ReadLength(fs, f, count, offset);
    RoomForIs(fs, f, offset, offset + n);
    if offset >= Size(fs, f) {
      o' := o;
      FillsSelf(fs, o, f);
    } else {
      o' := ReadFromBytes(fs, o, f, offset, offset + n);
    }
  }

  lemma ReadLengthIs(fs: Fs, f: File, count: nat, offset: nat)
    ensures ReadLength(fs, f, count, offset)
         == if offset >= Size(fs, f) then 0 else if count < Size(fs, f) - offset then count else Size(fs, f) - offset
  {
    hide Size;
  }

  /* ---- file_write ---- */

  lemma CellBlock(fs: Fs, o: Owners, b: nat, t: Cell)
    requires Inv(fs, o) && b in o && IsData(o[b]) && !IsDir(fs, o[b].f) && Known(fs, o, t.f) && IsCell(t)
    ensures t.f.block != b && Home(fs, t) != b
  {
    InvParts(fs, o);
    KnownAt(fs, o, t.f);
    OwnerNonzero(fs, o, b);
    if Located(fs, t) { DataApart(fs, o, b, t); }
  }

  /** Overwriting a data block of a regular file moves no cell. */
  lemma PokeValue(fs: Fs, o: Owners, f: File, n: nat, blk: seq<Word>, t: Cell)
    requires Inv(fs, o) && Regular(fs, o, f) && BlockOf(fs, f, n) != 0 && IsBlock(blk)
    requires Known(fs, o, t.f) && IsCell(t)
    ensures Shape(fs) && BlockOf(fs, f, n) < |fs.blocks|
    ensures Value(WithBlock(fs, BlockOf(fs, f, n), blk), t) == Value(fs, t)
  {
    InvParts(fs, o);
    BlockOfIs(fs, o, f, n);
    DataCells(f, n);
    RegularIs(fs, o, f);
    CellBlock(fs, o, BlockOf(fs, f, n), t);
    BlockValue(fs, BlockOf(fs, f, n), blk, t);
  }

  lemma PokeKeeps(fs: Fs, o: Owners, f: File, n: nat, blk: seq<Word>)
    requires Inv(fs, o) && Regular(fs, o, f) && BlockOf(fs, f, n) != 0 && IsBlock(blk)
    ensures Shape(fs) && BlockOf(fs, f, n) < |fs.blocks|
    ensures Grows(fs, o, f, WithBlock(fs, BlockOf(fs, f, n), blk), o)
  {
    hide *;
    RegularIs(fs, o, f);
    InvParts(fs, o);
    BlockOfIs(fs, o, f, n);
    ContentIs(fs, o, f, n);
    var fs' := WithBlock(fs, BlockOf(fs, f, n), blk);
    forall t: Cell | Known(fs, o, t.f) && IsCell(t) ensures Value(fs', t) == Value(fs, t) {
      PokeValue(fs, o, f, n, blk, t);
    }
    PokeSame(fs, o, BlockOf(fs, f, n), blk);
    forall g ensures Known(fs', o, g) <==> Known(fs, o, g) { SameKnown(fs, o, fs', g); }
    forall g | Known(fs, o, g) ensures SizedFile(fs', g) {
      SizedIs(fs, o, g);
      forall t: Cell | t.f == g && (IsSlot(t) || t == Part(g, SIZE)) ensures Value(fs', t) == Value(fs, t) { SlotIsCell(t); }
      SizedSame(fs, fs', g);
    }
    SameKeeps(fs, o, fs');
    GrowsJoin(fs, o, f, fs', o);
  }

  lemma PokeSame(fs: Fs, o: Owners, b: nat, blk: seq<Word>)
    requires Shape(fs) && b < |fs.blocks| && IsBlock(blk)
    requires forall t: Cell :: Known(fs, o, t.f) && IsCell(t) ==> Value(WithBlock(fs, b, blk), t) == Value(fs, t)
    ensures SameMaps(fs, o, WithBlock(fs, b, blk))
  {
    hide Known, Value;
    assert forall t: Cell :: IsSlot(t) || t == Part(t.f, TYPE) ==> IsCell(t);
  }

  lemma BlocksDistinct(fs: Fs, o: Owners, f: File, n: nat, g: File, m: nat)
    requires Inv(fs, o) && Known(fs, o, f) && Known(fs, o, g) && BlockOf(fs, f, n) != 0
    ensures BlockOf(fs, g, m) == BlockOf(fs, f, n) <==> g == f && m == n
  {
    BlockOfIs(fs, o, f, n);
    if BlockOf(fs, g, m) != 0 { BlockOfIs(fs, o, g, m); }
    hide Inv, Known, BlockOf, Value;
  }

  lemma PokeContent(fs: Fs, o: Owners, f: File, n: nat, blk: seq<Word>, g: File, m: nat)
    requires Inv(fs, o) && Regular(fs, o, f) && BlockOf(fs, f, n) != 0 && IsBlock(blk) && Regular(fs, o, g)
    ensures Shape(fs) && BlockOf(fs, f, n) < |fs.blocks|
    ensures Content(WithBlock(fs, BlockOf(fs, f, n), blk), g, m) == if g == f && m == n then blk else Content(fs, g, m)
  {
    ContentIs(fs, o, f, n);
    BlocksDistinct(fs, o, f, n, g, m);
    var fs' := WithBlock(fs, BlockOf(fs, f, n), blk);
    DataCells(g, m);
    if m < MAXBLOCKS { PokeValue(fs, o, f, n, blk, DataCell(g, m)); }
    assert BlockOf(fs', g, m) == BlockOf(fs, g, m);
    hide Inv, Known, BlockOf, Value, DataCell;
  }

  /** Byte p of g once s is stored in f from pos on. */
  function Overlaid(fs: Fs, f: File, pos: nat, s: seq<Byte>, g: File, p: nat): Byte
    requires Shape(fs)
  {
    if g == f && pos <= p < pos + |s| then s[p - pos] else ByteAt(fs, g, p)
  }

  /** s is stored in f from pos on; besides, only holes are filled. */
  ghost predicate Wrote(fs: Fs, o: Owners, f: File, pos: nat, s: seq<Byte>, fs': Fs, o': Owners) {
    && Shape(fs) && Shape(fs') && Grows(fs, o, f, fs', o')
    && (forall g, p: nat :: Regular(fs, o, g) ==> ByteAt(fs', g, p) == Overlaid(fs, f, pos, s, g, p))
  }

  lemma WroteParts(fs: Fs, o: Owners, f: File, pos: nat, s: seq<Byte>, fs': Fs, o': Owners)
    requires Wrote(fs, o, f, pos, s, fs', o')
    ensures Shape(fs) && Shape(fs') && Grows(fs, o, f, fs', o')
  {
  }

  lemma WroteByte(fs: Fs, o: Owners, f: File, pos: nat, s: seq<Byte>, fs': Fs, o': Owners, g: File, p: nat)
    requires Wrote(fs, o, f, pos, s, fs', o') && Regular(fs, o, g)
    ensures Shape(fs) && Shape(fs') && ByteAt(fs', g, p) == Overlaid(fs, f, pos, s, g, p)
  {
    hide Grows, Regular, ByteAt, Overlaid;
  }

  lemma WroteJoin(fs: Fs, o: Owners, f: File, pos: nat, s: seq<Byte>, fs': Fs, o': Owners)
    requires Shape(fs) && Shape(fs') && Grows(fs, o, f, fs', o')
    requires forall g, p: nat :: Regular(fs, o, g) ==> ByteAt(fs', g, p) == Overlaid(fs, f, pos, s, g, p)
    ensures Wrote(fs, o, f, pos, s, fs', o')
  {
    hide Grows, Regular, ByteAt, Overlaid;
  }

  lemma FillsWrote(fs: Fs, o: Owners, f: File, pos: nat, fs': Fs, o': Owners)
    requires Shape(fs) && Fills(fs, o, f, fs', o')
    ensures Wrote(fs, o, f, pos, [], fs', o')
  {
    FillsGrows(fs, o, f, fs', o');
    forall g, p: nat | Regular(fs, o, g) ensures ByteAt(fs', g, p) == Overlaid(fs, f, pos, [], g, p) {
      FillsByte(fs, o, f, fs', o', g, p);
    }
    hide Grows, Regular, ByteAt, Fills;
  }

  lemma OverlaidTwice(fs: Fs, fs1: Fs, f: File, pos: nat, s: seq<Byte>, t: seq<Byte>, g: File, p: nat)
    requires Shape(fs) && Shape(fs1) && ByteAt(fs1, g, p) == Overlaid(fs, f, pos, s, g, p)
    ensures Overlaid(fs1, f, pos + |s|, t, g, p) == Overlaid(fs, f, pos, s + t, g, p)
  {
    hide ByteAt;
  }

  lemma WroteThen(fs: Fs, o: Owners, f: File, pos: nat, s: seq<Byte>, fs1: Fs, o1: Owners, t: seq<Byte>, fs2: Fs, o2: Owners)
    requires Wrote(fs, o, f, pos, s, fs1, o1) && Wrote(fs1, o1, f, pos + |s|, t, fs2, o2)
    ensures Wrote(fs, o, f, pos, s + t, fs2, o2)
  {
    hide *;
    WroteParts(fs, o, f, pos, s, fs1, o1);
    WroteParts(fs1, o1, f, pos + |s|, t, fs2, o2);
    GrowsThen(fs, o, f, fs1, o1, fs2, o2);
    forall g, p: nat | Regular(fs, o, g) ensures ByteAt(fs2, g, p) == Overlaid(fs, f, pos, s + t, g, p) {
      GrowsDir(fs, o, f, fs1, o1, g);
      WroteByte(fs, o, f, pos, s, fs1, o1, g, p);
      WroteByte(fs1, o1, f, pos + |s|, t, fs2, o2, g, p);
      OverlaidTwice(fs, fs1, f, pos, s, t, g, p);
    }
    WroteJoin(fs, o, f, pos, s + t, fs2, o2);
  }

  /** Storing a chunk in the block behind position pos. */
  lemma StoreChunk(fs: Fs, o: Owners, f: File, pos: nat, s: seq<Byte>)
    requires Inv(fs, o) && Regular(fs, o, f) && BlockOf(fs, f, BlockNo(pos)) != 0 && BlockOffset(pos) + |s| <= BLKSIZE
    ensures Shape(fs) && var b := BlockOf(fs, f, BlockNo(pos));
            && b < |fs.blocks| && Wrote(fs, o, f, pos, s, WithBlock(fs, b, PutBytes(fs.blocks[b], BlockOffset(pos), s)), o)
  {
    hide *;
    RegularIs(fs, o, f);
    var n := BlockNo(pos);
    ContentIs(fs, o, f, n);
    var b := BlockOf(fs, f, n);
    var blk := PutBytes(fs.blocks[b], BlockOffset(pos), s);
    PokeKeeps(fs, o, f, n, blk);
    var fs' := WithBlock(fs, b, blk);
    GrowsInv(fs, o, f, fs', o);
    forall g, p: nat | Regular(fs, o, g) ensures ByteAt(fs', g, p) == Overlaid(fs, f, pos, s, g, p) {
      PokeContent(fs, o, f, n, blk, g, BlockNo(p));
      ByteIs(fs', g, p);
      ByteIs(fs, g, p);
      OverlaidBlock(fs, f, pos, s, g, p);
    }
    WroteJoin(fs, o, f, pos, s, fs', o);
  }

  lemma OverlaidBlock(fs: Fs, f: File, pos: nat, s: seq<Byte>, g: File, p: nat)
    requires Shape(fs) && BlockOffset(pos) + |s| <= BLKSIZE
    ensures Overlaid(fs, f, pos, s, g, p)
         == if g == f && BlockNo(p) == BlockNo(pos) then GetByte(PutBytes(Content(fs, f, BlockNo(pos)), BlockOffset(pos), s), BlockOffset(p))
            else ByteAt(fs, g, p)
  {
    PutBytesGet(Content(fs, f, BlockNo(pos)), BlockOffset(pos), s, BlockOffset(p));
    ByteIs(fs, g, p);
    if pos <= p < pos + |s| { ChunkAt(pos, p - pos); }
    hide PutBytes, GetByte, Content, ByteAt;
  }

  lemma WriteFromForm(fs: Fs, f: File, buf: seq<Byte>, pos: nat)
    requires At(fs, f)
    ensures buf == [] ==> WriteFrom(fs, f, buf, pos) == (fs, 0)
    ensures buf != [] ==>
      var (fs1, b) := FileGetBlock(fs, f, BlockNo(pos));
      var bn := Min(BLKSIZE - BlockOffset(pos), |buf|);
      WriteFrom(fs, f, buf, pos) == if b < 0 then (fs1, b)
                                    else WriteFrom(WithBlock(fs1, b, PutBytes(fs1.blocks[b], BlockOffset(pos), buf[..bn])), f, buf[bn..], pos + bn)
  {
    hide FileGetBlock, PutBytes, WithBlock;
  }

  lemma NoHolesJoin(fs: Fs, f: File, pos: nat, bn: nat, end: nat)
    requires BlockOf(fs, f, BlockNo(pos)) != 0 && BlockOffset(pos) + bn <= BLKSIZE && NoHoles(fs, f, pos + bn, end)
    ensures NoHoles(fs, f, pos, end)
  {
    forall p: nat | pos <= p < end ensures BlockOf(fs, f, BlockNo(p)) != 0 {
      if p < pos + bn { ChunkAt(pos, p - pos); }
    }
  }

  lemma NoHolesNone(fs: Fs, f: File, pos: nat)
    ensures NoHoles(fs, f, pos, pos)
  {
  }

  /** Storing a chunk moves no slot and takes no block. */
  lemma ChunkRoom(fs: Fs, o: Owners, f: File, n: nat, blk: seq<Word>)
    requires Inv(fs, o) && Regular(fs, o, f) && BlockOf(fs, f, n) != 0 && IsBlock(blk)
    ensures Shape(fs) && BlockOf(fs, f, n) < |fs.blocks|
    ensures var fs' := WithBlock(fs, BlockOf(fs, f, n), blk);
            && Room(fs') == Room(fs) && Value(fs', Part(f, INDIRECT)) == Value(fs, Part(f, INDIRECT))
            && forall m: nat :: BlockOf(fs', f, m) == BlockOf(fs, f, m)
  {
    hide *;
    RegularIs(fs, o, f);
    ContentIs(fs, o, f, n);
    var fs' := WithBlock(fs, BlockOf(fs, f, n), blk);
    WithBlockBitmap(fs, BlockOf(fs, f, n), blk);
    RoomSame(fs, fs');
    SlotKnown(fs, o, f, 0);
    PokeValue(fs, o, f, n, blk, Part(f, INDIRECT));
    forall m: nat ensures BlockOf(fs', f, m) == BlockOf(fs, f, m) {
      DataCells(f, m);
      BlockIs(fs, f, m);
      BlockIs(fs', f, m);
      if m < MAXBLOCKS { PokeValue(fs, o, f, n, blk, DataCell(f, m)); }
    }
  }

  lemma WithBlockBitmap(fs: Fs, b: nat, blk: seq<Word>)
    requires Shape(fs) && b < |fs.blocks| && IsBlock(blk)
    ensures WithBlock(fs, b, blk).bitmap == fs.bitmap && |WithBlock(fs, b, blk).blocks| == |fs.blocks|
  {
  }

  lemma RoomForSame(fs: Fs, fs1: Fs, f: File, pos: nat, end: nat)
    requires forall m: nat :: BlockOf(fs1, f, m) == BlockOf(fs, f, m)
    requires Value(fs1, Part(f, INDIRECT)) == Value(fs, Part(f, INDIRECT)) && Room(fs1) == Room(fs)
    ensures RoomFor(fs1, f, pos, end) <==> RoomFor(fs, f, pos, end)
  {
    EnoughSame(fs, fs1, f, BlockNo(pos), NBlocks(end));
    hide BlockOf, Value, Room, Enough, NBlocks, BlockNo;
  }

  /** The write loop stores a prefix of the buffer, and all of it exactly if every hole on its way can be
      filled; it leaves no hole in what it wrote. */
  lemma {:induction false} WriteFromBytes(fs: Fs, o: Owners, f: File, buf: seq<Byte>, pos: nat) returns (o': Owners, k: nat)
    requires Inv(fs, o) && Regular(fs, o, f) && pos + |buf| <= Size(fs, f)
    ensures Shape(fs) && At(fs, f) && k <= |buf|
    ensures var (fs', rc) := WriteFrom(fs, f, buf, pos);
            && Wrote(fs, o, f, pos, buf[..k], fs', o')
            && (rc == 0 || rc == E_NO_DISK || rc == E_INVAL)
            && (rc == 0 <==> RoomFor(fs, f, pos, pos + |buf|))
            && (rc == 0 ==> k == |buf| && NoHoles(fs', f, pos, pos + |buf|))
            && (rc == E_NO_DISK ==> Room(fs') == 0)
            && (rc == E_INVAL ==> pos + |buf| > MAXFILESIZE)
    decreases |buf|
  {
    hide *;
    RegularIs(fs, o, f);
    InvParts(fs, o);
    SizeIs(fs, o, f);
    WriteFromForm(fs, f, buf, pos);
    var n := BlockNo(pos);
    o', k := o, 0;
    RoomForIs(fs, f, pos, pos + |buf|);
    if buf == [] {
      FillsSelf(fs, o, f);
      FillsWrote(fs, o, f, pos, fs, o);
      NoHolesNone(fs, f, pos);
    } else {
      InFile(pos, Size(fs, f));
      GetBlockKeeps(fs, o, f, n);
      o' := GetBlockOwners(fs, o, f, n);
      var (fs1, b) := FileGetBlock(fs, f, n);
      GotParts(fs, o, f, n, fs1, o', b);
      GotOthers(fs, o, f, n, fs1, o', b);
      FillsWrote(fs, o, f, pos, fs1, o');
      if b < 0 {
        RoomFails(fs, f, pos, pos + |buf|, fs1, b);
      } else {
        RoomNext(fs, f, pos, pos + |buf|, fs1, b);
        GrowsDir(fs, o, f, fs1, o', f);
        MinIs(pos, |buf|);
        var bn: nat := Min(BLKSIZE - BlockOffset(pos), |buf|);
        ContentIs(fs1, o', f, n);
        StoreChunk(fs1, o', f, pos, buf[..bn]);
        var fs2 := WithBlock(fs1, b, PutBytes(fs1.blocks[b], BlockOffset(pos), buf[..bn]));
        ChunkIsBlock(fs1.blocks[b], BlockOffset(pos), buf[..bn]);
        RegularIs(fs1, o', f);
        ChunkRoom(fs1, o', f, n, PutBytes(fs1.blocks[b], BlockOffset(pos), buf[..bn]));
        RoomForSame(fs1, fs2, f, pos + bn, pos + |buf|);
        WroteThen(fs, o, f, pos, [], fs1, o', buf[..bn], fs2, o');
        WroteParts(fs, o, f, pos, [] + buf[..bn], fs2, o');
        WroteParts(fs1, o', f, pos, buf[..bn], fs2, o');
        GrowsDir(fs, o, f, fs2, o', f);
        GrowsInv(fs, o, f, fs2, o');
        var o2, k2 := WriteFromBytes(fs2, o', f, buf[bn..], pos + bn);
        var (fs3, rc) := WriteFrom(fs2, f, buf[bn..], pos + bn);
        assert [] + buf[..bn] == buf[..bn] && |buf[..bn]| == bn && buf[..bn] + buf[bn..][..k2] == buf[..bn + k2];
        WroteThen(fs, o, f, pos, buf[..bn], fs2, o', buf[bn..][..k2], fs3, o2);
        RegularIs(fs1, o', f);
        GrowsBlock(fs1, o', f, fs2, o', f, n);
        RegularIs(fs2, o', f);
        WroteParts(fs2, o', f, pos + bn, buf[bn..][..k2], fs3, o2);
        GrowsBlock(fs2, o', f, fs3, o2, f, n);
        if rc == 0 { NoHolesJoin(fs3, f, pos, bn, pos + |buf|); }
        o', k := o2, bn + k2;
      }
    }
  }

  lemma ChunkIsBlock(blk: seq<Word>, k: nat, s: seq<Byte>)
    requires IsBlock(blk) && k + |s| <= BLKSIZE
    ensures IsBlock(PutBytes(blk, k, s))
  {
  }

  /* ---- the contents of a file across a write and a read ---- */

  /** The size f gets from a write of s at pos. */
  function NewSize(fs: Fs, f: File, pos: nat, s: seq<Byte>): nat {
    if pos + |s| > Size(fs, f) then pos + |s| else Size(fs, f)
  }

  /** What file_write leaves behind, k being the number of bytes stored: the size is as asked for, the
      other words that matter change only from empty slots to blocks, and of all the bytes of all the
      regular files exactly those from pos to pos + k - 1 of f differ. */
  ghost predicate Stored(fs: Fs, o: Owners, f: File, size: nat, pos: nat, s: seq<Byte>, fs': Fs, o': Owners) {
    && Shape(fs) && Shape(fs') && Inv(fs', o')
    && (forall t: Cell :: Known(fs, o, t.f) && IsCell(t) ==>
          || Value(fs', t) == (if t == Part(f, SIZE) then size else Value(fs, t))
          || (t.f == f && IsSlot(t) && Value(fs, t) == 0))
    && (forall g :: Known(fs, o, g) ==> Known(fs', o', g))
    && (forall t: Cell :: Known(fs', o', t.f) && !Known(fs, o, t.f) && IsCell(t) && !IsSlot(t) ==> Value(fs', t) == 0)
    && (forall g, p: nat :: Regular(fs, o, g) ==> ByteAt(fs', g, p) == Overlaid(fs, f, pos, s, g, p))
  }

  lemma GrownValue(fs: Fs, o: Owners, f: File, n: Long, fs': Fs, o': Owners, t: Cell)
    requires Inv(fs, o) && SizeSet(fs, o, f, n, fs', o') && Known(fs, o, f) && Size(fs, f) <= n && Fits(n) && IsCell(t)
    ensures Known(fs', o', t.f) <==> Known(fs, o, t.f)
    ensures Known(fs, o, t.f) ==> Value(fs', t) == if t == Part(f, SIZE) then n else Value(fs, t)
  {
    CountFits(n);
    BlocksMonotone(Size(fs, f), n);
    RemovedIs(fs, f, n);
    if In(Removed(fs, f, n), t) { PastEnd(fs, o, f, NBlocks(n), t); }
    hide Inv, Known, Value, Content, NBlocks, BlockCount, In, Removed;
  }

  /** Enlarging a file changes no byte: what comes into view past the old size is whatever its last
      block held there, and zeros. */
  lemma GrownContent(fs: Fs, o: Owners, f: File, n: Long, fs': Fs, o': Owners, g: File, m: nat)
    requires Inv(fs, o) && SizeSet(fs, o, f, n, fs', o') && Known(fs, o, f) && Size(fs, f) <= n && Fits(n) && Regular(fs, o, g)
    ensures Content(fs', g, m) == Content(fs, g, m)
  {
    CountFits(n);
    BlocksMonotone(Size(fs, f), n);
    SizeSetContent(fs, o, f, n, fs', o', g, m);
    if g == f && NBlocks(n) <= m { PastSize(fs, o, f, n, m); }
    hide Inv, Known, SizeSet, Size, Content, Regular, NBlocks;
  }

  lemma SizeSetContent(fs: Fs, o: Owners, f: File, n: Long, fs': Fs, o': Owners, g: File, m: nat)
    requires SizeSet(fs, o, f, n, fs', o') && Regular(fs, o, g) && Fits(n)
    ensures Content(fs', g, m) == if g == f && NBlocks(n) <= m < END then ZeroBlock() else Content(fs, g, m)
  {
    RemovedIs(fs, f, n);
    CountFits(n);
    hide Inv, Known, Value, Content, NBlocks, BlockCount, Removed;
  }

  lemma PastSize(fs: Fs, o: Owners, f: File, n: nat, m: nat)
    requires Inv(fs, o) && Known(fs, o, f) && NBlocks(Size(fs, f)) <= NBlocks(n) <= m
    ensures Content(fs, f, m) == ZeroBlock()
  {
    SizedIs(fs, o, f);
    BlockIs(fs, f, m);
    hide Inv, Known, Value;
  }

  lemma NoWrap(n: int)
    requires Fits(n)
    ensures 0 <= n < 0x8000_0000 && Wrap32(n) == n
  {
  }

  lemma FileWriteForm(fs: Fs, f: File, buf: seq<Byte>, pos: nat)
    requires At(fs, f) && Fits(pos + |buf|) && Field(fs, f, SIZE) == Size(fs, f)
    ensures var fs1 := if pos + |buf| > Size(fs, f) then FileSetSize(fs, f, pos + |buf|) else fs;
            var (fs2, r) := WriteFrom(fs1, f, buf, pos);
            FileWrite(fs, f, buf, pos) == (fs2, if r < 0 then r else |buf|)
  {
    hide FileSetSize, WriteFrom, Field, Size, Wrap32, Fits, IsBlock, At;
    NoWrap(pos + |buf|);
  }

  /** The size is set, then the bytes are written. */
  lemma StoredBytes(fs: Fs, o: Owners, f: File, size: Long, fs1: Fs, o1: Owners, pos: nat, s: seq<Byte>, fs2: Fs, o2: Owners)
    requires Inv(fs, o) && Regular(fs, o, f) && Size(fs, f) <= size && Fits(size) && Regular(fs1, o1, f) && Shape(fs) && Shape(fs1)
    requires (fs1 == fs && o1 == o && size == Size(fs, f)) || SizeSet(fs, o, f, size, fs1, o1)
    requires Wrote(fs1, o1, f, pos, s, fs2, o2)
    ensures Stored(fs, o, f, size, pos, s, fs2, o2)
  {
    hide *;
    RegularIs(fs, o, f);
    WroteParts(fs1, o1, f, pos, s, fs2, o2);
    GrowsInv(fs1, o1, f, fs2, o2);
    forall t: Cell | IsCell(t)
      ensures Known(fs, o, t.f) ==>
        && Known(fs2, o2, t.f)
        && (Value(fs2, t) == (if t == Part(f, SIZE) then size else Value(fs, t)) || (t.f == f && IsSlot(t) && Value(fs, t) == 0))
      ensures Known(fs2, o2, t.f) && !Known(fs, o, t.f) && !IsSlot(t) ==> Value(fs2, t) == 0
    {
      if SizeSet(fs, o, f, size, fs1, o1) { GrownValue(fs, o, f, size, fs1, o1, t); } else { SizeOf(fs, f); }
      GrowsValue(fs1, o1, f, fs2, o2, t);
      SizeNoSlot(f);
    }
    forall g, p: nat | Regular(fs, o, g) ensures ByteAt(fs2, g, p) == Overlaid(fs, f, pos, s, g, p) {
      RegularIs(fs, o, g);
      RegularIs(fs1, o1, g);
      if SizeSet(fs, o, f, size, fs1, o1) {
        GrownContent(fs, o, f, size, fs1, o1, g, BlockNo(p));
        TypeCell(fs, fs1, f, g);
        GrownValue(fs, o, f, size, fs1, o1, Part(g, TYPE));
      }
      ByteIs(fs, g, p);
      ByteIs(fs1, g, p);
      WroteByte(fs1, o1, f, pos, s, fs2, o2, g, p);
      OverlaidSame(fs, fs1, f, pos, s, g, p);
    }
    StoredJoin(fs, o, f, size, pos, s, fs2, o2);
  }

  lemma TypeCell(fs: Fs, fs1: Fs, f: File, g: File)
    ensures IsCell(Part(g, TYPE)) && Part(g, TYPE) != Part(f, SIZE)
    ensures IsDir(fs, g) <==> Value(fs, Part(g, TYPE)) == FTYPE_DIR
    ensures IsDir(fs1, g) <==> Value(fs1, Part(g, TYPE)) == FTYPE_DIR
  {
  }

  lemma OverlaidSame(fs: Fs, fs1: Fs, f: File, pos: nat, s: seq<Byte>, g: File, p: nat)
    requires Shape(fs) && Shape(fs1) && ByteAt(fs1, g, p) == ByteAt(fs, g, p)
    ensures Overlaid(fs1, f, pos, s, g, p) == Overlaid(fs, f, pos, s, g, p)
  {
    hide ByteAt;
  }

  lemma StoredJoin(fs: Fs, o: Owners, f: File, size: nat, pos: nat, s: seq<Byte>, fs': Fs, o': Owners)
    requires Shape(fs) && Shape(fs') && Inv(fs', o')
    requires forall t: Cell :: IsCell(t) ==>
      && (Known(fs, o, t.f) ==>
            && Known(fs', o', t.f)
            && (Value(fs', t) == (if t == Part(f, SIZE) then size else Value(fs, t)) || (t.f == f && IsSlot(t) && Value(fs, t) == 0)))
      && (Known(fs', o', t.f) && !Known(fs, o, t.f) && !IsSlot(t) ==> Value(fs', t) == 0)
    requires forall g, p: nat :: Regular(fs, o, g) ==> ByteAt(fs', g, p) == Overlaid(fs, f, pos, s, g, p)
    ensures Stored(fs, o, f, size, pos, s, fs', o')
  {
    forall g | Known(fs, o, g) ensures Known(fs', o', g) { assert IsCell(Part(g, SIZE)); }
    hide Inv, Known, Value, ByteAt, Overlaid;
  }

  lemma NewSizeIs(fs: Fs, f: File, pos: nat, s: seq<Byte>)
    requires Size(fs, f) <= MAXSIZE && Fits(pos + |s|)
    ensures Size(fs, f) <= NewSize(fs, f, pos, s) && Fits(NewSize(fs, f, pos, s)) && pos + |s| <= NewSize(fs, f, pos, s)
    ensures NewSize(fs, f, pos, s) == if pos + |s| > Size(fs, f) then pos + |s| else Size(fs, f)
    ensures pos + |s| <= NewSize(fs, f, pos, s) < 0x8000_0000
  {
  }

  lemma SetSizeSize(fs: Fs, o: Owners, f: File, n: Long, fs1: Fs, o1: Owners)
    requires SizeSet(fs, o, f, n, fs1, o1) && Regular(fs, o, f)
    ensures Shape(fs1) && Inv(fs1, o1) && Regular(fs1, o1, f) && Size(fs1, f) == n
  {
    assert IsCell(Part(f, SIZE)) && IsCell(Part(f, TYPE)) && !In(Removed(fs, f, n), Part(f, TYPE));
    hide Known, Value, Content, Removed;
  }

  /** Growing a file takes no block and gives none back. */
  lemma GrownRoom(fs: Fs, o: Owners, f: File, n: Long, pos: nat, end: nat)
    requires Inv(fs, o) && Regular(fs, o, f) && Size(fs, f) <= n && Fits(n)
    ensures At(fs, f) && (RoomFor(FileSetSize(fs, f, n), f, pos, end) <==> RoomFor(fs, f, pos, end))
  {
    hide *;
    RegularIs(fs, o, f);
    InvParts(fs, o);
    SizeIs(fs, o, f);
    CountFits(n);
    SetSizeForm(fs, f, n, fs);
    SizePlace(fs, f, n);
    SetSizeKeeps(fs, o, f, n);
    var (fs1, o1) := (FileSetSize(fs, f, n), Less(o, Removed(fs, f, n)));
    BitmapSet(fs, f.block, f.base + SIZE, n);
    RoomSame(fs, fs1);
    SlotKnown(fs, o, f, 0);
    SizeNoSlot(f);
    GrownValue(fs, o, f, n, fs1, o1, Part(f, INDIRECT));
    forall m: nat ensures BlockOf(fs1, f, m) == BlockOf(fs, f, m) {
      BlockIs(fs, f, m);
      BlockIs(fs1, f, m);
      if m < MAXBLOCKS {
        SlotKnown(fs, o, f, m);
        SlotIsData(DataCell(f, m));
        GrownValue(fs, o, f, n, fs1, o1, DataCell(f, m));
      }
    }
    SizeNotIndirect(f);
    RoomForSame(fs, fs1, f, pos, end);
  }

  lemma SizeNotIndirect(f: File)
    ensures Part(f, SIZE) != Part(f, INDIRECT)
  {
  }

  lemma BitmapSet(fs: Fs, b: nat, i: nat, w: Word)
    requires Shape(fs) && b < |fs.blocks| && i < BLKWORDS
    ensures SetWord(fs, b, i, w).bitmap == fs.bitmap && |SetWord(fs, b, i, w).blocks| == |fs.blocks|
  {
  }

  /** file_write on a regular file returns count exactly if every hole in the range can be filled, and
      then all count bytes are stored, in blocks that are all there; otherwise it stores a prefix, and
      stops with the disk full or past the maximum file size. */
  lemma WriteStores(fs: Fs, o: Owners, f: File, buf: seq<Byte>, pos: nat) returns (o': Owners, k: nat)
    requires Inv(fs, o) && Regular(fs, o, f) && Fits(pos + |buf|)
    ensures Shape(fs) && At(fs, f) && k <= |buf|
    ensures var (fs', rc) := FileWrite(fs, f, buf, pos);
            && Stored(fs, o, f, NewSize(fs, f, pos, buf), pos, buf[..k], fs', o')
            && (rc == |buf| || rc == E_NO_DISK || rc == E_INVAL)
            && (rc == |buf| <==> RoomFor(fs, f, pos, pos + |buf|))
            && (rc == |buf| ==> k == |buf| && NoHoles(fs', f, pos, pos + |buf|))
            && (rc == E_NO_DISK ==> Room(fs') == 0)
            && (rc == E_INVAL ==> pos + |buf| > MAXFILESIZE)
  {
    hide *;
    var size := NewSize(fs, f, pos, buf);
    RegularIs(fs, o, f);
    InvParts(fs, o);
    SizeIs(fs, o, f);
    NewSizeIs(fs, f, pos, buf);
    var fs1, o1 := fs, o;
    if pos + |buf| > Size(fs, f) {
      SetSizeKeeps(fs, o, f, size);
      fs1 := FileSetSize(fs, f, size);
      o1 := Less(o, Removed(fs, f, size));
      SetSizeSize(fs, o, f, size, fs1, o1);
      GrownRoom(fs, o, f, size, pos, pos + |buf|);
    }
    o', k := WriteFromBytes(fs1, o1, f, buf, pos);
    FileWriteForm(fs, f, buf, pos);
    StoredBytes(fs, o, f, size, fs1, o1, pos, buf[..k], WriteFrom(fs1, f, buf, pos).0, o');
  }

  /** A range that ends past the largest size: the size is set to what the sum reads as, and no byte is
      stored; file_write is never asked for more than a page. */
  lemma WriteUnfit(fs: Fs, o: Owners, f: File, buf: seq<Byte>, pos: nat)
    requires Inv(fs, o) && Known(fs, o, f) && !Fits(pos + |buf|) && |buf| <= BLKSIZE && pos < 0x8000_0000
    ensures Shape(fs) && At(fs, f)
    ensures FileWrite(fs, f, buf, pos) == (FileSetSize(fs, f, Wrap32(pos + |buf|)), if buf == [] then 0 else E_INVAL)
  {
    hide *;
    InvParts(fs, o);
    SizeIs(fs, o, f);
    UnfitForm(fs, f, buf, pos);
    var fs1 := FileSetSize(fs, f, Wrap32(pos + |buf|));
    AtSame(fs, fs1, f);
    WriteFromForm(fs1, f, buf, pos);
  }

  lemma UnfitForm(fs: Fs, f: File, buf: seq<Byte>, pos: nat)
    requires At(fs, f) && Field(fs, f, SIZE) <= MAXSIZE && !Fits(pos + |buf|) && |buf| <= BLKSIZE && pos < 0x8000_0000
    ensures var fs1 := FileSetSize(fs, f, Wrap32(pos + |buf|));
            && At(fs1, f) && FileGetBlock(fs1, f, BlockNo(pos)) == (fs1, E_INVAL)
            && var (fs2, r) := WriteFrom(fs1, f, buf, pos);
               FileWrite(fs, f, buf, pos) == (fs2, if r < 0 then r else |buf|)
  {
    hide FileSetSize, WriteFrom, Field;
    assert BlockNo(pos) >= MAXBLOCKS;
  }

  lemma StoredParts(fs: Fs, o: Owners, f: File, size: nat, pos: nat, s: seq<Byte>, fs': Fs, o': Owners)
    requires Stored(fs, o, f, size, pos, s, fs', o') && Regular(fs, o, f)
    ensures Shape(fs) && Shape(fs') && Inv(fs', o') && Regular(fs', o', f) && Size(fs', f) == size
    ensures forall i | 0 <= i < |s| :: ByteAt(fs', f, pos + i) == s[i]
  {
    assert IsCell(Part(f, SIZE)) && !IsSlot(Part(f, SIZE)) && IsCell(Part(f, TYPE)) && !IsSlot(Part(f, TYPE)) && Part(f, TYPE) != Part(f, SIZE);
    hide Known, Value, ByteAt;
  }

  /** After a file_write that returned count, a file_read of the same range returns count and exactly
      the bytes written, and does not even have to fill a hole. */
  lemma WriteThenRead(fs: Fs, o: Owners, f: File, buf: seq<Byte>, pos: nat)
    requires Inv(fs, o) && Regular(fs, o, f) && Fits(pos + |buf|)
    ensures Shape(fs) && At(fs, f)
    ensures var (fs', rc) := FileWrite(fs, f, buf, pos);
            rc == |buf| ==> At(fs', f) && FileRead(fs', f, |buf|, pos) == ReadResult(fs', |buf|, buf)
  {
    hide *;
    InvParts(fs, o);
    RegularIs(fs, o, f);
    SizeIs(fs, o, f);
    NewSizeIs(fs, f, pos, buf);
    var o', k := WriteStores(fs, o, f, buf, pos);
    var (fs', rc) := FileWrite(fs, f, buf, pos);
    if rc == |buf| {
      StoredParts(fs, o, f, NewSize(fs, f, pos, buf), pos, buf[..k], fs', o');
      assert buf[..k] == buf;
      RegularIs(fs', o', f);
      ReadLengthIs(fs', f, |buf|, pos);
      var o2 := ReadReturnsBytes(fs', o', f, |buf|, pos);
      var r := FileRead(fs', f, |buf|, pos);
      assert r.bytes == buf;
    }
  }
}
