/** Disk blocks as the file server sees them: 1024 little-endian words, addressable by byte
    (lab5/inc/fs.h). */
module Disk {
  type Positive = n: nat | n > 0 witness 1

  const BLKSIZE: Positive := 4096
  const BLKWORDS: nat := 1024

  type Word = w: nat | w < 0x1_0000_0000
  type Byte = b: nat | b < 256

  /** Byte i of a word, least significant first. */
  function ByteOf(w: Word, i: nat): (b: Byte)
    requires i < 4
  {
    if i == 0 then w % 0x100 else if i == 1 then w / 0x100 % 0x100
    else if i == 2 then w / 0x1_0000 % 0x100 else w / 0x100_0000
  }

  function Join(b0: Byte, b1: Byte, b2: Byte, b3: Byte): (w: Word) { b0 + b1 * 0x100 + b2 * 0x1_0000 + b3 * 0x100_0000 }

  function WithByte(w: Word, i: nat, b: Byte): (w': Word)
    requires i < 4
  {
    Join(if i == 0 then b else ByteOf(w, 0), if i == 1 then b else ByteOf(w, 1),
         if i == 2 then b else ByteOf(w, 2), if i == 3 then b else ByteOf(w, 3))
  }

  lemma JoinSplit(b0: Byte, b1: Byte, b2: Byte, b3: Byte)
    ensures var w := Join(b0, b1, b2, b3);
            ByteOf(w, 0) == b0 && ByteOf(w, 1) == b1 && ByteOf(w, 2) == b2 && ByteOf(w, 3) == b3
  {
    var w := Join(b0, b1, b2, b3);
    assert w / 0x100 == b1 + b2 * 0x100 + b3 * 0x1_0000;
    assert w / 0x1_0000 == b2 + b3 * 0x100;
    assert w / 0x100_0000 == b3;
  }

  predicate IsBlock(blk: seq<Word>) { |blk| == BLKWORDS }

  function ZeroBlock(): seq<Word> { seq(BLKWORDS, _ => 0) }

  function GetByte(blk: seq<Word>, k: nat): Byte
    requires IsBlock(blk) && k < BLKSIZE
  {
    ByteOf(blk[k / 4], k % 4)
  }

  function PutByte(blk: seq<Word>, k: nat, b: Byte): (blk': seq<Word>)
    requires IsBlock(blk) && k < BLKSIZE
    ensures IsBlock(blk')
  {
    blk[k / 4 := WithByte(blk[k / 4], k % 4, b)]
  }

  lemma PutGet(blk: seq<Word>, k: nat, b: Byte, j: nat)
    requires IsBlock(blk) && k < BLKSIZE && j < BLKSIZE
    ensures GetByte(PutByte(blk, k, b), j) == if j == k then b else GetByte(blk, j)
  {
    var (w, i) := (blk[k / 4], k % 4);
    JoinSplit(if i == 0 then b else ByteOf(w, 0), if i == 1 then b else ByteOf(w, 1),
              if i == 2 then b else ByteOf(w, 2), if i == 3 then b else ByteOf(w, 3));
    hide ByteOf, Join;
    if j / 4 == k / 4 && j % 4 == k % 4 { assert j == k; }
  }

  lemma ZeroBytes(k: nat)
    requires k < BLKSIZE
    ensures GetByte(ZeroBlock(), k) == 0
  {
  }

  /** memmove into a block. */
  function PutBytes(blk: seq<Word>, k: nat, s: seq<Byte>): (blk': seq<Word>)
    requires IsBlock(blk) && k + |s| <= BLKSIZE
    ensures IsBlock(blk')
    decreases |s|
  {
    if s == [] then blk else PutBytes(PutByte(blk, k, s[0]), k + 1, s[1..])
  }

  lemma {:induction false} PutBytesGet(blk: seq<Word>, k: nat, s: seq<Byte>, j: nat)
    requires IsBlock(blk) && k + |s| <= BLKSIZE && j < BLKSIZE
    ensures GetByte(PutBytes(blk, k, s), j) == if k <= j < k + |s| then s[j - k] else GetByte(blk, j)
    decreases |s|
  {
    hide GetByte, PutByte;
    if s != [] {
      PutGet(blk, k, s[0], j);
      PutBytesGet(PutByte(blk, k, s[0]), k + 1, s[1..], j);
    }
  }

  /** Words outside the bytes written stay. */
  lemma {:induction false} PutBytesWord(blk: seq<Word>, k: nat, s: seq<Byte>, i: nat)
    requires IsBlock(blk) && k + |s| <= BLKSIZE && i < BLKWORDS && (4 * i + 3 < k || 4 * i >= k + |s|)
    ensures PutBytes(blk, k, s)[i] == blk[i]
    decreases |s|
  {
    if s != [] { PutBytesWord(PutByte(blk, k, s[0]), k + 1, s[1..], i); }
  }

  /** memmove out of a block. */
  function GetBytes(blk: seq<Word>, k: nat, n: nat): (s: seq<Byte>)
    requires IsBlock(blk) && k + n <= BLKSIZE
    ensures |s| == n && forall i :: 0 <= i < n ==> s[i] == GetByte(blk, k + i)
  {
    seq<Byte>(n, i requires 0 <= i < n => GetByte(blk, k + i))
  }

  /* ---- bits of bitmap words ---- */

  /** w & (1 << i) is nonzero. */
  predicate Bit(w: nat, i: nat)
    decreases i
  {
    if i == 0 then w % 2 == 1 else Bit(w / 2, i - 1)
  }

  /** w | (1 << i) and w & ~(1 << i), half a word at a time. */
  function WithBit(w: nat, i: nat, on: bool): (w': nat)
    decreases i
  {
    if i == 0 then w / 2 * 2 + (if on then 1 else 0) else WithBit(w / 2, i - 1, on) * 2 + w % 2
  }

  lemma {:induction false} WithBitGet(w: nat, i: nat, on: bool, j: nat)
    ensures Bit(WithBit(w, i, on), j) == if j == i then on else Bit(w, j)
    decreases i
  {
    if i == 0 {
      if j > 0 { assert WithBit(w, 0, on) / 2 == w / 2; }
    } else {
      var w' := WithBit(w, i, on);
      assert w' / 2 == WithBit(w / 2, i - 1, on) && w' % 2 == w % 2;
      if j > 0 { WithBitGet(w / 2, i - 1, on, j - 1); }
    }
  }

  function Pow2(n: nat): nat { if n == 0 then 1 else 2 * Pow2(n - 1) }

  lemma Doubled(w: nat, i: nat, on: bool)
    requires i > 0
    ensures WithBit(w, i, on) == WithBit(w / 2, i - 1, on) * 2 + w % 2
  {
  }

  lemma {:induction false} WithBitBound(w: nat, i: nat, on: bool, n: nat)
    requires w < Pow2(n) && i < n
    ensures WithBit(w, i, on) < Pow2(n)
    decreases i
  {
    assert Pow2(n) == 2 * Pow2(n - 1);
    if i > 0 {
      assert w / 2 < Pow2(n - 1);
      WithBitBound(w / 2, i - 1, on, n - 1);
      hide WithBit, Pow2;
      Doubled(w, i, on);
    }
  }

  lemma WordBits()
    ensures Pow2(32) == 0x1_0000_0000
  {
    assert Pow2(8) == 256;
    assert Pow2(16) == 256 * Pow2(8);
    assert Pow2(24) == 256 * Pow2(16);
  }

  function FlipBit(w: Word, i: nat, on: bool): (w': Word)
    requires i < 32
  {
    WordBits();
    WithBitBound(w, i, on, 32);
    WithBit(w, i, on)
  }
}
