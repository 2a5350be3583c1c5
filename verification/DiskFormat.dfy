/**
 The bytes of bitmap and inode blocks: bit i of a bitmap block is bit i%8 of byte i/8, and an
 inode takes 64 bytes, four 16-bit fields, its size and its 13 addresses, all little-endian.
 What is stored reads back.
 */
module DiskFormat {
  import opened Blocks
  import opened Inodes

  const INODE_BYTES: nat := 64

  // ---------------------------------------------------------------- bits

  function Value(b: bool): nat { if b then 1 else 0 }

  function BitOf(bits: seq<bool>, i: nat): (b: nat)
    ensures b <= 1
  {
    if i < |bits| then Value(bits[i]) else 0
  }

  /** The number whose n lowest binary digits are the bits from i on. */
  function Packed(bits: seq<bool>, i: nat, n: nat): nat
    decreases n
  {
    if n == 0 then 0 else BitOf(bits, i) + 2 * Packed(bits, i + 1, n - 1)
  }

  function ByteOf(bits: seq<bool>, n: nat): Byte {
    PackedBound(bits, 8 * n, 8);
    Packed(bits, 8 * n, 8)
  }

  /** A bitmap block. */
  function BitsBlock(bits: seq<bool>): Block {
    seq(BSIZE, n requires 0 <= n < BSIZE => ByteOf(bits, n))
  }

  function Power(n: nat): nat { if n == 0 then 1 else 2 * Power(n - 1) }
  function Shifted(x: nat, k: nat): nat { if k == 0 then x else Shifted(x / 2, k - 1) }

  /** The bit balloc and bfree look at: bit i % 8 of byte i / 8. */
  function GetBit(b: Block, i: nat): bool
    requires i < BPB
  {
    Shifted(b[i / 8], i % 8) % 2 == 1
  }

  lemma {:induction false} PackedLess(bits: seq<bool>, i: nat, n: nat)
    ensures Packed(bits, i, n) < Power(n)
    decreases n
  {
    if n > 0 {
      PackedLess(bits, i + 1, n - 1);
    }
  }

  lemma PackedBound(bits: seq<bool>, i: nat, n: nat)
    ensures n == 8 ==> Packed(bits, i, n) < 256
  {
    PackedLess(bits, i, n);
    assert Power(8) == 256 by { assert Power(4) == 16; }
  }

  lemma {:induction false} ShiftedBit(bits: seq<bool>, i: nat, n: nat, k: nat)
    requires k < n
    ensures Shifted(Packed(bits, i, n), k) % 2 == BitOf(bits, i + k)
    decreases n
  {
    if k > 0 {
      assert Packed(bits, i, n) / 2 == Packed(bits, i + 1, n - 1);
      ShiftedBit(bits, i + 1, n - 1, k - 1);
    }
  }

  lemma GetBits(bits: seq<bool>, i: nat)
    requires i < BPB && i < |bits|
    ensures GetBit(BitsBlock(bits), i) == bits[i]
  {
    ShiftedBit(bits, 8 * (i / 8), 8, i % 8);
    assert 8 * (i / 8) + i % 8 == i;
  }

  // ---------------------------------------------------------------- inodes

  function ShortByte(x: Short, n: nat): Byte {
    if n == 0 then x % 256 else x / 256 % 256
  }

  function WordByte(x: nat, n: nat): Byte {
    if n == 0 then x % 256 else if n == 1 then x / 256 % 256 else if n == 2 then x / 0x1_0000 % 256
    else x / 0x100_0000 % 256
  }

  /** Byte p of an inode on disk. */
  function InodeByte(d: Dinode, p: nat): Byte
    requires p < INODE_BYTES
  {
    if p < 2 then ShortByte(d.kind, p)
    else if p < 4 then ShortByte(d.major, p - 2)
    else if p < 6 then ShortByte(d.minor, p - 4)
    else if p < 8 then ShortByte(d.nlink, p - 6)
    else if p < 12 then WordByte(d.size, p - 8)
    else WordByte(d.addrs[(p - 12) / 4], (p - 12) % 4)
  }

  /** A block of inodes. */
  function InodesBlock(ds: seq<Dinode>): Block {
    seq(BSIZE, p requires 0 <= p < BSIZE => if p / INODE_BYTES < |ds|
        then InodeByte(ds[p / INODE_BYTES], p % INODE_BYTES) else 0)
  }

  function GetShort(b: Block, p: nat): Short
    requires p + 2 <= BSIZE
  {
    var lo: int, hi: int := b[p], b[p + 1];
    if hi < 128 then lo + 256 * hi else lo + 256 * hi - 0x1_0000
  }

  /** The words of inode j of a block start at its word 16 * j + 2. */
  function GetAddrs(b: Block, j: nat): Addrs
    requires j < IPB
  {
    var w := 16 * j + 3;
    [GetWord(b, w), GetWord(b, w + 1), GetWord(b, w + 2), GetWord(b, w + 3), GetWord(b, w + 4), GetWord(b, w + 5),
     GetWord(b, w + 6), GetWord(b, w + 7), GetWord(b, w + 8), GetWord(b, w + 9), GetWord(b, w + 10), GetWord(b, w + 11),
     GetWord(b, w + 12)]
  }

  function GetInode(b: Block, j: nat): Dinode
    requires j < IPB
  {
    var p := INODE_BYTES * j;
    Dinode(GetShort(b, p), GetShort(b, p + 2), GetShort(b, p + 4), GetShort(b, p + 6), GetWord(b, 16 * j + 2),
           GetAddrs(b, j))
  }

  /** Size and addresses fit their words. */
  predicate Wordy(d: Dinode) {
    d.size < 0x1_0000_0000 && forall k | 0 <= k <= NDIRECT :: d.addrs[k] < 0x1_0000_0000
  }

  lemma ShortBack(b: Block, p: nat, x: Short)
    requires p + 2 <= BSIZE && b[p] == ShortByte(x, 0) && b[p + 1] == ShortByte(x, 1)
    ensures GetShort(b, p) == x
  {
  }

  lemma WordBack(b: Block, w: nat, x: Word)
    requires w < WORDS_PER_BLOCK && forall n | 0 <= n < 4 :: b[4 * w + n] == WordByte(x, n)
    ensures GetWord(b, w) == x
  {
    assert b[4 * w] == WordByte(x, 0) && b[4 * w + 1] == WordByte(x, 1) && b[4 * w + 2] == WordByte(x, 2)
           && b[4 * w + 3] == WordByte(x, 3);
    BytesOfWord(x);
  }

  lemma InodeByteAt(ds: seq<Dinode>, j: nat, p: nat)
    requires j < IPB && j < |ds| && p < INODE_BYTES
    ensures InodesBlock(ds)[INODE_BYTES * j + p] == InodeByte(ds[j], p)
  {
    assert (INODE_BYTES * j + p) / INODE_BYTES == j && (INODE_BYTES * j + p) % INODE_BYTES == p;
  }

  lemma ShortsBack(ds: seq<Dinode>, j: nat)
    requires j < IPB && j < |ds|
    ensures var b, d, p := InodesBlock(ds), ds[j], INODE_BYTES * j;
            GetShort(b, p) == d.kind && GetShort(b, p + 2) == d.major && GetShort(b, p + 4) == d.minor
            && GetShort(b, p + 6) == d.nlink
  {
    hide InodesBlock, GetShort;
    var b, d, p := InodesBlock(ds), ds[j], INODE_BYTES * j;
    InodeByteAt(ds, j, 0);
    InodeByteAt(ds, j, 1);
    ShortBack(b, p, d.kind);
    InodeByteAt(ds, j, 2);
    InodeByteAt(ds, j, 3);
    ShortBack(b, p + 2, d.major);
    InodeByteAt(ds, j, 4);
    InodeByteAt(ds, j, 5);
    ShortBack(b, p + 4, d.minor);
    InodeByteAt(ds, j, 6);
    InodeByteAt(ds, j, 7);
    ShortBack(b, p + 6, d.nlink);
  }

  lemma WordsBack(ds: seq<Dinode>, j: nat, k: nat)
    requires j < IPB && j < |ds| && k <= NDIRECT && Wordy(ds[j])
    ensures GetWord(InodesBlock(ds), 16 * j + 2) == ds[j].size
            && GetWord(InodesBlock(ds), 16 * j + 3 + k) == ds[j].addrs[k]
  {
    hide InodesBlock, GetWord;
    var b, d := InodesBlock(ds), ds[j];
    forall n | 0 <= n < 4
      ensures b[4 * (16 * j + 2) + n] == WordByte(d.size, n) && b[4 * (16 * j + 3 + k) + n] == WordByte(d.addrs[k], n)
    {
      InodeByteAt(ds, j, 8 + n);
      InodeByteAt(ds, j, 12 + 4 * k + n);
      assert (12 + 4 * k + n - 12) / 4 == k && (12 + 4 * k + n - 12) % 4 == n;
    }
    WordBack(b, 16 * j + 2, d.size);
    WordBack(b, 16 * j + 3 + k, d.addrs[k]);
  }

  /** An inode stored in its block reads back. */
  lemma GetInodes(ds: seq<Dinode>, j: nat)
    requires j < IPB && j < |ds| && Wordy(ds[j])
    ensures GetInode(InodesBlock(ds), j) == ds[j]
  {
    hide InodesBlock, GetWord, GetShort;
    ShortsBack(ds, j);
    forall k | 0 <= k <= NDIRECT
      ensures GetWord(InodesBlock(ds), 16 * j + 3 + k) == ds[j].addrs[k]
    {
      WordsBack(ds, j, k);
    }
    WordsBack(ds, j, 0);
    assert GetAddrs(InodesBlock(ds), j) == ds[j].addrs;
  }
}
