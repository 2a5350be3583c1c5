/**
 filewrite's chunk cannot be larger: one chunk can need every block the log reserves for
 an operation. The log accounting of writei is exact, so this is a fact about the blocks
 a write logs, with a file system on which it happens.
 */
module TightWrite {
  import opened Common
  import opened Blocks
  import opened Inodes
  import opened FileSystem
  import opened FileWrite

  /** A file that ends just after the start of its last direct block. */
  const BRINK: nat := 11 * BSIZE + 1

  /** The four lowest clear bits, each in a bitmap block of its own. */
  ghost predicate FourApart(bitmap: seq<bool>, c: seq<nat>) {
    && |c| == 4 && c[0] / BPB < c[1] / BPB < c[2] / BPB < c[3] / BPB && c[3] < |bitmap|
    && (forall b | 0 <= b <= c[3] :: !bitmap[b] <==> b in c)
  }

  lemma Ascending(x: nat, y: nat)
    requires x / BPB < y / BPB
    ensures x < y
  {
  }

  lemma FourClear(bitmap: seq<bool>, c: seq<nat>)
    requires FourApart(bitmap, c)
    ensures |c| == 4
    ensures var four := {c[0], c[1], c[2], c[3]};
            && |four| == 4 && four <= Clear(bitmap) && 4 <= |Clear(bitmap)|
            && (forall y | y in Clear(bitmap) && y <= c[3] :: y in four) && forall y | y in four :: y <= c[3]
  {
    Ascending(c[0], c[1]);
    Ascending(c[1], c[2]);
    Ascending(c[2], c[3]);
    var four := {c[0], c[1], c[2], c[3]};
    assert |four| == 4;
    assert forall j | 0 <= j < 4 :: c[j] in c;
    assert four <= Clear(bitmap);
    SubsetSize(four, Clear(bitmap));
  }

  /** The n lowest elements are the n that went, when those that went lie below those that stayed. */
  lemma LowestWent(all: set<nat>, left: set<nat>, low: set<nat>, top: nat)
    requires left <= all && |all| == |left| + |low| && low <= all
    requires (forall y | y in all && y <= top :: y in low) && forall y | y in low :: y <= top
    requires forall b, c | b in left && c in all && c !in left :: c < b
    ensures all - left == low
  {
    var went := all - left;
    assert all == went + left;
    forall x | x in low
      ensures x in went
    {
      assert x in left ==> went <= low - {x};
      if went <= low - {x} {
        SubsetSize(went, low - {x});
      }
    }
    assert went == low + (went - low);
  }

  /** Four blocks taken from such a bitmap are those four. */
  lemma FourTaken(bitmap: seq<bool>, bitmap': seq<bool>, c: seq<nat>)
    requires FourApart(bitmap, c) && Took(bitmap, bitmap', 4)
    ensures Clear(bitmap) - Clear(bitmap') == {c[0], c[1], c[2], c[3]}
  {
    hide FourApart, Clear;
    FourClear(bitmap, c);
    LowestWent(Clear(bitmap), Clear(bitmap'), {c[0], c[1], c[2], c[3]}, c[3]);
  }

  /** The address of a slot that was empty before a write was clear before it and is set after it. */
  lemma NewSlot(sb: Super, s: Snapshot, t: Snapshot, i: nat, k: nat)
    requires Linked(sb, s.mem, s.data, s.owner) && Bits(sb, s.bitmap, s.owner.Keys)
    requires Linked(sb, t.mem, t.data, t.owner) && Bits(sb, t.bitmap, t.owner.Keys)
    requires SlotsKept(s.mem, s.data, t.mem, t.data) && i < |s.mem| && k <= INDIRECT && 0 < sb.nmeta
    requires Slot(s.mem[i], s.data, k) == 0 && Slot(t.mem[i], t.data, k) != 0
    ensures Slot(t.mem[i], t.data, k) in Clear(s.bitmap) - Clear(t.bitmap)
  {
    var a := Slot(t.mem[i], t.data, k);
    assert t.owner[a] == (i, k);
  }

  lemma FourBlocksLogged(sb: Super, d: Dinode, data: seq<Block>)
    ensures var ind := d.addrs[NDIRECT];
            WriteLog(sb, d, data, 12, 11, 15) ==
            {Slot(d, data, 11), Slot(d, data, 12), Slot(d, data, 13), Slot(d, data, 14), ind}
            + {sb.BitmapBlock(Slot(d, data, 12)), sb.BitmapBlock(Slot(d, data, 13)), sb.BitmapBlock(Slot(d, data, 14)),
               sb.BitmapBlock(ind)}
  {
    hide Slot, Super.BitmapBlock;
    assert WriteLog(sb, d, data, 12, 11, 12) == BlockLog(sb, d, data, 12, 11)
           by { assert WriteLog(sb, d, data, 12, 11, 11) == {}; }
    assert WriteLog(sb, d, data, 12, 11, 14) == WriteLog(sb, d, data, 12, 11, 12) + BlockLog(sb, d, data, 12, 12)
           + BlockLog(sb, d, data, 12, 13);
  }

  lemma BitmapBlocksApart(sb: Super, c: seq<nat>, x: nat, y: nat)
    requires |c| == 4 && c[0] / BPB < c[1] / BPB < c[2] / BPB < c[3] / BPB
    requires x in {c[0], c[1], c[2], c[3]} && y in {c[0], c[1], c[2], c[3]} && x != y
    ensures sb.BitmapBlock(x) != sb.BitmapBlock(y)
  {
  }

  lemma MetaBlocks(sb: Super, x: nat, inum: nat)
    requires sb.Valid() && x < sb.size && inum < sb.ninodes
    ensures sb.InodeBlock(inum) < sb.bmapstart <= sb.BitmapBlock(x) < sb.nmeta
  {
    LessBits(x, sb.size);
    LessInodes(inum, sb.ninodes);
  }

  lemma TenDistinct(d: set<nat>, b: set<nat>, i: nat, lo: nat, hi: nat)
    requires |d| == 5 && |b| == 4 && (forall x | x in d :: hi <= x) && (forall x | x in b :: lo <= x < hi) && i < lo
    ensures |d + b + {i}| == 10
  {
    assert d !! b && i !in d + b;
  }

  /** Data blocks, bitmap blocks and inode blocks are different blocks. */
  lemma TenBlocks(sb: Super, a11: nat, a12: nat, a13: nat, a14: nat, ind: nat, c: seq<nat>, inum: nat)
    requires sb.Valid() && inum < sb.ninodes && |c| == 4 && c[0] / BPB < c[1] / BPB < c[2] / BPB < c[3] / BPB
    requires ind in {c[0], c[1], c[2], c[3]} && a12 in {c[0], c[1], c[2], c[3]} && a13 in {c[0], c[1], c[2], c[3]}
             && a14 in {c[0], c[1], c[2], c[3]}
    requires |{a11, a12, a13, a14, ind}| == 5
    requires a11 >= sb.nmeta && a12 >= sb.nmeta && a13 >= sb.nmeta && a14 >= sb.nmeta && ind >= sb.nmeta
    requires a12 < sb.size && a13 < sb.size && a14 < sb.size && ind < sb.size
    ensures |{a11, a12, a13, a14, ind} + {sb.BitmapBlock(a12), sb.BitmapBlock(a13), sb.BitmapBlock(a14),
                                          sb.BitmapBlock(ind)}
             + {sb.InodeBlock(inum)}| == 10
  {
    hide Super.BitmapBlock, Super.InodeBlock;
    BitmapBlocksApart(sb, c, a12, a13);
    BitmapBlocksApart(sb, c, a12, a14);
    BitmapBlocksApart(sb, c, a13, a14);
    BitmapBlocksApart(sb, c, ind, a12);
    BitmapBlocksApart(sb, c, ind, a13);
    BitmapBlocksApart(sb, c, ind, a14);
    MetaBlocks(sb, a12, inum);
    MetaBlocks(sb, a13, inum);
    MetaBlocks(sb, a14, inum);
    MetaBlocks(sb, ind, inum);
    TenDistinct({a11, a12, a13, a14, ind},
                {sb.BitmapBlock(a12), sb.BitmapBlock(a13), sb.BitmapBlock(a14), sb.BitmapBlock(ind)},
                sb.InodeBlock(inum), sb.bmapstart, sb.nmeta);
  }

  lemma BrinkSlots(sb: Super, s: Snapshot, t: Snapshot, i: nat, c: seq<nat>, k: nat)
    requires sb.Valid() && Linked(sb, s.mem, s.data, s.owner) && Bits(sb, s.bitmap, s.owner.Keys)
    requires Linked(sb, t.mem, t.data, t.owner) && Bits(sb, t.bitmap, t.owner.Keys)
    requires SlotsKept(s.mem, s.data, t.mem, t.data) && i < |s.mem| == |t.mem|
    requires Extent(s.mem[i], s.data, 12) && Extent(t.mem[i], t.data, 15) && (12 <= k <= 14 || k == INDIRECT)
    requires FourApart(s.bitmap, c) && Took(s.bitmap, t.bitmap, 4)
    ensures Slot(t.mem[i], t.data, k) in {c[0], c[1], c[2], c[3]}
  {
    hide FourApart, Took, Slot, Linked, Bits, SlotsKept, Clear;
    NewSlot(sb, s, t, i, k);
    FourTaken(s.bitmap, t.bitmap, c);
  }

  /** What a chunk written at the brink logs: four data blocks, the indirect block, four bitmap blocks and the inode. */
  lemma BrinkLogs(sb: Super, s: Snapshot, t: Snapshot, i: nat, c: seq<nat>)
    requires sb.Valid() && Linked(sb, s.mem, s.data, s.owner) && Bits(sb, s.bitmap, s.owner.Keys)
    requires Linked(sb, t.mem, t.data, t.owner) && Bits(sb, t.bitmap, t.owner.Keys)
    requires SlotsKept(s.mem, s.data, t.mem, t.data) && i < |s.mem| == |t.mem|
    requires Extent(s.mem[i], s.data, 12) && Extent(t.mem[i], t.data, 15)
    requires FourApart(s.bitmap, c) && Took(s.bitmap, t.bitmap, 4)
    ensures |Logs(sb, i, t.mem[i], t.data, BRINK, BRINK, CHUNK)| == MAXOPBLOCKS
  {
    hide Slot, Super.BitmapBlock, Super.InodeBlock, Extent, Linked, Bits, SlotsKept, Took, Clear, Logs;
    var d, data := t.mem[i], t.data;
    IndirectSlot(d, data);
    BrinkSlots(sb, s, t, i, c, 12);
    BrinkSlots(sb, s, t, i, c, 13);
    BrinkSlots(sb, s, t, i, c, 14);
    BrinkSlots(sb, s, t, i, c, INDIRECT);
    FiveBlocks(sb, t, i);
    TenBlocks(sb, Slot(d, data, 11), Slot(d, data, 12), Slot(d, data, 13), Slot(d, data, 14), d.addrs[NDIRECT], c, i);
    LogsAre(sb, i, d, data);
  }

  lemma LogsAre(sb: Super, i: nat, d: Dinode, data: seq<Block>)
    ensures var ind := d.addrs[NDIRECT];
            Logs(sb, i, d, data, BRINK, BRINK, CHUNK) ==
            {Slot(d, data, 11), Slot(d, data, 12), Slot(d, data, 13), Slot(d, data, 14), ind}
            + {sb.BitmapBlock(Slot(d, data, 12)), sb.BitmapBlock(Slot(d, data, 13)), sb.BitmapBlock(Slot(d, data, 14)),
               sb.BitmapBlock(ind)}
            + {sb.InodeBlock(i)}
  {
    hide Slot, WriteLog, Super.BitmapBlock, Super.InodeBlock;
    FourBlocksLogged(sb, d, data);
  }

  lemma FiveBlocks(sb: Super, t: Snapshot, i: nat)
    requires sb.Valid() && Linked(sb, t.mem, t.data, t.owner) && i < |t.mem| && Extent(t.mem[i], t.data, 15)
    ensures |t.mem| == sb.ninodes
    ensures var d, data := t.mem[i], t.data;
            var five := {Slot(d, data, 11), Slot(d, data, 12), Slot(d, data, 13), Slot(d, data, 14), d.addrs[NDIRECT]};
            |five| == 5 && forall b | b in five :: sb.nmeta <= b < sb.size
  {
    var d, data := t.mem[i], t.data;
    IndirectSlot(d, data);
    hide Slot;
    assert t.owner[Slot(d, data, 11)] == (i, 11) && t.owner[Slot(d, data, 12)] == (i, 12)
           && t.owner[Slot(d, data, 13)] == (i, 13);
    assert t.owner[Slot(d, data, 14)] == (i, 14) && t.owner[Slot(d, data, INDIRECT)] == (i, INDIRECT);
  }

  /**
   On every clean file system whose four lowest clear bits lie in four bitmap blocks, a
   chunk appended to a file at the brink succeeds and logs exactly MAXOPBLOCKS blocks.
   */
  method WriteAtBrink(fs: FileSys, inum: nat, src: seq<Byte>, ghost c: seq<nat>) returns (w: Io)
    requires fs.Clean() && inum < |fs.mem| && fs.mem[inum].size == BRINK && |src| == CHUNK && FourApart(fs.bitmap, c)
    modifies fs
    ensures w == Done(CHUNK) && fs.Clean() && |fs.logged| == MAXOPBLOCKS
  {
    hide Linked, Bits, Slot, Logs, FourApart, Clear, SlotsKept, BytesSet, OthersKept;
    fs.BeginOp();
    ghost var s := fs.Snap();
    FourClear(fs.bitmap, c);
    w := fs.Writei(inum, src, BRINK, CHUNK);
    assert Growth(BRINK, BRINK, CHUNK) == 4;
    WroteFile(s, fs.Snap(), inum, BRINK, src);
    BrinkLogs(fs.sb, s, fs.Snap(), inum, c);
  }

  // ---------------------------------------------------------------- a file system at the brink

  /*
   A disk laid out as mkfs does: 4059 inode blocks and 4 bitmap blocks make the metadata
   end one block short of a bitmap block. 683 files of 12 blocks fill the disk up to block
   12294, leaving out blocks 4095, 4096 and 8201.
   */
  const LAYOUT := Super(12300, 32464, 32, 4091, 4095)
  const FILES: nat := 683
  const CLEAR: seq<nat> := [4095, 4096, 8201, 12294]

  /** The first block of the i-th file, and the place of a block among the blocks in use. */
  function FirstBlock(i: nat): nat { 4097 + 12 * i + if i < 342 then 0 else 1 }
  function Place(b: int): int { b - 4097 - if b < 8201 then 0 else 1 }

  predicate InUse(b: nat) {
    4097 <= b < 12294 && b != 8201
  }

  lemma PlaceFirst(i: nat, k: nat)
    requires i < FILES && k < 12
    ensures var b := FirstBlock(i) + k; InUse(b) && Place(b) / 12 == i && Place(b) % 12 == k
  {
  }

  lemma FirstPlace(b: nat)
    requires InUse(b)
    ensures 0 <= Place(b) / 12 < FILES && FirstBlock(Place(b) / 12) + Place(b) % 12 == b
  {
  }

  function FileAddrs(i: nat): Addrs {
    var b := FirstBlock(i);
    [b, b + 1, b + 2, b + 3, b + 4, b + 5, b + 6, b + 7, b + 8, b + 9, b + 10, b + 11, 0]
  }

  /** Inode 1 is a directory, inode 2 the file at the brink; the inodes after the 683 files are free. */
  function BrinkInode(j: nat): Dinode {
    if 1 <= j <= FILES then Dinode(if j == 1 then 1 else 2, 0, 0, 1, if j == 2 then BRINK else 12 * BSIZE,
                                   FileAddrs(j - 1))
    else Dinode(0, 0, 0, 0, 0, NO_ADDRS)
  }

  function BrinkTable(): Table { seq(LAYOUT.ninodes, j requires 0 <= j => BrinkInode(j)) }
  function BrinkBitmap(): seq<bool> { seq(LAYOUT.size, b requires 0 <= b => b < LAYOUT.nmeta || InUse(b)) }
  function BrinkData(): seq<Block> { seq(LAYOUT.size, _ => ZeroBlock()) }
  ghost function BrinkOwner(): Owner { map b: nat | b < LAYOUT.size && InUse(b) && 0 <= Place(b) ::
      (1 + Place(b) / 12, Place(b) % 12) }

  lemma BrinkSlot(j: nat, data: seq<Block>, k: nat)
    requires k <= INDIRECT
    ensures Slot(BrinkInode(j), data, k) == if 1 <= j <= FILES && k < 12 then FirstBlock(j - 1) + k else 0
  {
  }

  lemma BrinkLinked()
    ensures LAYOUT.Valid() && Linked(LAYOUT, BrinkTable(), BrinkData(), BrinkOwner())
  {
    hide Slot, BrinkInode, InUse, Place, FirstBlock;
    var t, data, owner := BrinkTable(), BrinkData(), BrinkOwner();
    forall j, k | 0 <= j < |t| && 0 <= k <= INDIRECT && Slot(t[j], data, k) != 0
      ensures Slot(t[j], data, k) in owner && owner[Slot(t[j], data, k)] == (j, k)
    {
      BrinkSlot(j, data, k);
      PlaceFirst(j - 1, k);
      UseBounds(Slot(t[j], data, k));
    }
    forall b | b in owner
      ensures LAYOUT.nmeta <= b < LAYOUT.size && owner[b].0 < |t| && owner[b].1 <= INDIRECT
      ensures Slot(t[owner[b].0], data, owner[b].1) == b
    {
      UseBounds(b);
      FirstPlace(b);
      BrinkSlot(owner[b].0, data, owner[b].1);
    }
  }

  lemma UseBounds(b: nat)
    requires InUse(b)
    ensures LAYOUT.nmeta <= b < LAYOUT.size && 0 <= Place(b)
  {
  }

  lemma BrinkClean()
    ensures Bits(LAYOUT, BrinkBitmap(), BrinkOwner().Keys) && Solid(BrinkTable(), BrinkData())
    ensures FourApart(BrinkBitmap(), CLEAR)
  {
    hide Slot, BrinkInode;
    forall b | 0 <= b < LAYOUT.size
      ensures BrinkBitmap()[b] <==> b < LAYOUT.nmeta || b in BrinkOwner().Keys
    {
    }
    forall j | 0 <= j < |BrinkTable()|
      ensures NoHoles(BrinkTable()[j], BrinkData())
    {
      BrinkFile(j);
    }
  }

  lemma BrinkFile(j: nat)
    ensures NoHoles(BrinkInode(j), BrinkData())
  {
    hide Slot;
    forall k | 0 <= k <= INDIRECT
      ensures Slot(BrinkInode(j), BrinkData(), k) != 0 <==> 1 <= j <= FILES && k < 12
    {
      BrinkSlot(j, BrinkData(), k);
    }
  }

  /** The bound is met: on this file system one chunk logs MAXOPBLOCKS blocks. */
  method BudgetSpent(src: seq<Byte>) returns (fs: FileSys)
    requires |src| == CHUNK
    ensures fresh(fs) && fs.Clean() && |fs.logged| == MAXOPBLOCKS
  {
    hide Linked, Bits, Solid, FourApart, BrinkOwner;
    BrinkLinked();
    BrinkClean();
    fs := new FileSys(LAYOUT, BrinkBitmap(), BrinkTable(), BrinkData(), BrinkOwner());
    var w := WriteAtBrink(fs, 2, src, CLEAR);
  }
}
