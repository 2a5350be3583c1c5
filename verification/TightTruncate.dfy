/**
 How many blocks truncating a file logs: at most the bitmap blocks with bits of data blocks, and the
 inode's block. That fits one operation's reservation exactly on disks whose data bits fill at most
 nine bitmap blocks; on every larger layout there is a file system with a file that does not fit.
 */
module TightTruncate {
  import opened Common
  import opened Blocks
  import opened Inodes
  import opened FileSystem
  import opened FileWrite
  import opened NamesOnDisk

  /** Truncation on a clean file system. */
  method Truncate(fs: FileSys, i: nat)
    requires fs.Clean() && i < |fs.mem| && fs.logged == {}
    modifies fs
    ensures fs.Clean() && |fs.logged| <= DataBitmaps(fs.sb) + 1
    ensures DataBitmaps(fs.sb) < MAXOPBLOCKS ==> |fs.logged| <= MAXOPBLOCKS
  {
    hide Linked, Bits, Solid, FreedLog, Super.InodeBlock, DataBitmaps, Remaining;
    FreedBound(fs.sb, fs.mem, fs.data, fs.owner, i, INDIRECT + 1);
    ghost var freed := FreedLog(fs.sb, fs.owner, i, INDIRECT + 1);
    var panicked := fs.Itrunc(i);
    assert fs.logged == freed + {fs.sb.InodeBlock(i)};
    UnionSize(freed, {fs.sb.InodeBlock(i)});
  }

  // ---------------------------------------------------------------- a file behind ten bitmap blocks

  const SPREAD: nat := MAXOPBLOCKS

  /** The first data block with its bit in the k-th bitmap block of data blocks. */
  function Spot(sb: Super, k: nat): nat {
    if k == 0 then sb.nmeta else BPB * (sb.nmeta / BPB + k)
  }

  lemma SpotPlace(sb: Super, k: nat)
    requires sb.Valid() && DataBitmaps(sb) >= SPREAD && k < SPREAD
    ensures sb.nmeta <= Spot(sb, k) < sb.size && sb.BitmapBlock(Spot(sb, k)) == sb.bmapstart + sb.nmeta / BPB + k
  {
    Multiple(sb.nmeta / BPB, k, (sb.size - 1) / BPB);
  }

  /** Whole bitmap blocks of bits. */
  lemma Multiple(q: nat, k: nat, n: nat)
    requires q + k <= n
    ensures BPB * (q + k) / BPB == q + k && BPB * (q + k) <= BPB * n
  {
  }

  function SpreadAddrs(sb: Super): Addrs {
    [Spot(sb, 0), Spot(sb, 1), Spot(sb, 2), Spot(sb, 3), Spot(sb, 4), Spot(sb, 5), Spot(sb, 6), Spot(sb, 7),
     Spot(sb, 8), Spot(sb, 9), 0, 0, 0]
  }

  function SpreadInode(sb: Super, i: nat): Dinode {
    if i == 1 then Dinode(2, 0, 0, 1, SPREAD * BSIZE, SpreadAddrs(sb)) else Dinode(0, 0, 0, 0, 0, NO_ADDRS)
  }

  predicate IsSpot(sb: Super, b: nat) {
    exists k | 0 <= k < SPREAD :: b == Spot(sb, k)
  }

  /** Which spot a block is. */
  function SpotOf(sb: Super, b: nat): int { b / BPB - sb.nmeta / BPB }

  lemma SpotBack(sb: Super, k: nat)
    requires sb.Valid() && DataBitmaps(sb) >= SPREAD && k < SPREAD
    ensures SpotOf(sb, Spot(sb, k)) == k
  {
    SpotPlace(sb, k);
  }

  function SpreadTable(sb: Super): Table { seq(sb.ninodes, i requires 0 <= i => SpreadInode(sb, i)) }
  function SpreadBitmap(sb: Super): seq<bool> { seq(sb.size, b requires 0 <= b => b < sb.nmeta || IsSpot(sb, b)) }
  function SpreadData(sb: Super): seq<Block> { seq(sb.size, _ => ZeroBlock()) }

  ghost function SpreadOwner(sb: Super): Owner {
    map b: nat | b < sb.size && IsSpot(sb, b) && 0 <= SpotOf(sb, b) :: (1, SpotOf(sb, b))
  }

  lemma SpreadSlot(sb: Super, i: nat, data: seq<Block>, k: nat)
    requires k <= INDIRECT
    ensures Slot(SpreadInode(sb, i), data, k) == if i == 1 && k < SPREAD then Spot(sb, k) else 0
  {
    hide Spot;
  }

  lemma SpreadLinked(sb: Super)
    requires sb.Valid() && sb.ninodes >= 2 && DataBitmaps(sb) >= SPREAD
    ensures Linked(sb, SpreadTable(sb), SpreadData(sb), SpreadOwner(sb))
            && Bits(sb, SpreadBitmap(sb), SpreadOwner(sb).Keys)
  {
    hide Slot, SpreadInode, Spot, SpotOf, DataBitmaps, Super.BitmapBlock;
    var t, data, owner := SpreadTable(sb), SpreadData(sb), SpreadOwner(sb);
    forall i, k | 0 <= i < |t| && 0 <= k <= INDIRECT && Slot(t[i], data, k) != 0
      ensures Slot(t[i], data, k) in owner && owner[Slot(t[i], data, k)] == (i, k)
    {
      SpreadSlot(sb, i, data, k);
      SpotPlace(sb, k);
      SpotBack(sb, k);
    }
    forall b | 0 <= b < sb.size && IsSpot(sb, b)
      ensures b in owner && sb.nmeta <= b && owner[b].0 < |t| && owner[b].1 <= INDIRECT
              && Slot(t[owner[b].0], data, owner[b].1) == b
    {
      var k :| 0 <= k < SPREAD && b == Spot(sb, k);
      SpotPlace(sb, k);
      SpotBack(sb, k);
      SpreadSlot(sb, 1, data, k);
    }
  }

  lemma SpreadSolid(sb: Super)
    requires sb.Valid() && DataBitmaps(sb) >= SPREAD
    ensures Solid(SpreadTable(sb), SpreadData(sb))
  {
    hide Slot, Spot, DataBitmaps;
    var t, data := SpreadTable(sb), SpreadData(sb);
    forall i | 0 <= i < |t|
      ensures NoHoles(t[i], data)
    {
      forall k | 0 <= k <= INDIRECT
        ensures Slot(t[i], data, k) != 0 <==> i == 1 && k < SPREAD
      {
        SpreadSlot(sb, i, data, k);
        if k < SPREAD {
          SpotPlace(sb, k);
        }
      }
    }
  }

  /** Freeing the n-th block logs the n-th bitmap block of data blocks. */
  lemma SpreadStep(sb: Super, n: nat)
    requires sb.Valid() && DataBitmaps(sb) >= SPREAD && n < SPREAD && sb.ninodes >= 2
    ensures FreedLog(sb, SpreadOwner(sb), 1, 0) == {}
    ensures FreedLog(sb, SpreadOwner(sb), 1, n + 1)
            == FreedLog(sb, SpreadOwner(sb), 1, n) + {sb.bmapstart + sb.nmeta / BPB + n}
  {
    hide Linked, Bits, DataBitmaps, Super.BitmapBlock, Slot, SpreadInode, Spot, SpreadOwner, SpreadData, FreedLog;
    var t, data, owner := SpreadTable(sb), SpreadData(sb), SpreadOwner(sb);
    SpreadLinked(sb);
    FreeLogged(sb, t, data, owner, 1, 0);
    FreeLogged(sb, t, data, owner, 1, n);
    SpreadSlot(sb, 1, data, n);
    SpotPlace(sb, n);
  }

  /** Its truncation logs ten bitmap blocks. */
  lemma {:induction false} SpreadLog(sb: Super, n: nat)
    requires sb.Valid() && DataBitmaps(sb) >= SPREAD && n <= SPREAD && sb.ninodes >= 2
    ensures |FreedLog(sb, SpreadOwner(sb), 1, n)| == n
    ensures forall x | x in FreedLog(sb, SpreadOwner(sb), 1, n) :: sb.bmapstart <= x < sb.bmapstart + sb.nmeta / BPB + n
  {
    hide DataBitmaps, SpreadOwner, FreedLog;
    if n == 0 {
      SpreadStep(sb, 0);
    } else {
      SpreadLog(sb, n - 1);
      SpreadStep(sb, n - 1);
    }
  }

  lemma SpreadAll(sb: Super)
    requires sb.Valid() && DataBitmaps(sb) >= SPREAD && sb.ninodes >= 2
    ensures FreedLog(sb, SpreadOwner(sb), 1, INDIRECT + 1) == FreedLog(sb, SpreadOwner(sb), 1, SPREAD)
  {
    hide DataBitmaps, Super.BitmapBlock, Spot;
    forall b | b in SpreadOwner(sb)
      ensures SpreadOwner(sb)[b].1 < SPREAD
    {
      var k :| 0 <= k < SPREAD && b == Spot(sb, k);
      SpotBack(sb, k);
    }
  }

  /**
   * On every layout with data bits in ten bitmap blocks or more, a clean file system whose truncation needs eleven
   * blocks.
   */
  method TruncateOverrun(sb: Super) returns (fs: FileSys)
    requires sb.Valid() && sb.ninodes >= 2 && DataBitmaps(sb) >= MAXOPBLOCKS
    ensures fresh(fs) && fs.sb == sb && fs.Clean() && |fs.logged| == MAXOPBLOCKS + 1
  {
    hide Linked, Bits, Solid, FreedLog, DataBitmaps, SpreadOwner, SpreadInode;
    SpreadLinked(sb);
    SpreadSolid(sb);
    SpreadLog(sb, SPREAD);
    SpreadAll(sb);
    LessInodes(1, sb.ninodes);
    fs := new FileSys(sb, SpreadBitmap(sb), SpreadTable(sb), SpreadData(sb), SpreadOwner(sb));
    var panicked := fs.Itrunc(1);
    assert {} + FreedLog(sb, SpreadOwner(sb), 1, SPREAD) == FreedLog(sb, SpreadOwner(sb), 1, SPREAD);
    assert sb.InodeBlock(1) < sb.bmapstart;
  }
}
