/**
 How inodes name disk blocks. Slot k of an inode is the address of its k-th data
 block; one more slot is the indirect block itself. A ghost map from blocks to
 slots (the owner map) records that every address in use is used once.
 */
module Inodes {
  import opened Blocks

  const NDIRECT: nat := 12
  const NINDIRECT: nat := BSIZE / 4
  const MAXFILE: nat := NDIRECT + NINDIRECT
  const INDIRECT: nat := MAXFILE
  const MAXBYTES: nat := MAXFILE * BSIZE
  const IPB: nat := 8           // inodes per block
  const BPB: nat := BSIZE * 8   // bitmap bits per block

  type Addrs = a: seq<nat> | |a| == NDIRECT + 1 witness seq(NDIRECT + 1, _ => 0)

  type Short = x: int | -0x8000 <= x < 0x8000

  datatype Dinode = Dinode(kind: Short, major: Short, minor: Short, nlink: Short, size: nat, addrs: Addrs)

  type Table = seq<Dinode>
  type Owner = map<nat, (nat, nat)>

  /** The part of the superblock the block layer uses; blocks below nmeta are metadata. */
  datatype Super = Super(size: nat, ninodes: nat, inodestart: nat, bmapstart: nat, nmeta: nat) {
    ghost predicate Valid() {
      && 0 < inodestart && inodestart + ninodes / IPB + 1 <= bmapstart
      && bmapstart + size / BPB + 1 <= nmeta <= size < 0x1_0000_0000
    }

    /** The block holding inode i, and the bitmap block holding the bit of block b. */
    function InodeBlock(i: nat): nat { i / IPB + inodestart }
    function BitmapBlock(b: nat): nat { b / BPB + bmapstart }
  }

  function Slot(d: Dinode, data: seq<Block>, k: nat): nat
    requires k <= INDIRECT
  {
    if k < NDIRECT then d.addrs[k]
    else if k == INDIRECT then d.addrs[NDIRECT]
    else if d.addrs[NDIRECT] == 0 || d.addrs[NDIRECT] >= |data| then 0
    else GetWord(data[d.addrs[NDIRECT]], k - NDIRECT)
  }

  /** A block not yet allocated reads as zeroes, which is what bmap would make of it. */
  ghost function SlotBlock(d: Dinode, data: seq<Block>, k: nat): Block
    requires k < MAXFILE
  {
    if Slot(d, data, k) == 0 || Slot(d, data, k) >= |data| then ZeroBlock() else data[Slot(d, data, k)]
  }

  ghost function ByteAt(d: Dinode, data: seq<Block>, p: nat): Byte
    requires p < MAXBYTES
  {
    SlotBlock(d, data, p / BSIZE)[p % BSIZE]
  }

  /** The file an inode stands for. */
  ghost function Content(d: Dinode, data: seq<Block>): seq<Byte>
    requires d.size <= MAXBYTES
  {
    seq(d.size, p requires 0 <= p < d.size => ByteAt(d, data, p))
  }

  function BlockCount(bytes: nat): nat {
    (bytes + BSIZE - 1) / BSIZE
  }

  // ---------------------------------------------------------------- ownership

  /** Every address in a slot is a data block owned by that slot, and every owned block is in its slot. */
  ghost predicate Linked(sb: Super, table: Table, data: seq<Block>, owner: Owner) {
    && |table| == sb.ninodes && |data| == sb.size
    && (forall i, k | 0 <= i < |table| && 0 <= k <= INDIRECT && Slot(table[i], data, k) != 0 ::
          Slot(table[i], data, k) in owner && owner[Slot(table[i], data, k)] == (i, k))
    && (forall b | b in owner ::
          && sb.nmeta <= b < sb.size && owner[b].0 < |table| && owner[b].1 <= INDIRECT
          && Slot(table[owner[b].0], data, owner[b].1) == b)
  }

  /** The set bits of the bitmap are the metadata blocks and the blocks in `used`. */
  ghost predicate Bits(sb: Super, bitmap: seq<bool>, used: set<nat>) {
    |bitmap| == sb.size && forall b | 0 <= b < sb.size :: bitmap[b] <==> b < sb.nmeta || b in used
  }

  /** Exactly the first n data blocks of the file are mapped. */
  ghost predicate Extent(d: Dinode, data: seq<Block>, n: nat) {
    && n <= MAXFILE
    && (forall k | 0 <= k < MAXFILE :: Slot(d, data, k) != 0 <==> k < n)
    && (Slot(d, data, INDIRECT) != 0 <==> n > NDIRECT)
  }

  /** No holes: the mapped blocks are exactly those below the file's size. */
  ghost predicate NoHoles(d: Dinode, data: seq<Block>) {
    d.size <= MAXBYTES && Extent(d, data, BlockCount(d.size))
  }

  /** No file has holes. */
  ghost predicate Solid(table: Table, data: seq<Block>) {
    forall i | 0 <= i < |table| :: table[i].size <= MAXBYTES && NoHoles(table[i], data)
  }

  /** No block is named twice, and set bits are exactly metadata and named blocks. */
  lemma OwnedOnce(sb: Super, table: Table, data: seq<Block>, bitmap: seq<bool>, owner: Owner)
    requires Linked(sb, table, data, owner) && Bits(sb, bitmap, owner.Keys) && 0 < sb.nmeta
    ensures forall i, k, j, l | 0 <= i < |table| && 0 <= k <= INDIRECT && 0 <= j < |table| && 0 <= l <= INDIRECT
                                && Slot(table[i], data, k) != 0 && Slot(table[i], data, k) == Slot(table[j], data, l) ::
              i == j && k == l
    ensures forall b | 0 <= b < sb.size ::
              bitmap[b] <==> b < sb.nmeta
                             || exists i, k | 0 <= i < |table| && 0 <= k <= INDIRECT :: Slot(table[i], data, k) == b
  {
  }

  /** Two views of the inodes with the same addresses in every slot. */
  ghost predicate SameSlots(t: Table, data: seq<Block>, t': Table, data': seq<Block>) {
    |t| == |t'| && forall i, k | 0 <= i < |t| && 0 <= k <= INDIRECT :: Slot(t[i], data, k) == Slot(t'[i], data', k)
  }

  lemma SameSlotsLinked(sb: Super, t: Table, data: seq<Block>, t': Table, data': seq<Block>, owner: Owner)
    requires Linked(sb, t, data, owner) && SameSlots(t, data, t', data') && |data| == |data'|
    ensures Linked(sb, t', data', owner)
  {
  }

  /** A block that is not an indirect block of anyone can be written without moving any slot. */
  lemma DataWriteSlots(sb: Super, table: Table, data: seq<Block>, owner: Owner, b: nat, x: Block)
    requires Linked(sb, table, data, owner) && 0 < sb.nmeta <= b < sb.size
    requires b in owner ==> owner[b].1 != INDIRECT
    ensures SameSlots(table, data, table, data[b := x])
    ensures Linked(sb, table, data[b := x], owner)
  {
    forall i, k | 0 <= i < |table| && 0 <= k <= INDIRECT
      ensures Slot(table[i], data, k) == Slot(table[i], data[b := x], k)
    {
      assert Slot(table[i], data, INDIRECT) == table[i].addrs[NDIRECT];
    }
    SameSlotsLinked(sb, table, data, table, data[b := x], owner);
  }

  ghost predicate SameBytes(t: Table, data: seq<Block>, t': Table, data': seq<Block>) {
    |t| == |t'| && forall i, p | 0 <= i < |t| && 0 <= p < MAXBYTES :: ByteAt(t'[i], data', p) == ByteAt(t[i], data, p)
  }

  /** A block nobody owns can be written without changing a byte of any file. */
  lemma UnownedWrite(sb: Super, table: Table, data: seq<Block>, owner: Owner, b: nat, x: Block)
    requires Linked(sb, table, data, owner) && 0 < sb.nmeta <= b < sb.size && b !in owner
    ensures Linked(sb, table, data[b := x], owner)
    ensures SameSlots(table, data, table, data[b := x])
    ensures SameBytes(table, data, table, data[b := x])
  {
    DataWriteSlots(sb, table, data, owner, b, x);
    forall i, k | 0 <= i < |table| && 0 <= k < MAXFILE
      ensures SlotBlock(table[i], data[b := x], k) == SlotBlock(table[i], data, k)
    {
      assert Slot(table[i], data, k) == Slot(table[i], data[b := x], k);
    }
  }

  /** From data to data', block k of file i became x and no other byte of any file changed. */
  ghost predicate BlockSet(t: Table, data: seq<Block>, data': seq<Block>, i: nat, k: nat, x: Block) {
    forall j, p {:trigger ByteAt(t[j], data', p)} | 0 <= j < |t| && 0 <= p < MAXBYTES ::
      ByteAt(t[j], data', p) == if j == i && p / BSIZE == k then x[p % BSIZE] else ByteAt(t[j], data, p)
  }

  /** Writing an owned data block changes the bytes of that block of that file, and no others. */
  lemma OwnedWrite(sb: Super, table: Table, data: seq<Block>, owner: Owner, i: nat, k: nat, a: nat, x: Block)
    requires Linked(sb, table, data, owner) && 0 < sb.nmeta && i < |table| && k < MAXFILE
    requires a == Slot(table[i], data, k) != 0
    ensures a < |data| && Linked(sb, table, data[a := x], owner)
    ensures SameSlots(table, data, table, data[a := x])
    ensures BlockSet(table, data, data[a := x], i, k, x)
  {
    assert owner[a] == (i, k);
    DataWriteSlots(sb, table, data, owner, a, x);
    var data' := data[a := x];
    forall j, l | 0 <= j < |table| && 0 <= l < MAXFILE
      ensures SlotBlock(table[j], data', l) == if j == i && l == k then x else SlotBlock(table[j], data, l)
    {
      assert Slot(table[j], data, l) == Slot(table[j], data', l);
    }
    forall j, p {:trigger ByteAt(table[j], data', p)} | 0 <= j < |table| && 0 <= p < MAXBYTES
      ensures ByteAt(table[j], data', p) ==
              if j == i && p / BSIZE == k then x[p % BSIZE] else ByteAt(table[j], data, p)
    {
      assert 0 <= p / BSIZE < MAXFILE;
    }
  }

  // ---------------------------------------------------------------- linking a fresh block

  function WithAddr(d: Dinode, k: nat, b: nat): Dinode
    requires k <= NDIRECT
  {
    Dinode(d.kind, d.major, d.minor, d.nlink, d.size, d.addrs[k := b])
  }

  ghost predicate Fresh(sb: Super, data: seq<Block>, owner: Owner, b: nat) {
    |data| == sb.size && 0 < sb.nmeta <= b < sb.size && b !in owner && data[b] == ZeroBlock()
  }

  /** The addresses after slot k of inode i has been set to b, everywhere else as before. */
  ghost predicate SlotSet(t: Table, data: seq<Block>, t': Table, data': seq<Block>, i: nat, k: nat, b: nat) {
    && |t| == |t'| && |data| == |data'|
    && (forall j, l | 0 <= j < |t| && 0 <= l <= INDIRECT ::
          Slot(t'[j], data', l) == if j == i && l == k then b else Slot(t[j], data, l))
  }

  lemma SlotSetLinked(sb: Super, t: Table, data: seq<Block>, t': Table, data': seq<Block>, owner: Owner, i: nat, k: nat,
                      b: nat)
    requires Linked(sb, t, data, owner) && SlotSet(t, data, t', data', i, k, b)
    requires 0 < sb.nmeta <= b < sb.size && b !in owner
    requires i < |t| && k <= INDIRECT && Slot(t[i], data, k) == 0
    ensures Linked(sb, t', data', owner[b := (i, k)])
  {
  }

  /** Storing a fresh block in an empty direct slot changes that slot only, and no byte of any file. */
  lemma LinkDirect(sb: Super, table: Table, data: seq<Block>, owner: Owner, i: nat, k: nat, b: nat)
    requires Linked(sb, table, data, owner) && Fresh(sb, data, owner, b)
    requires i < |table| && k < NDIRECT && table[i].addrs[k] == 0
    ensures Linked(sb, table[i := WithAddr(table[i], k, b)], data, owner[b := (i, k)])
    ensures SlotSet(table, data, table[i := WithAddr(table[i], k, b)], data, i, k, b)
    ensures SameBytes(table, data, table[i := WithAddr(table[i], k, b)], data)
  {
    var d := WithAddr(table[i], k, b);
    var t' := table[i := d];
    assert SlotSet(table, data, t', data, i, k, b);
    SlotSetLinked(sb, table, data, t', data, owner, i, k, b);
    assert forall j, l | 0 <= j < |table| && 0 <= l < MAXFILE ::
           SlotBlock(t'[j], data, l) == SlotBlock(table[j], data, l);
  }

  /** Storing a fresh (zeroed) block as the indirect block adds no data block. */
  lemma LinkIndirect(sb: Super, table: Table, data: seq<Block>, owner: Owner, i: nat, b: nat)
    requires Linked(sb, table, data, owner) && Fresh(sb, data, owner, b)
    requires i < |table| && table[i].addrs[NDIRECT] == 0
    ensures Linked(sb, table[i := WithAddr(table[i], NDIRECT, b)], data, owner[b := (i, INDIRECT)])
    ensures SlotSet(table, data, table[i := WithAddr(table[i], NDIRECT, b)], data, i, INDIRECT, b)
    ensures SameBytes(table, data, table[i := WithAddr(table[i], NDIRECT, b)], data)
  {
    var d := WithAddr(table[i], NDIRECT, b);
    var t' := table[i := d];
    forall l | 0 <= l <= INDIRECT
      ensures Slot(d, data, l) == if l == INDIRECT then b else Slot(table[i], data, l)
    {
      if NDIRECT <= l < INDIRECT {
        ZeroBlockWords(l - NDIRECT);
      }
    }
    assert SlotSet(table, data, t', data, i, INDIRECT, b);
    SlotSetLinked(sb, table, data, t', data, owner, i, INDIRECT, b);
    assert forall j, l | 0 <= j < |table| && 0 <= l < MAXFILE ::
           SlotBlock(t'[j], data, l) == SlotBlock(table[j], data, l);
  }

  function WithWord(data: seq<Block>, a: nat, w: nat, b: Word): seq<Block>
    requires a < |data| && w < NINDIRECT
  {
    data[a := PutWord(data[a], w, b)]
  }

  /** Storing a word in an inode's indirect block changes that slot only. */
  lemma WordSlots(sb: Super, table: Table, data: seq<Block>, owner: Owner, i: nat, k: nat, b: Word)
    requires Linked(sb, table, data, owner) && i < |table| && NDIRECT <= k < MAXFILE
    requires 0 < table[i].addrs[NDIRECT] < |data|
    ensures SlotSet(table, data, table, WithWord(data, table[i].addrs[NDIRECT], k - NDIRECT, b), i, k, b)
  {
    var a := table[i].addrs[NDIRECT];
    GetPutWord(data[a], k - NDIRECT, b);
    assert Slot(table[i], data, INDIRECT) == a && owner[a] == (i, INDIRECT);
    forall j, l | 0 <= j < |table| && 0 <= l <= INDIRECT
      ensures Slot(table[j], WithWord(data, a, k - NDIRECT, b), l) ==
              if j == i && l == k then b else Slot(table[j], data, l)
    {
      assert Slot(table[j], data, INDIRECT) == table[j].addrs[NDIRECT];
    }
  }

  /** Storing a fresh block in an empty word of the indirect block changes no byte of any file. */
  lemma LinkWord(sb: Super, table: Table, data: seq<Block>, owner: Owner, i: nat, k: nat, b: Word)
    requires Linked(sb, table, data, owner) && Fresh(sb, data, owner, b)
    requires i < |table| && NDIRECT <= k < MAXFILE && Slot(table[i], data, k) == 0
    requires 0 < table[i].addrs[NDIRECT] < |data|
    ensures Linked(sb, table, WithWord(data, table[i].addrs[NDIRECT], k - NDIRECT, b), owner[b := (i, k)])
    ensures SlotSet(table, data, table, WithWord(data, table[i].addrs[NDIRECT], k - NDIRECT, b), i, k, b)
    ensures SameBytes(table, data, table, WithWord(data, table[i].addrs[NDIRECT], k - NDIRECT, b))
  {
    var a := table[i].addrs[NDIRECT];
    var data' := WithWord(data, a, k - NDIRECT, b);
    WordSlots(sb, table, data, owner, i, k, b);
    SlotSetLinked(sb, table, data, table, data', owner, i, k, b);
    assert Slot(table[i], data, INDIRECT) == a && owner[a] == (i, INDIRECT);
    forall j, l | 0 <= j < |table| && 0 <= l < MAXFILE
      ensures SlotBlock(table[j], data', l) == SlotBlock(table[j], data, l)
    {
      assert Slot(table[j], data, l) != a;
    }
  }

  // ---------------------------------------------------------------- what mapping a block does

  /** Slots of file i after block k has been mapped: only k, and for a far k the indirect block, may be new. */
  ghost predicate Mapped(t: Table, data: seq<Block>, t': Table, data': seq<Block>, i: nat, k: nat)
    requires i < |t| && k < MAXFILE
  {
    && |t| == |t'|
    && (forall j, l | 0 <= j < |t| && 0 <= l <= INDIRECT && !(j == i && (l == k || l == INDIRECT)) ::
          Slot(t'[j], data', l) == Slot(t[j], data, l))
    && Slot(t'[i], data', k) != 0 && (Slot(t[i], data, k) != 0 ==> Slot(t'[i], data', k) == Slot(t[i], data, k))
    && (Slot(t[i], data, INDIRECT) != 0 || k < NDIRECT ==> Slot(t'[i], data', INDIRECT) == Slot(t[i], data, INDIRECT))
    && (k >= NDIRECT ==> Slot(t'[i], data', INDIRECT) != 0)
  }

  lemma SetAfterSame(t: Table, data0: seq<Block>, data1: seq<Block>, t': Table, data2: seq<Block>, i: nat, k: nat,
                     b: nat)
    requires SameSlots(t, data0, t, data1) && SlotSet(t, data1, t', data2, i, k, b) && |data0| == |data1|
    ensures SlotSet(t, data0, t', data2, i, k, b)
  {
  }

  lemma SameBytesTrans(t0: Table, data0: seq<Block>, t1: Table, data1: seq<Block>, t2: Table, data2: seq<Block>)
    requires SameBytes(t0, data0, t1, data1) && SameBytes(t1, data1, t2, data2)
    ensures SameBytes(t0, data0, t2, data2)
  {
  }

  lemma SetMapped(t: Table, data: seq<Block>, t': Table, data': seq<Block>, i: nat, k: nat, b: nat)
    requires i < |t| && k < MAXFILE && SlotSet(t, data, t', data', i, k, b) && b != 0
    requires Slot(t[i], data, k) == 0 && (k < NDIRECT || Slot(t[i], data, INDIRECT) != 0)
    ensures Mapped(t, data, t', data', i, k) && Slot(t'[i], data', k) == b
  {
  }

  /** Mapping the next block of a file without holes extends it by one block. */
  lemma MappedExtent(t: Table, data: seq<Block>, t': Table, data': seq<Block>, i: nat, k: nat, n: nat)
    requires i < |t| && k < MAXFILE && Mapped(t, data, t', data', i, k)
    requires Extent(t[i], data, n) && k <= n
    ensures Extent(t'[i], data', if k < n then n else n + 1)
  {
  }

  /** The blocks that mapping block k takes: one for it, one for the indirect block, if they are missing. */
  ghost function Missing(d: Dinode, data: seq<Block>, k: nat): nat
    requires k < MAXFILE
  {
    (if Slot(d, data, k) == 0 then 1 else 0) + if k >= NDIRECT && Slot(d, data, INDIRECT) == 0 then 1 else 0
  }

  /** The blocks of a file whose first n data blocks are mapped, the indirect block included. */
  function ExtentBlocks(n: nat): nat {
    n + if n > NDIRECT then 1 else 0
  }

  /** The blocks of a file without holes. */
  function FileBlocks(bytes: nat): nat {
    ExtentBlocks(BlockCount(bytes))
  }

  lemma MoreBytesMoreBlocks(a: nat, b: nat)
    requires a <= b
    ensures FileBlocks(a) <= FileBlocks(b)
  {
  }

  lemma MissingNext(d: Dinode, data: seq<Block>, n: nat, k: nat)
    requires Extent(d, data, n) && k <= n && k < MAXFILE
    ensures ExtentBlocks(if k < n then n else n + 1) == ExtentBlocks(n) + Missing(d, data, k)
  {
  }
}
