/**
 The block and inode layers of fs.c: the free bitmap, the map from file offsets to
 blocks, and reading, writing and truncating files through it.
 */
module FileSystem {
  import opened Common
  import opened Blocks
  import opened Inodes
  import LogDisk

  const MAXOPBLOCKS := LogDisk.MAXOPBLOCKS

  /** What readi and writei report: -1, a byte count, or a kernel panic on the way. */
  datatype Io = Failed | Done(n: nat) | Panicked

  /** Block b with the bytes from o on replaced by s. */
  function Patched(b: Block, o: nat, s: seq<Byte>): Block
    requires o + |s| <= BSIZE
  {
    b[..o] + s + b[o + |s|..]
  }

  /** The state of the block layer at one moment. */
  datatype Snapshot = Snapshot(bitmap: seq<bool>, data: seq<Block>, mem: Table, owner: Owner, logged: set<nat>)

  /** Only the addresses of inode i differ. */
  ghost predicate OnlyAddrs(t: Table, t': Table, i: nat)
    requires i < |t|
  {
    |t| == |t'| && t' == t[i := t[i].(addrs := t'[i].addrs)]
  }

  /** What a successful bmap does: block bn of file i is mapped to a, and no byte of any file changes. */
  ghost predicate MapDone(s: Snapshot, t: Snapshot, i: nat, bn: nat, a: nat)
    requires i < |s.mem| && bn < MAXFILE
  {
    && |t.mem| == |s.mem| && a == Slot(t.mem[i], t.data, bn)
    && Mapped(s.mem, s.data, t.mem, t.data, i, bn)
    && SameBytes(s.mem, s.data, t.mem, t.data)
    && OnlyAddrs(s.mem, t.mem, i)
    && (Slot(s.mem[i], s.data, bn) != 0 ==> s == t)
  }

  /** Block b is the first one of a bitmap block. */
  ghost predicate OnBitmap(b: nat) {
    b % BPB == 0
  }

  lemma FirstBitmap()
    ensures OnBitmap(0)
  {
  }

  lemma NextBitmap(b: nat)
    requires OnBitmap(b)
    ensures OnBitmap(b + BPB)
  {
  }

  lemma SameBitmapBlock(sb: Super, b: nat, bi: nat)
    requires OnBitmap(b) && bi < BPB
    ensures sb.BitmapBlock(b + bi) == sb.BitmapBlock(b)
  {
  }

  lemma AlreadyMapped(s: Snapshot, i: nat, bn: nat)
    requires i < |s.mem| && bn < MAXFILE && Slot(s.mem[i], s.data, bn) != 0
    requires bn >= NDIRECT ==> s.mem[i].addrs[NDIRECT] != 0
    ensures MapDone(s, s, i, bn, Slot(s.mem[i], s.data, bn))
  {
  }

  lemma IndirectWord(sb: Super, mem: Table, data: seq<Block>, owner: Owner, i: nat, bn: nat)
    requires Linked(sb, mem, data, owner) && i < |mem| && NDIRECT <= bn < MAXFILE && mem[i].addrs[NDIRECT] != 0
    ensures mem[i].addrs[NDIRECT] < |data|
    ensures Slot(mem[i], data, bn) == GetWord(data[mem[i].addrs[NDIRECT]], bn - NDIRECT)
  {
    assert Slot(mem[i], data, INDIRECT) in owner;
  }

  /** A fresh block, zeroed from data0 to data1, stored in an empty word of the indirect block. */
  lemma FreshWord(sb: Super, mem: Table, data0: seq<Block>, data1: seq<Block>, owner: Owner, i: nat, bn: nat, b: Word)
    requires Linked(sb, mem, data0, owner) && Linked(sb, mem, data1, owner) && Fresh(sb, data1, owner, b)
    requires SameSlots(mem, data0, mem, data1) && SameBytes(mem, data0, mem, data1)
    requires i < |mem| && NDIRECT <= bn < MAXFILE && mem[i].addrs[NDIRECT] != 0 && Slot(mem[i], data0, bn) == 0
    ensures mem[i].addrs[NDIRECT] < |data1|
    ensures var data2 := WithWord(data1, mem[i].addrs[NDIRECT], bn - NDIRECT, b);
            && Linked(sb, mem, data2, owner[b := (i, bn)])
            && Mapped(mem, data0, mem, data2, i, bn) && Slot(mem[i], data2, bn) == b
            && SameBytes(mem, data0, mem, data2)
  {
    hide SlotSet, SameBytes, Mapped, WithWord;
    var ind := mem[i].addrs[NDIRECT];
    assert Slot(mem[i], data0, INDIRECT) == ind && Slot(mem[i], data0, bn) == Slot(mem[i], data1, bn);
    LinkWord(sb, mem, data1, owner, i, bn, b);
    var data2 := WithWord(data1, ind, bn - NDIRECT, b);
    SetAfterSame(mem, data0, data1, mem, data2, i, bn, b);
    SetMapped(mem, data0, mem, data2, i, bn, b);
    SameBytesTrans(mem, data0, mem, data1, mem, data2);
  }

  /** The blocks bmap logs when it maps block bn of inode d to a through indirect block ind. */
  ghost function MapLog(sb: Super, d: Dinode, data: seq<Block>, bn: nat, a: nat, ind: nat): set<nat>
    requires bn < MAXFILE
  {
    if Slot(d, data, bn) != 0 then {}
    else {sb.BitmapBlock(a), a} +
         if bn < NDIRECT then {} else {ind} + if d.addrs[NDIRECT] == 0 then {sb.BitmapBlock(ind)} else {}
  }

  /** From s to t, every data block that changed and the bitmap block of every bit that changed has been logged. */
  ghost predicate Covered(sb: Super, s: Snapshot, t: Snapshot) {
    && s.logged <= t.logged && |t.data| == |s.data| && |t.bitmap| == |s.bitmap|
    && (forall b | 0 <= b < |s.data| && t.data[b] != s.data[b] :: b in t.logged)
    && (forall b | 0 <= b < |s.bitmap| && t.bitmap[b] != s.bitmap[b] :: sb.BitmapBlock(b) in t.logged)
  }

  lemma CoveredSame(sb: Super, s: Snapshot)
    ensures Covered(sb, s, s)
  {
  }

  lemma CoveredMore(sb: Super, s: Snapshot, m: Snapshot, t: Snapshot)
    requires Covered(sb, s, m) && Covered(sb, m, t)
    ensures Covered(sb, s, t)
  {
  }

  lemma CoveredBlock(sb: Super, s: Snapshot, t: Snapshot, b: nat, x: Block)
    requires b < |s.data| && t.data == s.data[b := x] && t.bitmap == s.bitmap && t.logged == s.logged + {b}
    ensures Covered(sb, s, t)
  {
  }

  lemma CoveredAlloc(sb: Super, s: Snapshot, t: Snapshot, b: nat, x: Block)
    requires b < |s.data| && b < |s.bitmap| && t.data == s.data[b := x] && t.bitmap == s.bitmap[b := true]
    requires t.logged == s.logged + {sb.BitmapBlock(b), b}
    ensures Covered(sb, s, t)
  {
  }

  /** The blocks whose bits are clear. */
  ghost function Clear(bitmap: seq<bool>): set<nat> {
    set b: nat | b < |bitmap| && !bitmap[b]
  }

  /** The n lowest clear bits have been set. */
  ghost predicate Took(bitmap: seq<bool>, bitmap': seq<bool>, n: nat) {
    && |bitmap'| == |bitmap| && Clear(bitmap') <= Clear(bitmap) && |Clear(bitmap)| == |Clear(bitmap')| + n
    && (forall b, c | b in Clear(bitmap') && c in Clear(bitmap) && c !in Clear(bitmap') :: c < b)
  }

  /** An operation that needs n blocks: it succeeds exactly if there are n, and takes the lowest. */
  ghost predicate Paid(bitmap: seq<bool>, bitmap': seq<bool>, n: nat, ok: bool) {
    (ok <==> n <= |Clear(bitmap)|) && (ok ==> Took(bitmap, bitmap', n))
  }

  lemma PaidNothing(bitmap: seq<bool>)
    ensures Paid(bitmap, bitmap, 0, true)
  {
  }

  lemma PaidOne(bitmap: seq<bool>, a: nat)
    requires a < |bitmap| && !bitmap[a] && forall b | 0 <= b < a :: bitmap[b]
    ensures Paid(bitmap, bitmap[a := true], 1, true)
  {
    assert a in Clear(bitmap) && Clear(bitmap[a := true]) == Clear(bitmap) - {a};
  }

  lemma NoneClear(bitmap: seq<bool>, n: nat)
    requires (forall b | 0 <= b < |bitmap| :: bitmap[b]) && n > 0
    ensures Paid(bitmap, bitmap, n, false)
  {
  }

  lemma PaidMore(bitmap: seq<bool>, mid: seq<bool>, bitmap': seq<bool>, n: nat, m: nat, ok: bool)
    requires Paid(bitmap, mid, n, true) && Paid(mid, bitmap', m, ok)
    ensures Paid(bitmap, bitmap', n + m, ok)
  {
  }

  lemma CoveredWord(sb: Super, s: Snapshot, t: Snapshot, ind: nat, w: nat, a: Word)
    requires ind < |s.data| && w < NINDIRECT && t.data == WithWord(s.data, ind, w, a) && t.bitmap == s.bitmap
             && t.logged == s.logged + {ind}
    ensures Covered(sb, s, t)
  {
    CoveredBlock(sb, s, t, ind, PutWord(s.data[ind], w, a));
  }

  lemma MoreLogged(sb: Super, s: Snapshot, m: Snapshot, t: Snapshot)
    requires Covered(sb, s, m) && t.data == m.data && t.bitmap == m.bitmap && m.logged <= t.logged
    ensures Covered(sb, s, t)
  {
  }

  /** Only the indirect block of file i may have a new address. */
  ghost predicate IndirectOnly(t: Table, data: seq<Block>, t': Table, data': seq<Block>, i: nat) {
    |t| == |t'| && forall j, l | 0 <= j < |t| && 0 <= l <= INDIRECT && !(j == i && l == INDIRECT) ::
      Slot(t'[j], data', l) == Slot(t[j], data, l)
  }

  lemma IndirectSame(t: Table, data: seq<Block>, i: nat)
    ensures IndirectOnly(t, data, t, data, i) && SameBytes(t, data, t, data)
  {
  }

  lemma FreshIndirect(sb: Super, mem: Table, data0: seq<Block>, data1: seq<Block>, owner: Owner, i: nat, b: nat)
    requires Linked(sb, mem, data0, owner) && Linked(sb, mem, data1, owner) && Fresh(sb, data1, owner, b)
    requires SameSlots(mem, data0, mem, data1) && SameBytes(mem, data0, mem, data1)
    requires i < |mem| && mem[i].addrs[NDIRECT] == 0
    ensures var mem' := mem[i := WithAddr(mem[i], NDIRECT, b)];
            && Linked(sb, mem', data1, owner[b := (i, INDIRECT)])
            && IndirectOnly(mem, data0, mem', data1, i)
            && SameBytes(mem, data0, mem', data1)
  {
    hide SameBytes;
    LinkIndirect(sb, mem, data1, owner, i, b);
    var mem' := mem[i := WithAddr(mem[i], NDIRECT, b)];
    SetAfterSame(mem, data0, data1, mem', data1, i, INDIRECT, b);
    SameBytesTrans(mem, data0, mem, data1, mem', data1);
  }

  lemma FarSlots(d: Dinode, data: seq<Block>, bn: nat)
    requires NDIRECT <= bn < MAXFILE
    ensures Slot(d, data, INDIRECT) == d.addrs[NDIRECT] && (d.addrs[NDIRECT] == 0 ==> Slot(d, data, bn) == 0)
  {
  }

  lemma FarSlotKept(t: Table, data: seq<Block>, t': Table, data': seq<Block>, i: nat, bn: nat)
    requires i < |t| && IndirectOnly(t, data, t', data', i) && bn < MAXFILE
    ensures Slot(t'[i], data', bn) == Slot(t[i], data, bn)
  {
  }

  lemma NotPaid(bitmap: seq<bool>, bitmap': seq<bool>, n: nat, m: nat)
    requires Paid(bitmap, bitmap', n, false) && n <= m
    ensures Paid(bitmap, bitmap', m, false)
  {
  }

  lemma MapTwice(s: Snapshot, m: Snapshot, t: Snapshot, i: nat, bn: nat, a: nat)
    requires i < |s.mem| == |m.mem| && NDIRECT <= bn < MAXFILE
    requires SameBytes(s.mem, s.data, m.mem, m.data) && OnlyAddrs(s.mem, m.mem, i)
    requires s.mem[i].addrs[NDIRECT] != 0 ==> s == m
    requires IndirectOnly(s.mem, s.data, m.mem, m.data, i)
    requires m.mem[i].addrs[NDIRECT] != 0 && MapDone(m, t, i, bn, a)
    ensures MapDone(s, t, i, bn, a)
  {
  }

  /** The bytes of file i from pos on became src, and no other byte of any file changed. */
  ghost predicate BytesSet(t: Table, data: seq<Block>, t': Table, data': seq<Block>, i: nat, pos: nat, src: seq<Byte>) {
    && |t| == |t'|
    && (forall j, p {:trigger ByteAt(t'[j], data', p)} | 0 <= j < |t| && 0 <= p < MAXBYTES ::
          ByteAt(t'[j], data', p) == if j == i && pos <= p < pos + |src| then src[p - pos] else ByteAt(t[j], data, p))
  }

  lemma PatchBytes(t: Table, data: seq<Block>, t': Table, mid: seq<Block>, data': seq<Block>, i: nat, pos: nat,
                   src: seq<Byte>, a: nat)
    requires i < |t| && pos % BSIZE + |src| <= BSIZE && pos + |src| <= MAXBYTES && src != []
    requires SameBytes(t, data, t', mid)
    requires a == Slot(t'[i], mid, pos / BSIZE) && 0 < a < |mid|
    requires BlockSet(t', mid, data', i, pos / BSIZE, Patched(mid[a], pos % BSIZE, src))
    ensures BytesSet(t, data, t', data', i, pos, src)
  {
  }

  /** Patching the block that bmap returned sets those bytes of the file and moves no slot. */
  lemma WriteMapped(sb: Super, s: Snapshot, m: Snapshot, i: nat, pos: nat, src: seq<Byte>, a: nat)
    requires Linked(sb, m.mem, m.data, m.owner) && 0 < sb.nmeta && i < |s.mem|
    requires pos % BSIZE + |src| <= BSIZE && pos + |src| <= MAXBYTES && src != []
    requires MapDone(s, m, i, pos / BSIZE, a)
    ensures 0 < a < |m.data|
    ensures var data' := m.data[a := Patched(m.data[a], pos % BSIZE, src)];
            && Linked(sb, m.mem, data', m.owner)
            && Mapped(s.mem, s.data, m.mem, data', i, pos / BSIZE)
            && BytesSet(s.mem, s.data, m.mem, data', i, pos, src)
            && Slot(m.mem[i], data', pos / BSIZE) == a
  {
    hide SameBytes, BytesSet, BlockSet;
    assert a in m.owner;
    var x := Patched(m.data[a], pos % BSIZE, src);
    OwnedWrite(sb, m.mem, m.data, m.owner, i, pos / BSIZE, a, x);
    PatchBytes(s.mem, s.data, m.mem, m.data, m.data[a := x], i, pos, src, a);
    MappedThenSame(s.mem, s.data, m.mem, m.data, m.data[a := x], i, pos / BSIZE);
  }

  lemma MappedThenSame(t: Table, data: seq<Block>, t1: Table, data1: seq<Block>, data2: seq<Block>, i: nat, k: nat)
    requires i < |t| && k < MAXFILE && Mapped(t, data, t1, data1, i, k) && SameSlots(t1, data1, t1, data2)
    ensures Mapped(t, data, t1, data2, i, k) && Slot(t1[i], data2, k) == Slot(t1[i], data1, k)
  {
  }

  lemma FreshAddr(sb: Super, mem: Table, data0: seq<Block>, data1: seq<Block>, owner: Owner, i: nat, bn: nat, b: nat)
    requires Linked(sb, mem, data0, owner) && Linked(sb, mem, data1, owner) && Fresh(sb, data1, owner, b)
    requires SameSlots(mem, data0, mem, data1) && SameBytes(mem, data0, mem, data1)
    requires i < |mem| && bn < NDIRECT && mem[i].addrs[bn] == 0
    ensures var mem' := mem[i := WithAddr(mem[i], bn, b)];
            && Linked(sb, mem', data1, owner[b := (i, bn)])
            && Mapped(mem, data0, mem', data1, i, bn) && Slot(mem'[i], data1, bn) == b
            && SameBytes(mem, data0, mem', data1)
  {
    hide SlotSet, SameBytes, Mapped;
    LinkDirect(sb, mem, data1, owner, i, bn, b);
    var mem' := mem[i := WithAddr(mem[i], bn, b)];
    SetAfterSame(mem, data0, data1, mem', data1, i, bn, b);
    SetMapped(mem, data0, mem', data1, i, bn, b);
    SameBytesTrans(mem, data0, mem, data1, mem', data1);
  }

  // ---------------------------------------------------------------- what a write does

  function Wrap(x: nat): Word {
    x % 0x1_0000_0000
  }

  /** Files other than i keep their addresses. */
  ghost predicate OthersKept(t: Table, data: seq<Block>, t': Table, data': seq<Block>, i: nat) {
    |t| == |t'| && forall j, l | 0 <= j < |t| && j != i && 0 <= l <= INDIRECT ::
        Slot(t'[j], data', l) == Slot(t[j], data, l)
  }

  /** Addresses in use stay where they are. */
  ghost predicate SlotsKept(t: Table, data: seq<Block>, t': Table, data': seq<Block>) {
    |t| == |t'| && forall j, l | 0 <= j < |t| && 0 <= l <= INDIRECT && Slot(t[j], data, l) != 0 ::
        Slot(t'[j], data', l) == Slot(t[j], data, l)
  }

  ghost predicate WriteSoFar(s: Snapshot, t: Snapshot, i: nat, off: nat, src: seq<Byte>)
    requires i < |s.mem|
  {
    && BytesSet(s.mem, s.data, t.mem, t.data, i, off, src)
    && OthersKept(s.mem, s.data, t.mem, t.data, i) && SlotsKept(s.mem, s.data, t.mem, t.data)
    && OnlyAddrs(s.mem, t.mem, i)
  }

  /** A completed write: the bytes are in place, and a non-empty write may have moved the end of the file. */
  ghost predicate WriteDone(s: Snapshot, t: Snapshot, i: nat, off: nat, src: seq<Byte>)
    requires i < |s.mem|
  {
    && BytesSet(s.mem, s.data, t.mem, t.data, i, off, src)
    && OthersKept(s.mem, s.data, t.mem, t.data, i) && SlotsKept(s.mem, s.data, t.mem, t.data)
    && t.mem == s.mem[i := s.mem[i].(addrs := t.mem[i].addrs,
                                     size := if src == [] then s.mem[i].size else Max(s.mem[i].size, off + |src|))]
  }

  /** The file c with the bytes from off on replaced by src, growing it if need be. */
  function Spliced(c: seq<Byte>, off: nat, src: seq<Byte>): seq<Byte>
    requires off <= |c|
  {
    c[..off] + src + (if off + |src| < |c| then c[off + |src|..] else [])
  }

  /** writei replaces exactly those bytes of that file, and leaves every other file alone. */
  lemma WriteSplices(s: Snapshot, t: Snapshot, i: nat, off: nat, src: seq<Byte>)
    requires i < |s.mem| && WriteDone(s, t, i, off, src)
    requires forall j | 0 <= j < |s.mem| :: s.mem[j].size <= MAXBYTES
    requires off <= s.mem[i].size && off + |src| <= MAXBYTES
    ensures |t.mem| == |s.mem| && forall j | 0 <= j < |s.mem| :: t.mem[j].size <= MAXBYTES
    ensures Content(t.mem[i], t.data) == Spliced(Content(s.mem[i], s.data), off, src)
    ensures forall j | 0 <= j < |s.mem| && j != i ::
              t.mem[j] == s.mem[j] && Content(t.mem[j], t.data) == Content(s.mem[j], s.data)
    ensures forall j | 0 <= j < |s.mem| && j != i && NoHoles(s.mem[j], s.data) :: NoHoles(t.mem[j], t.data)
  {
  }

  lemma WriteStart(sb: Super, s: Snapshot, i: nat, off: nat)
    requires i < |s.mem|
    ensures WriteSoFar(s, s, i, off, [])
    ensures off <= s.mem[i].size ==> ExtentAfter(s.mem[i].size, off, 0) == BlockCount(s.mem[i].size)
    ensures off <= MAXBYTES ==> Reach(off, 0) <= MAXFILE
                                && WriteLog(sb, s.mem[i], s.data, BlockCount(s.mem[i].size), off / BSIZE,
                                            Reach(off, 0)) == {}
  {
  }

  lemma WriteRound(s: Snapshot, m: Snapshot, t: Snapshot, i: nat, off: nat, sofar: seq<Byte>, part: seq<Byte>)
    requires i < |s.mem| == |m.mem| && WriteSoFar(s, m, i, off, sofar)
    requires off + |sofar| < MAXBYTES && Mapped(m.mem, m.data, t.mem, t.data, i, (off + |sofar|) / BSIZE)
    requires BytesSet(m.mem, m.data, t.mem, t.data, i, off + |sofar|, part) && OnlyAddrs(m.mem, t.mem, i)
    ensures WriteSoFar(s, t, i, off, sofar + part)
  {
  }

  /** Changing a file's size moves no slot and no byte. */
  lemma Resized(sb: Super, mem: Table, data: seq<Block>, owner: Owner, i: nat, size: nat, mem0: Table,
                data0: seq<Block>, off: nat, src: seq<Byte>)
    requires Linked(sb, mem, data, owner) && i < |mem|
    requires BytesSet(mem0, data0, mem, data, i, off, src) && OthersKept(mem0, data0, mem, data, i)
             && SlotsKept(mem0, data0, mem, data)
    ensures var mem' := mem[i := mem[i].(size := size)];
            && Linked(sb, mem', data, owner)
            && BytesSet(mem0, data0, mem', data, i, off, src) && OthersKept(mem0, data0, mem', data, i)
            && SlotsKept(mem0, data0, mem', data)
            && (forall n | Extent(mem[i], data, n) :: Extent(mem'[i], data, n))
  {
    var mem' := mem[i := mem[i].(size := size)];
    assert SameSlots(mem, data, mem', data);
    SameSlotsLinked(sb, mem, data, mem', data, owner);
    forall j, p {:trigger ByteAt(mem'[j], data, p)} | 0 <= j < |mem| && 0 <= p < MAXBYTES
      ensures ByteAt(mem'[j], data, p) == ByteAt(mem[j], data, p)
    {
      assert SlotBlock(mem'[j], data, p / BSIZE) == SlotBlock(mem[j], data, p / BSIZE);
    }
  }

  // ---------------------------------------------------------------- how many blocks a write logs

  /** The number of mapped blocks once the first tot bytes at off have been written. */
  ghost function ExtentAfter(size: nat, off: nat, tot: nat): nat {
    Max(BlockCount(size), BlockCount(off + tot))
  }

  /** One logged block per block visited, and one more per block allocated. */
  ghost function RoundsCost(size: nat, off: nat, tot: nat): int {
    if tot == 0 then 0
    else BlockCount(off + tot) - off / BSIZE + ExtentAfter(size, off, tot) - BlockCount(size)
  }

  /** The most blocks a write of n bytes at off can log: also the indirect block, its bitmap block, the inode. */
  ghost function WriteCost(size: nat, off: nat, n: nat): int {
    RoundsCost(size, off, n) + 3
  }

  /** What writing block k logs when the first n0 blocks were mapped before: the block, and what mapping it needed. */
  ghost function BlockLog(sb: Super, d: Dinode, data: seq<Block>, n0: nat, k: nat): set<nat>
    requires k < MAXFILE
  {
    var a, ind := Slot(d, data, k), d.addrs[NDIRECT];
    {a} + if k < n0 then {}
          else {sb.BitmapBlock(a)} +
               if k < NDIRECT then {} else {ind} + if k == NDIRECT then {sb.BitmapBlock(ind)} else {}
  }

  /** What writing blocks lo to hi-1 of a file logs, in terms of its addresses afterwards. */
  ghost function WriteLog(sb: Super, d: Dinode, data: seq<Block>, n0: nat, lo: nat, hi: nat): set<nat>
    requires hi <= MAXFILE
  {
    if hi <= lo then {} else WriteLog(sb, d, data, n0, lo, hi - 1) + BlockLog(sb, d, data, n0, hi - 1)
  }

  /** The block after the last one touched by the first tot bytes of a write at off. */
  ghost function Reach(off: nat, tot: nat): nat {
    if tot == 0 then off / BSIZE else BlockCount(off + tot)
  }

  lemma {:induction false} WriteLogSame(sb: Super, d: Dinode, data: seq<Block>, d': Dinode, data': seq<Block>, n0: nat,
                                        lo: nat, hi: nat)
    requires hi <= MAXFILE && forall k | 0 <= k < hi :: Slot(d', data', k) == Slot(d, data, k)
    requires hi > NDIRECT ==> d'.addrs[NDIRECT] == d.addrs[NDIRECT]
    ensures WriteLog(sb, d', data', n0, lo, hi) == WriteLog(sb, d, data, n0, lo, hi)
  {
    hide Slot;
    if hi > lo {
      WriteLogSame(sb, d, data, d', data', n0, lo, hi - 1);
    }
  }

  /** Apart from the indirect block and its bitmap block, one block per block written and one more per new block. */
  lemma {:induction false} WriteLogBound(sb: Super, d: Dinode, data: seq<Block>, n0: nat, lo: nat, hi: nat)
      returns (e: set<nat>)
    requires lo <= hi <= MAXFILE && lo <= n0
    ensures WriteLog(sb, d, data, n0, lo, hi) <= e + {d.addrs[NDIRECT], sb.BitmapBlock(d.addrs[NDIRECT])}
    ensures |e| <= hi - lo + if hi > n0 then hi - n0 else 0
  {
    hide Slot, Super.BitmapBlock;
    if hi == lo {
      e := {};
    } else {
      var e0 := WriteLogBound(sb, d, data, n0, lo, hi - 1);
      var a := Slot(d, data, hi - 1);
      e := e0 + {a} + if hi - 1 < n0 then {} else {sb.BitmapBlock(a)};
    }
  }

  /** All that a write of n bytes at off to a file of the given size logs; d and data are as it leaves them. */
  ghost function Logs(sb: Super, inum: nat, d: Dinode, data: seq<Block>, size: nat, off: nat, n: nat): set<nat>
    requires off + n <= MAXBYTES
  {
    WriteLog(sb, d, data, BlockCount(size), off / BSIZE, Reach(off, n)) + if n > 0 && off + n > size
      then {sb.InodeBlock(inum)} else {}
  }

  lemma CostIs(size: nat, off: nat, n: nat)
    requires off <= size && off + n <= MAXBYTES
    ensures var lo, hi, n0 := off / BSIZE, Reach(off, n), BlockCount(size);
            lo <= hi <= MAXFILE && lo <= n0 && WriteCost(size, off, n) == hi - lo + 3 + if hi > n0 then hi - n0 else 0
  {
  }

  lemma LogsBound(sb: Super, inum: nat, d: Dinode, data: seq<Block>, size: nat, off: nat, n: nat)
    requires off <= size && off + n <= MAXBYTES
    ensures |Logs(sb, inum, d, data, size, off, n)| <= WriteCost(size, off, n)
  {
    hide WriteLog, Reach, BlockCount, WriteCost, Super.BitmapBlock, Super.InodeBlock;
    CostIs(size, off, n);
    var ind := d.addrs[NDIRECT];
    var e := WriteLogBound(sb, d, data, BlockCount(size), off / BSIZE, Reach(off, n));
    SubsetSize(Logs(sb, inum, d, data, size, off, n), e + {ind, sb.BitmapBlock(ind), sb.InodeBlock(inum)});
  }

  /** A round ends at the end of the request or at a block boundary. */
  lemma NextChunk(pos: nat, left: nat, m: nat)
    requires left > 0 && m == Min(left, BSIZE - pos % BSIZE)
    ensures 0 < m <= left && pos % BSIZE + m <= BSIZE
    ensures m == left || (pos + m) % BSIZE == 0
  {
  }

  lemma RoundArithmetic(size: nat, off: nat, tot: nat, m: nat)
    requires off <= size && off + tot + m <= MAXBYTES && 0 < m <= BSIZE - (off + tot) % BSIZE
    requires tot == 0 || (off + tot) % BSIZE == 0
    ensures var k := (off + tot) / BSIZE;
            && k <= ExtentAfter(size, off, tot) && BlockCount(off + tot + m) == k + 1
            && (k < ExtentAfter(size, off, tot) ==> ExtentAfter(size, off, tot + m) == ExtentAfter(size, off, tot))
            && (k == ExtentAfter(size, off, tot) ==> ExtentAfter(size, off, tot + m) == ExtentAfter(size, off, tot) + 1)
            && Reach(off, tot) == k && Reach(off, tot + m) == k + 1 && off / BSIZE <= k
            && (k < ExtentAfter(size, off, tot) ==> k < BlockCount(size))
            && (k == ExtentAfter(size, off, tot) ==> BlockCount(size) <= k)
            && (off + tot + m <= size ==> k < ExtentAfter(size, off, tot))
  {
  }

  /** Accounting for one round on a file without holes. */
  lemma SolidRound(sb: Super, m: Snapshot, t: Snapshot, i: nat, size: nat, off: nat, tot: nat, len: nat,
                   logged0: set<nat>)
    requires i < |m.mem| == |t.mem| && off <= size && off + tot + len <= MAXBYTES
    requires 0 < len <= BSIZE - (off + tot) % BSIZE && (tot == 0 || (off + tot) % BSIZE == 0)
    requires Mapped(m.mem, m.data, t.mem, t.data, i, (off + tot) / BSIZE)
    requires Extent(m.mem[i], m.data, ExtentAfter(size, off, tot))
    requires RoundLogged(sb, m, t, i, (off + tot) / BSIZE)
    requires m.logged == logged0 + WriteLog(sb, m.mem[i], m.data, BlockCount(size), off / BSIZE, Reach(off, tot))
    ensures Extent(t.mem[i], t.data, ExtentAfter(size, off, tot + len))
    ensures Reach(off, tot + len) <= MAXFILE
    ensures t.logged == logged0 + WriteLog(sb, t.mem[i], t.data, BlockCount(size), off / BSIZE, Reach(off, tot + len))
    ensures off + tot + len <= size ==> Slot(m.mem[i], m.data, (off + tot) / BSIZE) != 0
    ensures ExtentBlocks(ExtentAfter(size, off, tot + len)) ==
            ExtentBlocks(ExtentAfter(size, off, tot)) + Missing(m.mem[i], m.data, (off + tot) / BSIZE)
  {
    hide WriteLog, RoundLogged, Mapped, Extent, BlockCount, ExtentAfter, Reach, ExtentBlocks, Missing, Slot;
    var k := (off + tot) / BSIZE;
    var ext := ExtentAfter(size, off, tot);
    RoundArithmetic(size, off, tot, len);
    MappedExtent(m.mem, m.data, t.mem, t.data, i, k, ext);
    MissingNext(m.mem[i], m.data, ext, k);
    BelowExtent(m.mem[i], m.data, ext, k);
    RoundExact(sb, m, t, i, BlockCount(size), ext, off / BSIZE, k, logged0);
  }

  lemma BelowExtent(d: Dinode, data: seq<Block>, n: nat, k: nat)
    requires Extent(d, data, n) && k < MAXFILE
    ensures k < n ==> Slot(d, data, k) != 0
  {
  }

  lemma RoundExact(sb: Super, m: Snapshot, t: Snapshot, i: nat, n0: nat, ext: nat, lo: nat, k: nat, logged0: set<nat>)
    requires i < |m.mem| == |t.mem| && lo <= k < MAXFILE && k <= ext && (k < ext ==> k < n0) && (k == ext ==> n0 <= k)
    requires Mapped(m.mem, m.data, t.mem, t.data, i, k) && Extent(m.mem[i], m.data, ext) && RoundLogged(sb, m, t, i, k)
    requires m.logged == logged0 + WriteLog(sb, m.mem[i], m.data, n0, lo, k)
    ensures t.logged == logged0 + WriteLog(sb, t.mem[i], t.data, n0, lo, k + 1)
  {
    IndirectSlot(m.mem[i], m.data);
    IndirectSlot(t.mem[i], t.data);
    hide Slot;
    WriteLogSame(sb, m.mem[i], m.data, t.mem[i], t.data, n0, lo, k);
  }

  /** The blocks paid for after one more round, or the failure of the whole write. */
  lemma RoundPaid(bitmap: seq<bool>, m: Snapshot, bitmap': seq<bool>, i: nat, size: nat, off: nat, tot: nat, len: nat,
                  n: nat, ok: bool)
    requires i < |m.mem| && off <= size && off + n <= MAXBYTES && tot + len <= n
    requires 0 < len <= BSIZE - (off + tot) % BSIZE && (tot == 0 || (off + tot) % BSIZE == 0)
    requires Extent(m.mem[i], m.data, ExtentAfter(size, off, tot))
             && FileBlocks(size) <= ExtentBlocks(ExtentAfter(size, off, tot))
    requires Paid(bitmap, m.bitmap, ExtentBlocks(ExtentAfter(size, off, tot)) - FileBlocks(size), true)
    requires Paid(m.bitmap, bitmap', Missing(m.mem[i], m.data, (off + tot) / BSIZE), ok)
    ensures FileBlocks(size) <= ExtentBlocks(ExtentAfter(size, off, tot + len))
            <= ExtentBlocks(ExtentAfter(size, off, n))
    ensures Paid(bitmap, bitmap', ExtentBlocks(ExtentAfter(size, off, tot + len)) - FileBlocks(size), ok)
    ensures !ok ==> Paid(bitmap, bitmap', ExtentBlocks(ExtentAfter(size, off, n)) - FileBlocks(size), false)
  {
    hide Paid;
    var k := (off + tot) / BSIZE;
    RoundArithmetic(size, off, tot, len);
    MissingNext(m.mem[i], m.data, ExtentAfter(size, off, tot), k);
    PaidMore(bitmap, m.bitmap, bitmap', ExtentBlocks(ExtentAfter(size, off, tot)) - FileBlocks(size),
             Missing(m.mem[i], m.data, k), ok);
    if !ok {
      NotPaid(bitmap, bitmap', ExtentBlocks(ExtentAfter(size, off, tot + len)) - FileBlocks(size),
              ExtentBlocks(ExtentAfter(size, off, n)) - FileBlocks(size));
    }
  }

  /** What one round logs: the data block, and whatever mapping it needed. */
  ghost predicate RoundLogged(sb: Super, m: Snapshot, t: Snapshot, i: nat, k: nat)
    requires i < |m.mem| == |t.mem| && k < MAXFILE
  {
    var a := Slot(t.mem[i], t.data, k);
    t.logged == m.logged + {a} + MapLog(sb, m.mem[i], m.data, k, a, t.mem[i].addrs[NDIRECT])
  }

  /** The blocks a write adds to a file. */
  ghost function Growth(size: nat, off: nat, n: nat): int {
    if n == 0 then 0 else FileBlocks(Max(size, off + n)) - FileBlocks(size)
  }

  lemma GrowthIs(size: nat, off: nat, n: nat)
    requires off <= size
    ensures ExtentBlocks(ExtentAfter(size, off, n)) - FileBlocks(size) == Growth(size, off, n) >= 0
    ensures off + n <= MAXBYTES ==> Reach(off, n) <= MAXFILE
  {
  }

  lemma ResizedLog(sb: Super, d: Dinode, data: seq<Block>, size: nat, n0: nat, lo: nat, hi: nat)
    requires hi <= MAXFILE
    ensures WriteLog(sb, d.(size := size), data, n0, lo, hi) == WriteLog(sb, d, data, n0, lo, hi)
  {
    WriteLogSame(sb, d, data, d.(size := size), data, n0, lo, hi);
  }

  lemma SolidEnd(size: nat, off: nat, n: nat, d: Dinode, data: seq<Block>)
    requires off <= size <= MAXBYTES && off + n <= MAXBYTES
    requires d.size == (if n == 0 then size else Max(size, off + n))
    requires Extent(d, data, ExtentAfter(size, off, n))
    ensures NoHoles(d, data)
    ensures ExtentBlocks(ExtentAfter(size, off, n)) == FileBlocks(d.size)
  {
    assert ExtentAfter(size, off, n) == BlockCount(d.size);
  }

  // ---------------------------------------------------------------- reading

  lemma SameBytesRefl(t: Table, data: seq<Block>)
    ensures SameBytes(t, data, t, data)
  {
  }

  lemma MappedBelowSize(d: Dinode, data: seq<Block>, pos: nat)
    requires NoHoles(d, data) && pos < d.size
    ensures Slot(d, data, pos / BSIZE) != 0
  {
  }

  /** The bytes readi copies out of the block bmap returned are those of the file as it was. */
  lemma ReadChunk(sb: Super, t0: Table, data0: seq<Block>, m: Snapshot, t: Snapshot, owner: Owner, i: nat, pos: nat,
                  len: nat, a: nat)
    requires i < |t0| == |m.mem| && SameBytes(t0, data0, m.mem, m.data) && OnlyAddrs(t0, m.mem, i)
    requires t0[i].size <= MAXBYTES && pos + len <= t0[i].size && pos % BSIZE + len <= BSIZE && len > 0
    requires MapDone(m, t, i, pos / BSIZE, a) && Linked(sb, t.mem, t.data, owner)
    ensures SameBytes(t0, data0, t.mem, t.data) && OnlyAddrs(t0, t.mem, i)
    ensures 0 < a < |t.data|
    ensures t.data[a][pos % BSIZE..pos % BSIZE + len] == Content(t0[i], data0)[pos..pos + len]
  {
    assert a in owner;
    hide Mapped, SameSlots, Linked;
    SameBytesTrans(t0, data0, m.mem, m.data, t.mem, t.data);
    var file := Content(t0[i], data0);
    forall p | pos <= p < pos + len
      ensures file[p] == t.data[a][p - pos + pos % BSIZE]
    {
      SameChunk(pos, p, len);
      assert ByteAt(t.mem[i], t.data, p) == ByteAt(t0[i], data0, p);
    }
  }

  lemma SliceJoin(c: seq<Byte>, a: nat, b: nat, e: nat)
    requires a <= b <= e <= |c|
    ensures c[a..e] == c[a..b] + c[b..e]
  {
  }

  lemma SameChunk(pos: nat, p: nat, len: nat)
    requires pos % BSIZE + len <= BSIZE && pos <= p < pos + len
    ensures p / BSIZE == pos / BSIZE && p % BSIZE == p - pos + pos % BSIZE
  {
  }

  // ---------------------------------------------------------------- truncating

  const NO_ADDRS: Addrs := [0, 0, 0, 0, 0, 0, 0, 0, 0, 0, 0, 0, 0]

  ghost function Emptied(d: Dinode): Dinode {
    d.(addrs := NO_ADDRS, size := 0)
  }

  /** The blocks still in use once slots 0..k-1 of file i have been freed. */
  ghost function Remaining(owner: Owner, i: nat, k: nat): set<nat> {
    set b | b in owner && !(owner[b].0 == i && owner[b].1 < k)
  }

  lemma RemainingIsSubset(owner: Owner, i: nat, k: nat)
    ensures Remaining(owner, i, k) <= owner.Keys
  {
  }

  lemma NothingFreed(sb: Super, bitmap: seq<bool>, owner: Owner, i: nat)
    requires Bits(sb, bitmap, owner.Keys)
    ensures Bits(sb, bitmap, Remaining(owner, i, 0))
  {
  }

  /** Slot k's block, if any, is still marked used, and freeing it is the next step. */
  lemma FreeSlot(sb: Super, t: Table, data: seq<Block>, owner: Owner, i: nat, k: nat, bitmap: seq<bool>)
    requires Linked(sb, t, data, owner) && i < |t| && k <= INDIRECT && 0 < sb.nmeta
    requires Bits(sb, bitmap, Remaining(owner, i, k))
    ensures var a := Slot(t[i], data, k);
            && (a == 0 ==> Bits(sb, bitmap, Remaining(owner, i, k + 1)))
            && (a != 0 ==> a < |bitmap| && bitmap[a] && Bits(sb, bitmap[a := false], Remaining(owner, i, k + 1)))
    ensures k < NDIRECT ==> Slot(t[i], data, k) == t[i].addrs[k]
  {
  }

  /** The bitmap blocks of the blocks in slots 0..k-1 of file i. */
  ghost function FreedLog(sb: Super, owner: Owner, i: nat, k: nat): set<nat> {
    set b | b in owner && owner[b].0 == i && owner[b].1 < k :: sb.BitmapBlock(b)
  }

  lemma FreeLogged(sb: Super, t: Table, data: seq<Block>, owner: Owner, i: nat, k: nat)
    requires Linked(sb, t, data, owner) && i < |t| && k <= INDIRECT && 0 < sb.nmeta
    ensures FreedLog(sb, owner, i, 0) == {}
    ensures var a := Slot(t[i], data, k);
            FreedLog(sb, owner, i, k + 1) == FreedLog(sb, owner, i, k) + if a == 0 then {} else {sb.BitmapBlock(a)}
  {
    hide Slot, Super.BitmapBlock;
    var a := Slot(t[i], data, k);
    assert forall b | b in owner && owner[b].0 == i && owner[b].1 == k :: b == a;
    if a != 0 {
      assert a in owner && owner[a] == (i, k);
      assert sb.BitmapBlock(a) in FreedLog(sb, owner, i, k + 1);
    }
    assert forall b | b in owner && owner[b].0 == i && owner[b].1 < k ::
           sb.BitmapBlock(b) in FreedLog(sb, owner, i, k + 1);
  }

  lemma FreedLogGrows(sb: Super, owner: Owner, i: nat, k: nat, l: nat)
    requires k <= l
    ensures FreedLog(sb, owner, i, k) <= FreedLog(sb, owner, i, l)
  {
    hide Super.BitmapBlock;
  }

  lemma NoIndirectLog(sb: Super, t: Table, data: seq<Block>, owner: Owner, i: nat)
    requires Linked(sb, t, data, owner) && i < |t| && t[i].addrs[NDIRECT] == 0 && 0 < sb.nmeta
    ensures FreedLog(sb, owner, i, INDIRECT + 1) == FreedLog(sb, owner, i, NDIRECT)
  {
    hide Super.BitmapBlock;
    forall b | b in owner && owner[b].0 == i
      ensures owner[b].1 < NDIRECT
    {
      assert Slot(t[i], data, owner[b].1) == b && b != 0;
    }
  }

  lemma IndirectSlot(d: Dinode, data: seq<Block>)
    ensures Slot(d, data, INDIRECT) == d.addrs[NDIRECT]
  {
  }

  lemma NoIndirect(sb: Super, t: Table, data: seq<Block>, owner: Owner, i: nat, bitmap: seq<bool>)
    requires Linked(sb, t, data, owner) && i < |t| && t[i].addrs[NDIRECT] == 0 && 0 < sb.nmeta
    requires Bits(sb, bitmap, Remaining(owner, i, NDIRECT))
    ensures Bits(sb, bitmap, Remaining(owner, i, INDIRECT + 1))
  {
  }

  lemma EmptiedSlots(d: Dinode, data: seq<Block>, k: nat)
    requires k <= INDIRECT
    ensures Slot(Emptied(d), data, k) == 0
  {
  }

  lemma EmptiedFile(d: Dinode, data: seq<Block>)
    ensures NoHoles(Emptied(d), data) && Content(Emptied(d), data) == []
  {
  }

  /** Without file i's addresses, the remaining blocks are owned as before. */
  lemma Truncated(sb: Super, t: Table, data: seq<Block>, owner: Owner, rest: Owner, i: nat)
    requires Linked(sb, t, data, owner) && i < |t|
    requires rest == map b | b in Remaining(owner, i, INDIRECT + 1) && b in owner :: owner[b]
    ensures Linked(sb, t[i := Emptied(t[i])], data, rest)
  {
  }

  lemma BitmapSize(sb: Super, mem: Table, data: seq<Block>, bitmap: seq<bool>, owner: Owner)
    requires Linked(sb, mem, data, owner) && Bits(sb, bitmap, owner.Keys)
    ensures |data| == |bitmap| == sb.size
  {
  }

  lemma FreshBlock(sb: Super, data: seq<Block>, bitmap: seq<bool>, owner: Owner, b: nat)
    requires Bits(sb, bitmap, owner.Keys) && |data| == sb.size && b < sb.size && !bitmap[b] && 0 < sb.nmeta
    ensures b !in owner && b >= sb.nmeta && Fresh(sb, data[b := ZeroBlock()], owner, b)
            && Bits(sb, bitmap[b := true], owner.Keys + {b})
  {
  }

  class FileSys {
    const sb: Super
    var bitmap: seq<bool>
    var data: seq<Block>
    var mem: Table                // the in-memory inodes
    var dinodes: Table            // the inodes on disk
    ghost var owner: Owner        // who names each allocated block
    ghost var logged: set<nat>    // blocks passed to log_write in this transaction

    /** The state after boot: everything as the disk has it. */
    constructor (sb: Super, bitmap: seq<bool>, table: Table, data: seq<Block>, ghost owner: Owner)
      ensures this.sb == sb && this.bitmap == bitmap && this.data == data && mem == dinodes == table
      ensures this.owner == owner && logged == {}
    {
      this.sb, this.bitmap, this.data := sb, bitmap, data;
      mem, dinodes := table, table;
      this.owner, logged := owner, {};
    }

    ghost predicate Valid()
      reads this
    {
      && sb.Valid()
      && Linked(sb, mem, data, owner)
      && Bits(sb, bitmap, owner.Keys)
      && |dinodes| == |mem|
    }

    /** Every bit of the bitmap is set. */
    ghost predicate Full()
      reads this
    {
      forall b | 0 <= b < |bitmap| :: bitmap[b]
    }

    /** Between system calls: no file has holes, and the inodes on disk are those in memory. */
    ghost predicate Clean()
      reads this
    {
      Valid() && dinodes == mem && Solid(mem, data)
    }

    /** Start a transaction. */
    method BeginOp()
      modifies `logged
      ensures logged == {}
    {
      logged := {};
    }

    /** End a transaction that kept to the number of blocks the log reserved for it. */
    method EndOp()
      requires |logged| <= MAXOPBLOCKS
      modifies `logged
      ensures logged == {}
    {
      logged := {};
    }

    ghost function Snap(): Snapshot
      reads this
    {
      Snapshot(bitmap, data, mem, owner, logged)
    }

    /** Allocate a zeroed block: the lowest one whose bit is clear. None is the out-of-blocks panic. */
    method Balloc() returns (r: Option<nat>)
      requires sb.Valid() && |bitmap| == |data| == sb.size
      modifies `bitmap, `data, `logged
      ensures r.None? ==> bitmap == old(bitmap) && data == old(data) && logged == old(logged)
                          && forall b | 0 <= b < sb.size :: bitmap[b]
      ensures r.Some? ==> && r.value < sb.size && !old(bitmap)[r.value]
                          && (forall b | 0 <= b < r.value :: old(bitmap)[b])
                          && bitmap == old(bitmap)[r.value := true]
                          && data == old(data)[r.value := ZeroBlock()]
                          && logged == old(logged) + {sb.BitmapBlock(r.value), r.value}
    {
      hide OnBitmap;
      FirstBitmap();
      var b := 0;
      while b < sb.size
        invariant OnBitmap(b) && bitmap == old(bitmap) && data == old(data) && logged == old(logged)
        invariant forall c | 0 <= c < b && c < sb.size :: bitmap[c]
      {
        var bi := 0;
        while bi < BPB && b + bi < sb.size
          invariant 0 <= bi <= BPB && bitmap == old(bitmap) && data == old(data) && logged == old(logged)
          invariant forall c | 0 <= c < b + bi && c < sb.size :: bitmap[c]
        {
          if !bitmap[b + bi] {
            bitmap := bitmap[b + bi := true];
            logged := logged + {sb.BitmapBlock(b)};
            data := data[b + bi := ZeroBlock()];
            logged := logged + {b + bi};
            SameBitmapBlock(sb, b, bi);
            return Some(b + bi);
          }
          bi := bi + 1;
        }
        NextBitmap(b);
        b := b + BPB;
      }
      r := None;
    }

    /** Free a block; `panicked` if it was free already. */
    method Bfree(b: nat) returns (panicked: bool)
      requires b < |bitmap|
      modifies `bitmap, `logged
      ensures panicked <==> !old(bitmap)[b]
      ensures panicked ==> bitmap == old(bitmap) && logged == old(logged)
      ensures !panicked ==> bitmap == old(bitmap)[b := false] && logged == old(logged) + {sb.BitmapBlock(b)}
    {
      if !bitmap[b] {
        return true;
      }
      bitmap := bitmap[b := false];
      logged := logged + {sb.BitmapBlock(b)};
      panicked := false;
    }

    /** Copy the in-memory inode to disk. */
    method Iupdate(inum: nat)
      requires inum < |dinodes| == |mem|
      modifies `dinodes, `logged
      ensures dinodes == old(dinodes)[inum := mem[inum]]
      ensures logged == old(logged) + {sb.InodeBlock(inum)}
    {
      dinodes := dinodes[inum := mem[inum]];
      logged := logged + {sb.InodeBlock(inum)};
    }

    /** Balloc with its block still unlinked: nobody's slots or bytes move. */
    method BallocFresh() returns (r: Option<nat>)
      requires Valid()
      modifies `bitmap, `data, `logged
      ensures Linked(sb, mem, data, owner)
      ensures r.None? ==> Valid() && Full()
      ensures r.Some? ==> && Fresh(sb, data, owner, r.value)
                          && Bits(sb, bitmap, owner.Keys + {r.value})
                          && SameSlots(mem, old(data), mem, data)
                          && SameBytes(mem, old(data), mem, data)
                          && logged == old(logged) + {sb.BitmapBlock(r.value), r.value}
      ensures Paid(old(bitmap), bitmap, 1, r.Some?)
      ensures r.Some? ==> Covered(sb, old(Snap()), Snap())
    {
      hide Paid, SameSlots, SameBytes, Covered, Linked, Bits, Fresh;
      BitmapSize(sb, mem, data, bitmap, owner);
      r := Balloc();
      if r.None? {
        NoneClear(bitmap, 1);
      } else {
        PaidOne(old(bitmap), r.value);
        CoveredAlloc(sb, old(Snap()), Snap(), r.value, ZeroBlock());
        FreshBlock(sb, old(data), old(bitmap), owner, r.value);
        UnownedWrite(sb, mem, old(data), owner, r.value, ZeroBlock());
      }
    }

    method MapDirect(inum: nat, bn: nat) returns (r: Option<nat>)
      requires Valid() && inum < |mem| && bn < NDIRECT
      modifies `bitmap, `data, `mem, `owner, `logged
      ensures r.None? ==> Full() && Slot(old(mem)[inum], old(data), bn) == 0
      ensures r.Some? ==> Valid() && MapDone(old(Snap()), Snap(), inum, bn, r.value)
      ensures Paid(old(bitmap), bitmap, Missing(old(mem)[inum], old(data), bn), r.Some?)
      ensures r.Some? ==> logged == old(logged) + MapLog(sb, old(mem)[inum], old(data), bn, r.value,
                                                         mem[inum].addrs[NDIRECT])
      ensures r.Some? ==> Covered(sb, old(Snap()), Snap())
    {
      hide SameSlots, SlotSet, SameBytes, Mapped, Linked, Paid, Covered;
      CoveredSame(sb, Snap());
      PaidNothing(bitmap);
      var addr := mem[inum].addrs[bn];
      if addr == 0 {
        var got := BallocFresh();
        if got.None? {
          return None;
        }
        addr := got.value;
        FreshAddr(sb, mem, old(data), data, owner, inum, bn, addr);
        ghost var mid := Snap();
        mem := mem[inum := WithAddr(mem[inum], bn, addr)];
        owner := owner[addr := (inum, bn)];
        assert owner.Keys == old(owner).Keys + {addr};
        MoreLogged(sb, old(Snap()), mid, Snap());
      } else {
        AlreadyMapped(Snap(), inum, bn);
      }
      r := Some(addr);
    }

    /** Load the address of the indirect block, allocating it if necessary. */
    method MapIndirectBlock(inum: nat) returns (r: Option<nat>)
      requires Valid() && inum < |mem|
      modifies `bitmap, `data, `mem, `owner, `logged
      ensures r.None? ==> Full() && old(mem)[inum].addrs[NDIRECT] == 0
      ensures r.Some? ==> Valid() && |mem| == |old(mem)| && r.value == mem[inum].addrs[NDIRECT] != 0
      ensures r.Some? ==> SameBytes(old(mem), old(data), mem, data) && OnlyAddrs(old(mem), mem, inum)
      ensures r.Some? && old(mem)[inum].addrs[NDIRECT] != 0 ==> Snap() == old(Snap())
      ensures r.Some? ==> IndirectOnly(old(mem), old(data), mem, data, inum)
      ensures Paid(old(bitmap), bitmap, if old(mem)[inum].addrs[NDIRECT] == 0 then 1 else 0, r.Some?)
      ensures r.Some? && old(mem)[inum].addrs[NDIRECT] == 0 ==>
              logged == old(logged) + {sb.BitmapBlock(r.value), r.value}
      ensures r.Some? ==> Covered(sb, old(Snap()), Snap())
    {
      hide SameSlots, SlotSet, SameBytes, Linked, IndirectOnly, Paid, Covered;
      CoveredSame(sb, Snap());
      PaidNothing(bitmap);
      IndirectSame(mem, data, inum);
      var addr := mem[inum].addrs[NDIRECT];
      if addr == 0 {
        var got := BallocFresh();
        if got.None? {
          return None;
        }
        addr := got.value;
        FreshIndirect(sb, mem, old(data), data, owner, inum, addr);
        ghost var mid := Snap();
        mem := mem[inum := WithAddr(mem[inum], NDIRECT, addr)];
        owner := owner[addr := (inum, INDIRECT)];
        assert owner.Keys == old(owner).Keys + {addr};
        MoreLogged(sb, old(Snap()), mid, Snap());
      }
      r := Some(addr);
    }

    method MapWord(inum: nat, bn: nat) returns (r: Option<nat>)
      requires Valid() && inum < |mem| && NDIRECT <= bn < MAXFILE && mem[inum].addrs[NDIRECT] != 0
      modifies `bitmap, `data, `mem, `owner, `logged
      ensures r.None? ==> Full() && Slot(old(mem)[inum], old(data), bn) == 0
      ensures r.Some? ==> Valid() && MapDone(old(Snap()), Snap(), inum, bn, r.value)
      ensures Paid(old(bitmap), bitmap, if Slot(old(mem)[inum], old(data), bn) == 0 then 1 else 0, r.Some?)
      ensures r.Some? ==> logged == old(logged) + MapLog(sb, old(mem)[inum], old(data), bn, r.value,
                                                         mem[inum].addrs[NDIRECT])
      ensures mem == old(mem)
      ensures r.Some? ==> Covered(sb, old(Snap()), Snap())
    {
      hide SameSlots, SlotSet, SameBytes, Mapped, Linked, WithWord, Slot, Paid, Covered;
      CoveredSame(sb, Snap());
      PaidNothing(bitmap);
      var ind := mem[inum].addrs[NDIRECT];
      IndirectWord(sb, mem, data, owner, inum, bn);
      var addr := GetWord(data[ind], bn - NDIRECT);
      if addr == 0 {
        var got := BallocFresh();
        if got.None? {
          return None;
        }
        addr := got.value;
        FreshWord(sb, mem, old(data), data, owner, inum, bn, addr);
        ghost var mid := Snap();
        data := WithWord(data, ind, bn - NDIRECT, addr);
        owner := owner[addr := (inum, bn)];
        logged := logged + {ind};
        assert owner.Keys == old(owner).Keys + {addr};
        CoveredWord(sb, mid, Snap(), ind, bn - NDIRECT, addr);
        CoveredMore(sb, old(Snap()), mid, Snap());
      } else {
        AlreadyMapped(Snap(), inum, bn);
      }
      r := Some(addr);
    }

    /**
     The disk block of file block bn, allocating it (and the indirect block) if there is
     none. None is a panic: bn is out of range, or the disk is full.
     */
    method Bmap(inum: nat, bn: nat) returns (r: Option<nat>)
      requires Valid() && inum < |mem|
      modifies `bitmap, `data, `mem, `owner, `logged
      ensures r.None? ==> bn >= MAXFILE || (Full() && Slot(old(mem)[inum], old(data), bn) == 0)
      ensures r.Some? ==> bn < MAXFILE && Valid() && MapDone(old(Snap()), Snap(), inum, bn, r.value)
      ensures bn < MAXFILE ==> Paid(old(bitmap), bitmap, Missing(old(mem)[inum], old(data), bn), r.Some?)
      ensures r.Some? ==> Covered(sb, old(Snap()), Snap())
      ensures r.Some? ==> logged == old(logged) + MapLog(sb, old(mem)[inum], old(data), bn, r.value,
                                                         mem[inum].addrs[NDIRECT])
    {
      hide SameSlots, SameBytes, Mapped, Linked, Bits, Paid, IndirectOnly, Slot, Covered;
      if bn < NDIRECT {
        r := MapDirect(inum, bn);
        return;
      }
      if bn < MAXFILE {
        FarSlots(mem[inum], data, bn);
        var ind := MapIndirectBlock(inum);
        if ind.None? {
          NotPaid(old(bitmap), bitmap, 1, 2);
          return None;
        }
        ghost var mid := Snap();
        FarSlotKept(old(mem), old(data), mem, data, inum, bn);
        r := MapWord(inum, bn);
        PaidMore(old(bitmap), mid.bitmap, bitmap, if old(mem)[inum].addrs[NDIRECT] == 0 then 1 else 0,
                 if Slot(old(mem)[inum], old(data), bn) == 0 then 1 else 0, r.Some?);
        if r.Some? {
          MapTwice(old(Snap()), mid, Snap(), inum, bn, r.value);
          CoveredMore(sb, old(Snap()), mid, Snap());
        }
        return;
      }
      r := None;
    }

    /** One round of writei's loop: fill in part of one block of the file, and log it. */
    method WriteBlock(inum: nat, pos: nat, src: seq<Byte>) returns (ok: bool)
      requires Valid() && inum < |mem| && pos % BSIZE + |src| <= BSIZE && pos + |src| <= MAXBYTES && src != []
      modifies `bitmap, `data, `mem, `owner, `logged
      ensures !ok ==> Full()
      ensures ok ==> && Valid()
                     && Mapped(old(mem), old(data), mem, data, inum, pos / BSIZE)
                     && BytesSet(old(mem), old(data), mem, data, inum, pos, src)
                     && OnlyAddrs(old(mem), mem, inum)
                     && (Slot(old(mem)[inum], old(data), pos / BSIZE) != 0 ==> mem == old(mem))
      ensures Paid(old(bitmap), bitmap, Missing(old(mem)[inum], old(data), pos / BSIZE), ok)
      ensures ok ==> RoundLogged(sb, old(Snap()), Snap(), inum, pos / BSIZE) && Covered(sb, old(Snap()), Snap())
    {
      hide SameSlots, Mapped, SameBytes, BytesSet, BlockSet, Linked, Bits, Slot, Paid, Missing, MapLog, Covered;
      var got := Bmap(inum, pos / BSIZE);
      if got.None? {
        return false;
      }
      var a := got.value;
      WriteMapped(sb, old(Snap()), Snap(), inum, pos, src, a);
      ghost var mid := Snap();
      data := data[a := Patched(data[a], pos % BSIZE, src)];
      logged := logged + {a};
      CoveredBlock(sb, mid, Snap(), a, data[a]);
      CoveredMore(sb, old(Snap()), mid, Snap());
      ok := true;
    }

    /** The copy loop of readi. */
    method ReadLoop(inum: nat, off: nat, n: nat) returns (ok: bool, dst: seq<Byte>)
      requires Valid() && inum < |mem| && off + n <= mem[inum].size <= MAXBYTES
      modifies `bitmap, `data, `mem, `owner, `logged
      ensures !ok ==> Full() && !NoHoles(old(mem)[inum], old(data))
      ensures ok ==> && dst == Content(old(mem)[inum], old(data))[off..off + n]
                     && Valid() && SameBytes(old(mem), old(data), mem, data) && OnlyAddrs(old(mem), mem, inum)
      ensures ok && NoHoles(old(mem)[inum], old(data)) ==> Snap() == old(Snap())
    {
      hide SameBytes, Linked, Bits, Slot, NoHoles, ByteAt, MapLog, Mapped, SameSlots, Min, Paid, Missing, Covered;
      dst := [];
      ghost var file := Content(mem[inum], data);
      var tot := 0;
      SameBytesRefl(mem, data);
      while tot < n
        invariant 0 <= tot <= n && Valid() && |mem| == |old(mem)|
        invariant SameBytes(old(mem), old(data), mem, data) && OnlyAddrs(old(mem), mem, inum)
        invariant dst == file[off..off + tot]
        invariant NoHoles(old(mem)[inum], old(data)) ==> Snap() == old(Snap())
      {
        var pos := off + tot;
        var m := Min(n - tot, BSIZE - pos % BSIZE);
        NextChunk(pos, n - tot, m);
        if NoHoles(mem[inum], data) {
          MappedBelowSize(mem[inum], data, pos);
        }
        ghost var before := Snap();
        var got := Bmap(inum, pos / BSIZE);
        if got.None? {
          return false, dst;
        }
        ReadChunk(sb, old(mem), old(data), before, Snap(), owner, inum, pos, m, got.value);
        SliceJoin(file, off, pos, pos + m);
        dst := dst + data[got.value][pos % BSIZE..pos % BSIZE + m];
        tot := tot + m;
      }
      ok := true;
    }

    /** Read up to n bytes from byte off of the file. */
    method Readi(inum: nat, off: Word, n: Word) returns (r: Io, dst: seq<Byte>)
      requires Valid() && inum < |mem| && mem[inum].size <= MAXBYTES
      modifies `bitmap, `data, `mem, `owner, `logged
      ensures r == Failed <==> off > old(mem)[inum].size || off + n >= 0x1_0000_0000
      ensures r == Failed ==> Snap() == old(Snap())
      ensures r == Panicked ==> Full() && !NoHoles(old(mem)[inum], old(data))
      ensures r.Done? ==> && r.n == Min(n, old(mem)[inum].size - off)
                          && dst == Content(old(mem)[inum], old(data))[off..off + r.n]
                          && Valid() && SameBytes(old(mem), old(data), mem, data) && OnlyAddrs(old(mem), mem, inum)
      ensures r.Done? && NoHoles(old(mem)[inum], old(data)) ==> Snap() == old(Snap())
    {
      hide SameBytes, Linked, Bits, Slot, Extent, ByteAt, BlockCount;
      if off > mem[inum].size || Wrap(off + n) < off {
        return Failed, [];
      }
      var left := if Wrap(off + n) > mem[inum].size then mem[inum].size - off else n;
      var ok;
      ok, dst := ReadLoop(inum, off, left);
      r := if ok then Done(left) else Panicked;
    }

    /** The copy loop of writei. */
    method WriteLoop(inum: nat, src: seq<Byte>, off: nat, n: nat) returns (ok: bool)
      requires Valid() && inum < |mem| && |src| == n && off <= mem[inum].size && off + n <= MAXBYTES
      modifies `bitmap, `data, `mem, `owner, `logged
      ensures !ok ==> Full()
      ensures ok ==> Valid() && WriteSoFar(old(Snap()), Snap(), inum, off, src) && Covered(sb, old(Snap()), Snap())
      ensures NoHoles(old(mem)[inum], old(data)) ==>
                var size := old(mem)[inum].size;
                && Paid(old(bitmap), bitmap, ExtentBlocks(ExtentAfter(size, off, n)) - FileBlocks(size), ok)
                && (ok ==> && Extent(mem[inum], data, ExtentAfter(size, off, n))
                           && (off + n <= size ==> mem == old(mem))
                           && logged == old(logged) + WriteLog(sb, mem[inum], data, BlockCount(size), off / BSIZE,
                                                               Reach(off, n)))
    {
      hide Mapped, SameBytes, BytesSet, Linked, Bits, Slot, Extent, RoundLogged, OthersKept, SlotsKept, BlockCount,
           ExtentAfter, WriteLog, Reach, Paid, Missing, ExtentBlocks, Covered;
      var tot := 0;
      ghost var size := mem[inum].size;
      ghost var solid := NoHoles(mem[inum], data);
      WriteStart(sb, Snap(), inum, off);
      PaidNothing(bitmap);
      CoveredSame(sb, Snap());
      while tot < n
        invariant 0 <= tot <= n && Valid() && |mem| == |old(mem)|
        invariant tot == 0 || tot == n || (off + tot) % BSIZE == 0
        invariant WriteSoFar(old(Snap()), Snap(), inum, off, src[..tot]) && Covered(sb, old(Snap()), Snap())
        invariant solid ==> Extent(mem[inum], data, ExtentAfter(size, off, tot))
        invariant solid && off + tot <= size ==> mem == old(mem)
        invariant solid ==> && FileBlocks(size) <= ExtentBlocks(ExtentAfter(size, off, tot))
                            && Paid(old(bitmap), bitmap, ExtentBlocks(ExtentAfter(size, off, tot)) - FileBlocks(size),
                                    true)
        invariant solid ==> Reach(off, tot) <= MAXFILE
                            && logged == old(logged) + WriteLog(sb, mem[inum], data, BlockCount(size), off / BSIZE,
                                                                Reach(off, tot))
      {
        var m := Min(n - tot, BSIZE - (off + tot) % BSIZE);
        NextChunk(off + tot, n - tot, m);
        var part := src[tot..tot + m];
        ghost var before := Snap();
        ok := WriteBlock(inum, off + tot, part);
        if solid {
          RoundPaid(old(bitmap), before, bitmap, inum, size, off, tot, m, n, ok);
        }
        if !ok {
          return;
        }
        assert src[..tot + m] == src[..tot] + part;
        WriteRound(old(Snap()), before, Snap(), inum, off, src[..tot], part);
        CoveredMore(sb, old(Snap()), before, Snap());
        if solid {
          SolidRound(sb, before, Snap(), inum, size, off, tot, m, old(logged));
        }
        tot := tot + m;
      }
      assert src[..n] == src;
      ok := true;
    }

    /** Write src at byte off of the file. */
    method Writei(inum: nat, src: seq<Byte>, off: Word, n: Word) returns (r: Io)
      requires Valid() && inum < |mem| && mem[inum].size <= MAXBYTES && |src| == n
      modifies `bitmap, `data, `mem, `dinodes, `owner, `logged
      ensures r == Failed <==> off > old(mem)[inum].size || off + n > MAXBYTES
      ensures r == Failed ==> Snap() == old(Snap()) && dinodes == old(dinodes)
      ensures r == Panicked ==> Full()
      ensures r.Done? ==> r.n == n && Valid() && WriteDone(old(Snap()), Snap(), inum, off, src)
                          && Covered(sb, old(Snap()), Snap())
      ensures r.Done? ==> dinodes == old(dinodes)
                            || (dinodes == old(dinodes)[inum := mem[inum]] && sb.InodeBlock(inum) in logged)
      ensures r.Done? && NoHoles(old(mem)[inum], old(data)) ==>
                && NoHoles(mem[inum], data)
                && (old(dinodes) == old(mem) ==> dinodes == mem)
                && logged == old(logged) + Logs(sb, inum, mem[inum], data, old(mem)[inum].size, off, n)
      ensures r != Failed && NoHoles(old(mem)[inum], old(data)) ==>
                Paid(old(bitmap), bitmap, Growth(old(mem)[inum].size, off, n), r.Done?)
    {
      hide SameBytes, BytesSet, Linked, Bits, Slot, Extent, OthersKept, SlotsKept, BlockCount, ExtentAfter, WriteLog,
           Reach, Paid, ExtentBlocks, Covered;
      if off > mem[inum].size || Wrap(off + n) < off {
        return Failed;
      }
      if Wrap(off + n) > MAXBYTES {
        return Failed;
      }
      ghost var size := mem[inum].size;
      GrowthIs(size, off, n);
      var ok := WriteLoop(inum, src, off, n);
      if !ok {
        return Panicked;
      }
      ghost var d := mem[inum];
      if n > 0 && off + n > mem[inum].size {
        Resized(sb, mem, data, owner, inum, off + n, old(mem), old(data), off, src);
        ghost var mid := Snap();
        mem := mem[inum := mem[inum].(size := off + n)];
        Iupdate(inum);
        MoreLogged(sb, old(Snap()), mid, Snap());
      }
      if NoHoles(old(mem)[inum], old(data)) {
        SolidEnd(size, off, n, mem[inum], data);
        ResizedLog(sb, d, data, mem[inum].size, BlockCount(size), off / BSIZE, Reach(off, n));
      }
      r := Done(n);
    }

    /**
     Discard a file's contents. Its blocks, and only its blocks, become free; freeing a
     block that is already free (the panic in bfree) never happens.
     */
    method Itrunc(inum: nat) returns (panicked: bool)
      requires Valid() && inum < |mem|
      modifies `bitmap, `mem, `dinodes, `owner, `logged
      ensures !panicked && Valid()
      ensures mem == old(mem)[inum := Emptied(old(mem)[inum])]
      ensures dinodes == old(dinodes)[inum := mem[inum]]
      ensures owner.Keys == Remaining(old(owner), inum, INDIRECT + 1)
      ensures NoHoles(mem[inum], data) && Content(mem[inum], data) == []
      ensures old(Clean()) ==> Clean()
      ensures logged == old(logged) + FreedLog(sb, old(owner), inum, INDIRECT + 1) + {sb.InodeBlock(inum)}
    {
      hide Linked, Bits, Slot, Remaining, NoHoles, FreedLog, Super.BitmapBlock, Super.InodeBlock;
      ghost var t0 := mem;
      var i := 0;
      NothingFreed(sb, bitmap, owner, inum);
      FreeLogged(sb, t0, data, owner, inum, 0);
      while i < NDIRECT
        invariant 0 <= i <= NDIRECT && |mem| == |t0| && mem == t0[inum := t0[inum].(addrs := mem[inum].addrs)]
        invariant forall l | 0 <= l <= NDIRECT :: mem[inum].addrs[l] == if l < i then 0 else t0[inum].addrs[l]
        invariant Bits(sb, bitmap, Remaining(owner, inum, i))
        invariant owner == old(owner) && dinodes == old(dinodes) && logged == old(logged) + FreedLog(sb, owner, inum, i)
      {
        FreeSlot(sb, t0, data, owner, inum, i, bitmap);
        FreeLogged(sb, t0, data, owner, inum, i);
        if mem[inum].addrs[i] != 0 {
          panicked := Bfree(mem[inum].addrs[i]);
          assert !panicked;
          mem := mem[inum := WithAddr(mem[inum], i, 0)];
        }
        i := i + 1;
      }
      FreedLogGrows(sb, owner, inum, NDIRECT, INDIRECT + 1);
      panicked := FreeIndirect(inum, t0);
      mem := mem[inum := mem[inum].(size := 0)];
      assert mem[inum].addrs == NO_ADDRS;
      assert mem == t0[inum := Emptied(t0[inum])];
      owner := map b | b in Remaining(owner, inum, INDIRECT + 1) && b in owner :: owner[b];
      Truncated(sb, t0, data, old(owner), owner, inum);
      EmptiedFile(t0[inum], data);
      RemainingIsSubset(old(owner), inum, INDIRECT + 1);
      assert owner.Keys == Remaining(old(owner), inum, INDIRECT + 1);
      Iupdate(inum);
    }

    /** The second half of itrunc: the blocks named by the indirect block, then that block itself. */
    method FreeIndirect(inum: nat, ghost t0: Table) returns (panicked: bool)
      requires sb.Valid() && inum < |mem| == |t0| && Linked(sb, t0, data, owner)
      requires mem == t0[inum := t0[inum].(addrs := mem[inum].addrs)]
               && mem[inum].addrs[NDIRECT] == t0[inum].addrs[NDIRECT]
      requires forall l | 0 <= l < NDIRECT :: mem[inum].addrs[l] == 0
      requires Bits(sb, bitmap, Remaining(owner, inum, NDIRECT))
      modifies `bitmap, `mem, `logged
      ensures !panicked && |mem| == |t0| && mem == t0[inum := t0[inum].(addrs := mem[inum].addrs)]
      ensures forall l | 0 <= l <= NDIRECT :: mem[inum].addrs[l] == 0
      ensures Bits(sb, bitmap, Remaining(owner, inum, INDIRECT + 1))
      ensures logged + FreedLog(sb, owner, inum, NDIRECT) == old(logged) + FreedLog(sb, owner, inum, INDIRECT + 1)
              && old(logged) <= logged
    {
      hide Linked, Bits, Slot, Remaining, FreedLog, Super.BitmapBlock;
      panicked := false;
      var ind := mem[inum].addrs[NDIRECT];
      if ind == 0 {
        NoIndirect(sb, t0, data, owner, inum, bitmap);
        NoIndirectLog(sb, t0, data, owner, inum);
        return;
      }
      var j := 0;
      while j < NINDIRECT
        invariant 0 <= j <= NINDIRECT && !panicked && mem == old(mem)
        invariant Bits(sb, bitmap, Remaining(owner, inum, NDIRECT + j))
        invariant logged + FreedLog(sb, owner, inum, NDIRECT) == old(logged) + FreedLog(sb, owner, inum, NDIRECT + j)
                  && old(logged) <= logged
      {
        FreeLogged(sb, t0, data, owner, inum, NDIRECT + j);
        IndirectWord(sb, t0, data, owner, inum, NDIRECT + j);
        FreeSlot(sb, t0, data, owner, inum, NDIRECT + j, bitmap);
        var a := GetWord(data[ind], j);
        if a != 0 {
          panicked := Bfree(a);
          assert !panicked;
        }
        j := j + 1;
      }
      FreeSlot(sb, t0, data, owner, inum, INDIRECT, bitmap);
      FreeLogged(sb, t0, data, owner, inum, INDIRECT);
      IndirectSlot(t0[inum], data);
      panicked := Bfree(ind);
      mem := mem[inum := WithAddr(mem[inum], NDIRECT, 0)];
    }
  }
}
