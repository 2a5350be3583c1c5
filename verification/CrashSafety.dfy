/**
 A write of any length and the log together. filewrite's transactions are committed one
 after the other; the machine may stop after any single disk write of any commit, and
 recovery may itself be cut short any number of times. What comes back is a sound file
 system in which a whole number of chunks has been written and nothing else has changed.
 */
module CrashSafety {
  import opened Common
  import opened Blocks
  import opened Inodes
  import opened LogDisk
  import opened FileWrite
  import opened DiskFormat
  import FileSystem

  /** How the bits of one bitmap block and the inodes of one inode block are laid out in bytes. */
  datatype Format = Format(bits: seq<bool> -> Block, inodes: seq<Dinode> -> Block)

  /** The log lies before the inodes, and one operation's blocks fit it. */
  ghost predicate Layout(g: Geometry, sb: Super) {
    g.Valid() && sb.Valid() && g.nblocks == sb.size && g.start + g.size <= sb.inodestart && MAXOPBLOCKS <= g.Capacity()
  }

  ghost predicate Sizes(sb: Super, st: Stored) {
    |st.bitmap| == |st.data| == sb.size && |st.inodes| == sb.ninodes
  }

  /** The bits of the j-th bitmap block, and the inodes of the j-th inode block. */
  function BitsOf(bitmap: seq<bool>, j: nat): seq<bool> {
    bitmap[Min(BPB * j, |bitmap|)..Min(BPB * j + BPB, |bitmap|)]
  }

  function InodesOf(inodes: Table, j: nat): Table {
    inodes[Min(IPB * j, |inodes|)..Min(IPB * j + IPB, |inodes|)]
  }

  /** What block b of the file system holds. */
  function BlockOf(sb: Super, fmt: Format, st: Stored, b: nat): Block
    requires b < |st.data|
  {
    if sb.nmeta <= b then st.data[b]
    else if BitmapPart(sb, b) then fmt.bits(BitsOf(st.bitmap, b - sb.bmapstart))
    else if InodePart(sb, b) then fmt.inodes(InodesOf(st.inodes, b - sb.inodestart))
    else ZeroBlock()
  }

  /** Disk d holds the file system st. */
  ghost predicate Shows(sb: Super, fmt: Format, d: Disk, st: Stored) {
    Sizes(sb, st) && |d| == sb.size && forall b | 0 <= b < sb.size && FsBlock(sb, b) :: d[b] == BlockOf(sb, fmt, st, b)
  }

  // ---------------------------------------------------------------- what a transaction leaves alone

  lemma BitsPart(x: nat, j: nat)
    requires BPB * j <= x < BPB * j + BPB
    ensures x / BPB == j
  {
  }

  lemma InodesPart(x: nat, j: nat)
    requires IPB * j <= x < IPB * j + IPB
    ensures x / IPB == j
  {
  }

  lemma BitSame(sb: Super, s: Stored, t: Stored, logged: set<nat>, x: nat, j: nat)
    requires Transaction(sb, s, t, logged) && sb.bmapstart + j !in logged && x < sb.size && x / BPB == j
    ensures |s.bitmap| == |t.bitmap| == sb.size && t.bitmap[x] == s.bitmap[x]
  {
    hide FsBlock;
  }

  lemma InodeSame(sb: Super, s: Stored, t: Stored, logged: set<nat>, x: nat, j: nat)
    requires Transaction(sb, s, t, logged) && sb.inodestart + j !in logged && x < sb.ninodes && x / IPB == j
    ensures |s.inodes| == |t.inodes| == sb.ninodes && t.inodes[x] == s.inodes[x]
  {
    hide FsBlock;
  }

  lemma TransactionSizes(sb: Super, s: Stored, t: Stored, logged: set<nat>)
    requires Transaction(sb, s, t, logged)
    ensures Sizes(sb, s) && Sizes(sb, t)
  {
  }

  lemma BitsUnchanged(sb: Super, s: Stored, t: Stored, logged: set<nat>, j: nat)
    requires Transaction(sb, s, t, logged) && sb.bmapstart + j !in logged
    ensures BitsOf(t.bitmap, j) == BitsOf(s.bitmap, j)
  {
    hide Transaction;
    TransactionSizes(sb, s, t, logged);
    forall x | BPB * j <= x < BPB * j + BPB && x < sb.size
      ensures t.bitmap[x] == s.bitmap[x]
    {
      BitsPart(x, j);
      BitSame(sb, s, t, logged, x, j);
    }
  }

  lemma InodesUnchanged(sb: Super, s: Stored, t: Stored, logged: set<nat>, j: nat)
    requires Transaction(sb, s, t, logged) && sb.inodestart + j !in logged
    ensures InodesOf(t.inodes, j) == InodesOf(s.inodes, j)
  {
    hide Transaction;
    TransactionSizes(sb, s, t, logged);
    forall x | IPB * j <= x < IPB * j + IPB && x < sb.ninodes
      ensures t.inodes[x] == s.inodes[x]
    {
      InodesPart(x, j);
      InodeSame(sb, s, t, logged, x, j);
    }
  }

  /** A block that was not logged holds what it held. */
  lemma Unlogged(sb: Super, fmt: Format, s: Stored, t: Stored, logged: set<nat>, b: nat)
    requires Transaction(sb, s, t, logged) && b < sb.size && b !in logged && FsBlock(sb, b)
    ensures BlockOf(sb, fmt, t, b) == BlockOf(sb, fmt, s, b)
  {
    hide BitsOf, InodesOf;
    if sb.nmeta <= b {
    } else if BitmapPart(sb, b) {
      BitsUnchanged(sb, s, t, logged, b - sb.bmapstart);
    } else {
      InodesUnchanged(sb, s, t, logged, b - sb.inodestart);
    }
  }

  // ---------------------------------------------------------------- one commit

  /** The log's header lists each logged block once, in some order. */
  ghost predicate Lists(hdr: seq<nat>, logged: set<nat>) {
    multiset(hdr) == multiset(logged)
  }

  lemma Listed(hdr: seq<nat>, logged: set<nat>)
    requires Lists(hdr, logged)
    ensures |hdr| == |logged| && forall b :: b in hdr <==> b in logged
  {
    assert |multiset(hdr)| == |multiset(logged)|;
    forall b
      ensures b in hdr <==> b in logged
    {
      assert b in multiset(hdr) <==> b in multiset(logged);
    }
  }

  /** The cached blocks that commit copies to the log. */
  ghost function Cached(sb: Super, fmt: Format, st: Stored, hdr: seq<nat>): seq<Block>
    requires forall i | 0 <= i < |hdr| :: hdr[i] < |st.data|
  {
    seq(|hdr|, i requires 0 <= i < |hdr| => BlockOf(sb, fmt, st, hdr[i]))
  }

  lemma FsIsHome(g: Geometry, sb: Super, b: nat)
    requires Layout(g, sb) && FsBlock(sb, b)
    ensures g.Home(b)
  {
  }

  lemma Fits(g: Geometry, sb: Super, s: Stored, t: Stored, logged: set<nat>, hdr: seq<nat>)
    requires Layout(g, sb) && Transaction(sb, s, t, logged) && Lists(hdr, logged)
    ensures Loggable(g, hdr) && (forall i | 0 <= i < |hdr| :: hdr[i] < |t.data|) && Sizes(sb, s) && Sizes(sb, t)
  {
    hide FsBlock;
    Listed(hdr, logged);
    forall i | 0 <= i < |hdr|
      ensures g.Home(hdr[i]) && hdr[i] < |t.data|
    {
      assert hdr[i] in logged;
      FsIsHome(g, sb, hdr[i]);
      FsInside(sb, hdr[i]);
    }
  }

  lemma FsInside(sb: Super, b: nat)
    requires FsBlock(sb, b)
    ensures b < sb.size
  {
  }

  /** The home blocks that a commit installs are those of the new file system. */
  lemma OverlayShows(g: Geometry, sb: Super, fmt: Format, d: Disk, s: Stored, t: Stored, logged: set<nat>,
                     hdr: seq<nat>)
    requires Layout(g, sb) && OnDisk(g, d) && Shows(sb, fmt, d, s) && Transaction(sb, s, t, logged)
             && Lists(hdr, logged)
    requires forall i | 0 <= i < |hdr| :: hdr[i] < |t.data|
    ensures Shows(sb, fmt, Overlay(g, d, hdr, Cached(sb, fmt, t, hdr)), t)
  {
    hide BlockOf, FsBlock;
    Listed(hdr, logged);
    forall b | 0 <= b < sb.size && FsBlock(sb, b)
      ensures Overlay(g, d, hdr, Cached(sb, fmt, t, hdr))[b] == BlockOf(sb, fmt, t, b)
    {
      if b !in logged {
        Unlogged(sb, fmt, s, t, logged, b);
      }
    }
  }

  lemma SameHomeShows(g: Geometry, sb: Super, fmt: Format, d: Disk, e: Disk, st: Stored)
    requires Layout(g, sb) && SameHome(g, d, e) && Shows(sb, fmt, e, st)
    ensures Shows(sb, fmt, d, st)
  {
    hide BlockOf, FsBlock;
    forall b | 0 <= b < sb.size && FsBlock(sb, b)
      ensures d[b] == BlockOf(sb, fmt, st, b)
    {
      FsIsHome(g, sb, b);
    }
  }

  /** A commit cut after any k of its writes is recovered to the file system before it or after it. */
  lemma CommitCut(g: Geometry, sb: Super, fmt: Format, d: Disk, s: Stored, t: Stored, logged: set<nat>, hdr: seq<nat>,
                  k: nat, cuts: seq<nat>)
    requires Layout(g, sb) && Clear(g, d) && Shows(sb, fmt, d, s) && Transaction(sb, s, t, logged) && Lists(hdr, logged)
    requires k <= 2 * |hdr| + 2
    ensures Loggable(g, hdr) && forall i | 0 <= i < |hdr| :: hdr[i] < |t.data|
    ensures var c := CommitAfter(g, d, hdr, Cached(sb, fmt, t, hdr), k);
            && HeaderOk(g, c)
            && (CrashedRecoveries(g, c, cuts) ==>
                  var e := Recovered(g, AfterRecoveries(g, c, cuts));
                  Clear(g, e) && Shows(sb, fmt, e, if k <= |hdr| then s else t))
  {
    hide Shows, CrashedRecoveries, SameHome, Overlay;
    Fits(g, sb, s, t, logged, hdr);
    var data := Cached(sb, fmt, t, hdr);
    OverlayShows(g, sb, fmt, d, s, t, logged, hdr);
    CrashAtomicity(g, d, hdr, data, k, cuts);
    var c := CommitAfter(g, d, hdr, data, k);
    if CrashedRecoveries(g, c, cuts) {
      SameHomeShows(g, sb, fmt, Recovered(g, AfterRecoveries(g, c, cuts)), if k <= |hdr| then d
                    else Overlay(g, d, hdr, data), if k <= |hdr| then s else t);
    }
  }

  /** A completed commit leaves an empty log and the new file system. */
  lemma CommitDone(g: Geometry, sb: Super, fmt: Format, d: Disk, s: Stored, t: Stored, logged: set<nat>, hdr: seq<nat>)
    requires Layout(g, sb) && Clear(g, d) && Shows(sb, fmt, d, s) && Transaction(sb, s, t, logged) && Lists(hdr, logged)
    ensures Loggable(g, hdr) && forall i | 0 <= i < |hdr| :: hdr[i] < |t.data|
    ensures var e := CommitAfter(g, d, hdr, Cached(sb, fmt, t, hdr), 2 * |hdr| + 2); Clear(g, e) && Shows(sb, fmt, e, t)
  {
    hide Shows, SameHome, Overlay, Transaction;
    Fits(g, sb, s, t, logged, hdr);
    var data := Cached(sb, fmt, t, hdr);
    CrashAtHeader(g, d, hdr, data);
    CommitIsRecovery(g, d, hdr, data, 2 * |hdr| + 2);
    var c := CommitAfter(g, d, hdr, data, |hdr| + 1);
    RecoveredClear(g, c);
    OverlayShows(g, sb, fmt, d, s, t, logged, hdr);
    SameHomeShows(g, sb, fmt, Recovered(g, c), Overlay(g, d, hdr, data), t);
  }

  // ---------------------------------------------------------------- the whole write

  /** Every header can be written, and its blocks exist in the states that follow. */
  ghost predicate Runnable(g: Geometry, sb: Super, trace: seq<Stored>, hdrs: seq<seq<nat>>) {
    && |trace| == |hdrs| + 1
    && (forall i | 0 <= i < |hdrs| :: Loggable(g, hdrs[i]))
    && (forall i, n | 0 <= i < |hdrs| && 0 <= n < |hdrs[i]| :: hdrs[i][n] < |trace[i + 1].data|)
  }

  /** The disk after the first j transactions have been committed. */
  ghost function DiskAfter(g: Geometry, sb: Super, fmt: Format, d: Disk, trace: seq<Stored>, hdrs: seq<seq<nat>>,
                           j: nat): (r: Disk)
    requires OnDisk(g, d) && Runnable(g, sb, trace, hdrs) && j <= |hdrs|
    ensures OnDisk(g, r)
  {
    if j == 0 then d
    else CommitAfter(g, DiskAfter(g, sb, fmt, d, trace, hdrs, j - 1), hdrs[j - 1],
                     Cached(sb, fmt, trace[j], hdrs[j - 1]), 2 * |hdrs[j - 1]| + 2)
  }

  ghost predicate Transactions(sb: Super, trace: seq<Stored>, logs: seq<set<nat>>, hdrs: seq<seq<nat>>) {
    && |trace| == |logs| + 1 == |hdrs| + 1
    && (forall j | 0 <= j < |logs| :: Transaction(sb, trace[j], trace[j + 1], logs[j]) && Lists(hdrs[j], logs[j]))
  }

  lemma AllFit(g: Geometry, sb: Super, trace: seq<Stored>, logs: seq<set<nat>>, hdrs: seq<seq<nat>>)
    requires Layout(g, sb) && Transactions(sb, trace, logs, hdrs)
    ensures Runnable(g, sb, trace, hdrs)
  {
    hide Transaction, Lists;
    forall i | 0 <= i < |hdrs|
      ensures Loggable(g, hdrs[i]) && forall n | 0 <= n < |hdrs[i]| :: hdrs[i][n] < |trace[i + 1].data|
    {
      Fits(g, sb, trace[i], trace[i + 1], logs[i], hdrs[i]);
    }
  }

  /** After each transaction the log is empty and the disk holds that state. */
  lemma {:induction false} RunShows(g: Geometry, sb: Super, fmt: Format, d: Disk, trace: seq<Stored>,
                                    logs: seq<set<nat>>, hdrs: seq<seq<nat>>, j: nat)
    requires Layout(g, sb) && Clear(g, d) && Transactions(sb, trace, logs, hdrs) && Runnable(g, sb, trace, hdrs)
    requires Shows(sb, fmt, d, trace[0]) && j <= |logs|
    ensures Clear(g, DiskAfter(g, sb, fmt, d, trace, hdrs, j))
            && Shows(sb, fmt, DiskAfter(g, sb, fmt, d, trace, hdrs, j), trace[j])
  {
    hide Shows, Transaction, Lists;
    if j > 0 {
      RunShows(g, sb, fmt, d, trace, logs, hdrs, j - 1);
      CommitDone(g, sb, fmt, DiskAfter(g, sb, fmt, d, trace, hdrs, j - 1), trace[j - 1], trace[j], logs[j - 1],
                 hdrs[j - 1]);
    }
  }

  /**
   Crash safety of filewrite. Take any run of it (Journey), any order of the blocks within
   each transaction, any disk that holds the file system before it, any disk write of any of its
   commits, and any sequence of recoveries that crash in turn: the disk that is finally recovered
   has an empty log and holds a sound file system in which the first c chunks are written.
   */
  lemma FilewriteCrashSafe(g: Geometry, sb: Super, fmt: Format, d: Disk, files: seq<seq<Byte>>, trace: seq<Stored>,
                           logs: seq<set<nat>>,
                           hdrs: seq<seq<nat>>, inum: nat, off: nat, src: seq<Byte>, j: nat, k: nat, cuts: seq<nat>)
    requires Layout(g, sb) && Clear(g, d) && Journey(sb, files, trace, logs, inum, off, src)
             && Shows(sb, fmt, d, trace[0])
    requires |hdrs| == |logs| && forall i | 0 <= i < |hdrs| :: Lists(hdrs[i], logs[i])
    requires j < |logs| && k <= 2 * |hdrs[j]| + 2
    ensures Runnable(g, sb, trace, hdrs)
    ensures var crashed := CommitAfter(g, DiskAfter(g, sb, fmt, d, trace, hdrs, j), hdrs[j],
                                       Cached(sb, fmt, trace[j + 1], hdrs[j]), k);
            && HeaderOk(g, crashed)
            && (CrashedRecoveries(g, crashed, cuts) ==>
                  var e := Recovered(g, AfterRecoveries(g, crashed, cuts));
                  var c := if k <= |hdrs[j]| then j else j + 1;
                  Clear(g, e) && Shows(sb, fmt, e, trace[c])
                  && Along(sb, files, trace[c], inum, off, src, Upto(c, |src|)))
  {
    hide Shows, Transaction, Lists, Along, CrashedRecoveries, DiskAfter, Upto;
    assert Transactions(sb, trace, logs, hdrs);
    AllFit(g, sb, trace, logs, hdrs);
    RunShows(g, sb, fmt, d, trace, logs, hdrs, j);
    CommitCut(g, sb, fmt, DiskAfter(g, sb, fmt, d, trace, hdrs, j), trace[j], trace[j + 1], logs[j], hdrs[j], k, cuts);
  }

  // ---------------------------------------------------------------- starting again

  /** The layout of xv6. */
  const XV6 := Format(BitsBlock, InodesBlock)

  /** What the running system reads from a disk. */
  function Loaded(sb: Super, d: Disk): Stored
    requires sb.Valid() && |d| == sb.size
  {
    BitsInside(sb);
    InodesInside(sb);
    Stored(seq(sb.size, b requires 0 <= b < sb.size => GetBit(d[sb.BitmapBlock(b)], b % BPB)),
           seq(sb.ninodes, i requires 0 <= i < sb.ninodes => GetInode(d[sb.InodeBlock(i)], i % IPB)), d)
  }

  lemma BitsInside(sb: Super)
    requires sb.Valid()
    ensures forall b | 0 <= b < sb.size :: sb.BitmapBlock(b) < sb.nmeta && FsBlock(sb, sb.BitmapBlock(b))
  {
    forall b | 0 <= b < sb.size
      ensures sb.BitmapBlock(b) < sb.nmeta && FsBlock(sb, sb.BitmapBlock(b))
    {
      LessBits(b, sb.size);
    }
  }

  lemma InodesInside(sb: Super)
    requires sb.Valid()
    ensures forall i | 0 <= i < sb.ninodes :: sb.InodeBlock(i) < sb.bmapstart && FsBlock(sb, sb.InodeBlock(i))
  {
    forall i | 0 <= i < sb.ninodes
      ensures sb.InodeBlock(i) < sb.bmapstart && FsBlock(sb, sb.InodeBlock(i))
    {
      LessInodes(i, sb.ninodes);
    }
  }

  /** The same bitmap, the same inodes, the same data blocks. */
  ghost predicate SameStored(sb: Super, s: Stored, t: Stored) {
    && s.bitmap == t.bitmap && s.inodes == t.inodes && |s.data| == |t.data| == sb.size
    && (forall b | sb.nmeta <= b < sb.size :: s.data[b] == t.data[b])
  }

  lemma BitIn(bitmap: seq<bool>, x: nat)
    requires x < |bitmap|
    ensures x % BPB < |BitsOf(bitmap, x / BPB)| && BitsOf(bitmap, x / BPB)[x % BPB] == bitmap[x]
  {
  }

  lemma InodeIn(inodes: Table, x: nat)
    requires x < |inodes|
    ensures x % IPB < |InodesOf(inodes, x / IPB)| && InodesOf(inodes, x / IPB)[x % IPB] == inodes[x]
  {
  }

  lemma LoadsBit(sb: Super, d: Disk, st: Stored, b: nat)
    requires sb.Valid() && Shows(sb, XV6, d, st) && b < sb.size
    ensures Loaded(sb, d).bitmap[b] == st.bitmap[b]
  {
    hide BitsBlock, GetBit, BitsOf, InodesOf, InodesBlock, GetInode;
    BitsInside(sb);
    var n := sb.BitmapBlock(b);
    LessBits(b, sb.size);
    assert d[n] == BlockOf(sb, XV6, st, n) == BitsBlock(BitsOf(st.bitmap, b / BPB));
    BitIn(st.bitmap, b);
    GetBits(BitsOf(st.bitmap, b / BPB), b % BPB);
  }

  lemma LoadsInode(sb: Super, d: Disk, st: Stored, i: nat)
    requires sb.Valid() && Shows(sb, XV6, d, st) && i < sb.ninodes && Wordy(st.inodes[i])
    ensures Loaded(sb, d).inodes[i] == st.inodes[i]
  {
    hide InodesBlock, GetInode, InodesOf, Wordy;
    InodesInside(sb);
    var n := sb.InodeBlock(i);
    LessInodes(i, sb.ninodes);
    assert d[n] == BlockOf(sb, XV6, st, n) == InodesBlock(InodesOf(st.inodes, i / IPB));
    InodeIn(st.inodes, i);
    GetInodes(InodesOf(st.inodes, i / IPB), i % IPB);
  }

  /** Sizes and addresses of a sound file system fit their words on disk. */
  lemma SoundWordy(sb: Super, st: Stored, i: nat)
    requires Sound(sb, st) && i < |st.inodes|
    ensures Wordy(st.inodes[i])
  {
    var owner: Owner :| Linked(sb, st.inodes, st.data, owner) && Bits(sb, st.bitmap, owner.Keys);
    var d := st.inodes[i];
    assert NoHoles(d, st.data);
    forall k | 0 <= k <= NDIRECT
      ensures d.addrs[k] < 0x1_0000_0000
    {
      var l := if k == NDIRECT then INDIRECT else k;
      assert Slot(d, st.data, l) == d.addrs[k];
      assert Slot(d, st.data, l) != 0 ==> Slot(d, st.data, l) in owner;
    }
  }

  /** The disk determines the file system: reading it gives back what it holds. */
  lemma ShowsLoads(sb: Super, d: Disk, st: Stored)
    requires Sound(sb, st) && Shows(sb, XV6, d, st)
    ensures SameStored(sb, st, Loaded(sb, d))
  {
    hide GetBit, GetInode, Wordy, BlockOf, Solid, Linked, Bits;
    forall b | 0 <= b < sb.size
      ensures Loaded(sb, d).bitmap[b] == st.bitmap[b]
    {
      LoadsBit(sb, d, st, b);
    }
    forall i | 0 <= i < sb.ninodes
      ensures Loaded(sb, d).inodes[i] == st.inodes[i]
    {
      SoundWordy(sb, st, i);
      LoadsInode(sb, d, st, i);
    }
    forall b | sb.nmeta <= b < sb.size
      ensures st.data[b] == d[b]
    {
      assert FsBlock(sb, b);
      DataBlockOf(sb, st, b);
    }
  }

  lemma DataBlockOf(sb: Super, st: Stored, b: nat)
    requires sb.nmeta <= b < |st.data|
    ensures BlockOf(sb, XV6, st, b) == st.data[b]
  {
  }

  lemma SameSlot(sb: Super, s: Stored, t: Stored, owner: Owner, i: nat, k: nat)
    requires SameStored(sb, s, t) && Linked(sb, s.inodes, s.data, owner) && i < |s.inodes| && k <= INDIRECT
    ensures Slot(t.inodes[i], t.data, k) == Slot(s.inodes[i], s.data, k)
  {
    var d := s.inodes[i];
    assert Slot(d, s.data, INDIRECT) == d.addrs[NDIRECT];
    assert d.addrs[NDIRECT] != 0 ==> d.addrs[NDIRECT] in owner;
  }

  lemma SameByte(sb: Super, s: Stored, t: Stored, owner: Owner, i: nat, p: nat)
    requires SameStored(sb, s, t) && Linked(sb, s.inodes, s.data, owner) && i < |s.inodes| && p < MAXBYTES
    ensures ByteAt(t.inodes[i], t.data, p) == ByteAt(s.inodes[i], s.data, p)
  {
    hide Slot;
    SameSlot(sb, s, t, owner, i, p / BSIZE);
    var a := Slot(s.inodes[i], s.data, p / BSIZE);
    assert a != 0 ==> a in owner;
  }

  /** What lies in the metadata part of the data does not matter. */
  lemma SameSound(sb: Super, s: Stored, t: Stored)
    requires Sound(sb, s) && SameStored(sb, s, t)
    ensures Sound(sb, t) && Files(t.inodes, t.data) == Files(s.inodes, s.data)
  {
    hide Slot, ByteAt;
    var owner: Owner :| Linked(sb, s.inodes, s.data, owner) && Bits(sb, s.bitmap, owner.Keys);
    forall i, k | 0 <= i < |s.inodes| && 0 <= k <= INDIRECT
      ensures Slot(t.inodes[i], t.data, k) == Slot(s.inodes[i], s.data, k)
    {
      SameSlot(sb, s, t, owner, i, k);
    }
    SameSlotsLinked(sb, s.inodes, s.data, t.inodes, t.data, owner);
    SlotsSolid(s, t);
    forall i | 0 <= i < |s.inodes|
      ensures Content(t.inodes[i], t.data) == Content(s.inodes[i], s.data)
    {
      forall p | 0 <= p < s.inodes[i].size
        ensures ByteAt(t.inodes[i], t.data, p) == ByteAt(s.inodes[i], s.data, p)
      {
        SameByte(sb, s, t, owner, i, p);
      }
    }
  }

  lemma SlotsSolid(s: Stored, t: Stored)
    requires Solid(s.inodes, s.data) && s.inodes == t.inodes && SameSlots(s.inodes, s.data, t.inodes, t.data)
    ensures Solid(t.inodes, t.data)
  {
    hide Slot;
    forall i | 0 <= i < |t.inodes|
      ensures NoHoles(t.inodes[i], t.data)
    {
      assert NoHoles(s.inodes[i], s.data);
    }
  }

  /** A system started from a disk that holds a sound file system is clean and has its files. */
  method Restart(sb: Super, d: Disk, ghost st: Stored) returns (fs: FileSystem.FileSys)
    requires Sound(sb, st) && Shows(sb, XV6, d, st)
    ensures fresh(fs) && fs.sb == sb && fs.Clean() && Files(fs.mem, fs.data) == Files(st.inodes, st.data)
  {
    hide Shows, Files;
    ShowsLoads(sb, d, st);
    var now := Loaded(sb, d);
    SameSound(sb, st, now);
    ghost var owner: Owner :| Linked(sb, now.inodes, now.data, owner) && Bits(sb, now.bitmap, owner.Keys);
    fs := new FileSystem.FileSys(sb, now.bitmap, now.inodes, now.data, owner);
  }

  /**
   The same from disk to disk, in the layout of xv6: after the crash and the recoveries, what is read from
   the disk is a sound file system in which the first c chunks are written and nothing else has changed.
   */
  lemma FilewriteReadBack(g: Geometry, sb: Super, d: Disk, files: seq<seq<Byte>>, trace: seq<Stored>,
                          logs: seq<set<nat>>,
                          hdrs: seq<seq<nat>>, inum: nat, off: nat, src: seq<Byte>, j: nat, k: nat, cuts: seq<nat>)
    requires Layout(g, sb) && Clear(g, d) && Journey(sb, files, trace, logs, inum, off, src)
             && Shows(sb, XV6, d, trace[0])
    requires |hdrs| == |logs| && forall i | 0 <= i < |hdrs| :: Lists(hdrs[i], logs[i])
    requires j < |logs| && k <= 2 * |hdrs[j]| + 2 && Runnable(g, sb, trace, hdrs)
    ensures var crashed := CommitAfter(g, DiskAfter(g, sb, XV6, d, trace, hdrs, j), hdrs[j],
                                       Cached(sb, XV6, trace[j + 1], hdrs[j]), k);
            && HeaderOk(g, crashed)
            && (CrashedRecoveries(g, crashed, cuts) ==>
                  var e := Recovered(g, AfterRecoveries(g, crashed, cuts));
                  var c := if k <= |hdrs[j]| then j else j + 1;
                  Clear(g, e) && Along(sb, files, Loaded(sb, e), inum, off, src, Upto(c, |src|)))
  {
    hide Shows, Lists, CrashedRecoveries, DiskAfter, Upto, Sound, Loaded, Progress, Files;
    FilewriteCrashSafe(g, sb, XV6, d, files, trace, logs, hdrs, inum, off, src, j, k, cuts);
    var crashed := CommitAfter(g, DiskAfter(g, sb, XV6, d, trace, hdrs, j), hdrs[j],
                               Cached(sb, XV6, trace[j + 1], hdrs[j]), k);
    if CrashedRecoveries(g, crashed, cuts) {
      var e := Recovered(g, AfterRecoveries(g, crashed, cuts));
      var c := if k <= |hdrs[j]| then j else j + 1;
      ShowsLoads(sb, e, trace[c]);
      SameSound(sb, trace[c], Loaded(sb, e));
    }
  }

  /** Any one transaction, cut at any disk write: what is read afterwards is the state before it or the one after it. */
  lemma TransactionReadBack(g: Geometry, sb: Super, d: Disk, s: Stored, t: Stored, logged: set<nat>, hdr: seq<nat>,
                            k: nat, cuts: seq<nat>)
    requires Layout(g, sb) && Clear(g, d) && Shows(sb, XV6, d, s) && Transaction(sb, s, t, logged) && Lists(hdr, logged)
    requires Sound(sb, s) && Sound(sb, t) && k <= 2 * |hdr| + 2
    ensures Loggable(g, hdr) && forall i | 0 <= i < |hdr| :: hdr[i] < |t.data|
    ensures var c := CommitAfter(g, d, hdr, Cached(sb, XV6, t, hdr), k);
            && HeaderOk(g, c)
            && (CrashedRecoveries(g, c, cuts) ==>
                  var e := Recovered(g, AfterRecoveries(g, c, cuts));
                  var now := if k <= |hdr| then s else t;
                  && Clear(g, e) && SameStored(sb, now, Loaded(sb, e)) && Sound(sb, Loaded(sb, e))
                  && Files(Loaded(sb, e).inodes, Loaded(sb, e).data) == Files(now.inodes, now.data))
  {
    hide Shows, Lists, CrashedRecoveries, Sound, Loaded, Files, Transaction, SameStored;
    CommitCut(g, sb, XV6, d, s, t, logged, hdr, k, cuts);
    var c := CommitAfter(g, d, hdr, Cached(sb, XV6, t, hdr), k);
    if CrashedRecoveries(g, c, cuts) {
      var e := Recovered(g, AfterRecoveries(g, c, cuts));
      var now := if k <= |hdr| then s else t;
      ShowsLoads(sb, e, now);
      SameSound(sb, now, Loaded(sb, e));
    }
  }

  /** Every stored file system has a disk with an empty log that holds it. */
  lemma DiskFor(g: Geometry, sb: Super, st: Stored) returns (d: Disk)
    requires Layout(g, sb) && Sizes(sb, st)
    ensures Clear(g, d) && Shows(sb, XV6, d, st)
  {
    d := seq(sb.size, b requires 0 <= b < sb.size => if FsBlock(sb, b) then BlockOf(sb, XV6, st, b) else ZeroBlock());
    forall b | 0 <= b < sb.size && FsBlock(sb, b)
      ensures g.Home(b)
    {
      FsIsHome(g, sb, b);
    }
    assert d[g.start] == ZeroBlock();
    ZeroBlockWords(0);
  }
}
