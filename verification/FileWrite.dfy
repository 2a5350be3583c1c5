/**
 filewrite: a write of any length, cut into transactions small enough for the log.
 */
module FileWrite {
  import opened Common
  import opened Blocks
  import opened Inodes
  import opened FileSystem

  /** The most bytes one transaction writes. */
  const CHUNK: nat := (MAXOPBLOCKS - 1 - 1 - 2) / 2 * 512

  /** An open file: an inode and a position in it. */
  class OpenFile {
    const fs: FileSys
    const inum: nat
    const writable: bool
    var off: Word

    constructor (fs: FileSys, inum: nat, writable: bool)
      ensures this.fs == fs && this.inum == inum && this.writable == writable && off == 0
    {
      this.fs, this.inum, this.writable, off := fs, inum, writable, 0;
    }
  }

  /** A chunk spans at most four blocks, and at most three of them are new. */
  lemma ChunkFits(size: nat, off: nat, n: nat)
    requires off <= size && 0 < n <= CHUNK
    ensures WriteCost(size, off, n) <= MAXOPBLOCKS
  {
  }

  lemma SplicedTwice(c: seq<Byte>, off: nat, a: seq<Byte>, b: seq<Byte>)
    requires off <= |c|
    ensures |Spliced(c, off, a)| == (if off + |a| < |c| then |c| else off + |a|)
    ensures Spliced(Spliced(c, off, a), off + |a|, b) == Spliced(c, off, a + b)
  {
  }

  /** The files of a clean file system, as sequences of bytes. */
  ghost function Files(mem: Table, data: seq<Block>): seq<seq<Byte>>
    requires Solid(mem, data)
  {
    seq(|mem|, i requires 0 <= i < |mem| => Content(mem[i], data))
  }

  lemma WroteFile(s: Snapshot, t: Snapshot, i: nat, off: nat, src: seq<Byte>)
    requires i < |s.mem| && WriteDone(s, t, i, off, src)
    requires Solid(s.mem, s.data) && NoHoles(t.mem[i], t.data) && off <= s.mem[i].size && off + |src| <= MAXBYTES
    ensures Solid(t.mem, t.data)
    ensures |t.mem| == |s.mem| && Files(t.mem, t.data) == Files(s.mem,
                                                                s.data)[i := Spliced(Files(s.mem, s.data)[i], off, src)]
  {
    WriteSplices(s, t, i, off, src);
  }

  /** How much of a write of n bytes at off is carried out: all of it, or every whole chunk that fits. */
  function Accepted(size: nat, off: nat, n: nat): nat {
    if off > size then 0
    else if off + n <= MAXBYTES then n
    else if off > MAXBYTES then 0
    else (MAXBYTES - off) / CHUNK * CHUNK
  }

  /** The blocks that the accepted part of a write needs. */
  ghost function Needed(size: nat, off: nat, n: nat): int {
    Growth(size, off, Accepted(size, off, n))
  }

  lemma NoGrowth(size: nat, off: nat)
    ensures Growth(size, off, 0) == 0
  {
  }

  lemma AcceptsNext(size: nat, off: nat, n: nat, i: nat, n1: nat)
    requires i < n && i % CHUNK == 0 && n1 == (if n - i > CHUNK then CHUNK else n - i)
    requires off <= size && off + i + n1 <= MAXBYTES
    ensures i + n1 <= Accepted(size, off, n)
  {
  }

  lemma GrowthAdds(size: nat, mid: nat, off: nat, i: nat, n1: nat)
    requires mid == (if i == 0 then size else Max(size, off + i)) && n1 > 0
    ensures Growth(size, off, i) + Growth(mid, off + i, n1) == Growth(size, off, i + n1)
    ensures 0 <= Growth(mid, off + i, n1)
  {
    MoreBytesMoreBlocks(mid, Max(mid, off + i + n1));
    hide FileBlocks;
  }

  lemma GrowthMonotone(size: nat, off: nat, a: nat, b: nat)
    requires 0 < a <= b
    ensures Growth(size, off, a) <= Growth(size, off, b)
  {
    MoreBytesMoreBlocks(Max(size, off + a), Max(size, off + b));
    hide FileBlocks;
  }

  /** The next chunk's growth adds up, and is part of what the whole write needs. */
  lemma NextPaid(files: seq<seq<Byte>>, mid: seq<seq<Byte>>, inum: nat, off: nat, src: seq<Byte>, i: nat, n1: nat)
    requires Progress(files, mid, inum, off, src, i) && i < |src|
             && n1 == (if |src| - i > CHUNK then CHUNK else |src| - i)
    requires inum < |mid|
    ensures var size := |files[inum]|;
            off + i <= |mid[inum]| && off + i + n1 <= MAXBYTES ==>
              && Growth(size, off, i) + Growth(|mid[inum]|, off + i, n1) == Growth(size, off, i + n1)
              && 0 <= Growth(|mid[inum]|, off + i, n1) && Growth(size, off, i + n1) <= Needed(size, off, |src|)
  {
    hide Growth, Spliced, Accepted;
    if i > 0 {
      SplicedTwice(files[inum], off, src[..i], []);
    }
    if off + i <= |mid[inum]| && off + i + n1 <= MAXBYTES {
      var size := |files[inum]|;
      AcceptsNext(size, off, |src|, i, n1);
      GrowthAdds(size, |mid[inum]|, off, i, n1);
      GrowthMonotone(size, off, i + n1, Accepted(size, off, |src|));
    }
  }

  // ---------------------------------------------------------------- what reaches the disk

  /** What a file system keeps on disk. */
  datatype Stored = Stored(bitmap: seq<bool>, inodes: Table, data: seq<Block>)

  ghost function Saved(fs: FileSys): Stored
    reads fs
  {
    Stored(fs.bitmap, fs.dinodes, fs.data)
  }

  /** A file system started from this would be clean. */
  ghost predicate Sound(sb: Super, st: Stored) {
    && sb.Valid() && Solid(st.inodes, st.data)
    && exists owner: Owner :: Linked(sb, st.inodes, st.data, owner) && Bits(sb, st.bitmap, owner.Keys)
  }

  predicate BitmapPart(sb: Super, b: nat) { sb.bmapstart <= b <= sb.bmapstart + sb.size / BPB }
  predicate InodePart(sb: Super, b: nat) { sb.inodestart <= b <= sb.inodestart + sb.ninodes / IPB }

  /** A block the file system stores something in. */
  predicate FsBlock(sb: Super, b: nat) {
    b < sb.size && (sb.nmeta <= b || BitmapPart(sb, b) || InodePart(sb, b))
  }

  /** From s to t whatever changed lies in a logged block, and the log has room for them. */
  ghost predicate Transaction(sb: Super, s: Stored, t: Stored, logged: set<nat>) {
    |logged| <= MAXOPBLOCKS && Changes(sb, s, t, logged)
  }

  /** From s to t whatever changed lies in a logged block of the file system. */
  ghost predicate Changes(sb: Super, s: Stored, t: Stored, logged: set<nat>) {
    && (forall b | b in logged :: FsBlock(sb, b))
    && |t.data| == |s.data| == sb.size && |t.bitmap| == |s.bitmap| == sb.size && |t.inodes| == |s.inodes| == sb.ninodes
    && (forall b | 0 <= b < sb.size && t.data[b] != s.data[b] :: b in logged)
    && (forall b | 0 <= b < sb.size && t.bitmap[b] != s.bitmap[b] :: sb.BitmapBlock(b) in logged)
    && (forall i | 0 <= i < sb.ninodes && t.inodes[i] != s.inodes[i] :: sb.InodeBlock(i) in logged)
  }

  lemma InodeIsFs(sb: Super, i: nat)
    requires sb.Valid() && i < sb.ninodes
    ensures FsBlock(sb, sb.InodeBlock(i))
  {
    LessInodes(i, sb.ninodes);
  }

  lemma LessInodes(x: nat, y: nat)
    requires x <= y
    ensures x / IPB <= y / IPB
  {
  }

  lemma LessBits(x: nat, y: nat)
    requires x <= y
    ensures x / BPB <= y / BPB
  {
  }

  lemma DataIsFs(sb: Super, a: nat)
    requires sb.Valid() && sb.nmeta <= a < sb.size
    ensures FsBlock(sb, a) && FsBlock(sb, sb.BitmapBlock(a))
  {
    LessBits(a, sb.size);
  }

  lemma SlotIsFs(sb: Super, t: Table, data: seq<Block>, owner: Owner, i: nat, k: nat)
    requires sb.Valid() && Linked(sb, t, data, owner) && i < |t| && k <= INDIRECT && Slot(t[i], data, k) != 0
    ensures var a := Slot(t[i], data, k); FsBlock(sb, a) && FsBlock(sb, sb.BitmapBlock(a))
  {
    hide FsBlock, Slot;
    assert Slot(t[i], data, k) in owner;
    DataIsFs(sb, Slot(t[i], data, k));
  }

  lemma {:induction false} WriteLogIsFs(sb: Super, t: Table, data: seq<Block>, owner: Owner, i: nat, n: nat, n0: nat,
                                        lo: nat, hi: nat)
    requires sb.Valid() && Linked(sb, t, data, owner) && i < |t| && Extent(t[i], data, n) && hi <= n
    ensures forall b | b in WriteLog(sb, t[i], data, n0, lo, hi) :: FsBlock(sb, b)
  {
    hide Linked, Slot, FsBlock;
    if lo < hi {
      WriteLogIsFs(sb, t, data, owner, i, n, n0, lo, hi - 1);
      SlotIsFs(sb, t, data, owner, i, hi - 1);
      if hi - 1 >= NDIRECT {
        IndirectSlot(t[i], data);
        SlotIsFs(sb, t, data, owner, i, INDIRECT);
      }
    }
  }

  /** Everything a write logs is a block of the file system. */
  lemma LogsAreFs(sb: Super, t: Table, data: seq<Block>, owner: Owner, i: nat, size: nat, off: nat, n: nat)
    requires sb.Valid() && Linked(sb, t, data, owner) && i < |t| && NoHoles(t[i], data)
    requires off + n <= MAXBYTES && 0 < n && off + n <= t[i].size
    ensures forall b | b in Logs(sb, i, t[i], data, size, off, n) :: FsBlock(sb, b)
  {
    InodeIsFs(sb, i);
    WriteLogIsFs(sb, t, data, owner, i, BlockCount(t[i].size), BlockCount(size), off / BSIZE, Reach(off, n));
  }

  lemma ChangesMore(sb: Super, s: Stored, m: Stored, t: Stored, logged: set<nat>, logged': set<nat>)
    requires Changes(sb, s, m, logged) && Changes(sb, m, t, logged') && logged <= logged'
    ensures Changes(sb, s, t, logged')
  {
    hide FsBlock;
  }

  /** What a write changes on disk it has logged. */
  lemma WroteChanges(sb: Super, s: Snapshot, t: Snapshot, inodes: Table, inodes': Table, i: nat, off: nat, n: nat)
    requires sb.Valid() && Linked(sb, s.mem, s.data, s.owner) && Bits(sb, s.bitmap, s.owner.Keys)
    requires forall b | b in s.logged :: FsBlock(sb, b)
    requires Linked(sb, t.mem, t.data, t.owner) && i < |s.mem| && NoHoles(t.mem[i], t.data)
    requires off + n <= MAXBYTES && 0 < n && off + n <= t.mem[i].size
    requires t.logged == s.logged + Logs(sb, i, t.mem[i], t.data, s.mem[i].size, off, n) && Covered(sb, s, t)
    requires inodes == s.mem && inodes' == t.mem
    requires inodes' == inodes || (inodes' == inodes[i := t.mem[i]] && sb.InodeBlock(i) in t.logged)
    ensures Changes(sb, Stored(s.bitmap, inodes, s.data), Stored(t.bitmap, inodes', t.data), t.logged)
  {
    hide Logs, Slot, NoHoles, FsBlock;
    LogsAreFs(sb, t.mem, t.data, t.owner, i, s.mem[i].size, off, n);
  }

  /** One transaction of filewrite. That it keeps to the log's reservation is the precondition of EndOp. */
  method WriteChunk(f: OpenFile, src: seq<Byte>) returns (w: Io, ghost logged: set<nat>)
    requires f.fs.Clean() && f.inum < |f.fs.mem| && 0 < |src| <= CHUNK
    modifies f, f.fs
    ensures w == Panicked ==> f.fs.Full()
    ensures w != Failed ==>
            Paid(old(f.fs.bitmap), f.fs.bitmap, Growth(old(f.fs.mem)[f.inum].size, old(f.off), |src|), w.Done?)
    ensures w == Failed <==> old(f.off) > old(f.fs.mem)[f.inum].size || old(f.off) + |src| > MAXBYTES
    ensures w != Panicked ==> f.fs.Clean() && |f.fs.mem| == |old(f.fs.mem)|
    ensures w == Failed ==> f.fs.bitmap == old(f.fs.bitmap) && f.fs.mem == old(f.fs.mem) && f.fs.data == old(f.fs.data)
                            && f.off == old(f.off)
    ensures w.Done? ==> Transaction(f.fs.sb, old(Saved(f.fs)), Saved(f.fs), logged)
    ensures w.Done? ==> && f.off == old(f.off) + |src|
                        && f.off <= f.fs.mem[f.inum].size
                        && var files := Files(old(f.fs.mem), old(f.fs.data));
                           && old(f.off) <= |files[f.inum]|
                           && Files(f.fs.mem, f.fs.data) == files[f.inum := Spliced(files[f.inum], old(f.off), src)]
  {
    hide NoHoles, Linked, Bits, BytesSet, OthersKept, SlotsKept, Slot, Content, WriteCost, Logs, Paid, Growth, Covered,
         Changes;
    var fs, inum := f.fs, f.inum;
    logged := {};
    fs.BeginOp();
    ghost var begun := fs.Snap();
    w := fs.Writei(inum, src, f.off, |src|);
    if w.Panicked? {
      return;
    }
    if w.Done? {
      FileSize(begun.mem, begun.data, inum);
      WroteFile(begun, fs.Snap(), inum, f.off, src);
      WroteChanges(fs.sb, begun, fs.Snap(), old(f.fs.dinodes), fs.dinodes, inum, f.off, |src|);
      LogsBound(fs.sb, inum, fs.mem[inum], fs.data, begun.mem[inum].size, f.off, |src|);
      ChunkFits(begun.mem[inum].size, f.off, |src|);
      assert {} + fs.logged == fs.logged;
      f.off := f.off + w.n;
    }
    logged := fs.logged;
    fs.EndOp();
  }

  /** The loop of filewrite stops after i bytes: at the end, or where the next chunk does not fit. */
  lemma StopsAt(size: nat, off: nat, n: nat, i: nat, n1: nat)
    requires n > 0 && i <= n && (off <= size <= MAXBYTES || i == 0)
    requires i == n || (i % CHUNK == 0 && n1 == (if n - i > CHUNK then CHUNK else n - i))
    requires i > 0 ==> off + i <= MAXBYTES
    requires i < n ==> off > size || off + i + n1 > MAXBYTES
    requires size <= MAXBYTES
    ensures i == Accepted(size, off, n)
  {
  }

  /** The accepted part of src is in the file, the position is past it, and the result says whether that is all. */
  ghost predicate WriteOutcome(files: seq<seq<Byte>>, files': seq<seq<Byte>>, i: nat, off: nat, off': nat,
                               src: seq<Byte>, r: int) {
    && i < |files|
    && var k := Accepted(|files[i]|, off, |src|);
       && k <= |src| && off' == off + k
       && r == (if k == |src| then |src| else -1)
       && (k == 0 ==> files' == files)
       && (k > 0 ==> off <= |files[i]| && files' == files[i := Spliced(files[i], off, src[..k])])
  }

  /** The loop of filewrite. */
  method WriteChunks(f: OpenFile, src: seq<Byte>)
      returns (r: Option<int>, ghost trace: seq<Stored>, ghost logs: seq<set<nat>>)
    requires f.fs.Clean() && f.inum < |f.fs.mem| && src != []
    modifies f, f.fs
    ensures r.None? ==> f.fs.Full()
    ensures Paid(old(f.fs.bitmap), f.fs.bitmap, Needed(old(f.fs.mem)[f.inum].size, old(f.off), |src|), r.Some?)
    ensures r.Some? ==> f.fs.Clean() && |f.fs.mem| == |old(f.fs.mem)|
    ensures r.Some? ==> WriteOutcome(Files(old(f.fs.mem), old(f.fs.data)), Files(f.fs.mem, f.fs.data), f.inum,
                                     old(f.off), f.off, src, r.value)
    ensures Journey(f.fs.sb, Files(old(f.fs.mem), old(f.fs.data)), trace, logs, f.inum, old(f.off), src)
    ensures trace[0] == old(Saved(f.fs)) && (r.Some? ==> trace[|logs|] == Saved(f.fs))
  {
    hide Solid, Linked, Bits, Files, Spliced, Accepted, WriteOutcome, Progress, Paid, Growth, Needed, Transaction,
         Journey;
    var i, n := 0, |src|;
    ghost var files, off0 := Files(f.fs.mem, f.fs.data), f.off;
    FileSize(f.fs.mem, f.fs.data, f.inum);
    ghost var mid := files;
    NoProgress(files, f.inum, off0, src);
    ghost var size := f.fs.mem[f.inum].size;
    NoGrowth(size, off0);
    PaidNothing(f.fs.bitmap);
    trace, logs := [Saved(f.fs)], [];
    JourneyStarts(f.fs.sb, files, f.fs.Snap(), trace[0], f.inum, off0, src);
    while i < n
      invariant 0 <= i <= n && f.fs.Clean() && |f.fs.mem| == |old(f.fs.mem)| && f.off == off0 + i
      invariant mid == Files(f.fs.mem, f.fs.data) && |mid| == |f.fs.mem|
                && |mid[f.inum]| == f.fs.mem[f.inum].size <= MAXBYTES
      invariant Progress(files, mid, f.inum, off0, src, i)
      invariant Journey(f.fs.sb, files, trace, logs, f.inum, off0, src) && |trace| == |logs| + 1
                && trace[0] == old(Saved(f.fs))
      invariant trace[|logs|] == Saved(f.fs) && (i < n ==> i == |logs| * CHUNK)
      invariant Growth(size, off0, i) >= 0 && Paid(old(f.fs.bitmap), f.fs.bitmap, Growth(size, off0, i), true)
    {
      var n1 := n - i;
      if n1 > CHUNK {
        n1 := CHUNK;
      }
      ghost var bitmap := f.fs.bitmap;
      NextPaid(files, mid, f.inum, off0, src, i, n1);
      var w; ghost var logged;
      w, logged := WriteChunk(f, src[i..i + n1]);
      if !w.Failed? {
        PaidMore(old(f.fs.bitmap), bitmap, f.fs.bitmap, Growth(size, off0, i), Growth(|mid[f.inum]|, off0 + i, n1),
                 w.Done?);
      }
      if w.Panicked? {
        NotPaid(old(f.fs.bitmap), f.fs.bitmap, Growth(size, off0, i + n1), Needed(size, off0, n));
        r := None;
        return;
      }
      if w.Failed? {
        Outcome(files, mid, f.inum, off0, src, i, n1);
        r := Some(-1);
        return;
      }
      FileSize(f.fs.mem, f.fs.data, f.inum);
      ProgressNext(files, mid, Files(f.fs.mem, f.fs.data), f.inum, off0, src, i, n1);
      JourneyMore(f.fs.sb, files, trace, logs, f.fs.Snap(), Saved(f.fs), logged, f.inum, off0, src, i + n1);
      trace, logs := trace + [Saved(f.fs)], logs + [logged];
      mid := Files(f.fs.mem, f.fs.data);
      i := i + n1;
    }
    Outcome(files, mid, f.inum, off0, src, i, 0);
    r := Some(n);
  }

  /**
   Write addr[..n] at the file's position, a transaction at a time; None is a kernel panic
   (the disk filled up).
   */
  method Filewrite(f: OpenFile, addr: seq<Byte>, n: int)
      returns (r: Option<int>, ghost trace: seq<Stored>, ghost logs: seq<set<nat>>)
    requires f.fs.Clean() && f.inum < |f.fs.mem| && n <= |addr|
    modifies f, f.fs
    ensures r.None? ==> f.fs.Full()
    ensures r.None? <==> f.writable && n > 0
                         && |Clear(old(f.fs.bitmap))| < Needed(old(f.fs.mem)[f.inum].size, old(f.off), n)
    ensures r.Some? ==> f.fs.Clean() && |f.fs.mem| == |old(f.fs.mem)|
    ensures r.Some? && (!f.writable || n <= 0) ==>
              && r.value == (if f.writable && n == 0 then 0 else -1)
              && f.off == old(f.off) && f.fs.Snap() == old(f.fs.Snap())
    ensures r.Some? && f.writable && n > 0 ==>
              WriteOutcome(Files(old(f.fs.mem), old(f.fs.data)), Files(f.fs.mem, f.fs.data), f.inum, old(f.off), f.off,
                           addr[..n], r.value)
    ensures f.writable && n > 0 ==>
              && Journey(f.fs.sb, Files(old(f.fs.mem), old(f.fs.data)), trace, logs, f.inum, old(f.off), addr[..n])
              && trace[0] == old(Saved(f.fs)) && (r.Some? ==> trace[|logs|] == Saved(f.fs))
  {
    trace, logs := [Saved(f.fs)], [];
    if !f.writable {
      r := Some(-1);
      return;
    }
    if n <= 0 {
      r := Some(if n == 0 then 0 else -1);
      return;
    }
    r, trace, logs := WriteChunks(f, addr[..n]);
  }

  /** After i bytes the file is spliced with them, and a further chunk starts on a chunk boundary. */
  ghost predicate Progress(files: seq<seq<Byte>>, mid: seq<seq<Byte>>, inum: nat, off: nat, src: seq<Byte>, i: nat) {
    && inum < |files| && |files[inum]| <= MAXBYTES && i <= |src| && (i == |src| || i % CHUNK == 0)
    && (i == 0 ==> mid == files)
    && (i > 0 ==> off <= |files[inum]| && off + i <= MAXBYTES
                  && mid == files[inum := Spliced(files[inum], off, src[..i])])
  }

  /** The bytes written by the first j transactions of a write of n bytes. */
  ghost function Upto(j: nat, n: nat): nat {
    if j * CHUNK < n then j * CHUNK else n
  }

  /** A stored file system in which the first k bytes have been written and nothing else has changed. */
  ghost predicate Along(sb: Super, files: seq<seq<Byte>>, st: Stored, inum: nat, off: nat, src: seq<Byte>, k: nat) {
    Sound(sb, st) && Progress(files, Files(st.inodes, st.data), inum, off, src, k)
  }

  /** What filewrite leaves on disk transaction by transaction: each adds one whole chunk. */
  ghost predicate Journey(sb: Super, files: seq<seq<Byte>>, trace: seq<Stored>, logs: seq<set<nat>>, inum: nat,
                          off: nat, src: seq<Byte>) {
    && |trace| == |logs| + 1
    && (forall j | 0 <= j < |logs| :: Transaction(sb, trace[j], trace[j + 1], logs[j]))
    && (forall j | 0 <= j < |trace| :: Along(sb, files, trace[j], inum, off, src, Upto(j, |src|)))
  }

  lemma SoundNow(sb: Super, s: Snapshot, st: Stored)
    requires sb.Valid() && Linked(sb, s.mem, s.data, s.owner) && Bits(sb, s.bitmap, s.owner.Keys)
             && Solid(s.mem, s.data)
    requires st == Stored(s.bitmap, s.mem, s.data)
    ensures Sound(sb, st)
  {
  }

  lemma JourneyStarts(sb: Super, files: seq<seq<Byte>>, s: Snapshot, st: Stored, inum: nat, off: nat, src: seq<Byte>)
    requires sb.Valid() && Linked(sb, s.mem, s.data, s.owner) && Bits(sb, s.bitmap, s.owner.Keys)
             && Solid(s.mem, s.data)
    requires st == Stored(s.bitmap, s.mem, s.data) && files == Files(s.mem, s.data)
             && Progress(files, files, inum, off, src, 0) && src != []
    ensures Journey(sb, files, [st], [], inum, off, src)
  {
    hide Linked, Bits, Progress, Files, Solid, Sound;
    SoundNow(sb, s, st);
  }

  lemma JourneyMore(sb: Super, files: seq<seq<Byte>>, trace: seq<Stored>, logs: seq<set<nat>>, s: Snapshot, st: Stored,
                    logged: set<nat>,
                    inum: nat, off: nat, src: seq<Byte>, k: nat)
    requires Journey(sb, files, trace, logs, inum, off, src) && sb.Valid()
    requires Linked(sb, s.mem, s.data, s.owner) && Bits(sb, s.bitmap, s.owner.Keys) && Solid(s.mem, s.data)
    requires st == Stored(s.bitmap, s.mem, s.data) && Progress(files, Files(s.mem, s.data), inum, off, src, k)
    requires Transaction(sb, trace[|logs|], st, logged) && |logs| * CHUNK < |src| && k == Upto(|logs| + 1, |src|)
    ensures Journey(sb, files, trace + [st], logs + [logged], inum, off, src)
  {
    hide Linked, Bits, Progress, Files, Solid, Sound, Transaction, Along, Upto;
    SoundNow(sb, s, st);
    assert Along(sb, files, st, inum, off, src, k) by {
      AlongNow(sb, files, st, inum, off, src, k);
    }
  }

  lemma AlongNow(sb: Super, files: seq<seq<Byte>>, st: Stored, inum: nat, off: nat, src: seq<Byte>, k: nat)
    requires Sound(sb, st) && Progress(files, Files(st.inodes, st.data), inum, off, src, k)
    ensures Along(sb, files, st, inum, off, src, k)
  {
  }

  lemma NoProgress(files: seq<seq<Byte>>, inum: nat, off: nat, src: seq<Byte>)
    requires inum < |files| && |files[inum]| <= MAXBYTES
    ensures Progress(files, files, inum, off, src, 0)
  {
  }

  lemma ProgressNext(files: seq<seq<Byte>>, mid: seq<seq<Byte>>, mid': seq<seq<Byte>>, inum: nat, off: nat,
                     src: seq<Byte>, i: nat, n1: nat)
    requires Progress(files, mid, inum, off, src, i) && i < |src|
             && n1 == (if |src| - i > CHUNK then CHUNK else |src| - i)
    requires inum < |mid| && off + i <= |mid[inum]| && mid' == mid[inum := Spliced(mid[inum], off + i, src[i..i + n1])]
    requires off + i + n1 <= MAXBYTES
    ensures Progress(files, mid', inum, off, src, i + n1)
  {
    hide Spliced;
    assert src[..i + n1] == src[..i] + src[i..i + n1];
    NextChunkFiles(files, mid, inum, off, src[..i], src[i..i + n1]);
    assert i + n1 == |src| || (i + n1) % CHUNK == 0 by {
      if n1 == CHUNK {
        assert i == CHUNK * (i / CHUNK);
      }
    }
  }

  lemma Outcome(files: seq<seq<Byte>>, mid: seq<seq<Byte>>, inum: nat, off: nat, src: seq<Byte>, i: nat, n1: nat)
    requires Progress(files, mid, inum, off, src, i) && 0 < |src|
    requires i < |src| ==> inum < |mid| && n1 == (if |src| - i > CHUNK then CHUNK else |src| - i)
                           && (off + i > |mid[inum]| || off + i + n1 > MAXBYTES)
    ensures WriteOutcome(files, mid, inum, off, off + i, src, if i == |src| then |src| else -1)
    ensures Needed(|files[inum]|, off, |src|) == Growth(|files[inum]|, off, i)
  {
    if i > 0 {
      SplicedTwice(files[inum], off, src[..i], []);
    }
    StopsAt(|files[inum]|, off, |src|, i, n1);
  }

  lemma NextChunkFiles(files: seq<seq<Byte>>, mid: seq<seq<Byte>>, i: nat, off: nat, a: seq<Byte>, b: seq<Byte>)
    requires i < |files| && off <= |files[i]|
    requires mid == if a == [] then files else files[i := Spliced(files[i], off, a)]
    ensures off + |a| <= |mid[i]|
    ensures mid[i := Spliced(mid[i], off + |a|, b)] == files[i := Spliced(files[i], off, a + b)]
  {
    SplicedTwice(files[i], off, a, b);
    if a == [] {
      assert a + b == b;
    }
  }

  lemma FileSize(mem: Table, data: seq<Block>, i: nat)
    requires Solid(mem, data) && i < |mem|
    ensures |Files(mem, data)| == |mem| && |Files(mem, data)[i]| == mem[i].size <= MAXBYTES
  {
  }
}
