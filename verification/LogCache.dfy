/**
 commit through the buffer cache. The log's pending changes are the pinned buffers: write_log,
 write_head and install_trans work on buffers got with bread, and pass through exactly the disks of
 CrashLog's commit. They need one buffer that is neither pinned nor held.
 */
module LogCache {
  import opened Common
  import opened Blocks
  import opened BufferList
  import opened BufferCache
  import opened LogDisk
  import CrashLog

  /** Some buffer can be given to another block. */
  ghost predicate Spare(bufs: seq<Buf>) {
    exists b :: 0 <= b < |bufs| && Evictable(bufs[b])
  }

  /** Nobody refers to a buffer of block n. */
  ghost predicate Loose(bufs: seq<Buf>, n: nat) {
    forall b | 0 <= b < |bufs| && bufs[b].dev == 1 && bufs[b].blockno == n :: bufs[b].refcnt == 0
  }

  /** Nobody refers to a buffer of the log or of a logged block. */
  ghost predicate Idle(bufs: seq<Buf>, g: Geometry, hdr: seq<nat>) {
    (forall n | g.start <= n < g.start + g.size :: Loose(bufs, n)) && forall i | 0 <= i < |hdr| :: Loose(bufs, hdr[i])
  }

  lemma LooseUnlocked(bufs: seq<Buf>, locked: seq<bool>, waiting: seq<nat>, leaving: seq<nat>, n: nat)
    requires RefsOk(bufs, locked, waiting, leaving) && Loose(bufs, n)
    ensures forall b | 0 <= b < NBUF && bufs[b].dev == 1 && bufs[b].blockno == n :: !locked[b]
  {
  }

  lemma PendingCached(bufs: seq<Buf>, locked: seq<bool>, disk: seq<Block>, pending: map<nat, Block>, n: nat)
    requires Coherent(bufs, locked, disk, pending) && n in pending
    ensures Cached(bufs, 1, n) && n < |disk|
  {
    var b :| 0 <= b < NBUF && bufs[b].dirty && bufs[b].blockno == n;
    assert Agrees(bufs[b], locked[b], disk, pending);
  }

  /** bread of a block nobody refers to. */
  method Get(cache: Cache, n: nat) returns (b: nat)
    requires cache.Valid() && n < |cache.disk| && Loose(cache.bufs, n)
             && (Spare(cache.bufs) || Cached(cache.bufs, 1, n))
    modifies cache`bufs, cache`waiting, cache`given, cache`locked
    ensures cache.Valid() && b < NBUF == |old(cache.bufs)| && |old(cache.locked)| == NBUF
            && old(cache.bufs)[b].refcnt == 0
    ensures cache.bufs == old(cache.bufs)[b := Buf(true, n in cache.pending, 1, n, 1,
                                                   Current(cache.disk, cache.pending, n))]
    ensures cache.locked == old(cache.locked)[b := true] && cache.waiting == old(cache.waiting)
  {
    hide Ring, Lru, Unique, RefsOk, Coherent;
    Sizes(cache.bufs, cache.locked, cache.waiting, cache.leaving);
    LooseUnlocked(cache.bufs, cache.locked, cache.waiting, cache.leaving, n);
    var r := cache.Bread(1, n);
    b := r.value;
    ReadRight(cache.bufs, cache.locked, cache.disk, cache.pending, b);
  }

  lemma ReadRight(bufs: seq<Buf>, locked: seq<bool>, disk: seq<Block>, pending: map<nat, Block>, b: nat)
    requires Coherent(bufs, locked, disk, pending) && b < NBUF && bufs[b].valid
    ensures bufs[b].dirty <==> bufs[b].blockno in pending
  {
    assert Agrees(bufs[b], locked[b], disk, pending);
  }

  method Brelse(cache: Cache, b: nat)
    requires cache.Valid() && b < NBUF == |cache.locked| && |cache.bufs| == |cache.leaving| == NBUF && cache.locked[b]
             && cache.bufs[b].refcnt > 0
    requires cache.bufs[b].valid && cache.bufs[b].blockno < |cache.disk|
             && cache.bufs[b].data == Current(cache.disk, cache.pending, cache.bufs[b].blockno)
    modifies cache
    ensures cache.Valid() && cache.bufs ==
            old(cache.bufs)[b := old(cache.bufs)[b].(refcnt := old(cache.bufs)[b].refcnt - 1)]
    ensures cache.locked == old(cache.locked)[b := false] && cache.leaving == old(cache.leaving)
    ensures cache.disk == old(cache.disk) && cache.pending == old(cache.pending) && cache.waiting == old(cache.waiting)
            && cache.given == old(cache.given)
  {
    hide Ring, Lru, Unique, RefsOk, Coherent, Current;
    cache.Release(b);
    cache.Drop(b);
  }

  /** memmove from one buffer to another, bwrite, brelse both. */
  method MoveData(cache: Cache, to: nat, from: nat)
    requires cache.Valid() && to < NBUF && from < NBUF && to != from
             && |cache.locked| == |cache.bufs| == |cache.leaving| == NBUF
    requires cache.locked[to] && cache.locked[from] && cache.bufs[to].valid && cache.bufs[from].valid
             && cache.bufs[to].blockno != cache.bufs[from].blockno
    requires cache.bufs[to].refcnt == cache.bufs[from].refcnt == 1 && cache.bufs[to].blockno < |cache.disk|
             && cache.bufs[from].blockno < |cache.disk|
    requires cache.bufs[from].data == Current(cache.disk, cache.pending, cache.bufs[from].blockno)
    modifies cache
    ensures cache.Valid() && cache.pending == old(cache.pending) - {old(cache.bufs)[to].blockno}
    ensures cache.disk == old(cache.disk)[old(cache.bufs)[to].blockno := old(cache.bufs)[from].data]
    ensures cache.bufs == old(cache.bufs)[to := old(cache.bufs)[to].(data := old(cache.bufs)[from].data, dirty := false,
                                                                     refcnt := 0)]
                                         [from := old(cache.bufs)[from].(refcnt := 0)]
  {
    hide Ring, Lru, Unique, RefsOk, Coherent;
    cache.Modify(to, cache.bufs[from].data);
    cache.Bwrite(to);
    Brelse(cache, from);
    Brelse(cache, to);
  }

  /** Two buffers nobody referred to are as free as before. */
  lemma StillLoose(bufs: seq<Buf>, bufs': seq<Buf>, b1: nat, b2: nat, first: nat, second: nat)
    requires b1 < |bufs| && b2 < |bufs| && b1 != b2 && |bufs'| == |bufs| && Loose(bufs, first) && Loose(bufs, second)
    requires bufs' == bufs[b1 := bufs'[b1]][b2 := bufs'[b2]] && bufs'[b1].refcnt == 0 && bufs'[b2].refcnt == 0
             && !bufs'[b1].dirty
    ensures Spare(bufs') && forall n: nat | n == first || n == second || Loose(bufs, n) :: Loose(bufs', n)
  {
    assert Evictable(bufs'[b1]);
  }

  /** bread(first), bread(second), copy one to the other, bwrite the copy, brelse both. */
  method Copy(cache: Cache, first: nat, second: nat, toFirst: bool)
    requires cache.Valid() && first != second && first < |cache.disk| && second in cache.pending
             && first !in cache.pending
    requires Loose(cache.bufs, first) && Loose(cache.bufs, second)
             && (Spare(cache.bufs) || Cached(cache.bufs, 1, first))
    modifies cache
    ensures cache.Valid() && second < |cache.disk| && Spare(cache.bufs)
    ensures forall n: nat | n == first || n == second || Loose(old(cache.bufs), n) :: Loose(cache.bufs, n)
    ensures var to, from := if toFirst then first else second, if toFirst then second else first;
            && cache.disk == old(cache.disk)[to := Current(old(cache.disk), old(cache.pending), from)]
            && cache.pending == old(cache.pending) - {to}
  {
    hide Ring, Lru, Unique, RefsOk, Coherent, Loose, Spare, Cached;
    Sizes(cache.bufs, cache.locked, cache.waiting, cache.leaving);
    PendingCached(cache.bufs, cache.locked, cache.disk, cache.pending, second);
    var b1 := Get(cache, first);
    PendingCached(cache.bufs, cache.locked, cache.disk, cache.pending, second);
    OtherLoose(old(cache.bufs), cache.bufs, b1, second);
    var b2 := Get(cache, second);
    Sizes(cache.bufs, cache.locked, cache.waiting, cache.leaving);
    if toFirst {
      MoveData(cache, b1, b2);
    } else {
      MoveData(cache, b2, b1);
    }
    StillLoose(old(cache.bufs), cache.bufs, b1, b2, first, second);
  }

  lemma OtherLoose(bufs: seq<Buf>, bufs': seq<Buf>, b: nat, n: nat)
    requires b < |bufs| == |bufs'| && bufs' == bufs[b := bufs'[b]] && bufs'[b].blockno != n && Loose(bufs, n)
    ensures Loose(bufs', n)
  {
  }

  // ---------------------------------------------------------------- log_write

  /** The log's picture of the cache is right: the same disk, and the same pending changes. */
  ghost predicate Joined(log: CrashLog.Log, cache: Cache)
    reads log, cache
  {
    log.disk == cache.disk && log.dirty == cache.pending
  }

  /** log_write on a buffer: listed in the header and pinned in the cache, or neither. */
  method LogWrite(log: CrashLog.Log, cache: Cache, b: nat) returns (r: CrashLog.Outcome)
    requires log.Between() && cache.Valid() && Joined(log, cache) && b < NBUF && |cache.locked| == |cache.bufs| == NBUF
    requires cache.locked[b] && cache.bufs[b].valid && log.g.Home(cache.bufs[b].blockno)
    modifies log, log.block, cache
    ensures log.Between() && cache.Valid() && Joined(log, cache)
    ensures r == CrashLog.Panic <==> old(log.n) >= log.g.Capacity() || old(log.outstanding) < 1
    ensures r == CrashLog.Done ==>
            cache.pending == old(cache.pending)[old(cache.bufs)[b].blockno := old(cache.bufs)[b].data]
    ensures r == CrashLog.Panic ==> cache.pending == old(cache.pending)
  {
    hide Ring, Lru, Unique, RefsOk, Coherent;
    r := log.LogWrite(cache.bufs[b].blockno, cache.bufs[b].data);
    if r == CrashLog.Done {
      cache.Pin(b);
    }
  }

  // ---------------------------------------------------------------- commit

  /** The cache as commit finds it: the pinned buffers are the logged blocks, and no other process is at them. */
  ghost predicate Pinning(cache: Cache, g: Geometry, hdr: seq<nat>)
    reads cache
  {
    && cache.Valid() && OnDisk(g, cache.disk) && Loggable(g, hdr) && NoDup(hdr)
    && Idle(cache.bufs, g, hdr) && Spare(cache.bufs) && forall n | n in cache.pending :: g.Home(n)
  }

  ghost function Data(cache: Cache, hdr: seq<nat>): seq<Block>
    requires forall i | 0 <= i < |hdr| :: hdr[i] < |cache.disk|
    reads cache
  {
    CrashLog.PendingData(cache.disk, cache.pending, hdr)
  }

  lemma StillIdle(bufs: seq<Buf>, bufs': seq<Buf>, g: Geometry, hdr: seq<nat>)
    requires Idle(bufs, g, hdr) && forall n: nat | Loose(bufs, n) :: Loose(bufs', n)
    ensures Idle(bufs', g, hdr)
  {
    hide Loose;
  }

  lemma PlaceOf(g: Geometry, hdr: seq<nat>, k: nat)
    requires Loggable(g, hdr) && k < |hdr|
    ensures g.start < g.start + k + 1 < g.start + g.size <= g.nblocks && !g.Home(g.start + k + 1)
            && g.start + k + 1 != hdr[k]
  {
  }

  /** write_log. */
  method WriteLog(cache: Cache, g: Geometry, hdr: seq<nat>) returns (ghost trace: seq<Disk>)
    requires Pinning(cache, g, hdr) && forall i | 0 <= i < |hdr| :: hdr[i] in cache.pending
    modifies cache
    ensures Pinning(cache, g, hdr) && cache.pending == old(cache.pending)
    ensures cache.disk == Logged(g, old(cache.disk), old(Data(cache, hdr)), |hdr|)
    ensures trace == CrashLog.LogTrace(g, old(cache.disk), old(Data(cache, hdr)), |hdr|)
  {
    hide Loose, Spare, Cached, CrashLog.LogTrace, Ring, Lru, Unique, RefsOk, Coherent;
    ghost var d, data := cache.disk, Data(cache, hdr);
    trace := [];
    var tail := 0;
    assert CrashLog.LogTrace(g, d, data, 0) == [] by { NoTrace(g, d, data, hdr); }
    while tail < |hdr|
      invariant 0 <= tail <= |hdr| && Pinning(cache, g, hdr) && cache.pending == old(cache.pending)
      invariant cache.disk == Logged(g, d, data, tail) && trace == CrashLog.LogTrace(g, d, data, tail)
    {
      PlaceOf(g, hdr, tail);
      ghost var bufs := cache.bufs;
      Copy(cache, g.start + tail + 1, hdr[tail], true);
      StillIdle(bufs, cache.bufs, g, hdr);
      CrashLog.PendingStays(g, d, old(cache.pending), hdr, tail);
      CrashLog.LogTraceStep(g, d, data, tail);
      assert cache.pending == old(cache.pending);
      trace := trace + [cache.disk];
      tail := tail + 1;
    }
  }

  lemma NoTrace(g: Geometry, d: Disk, data: seq<Block>, hdr: seq<nat>)
    requires OnDisk(g, d) && Loggable(g, hdr) && |data| == |hdr|
    ensures CrashLog.LogTrace(g, d, data, 0) == [] && CrashLog.InstallTrace(g, d, hdr, 0) == []
  {
  }

  /** write_head: bread the header block, store count and entries over it, bwrite, brelse. */
  method WriteHead(cache: Cache, g: Geometry, hdr: seq<nat>, ghost all: seq<nat>)
    requires Pinning(cache, g, all) && Loggable(g, hdr)
    modifies cache
    ensures Pinning(cache, g, all) && cache.pending == old(cache.pending)
            && cache.disk == WithHeader(g, old(cache.disk), hdr)
  {
    hide Loose, Spare, Cached, Ring, Lru, Unique, RefsOk, Coherent;
    Sizes(cache.bufs, cache.locked, cache.waiting, cache.leaving);
    ghost var bufs := cache.bufs;
    var b := Get(cache, g.start);
    cache.Modify(b, HeaderBlock(cache.bufs[b].data, hdr, |hdr|));
    cache.Bwrite(b);
    Brelse(cache, b);
    assert cache.pending == old(cache.pending);
    OneLoose(bufs, cache.bufs, b);
    StillIdle(bufs, cache.bufs, g, all);
  }

  lemma OneLoose(bufs: seq<Buf>, bufs': seq<Buf>, b: nat)
    requires b < |bufs| == |bufs'| && bufs' == bufs[b := bufs'[b]] && bufs'[b].refcnt == 0 && !bufs'[b].dirty
    ensures Spare(bufs') && forall n: nat | Loose(bufs, n) :: Loose(bufs', n)
  {
    assert Evictable(bufs'[b]);
  }

  /** install_trans, with the logged blocks still pinned. */
  method InstallTrans(cache: Cache, g: Geometry, hdr: seq<nat>) returns (ghost trace: seq<Disk>)
    requires Pinning(cache, g, hdr) && forall i | 0 <= i < |hdr| :: hdr[i] in cache.pending
    modifies cache
    ensures Pinning(cache, g, hdr) && cache.pending == old(cache.pending) - Members(hdr, |hdr|)
    ensures cache.disk == Installed(g, old(cache.disk), hdr, |hdr|)
            && trace == CrashLog.InstallTrace(g, old(cache.disk), hdr, |hdr|)
  {
    hide Loose, Spare, Cached, CrashLog.InstallTrace, Ring, Lru, Unique, RefsOk, Coherent;
    ghost var d := cache.disk;
    trace := [];
    var tail := 0;
    assert CrashLog.InstallTrace(g, d, hdr, 0) == [] by { NoTrace(g, d, seq(|hdr|, _ => ZeroBlock()), hdr); }
    while tail < |hdr|
      invariant 0 <= tail <= |hdr| && Pinning(cache, g, hdr) && cache.pending == old(cache.pending) - Members(hdr, tail)
      invariant cache.disk == Installed(g, d, hdr, tail) && trace == CrashLog.InstallTrace(g, d, hdr, tail)
    {
      PlaceOf(g, hdr, tail);
      ghost var bufs := cache.bufs;
      Copy(cache, g.start + tail + 1, hdr[tail], false);
      StillIdle(bufs, cache.bufs, g, hdr);
      CrashLog.InstallTraceStep(g, d, hdr, tail);
      assert cache.pending == old(cache.pending) - Members(hdr, tail + 1);
      trace := trace + [cache.disk];
      tail := tail + 1;
    }
  }

  /** The first k blocks of a list. */
  ghost function Members(hdr: seq<nat>, k: nat): set<nat>
    requires k <= |hdr|
  {
    set i | 0 <= i < k :: hdr[i]
  }

  /**
   commit: the disks it passes through are those of CrashLog's commit, every one of its bread calls finds a
   buffer, and no buffer stays pinned.
   */
  method Commit(cache: Cache, g: Geometry, hdr: seq<nat>) returns (ghost trace: seq<Disk>)
    requires Pinning(cache, g, hdr) && cache.pending.Keys == Members(hdr, |hdr|)
    modifies cache
    ensures Pinning(cache, g, hdr) && cache.pending == map[]
    ensures trace == if hdr == [] then [] else CrashLog.CommitTrace(g, old(cache.disk), hdr, old(Data(cache, hdr)))
    ensures cache.disk == if hdr == [] then old(cache.disk)
            else CommitAfter(g, old(cache.disk), hdr, old(Data(cache, hdr)), 2 * |hdr| + 2)
  {
    hide Loose, Spare, Cached, CrashLog.InstallTrace, CrashLog.LogTrace, CrashLog.CommitTrace, Ring, Lru, Unique,
         RefsOk, Coherent, Idle;
    trace := [];
    if hdr != [] {
      ghost var d, data := cache.disk, Data(cache, hdr);
      ghost var w1 := WriteLog(cache, g, hdr);
      WriteHead(cache, g, hdr, hdr);
      ghost var c := cache.disk;
      ghost var w2 := InstallTrans(cache, g, hdr);
      WriteHead(cache, g, [], hdr);
      CrashLog.TracesJoin(g, d, hdr, data, c, cache.disk);
      trace := w1 + [c] + w2 + [cache.disk];
    }
    assert cache.pending.Keys == {};
  }

  // ---------------------------------------------------------------- how many buffers commit needs

  ghost function PinnedBufs(bufs: seq<Buf>): set<nat> { set b: nat | b < |bufs| && bufs[b].dirty }
  ghost function HeldBufs(bufs: seq<Buf>): set<nat> { set b: nat | b < |bufs| && bufs[b].refcnt > 0 }

  lemma {:induction false} UpTo(s: set<nat>, n: nat)
    requires forall x: nat :: x in s <==> x < n
    ensures |s| == n
  {
    if n > 0 {
      UpTo(s - {n - 1}, n - 1);
    } else {
      assert s == {};
    }
  }

  /** A buffer is left exactly if the pinned and the held ones are not all. */
  lemma SpareIff(bufs: seq<Buf>)
    ensures Spare(bufs) <==> |PinnedBufs(bufs) + HeldBufs(bufs)| < |bufs|
  {
    var busy := PinnedBufs(bufs) + HeldBufs(bufs);
    var all := set b: nat | b < |bufs| && bufs[b].refcnt >= 0;
    UpTo(all, |bufs|);
    if b :| 0 <= b < |bufs| && Evictable(bufs[b]) {
      SubsetSize(busy, all - {b});
    } else {
      assert forall b | 0 <= b < |bufs| :: !Evictable(bufs[b]);
      assert busy == all;
    }
  }

  lemma {:induction false} OneEach(bufs: seq<Buf>, s: set<nat>, keys: set<nat>)
    requires forall b | b in s :: b < |bufs| && bufs[b].blockno in keys
    requires forall b, c | b in s && c in s && bufs[b].blockno == bufs[c].blockno :: b == c
    ensures |s| <= |keys|
    decreases |s|
  {
    if s != {} {
      var b :| b in s;
      OneEach(bufs, s - {b}, keys - {bufs[b].blockno});
    }
  }

  /** There are no more pinned buffers than pending blocks. */
  lemma PinnedBound(bufs: seq<Buf>, given: set<nat>, locked: seq<bool>, disk: seq<Block>, pending: map<nat, Block>)
    requires Unique(bufs, given) && Coherent(bufs, locked, disk, pending)
    ensures |PinnedBufs(bufs)| <= |pending.Keys|
  {
    forall b | b in PinnedBufs(bufs)
      ensures bufs[b].blockno in pending && bufs[b].dev == 1 && b in given
    {
      assert Agrees(bufs[b], locked[b], disk, pending);
    }
    OneEach(bufs, PinnedBufs(bufs), pending.Keys);
  }

  /** A commit finds its buffer while the logged blocks and the buffers others hold stay below NBUF together. */
  lemma CommitHasBuffer(cache: Cache)
    requires cache.Valid() && |cache.pending.Keys| + |HeldBufs(cache.bufs)| < NBUF
    ensures Spare(cache.bufs)
  {
    hide Ring, Lru, RefsOk, Coherent, Spare;
    PinnedBound(cache.bufs, cache.given, cache.locked, cache.disk, cache.pending);
    SpareIff(cache.bufs);
    var p, h := PinnedBufs(cache.bufs), HeldBufs(cache.bufs);
    assert p + h == p + (h - p);
    SubsetSize(h - p, h);
  }

  /** With the log mkfs lays out, that is so whenever nobody else holds a buffer. */
  lemma LogLeavesOne(g: Geometry, hdr: seq<nat>)
    requires Loggable(g, hdr) && g.size <= LOGSIZE
    ensures |Members(hdr, |hdr|)| < NBUF
  {
    MembersSize(hdr, |hdr|);
  }

  lemma {:induction false} MembersSize(hdr: seq<nat>, k: nat)
    requires k <= |hdr|
    ensures |Members(hdr, k)| <= k
  {
    if k > 0 {
      MembersSize(hdr, k - 1);
      assert Members(hdr, k) == Members(hdr, k - 1) + {hdr[k - 1]};
    }
  }
}
