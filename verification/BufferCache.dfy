/**
 bio.c over the in-memory disk of memide.c: the cache of NBUF buffers. Each method is one
 step that runs under the cache's lock or on a locked buffer, so a run is any sequence of them.
 */
module BufferCache {
  import opened Common
  import opened Blocks
  import opened BufferList

  datatype Buf = Buf(valid: bool, dirty: bool, dev: nat, blockno: nat, refcnt: nat, data: Block)

  /** Buffers by time of release: the list runs from the latest to the earliest. */
  ghost predicate Lru(order: seq<nat>, stamp: seq<nat>, clock: nat) {
    && |stamp| == NBUF
    && (forall b | 0 <= b < NBUF :: stamp[b] < clock && b in order)
    && (forall i | 0 <= i < |order| :: order[i] < NBUF)
    && (forall i, j | 0 <= i < j < |order| :: stamp[order[j]] < stamp[order[i]])
  }

  /** No two buffers that have been given a block have the same one. */
  ghost predicate Unique(bufs: seq<Buf>, given: set<nat>) {
    && |bufs| == NBUF
    && (forall b | b in given :: b < NBUF)
    && (forall b, c | b in given && c in given && bufs[b].dev == bufs[c].dev && bufs[b].blockno == bufs[c].blockno ::
        b == c)
    && (forall b | 0 <= b < NBUF && b !in given :: bufs[b].dev == 0 && bufs[b].blockno == 0 && !bufs[b].valid
                                                   && !bufs[b].dirty)
  }

  /** A reference is held by whoever waits for the buffer's lock, holds it, or has just let it go. */
  ghost predicate RefsOk(bufs: seq<Buf>, locked: seq<bool>, waiting: seq<nat>, leaving: seq<nat>) {
    && |bufs| == |locked| == |waiting| == |leaving| == NBUF
    && (forall b | 0 <= b < NBUF :: bufs[b].refcnt == waiting[b] + leaving[b] + if locked[b] then 1 else 0)
  }

  /** What a reader of block n should see: the logged change if one is pending, else the disk. */
  ghost function Current(disk: seq<Block>, pending: map<nat, Block>, n: nat): Block
    requires n < |disk|
  {
    if n in pending then pending[n] else disk[n]
  }

  ghost predicate Agrees(b: Buf, locked: bool, disk: seq<Block>, pending: map<nat, Block>) {
    && (b.valid ==> b.dev == 1 && b.blockno < |disk|)
    && (b.dirty ==> b.valid)
    && (b.valid ==> (b.dirty <==> b.blockno in pending))
    && (b.valid && !locked ==> b.data == Current(disk, pending, b.blockno))
  }

  /** Cached blocks are what a reader should see, and every pending block is in the cache. */
  ghost predicate Coherent(bufs: seq<Buf>, locked: seq<bool>, disk: seq<Block>, pending: map<nat, Block>) {
    && |bufs| == |locked| == NBUF
    && (forall b | 0 <= b < NBUF :: Agrees(bufs[b], locked[b], disk, pending))
    && (forall n | n in pending :: n < |disk| && exists b :: 0 <= b < NBUF && bufs[b].dirty && bufs[b].blockno == n)
  }

  ghost predicate Evictable(b: Buf) {
    b.refcnt == 0 && !b.dirty
  }

  class Cache {
    var next: seq<nat>
    var prev: seq<nat>
    var bufs: seq<Buf>
    var locked: seq<bool>
    var disk: seq<Block>
    ghost var order: seq<nat>                  // the list, most recently released first
    ghost var stamp: seq<nat>                  // when each buffer's last reference went
    ghost var clock: nat
    ghost var given: set<nat>               // buffers that have been given a block
    ghost var waiting: seq<nat>
    ghost var leaving: seq<nat>
    ghost var pending: map<nat, Block>  // logged changes not yet on disk

    ghost predicate Valid()
      reads this
    {
      && Ring(next, prev, order) && Lru(order, stamp, clock)
      && Unique(bufs, given) && RefsOk(bufs, locked, waiting, leaving) && Coherent(bufs, locked, disk, pending)
    }

    /** binit. */
    constructor (disk: seq<Block>)
      ensures Valid() && this.disk == disk && pending == map[] && given == {}
    {
      this.disk := disk;
      var nx: seq<nat>, pv: seq<nat> := seq(NBUF + 1, _ => HEAD), seq(NBUF + 1, _ => HEAD);
      ghost var ord: seq<nat> := [];
      var b := 0;
      while b < NBUF
        invariant 0 <= b <= NBUF && Ring(nx, pv, ord) && |ord| == b
        invariant forall i | 0 <= i < b :: ord[i] == b - 1 - i
      {
        PushFront(nx, pv, ord, b);
        var first := nx[HEAD];
        nx := nx[b := first];
        pv := pv[b := HEAD];
        pv := pv[first := b];
        nx := nx[HEAD := b];
        ord := [b] + ord;
        b := b + 1;
      }
      next, prev, order := nx, pv, ord;
      bufs := seq(NBUF, _ => Buf(false, false, 0, 0, 0, ZeroBlock()));
      locked := seq(NBUF, _ => false);
      stamp, clock, given := seq(NBUF, i => i), NBUF, {};
      waiting, leaving, pending := seq(NBUF, _ => 0), seq(NBUF, _ => 0), map[];
      new;
      forall c | 0 <= c < NBUF
        ensures c in order
      {
        assert order[NBUF - 1 - c] == c;
      }
    }

    /** The first buffer of the list that holds the block, if any does. */
    method Search(dev: nat, blockno: nat) returns (r: Option<nat>)
      requires Valid()
      ensures r.Some? ==> r.value < NBUF && bufs[r.value].dev == dev && bufs[r.value].blockno == blockno
      ensures r.None? ==> forall b | 0 <= b < NBUF :: !(bufs[b].dev == dev && bufs[b].blockno == blockno)
    {
      hide RefsOk, Coherent;
      var b := next[HEAD];
      ghost var i := 1;
      assert At(order, 0) == HEAD;
      while b != HEAD
        invariant 1 <= i <= |order| + 1 && b == At(order, i)
        invariant forall j | 1 <= j < i :: !(bufs[At(order, j)].dev == dev && bufs[At(order, j)].blockno == blockno)
        decreases |order| + 1 - i
      {
        if bufs[b].dev == dev && bufs[b].blockno == blockno {
          return Some(b);
        }
        b := next[b];
        i := i + 1;
      }
      NotSeen(bufs, order, stamp, clock, dev, blockno);
      r := None;
    }

    /** The first clean unreferenced buffer from the tail of the list: the one released longest ago. */
    method Victim() returns (r: Option<nat>)
      requires Valid()
      ensures r.Some? ==> r.value < NBUF && Evictable(bufs[r.value])
                          && forall b | 0 <= b < NBUF && Evictable(bufs[b]) && b != r.value :: stamp[r.value] < stamp[b]
      ensures r.None? ==> forall b | 0 <= b < NBUF :: !Evictable(bufs[b])
    {
      hide RefsOk, Coherent;
      var b := prev[HEAD];
      ghost var i := |order|;
      assert At(order, |order| + 1) == HEAD;
      while b != HEAD
        invariant 0 <= i <= |order| && b == At(order, i)
        invariant forall j | i < j <= |order| :: !Evictable(bufs[At(order, j)])
        decreases i
      {
        if bufs[b].refcnt == 0 && !bufs[b].dirty {
          Oldest(bufs, order, stamp, clock, i);
          return Some(b);
        }
        b := prev[b];
        i := i - 1;
      }
      NoneFree(bufs, order, stamp, clock);
      r := None;
    }

    /**
     bget up to its wait for the buffer's lock: a reference to the one buffer of the block, the
     cached one or the least recently released clean unreferenced one; None is the panic.
     */
    method Bget(dev: nat, blockno: nat) returns (r: Option<nat>)
      requires Valid()
      modifies `bufs, `waiting, `given
      ensures Valid()
      ensures r.Some? ==> r.value < NBUF && bufs[r.value].dev == dev && bufs[r.value].blockno == blockno
                          && waiting[r.value] > 0
      ensures r.None? <==> !Cached(old(bufs), dev, blockno) && forall b | 0 <= b < NBUF :: !Evictable(old(bufs)[b])
      ensures r.None? ==> bufs == old(bufs) && waiting == old(waiting) && given == old(given)
      ensures r.Some? ==> waiting == old(waiting)[r.value := old(waiting)[r.value] + 1]
      ensures r.Some? && Cached(old(bufs), dev, blockno) ==>
                given == old(given) && bufs ==
                  old(bufs)[r.value := old(bufs)[r.value].(refcnt := old(bufs)[r.value].refcnt + 1)]
      ensures r.Some? && !Cached(old(bufs), dev, blockno) ==>
                && Evictable(old(bufs)[r.value])
                && (forall b | 0 <= b < NBUF && Evictable(old(bufs)[b]) && b != r.value :: stamp[r.value] < stamp[b])
                && given == old(given) + {r.value}
                && bufs == old(bufs)[r.value := Buf(false, false, dev, blockno, 1, old(bufs)[r.value].data)]
    {
      hide Ring, Lru, Unique, RefsOk, Coherent, Evictable;
      Sizes(bufs, locked, waiting, leaving);
      var found := Search(dev, blockno);
      if found.Some? {
        var b := found.value;
        TakeRef(bufs, locked, waiting, leaving, given, disk, pending, b);
        bufs := bufs[b := bufs[b].(refcnt := bufs[b].refcnt + 1)];
        waiting := waiting[b := waiting[b] + 1];
        return Some(b);
      }
      var victim := Victim();
      if victim.Some? {
        var b := victim.value;
        Recycle(bufs, locked, waiting, leaving, given, disk, pending, b, dev, blockno);
        bufs := bufs[b := Buf(false, false, dev, blockno, 1, bufs[b].data)];
        waiting := waiting[b := waiting[b] + 1];
        given := given + {b};
        return Some(b);
      }
      r := None;
    }

    /** acquiresleep on a buffer, as the step in which it succeeds. */
    method Acquire(b: nat)
      requires Valid() && b < NBUF && waiting[b] > 0 && !locked[b]
      modifies `locked, `waiting
      ensures Valid() && locked == old(locked)[b := true] && waiting == old(waiting)[b := old(waiting)[b] - 1]
    {
      hide Ring, Lru, Unique;
      locked := locked[b := true];
      waiting := waiting[b := waiting[b] - 1];
    }

    /** iderw on a buffer that is not valid: fill it. True is a panic: not the memory disk, or beyond its end. */
    method Fill(b: nat) returns (panicked: bool)
      requires Valid() && b < NBUF && locked[b] && !bufs[b].valid
      modifies `bufs
      ensures Valid() && (panicked <==> bufs[b].dev != 1 || bufs[b].blockno >= |disk|)
      ensures panicked ==> bufs == old(bufs)
      ensures !panicked ==> bufs[b].data == Current(disk, pending, bufs[b].blockno)
                            && bufs == old(bufs)[b := old(bufs)[b].(valid := true, data := bufs[b].data)]
    {
      hide Ring, Lru;
      if bufs[b].dev != 1 || bufs[b].blockno >= |disk| {
        return true;
      }
      NotPending(bufs, locked, given, disk, pending, b);
      bufs := bufs[b := bufs[b].(valid := true, data := disk[bufs[b].blockno])];
      StillDirty(old(bufs), bufs, locked, disk, pending, b);
      panicked := false;
    }

    /** bread when nobody has the block's buffer locked: a locked buffer with what a reader should see. */
    method Bread(dev: nat, blockno: nat) returns (r: Option<nat>)
      requires Valid() && forall b | 0 <= b < NBUF && bufs[b].dev == dev && bufs[b].blockno == blockno :: !locked[b]
      modifies `bufs, `waiting, `given, `locked
      ensures r.Some? ==> && Valid() && dev == 1 && blockno < |disk| && r.value < NBUF
                          && locked == old(locked)[r.value := true]
                          && waiting == old(waiting) && bufs[r.value].valid && bufs[r.value].dev == dev
                          && bufs[r.value].blockno == blockno
                          && bufs[r.value].data == Current(disk, pending, blockno)
      ensures r.Some? ==> var cached := Cached(old(bufs), dev, blockno);
                          && given == old(given) + (if cached then {} else {r.value})
                          && bufs == old(bufs)[r.value := Buf(true, cached && old(bufs)[r.value].dirty, dev, blockno,
                                                              if cached then old(bufs)[r.value].refcnt + 1 else 1,
                                                                bufs[r.value].data)]
                          && (if cached then old(bufs)[r.value].dev == dev && old(bufs)[r.value].blockno == blockno
                              else Evictable(old(bufs)[r.value]))
      ensures r.None? <==> || dev != 1 || blockno >= |disk|
                           || (!Cached(old(bufs), dev, blockno) && forall b | 0 <= b < NBUF :: !Evictable(old(bufs)[b]))
    {
      hide Ring, Lru, Unique, RefsOk, Coherent, Evictable, Current;
      Sizes(bufs, locked, waiting, leaving);
      r := Bget(dev, blockno);
      if r.None? {
        return;
      }
      var b := r.value;
      FreeToLock(old(bufs), old(locked), old(waiting), leaving, b);
      Acquire(b);
      assert waiting == old(waiting);
      if bufs[b].valid {
        WasRight(old(bufs), old(locked), disk, pending, b);
        assert bufs[b].data == old(bufs)[b].data;
        return;
      }
      var panicked := Fill(b);
      if panicked {
        r := None;
      }
    }

    /** The holder of a buffer changes its data. */
    method Modify(b: nat, data: Block)
      requires Valid() && b < NBUF && locked[b] && bufs[b].valid
      modifies `bufs
      ensures Valid() && bufs == old(bufs)[b := old(bufs)[b].(data := data)]
    {
      hide Ring, Lru;
      bufs := bufs[b := bufs[b].(data := data)];
      StillDirty(old(bufs), bufs, locked, disk, pending, b);
    }

    /** The part of log_write that touches the buffer: the change is pending and the buffer pinned. */
    method Pin(b: nat)
      requires Valid() && b < NBUF && locked[b] && bufs[b].valid
      modifies `bufs, `pending
      ensures Valid() && bufs == old(bufs)[b := old(bufs)[b].(dirty := true)]
      ensures pending == old(pending)[bufs[b].blockno := bufs[b].data]
    {
      hide Ring, Lru, Unique, RefsOk, Coherent;
      Sizes(bufs, locked, waiting, leaving);
      SameBlocks(bufs, locked, waiting, leaving, given, b, true);
      Pinned(bufs, locked, given, disk, pending, b);
      bufs := bufs[b := bufs[b].(dirty := true)];
      pending := pending[bufs[b].blockno := bufs[b].data];
    }

    /** bwrite: the data go to the disk, and nothing is pending for the block any more. */
    method Bwrite(b: nat)
      requires Valid() && b < NBUF && locked[b] && bufs[b].valid
      modifies `bufs, `disk, `pending
      ensures Valid() && bufs == old(bufs)[b := old(bufs)[b].(dirty := false)]
      ensures bufs[b].blockno < |old(disk)| && disk == old(disk)[bufs[b].blockno := bufs[b].data]
              && pending == old(pending) - {bufs[b].blockno}
    {
      hide Ring, Lru, Unique, RefsOk, Coherent;
      Sizes(bufs, locked, waiting, leaving);
      SameBlocks(bufs, locked, waiting, leaving, given, b, false);
      Written(bufs, locked, given, disk, pending, b);
      var n := bufs[b].blockno;
      bufs := bufs[b := bufs[b].(dirty := true)];
      bufs := bufs[b := bufs[b].(dirty := false)];
      assert bufs == old(bufs)[b := old(bufs)[b].(dirty := false)];
      disk := disk[n := bufs[b].data];
      pending := pending - {n};
    }

    /** releasesleep on a buffer whose changes, if any, have been logged or written. */
    method Release(b: nat)
      requires Valid() && b < NBUF && locked[b]
               && (bufs[b].valid ==> bufs[b].data == Current(disk, pending, bufs[b].blockno))
      modifies `locked, `leaving
      ensures Valid() && locked == old(locked)[b := false] && leaving == old(leaving)[b := old(leaving)[b] + 1]
    {
      hide Ring, Lru, Unique;
      locked := locked[b := false];
      leaving := leaving[b := leaving[b] + 1];
    }

    /** The rest of brelse: drop the reference; with the last one the buffer moves to the front of the list. */
    method Drop(b: nat)
      requires Valid() && b < NBUF && leaving[b] > 0
      modifies `bufs, `leaving, `next, `prev, `order, `stamp, `clock
      ensures Valid() && bufs == old(bufs)[b := old(bufs)[b].(refcnt := old(bufs)[b].refcnt - 1)]
      ensures leaving == old(leaving)[b := old(leaving)[b] - 1]
      ensures if bufs[b].refcnt > 0 then order == old(order) && stamp == old(stamp) && clock == old(clock)
              else && |order| == |old(order)| > 0 && order[0] == b && multiset(order) == multiset(old(order))
                   && stamp == old(stamp)[b := old(clock)] && clock == old(clock) + 1
    {
      hide Ring, Lru, Unique, RefsOk, Coherent;
      Sizes(bufs, locked, waiting, leaving);
      GiveRef(bufs, locked, waiting, leaving, given, disk, pending, b);
      bufs := bufs[b := bufs[b].(refcnt := bufs[b].refcnt - 1)];
      leaving := leaving[b := leaving[b] - 1];
      if bufs[b].refcnt == 0 {
        ToFront(b);
      }
    }

    /** Take a buffer out of the list and put it in again after the head. */
    method ToFront(b: nat)
      requires Ring(next, prev, order) && Lru(order, stamp, clock) && b < NBUF
      modifies `next, `prev, `order, `stamp, `clock
      ensures Ring(next, prev, order) && Lru(order, stamp, clock)
      ensures |order| == |old(order)| > 0 && order[0] == b && multiset(order) == multiset(old(order))
      ensures |old(stamp)| == NBUF && stamp == old(stamp)[b := old(clock)] && clock == old(clock) + 1
    {
      hide Ring, Lru;
      ghost var i := Position(next, prev, order, stamp, clock, b);
      MoveToFront(next, prev, order, stamp, clock, i);
      prev := prev[next[b] := prev[b]];
      next := next[prev[b] := next[b]];
      next := next[b := next[HEAD]];
      prev := prev[b := HEAD];
      prev := prev[next[HEAD] := b];
      next := next[HEAD := b];
      order := [b] + Removed(order, i);
      stamp := stamp[b := clock];
      clock := clock + 1;
    }
  }

  ghost predicate Cached(bufs: seq<Buf>, dev: nat, blockno: nat) {
    exists b :: 0 <= b < |bufs| && bufs[b].dev == dev && bufs[b].blockno == blockno
  }

  lemma Sizes(bufs: seq<Buf>, locked: seq<bool>, waiting: seq<nat>, leaving: seq<nat>)
    requires RefsOk(bufs, locked, waiting, leaving)
    ensures |bufs| == |locked| == |waiting| == |leaving| == NBUF
  {
  }

  lemma TakeRef(bufs: seq<Buf>, locked: seq<bool>, waiting: seq<nat>, leaving: seq<nat>, given: set<nat>,
                disk: seq<Block>, pending: map<nat, Block>, b: nat)
    requires Unique(bufs, given) && RefsOk(bufs, locked, waiting, leaving) && Coherent(bufs, locked, disk, pending)
             && b < NBUF
    ensures var bufs' := bufs[b := bufs[b].(refcnt := bufs[b].refcnt + 1)];
            Unique(bufs', given) && RefsOk(bufs', locked, waiting[b := waiting[b] + 1], leaving)
            && Coherent(bufs', locked, disk, pending)
  {
  }

  lemma GiveRef(bufs: seq<Buf>, locked: seq<bool>, waiting: seq<nat>, leaving: seq<nat>, given: set<nat>,
                disk: seq<Block>, pending: map<nat, Block>, b: nat)
    requires Unique(bufs, given) && RefsOk(bufs, locked, waiting, leaving) && Coherent(bufs, locked, disk, pending)
             && b < NBUF && leaving[b] > 0
    ensures bufs[b].refcnt > 0
    ensures var bufs' := bufs[b := bufs[b].(refcnt := bufs[b].refcnt - 1)];
            Unique(bufs', given) && RefsOk(bufs', locked, waiting, leaving[b := leaving[b] - 1])
            && Coherent(bufs', locked, disk, pending)
  {
  }

  /** A clean buffer can be given to another block: what it held is on the disk. */
  lemma Recycle(bufs: seq<Buf>, locked: seq<bool>, waiting: seq<nat>, leaving: seq<nat>, given: set<nat>,
                disk: seq<Block>, pending: map<nat, Block>,
                b: nat, dev: nat, blockno: nat)
    requires Unique(bufs, given) && RefsOk(bufs, locked, waiting, leaving) && Coherent(bufs, locked, disk, pending)
             && b < NBUF
    requires Evictable(bufs[b]) && !Cached(bufs, dev, blockno)
    ensures var bufs' := bufs[b := Buf(false, false, dev, blockno, 1, bufs[b].data)];
            && Unique(bufs', given + {b}) && RefsOk(bufs', locked, waiting[b := waiting[b] + 1], leaving)
            && Coherent(bufs', locked, disk, pending)
            && waiting[b] == 0
  {
  }

  /** Changing one buffer keeps every pending block in the cache if the buffer was clean or keeps its block dirty. */
  lemma StillDirty(bufs: seq<Buf>, bufs': seq<Buf>, locked: seq<bool>, disk: seq<Block>, pending: map<nat, Block>,
                   b: nat)
    requires Coherent(bufs, locked, disk, pending) && b < NBUF && |bufs'| == NBUF
             && forall c | 0 <= c < NBUF && c != b :: bufs'[c] == bufs[c]
    requires bufs[b].dirty ==> bufs'[b].dirty && bufs'[b].blockno == bufs[b].blockno
    ensures forall n | n in pending :: n < |disk| && exists c ::
                                       0 <= c < NBUF && bufs'[c].dirty && bufs'[c].blockno == n
  {
  }

  lemma NotPending(bufs: seq<Buf>, locked: seq<bool>, given: set<nat>, disk: seq<Block>, pending: map<nat, Block>,
                   b: nat)
    requires Unique(bufs, given) && Coherent(bufs, locked, disk, pending) && b < NBUF && !bufs[b].valid
             && bufs[b].dev == 1
    ensures bufs[b].blockno !in pending && !bufs[b].dirty
  {
  }

  lemma FreeToLock(bufs: seq<Buf>, locked: seq<bool>, waiting: seq<nat>, leaving: seq<nat>, b: nat)
    requires RefsOk(bufs, locked, waiting, leaving) && b < NBUF
    ensures Evictable(bufs[b]) ==> !locked[b]
  {
  }

  lemma WasRight(bufs: seq<Buf>, locked: seq<bool>, disk: seq<Block>, pending: map<nat, Block>, b: nat)
    requires Coherent(bufs, locked, disk, pending) && b < NBUF && bufs[b].valid && !locked[b]
    ensures bufs[b].dev == 1 && bufs[b].blockno < |disk| && bufs[b].data == Current(disk, pending, bufs[b].blockno)
  {
  }

  lemma SameBlocks(bufs: seq<Buf>, locked: seq<bool>, waiting: seq<nat>, leaving: seq<nat>, given: set<nat>, b: nat,
                   dirty: bool)
    requires Unique(bufs, given) && RefsOk(bufs, locked, waiting, leaving) && b < NBUF && bufs[b].valid
    ensures var bufs' := bufs[b := bufs[b].(dirty := dirty)];
            Unique(bufs', given) && RefsOk(bufs', locked, waiting, leaving)
  {
  }

  lemma Pinned(bufs: seq<Buf>, locked: seq<bool>, given: set<nat>, disk: seq<Block>, pending: map<nat, Block>, b: nat)
    requires Unique(bufs, given) && Coherent(bufs, locked, disk, pending) && b < NBUF && bufs[b].valid && locked[b]
    ensures Coherent(bufs[b := bufs[b].(dirty := true)], locked, disk, pending[bufs[b].blockno := bufs[b].data])
  {
  }

  lemma Written(bufs: seq<Buf>, locked: seq<bool>, given: set<nat>, disk: seq<Block>, pending: map<nat, Block>, b: nat)
    requires Unique(bufs, given) && Coherent(bufs, locked, disk, pending) && b < NBUF && bufs[b].valid && locked[b]
    ensures bufs[b].blockno < |disk|
    ensures Coherent(bufs[b := bufs[b].(dirty := false)], locked, disk[bufs[b].blockno := bufs[b].data],
                     pending - {bufs[b].blockno})
  {
  }

  lemma Position(next: seq<nat>, prev: seq<nat>, order: seq<nat>, stamp: seq<nat>, clock: nat, b: nat) returns (i: nat)
    requires Ring(next, prev, order) && Lru(order, stamp, clock) && b < NBUF
    ensures i < |order| && order[i] == b && next[b] <= NBUF && prev[b] <= NBUF
  {
    i := InList(order, stamp, clock, b);
    i := i - 1;
    TakeOut(next, prev, order, i);
  }

  /** The list surgery of brelse moves the buffer to the front and changes nothing else. */
  lemma MoveToFront(next: seq<nat>, prev: seq<nat>, order: seq<nat>, stamp: seq<nat>, clock: nat, i: nat)
    requires Ring(next, prev, order) && Lru(order, stamp, clock) && i < |order|
    ensures |next| == |prev| == NBUF + 1 && |stamp| == NBUF
    ensures var b := order[i];
            var p, n := prev[b], next[b];
            && b < NBUF && p <= NBUF && n <= NBUF && p != b && n != b
            && var next1, prev1 := next[p := n], prev[n := p];
            && next1[HEAD] <= NBUF
            && Ring(next1[b := next1[HEAD]][HEAD := b], prev1[b := HEAD][next1[HEAD] := b], [b] + Removed(order, i))
            && Lru([b] + Removed(order, i), stamp[b := clock], clock + 1)
            && multiset([b] + Removed(order, i)) == multiset(order)
  {
    var b := order[i];
    TakeOut(next, prev, order, i);
    PushFront(next[prev[b] := next[b]], prev[next[b] := prev[b]], Removed(order, i), b);
    Restamped(order, stamp, clock, i);
    assert order == order[..i] + [b] + order[i + 1..];
  }

  lemma FrontAt(order: seq<nat>, i: nat, k: nat)
    requires i < |order| && k < |order|
    ensures |[order[i]] + Removed(order, i)| == |order|
    ensures ([order[i]] + Removed(order, i))[k] == if k == 0 then order[i] else if k <= i then order[k - 1]
            else order[k]
  {
  }

  lemma Restamped(order: seq<nat>, stamp: seq<nat>, clock: nat, i: nat)
    requires Lru(order, stamp, clock) && i < |order|
    ensures Lru([order[i]] + Removed(order, i), stamp[order[i] := clock], clock + 1)
  {
    hide Removed;
    var b, order' := order[i], [order[i]] + Removed(order, i);
    FrontAt(order, i, 0);
    forall c | 0 <= c < NBUF
      ensures c in order'
    {
      assert c in order;
      var j :| 0 <= j < |order| && order[j] == c;
      FrontAt(order, i, if j == i then 0 else if j < i then j + 1 else j);
    }
    forall k | 0 <= k < |order'|
      ensures order'[k] < NBUF
    {
      FrontAt(order, i, k);
    }
    forall j, k | 0 <= j < k < |order'|
      ensures stamp[b := clock][order'[k]] < stamp[b := clock][order'[j]]
    {
      FrontAt(order, i, j);
      FrontAt(order, i, k);
    }
  }

  lemma InList(order: seq<nat>, stamp: seq<nat>, clock: nat, b: nat) returns (i: nat)
    requires Lru(order, stamp, clock) && b < NBUF
    ensures 1 <= i <= |order| && At(order, i) == b
  {
    assert b in order;
    i :| 0 <= i < |order| && order[i] == b;
    i := i + 1;
  }

  lemma NotSeen(bufs: seq<Buf>, order: seq<nat>, stamp: seq<nat>, clock: nat, dev: nat, blockno: nat)
    requires Lru(order, stamp, clock) && |bufs| == NBUF
    requires forall j | 1 <= j < |order| + 1 ::
             !(bufs[At(order, j)].dev == dev && bufs[At(order, j)].blockno == blockno)
    ensures forall b | 0 <= b < NBUF :: !(bufs[b].dev == dev && bufs[b].blockno == blockno)
  {
    forall b | 0 <= b < NBUF
      ensures !(bufs[b].dev == dev && bufs[b].blockno == blockno)
    {
      var i := InList(order, stamp, clock, b);
    }
  }

  lemma NoneFree(bufs: seq<Buf>, order: seq<nat>, stamp: seq<nat>, clock: nat)
    requires Lru(order, stamp, clock) && |bufs| == NBUF && forall j | 1 <= j <= |order| ::
             !Evictable(bufs[At(order, j)])
    ensures forall b | 0 <= b < NBUF :: !Evictable(bufs[b])
  {
    forall b | 0 <= b < NBUF
      ensures !Evictable(bufs[b])
    {
      var i := InList(order, stamp, clock, b);
    }
  }

  lemma Oldest(bufs: seq<Buf>, order: seq<nat>, stamp: seq<nat>, clock: nat, i: nat)
    requires Lru(order, stamp, clock) && |bufs| == NBUF && 1 <= i <= |order|
    requires forall j | i < j <= |order| :: !Evictable(bufs[At(order, j)])
    ensures forall b | 0 <= b < NBUF && Evictable(bufs[b]) && b != At(order, i) :: stamp[At(order, i)] < stamp[b]
  {
    forall b | 0 <= b < NBUF && Evictable(bufs[b]) && b != At(order, i)
      ensures stamp[At(order, i)] < stamp[b]
    {
      var j := InList(order, stamp, clock, b);
      assert j < i;
    }
  }
}
