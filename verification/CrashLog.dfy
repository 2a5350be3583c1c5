/**
 The redo log of log.c as code: an object whose methods write one disk block at a
 time. The ghost field `writes` records the disk after every write, so a contract
 about it speaks of every point at which the machine could stop.
 */
module CrashLog {
  import opened Blocks
  import opened LogDisk

  datatype Outcome = Done | Panic

  /** The disk overlaid with the pinned dirty buffers: what bread returns. */
  function Seen(d: Disk, dirty: map<nat, Block>, b: nat): Block
    requires b < |d|
  {
    if b in dirty then dirty[b] else d[b]
  }

  /** The contents of the logged buffers, in log order. */
  ghost function PendingData(d: Disk, dirty: map<nat, Block>, hdr: seq<nat>): seq<Block>
    requires forall i | 0 <= i < |hdr| :: hdr[i] < |d|
  {
    seq(|hdr|, i requires 0 <= i < |hdr| => Seen(d, dirty, hdr[i]))
  }

  /** The disks that installing the first n logged blocks passes through. */
  ghost function InstallTrace(g: Geometry, d: Disk, hdr: seq<nat>, n: nat): seq<Disk>
    requires OnDisk(g, d) && Loggable(g, hdr) && n <= |hdr|
  {
    seq(n, k requires 0 <= k < n => Installed(g, d, hdr, k + 1))
  }

  ghost function LogTrace(g: Geometry, d: Disk, data: seq<Block>, n: nat): seq<Disk>
    requires OnDisk(g, d) && |data| <= g.Capacity() && n <= |data|
  {
    seq(n, k requires 0 <= k < n => Logged(g, d, data, k + 1))
  }

  ghost function CommitTrace(g: Geometry, d: Disk, hdr: seq<nat>, data: seq<Block>): seq<Disk>
    requires OnDisk(g, d) && Loggable(g, hdr) && |data| == |hdr|
  {
    seq(2 * |hdr| + 2, k requires 0 <= k < 2 * |hdr| + 2 => CommitAfter(g, d, hdr, data, k + 1))
  }

  ghost function RecoveryTrace(g: Geometry, d: Disk): seq<Disk>
    requires OnDisk(g, d) && HeaderOk(g, d)
  {
    seq(|Entries(g, d)| + 1, k requires 0 <= k < |Entries(g, d)| + 1 => RecoveryAfter(g, d, k + 1))
  }

  lemma InstallTraceStep(g: Geometry, d: Disk, hdr: seq<nat>, n: nat)
    requires OnDisk(g, d) && Loggable(g, hdr) && n < |hdr|
    ensures InstallTrace(g, d, hdr, n + 1) == InstallTrace(g, d, hdr, n) + [Installed(g, d, hdr, n + 1)]
  {
  }

  lemma LogTraceStep(g: Geometry, d: Disk, data: seq<Block>, n: nat)
    requires OnDisk(g, d) && |data| <= g.Capacity() && n < |data|
    ensures LogTrace(g, d, data, n + 1) == LogTrace(g, d, data, n) + [Logged(g, d, data, n + 1)]
  {
  }

  lemma RecoveryTraceJoins(g: Geometry, d: Disk)
    requires OnDisk(g, d) && HeaderOk(g, d)
    ensures var hdr := Entries(g, d);
            RecoveryTrace(g, d) == InstallTrace(g, d, hdr, |hdr|) + [Recovered(g, d)]
  {
  }

  class Log {
    const g: Geometry
    const block: array<nat>
    var disk: Disk
    var dirty: map<nat, Block>
    var n: nat
    var outstanding: nat
    var committing: bool
    ghost var writes: seq<Disk>

    ghost predicate Valid()
      reads this, block
    {
      && OnDisk(g, disk)
      && block.Length == LOGSIZE && n <= LOGSIZE
      && (forall b | b in dirty :: g.Home(b))
    }

    /** The in-memory header: the block numbers logged so far. */
    ghost function Header(): seq<nat>
      requires n <= block.Length
      reads this, block
    {
      block[..n]
    }

    function View(b: nat): Block
      requires b < |disk|
      reads this
    {
      Seen(disk, dirty, b)
    }

    ghost function Pending(): seq<Block>
      requires Valid() && Loggable(g, Header())
      reads this, block
    {
      PendingData(disk, dirty, Header())
    }

    /** Between commits: the on-disk log is empty and exactly the logged blocks are pinned. */
    ghost predicate Between()
      reads this, block
    {
      && Valid()
      && Clear(g, disk)
      && Loggable(g, Header())
      && (forall i, j | 0 <= i < j < n :: block[i] != block[j])
      && (forall b | b in dirty :: b in Header())
      && (forall b | b in Header() :: b in dirty)
    }

    constructor (g: Geometry, image: Disk)
      requires OnDisk(g, image)
      ensures Valid() && this.g == g && disk == image && fresh(block)
      ensures dirty == map[] && n == 0 && outstanding == 0 && !committing && writes == []
    {
      this.g := g;
      block := new nat[LOGSIZE];
      disk := image;
      dirty := map[];
      n := 0;
      outstanding := 0;
      committing := false;
      writes := [];
    }

    /** A synchronous block write; the buffer becomes clean. */
    method Bwrite(b: nat, data: Block)
      requires Valid() && b < |disk|
      modifies `disk, `dirty, `writes
      ensures Valid()
      ensures disk == old(disk)[b := data]
      ensures dirty == old(dirty) - {b}
      ensures writes == old(writes) + [disk]
    {
      disk := disk[b := data];
      dirty := dirty - {b};
      writes := writes + [disk];
    }

    /** Copy committed blocks from the log to their home locations. */
    method InstallTrans()
      requires Valid() && Loggable(g, Header())
      modifies `disk, `dirty, `writes
      ensures Valid()
      ensures disk == Installed(g, old(disk), Header(), n)
      ensures forall b | b in dirty :: b in old(dirty) && dirty[b] == old(dirty)[b] && b !in Header()
      ensures forall b | b in old(dirty) && b !in Header() :: b in dirty
      ensures writes == old(writes) + InstallTrace(g, old(disk), Header(), n)
    {
      var tail := 0;
      while tail < n
        invariant 0 <= tail <= n && Valid()
        invariant disk == Installed(g, old(disk), Header(), tail)
        invariant forall b | b in dirty :: b in old(dirty) && dirty[b] == old(dirty)[b] && b !in Header()[..tail]
        invariant forall b | b in old(dirty) && b !in Header()[..tail] :: b in dirty
        invariant writes == old(writes) + InstallTrace(g, old(disk), Header(), tail)
      {
        var lbuf := View(g.start + tail + 1);
        assert Header()[..tail + 1] == Header()[..tail] + [block[tail]];
        Bwrite(block[tail], lbuf);
        InstallTraceStep(g, old(disk), Header(), tail);
        tail := tail + 1;
      }
      assert Header()[..n] == Header();
    }

    /** Read the on-disk header into memory. */
    method ReadHead()
      requires Valid() && HeaderOk(g, disk) && dirty == map[]
      modifies `n, block
      ensures Valid() && Header() == Entries(g, disk)
    {
      var buf := View(g.start);
      n := GetWord(buf, 0);
      var i := 0;
      while i < n
        invariant 0 <= i <= n == GetWord(buf, 0)
        invariant block[..i] == Entries(g, disk)[..i]
      {
        block[i] := GetWord(buf, i + 1);
        i := i + 1;
      }
    }

    /** Write the in-memory header to disk: the true point at which a transaction commits. */
    method WriteHead()
      requires Valid() && Loggable(g, Header())
      modifies `disk, `dirty, `writes
      ensures Valid() && dirty == old(dirty)
      ensures disk == WithHeader(g, old(disk), Header())
      ensures writes == old(writes) + [disk]
    {
      var buf := View(g.start);
      var hb := PutWord(buf, 0, n);
      var i := 0;
      while i < n
        invariant 0 <= i <= n
        invariant hb == HeaderBlock(buf, Header(), i)
      {
        hb := PutWord(hb, i + 1, block[i]);
        i := i + 1;
      }
      assert g.start !in dirty;
      Bwrite(g.start, hb);
    }

    /** Copy the modified blocks from the cache into the log. */
    method WriteLog()
      requires Valid() && Loggable(g, Header())
      modifies `disk, `dirty, `writes
      ensures Valid() && dirty == old(dirty)
      ensures disk == Logged(g, old(disk), old(Pending()), n)
      ensures writes == old(writes) + LogTrace(g, old(disk), old(Pending()), n)
    {
      ghost var data := Pending();
      var tail := 0;
      while tail < n
        invariant 0 <= tail <= n && Valid() && dirty == old(dirty)
        invariant disk == Logged(g, old(disk), data, tail)
        invariant writes == old(writes) + LogTrace(g, old(disk), data, tail)
      {
        var from := View(block[tail]);
        PendingStays(g, old(disk), dirty, Header(), tail);
        Bwrite(g.start + tail + 1, from);
        assert dirty == old(dirty);
        LogTraceStep(g, old(disk), data, tail);
        tail := tail + 1;
      }
    }

    /**
     Commit the transaction. The contract gives the disk after every single write; the
     lemma CrashAtomicity says what each of those disks recovers to.
     */
    method Commit()
      requires Between()
      modifies `disk, `dirty, `writes, `n
      ensures Between() && n == 0 && dirty == map[]
      ensures forall b | 0 <= b < g.nblocks && g.Home(b) :: disk[b] == old(View(b))
      ensures writes == old(writes) +
                        (if old(n) == 0 then [] else CommitTrace(g, old(disk), old(Header()), old(Pending())))
    {
      if n > 0 {
        ghost var d, hdr, data := disk, Header(), Pending();
        WriteLog();
        WriteHead();
        ghost var c := disk;
        InstallTrans();
        n := 0;
        assert Header() == [];
        WriteHead();
        assert dirty == map[];
        CommitEffect(g, d, old(dirty), hdr, disk);
        ghost var w1, w2 := LogTrace(g, d, data, |hdr|), InstallTrace(g, c, hdr, |hdr|);
        TracesJoin(g, d, hdr, data, c, disk);
        Associate(old(writes), w1, [c], w2, [disk]);
      }
    }

    /** Replay a committed transaction, if there is one, and clear the log. */
    method RecoverFromLog()
      requires Valid() && HeaderOk(g, disk) && dirty == map[]
      modifies `disk, `dirty, `writes, `n, block
      ensures Between() && n == 0 && dirty == map[]
      ensures disk == Recovered(g, old(disk))
      ensures writes == old(writes) + RecoveryTrace(g, old(disk))
    {
      ReadHead();
      InstallTrans();
      n := 0;
      assert Header() == [];
      WriteHead();
      assert dirty == map[];
      RecoveredClear(g, old(disk));
      RecoveryTraceJoins(g, old(disk));
    }

    /**
     One pass of begin_op: the operation is admitted when its worst case still fits,
     and otherwise the caller goes to sleep without having changed anything.
     */
    method BeginOp() returns (admitted: bool)
      requires Valid()
      modifies `outstanding
      ensures admitted <==> !committing && n + (old(outstanding) + 1) * MAXOPBLOCKS <= LOGSIZE
      ensures outstanding == old(outstanding) + if admitted then 1 else 0
    {
      if committing {
        admitted := false;
      } else if n + (outstanding + 1) * MAXOPBLOCKS > LOGSIZE {
        admitted := false;
      } else {
        outstanding := outstanding + 1;
        admitted := true;
      }
    }

    /** The last operation to end commits; until then nothing reaches the disk. */
    method EndOp()
      requires Between() && outstanding > 0 && !committing
      modifies `disk, `dirty, `writes, `n, `outstanding, `committing
      ensures Between() && !committing && outstanding == old(outstanding) - 1
      ensures outstanding > 0 ==>
                disk == old(disk) && dirty == old(dirty) && n == old(n) && writes == old(writes)
      ensures outstanding == 0 ==>
                && n == 0 && dirty == map[]
                && (forall b | 0 <= b < g.nblocks && g.Home(b) :: disk[b] == old(View(b)))
                && writes == old(writes) +
                             (if old(n) == 0 then [] else CommitTrace(g, old(disk), old(Header()), old(Pending())))
    {
      outstanding := outstanding - 1;
      var doCommit := false;
      if outstanding == 0 {
        doCommit := true;
        committing := true;
      }
      if doCommit {
        Commit();
        committing := false;
      }
    }

    /** The place of a block in the in-memory header, or its end. */
    method Find(b: nat) returns (i: nat)
      requires n <= block.Length
      ensures i <= n && b !in block[..i] && (i < n ==> block[i] == b)
    {
      i := 0;
      while i < n && block[i] != b
        invariant 0 <= i <= n
        invariant b !in block[..i]
      {
        i := i + 1;
      }
    }

    /** Record a modified buffer in the transaction and pin it in the cache. */
    method LogWrite(b: nat, data: Block) returns (r: Outcome)
      requires Between() && g.Home(b)
      modifies `dirty, `n, block
      ensures Between()
      ensures r == Panic <==> old(n) >= g.Capacity() || outstanding < 1
      ensures r == Panic ==> n == old(n) && dirty == old(dirty) && Header() == old(Header())
      ensures r == Done ==>
                && dirty == old(dirty)[b := data]
                && Header() == (if b in old(Header()) then old(Header()) else old(Header()) + [b])
      ensures r == Done ==>
                forall c | 0 <= c < g.nblocks :: View(c) == if c == b then data else old(View(c))
    {
      if n >= LOGSIZE || n >= g.size - 1 {
        return Panic;
      }
      if outstanding < 1 {
        return Panic;
      }
      ghost var hdr := Header();
      var i := Find(b);
      block[i] := b;
      if i == n {
        n := n + 1;
      }
      dirty := dirty[b := data];
      assert Header() == if b in hdr then hdr else hdr + [b];
      r := Done;
    }
  }

  /** Filling the log does not change what a reader of a home block sees. */
  lemma PendingStays(g: Geometry, d: Disk, dirty: map<nat, Block>, hdr: seq<nat>, k: nat)
    requires OnDisk(g, d) && Loggable(g, hdr) && k < |hdr|
    ensures var data := PendingData(d, dirty, hdr); Seen(Logged(g, d, data, k), dirty, hdr[k]) == data[k]
  {
  }

  lemma Associate(p: seq<Disk>, a: seq<Disk>, b: seq<Disk>, c: seq<Disk>, d: seq<Disk>)
    ensures p + a + b + c + d == p + (a + b + c + d)
  {
  }

  /** The four stages of commit, laid end to end, are the disks CommitAfter lists. */
  lemma TracesJoin(g: Geometry, d: Disk, hdr: seq<nat>, data: seq<Block>, c: Disk, r: Disk)
    requires OnDisk(g, d) && Loggable(g, hdr) && |data| == |hdr|
    requires c == CommitAfter(g, d, hdr, data, |hdr| + 1)
    requires r == CommitAfter(g, d, hdr, data, 2 * |hdr| + 2)
    ensures LogTrace(g, d, data, |hdr|) + [c] + InstallTrace(g, c, hdr, |hdr|) + [r] == CommitTrace(g, d, hdr, data)
  {
  }

  lemma OverlaySeen(g: Geometry, d: Disk, dirty: map<nat, Block>, hdr: seq<nat>, b: nat)
    requires OnDisk(g, d) && Loggable(g, hdr) && b < |d|
    requires forall c | c in dirty :: c in hdr
    ensures Overlay(g, d, hdr, PendingData(d, dirty, hdr))[b] == Seen(d, dirty, b)
  {
  }

  /** A completed commit leaves an empty log, and on disk what the cache showed before. */
  lemma CommitEffect(g: Geometry, d: Disk, dirty: map<nat, Block>, hdr: seq<nat>, r: Disk)
    requires Clear(g, d) && Loggable(g, hdr) && forall b | b in dirty :: b in hdr
    requires r == CommitAfter(g, d, hdr, PendingData(d, dirty, hdr), 2 * |hdr| + 2)
    ensures Clear(g, r)
    ensures forall b | 0 <= b < g.nblocks && g.Home(b) :: r[b] == Seen(d, dirty, b)
  {
    var data := PendingData(d, dirty, hdr);
    CrashAtHeader(g, d, hdr, data);
    CommitIsRecovery(g, d, hdr, data, 2 * |hdr| + 2);
    RecoveredClear(g, CommitAfter(g, d, hdr, data, |hdr| + 1));
    forall b | 0 <= b < g.nblocks && g.Home(b)
      ensures r[b] == Seen(d, dirty, b)
    {
      OverlaySeen(g, d, dirty, hdr, b);
    }
  }
}
