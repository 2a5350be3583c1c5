/**
 What the redo log looks like on disk, and which disk states commit and recovery
 pass through. A disk write replaces one whole block; a crash may fall between
 any two writes, so the states below are exactly the possible crash states.
 */
module LogDisk {
  import opened Blocks

  const MAXOPBLOCKS: nat := 10
  const LOGSIZE: nat := 3 * MAXOPBLOCKS

  type Disk = seq<Block>

  /** Where the log lives: `size` blocks from `start`, the first being the header. */
  datatype Geometry = Geometry(start: nat, size: nat, nblocks: nat) {
    ghost predicate Valid() {
      1 <= size && start + size <= nblocks <= 0x1_0000_0000
    }

    /** A block outside the log region. */
    predicate Home(b: int) {
      0 <= b < start || start + size <= b < nblocks
    }

    /** The number of blocks a transaction may hold: header array and region both bound it. */
    function Capacity(): nat
      requires 1 <= size
    {
      if LOGSIZE < size - 1 then LOGSIZE else size - 1
    }
  }

  ghost predicate OnDisk(g: Geometry, d: Disk) {
    g.Valid() && |d| == g.nblocks
  }

  /** A list of home blocks that fits the log. */
  ghost predicate Loggable(g: Geometry, hdr: seq<nat>) {
    g.Valid() && |hdr| <= g.Capacity() && forall i | 0 <= i < |hdr| :: g.Home(hdr[i])
  }

  // ---------------------------------------------------------------- header

  /** The on-disk header names a list of home blocks that fits the log. */
  ghost predicate HeaderOk(g: Geometry, d: Disk)
    requires OnDisk(g, d)
  {
    var n := GetWord(d[g.start], 0);
    n <= g.Capacity() && forall i | 1 <= i <= n :: g.Home(GetWord(d[g.start], i))
  }

  function Entries(g: Geometry, d: Disk): (hdr: seq<nat>)
    requires OnDisk(g, d) && HeaderOk(g, d)
    ensures Loggable(g, hdr)
  {
    seq(GetWord(d[g.start], 0), i requires 0 <= i < GetWord(d[g.start], 0) => GetWord(d[g.start], i + 1))
  }

  /** The header block after its count and its first k entries have been stored over `b`. */
  function HeaderBlock(b: Block, hdr: seq<nat>, k: nat): Block
    requires k <= |hdr| <= LOGSIZE && forall i | 0 <= i < |hdr| :: hdr[i] < 0x1_0000_0000
  {
    if k == 0 then PutWord(b, 0, |hdr|)
    else PutWord(HeaderBlock(b, hdr, k - 1), k, hdr[k - 1])
  }

  lemma {:induction false} HeaderBlockWords(b: Block, hdr: seq<nat>, k: nat)
    requires k <= |hdr| <= LOGSIZE && forall i | 0 <= i < |hdr| :: hdr[i] < 0x1_0000_0000
    ensures GetWord(HeaderBlock(b, hdr, k), 0) == |hdr|
    ensures forall i | 1 <= i <= k :: GetWord(HeaderBlock(b, hdr, k), i) == hdr[i - 1]
  {
    if k == 0 {
      GetPutWord(b, 0, |hdr|);
    } else {
      HeaderBlockWords(b, hdr, k - 1);
      GetPutWord(HeaderBlock(b, hdr, k - 1), k, hdr[k - 1]);
    }
  }

  ghost function WithHeader(g: Geometry, d: Disk, hdr: seq<nat>): Disk
    requires OnDisk(g, d) && Loggable(g, hdr)
  {
    d[g.start := HeaderBlock(d[g.start], hdr, |hdr|)]
  }

  /** What write_head stores is what read_head reads back. */
  lemma HeaderRoundTrip(g: Geometry, d: Disk, hdr: seq<nat>)
    requires OnDisk(g, d) && Loggable(g, hdr)
    ensures OnDisk(g, WithHeader(g, d, hdr)) && HeaderOk(g, WithHeader(g, d, hdr))
    ensures Entries(g, WithHeader(g, d, hdr)) == hdr
  {
    HeaderBlockWords(d[g.start], hdr, |hdr|);
  }

  // ---------------------------------------------------------------- install

  /** The disk after the first k logged blocks have been copied to their home locations. */
  ghost function Installed(g: Geometry, d: Disk, hdr: seq<nat>, k: nat): (r: Disk)
    requires OnDisk(g, d) && Loggable(g, hdr) && k <= |hdr|
    ensures |r| == |d|
  {
    if k == 0 then d
    else
      var p := Installed(g, d, hdr, k - 1);
      p[hdr[k - 1] := p[g.start + k]]
  }

  /** The last position below k at which block b is logged, or -1. */
  ghost function LastLogged(hdr: seq<nat>, b: nat, k: nat): (i: int)
    requires k <= |hdr|
    ensures -1 <= i < k
    ensures i >= 0 ==> hdr[i] == b
    ensures forall j | i < j < k :: hdr[j] != b
  {
    if k == 0 then -1 else if hdr[k - 1] == b then k - 1 else LastLogged(hdr, b, k - 1)
  }

  /** Installing leaves the log region alone and gives each home block its latest logged copy. */
  lemma {:induction false} InstalledBlock(g: Geometry, d: Disk, hdr: seq<nat>, k: nat, b: nat)
    requires OnDisk(g, d) && Loggable(g, hdr) && k <= |hdr| && b < g.nblocks
    ensures !g.Home(b) ==> Installed(g, d, hdr, k)[b] == d[b]
    ensures g.Home(b) ==>
              Installed(g, d, hdr, k)[b] ==
              var i := LastLogged(hdr, b, k); if i < 0 then d[b] else d[g.start + 1 + i]
  {
    if k > 0 {
      InstalledBlock(g, d, hdr, k - 1, b);
      InstalledBlock(g, d, hdr, k - 1, g.start + k);
    }
  }

  /** The header survives installation. */
  lemma InstalledHeader(g: Geometry, d: Disk, hdr: seq<nat>, k: nat)
    requires OnDisk(g, d) && HeaderOk(g, d) && Loggable(g, hdr) && k <= |hdr|
    ensures HeaderOk(g, Installed(g, d, hdr, k)) && Entries(g, Installed(g, d, hdr, k)) == Entries(g, d)
  {
  }

  // ---------------------------------------------------------------- recovery

  /** The disk after the first k writes of recover_from_log. */
  ghost function RecoveryAfter(g: Geometry, d: Disk, k: nat): (r: Disk)
    requires OnDisk(g, d) && HeaderOk(g, d) && k <= |Entries(g, d)| + 1
    ensures |r| == |d|
  {
    var hdr := Entries(g, d);
    if k <= |hdr| then Installed(g, d, hdr, k)
    else WithHeader(g, Installed(g, d, hdr, |hdr|), [])
  }

  ghost function Recovered(g: Geometry, d: Disk): (r: Disk)
    requires OnDisk(g, d) && HeaderOk(g, d)
    ensures |r| == |d|
  {
    RecoveryAfter(g, d, |Entries(g, d)| + 1)
  }

  /** Two disks that agree on every block outside the log. */
  ghost predicate SameHome(g: Geometry, d: Disk, e: Disk) {
    |d| == |e| == g.nblocks && forall b | 0 <= b < g.nblocks && g.Home(b) :: d[b] == e[b]
  }

  /** The log is empty. */
  ghost predicate Clear(g: Geometry, d: Disk) {
    OnDisk(g, d) && HeaderOk(g, d) && Entries(g, d) == []
  }

  lemma RecoveredBlock(g: Geometry, d: Disk, b: nat)
    requires OnDisk(g, d) && HeaderOk(g, d) && g.Home(b)
    ensures Recovered(g, d)[b] ==
            var hdr := Entries(g, d);
            var i := LastLogged(hdr, b, |hdr|); if i < 0 then d[b] else d[g.start + 1 + i]
  {
    InstalledBlock(g, d, Entries(g, d), |Entries(g, d)|, b);
  }

  lemma RecoveredClear(g: Geometry, d: Disk)
    requires OnDisk(g, d) && HeaderOk(g, d)
    ensures Clear(g, Recovered(g, d))
  {
  }

  lemma RecoveredOfClear(g: Geometry, d: Disk)
    requires Clear(g, d)
    ensures SameHome(g, Recovered(g, d), d)
  {
  }

  lemma RestartBlock(g: Geometry, d: Disk, p: Disk, k: nat, b: nat)
    requires OnDisk(g, d) && HeaderOk(g, d) && k <= |Entries(g, d)| && g.Home(b)
    requires p == Installed(g, d, Entries(g, d), k) && HeaderOk(g, p) && Entries(g, p) == Entries(g, d)
    ensures Recovered(g, p)[b] == Recovered(g, d)[b]
  {
    hide HeaderBlock, Recovered, HeaderOk;
    var hdr := Entries(g, d);
    RecoveredBlock(g, d, b);
    RecoveredBlock(g, p, b);
    var i := LastLogged(hdr, b, |hdr|);
    if i >= 0 {
      InstalledBlock(g, d, hdr, k, g.start + 1 + i);
    } else {
      InstalledBlock(g, d, hdr, k, b);
    }
  }

  /** A recovery cut short after any number of its writes still recovers to the same home blocks. */
  lemma RecoveryRestarts(g: Geometry, d: Disk, k: nat)
    requires OnDisk(g, d) && HeaderOk(g, d) && k <= |Entries(g, d)| + 1
    ensures HeaderOk(g, RecoveryAfter(g, d, k))
    ensures SameHome(g, Recovered(g, RecoveryAfter(g, d, k)), Recovered(g, d))
  {
    if k == |Entries(g, d)| + 1 {
      RecoveredClear(g, d);
      RecoveredOfClear(g, Recovered(g, d));
    } else {
      InstalledHeader(g, d, Entries(g, d), k);
      forall b | 0 <= b < g.nblocks && g.Home(b)
        ensures Recovered(g, RecoveryAfter(g, d, k))[b] == Recovered(g, d)[b]
      {
        RestartBlock(g, d, RecoveryAfter(g, d, k), k, b);
      }
    }
  }

  /** A sequence of recoveries, the j-th crashing after cuts[j] of its writes. */
  ghost predicate CrashedRecoveries(g: Geometry, d: Disk, cuts: seq<nat>)
    requires OnDisk(g, d) && HeaderOk(g, d)
    decreases |cuts|
  {
    cuts != [] ==>
      && cuts[0] <= |Entries(g, d)| + 1
      && (RecoveryRestarts(g, d, cuts[0]); CrashedRecoveries(g, RecoveryAfter(g, d, cuts[0]), cuts[1..]))
  }

  ghost function AfterRecoveries(g: Geometry, d: Disk, cuts: seq<nat>): (r: Disk)
    requires OnDisk(g, d) && HeaderOk(g, d) && CrashedRecoveries(g, d, cuts)
    ensures OnDisk(g, r) && HeaderOk(g, r)
    decreases |cuts|
  {
    if cuts == [] then d
    else
      RecoveryRestarts(g, d, cuts[0]);
      AfterRecoveries(g, RecoveryAfter(g, d, cuts[0]), cuts[1..])
  }

  /** However often recovery crashes and restarts, the recovered home blocks are the same. */
  lemma {:induction false} RecoveriesAgree(g: Geometry, d: Disk, cuts: seq<nat>)
    requires OnDisk(g, d) && HeaderOk(g, d) && CrashedRecoveries(g, d, cuts)
    ensures SameHome(g, Recovered(g, AfterRecoveries(g, d, cuts)), Recovered(g, d))
    decreases |cuts|
  {
    if cuts != [] {
      RecoveryRestarts(g, d, cuts[0]);
      RecoveriesAgree(g, RecoveryAfter(g, d, cuts[0]), cuts[1..]);
    }
  }

  // ---------------------------------------------------------------- commit

  /** The disk after the first k cached blocks have been copied into the log. */
  ghost function Logged(g: Geometry, d: Disk, data: seq<Block>, k: nat): (r: Disk)
    requires OnDisk(g, d) && |data| <= g.Capacity() && k <= |data|
    ensures |r| == |d|
    ensures forall b | 0 <= b < |d| ::
              r[b] == if g.start + 1 <= b < g.start + 1 + k then data[b - g.start - 1] else d[b]
  {
    if k == 0 then d
    else Logged(g, d, data, k - 1)[g.start + k := data[k - 1]]
  }

  /** The disk after the first k writes of commit: log blocks, header, installs, cleared header. */
  ghost function CommitAfter(g: Geometry, d: Disk, hdr: seq<nat>, data: seq<Block>, k: nat): (r: Disk)
    requires OnDisk(g, d) && Loggable(g, hdr) && |data| == |hdr| && k <= 2 * |hdr| + 2
    ensures |r| == |d|
  {
    var n := |hdr|;
    if k <= n then Logged(g, d, data, k)
    else
      var c := WithHeader(g, Logged(g, d, data, n), hdr);
      if k <= 2 * n + 1 then Installed(g, c, hdr, k - n - 1)
      else WithHeader(g, Installed(g, c, hdr, n), [])
  }

  /** The home blocks after the transaction: each logged block holds its last logged data. */
  ghost function Overlay(g: Geometry, d: Disk, hdr: seq<nat>, data: seq<Block>): (r: Disk)
    requires OnDisk(g, d) && |data| == |hdr|
    ensures |r| == |d|
  {
    seq(|d|, b requires 0 <= b < |d| => var i := LastLogged(hdr, b, |hdr|); if i < 0 then d[b] else data[i])
  }

  /** Before the header write a crash recovers to the old blocks. */
  lemma CrashBeforeHeader(g: Geometry, d: Disk, hdr: seq<nat>, data: seq<Block>, k: nat)
    requires Clear(g, d) && Loggable(g, hdr) && |data| == |hdr| && k <= |hdr|
    ensures Clear(g, CommitAfter(g, d, hdr, data, k))
    ensures SameHome(g, Recovered(g, CommitAfter(g, d, hdr, data, k)), d)
  {
  }

  /** Right after the header write a crash recovers to the new blocks. */
  lemma CrashAtHeader(g: Geometry, d: Disk, hdr: seq<nat>, data: seq<Block>)
    requires OnDisk(g, d) && Loggable(g, hdr) && |data| == |hdr|
    ensures var c := CommitAfter(g, d, hdr, data, |hdr| + 1);
            && HeaderOk(g, c) && Entries(g, c) == hdr
            && SameHome(g, Recovered(g, c), Overlay(g, d, hdr, data))
  {
    HeaderRoundTrip(g, Logged(g, d, data, |hdr|), hdr);
    var c := CommitAfter(g, d, hdr, data, |hdr| + 1);
    forall b | 0 <= b < g.nblocks && g.Home(b)
      ensures Recovered(g, c)[b] == Overlay(g, d, hdr, data)[b]
    {
      hide HeaderBlock, Recovered, HeaderOk, Entries;
      RecoveredBlock(g, c, b);
    }
  }

  /** Once the header is written the rest of commit is a recovery of that disk. */
  lemma CommitIsRecovery(g: Geometry, d: Disk, hdr: seq<nat>, data: seq<Block>, k: nat)
    requires OnDisk(g, d) && Loggable(g, hdr) && |data| == |hdr| && |hdr| + 1 <= k <= 2 * |hdr| + 2
    ensures var c := CommitAfter(g, d, hdr, data, |hdr| + 1);
            && HeaderOk(g, c) && Entries(g, c) == hdr
            && CommitAfter(g, d, hdr, data, k) == RecoveryAfter(g, c, k - |hdr| - 1)
  {
    CrashAtHeader(g, d, hdr, data);
  }

  /**
   Crash atomicity. A commit that crashes after any k of its writes, followed by any
   number of recoveries that themselves crash anywhere, is recovered to all of the old
   home blocks if the header was not yet written, and to all of the new ones if it was.
   */
  lemma CrashAtomicity(g: Geometry, d: Disk, hdr: seq<nat>, data: seq<Block>, k: nat, cuts: seq<nat>)
    requires Clear(g, d) && Loggable(g, hdr) && |data| == |hdr| && k <= 2 * |hdr| + 2
    ensures HeaderOk(g, CommitAfter(g, d, hdr, data, k))
    ensures CrashedRecoveries(g, CommitAfter(g, d, hdr, data, k), cuts) ==>
              var f := Recovered(g, AfterRecoveries(g, CommitAfter(g, d, hdr, data, k), cuts));
              && Clear(g, f)
              && SameHome(g, f, if k <= |hdr| then d else Overlay(g, d, hdr, data))
  {
    if k <= |hdr| {
      CrashBeforeHeader(g, d, hdr, data, k);
    } else {
      CrashAtHeader(g, d, hdr, data);
      CommitIsRecovery(g, d, hdr, data, k);
      RecoveryRestarts(g, CommitAfter(g, d, hdr, data, |hdr| + 1), k - |hdr| - 1);
    }
    var c := CommitAfter(g, d, hdr, data, k);
    if CrashedRecoveries(g, c, cuts) {
      RecoveriesAgree(g, c, cuts);
      RecoveredClear(g, AfterRecoveries(g, c, cuts));
    }
  }
}
