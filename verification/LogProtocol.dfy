/**
 begin_op, log_write and end_op as interleaved steps of any number of processes,
 with commit running one disk write at a time and crashes possible everywhere.
 */
module LogProtocol {
  import opened Common
  import opened Blocks
  import opened LogDisk
  import opened CrashLog

  /** One block modification, tagged with the operation (system call) that made it. */
  datatype Write = Write(op: nat, block: nat, data: Block)

  datatype Proc =
    | Outside                       // not in a file-system call
    | Waiting                       // asleep in begin_op
    | Woken                         // awake again, about to look at the log once more
    | Inside(op: nat, logged: set<nat>, held: Option<nat>)
                                    // in a call; `held` is modified but not yet recorded

  datatype Phase =
    | Idle
    | WritingLog(done: nat)         // commit: `done` log blocks are on disk
    | Installing(done: nat)         // header is on disk, `done` blocks installed
    | Finished                      // commit() has returned, `committing` still set

  /** Why the machine stopped: the size check failed, or the log outgrew its region. */
  datatype Fault = TooBig | Overrun

  datatype State = State(
    disk: Disk,
    dirty: map<nat, Block>,
    lh: seq<nat>,
    outstanding: nat,
    committing: bool,
    phase: Phase,
    procs: seq<Proc>,
    fault: Option<Fault>,
    nextOp: nat,
    history: seq<Write>,            // every modification since the first boot, lost ones removed
    durable: nat)                   // how many of them the disk is committed to

  datatype Action =
    | Begin(p: nat)
    | Touch(p: nat, block: nat, data: Block)
    | Record(p: nat)
    | End(p: nat)
    | CommitStep
    | Crash(cuts: seq<nat>)

  /** The disk after a list of modifications. */
  ghost function Apply(d: Disk, ws: seq<Write>): (r: Disk)
    requires forall i | 0 <= i < |ws| :: ws[i].block < |d|
    ensures |r| == |d|
  {
    if ws == [] then d
    else Apply(d, ws[..|ws| - 1])[ws[|ws| - 1].block := ws[|ws| - 1].data]
  }

  function Wake(procs: seq<Proc>): (r: seq<Proc>)
    ensures |r| == |procs|
  {
    seq(|procs|, i requires 0 <= i < |procs| => if procs[i].Waiting? then Woken else procs[i])
  }

  ghost predicate Holds(p: Proc, b: nat) {
    p.Inside? && p.held == Some(b)
  }

  ghost predicate Can(g: Geometry, s: State, a: Action) {
    match a
    case Begin(p) => s.fault.None? && p < |s.procs| && (s.procs[p].Outside? || s.procs[p].Woken?)
    case Touch(p, b, data) =>
      && s.fault.None? && p < |s.procs| && s.procs[p].Inside? && s.procs[p].held.None? && g.Home(b)
      && (forall q | 0 <= q < |s.procs| :: !Holds(s.procs[q], b))
      && |s.procs[p].logged + {b}| <= MAXOPBLOCKS
    case Record(p) => s.fault.None? && p < |s.procs| && s.procs[p].Inside? && s.procs[p].held.Some?
    case End(p) => s.fault.None? && p < |s.procs| && s.procs[p].Inside? && s.procs[p].held.None?
    case CommitStep => s.fault.None? && !s.phase.Idle?
    case Crash(cuts) => OnDisk(g, s.disk) && HeaderOk(g, s.disk) && CrashedRecoveries(g, s.disk, cuts)
  }

  ghost function DoBegin(s: State, p: nat): State
    requires p < |s.procs|
  {
    if s.committing || |s.lh| + (s.outstanding + 1) * MAXOPBLOCKS > LOGSIZE then
      s.(procs := s.procs[p := Waiting])
    else
      s.(procs := s.procs[p := Inside(s.nextOp, {}, None)],
         outstanding := s.outstanding + 1,
         nextOp := s.nextOp + 1)
  }

  ghost function DoTouch(g: Geometry, s: State, p: nat, b: nat, data: Block): State
    requires p < |s.procs| && s.procs[p].Inside?
  {
    if |s.lh| >= LOGSIZE || |s.lh| >= g.size - 1 then
      s.(fault := Some(TooBig))
    else
      s.(dirty := s.dirty[b := data],
         procs := s.procs[p := s.procs[p].(held := Some(b))],
         history := s.history + [Write(s.procs[p].op, b, data)])
  }

  ghost function DoRecord(g: Geometry, s: State, p: nat): State
    requires p < |s.procs| && s.procs[p].Inside? && s.procs[p].held.Some? && 1 <= g.size
  {
    var b := s.procs[p].held.value;
    var recorded := s.procs[p := s.procs[p].(logged := s.procs[p].logged + {b}, held := None)];
    if b in s.lh then s.(procs := recorded)
    else if |s.lh| < g.Capacity() then s.(procs := recorded, lh := s.lh + [b])
    else s.(fault := Some(Overrun))
  }

  ghost function DoEnd(s: State, p: nat): State
    requires p < |s.procs|
  {
    var procs := s.procs[p := Outside];
    if s.outstanding == 1 then
      s.(procs := procs, outstanding := 0, committing := true,
         phase := if s.lh == [] then Finished else WritingLog(0),
         durable := if s.lh == [] then |s.history| else s.durable)
    else
      s.(procs := Wake(procs), outstanding := if s.outstanding == 0 then 0 else s.outstanding - 1)
  }

  ghost function DoLogBlock(g: Geometry, s: State): State
    requires OnDisk(g, s.disk) && Loggable(g, s.lh) && s.phase.WritingLog? && s.phase.done < |s.lh|
  {
    var i := s.phase.done;
    s.(disk := s.disk[g.start + 1 + i := Seen(s.disk, s.dirty, s.lh[i])], phase := WritingLog(i + 1))
  }

  ghost function DoHeader(g: Geometry, s: State): State
    requires OnDisk(g, s.disk) && Loggable(g, s.lh)
  {
    s.(disk := WithHeader(g, s.disk, s.lh), phase := Installing(0), durable := |s.history|)
  }

  ghost function DoInstall(g: Geometry, s: State): State
    requires OnDisk(g, s.disk) && Loggable(g, s.lh) && s.phase.Installing? && s.phase.done < |s.lh|
  {
    var i := s.phase.done;
    s.(disk := s.disk[s.lh[i] := s.disk[g.start + 1 + i]], dirty := s.dirty - {s.lh[i]}, phase := Installing(i + 1))
  }

  ghost function DoClear(g: Geometry, s: State): State
    requires OnDisk(g, s.disk)
  {
    s.(disk := WithHeader(g, s.disk, []), lh := [], phase := Finished)
  }

  ghost function DoFinish(s: State): State {
    s.(committing := false, procs := Wake(s.procs), phase := Idle)
  }

  ghost function DoCommitStep(g: Geometry, s: State): State
    requires OnDisk(g, s.disk) && Loggable(g, s.lh) && !s.phase.Idle?
  {
    match s.phase
    case WritingLog(i) => if i < |s.lh| then DoLogBlock(g, s) else DoHeader(g, s)
    case Installing(i) => if i < |s.lh| then DoInstall(g, s) else DoClear(g, s)
    case Finished => DoFinish(s)
  }

  /** Power failure, then recoveries cut short as listed, then one that completes. */
  ghost function DoCrash(g: Geometry, s: State, cuts: seq<nat>): State
    requires OnDisk(g, s.disk) && HeaderOk(g, s.disk) && CrashedRecoveries(g, s.disk, cuts)
    requires s.durable <= |s.history|
  {
    State(Recovered(g, AfterRecoveries(g, s.disk, cuts)), map[], [], 0, false, Idle,
          seq(|s.procs|, _ => Outside), None, s.nextOp, s.history[..s.durable], s.durable)
  }

  ghost predicate HomeWrites(g: Geometry, ws: seq<Write>) {
    forall i | 0 <= i < |ws| :: g.Home(ws[i].block)
  }

  ghost predicate Sane(g: Geometry, s: State) {
    OnDisk(g, s.disk) && Loggable(g, s.lh) && s.durable <= |s.history| && HomeWrites(g, s.history)
  }

  ghost function Do(g: Geometry, s: State, a: Action): State
    requires Sane(g, s) && Can(g, s, a)
  {
    match a
    case Begin(p) => DoBegin(s, p)
    case Touch(p, b, data) => DoTouch(g, s, p, b, data)
    case Record(p) => DoRecord(g, s, p)
    case End(p) => DoEnd(s, p)
    case CommitStep => DoCommitStep(g, s)
    case Crash(cuts) => DoCrash(g, s, cuts)
  }

  ghost function Boot(base: Disk, nprocs: nat): State {
    State(base, map[], [], 0, false, Idle, seq(nprocs, _ => Outside), None, 0, [], 0)
  }

  // ---------------------------------------------------------------- the invariant

  ghost function Count(procs: seq<Proc>): nat {
    if procs == [] then 0 else Count(procs[1..]) + if procs[0].Inside? then 1 else 0
  }

  /** The blocks the open operations may still add to the log. */
  ghost function Unused(procs: seq<Proc>): int {
    if procs == [] then 0
    else Unused(procs[1..]) + if procs[0].Inside? then MAXOPBLOCKS - |procs[0].logged| else 0
  }

  /** Commit runs only when no operation is open, and the counters say so. */
  ghost predicate Counters(s: State) {
    && s.outstanding == Count(s.procs)
    && (s.committing <==> !s.phase.Idle?)
    && (s.committing ==> s.outstanding == 0)
    && ((s.phase.Idle? || s.phase.Finished?) && s.outstanding == 0 ==> s.lh == [])
  }

  ghost predicate Reservation(s: State) {
    && |s.lh| + Unused(s.procs) <= LOGSIZE
    && (forall p | 0 <= p < |s.procs| && s.procs[p].Inside? ::
          && (forall b | b in s.procs[p].logged :: b in s.lh)
          && |s.procs[p].logged| <= MAXOPBLOCKS
          && (s.procs[p].held.Some? ==> |s.procs[p].logged + {s.procs[p].held.value}| <= MAXOPBLOCKS))
  }

  ghost predicate Sleepers(s: State) {
    forall p | 0 <= p < |s.procs| && s.procs[p].Waiting? :: s.outstanding > 0 || s.committing
  }

  /** Operations are numbered, and what is durable belongs to finished ones only. */
  ghost predicate Numbering(s: State) {
    && s.durable <= |s.history|
    && (forall p | 0 <= p < |s.procs| && s.procs[p].Inside? :: s.procs[p].op < s.nextOp)
    && (forall i | 0 <= i < |s.history| :: s.history[i].op < s.nextOp)
    && (forall i, p | 0 <= i < s.durable && 0 <= p < |s.procs| && s.procs[p].Inside? ::
          s.history[i].op != s.procs[p].op)
    && (forall i, j | 0 <= i < s.durable <= j < |s.history| :: s.history[i].op != s.history[j].op)
  }

  /** How many logged blocks commit has already installed. */
  ghost function InstalledCount(s: State): nat {
    if s.phase.Installing? then s.phase.done else 0
  }

  ghost predicate Held(s: State, b: nat) {
    exists p | 0 <= p < |s.procs| :: Holds(s.procs[p], b)
  }

  /** Every pinned buffer is logged or still held; a logged block is pinned until it is installed. */
  ghost predicate Pinned(g: Geometry, s: State) {
    && InstalledCount(s) <= |s.lh|
    && (forall b | b in s.dirty :: g.Home(b) && (b in s.lh || Held(s, b)))
    && (forall p | 0 <= p < |s.procs| && s.procs[p].Inside? && s.procs[p].held.Some? ::
        s.procs[p].held.value in s.dirty)
    && (forall i | 0 <= i < |s.lh| :: s.lh[i] in s.dirty <==> InstalledCount(s) <= i)
    && (forall i, j | 0 <= i < j < |s.lh| :: s.lh[i] != s.lh[j])
  }

  /** Through the cache, the home blocks of d read as those of a. */
  ghost predicate Shows(g: Geometry, d: Disk, dirty: map<nat, Block>, a: Disk) {
    |d| == |a| == g.nblocks && forall b | 0 <= b < g.nblocks && g.Home(b) :: Seen(d, dirty, b) == a[b]
  }

  /** What the cache shows is the result of every modification so far. */
  ghost predicate Showing(g: Geometry, base: Disk, s: State)
    requires Sane(g, s) && |base| == |s.disk|
  {
    Shows(g, s.disk, s.dirty, Apply(base, s.history))
  }

  /** The log blocks on disk hold the contents that a gives the listed home blocks. */
  ghost predicate LogHas(g: Geometry, d: Disk, lh: seq<nat>, a: Disk)
    requires OnDisk(g, d) && Loggable(g, lh) && |a| == |d|
  {
    forall j | 0 <= j < |lh| :: d[g.start + 1 + j] == a[lh[j]]
  }

  /** What the disk holds in each phase of a commit. */
  ghost predicate DiskPhase(g: Geometry, base: Disk, s: State)
    requires Sane(g, s) && |base| == |s.disk|
  {
    match s.phase
    case Idle => Clear(g, s.disk) && SameHome(g, s.disk, Apply(base, s.history[..s.durable]))
    case WritingLog(i) =>
      && Clear(g, s.disk) && SameHome(g, s.disk, Apply(base, s.history[..s.durable]))
      && i <= |s.lh|
      && LogHas(g, s.disk, s.lh[..i], Apply(base, s.history))
    case Installing(i) =>
      && HeaderOk(g, s.disk) && Entries(g, s.disk) == s.lh
      && s.durable == |s.history|
      && LogHas(g, s.disk, s.lh, Apply(base, s.history))
    case Finished =>
      && Clear(g, s.disk) && s.lh == [] && s.dirty == map[] && s.durable == |s.history|
  }

  ghost predicate Control(s: State) {
    Counters(s) && Reservation(s) && Sleepers(s) && Numbering(s)
  }

  ghost predicate Stored(g: Geometry, base: Disk, s: State) {
    && Sane(g, s) && |base| == |s.disk|
    && Pinned(g, s) && Showing(g, base, s) && DiskPhase(g, base, s)
  }

  ghost predicate Inv(g: Geometry, base: Disk, s: State) {
    Control(s) && Stored(g, base, s)
  }

  // ---------------------------------------------------------------- sums over the process table

  lemma {:induction false} UpdateSums(procs: seq<Proc>, p: nat, x: Proc)
    requires p < |procs|
    ensures Count(procs[p := x]) == Count(procs) + (if x.Inside? then 1 else 0) - (if procs[p].Inside? then 1 else 0)
    ensures Unused(procs[p := x]) == Unused(procs)
                                     + (if x.Inside? then MAXOPBLOCKS - |x.logged| else 0)
                                     - (if procs[p].Inside? then MAXOPBLOCKS - |procs[p].logged| else 0)
  {
    if p == 0 {
      assert procs[p := x][1..] == procs[1..];
    } else {
      assert procs[p := x][1..] == procs[1..][p - 1 := x];
      UpdateSums(procs[1..], p - 1, x);
    }
  }

  lemma {:induction false} WakeSums(procs: seq<Proc>)
    ensures Count(Wake(procs)) == Count(procs)
    ensures Unused(Wake(procs)) == Unused(procs)
  {
    if procs != [] {
      assert Wake(procs)[1..] == Wake(procs[1..]);
      WakeSums(procs[1..]);
    }
  }

  lemma {:induction false} CountInside(procs: seq<Proc>, p: nat)
    requires p < |procs| && procs[p].Inside?
    ensures Count(procs) > 0
  {
    if p > 0 {
      CountInside(procs[1..], p - 1);
    }
  }

  lemma {:induction false} UnusedBound(procs: seq<Proc>)
    ensures Unused(procs) <= MAXOPBLOCKS * Count(procs)
  {
    if procs != [] {
      UnusedBound(procs[1..]);
    }
  }

  lemma {:induction false} NobodyInside(procs: seq<Proc>)
    requires forall p | 0 <= p < |procs| :: !procs[p].Inside?
    ensures Count(procs) == 0 && Unused(procs) == 0
  {
    if procs != [] {
      NobodyInside(procs[1..]);
    }
  }

  lemma NobodyHolds(s: State)
    requires s.outstanding == Count(s.procs) == 0
    ensures forall p | 0 <= p < |s.procs| :: !s.procs[p].Inside?
  {
    forall p | 0 <= p < |s.procs|
      ensures !s.procs[p].Inside?
    {
      if s.procs[p].Inside? {
        CountInside(s.procs, p);
      }
    }
  }

  // ---------------------------------------------------------------- each step keeps the invariant

  lemma BootInv(g: Geometry, base: Disk, nprocs: nat)
    requires Clear(g, base)
    ensures Inv(g, base, Boot(base, nprocs))
  {
    var s := Boot(base, nprocs);
    NobodyInside(s.procs);
  }

  lemma BeginControl(s: State, p: nat)
    requires Control(s) && p < |s.procs| && !s.procs[p].Inside?
    ensures Control(DoBegin(s, p))
  {
    hide Count, Unused;
    UpdateSums(s.procs, p, Waiting);
    UpdateSums(s.procs, p, Inside(s.nextOp, {}, None));
    UnusedBound(s.procs);
  }

  /** A step that leaves disk, cache, log and history alone, and keeps who holds what. */
  ghost predicate ProcsOnly(s: State, t: State) {
    && t.disk == s.disk && t.dirty == s.dirty && t.lh == s.lh && t.phase == s.phase
    && t.history == s.history && t.durable == s.durable && |t.procs| == |s.procs|
    && (forall p, b | 0 <= p < |s.procs| :: Holds(t.procs[p], b) <==> Holds(s.procs[p], b))
  }

  lemma ProcsOnlyStored(g: Geometry, base: Disk, s: State, t: State)
    requires Stored(g, base, s) && ProcsOnly(s, t)
    ensures Stored(g, base, t)
  {
    forall b | b in t.dirty && b !in t.lh
      ensures Held(t, b)
    {
      var p :| 0 <= p < |s.procs| && Holds(s.procs[p], b);
      assert Holds(t.procs[p], b);
    }
    forall p | 0 <= p < |t.procs| && t.procs[p].Inside? && t.procs[p].held.Some?
      ensures t.procs[p].held.value in t.dirty
    {
      assert Holds(t.procs[p], t.procs[p].held.value);
      assert Holds(s.procs[p], t.procs[p].held.value);
    }
  }

  lemma ApplySnoc(d: Disk, ws: seq<Write>, w: Write)
    requires (forall i | 0 <= i < |ws| :: ws[i].block < |d|) && w.block < |d|
    ensures Apply(d, ws + [w]) == Apply(d, ws)[w.block := w.data]
  {
  }

  lemma TouchControl(g: Geometry, s: State, p: nat, b: nat, data: Block)
    requires Control(s) && Can(g, s, Touch(p, b, data))
    ensures s.phase.Idle? && Control(DoTouch(g, s, p, b, data))
  {
    hide Count, Unused;
    CountInside(s.procs, p);
    UpdateSums(s.procs, p, s.procs[p].(held := Some(b)));
  }

  lemma TouchPinned(g: Geometry, s: State, p: nat, b: nat, data: Block)
    requires Pinned(g, s) && Can(g, s, Touch(p, b, data)) && s.phase.Idle?
    ensures Pinned(g, DoTouch(g, s, p, b, data))
  {
    var t := DoTouch(g, s, p, b, data);
    if t.fault.None? {
      assert Holds(t.procs[p], b);
      forall c | c in t.dirty && c !in t.lh
        ensures Held(t, c)
      {
        if c != b {
          var q :| 0 <= q < |s.procs| && Holds(s.procs[q], c);
          assert Holds(t.procs[q], c);
        }
      }
    }
  }

  lemma TouchShowing(g: Geometry, base: Disk, s: State, p: nat, b: nat, data: Block)
    requires Sane(g, s) && |base| == |s.disk| && Showing(g, base, s)
    requires Can(g, s, Touch(p, b, data))
    ensures Sane(g, DoTouch(g, s, p, b, data)) && Showing(g, base, DoTouch(g, s, p, b, data))
  {
    var t := DoTouch(g, s, p, b, data);
    if t.fault.None? {
      ApplySnoc(base, s.history, Write(s.procs[p].op, b, data));
    }
  }

  lemma TouchStored(g: Geometry, base: Disk, s: State, p: nat, b: nat, data: Block)
    requires Stored(g, base, s) && Can(g, s, Touch(p, b, data)) && s.phase.Idle?
    ensures Stored(g, base, DoTouch(g, s, p, b, data))
  {
    var t := DoTouch(g, s, p, b, data);
    TouchPinned(g, s, p, b, data);
    TouchShowing(g, base, s, p, b, data);
    assert t.history[..t.durable] == s.history[..s.durable];
  }

  lemma RecordReservation(g: Geometry, s: State, p: nat)
    requires Reservation(s) && Can(g, s, Record(p)) && 1 <= g.size
    ensures Reservation(DoRecord(g, s, p)) && Count(DoRecord(g, s, p).procs) == Count(s.procs)
  {
    hide Count, Unused;
    var b := s.procs[p].held.value;
    var x := s.procs[p].(logged := s.procs[p].logged + {b}, held := None);
    UpdateSums(s.procs, p, x);
    SubsetSize(s.procs[p].logged, x.logged);
    assert b !in s.lh ==> |x.logged| == |s.procs[p].logged| + 1;
  }

  lemma RecordControl(g: Geometry, s: State, p: nat)
    requires Control(s) && Can(g, s, Record(p)) && 1 <= g.size
    ensures s.phase.Idle? && Control(DoRecord(g, s, p))
  {
    hide Count, Unused;
    CountInside(s.procs, p);
    RecordReservation(g, s, p);
  }

  lemma RecordPinned(g: Geometry, s: State, p: nat)
    requires Pinned(g, s) && Can(g, s, Record(p)) && s.phase.Idle? && 1 <= g.size
    ensures Pinned(g, DoRecord(g, s, p))
  {
    var t := DoRecord(g, s, p);
    if t.fault.None? {
      forall c | c in t.dirty && c !in t.lh
        ensures Held(t, c)
      {
        var q :| 0 <= q < |s.procs| && Holds(s.procs[q], c);
        assert Holds(t.procs[q], c);
      }
    }
  }

  lemma RecordStored(g: Geometry, base: Disk, s: State, p: nat)
    requires Stored(g, base, s) && Can(g, s, Record(p)) && s.phase.Idle?
    ensures Stored(g, base, DoRecord(g, s, p))
  {
    hide Apply, Entries, Shows, HeaderOk, HomeWrites;
    RecordPinned(g, s, p);
    assert g.Home(s.procs[p].held.value);
  }

  lemma EndControl(g: Geometry, s: State, p: nat)
    requires Control(s) && Can(g, s, End(p))
    ensures s.phase.Idle? && Control(DoEnd(s, p))
    ensures s.outstanding == 1 ==> forall q | 0 <= q < |s.procs| && q != p :: !s.procs[q].Inside?
  {
    hide Count, Unused;
    CountInside(s.procs, p);
    UpdateSums(s.procs, p, Outside);
    var procs := s.procs[p := Outside];
    WakeSums(procs);
    if s.outstanding == 1 {
      var t := DoEnd(s, p);
      NobodyHolds(t);
      NobodyInside(procs);
      assert forall q | 0 <= q < |s.procs| && q != p :: t.procs[q] == s.procs[q];
    }
  }

  lemma EndStored(g: Geometry, base: Disk, s: State, p: nat)
    requires Stored(g, base, s) && Can(g, s, End(p)) && s.phase.Idle?
    requires s.outstanding == 1 ==> forall q | 0 <= q < |s.procs| && q != p :: !s.procs[q].Inside?
    ensures Stored(g, base, DoEnd(s, p))
  {
    var t := DoEnd(s, p);
    if s.outstanding != 1 {
      ProcsOnlyStored(g, base, s, t);
    } else {
      assert forall c | c in t.dirty :: !Held(s, c);
      if s.lh == [] {
        assert t.dirty == map[];
      }
    }
  }

  /** While commit runs, every pinned buffer is one of the logged ones. */
  ghost predicate Quiet(s: State) {
    forall p | 0 <= p < |s.procs| :: !s.procs[p].Inside?
  }

  lemma SameHeader(g: Geometry, d: Disk, e: Disk)
    requires OnDisk(g, d) && OnDisk(g, e) && HeaderOk(g, d) && d[g.start] == e[g.start]
    ensures HeaderOk(g, e) && Entries(g, e) == Entries(g, d)
  {
  }

  /** A write into the log region changes neither the home blocks nor what the cache shows of them. */
  lemma LogWriteUnseen(g: Geometry, d: Disk, dirty: map<nat, Block>, a: Disk, b: nat, x: Block)
    requires Shows(g, d, dirty, a) && b < g.nblocks && !g.Home(b)
    ensures Shows(g, d[b := x], dirty, a)
    ensures SameHome(g, d[b := x], d)
  {
  }

  /** Writing a pinned block's final contents home and unpinning it changes nothing the cache shows. */
  lemma InstallUnseen(g: Geometry, d: Disk, dirty: map<nat, Block>, a: Disk, b: nat)
    requires Shows(g, d, dirty, a) && b < g.nblocks
    ensures Shows(g, d[b := a[b]], dirty - {b}, a)
  {
  }

  lemma LogHasNext(g: Geometry, d: Disk, dirty: map<nat, Block>, lh: seq<nat>, i: nat, a: Disk)
    requires OnDisk(g, d) && Loggable(g, lh) && i < |lh| && Shows(g, d, dirty, a) && LogHas(g, d, lh[..i], a)
    ensures LogHas(g, d[g.start + 1 + i := Seen(d, dirty, lh[i])], lh[..i + 1], a)
  {
  }

  lemma LogHasKept(g: Geometry, d: Disk, lh: seq<nat>, a: Disk, b: nat, x: Block)
    requires OnDisk(g, d) && Loggable(g, lh) && |a| == |d| && LogHas(g, d, lh, a)
    requires g.Home(b) || b == g.start
    ensures b < |d| && LogHas(g, d[b := x], lh, a)
  {
  }

  lemma LogHasAt(g: Geometry, d: Disk, lh: seq<nat>, a: Disk, i: nat)
    requires OnDisk(g, d) && Loggable(g, lh) && |a| == |d| && LogHas(g, d, lh, a) && i < |lh|
    ensures g.Home(lh[i]) && d[g.start + 1 + i] == a[lh[i]]
  {
  }

  lemma WritingLogStored(g: Geometry, base: Disk, s: State)
    requires Stored(g, base, s) && s.phase.WritingLog? && s.phase.done < |s.lh|
    ensures Stored(g, base, DoLogBlock(g, s))
  {
    hide Apply, Entries, LogHas, Shows, HeaderOk;
    var i := s.phase.done;
    var a := Apply(base, s.history);
    SameHeader(g, s.disk, DoLogBlock(g, s).disk);
    LogWriteUnseen(g, s.disk, s.dirty, a, g.start + 1 + i, Seen(s.disk, s.dirty, s.lh[i]));
    LogHasNext(g, s.disk, s.dirty, s.lh, i, a);
  }

  lemma HeaderStored(g: Geometry, base: Disk, s: State)
    requires Stored(g, base, s) && s.phase.WritingLog? && s.phase.done == |s.lh|
    ensures Stored(g, base, DoHeader(g, s))
  {
    hide Apply, Entries, LogHas, HeaderBlock;
    var a := Apply(base, s.history);
    var x := HeaderBlock(s.disk[g.start], s.lh, |s.lh|);
    HeaderRoundTrip(g, s.disk, s.lh);
    LogWriteUnseen(g, s.disk, s.dirty, a, g.start, x);
    assert s.lh[..|s.lh|] == s.lh;
    LogHasKept(g, s.disk, s.lh, a, g.start, x);
  }

  lemma InstallPinned(g: Geometry, s: State)
    requires Pinned(g, s) && OnDisk(g, s.disk) && Loggable(g, s.lh)
    requires s.phase.Installing? && s.phase.done < |s.lh| && Quiet(s)
    ensures Pinned(g, DoInstall(g, s))
  {
  }

  lemma InstallStored(g: Geometry, base: Disk, s: State)
    requires Stored(g, base, s) && s.phase.Installing? && s.phase.done < |s.lh| && Quiet(s)
    ensures Stored(g, base, DoInstall(g, s))
  {
    hide Apply, Entries, LogHas, Pinned, Shows, HeaderOk;
    var b, x := s.lh[s.phase.done], s.disk[g.start + 1 + s.phase.done];
    LogHasAt(g, s.disk, s.lh, Apply(base, s.history), s.phase.done);
    InstallPinned(g, s);
    InstallUnseen(g, s.disk, s.dirty, Apply(base, s.history), b);
    SameHeader(g, s.disk, DoInstall(g, s).disk);
    LogHasKept(g, s.disk, s.lh, Apply(base, s.history), b, x);
  }

  lemma ClearStored(g: Geometry, base: Disk, s: State)
    requires Stored(g, base, s) && s.phase.Installing? && s.phase.done == |s.lh| && Quiet(s)
    ensures Stored(g, base, DoClear(g, s))
  {
  }

  lemma FinishStored(g: Geometry, base: Disk, s: State)
    requires Stored(g, base, s) && s.phase.Finished?
    ensures Stored(g, base, DoFinish(s))
  {
    assert s.history[..s.durable] == s.history;
    ProcsOnlyStored(g, base, s, s.(procs := Wake(s.procs)));
  }

  lemma CommitStored(g: Geometry, base: Disk, s: State)
    requires Stored(g, base, s) && !s.phase.Idle? && Quiet(s)
    ensures Stored(g, base, DoCommitStep(g, s))
  {
    match s.phase
    case WritingLog(i) =>
      if i < |s.lh| {
        WritingLogStored(g, base, s);
      } else {
        HeaderStored(g, base, s);
      }
    case Installing(i) =>
      if i < |s.lh| {
        InstallStored(g, base, s);
      } else {
        ClearStored(g, base, s);
      }
    case Finished => FinishStored(g, base, s);
  }

  lemma CommitControl(g: Geometry, s: State)
    requires Control(s) && OnDisk(g, s.disk) && Loggable(g, s.lh) && !s.phase.Idle?
    ensures Quiet(s) && Control(DoCommitStep(g, s))
  {
    hide Count, Unused;
    NobodyHolds(s);
    NobodyInside(s.procs);
    WakeSums(s.procs);
  }

  lemma RecoversBlock(g: Geometry, base: Disk, s: State, b: nat)
    requires Stored(g, base, s) && s.phase.Installing? && Quiet(s) && g.Home(b)
    ensures Recovered(g, s.disk)[b] == Apply(base, s.history)[b]
  {
    hide Recovered, HeaderOk, Entries, Apply;
    RecoveredBlock(g, s.disk, b);
    if b !in s.lh {
      assert b !in s.dirty;
      assert Seen(s.disk, s.dirty, b) == s.disk[b];
    }
  }

  /** Whatever the phase, recovery brings back exactly the durable modifications. */
  lemma RecoversDurable(g: Geometry, base: Disk, s: State)
    requires Inv(g, base, s)
    ensures HeaderOk(g, s.disk) && s.durable <= |s.history|
    ensures SameHome(g, Recovered(g, s.disk), Apply(base, s.history[..s.durable]))
  {
    if s.phase.Installing? {
      assert s.history[..s.durable] == s.history;
      NobodyHolds(s);
      forall b | 0 <= b < g.nblocks && g.Home(b)
        ensures Recovered(g, s.disk)[b] == Apply(base, s.history)[b]
      {
        RecoversBlock(g, base, s, b);
      }
    } else {
      RecoveredOfClear(g, s.disk);
      if s.phase.Finished? {
        assert s.history[..s.durable] == s.history;
      }
    }
  }

  lemma CrashKeeps(g: Geometry, base: Disk, s: State, cuts: seq<nat>)
    requires Inv(g, base, s) && Can(g, s, Crash(cuts))
    ensures s.durable <= |s.history| && Inv(g, base, DoCrash(g, s, cuts))
  {
    hide Control, Stored, DoCrash;
    RecoversDurable(g, base, s);
    CrashControl(g, base, s, cuts);
    CrashStored(g, base, s, cuts);
  }

  lemma CrashControl(g: Geometry, base: Disk, s: State, cuts: seq<nat>)
    requires Inv(g, base, s) && Can(g, s, Crash(cuts)) && s.durable <= |s.history|
    ensures Control(DoCrash(g, s, cuts))
  {
    hide Stored, Recovered, AfterRecoveries, CrashedRecoveries, HeaderOk, Entries, Count, Unused;
    NobodyInside(DoCrash(g, s, cuts).procs);
  }

  lemma CrashStored(g: Geometry, base: Disk, s: State, cuts: seq<nat>)
    requires Inv(g, base, s) && Can(g, s, Crash(cuts)) && s.durable <= |s.history|
    ensures Stored(g, base, DoCrash(g, s, cuts))
  {
    var t := DoCrash(g, s, cuts);
    RecoversDurable(g, base, s);
    RecoveriesAgree(g, s.disk, cuts);
    RecoveredClear(g, AfterRecoveries(g, s.disk, cuts));
    assert t.history[..t.durable] == t.history;
  }

  lemma EndKeeps(g: Geometry, base: Disk, s: State, p: nat)
    requires Inv(g, base, s) && Can(g, s, End(p))
    ensures Inv(g, base, DoEnd(s, p))
  {
    hide Control, Stored;
    EndControl(g, s, p);
    EndStored(g, base, s, p);
  }

  lemma TouchKeeps(g: Geometry, base: Disk, s: State, p: nat, b: nat, data: Block)
    requires Inv(g, base, s) && Can(g, s, Touch(p, b, data))
    ensures Inv(g, base, DoTouch(g, s, p, b, data))
  {
    hide Control, Stored;
    TouchControl(g, s, p, b, data);
    TouchStored(g, base, s, p, b, data);
  }

  lemma RecordKeeps(g: Geometry, base: Disk, s: State, p: nat)
    requires Inv(g, base, s) && Can(g, s, Record(p)) && 1 <= g.size
    ensures Inv(g, base, DoRecord(g, s, p))
  {
    hide Control, Stored;
    RecordControl(g, s, p);
    RecordStored(g, base, s, p);
  }

  lemma BeginKeeps(g: Geometry, base: Disk, s: State, p: nat)
    requires Inv(g, base, s) && Can(g, s, Begin(p))
    ensures Inv(g, base, DoBegin(s, p))
  {
    hide Stored;
    BeginControl(s, p);
    ProcsOnlyStored(g, base, s, DoBegin(s, p));
  }

  lemma CommitKeeps(g: Geometry, base: Disk, s: State)
    requires Inv(g, base, s) && !s.phase.Idle? && OnDisk(g, s.disk) && Loggable(g, s.lh)
    ensures Inv(g, base, DoCommitStep(g, s))
  {
    hide Control, Stored, DoCommitStep;
    CommitControl(g, s);
    CommitStored(g, base, s);
  }

  /** Every step of every process, and every crash, keeps the invariant. */
  lemma StepKeeps(g: Geometry, base: Disk, s: State, a: Action)
    requires Inv(g, base, s) && Can(g, s, a)
    ensures Inv(g, base, Do(g, s, a))
  {
    match a
    case Begin(p) => BeginKeeps(g, base, s, p);
    case Touch(p, b, data) => TouchKeeps(g, base, s, p, b, data);
    case Record(p) => RecordKeeps(g, base, s, p);
    case End(p) => EndKeeps(g, base, s, p);
    case CommitStep => CommitKeeps(g, base, s);
    case Crash(cuts) => CrashKeeps(g, base, s, cuts);
  }

  // ---------------------------------------------------------------- whole runs

  /** The action keeps its operation to at most `limit` distinct blocks. */
  ghost predicate Within(limit: nat, s: State, a: Action) {
    a.Touch? && a.p < |s.procs| && s.procs[a.p].Inside? ==> |s.procs[a.p].logged + {a.block}| <= limit
  }

  ghost predicate Run(g: Geometry, limit: nat, s: State, acts: seq<Action>, t: State)
    decreases |acts|
  {
    if acts == [] then t == s
    else
      && Sane(g, s) && Can(g, s, acts[0]) && Within(limit, s, acts[0])
      && Run(g, limit, Do(g, s, acts[0]), acts[1..], t)
  }

  lemma {:induction false} RunKeeps(g: Geometry, base: Disk, limit: nat, s: State, acts: seq<Action>, t: State)
    requires Inv(g, base, s) && Run(g, limit, s, acts, t)
    ensures Inv(g, base, t)
    decreases |acts|
  {
    if acts != [] {
      StepKeeps(g, base, s, acts[0]);
      RunKeeps(g, base, limit, Do(g, s, acts[0]), acts[1..], t);
    }
  }

  /**
   In every reachable state: commit excludes open operations; the on-disk header names
   blocks only while no operation is open; whenever that header is empty the home blocks
   hold exactly the durable modifications; and nobody sleeps in begin_op with nobody left to wake them.
   */
  lemma ReachableStates(g: Geometry, base: Disk, nprocs: nat, limit: nat, acts: seq<Action>, t: State)
    requires Clear(g, base) && Run(g, limit, Boot(base, nprocs), acts, t)
    ensures t.committing ==> t.outstanding == 0 && Quiet(t)
    ensures Sane(g, t) && HeaderOk(g, t.disk) && (Entries(g, t.disk) != [] ==> Quiet(t) && t.durable == |t.history|)
    ensures Entries(g, t.disk) == [] ==> SameHome(g, t.disk, Apply(base, t.history[..t.durable]))
    ensures forall p | 0 <= p < |t.procs| && t.procs[p].Waiting? :: t.outstanding > 0 || t.committing
    ensures |t.lh| + Unused(t.procs) <= LOGSIZE
  {
    BootInv(g, base, nprocs);
    RunKeeps(g, base, limit, Boot(base, nprocs), acts, t);
    RecoversDurable(g, base, t);
    if t.outstanding == 0 {
      NobodyHolds(t);
    }
  }

  /**
   Operations are atomic across crashes. Stop any run anywhere, crash any number of
   recoveries anywhere: what comes back is a prefix of the modifications that contains
   every modification of each operation it contains at all, and no open operation's.
   */
  lemma OperationsAtomic(g: Geometry, base: Disk, nprocs: nat, limit: nat, acts: seq<Action>, t: State, cuts: seq<nat>)
    requires Clear(g, base) && Run(g, limit, Boot(base, nprocs), acts, t)
    requires OnDisk(g, t.disk) && HeaderOk(g, t.disk) && CrashedRecoveries(g, t.disk, cuts)
    ensures t.durable <= |t.history| && HomeWrites(g, t.history)
    ensures SameHome(g, Recovered(g, AfterRecoveries(g, t.disk, cuts)), Apply(base, t.history[..t.durable]))
    ensures forall i, j | 0 <= i < t.durable <= j < |t.history| :: t.history[i].op != t.history[j].op
    ensures forall i, p | 0 <= i < t.durable && 0 <= p < |t.procs| && t.procs[p].Inside? ::
              t.history[i].op != t.procs[p].op
  {
    BootInv(g, base, nprocs);
    RunKeeps(g, base, limit, Boot(base, nprocs), acts, t);
    RecoversDurable(g, base, t);
    RecoveriesAgree(g, t.disk, cuts);
  }

  // ---------------------------------------------------------------- when the log can overflow

  ghost function Claim(p: Proc): set<nat> {
    if p.Inside? then p.logged + (if p.held.Some? then {p.held.value} else {}) else {}
  }

  /** Operations stay one block short of their reservation, and a lone one leaves two to spare. */
  ghost predicate Slack(s: State) {
    && s.fault.None?
    && (forall p | 0 <= p < |s.procs| && s.procs[p].Inside? :: |Claim(s.procs[p])| < MAXOPBLOCKS)
    && (s.outstanding == 1 ==> |s.lh| + Unused(s.procs) < LOGSIZE)
  }

  lemma {:induction false} UnusedAtLeast(procs: seq<Proc>, p: nat)
    requires p < |procs| && procs[p].Inside?
    requires forall q | 0 <= q < |procs| && procs[q].Inside? :: |Claim(procs[q])| < MAXOPBLOCKS
    ensures Unused(procs) >= Count(procs) - 1 + MAXOPBLOCKS - |procs[p].logged|
  {
    SmallClaim(procs[0]);
    if p > 0 {
      UnusedAtLeast(procs[1..], p - 1);
    } else {
      UnusedPositive(procs[1..]);
    }
  }

  lemma SmallClaim(p: Proc)
    requires p.Inside? ==> |Claim(p)| < MAXOPBLOCKS
    ensures p.Inside? ==> |p.logged| <= |Claim(p)| < MAXOPBLOCKS
    ensures p.Inside? && p.held.Some? && p.held.value !in p.logged ==> |p.logged| + 1 < MAXOPBLOCKS
  {
  }

  lemma {:induction false} UnusedPositive(procs: seq<Proc>)
    requires forall q | 0 <= q < |procs| && procs[q].Inside? :: |Claim(procs[q])| < MAXOPBLOCKS
    ensures Unused(procs) >= Count(procs)
  {
    if procs != [] {
      SmallClaim(procs[0]);
      UnusedPositive(procs[1..]);
    }
  }

  lemma RoomLeft(s: State, p: nat)
    requires Control(s) && Slack(s) && p < |s.procs| && s.procs[p].Inside?
    ensures |s.lh| < LOGSIZE - 1
  {
    hide Count, Unused;
    CountInside(s.procs, p);
    UnusedAtLeast(s.procs, p);
    SmallClaim(s.procs[p]);
  }

  lemma BeginSlack(g: Geometry, s: State, p: nat)
    requires Control(s) && Slack(s) && Can(g, s, Begin(p))
    ensures Slack(DoBegin(s, p))
  {
    hide Count, Unused;
    UpdateSums(s.procs, p, Waiting);
    UpdateSums(s.procs, p, Inside(s.nextOp, {}, None));
    UnusedBound(s.procs);
  }

  lemma TouchSlack(g: Geometry, s: State, p: nat, b: nat, data: Block)
    requires LOGSIZE <= g.size && Control(s) && Slack(s)
    requires Can(g, s, Touch(p, b, data)) && |s.procs[p].logged + {b}| < MAXOPBLOCKS
    ensures Slack(DoTouch(g, s, p, b, data))
  {
    hide Count, Unused;
    RoomLeft(s, p);
    UpdateSums(s.procs, p, s.procs[p].(held := Some(b)));
  }

  lemma RecordSlack(g: Geometry, s: State, p: nat)
    requires LOGSIZE <= g.size && Control(s) && Slack(s) && Can(g, s, Record(p))
    ensures Slack(DoRecord(g, s, p))
  {
    hide Count, Unused;
    RoomLeft(s, p);
    var b := s.procs[p].held.value;
    var x := s.procs[p].(logged := s.procs[p].logged + {b}, held := None);
    UpdateSums(s.procs, p, x);
    SubsetSize(s.procs[p].logged, x.logged);
    assert Claim(x) == Claim(s.procs[p]);
    assert b !in s.lh ==> |x.logged| == |s.procs[p].logged| + 1;
  }

  lemma EndSlack(g: Geometry, s: State, p: nat)
    requires Control(s) && Slack(s) && Can(g, s, End(p))
    ensures Slack(DoEnd(s, p))
  {
    hide Count, Unused;
    CountInside(s.procs, p);
    UpdateSums(s.procs, p, Outside);
    WakeSums(s.procs[p := Outside]);
    SmallClaim(s.procs[p]);
  }

  lemma CommitSlack(g: Geometry, s: State)
    requires Control(s) && Slack(s) && Sane(g, s) && !s.phase.Idle?
    ensures Slack(DoCommitStep(g, s))
  {
  }

  lemma CrashSlack(g: Geometry, s: State, cuts: seq<nat>)
    requires Sane(g, s) && Can(g, s, Crash(cuts))
    ensures Slack(DoCrash(g, s, cuts))
  {
  }

  lemma StepSlack(g: Geometry, base: Disk, s: State, a: Action)
    requires LOGSIZE <= g.size && Inv(g, base, s) && Slack(s) && Can(g, s, a) && Within(MAXOPBLOCKS - 1, s, a)
    ensures Slack(Do(g, s, a))
  {
    hide Control, Slack, Sane;
    match a
    case Begin(p) => BeginSlack(g, s, p);
    case Touch(p, b, data) => TouchSlack(g, s, p, b, data);
    case Record(p) => RecordSlack(g, s, p);
    case End(p) => EndSlack(g, s, p);
    case CommitStep => CommitSlack(g, s);
    case Crash(cuts) => CrashSlack(g, s, cuts);
  }

  /** With a log of LOGSIZE blocks, operations of at most MAXOPBLOCKS - 1 blocks never fill it. */
  lemma {:induction false} ShortOpsNeverFault(g: Geometry, base: Disk, limit: nat, s: State, acts: seq<Action>,
                                              t: State)
    requires LOGSIZE <= g.size && limit < MAXOPBLOCKS && Inv(g, base, s) && Slack(s) && Run(g, limit, s, acts, t)
    ensures t.fault.None?
    decreases |acts|
  {
    if acts != [] {
      StepKeeps(g, base, s, acts[0]);
      StepSlack(g, base, s, acts[0]);
      ShortOpsNeverFault(g, base, limit, Do(g, s, acts[0]), acts[1..], t);
    }
  }

  /** Nobody holds an unrecorded buffer. */
  ghost predicate Settled(s: State) {
    s.fault.None? && s.phase.Idle? && forall q | 0 <= q < |s.procs| && s.procs[q].Inside? :: s.procs[q].held.None?
  }

  lemma {:induction false} RunTrans(g: Geometry, limit: nat, s: State, a: seq<Action>, t: State, b: seq<Action>,
                                    u: State)
    requires Run(g, limit, s, a, t) && Run(g, limit, t, b, u)
    ensures Run(g, limit, s, a + b, u)
    decreases |a|
  {
    hide Do, Can, Within, Sane;
    if a == [] {
      assert a + b == b;
    } else {
      assert (a + b)[1..] == a[1..] + b;
      RunTrans(g, limit, Do(g, s, a[0]), a[1..], t, b, u);
    }
  }

  lemma OneStep(g: Geometry, base: Disk, limit: nat, s: State, a: Action) returns (t: State)
    requires Inv(g, base, s) && Can(g, s, a) && Within(limit, s, a)
    ensures t == Do(g, s, a) && Inv(g, base, t) && Run(g, limit, s, [a], t)
  {
    t := Do(g, s, a);
    StepKeeps(g, base, s, a);
    assert [a][1..] == [];
    assert Run(g, limit, t, [], t);
  }

  /** An open operation modifies and records the next block past everything logged so far. */
  lemma LogFresh(g: Geometry, base: Disk, s: State, p: nat, b: nat) returns (acts: seq<Action>, t: State)
    requires Inv(g, base, s) && Settled(s) && p < |s.procs| && s.procs[p].Inside?
    requires g.start + g.size <= b < g.nblocks && forall c | c in s.lh :: c < b
    requires |s.procs[p].logged| < MAXOPBLOCKS && |s.lh| < g.Capacity()
    ensures Run(g, MAXOPBLOCKS, s, acts, t) && Inv(g, base, t) && Settled(t)
    ensures t.lh == s.lh + [b]
    ensures t.procs == s.procs[p := Inside(s.procs[p].op, s.procs[p].logged + {b}, None)]
  {
    hide Stored, Numbering, Sleepers;
    var touched := OneStep(g, base, MAXOPBLOCKS, s, Touch(p, b, ZeroBlock()));
    t := OneStep(g, base, MAXOPBLOCKS, touched, Record(p));
    acts := [Touch(p, b, ZeroBlock())] + [Record(p)];
    RunTrans(g, MAXOPBLOCKS, s, [Touch(p, b, ZeroBlock())], touched, [Record(p)], t);
  }

  /** An open operation records k fresh blocks. */
  lemma {:induction false} Fill(g: Geometry, base: Disk, s: State, p: nat, first: nat, k: nat)
    returns (acts: seq<Action>, t: State)
    requires Inv(g, base, s) && Settled(s) && p < |s.procs| && s.procs[p].Inside?
    requires g.start + g.size <= first && first + k <= g.nblocks && forall c | c in s.lh :: c < first
    requires |s.procs[p].logged| + k <= MAXOPBLOCKS && |s.lh| + k <= g.Capacity()
    ensures Run(g, MAXOPBLOCKS, s, acts, t) && Inv(g, base, t) && Settled(t)
    ensures |t.lh| == |s.lh| + k && (forall c | c in t.lh :: c < first + k)
    ensures |t.procs| == |s.procs| && t.procs[p].Inside? && |t.procs[p].logged| == |s.procs[p].logged| + k
    ensures forall q | 0 <= q < |s.procs| && q != p :: t.procs[q] == s.procs[q]
    decreases k
  {
    hide Stored, Run, Control, Can, Do;
    if k == 0 {
      acts, t := [], s;
      assert Run(g, MAXOPBLOCKS, s, [], s) by { RunNothing(g, s); }
    } else {
      var a1, m := LogFresh(g, base, s, p, first);
      FreshIsNew(s, p, first);
      var a2, u := Fill(g, base, m, p, first + 1, k - 1);
      acts, t := a1 + a2, u;
      RunTrans(g, MAXOPBLOCKS, s, a1, m, a2, u);
    }
  }

  lemma RunNothing(g: Geometry, s: State)
    ensures Run(g, MAXOPBLOCKS, s, [], s)
  {
  }

  lemma FreshIsNew(s: State, p: nat, b: nat)
    requires Control(s) && p < |s.procs| && s.procs[p].Inside? && forall c | c in s.lh :: c < b
    ensures |s.procs[p].logged + {b}| == |s.procs[p].logged| + 1
  {
  }

  /** Three operations are admitted to an empty log. */
  lemma OpenThree(g: Geometry, base: Disk) returns (acts: seq<Action>, t: State)
    requires Clear(g, base)
    ensures Run(g, MAXOPBLOCKS, Boot(base, 3), acts, t) && Inv(g, base, t) && Settled(t)
    ensures t.lh == [] && |t.procs| == 3
    ensures forall q | 0 <= q < 3 :: t.procs[q].Inside? && t.procs[q].logged == {}
  {
    hide Stored, Reservation, Numbering, Sleepers;
    var s := Boot(base, 3);
    BootInv(g, base, 3);
    var s1 := OneStep(g, base, MAXOPBLOCKS, s, Begin(0));
    var s2 := OneStep(g, base, MAXOPBLOCKS, s1, Begin(1));
    t := OneStep(g, base, MAXOPBLOCKS, s2, Begin(2));
    RunTrans(g, MAXOPBLOCKS, s, [Begin(0)], s1, [Begin(1)], s2);
    RunTrans(g, MAXOPBLOCKS, s, [Begin(0)] + [Begin(1)], s2, [Begin(2)], t);
    acts := [Begin(0)] + [Begin(1)] + [Begin(2)];
  }

  /** Three operations record a, b and c fresh blocks. */
  lemma FillThree(g: Geometry, base: Disk, a: nat, b: nat, c: nat) returns (acts: seq<Action>, t: State)
    requires Clear(g, base) && a <= MAXOPBLOCKS && b <= MAXOPBLOCKS && c <= MAXOPBLOCKS
    requires a + b + c <= g.Capacity() && g.start + g.size + a + b + c <= g.nblocks
    ensures Run(g, MAXOPBLOCKS, Boot(base, 3), acts, t) && Inv(g, base, t) && Settled(t)
    ensures |t.lh| == a + b + c && (forall x | x in t.lh :: x < g.start + g.size + a + b + c)
    ensures |t.procs| == 3 && forall q | 0 <= q < 3 :: t.procs[q].Inside?
    ensures |t.procs[0].logged| == a && |t.procs[1].logged| == b && |t.procs[2].logged| == c
  {
    hide Stored, Control, Run, Can, Do;
    var first := g.start + g.size;
    var a0, s0 := OpenThree(g, base);
    var a1, s1 := Fill(g, base, s0, 0, first, a);
    RunTrans(g, MAXOPBLOCKS, Boot(base, 3), a0, s0, a1, s1);
    var a2, s2 := Fill(g, base, s1, 1, first + a, b);
    RunTrans(g, MAXOPBLOCKS, Boot(base, 3), a0 + a1, s1, a2, s2);
    var a3, s3 := Fill(g, base, s2, 2, first + a + b, c);
    RunTrans(g, MAXOPBLOCKS, Boot(base, 3), a0 + a1 + a2, s2, a3, s3);
    acts, t := a0 + a1 + a2 + a3, s3;
  }

  lemma LoggedIsHome(g: Geometry, base: Disk, s: State, b: nat)
    requires Inv(g, base, s) && b in s.lh
    ensures g.Home(b)
  {
  }

  /**
   Three operations within their reservations can still fail the size check: it is made
   before absorption, and a log of LOGSIZE blocks holds one block less than is reserved.
   */
  lemma FullOpsCanFault(g: Geometry, base: Disk) returns (acts: seq<Action>, t: State)
    requires Clear(g, base) && LOGSIZE <= g.size && g.start + g.size + LOGSIZE <= g.nblocks
    ensures Run(g, MAXOPBLOCKS, Boot(base, 3), acts, t) && t.fault == Some(TooBig)
  {
    hide Stored, Run, Numbering, Sleepers, Counters;
    var n := g.Capacity();
    var a, s := FillThree(g, base, MAXOPBLOCKS, MAXOPBLOCKS, n - 2 * MAXOPBLOCKS);
    var b :| b in s.procs[0].logged;
    LoggedIsHome(g, base, s, b);
    assert s.procs[0].logged + {b} == s.procs[0].logged;
    var act := Touch(0, b, ZeroBlock());
    t := OneStep(g, base, MAXOPBLOCKS, s, act);
    RunTrans(g, MAXOPBLOCKS, Boot(base, 3), a, s, [act], t);
    acts := a + [act];
  }

  /**
   With the log mkfs lays out, two racing log_write calls that both passed the size
   check can push the log past the end of its region.
   */
  lemma RacingWritesCanOverrun(g: Geometry, base: Disk) returns (acts: seq<Action>, t: State)
    requires Clear(g, base) && g.size == LOGSIZE && g.start + g.size + LOGSIZE <= g.nblocks
    ensures Run(g, MAXOPBLOCKS, Boot(base, 3), acts, t) && t.fault == Some(Overrun)
  {
    hide Stored, Run, Numbering, Sleepers, Counters, Reservation;
    var m := MAXOPBLOCKS;
    var a, s := FillThree(g, base, m, m - 1, m - 1);
    var x, y := g.start + g.size + LOGSIZE - 2, g.start + g.size + LOGSIZE - 1;
    var s1 := OneStep(g, base, m, s, Touch(1, x, ZeroBlock()));
    var s2 := OneStep(g, base, m, s1, Touch(2, y, ZeroBlock()));
    var s3 := OneStep(g, base, m, s2, Record(1));
    t := OneStep(g, base, m, s3, Record(2));
    RunTrans(g, m, Boot(base, 3), a, s, [Touch(1, x, ZeroBlock())], s1);
    acts := a + [Touch(1, x, ZeroBlock())];
    RunTrans(g, m, Boot(base, 3), acts, s1, [Touch(2, y, ZeroBlock())], s2);
    acts := acts + [Touch(2, y, ZeroBlock())];
    RunTrans(g, m, Boot(base, 3), acts, s2, [Record(1)], s3);
    acts := acts + [Record(1)];
    RunTrans(g, m, Boot(base, 3), acts, s3, [Record(2)], t);
    acts := acts + [Record(2)];
  }

  ghost predicate CanFault(g: Geometry, base: Disk, limit: nat) {
    exists nprocs, acts, t :: Run(g, limit, Boot(base, nprocs), acts, t) && t.fault.Some?
  }

  /** Exactly when the log is big enough: every operation must stay below MAXOPBLOCKS blocks. */
  lemma LogSufficesIff(g: Geometry, base: Disk, limit: nat)
    requires Clear(g, base) && LOGSIZE <= g.size && g.start + g.size + LOGSIZE <= g.nblocks
    requires limit <= MAXOPBLOCKS
    ensures !CanFault(g, base, limit) <==> limit < MAXOPBLOCKS
  {
    hide Run, Inv;
    if limit == MAXOPBLOCKS {
      var acts, t := FullOpsCanFault(g, base);
      assert Run(g, limit, Boot(base, 3), acts, t);
    } else {
      forall nprocs, acts, t | Run(g, limit, Boot(base, nprocs), acts, t)
        ensures t.fault.None?
      {
        BootInv(g, base, nprocs);
        ShortOpsNeverFault(g, base, limit, Boot(base, nprocs), acts, t);
      }
    }
  }
}
