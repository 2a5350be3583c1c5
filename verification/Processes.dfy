/**
 The process table of proc.c and the sleep locks of sleeplock.c as a state machine for any
 number of processes, CPUs and locks. A step is what one CPU does while nothing another CPU
 does can be seen: a section under ptable.lock is one step, except where sleep lets the
 caller's own lock go before it marks the process asleep.
 */
module Processes {
  import opened Common

  datatype PState = UNUSED | EMBRYO | SLEEPING | RUNNABLE | RUNNING | ZOMBIE

  /** Where a process is in the kernel. */
  datatype Pc =
    | Run                 // anywhere else
    | Forking(child: nat)
    | Want(l: nat)        // acquiresleep: about to take the spin lock of lock l
    | Test(l: nat)        // has it, at the loop's test
    | Doze(l: nat)        // in sleep, about to take ptable.lock
    | Both(l: nat)        // in sleep, with both
    | Gone(l: nat)        // in sleep, with ptable.lock only
    | Asleep(l: nat)      // switched away in sleep
    | Back(l: nat)        // switched to again, with ptable.lock
    | Got(l: nat)         // has the lock, about to let the spin lock go
    | Drop(l: nat)        // releasesleep: about to take the spin lock
    | Owe(l: nat)         // the lock is free, the wakeup is still to come
    | Out(l: nat)         // about to let the spin lock go
    | Scan                // wait: looking for a dead child, with ptable.lock
    | Waiting             // switched away in wait
    | Yielded             // switched away in yield, or never run
    | Resumed             // switched to again, with ptable.lock

  datatype Proc = Proc(state: PState, parent: Option<nat>, killed: bool, pc: Pc)

  /** A CPU in its scheduler loop without or with ptable.lock, or running a process. */
  datatype Cpu = Loop | Search | On(p: nat)

  /** A sleep lock: the holder of its spin lock and the owner of the lock itself. */
  datatype Lk = Lk(spin: Option<nat>, owner: Option<nat>)

  datatype State = State(procs: seq<Proc>, cpus: seq<Cpu>, table: Option<nat>, locks: seq<Lk>)

  const INIT: nat := 0

  datatype Action = TakeTable(c: nat) | Pick(c: nat, p: nat) | Next(c: nat) | Act(c: nat, step: Step)

  /** What a running process can do. */
  datatype Step =
    | Yield | Resume | Kill(q: nat)
    | Fork(child: nat) | ForkDone | ForkFail | Exit
    | Wait | Reap(z: nat) | WaitFail | WaitSleep
    | Acquire(want: nat) | Spin | Own | Busy | Enter | LetSpin | Sleep | Wakened | Unspin
    | Release(lock: nat) | Free | Wake | Done

  ghost predicate IsChild(s: State, z: nat, p: nat) {
    z < |s.procs| && s.procs[z].parent == Some(p)
  }

  ghost predicate DeadChild(s: State, z: nat, p: nat) {
    IsChild(s, z, p) && s.procs[z].state == ZOMBIE
  }

  ghost predicate HasChild(s: State, p: nat) {
    exists z :: IsChild(s, z, p)
  }

  ghost predicate NoDeadChild(s: State, p: nat) {
    forall z: nat :: !DeadChild(s, z, p)
  }

  ghost predicate SpinFree(s: State, l: nat) { l < |s.locks| && s.locks[l].spin.None? }

  ghost predicate Enabled(s: State, a: Action) {
    && a.c < |s.cpus|
    && match a {
         case TakeTable(c) => s.cpus[c].Loop? && s.table.None?
         case Pick(c, p) => s.cpus[c].Search? && p < |s.procs| && s.procs[p].state == RUNNABLE
         case Next(c) => s.cpus[c].Search?
         case Act(c, step) => s.cpus[c].On? && s.cpus[c].p < |s.procs| && Can(s, step, s.cpus[c].p)
       }
  }

  ghost predicate Can(s: State, step: Step, p: nat)
    requires p < |s.procs|
  {
    var pc := s.procs[p].pc;
    match step
    case Yield => pc.Run? && s.table.None?
    case Resume => pc.Resumed?
    case Kill(q) => pc.Run? && s.table.None? && q < |s.procs| && s.procs[q].state != UNUSED
    case Fork(q) => pc.Run? && s.table.None? && q < |s.procs| && s.procs[q].state == UNUSED
    case ForkDone => pc.Forking? && pc.child < |s.procs| && s.table.None?
    case ForkFail => pc.Forking? && pc.child < |s.procs|
    case Exit => pc.Run? && s.table.None? && p != INIT
    case Wait => pc.Run? && s.table.None?
    case Reap(z) => pc.Scan? && DeadChild(s, z, p) && forall y | 0 <= y < z :: !DeadChild(s, y, p)
    case WaitFail => pc.Scan? && NoDeadChild(s, p) && (!HasChild(s, p) || s.procs[p].killed)
    case WaitSleep => pc.Scan? && NoDeadChild(s, p) && HasChild(s, p) && !s.procs[p].killed
    case Acquire(l) => pc.Run? && l < |s.locks|
    case Spin => pc.Want? && SpinFree(s, pc.l)
    case Own => pc.Test? && pc.l < |s.locks| && s.locks[pc.l].owner.None?
    case Busy => pc.Test? && pc.l < |s.locks| && s.locks[pc.l].owner.Some?
    case Enter => pc.Doze? && s.table.None?
    case LetSpin => pc.Both? && pc.l < |s.locks|
    case Sleep => pc.Gone?
    case Wakened => pc.Back?
    case Unspin => pc.Got? && pc.l < |s.locks|
    case Release(l) => pc.Run? && l < |s.locks| && s.locks[l].owner == Some(p)
    case Free => pc.Drop? && SpinFree(s, pc.l)
    case Wake => pc.Owe? && s.table.None?
    case Done => pc.Out? && pc.l < |s.locks|
  }

  // ---------------------------------------------------------------- the steps

  ghost function At(s: State, p: nat, pc: Pc): State
    requires p < |s.procs|
  {
    s.(procs := s.procs[p := s.procs[p].(pc := pc)])
  }

  /** p gives up its CPU in a new state; the CPU's scheduler goes on with ptable.lock. */
  ghost function Away(s: State, c: nat, p: nat, state: PState, pc: Pc): State
    requires p < |s.procs| && c < |s.cpus|
  {
    s.(procs := s.procs[p := s.procs[p].(state := state, pc := pc)], cpus := s.cpus[c := Search], table := Some(c))
  }

  ghost function SetLock(s: State, l: nat, lk: Lk): State
    requires l < |s.locks|
  {
    s.(locks := s.locks[l := lk])
  }

  /** Where a process goes on when it is switched to. */
  ghost function Onward(pc: Pc): Pc {
    if pc.Asleep? then Back(pc.l) else if pc.Waiting? then Scan else Resumed
  }

  ghost predicate OnLock(q: Proc, l: nat) { q.state == SLEEPING && q.pc == Asleep(l) }
  ghost predicate InWait(q: Proc) { q.state == SLEEPING && q.pc == Waiting }

  /** wakeup on a sleep lock. */
  ghost function WakeLock(procs: seq<Proc>, l: nat): seq<Proc> {
    seq(|procs|, i requires 0 <= i < |procs| => if OnLock(procs[i], l) then procs[i].(state := RUNNABLE) else procs[i])
  }

  /** exit: wake the parent, hand the children to init and wake it if one is dead, and die. */
  ghost function Died(s: State, p: nat): seq<Proc>
    requires p < |s.procs|
  {
    seq(|s.procs|, i requires 0 <= i < |s.procs| =>
      var q := s.procs[i];
      var woken := InWait(q) && (s.procs[p].parent == Some(i) || (i == INIT && exists z :: DeadChild(s, z, p)));
      var parent := if q.parent == Some(p) then Some(INIT) else q.parent;
      if i == p then q.(state := ZOMBIE, parent := parent)
      else q.(state := if woken then RUNNABLE else q.state, parent := parent))
  }

  ghost function Do(s: State, a: Action): State
    requires Enabled(s, a)
  {
    match a
    case TakeTable(c) => s.(cpus := s.cpus[c := Search], table := Some(c))
    case Pick(c, p) =>
      s.(procs := s.procs[p := s.procs[p].(state := RUNNING, pc := Onward(s.procs[p].pc))], cpus := s.cpus[c := On(p)])
    case Next(c) => s.(cpus := s.cpus[c := Loop], table := None)
    case Act(c, step) => Acted(s, c, step, s.cpus[c].p)
  }

  ghost function Acted(s: State, c: nat, step: Step, p: nat): State
    requires c < |s.cpus| && p < |s.procs| && Can(s, step, p)
  {
    var pc := s.procs[p].pc;
    match step
    case Yield => Away(s, c, p, RUNNABLE, Yielded)
    case Resume => At(s, p, Run).(table := None)
    case Kill(q) =>
      s.(procs := s.procs[q := s.procs[q].(killed := true, state := if s.procs[q].state == SLEEPING then RUNNABLE
                                           else s.procs[q].state)])
    case Fork(q) => At(s.(procs := s.procs[q := s.procs[q].(state := EMBRYO, pc := Yielded)]), p, Forking(q))
    case ForkDone => At(s.(procs := s.procs[pc.child := s.procs[pc.child].(state := RUNNABLE, parent := Some(p))]), p,
                        Run)
    case ForkFail => At(s.(procs := s.procs[pc.child := s.procs[pc.child].(state := UNUSED)]), p, Run)
    case Exit => s.(procs := Died(s, p), cpus := s.cpus[c := Search], table := Some(c))
    case Wait => At(s, p, Scan).(table := Some(c))
    case Reap(z) => At(s.(procs := s.procs[z := Proc(UNUSED, None, false, Yielded)]), p, Run).(table := None)
    case WaitFail => At(s, p, Run).(table := None)
    case WaitSleep => Away(s, c, p, SLEEPING, Waiting)
    case Acquire(l) => At(s, p, Want(l))
    case Spin => At(SetLock(s, pc.l, s.locks[pc.l].(spin := Some(p))), p, Test(pc.l))
    case Own => At(SetLock(s, pc.l, s.locks[pc.l].(owner := Some(p))), p, Got(pc.l))
    case Busy => At(s, p, Doze(pc.l))
    case Enter => At(s, p, Both(pc.l)).(table := Some(c))
    case LetSpin => At(SetLock(s, pc.l, s.locks[pc.l].(spin := None)), p, Gone(pc.l))
    case Sleep => Away(s, c, p, SLEEPING, Asleep(pc.l))
    case Wakened => At(s, p, Want(pc.l)).(table := None)
    case Unspin => At(SetLock(s, pc.l, s.locks[pc.l].(spin := None)), p, Run)
    case Release(l) => At(s, p, Drop(l))
    case Free => At(SetLock(s, pc.l, Lk(Some(p), None)), p, Owe(pc.l))
    case Wake => At(s.(procs := WakeLock(s.procs, pc.l)), p, Out(pc.l))
    case Done => At(SetLock(s, pc.l, s.locks[pc.l].(spin := None)), p, Run)
  }

  // ---------------------------------------------------------------- what every step keeps

  ghost predicate HasTable(pc: Pc) { pc.Both? || pc.Gone? || pc.Back? || pc.Scan? || pc.Resumed? }
  ghost predicate HasSpin(pc: Pc) { pc.Test? || pc.Doze? || pc.Both? || pc.Got? || pc.Owe? || pc.Out? }
  ghost predicate Off(pc: Pc) { pc.Asleep? || pc.Waiting? || pc.Yielded? }

  /** What the place of a process says about its state. */
  ghost predicate ProcOk(q: Proc, nlocks: nat) {
    && (q.state == RUNNING ==> !Off(q.pc))
    && (q.state == SLEEPING ==> q.pc.Asleep? || q.pc.Waiting?)
    && (q.state == RUNNABLE ==> Off(q.pc))
    && (q.state == EMBRYO ==> q.pc.Yielded?)
    && (q.state == ZOMBIE ==> q.pc.Run?)
    && (HasSpin(q.pc) || q.pc.Gone? || q.pc.Asleep? || q.pc.Want? || q.pc.Back? || q.pc.Drop? ==> q.pc.l < nlocks)
  }

  ghost predicate ProcsOk(s: State) {
    forall p | 0 <= p < |s.procs| :: ProcOk(s.procs[p], |s.locks|)
  }

  /** A CPU runs a process that is RUNNING; it has ptable.lock if it searches or its process does. */
  ghost predicate CpuOk(s: State, c: nat)
    requires c < |s.cpus|
  {
    && (s.cpus[c].On? ==> s.cpus[c].p < |s.procs| && s.procs[s.cpus[c].p].state == RUNNING)
    && (s.table == Some(c) <==> s.cpus[c].Search?
                                  || (s.cpus[c].On? && s.cpus[c].p < |s.procs| && HasTable(s.procs[s.cpus[c].p].pc)))
  }

  ghost predicate OnSome(s: State, p: nat) {
    exists c :: 0 <= c < |s.cpus| && s.cpus[c] == On(p)
  }

  /** Every RUNNING process is what exactly one CPU runs, and the other way round. */
  ghost predicate CpusOk(s: State) {
    && (forall c | 0 <= c < |s.cpus| :: CpuOk(s, c))
    && (forall c, d | 0 <= c < |s.cpus| && 0 <= d < |s.cpus| && s.cpus[c].On? && s.cpus[c] == s.cpus[d] :: c == d)
    && (forall p | 0 <= p < |s.procs| && s.procs[p].state == RUNNING :: OnSome(s, p))
  }

  /** A child being forked is an EMBRYO of one parent. */
  ghost predicate ForksOk(s: State) {
    && (forall p | 0 <= p < |s.procs| && s.procs[p].pc.Forking? ::
          s.procs[p].state == RUNNING && s.procs[p].pc.child < |s.procs|
          && s.procs[s.procs[p].pc.child].state == EMBRYO)
    && (forall p, q | 0 <= p < |s.procs| && 0 <= q < |s.procs| && s.procs[p].pc.Forking? && s.procs[p].pc ==
        s.procs[q].pc :: p == q)
  }

  /** The spin lock of a lock is held by the one process whose place says so. */
  ghost predicate SpinsOk(s: State) {
    && (forall p | 0 <= p < |s.procs| && HasSpin(s.procs[p].pc) ::
          s.procs[p].state == RUNNING && s.procs[p].pc.l < |s.locks| && s.locks[s.procs[p].pc.l].spin == Some(p))
    && (forall l | 0 <= l < |s.locks| && s.locks[l].spin.Some? ::
          s.locks[l].spin.value < |s.procs| && HasSpin(s.procs[s.locks[l].spin.value].pc)
          && s.procs[s.locks[l].spin.value].pc.l == l)
  }

  /** Asleep on lock l, or past the point where a wakeup would find it awake. */
  ghost predicate Sleeps(q: Proc, l: nat) {
    OnLock(q, l) || (q.state == RUNNING && q.pc == Gone(l))
  }

  /** A releaser of l has its spin lock and is still to wake the sleepers. */
  ghost predicate Owed(s: State, l: nat) {
    l < |s.locks| && s.locks[l].spin.Some? && s.locks[l].spin.value < |s.procs|
    && s.procs[s.locks[l].spin.value].pc == Owe(l)
  }

  ghost predicate Busy(s: State, l: nat) {
    l < |s.locks| && s.locks[l].owner.Some?
  }

  ghost predicate SleepersOk(s: State) {
    && (forall p | 0 <= p < |s.procs| && (s.procs[p].pc.Doze? || s.procs[p].pc.Both?) :: Busy(s, s.procs[p].pc.l))
    && (forall p, l: nat | 0 <= p < |s.procs| && Sleeps(s.procs[p], l) :: Busy(s, l) || Owed(s, l))
  }

  /** Nobody asleep in wait has a dead child. */
  ghost predicate WaitersOk(s: State) {
    forall p | 0 <= p < |s.procs| && InWait(s.procs[p]) :: NoDeadChild(s, p)
  }

  /** init lives for ever and has no parent; nobody is its own parent. */
  ghost predicate FamilyOk(s: State) {
    && INIT < |s.procs| && s.procs[INIT].parent.None?
    && (s.procs[INIT].state == RUNNING || s.procs[INIT].state == RUNNABLE || s.procs[INIT].state == SLEEPING)
    && (forall p | 0 <= p < |s.procs| :: s.procs[p].parent != Some(p))
  }

  ghost predicate Inv(s: State) {
    && FamilyOk(s) && (s.table.Some? ==> s.table.value < |s.cpus|)
    && ProcsOk(s) && CpusOk(s) && ForksOk(s) && SpinsOk(s) && SleepersOk(s) && WaitersOk(s)
  }

  // ---------------------------------------------------------------- a process moves on

  /** The running process p is at a new place, with ptable.lock and one sleep lock changed to suit. */
  ghost function Moved(s: State, p: nat, pc: Pc, table: Option<nat>, locks: seq<Lk>): State
    requires p < |s.procs|
  {
    State(s.procs[p := s.procs[p].(pc := pc)], s.cpus, table, locks)
  }

  ghost predicate TableFits(s: State, c: nat, was: Pc, pc: Pc, table: Option<nat>) {
    if HasTable(pc) then table == Some(c) && (HasTable(was) || s.table.None?)
    else table == if HasTable(was) then None else s.table
  }

  ghost predicate LockFits(p: nat, l: nat, was: Pc, pc: Pc, lk: Lk, lk': Lk) {
    && (HasSpin(was) ==> was.l == l) && (HasSpin(pc) ==> pc.l == l)
    && lk'.spin == (if HasSpin(pc) then Some(p) else if HasSpin(was) then None else lk.spin)
    && (HasSpin(pc) && !HasSpin(was) ==> lk.spin.None?)
    && (lk.owner.Some? && lk'.owner.None? ==> pc == Owe(l))
    && (pc.Doze? || pc.Both? ==> lk'.owner.Some?)
    && (pc.Gone? ==> pc.l == l && lk'.owner.Some?)
  }

  ghost predicate MoveFits(s: State, c: nat, p: nat, pc: Pc, table: Option<nat>, locks: seq<Lk>, l: nat) {
    && c < |s.cpus| && s.cpus[c] == On(p) && p < |s.procs| && |locks| == |s.locks|
    && var was := s.procs[p].pc;
    && !Off(pc) && !pc.Forking? && !was.Forking? && ProcOk(s.procs[p].(pc := pc), |s.locks|)
    && TableFits(s, c, was, pc, table)
    && (forall k | 0 <= k < |locks| && k != l :: locks[k] == s.locks[k])
    && (l < |locks| ==> LockFits(p, l, was, pc, s.locks[l], locks[l]))
    && (HasSpin(pc) || HasSpin(was) || pc.Gone? ==> l < |locks|)
    && (was == Owe(l) && pc != Owe(l) ==> forall q | 0 <= q < |s.procs| :: !Sleeps(s.procs[q], l))
  }

  lemma MoveProcs(s: State, c: nat, p: nat, pc: Pc, table: Option<nat>, locks: seq<Lk>, l: nat)
    requires Inv(s) && MoveFits(s, c, p, pc, table, locks, l)
    ensures ProcsOk(Moved(s, p, pc, table, locks)) && ForksOk(Moved(s, p, pc, table, locks))
            && WaitersOk(Moved(s, p, pc, table, locks))
    ensures FamilyOk(Moved(s, p, pc, table, locks))
  {
    hide SpinsOk, SleepersOk, TableFits, LockFits, ProcOk;
    assert CpuOk(s, c);
    assert ProcOk(s.procs[p], |s.locks|);
    var t := Moved(s, p, pc, table, locks);
    forall q, z: nat | 0 <= q < |t.procs| && InWait(t.procs[q])
      ensures !DeadChild(t, z, q)
    {
      assert NoDeadChild(s, q) && !DeadChild(s, z, q);
    }
  }

  lemma MoveCpus(s: State, c: nat, p: nat, pc: Pc, table: Option<nat>, locks: seq<Lk>, l: nat)
    requires Inv(s) && MoveFits(s, c, p, pc, table, locks, l)
    ensures CpusOk(Moved(s, p, pc, table, locks))
  {
    hide SpinsOk, SleepersOk, LockFits, ProcsOk, ProcOk, ForksOk, WaitersOk, HasTable;
    var t := Moved(s, p, pc, table, locks);
    assert CpuOk(s, c);
    forall d | 0 <= d < |t.cpus|
      ensures CpuOk(t, d)
    {
      assert CpuOk(s, d);
    }
    forall q | 0 <= q < |t.procs| && t.procs[q].state == RUNNING
      ensures OnSome(t, q)
    {
      assert OnSome(s, q);
    }
  }

  lemma MoveSpins(s: State, c: nat, p: nat, pc: Pc, table: Option<nat>, locks: seq<Lk>, l: nat)
    requires Inv(s) && MoveFits(s, c, p, pc, table, locks, l)
    ensures SpinsOk(Moved(s, p, pc, table, locks))
  {
    hide SleepersOk, ProcsOk, ForksOk, WaitersOk, TableFits, HasTable;
    assert CpuOk(s, c);
  }

  lemma MoveSleepers(s: State, c: nat, p: nat, pc: Pc, table: Option<nat>, locks: seq<Lk>, l: nat)
    requires Inv(s) && MoveFits(s, c, p, pc, table, locks, l)
    ensures SleepersOk(Moved(s, p, pc, table, locks))
  {
    hide ProcsOk, ForksOk, WaitersOk, TableFits, HasTable;
    var t := Moved(s, p, pc, table, locks);
    assert CpuOk(s, c);
    forall q, k: nat | 0 <= q < |t.procs| && Sleeps(t.procs[q], k)
      ensures Busy(t, k) || Owed(t, k)
    {
      if q != p {
        assert Sleeps(s.procs[q], k);
        if Owed(s, k) {
          var h := s.locks[k].spin.value;
          assert HasSpin(s.procs[h].pc) && s.procs[h].pc.l == k;
          assert h == p ==> pc == Owe(k);
          assert h != p ==> t.locks[k].spin == Some(h) && t.procs[h] == s.procs[h];
        } else if k == l && t.locks[k].owner.None? {
          assert t.locks[k].spin == Some(p) && t.procs[p].pc == Owe(k);
        }
      }
    }
  }

  lemma MoveKeeps(s: State, c: nat, p: nat, pc: Pc, table: Option<nat>, locks: seq<Lk>, l: nat)
    requires Inv(s) && MoveFits(s, c, p, pc, table, locks, l)
    ensures Inv(Moved(s, p, pc, table, locks))
  {
    hide ProcsOk, CpusOk, ForksOk, SpinsOk, SleepersOk, WaitersOk, FamilyOk, LockFits, ProcOk;
    MoveProcs(s, c, p, pc, table, locks, l);
    MoveCpus(s, c, p, pc, table, locks, l);
    MoveSpins(s, c, p, pc, table, locks, l);
    MoveSleepers(s, c, p, pc, table, locks, l);
  }

  // ---------------------------------------------------------------- a process gives up its CPU

  ghost predicate AwayFits(s: State, c: nat, p: nat, state: PState, pc: Pc) {
    && c < |s.cpus| && s.cpus[c] == On(p) && p < |s.procs|
    && var was := s.procs[p].pc;
    && !HasSpin(was) && !was.Forking? && (HasTable(was) || s.table.None?)
    && (if state == ZOMBIE then
          p != INIT && pc.Run?
          && (forall w | 0 <= w < |s.procs| && s.procs[p].parent == Some(w) :: !InWait(s.procs[w]))
        else
          (state == RUNNABLE || state == SLEEPING)
          && (pc.Asleep? || pc.Waiting? || (state == RUNNABLE && pc.Yielded?)))
    && (pc.Asleep? ==> pc.l < |s.locks| && (Busy(s, pc.l) || Owed(s, pc.l)))
    && (pc.Waiting? ==> NoDeadChild(s, p))
  }

  lemma AwayProcs(s: State, c: nat, p: nat, state: PState, pc: Pc)
    requires Inv(s) && AwayFits(s, c, p, state, pc)
    ensures var t := Away(s, c, p, state, pc); ProcsOk(t) && ForksOk(t) && FamilyOk(t)
  {
    hide SpinsOk, SleepersOk, HasTable, WaitersOk;
    assert CpuOk(s, c) && ProcOk(s.procs[p], |s.locks|);
  }

  lemma AwayWaiters(s: State, c: nat, p: nat, state: PState, pc: Pc)
    requires Inv(s) && AwayFits(s, c, p, state, pc)
    ensures WaitersOk(Away(s, c, p, state, pc))
  {
    hide SpinsOk, SleepersOk, HasTable, FamilyOk, ProcsOk, ForksOk;
    var t := Away(s, c, p, state, pc);
    forall q, z: nat | 0 <= q < |t.procs| && InWait(t.procs[q])
      ensures !DeadChild(t, z, q)
    {
      assert NoDeadChild(s, q) && !DeadChild(s, z, q);
    }
  }

  lemma AwayCpus(s: State, c: nat, p: nat, state: PState, pc: Pc)
    requires Inv(s) && AwayFits(s, c, p, state, pc)
    ensures CpusOk(Away(s, c, p, state, pc))
  {
    hide SpinsOk, SleepersOk, ProcsOk, ProcOk, ForksOk, WaitersOk, HasTable;
    var t := Away(s, c, p, state, pc);
    assert CpuOk(s, c);
    forall d | 0 <= d < |t.cpus|
      ensures CpuOk(t, d)
    {
      assert CpuOk(s, d);
    }
    forall q | 0 <= q < |t.procs| && t.procs[q].state == RUNNING
      ensures OnSome(t, q)
    {
      assert OnSome(s, q);
      var d :| 0 <= d < |s.cpus| && s.cpus[d] == On(q);
      assert t.cpus[d] == On(q);
    }
  }

  lemma AwaySleepers(s: State, c: nat, p: nat, state: PState, pc: Pc)
    requires Inv(s) && AwayFits(s, c, p, state, pc)
    ensures SleepersOk(Away(s, c, p, state, pc)) && SpinsOk(Away(s, c, p, state, pc))
  {
    hide ProcsOk, ForksOk, WaitersOk, HasTable;
    var t := Away(s, c, p, state, pc);
    assert CpuOk(s, c);
    forall q, k: nat | 0 <= q < |t.procs| && Sleeps(t.procs[q], k)
      ensures Busy(t, k) || Owed(t, k)
    {
      assert q != p ==> Sleeps(s.procs[q], k);
      assert Owed(s, k) ==> Owed(t, k);
    }
  }

  lemma AwayKeeps(s: State, c: nat, p: nat, state: PState, pc: Pc)
    requires Inv(s) && AwayFits(s, c, p, state, pc)
    ensures Inv(Away(s, c, p, state, pc))
  {
    hide ProcsOk, CpusOk, ForksOk, SpinsOk, SleepersOk, WaitersOk, FamilyOk, ProcOk;
    AwayProcs(s, c, p, state, pc);
    AwayWaiters(s, c, p, state, pc);
    AwayCpus(s, c, p, state, pc);
    AwaySleepers(s, c, p, state, pc);
  }

  // ---------------------------------------------------------------- sleepers are woken

  /** Processes may have been woken or marked killed, and nothing else. */
  ghost predicate Nudged(procs: seq<Proc>, procs': seq<Proc>) {
    && |procs'| == |procs|
    && (forall q | 0 <= q < |procs| :: procs'[q].pc == procs[q].pc && procs'[q].parent == procs[q].parent
                                       && (procs'[q].state == procs[q].state
                                           || (procs[q].state == SLEEPING && procs'[q].state == RUNNABLE)))
  }

  lemma NudgeProcs(s: State, procs: seq<Proc>)
    requires Inv(s) && Nudged(s.procs, procs)
    ensures var t := s.(procs := procs); ProcsOk(t) && ForksOk(t) && WaitersOk(t) && CpusOk(t) && FamilyOk(t)
  {
    hide SpinsOk, SleepersOk, HasTable;
    var t := s.(procs := procs);
    forall q | 0 <= q < |procs|
      ensures ProcOk(procs[q], |s.locks|) && (procs[q].state == RUNNING ==> OnSome(t, q))
    {
      assert ProcOk(s.procs[q], |s.locks|);
      assert procs[q].state == RUNNING ==> OnSome(s, q);
    }
    forall q, z: nat | 0 <= q < |procs| && InWait(procs[q])
      ensures !DeadChild(t, z, q)
    {
      assert NoDeadChild(s, q) && !DeadChild(s, z, q);
    }
    forall c | 0 <= c < |t.cpus|
      ensures CpuOk(t, c)
    {
      assert CpuOk(s, c);
    }
  }

  lemma NudgeSleepers(s: State, procs: seq<Proc>)
    requires Inv(s) && Nudged(s.procs, procs)
    ensures var t := s.(procs := procs); SpinsOk(t) && SleepersOk(t)
  {
    hide ProcsOk, ForksOk, WaitersOk, HasTable, CpusOk;
    var t := s.(procs := procs);
    forall q, k: nat | 0 <= q < |t.procs| && Sleeps(t.procs[q], k)
      ensures Busy(t, k) || Owed(t, k)
    {
      assert Sleeps(s.procs[q], k);
      assert Owed(s, k) ==> Owed(t, k);
    }
  }

  lemma NudgeKeeps(s: State, procs: seq<Proc>)
    requires Inv(s) && Nudged(s.procs, procs)
    ensures Inv(s.(procs := procs))
  {
    hide ProcsOk, CpusOk, ForksOk, SpinsOk, SleepersOk, WaitersOk, FamilyOk;
    NudgeProcs(s, procs);
    NudgeSleepers(s, procs);
  }

  // ---------------------------------------------------------------- slots of the table

  /** Slot z, whose process does not run and nobody is forking, gets another process that does not run. */
  ghost predicate SlotFits(s: State, z: nat, q: Proc) {
    && z < |s.procs| && (s.procs[z].state == UNUSED || s.procs[z].state == EMBRYO || s.procs[z].state == ZOMBIE)
    && (q.state == UNUSED || q.state == EMBRYO || q.state == RUNNABLE) && q.pc.Yielded? && q.parent != Some(z)
    && (forall p | 0 <= p < |s.procs| :: s.procs[p].pc != Forking(z))
  }

  lemma SlotProcs(s: State, z: nat, q: Proc)
    requires Inv(s) && SlotFits(s, z, q)
    ensures var t := s.(procs := s.procs[z := q]); ProcsOk(t) && ForksOk(t) && WaitersOk(t) && FamilyOk(t)
  {
    hide SpinsOk, SleepersOk, HasTable, CpusOk, HasSpin;
    var t := s.(procs := s.procs[z := q]);
    forall p, y: nat | 0 <= p < |t.procs| && InWait(t.procs[p])
      ensures !DeadChild(t, y, p)
    {
      assert NoDeadChild(s, p) && !DeadChild(s, y, p);
    }
    assert ProcOk(q, |t.locks|) by { YieldedOk(q, |t.locks|); }
  }

  lemma YieldedOk(q: Proc, nlocks: nat)
    requires (q.state == UNUSED || q.state == EMBRYO || q.state == RUNNABLE) && q.pc.Yielded?
    ensures ProcOk(q, nlocks)
  {
  }

  lemma SlotCpus(s: State, z: nat, q: Proc)
    requires Inv(s) && SlotFits(s, z, q)
    ensures CpusOk(s.(procs := s.procs[z := q]))
  {
    hide SpinsOk, SleepersOk, HasTable, ProcsOk, ForksOk, WaitersOk;
    var t := s.(procs := s.procs[z := q]);
    forall p | 0 <= p < |t.procs| && t.procs[p].state == RUNNING
      ensures OnSome(t, p)
    {
      assert OnSome(s, p);
    }
    forall c | 0 <= c < |t.cpus|
      ensures CpuOk(t, c)
    {
      assert CpuOk(s, c);
    }
  }

  lemma SlotSleepers(s: State, z: nat, q: Proc)
    requires Inv(s) && SlotFits(s, z, q)
    ensures var t := s.(procs := s.procs[z := q]); SpinsOk(t) && SleepersOk(t)
  {
    hide ProcsOk, ForksOk, WaitersOk, HasTable, CpusOk;
    var t := s.(procs := s.procs[z := q]);
    assert !HasSpin(s.procs[z].pc);
    forall p, k: nat | 0 <= p < |t.procs| && Sleeps(t.procs[p], k)
      ensures Busy(t, k) || Owed(t, k)
    {
      assert Sleeps(s.procs[p], k);
      assert Owed(s, k) ==> Owed(t, k);
    }
  }

  lemma SlotKeeps(s: State, z: nat, q: Proc)
    requires Inv(s) && SlotFits(s, z, q)
    ensures Inv(s.(procs := s.procs[z := q]))
  {
    hide ProcsOk, CpusOk, ForksOk, SpinsOk, SleepersOk, WaitersOk, FamilyOk;
    SlotProcs(s, z, q);
    SlotCpus(s, z, q);
    SlotSleepers(s, z, q);
  }

  /** A running process starts or ends a fork. */
  ghost predicate ForkFits(s: State, c: nat, p: nat, pc: Pc) {
    && c < |s.cpus| && s.cpus[c] == On(p) && p < |s.procs|
    && (if pc.Forking? then
          && s.procs[p].pc.Run? && pc.child < |s.procs| && s.procs[pc.child].state == EMBRYO
          && (forall q | 0 <= q < |s.procs| :: s.procs[q].pc != pc)
        else pc.Run? && s.procs[p].pc.Forking?)
  }

  lemma ForkProcs(s: State, c: nat, p: nat, pc: Pc)
    requires Inv(s) && ForkFits(s, c, p, pc)
    ensures var t := At(s, p, pc); ProcsOk(t) && ForksOk(t) && FamilyOk(t)
  {
    hide SpinsOk, SleepersOk, HasTable, WaitersOk;
    assert CpuOk(s, c) && ProcOk(s.procs[p], |s.locks|);
  }

  lemma ForkWaiters(s: State, c: nat, p: nat, pc: Pc)
    requires Inv(s) && ForkFits(s, c, p, pc)
    ensures WaitersOk(At(s, p, pc))
  {
    hide SpinsOk, SleepersOk, HasTable, FamilyOk, CpusOk, ProcsOk, ForksOk;
    var t := At(s, p, pc);
    forall q, y: nat | 0 <= q < |t.procs| && InWait(t.procs[q])
      ensures !DeadChild(t, y, q)
    {
      assert NoDeadChild(s, q) && !DeadChild(s, y, q);
    }
  }

  lemma ForkCpus(s: State, c: nat, p: nat, pc: Pc)
    requires Inv(s) && ForkFits(s, c, p, pc)
    ensures CpusOk(At(s, p, pc))
  {
    hide SpinsOk, SleepersOk, ProcsOk, ForksOk, WaitersOk;
    var t := At(s, p, pc);
    assert CpuOk(s, c);
    forall q | 0 <= q < |t.procs| && t.procs[q].state == RUNNING
      ensures OnSome(t, q)
    {
      assert OnSome(s, q);
    }
    forall d | 0 <= d < |t.cpus|
      ensures CpuOk(t, d)
    {
      assert CpuOk(s, d);
    }
  }

  lemma ForkSleepers(s: State, c: nat, p: nat, pc: Pc)
    requires Inv(s) && ForkFits(s, c, p, pc)
    ensures var t := At(s, p, pc); SpinsOk(t) && SleepersOk(t)
  {
    hide ProcsOk, ForksOk, WaitersOk, HasTable, CpusOk;
    var t := At(s, p, pc);
    assert !HasSpin(s.procs[p].pc);
    forall q, k: nat | 0 <= q < |t.procs| && Sleeps(t.procs[q], k)
      ensures Busy(t, k) || Owed(t, k)
    {
      assert Sleeps(s.procs[q], k);
      assert Owed(s, k) ==> Owed(t, k);
    }
  }

  lemma ForkKeeps(s: State, c: nat, p: nat, pc: Pc)
    requires Inv(s) && ForkFits(s, c, p, pc)
    ensures Inv(At(s, p, pc))
  {
    hide ProcsOk, CpusOk, ForksOk, SpinsOk, SleepersOk, WaitersOk, FamilyOk;
    ForkProcs(s, c, p, pc);
    ForkWaiters(s, c, p, pc);
    ForkCpus(s, c, p, pc);
    ForkSleepers(s, c, p, pc);
  }

  // ---------------------------------------------------------------- death

  /** The children of p go to init. */
  ghost function Adopted(procs: seq<Proc>, p: nat): seq<Proc> {
    seq(|procs|, i requires 0 <= i < |procs| => procs[i].(parent := if procs[i].parent == Some(p) then Some(INIT)
                                                          else procs[i].parent))
  }

  lemma AdoptKeeps(s: State, p: nat)
    requires Inv(s) && p != INIT && (InWait(s.procs[INIT]) ==> NoDeadChild(s, p))
    ensures Inv(s.(procs := Adopted(s.procs, p)))
  {
    hide HasTable, HasSpin, CpusOk, ProcsOk, ForksOk, SpinsOk, SleepersOk;
    var t := s.(procs := Adopted(s.procs, p));
    AdoptOthers(s, p);
    forall q, y: nat | 0 <= q < |t.procs| && InWait(t.procs[q])
      ensures !DeadChild(t, y, q)
    {
      assert NoDeadChild(s, q) && !DeadChild(s, y, q);
      assert q == INIT ==> !DeadChild(s, y, p);
    }
  }

  lemma AdoptOthers(s: State, p: nat)
    requires Inv(s)
    ensures var t := s.(procs := Adopted(s.procs, p)); ProcsOk(t) && CpusOk(t) && ForksOk(t) && SpinsOk(t)
                                                       && SleepersOk(t) && FamilyOk(t)
  {
    hide ProcsOk, CpusOk, ForksOk, SpinsOk, SleepersOk, WaitersOk, FamilyOk, ProcOk;
    AdoptProcs(s, p);
    AdoptSleepers(s, p);
  }

  lemma AdoptProcs(s: State, p: nat)
    requires Inv(s)
    ensures var t := s.(procs := Adopted(s.procs, p)); ProcsOk(t) && CpusOk(t) && ForksOk(t) && FamilyOk(t)
  {
    hide HasTable, HasSpin, WaitersOk, SpinsOk, SleepersOk;
    var t := s.(procs := Adopted(s.procs, p));
    forall q | 0 <= q < |t.procs|
      ensures ProcOk(t.procs[q], |t.locks|) && (t.procs[q].state == RUNNING ==> OnSome(t, q))
    {
      assert ProcOk(s.procs[q], |s.locks|);
      assert s.procs[q].state == RUNNING ==> OnSome(s, q);
    }
    forall c | 0 <= c < |t.cpus|
      ensures CpuOk(t, c)
    {
      assert CpuOk(s, c);
    }
  }

  lemma AdoptSleepers(s: State, p: nat)
    requires Inv(s)
    ensures var t := s.(procs := Adopted(s.procs, p)); SpinsOk(t) && SleepersOk(t)
  {
    hide HasTable, WaitersOk, ProcsOk, CpusOk, ForksOk;
    var t := s.(procs := Adopted(s.procs, p));
    forall q, k: nat | 0 <= q < |t.procs| && Sleeps(t.procs[q], k)
      ensures Busy(t, k) || Owed(t, k)
    {
      assert Sleeps(s.procs[q], k);
      assert Owed(s, k) ==> Owed(t, k);
    }
  }

  /** Those that exit wakes: the parent, and init if it inherits a dead child. */
  ghost function Called(s: State, p: nat): seq<Proc>
    requires p < |s.procs|
  {
    seq(|s.procs|, i requires 0 <= i < |s.procs| =>
      if InWait(s.procs[i]) && (s.procs[p].parent == Some(i) || (i == INIT && exists z :: DeadChild(s, z, p)))
      then s.procs[i].(state := RUNNABLE) else s.procs[i])
  }

  lemma ExitKeeps(s: State, c: nat, p: nat)
    requires Inv(s) && c < |s.cpus| && s.cpus[c] == On(p) && p < |s.procs| && Can(s, Exit, p)
    ensures Inv(Acted(s, c, Exit, p))
  {
    hide ProcsOk, CpusOk, ForksOk, SpinsOk, SleepersOk, WaitersOk;
    RunningOn(s, c, p);
    var s1 := s.(procs := Called(s, p));
    NudgeKeeps(s, s1.procs);
    CalledDead(s, p);
    var s2 := s1.(procs := Adopted(s1.procs, p));
    AdoptKeeps(s1, p);
    assert s2.procs[p].pc.Run?;
    CalledParent(s, p);
    AwayKeeps(s2, c, p, ZOMBIE, Run);
    assert Away(s2, c, p, ZOMBIE, Run).procs == Died(s, p);
  }

  lemma RunningOn(s: State, c: nat, p: nat)
    requires Inv(s) && c < |s.cpus| && s.cpus[c] == On(p) && p < |s.procs|
    ensures s.procs[p].state == RUNNING
  {
    hide ProcsOk, ForksOk, SpinsOk, SleepersOk, WaitersOk;
    assert CpuOk(s, c);
  }

  lemma CalledDead(s: State, p: nat)
    requires p < |s.procs| && INIT < |s.procs|
    ensures var t := s.(procs := Called(s, p)); InWait(t.procs[INIT]) ==> NoDeadChild(t, p)
  {
    var t := s.(procs := Called(s, p));
    if InWait(t.procs[INIT]) {
      forall z: nat
        ensures !DeadChild(t, z, p)
      {
        assert !DeadChild(s, z, p);
      }
    }
  }

  /** After exit has woken its parent and passed on its children, its parent does not wait. */
  lemma CalledParent(s: State, p: nat)
    requires p < |s.procs| && s.procs[p].parent != Some(p)
    ensures var procs := Adopted(Called(s, p), p);
            forall w | 0 <= w < |procs| && procs[p].parent == Some(w) :: !InWait(procs[w])
  {
    var procs := Adopted(Called(s, p), p);
    assert procs[p].parent == s.procs[p].parent;
  }

  // ---------------------------------------------------------------- every step

  lemma SchedProcs(s: State, a: Action)
    requires Inv(s) && Enabled(s, a) && !a.Act?
    ensures var t := Do(s, a); ProcsOk(t) && ForksOk(t) && FamilyOk(t)
  {
    hide SpinsOk, SleepersOk, CpusOk, WaitersOk;
    var t := Do(s, a);
    forall p | 0 <= p < |t.procs|
      ensures ProcOk(t.procs[p], |t.locks|)
    {
      assert ProcOk(s.procs[p], |s.locks|);
    }
  }

  lemma SchedWaiters(s: State, a: Action)
    requires Inv(s) && Enabled(s, a) && !a.Act?
    ensures WaitersOk(Do(s, a))
  {
    hide SpinsOk, SleepersOk, CpusOk, ProcOk, ForksOk, FamilyOk;
    var t := Do(s, a);
    forall q, y: nat | 0 <= q < |t.procs| && InWait(t.procs[q])
      ensures !DeadChild(t, y, q)
    {
      assert NoDeadChild(s, q) && !DeadChild(s, y, q);
    }
  }

  lemma SchedCpus(s: State, a: Action)
    requires Inv(s) && Enabled(s, a) && !a.Act?
    ensures CpusOk(Do(s, a))
  {
    hide SpinsOk, SleepersOk, ForksOk, WaitersOk;
    var t := Do(s, a);
    assert CpuOk(s, a.c);
    assert a.Pick? ==> ProcOk(s.procs[a.p], |s.locks|);
    forall c | 0 <= c < |t.cpus|
      ensures CpuOk(t, c)
    {
      assert CpuOk(s, c);
    }
    forall c, d | 0 <= c < |t.cpus| && 0 <= d < |t.cpus| && t.cpus[c].On? && t.cpus[c] == t.cpus[d]
      ensures c == d
    {
      assert CpuOk(s, c) && CpuOk(s, d);
    }
    forall p | 0 <= p < |t.procs| && t.procs[p].state == RUNNING
      ensures OnSome(t, p)
    {
      if s.procs[p].state == RUNNING {
        assert OnSome(s, p);
        var c :| 0 <= c < |s.cpus| && s.cpus[c] == On(p);
        assert t.cpus[c] == On(p);
      } else {
        assert t.cpus[a.c] == On(p);
      }
    }
  }

  lemma SchedSleepers(s: State, a: Action)
    requires Inv(s) && Enabled(s, a) && !a.Act?
    ensures SpinsOk(Do(s, a)) && SleepersOk(Do(s, a))
  {
    hide ForksOk, WaitersOk, CpusOk, HasTable;
    var t := Do(s, a);
    assert a.Pick? ==> ProcOk(s.procs[a.p], |s.locks|);
    forall q, k: nat | 0 <= q < |t.procs| && Sleeps(t.procs[q], k)
      ensures Busy(t, k) || Owed(t, k)
    {
      assert Sleeps(s.procs[q], k);
      assert Owed(s, k) ==> Owed(t, k);
    }
  }

  lemma SchedKeeps(s: State, a: Action)
    requires Inv(s) && Enabled(s, a) && !a.Act?
    ensures Inv(Do(s, a))
  {
    hide ProcsOk, CpusOk, ForksOk, SpinsOk, SleepersOk, WaitersOk, FamilyOk;
    SchedProcs(s, a);
    SchedWaiters(s, a);
    SchedCpus(s, a);
    SchedSleepers(s, a);
  }

  ghost predicate Acting(s: State, c: nat, step: Step, p: nat) {
    Inv(s) && c < |s.cpus| && s.cpus[c] == On(p) && p < |s.procs| && Can(s, step, p)
  }

  ghost predicate PlainMove(step: Step) {
    step.Resume? || step.Wait? || step.WaitFail? || step.Acquire? || step.Wakened? || step.Release?
  }

  ghost predicate LockMove(step: Step) {
    step.Spin? || step.Own? || step.Busy? || step.Enter? || step.LetSpin? || step.Unspin? || step.Free? || step.Done?
  }

  /** What is known of a running process from its place. */
  lemma PlaceMeans(s: State, c: nat, p: nat)
    requires Inv(s) && c < |s.cpus| && s.cpus[c] == On(p) && p < |s.procs|
    ensures var q := s.procs[p];
            && q.state == RUNNING && ProcOk(q, |s.locks|) && (HasTable(q.pc) <==> s.table == Some(c))
            && (HasSpin(q.pc) ==> q.pc.l < |s.locks| && s.locks[q.pc.l].spin == Some(p))
            && (q.pc.Doze? || q.pc.Both? ==> Busy(s, q.pc.l))
            && (q.pc.Gone? ==> Busy(s, q.pc.l) || Owed(s, q.pc.l))
            && (q.pc.Forking? ==> q.pc.child < |s.procs| && s.procs[q.pc.child].state == EMBRYO
                                  && forall r | 0 <= r < |s.procs| && r != p :: s.procs[r].pc != q.pc)
  {
    hide WaitersOk;
    assert CpuOk(s, c);
    assert s.procs[p].pc.Gone? ==> Sleeps(s.procs[p], s.procs[p].pc.l);
  }

  lemma PlainMoveKeeps(s: State, c: nat, step: Step, p: nat)
    requires Acting(s, c, step, p) && PlainMove(step)
    ensures Inv(Acted(s, c, step, p))
  {
    hide Inv, NoDeadChild, HasChild;
    PlaceMeans(s, c, p);
    var t := Acted(s, c, step, p);
    MoveKeeps(s, c, p, t.procs[p].pc, t.table, t.locks, |s.locks|);
  }

  lemma LockMoveKeeps(s: State, c: nat, step: Step, p: nat)
    requires Acting(s, c, step, p) && LockMove(step)
    ensures Inv(Acted(s, c, step, p))
  {
    hide Inv;
    var t := Acted(s, c, step, p);
    if step.Spin? || step.Own? || step.Busy? || step.Enter? {
      SpinMoveFits(s, c, step, p);
    } else {
      FreeMoveFits(s, c, step, p);
    }
    hide MoveFits;
    MoveKeeps(s, c, p, t.procs[p].pc, t.table, t.locks, s.procs[p].pc.l);
  }

  /** The steps of acquiresleep and sleep that keep or take the lock's spin lock. */
  lemma SpinMoveFits(s: State, c: nat, step: Step, p: nat)
    requires Acting(s, c, step, p) && (step.Spin? || step.Own? || step.Busy? || step.Enter?)
    ensures var t := Acted(s, c, step, p);
            MoveFits(s, c, p, t.procs[p].pc, t.table, t.locks, s.procs[p].pc.l)
            && t == Moved(s, p, t.procs[p].pc, t.table, t.locks)
  {
    hide Inv;
    PlaceMeans(s, c, p);
  }

  /** The steps that let it go, and the one that frees the lock. */
  lemma FreeMoveFits(s: State, c: nat, step: Step, p: nat)
    requires Acting(s, c, step, p) && (step.LetSpin? || step.Unspin? || step.Free? || step.Done?)
    ensures var t := Acted(s, c, step, p);
            MoveFits(s, c, p, t.procs[p].pc, t.table, t.locks, s.procs[p].pc.l)
            && t == Moved(s, p, t.procs[p].pc, t.table, t.locks)
  {
    hide Inv;
    PlaceMeans(s, c, p);
  }

  lemma WakeKeeps(s: State, c: nat, p: nat)
    requires Acting(s, c, Wake, p)
    ensures Inv(Acted(s, c, Wake, p))
  {
    hide Inv;
    PlaceMeans(s, c, p);
    var l := s.procs[p].pc.l;
    var s1 := s.(procs := WakeLock(s.procs, l));
    NudgeKeeps(s, s1.procs);
    AllWoken(s, l);
    MoveKeeps(s1, c, p, Out(l), s1.table, s1.locks, l);
  }

  lemma AllWoken(s: State, l: nat)
    requires Inv(s) && s.table.None?
    ensures var procs := WakeLock(s.procs, l); forall q | 0 <= q < |procs| :: !Sleeps(procs[q], l)
  {
    hide ProcsOk, ForksOk, SpinsOk, SleepersOk, WaitersOk;
    forall q | 0 <= q < |s.procs| && s.procs[q].state == RUNNING
      ensures !HasTable(s.procs[q].pc)
    {
      assert OnSome(s, q);
      var d :| 0 <= d < |s.cpus| && s.cpus[d] == On(q);
      assert CpuOk(s, d);
    }
  }

  lemma AwayStepKeeps(s: State, c: nat, step: Step, p: nat)
    requires Acting(s, c, step, p) && (step.Yield? || step.WaitSleep? || step.Sleep?)
    ensures Inv(Acted(s, c, step, p))
  {
    hide Inv, NoDeadChild, HasChild;
    PlaceMeans(s, c, p);
    var t := Acted(s, c, step, p);
    AwayKeeps(s, c, p, t.procs[p].state, t.procs[p].pc);
  }

  lemma KillKeeps(s: State, c: nat, step: Step, p: nat)
    requires Acting(s, c, step, p) && step.Kill?
    ensures Inv(Acted(s, c, step, p))
  {
    hide Inv;
    NudgeKeeps(s, Acted(s, c, step, p).procs);
  }

  lemma NotForked(s: State, q: nat)
    requires Inv(s) && q < |s.procs| && s.procs[q].state != EMBRYO
    ensures forall p | 0 <= p < |s.procs| :: s.procs[p].pc != Forking(q)
  {
    hide ProcsOk, CpusOk, SpinsOk, SleepersOk, WaitersOk;
  }

  lemma OwnChild(s: State, z: nat)
    requires Inv(s) && z < |s.procs|
    ensures s.procs[z].parent != Some(z)
  {
    hide ProcsOk, CpusOk, SpinsOk, SleepersOk, WaitersOk, ForksOk;
  }

  lemma ForkStepKeeps(s: State, c: nat, step: Step, p: nat)
    requires Acting(s, c, step, p) && step.Fork?
    ensures Inv(Acted(s, c, step, p))
  {
    hide Inv;
    var q := step.child;
    PlaceMeans(s, c, p);
    NotForked(s, q);
    OwnChild(s, q);
    var s1 := s.(procs := s.procs[q := s.procs[q].(state := EMBRYO, pc := Yielded)]);
    SlotKeeps(s, q, s1.procs[q]);
    ForkKeeps(s1, c, p, Forking(q));
  }

  lemma ForkEndKeeps(s: State, c: nat, step: Step, p: nat)
    requires Acting(s, c, step, p) && (step.ForkDone? || step.ForkFail?)
    ensures Inv(Acted(s, c, step, p))
  {
    hide Inv;
    var q := s.procs[p].pc.child;
    PlaceMeans(s, c, p);
    OwnChild(s, q);
    assert ProcOk(s.procs[q], |s.locks|) by { OfTable(s, q); }
    var s1 := At(s, p, Run);
    ForkKeeps(s, c, p, Run);
    var t := Acted(s, c, step, p);
    SlotKeeps(s1, q, t.procs[q]);
    assert t.procs == s1.procs[q := t.procs[q]];
  }

  lemma OfTable(s: State, q: nat)
    requires Inv(s) && q < |s.procs|
    ensures ProcOk(s.procs[q], |s.locks|)
  {
    hide CpusOk, SpinsOk, SleepersOk, WaitersOk, ForksOk;
  }

  lemma ReapKeeps(s: State, c: nat, step: Step, p: nat)
    requires Acting(s, c, step, p) && step.Reap?
    ensures Inv(Acted(s, c, step, p))
  {
    hide Inv;
    PlaceMeans(s, c, p);
    NotForked(s, step.z);
    var s1 := s.(procs := s.procs[step.z := Proc(UNUSED, None, false, Yielded)]);
    SlotKeeps(s, step.z, s1.procs[step.z]);
    MoveKeeps(s1, c, p, Run, None, s1.locks, |s.locks|);
  }

  lemma StepKeeps(s: State, a: Action)
    requires Inv(s) && Enabled(s, a)
    ensures Inv(Do(s, a))
  {
    hide Inv, Acted, Can;
    if !a.Act? {
      SchedKeeps(s, a);
    } else {
      var c, step, p := a.c, a.step, s.cpus[a.c].p;
      if PlainMove(step) {
        PlainMoveKeeps(s, c, step, p);
      } else if LockMove(step) {
        LockMoveKeeps(s, c, step, p);
      } else {
        match step
        case Wake => WakeKeeps(s, c, p);
        case Yield => AwayStepKeeps(s, c, step, p);
        case WaitSleep => AwayStepKeeps(s, c, step, p);
        case Sleep => AwayStepKeeps(s, c, step, p);
        case Kill(_) => KillKeeps(s, c, step, p);
        case Fork(_) => ForkStepKeeps(s, c, step, p);
        case ForkDone => ForkEndKeeps(s, c, step, p);
        case ForkFail => ForkEndKeeps(s, c, step, p);
        case Reap(_) => ReapKeeps(s, c, step, p);
        case Exit => ExitKeeps(s, c, p);
      }
    }
  }

  // ---------------------------------------------------------------- whole runs

  /** After userinit: init can run, every other slot is free, every CPU is in its scheduler. */
  ghost predicate Initial(s: State) {
    && INIT < |s.procs| && s.procs[INIT] == Proc(RUNNABLE, None, false, Yielded)
    && (forall p | 0 <= p < |s.procs| && p != INIT :: s.procs[p] == Proc(UNUSED, None, false, Yielded))
    && (forall c | 0 <= c < |s.cpus| :: s.cpus[c].Loop?) && s.table.None?
    && (forall l | 0 <= l < |s.locks| :: s.locks[l] == Lk(None, None))
  }

  ghost function Outcome(s: State, actions: seq<Action>): Option<State>
    decreases |actions|
  {
    if actions == [] then Some(s)
    else if !Enabled(s, actions[0]) then None
    else Outcome(Do(s, actions[0]), actions[1..])
  }

  lemma InitialInv(s: State)
    requires Initial(s)
    ensures Inv(s)
  {
  }

  lemma {:induction false} RunKeeps(s: State, actions: seq<Action>)
    requires Inv(s)
    ensures var t := Outcome(s, actions); t.Some? ==> Inv(t.value)
    decreases |actions|
  {
    hide Inv, Enabled, Do;
    if actions != [] && Enabled(s, actions[0]) {
      StepKeeps(s, actions[0]);
      RunKeeps(Do(s, actions[0]), actions[1..]);
    }
  }

  /**
   * Whoever sleeps on a sleep lock: the lock is owned, or a releaser with its spin lock is still to wake the sleepers.
   */
  lemma NoLostWakeup(s: State, actions: seq<Action>, p: nat, l: nat)
    requires Initial(s)
    ensures var t := Outcome(s, actions);
            t.Some? && p < |t.value.procs| && OnLock(t.value.procs[p], l) ==>
              && l < |t.value.locks|
              && (t.value.locks[l].owner.Some? ||
                  exists h :: t.value.locks[l].spin == Some(h) && h < |t.value.procs| && t.value.procs[h].pc == Owe(l))
  {
    hide Inv;
    InitialInv(s);
    RunKeeps(s, actions);
    var t := Outcome(s, actions);
    if t.Some? && p < |t.value.procs| && OnLock(t.value.procs[p], l) {
      SleeperIn(t.value, p, l);
    }
  }

  lemma SleeperIn(t: State, p: nat, l: nat)
    requires Inv(t) && p < |t.procs| && OnLock(t.procs[p], l)
    ensures Busy(t, l) || Owed(t, l)
  {
    hide ProcsOk, CpusOk, SpinsOk, WaitersOk, ForksOk;
    assert Sleeps(t.procs[p], l);
  }

  /** A parent asleep in wait has no dead child. */
  lemma NoMissedChild(s: State, actions: seq<Action>, p: nat, z: nat)
    requires Initial(s)
    ensures var t := Outcome(s, actions);
            t.Some? && p < |t.value.procs| && z < |t.value.procs| && InWait(t.value.procs[p])
            && t.value.procs[z].parent == Some(p) ==>
              t.value.procs[z].state != ZOMBIE
  {
    hide Inv;
    InitialInv(s);
    RunKeeps(s, actions);
    var t := Outcome(s, actions);
    if t.Some? && p < |t.value.procs| && InWait(t.value.procs[p]) {
      WaiterIn(t.value, p);
      assert !DeadChild(t.value, z, p);
    }
  }

  lemma WaiterIn(t: State, p: nat)
    requires Inv(t) && p < |t.procs| && InWait(t.procs[p])
    ensures NoDeadChild(t, p)
  {
    hide ProcsOk, CpusOk, SpinsOk, SleepersOk, ForksOk;
  }

  /** A process is RUNNING exactly if some CPU runs it, and then exactly one does. */
  lemma RunningOnOne(s: State, actions: seq<Action>, p: nat)
    requires Initial(s)
    ensures var t := Outcome(s, actions);
            t.Some? && p < |t.value.procs| ==>
              && (t.value.procs[p].state == RUNNING <==> OnSome(t.value, p))
              && (forall c, d | 0 <= c < |t.value.cpus| && 0 <= d < |t.value.cpus| && t.value.cpus[c] == On(p)
                                && t.value.cpus[d] == On(p) :: c == d)
  {
    hide Inv;
    InitialInv(s);
    RunKeeps(s, actions);
    var t := Outcome(s, actions);
    if t.Some? && p < |t.value.procs| {
      RunningIn(t.value, p);
    }
  }

  lemma RunningIn(t: State, p: nat)
    requires Inv(t) && p < |t.procs|
    ensures t.procs[p].state == RUNNING <==> OnSome(t, p)
    ensures forall c, d | 0 <= c < |t.cpus| && 0 <= d < |t.cpus| && t.cpus[c] == On(p) && t.cpus[d] == On(p) :: c == d
  {
    hide ProcsOk, WaitersOk, SpinsOk, SleepersOk, ForksOk;
    if c :| 0 <= c < |t.cpus| && t.cpus[c] == On(p) {
      assert CpuOk(t, c);
    }
  }
}
