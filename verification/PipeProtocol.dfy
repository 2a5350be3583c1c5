/**
 Sleeping and waking in pipe.c, for any number of readers and writers. A state says where
 each process is; the steps are cut wherever another process can run in between, also
 inside sleep, between taking ptable.lock, letting the pipe's lock go and falling asleep.
 */
module PipeProtocol {
  import opened Common
  import PipeRing

  const PIPESIZE := PipeRing.PIPESIZE

  /** Readers sleep on the pipe's nread, writers on its nwrite; each wakes the other. */
  datatype Role = R | W

  datatype Pc =
    | Idle
    | Want(role: Role, k: nat)              // about to take the pipe's lock, k bytes to go
    | WantClose(role: Role)                 // about to take it to close an end
    | Head(role: Role, k: nat)              // has the lock, at the loop's test
    | Copy(k: nat)                          // a reader taking bytes
    | Owe(role: Role, k: nat, sleep: bool)  // about to wake the other side, then to sleep or to leave
    | Doze(role: Role, k: nat)              // in sleep, about to take ptable.lock
    | Both(role: Role, k: nat)              // in sleep, with both locks
    | Gone(role: Role, k: nat)              // in sleep, with ptable.lock only
    | Asleep(role: Role, k: nat)            // SLEEPING
    | Leave                                 // about to let the pipe's lock go

  datatype State = State(count: nat, readopen: bool, writeopen: bool, plock: Option<nat>, tlock: Option<nat>,
                         pcs: seq<Pc>, killed: seq<bool>)

  datatype Action =
    | Call(p: nat, role: Role, k: nat) | CallClose(p: nat, role: Role)
    | Lock(p: nat) | Close(p: nat)
    | Store(p: nat) | Full(p: nat) | Written(p: nat) | GiveUp(p: nat) | KilledWriter(p: nat)
    | Empty(p: nat) | KilledReader(p: nat) | Begin(p: nat) | Take(p: nat) | Taken(p: nat)
    | Wake(p: nat) | TakeTable(p: nat) | LetPipe(p: nat) | Sleep(p: nat) | Unlock(p: nat)
    | Kill(p: nat, q: nat)

  ghost predicate Active(pc: Pc, role: Role) {
    match pc
    case Want(r, _) => r == role
    case Head(r, _) => r == role
    case Copy(_) => role == R
    case Owe(r, _, sleep) => r == role && sleep
    case Doze(r, _) => r == role
    case Both(r, _) => r == role
    case Gone(r, _) => r == role
    case Asleep(r, _) => r == role
    case _ => false
  }

  ghost function Open(s: State, role: Role): bool {
    if role == W then s.writeopen else s.readopen
  }

  /** When an action can happen. A killed process starts no call, but it still closes its files on its way out. */
  ghost predicate Enabled(s: State, a: Action) {
    && a.p < |s.pcs| == |s.killed|
    && var pc := s.pcs[a.p];
    match a
    case Call(_, role, _) => pc.Idle? && Open(s, role) && !s.killed[a.p]
    case CallClose(_, role) => pc.Idle? && Open(s, role)
    case Lock(_) => pc.Want? && s.plock.None?
    case Close(_) => pc.WantClose? && s.plock.None? && forall q | 0 <= q < |s.pcs| :: !Active(s.pcs[q], pc.role)
    case Store(_) => pc.Head? && pc.role == W && pc.k > 0 && s.count < PIPESIZE
    case Full(_) => pc.Head? && pc.role == W && pc.k > 0 && s.count == PIPESIZE && s.readopen && !s.killed[a.p]
    case GiveUp(_) => pc.Head? && pc.role == W && pc.k > 0 && s.count == PIPESIZE && !s.readopen
    case KilledWriter(_) => pc.Head? && pc.role == W && pc.k > 0 && s.count == PIPESIZE && s.readopen && s.killed[a.p]
    case Written(_) => pc.Head? && pc.role == W && pc.k == 0
    case Empty(_) => pc.Head? && pc.role == R && s.count == 0 && s.writeopen && !s.killed[a.p]
    case KilledReader(_) => pc.Head? && pc.role == R && s.count == 0 && s.writeopen && s.killed[a.p]
    case Begin(_) => pc.Head? && pc.role == R && (s.count > 0 || !s.writeopen)
    case Take(_) => pc.Copy? && pc.k > 0 && s.count > 0
    case Taken(_) => pc.Copy? && (pc.k == 0 || s.count == 0)
    case Wake(_) => pc.Owe? && s.tlock.None?
    case TakeTable(_) => pc.Doze? && s.tlock.None?
    case LetPipe(_) => pc.Both?
    case Sleep(_) => pc.Gone?
    case Unlock(_) => pc.Leave?
    case Kill(_, q) => pc.Idle? && !s.killed[a.p] && q < |s.pcs| && s.tlock.None?
  }

  /** wakeup: everyone asleep in that role wants the pipe's lock again. */
  ghost function Woken(pcs: seq<Pc>, role: Role): seq<Pc> {
    seq(|pcs|, i requires 0 <= i < |pcs| => if pcs[i].Asleep? && pcs[i].role == role then Want(role, pcs[i].k)
        else pcs[i])
  }

  ghost function Other(role: Role): Role {
    if role == W then R else W
  }

  ghost function Do(s: State, a: Action): State
    requires Enabled(s, a)
  {
    var p, pc := a.p, s.pcs[a.p];
    match a
    case Call(_, role, k) => s.(pcs := s.pcs[p := Want(role, k)])
    case CallClose(_, role) => s.(pcs := s.pcs[p := WantClose(role)])
    case Lock(_) => s.(plock := Some(p), pcs := s.pcs[p := Head(pc.role, pc.k)])
    case Close(_) =>
      var t := s.(plock := Some(p), pcs := s.pcs[p := Owe(pc.role, 0, false)]);
      if pc.role == W then t.(writeopen := false) else t.(readopen := false)
    case Store(_) => s.(count := s.count + 1, pcs := s.pcs[p := Head(W, pc.k - 1)])
    case Full(_) => s.(pcs := s.pcs[p := Owe(W, pc.k, true)])
    case GiveUp(_) => s.(pcs := s.pcs[p := Leave])
    case KilledWriter(_) => s.(pcs := s.pcs[p := Leave])
    case Written(_) => s.(pcs := s.pcs[p := Owe(W, 0, false)])
    case Empty(_) => s.(pcs := s.pcs[p := Doze(R, pc.k)])
    case KilledReader(_) => s.(pcs := s.pcs[p := Leave])
    case Begin(_) => s.(pcs := s.pcs[p := Copy(pc.k)])
    case Take(_) => s.(count := s.count - 1, pcs := s.pcs[p := Copy(pc.k - 1)])
    case Taken(_) => s.(pcs := s.pcs[p := Owe(R, 0, false)])
    case Wake(_) => s.(pcs := Woken(s.pcs, Other(pc.role))[p := if pc.sleep then Doze(pc.role, pc.k) else Leave])
    case TakeTable(_) => s.(tlock := Some(p), pcs := s.pcs[p := Both(pc.role, pc.k)])
    case LetPipe(_) => s.(plock := None, pcs := s.pcs[p := Gone(pc.role, pc.k)])
    case Sleep(_) => s.(tlock := None, pcs := s.pcs[p := Asleep(pc.role, pc.k)])
    case Unlock(_) => s.(plock := None, pcs := s.pcs[p := Idle])
    case Kill(_, q) =>
      var woken := if s.pcs[q].Asleep? then s.pcs[q := Want(s.pcs[q].role, s.pcs[q].k)] else s.pcs;
      s.(killed := s.killed[q := true], pcs := woken)
  }

  // ---------------------------------------------------------------- what every step keeps

  ghost predicate HasPipe(pc: Pc) { pc.Head? || pc.Copy? || pc.Owe? || pc.Doze? || pc.Both? || pc.Leave? }
  ghost predicate HasTable(pc: Pc) { pc.Both? || pc.Gone? }

  /** Asleep, or past the point where a wakeup would find it awake. */
  ghost predicate Sleeping(pc: Pc, role: Role) { (pc.Asleep? || pc.Gone?) && pc.role == role }

  /** Will wake the sleepers of the role before it lets the pipe's lock go or sleeps itself. */
  ghost predicate Owes(pc: Pc, role: Role) {
    if role == R then (pc.Head? || pc.Owe?) && pc.role == W else pc.Copy? || (pc.Owe? && pc.role == R)
  }

  /** There is something for the role to do: bytes or room, or the other end is closed. */
  ghost predicate Ready(s: State, role: Role) {
    if role == R then s.count > 0 || !s.writeopen else s.count < PIPESIZE || !s.readopen
  }

  ghost predicate PcOk(s: State, p: nat)
    requires p < |s.pcs|
  {
    var pc := s.pcs[p];
    && (HasPipe(pc) <==> s.plock == Some(p)) && (HasTable(pc) <==> s.tlock == Some(p))
    && (Active(pc, R) ==> s.readopen) && (Active(pc, W) ==> s.writeopen)
    && (pc.Doze? || pc.Both? || (pc.Owe? && pc.sleep) ==> !Ready(s, pc.role))
    && (pc.Owe? && pc.sleep ==> pc.role == W)
  }

  ghost predicate Served(s: State, role: Role) {
    forall q | 0 <= q < |s.pcs| && Sleeping(s.pcs[q], role) ::
      Ready(s, role) ==> s.plock.Some? && s.plock.value < |s.pcs| && Owes(s.pcs[s.plock.value], role)
  }

  ghost predicate Inv(s: State) {
    && |s.pcs| == |s.killed| && s.count <= PIPESIZE
    && (s.plock.Some? ==> s.plock.value < |s.pcs|) && (s.tlock.Some? ==> s.tlock.value < |s.pcs|)
    && (forall p | 0 <= p < |s.pcs| :: PcOk(s, p))
    && Served(s, R) && Served(s, W)
  }

  ghost predicate Initial(s: State) {
    && s.count == 0 && s.readopen && s.writeopen && s.plock.None? && s.tlock.None? && |s.pcs| == |s.killed|
    && (forall p | 0 <= p < |s.pcs| :: s.pcs[p].Idle?)
  }

  lemma StepOwnPc(s: State, a: Action)
    requires Inv(s) && Enabled(s, a)
    ensures |Do(s, a).pcs| == |s.pcs| && PcOk(Do(s, a), a.p)
  {
    hide Served;
    assert PcOk(s, a.p);
  }

  lemma StepOtherPc(s: State, a: Action, p: nat)
    requires Inv(s) && Enabled(s, a) && p < |s.pcs| && p != a.p
    ensures |Do(s, a).pcs| == |s.pcs| && PcOk(Do(s, a), p)
  {
    hide Served;
    assert PcOk(s, a.p) && PcOk(s, p);
  }

  lemma StepPcs(s: State, a: Action)
    requires Inv(s) && Enabled(s, a)
    ensures var t := Do(s, a); forall p | 0 <= p < |t.pcs| :: PcOk(t, p)
  {
    hide Served, PcOk, Enabled, Do;
    var t := Do(s, a);
    StepOwnPc(s, a);
    forall p | 0 <= p < |t.pcs|
      ensures PcOk(t, p)
    {
      if p != a.p {
        StepOtherPc(s, a, p);
      }
    }
  }

  /** Only a writer that gives up because it was killed can leave a reader asleep. */
  lemma StepServesReaders(s: State, a: Action)
    requires Inv(s) && Enabled(s, a) && !a.KilledWriter?
    ensures Served(Do(s, a), R)
  {
    var t := Do(s, a);
    assert PcOk(s, a.p) && Served(s, R);
    forall q | 0 <= q < |t.pcs| && Sleeping(t.pcs[q], R) && Ready(t, R)
      ensures t.plock.Some? && t.plock.value < |t.pcs| && Owes(t.pcs[t.plock.value], R)
    {
      assert PcOk(s, q);
    }
  }

  lemma StepServesWriters(s: State, a: Action)
    requires Inv(s) && Enabled(s, a) && !a.KilledWriter?
    ensures Served(Do(s, a), W)
  {
    var t := Do(s, a);
    assert PcOk(s, a.p) && Served(s, W);
    forall q | 0 <= q < |t.pcs| && Sleeping(t.pcs[q], W) && Ready(t, W)
      ensures t.plock.Some? && t.plock.value < |t.pcs| && Owes(t.pcs[t.plock.value], W)
    {
      assert PcOk(s, q);
    }
  }

  lemma StepKeeps(s: State, a: Action)
    requires Inv(s) && Enabled(s, a) && !a.KilledWriter?
    ensures Inv(Do(s, a))
  {
    hide PcOk, Served;
    StepPcs(s, a);
    StepServesReaders(s, a);
    StepServesWriters(s, a);
    assert PcOk(s, a.p);
    StepSizes(s, a);
  }

  ghost predicate SomeSleeping(s: State, role: Role) {
    exists q :: 0 <= q < |s.pcs| && Sleeping(s.pcs[q], role)
  }

  lemma KilledWriterServes(s: State, a: Action)
    requires Inv(s) && Enabled(s, a) && a.KilledWriter?
    ensures Served(Do(s, a), R) <==> !SomeSleeping(s, R)
    ensures Served(Do(s, a), W)
  {
    var t := Do(s, a);
    assert PcOk(s, a.p);
    if q :| 0 <= q < |s.pcs| && Sleeping(s.pcs[q], R) {
      assert Sleeping(t.pcs[q], R);
    }
  }

  /** Exactly one step can break the protocol: a killed writer giving up while a reader sleeps. */
  lemma StepKeepsIff(s: State, a: Action)
    requires Inv(s) && Enabled(s, a)
    ensures Inv(Do(s, a)) <==> !(a.KilledWriter? && SomeSleeping(s, R))
  {
    hide PcOk, Served, Sleeping;
    if a.KilledWriter? {
      StepPcs(s, a);
      StepSizes(s, a);
      KilledWriterServes(s, a);
    } else {
      StepKeeps(s, a);
    }
  }

  lemma StepSizes(s: State, a: Action)
    requires Enabled(s, a) && s.count <= PIPESIZE
    requires (s.plock.Some? ==> s.plock.value < |s.pcs|) && (s.tlock.Some? ==> s.tlock.value < |s.pcs|)
    ensures var t := Do(s, a);
            && |t.pcs| == |t.killed| == |s.pcs| && t.count <= PIPESIZE
            && (t.plock.Some? ==> t.plock.value < |t.pcs|) && (t.tlock.Some? ==> t.tlock.value < |t.pcs|)
  {
    hide Active, Open;
    assert forall role :: |Woken(s.pcs, role)| == |s.pcs|;
    hide Woken;
  }

  /** The state after a run of actions, if each is enabled in turn. */
  ghost function Run(s: State, actions: seq<Action>): Option<State>
    decreases |actions|
  {
    if actions == [] then Some(s)
    else if !Enabled(s, actions[0]) then None
    else Run(Do(s, actions[0]), actions[1..])
  }

  /** No step of the run is a killed writer giving up while a reader sleeps. */
  ghost predicate Gentle(s: State, actions: seq<Action>)
    decreases |actions|
  {
    actions != [] && Enabled(s, actions[0]) ==>
      !(actions[0].KilledWriter? && SomeSleeping(s, R)) && Gentle(Do(s, actions[0]), actions[1..])
  }

  ghost predicate Throughout(s: State, actions: seq<Action>)
    decreases |actions|
  {
    Inv(s) && (actions != [] && Enabled(s, actions[0]) ==> Throughout(Do(s, actions[0]), actions[1..]))
  }

  /** A run keeps the invariant in every state it passes through exactly if it is gentle. */
  lemma {:induction false} RunKeepsIff(s: State, actions: seq<Action>)
    requires Inv(s)
    ensures Throughout(s, actions) <==> Gentle(s, actions)
    ensures Gentle(s, actions) && Run(s, actions).Some? ==> Inv(Run(s, actions).value)
    decreases |actions|
  {
    hide Inv, Do, Enabled, SomeSleeping;
    if actions != [] && Enabled(s, actions[0]) {
      var t := Do(s, actions[0]);
      StepKeepsIff(s, actions[0]);
      if Inv(t) {
        RunKeepsIff(t, actions[1..]);
      }
    }
  }

  lemma InitialInv(s: State)
    requires Initial(s)
    ensures Inv(s)
  {
  }

  /**
   In a run in which no killed writer gives up while a reader sleeps, nobody sleeps who has
   something to do unless the holder of the pipe's lock is still to wake the sleepers.
   */
  lemma NoLostWakeup(s: State, actions: seq<Action>, role: Role, q: nat)
    requires Initial(s) && Gentle(s, actions)
    ensures var t := Run(s, actions);
            t.Some? && q < |t.value.pcs| && Sleeping(t.value.pcs[q], role) && Ready(t.value, role) ==>
              exists h :: t.value.plock == Some(h) && h < |t.value.pcs| && Owes(t.value.pcs[h], role)
  {
    hide Inv;
    InitialInv(s);
    RunKeepsIff(s, actions);
    var t := Run(s, actions);
    if t.Some? {
      ServedIn(t.value, role, q);
    }
  }

  lemma ServedIn(t: State, role: Role, q: nat)
    requires Inv(t)
    ensures q < |t.pcs| && Sleeping(t.pcs[q], role) && Ready(t, role) ==>
              exists h :: t.plock == Some(h) && h < |t.pcs| && Owes(t.pcs[h], role)
  {
  }

  // ---------------------------------------------------------------- a killed writer

  lemma {:induction false} RunTwo(s: State, a: seq<Action>, b: seq<Action>)
    requires Run(s, a).Some?
    ensures Run(s, a + b) == Run(Run(s, a).value, b)
    decreases |a|
  {
    if a == [] {
      assert a + b == b;
    } else {
      assert (a + b)[1..] == a[1..] + b;
      RunTwo(Do(s, a[0]), a[1..], b);
    }
  }

  /** Process 0 asleep reading, process 1 writing with the lock and killed by process 2. */
  ghost function Sleeper(count: nat, k: nat): State {
    State(count, true, true, Some(1), None, [Asleep(R, 1), Head(W, k), Idle], [false, true, false])
  }

  ghost function Stores(n: nat): seq<Action> {
    seq(n, _ => Store(1))
  }

  lemma {:induction false} StoresRun(count: nat, n: nat, k: nat)
    requires count + n <= PIPESIZE
    ensures Run(Sleeper(count, n + k), Stores(n)) == Some(Sleeper(count + n, k))
    decreases n
  {
    if n > 0 {
      assert Stores(n)[1..] == Stores(n - 1);
      assert Do(Sleeper(count, n + k), Store(1)) == Sleeper(count + 1, n - 1 + k);
      StoresRun(count + 1, n - 1, k);
    }
  }

  ghost function Start(): State {
    State(0, true, true, None, None, [Idle, Idle, Idle], [false, false, false])
  }

  ghost function Dozed(): State {
    Start().(pcs := [Asleep(R, 1), Idle, Idle])
  }

  ghost function FallAsleep(): seq<Action> {
    [Call(0, R, 1), Lock(0), Empty(0), TakeTable(0), LetPipe(0), Sleep(0)]
  }

  ghost function StartWriting(): seq<Action> {
    [Call(1, W, PIPESIZE + 1), Lock(1), Kill(2, 1)]
  }

  lemma FallsAsleep()
    ensures Run(Start(), FallAsleep()) == Some(Dozed())
  {
    var s0, acts := Start(), FallAsleep();
    var s1 := Do(s0, acts[0]);
    var s2 := Do(s1, acts[1]);
    var s3 := Do(s2, acts[2]);
    var s4 := Do(s3, acts[3]);
    var s5 := Do(s4, acts[4]);
    assert Do(s5, acts[5]) == Dozed();
    hide Enabled, Do;
    assert acts[6..] == [] && acts[0..] == acts;
    RunStep(s5, acts, 5);
    RunStep(s4, acts, 4);
    RunStep(s3, acts, 3);
    RunStep(s2, acts, 2);
    RunStep(s1, acts, 1);
    RunStep(s0, acts, 0);
  }

  lemma StartsWriting()
    ensures Run(Dozed(), StartWriting()) == Some(Sleeper(0, PIPESIZE + 1))
  {
    var s0, acts := Dozed(), StartWriting();
    var s1 := Do(s0, acts[0]);
    var s2 := Do(s1, acts[1]);
    assert Do(s2, acts[2]) == Sleeper(0, PIPESIZE + 1);
    assert acts[3..] == [] && acts[0..] == acts;
    RunStep(s2, acts, 2);
    RunStep(s1, acts, 1);
    RunStep(s0, acts, 0);
  }

  lemma RunStep(s: State, acts: seq<Action>, i: nat)
    requires i < |acts| && Enabled(s, acts[i])
    ensures Run(s, acts[i..]) == Run(Do(s, acts[i]), acts[i + 1..])
  {
  }

  lemma GivesUp()
    ensures var t := Run(Sleeper(PIPESIZE, 1), [KilledWriter(1), Unlock(1)]);
            t == Some(State(PIPESIZE, true, true, None, None, [Asleep(R, 1), Idle, Idle], [false, true, false]))
  {
    var s0, acts := Sleeper(PIPESIZE, 1), [KilledWriter(1), Unlock(1)];
    var s1 := Do(s0, acts[0]);
    assert Do(s1, acts[1]).pcs == [Asleep(R, 1), Idle, Idle];
    assert acts[2..] == [] && acts[0..] == acts;
    RunStep(s1, acts, 1);
    RunStep(s0, acts, 0);
  }

  /**
   * A writer killed inside its call that meets a full pipe returns without a wakeup: the lock is free, the pipe full,
   * the reader asleep.
   */
  lemma KilledWriterLosesWakeup()
    ensures Initial(Start())
    ensures exists actions ::
              Run(Start(), actions) ==
              Some(State(PIPESIZE, true, true, None, None, [Asleep(R, 1), Idle, Idle], [false, true, false]))
  {
    hide Run, Enabled, Do;
    FallsAsleep();
    StartsWriting();
    StoresRun(0, PIPESIZE, 1);
    GivesUp();
    var a, b, c, d := FallAsleep(), StartWriting(), Stores(PIPESIZE), [KilledWriter(1), Unlock(1)];
    RunTwo(Start(), a, b);
    RunTwo(Start(), a + b, c);
    RunTwo(Start(), a + b + c, d);
  }
}
