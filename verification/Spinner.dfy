/**
 The start/stop protocol of the CLI spinner.

 Client threads call Start, Stop, Write, SetPrefix and SetSuffix; every Start that finds the spinner
 stopped spawns a goroutine that loops in a select over the one-slot `stop` channel and the ticker.
 All threads are interleaved one atomic action at a time.  The first `nc` clients are the ones that may
 call Start and Stop; the command line has exactly one, the thread that drives Status.
 */
module Spinner {

  datatype Thread = Client(i: nat) | Goroutine(g: nat)

  datatype Mutex = Free | Held(holder: Thread)

  /** Where a client is inside the call it is making. */
  datatype ClientPc =
    | Idle
    | StartLock | StartIn
    | StopLock | StopIn | StopSend | StopUnlock | StopWait
    | UseLock(writes: bool) | UseIn(writes: bool)  // Write, or SetPrefix/SetSuffix when it writes nothing

  /** Where a goroutine is in its loop. */
  datatype GoPc =
    | Select
    | TickLock | TickIn
    | HaltLock | HaltIn | HaltSend | HaltUnlock
    | Exited

  datatype Event = Started | StopReturned(i: nat) | Frame(g: nat) | Rewind | Wrote(i: nat)

  datatype State = State(mu: Mutex, running: bool, slot: nat, gos: seq<GoPc>, clients: seq<ClientPc>, log: seq<Event>)

  datatype Action =
    | BeginStart(i: nat) | BeginStop(i: nat) | BeginUse(i: nat, writes: bool)
    | LockClient(i: nat) | LockGo(g: nat)
    | StartBody(i: nat)
    | StopCheck(i: nat) | Send(i: nat) | Unlock(i: nat)
    | UseBody(i: nat)
    | TakeTick(g: nat) | WriteFrame(g: nat)
    | TakeStop(g: nat) | MarkStopped(g: nat) | Rendezvous(g: nat, i: nat) | Exit(g: nat)

  predicate HoldsClient(pc: ClientPc) {
    pc in {StartIn, StopIn, StopSend, StopUnlock} || pc.UseIn?
  }

  predicate WantsClient(pc: ClientPc) {
    pc in {StartLock, StopLock} || pc.UseLock?
  }

  predicate HoldsGo(pc: GoPc) {
    pc in {TickIn, HaltIn, HaltSend, HaltUnlock}
  }

  predicate WantsGo(pc: GoPc) {
    pc in {TickLock, HaltLock}
  }

  /** A goroutine that has not yet marked the spinner stopped. */
  predicate Looping(pc: GoPc) {
    pc in {Select, TickLock, TickIn, HaltLock, HaltIn}
  }

  predicate At(s: State, i: nat, pc: ClientPc) {
    i < |s.clients| && s.clients[i] == pc
  }

  predicate GoAt(s: State, g: nat, pc: GoPc) {
    g < |s.gos| && s.gos[g] == pc
  }

  /** The actions that can happen in `s`: sends and receives on a channel and Lock block otherwise. */
  predicate Enabled(s: State, nc: nat, a: Action) {
    match a
    case BeginStart(i) => i < nc && At(s, i, Idle)
    case BeginStop(i) => i < nc && At(s, i, Idle)
    case BeginUse(i, _) => At(s, i, Idle)
    case LockClient(i) => s.mu.Free? && i < |s.clients| && WantsClient(s.clients[i])
    case LockGo(g) => s.mu.Free? && g < |s.gos| && WantsGo(s.gos[g])
    case StartBody(i) => At(s, i, StartIn)
    case StopCheck(i) => At(s, i, StopIn)
    case Send(i) => At(s, i, StopSend) && s.slot == 0
    case Unlock(i) => At(s, i, StopUnlock)
    case UseBody(i) => i < |s.clients| && s.clients[i].UseIn?
    case TakeTick(g) => GoAt(s, g, Select)
    case WriteFrame(g) => GoAt(s, g, TickIn)
    case TakeStop(g) => GoAt(s, g, Select) && s.slot > 0
    case MarkStopped(g) => GoAt(s, g, HaltIn)
    case Rendezvous(g, i) => GoAt(s, g, HaltSend) && At(s, i, StopWait)
    case Exit(g) => GoAt(s, g, HaltUnlock)
  }

  function Locked(pc: ClientPc): ClientPc
    requires WantsClient(pc)
  {
    match pc
    case StartLock => StartIn
    case StopLock => StopIn
    case UseLock(w) => UseIn(w)
  }

  function Do(s: State, nc: nat, a: Action): State
    requires Enabled(s, nc, a)
  {
    match a
    case BeginStart(i) => s.(clients := s.clients[i := StartLock])
    case BeginStop(i) => s.(clients := s.clients[i := StopLock])
    case BeginUse(i, w) => s.(clients := s.clients[i := UseLock(w)])
    case LockClient(i) => s.(mu := Held(Client(i)), clients := s.clients[i := Locked(s.clients[i])])
    case LockGo(g) => s.(mu := Held(Goroutine(g)), gos := s.gos[g := if s.gos[g] == TickLock then TickIn else HaltIn])
    case StartBody(i) =>
      var t := s.(mu := Free, clients := s.clients[i := Idle], log := s.log + [Started]);
      if s.running then t else t.(running := true, gos := s.gos + [Select])
    case StopCheck(i) =>
      if s.running then s.(clients := s.clients[i := StopSend])
      else s.(mu := Free, clients := s.clients[i := Idle], log := s.log + [StopReturned(i)])
    case Send(i) => s.(slot := s.slot + 1, clients := s.clients[i := StopUnlock])
    case Unlock(i) => s.(mu := Free, clients := s.clients[i := StopWait])
    case UseBody(i) =>
      var written := if !s.clients[i].writes then [] else if s.running then [Rewind, Wrote(i)] else [Wrote(i)];
      s.(mu := Free, clients := s.clients[i := Idle], log := s.log + written)
    case TakeTick(g) => s.(gos := s.gos[g := TickLock])
    case WriteFrame(g) => s.(mu := Free, gos := s.gos[g := Select], log := s.log + [Frame(g)])
    case TakeStop(g) => s.(slot := s.slot - 1, gos := s.gos[g := HaltLock])
    case MarkStopped(g) => s.(running := false, gos := s.gos[g := HaltSend])
    case Rendezvous(g, i) =>
      s.(gos := s.gos[g := HaltUnlock], clients := s.clients[i := Idle], log := s.log + [StopReturned(i)])
    case Exit(g) => s.(mu := Free, gos := s.gos[g := Exited])
  }

  /** A new spinner and any number of idle clients. */
  function Initial(n: nat): State {
    State(Free, false, 0, [], seq(n, _ => Idle), [])
  }

  ghost predicate Path(s: State, nc: nat, acts: seq<Action>, t: State)
    decreases |acts|
  {
    if acts == [] then s == t
    else Enabled(s, nc, acts[0]) && Path(Do(s, nc, acts[0]), nc, acts[1..], t)
  }

  ghost predicate Reachable(n: nat, nc: nat, s: State) {
    nc <= n && exists acts :: Path(Initial(n), nc, acts, s)
  }

  // ---------------------------------------------------------------- the protocol invariant

  function Controller(s: State, nc: nat): ClientPc {
    if nc == 1 && |s.clients| > 0 then s.clients[0] else Idle
  }

  function Live(s: State): GoPc {
    if s.gos == [] then Exited else s.gos[|s.gos| - 1]
  }

  predicate ControlPc(pc: ClientPc) {
    pc in {StartLock, StartIn, StopLock, StopIn, StopSend, StopUnlock, StopWait}
  }

  /** Exactly the thread that the mutex names is inside a critical section. */
  ghost predicate MutexInv(s: State) {
    && (forall i: nat | i < |s.clients| :: s.mu == Held(Client(i)) <==> HoldsClient(s.clients[i]))
    && (forall g: nat | g < |s.gos| :: s.mu == Held(Goroutine(g)) <==> HoldsGo(s.gos[g]))
    && (s.mu.Held? ==> match s.mu.holder case Client(i) => i < |s.clients| case Goroutine(g) => g < |s.gos|)
  }

  /** The handshake between the controller and the one goroutine that may be in its loop. */
  ghost predicate HandshakeInv(s: State, nc: nat) {
    var c, live := Controller(s, nc), Live(s);
    && (s.running <==> Looping(live))
    && (c == StopSend ==> s.running)
    && (if c in {StopUnlock, StopWait}
        then if s.slot == 1 then live in {Select, TickLock, TickIn} else s.slot == 0 && live in {HaltLock, HaltIn, HaltSend}
        else s.slot == 0 && live !in {HaltLock, HaltIn, HaltSend})
  }

  /** Only controllers are inside Start or Stop, and every goroutine but the newest is gone. */
  ghost predicate DisciplineInv(s: State, nc: nat) {
    && nc <= |s.clients|
    && (forall i | 0 <= i < |s.clients| && ControlPc(s.clients[i]) :: i < nc)
    && (forall g | 0 <= g < |s.gos| - 1 :: s.gos[g] == Exited)
  }

  ghost predicate Inv(s: State, nc: nat) {
    && MutexInv(s)
    && DisciplineInv(s, nc)
    && HandshakeInv(s, nc)
    && (s.running ==> Spinning(s.log))
    && FramesOnlyWhileSpinning(s.log)
  }

  /** Whether the most recent Start or returned Stop in the log is a Start. */
  function Spinning(log: seq<Event>): bool {
    log != [] && match log[|log| - 1]
                 case Started => true
                 case StopReturned(_) => false
                 case _ => Spinning(log[..|log| - 1])
  }

  ghost predicate FramesOnlyWhileSpinning(log: seq<Event>) {
    forall k | 0 <= k < |log| && log[k].Frame? :: Spinning(log[..k])
  }

  lemma SpinningAppend(log: seq<Event>, e: Event)
    ensures Spinning(log + [e]) == match e case Started => true case StopReturned(_) => false case _ => Spinning(log)
  {
    assert (log + [e])[..|log|] == log;
  }

  lemma FramesAppend(log: seq<Event>, e: Event)
    requires FramesOnlyWhileSpinning(log)
    requires e.Frame? ==> Spinning(log)
    ensures FramesOnlyWhileSpinning(log + [e])
  {
    forall k | 0 <= k < |log| + 1 && (log + [e])[k].Frame? ensures Spinning((log + [e])[..k]) {
      assert (log + [e])[..k] == log[..k];
      assert k < |log| ==> log[k].Frame?;
      assert log[..|log|] == log;
    }
  }

  lemma WrittenAppends(log: seq<Event>, i: nat)
    requires FramesOnlyWhileSpinning(log)
    ensures FramesOnlyWhileSpinning(log + [Wrote(i)]) && FramesOnlyWhileSpinning(log + [Rewind, Wrote(i)])
    ensures Spinning(log + [Wrote(i)]) == Spinning(log + [Rewind, Wrote(i)]) == Spinning(log)
  {
    hide Spinning, FramesOnlyWhileSpinning;
    SpinningAppend(log, Wrote(i));
    FramesAppend(log, Wrote(i));
    SpinningAppend(log, Rewind);
    FramesAppend(log, Rewind);
    SpinningAppend(log + [Rewind], Wrote(i));
    FramesAppend(log + [Rewind], Wrote(i));
    assert log + [Rewind] + [Wrote(i)] == log + [Rewind, Wrote(i)];
  }

  /** One step of the log part of the invariant: what an action appends never breaks it. */
  lemma LogStep(s: State, nc: nat, a: Action)
    requires Enabled(s, nc, a) && nc <= 1 && Inv(s, nc)
    ensures var t := Do(s, nc, a); (t.running ==> Spinning(t.log)) && FramesOnlyWhileSpinning(t.log)
  {
    hide Spinning, FramesOnlyWhileSpinning, MutexInv;
    match a
    case StartBody(i) => SpinningAppend(s.log, Started); FramesAppend(s.log, Started);
    case StopCheck(i) => SpinningAppend(s.log, StopReturned(i)); FramesAppend(s.log, StopReturned(i));
    case UseBody(i) =>
      WrittenAppends(s.log, i);
      assert s.log + [] == s.log;
    case WriteFrame(g) => SpinningAppend(s.log, Frame(g)); FramesAppend(s.log, Frame(g));
    case Rendezvous(g, i) => SpinningAppend(s.log, StopReturned(i)); FramesAppend(s.log, StopReturned(i));
    case _ =>
  }

  lemma MutexStep(s: State, nc: nat, a: Action)
    requires Enabled(s, nc, a) && MutexInv(s)
    ensures MutexInv(Do(s, nc, a))
  {
    var t := Do(s, nc, a);
    forall i: nat | i < |t.clients| ensures t.mu == Held(Client(i)) <==> HoldsClient(t.clients[i]) {
    }
    forall g: nat | g < |t.gos| ensures t.mu == Held(Goroutine(g)) <==> HoldsGo(t.gos[g]) {
    }
  }

  lemma DisciplineStep(s: State, nc: nat, a: Action)
    requires Enabled(s, nc, a) && DisciplineInv(s, nc) && HandshakeInv(s, nc) && MutexInv(s)
    ensures DisciplineInv(Do(s, nc, a), nc)
  {
    var t := Do(s, nc, a);
    assert forall i | 0 <= i < |t.clients| && ControlPc(t.clients[i]) :: ControlPc(s.clients[i]) || i < nc;
  }

  lemma HandshakeStep(s: State, nc: nat, a: Action)
    requires Enabled(s, nc, a) && nc <= 1 && DisciplineInv(s, nc) && HandshakeInv(s, nc) && MutexInv(s)
    ensures HandshakeInv(Do(s, nc, a), nc)
  {
    if a.StopCheck? || a.Send? || a.Unlock? {
      HandshakeStopStep(s, nc, a);
    } else if a.BeginStart? || a.BeginStop? || a.BeginUse? || a.LockClient? || a.StartBody? || a.UseBody? {
      HandshakeClientStep(s, nc, a);
    } else {
      HandshakeGoStep(s, nc, a);
    }
  }

  lemma HandshakeStopStep(s: State, nc: nat, a: Action)
    requires a.StopCheck? || a.Send? || a.Unlock?
    requires Enabled(s, nc, a) && nc <= 1 && DisciplineInv(s, nc) && HandshakeInv(s, nc) && MutexInv(s)
    ensures HandshakeInv(Do(s, nc, a), nc)
  {
  }

  lemma HandshakeClientStep(s: State, nc: nat, a: Action)
    requires a.BeginStart? || a.BeginStop? || a.BeginUse? || a.LockClient? || a.StartBody? || a.UseBody?
    requires Enabled(s, nc, a) && nc <= 1 && DisciplineInv(s, nc) && HandshakeInv(s, nc) && MutexInv(s)
    ensures HandshakeInv(Do(s, nc, a), nc)
  {
  }

  lemma HandshakeGoStep(s: State, nc: nat, a: Action)
    requires a.LockGo? || a.TakeTick? || a.WriteFrame? || a.TakeStop? || a.MarkStopped? || a.Rendezvous? || a.Exit?
    requires Enabled(s, nc, a) && nc <= 1 && DisciplineInv(s, nc) && HandshakeInv(s, nc) && MutexInv(s)
    ensures HandshakeInv(Do(s, nc, a), nc)
  {
    match a
    case Rendezvous(g, i) =>
    case _ =>
  }

  /** Every action of every thread keeps the invariant, as long as at most one client starts and stops. */
  lemma InvStep(s: State, nc: nat, a: Action)
    requires nc <= 1 && Inv(s, nc) && Enabled(s, nc, a)
    ensures Inv(Do(s, nc, a), nc)
  {
    MutexStep(s, nc, a);
    DisciplineStep(s, nc, a);
    HandshakeStep(s, nc, a);
    LogStep(s, nc, a);
  }

  lemma {:induction false} InvPath(s: State, nc: nat, acts: seq<Action>, t: State)
    requires nc <= 1 && Inv(s, nc) && Path(s, nc, acts, t)
    ensures Inv(t, nc)
    decreases |acts|
  {
    if acts != [] {
      InvStep(s, nc, acts[0]);
      InvPath(Do(s, nc, acts[0]), nc, acts[1..], t);
    }
  }

  lemma ReachableInv(n: nat, nc: nat, s: State)
    requires nc <= 1 && Reachable(n, nc, s)
    ensures Inv(s, nc)
  {
    var acts :| Path(Initial(n), nc, acts, s);
    InvPath(Initial(n), nc, acts, s);
  }

  // ---------------------------------------------------------------- safety

  /** At most one goroutine is in its loop, and a Stop about to signal finds the slot empty. */
  lemma OneLoopEmptySlot(n: nat, nc: nat, s: State)
    requires nc <= 1 && Reachable(n, nc, s)
    ensures forall g, h | 0 <= g < h < |s.gos| :: !(Looping(s.gos[g]) && Looping(s.gos[h]))
    ensures forall i | 0 <= i < |s.clients| && s.clients[i] == StopSend :: s.slot == 0
    ensures s.running <==> exists g :: 0 <= g < |s.gos| && Looping(s.gos[g])
  {
    ReachableInv(n, nc, s);
    if s.running {
      assert Looping(s.gos[|s.gos| - 1]);
    }
  }

  /** Between the return of a Stop and the next Start no frame is written. */
  lemma NoFrameAfterStop(n: nat, nc: nat, s: State, i: nat, k: nat)
    requires nc <= 1 && Reachable(n, nc, s)
    requires i < k < |s.log| && s.log[i].StopReturned? && s.log[k].Frame?
    ensures exists j :: i < j < k && s.log[j] == Started
  {
    ReachableInv(n, nc, s);
    var j := LastStart(s.log[..k]);
    assert s.log[..k][i].StopReturned?;
    assert s.log[j] == Started;
  }

  /** In a log that is spinning, the Start since which nothing stopped. */
  lemma {:induction false} LastStart(log: seq<Event>) returns (j: nat)
    requires Spinning(log)
    ensures j < |log| && log[j] == Started
    ensures forall i | j < i < |log| :: !log[i].StopReturned?
  {
    if log[|log| - 1] == Started {
      j := |log| - 1;
    } else {
      j := LastStart(log[..|log| - 1]);
    }
  }

  // ---------------------------------------------------------------- every call returns

  /** Everything except a new call and a tick of the ticker. */
  predicate Internal(a: Action) {
    !a.BeginStart? && !a.BeginStop? && !a.BeginUse? && !a.TakeTick?
  }

  /** Some call has begun and not returned, or a goroutine is between two selects. */
  ghost predicate Busy(s: State) {
    || (exists i :: 0 <= i < |s.clients| && s.clients[i] != Idle)
    || (exists g :: 0 <= g < |s.gos| && s.gos[g] !in {Select, Exited})
  }

  /** The call that client `i` is in does not return on any path, whatever calls are made and however often it ticks. */
  ghost predicate NeverReturns(s: State, nc: nat, i: nat) {
    forall acts, t | Path(s, nc, acts, t) :: i < |t.clients| && t.clients[i] != Idle
  }

  function ClientRank(pc: ClientPc): nat {
    match pc
    case Idle => 0
    case StartLock => 2 case StartIn => 1
    case StopLock => 10 case StopIn => 9 case StopSend => 8 case StopUnlock => 2 case StopWait => 1
    case UseLock(_) => 2 case UseIn(_) => 1
  }

  function GoRank(pc: GoPc): nat {
    match pc
    case Select => 0
    case TickLock => 2 case TickIn => 1
    case HaltLock => 4 case HaltIn => 3 case HaltSend => 2 case HaltUnlock => 1
    case Exited => 0
  }

  function ClientsRank(pcs: seq<ClientPc>): nat {
    if pcs == [] then 0 else ClientRank(pcs[0]) + ClientsRank(pcs[1..])
  }

  function GosRank(pcs: seq<GoPc>): nat {
    if pcs == [] then 0 else GoRank(pcs[0]) + GosRank(pcs[1..])
  }

  /** How many internal actions are left at most. */
  function Rank(s: State): nat {
    5 * s.slot + ClientsRank(s.clients) + GosRank(s.gos)
  }

  lemma {:induction false} ClientsRankUpdate(pcs: seq<ClientPc>, i: nat, pc: ClientPc)
    requires i < |pcs|
    ensures ClientsRank(pcs[i := pc]) == ClientsRank(pcs) - ClientRank(pcs[i]) + ClientRank(pc)
  {
    if i == 0 {
      assert pcs[i := pc][1..] == pcs[1..];
    } else {
      assert pcs[i := pc][1..] == pcs[1..][i - 1 := pc];
      ClientsRankUpdate(pcs[1..], i - 1, pc);
    }
  }

  lemma {:induction false} GosRankUpdate(pcs: seq<GoPc>, g: nat, pc: GoPc)
    requires g < |pcs|
    ensures GosRank(pcs[g := pc]) == GosRank(pcs) - GoRank(pcs[g]) + GoRank(pc)
  {
    if g == 0 {
      assert pcs[g := pc][1..] == pcs[1..];
    } else {
      assert pcs[g := pc][1..] == pcs[1..][g - 1 := pc];
      GosRankUpdate(pcs[1..], g - 1, pc);
    }
  }

  lemma {:induction false} GosRankSpawn(pcs: seq<GoPc>)
    ensures GosRank(pcs + [Select]) == GosRank(pcs)
  {
    if pcs != [] {
      assert (pcs + [Select])[1..] == pcs[1..] + [Select];
      GosRankSpawn(pcs[1..]);
    }
  }

  lemma ClientActionDecreases(s: State, nc: nat, a: Action)
    requires a.LockClient? || a.StartBody? || a.StopCheck? || a.Send? || a.Unlock? || a.UseBody?
    requires Enabled(s, nc, a)
    ensures Rank(Do(s, nc, a)) < Rank(s)
  {
    GosRankSpawn(s.gos);
    ClientsRankUpdate(s.clients, a.i, Do(s, nc, a).clients[a.i]);
  }

  lemma GoActionDecreases(s: State, nc: nat, a: Action)
    requires a.LockGo? || a.WriteFrame? || a.TakeStop? || a.MarkStopped? || a.Rendezvous? || a.Exit?
    requires Enabled(s, nc, a)
    ensures Rank(Do(s, nc, a)) < Rank(s)
  {
    GosRankUpdate(s.gos, a.g, Do(s, nc, a).gos[a.g]);
    if a.Rendezvous? {
      ClientsRankUpdate(s.clients, a.i, Idle);
    }
  }

  /** Every internal action uses up rank, whatever the state and however many controllers there are. */
  lemma InternalDecreases(s: State, nc: nat, a: Action)
    requires Internal(a) && Enabled(s, nc, a)
    ensures Rank(Do(s, nc, a)) < Rank(s)
  {
    if a.LockGo? || a.WriteFrame? || a.TakeStop? || a.MarkStopped? || a.Rendezvous? || a.Exit? {
      GoActionDecreases(s, nc, a);
    } else {
      ClientActionDecreases(s, nc, a);
    }
  }

  /** With at most one controller a busy spinner always has an internal action to take. */
  lemma SomebodyMoves(s: State, nc: nat) returns (a: Action)
    requires nc <= 1 && Inv(s, nc) && Busy(s)
    ensures Internal(a) && Enabled(s, nc, a)
  {
    match s.mu
    case Held(Client(i)) =>
      a := match s.clients[i]
           case StartIn => StartBody(i)
           case StopIn => StopCheck(i)
           case StopSend => Send(i)
           case StopUnlock => Unlock(i)
           case _ => UseBody(i);
    case Held(Goroutine(g)) =>
      a := match s.gos[g]
           case TickIn => WriteFrame(g)
           case HaltIn => MarkStopped(g)
           case HaltSend => Rendezvous(g, 0)
           case _ => Exit(g);
    case Free =>
      if i :| 0 <= i < |s.clients| && WantsClient(s.clients[i]) {
        a := LockClient(i);
      } else if g :| 0 <= g < |s.gos| && WantsGo(s.gos[g]) {
        a := LockGo(g);
      } else {
        a := TakeStop(|s.gos| - 1);
      }
  }

  /** From every reachable state the calls in flight return within Rank(s) internal actions. */
  lemma {:induction false} CallsReturn(s: State, nc: nat) returns (acts: seq<Action>, t: State)
    requires nc <= 1 && Inv(s, nc)
    ensures Path(s, nc, acts, t) && |acts| <= Rank(s)
    ensures forall a | a in acts :: Internal(a)
    ensures !Busy(t)
    decreases Rank(s)
  {
    if Busy(s) {
      var a := SomebodyMoves(s, nc);
      InternalDecreases(s, nc, a);
      InvStep(s, nc, a);
      var rest;
      rest, t := CallsReturn(Do(s, nc, a), nc);
      acts := [a] + rest;
      assert acts[1..] == rest;
    } else {
      acts, t := [], s;
    }
  }

  /** And no schedule can put them off: without ticks and new calls every path is at most that long. */
  lemma {:induction false} InternalPathsAreShort(s: State, nc: nat, acts: seq<Action>, t: State)
    requires Path(s, nc, acts, t) && forall a | a in acts :: Internal(a)
    ensures |acts| + Rank(t) <= Rank(s)
    decreases |acts|
  {
    if acts != [] {
      InternalDecreases(s, nc, acts[0]);
      InternalPathsAreShort(Do(s, nc, acts[0]), nc, acts[1..], t);
    }
  }

  // ---------------------------------------------------------------- runs of the protocol

  lemma {:induction false} PathAppend(s: State, nc: nat, acts: seq<Action>, t: State, a: Action)
    requires Path(s, nc, acts, t) && Enabled(t, nc, a)
    ensures Path(s, nc, acts + [a], Do(t, nc, a))
    decreases |acts|
  {
    if acts == [] {
      assert [a][1..] == [];
    } else {
      assert (acts + [a])[1..] == acts[1..] + [a];
      PathAppend(Do(s, nc, acts[0]), nc, acts[1..], t, a);
    }
  }

  lemma {:induction false} PathJoin(s: State, nc: nat, acts: seq<Action>, t: State, rest: seq<Action>, u: State)
    requires Path(s, nc, acts, t) && Path(t, nc, rest, u)
    ensures Path(s, nc, acts + rest, u)
    decreases |acts|
  {
    if acts == [] {
      assert acts + rest == rest;
    } else {
      assert (acts + rest)[1..] == acts[1..] + rest;
      PathJoin(Do(s, nc, acts[0]), nc, acts[1..], t, rest, u);
    }
  }

  lemma ReachableStep(n: nat, nc: nat, s: State, a: Action) returns (t: State)
    requires Reachable(n, nc, s) && Enabled(s, nc, a)
    ensures t == Do(s, nc, a) && Reachable(n, nc, t)
  {
    var acts :| Path(Initial(n), nc, acts, s);
    PathAppend(Initial(n), nc, acts, s, a);
    t := Do(s, nc, a);
  }

  /** Clients 0 and 1 as given, everybody else idle. */
  function Two(n: nat, c0: ClientPc, c1: ClientPc): seq<ClientPc>
    requires n >= 2
  {
    [c0, c1] + seq(n - 2, _ => Idle)
  }

  function One(n: nat, c0: ClientPc): seq<ClientPc>
    requires n >= 1
  {
    [c0] + seq(n - 1, _ => Idle)
  }

  lemma OneStarts(n: nat, nc: nat) returns (s: State)
    requires 1 <= nc <= n
    ensures Reachable(n, nc, s) && s == State(Free, true, 0, [Select], One(n, Idle), [Started])
  {
    s := Initial(n);
    assert Path(Initial(n), nc, [], s);
    s := ReachableStep(n, nc, s, BeginStart(0));
    s := ReachableStep(n, nc, s, LockClient(0));
    s := ReachableStep(n, nc, s, StartBody(0));
    assert s.clients == One(n, Idle);
  }

  /** Client 0 starts the spinner and gets as far as having signalled the goroutine to stop. */
  lemma FirstStopSignals(n: nat, nc: nat) returns (s: State)
    requires 1 <= nc <= n
    ensures Reachable(n, nc, s) && s == State(Free, true, 1, [Select], One(n, StopWait), [Started])
  {
    hide Reachable;
    s := OneStarts(n, nc);
    s := ReachableStep(n, nc, s, BeginStop(0));
    s := ReachableStep(n, nc, s, LockClient(0));
    s := ReachableStep(n, nc, s, StopCheck(0));
    s := ReachableStep(n, nc, s, Send(0));
    s := ReachableStep(n, nc, s, Unlock(0));
    assert s.clients == One(n, StopWait);
  }

  // ---------------------------------------------------------------- the signal to stop is not preferred

  function Frames(g: nat, k: nat): seq<Event> {
    if k == 0 then [] else Frames(g, k - 1) + [Frame(g)]
  }

  /** With one controller, a signalled goroutine at its select waits for the mutex at most as long as one call holds it. */
  lemma MutexComesFree(s: State, nc: nat, g: nat) returns (acts: seq<Action>, t: State)
    requires nc <= 1 && Inv(s, nc) && s.slot > 0 && GoAt(s, g, Select)
    ensures Path(s, nc, acts, t) && (forall a | a in acts :: a.Unlock? || a.UseBody?) && |acts| <= 1
    ensures t.mu.Free? && t.slot == s.slot && t.gos == s.gos && s.log <= t.log && forall g' :: Frame(g') !in t.log[|s.log|..]
  {
    acts, t := [], s;
    if s.mu.Held? {
      assert Live(s) == s.gos[g] == Select;
      assert s.mu.holder.Client?;
      var i := s.mu.holder.i;
      var a := if s.clients[i] == StopUnlock then Unlock(i) else UseBody(i);
      assert Enabled(s, nc, a);
      PathAppend(s, nc, acts, t, a);
      acts, t := acts + [a], Do(s, nc, a);
    }
  }

  /** Ticks of goroutine `g` alone, each taken while the signal is in the slot. */
  lemma {:induction false} FramesFromFree(s: State, nc: nat, g: nat, k: nat) returns (acts: seq<Action>, t: State)
    requires s.mu.Free? && GoAt(s, g, Select)
    ensures Path(s, nc, acts, t) && forall a | a in acts :: a in {TakeTick(g), LockGo(g), WriteFrame(g)}
    ensures t == s.(log := s.log + Frames(g, k))
  {
    acts, t := [], s;
    if k > 0 {
      hide Path;
      acts, t := FramesFromFree(s, nc, g, k - 1);
      var tick, lock, write := TakeTick(g), LockGo(g), WriteFrame(g);
      PathAppend(s, nc, acts, t, tick);
      var u := Do(t, nc, tick);
      PathAppend(s, nc, acts + [tick], u, lock);
      u := Do(u, nc, lock);
      PathAppend(s, nc, acts + [tick] + [lock], u, write);
      u := Do(u, nc, write);
      assert u.log == s.log + Frames(g, k - 1) + [Frame(g)] == s.log + Frames(g, k);
      assert u.gos == s.gos;
      acts, t := acts + [tick] + [lock] + [write], u;
    }
  }

  /**
   The select takes a tick and the signal alike: from every reachable state in which a signal is in the slot and a
   goroutine is at its select, any number of frames can be written without the signal being received, which can still
   be received after them.  With more controllers the mutex has to be free.
   */
  lemma FramesAfterSignal(n: nat, nc: nat, s: State, g: nat, k: nat) returns (acts: seq<Action>, t: State)
    requires Reachable(n, nc, s) && s.slot > 0 && GoAt(s, g, Select) && (nc <= 1 || s.mu.Free?)
    ensures Path(s, nc, acts, t) && forall a | a in acts :: !a.TakeStop?
    ensures exists waited :: t.log == s.log + waited + Frames(g, k) && forall g' :: Frame(g') !in waited
    ensures t.slot == s.slot && Enabled(t, nc, TakeStop(g))
  {
    hide Inv, Path, Reachable, Frames;
    var first, free := [], s;
    if s.mu.Held? {
      ReachableInv(n, nc, s);
      first, free := MutexComesFree(s, nc, g);
    }
    var rest;
    rest, t := FramesFromFree(free, nc, g, k);
    acts := first + rest;
    PathJoin(s, nc, first, free, rest, t);
    var waited := free.log[|s.log|..];
    assert s.log + waited == free.log;
  }

  // ---------------------------------------------------------------- two controllers can deadlock

  /**
   Client 1 holds the mutex and cannot send, for a signal is in the slot; the goroutines that could take it wait for
   the mutex; client 0 waits for them.
   */
  ghost predicate Deadlocked(s: State) {
    && s.mu == Held(Client(1)) && s.slot > 0
    && At(s, 0, StopWait) && At(s, 1, StopSend)
    && forall g | 0 <= g < |s.gos| :: WantsGo(s.gos[g]) || s.gos[g] == Exited
  }

  /** Nothing can happen but new calls, which never get the mutex. */
  lemma {:induction false} DeadlockStays(s: State, nc: nat, acts: seq<Action>, t: State)
    requires MutexInv(s) && Deadlocked(s) && Path(s, nc, acts, t)
    ensures Deadlocked(t) && t.log == s.log
    decreases |acts|
  {
    if acts != [] {
      DeadlockedStep(s, nc, acts[0]);
      DeadlockStays(Do(s, nc, acts[0]), nc, acts[1..], t);
    }
  }

  lemma DeadlockedStep(s: State, nc: nat, a: Action)
    requires MutexInv(s) && Deadlocked(s) && Enabled(s, nc, a)
    ensures MutexInv(Do(s, nc, a)) && Deadlocked(Do(s, nc, a)) && Do(s, nc, a).log == s.log
  {
    MutexStep(s, nc, a);
    assert a.BeginStart? || a.BeginStop? || a.BeginUse?;
  }

  lemma {:induction false} MutexPath(s: State, nc: nat, acts: seq<Action>, t: State)
    requires MutexInv(s) && Path(s, nc, acts, t)
    ensures MutexInv(t)
    decreases |acts|
  {
    if acts != [] {
      MutexStep(s, nc, acts[0]);
      MutexPath(Do(s, nc, acts[0]), nc, acts[1..], t);
    }
  }

  /**
   Two Stops while the goroutine is on its way to a frame: client 0 has signalled and waits, client 1 has taken the
   mutex, found the spinner running and is about to signal too.
   */
  lemma SecondStopMeetsTick(n: nat, nc: nat) returns (s: State)
    requires 2 <= nc <= n
    ensures Reachable(n, nc, s) && Deadlocked(s)
    ensures s == State(Held(Client(1)), true, 1, [TickLock], Two(n, StopWait, StopSend), [Started])
  {
    hide Reachable;
    s := FirstStopSignals(n, nc);
    s := ReachableStep(n, nc, s, TakeTick(0));
    s := ReachableStep(n, nc, s, BeginStop(1));
    s := ReachableStep(n, nc, s, LockClient(1));
    s := ReachableStep(n, nc, s, StopCheck(1));
    assert s.clients == Two(n, StopWait, StopSend);
  }

  /** Then neither of them ever returns, and no call made later does either. */
  lemma TwoStopsDeadlock(n: nat, nc: nat) returns (s: State)
    requires 2 <= nc <= n
    ensures Reachable(n, nc, s) && NeverReturns(s, nc, 0) && NeverReturns(s, nc, 1)
    ensures forall acts, t | Path(s, nc, acts, t) :: t.log == s.log
  {
    s := SecondStopMeetsTick(n, nc);
    var start :| Path(Initial(n), nc, start, s);
    MutexPath(Initial(n), nc, start, s);
    forall acts, t | Path(s, nc, acts, t) ensures Deadlocked(t) && t.log == s.log {
      DeadlockStays(s, nc, acts, t);
    }
  }

  /** Every call can still return, in every reachable state, exactly when at most one client calls Start and Stop. */
  lemma CallsCanReturnIffOneController(n: nat, nc: nat)
    requires nc <= n
    ensures (forall s, i: nat | Reachable(n, nc, s) :: !NeverReturns(s, nc, i)) <==> nc <= 1
  {
    if nc <= 1 {
      forall s, i: nat | Reachable(n, nc, s) ensures !NeverReturns(s, nc, i) {
        ReachableInv(n, nc, s);
        var acts, t := CallsReturn(s, nc);
        assert Path(s, nc, acts, t);
        assert i < |t.clients| ==> t.clients[i] == Idle;
      }
    } else {
      var s := TwoStopsDeadlock(n, nc);
    }
  }

  // ---------------------------------------------------------------- a Stop that only a later Start releases

  /** Client `i` waits for an answer, no goroutine is left to give it, and nobody is starting one. */
  ghost predicate Unanswered(s: State, i: nat) {
    && At(s, i, StopWait)
    && (forall g | 0 <= g < |s.gos| :: s.gos[g] == Exited)
    && (forall j | 0 <= j < |s.clients| :: s.clients[j] != StartLock && s.clients[j] != StartIn)
  }

  /** It goes on waiting on every path without a new Start. */
  lemma {:induction false} UnansweredStays(s: State, nc: nat, i: nat, acts: seq<Action>, t: State)
    requires Unanswered(s, i) && Path(s, nc, acts, t) && forall a | a in acts :: !a.BeginStart?
    ensures Unanswered(t, i)
    decreases |acts|
  {
    if acts != [] {
      assert acts[0] in acts;
      UnansweredStays(Do(s, nc, acts[0]), nc, i, acts[1..], t);
    }
  }

  /** Client 1 sees the spinner still running, and signals a goroutine that has already been told. */
  lemma SecondStopSignals(n: nat, nc: nat) returns (s: State)
    requires 2 <= nc <= n
    ensures Reachable(n, nc, s) && s == State(Free, true, 1, [HaltLock], Two(n, StopWait, StopWait), [Started])
  {
    hide Reachable;
    s := FirstStopSignals(n, nc);
    s := ReachableStep(n, nc, s, BeginStop(1));
    s := ReachableStep(n, nc, s, LockClient(1));
    s := ReachableStep(n, nc, s, StopCheck(1));
    s := ReachableStep(n, nc, s, TakeStop(0));
    s := ReachableStep(n, nc, s, Send(1));
    s := ReachableStep(n, nc, s, Unlock(1));
    assert s.clients == Two(n, StopWait, StopWait);
  }

  /** The goroutine answers client 0 and goes; the signal of client 1 is left in the slot. */
  lemma SecondStopIsUnanswered(n: nat, nc: nat) returns (s: State)
    requires 2 <= nc <= n
    ensures Reachable(n, nc, s) && Unanswered(s, 1)
    ensures s == State(Free, false, 1, [Exited], Two(n, Idle, StopWait), [Started, StopReturned(0)])
  {
    hide Reachable;
    s := SecondStopSignals(n, nc);
    s := ReachableStep(n, nc, s, LockGo(0));
    s := ReachableStep(n, nc, s, MarkStopped(0));
    s := ReachableStep(n, nc, s, Rendezvous(0, 0));
    s := ReachableStep(n, nc, s, Exit(0));
    assert s.clients == Two(n, Idle, StopWait);
  }

  /** A later Start can release it: the new goroutine takes the old signal, and stops at once. */
  lemma LaterStartReleases(n: nat, nc: nat) returns (s: State)
    requires 2 <= nc <= n
    ensures Reachable(n, nc, s) && !Busy(s) && !s.running
    ensures s.log == [Started, StopReturned(0), Started, StopReturned(1)]
  {
    hide Reachable;
    s := SecondStopIsUnanswered(n, nc);
    s := ReachableStep(n, nc, s, BeginStart(0));
    s := ReachableStep(n, nc, s, LockClient(0));
    s := ReachableStep(n, nc, s, StartBody(0));
    s := ReleasedByStart(n, nc, s);
  }

  lemma ReleasedByStart(n: nat, nc: nat, before: State) returns (s: State)
    requires 2 <= nc <= n && Reachable(n, nc, before)
    requires before == State(Free, true, 1, [Exited, Select], Two(n, Idle, StopWait), [Started, StopReturned(0), Started])
    ensures Reachable(n, nc, s)
    ensures s == State(Free, false, 0, [Exited, Exited], Two(n, Idle, Idle), [Started, StopReturned(0), Started, StopReturned(1)])
  {
    hide Reachable;
    s := before;
    s := ReachableStep(n, nc, s, TakeStop(1));
    s := ReachableStep(n, nc, s, LockGo(1));
    s := ReachableStep(n, nc, s, MarkStopped(1));
    s := ReachableStep(n, nc, s, Rendezvous(1, 1));
    s := ReachableStep(n, nc, s, Exit(1));
    assert s.clients == Two(n, Idle, Idle);
  }
}
