/** The shutdown discipline: the request flag, the lifecycle gate, the roster
    commit lock and the peer table, over every interleaving of emitters, roster
    writers, peer insertions, task spawners, removals and shutdown callers. */
module ShutdownGate {
  import opened Bytes

  /** `emit_gated_on`. `commit` says that the caller is inside a roster commit and
      so holds the commit lock. */
  datatype EmitPc = Want(commit: bool) | HasRequest(commit: bool) | Decided(commit: bool, live: bool)

  /** A roster write, whichever operation makes it. */
  datatype WritePc = Want | HasCommit | SawNoRequest | Passed | Leaving

  /** `insert_peer`. `rejected` are attached tasks the registry handed back. */
  datatype InsertPc =
    | Want(peer: nat, conn: nat)
    | HasPeers(peer: nat, conn: nat)
    | HasRequest(peer: nat, conn: nat)
    | HasGate(peer: nat, conn: nat)
    | Stored
    | Spawning(left: nat, rejected: set<nat>)

  /** A task spawned elsewhere, held until it is registered or aborted. */
  datatype SpawnPc = Holding(task: nat) | Rejected(tasks: set<nat>)

  /** `shutdown` and `shutdown_drain`. */
  datatype StopPc = Want | Drain | HasCommit | Sweep | CloseRegistry | Reaping(tasks: set<nat>)

  datatype Pc =
    | Emit(emit: EmitPc)
    | Write(write: WritePc)
    | Insert(insert: InsertPc)
    | Spawn(spawn: SpawnPc)
    | Stop(stop: StopPc)
    | Done

  datatype State = State(
    threads: map<nat, Pc>,
    requestLock: Option<nat>,
    gateLock: Option<nat>,
    commitLock: Option<nat>,
    peersLock: Option<nat>,
    requested: bool,              // `shutdown_started`
    gate: bool,                   // `lifecycle_gate`
    swept: bool,
    events: nat,                  // events sent
    writes: nat,                  // roster writes made
    inserts: nat,                 // peer table insertions made
    peers: map<nat, nat>,
    closed: set<nat>,             // connections closed
    registryClosing: bool,
    registry: set<nat>,
    nextTask: nat,                // tasks spawned so far are those below
    reaped: set<nat>)             // aborted or joined

  datatype Action =
    | Start(thread: nat, pc: Pc)
    | Advance(thread: nat, emit: bool)
    | Remove(peer: nat)

  function Init(): State {
    State(map[], None, None, None, None, false, false, false, 0, 0, 0, map[], {}, false, {}, 0, {})
  }

  // ---- Locks ------------------------------------------------------------------------

  predicate HoldsRequest(pc: Pc) {
    match pc
    case Emit(e) => !e.Want?
    case Insert(i) => !i.Want? && !i.HasPeers?
    case _ => false
  }

  predicate HoldsGate(pc: Pc) {
    pc.Insert? && (pc.insert.HasGate? || pc.insert.Stored? || pc.insert.Spawning?)
  }

  predicate HoldsPeers(pc: Pc) {
    pc.Insert? && !pc.insert.Want?
  }

  predicate HoldsCommit(pc: Pc) {
    match pc
    case Emit(e) => e.commit
    case Write(w) => !w.Want?
    case Stop(p) => p.HasCommit?
    case _ => false
  }

  predicate Free(lock: Option<nat>, had: bool, has: bool) {
    has && !had ==> lock.None?
  }

  function Relock(lock: Option<nat>, t: nat, had: bool, has: bool): Option<nat> {
    if has then Some(t) else if had then None else lock
  }

  predicate CanMove(s: State, from: Pc, to: Pc) {
    && Free(s.requestLock, HoldsRequest(from), HoldsRequest(to))
    && Free(s.gateLock, HoldsGate(from), HoldsGate(to))
    && Free(s.peersLock, HoldsPeers(from), HoldsPeers(to))
    && Free(s.commitLock, HoldsCommit(from), HoldsCommit(to))
  }

  /** Moves a thread on, taking and releasing what the two points differ in. */
  function Move(s: State, t: nat, from: Pc, to: Pc): State {
    s.(threads := s.threads[t := to],
       requestLock := Relock(s.requestLock, t, HoldsRequest(from), HoldsRequest(to)),
       gateLock := Relock(s.gateLock, t, HoldsGate(from), HoldsGate(to)),
       peersLock := Relock(s.peersLock, t, HoldsPeers(from), HoldsPeers(to)),
       commitLock := Relock(s.commitLock, t, HoldsCommit(from), HoldsCommit(to)))
  }

  function Try(s: State, t: nat, from: Pc, to: Pc): Option<State> {
    if CanMove(s, from, to) then Some(Move(s, t, from, to)) else None
  }

  // ---- Steps ----------------------------------------------------------------------------

  predicate Entry(pc: Pc) {
    match pc
    case Emit(e) => e == EmitPc.Want(false)
    case Write(w) => w.Want?
    case Insert(i) => i.Want?
    case Spawn(_) => false
    case Stop(p) => p.Want?
    case Done => true
  }

  /** The request lock is held from the check to the send. */
  function EmitNext(s: State, t: nat, e: EmitPc): Option<State> {
    var pc := Emit(e);
    var out := if e.commit then Write(Leaving) else Done;
    match e
    case Want(c) => Try(s, t, pc, Emit(EmitPc.HasRequest(c)))
    case HasRequest(c) =>
      if s.requested then Some(Move(s, t, pc, out))
      else if s.gateLock.Some? then None
      else Some(Move(s, t, pc, Emit(Decided(c, !s.gate))))
    case Decided(_, live) =>
      Some(Move(s, t, pc, out).(events := if live then s.events + 1 else s.events))
  }

  /** Request and gate are read one after the other under the commit lock, which is
      kept until after the write and its event. */
  function WriteNext(s: State, t: nat, w: WritePc, emit: bool): Option<State> {
    var pc := Write(w);
    match w
    case Want => Try(s, t, pc, Write(WritePc.HasCommit))
    case HasCommit =>
      if s.requestLock.Some? then None
      else Some(Move(s, t, pc, Write(if s.requested then Leaving else SawNoRequest)))
    case SawNoRequest =>
      if s.gateLock.Some? then None
      else Some(Move(s, t, pc, Write(if s.gate then Leaving else Passed)))
    case Passed =>
      Some(Move(s, t, pc, if emit then Emit(EmitPc.Want(true)) else Write(Leaving)).(writes := s.writes + 1))
    case Leaving => Some(Move(s, t, pc, Done))
  }

  /** Peers, then request, then gate, all held over the insertion, its event and the
      spawning of the three attached tasks. */
  function InsertNext(s: State, t: nat, i: InsertPc): Option<State> {
    var pc := Insert(i);
    match i
    case Want(p, c) => Try(s, t, pc, Insert(HasPeers(p, c)))
    case HasPeers(p, c) => Try(s, t, pc, Insert(InsertPc.HasRequest(p, c)))
    case HasRequest(p, c) => Try(s, t, pc, Insert(HasGate(p, c)))
    case HasGate(p, c) =>
      if s.requested || s.gate then Some(Move(s, t, pc, Done).(closed := s.closed + {c}))
      else Some(Move(s, t, pc, Insert(Stored)).(peers := s.peers[p := c], inserts := s.inserts + 1))
    case Stored => Some(Move(s, t, pc, Insert(Spawning(3, {}))).(events := s.events + 1))
    case Spawning(left, rejected) =>
      if left == 0 then Some(Move(s, t, pc, Spawn(Rejected(rejected))))
      else if s.registryClosing then
        Some(Move(s, t, pc, Insert(Spawning(left - 1, rejected + {s.nextTask}))).(nextTask := s.nextTask + 1))
      else
        Some(Move(s, t, pc, Insert(Spawning(left - 1, rejected))).(
             nextTask := s.nextTask + 1, registry := s.registry + {s.nextTask}))
  }

  /** A spawned task is registered, or handed back and aborted. */
  function SpawnNext(s: State, t: nat, p: SpawnPc): Option<State> {
    match p
    case Holding(task) =>
      if s.registryClosing then Some(Move(s, t, Spawn(p), Spawn(Rejected({task}))))
      else Some(Move(s, t, Spawn(p), Done).(registry := s.registry + {task}))
    case Rejected(tasks) => Some(Move(s, t, Spawn(p), Done).(reaped := s.reaped + tasks))
  }

  /** Only the first caller drains: it takes the commit lock to set the gate, sweeps
      the peer table, closes the registry and reaps what was in it. */
  function StopNext(s: State, t: nat, p: StopPc): Option<State> {
    var pc := Stop(p);
    match p
    case Want =>
      if s.requestLock.Some? then None
      else if s.requested then Some(Move(s, t, pc, Done))
      else Some(Move(s, t, pc, Stop(Drain)).(requested := true))
    case Drain => Try(s, t, pc, Stop(StopPc.HasCommit))
    case HasCommit =>
      if s.gateLock.Some? then None else Some(Move(s, t, pc, Stop(Sweep)).(gate := true))
    case Sweep =>
      if s.peersLock.Some? then None
      else Some(Move(s, t, pc, Stop(CloseRegistry)).(closed := s.closed + s.peers.Values, swept := true))
    case CloseRegistry => Some(Move(s, t, pc, Stop(Reaping(s.registry))).(registryClosing := true, registry := {}))
    case Reaping(tasks) => Some(Move(s, t, pc, Done).(reaped := s.reaped + tasks))
  }

  function ThreadNext(s: State, t: nat, emit: bool): Option<State>
    requires t in s.threads
  {
    match s.threads[t]
    case Emit(e) => EmitNext(s, t, e)
    case Write(w) => WriteNext(s, t, w, emit)
    case Insert(i) => InsertNext(s, t, i)
    case Spawn(p) => SpawnNext(s, t, p)
    case Stop(p) => StopNext(s, t, p)
    case Done => None
  }

  /** A thread starts: at the entry of an operation, or holding a task it has just
      spawned. */
  function StartNext(s: State, t: nat, pc: Pc): Option<State> {
    if t in s.threads then None
    else if Entry(pc) then Some(s.(threads := s.threads[t := pc]))
    else if pc == Spawn(Holding(s.nextTask)) then Some(s.(threads := s.threads[t := pc], nextTask := s.nextTask + 1))
    else None
  }

  /** A peer is removed: it was revoked, disconnected, or its connection ended. */
  function RemoveNext(s: State, p: nat): Option<State> {
    if s.peersLock.Some? || p !in s.peers then None
    else Some(s.(peers := s.peers - {p}, closed := s.closed + {s.peers[p]}))
  }

  function Next(s: State, a: Action): Option<State> {
    match a
    case Start(t, pc) => StartNext(s, t, pc)
    case Advance(t, emit) => if t in s.threads then ThreadNext(s, t, emit) else None
    case Remove(p) => RemoveNext(s, p)
  }

  function Exec(s: State, run: seq<Action>): Option<State>
    decreases |run|
  {
    if run == [] then Some(s)
    else match Next(s, run[0]) case None => None case Some(s1) => Exec(s1, run[1..])
  }

  // ---- The invariant -------------------------------------------------------------------------

  /** Each lock is held by the one thread whose position says so. */
  ghost predicate LockInv(s: State) {
    && (forall t :: t in s.threads ==> (HoldsRequest(s.threads[t]) <==> s.requestLock == Some(t)))
    && (forall t :: t in s.threads ==> (HoldsGate(s.threads[t]) <==> s.gateLock == Some(t)))
    && (forall t :: t in s.threads ==> (HoldsPeers(s.threads[t]) <==> s.peersLock == Some(t)))
    && (forall t :: t in s.threads ==> (HoldsCommit(s.threads[t]) <==> s.commitLock == Some(t)))
    && (s.requestLock.Some? ==> s.requestLock.value in s.threads)
    && (s.gateLock.Some? ==> s.gateLock.value in s.threads)
    && (s.peersLock.Some? ==> s.peersLock.value in s.threads)
    && (s.commitLock.Some? ==> s.commitLock.value in s.threads)
  }

  /** What a thread's position says about the flags. */
  predicate PcOk(requested: bool, gate: bool, registryClosing: bool, pc: Pc) {
    match pc
    case Emit(e) => e.Decided? && e.live ==> !requested
    case Write(w) => w.SawNoRequest? || w.Passed? ==> !gate
    case Insert(i) => i.Stored? ==> !requested
    case Spawn(_) => true
    case Stop(p) =>
      && (p.Want? || requested)
      && (p.Sweep? || p.CloseRegistry? || p.Reaping? ==> gate)
      && (p.Reaping? ==> registryClosing)
    case Done => true
  }

  ghost predicate ThreadsOk(s: State) {
    forall t :: t in s.threads ==> PcOk(s.requested, s.gate, s.registryClosing, s.threads[t])
  }

  ghost predicate FlagInv(s: State) {
    && ThreadsOk(s)
    && (s.gate ==> s.requested)
    && (s.swept ==> s.requested && forall p :: p in s.peers ==> s.peers[p] in s.closed)
    && (s.registryClosing ==> s.registry == {})
  }

  /** The tasks a thread has in its hands, to register, abort or join. */
  function InHand(pc: Pc): set<nat> {
    match pc
    case Spawn(Holding(task)) => {task}
    case Spawn(Rejected(tasks)) => tasks
    case Insert(Spawning(_, rejected)) => rejected
    case Stop(Reaping(tasks)) => tasks
    case _ => {}
  }

  ghost predicate Held(s: State, k: nat) {
    exists t :: t in s.threads && k in InHand(s.threads[t])
  }

  ghost predicate Tracked(s: State, k: nat) {
    k in s.registry || k in s.reaped || Held(s, k)
  }

  /** Every task spawned is registered, reaped or in somebody's hands. */
  ghost predicate TaskInv(s: State) {
    forall k: nat :: k < s.nextTask ==> Tracked(s, k)
  }

  ghost predicate Inv(s: State) {
    LockInv(s) && FlagInv(s) && TaskInv(s)
  }

  // ---- Every step keeps the locks in order ---------------------------------------------------

  function LocksOf(s: State): (map<nat, Pc>, Option<nat>, Option<nat>, Option<nat>, Option<nat>) {
    (s.threads, s.requestLock, s.gateLock, s.peersLock, s.commitLock)
  }

  /** The thread that moved went from one point to another, with the locks to match. */
  ghost predicate Moved(s: State, t: nat, s': State)
    requires t in s.threads
  {
    && t in s'.threads
    && CanMove(s, s.threads[t], s'.threads[t])
    && LocksOf(s') == LocksOf(Move(s, t, s.threads[t], s'.threads[t]))
  }

  lemma MoveKeepsLocks(s: State, t: nat, to: Pc)
    requires LockInv(s) && t in s.threads && CanMove(s, s.threads[t], to)
    ensures LockInv(Move(s, t, s.threads[t], to))
  {
    hide HoldsRequest, HoldsGate, HoldsPeers, HoldsCommit;
  }

  lemma MovedKeepsLocks(s: State, t: nat, s': State)
    requires LockInv(s) && t in s.threads && Moved(s, t, s')
    ensures LockInv(s')
  {
    hide HoldsRequest, HoldsGate, HoldsPeers, HoldsCommit, CanMove, Relock, Free;
    MoveKeepsLocks(s, t, s'.threads[t]);
  }

  lemma EmitMoves(s: State, t: nat, e: EmitPc)
    requires t in s.threads && s.threads[t] == Emit(e) && EmitNext(s, t, e).Some?
    ensures Moved(s, t, EmitNext(s, t, e).value)
  {
  }

  lemma WriteMoves(s: State, t: nat, w: WritePc, emit: bool)
    requires t in s.threads && s.threads[t] == Write(w) && WriteNext(s, t, w, emit).Some?
    ensures Moved(s, t, WriteNext(s, t, w, emit).value)
  {
  }

  lemma InsertMoves(s: State, t: nat, i: InsertPc)
    requires t in s.threads && s.threads[t] == Insert(i) && InsertNext(s, t, i).Some?
    ensures Moved(s, t, InsertNext(s, t, i).value)
  {
  }

  lemma SpawnMoves(s: State, t: nat, p: SpawnPc)
    requires t in s.threads && s.threads[t] == Spawn(p) && SpawnNext(s, t, p).Some?
    ensures Moved(s, t, SpawnNext(s, t, p).value)
  {
  }

  lemma StopMoves(s: State, t: nat, p: StopPc)
    requires t in s.threads && s.threads[t] == Stop(p) && StopNext(s, t, p).Some?
    ensures Moved(s, t, StopNext(s, t, p).value)
  {
  }

  // ---- ... and the flags ---------------------------------------------------------------------

  /** What no later step takes back. */
  predicate Frozen(s: State, s': State) {
    && (s.requested ==> s'.requested && s'.events == s.events && s'.inserts == s.inserts)
    && (s.gate ==> s'.gate && s'.writes == s.writes)
    && (s.swept ==> s'.swept)
    && (s.registryClosing ==> s'.registryClosing)
    && s.closed <= s'.closed && s.reaped <= s'.reaped && s.nextTask <= s'.nextTask
  }

  predicate SameFlags(s: State, s': State) {
    s'.requested == s.requested && s'.gate == s.gate && s'.registryClosing == s.registryClosing && s'.swept == s.swept
  }

  lemma OneThreadOk(s: State, t: nat, s': State)
    requires ThreadsOk(s) && SameFlags(s, s') && t in s'.threads && s'.threads == s.threads[t := s'.threads[t]]
    requires PcOk(s.requested, s.gate, s.registryClosing, s'.threads[t])
    ensures ThreadsOk(s')
  {
    hide PcOk;
  }

  lemma EmitKeepsFlags(s: State, t: nat, e: EmitPc)
    requires LockInv(s) && FlagInv(s) && t in s.threads && s.threads[t] == Emit(e) && EmitNext(s, t, e).Some?
    ensures FlagInv(EmitNext(s, t, e).value)
    ensures Frozen(s, EmitNext(s, t, e).value)
  {
    hide LockInv, HoldsRequest, HoldsGate, HoldsPeers, HoldsCommit, CanMove, Relock;
    assert PcOk(s.requested, s.gate, s.registryClosing, s.threads[t]);
    OneThreadOk(s, t, EmitNext(s, t, e).value);
  }

  lemma WriteKeepsFlags(s: State, t: nat, w: WritePc, emit: bool)
    requires FlagInv(s) && t in s.threads && s.threads[t] == Write(w) && WriteNext(s, t, w, emit).Some?
    ensures FlagInv(WriteNext(s, t, w, emit).value)
    ensures Frozen(s, WriteNext(s, t, w, emit).value)
  {
    hide HoldsRequest, HoldsGate, HoldsPeers, HoldsCommit, CanMove, Relock;
    assert PcOk(s.requested, s.gate, s.registryClosing, s.threads[t]);
    OneThreadOk(s, t, WriteNext(s, t, w, emit).value);
  }

  lemma InsertKeepsFlags(s: State, t: nat, i: InsertPc)
    requires FlagInv(s) && t in s.threads && s.threads[t] == Insert(i) && InsertNext(s, t, i).Some?
    ensures FlagInv(InsertNext(s, t, i).value)
    ensures Frozen(s, InsertNext(s, t, i).value)
  {
    hide HoldsRequest, HoldsGate, HoldsPeers, HoldsCommit, CanMove, Relock;
    assert PcOk(s.requested, s.gate, s.registryClosing, s.threads[t]);
    OneThreadOk(s, t, InsertNext(s, t, i).value);
  }

  lemma SpawnKeepsFlags(s: State, t: nat, p: SpawnPc)
    requires FlagInv(s) && t in s.threads && s.threads[t] == Spawn(p) && SpawnNext(s, t, p).Some?
    ensures FlagInv(SpawnNext(s, t, p).value)
    ensures Frozen(s, SpawnNext(s, t, p).value)
  {
    hide HoldsRequest, HoldsGate, HoldsPeers, HoldsCommit, CanMove, Relock;
    OneThreadOk(s, t, SpawnNext(s, t, p).value);
  }

  /** The request is granted only when nobody is between a check and a send, or between
      the insertion's check and its event. */
  lemma RequestIsSafe(s: State, u: nat)
    requires LockInv(s) && ThreadsOk(s) && s.requestLock.None? && u in s.threads
    ensures PcOk(true, s.gate, s.registryClosing, s.threads[u])
  {
    hide HoldsGate, HoldsPeers, HoldsCommit;
    assert !HoldsRequest(s.threads[u]);
  }

  /** The gate is closed only when no writer is between its check and its write. */
  lemma GateIsSafe(s: State, t: nat, u: nat)
    requires LockInv(s) && ThreadsOk(s) && t in s.threads && s.threads[t] == Stop(StopPc.HasCommit)
    requires u in s.threads && u != t
    ensures PcOk(s.requested, true, s.registryClosing, s.threads[u])
  {
    hide HoldsGate, HoldsPeers, HoldsRequest;
    assert HoldsCommit(s.threads[t]) && !HoldsCommit(s.threads[u]);
  }

  lemma StopKeepsThreads(s: State, t: nat, p: StopPc)
    requires LockInv(s) && FlagInv(s) && t in s.threads && s.threads[t] == Stop(p) && StopNext(s, t, p).Some?
    ensures ThreadsOk(StopNext(s, t, p).value)
  {
    hide LockInv, HoldsRequest, HoldsGate, HoldsPeers, HoldsCommit, CanMove, Relock;
    var s' := StopNext(s, t, p).value;
    assert PcOk(s.requested, s.gate, s.registryClosing, s.threads[t]);
    forall u | u in s'.threads
      ensures PcOk(s'.requested, s'.gate, s'.registryClosing, s'.threads[u])
    {
      if u != t {
        assert PcOk(s.requested, s.gate, s.registryClosing, s.threads[u]);
        if p.Want? && s.requestLock.None? {
          RequestIsSafe(s, u);
        } else if p.HasCommit? {
          GateIsSafe(s, t, u);
        }
      }
    }
  }

  lemma StopKeepsFlags(s: State, t: nat, p: StopPc)
    requires LockInv(s) && FlagInv(s) && t in s.threads && s.threads[t] == Stop(p) && StopNext(s, t, p).Some?
    ensures FlagInv(StopNext(s, t, p).value)
    ensures Frozen(s, StopNext(s, t, p).value)
  {
    StopKeepsThreads(s, t, p);
    hide LockInv, HoldsRequest, HoldsGate, HoldsPeers, HoldsCommit, CanMove, Relock, ThreadsOk;
    assert PcOk(s.requested, s.gate, s.registryClosing, s.threads[t]) by { assert ThreadsOk(s); OneOk(s, t); }
  }

  lemma OneOk(s: State, t: nat)
    requires ThreadsOk(s) && t in s.threads
    ensures PcOk(s.requested, s.gate, s.registryClosing, s.threads[t])
  {
  }

  // ---- ... and the tasks ---------------------------------------------------------------------

  /** What a step does to the tasks: the new one and those the thread held are still
      tracked, and the registry and the reaped set lose nothing that it does not hold. */
  ghost predicate TasksMoved(s: State, t: nat, s': State)
    requires t in s.threads
  {
    && t in s'.threads && s'.threads == s.threads[t := s'.threads[t]]
    && (forall k: nat :: k < s'.nextTask && k >= s.nextTask ==> k in s'.registry || k in InHand(s'.threads[t]))
    && (forall k :: k in s.registry ==> k in s'.registry || k in InHand(s'.threads[t]))
    && (forall k :: k in InHand(s.threads[t]) ==> k in s'.registry || k in s'.reaped || k in InHand(s'.threads[t]))
    && s.reaped <= s'.reaped
  }

  lemma TasksMovedKeeps(s: State, t: nat, s': State)
    requires TaskInv(s) && t in s.threads && TasksMoved(s, t, s')
    ensures TaskInv(s')
  {
    hide InHand;
    forall k: nat | k < s'.nextTask
      ensures Tracked(s', k)
    {
      if k < s.nextTask && k !in s.registry && k !in s.reaped {
        assert Tracked(s, k);
        var u :| u in s.threads && k in InHand(s.threads[u]);
        assert u in s'.threads;
        assert u != t ==> k in InHand(s'.threads[u]);
      } else if k < s.nextTask {
        assert Tracked(s, k);
        assert k in InHand(s'.threads[t]) ==> Held(s', k);
      }
    }
  }

  lemma InsertMovesTasks(s: State, t: nat, i: InsertPc)
    requires t in s.threads && s.threads[t] == Insert(i) && InsertNext(s, t, i).Some?
    ensures TasksMoved(s, t, InsertNext(s, t, i).value)
  {
    hide HoldsRequest, HoldsGate, HoldsPeers, HoldsCommit, CanMove, Relock;
  }

  lemma SpawnMovesTasks(s: State, t: nat, p: SpawnPc)
    requires t in s.threads && s.threads[t] == Spawn(p) && SpawnNext(s, t, p).Some?
    ensures TasksMoved(s, t, SpawnNext(s, t, p).value)
  {
    hide HoldsRequest, HoldsGate, HoldsPeers, HoldsCommit, CanMove, Relock;
  }

  lemma StopMovesTasks(s: State, t: nat, p: StopPc)
    requires t in s.threads && s.threads[t] == Stop(p) && StopNext(s, t, p).Some?
    ensures TasksMoved(s, t, StopNext(s, t, p).value)
  {
    hide HoldsRequest, HoldsGate, HoldsPeers, HoldsCommit, CanMove, Relock;
  }

  lemma EmitMovesTasks(s: State, t: nat, e: EmitPc)
    requires t in s.threads && s.threads[t] == Emit(e) && EmitNext(s, t, e).Some?
    ensures TasksMoved(s, t, EmitNext(s, t, e).value)
  {
    hide HoldsRequest, HoldsGate, HoldsPeers, HoldsCommit, CanMove, Relock;
  }

  lemma WriteMovesTasks(s: State, t: nat, w: WritePc, emit: bool)
    requires t in s.threads && s.threads[t] == Write(w) && WriteNext(s, t, w, emit).Some?
    ensures TasksMoved(s, t, WriteNext(s, t, w, emit).value)
  {
    hide HoldsRequest, HoldsGate, HoldsPeers, HoldsCommit, CanMove, Relock;
  }

  // ---- ... and writes only from behind its checks ----------------------------------------------

  /** A writer past the request check and not yet through with the write. */
  predicate Committed(pc: Pc) {
    pc == Write(SawNoRequest) || pc == Write(Passed)
  }

  /** One thread moved; it wrote if it had passed both checks, it passed no check after
      the request, and it made no request while the request lock was taken. */
  ghost predicate Effects(s: State, t: nat, s': State)
    requires t in s.threads
  {
    && t in s'.threads && s'.threads == s.threads[t := s'.threads[t]]
    && s'.writes == s.writes + (if s.threads[t] == Write(Passed) then 1 else 0)
    && (s.requested && Committed(s'.threads[t]) ==> s.threads[t] == Write(SawNoRequest))
    && (s.requestLock.Some? ==> s'.requested == s.requested)
  }

  lemma EmitEffects(s: State, t: nat, e: EmitPc)
    requires t in s.threads && s.threads[t] == Emit(e) && EmitNext(s, t, e).Some?
    ensures Effects(s, t, EmitNext(s, t, e).value)
  {
    hide HoldsRequest, HoldsGate, HoldsPeers, HoldsCommit, CanMove, Relock;
  }

  lemma WriteEffects(s: State, t: nat, w: WritePc, emit: bool)
    requires t in s.threads && s.threads[t] == Write(w) && WriteNext(s, t, w, emit).Some?
    ensures Effects(s, t, WriteNext(s, t, w, emit).value)
  {
    hide HoldsRequest, HoldsGate, HoldsPeers, HoldsCommit, CanMove, Relock;
  }

  lemma InsertEffects(s: State, t: nat, i: InsertPc)
    requires t in s.threads && s.threads[t] == Insert(i) && InsertNext(s, t, i).Some?
    ensures Effects(s, t, InsertNext(s, t, i).value)
  {
    hide HoldsRequest, HoldsGate, HoldsPeers, HoldsCommit, CanMove, Relock;
  }

  lemma SpawnEffects(s: State, t: nat, p: SpawnPc)
    requires t in s.threads && s.threads[t] == Spawn(p) && SpawnNext(s, t, p).Some?
    ensures Effects(s, t, SpawnNext(s, t, p).value)
  {
    hide HoldsRequest, HoldsGate, HoldsPeers, HoldsCommit, CanMove, Relock;
  }

  lemma StopEffects(s: State, t: nat, p: StopPc)
    requires t in s.threads && s.threads[t] == Stop(p) && StopNext(s, t, p).Some?
    ensures Effects(s, t, StopNext(s, t, p).value)
  {
    hide HoldsRequest, HoldsGate, HoldsPeers, HoldsCommit, CanMove, Relock;
  }

  lemma ThreadEffects(s: State, t: nat, emit: bool)
    requires t in s.threads && ThreadNext(s, t, emit).Some?
    ensures Effects(s, t, ThreadNext(s, t, emit).value)
  {
    hide *;
    ThreadNextIs(s, t, emit);
    match s.threads[t]
    case Emit(e) => EmitEffects(s, t, e);
    case Write(w) => WriteEffects(s, t, w, emit);
    case Insert(i) => InsertEffects(s, t, i);
    case Spawn(p) => SpawnEffects(s, t, p);
    case Stop(p) => StopEffects(s, t, p);
    case Done =>
  }

  // ---- Whole steps ---------------------------------------------------------------------------

  lemma ThreadStep(s: State, t: nat, emit: bool)
    requires Inv(s) && t in s.threads && ThreadNext(s, t, emit).Some?
    ensures Inv(ThreadNext(s, t, emit).value) && Frozen(s, ThreadNext(s, t, emit).value)
  {
    hide *;
    var s' := ThreadNext(s, t, emit).value;
    assert LockInv(s) && FlagInv(s) && TaskInv(s) by { ReadInv(s); }
    ThreadNextIs(s, t, emit);
    match s.threads[t]
    case Emit(e) =>
      EmitMoves(s, t, e); EmitKeepsFlags(s, t, e); EmitMovesTasks(s, t, e);
      MovedKeepsLocks(s, t, s'); TasksMovedKeeps(s, t, s'); MakeInv(s');
    case Write(w) =>
      WriteMoves(s, t, w, emit); WriteKeepsFlags(s, t, w, emit); WriteMovesTasks(s, t, w, emit);
      MovedKeepsLocks(s, t, s'); TasksMovedKeeps(s, t, s'); MakeInv(s');
    case Insert(i) =>
      InsertMoves(s, t, i); InsertKeepsFlags(s, t, i); InsertMovesTasks(s, t, i);
      MovedKeepsLocks(s, t, s'); TasksMovedKeeps(s, t, s'); MakeInv(s');
    case Spawn(p) =>
      SpawnMoves(s, t, p); SpawnKeepsFlags(s, t, p); SpawnMovesTasks(s, t, p);
      MovedKeepsLocks(s, t, s'); TasksMovedKeeps(s, t, s'); MakeInv(s');
    case Stop(p) =>
      StopMoves(s, t, p); StopKeepsFlags(s, t, p); StopMovesTasks(s, t, p);
      MovedKeepsLocks(s, t, s'); TasksMovedKeeps(s, t, s'); MakeInv(s');
    case Done =>
  }

  lemma ReadInv(s: State)
    requires Inv(s)
    ensures LockInv(s) && FlagInv(s) && TaskInv(s)
  {
  }

  lemma MakeInv(s: State)
    requires LockInv(s) && FlagInv(s) && TaskInv(s)
    ensures Inv(s)
  {
  }

  lemma ThreadNextIs(s: State, t: nat, emit: bool)
    requires t in s.threads
    ensures s.threads[t].Emit? ==> ThreadNext(s, t, emit) == EmitNext(s, t, s.threads[t].emit)
    ensures s.threads[t].Write? ==> ThreadNext(s, t, emit) == WriteNext(s, t, s.threads[t].write, emit)
    ensures s.threads[t].Insert? ==> ThreadNext(s, t, emit) == InsertNext(s, t, s.threads[t].insert)
    ensures s.threads[t].Spawn? ==> ThreadNext(s, t, emit) == SpawnNext(s, t, s.threads[t].spawn)
    ensures s.threads[t].Stop? ==> ThreadNext(s, t, emit) == StopNext(s, t, s.threads[t].stop)
    ensures s.threads[t].Done? ==> ThreadNext(s, t, emit) == None
  {
    hide EmitNext, WriteNext, InsertNext, SpawnNext, StopNext;
  }

  lemma NewThreadKeepsLocks(s: State, t: nat, pc: Pc)
    requires LockInv(s) && t !in s.threads
    requires !HoldsRequest(pc) && !HoldsGate(pc) && !HoldsPeers(pc) && !HoldsCommit(pc)
    ensures LockInv(s.(threads := s.threads[t := pc]))
  {
    hide HoldsRequest, HoldsGate, HoldsPeers, HoldsCommit;
  }

  lemma SameLocks(s: State, s': State)
    requires LockInv(s) && LocksOf(s') == LocksOf(s)
    ensures LockInv(s')
  {
    hide HoldsRequest, HoldsGate, HoldsPeers, HoldsCommit;
  }

  lemma StartKeepsLocks(s: State, t: nat, pc: Pc)
    requires LockInv(s) && StartNext(s, t, pc).Some?
    ensures LockInv(StartNext(s, t, pc).value)
  {
    hide LockInv, HoldsRequest, HoldsGate, HoldsPeers, HoldsCommit, Entry, PcOk;
    EntryIsOk(pc, s.requested, s.gate, s.registryClosing);
    NewThreadKeepsLocks(s, t, pc);
    SameLocks(s.(threads := s.threads[t := pc]), StartNext(s, t, pc).value);
  }

  lemma StartKeepsFlags(s: State, t: nat, pc: Pc)
    requires FlagInv(s) && StartNext(s, t, pc).Some?
    ensures FlagInv(StartNext(s, t, pc).value) && Frozen(s, StartNext(s, t, pc).value)
  {
    hide PcOk, Entry, ThreadsOk;
    EntryIsOk(pc, s.requested, s.gate, s.registryClosing);
    OneThreadOk(s, t, StartNext(s, t, pc).value);
  }

  lemma EntryIsOk(pc: Pc, requested: bool, gate: bool, registryClosing: bool)
    requires Entry(pc) || (pc.Spawn? && pc.spawn.Holding?)
    ensures PcOk(requested, gate, registryClosing, pc)
    ensures !HoldsRequest(pc) && !HoldsGate(pc) && !HoldsPeers(pc) && !HoldsCommit(pc)
  {
  }

  lemma StartKeepsTasks(s: State, t: nat, pc: Pc)
    requires TaskInv(s) && StartNext(s, t, pc).Some?
    ensures TaskInv(StartNext(s, t, pc).value)
  {
    var s' := StartNext(s, t, pc).value;
    forall k: nat | k < s'.nextTask
      ensures Tracked(s', k)
    {
      if k < s.nextTask {
        assert Tracked(s, k);
        if k !in s.registry && k !in s.reaped {
          var u :| u in s.threads && k in InHand(s.threads[u]);
          assert u in s'.threads && k in InHand(s'.threads[u]);
        }
      } else {
        assert t in s'.threads && k in InHand(s'.threads[t]);
      }
    }
  }

  lemma RemoveKeeps(s: State, p: nat)
    requires Inv(s) && RemoveNext(s, p).Some?
    ensures Inv(RemoveNext(s, p).value) && Frozen(s, RemoveNext(s, p).value)
  {
    hide HoldsRequest, HoldsGate, HoldsPeers, HoldsCommit, PcOk, InHand;
    var s' := RemoveNext(s, p).value;
    forall k: nat | k < s'.nextTask
      ensures Tracked(s', k)
    {
      assert Tracked(s, k);
      if Held(s, k) {
        var u :| u in s.threads && k in InHand(s.threads[u]);
        assert u in s'.threads && k in InHand(s'.threads[u]);
      }
    }
  }

  /** Whatever step is taken, the invariant is kept and what is frozen stays so. */
  lemma StepKeeps(s: State, a: Action)
    requires Inv(s) && Next(s, a).Some?
    ensures Inv(Next(s, a).value) && Frozen(s, Next(s, a).value)
  {
    hide Inv, Frozen, LockInv, FlagInv, TaskInv, ThreadNext, StartNext, RemoveNext;
    match a
    case Start(t, pc) =>
      ReadInv(s);
      StartKeepsLocks(s, t, pc);
      StartKeepsFlags(s, t, pc);
      StartKeepsTasks(s, t, pc);
      MakeInv(StartNext(s, t, pc).value);
    case Advance(t, emit) =>
      ThreadStep(s, t, emit);
    case Remove(p) => RemoveKeeps(s, p);
  }

  // ---- Whole runs ----------------------------------------------------------------------------

  ghost predicate Reachable(s: State) {
    exists run: seq<Action> :: Exec(Init(), run) == Some(s)
  }

  lemma {:induction false} RunKeeps(s: State, run: seq<Action>)
    requires Inv(s) && Exec(s, run).Some?
    ensures Inv(Exec(s, run).value) && Frozen(s, Exec(s, run).value)
    decreases |run|
  {
    hide Inv, Next;
    if run != [] {
      var s1 := Next(s, run[0]).value;
      StepKeeps(s, run[0]);
      RunKeeps(s1, run[1..]);
    }
  }

  lemma ReachableInv(s: State)
    requires Reachable(s)
    ensures Inv(s)
  {
    hide Frozen, Exec;
    var run :| Exec(Init(), run) == Some(s);
    assert Inv(Init());
    RunKeeps(Init(), run);
  }

  /** Once shutdown has been requested no event is sent and no peer inserted, however
      the run goes on. */
  lemma NothingAfterRequest(s: State, run: seq<Action>)
    requires Reachable(s) && s.requested && Exec(s, run).Some?
    ensures Exec(s, run).value.requested
    ensures Exec(s, run).value.events == s.events
    ensures Exec(s, run).value.inserts == s.inserts
  {
    hide Inv, Exec;
    ReachableInv(s);
    RunKeeps(s, run);
  }

  /** Between an insertion and its event nobody can request the shutdown: both come before
      the request, or the insertion is refused. */
  lemma InsertionPrecedesRequest(s: State, t: nat)
    requires Reachable(s) && t in s.threads && s.threads[t] == Insert(Stored)
    ensures !s.requested && !s.gate
    ensures forall u, emit :: u in s.threads && u != t && Next(s, Advance(u, emit)).Some? ==>
              !Next(s, Advance(u, emit)).value.requested
    ensures Next(s, Advance(t, true)).Some? && Next(s, Advance(t, true)).value.events == s.events + 1
  {
    hide Exec, TaskInv;
    ReachableInv(s);
    assert PcOk(s.requested, s.gate, s.registryClosing, s.threads[t]);
    assert HoldsRequest(s.threads[t]);
    forall u, emit | u in s.threads && u != t && Next(s, Advance(u, emit)).Some?
      ensures !Next(s, Advance(u, emit)).value.requested
    {
      ThreadEffects(s, u, emit);
    }
  }

  /** Once the gate is closed the roster is never written again. */
  lemma NoWriteAfterGate(s: State, run: seq<Action>)
    requires Reachable(s) && s.gate && Exec(s, run).Some?
    ensures Exec(s, run).value.gate && Exec(s, run).value.requested
    ensures Exec(s, run).value.writes == s.writes
  {
    hide LockInv, TaskInv, Exec;
    ReachableInv(s);
    RunKeeps(s, run);
  }

  /** After the sweep every connection in the peer table is closed, then and for ever. */
  lemma SweptPeersAreClosed(s: State, run: seq<Action>, p: nat)
    requires Reachable(s) && s.swept && Exec(s, run).Some?
    requires p in Exec(s, run).value.peers
    ensures Exec(s, run).value.peers[p] in Exec(s, run).value.closed
  {
    hide LockInv, TaskInv, Exec;
    ReachableInv(s);
    RunKeeps(s, run);
  }

  /** When the registry has been closed and every thread has finished, every task ever
      spawned has been aborted or joined. */
  lemma NoTaskIsLeft(s: State, task: nat)
    requires Reachable(s) && s.registryClosing && task < s.nextTask
    requires forall t :: t in s.threads ==> s.threads[t].Done?
    ensures task in s.reaped
  {
    hide LockInv, Exec;
    ReachableInv(s);
    assert Tracked(s, task);
  }

  lemma {:induction false} ExecConcat(s: State, first: seq<Action>, second: seq<Action>)
    requires Exec(s, first).Some?
    ensures Exec(s, first + second) == Exec(Exec(s, first).value, second)
    decreases |first|
  {
    hide Next;
    if first == [] {
      assert first + second == second;
    } else {
      assert (first + second)[1..] == first[1..] + second;
      ExecConcat(Next(s, first[0]).value, first[1..], second);
    }
  }

  lemma ExecOne(s: State, a: Action)
    ensures Exec(s, [a]) == Next(s, a)
  {
    hide Next;
  }
}
