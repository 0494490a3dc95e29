/** What each operation does when it runs alone: before a shutdown it has its whole effect,
    after one it has none but to clean up, and the shutdown itself does all it is to do. */
module GateRuns {
  import opened Bytes
  import opened ShutdownGate

  predicate LocksFree(s: State) {
    s.requestLock == None && s.gateLock == None && s.commitLock == None && s.peersLock == None
  }

  /** Thread `t` stands at `pc`, with the locks that go with it, and no other has any. */
  function Here(s: State, t: nat, pc: Pc): State {
    s.(threads := s.threads[t := pc],
       requestLock := if HoldsRequest(pc) then Some(t) else None,
       gateLock := if HoldsGate(pc) then Some(t) else None,
       peersLock := if HoldsPeers(pc) then Some(t) else None,
       commitLock := if HoldsCommit(pc) then Some(t) else None)
  }

  lemma MoveHere(s: State, t: nat, from: Pc, to: Pc)
    requires LocksFree(s)
    ensures CanMove(Here(s, t, from), from, to)
    ensures Move(Here(s, t, from), t, from, to) == Here(s, t, to)
  {
    hide HoldsRequest, HoldsGate, HoldsPeers, HoldsCommit;
    assert s.threads[t := from][t := to] == s.threads[t := to];
  }

  /** As many steps of one thread. */
  function Steps(t: nat, emit: bool, n: nat): seq<Action> {
    if n == 0 then [] else [Advance(t, emit)] + Steps(t, emit, n - 1)
  }

  /** One step of thread `t`, seen by where it stands then and what has changed besides. */
  lemma Goes(s: State, t: nat, emit: bool, n: nat, from: Pc, s': State, to: Pc)
    requires n > 0 && ThreadNext(Here(s, t, from), t, emit) == Some(Here(s', t, to))
    ensures Exec(Here(s, t, from), Steps(t, emit, n)) == Exec(Here(s', t, to), Steps(t, emit, n - 1))
  {
    hide ThreadNext, Here;
    assert Steps(t, emit, n)[1..] == Steps(t, emit, n - 1);
    HereHas(s, t, from);
  }

  lemma HereHas(s: State, t: nat, pc: Pc)
    ensures t in Here(s, t, pc).threads && Here(s, t, pc).threads[t] == pc
  {
  }

  lemma Stops(s: State, t: nat, emit: bool)
    ensures Exec(s, Steps(t, emit, 0)) == Some(s)
  {
  }

  /** A thread starts its operation. */
  lemma Starts(s: State, t: nat, pc: Pc, run: seq<Action>)
    requires LocksFree(s) && t !in s.threads && Entry(pc)
    ensures Exec(s, [Start(t, pc)] + run) == Exec(Here(s, t, pc), run)
  {
    assert ([Start(t, pc)] + run)[1..] == run;
    assert !HoldsRequest(pc) && !HoldsGate(pc) && !HoldsPeers(pc) && !HoldsCommit(pc);
  }

  // ---- Events -------------------------------------------------------------------------------

  const EMIT: Pc := Emit(EmitPc.Want(false))

  /** An event is sent exactly when neither request nor gate is set; nothing else changes. */
  lemma EventIsSent(s: State, t: nat)
    requires LocksFree(s) && t !in s.threads && !s.requested
    ensures
      Exec(s, [Start(t, EMIT)] + Steps(t, true, 3))
        == Some(Here(s.(events := if s.gate then s.events else s.events + 1), t, Done))
  {
    hide Move, CanMove, Exec, Steps, Here;
    Starts(s, t, EMIT, Steps(t, true, 3));
    var had, decided := Emit(EmitPc.HasRequest(false)), Emit(Decided(false, !s.gate));
    EmitTo(s, t, EMIT, had);
    Goes(s, t, true, 3, EMIT, s, had);
    EmitTo(s, t, had, decided);
    Goes(s, t, true, 2, had, s, decided);
    var s' := s.(events := if s.gate then s.events else s.events + 1);
    EmitTo(s, t, decided, Done);
    Goes(s, t, true, 1, decided, s', Done);
    Stops(Here(s', t, Done), t, true);
  }

  lemma EmitTo(s: State, t: nat, from: Pc, to: Pc)
    requires LocksFree(s) && !s.requested && from.Emit?
    ensures from.emit.Want? && to == Emit(EmitPc.HasRequest(from.emit.commit)) ==>
      ThreadNext(Here(s, t, from), t, true) == Some(Here(s, t, to))
    ensures from.emit.HasRequest? && to == Emit(Decided(from.emit.commit, !s.gate)) ==>
      ThreadNext(Here(s, t, from), t, true) == Some(Here(s, t, to))
    ensures from.emit.Decided? && to == (if from.emit.commit then Write(Leaving) else Done) ==>
      ThreadNext(Here(s, t, from), t, true)
        == Some(Here(s.(events := if from.emit.live then s.events + 1 else s.events), t, to))
  {
    MoveHere(s, t, from, to);
    hide Move, CanMove;
  }

  /** After the request the event is dropped. */
  lemma EventIsDropped(s: State, t: nat)
    requires LocksFree(s) && t !in s.threads && s.requested
    ensures Exec(s, [Start(t, EMIT)] + Steps(t, true, 2)) == Some(Here(s, t, Done))
  {
    hide Exec, Steps;
    Starts(s, t, EMIT, Steps(t, true, 2));
    var had := Emit(EmitPc.HasRequest(false));
    MoveHere(s, t, EMIT, had);
    MoveHere(s, t, had, Done);
    hide Move, CanMove;
    Goes(s, t, true, 2, EMIT, s, had);
    Goes(s, t, true, 1, had, s, Done);
    Stops(Here(s, t, Done), t, true);
  }

  // ---- Roster writes ----------------------------------------------------------------------------

  const WRITE: Pc := Write(WritePc.Want)

  lemma WriteTo(s: State, t: nat, emit: bool, from: WritePc, to: Pc)
    requires LocksFree(s)
    ensures from.Want? && to == Write(WritePc.HasCommit) ==> ThreadNext(Here(s, t, Write(from)), t, emit) == Some(Here(s, t, to))
    ensures from.HasCommit? && to == Write(if s.requested then Leaving else SawNoRequest) ==>
      ThreadNext(Here(s, t, Write(from)), t, emit) == Some(Here(s, t, to))
    ensures from.SawNoRequest? && to == Write(if s.gate then Leaving else Passed) ==>
      ThreadNext(Here(s, t, Write(from)), t, emit) == Some(Here(s, t, to))
    ensures from.Passed? && to == (if emit then Emit(EmitPc.Want(true)) else Write(Leaving)) ==>
      ThreadNext(Here(s, t, Write(from)), t, emit) == Some(Here(s.(writes := s.writes + 1), t, to))
    ensures from.Leaving? && to == Done ==> ThreadNext(Here(s, t, Write(from)), t, emit) == Some(Here(s, t, to))
  {
    MoveHere(s, t, Write(from), to);
    hide Move, CanMove;
  }

  /** With neither request nor gate set the roster is written once. */
  lemma RosterIsWritten(s: State, t: nat)
    requires LocksFree(s) && t !in s.threads && !s.requested && !s.gate
    ensures
      Exec(s, [Start(t, WRITE)] + Steps(t, false, 5)) == Some(Here(s.(writes := s.writes + 1), t, Done))
  {
    hide Exec, Steps, Here, ThreadNext;
    Starts(s, t, WRITE, Steps(t, false, 5));
    var s' := s.(writes := s.writes + 1);
    WriteTo(s, t, false, WritePc.Want, Write(WritePc.HasCommit));
    Goes(s, t, false, 5, WRITE, s, Write(WritePc.HasCommit));
    WriteTo(s, t, false, WritePc.HasCommit, Write(SawNoRequest));
    Goes(s, t, false, 4, Write(WritePc.HasCommit), s, Write(SawNoRequest));
    WriteTo(s, t, false, SawNoRequest, Write(Passed));
    Goes(s, t, false, 3, Write(SawNoRequest), s, Write(Passed));
    WriteTo(s, t, false, Passed, Write(Leaving));
    Goes(s, t, false, 2, Write(Passed), s', Write(Leaving));
    WriteTo(s', t, false, Leaving, Done);
    Goes(s', t, false, 1, Write(Leaving), s', Done);
    Stops(Here(s', t, Done), t, false);
  }

  /** ... and its event is sent before the commit lock is let go. */
  lemma WriteAndEvent(s: State, t: nat)
    requires LocksFree(s) && t !in s.threads && !s.requested && !s.gate
    ensures
      Exec(s, [Start(t, WRITE)] + Steps(t, true, 8))
        == Some(Here(s.(writes := s.writes + 1, events := s.events + 1), t, Done))
  {
    hide Exec, Steps, Here, ThreadNext;
    Starts(s, t, WRITE, Steps(t, true, 8));
    var s' := s.(writes := s.writes + 1);
    WriteTo(s, t, true, WritePc.Want, Write(WritePc.HasCommit));
    Goes(s, t, true, 8, WRITE, s, Write(WritePc.HasCommit));
    WriteTo(s, t, true, WritePc.HasCommit, Write(SawNoRequest));
    Goes(s, t, true, 7, Write(WritePc.HasCommit), s, Write(SawNoRequest));
    WriteTo(s, t, true, SawNoRequest, Write(Passed));
    Goes(s, t, true, 6, Write(SawNoRequest), s, Write(Passed));
    var want, had, decided := Emit(EmitPc.Want(true)), Emit(EmitPc.HasRequest(true)), Emit(Decided(true, !s.gate));
    WriteTo(s, t, true, Passed, want);
    Goes(s, t, true, 5, Write(Passed), s', want);
    EmitTo(s', t, want, had);
    Goes(s', t, true, 4, want, s', had);
    EmitTo(s', t, had, decided);
    Goes(s', t, true, 3, had, s', decided);
    var s'' := s'.(events := s.events + 1);
    EmitTo(s', t, decided, Write(Leaving));
    Goes(s', t, true, 2, decided, s'', Write(Leaving));
    WriteTo(s'', t, true, Leaving, Done);
    Goes(s'', t, true, 1, Write(Leaving), s'', Done);
    Stops(Here(s'', t, Done), t, true);
  }

  /** After the request the writer leaves without a write. */
  lemma WriteIsRefused(s: State, t: nat)
    requires LocksFree(s) && t !in s.threads && s.requested
    ensures Exec(s, [Start(t, WRITE)] + Steps(t, true, 3)) == Some(Here(s, t, Done))
  {
    hide Exec, Steps, Here, ThreadNext;
    Starts(s, t, WRITE, Steps(t, true, 3));
    WriteTo(s, t, true, WritePc.Want, Write(WritePc.HasCommit));
    Goes(s, t, true, 3, WRITE, s, Write(WritePc.HasCommit));
    WriteTo(s, t, true, WritePc.HasCommit, Write(Leaving));
    Goes(s, t, true, 2, Write(WritePc.HasCommit), s, Write(Leaving));
    WriteTo(s, t, true, Leaving, Done);
    Goes(s, t, true, 1, Write(Leaving), s, Done);
    Stops(Here(s, t, Done), t, true);
  }

  // ---- Peers --------------------------------------------------------------------------------------

  lemma InsertTo(s: State, t: nat, from: InsertPc, to: Pc)
    requires LocksFree(s)
    ensures from.Want? && to == Insert(HasPeers(from.peer, from.conn)) ==>
      ThreadNext(Here(s, t, Insert(from)), t, true) == Some(Here(s, t, to))
    ensures from.HasPeers? && to == Insert(InsertPc.HasRequest(from.peer, from.conn)) ==>
      ThreadNext(Here(s, t, Insert(from)), t, true) == Some(Here(s, t, to))
    ensures from.HasRequest? && to == Insert(HasGate(from.peer, from.conn)) ==>
      ThreadNext(Here(s, t, Insert(from)), t, true) == Some(Here(s, t, to))
    ensures from.HasGate? && !s.requested && !s.gate && to == Insert(Stored) ==>
      ThreadNext(Here(s, t, Insert(from)), t, true)
        == Some(Here(s.(peers := s.peers[from.peer := from.conn], inserts := s.inserts + 1), t, to))
    ensures from.HasGate? && (s.requested || s.gate) && to == Done ==>
      ThreadNext(Here(s, t, Insert(from)), t, true) == Some(Here(s.(closed := s.closed + {from.conn}), t, to))
    ensures from.Stored? && to == Insert(Spawning(3, {})) ==>
      ThreadNext(Here(s, t, Insert(from)), t, true) == Some(Here(s.(events := s.events + 1), t, to))
  {
    MoveHere(s, t, Insert(from), to);
    hide Move, CanMove;
  }

  lemma SpawnTo(s: State, t: nat, left: nat)
    requires LocksFree(s) && !s.registryClosing
    ensures left > 0 ==>
      ThreadNext(Here(s, t, Insert(Spawning(left, {}))), t, true)
        == Some(Here(s.(nextTask := s.nextTask + 1, registry := s.registry + {s.nextTask}), t, Insert(Spawning(left - 1, {}))))
    ensures left == 0 ==>
      ThreadNext(Here(s, t, Insert(Spawning(left, {}))), t, true) == Some(Here(s, t, Spawn(Rejected({}))))
    ensures ThreadNext(Here(s, t, Spawn(Rejected({}))), t, true) == Some(Here(s, t, Done))
  {
    MoveHere(s, t, Insert(Spawning(left, {})), if left > 0 then Insert(Spawning(left - 1, {})) else Spawn(Rejected({})));
    MoveHere(s, t, Spawn(Rejected({})), Done);
    assert s.reaped + {} == s.reaped;
    hide Move, CanMove;
  }

  lemma PeerIsStored(s: State, t: nat, p: nat, conn: nat)
    requires LocksFree(s) && t !in s.threads && !s.requested && !s.gate
    ensures
      Exec(s, [Start(t, Insert(InsertPc.Want(p, conn)))] + Steps(t, true, 10))
        == Exec(Here(s.(peers := s.peers[p := conn], inserts := s.inserts + 1), t, Insert(Stored)), Steps(t, true, 6))
  {
    hide Exec, Steps, Here, ThreadNext;
    Starts(s, t, Insert(InsertPc.Want(p, conn)), Steps(t, true, 10));
    InsertTo(s, t, InsertPc.Want(p, conn), Insert(HasPeers(p, conn)));
    Goes(s, t, true, 10, Insert(InsertPc.Want(p, conn)), s, Insert(HasPeers(p, conn)));
    InsertTo(s, t, HasPeers(p, conn), Insert(InsertPc.HasRequest(p, conn)));
    Goes(s, t, true, 9, Insert(HasPeers(p, conn)), s, Insert(InsertPc.HasRequest(p, conn)));
    InsertTo(s, t, InsertPc.HasRequest(p, conn), Insert(HasGate(p, conn)));
    Goes(s, t, true, 8, Insert(InsertPc.HasRequest(p, conn)), s, Insert(HasGate(p, conn)));
    InsertTo(s, t, HasGate(p, conn), Insert(Stored));
    Goes(s, t, true, 7, Insert(HasGate(p, conn)), s.(peers := s.peers[p := conn], inserts := s.inserts + 1), Insert(Stored));
  }

  /** With neither request nor gate set a peer is inserted with its event, and its three
      tasks are registered. */
  lemma PeerIsInserted(s: State, t: nat, p: nat, conn: nat)
    requires LocksFree(s) && t !in s.threads && !s.requested && !s.gate && !s.registryClosing
    ensures
      var n := s.nextTask;
      Exec(s, [Start(t, Insert(InsertPc.Want(p, conn)))] + Steps(t, true, 10))
        == Some(Here(s.(peers := s.peers[p := conn], inserts := s.inserts + 1, events := s.events + 1,
                        nextTask := n + 3, registry := s.registry + {n} + {n + 1} + {n + 2}), t, Done))
  {
    hide Exec, Steps, Here, ThreadNext;
    PeerIsStored(s, t, p, conn);
    var s1 := s.(peers := s.peers[p := conn], inserts := s.inserts + 1);
    InsertTo(s1, t, Stored, Insert(Spawning(3, {})));
    Goes(s1, t, true, 6, Insert(Stored), s1.(events := s.events + 1), Insert(Spawning(3, {})));
    ThreeSpawn(s1.(events := s.events + 1), t);
  }

  lemma ThreeSpawn(s: State, t: nat)
    requires LocksFree(s) && !s.registryClosing
    ensures
      var n := s.nextTask;
      Exec(Here(s, t, Insert(Spawning(3, {}))), Steps(t, true, 5))
        == Some(Here(s.(nextTask := n + 3, registry := s.registry + {n} + {n + 1} + {n + 2}), t, Done))
  {
    hide Exec, Steps, Here, ThreadNext;
    var n := s.nextTask;
    var s1 := s.(nextTask := n + 1, registry := s.registry + {n});
    var s2 := s1.(nextTask := n + 2, registry := s1.registry + {n + 1});
    var s3 := s2.(nextTask := n + 3, registry := s2.registry + {n + 2});
    SpawnTo(s, t, 3);
    Goes(s, t, true, 5, Insert(Spawning(3, {})), s1, Insert(Spawning(2, {})));
    SpawnTo(s1, t, 2);
    Goes(s1, t, true, 4, Insert(Spawning(2, {})), s2, Insert(Spawning(1, {})));
    SpawnTo(s2, t, 1);
    Goes(s2, t, true, 3, Insert(Spawning(1, {})), s3, Insert(Spawning(0, {})));
    SpawnTo(s3, t, 0);
    Goes(s3, t, true, 2, Insert(Spawning(0, {})), s3, Spawn(Rejected({})));
    Goes(s3, t, true, 1, Spawn(Rejected({})), s3, Done);
    Stops(Here(s3, t, Done), t, true);
  }

  /** After the request or the gate the connection is closed and nothing inserted. */
  lemma PeerIsRefused(s: State, t: nat, p: nat, conn: nat)
    requires LocksFree(s) && t !in s.threads && (s.requested || s.gate)
    ensures
      Exec(s, [Start(t, Insert(InsertPc.Want(p, conn)))] + Steps(t, true, 4))
        == Some(Here(s.(closed := s.closed + {conn}), t, Done))
  {
    hide Exec, Steps, Here, ThreadNext;
    Starts(s, t, Insert(InsertPc.Want(p, conn)), Steps(t, true, 4));
    InsertTo(s, t, InsertPc.Want(p, conn), Insert(HasPeers(p, conn)));
    Goes(s, t, true, 4, Insert(InsertPc.Want(p, conn)), s, Insert(HasPeers(p, conn)));
    InsertTo(s, t, HasPeers(p, conn), Insert(InsertPc.HasRequest(p, conn)));
    Goes(s, t, true, 3, Insert(HasPeers(p, conn)), s, Insert(InsertPc.HasRequest(p, conn)));
    InsertTo(s, t, InsertPc.HasRequest(p, conn), Insert(HasGate(p, conn)));
    Goes(s, t, true, 2, Insert(InsertPc.HasRequest(p, conn)), s, Insert(HasGate(p, conn)));
    InsertTo(s, t, HasGate(p, conn), Done);
    Goes(s, t, true, 1, Insert(HasGate(p, conn)), s.(closed := s.closed + {conn}), Done);
    Stops(Here(s.(closed := s.closed + {conn}), t, Done), t, true);
  }

  /** A peer that is removed leaves the table, and its connection is closed. */
  lemma PeerIsRemoved(s: State, p: nat)
    requires s.peersLock == None && p in s.peers
    ensures Next(s, Remove(p)) == Some(s.(peers := s.peers - {p}, closed := s.closed + {s.peers[p]}))
  {
  }

  // ---- Tasks and shutdown -----------------------------------------------------------------------------

  /** A task spawned elsewhere is registered, or once the registry is closed aborted. */
  lemma TaskIsTracked(s: State, t: nat)
    requires LocksFree(s) && t !in s.threads
    ensures
      var n := s.nextTask;
      var s1 := s.(nextTask := n + 1);
      var begun := Exec(s, [Start(t, Spawn(Holding(n)))]);
      && begun == Some(Here(s1, t, Spawn(Holding(n))))
      && (!s.registryClosing ==>
            Exec(begun.value, Steps(t, true, 1)) == Some(Here(s1.(registry := s.registry + {n}), t, Done)))
      && (s.registryClosing ==>
            Exec(begun.value, Steps(t, true, 2)) == Some(Here(s1.(reaped := s.reaped + {n}), t, Done)))
  {
    var n := s.nextTask;
    var s1 := s.(nextTask := n + 1);
    assert [Start(t, Spawn(Holding(n)))][1..] == [];
    assert Next(s, Start(t, Spawn(Holding(n)))) == Some(Here(s1, t, Spawn(Holding(n))));
    hide Steps;
    MoveHere(s1, t, Spawn(Holding(n)), Done);
    MoveHere(s1, t, Spawn(Holding(n)), Spawn(Rejected({n})));
    MoveHere(s1, t, Spawn(Rejected({n})), Done);
    hide Move, CanMove;
    if s.registryClosing {
      Goes(s1, t, true, 2, Spawn(Holding(n)), s1, Spawn(Rejected({n})));
      Goes(s1, t, true, 1, Spawn(Rejected({n})), s1.(reaped := s.reaped + {n}), Done);
      Stops(Here(s1.(reaped := s.reaped + {n}), t, Done), t, true);
    } else {
      Goes(s1, t, true, 1, Spawn(Holding(n)), s1.(registry := s.registry + {n}), Done);
      Stops(Here(s1.(registry := s.registry + {n}), t, Done), t, true);
    }
  }

  lemma StopTo(s: State, t: nat, from: StopPc, to: Pc)
    requires LocksFree(s)
    ensures from.Want? && !s.requested && to == Stop(Drain) ==>
      ThreadNext(Here(s, t, Stop(from)), t, true) == Some(Here(s.(requested := true), t, to))
    ensures from.Want? && s.requested && to == Done ==> ThreadNext(Here(s, t, Stop(from)), t, true) == Some(Here(s, t, to))
    ensures from.Drain? && to == Stop(StopPc.HasCommit) ==> ThreadNext(Here(s, t, Stop(from)), t, true) == Some(Here(s, t, to))
    ensures from.HasCommit? && to == Stop(Sweep) ==>
      ThreadNext(Here(s, t, Stop(from)), t, true) == Some(Here(s.(gate := true), t, to))
    ensures from.Sweep? && to == Stop(CloseRegistry) ==>
      ThreadNext(Here(s, t, Stop(from)), t, true)
        == Some(Here(s.(closed := s.closed + s.peers.Values, swept := true), t, to))
    ensures from.CloseRegistry? && to == Stop(Reaping(s.registry)) ==>
      ThreadNext(Here(s, t, Stop(from)), t, true) == Some(Here(s.(registryClosing := true, registry := {}), t, to))
    ensures from.Reaping? && to == Done ==>
      ThreadNext(Here(s, t, Stop(from)), t, true) == Some(Here(s.(reaped := s.reaped + from.tasks), t, to))
  {
    MoveHere(s, t, Stop(from), to);
    hide Move, CanMove;
  }

  /** The first shutdown sets the request and the gate, closes every connection in the
      table, and empties and closes the registry, reaping what was in it. */
  lemma ShutdownRuns(s: State, t: nat)
    requires LocksFree(s) && t !in s.threads && !s.requested
    ensures
      Exec(s, [Start(t, Stop(StopPc.Want))] + Steps(t, true, 6))
        == Some(Here(s.(requested := true, gate := true, swept := true, closed := s.closed + s.peers.Values,
                        registryClosing := true, registry := {}, reaped := s.reaped + s.registry), t, Done))
  {
    hide Exec, Steps, Here, ThreadNext;
    Starts(s, t, Stop(StopPc.Want), Steps(t, true, 6));
    var s1 := s.(requested := true);
    StopTo(s, t, StopPc.Want, Stop(Drain));
    Goes(s, t, true, 6, Stop(StopPc.Want), s1, Stop(Drain));
    StopTo(s1, t, Drain, Stop(StopPc.HasCommit));
    Goes(s1, t, true, 5, Stop(Drain), s1, Stop(StopPc.HasCommit));
    var s2 := s1.(gate := true);
    StopTo(s1, t, StopPc.HasCommit, Stop(Sweep));
    Goes(s1, t, true, 4, Stop(StopPc.HasCommit), s2, Stop(Sweep));
    var s3 := s2.(closed := s.closed + s.peers.Values, swept := true);
    StopTo(s2, t, Sweep, Stop(CloseRegistry));
    Goes(s2, t, true, 3, Stop(Sweep), s3, Stop(CloseRegistry));
    var s4 := s3.(registryClosing := true, registry := {});
    StopTo(s3, t, CloseRegistry, Stop(Reaping(s.registry)));
    Goes(s3, t, true, 2, Stop(CloseRegistry), s4, Stop(Reaping(s.registry)));
    StopTo(s4, t, Reaping(s.registry), Done);
    Goes(s4, t, true, 1, Stop(Reaping(s.registry)), s4.(reaped := s.reaped + s.registry), Done);
    Stops(Here(s4.(reaped := s.reaped + s.registry), t, Done), t, true);
  }

  /** A second shutdown does nothing. */
  lemma SecondShutdown(s: State, t: nat)
    requires LocksFree(s) && t !in s.threads && s.requested
    ensures Exec(s, [Start(t, Stop(StopPc.Want))] + Steps(t, true, 1)) == Some(Here(s, t, Done))
  {
    hide Exec, Steps, Here, ThreadNext;
    Starts(s, t, Stop(StopPc.Want), Steps(t, true, 1));
    StopTo(s, t, StopPc.Want, Done);
    Goes(s, t, true, 1, Stop(StopPc.Want), s, Done);
    Stops(Here(s, t, Done), t, true);
  }
}
