/** What the shutdown request leaves to the roster writers: at most one write, by the
    holder of the commit lock if it is past its request check, and that one may come. */
module LastWrite {
  import opened Bytes
  import opened ShutdownGate

  ghost predicate MayWrite(s: State) {
    exists t :: t in s.threads && Committed(s.threads[t])
  }

  ghost function Budget(s: State): nat {
    if MayWrite(s) then 1 else 0
  }

  // ---- At most one -----------------------------------------------------------------------

  lemma OneCommitted(s: State, t: nat, u: nat)
    requires LockInv(s) && t in s.threads && u in s.threads && Committed(s.threads[t]) && Committed(s.threads[u])
    ensures t == u
  {
    hide HoldsRequest, HoldsGate, HoldsPeers;
    assert HoldsCommit(s.threads[t]) && HoldsCommit(s.threads[u]);
  }

  lemma ThreadSpends(s: State, t: nat, emit: bool)
    requires LockInv(s) && s.requested && t in s.threads && ThreadNext(s, t, emit).Some?
    ensures
      var s' := ThreadNext(s, t, emit).value;
      s'.writes + Budget(s') <= s.writes + Budget(s)
  {
    hide ThreadNext, LockInv;
    var s' := ThreadNext(s, t, emit).value;
    ThreadEffects(s, t, emit);
    if MayWrite(s') {
      var u :| u in s'.threads && Committed(s'.threads[u]);
      assert u in s.threads && Committed(s.threads[u]);
      if s.threads[t] == Write(Passed) {
        OneCommitted(s, t, u);
      }
    }
  }

  lemma StepSpends(s: State, a: Action)
    requires Inv(s) && s.requested && Next(s, a).Some?
    ensures
      var s' := Next(s, a).value;
      s'.writes + Budget(s') <= s.writes + Budget(s)
  {
    hide ThreadNext, LockInv, FlagInv, TaskInv, Entry;
    match a
    case Start(t, pc) =>
      EntryNotCommitted(pc);
      OthersCommitted(s, Next(s, a).value, t);
    case Advance(t, emit) => ThreadSpends(s, t, emit);
    case Remove(p) =>
  }

  lemma EntryNotCommitted(pc: Pc)
    requires Entry(pc) || pc.Spawn?
    ensures !Committed(pc)
  {
  }

  lemma OthersCommitted(s: State, s': State, t: nat)
    requires t in s'.threads && s'.threads == s.threads[t := s'.threads[t]] && !Committed(s'.threads[t])
    ensures MayWrite(s') ==> MayWrite(s)
  {
    if MayWrite(s') {
      var u :| u in s'.threads && Committed(s'.threads[u]);
      assert u in s.threads && Committed(s.threads[u]);
    }
  }

  lemma {:induction false} RunSpends(s: State, run: seq<Action>)
    requires Inv(s) && s.requested && Exec(s, run).Some?
    ensures
      var s' := Exec(s, run).value;
      s'.writes + Budget(s') <= s.writes + Budget(s)
    decreases |run|
  {
    hide Inv, Next, Budget;
    if run != [] {
      StepKeeps(s, run[0]);
      StepSpends(s, run[0]);
      RunSpends(Next(s, run[0]).value, run[1..]);
    }
  }

  /** After the shutdown request every continuation makes at most one more roster write,
      and none unless a writer is already past its request check. */
  lemma AtMostOneWriteFollows(s: State, run: seq<Action>)
    requires Reachable(s) && s.requested && Exec(s, run).Some?
    ensures Exec(s, run).value.writes <= s.writes + (if MayWrite(s) then 1 else 0)
  {
    hide Inv, Exec, MayWrite;
    ReachableInv(s);
    RunSpends(s, run);
  }

  // ---- ... and that one may come -----------------------------------------------------------

  /** Whoever holds the gate lock after the request lets go of it by itself. */
  lemma {:induction false} GateIsReleased(s: State, t: nat, left: nat) returns (run: seq<Action>)
    requires Inv(s) && s.requested && t in s.threads && Committed(s.threads[t])
    requires s.gateLock.Some? ==>
      s.gateLock.value in s.threads && forall n, r :: s.threads[s.gateLock.value] == Insert(Spawning(n, r)) ==> n == left
    ensures Exec(s, run).Some?
    ensures
      var s' := Exec(s, run).value;
      s'.gateLock.None? && t in s'.threads && s'.threads[t] == s.threads[t] && s'.writes == s.writes
    decreases left
  {
    if s.gateLock.None? {
      run := [];
    } else {
      var u := s.gateLock.value;
      HolderAdvances(s, u);
      hide Inv, ThreadNext, HoldsGate;
      var s1 := Next(s, Advance(u, true)).value;
      StepKeeps(s, Advance(u, true));
      ExecOne(s, Advance(u, true));
      if s1.gateLock.None? {
        run := [Advance(u, true)];
      } else {
        var more := GateIsReleased(s1, t, left - 1);
        ExecConcat(s, [Advance(u, true)], more);
        run := [Advance(u, true)] + more;
      }
    }
  }

  lemma HolderAdvances(s: State, u: nat)
    requires Inv(s) && s.requested && s.gateLock == Some(u) && u in s.threads
    ensures !Committed(s.threads[u]) && Next(s, Advance(u, true)).Some?
    ensures
      var s1 := Next(s, Advance(u, true)).value;
      && s1.threads == s.threads[u := s1.threads[u]] && s1.writes == s.writes && s1.requested
      && (s1.gateLock.None? || (s1.gateLock == Some(u) && s.threads[u].Insert? && s.threads[u].insert.Spawning?
           && s.threads[u].insert.left > 0 && s1.threads[u].Insert? && s1.threads[u].insert.Spawning?
           && s1.threads[u].insert.left == s.threads[u].insert.left - 1))
  {
    hide TaskInv;
    assert HoldsGate(s.threads[u]);
    assert PcOk(s.requested, s.gate, s.registryClosing, s.threads[u]);
  }

  /** A writer past its request check can write, whoever stands in its way. */
  lemma CommittedCanWrite(s: State, t: nat) returns (run: seq<Action>)
    requires Reachable(s) && s.requested && t in s.threads && Committed(s.threads[t])
    ensures Exec(s, run).Some? && Exec(s, run).value.writes == s.writes + 1
  {
    ReachableInv(s);
    run := ClearedToWrite(s, t);
  }

  lemma ClearedToWrite(s: State, t: nat) returns (run: seq<Action>)
    requires Inv(s) && s.requested && t in s.threads && Committed(s.threads[t])
    ensures Exec(s, run).Some? && Exec(s, run).value.writes == s.writes + 1
  {
    var left := SpawningLeft(s);
    var clear := GateIsReleased(s, t, left);
    hide Inv, ThreadNext, Exec, Frozen;
    var s1 := Exec(s, clear).value;
    RunKeeps(s, clear);
    var write := WriteThrough(s1, t);
    ExecConcat(s, clear, write);
    run := clear + write;
  }

  lemma SpawningLeft(s: State) returns (left: nat)
    requires Inv(s)
    ensures s.gateLock.Some? ==>
      s.gateLock.value in s.threads && forall n, r :: s.threads[s.gateLock.value] == Insert(Spawning(n, r)) ==> n == left
  {
    hide HoldsRequest, HoldsGate, HoldsPeers, HoldsCommit, FlagInv, TaskInv;
    left := 0;
    if s.gateLock.Some? {
      var pc := s.threads[s.gateLock.value];
      if pc.Insert? && pc.insert.Spawning? {
        left := pc.insert.left;
      }
    }
  }

  /** With the gate lock free the writer passes the gate check, for the gate cannot have
      been closed, and writes. */
  lemma WriteThrough(s: State, t: nat) returns (run: seq<Action>)
    requires Inv(s) && s.gateLock.None? && t in s.threads && Committed(s.threads[t])
    ensures Exec(s, run).Some? && Exec(s, run).value.writes == s.writes + 1
  {
    hide LockInv, TaskInv;
    assert PcOk(s.requested, s.gate, s.registryClosing, s.threads[t]);
    hide HoldsRequest, HoldsGate, HoldsPeers, HoldsCommit, Relock, Exec;
    var a := Advance(t, true);
    ExecOne(s, a);
    run := [a];
    if s.threads[t] == Write(SawNoRequest) {
      var s1 := Next(s, a).value;
      assert s1.threads[t] == Write(Passed) && s1.writes == s.writes;
      ExecOne(s1, a);
      ExecConcat(s, [a], [a]);
      run := [a] + [a];
    }
  }

  /** After the request a write follows on some continuation exactly when some writer is
      past its request check. */
  lemma WriteFollowsExactly(s: State)
    requires Reachable(s) && s.requested
    ensures (exists run :: Exec(s, run).Some? && Exec(s, run).value.writes > s.writes) <==> MayWrite(s)
  {
    hide Reachable, Exec, Committed;
    if exists run :: Exec(s, run).Some? && Exec(s, run).value.writes > s.writes {
      var run :| Exec(s, run).Some? && Exec(s, run).value.writes > s.writes;
      AtMostOneWriteFollows(s, run);
    }
    if MayWrite(s) {
      var t :| t in s.threads && Committed(s.threads[t]);
      var run := CommittedCanWrite(s, t);
    }
  }

  // ---- It does happen -----------------------------------------------------------------------

  /** The request alone does not stop the roster: a writer that passed the check just
      before it writes after it. Only the gate is final. */
  lemma WriteMayFollowRequest()
    ensures exists s, run :: Reachable(s) && s.requested && Exec(s, run).Some? && Exec(s, run).value.writes > s.writes
  {
    var s1 := Next(Init(), Start(0, Write(WritePc.Want))).value;
    var s2 := Next(s1, Start(1, Stop(StopPc.Want))).value;
    var s3 := Next(s2, Advance(0, true)).value;
    var s4 := Next(s3, Advance(0, true)).value;
    var s5 := Next(s4, Advance(0, true)).value;
    var s6 := Next(s5, Advance(1, true)).value;
    var before := [Start(0, Write(WritePc.Want)), Start(1, Stop(StopPc.Want)), Advance(0, true), Advance(0, true), Advance(0, true), Advance(1, true)];
    ExecStep(Init(), before, s1);
    ExecStep(s1, before[1..], s2);
    ExecStep(s2, before[2..], s3);
    ExecStep(s3, before[3..], s4);
    ExecStep(s4, before[4..], s5);
    ExecStep(s5, before[5..], s6);
    var s7 := Next(s6, Advance(0, true)).value;
    ExecStep(s6, [Advance(0, true)], s7);
    assert Reachable(s6) && s6.requested && s7.writes > s6.writes;
  }

  lemma ExecStep(s: State, run: seq<Action>, s1: State)
    requires run != [] && Next(s, run[0]) == Some(s1)
    ensures Exec(s, run) == Exec(s1, run[1..])
  {
    hide Next;
  }
}
