/** A redemption that nothing disturbs: a live invite is consumed and its peer granted, a
    spent one is told so, and a bad attempt changes nothing. */
module RedemptionRuns {
  import opened Bytes
  import opened Facts
  import opened InviteLog
  import opened RedeemVerify
  import opened Redemption

  /** Process `p` is idle and open, with the attempt's issuer as its root. */
  ghost predicate Ready(c: Crypto, fabric: Bytes32, s: State, p: nat, a: Attempt) {
    && p in s.procs && s.procs[p].pc.Idle? && !s.procs[p].requested && !s.procs[p].gate
    && a.redeemer == a.peer && Verify(c, fabric, s.procs[p].root, a).Ok?
  }

  /** The state with process `p` as given. */
  function With(s: State, p: nat, x: Proc): State {
    s.(procs := s.procs[p := x])
  }

  lemma WithWith(s: State, p: nat, x: Proc, y: Proc)
    ensures With(With(s, p, x), p, y) == With(s, p, y)
    ensures p in With(s, p, x).procs && With(s, p, x).procs[p] == x
  {
    assert s.procs[p := x][p := y] == s.procs[p := y];
  }

  lemma ExecStep(c: Crypto, fabric: Bytes32, s: State, a: Action, run: seq<Action>)
    requires Next(c, fabric, s, a).Some?
    ensures Exec(c, fabric, s, [a] + run) == Exec(c, fabric, Next(c, fabric, s, a).value, run)
  {
    hide Next;
    assert ([a] + run)[1..] == run;
  }

  lemma ExecNone(c: Crypto, fabric: Bytes32, s: State)
    ensures Exec(c, fabric, s, []) == Some(s)
  {
  }

  // ---- Attempts that are refused ------------------------------------------------------------

  /** A peer that names somebody else, a closing process and an attempt that does not
      verify leave everything as it was. */
  lemma RefusedLeavesAll(c: Crypto, fabric: Bytes32, s: State, p: nat, a: Attempt)
    requires p in s.procs && s.procs[p].pc.Idle?
    requires a.redeemer != a.peer || s.procs[p].requested || s.procs[p].gate || Verify(c, fabric, s.procs[p].root, a).Err?
    ensures Next(c, fabric, s, Begin(p, a)) == Some(s)
  {
    hide Verify;
  }

  /** The joiner of a spent invite is told so: at once if the process knows, and otherwise
      when it has read the log under the lock. Nothing is consumed or granted. */
  lemma SpentIsTold(c: Crypto, fabric: Bytes32, s: State, p: nat, a: Attempt, now: u64)
    requires Reachable(c, fabric, s) && Ready(c, fabric, s, p, a)
    requires Id(a) in Ids(s.log) && (Id(a) !in s.procs[p].cache ==> s.holder == None && |s.log| % RECORD_LEN == 0)
    ensures
      var run := if Id(a) in s.procs[p].cache then [Begin(p, a)] else [Begin(p, a)] + ([Lock(p)] + ([Reload(p, now)] + []));
      var t := Exec(c, fabric, s, run);
      && t.Some? && a in t.value.toldConsumed && p in t.value.procs && t.value.procs[p].pc == Idle
      && t.value.log == s.log && t.value.oks == s.oks && t.value.grants == s.grants && t.value.holder == s.holder
  {
    hide Verify, Ids, Reachable, Exec;
    var x := s.procs[p];
    if Id(a) in x.cache {
      ExecStep(c, fabric, s, Begin(p, a), []);
      assert [Begin(p, a)] + [] == [Begin(p, a)];
      ExecNone(c, fabric, Next(c, fabric, s, Begin(p, a)).value);
    } else {
      LockedAndReloading(c, fabric, s, p, a, [Reload(p, now)] + []);
      var s2 := With(s, p, x.(pc := Reloading(a))).(passed := s.passed + {a}, holder := Some(p));
      ExecStep(c, fabric, s2, Reload(p, now), []);
      ExecNone(c, fabric, Next(c, fabric, s2, Reload(p, now)).value);
    }
  }

  /** Up to the point where the log is read again under the lock. */
  lemma LockedAndReloading(c: Crypto, fabric: Bytes32, s: State, p: nat, a: Attempt, run: seq<Action>)
    requires Ready(c, fabric, s, p, a) && Id(a) !in s.procs[p].cache && s.holder == None
    ensures
      Exec(c, fabric, s, [Begin(p, a)] + ([Lock(p)] + run))
        == Exec(c, fabric, With(s, p, s.procs[p].(pc := Reloading(a))).(passed := s.passed + {a}, holder := Some(p)), run)
  {
    hide Verify, Exec;
    var x := s.procs[p];
    var y, z := x.(pc := Locking(a)), x.(pc := Reloading(a));
    var s1 := With(s, p, y).(passed := s.passed + {a});
    ExecStep(c, fabric, s, Begin(p, a), [Lock(p)] + run);
    assert Next(c, fabric, s, Begin(p, a)) == Some(s1);
    WithWith(s, p, y, z);
    ExecStep(c, fabric, s1, Lock(p), run);
    assert Next(c, fabric, s1, Lock(p)).value == With(s, p, z).(passed := s.passed + {a}, holder := Some(p));
  }

  // ---- The invite that is taken ----------------------------------------------------------------

  /** From every state in which the lock is free and the log whole, an attempt that verifies
      for an invite not yet spent puts its record into the log, is confirmed, and its peer
      is granted: into the roster, and into the image if the disk takes it. */
  lemma LiveIsGranted(c: Crypto, fabric: Bytes32, s: State, p: nat, a: Attempt, now: u64, at: u64, disk: bool)
    requires Reachable(c, fabric, s) && Ready(c, fabric, s, p, a)
    requires s.holder == None && |s.log| % RECORD_LEN == 0 && Id(a) !in Ids(s.log)
    ensures
      var run := [Begin(p, a)] + ([Lock(p)] + ([Reload(p, now)] + ([Append(p, RECORD_LEN)] + ([Sync(p)] + ([Issue(p, at, disk)] + [])))));
      var g := Issued(p, a, a.peer, at);
      var t := Exec(c, fabric, s, run);
      && t.Some?
      && t.value.log == s.log + Record(Id(a), now) && t.value.oks == s.oks + [Id(a)] && t.value.grants == s.grants + [g]
      && t.value.holder == None && t.value.toldConsumed == s.toldConsumed && t.value.outside == s.outside
      && t.value.image == (if disk then s.procs[p].kept + {g} else s.image)
      && p in t.value.procs && t.value.procs[p].kept == s.procs[p].kept + {g} && t.value.procs[p].pc == Idle
      && t.value.procs[p].cache == Ids(s.log) + {Id(a)}
  {
    CacheIsLogged(c, fabric, s, p);
    hide Verify, Ids, Reachable, Exec, Record;
    var x := s.procs[p];
    var late := [Append(p, RECORD_LEN)] + ([Sync(p)] + ([Issue(p, at, disk)] + []));
    LockedAndReloading(c, fabric, s, p, a, [Reload(p, now)] + late);
    var s2 := With(s, p, x.(pc := Reloading(a))).(passed := s.passed + {a}, holder := Some(p));
    var y := x.(cache := Ids(s.log), pc := Appending(a, Record(Id(a), now), 0));
    WithWith(s, p, x.(pc := Reloading(a)), y);
    ExecStep(c, fabric, s2, Reload(p, now), late);
    assert Next(c, fabric, s2, Reload(p, now)).value == With(s, p, y).(passed := s.passed + {a}, holder := Some(p));
    AppendedAndIssued(c, fabric, With(s, p, y).(passed := s.passed + {a}, holder := Some(p)), p, y, a, Record(Id(a), now), at, disk);
  }

  lemma CacheIsLogged(c: Crypto, fabric: Bytes32, s: State, p: nat)
    requires Reachable(c, fabric, s) && p in s.procs
    ensures s.procs[p].cache <= Ids(s.log)
  {
    ReachableInv(c, fabric, s);
    hide Reachable, LockInv, OriginInv, GrantInv, AuthInv, KeptInv, Ids;
  }

  lemma AppendedAndIssued(c: Crypto, fabric: Bytes32, s: State, p: nat, x: Proc, a: Attempt, record: bytes, at: u64, disk: bool)
    requires p in s.procs && s.procs[p] == x && x.pc == Appending(a, record, 0) && |record| == RECORD_LEN
    ensures
      var run := [Append(p, RECORD_LEN)] + ([Sync(p)] + ([Issue(p, at, disk)] + []));
      var g := Issued(p, a, a.redeemer, at);
      var y := x.(cache := x.cache + {Id(a)}, kept := x.kept + {g}, pc := Idle);
      Exec(c, fabric, s, run)
        == Some(With(s, p, y).(log := s.log + record, holder := None, oks := s.oks + [Id(a)], grants := s.grants + [g],
                               image := if disk then x.kept + {g} else s.image))
  {
    hide Exec;
    var g := Issued(p, a, a.redeemer, at);
    var x1 := x.(pc := Appending(a, record, RECORD_LEN));
    var x2 := x.(cache := x.cache + {Id(a)}, pc := Granting(a));
    var x3 := x2.(kept := x.kept + {g}, pc := Idle);
    assert record[0..RECORD_LEN] == record;
    var s1 := With(s, p, x1).(log := s.log + record);
    assert Next(c, fabric, s, Append(p, RECORD_LEN)) == Some(s1);
    ExecStep(c, fabric, s, Append(p, RECORD_LEN), [Sync(p)] + ([Issue(p, at, disk)] + []));
    WithWith(s, p, x1, x2);
    var s2 := With(s, p, x2).(log := s.log + record, holder := None, oks := s.oks + [Id(a)]);
    assert Next(c, fabric, s1, Sync(p)) == Some(s2);
    ExecStep(c, fabric, s1, Sync(p), [Issue(p, at, disk)] + []);
    WithWith(s, p, x2, x3);
    ExecStep(c, fabric, s2, Issue(p, at, disk), []);
    ExecNone(c, fabric, Next(c, fabric, s2, Issue(p, at, disk)).value);
  }

  // ---- Where the grant goes -------------------------------------------------------------------------

  /** Persisting writes what the roster holds, sending tells it, and merging takes it in. */
  lemma RosterTravels(c: Crypto, fabric: Bytes32, s: State, p: nat, xs: set<Issued>)
    requires p in s.procs && s.procs[p].pc.Idle? && !s.procs[p].gate && xs <= s.outside
    ensures Next(c, fabric, s, Persist(p)) == Some(s.(image := s.procs[p].kept))
    ensures Next(c, fabric, s, Send(p)) == Some(s.(outside := s.outside + s.procs[p].kept))
    ensures
      Next(c, fabric, s, Receive(p, xs)) == Some(With(s, p, s.procs[p].(kept := s.procs[p].kept + xs)))
  {
  }

  /** A process that opens a whole directory knows its image and its log. */
  lemma OpenLoads(c: Crypto, fabric: Bytes32, s: State, p: nat)
    requires p !in s.procs
    ensures Next(c, fabric, s, Open(p)).Some? <==> |s.log| % RECORD_LEN == 0
    ensures Next(c, fabric, s, Open(p)).Some? ==>
      Next(c, fabric, s, Open(p)).value == With(s, p, Proc(Ids(s.log), None, s.image, false, false, Idle))
  {
    hide Ids;
  }

  // ---- What else can happen to a process ---------------------------------------------------------------

  /** Any live process can be asked to shut down, and closes its gate once it has been and
      no redemption is under way; it learns its root once. */
  lemma FlagsAreSet(c: Crypto, fabric: Bytes32, s: State, p: nat, root: Key)
    requires p in s.procs
    ensures
      var x := s.procs[p];
      && Next(c, fabric, s, Request(p)) == (if x.pc.Dead? then None else Some(With(s, p, x.(requested := true))))
      && Next(c, fabric, s, Close(p)) == (if x.pc.Idle? && x.requested then Some(With(s, p, x.(gate := true))) else None)
      && Next(c, fabric, s, Learn(p, root)) == (if x.pc.Idle? && x.root == None then Some(With(s, p, x.(root := Some(root)))) else None)
  {
  }

  /** A lock that cannot be had, a torn log, and a write or sync that fails end the
      redemption; what was written stays, and the lock is let go. */
  lemma FailuresEnd(c: Crypto, fabric: Bytes32, s: State, p: nat, now: u64)
    requires p in s.procs
    ensures
      var x := s.procs[p];
      && (x.pc.Locking? ==> Next(c, fabric, s, LockFails(p)) == Some(With(s, p, x.(pc := Idle))))
      && (x.pc.Reloading? && |s.log| % RECORD_LEN != 0 ==>
            Next(c, fabric, s, Reload(p, now)) == Some(With(s, p, x.(pc := Idle)).(holder := None)))
      && (x.pc.Appending? ==> Next(c, fabric, s, AppendFails(p)) == Some(With(s, p, x.(pc := Idle)).(holder := None)))
  {
    hide Ids;
  }

  /** Any part of the record can go down at a time, and it can be synced when it is down
      whole. A process that dies loses its memory and its lock, and nothing else. */
  lemma PiecesAndCrashes(c: Crypto, fabric: Bytes32, s: State, p: nat, k: nat)
    requires p in s.procs
    ensures
      var x := s.procs[p];
      && (x.pc.Appending? ==>
            && (Next(c, fabric, s, Append(p, k)).Some? <==> x.pc.written + k <= |x.pc.record|)
            && (x.pc.written + k <= |x.pc.record| ==>
                  Next(c, fabric, s, Append(p, k))
                    == Some(With(s, p, x.(pc := x.pc.(written := x.pc.written + k))).(
                              log := s.log + x.pc.record[x.pc.written..x.pc.written + k])))
            && (Next(c, fabric, s, Sync(p)).Some? <==> x.pc.written == |x.pc.record|))
      && (!x.pc.Dead? ==>
            Next(c, fabric, s, Crash(p))
              == Some(With(s, p, x.(kept := {}, pc := Dead)).(holder := if s.holder == Some(p) then None else s.holder)))
  {
    hide Ids;
  }
}
