/** How stored grants are lost: what decides the content of the image over every run, the
    exact loss for processes that take turns, and a loss by overwriting. */
module GrantHistory {
  import opened Bytes
  import opened Facts
  import opened InviteLog
  import opened RedeemVerify
  import opened Redemption
  import opened InviteHistory

  // ---- The image -------------------------------------------------------------------------

  /** The `i`th action writes the image from a roster that holds a grant for the id. */
  ghost predicate Saves(c: Crypto, fabric: Bytes32, run: seq<Action>, i: nat, id: Bytes16)
    requires i < |run| && Exec(c, fabric, Init(), run).Some?
  {
    WritesImage(run[i]) && Keeps(StateAt(c, fabric, run, i + 1), run[i].p, id)
  }

  predicate LastToWrite(run: seq<Action>, i: nat) {
    forall j :: i < j < |run| ==> !WritesImage(run[j])
  }

  /** Over every run the image holds a grant exactly when the last process to write the
      image kept that grant then: what another process had persisted before is gone. */
  lemma {:induction false} ImageExactly(c: Crypto, fabric: Bytes32, run: seq<Action>, id: Bytes16)
    requires Exec(c, fabric, Init(), run).Some?
    ensures Has(Exec(c, fabric, Init(), run).value.image, id)
       <==> exists i :: 0 <= i < |run| && Saves(c, fabric, run, i, id) && LastToWrite(run, i)
    decreases |run|
  {
    hide Next, Inv, Has, Keeps;
    if run != [] {
      var n := |run| - 1;
      LastStep(c, fabric, run);
      assert run[..n + 1] == run;
      StepIsPlaced(c, fabric, StateAt(c, fabric, run, n), run[n], id);
      if WritesImage(run[n]) {
        assert LastToWrite(run, n);
      } else {
        ImageExactly(c, fabric, run[..n], id);
        ImageStands(c, fabric, run, n, id);
      }
    } else {
      NothingIn(id);
    }
  }

  lemma NothingIn(id: Bytes16)
    ensures !Has({}, id)
  {
  }

  /** An action that does not write leaves the last writer the last. */
  lemma ImageStands(c: Crypto, fabric: Bytes32, run: seq<Action>, n: nat, id: Bytes16)
    requires n == |run| - 1 && Exec(c, fabric, Init(), run).Some? && Exec(c, fabric, Init(), run[..n]).Some?
    requires !WritesImage(run[n])
    ensures (exists i :: 0 <= i < |run| && Saves(c, fabric, run, i, id) && LastToWrite(run, i))
       <==> (exists i :: 0 <= i < n && Saves(c, fabric, run[..n], i, id) && LastToWrite(run[..n], i))
  {
    hide Exec, Keeps, WritesImage;
    forall i | 0 <= i < n
      ensures Saves(c, fabric, run, i, id) == Saves(c, fabric, run[..n], i, id)
      ensures LastToWrite(run, i) == LastToWrite(run[..n], i)
    {
      SameBefore(c, fabric, run, n, i + 1);
      assert LastToWrite(run, i) <== LastToWrite(run[..n], i);
      assert forall j :: i < j < n ==> run[..n][j] == run[j];
    }
  }

  // ---- Processes that take turns ---------------------------------------------------------------

  /** Whoever acts is the only process alive. */
  ghost predicate ActsAlone(s: State, act: Action) {
    forall q :: q in s.procs && q != act.p ==> s.procs[q].pc.Dead?
  }

  /** One process at a time works on the directory, and nothing is sent to other nodes. */
  ghost predicate Alone(c: Crypto, fabric: Bytes32, run: seq<Action>)
    requires Exec(c, fabric, Init(), run).Some?
  {
    forall i :: 0 <= i < |run| ==> !run[i].Send? && ActsAlone(StateAt(c, fabric, run, i), run[i])
  }

  /** The `j`th action issues the grant and fails to persist it, and nothing is persisted
      before the `i`th. */
  ghost predicate Unsaved(c: Crypto, fabric: Bytes32, run: seq<Action>, j: nat, i: nat, p: nat, id: Bytes16)
    requires Exec(c, fabric, Init(), run).Some?
  {
    && j < i <= |run|
    && run[j].Issue? && run[j].p == p && !run[j].disk && Grants(StateAt(c, fabric, run, j), p, id)
    && forall k :: j < k < i ==> !WritesImage(run[k])
  }

  /** With nobody else alive, nothing is outside and the live roster holds the image. */
  ghost predicate Together(s: State, id: Bytes16) {
    && !Has(s.outside, id)
    && forall p :: p in s.procs && !s.procs[p].pc.Dead? && Has(s.image, id) ==> Keeps(s, p, id)
  }

  lemma TogetherStep(c: Crypto, fabric: Bytes32, s: State, act: Action, id: Bytes16)
    requires Together(s, id) && ActsAlone(s, act) && !act.Send? && Next(c, fabric, s, act).Some?
    ensures Together(Next(c, fabric, s, act).value, id)
  {
    StepIsPlaced(c, fabric, s, act, id);
    StepMovesOne(c, fabric, s, act);
    DiesByCrash(c, fabric, s, act);
    hide Next, Has, Keeps;
  }

  /** Only a crash makes a process dead, and it was alive before. */
  lemma DiesByCrash(c: Crypto, fabric: Bytes32, s: State, act: Action)
    requires Next(c, fabric, s, act).Some?
    ensures
      var s' := Next(c, fabric, s, act).value;
      && (act.p in s'.procs && (s'.procs[act.p].pc.Dead? <==> act.Crash?))
      && (act.p in s.procs <==> !act.Open?)
      && (act.p in s.procs ==> !s.procs[act.p].pc.Dead?)
  {
    hide Verify, Ids, Record, Load;
  }

  lemma {:induction false} StaysTogether(c: Crypto, fabric: Bytes32, run: seq<Action>, n: nat, id: Bytes16)
    requires Exec(c, fabric, Init(), run).Some? && Alone(c, fabric, run) && n <= |run|
    ensures Together(StateAt(c, fabric, run, n), id)
    decreases n
  {
    hide Next, Together;
    if n > 0 {
      StaysTogether(c, fabric, run, n - 1, id);
      StepAt(c, fabric, run, n - 1);
      TogetherStep(c, fabric, StateAt(c, fabric, run, n - 1), run[n - 1], id);
    } else {
      NothingTogether(id);
    }
  }

  lemma NothingTogether(id: Bytes16)
    ensures Together(Init(), id)
  {
  }

  /** The step from the state after `i` actions to the next. */
  lemma StepAt(c: Crypto, fabric: Bytes32, run: seq<Action>, i: nat)
    requires i < |run| && Exec(c, fabric, Init(), run).Some?
    ensures Next(c, fabric, StateAt(c, fabric, run, i), run[i]) == Some(StateAt(c, fabric, run, i + 1))
    ensures Inv(c, fabric, StateAt(c, fabric, run, i)) && Inv(c, fabric, StateAt(c, fabric, run, i + 1))
  {
    hide Next, Inv, Exec;
    var before := run[..i + 1];
    ExecSplit(c, fabric, Init(), run, i + 1);
    LastStep(c, fabric, before);
    SameBefore(c, fabric, run, i + 1, i);
    assert Reachable(c, fabric, StateAt(c, fabric, run, i + 1));
    ReachableInv(c, fabric, StateAt(c, fabric, run, i + 1));
  }

  lemma TheDeadKeepNothing(c: Crypto, fabric: Bytes32, s: State, p: nat, id: Bytes16)
    requires Inv(c, fabric, s) && Keeps(s, p, id)
    ensures p in s.procs && !s.procs[p].pc.Dead?
  {
    hide LockInv, LogInv, OriginInv, GrantInv, AuthInv;
  }

  /** A grant that is kept and not in the image was issued by the process that keeps it,
      and nothing was persisted since. */
  lemma {:induction false} KeptUnsaved(c: Crypto, fabric: Bytes32, run: seq<Action>, n: nat, p: nat, id: Bytes16) returns (j: nat)
    requires Exec(c, fabric, Init(), run).Some? && Alone(c, fabric, run) && n <= |run|
    requires Keeps(StateAt(c, fabric, run, n), p, id) && !Has(StateAt(c, fabric, run, n).image, id)
    ensures Unsaved(c, fabric, run, j, n, p, id)
    decreases n
  {
    hide Next, Has, Keeps, Inv, Exec;
    if n == 0 {
      NothingKept(c, fabric, run, p, id);
      assert false;
    } else {
      var s, act := StateAt(c, fabric, run, n - 1), run[n - 1];
      StepAt(c, fabric, run, n - 1);
      StepIsPlaced(c, fabric, s, act, id);
      StaysTogether(c, fabric, run, n - 1, id);
      if Keeps(s, p, id) {
        TheDeadKeepNothing(c, fabric, s, p, id);
        j := KeptUnsaved(c, fabric, run, n - 1, p, id);
      } else {
        j := n - 1;
      }
    }
  }

  lemma NothingKept(c: Crypto, fabric: Bytes32, run: seq<Action>, p: nat, id: Bytes16)
    requires Exec(c, fabric, Init(), run).Some?
    ensures !Keeps(StateAt(c, fabric, run, 0), p, id)
  {
  }

  /** From a grant that was not persisted until the next write: the issuer keeps it as
      long as it lives, and the image does not have it. */
  lemma {:induction false} UnsavedSoFar(c: Crypto, fabric: Bytes32, run: seq<Action>, j: nat, i: nat, p: nat, id: Bytes16)
    requires Exec(c, fabric, Init(), run).Some? && Unsaved(c, fabric, run, j, i, p, id)
    ensures
      var s := StateAt(c, fabric, run, i);
      && !Has(s.image, id) && p in s.procs && (s.procs[p].pc.Dead? || Keeps(s, p, id))
    decreases i
  {
    hide Next, Has, Keeps, Inv, Exec;
    var s, act := StateAt(c, fabric, run, i - 1), run[i - 1];
    StepAt(c, fabric, run, i - 1);
    StepIsPlaced(c, fabric, s, act, id);
    StepMovesOne(c, fabric, s, act);
    DiesByCrash(c, fabric, s, act);
    if i - 1 == j {
      DueIsNotStored(c, fabric, s, p, id);
    } else {
      UnsavedSoFar(c, fabric, run, j, i - 1, p, id);
    }
  }

  lemma DueIsNotStored(c: Crypto, fabric: Bytes32, s: State, p: nat, id: Bytes16)
    requires Inv(c, fabric, s) && Grants(s, p, id)
    ensures !Has(s.image, id)
  {
    hide LockInv, LogInv, OriginInv, AuthInv;
    PendingMeans(s, p, id);
  }

  /** The process dies before the grant was issued, or after it was issued and not
      persisted, and before anything was persisted since. */
  ghost predicate DiesWithGrant(c: Crypto, fabric: Bytes32, run: seq<Action>, i: nat, id: Bytes16)
    requires i < |run| && Exec(c, fabric, Init(), run).Some?
  {
    run[i].Crash? &&
    (Grants(StateAt(c, fabric, run, i), run[i].p, id) || exists j :: Unsaved(c, fabric, run, j, i, run[i].p, id))
  }

  lemma LossAlone(c: Crypto, fabric: Bytes32, run: seq<Action>, i: nat, id: Bytes16)
    requires i < |run| && Exec(c, fabric, Init(), run).Some? && Alone(c, fabric, run)
    ensures Loses(StateAt(c, fabric, run, i), run[i], id) <==> DiesWithGrant(c, fabric, run, i, id)
  {
    hide Next, Inv, Exec, Has, Keeps, Unsaved, Grants, SomeoneKeeps, AnotherKeeps, StateAt;
    var s, act := StateAt(c, fabric, run, i), run[i];
    StepAt(c, fabric, run, i);
    DiesByCrash(c, fabric, s, act);
    StaysTogether(c, fabric, run, i, id);
    NobodyElseKeeps(c, fabric, s, act, id);
    if act.Crash? && Keeps(s, act.p, id) && !Has(s.image, id) {
      var j := KeptUnsaved(c, fabric, run, i, act.p, id);
    }
    if j :| act.Crash? && Unsaved(c, fabric, run, j, i, act.p, id) {
      UnsavedSoFar(c, fabric, run, j, i, act.p, id);
    }
    WritersLive(act);
  }

  lemma WritersLive(act: Action)
    ensures WritesImage(act) ==> !act.Open? && !act.Crash?
  {
  }

  lemma NobodyElseKeeps(c: Crypto, fabric: Bytes32, s: State, act: Action, id: Bytes16)
    requires Inv(c, fabric, s) && ActsAlone(s, act)
    ensures !AnotherKeeps(s, act.p, id)
    ensures SomeoneKeeps(s, id) <==> Keeps(s, act.p, id)
  {
    hide Inv, Has;
    if q :| q != act.p && Keeps(s, q, id) {
      TheDeadKeepNothing(c, fabric, s, q, id);
    }
  }

  /** Where processes take turns, over every such run a confirmed invite has no grant
      stored, and none due, exactly when its process died before the grant was issued,
      or after the grant failed to be persisted and before a later persist succeeded. */
  lemma LostAloneExactly(c: Crypto, fabric: Bytes32, run: seq<Action>, id: Bytes16)
    requires Exec(c, fabric, Init(), run).Some? && Alone(c, fabric, run)
    ensures Ungranted(Exec(c, fabric, Init(), run).value, id)
       <==> exists i :: 0 <= i < |run| && DiesWithGrant(c, fabric, run, i, id)
  {
    hide Ungranted, Exec, Alone, Loses, DiesWithGrant;
    UngrantedExactly(c, fabric, run, id);
    forall i | 0 <= i < |run|
      ensures Loses(StateAt(c, fabric, run, i), run[i], id) <==> DiesWithGrant(c, fabric, run, i, id)
    {
      LossAlone(c, fabric, run, i, id);
    }
  }

  // ---- Processes that do not ---------------------------------------------------------------------

  lemma ExecStep(c: Crypto, fabric: Bytes32, s: State, run: seq<Action>, s1: State)
    requires run != [] && Next(c, fabric, s, run[0]) == Some(s1)
    ensures Exec(c, fabric, s, run) == Exec(c, fabric, s1, run[1..])
  {
    hide Next;
  }

  function OverwritingRun(a: Attempt): seq<Action> {
    [Open(0), Open(1), Learn(0, IssuerOf(a.token)), Begin(0, a), Lock(0), Reload(0, 0), Append(0, RECORD_LEN), Sync(0),
     Issue(0, 0, true), Crash(0), Persist(1)]
  }

  /** The issuing process of the run. */
  function Proc0(a: Attempt, cache: set<Bytes16>, kept: set<Issued>, pc: Pc): Proc {
    Proc(cache, Some(IssuerOf(a.token)), kept, false, false, pc)
  }

  const FRESH: Proc := Proc({}, None, {}, false, false, Idle)

  /** Two processes: the issuer and one that has only opened the directory. */
  function Two(x: Proc): map<nat, Proc> {
    map[0 := x, 1 := FRESH]
  }

  lemma TwoMoves(x: Proc, y: Proc)
    ensures Two(x)[0 := y] == Two(y)
    ensures 0 in Two(x) && Two(x)[0] == x && 1 in Two(x) && Two(x)[1] == FRESH
  {
  }

  lemma Opened(c: Crypto, fabric: Bytes32, a: Attempt)
    ensures Exec(c, fabric, Init(), OverwritingRun(a)) == Exec(c, fabric, Init().(procs := Two(FRESH)), OverwritingRun(a)[2..])
  {
    hide Verify;
    var run := OverwritingRun(a);
    var s1 := OpenNext(Init(), 0).value;
    ExecStep(c, fabric, Init(), run, s1);
    assert s1.procs[1 := FRESH] == Two(FRESH);
    ExecStep(c, fabric, s1, run[1..], Init().(procs := Two(FRESH)));
  }

  /** One step of process 0, seen by what it does to the state. */
  lemma Moves(c: Crypto, fabric: Bytes32, s: State, run: seq<Action>, x: Proc, y: Proc, s1: State)
    requires run != [] && s.procs == Two(x) && s1.procs == Two(y)
    requires Next(c, fabric, s, run[0]).Some? && Next(c, fabric, s, run[0]).value == s1.(procs := Two(x)[0 := y])
    ensures Exec(c, fabric, s, run) == Exec(c, fabric, s1, run[1..])
  {
    hide Next;
    TwoMoves(x, y);
    assert s1.(procs := Two(x)[0 := y]) == s1;
    ExecStep(c, fabric, s, run, s1);
  }

  lemma TakenUpToLock(c: Crypto, fabric: Bytes32, a: Attempt)
    requires a.redeemer == a.peer && Verify(c, fabric, Some(IssuerOf(a.token)), a).Ok?
    ensures
      Exec(c, fabric, Init().(procs := Two(FRESH)), OverwritingRun(a)[2..])
        == Exec(c, fabric, Init().(procs := Two(Proc0(a, {}, {}, Locking(a))), passed := {a}), OverwritingRun(a)[4..])
  {
    hide Verify, Record, Two;
    var run := OverwritingRun(a);
    var x2, x3, x4 := FRESH, Proc0(a, {}, {}, Idle), Proc0(a, {}, {}, Locking(a));
    TwoMoves(x2, x3);
    TwoMoves(x3, x4);
    var s3 := Init().(procs := Two(x3));
    Moves(c, fabric, Init().(procs := Two(x2)), run[2..], x2, x3, s3);
    Moves(c, fabric, s3, run[3..], x3, x4, s3.(procs := Two(x4), passed := {a}));
  }

  lemma LockedToAppend(c: Crypto, fabric: Bytes32, a: Attempt, s4: State)
    requires s4 == Init().(procs := Two(Proc0(a, {}, {}, Locking(a))), passed := {a})
    ensures
      Exec(c, fabric, s4, OverwritingRun(a)[4..])
        == Exec(c, fabric, s4.(procs := Two(Proc0(a, {}, {}, Appending(a, Record(Id(a), 0), 0))), holder := Some(0)), OverwritingRun(a)[6..])
  {
    hide Verify, Record, Two;
    var run := OverwritingRun(a);
    var x4, x5, x6 := Proc0(a, {}, {}, Locking(a)), Proc0(a, {}, {}, Reloading(a)), Proc0(a, {}, {}, Appending(a, Record(Id(a), 0), 0));
    TwoMoves(x4, x5);
    TwoMoves(x5, x6);
    var s5 := s4.(procs := Two(x5), holder := Some(0));
    Moves(c, fabric, s4, run[4..], x4, x5, s5);
    Moves(c, fabric, s5, run[5..], x5, x6, s5.(procs := Two(x6)));
  }

  /** The state once the grant has been issued and persisted. */
  function Durable(a: Attempt): State {
    var g := Issued(0, a, a.redeemer, 0);
    State(Record(Id(a), 0), None, Two(Proc0(a, {Id(a)}, {g}, Idle)), {a}, [Id(a)], [g], {g}, {}, {})
  }

  /** The state with the whole record down. */
  function Recorded(a: Attempt): State {
    State(Record(Id(a), 0), Some(0), Two(Proc0(a, {}, {}, Appending(a, Record(Id(a), 0), RECORD_LEN))), {a}, [], [], {}, {}, {})
  }

  lemma Appended(c: Crypto, fabric: Bytes32, a: Attempt, s6: State)
    requires s6 == Init().(procs := Two(Proc0(a, {}, {}, Appending(a, Record(Id(a), 0), 0))), holder := Some(0), passed := {a})
    ensures Exec(c, fabric, s6, OverwritingRun(a)[6..]) == Exec(c, fabric, Recorded(a), OverwritingRun(a)[7..])
  {
    hide Verify, Record, Two;
    var run := OverwritingRun(a);
    var record := Record(Id(a), 0);
    var x6, x7 := Proc0(a, {}, {}, Appending(a, record, 0)), Proc0(a, {}, {}, Appending(a, record, RECORD_LEN));
    TwoMoves(x6, x7);
    assert [] + record[0..RECORD_LEN] == record;
    Moves(c, fabric, s6, run[6..], x6, x7, Recorded(a));
  }

  lemma SyncedAndIssued(c: Crypto, fabric: Bytes32, a: Attempt)
    ensures Exec(c, fabric, Recorded(a), OverwritingRun(a)[7..]) == Exec(c, fabric, Durable(a), OverwritingRun(a)[9..])
  {
    hide Verify, Record, Two;
    var run := OverwritingRun(a);
    var g := Issued(0, a, a.redeemer, 0);
    var x7 := Proc0(a, {}, {}, Appending(a, Record(Id(a), 0), RECORD_LEN));
    var x8, x9 := Proc0(a, {Id(a)}, {}, Granting(a)), Proc0(a, {Id(a)}, {g}, Idle);
    TwoMoves(x7, x8);
    TwoMoves(x8, x9);
    assert {} + {Id(a)} == {Id(a)} && [] + [Id(a)] == [Id(a)];
    var s8 := Recorded(a).(procs := Two(x8), holder := None, oks := [Id(a)]);
    Moves(c, fabric, Recorded(a), run[7..], x7, x8, s8);
    assert {} + {g} == {g} && [] + [g] == [g];
    Moves(c, fabric, s8, run[8..], x8, x9, Durable(a));
  }

  lemma DiesAndIsOverwritten(c: Crypto, fabric: Bytes32, a: Attempt)
    ensures
      var s := Exec(c, fabric, Durable(a), OverwritingRun(a)[9..]);
      s.Some? && |s.value.grants| == 1 && Ungranted(s.value, Id(a))
  {
    hide Verify, Record, Two;
    var run := OverwritingRun(a);
    var g := Issued(0, a, a.redeemer, 0);
    var x9, x10 := Proc0(a, {Id(a)}, {g}, Idle), Proc0(a, {Id(a)}, {}, Dead);
    TwoMoves(x9, x10);
    TwoMoves(x10, x10);
    var s10 := Durable(a).(procs := Two(x10));
    Moves(c, fabric, Durable(a), run[9..], x9, x10, s10);
    var s11 := s10.(image := {});
    ExecStep(c, fabric, s10, run[10..], s11);
    NobodyStores(s11, a, x10);
  }

  lemma NobodyStores(s: State, a: Attempt, x: Proc)
    requires s.procs == Two(x) && x.kept == {} && x.pc.Dead? && s.image == {} && s.outside == {} && s.oks == [Id(a)]
    ensures Ungranted(s, Id(a))
  {
  }

  /** A grant that was issued and persisted without any failure can still be lost: another
      process that had opened before overwrites the image after the issuer's end. */
  lemma OverwriteLosesGrant(c: Crypto, fabric: Bytes32, a: Attempt)
    requires a.redeemer == a.peer && Verify(c, fabric, Some(IssuerOf(a.token)), a).Ok?
    ensures exists run: seq<Action> ::
      && Exec(c, fabric, Init(), run).Some?
      && (forall i :: 0 <= i < |run| && run[i].Issue? ==> run[i].disk)
      && |Exec(c, fabric, Init(), run).value.grants| == 1
      && Ungranted(Exec(c, fabric, Init(), run).value, Id(a))
  {
    hide Exec, Verify, Two, Record, Ungranted;
    Opened(c, fabric, a);
    TakenUpToLock(c, fabric, a);
    var s4 := Init().(procs := Two(Proc0(a, {}, {}, Locking(a))), passed := {a});
    LockedToAppend(c, fabric, a, s4);
    Appended(c, fabric, a, s4.(procs := Two(Proc0(a, {}, {}, Appending(a, Record(Id(a), 0), 0))), holder := Some(0)));
    SyncedAndIssued(c, fabric, a);
    DiesAndIsOverwritten(c, fabric, a);
  }
}
