/** Where every consumed invite comes from and where it goes: over every run, who put an
    id into the log, and exactly when an invite is spent with no grant stored. */
module InviteHistory {
  import opened Bytes
  import opened Facts
  import opened InviteLog
  import opened RedeemVerify
  import opened Redemption
  import RosterImage
  import RosterState

  // ---- Runs, one step at a time ------------------------------------------------------------

  lemma {:induction false} ExecSplit(c: Crypto, fabric: Bytes32, s: State, run: seq<Action>, i: nat)
    requires i <= |run| && Exec(c, fabric, s, run).Some?
    ensures Exec(c, fabric, s, run[..i]).Some?
    ensures Exec(c, fabric, Exec(c, fabric, s, run[..i]).value, run[i..]) == Exec(c, fabric, s, run)
    decreases i
  {
    hide Next;
    if i > 0 {
      ExecSplit(c, fabric, Next(c, fabric, s, run[0]).value, run[1..], i - 1);
      assert run[..i][1..] == run[1..][..i - 1] && run[1..][i - 1..] == run[i..];
    } else {
      assert run[0..] == run;
    }
  }

  /** The state a run reaches after its first `i` actions. */
  ghost function StateAt(c: Crypto, fabric: Bytes32, run: seq<Action>, i: nat): State
    requires i <= |run| && Exec(c, fabric, Init(), run).Some?
  {
    ExecSplit(c, fabric, Init(), run, i);
    Exec(c, fabric, Init(), run[..i]).value
  }

  /** The last step of a run. */
  lemma LastStep(c: Crypto, fabric: Bytes32, run: seq<Action>)
    requires run != [] && Exec(c, fabric, Init(), run).Some?
    ensures
      var n := |run| - 1;
      && Exec(c, fabric, Init(), run[..n]).Some?
      && Inv(c, fabric, StateAt(c, fabric, run, n))
      && Next(c, fabric, StateAt(c, fabric, run, n), run[n]) == Exec(c, fabric, Init(), run)
  {
    hide Next, Inv;
    var n := |run| - 1;
    ExecSplit(c, fabric, Init(), run, n);
    assert run[n..] == [run[n]];
    assert [run[n]][1..] == [];
    assert Reachable(c, fabric, Exec(c, fabric, Init(), run[..n]).value);
    ReachableInv(c, fabric, Exec(c, fabric, Init(), run[..n]).value);
  }

  lemma SameBefore(c: Crypto, fabric: Bytes32, run: seq<Action>, n: nat, i: nat)
    requires i <= n <= |run| && Exec(c, fabric, Init(), run).Some?
    ensures Exec(c, fabric, Init(), run[..n]).Some?
    ensures StateAt(c, fabric, run[..n], i) == StateAt(c, fabric, run, i)
  {
    hide Exec;
    ExecSplit(c, fabric, Init(), run, n);
    assert run[..n][..i] == run[..i];
  }

  // ---- Into the log ----------------------------------------------------------------------------

  /** The process takes the attempt up: its request and gate flags are down, the redeemer
      is the TLS peer and verification succeeds. */
  ghost predicate TakenUp(c: Crypto, fabric: Bytes32, s: State, act: Action, a: Attempt) {
    && act.Begin? && act.a == a && act.p in s.procs && s.procs[act.p].pc.Idle?
    && !s.procs[act.p].requested && !s.procs[act.p].gate
    && a.redeemer == a.peer && Verify(c, fabric, s.procs[act.p].root, a).Ok?
  }

  lemma PassedStep(c: Crypto, fabric: Bytes32, s: State, act: Action, a: Attempt)
    requires Next(c, fabric, s, act).Some?
    ensures a in Next(c, fabric, s, act).value.passed <==> a in s.passed || TakenUp(c, fabric, s, act, a)
  {
    hide Verify, Ids, Record;
  }

  lemma {:induction false} PassedWasTakenUp(c: Crypto, fabric: Bytes32, run: seq<Action>, a: Attempt) returns (i: nat)
    requires Exec(c, fabric, Init(), run).Some? && a in Exec(c, fabric, Init(), run).value.passed
    ensures i < |run| && TakenUp(c, fabric, StateAt(c, fabric, run, i), run[i], a)
    decreases |run|
  {
    hide Next, Inv, TakenUp;
    assert run != [];
    var n := |run| - 1;
    LastStep(c, fabric, run);
    PassedStep(c, fabric, StateAt(c, fabric, run, n), run[n], a);
    if TakenUp(c, fabric, StateAt(c, fabric, run, n), run[n], a) {
      i := n;
    } else {
      i := PassedWasTakenUp(c, fabric, run[..n], a);
      SameBefore(c, fabric, run, n, i);
    }
  }

  /** Over every run an id is in the log only if an attempt with it was taken up by a
      process whose request and gate flags were both down at that step. */
  lemma ConsumedAtOpenGate(c: Crypto, fabric: Bytes32, run: seq<Action>, id: Bytes16)
    requires Exec(c, fabric, Init(), run).Some? && id in Ids(Exec(c, fabric, Init(), run).value.log)
    ensures exists i, a :: 0 <= i < |run| && Id(a) == id && TakenUp(c, fabric, StateAt(c, fabric, run, i), run[i], a)
  {
    hide Exec, Ids, TakenUp, LockInv, LogInv, GrantInv, AuthInv;
    var s := Exec(c, fabric, Init(), run).value;
    assert Reachable(c, fabric, s);
    ReachableInv(c, fabric, s);
    var a :| a in s.passed && Id(a) == id;
    var i := PassedWasTakenUp(c, fabric, run, a);
  }

  /** The same of every grant ever stored, for the very attempt it was issued for. */
  lemma GrantedAtOpenGate(c: Crypto, fabric: Bytes32, run: seq<Action>, g: nat)
    requires Exec(c, fabric, Init(), run).Some? && g < |Exec(c, fabric, Init(), run).value.grants|
    ensures
      var a := Exec(c, fabric, Init(), run).value.grants[g].attempt;
      exists i :: 0 <= i < |run| && TakenUp(c, fabric, StateAt(c, fabric, run, i), run[i], a)
  {
    hide Exec, Ids, TakenUp, LockInv, LogInv, GrantInv, OriginInv;
    var s := Exec(c, fabric, Init(), run).value;
    assert Reachable(c, fabric, s);
    ReachableInv(c, fabric, s);
    var i := PassedWasTakenUp(c, fabric, run, s.grants[g].attempt);
  }

  // ---- One process moves at a time ---------------------------------------------------------------

  /** Every process but `p` stands where it stood. */
  ghost predicate OnlyMoved(s: State, p: nat, s': State) {
    && p in s'.procs
    && forall q :: q != p ==> (q in s'.procs <==> q in s.procs) && (q in s.procs ==> s'.procs[q].pc == s.procs[q].pc)
  }

  lemma StepMovesOne(c: Crypto, fabric: Bytes32, s: State, act: Action)
    requires Next(c, fabric, s, act).Some?
    ensures OnlyMoved(s, act.p, Next(c, fabric, s, act).value)
  {
    hide Ids, Verify, Record, Load;
  }

  // ---- Spent without a confirmation --------------------------------------------------------------

  predicate Writes(s: State, p: nat, id: Bytes16) {
    p in s.procs && s.procs[p].pc.Appending? && Id(s.procs[p].pc.a) == id
  }

  ghost predicate Written(s: State, id: Bytes16) {
    exists p :: Writes(s, p, id)
  }

  /** The id is in the log, no Ok(true) was given for it, and nobody is writing it. */
  ghost predicate Unconfirmed(s: State, id: Bytes16) {
    id in Ids(s.log) && id !in s.oks && !Written(s, id)
  }

  /** The step gives up a record that is down whole and not yet confirmed: the write or
      the sync reports a failure, or the process dies. */
  ghost predicate Abandons(s: State, act: Action, id: Bytes16) {
    (act.AppendFails? || act.Crash?) && Writes(s, act.p, id) && s.procs[act.p].pc.written == RECORD_LEN
  }

  /** What the invariant says of the record that is going down. */
  lemma WriterMeans(c: Crypto, fabric: Bytes32, s: State, p: nat)
    requires Inv(c, fabric, s) && p in s.procs && s.procs[p].pc.Appending?
    ensures
      var pc := s.procs[p].pc;
      && |pc.record| == RECORD_LEN && pc.written <= RECORD_LEN
      && Id(pc.a) !in s.oks
      && (Id(pc.a) in Ids(s.log) <==> pc.written == RECORD_LEN)
    ensures forall q, id :: Writes(s, q, id) ==> q == p
  {
    hide OriginInv, GrantInv, AuthInv, KeptInv, Ids;
    var pc := s.procs[p].pc;
    assert TailOk(s.log, s.oks, pc);
    OneAppends(s, p);
    IdsOfTail(Base(s, pc), pc.record[..pc.written]);
    assert pc.record[..RECORD_LEN] == pc.record;
  }

  /** Whether an id is being written depends on the one process that moved. */
  lemma WrittenAfter(s: State, p: nat, s': State, id: Bytes16)
    requires OnlyMoved(s, p, s')
    ensures !Writes(s, p, id) && !Writes(s', p, id) ==> (Written(s', id) <==> Written(s, id))
    ensures Writes(s', p, id) ==> Written(s', id)
    ensures Writes(s, p, id) ==> Written(s, id)
    ensures (forall q :: Writes(s, q, id) ==> q == p) && !Writes(s', p, id) ==> !Written(s', id)
  {
    if Written(s, id) {
      var q :| Writes(s, q, id);
      assert q != p ==> Writes(s', q, id);
    }
    if Written(s', id) {
      var q :| Writes(s', q, id);
      assert q != p ==> Writes(s, q, id);
    }
  }

  lemma WriterStops(c: Crypto, fabric: Bytes32, s: State, act: Action, id: Bytes16)
    requires Inv(c, fabric, s) && Next(c, fabric, s, act).Some? && (act.AppendFails? || act.Crash?)
    ensures Unconfirmed(Next(c, fabric, s, act).value, id) <==> Unconfirmed(s, id) || Abandons(s, act, id)
  {
    hide Inv, Ids, Written, OnlyMoved;
    var s' := Next(c, fabric, s, act).value;
    StepMovesOne(c, fabric, s, act);
    WrittenAfter(s, act.p, s', id);
    if Writes(s, act.p, id) {
      WriterMeans(c, fabric, s, act.p);
    }
  }

  lemma AppendGoesOn(c: Crypto, fabric: Bytes32, s: State, act: Action, id: Bytes16)
    requires Inv(c, fabric, s) && Next(c, fabric, s, act).Some? && act.Append?
    ensures Unconfirmed(Next(c, fabric, s, act).value, id) <==> Unconfirmed(s, id)
  {
    AppendMeans(s, act.p, act.k);
    hide Inv, Ids, TailOk, Written, OnlyMoved;
    var s' := Next(c, fabric, s, act).value;
    StepMovesOne(c, fabric, s, act);
    WrittenAfter(s, act.p, s', id);
  }

  lemma ReloadGoesOn(c: Crypto, fabric: Bytes32, s: State, act: Action, id: Bytes16)
    requires Next(c, fabric, s, act).Some? && act.Reload?
    ensures Unconfirmed(Next(c, fabric, s, act).value, id) <==> Unconfirmed(s, id)
  {
    hide Ids, Record, Written, OnlyMoved;
    var s' := Next(c, fabric, s, act).value;
    StepMovesOne(c, fabric, s, act);
    WrittenAfter(s, act.p, s', id);
  }

  lemma SyncGoesOn(c: Crypto, fabric: Bytes32, s: State, act: Action, id: Bytes16)
    requires Inv(c, fabric, s) && Next(c, fabric, s, act).Some? && act.Sync?
    ensures Unconfirmed(Next(c, fabric, s, act).value, id) <==> Unconfirmed(s, id)
  {
    hide Inv, Ids, Written, OnlyMoved;
    var s' := Next(c, fabric, s, act).value;
    StepMovesOne(c, fabric, s, act);
    WrittenAfter(s, act.p, s', id);
    if Writes(s, act.p, id) {
      assert s'.oks[|s.oks|] == id;
    } else {
      assert id in s'.oks <==> id in s.oks;
    }
  }

  lemma OtherStays(c: Crypto, fabric: Bytes32, s: State, act: Action, id: Bytes16)
    requires Next(c, fabric, s, act).Some?
    requires !act.Append? && !act.Sync? && !act.Reload? && !act.AppendFails? && !act.Crash?
    ensures Unconfirmed(Next(c, fabric, s, act).value, id) <==> Unconfirmed(s, id)
  {
    hide Ids, Verify, Written, OnlyMoved;
    StepMovesOne(c, fabric, s, act);
    WrittenAfter(s, act.p, Next(c, fabric, s, act).value, id);
  }

  lemma UnconfirmedStep(c: Crypto, fabric: Bytes32, s: State, act: Action, id: Bytes16)
    requires Inv(c, fabric, s) && Next(c, fabric, s, act).Some?
    ensures Unconfirmed(Next(c, fabric, s, act).value, id) <==> Unconfirmed(s, id) || Abandons(s, act, id)
  {
    hide Inv, Next, Unconfirmed;
    if act.AppendFails? || act.Crash? {
      WriterStops(c, fabric, s, act, id);
    } else if act.Append? {
      AppendGoesOn(c, fabric, s, act, id);
    } else if act.Sync? {
      SyncGoesOn(c, fabric, s, act, id);
    } else if act.Reload? {
      ReloadGoesOn(c, fabric, s, act, id);
    } else {
      OtherStays(c, fabric, s, act, id);
    }
  }

  // ---- Confirmed without a grant -------------------------------------------------------------------

  predicate Grants(s: State, p: nat, id: Bytes16) {
    p in s.procs && s.procs[p].pc.Granting? && Id(s.procs[p].pc.a) == id
  }

  ghost predicate GrantPending(s: State, id: Bytes16) {
    exists p :: Grants(s, p, id)
  }

  ghost predicate Has(xs: set<Issued>, id: Bytes16) {
    exists x :: x in xs && Id(x.attempt) == id
  }

  ghost predicate Keeps(s: State, p: nat, id: Bytes16) {
    p in s.procs && Has(s.procs[p].kept, id)
  }

  ghost predicate SomeoneKeeps(s: State, id: Bytes16) {
    exists p :: Keeps(s, p, id)
  }

  ghost predicate AnotherKeeps(s: State, p: nat, id: Bytes16) {
    exists q :: q != p && Keeps(s, q, id)
  }

  /** A grant for the id is stored: in the image, in the roster of a live process, or at
      another node. */
  ghost predicate Stored(s: State, id: Bytes16) {
    Has(s.image, id) || Has(s.outside, id) || SomeoneKeeps(s, id)
  }

  /** Ok(true) was given for the id, no grant for it is stored, and none is due. */
  ghost predicate Ungranted(s: State, id: Bytes16) {
    id in s.oks && !GrantPending(s, id) && !Stored(s, id)
  }

  predicate WritesImage(act: Action) {
    act.Persist? || (act.Issue? && act.disk)
  }

  /** The process dies before it has issued the grant that was due. */
  ghost predicate Lapses(s: State, act: Action, id: Bytes16) {
    act.Crash? && Grants(s, act.p, id)
  }

  /** The last copy of the grant goes: the one process that keeps it dies before it was
      persisted or sent, or the image that holds it is overwritten by a process whose
      roster does not, while no live process keeps it and no other node has it. */
  ghost predicate Drops(s: State, act: Action, id: Bytes16) {
    && !Has(s.outside, id)
    && ((act.Crash? && Keeps(s, act.p, id) && !AnotherKeeps(s, act.p, id) && !Has(s.image, id))
        || (WritesImage(act) && Has(s.image, id) && !SomeoneKeeps(s, id)))
  }

  ghost predicate Loses(s: State, act: Action, id: Bytes16) {
    Lapses(s, act, id) || Drops(s, act, id)
  }

  /** A grant that is due is the only one for its id. */
  lemma PendingMeans(s: State, p: nat, id: Bytes16)
    requires GrantInv(s) && KeptInv(s) && Grants(s, p, id)
    ensures id in s.oks && !Stored(s, id) && GrantPending(s, id)
    ensures forall q :: Grants(s, q, id) ==> q == p
  {
    if SomeoneKeeps(s, id) {
      var q :| Keeps(s, q, id);
      HasIsGranted(s, s.procs[q].kept, id);
    }
    if Has(s.image, id) {
      HasIsGranted(s, s.image, id);
    }
    if Has(s.outside, id) {
      HasIsGranted(s, s.outside, id);
    }
  }

  /** What is kept was issued, for an id that was confirmed and for which no grant is due. */
  lemma HasIsGranted(s: State, xs: set<Issued>, id: Bytes16)
    requires GrantInv(s) && Has(xs, id) && forall x :: x in xs ==> x in s.grants
    ensures id in s.oks
    ensures forall p :: !Grants(s, p, id)
  {
    var x :| x in xs && Id(x.attempt) == id;
    var g :| 0 <= g < |s.grants| && s.grants[g] == x;
  }

  lemma StoredIsConfirmed(s: State, id: Bytes16)
    requires GrantInv(s) && KeptInv(s) && Stored(s, id)
    ensures id in s.oks && !GrantPending(s, id)
  {
    if Has(s.image, id) {
      HasIsGranted(s, s.image, id);
    } else if Has(s.outside, id) {
      HasIsGranted(s, s.outside, id);
    } else {
      var q :| Keeps(s, q, id);
      HasIsGranted(s, s.procs[q].kept, id);
    }
  }

  /** Whether a grant is due depends on the one process that moved. */
  lemma PendingAfter(s: State, p: nat, s': State, id: Bytes16)
    requires OnlyMoved(s, p, s')
    ensures !Grants(s, p, id) && !Grants(s', p, id) ==> (GrantPending(s', id) <==> GrantPending(s, id))
    ensures Grants(s', p, id) ==> GrantPending(s', id)
    ensures Grants(s, p, id) ==> GrantPending(s, id)
    ensures (forall q :: Grants(s, q, id) ==> q == p) && !Grants(s', p, id) ==> !GrantPending(s', id)
  {
    if GrantPending(s, id) {
      var q :| Grants(s, q, id);
      assert q != p ==> Grants(s', q, id);
    }
    if GrantPending(s', id) {
      var q :| Grants(s', q, id);
      assert q != p ==> Grants(s, q, id);
    }
  }

  /** So does who keeps a grant. */
  lemma KeepersAfter(s: State, p: nat, s': State, id: Bytes16)
    requires forall q :: q != p ==> (Keeps(s', q, id) <==> Keeps(s, q, id))
    ensures SomeoneKeeps(s, id) <==> Keeps(s, p, id) || AnotherKeeps(s, p, id)
    ensures SomeoneKeeps(s', id) <==> Keeps(s', p, id) || AnotherKeeps(s, p, id)
  {
    if q :| q != p && Keeps(s', q, id) {
      assert Keeps(s, q, id);
    }
    if q :| q != p && Keeps(s, q, id) {
      assert Keeps(s', q, id);
    }
  }

  lemma HasUnion(xs: set<Issued>, ys: set<Issued>, id: Bytes16)
    ensures Has(xs + ys, id) <==> Has(xs, id) || Has(ys, id)
  {
    if Has(xs, id) {
      var x :| x in xs && Id(x.attempt) == id;
      assert x in xs + ys;
    }
    if Has(ys, id) {
      var x :| x in ys && Id(x.attempt) == id;
      assert x in xs + ys;
    }
  }

  lemma HasOne(x: Issued, id: Bytes16)
    ensures Has({x}, id) <==> Id(x.attempt) == id
  {
    assert x in {x};
  }

  /** Where the grants of an id are after a step. */
  ghost predicate Placed(s: State, act: Action, id: Bytes16, s': State) {
    var p := act.p;
    && (forall q :: q != p ==> (Keeps(s', q, id) <==> Keeps(s, q, id)))
    && (Keeps(s', p, id) <==>
          !act.Crash? && (Keeps(s, p, id) || (act.Issue? && Grants(s, p, id)) || (act.Open? && Has(s.image, id))
                          || (act.Receive? && Has(act.xs, id))))
    && (Has(s'.image, id) <==> if WritesImage(act) then Keeps(s', p, id) else Has(s.image, id))
    && (Has(s'.outside, id) <==> Has(s.outside, id) || (act.Send? && Keeps(s, p, id)))
    && (act.Receive? && Has(act.xs, id) ==> Has(s.outside, id))
  }

  lemma IssueIsPlaced(s: State, p: nat, now: u64, disk: bool, id: Bytes16)
    requires p in s.procs && IssueNext(s, p, now, disk).Some?
    ensures Placed(s, Issue(p, now, disk), id, IssueNext(s, p, now, disk).value)
  {
    var x := s.procs[p];
    var g := Issued(p, x.pc.a, x.pc.a.redeemer, now);
    HasUnion(x.kept, {g}, id);
    HasOne(g, id);
    hide Has;
  }

  lemma MoveIsPlaced(c: Crypto, fabric: Bytes32, s: State, act: Action, id: Bytes16)
    requires (act.Open? || act.Persist? || act.Send? || act.Receive? || act.Crash?) && Next(c, fabric, s, act).Some?
    ensures Placed(s, act, id, Next(c, fabric, s, act).value)
  {
    if act.Send? {
      HasUnion(s.outside, s.procs[act.p].kept, id);
    }
    if act.Receive? {
      HasUnion(s.procs[act.p].kept, act.xs, id);
      assert Has(act.xs, id) ==> Has(s.outside, id);
    }
    assert !Has({}, id);
    hide Has, Load, BeginNext, LockNext, ReloadNext, AppendNext, SyncNext, AppendFailsNext, IssueNext, FlagNext;
  }

  lemma OtherIsPlaced(c: Crypto, fabric: Bytes32, s: State, act: Action, id: Bytes16)
    requires !(act.Open? || act.Persist? || act.Send? || act.Receive? || act.Crash? || act.Issue?)
    requires Next(c, fabric, s, act).Some?
    ensures Placed(s, act, id, Next(c, fabric, s, act).value)
  {
    hide Has, Verify, Ids, Record, Load, OpenNext, IssueNext, PersistNext, SendNext, ReceiveNext, CrashNext;
  }

  lemma StepIsPlaced(c: Crypto, fabric: Bytes32, s: State, act: Action, id: Bytes16)
    requires Next(c, fabric, s, act).Some?
    ensures Placed(s, act, id, Next(c, fabric, s, act).value)
  {
    hide Placed;
    if act.Open? || act.Persist? || act.Send? || act.Receive? || act.Crash? {
      hide Next;
      MoveIsPlaced(c, fabric, s, act, id);
    } else if act.Issue? {
      hide OpenNext, IssueNext;
      IssueIsPlaced(s, act.p, act.now, act.disk, id);
    } else {
      hide Next;
      OtherIsPlaced(c, fabric, s, act, id);
    }
  }

  /** A step stores a grant only by issuing it, and loses it only as said. */
  lemma StoredAfter(s: State, act: Action, id: Bytes16, s': State)
    requires Placed(s, act, id, s')
    ensures Stored(s', id) <==> (Stored(s, id) && !Drops(s, act, id)) || (act.Issue? && Grants(s, act.p, id))
  {
    hide Has, Keeps;
    KeepersAfter(s, act.p, s', id);
    hide SomeoneKeeps, AnotherKeeps;
  }

  lemma ConfirmedBySync(c: Crypto, fabric: Bytes32, s: State, act: Action)
    requires Next(c, fabric, s, act).Some? && !act.Sync?
    ensures Next(c, fabric, s, act).value.oks == s.oks
  {
    hide Verify, Ids, Record, Load;
  }

  /** A grant becomes due only at a sync. */
  lemma DueAtStep(c: Crypto, fabric: Bytes32, s: State, act: Action, id: Bytes16)
    requires Next(c, fabric, s, act).Some? && !act.Sync?
    ensures Grants(Next(c, fabric, s, act).value, act.p, id) <==> Grants(s, act.p, id) && !act.Issue? && !act.Crash?
  {
    hide Verify, Ids, Record, Load;
  }

  lemma DueAfter(c: Crypto, fabric: Bytes32, s: State, act: Action, id: Bytes16)
    requires Inv(c, fabric, s) && Next(c, fabric, s, act).Some? && !act.Sync?
    ensures
      var s' := Next(c, fabric, s, act).value;
      && (id in s'.oks <==> id in s.oks)
      && (GrantPending(s', id) <==> GrantPending(s, id) && !((act.Issue? || act.Crash?) && Grants(s, act.p, id)))
  {
    if Grants(s, act.p, id) {
      PendingMeans(s, act.p, id);
    }
    ConfirmedBySync(c, fabric, s, act);
    DueAtStep(c, fabric, s, act, id);
    StepMovesOne(c, fabric, s, act);
    hide Next, Inv, GrantPending, Grants, OnlyMoved, Stored;
    PendingAfter(s, act.p, Next(c, fabric, s, act).value, id);
  }

  lemma SyncKeepsUngranted(c: Crypto, fabric: Bytes32, s: State, act: Action, id: Bytes16)
    requires Inv(c, fabric, s) && Next(c, fabric, s, act).Some? && act.Sync?
    ensures
      var s' := Next(c, fabric, s, act).value;
      id in s'.oks && !GrantPending(s', id) <==> id in s.oks && !GrantPending(s, id)
  {
    WriterMeans(c, fabric, s, act.p);
    hide Inv, Ids, GrantPending, OnlyMoved;
    var s' := Next(c, fabric, s, act).value;
    StepMovesOne(c, fabric, s, act);
    PendingAfter(s, act.p, s', id);
    if Grants(s', act.p, id) {
      assert id !in s.oks;
    } else {
      assert id in s'.oks <==> id in s.oks;
    }
  }

  lemma UngrantedStep(c: Crypto, fabric: Bytes32, s: State, act: Action, id: Bytes16)
    requires Inv(c, fabric, s) && Next(c, fabric, s, act).Some?
    ensures Ungranted(Next(c, fabric, s, act).value, id) <==> Ungranted(s, id) || Loses(s, act, id)
  {
    StepIsPlaced(c, fabric, s, act, id);
    StoredAfter(s, act, id, Next(c, fabric, s, act).value);
    DropMeans(s, act, id);
    if Stored(s, id) {
      StoredIsConfirmed(s, id);
    }
    if Grants(s, act.p, id) {
      PendingMeans(s, act.p, id);
    }
    if act.Sync? {
      SyncKeepsUngranted(c, fabric, s, act, id);
    } else {
      DueAfter(c, fabric, s, act, id);
    }
    hide Inv, Next, Placed, Stored, Grants, GrantPending, Drops;
  }

  lemma DropMeans(s: State, act: Action, id: Bytes16)
    ensures Drops(s, act, id) ==> Stored(s, id)
  {
  }

  // ---- Main results ------------------------------------------------------------------------------------

  /** Over every run an invite is in the log unconfirmed, with nobody writing it, exactly
      when somewhere in the run a whole record for it was given up. */
  lemma {:induction false} UnconfirmedExactly(c: Crypto, fabric: Bytes32, run: seq<Action>, id: Bytes16)
    requires Exec(c, fabric, Init(), run).Some?
    ensures Unconfirmed(Exec(c, fabric, Init(), run).value, id)
       <==> exists i :: 0 <= i < |run| && Abandons(StateAt(c, fabric, run, i), run[i], id)
    decreases |run|
  {
    hide Next, Inv, Abandons;
    if run != [] {
      var n := |run| - 1;
      LastStep(c, fabric, run);
      UnconfirmedStep(c, fabric, StateAt(c, fabric, run, n), run[n], id);
      UnconfirmedExactly(c, fabric, run[..n], id);
      hide Unconfirmed, Exec;
      forall i | 0 <= i < n
        ensures StateAt(c, fabric, run[..n], i) == StateAt(c, fabric, run, i) && run[..n][i] == run[i]
      {
        SameBefore(c, fabric, run, n, i);
      }
      if i :| 0 <= i < |run| && Abandons(StateAt(c, fabric, run, i), run[i], id) {
        assert i < n ==> Abandons(StateAt(c, fabric, run[..n], i), run[..n][i], id);
      }
    }
  }

  /** Over every run no grant for a confirmed invite is stored, and none is due, exactly
      when somewhere in the run the process that was to issue it died, or the last copy
      of it went. */
  lemma {:induction false} UngrantedExactly(c: Crypto, fabric: Bytes32, run: seq<Action>, id: Bytes16)
    requires Exec(c, fabric, Init(), run).Some?
    ensures Ungranted(Exec(c, fabric, Init(), run).value, id)
       <==> exists i :: 0 <= i < |run| && Loses(StateAt(c, fabric, run, i), run[i], id)
    decreases |run|
  {
    hide Next, Inv, Loses;
    if run != [] {
      var n := |run| - 1;
      LastStep(c, fabric, run);
      UngrantedStep(c, fabric, StateAt(c, fabric, run, n), run[n], id);
      UngrantedExactly(c, fabric, run[..n], id);
      hide Ungranted, Exec;
      forall i | 0 <= i < n
        ensures StateAt(c, fabric, run[..n], i) == StateAt(c, fabric, run, i) && run[..n][i] == run[i]
      {
        SameBefore(c, fabric, run, n, i);
      }
      if i :| 0 <= i < |run| && Loses(StateAt(c, fabric, run, i), run[i], id) {
        assert i < n ==> Loses(StateAt(c, fabric, run[..n], i), run[..n][i], id);
      }
    }
  }

  /** The invite is spent, no grant for it is stored anywhere, and none is due. */
  ghost predicate SpentWithoutGrant(s: State, id: Bytes16) {
    id in Ids(s.log) && !Written(s, id) && !GrantPending(s, id) && !Stored(s, id)
  }

  /** Over every run an invite is spent with no grant stored exactly when a whole record
      for it was given up before it was confirmed, or its grant was lost. */
  lemma SpentWithoutGrantExactly(c: Crypto, fabric: Bytes32, run: seq<Action>, id: Bytes16)
    requires Exec(c, fabric, Init(), run).Some?
    ensures SpentWithoutGrant(Exec(c, fabric, Init(), run).value, id)
       <==> exists i :: 0 <= i < |run| &&
              (Abandons(StateAt(c, fabric, run, i), run[i], id) || Loses(StateAt(c, fabric, run, i), run[i], id))
  {
    hide Exec, Abandons, Loses, Ids;
    var s := Exec(c, fabric, Init(), run).value;
    assert Reachable(c, fabric, s);
    ReachableInv(c, fabric, s);
    UnconfirmedExactly(c, fabric, run, id);
    UngrantedExactly(c, fabric, run, id);
    SpentSplits(c, fabric, s, id);
  }

  lemma SpentSplits(c: Crypto, fabric: Bytes32, s: State, id: Bytes16)
    requires Inv(c, fabric, s)
    ensures SpentWithoutGrant(s, id) <==> Unconfirmed(s, id) || Ungranted(s, id)
  {
    if p :| Writes(s, p, id) {
      WriterMeans(c, fabric, s, p);
    }
    if Stored(s, id) {
      StoredIsConfirmed(s, id);
    }
    hide LockInv, OriginInv, AuthInv, KeptInv, Ids, TailOk, Stored;
  }

  /** A directory with a torn log stays shut: no process and no roster opens on it, on any
      continuation and whatever image lies beside the log. */
  lemma TornDirectoryStaysShut(c: Crypto, fabric: Bytes32, s: State, run: seq<Action>, p: nat, other: Bytes32, image: bytes)
    requires Torn(s) && Exec(c, fabric, s, run).Some?
    ensures
      var s' := Exec(c, fabric, s, run).value;
      && OpenNext(s', p).None?
      && RosterImage.Open(c, other, image, s'.log).Err?
  {
    hide Exec, RosterImage.Open;
    TornForGood(c, fabric, s, run);
    RosterImage.TornLogOpensNothing(c, RosterState.Empty(other), other, image, s.log);
  }
}
