/** Failed or cancelled: what a start that meets a shutdown is reported as, over every
    run. */
module StartOutcomes {
  import opened Bytes
  import opened Lifecycle

  /** The flight is about to ask whether the fabric is closing, after the request. */
  ghost predicate ChecksLate(s: State, f: nat) {
    f in s.flights && s.flights[f].Checking? && ShutdownBegun(s)
  }

  /** The flight's work has failed and it settles while the phase is still Starting. */
  ghost predicate SettlesEarly(s: State, f: nat) {
    f in s.flights && s.flights[f].WorkFailed? && s.phase == Starting
  }

  const REFUSED: Flight := WorkFailed(ShuttingDown)
  const TOLD_FAILED: Flight := Ended(OFailed(ShuttingDown))

  /** Where a flight that was refused by its closing check can be from then on. */
  predicate AfterRefusal(x: Flight) {
    x == REFUSED || x == TOLD_FAILED || x.Closing? || x == Ended(OCancelled)
  }

  // ---- One step ---------------------------------------------------------------------------

  /** What one step does to one flight. */
  ghost predicate Traced(s: State, a: Action, f: nat, s': State)
    requires f in s.flights
  {
    && f in s'.flights
    && var x, y := s.flights[f], s'.flights[f];
       && (x.Ended? ==> y == x)
       && (s.phase == Closed && !x.Ended? && y.Ended? ==> y == Ended(OCancelled))
       && (y == REFUSED && x != y ==> a == Advance(f) && ChecksLate(s, f))
       && (y == TOLD_FAILED && x != y ==> a == Advance(f) && x == REFUSED && SettlesEarly(s, f))
       && (a == Advance(f) && ChecksLate(s, f) ==> y == REFUSED)
       && (a == Advance(f) && SettlesEarly(s, f) ==> y == Ended(OFailed(x.error)))
       && (AfterRefusal(x) ==> AfterRefusal(y))
  }

  /** Where the flight's next step takes it. */
  function After(x: Flight, cancel: bool, begun: bool, starting: bool, latest: bool): Flight {
    match x
    case Spawned => if cancel then CancelSeen else Checking
    case Checking => if begun then REFUSED else Binding
    case Binding => Binding
    case Settling => WorkDone(0)
    case WorkDone(n) => if n < 3 then WorkDone(n + 1) else if latest && starting then Ended(OStarted) else Undoing
    case WorkFailed(e) => if latest && !starting then Closing else Ended(OFailed(e))
    case CancelSeen => Closing
    case Closing => Ended(OCancelled)
    case Undoing => Aborting
    case Aborting => Ended(OCancelled)
    case Ended(_) => x
  }

  lemma HelpersKeepFlights(noRelay: bool, s: State, f: nat, n: nat)
    ensures Notify(s).flights == s.flights && CloseEndpoint(s).flights == s.flights
    ensures SpawnNext(noRelay, s, f, n).flights == s.flights[f := WorkDone(if n == 0 && noRelay then 1 else n + 1)]
  {
    hide HasReceiver;
  }

  lemma WorkDoneGives(noRelay: bool, s: State, f: nat)
    requires f in s.flights && s.flights[f].WorkDone?
    ensures AdvanceFlight(noRelay, s, f).Some?
    ensures
      AdvanceFlight(noRelay, s, f).value.flights
        == s.flights[f := After(s.flights[f], s.cancel, ShutdownBegun(s), s.phase == Starting, s.gen == f)]
  {
    HelpersKeepFlights(noRelay, s, f, s.flights[f].tasks);
    hide Notify, HasReceiver, CloseEndpoint, TasksOf, SpawnNext;
  }

  lemma WorkFailedGives(noRelay: bool, s: State, f: nat)
    requires f in s.flights && s.flights[f].WorkFailed?
    requires AdvanceFlight(noRelay, s, f).Some?
    ensures
      AdvanceFlight(noRelay, s, f).value.flights
        == s.flights[f := After(s.flights[f], s.cancel, ShutdownBegun(s), s.phase == Starting, s.gen == f)]
  {
    HelpersKeepFlights(noRelay, s, f, 0);
    hide Notify, HasReceiver, CloseEndpoint, TasksOf, SpawnNext;
  }

  lemma CancelSeenGives(noRelay: bool, s: State, f: nat)
    requires f in s.flights && s.flights[f].CancelSeen?
    requires AdvanceFlight(noRelay, s, f).Some?
    ensures
      AdvanceFlight(noRelay, s, f).value.flights
        == s.flights[f := After(s.flights[f], s.cancel, ShutdownBegun(s), s.phase == Starting, s.gen == f)]
  {
    HelpersKeepFlights(noRelay, s, f, 0);
    hide Notify, HasReceiver, CloseEndpoint, TasksOf, SpawnNext;
  }

  lemma EarlyGives(noRelay: bool, s: State, f: nat)
    requires f in s.flights && (s.flights[f].Spawned? || s.flights[f].Checking? || s.flights[f].Binding? || s.flights[f].Settling?)
    requires AdvanceFlight(noRelay, s, f).Some?
    ensures
      AdvanceFlight(noRelay, s, f).value.flights
        == s.flights[f := After(s.flights[f], s.cancel, ShutdownBegun(s), s.phase == Starting, s.gen == f)]
  {
    HelpersKeepFlights(noRelay, s, f, 0);
    hide Notify, HasReceiver, CloseEndpoint, TasksOf, SpawnNext;
  }

  lemma EndingGives(noRelay: bool, s: State, f: nat)
    requires f in s.flights && (s.flights[f].Closing? || s.flights[f].Undoing? || s.flights[f].Aborting? || s.flights[f].Ended?)
    requires AdvanceFlight(noRelay, s, f).Some?
    ensures
      AdvanceFlight(noRelay, s, f).value.flights
        == s.flights[f := After(s.flights[f], s.cancel, ShutdownBegun(s), s.phase == Starting, s.gen == f)]
  {
    HelpersKeepFlights(noRelay, s, f, 0);
    hide Notify, HasReceiver, CloseEndpoint, TasksOf, SpawnNext;
  }

  lemma AdvanceGives(noRelay: bool, s: State, f: nat)
    requires f in s.flights && AdvanceFlight(noRelay, s, f).Some?
    ensures
      AdvanceFlight(noRelay, s, f).value.flights
        == s.flights[f := After(s.flights[f], s.cancel, ShutdownBegun(s), s.phase == Starting, s.gen == f)]
  {
    hide AdvanceFlight, After;
    if s.flights[f].WorkDone? {
      WorkDoneGives(noRelay, s, f);
    } else if s.flights[f].WorkFailed? {
      WorkFailedGives(noRelay, s, f);
    } else if s.flights[f].CancelSeen? {
      CancelSeenGives(noRelay, s, f);
    } else if s.flights[f].Closing? || s.flights[f].Undoing? || s.flights[f].Aborting? || s.flights[f].Ended? {
      EndingGives(noRelay, s, f);
    } else {
      EarlyGives(noRelay, s, f);
    }
  }

  lemma AdvanceIsTraced(noRelay: bool, s: State, f: nat)
    requires Inv(s) && f in s.flights && f == s.gen && AdvanceFlight(noRelay, s, f).Some?
    ensures Traced(s, Advance(f), f, AdvanceFlight(noRelay, s, f).value)
  {
    LatestPhase(s);
    AdvanceGives(noRelay, s, f);
    hide Inv, AdvanceFlight;
  }

  /** A flight under way is the latest, in phase Starting or Closed. */
  lemma LatestPhase(s: State)
    requires Inv(s) && s.gen in s.flights
    ensures s.flights[s.gen].WorkFailed? || s.flights[s.gen].WorkDone? ==> s.phase == Starting || s.phase == Closed
  {
    hide CallerInv, EndpointOk, TaskOk;
  }

  lemma FlightIsTraced(noRelay: bool, s: State, a: Action, f: nat)
    requires Inv(s) && f in s.flights && (a.Advance? || a.Bind? || a.ObserveCancel?) && FlightNext(noRelay, s, a).Some?
    ensures Traced(s, a, f, FlightNext(noRelay, s, a).value)
  {
    OnlyLatestMoves(noRelay, s, a);
    if a.Advance? {
      hide FlightNext;
      FlightNextIsAdvance(noRelay, s, a);
      AdvanceIsTraced(noRelay, s, s.gen);
      AdvanceGives(noRelay, s, s.gen);
      if f != s.gen {
        OtherIsTraced(s, a, f, AdvanceFlight(noRelay, s, s.gen).value);
      }
    } else {
      hide Inv, AdvanceFlight;
    }
  }

  lemma OtherIsTraced(s: State, a: Action, f: nat, s': State)
    requires Inv(s) && f in s.flights && f != s.gen && a == Advance(s.gen) && f in s'.flights && s'.flights[f] == s.flights[f]
    ensures Traced(s, a, f, s')
  {
    hide PhaseInv, LatestInv, CallerInv;
  }

  lemma FlightNextIsAdvance(noRelay: bool, s: State, a: Action)
    requires a.Advance? && a.flight in s.flights
    ensures FlightNext(noRelay, s, a) == AdvanceFlight(noRelay, s, a.flight)
  {
  }

  lemma ShutdownKeepsFlights(s: State)
    requires ShutdownNext(s).Some?
    ensures ShutdownNext(s).value.flights == s.flights
  {
    hide HasReceiver;
  }

  /** A caller begins a flight of a new generation, or leaves the flights alone. */
  lemma CallerFlights(s: State, a: Action)
    requires a.Call? || a.Look? || a.Wake? || a.OwnerReturn? || a.Abandon?
    requires CallerNext(s, a).Some?
    ensures
      var s' := CallerNext(s, a).value;
      s'.flights == s.flights || s'.flights == s.flights[s.gen + 1 := Spawned]
  {
    HelpersKeepFlights(false, s, 0, 0);
    hide Notify, HasReceiver, ResultOf;
  }

  lemma FlightsStand(noRelay: bool, s: State, a: Action, f: nat)
    requires Inv(s) && f in s.flights && !(a.Advance? || a.Bind? || a.ObserveCancel?) && Next(noRelay, s, a).Some?
    ensures var s' := Next(noRelay, s, a).value; f in s'.flights && s'.flights[f] == s.flights[f]
  {
    hide PhaseInv, LatestInv, CallerInv, CallerNext, ShutdownNext, FlightNext;
    if a.ShutdownStep? {
      ShutdownKeepsFlights(s);
    } else {
      CallerFlights(s, a);
    }
  }

  lemma StepIsTraced(noRelay: bool, s: State, a: Action, f: nat)
    requires Inv(s) && f in s.flights && Next(noRelay, s, a).Some?
    ensures Traced(s, a, f, Next(noRelay, s, a).value)
  {
    hide Inv, FlightNext, CallerNext, ShutdownNext;
    if a.Advance? || a.Bind? || a.ObserveCancel? {
      FlightIsTraced(noRelay, s, a, f);
    } else {
      FlightsStand(noRelay, s, a, f);
    }
  }

  /** A flight that appears has only been spawned. */
  lemma NewIsSpawned(noRelay: bool, s: State, a: Action, f: nat)
    requires f !in s.flights && Next(noRelay, s, a).Some? && f in Next(noRelay, s, a).value.flights
    ensures Next(noRelay, s, a).value.flights[f] == Spawned
  {
    hide AdvanceFlight, CallerNext, ShutdownNext, After;
    if a.Advance? {
      if a.flight in s.flights {
        AdvanceGives(noRelay, s, a.flight);
      }
    } else if a.ShutdownStep? {
      ShutdownKeepsFlights(s);
    } else if !a.Bind? && !a.ObserveCancel? {
      CallerFlights(s, a);
    }
  }

  // ---- Every run --------------------------------------------------------------------------

  /** From a state of the invariant on: an ended flight keeps its outcome, one that is
      under way when the phase is Closed can only end cancelled, and one that was
      refused stays so or is settled. */
  lemma {:induction false} RunIsTraced(noRelay: bool, s: State, run: seq<Action>, f: nat)
    requires Inv(s) && f in s.flights && Exec(noRelay, s, run).Some?
    ensures
      var s' := Exec(noRelay, s, run).value;
      && f in s'.flights
      && var x, y := s.flights[f], s'.flights[f];
         && (x.Ended? ==> y == x)
         && (s.phase == Closed && !x.Ended? && y.Ended? ==> y == Ended(OCancelled))
         && (AfterRefusal(x) ==> AfterRefusal(y))
    decreases |run|
  {
    hide Inv, Next, AfterRefusal, ChecksLate, SettlesEarly;
    if run != [] {
      var s1 := Next(noRelay, s, run[0]).value;
      StepIsTraced(noRelay, s, run[0], f);
      InvKept(noRelay, s, run[0]);
      if s.phase == Closed {
        ClosedStep(noRelay, s, run[0]);
      }
      RunIsTraced(noRelay, s1, run[1..], f);
    }
  }

  lemma {:induction false} ExecSplit(noRelay: bool, s: State, run: seq<Action>, i: nat)
    requires i <= |run| && Exec(noRelay, s, run).Some?
    ensures Exec(noRelay, s, run[..i]).Some?
    ensures Exec(noRelay, Exec(noRelay, s, run[..i]).value, run[i..]) == Exec(noRelay, s, run)
    decreases i
  {
    hide Next;
    if i > 0 {
      ExecSplit(noRelay, Next(noRelay, s, run[0]).value, run[1..], i - 1);
      assert run[..i][1..] == run[1..][..i - 1] && run[1..][i - 1..] == run[i..];
    } else {
      assert run[0..] == run;
    }
  }

  /** The state after the first `i` actions, the next action and the state it leads to. */
  lemma StateAt(noRelay: bool, s: State, run: seq<Action>, i: nat)
    requires i < |run| && Exec(noRelay, s, run).Some?
    ensures Exec(noRelay, s, run[..i]).Some? && Exec(noRelay, s, run[..i + 1]).Some?
    ensures Next(noRelay, Exec(noRelay, s, run[..i]).value, run[i]) == Exec(noRelay, s, run[..i + 1])
  {
    hide Next;
    ExecSplit(noRelay, s, run, i + 1);
    ExecSplit(noRelay, s, run[..i + 1], i);
    assert run[..i + 1][..i] == run[..i] && run[..i + 1][i..] == [run[i]];
  }

  predicate Initial(s: State) {
    s == InitDeferred() || s == InitEager()
  }

  lemma PrefixInv(noRelay: bool, s0: State, run: seq<Action>)
    requires Initial(s0) && Exec(noRelay, s0, run).Some?
    ensures Inv(Exec(noRelay, s0, run).value)
  {
    hide Inv, Exec;
    InitOk();
    RunInv(noRelay, s0, run);
  }

  /** A refused flight was refused by a check of its own, made after the request. */
  lemma {:induction false} RefusedByCheck(noRelay: bool, s0: State, run: seq<Action>, f: nat) returns (i: nat)
    requires Initial(s0) && Exec(noRelay, s0, run).Some?
    requires f in Exec(noRelay, s0, run).value.flights && Exec(noRelay, s0, run).value.flights[f] == REFUSED
    ensures i < |run| && run[i] == Advance(f)
    ensures Exec(noRelay, s0, run[..i]).Some? && ChecksLate(Exec(noRelay, s0, run[..i]).value, f)
    decreases |run|
  {
    hide Inv, Next, ChecksLate, SettlesEarly, AfterRefusal;
    assert run != [];
    var n := |run| - 1;
    StateAt(noRelay, s0, run, n);
    assert run[..n + 1] == run;
    PrefixInv(noRelay, s0, run[..n]);
    var s := Exec(noRelay, s0, run[..n]).value;
    if f !in s.flights {
      NewIsSpawned(noRelay, s, run[n], f);
    }
    StepIsTraced(noRelay, s, run[n], f);
    if s.flights[f] == REFUSED {
      i := RefusedByCheck(noRelay, s0, run[..n], f);
      assert run[..n][..i] == run[..i];
    } else {
      i := n;
    }
  }

  /** A flight told that it failed for the shutdown was refused and settled early. */
  lemma {:induction false} ToldBySettling(noRelay: bool, s0: State, run: seq<Action>, f: nat) returns (i: nat, j: nat)
    requires Initial(s0) && Exec(noRelay, s0, run).Some?
    requires f in Exec(noRelay, s0, run).value.flights && Exec(noRelay, s0, run).value.flights[f] == TOLD_FAILED
    ensures i < j < |run| && run[i] == Advance(f) && run[j] == Advance(f)
    ensures Exec(noRelay, s0, run[..i]).Some? && ChecksLate(Exec(noRelay, s0, run[..i]).value, f)
    ensures Exec(noRelay, s0, run[..j]).Some? && SettlesEarly(Exec(noRelay, s0, run[..j]).value, f)
    decreases |run|
  {
    hide Inv, Next, ChecksLate, SettlesEarly, AfterRefusal;
    assert run != [];
    var n := |run| - 1;
    StateAt(noRelay, s0, run, n);
    assert run[..n + 1] == run;
    PrefixInv(noRelay, s0, run[..n]);
    var s := Exec(noRelay, s0, run[..n]).value;
    if f !in s.flights {
      NewIsSpawned(noRelay, s, run[n], f);
    }
    StepIsTraced(noRelay, s, run[n], f);
    if s.flights[f] == TOLD_FAILED {
      i, j := ToldBySettling(noRelay, s0, run[..n], f);
      assert run[..n][..i] == run[..i] && run[..n][..j] == run[..j];
    } else {
      i := RefusedByCheck(noRelay, s0, run[..n], f);
      assert run[..n][..i] == run[..i];
      j := n;
    }
  }

  /** What follows from a late check and an early settlement. */
  lemma CheckedAndSettled(noRelay: bool, s0: State, run: seq<Action>, f: nat, i: nat, j: nat)
    requires Initial(s0) && Exec(noRelay, s0, run).Some? && CheckedThenSettled(noRelay, s0, run, f, i, j)
    ensures f in Exec(noRelay, s0, run).value.flights && Exec(noRelay, s0, run).value.flights[f] == TOLD_FAILED
  {
    hide Inv, Next, Exec, Traced;
    StateAt(noRelay, s0, run, i);
    PrefixInv(noRelay, s0, run[..i]);
    var si := Exec(noRelay, s0, run[..i]).value;
    StepIsTraced(noRelay, si, run[i], f);
    var si1 := Exec(noRelay, s0, run[..i + 1]).value;
    TracedCheck(si, f, si1);
    PrefixInv(noRelay, s0, run[..i + 1]);
    StateAt(noRelay, s0, run, j);
    ExecSplit(noRelay, s0, run[..j], i + 1);
    assert run[..j][..i + 1] == run[..i + 1];
    RunIsTraced(noRelay, si1, run[..j][i + 1..], f);
    var sj := Exec(noRelay, s0, run[..j]).value;
    PrefixInv(noRelay, s0, run[..j]);
    StepIsTraced(noRelay, sj, run[j], f);
    var sj1 := Exec(noRelay, s0, run[..j + 1]).value;
    TracedSettle(sj, f, sj1);
    PrefixInv(noRelay, s0, run[..j + 1]);
    ExecSplit(noRelay, s0, run, j + 1);
    RunIsTraced(noRelay, sj1, run[j + 1..], f);
  }

  lemma TracedCheck(s: State, f: nat, s': State)
    requires f in s.flights && Traced(s, Advance(f), f, s') && ChecksLate(s, f)
    ensures f in s'.flights && s'.flights[f] == REFUSED
  {
  }

  lemma TracedSettle(s: State, f: nat, s': State)
    requires f in s.flights && Traced(s, Advance(f), f, s') && SettlesEarly(s, f) && AfterRefusal(s.flights[f])
    ensures f in s'.flights && s'.flights[f] == TOLD_FAILED
  {
  }

  ghost predicate CheckedThenSettled(noRelay: bool, s0: State, run: seq<Action>, f: nat, i: nat, j: nat) {
    && i < j < |run| && run[i] == Advance(f) && run[j] == Advance(f)
    && Exec(noRelay, s0, run[..i]).Some? && ChecksLate(Exec(noRelay, s0, run[..i]).value, f)
    && Exec(noRelay, s0, run[..j]).Some? && SettlesEarly(Exec(noRelay, s0, run[..j]).value, f)
  }

  // ---- Main results -------------------------------------------------------------------------

  /** Over every run a flight ends as failed for the shutdown exactly when its closing
      check ran after the request and it settled while the phase was still Starting. */
  lemma FailedForShutdownExactly(noRelay: bool, s0: State, run: seq<Action>, f: nat)
    requires Initial(s0) && Exec(noRelay, s0, run).Some?
    ensures
      var s := Exec(noRelay, s0, run).value;
      f in s.flights && s.flights[f] == Ended(OFailed(ShuttingDown))
      <==> exists i, j :: CheckedThenSettled(noRelay, s0, run, f, i, j)
  {
    hide Exec, Initial;
    var s := Exec(noRelay, s0, run).value;
    if f in s.flights && s.flights[f] == TOLD_FAILED {
      var i, j := ToldBySettling(noRelay, s0, run, f);
      assert CheckedThenSettled(noRelay, s0, run, f, i, j);
    }
    if i, j :| CheckedThenSettled(noRelay, s0, run, f, i, j) {
      CheckedAndSettled(noRelay, s0, run, f, i, j);
    }
  }

  /** Whoever is told of that failure joined or owned such a flight. */
  lemma ToldOfShutdownFailure(noRelay: bool, s0: State, run: seq<Action>, c: nat, f: nat)
    requires Initial(s0) && Exec(noRelay, s0, run).Some?
    requires
      var s := Exec(noRelay, s0, run).value;
      c in s.callers && s.callers[c].Returned? && s.callers[c].result == GotFailure(f, ShuttingDown)
    ensures Exec(noRelay, s0, run).value.callers[c].flight == Some(f)
    ensures exists i, j :: CheckedThenSettled(noRelay, s0, run, f, i, j)
  {
    hide Exec, CheckedThenSettled, Initial;
    PrefixInv(noRelay, s0, run);
    CallerIsOk(Exec(noRelay, s0, run).value, c);
    FailedForShutdownExactly(noRelay, s0, run, f);
  }

  /** The owner of a flight is told of that failure exactly then. */
  lemma OwnerToldExactly(noRelay: bool, s0: State, run: seq<Action>, c: nat, f: nat)
    requires Initial(s0) && Exec(noRelay, s0, run).Some?
    requires
      var s := Exec(noRelay, s0, run).value;
      c in s.callers && s.callers[c] == Owning(f) && Next(noRelay, s, OwnerReturn(c)).Some?
    ensures
      var s := Exec(noRelay, s0, run).value;
      Next(noRelay, s, OwnerReturn(c)).value.callers[c] == Returned(GotFailure(f, ShuttingDown), Some(f))
      <==> exists i, j :: CheckedThenSettled(noRelay, s0, run, f, i, j)
  {
    hide Exec, CheckedThenSettled, Initial;
    FailedForShutdownExactly(noRelay, s0, run, f);
  }

  lemma CallerIsOk(s: State, c: nat)
    requires Inv(s) && c in s.callers
    ensures CallerOk(s, s.callers[c])
  {
    hide HistoryInv, PhaseInv, LatestInv, CallerOk;
  }

  /** An ended flight keeps its outcome however the run goes on. */
  lemma OutcomeIsFinal(noRelay: bool, s: State, run: seq<Action>, f: nat)
    requires Reachable(noRelay, s) && Exec(noRelay, s, run).Some? && f in s.flights && s.flights[f].Ended?
    ensures f in Exec(noRelay, s, run).value.flights
    ensures Exec(noRelay, s, run).value.flights[f] == s.flights[f]
  {
    hide Exec, Inv, Reachable;
    ReachableInv(noRelay, s);
    RunIsTraced(noRelay, s, run, f);
  }

  /** A flight under way when the phase is Closed can end only as cancelled, and that is
      what its owner is told; nobody who joined or owned it is told that it started or
      failed. */
  lemma ClosedFlightIsCancelled(noRelay: bool, s: State, run: seq<Action>, f: nat, c: nat)
    requires Reachable(noRelay, s) && s.phase == Closed && f in s.flights && !s.flights[f].Ended?
    requires Exec(noRelay, s, run).Some?
    ensures
      var s' := Exec(noRelay, s, run).value;
      && f in s'.flights
      && (s'.flights[f].Ended? ==> s'.flights[f] == Ended(OCancelled))
      && (c in s'.callers && s'.callers[c] == Owning(f) && Next(noRelay, s', OwnerReturn(c)).Some? ==>
            Next(noRelay, s', OwnerReturn(c)).value.callers[c] == Returned(GotCancelled, Some(f)))
      && (c in s'.callers && s'.callers[c].Returned? && s'.callers[c].flight == Some(f) ==>
            s'.callers[c].result == GotCancelled || s'.callers[c].result == GotShutdown)
  {
    ReachableInv(noRelay, s);
    hide Exec, Inv, Reachable, FlightNext, ShutdownNext;
    RunIsTraced(noRelay, s, run, f);
    RunInv(noRelay, s, run);
    ClosedRun(noRelay, s, run);
    var s' := Exec(noRelay, s, run).value;
    LatestIs(s, f);
    if c in s'.callers {
      CallerIsOk(s', c);
    }
  }

  lemma LatestIs(s: State, f: nat)
    requires Inv(s) && f in s.flights && !s.flights[f].Ended?
    ensures f == s.gen
  {
    hide PhaseInv, LatestInv, CallerInv;
  }

  // ---- It does happen -----------------------------------------------------------------------

  /** Between the request and the closing of the phase a start is reported as failed,
      not as cancelled. */
  lemma FailsBetweenRequestAndClose()
    ensures exists s, i :: Reachable(false, s) && s.phase != Closed && i in s.callers
                           && s.callers[i] == Returned(GotFailure(1, ShuttingDown), Some(1))
  {
    var s0 := InitDeferred();
    var run := [Call(0), Look(0), ShutdownStep, Advance(1), Advance(1), Advance(1), OwnerReturn(0)];
    var s1 := Next(false, s0, run[0]).value;
    var s2 := Next(false, s1, run[1]).value;
    var s3 := Next(false, s2, run[2]).value;
    var s4 := Next(false, s3, run[3]).value;
    var s5 := Next(false, s4, run[4]).value;
    var s6 := Next(false, s5, run[5]).value;
    var s7 := Next(false, s6, run[6]).value;
    ExecOfSeven(s0, run, s1, s2, s3, s4, s5, s6, s7);
    assert Reachable(false, s7);
    assert s7.phase != Closed && s7.callers[0] == Returned(GotFailure(1, ShuttingDown), Some(1));
  }

  lemma ExecOfSeven(s0: State, run: seq<Action>, s1: State, s2: State, s3: State, s4: State, s5: State, s6: State, s7: State)
    requires |run| == 7
    requires Next(false, s0, run[0]) == Some(s1) && Next(false, s1, run[1]) == Some(s2) && Next(false, s2, run[2]) == Some(s3)
    requires Next(false, s3, run[3]) == Some(s4) && Next(false, s4, run[4]) == Some(s5) && Next(false, s5, run[5]) == Some(s6)
    requires Next(false, s6, run[6]) == Some(s7)
    ensures Exec(false, s0, run) == Some(s7)
  {
    hide Next;
    assert run[6..][1..] == [];
    assert Exec(false, s6, run[6..]) == Some(s7);
    assert run[5..][1..] == run[6..];
    assert Exec(false, s5, run[5..]) == Some(s7);
    assert run[4..][1..] == run[5..];
    assert Exec(false, s4, run[4..]) == Some(s7);
    assert run[3..][1..] == run[4..];
    assert Exec(false, s3, run[3..]) == Some(s7);
    assert run[2..][1..] == run[3..];
    assert Exec(false, s2, run[2..]) == Some(s7);
    assert run[1..][1..] == run[2..];
    assert Exec(false, s1, run[1..]) == Some(s7);
  }
}
