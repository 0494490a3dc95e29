/** What start and shutdown accomplish when nothing interferes, from every reachable state:
    a call starts the fabric or reports why not, and a shutdown closes what was started. */
module StartRuns {
  import opened Bytes
  import opened Lifecycle

  // ---- What a caller finds -------------------------------------------------------------------

  /** One pass of `start()`: a started fabric is reported, a flight under way is waited for,
      a deferred fabric and a failure of somebody else's are (re)tried with a new flight, a
      failure of the flight the caller waited for is reported, and a closed fabric is
      refused, or the cancellation of the flight waited for reported. */
  lemma LookDecides(noRelay: bool, s: State, i: nat, seen: nat, joined: Option<nat>)
    requires Reachable(noRelay, s) && i in s.callers && s.callers[i] == Looping(seen, joined)
    ensures Next(noRelay, s, Look(i)).Some?
    ensures
      var s' := Next(noRelay, s, Look(i)).value;
      var mine := joined == Some(s.gen) && s.gen in s.flights;
      && (s.phase == Started ==> s' == s.(callers := s.callers[i := Returned(GotStarted, joined)]))
      && (s.phase == Starting ==> s' == s.(callers := s.callers[i := Waiting(seen, s.gen)]))
      && (s.phase == Deferred ==> Begins(s, s', i))
      && (s.phase == Failed && !mine ==> Begins(s, s', i))
      && (s.phase == Failed && mine ==>
            && s.flights[s.gen].Ended? && s.flights[s.gen].outcome.OFailed?
            && s' == s.(callers := s.callers[i := Returned(GotFailure(s.gen, s.flights[s.gen].outcome.error), joined)]))
      && (s.phase == Closed && mine && (s.flights[s.gen].Ended? ==> s.flights[s.gen] == Ended(OCancelled)) ==>
            s' == s.(callers := s.callers[i := Returned(GotCancelled, joined)]))
      && (s.phase == Closed && (!mine || (s.flights[s.gen].Ended? && s.flights[s.gen] != Ended(OCancelled))) && s.gen > 0 ==>
            s' == s.(callers := s.callers[i := Returned(GotShutdown, joined)]))
  {
    ReachableInv(noRelay, s);
    LatestExists(s);
    LatestOfPhase(s);
    hide Reachable, Inv, Notify;
    NotifyChanges(s);
  }

  /** A flight of a new generation begins, and the caller owns it. */
  predicate Begins(s: State, s': State, i: nat) {
    && s'.phase == Starting && s'.gen == s.gen + 1 && s'.result == None
    && s'.flights == s.flights[s.gen + 1 := Spawned] && s'.callers == s.callers[i := Owning(s.gen + 1)]
    && s'.cancel == s.cancel && s'.shutdown == s.shutdown && s'.endpoint == s.endpoint && s'.spawned == s.spawned && s'.slots == s.slots
  }

  lemma LatestOfPhase(s: State)
    requires Inv(s)
    ensures s.phase == Failed ==>
      && s.gen in s.flights && s.flights[s.gen].Ended? && s.flights[s.gen].outcome.OFailed?
      && s.result == Some(RError(s.flights[s.gen].outcome.error))
    ensures s.phase == Closed && s.gen in s.flights ==>
              (s.result == Some(RCancelled) <==> (s.flights[s.gen].Ended? ==> s.flights[s.gen] == Ended(OCancelled)))
  {
    LatestExists(s);
    hide CallerInv, HistoryInv, EndpointOk, TaskOk;
  }

  // ---- An undisturbed start ----------------------------------------------------------------------

  /** The latest flight stands at `x`, owned by caller `i`, with the endpoint and the tasks
      as given, each task in its field, and no shutdown in sight. */
  ghost predicate Stands(s: State, f: nat, x: Flight, i: nat, endpoint: Option<nat>, spawned: seq<Task>) {
    && s.phase == Starting && s.gen == f && f in s.flights && s.flights[f] == x
    && i in s.callers && s.callers[i] == Owning(f)
    && !s.cancel && s.shutdown == NotRequested
    && s.endpoint == endpoint && s.spawned == spawned
    && forall k :: 0 <= k < |spawned| ==> InSlot(s, spawned[k])
  }

  lemma ExecStep(noRelay: bool, s: State, a: Action, run: seq<Action>)
    requires Next(noRelay, s, a).Some?
    ensures Exec(noRelay, s, [a] + run) == Exec(noRelay, Next(noRelay, s, a).value, run)
  {
    hide Next;
    assert ([a] + run)[1..] == run;
  }

  lemma ExecNone(noRelay: bool, s: State)
    ensures Exec(noRelay, s, []) == Some(s)
  {
  }

  lemma CallBegins(noRelay: bool, s: State, i: nat)
    requires Inv(s) && (s.phase == Deferred || s.phase == Failed) && s.shutdown == NotRequested && i !in s.callers
    ensures
      var s1 := Exec(noRelay, s, [Call(i), Look(i)]);
      s1.Some? && Stands(s1.value, s.gen + 1, Spawned, i, None, []) && Inv(s1.value)
  {
    NoEndpointYet(s);
    NotifyChanges(s.(callers := s.callers[i := Looping(s.version, None)]));
    hide Inv, Notify, Exec, FlightNext, ShutdownNext;
    InvKept(noRelay, s, Call(i));
    var s1 := Next(noRelay, s, Call(i)).value;
    InvKept(noRelay, s1, Look(i));
    ExecStep(noRelay, s, Call(i), [Look(i)]);
    ExecStep(noRelay, s1, Look(i), []);
    ExecNone(noRelay, Next(noRelay, s1, Look(i)).value);
    assert [Call(i)] + [Look(i)] == [Call(i), Look(i)] && [Look(i)] + [] == [Look(i)];
  }

  lemma NoEndpointYet(s: State)
    requires Inv(s) && (s.phase == Deferred || s.phase == Failed)
    ensures s.endpoint == None && s.spawned == [] && !s.cancel
    ensures s.gen + 1 !in s.flights
  {
    LatestExists(s);
    hide CallerInv;
  }

  /** One step of an undisturbed flight, and what it stands at then. */
  lemma FlightGoesOn(noRelay: bool, s: State, f: nat, x: Flight, i: nat, endpoint: Option<nat>, spawned: seq<Task>)
    requires Stands(s, f, x, i, endpoint, spawned)
    ensures x == Spawned ==>
      Next(noRelay, s, Advance(f)).Some? && Stands(Next(noRelay, s, Advance(f)).value, f, Checking, i, endpoint, spawned)
    ensures x == Checking ==>
      Next(noRelay, s, Advance(f)).Some? && Stands(Next(noRelay, s, Advance(f)).value, f, Binding, i, endpoint, spawned)
    ensures x == Binding && endpoint == None ==>
      Next(noRelay, s, Bind(f, None)).Some? && Stands(Next(noRelay, s, Bind(f, None)).value, f, Settling, i, Some(f), spawned)
    ensures x == Settling ==>
      Next(noRelay, s, Advance(f)).Some? && Stands(Next(noRelay, s, Advance(f)).value, f, WorkDone(0), i, endpoint, spawned)
    ensures forall code :: x == Binding ==>
      && Next(noRelay, s, Bind(f, Some(code))).Some?
      && Stands(Next(noRelay, s, Bind(f, Some(code))).value, f, WorkFailed(BindFailed(code)), i, endpoint, spawned)
  {
    hide SpawnNext, Notify, CloseEndpoint, TasksOf;
  }

  /** The tasks are spawned one by one, each into its field; without relays there is no
      watcher. */
  lemma TaskSpawns(noRelay: bool, s: State, f: nat, n: nat, i: nat, endpoint: Option<nat>, spawned: seq<Task>)
    requires Stands(s, f, WorkDone(n), i, endpoint, spawned) && n < 3
    requires forall k :: 0 <= k < |spawned| ==> Order(spawned[k].kind) < n
    ensures Next(noRelay, s, Advance(f)).Some?
    ensures
      var more := if n == 0 && noRelay then spawned
                  else spawned + [Task(if n == 0 then RelayWatcher else if n == 1 then ReconnectManager else AcceptLoop, f)];
      && Stands(Next(noRelay, s, Advance(f)).value, f, WorkDone(n + 1), i, endpoint, more)
      && forall k :: 0 <= k < |more| ==> Order(more[k].kind) < n + 1
  {
    hide Notify, CloseEndpoint, TasksOf;
  }

  /** The tasks of a started fabric. */
  function Tasks(noRelay: bool, f: nat): seq<Task> {
    (if noRelay then [] else [Task(RelayWatcher, f)]) + [Task(ReconnectManager, f), Task(AcceptLoop, f)]
  }

  lemma TasksSpawn(noRelay: bool, s: State, f: nat, i: nat)
    requires Stands(s, f, WorkDone(0), i, Some(f), [])
    ensures
      var t := Exec(noRelay, s, [Advance(f), Advance(f), Advance(f)]);
      t.Some? && Stands(t.value, f, WorkDone(3), i, Some(f), Tasks(noRelay, f))
  {
    hide Stands, Next, Exec;
    TaskSpawns(noRelay, s, f, 0, i, Some(f), []);
    var s1 := Next(noRelay, s, Advance(f)).value;
    var one := if noRelay then [] else [Task(RelayWatcher, f)];
    assert one == if noRelay then [] else [] + [Task(RelayWatcher, f)];
    TaskSpawns(noRelay, s1, f, 1, i, Some(f), one);
    var s2 := Next(noRelay, s1, Advance(f)).value;
    TaskSpawns(noRelay, s2, f, 2, i, Some(f), one + [Task(ReconnectManager, f)]);
    assert one + [Task(ReconnectManager, f)] + [Task(AcceptLoop, f)] == Tasks(noRelay, f);
    ThreeSteps(noRelay, s, Advance(f), Advance(f), Advance(f));
  }

  lemma ThreeSteps(noRelay: bool, s: State, a: Action, b: Action, d: Action)
    requires Next(noRelay, s, a).Some? && Next(noRelay, Next(noRelay, s, a).value, b).Some?
    requires Next(noRelay, Next(noRelay, Next(noRelay, s, a).value, b).value, d).Some?
    ensures Exec(noRelay, s, [a, b, d]) == Next(noRelay, Next(noRelay, Next(noRelay, s, a).value, b).value, d)
  {
    hide Next, Exec;
    var s1 := Next(noRelay, s, a).value;
    var s2 := Next(noRelay, s1, b).value;
    ExecStep(noRelay, s, a, [b, d]);
    ExecStep(noRelay, s1, b, [d]);
    ExecStep(noRelay, s2, d, []);
    ExecNone(noRelay, Next(noRelay, s2, d).value);
    assert [a] + [b, d] == [a, b, d] && [b] + [d] == [b, d] && [d] + [] == [d];
  }

  lemma TwoSteps(noRelay: bool, s: State, a: Action, b: Action)
    requires Next(noRelay, s, a).Some? && Next(noRelay, Next(noRelay, s, a).value, b).Some?
    ensures Exec(noRelay, s, [a, b]) == Next(noRelay, Next(noRelay, s, a).value, b)
  {
    hide Next, Exec;
    var s1 := Next(noRelay, s, a).value;
    ExecStep(noRelay, s, a, [b]);
    ExecStep(noRelay, s1, b, []);
    ExecNone(noRelay, Next(noRelay, s1, b).value);
    assert [a] + [b] == [a, b] && [b] + [] == [b];
  }

  lemma {:induction false} ExecConcat(noRelay: bool, s: State, run: seq<Action>, more: seq<Action>)
    requires Exec(noRelay, s, run).Some?
    ensures Exec(noRelay, s, run + more) == Exec(noRelay, Exec(noRelay, s, run).value, more)
    decreases |run|
  {
    hide Next;
    if run == [] {
      assert run + more == more;
    } else {
      assert (run + more)[1..] == run[1..] + more;
      ExecConcat(noRelay, Next(noRelay, s, run[0]).value, run[1..], more);
    }
  }

  /** The flight settles: the phase moves on, and its owner is told. */
  lemma StartSettles(noRelay: bool, s: State, f: nat, i: nat, spawned: seq<Task>)
    requires Stands(s, f, WorkDone(3), i, Some(f), spawned)
    ensures
      var t := Exec(noRelay, s, [Advance(f), OwnerReturn(i)]);
      && t.Some? && t.value.phase == Started && t.value.gen == f && t.value.result == Some(RStarted)
      && f in t.value.flights && t.value.flights[f] == Ended(OStarted)
      && i in t.value.callers && t.value.callers[i] == Returned(GotStarted, Some(f))
      && t.value.endpoint == Some(f) && t.value.spawned == spawned && forall k :: 0 <= k < |spawned| ==> InSlot(t.value, spawned[k])
  {
    NotifyChanges(s);
    hide SpawnNext, Notify, CloseEndpoint, TasksOf, Exec;
    TwoSteps(noRelay, s, Advance(f), OwnerReturn(i));
  }

  lemma FailureSettles(noRelay: bool, s: State, f: nat, i: nat, e: StartError)
    requires Stands(s, f, WorkFailed(e), i, None, [])
    ensures
      var t := Exec(noRelay, s, [Advance(f), OwnerReturn(i)]);
      && t.Some? && t.value.phase == Failed && t.value.gen == f && t.value.result == Some(RError(e))
      && f in t.value.flights && t.value.flights[f] == Ended(OFailed(e))
      && i in t.value.callers && t.value.callers[i] == Returned(GotFailure(f, e), Some(f))
      && t.value.endpoint == None && t.value.spawned == []
  {
    NotifyChanges(s);
    hide SpawnNext, Notify, CloseEndpoint, TasksOf, Exec;
    TwoSteps(noRelay, s, Advance(f), OwnerReturn(i));
  }

  lemma UntilBinding(noRelay: bool, s: State, i: nat)
    requires Inv(s) && (s.phase == Deferred || s.phase == Failed) && s.shutdown == NotRequested && i !in s.callers
    ensures
      var f := s.gen + 1;
      var t := Exec(noRelay, s, [Call(i), Look(i)] + [Advance(f), Advance(f)]);
      t.Some? && Stands(t.value, f, Binding, i, None, [])
  {
    hide Inv, Stands, Next, Exec;
    var f := s.gen + 1;
    CallBegins(noRelay, s, i);
    var s1 := Exec(noRelay, s, [Call(i), Look(i)]).value;
    ExecConcat(noRelay, s, [Call(i), Look(i)], [Advance(f), Advance(f)]);
    FlightGoesOn(noRelay, s1, f, Spawned, i, None, []);
    var s2 := Next(noRelay, s1, Advance(f)).value;
    FlightGoesOn(noRelay, s2, f, Checking, i, None, []);
    TwoSteps(noRelay, s1, Advance(f), Advance(f));
  }

  function ToBinding(i: nat, f: nat): seq<Action> {
    [Call(i), Look(i)] + [Advance(f), Advance(f)]
  }

  /** From every reachable deferred or failed fabric a call that nothing disturbs starts it:
      the endpoint is registered, each task is spawned into its field, and the caller is
      told. */
  lemma StartSucceeds(noRelay: bool, s: State, i: nat)
    requires Reachable(noRelay, s) && (s.phase == Deferred || s.phase == Failed) && s.shutdown == NotRequested && i !in s.callers
    ensures
      var f := s.gen + 1;
      var run := ToBinding(i, f) + [Bind(f, None), Advance(f)] + [Advance(f), Advance(f), Advance(f)] + [Advance(f), OwnerReturn(i)];
      var t := Exec(noRelay, s, run);
      && t.Some? && t.value.phase == Started
      && i in t.value.callers && t.value.callers[i] == Returned(GotStarted, Some(f))
      && t.value.endpoint == Some(f) && t.value.spawned == Tasks(noRelay, f)
      && forall k :: 0 <= k < |t.value.spawned| ==> InSlot(t.value, t.value.spawned[k])
  {
    ReachableInv(noRelay, s);
    hide Reachable, Inv, Stands, Next, Exec, InSlot, Tasks;
    var f := s.gen + 1;
    var early, middle, late := [Bind(f, None), Advance(f)], [Advance(f), Advance(f), Advance(f)], [Advance(f), OwnerReturn(i)];
    UntilBinding(noRelay, s, i);
    var s1 := Exec(noRelay, s, ToBinding(i, f)).value;
    FlightGoesOn(noRelay, s1, f, Binding, i, None, []);
    var s2 := Next(noRelay, s1, Bind(f, None)).value;
    FlightGoesOn(noRelay, s2, f, Settling, i, Some(f), []);
    TwoSteps(noRelay, s1, Bind(f, None), Advance(f));
    var s3 := Exec(noRelay, s1, early).value;
    TasksSpawn(noRelay, s3, f, i);
    var s4 := Exec(noRelay, s3, middle).value;
    StartSettles(noRelay, s4, f, i, Tasks(noRelay, f));
    ExecConcat(noRelay, s, ToBinding(i, f), early);
    ExecConcat(noRelay, s, ToBinding(i, f) + early, middle);
    ExecConcat(noRelay, s, ToBinding(i, f) + early + middle, late);
  }

  /** ... and one whose binding fails reports that failure, leaving nothing behind. */
  lemma StartReportsFailure(noRelay: bool, s: State, i: nat, code: nat)
    requires Reachable(noRelay, s) && (s.phase == Deferred || s.phase == Failed) && s.shutdown == NotRequested && i !in s.callers
    ensures
      var f := s.gen + 1;
      var t := Exec(noRelay, s, ToBinding(i, f) + [Bind(f, Some(code))] + [Advance(f), OwnerReturn(i)]);
      && t.Some? && t.value.phase == Failed
      && i in t.value.callers && t.value.callers[i] == Returned(GotFailure(f, BindFailed(code)), Some(f))
      && t.value.endpoint == None && t.value.spawned == []
  {
    ReachableInv(noRelay, s);
    hide Reachable, Inv, Stands, Next, Exec;
    var f := s.gen + 1;
    UntilBinding(noRelay, s, i);
    var s1 := Exec(noRelay, s, ToBinding(i, f)).value;
    FlightGoesOn(noRelay, s1, f, Binding, i, None, []);
    var s2 := Next(noRelay, s1, Bind(f, Some(code))).value;
    ExecStep(noRelay, s1, Bind(f, Some(code)), []);
    ExecNone(noRelay, s2);
    assert [Bind(f, Some(code))] + [] == [Bind(f, Some(code))];
    FailureSettles(noRelay, s2, f, i, BindFailed(code));
    ExecConcat(noRelay, s, ToBinding(i, f), [Bind(f, Some(code))]);
    ExecConcat(noRelay, s, ToBinding(i, f) + [Bind(f, Some(code))], [Advance(f), OwnerReturn(i)]);
  }

  // ---- An undisturbed shutdown ------------------------------------------------------------------------

  const SHUTDOWN: seq<Action> :=
    [ShutdownStep, ShutdownStep, ShutdownStep] + [ShutdownStep, ShutdownStep, ShutdownStep]

  /** From every reachable started fabric a shutdown closes the phase, hands every task to
      be aborted or joined, and closes the endpoint. */
  lemma ShutdownCloses(noRelay: bool, s: State)
    requires Reachable(noRelay, s) && s.phase == Started && s.shutdown == NotRequested
    ensures
      var t := Exec(noRelay, s, SHUTDOWN);
      && t.Some? && t.value.phase == Closed && t.value.shutdown == Drained
      && t.value.spawned == s.spawned && t.value.flights == s.flights && t.value.callers == s.callers
      && (forall k :: 0 <= k < |s.spawned| ==> s.spawned[k] in t.value.reaped)
      && (s.endpoint.Some? ==> t.value.endpointClosed)
  {
    ReachableInv(noRelay, s);
    StartedMeans(s);
    hide Reachable, Inv, Exec, Reap, CloseEndpoint;
    var s1, s2 := ShutdownNext(s).value, ShutdownNext(ShutdownNext(s).value).value;
    NotifyChanges(s1);
    hide Notify;
    ThreeSteps(noRelay, s, ShutdownStep, ShutdownStep, ShutdownStep);
    var s3 := ShutdownNext(s2).value;
    ThreeSteps(noRelay, s3, ShutdownStep, ShutdownStep, ShutdownStep);
    ExecConcat(noRelay, s, [ShutdownStep, ShutdownStep, ShutdownStep], [ShutdownStep, ShutdownStep, ShutdownStep]);
    DrainReaps(s2);
  }

  lemma StartedMeans(s: State)
    requires Inv(s) && s.phase == Started
    ensures forall k :: 0 <= k < |s.spawned| ==> Passed(s, s.spawned[k].kind) || InSlot(s, s.spawned[k])
  {
    LatestExists(s);
    hide CallerInv, HistoryInv, EndpointOk;
  }

  /** The four drain steps, from a drain that has just begun. */
  lemma DrainReaps(s: State)
    requires s.shutdown == Draining(0) && forall k :: 0 <= k < |s.spawned| ==> InSlot(s, s.spawned[k])
    ensures
      var s3 := ShutdownNext(s).value;
      var s4 := ShutdownNext(s3).value;
      var s5 := ShutdownNext(s4).value;
      var t := ShutdownNext(s5).value;
      && t.shutdown == Drained && t.phase == s.phase && t.spawned == s.spawned && t.flights == s.flights && t.callers == s.callers
      && (forall k :: 0 <= k < |s.spawned| ==> s.spawned[k] in t.reaped)
      && (s.endpoint.Some? ==> t.endpointClosed)
  {
    forall k | 0 <= k < |s.spawned|
      ensures
        var t := ShutdownNext(ShutdownNext(ShutdownNext(ShutdownNext(s).value).value).value).value;
        s.spawned[k] in t.reaped
    {
      OneReaped(s, s.spawned[k]);
    }
    hide Reap;
    ReapSame(s, RelayWatcher);
    var s3 := ShutdownNext(s).value;
    ReapSame(s3, ReconnectManager);
    var s4 := ShutdownNext(s3).value;
    var s5 := ShutdownNext(s4).value;
    ReapSame(s5, AcceptLoop);
  }

  lemma ReapSame(s: State, k: TaskKind)
    ensures var t := Reap(s, k); t == s.(reaped := t.reaped, slots := t.slots)
  {
  }

  lemma ReapTakes(s: State, k: TaskKind, t: Task)
    requires InSlot(s, t) || t in s.reaped
    ensures InSlot(Reap(s, k), t) || t in Reap(s, k).reaped
    ensures k == t.kind ==> t in Reap(s, k).reaped
  {
  }

  lemma OneReaped(s: State, t: Task)
    requires s.shutdown == Draining(0) && InSlot(s, t)
    ensures t in ShutdownNext(ShutdownNext(ShutdownNext(ShutdownNext(s).value).value).value).value.reaped
  {
    ReapTakes(s, RelayWatcher, t);
    var s3 := ShutdownNext(s).value;
    ReapTakes(s3, ReconnectManager, t);
    var s4 := ShutdownNext(s3).value;
    var s5 := ShutdownNext(s4).value;
    ReapTakes(s5, AcceptLoop, t);
    hide Reap;
    ReapSame(s, RelayWatcher);
    ReapSame(s3, ReconnectManager);
    ReapSame(s5, AcceptLoop);
    ReapOnly(s, RelayWatcher, t);
    ReapOnly(s3, ReconnectManager, t);
    ReapOnly(s5, AcceptLoop, t);
  }

  lemma ReapOnly(s: State, k: TaskKind, t: Task)
    ensures t in s.reaped ==> t in Reap(s, k).reaped
    ensures k != t.kind && InSlot(s, t) ==> InSlot(Reap(s, k), t)
  {
  }

  /** A shutdown that meets a flight between two of its steps reaches it: the flight sees
      the cancellation, gives up what it has, and ends cancelled. */
  lemma ShutdownCancels(noRelay: bool, s: State)
    requires Reachable(noRelay, s) && s.phase == Starting && s.shutdown == NotRequested
    requires s.gen in s.flights && (s.flights[s.gen].Checking? || s.flights[s.gen].Binding? || s.flights[s.gen].Settling?)
    ensures
      var f := s.gen;
      var t := Exec(noRelay, s, [ShutdownStep, ShutdownStep, ObserveCancel(f)] + [Advance(f), Advance(f)]);
      && t.Some? && t.value.phase == Closed && f in t.value.flights && t.value.flights[f] == Ended(OCancelled)
      && t.value.endpoint == s.endpoint && (s.endpoint.Some? ==> t.value.endpointClosed)
  {
    ReachableInv(noRelay, s);
    StartingMeans(s);
    hide Reachable, Inv, Exec, Next;
    CancelSeenCloses(noRelay, s);
  }

  lemma StartingMeans(s: State)
    requires Inv(s) && s.phase == Starting
    ensures s.result == None && !s.cancel
  {
    hide CallerInv, HistoryInv, EndpointOk, TaskOk;
  }

  lemma CancelSeenCloses(noRelay: bool, s: State)
    requires s.phase == Starting && s.shutdown == NotRequested && s.result == None
    requires s.gen in s.flights && (s.flights[s.gen].Checking? || s.flights[s.gen].Binding? || s.flights[s.gen].Settling?)
    ensures
      var f := s.gen;
      var t := Exec(noRelay, s, [ShutdownStep, ShutdownStep, ObserveCancel(f)] + [Advance(f), Advance(f)]);
      && t.Some? && t.value.phase == Closed && f in t.value.flights && t.value.flights[f] == Ended(OCancelled)
      && t.value.endpoint == s.endpoint && (s.endpoint.Some? ==> t.value.endpointClosed)
  {
    hide Exec, SpawnNext, TasksOf, Reap, HasReceiver;
    var f := s.gen;
    var s2 := ShutdownNext(ShutdownNext(s).value).value;
    assert s2.cancel && s2.phase == Closed && s2.flights == s.flights && s2.gen == f && s2.endpoint == s.endpoint;
    var s3 := SetFlight(s2, f, CancelSeen);
    assert Next(noRelay, s2, ObserveCancel(f)) == Some(s3);
    ThreeSteps(noRelay, s, ShutdownStep, ShutdownStep, ObserveCancel(f));
    EndsCancelled(noRelay, s3, f);
    ExecConcat(noRelay, s, [ShutdownStep, ShutdownStep, ObserveCancel(f)], [Advance(f), Advance(f)]);
  }

  lemma EndsCancelled(noRelay: bool, s: State, f: nat)
    requires s.gen == f && s.phase == Closed && f in s.flights && s.flights[f] == CancelSeen
    ensures
      var t := Exec(noRelay, s, [Advance(f), Advance(f)]);
      && t.Some? && t.value.phase == Closed && f in t.value.flights && t.value.flights[f] == Ended(OCancelled)
      && t.value.endpoint == s.endpoint && (s.endpoint.Some? ==> t.value.endpointClosed)
  {
    hide Exec, SpawnNext, TasksOf, HasReceiver;
    TwoSteps(noRelay, s, Advance(f), Advance(f));
  }

  /** What a flight's next step makes of what it finds: a cancellation, a shutdown already
      requested, and at its end a phase that shutdown has closed. */
  lemma AdvanceDecides(noRelay: bool, s: State)
    requires Reachable(noRelay, s) && s.gen in s.flights
    ensures
      var f := s.gen;
      var x := s.flights[f];
      var t := Next(noRelay, s, Advance(f));
      && (x == Spawned ==> t == Some(s.(flights := s.flights[f := if s.cancel then CancelSeen else Checking])))
      && (x == Checking ==>
            t == Some(s.(flights := s.flights[f := if s.shutdown == NotRequested then Binding else WorkFailed(ShuttingDown)])))
      && (x.WorkFailed? && s.phase == Starting ==>
            t.Some? && t.value.phase == Failed && t.value.result == Some(RError(x.error))
            && t.value.flights == s.flights[f := Ended(OFailed(x.error))])
      && (x.WorkFailed? && s.phase == Closed ==> t == Some(s.(flights := s.flights[f := Closing])))
      && (x == WorkDone(3) && s.phase == Starting ==>
            t.Some? && t.value.phase == Started && t.value.result == Some(RStarted) && t.value.flights == s.flights[f := Ended(OStarted)])
      && (x == WorkDone(3) && s.phase == Closed ==> t == Some(s.(flights := s.flights[f := Undoing])))
  {
    NotifyChanges(s);
    hide Reachable, SpawnNext, Notify, CloseEndpoint, TasksOf;
  }

  /** A flight that lost to the shutdown after its work closes the endpoint and then
      aborts every task it spawned. */
  lemma LostFlightUndoes(noRelay: bool, s: State)
    requires s.gen in s.flights && s.flights[s.gen] == Undoing
    ensures
      var f := s.gen;
      var t := Exec(noRelay, s, [Advance(f), Advance(f)]);
      && t.Some? && f in t.value.flights && t.value.flights[f] == Ended(OCancelled)
      && (s.endpoint.Some? ==> t.value.endpointClosed)
      && forall k :: 0 <= k < |s.spawned| && s.spawned[k].flight == f ==> s.spawned[k] in t.value.reaped
  {
    hide Exec, SpawnNext, HasReceiver;
    TwoSteps(noRelay, s, Advance(s.gen), Advance(s.gen));
  }

  // ---- The other steps of a caller ---------------------------------------------------------------------

  /** A call begins with a look; a waiter wakes exactly when there is a version it has not
      seen, remembering the flight it waited for; an owner is told what its flight ended
      with; and a caller may give up at any time, leaving the rest as it is. */
  lemma CallersStep(noRelay: bool, s: State, i: nat)
    ensures i !in s.callers ==> Next(noRelay, s, Call(i)) == Some(s.(callers := s.callers[i := Looping(s.version, None)]))
    ensures forall seen: nat, f: nat :: i in s.callers && s.callers[i] == Waiting(seen, f) ==>
      Next(noRelay, s, Wake(i))
        == (if seen < s.version then Some(s.(callers := s.callers[i := Looping(s.version, Some(f))])) else None)
    ensures forall f: nat :: i in s.callers && s.callers[i] == Owning(f) && f in s.flights && s.flights[f].Ended? ==>
      Next(noRelay, s, OwnerReturn(i))
        == Some(s.(callers := s.callers[i := Returned(
             match s.flights[f].outcome
             case OStarted => GotStarted
             case OCancelled => GotCancelled
             case OFailed(e) => GotFailure(f, e), Some(f))]))
    ensures i in s.callers && !s.callers[i].Returned? ==> Next(noRelay, s, Abandon(i)) == Some(s.(callers := s.callers - {i}))
  {
  }
}
