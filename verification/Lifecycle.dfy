/** Start, shutdown and the start flight, as a transition system whose steps are
    the lock-held sections and the points between two awaits. */
module Lifecycle {
  import opened Bytes

  datatype Phase = Deferred | Starting | Started | Failed | Closed

  datatype StartError = ShuttingDown | BindFailed(code: nat)

  /** `flight_result`: what the waiters of the latest flight share. */
  datatype FlightResult = RStarted | RCancelled | RError(error: StartError)

  /** What `start_flight` returns. */
  datatype Outcome = OStarted | OCancelled | OFailed(error: StartError)

  datatype TaskKind = RelayWatcher | ReconnectManager | AcceptLoop

  datatype Task = Task(kind: TaskKind, flight: nat)

  /** Where one start flight stands. */
  datatype Flight =
    | Spawned                 // not yet subscribed to the cancel channel
    | Checking                // about to ask whether the fabric is closing
    | Binding
    | Settling                // endpoint registered, waiting for online
    | WorkDone(tasks: nat)    // work succeeded, that many runtime tasks spawned
    | WorkFailed(error: StartError)
    | CancelSeen
    | Closing                 // lost to shutdown without tasks: endpoint to close
    | Undoing                 // lost to shutdown with tasks: endpoint to close
    | Aborting                //   and then the tasks to abort
    | Ended(outcome: Outcome)

  /** A caller of `start()`. `seen` is the last version of the watch channel its
      receiver has observed. */
  datatype Caller =
    | Looping(seen: nat, joined: Option<nat>)
    | Waiting(seen: nat, on: nat)
    | Owning(owned: nat)
    | Returned(result: StartResult, flight: Option<nat>)   // with the flight it joined or owned

  datatype StartResult =
    | GotStarted
    | GotCancelled
    | GotFailure(flight: nat, error: StartError)
    | GotShutdown

  datatype Shutdown = NotRequested | Requested | Draining(step: nat) | Drained

  datatype State = State(
    phase: Phase,
    gen: nat,
    result: Option<FlightResult>,
    version: nat,
    cancel: bool,
    shutdown: Shutdown,
    flights: map<nat, Flight>,
    callers: map<nat, Caller>,
    endpoint: Option<nat>,          // the flight that registered it
    registrations: nat,
    endpointClosed: bool,
    slots: map<TaskKind, Task>,     // the three task fields
    spawned: seq<Task>,
    reaped: set<Task>)              // aborted or joined

  datatype Action =
    | Call(caller: nat)
    | Look(caller: nat)
    | Wake(caller: nat)
    | OwnerReturn(caller: nat)
    | Abandon(caller: nat)
    | Advance(flight: nat)
    | Bind(flight: nat, failure: Option<nat>)
    | ObserveCancel(flight: nat)
    | ShutdownStep

  function InitDeferred(): State {
    State(Deferred, 0, None, 0, false, NotRequested, map[], map[], None, 0, false, map[], [], {})
  }

  /** Eager construction: flight 1 is under way from the outset. */
  function InitEager(): State {
    InitDeferred().(phase := Starting, gen := 1, flights := map[1 := Spawned])
  }

  predicate ShutdownBegun(s: State) { s.shutdown != NotRequested }

  /** A watch send is stored, and seen, only while some receiver lives. */
  predicate HasReceiver(s: State) {
    exists i :: i in s.callers && !s.callers[i].Returned?
  }

  function Notify(s: State): State {
    if HasReceiver(s) then s.(version := s.version + 1) else s
  }

  // ---- Callers --------------------------------------------------------------------

  function BeginFlight(s: State, i: nat): State {
    Notify(s).(phase := Starting, gen := s.gen + 1, result := None,
               flights := s.flights[s.gen + 1 := Spawned], callers := s.callers[i := Owning(s.gen + 1)])
  }

  /** One pass through the locked section of `start()`. */
  function LookAt(s: State, i: nat): State
    requires i in s.callers && s.callers[i].Looping?
  {
    var me := s.callers[i];
    match s.phase
    case Started => s.(callers := s.callers[i := Returned(GotStarted, me.joined)])
    case Closed =>
      var r := if me.joined == Some(s.gen) && s.result == Some(RCancelled) then GotCancelled else GotShutdown;
      s.(callers := s.callers[i := Returned(r, me.joined)])
    case Starting => s.(callers := s.callers[i := Waiting(me.seen, s.gen)])
    case Failed =>
      if me.joined == Some(s.gen) && s.result.Some? && s.result.value.RError?
      then s.(callers := s.callers[i := Returned(GotFailure(s.gen, s.result.value.error), me.joined)])
      else BeginFlight(s, i)
    case Deferred => BeginFlight(s, i)
  }

  function ResultOf(f: nat, o: Outcome): StartResult {
    match o
    case OStarted => GotStarted
    case OCancelled => GotCancelled
    case OFailed(e) => GotFailure(f, e)
  }

  function CallerNext(s: State, a: Action): Option<State>
    requires a.Call? || a.Look? || a.Wake? || a.OwnerReturn? || a.Abandon?
  {
    var i := a.caller;
    if a.Call? then
      if i in s.callers then None else Some(s.(callers := s.callers[i := Looping(s.version, None)]))
    else if i !in s.callers then None
    else
      var me := s.callers[i];
      match a
      case Look(_) => if me.Looping? then Some(LookAt(s, i)) else None
      case Wake(_) =>
        if me.Waiting? && me.seen < s.version
        then Some(s.(callers := s.callers[i := Looping(s.version, Some(me.on))])) else None
      case OwnerReturn(_) =>
        if me.Owning? && me.owned in s.flights && s.flights[me.owned].Ended?
        then Some(s.(callers := s.callers[i := Returned(ResultOf(me.owned, s.flights[me.owned].outcome), Some(me.owned))])) else None
      case Abandon(_) => if me.Returned? then None else Some(s.(callers := s.callers - {i}))
  }

  // ---- The flight -----------------------------------------------------------------------

  function SetFlight(s: State, f: nat, to: Flight): State {
    s.(flights := s.flights[f := to])
  }

  function CloseEndpoint(s: State): State {
    if s.endpoint.Some? then s.(endpointClosed := true) else s
  }

  /** `spawn_runtime_tasks`, one task field at a time; there is no relay watcher
      when relays are disabled. */
  function SpawnNext(noRelay: bool, s: State, f: nat, n: nat): State {
    if n == 0 && noRelay then SetFlight(s, f, WorkDone(1)).(slots := s.slots - {RelayWatcher})
    else
      var t := Task(if n == 0 then RelayWatcher else if n == 1 then ReconnectManager else AcceptLoop, f);
      SetFlight(s, f, WorkDone(n + 1)).(slots := s.slots[t.kind := t], spawned := s.spawned + [t])
  }

  function TasksOf(s: State, f: nat): set<Task> {
    set t | t in s.spawned && t.flight == f
  }

  /** The flight's next step. */
  function AdvanceFlight(noRelay: bool, s: State, f: nat): Option<State>
    requires f in s.flights
  {
    match s.flights[f]
    case Spawned => Some(SetFlight(s, f, if s.cancel then CancelSeen else Checking))
    case Checking => Some(SetFlight(s, f, if ShutdownBegun(s) then WorkFailed(ShuttingDown) else Binding))
    case Binding => None
    case Settling => Some(SetFlight(s, f, WorkDone(0)))
    case WorkDone(n) =>
      if n < 3 then Some(SpawnNext(noRelay, s, f, n))
      else if s.gen == f && s.phase == Starting then
        Some(SetFlight(Notify(s), f, Ended(OStarted)).(phase := Started, result := Some(RStarted)))
      else Some(SetFlight(s, f, Undoing))
    case WorkFailed(e) =>
      if s.gen == f && s.phase == Starting then
        Some(SetFlight(Notify(s), f, Ended(OFailed(e))).(phase := Failed, result := Some(RError(e))))
      else if s.gen == f then Some(SetFlight(s, f, Closing))
      else Some(SetFlight(s, f, Ended(OFailed(e))))
    case CancelSeen =>
      if s.gen == f then
        Some(SetFlight(Notify(s), f, Closing).(
          phase := if s.phase == Starting then Closed else s.phase,
          result := if s.result.None? then Some(RCancelled) else s.result))
      else Some(SetFlight(s, f, Closing))
    case Closing => Some(SetFlight(CloseEndpoint(s), f, Ended(OCancelled)))
    case Undoing => Some(SetFlight(CloseEndpoint(s), f, Aborting))
    case Aborting => Some(SetFlight(s, f, Ended(OCancelled)).(reaped := s.reaped + TasksOf(s, f)))
    case Ended(_) => None
  }

  function FlightNext(noRelay: bool, s: State, a: Action): Option<State>
    requires a.Advance? || a.Bind? || a.ObserveCancel?
  {
    var f := a.flight;
    if f !in s.flights then None
    else
      match a
      case Advance(_) => AdvanceFlight(noRelay, s, f)
      case Bind(_, failure) =>
        if !s.flights[f].Binding? then None
        else if failure.Some? then Some(SetFlight(s, f, WorkFailed(BindFailed(failure.value))))
        else Some(SetFlight(s, f, Settling).(
          endpoint := if s.endpoint.Some? then s.endpoint else Some(f), registrations := s.registrations + 1))
      case ObserveCancel(_) =>
        if s.cancel && (s.flights[f].Checking? || s.flights[f].Binding? || s.flights[f].Settling?)
        then Some(SetFlight(s, f, CancelSeen)) else None
  }

  // ---- Shutdown ---------------------------------------------------------------------------

  function Reap(s: State, k: TaskKind): State {
    if k in s.slots then s.(reaped := s.reaped + {s.slots[k]}, slots := s.slots - {k}) else s
  }

  function ShutdownNext(s: State): Option<State> {
    match s.shutdown
    case NotRequested => Some(s.(shutdown := Requested))
    case Requested =>
      if s.phase == Closed then Some(s.(shutdown := Draining(0)))
      else
        var s2 := Notify(s).(phase := Closed, shutdown := Draining(0));
        if s.phase == Starting
        then Some(s2.(result := if s.result.None? then Some(RCancelled) else s.result, cancel := true))
        else Some(s2)
    case Draining(n) =>
      if n == 0 then Some(Reap(s, RelayWatcher).(shutdown := Draining(1)))
      else if n == 1 then Some(Reap(s, ReconnectManager).(shutdown := Draining(2)))
      else if n == 2 then Some(CloseEndpoint(s).(shutdown := Draining(3)))
      else Some(Reap(s, AcceptLoop).(shutdown := Drained))
    case Drained => None
  }

  function Next(noRelay: bool, s: State, a: Action): Option<State> {
    if a.ShutdownStep? then ShutdownNext(s)
    else if a.Advance? || a.Bind? || a.ObserveCancel? then FlightNext(noRelay, s, a)
    else CallerNext(s, a)
  }

  /** The state after a run of enabled actions. */
  function Exec(noRelay: bool, s: State, run: seq<Action>): Option<State>
    decreases |run|
  {
    if run == [] then Some(s)
    else
      match Next(noRelay, s, run[0])
      case None => None
      case Some(s1) => Exec(noRelay, s1, run[1..])
  }

  // ---- The invariant -------------------------------------------------------------------------

  predicate DrainBegun(s: State) { s.shutdown.Draining? || s.shutdown.Drained? }

  /** Every flight but the latest has failed. */
  ghost predicate HistoryInv(flights: map<nat, Flight>, gen: nat) {
    && (forall f :: f in flights ==> 1 <= f <= gen)
    && (forall f :: f in flights && f < gen ==> flights[f].Ended? && flights[f].outcome.OFailed?)
    && (gen > 0 ==> gen in flights)
  }

  ghost predicate PhaseInv(s: State) {
    && (s.phase == Closed <==> DrainBegun(s))
    && (s.cancel ==> s.phase == Closed)
    && (s.result == Some(RCancelled) ==> s.phase == Closed)
    && (s.phase == Deferred ==> s.gen == 0)
    && (s.phase == Starting ==> s.result.None?)
    && s.registrations == (if s.endpoint.Some? then 1 else 0)
    && (s.gen == 0 ==> s.phase == Deferred || s.phase == Closed)
    && (s.gen == 0 ==> s.endpoint.None? && s.spawned == [])
  }

  /** Where the latest flight may stand in each phase, and what its waiters will be
      told once the phase is Closed. */
  ghost predicate LatestOk(s: State, f: Flight) {
    && PhaseOk(s, f)
    && (s.phase == Closed && f != Ended(OStarted) && !(f.Ended? && f.outcome.OFailed?) ==> s.result == Some(RCancelled))
    && (f == Ended(OStarted) || (f.Ended? && f.outcome.OFailed?) ==> s.result != Some(RCancelled))
  }

  ghost predicate PhaseOk(s: State, f: Flight) {
    match f
    case Spawned => s.phase == Starting || s.phase == Closed
    case Checking => s.phase == Starting || s.phase == Closed
    case Binding => s.phase == Starting || s.phase == Closed
    case Settling => s.phase == Starting || s.phase == Closed
    case WorkDone(n) => n <= 3 && (s.phase == Starting || s.phase == Closed)
    case WorkFailed(_) => s.phase == Starting || s.phase == Closed
    case CancelSeen => s.phase == Closed
    case Closing => s.phase == Closed
    case Undoing => s.phase == Closed
    case Aborting => s.phase == Closed
    case Ended(OStarted) => s.phase == Started || s.phase == Closed
    case Ended(OCancelled) => s.phase == Closed
    case Ended(OFailed(e)) => (s.phase == Failed && s.result == Some(RError(e))) || s.phase == Closed
  }

  /** The endpoint is registered once, by a flight no other can follow, and closed by
      whoever outlives the other. */
  ghost predicate EndpointOk(s: State, f: Flight) {
    && (s.endpoint.Some? ==> s.endpoint == Some(s.gen))
    && (f.Spawned? || f.Checking? || f.Binding? || f.WorkFailed? || (f.Ended? && f.outcome.OFailed?) ==> s.endpoint.None?)
    && (f.Settling? || f.WorkDone? || f.Undoing? || f.Aborting? || (f.Ended? && f.outcome.OStarted?) ==> s.endpoint.Some?)
    && (f == Ended(OCancelled) && s.endpoint.Some? ==> s.endpointClosed)
    && (f == Aborting ==> s.endpointClosed)
    && (f == Ended(OStarted) && (s.shutdown.Drained? || (s.shutdown.Draining? && s.shutdown.step > 2)) ==> s.endpointClosed)
  }

  predicate Passed(s: State, k: TaskKind) {
    || s.shutdown.Drained?
    || (s.shutdown.Draining? && s.shutdown.step > match k case RelayWatcher => 0 case ReconnectManager => 1 case AcceptLoop => 3)
  }

  function Order(k: TaskKind): nat {
    match k case RelayWatcher => 0 case ReconnectManager => 1 case AcceptLoop => 2
  }

  predicate InSlot(s: State, t: Task) {
    t.kind in s.slots && s.slots[t.kind] == t
  }

  /** Runtime tasks are spawned by the latest flight, in order and so each once. Each
      is in its field, reaped, or about to be aborted by that flight. */
  ghost predicate TaskOk(s: State, f: Flight) {
    && (forall i :: 0 <= i < |s.spawned| ==> s.spawned[i].flight == s.gen)
    && (forall i, j :: 0 <= i < j < |s.spawned| ==> Order(s.spawned[i].kind) < Order(s.spawned[j].kind))
    && (s.spawned != [] ==> f.WorkDone? || f.Undoing? || f.Aborting? || f == Ended(OStarted) || f == Ended(OCancelled))
    && (f.WorkDone? ==> forall i :: 0 <= i < |s.spawned| ==> Order(s.spawned[i].kind) < f.tasks)
    && (f.WorkDone? && !DrainBegun(s) ==> forall i :: 0 <= i < |s.spawned| ==> InSlot(s, s.spawned[i]))
    && (f == Ended(OStarted) ==> forall i :: 0 <= i < |s.spawned| ==>
          if Passed(s, s.spawned[i].kind) then s.spawned[i] in s.reaped else InSlot(s, s.spawned[i]))
    && (f == Ended(OCancelled) ==> forall i :: 0 <= i < |s.spawned| ==> s.spawned[i] in s.reaped)
  }

  ghost predicate LatestInv(s: State) {
    s.gen > 0 && s.gen in s.flights ==>
      LatestOk(s, s.flights[s.gen]) && EndpointOk(s, s.flights[s.gen]) && TaskOk(s, s.flights[s.gen])
  }

  /** What each caller may hold or have returned. */
  ghost predicate CallerOk(s: State, me: Caller) {
    match me
    case Looping(seen, joined) => seen <= s.version && (joined.Some? ==> joined.value <= s.gen)
    case Waiting(seen, f) =>
      && seen <= s.version && f <= s.gen
      && ((s.phase == Starting && f == s.gen) || seen < s.version)
    case Owning(f) => f in s.flights
    case Returned(GotStarted, _) => s.gen in s.flights && s.flights[s.gen] == Ended(OStarted)
    case Returned(GotCancelled, mine) => s.phase == Closed && mine == Some(s.gen) && s.result == Some(RCancelled)
    case Returned(GotFailure(f, e), mine) => mine == Some(f) && f in s.flights && s.flights[f] == Ended(OFailed(e))
    case Returned(GotShutdown, mine) => s.phase == Closed && !(mine == Some(s.gen) && s.result == Some(RCancelled))
  }

  ghost predicate CallerInv(s: State) {
    forall i :: i in s.callers ==> CallerOk(s, s.callers[i])
  }

  ghost predicate Inv(s: State) {
    HistoryInv(s.flights, s.gen) && PhaseInv(s) && LatestInv(s) && CallerInv(s)
  }

  // ---- Every step keeps it ----------------------------------------------------------------------

  lemma NotifyChanges(s: State)
    ensures Notify(s) == s.(version := Notify(s).version)
    ensures Notify(s).version == if HasReceiver(s) then s.version + 1 else s.version
  {
  }

  /** Only the latest flight can move: at most one runs. */
  lemma OnlyLatestMoves(noRelay: bool, s: State, a: Action)
    requires Inv(s) && (a.Advance? || a.Bind? || a.ObserveCancel?) && FlightNext(noRelay, s, a).Some?
    ensures a.flight == s.gen && s.gen > 0 && s.gen in s.flights && !s.flights[s.gen].Ended?
  {
    hide PhaseInv, LatestInv, CallerInv, SpawnNext, Notify, CloseEndpoint, TasksOf;
  }

  lemma HistorySet(s: State, to: Flight)
    requires HistoryInv(s.flights, s.gen) && s.gen > 0
    ensures HistoryInv(s.flights[s.gen := to], s.gen)
  {
  }

  /** Callers are content with a step of the latest flight that wakes them whenever it
      moves the phase on. */
  lemma CallersContent(s: State, s': State)
    requires CallerInv(s) && HistoryInv(s.flights, s.gen) && s'.callers == s.callers && s'.gen == s.gen
    requires s.gen in s'.flights && s'.flights == s.flights[s.gen := s'.flights[s.gen]]
    requires s.gen in s.flights && !s.flights[s.gen].Ended?
    requires s'.version == s.version || s'.version == s.version + 1
    requires s'.phase == s.phase || s'.version == Notify(s).version
    requires s.phase == Closed ==> s'.phase == Closed && s'.result == s.result
    ensures CallerInv(s')
  {
    hide HistoryInv;
    NotifyChanges(s);
    forall i | i in s'.callers
      ensures CallerOk(s', s'.callers[i])
    {
      assert CallerOk(s, s.callers[i]);
    }
  }

  lemma EarlyAdvance(noRelay: bool, s: State, a: Action)
    requires Inv(s) && s.gen > 0 && s.gen in s.flights && a.Advance? && a.flight == s.gen
    requires s.flights[s.gen].Spawned? || s.flights[s.gen].Checking? || s.flights[s.gen].Binding? || s.flights[s.gen].Settling?
    requires FlightNext(noRelay, s, a).Some?
    ensures Inv(FlightNext(noRelay, s, a).value)
  {
    hide HistoryInv, CallerInv;
    var s' := FlightNext(noRelay, s, a).value;
    HistorySet(s, s'.flights[s.gen]);
    CallersContent(s, s');
  }

  lemma BindStep(noRelay: bool, s: State, a: Action)
    requires Inv(s) && s.gen > 0 && s.gen in s.flights && a.Bind? && a.flight == s.gen
    requires FlightNext(noRelay, s, a).Some?
    ensures Inv(FlightNext(noRelay, s, a).value)
  {
    hide HistoryInv, CallerInv, AdvanceFlight;
    var s' := FlightNext(noRelay, s, a).value;
    HistorySet(s, s'.flights[s.gen]);
    CallersContent(s, s');
  }

  lemma ObserveStep(noRelay: bool, s: State, a: Action)
    requires Inv(s) && s.gen > 0 && s.gen in s.flights && a.ObserveCancel? && a.flight == s.gen
    requires FlightNext(noRelay, s, a).Some?
    ensures Inv(FlightNext(noRelay, s, a).value)
  {
    hide HistoryInv, CallerInv, AdvanceFlight;
    var s' := FlightNext(noRelay, s, a).value;
    HistorySet(s, CancelSeen);
    CallersContent(s, s');
  }

  lemma SpawnStep(noRelay: bool, s: State, n: nat)
    requires Inv(s) && s.gen > 0 && s.gen in s.flights && s.flights[s.gen] == WorkDone(n) && n < 3
    ensures Inv(SpawnNext(noRelay, s, s.gen, n))
  {
    hide HistoryInv, CallerInv, EndpointOk, TaskOk;
    var s' := SpawnNext(noRelay, s, s.gen, n);
    HistorySet(s, WorkDone(n + 1));
    CallersContent(s, s');
    EndpointSame(s, s', s.flights[s.gen], WorkDone(n + 1));
    SpawnTasks(noRelay, s, n);
  }

  lemma SpawnTasks(noRelay: bool, s: State, n: nat)
    requires s.gen > 0 && s.gen in s.flights && s.flights[s.gen] == WorkDone(n) && n < 3 && TaskOk(s, WorkDone(n))
    ensures TaskOk(SpawnNext(noRelay, s, s.gen, n), WorkDone(n + 1))
  {
  }

  lemma EndpointSame(s: State, s': State, f: Flight, f': Flight)
    requires EndpointOk(s, f) && s'.gen == s.gen && s'.endpoint == s.endpoint && s'.endpointClosed == s.endpointClosed
    requires f.WorkDone? && f'.WorkDone? && s'.shutdown == s.shutdown
    ensures EndpointOk(s', f')
  {
  }

  lemma SettleStep(noRelay: bool, s: State)
    requires Inv(s) && s.gen > 0 && s.gen in s.flights
    requires s.flights[s.gen].WorkDone? && s.flights[s.gen].tasks == 3
    ensures Inv(AdvanceFlight(noRelay, s, s.gen).value)
  {
    hide HistoryInv, CallerInv, HasReceiver, Notify;
    NotifyChanges(s);
    var s' := AdvanceFlight(noRelay, s, s.gen).value;
    HistorySet(s, s'.flights[s.gen]);
    CallersContent(s, s');
  }

  lemma FailStep(noRelay: bool, s: State)
    requires Inv(s) && s.gen > 0 && s.gen in s.flights && s.flights[s.gen].WorkFailed?
    ensures Inv(AdvanceFlight(noRelay, s, s.gen).value)
  {
    hide HistoryInv, CallerInv, HasReceiver, Notify, TaskOk;
    NotifyChanges(s);
    var s' := AdvanceFlight(noRelay, s, s.gen).value;
    HistorySet(s, s'.flights[s.gen]);
    CallersContent(s, s');
    NoTasksYet(s, s', s.flights[s.gen], s'.flights[s.gen]);
  }

  lemma CancelStep(noRelay: bool, s: State)
    requires Inv(s) && s.gen > 0 && s.gen in s.flights && s.flights[s.gen].CancelSeen?
    ensures Inv(AdvanceFlight(noRelay, s, s.gen).value)
  {
    hide HistoryInv, CallerInv, HasReceiver, Notify, TaskOk;
    NotifyChanges(s);
    var s' := AdvanceFlight(noRelay, s, s.gen).value;
    HistorySet(s, s'.flights[s.gen]);
    CallersContent(s, s');
    NoTasksYet(s, s', s.flights[s.gen], s'.flights[s.gen]);
  }

  lemma NoTasksYet(s: State, s': State, f: Flight, f': Flight)
    requires TaskOk(s, f) && (f.WorkFailed? || f.CancelSeen?) && s'.spawned == s.spawned
    ensures TaskOk(s', f') || f'.WorkDone?
  {
  }

  lemma EndingStep(noRelay: bool, s: State)
    requires Inv(s) && s.gen > 0 && s.gen in s.flights
    requires s.flights[s.gen].Closing? || s.flights[s.gen].Undoing? || s.flights[s.gen].Aborting?
    ensures Inv(AdvanceFlight(noRelay, s, s.gen).value)
  {
    hide HistoryInv, CallerInv;
    var s' := AdvanceFlight(noRelay, s, s.gen).value;
    HistorySet(s, s'.flights[s.gen]);
    CallersContent(s, s');
  }

  lemma FlightStep(noRelay: bool, s: State, a: Action)
    requires Inv(s) && (a.Advance? || a.Bind? || a.ObserveCancel?) && FlightNext(noRelay, s, a).Some?
    ensures Inv(FlightNext(noRelay, s, a).value)
  {
    OnlyLatestMoves(noRelay, s, a);
    LatestTasks(s);
    hide HistoryInv, CallerInv, PhaseInv, LatestInv, SpawnNext;
    var f := s.flights[s.gen];
    if f.WorkDone? {
      if f.tasks < 3 {
        SpawnStep(noRelay, s, f.tasks);
      } else {
        SettleStep(noRelay, s);
      }
    } else if f.WorkFailed? {
      FailStep(noRelay, s);
    } else if f.CancelSeen? {
      CancelStep(noRelay, s);
    } else if f.Closing? || f.Undoing? || f.Aborting? {
      EndingStep(noRelay, s);
    } else if a.Advance? {
      EarlyAdvance(noRelay, s, a);
    } else if a.ObserveCancel? {
      ObserveStep(noRelay, s, a);
    } else {
      BindStep(noRelay, s, a);
    }
  }

  lemma LatestTasks(s: State)
    requires Inv(s) && s.gen > 0 && s.gen in s.flights
    ensures s.flights[s.gen].WorkDone? ==> s.flights[s.gen].tasks <= 3
  {
    hide PhaseInv, CallerInv;
  }

  // ---- Shutdown steps

  lemma RequestStep(s: State)
    requires Inv(s) && s.shutdown.NotRequested?
    ensures Inv(ShutdownNext(s).value)
  {
    hide HistoryInv, CallerInv;
    var s' := ShutdownNext(s).value;
    CallersUndisturbed(s, s');
  }

  lemma CallersUndisturbed(s: State, s': State)
    requires CallerInv(s) && s'.callers == s.callers && s'.gen == s.gen && s'.flights == s.flights
    requires s'.version == s.version || s'.version == s.version + 1
    requires s'.phase == s.phase || s'.version == Notify(s).version
    requires s.phase == Closed ==> s'.phase == Closed && s'.result == s.result
    ensures CallerInv(s')
  {
    NotifyChanges(s);
    forall i | i in s'.callers
      ensures CallerOk(s', s'.callers[i])
    {
      assert CallerOk(s, s.callers[i]);
    }
  }

  lemma ClosePhaseStep(s: State)
    requires Inv(s) && s.shutdown.Requested?
    ensures Inv(ShutdownNext(s).value)
  {
    hide HistoryInv, CallerInv, HasReceiver, Notify, LatestOk, EndpointOk, TaskOk;
    NotifyChanges(s);
    var s' := ShutdownNext(s).value;
    CallersUndisturbed(s, s');
    if s.gen > 0 && s.gen in s.flights {
      ClosePhaseLatest(s, s.flights[s.gen]);
    }
  }

  lemma ClosePhaseLatest(s: State, f: Flight)
    requires s.shutdown.Requested? && s.phase != Closed && (s.phase == Starting ==> s.result.None?)
    requires LatestOk(s, f) && EndpointOk(s, f) && TaskOk(s, f)
    ensures var s' := ShutdownNext(s).value; LatestOk(s', f) && EndpointOk(s', f) && TaskOk(s', f)
  {
    hide HasReceiver, Notify, TaskOk, EndpointOk;
    NotifyChanges(s);
    ClosePhaseRest(s, f);
  }

  lemma ClosePhaseRest(s: State, f: Flight)
    requires s.shutdown.Requested? && s.phase != Closed && LatestOk(s, f) && EndpointOk(s, f) && TaskOk(s, f)
    ensures EndpointOk(ShutdownNext(s).value, f) && TaskOk(ShutdownNext(s).value, f)
  {
    NotifyChanges(s);
    hide HasReceiver, Notify, Order;
  }

  lemma DrainStep(s: State)
    requires Inv(s) && s.shutdown.Draining?
    ensures Inv(ShutdownNext(s).value)
  {
    DrainChanges(s);
    hide HistoryInv, CallerInv, LatestOk, EndpointOk, TaskOk, ShutdownNext;
    var s' := ShutdownNext(s).value;
    CallersUndisturbed(s, s');
    if s.gen > 0 && s.gen in s.flights {
      StillLatestOk(s, s', s.flights[s.gen]);
      DrainEndpoint(s, s.flights[s.gen]);
      DrainTasks(s, s.flights[s.gen]);
    }
  }

  lemma DrainEndpoint(s: State, f: Flight)
    requires EndpointOk(s, f) && s.shutdown.Draining?
    ensures EndpointOk(ShutdownNext(s).value, f)
  {
  }

  ghost predicate Kept(s: State, t: Task) {
    if Passed(s, t.kind) then t in s.reaped else InSlot(s, t)
  }

  lemma DrainTask(s: State, t: Task)
    requires Kept(s, t) && s.shutdown.Draining?
    ensures Kept(ShutdownNext(s).value, t)
  {
  }

  lemma DrainTasks(s: State, f: Flight)
    requires TaskOk(s, f) && s.shutdown.Draining?
    ensures TaskOk(ShutdownNext(s).value, f)
  {
    DrainChanges(s);
    var s' := ShutdownNext(s).value;
    hide Order, ShutdownNext, Kept;
    if f == Ended(OStarted) {
      forall i | 0 <= i < |s.spawned| ensures Kept(s', s'.spawned[i]) {
        KeptMeans(s, s.spawned[i]);
        DrainTask(s, s.spawned[i]);
      }
      forall i | 0 <= i < |s.spawned|
        ensures if Passed(s', s'.spawned[i].kind) then s'.spawned[i] in s'.reaped else InSlot(s', s'.spawned[i])
      {
        KeptMeans(s', s'.spawned[i]);
      }
    }
  }

  lemma KeptMeans(s: State, t: Task)
    ensures Kept(s, t) <==> if Passed(s, t.kind) then t in s.reaped else InSlot(s, t)
  {
  }

  lemma ReapChanges(s: State, k: TaskKind)
    ensures Reap(s, k) == s.(slots := Reap(s, k).slots, reaped := Reap(s, k).reaped)
    ensures s.reaped <= Reap(s, k).reaped
  {
  }

  lemma CloseChanges(s: State)
    ensures CloseEndpoint(s) == s.(endpointClosed := CloseEndpoint(s).endpointClosed)
  {
  }

  lemma DrainChanges(s: State)
    requires s.shutdown.Draining?
    ensures var s' := ShutdownNext(s).value;
      && s' == s.(shutdown := s'.shutdown, slots := s'.slots, reaped := s'.reaped, endpointClosed := s'.endpointClosed)
      && s.reaped <= s'.reaped && DrainBegun(s')
  {
    ReapChanges(s, RelayWatcher);
    ReapChanges(s, ReconnectManager);
    ReapChanges(s, AcceptLoop);
    CloseChanges(s);
    hide Reap, CloseEndpoint;
  }

  lemma StillLatestOk(s: State, s': State, f: Flight)
    requires LatestOk(s, f) && s'.phase == s.phase && s'.result == s.result
    ensures LatestOk(s', f)
  {
  }

  // ---- Caller steps

  lemma BeginStep(s: State, i: nat)
    requires Inv(s) && i in s.callers && s.callers[i].Looping? && (s.phase == Failed || s.phase == Deferred)
    ensures Inv(BeginFlight(s, i))
  {
    hide CallerInv, Notify;
    NotifyChanges(s);
    var s' := BeginFlight(s, i);
    BeginCallers(s, i);
  }

  lemma BeginCallers(s: State, i: nat)
    requires Inv(s) && i in s.callers && s.callers[i].Looping? && (s.phase == Failed || s.phase == Deferred)
    ensures CallerInv(BeginFlight(s, i))
  {
    NotifyChanges(s);
    assert HasReceiver(s);
    hide Notify, EndpointOk, TaskOk;
    var s' := BeginFlight(s, i);
    forall j | j in s'.callers
      ensures CallerOk(s', s'.callers[j])
    {
      if j != i {
        assert CallerOk(s, s.callers[j]);
      }
    }
  }

  /** A step that only moves one caller to a state it may be in. */
  lemma OneCallerMoves(s: State, i: nat, to: Caller)
    requires Inv(s) && CallerOk(s, to)
    ensures Inv(s.(callers := s.callers[i := to]))
  {
    hide HistoryInv, LatestOk, EndpointOk, CallerOk;
    var s' := s.(callers := s.callers[i := to]);
    forall j | j in s'.callers
      ensures CallerOk(s', s'.callers[j])
    {
      if j != i {
        assert CallerOk(s, s.callers[j]);
      }
      SameForCallers(s, s', s'.callers[j]);
    }
    if s.gen > 0 && s.gen in s.flights {
      StillLatestOk(s, s', s.flights[s.gen]);
      StillEndpointOk(s, s', s.flights[s.gen]);
    }
  }

  lemma SameForCallers(s: State, s': State, me: Caller)
    requires CallerOk(s, me) && s'.gen == s.gen && s'.flights == s.flights && s'.phase == s.phase && s'.version == s.version
    requires s'.result == s.result
    ensures CallerOk(s', me)
  {
  }

  lemma StillEndpointOk(s: State, s': State, f: Flight)
    requires EndpointOk(s, f) && s'.gen == s.gen && s'.endpoint == s.endpoint
    requires s'.endpointClosed == s.endpointClosed && s'.shutdown == s.shutdown
    ensures EndpointOk(s', f)
  {
  }

  lemma LookStep(s: State, i: nat)
    requires Inv(s) && i in s.callers && s.callers[i].Looping?
    ensures Inv(LookAt(s, i))
  {
    if s.phase == Deferred || s.phase == Failed {
      BeginStep(s, i);
    }
    if s.phase != Deferred && LookAt(s, i) != BeginFlight(s, i) {
      LookResult(s, i);
      hide HistoryInv, PhaseInv, LatestInv, CallerInv, CallerOk, BeginFlight;
      OneCallerMoves(s, i, LookAt(s, i).callers[i]);
    }
  }

  /** What a pass through the locked section decides, unless it begins a flight. */
  lemma LookResult(s: State, i: nat)
    requires Inv(s) && i in s.callers && s.callers[i].Looping?
    requires s.phase != Deferred && LookAt(s, i) != BeginFlight(s, i)
    ensures i in LookAt(s, i).callers && CallerOk(s, LookAt(s, i).callers[i])
  {
    hide EndpointOk, TaskOk;
    assert CallerOk(s, s.callers[i]);
  }

  lemma CallerStep(s: State, a: Action)
    requires Inv(s) && (a.Call? || a.Look? || a.Wake? || a.OwnerReturn? || a.Abandon?) && CallerNext(s, a).Some?
    ensures Inv(CallerNext(s, a).value)
  {
    var i := a.caller;
    if a.Look? {
      hide HistoryInv, PhaseInv, LatestInv, CallerInv, CallerOk, LookAt;
      LookStep(s, i);
    } else if a.Abandon? {
      AbandonStep(s, i);
    } else {
      OtherCallerResult(s, a);
      hide HistoryInv, PhaseInv, LatestInv, CallerInv, CallerOk;
      OneCallerMoves(s, i, CallerNext(s, a).value.callers[i]);
    }
  }

  lemma OtherCallerResult(s: State, a: Action)
    requires Inv(s) && (a.Call? || a.Wake? || a.OwnerReturn?) && CallerNext(s, a).Some?
    ensures a.caller in CallerNext(s, a).value.callers && CallerOk(s, CallerNext(s, a).value.callers[a.caller])
  {
    hide EndpointOk, TaskOk;
    if a.caller in s.callers {
      assert CallerOk(s, s.callers[a.caller]);
    }
  }

  lemma AbandonStep(s: State, i: nat)
    requires Inv(s)
    ensures Inv(s.(callers := s.callers - {i}))
  {
    hide HistoryInv, LatestOk, EndpointOk, CallerOk;
    var s' := s.(callers := s.callers - {i});
    forall j | j in s'.callers
      ensures CallerOk(s', s'.callers[j])
    {
      assert CallerOk(s, s.callers[j]);
      SameForCallers(s, s', s'.callers[j]);
    }
    if s.gen > 0 && s.gen in s.flights {
      StillLatestOk(s, s', s.flights[s.gen]);
      StillEndpointOk(s, s', s.flights[s.gen]);
    }
  }

  lemma InvKept(noRelay: bool, s: State, a: Action)
    requires Inv(s) && Next(noRelay, s, a).Some?
    ensures Inv(Next(noRelay, s, a).value)
  {
    hide Inv, FlightNext, CallerNext, Reap, CloseEndpoint, Notify;
    if a.ShutdownStep? {
      if s.shutdown.NotRequested? {
        RequestStep(s);
      } else if s.shutdown.Requested? {
        ClosePhaseStep(s);
      } else {
        DrainStep(s);
      }
    } else if a.Advance? || a.Bind? || a.ObserveCancel? {
      FlightStep(noRelay, s, a);
    } else {
      CallerStep(s, a);
    }
  }

  // ---- Every run -----------------------------------------------------------------------------------

  lemma InitOk()
    ensures Inv(InitDeferred()) && Inv(InitEager())
  {
  }

  lemma {:induction false} RunInv(noRelay: bool, s: State, run: seq<Action>)
    requires Inv(s) && Exec(noRelay, s, run).Some?
    ensures Inv(Exec(noRelay, s, run).value)
    decreases |run|
  {
    hide Inv, Next;
    if run != [] {
      InvKept(noRelay, s, run[0]);
      RunInv(noRelay, Next(noRelay, s, run[0]).value, run[1..]);
    }
  }

  /** Some interleaving of callers, flights and shutdown leads here. */
  ghost predicate Reachable(noRelay: bool, s: State) {
    || (exists run :: Exec(noRelay, InitDeferred(), run) == Some(s))
    || (exists run :: Exec(noRelay, InitEager(), run) == Some(s))
  }

  lemma ReachableInv(noRelay: bool, s: State)
    requires Reachable(noRelay, s)
    ensures Inv(s)
  {
    hide Inv, Next;
    InitOk();
    if run :| Exec(noRelay, InitDeferred(), run) == Some(s) {
      RunInv(noRelay, InitDeferred(), run);
    } else {
      var run :| Exec(noRelay, InitEager(), run) == Some(s);
      RunInv(noRelay, InitEager(), run);
    }
  }

  /** At most one flight runs, whatever callers, failures and retries there were. */
  lemma OneFlightRuns(noRelay: bool, s: State, f: nat, g: nat)
    requires Reachable(noRelay, s)
    requires f in s.flights && g in s.flights && !s.flights[f].Ended? && !s.flights[g].Ended?
    ensures f == g
  {
    ReachableInv(noRelay, s);
    hide Reachable, LatestInv, CallerInv, PhaseInv;
  }

  /** The endpoint is registered at most once and each runtime task is spawned at most
      once. */
  lemma OncePerFabric(noRelay: bool, s: State)
    requires Reachable(noRelay, s)
    ensures s.registrations <= 1
    ensures forall i, j :: 0 <= i < j < |s.spawned| ==> s.spawned[i].kind != s.spawned[j].kind
  {
    ReachableInv(noRelay, s);
    hide Reachable, CallerInv;
  }

  /** When the drain and every flight have ended, no task is left running and no
      registered endpoint left open. */
  lemma NothingLeftBehind(noRelay: bool, s: State)
    requires Reachable(noRelay, s)
    requires s.shutdown.Drained? && forall f :: f in s.flights ==> s.flights[f].Ended?
    ensures forall i :: 0 <= i < |s.spawned| ==> s.spawned[i] in s.reaped
    ensures s.endpoint.Some? ==> s.endpointClosed
  {
    ReachableInv(noRelay, s);
    hide Reachable, CallerInv;
    if s.gen > 0 {
      assert s.flights[s.gen].Ended?;
    }
  }

  /** One step out of Closed stays Closed, begins no flight and changes no outcome. */
  lemma ClosedStep(noRelay: bool, s: State, a: Action)
    requires Inv(s) && s.phase == Closed && Next(noRelay, s, a).Some?
    ensures var s' := Next(noRelay, s, a).value; s'.phase == Closed && s'.gen == s.gen
  {
    hide Inv, AdvanceFlight, CallerNext, Reap, CloseEndpoint, Notify, DrainBegun;
    if a.ShutdownStep? {
      ReapChanges(s, RelayWatcher);
      ReapChanges(s, ReconnectManager);
      ReapChanges(s, AcceptLoop);
      CloseChanges(s);
      NotifyChanges(s);
    } else if a.Advance? || a.Bind? || a.ObserveCancel? {
      if a.flight in s.flights {
        ClosedFlight(noRelay, s, a.flight);
      }
    } else {
      ClosedCaller(s, a);
    }
  }

  lemma ClosedFlight(noRelay: bool, s: State, f: nat)
    requires s.phase == Closed && f in s.flights
    ensures AdvanceFlight(noRelay, s, f).Some? ==>
      AdvanceFlight(noRelay, s, f).value.phase == Closed && AdvanceFlight(noRelay, s, f).value.gen == s.gen
  {
    var x := s.flights[f];
    if x.WorkDone? || x.WorkFailed? {
      ClosedWork(noRelay, s, f);
    } else if x.CancelSeen? || x.Closing? || x.Undoing? || x.Aborting? {
      ClosedEnding(noRelay, s, f);
    } else {
      hide HasReceiver, Notify, CloseEndpoint, SpawnNext, TasksOf;
    }
  }

  lemma ClosedWork(noRelay: bool, s: State, f: nat)
    requires s.phase == Closed && f in s.flights && (s.flights[f].WorkDone? || s.flights[f].WorkFailed?)
    ensures AdvanceFlight(noRelay, s, f).Some?
    ensures AdvanceFlight(noRelay, s, f).value.phase == Closed && AdvanceFlight(noRelay, s, f).value.gen == s.gen
  {
    SpawnKeepsPhase(noRelay, s, f, if s.flights[f].WorkDone? then s.flights[f].tasks else 0);
    hide HasReceiver, Notify, CloseEndpoint, SpawnNext, TasksOf;
  }

  lemma ClosedEnding(noRelay: bool, s: State, f: nat)
    requires s.phase == Closed && f in s.flights
    requires s.flights[f].CancelSeen? || s.flights[f].Closing? || s.flights[f].Undoing? || s.flights[f].Aborting?
    ensures AdvanceFlight(noRelay, s, f).Some?
    ensures AdvanceFlight(noRelay, s, f).value.phase == Closed && AdvanceFlight(noRelay, s, f).value.gen == s.gen
  {
    NotifyChanges(s);
    CloseChanges(s);
    hide HasReceiver, Notify, CloseEndpoint, SpawnNext, TasksOf;
  }

  lemma SpawnKeepsPhase(noRelay: bool, s: State, f: nat, n: nat)
    ensures SpawnNext(noRelay, s, f, n).phase == s.phase && SpawnNext(noRelay, s, f, n).gen == s.gen
  {
  }

  lemma ClosedCaller(s: State, a: Action)
    requires s.phase == Closed && (a.Call? || a.Look? || a.Wake? || a.OwnerReturn? || a.Abandon?) && CallerNext(s, a).Some?
    ensures CallerNext(s, a).value.phase == Closed && CallerNext(s, a).value.gen == s.gen
  {
    hide BeginFlight, ResultOf;
  }

  /** Closed is absorbing. */
  lemma {:induction false} ClosedForGood(noRelay: bool, s: State, run: seq<Action>)
    requires Reachable(noRelay, s) && s.phase == Closed && Exec(noRelay, s, run).Some?
    ensures var s' := Exec(noRelay, s, run).value; s'.phase == Closed && s'.gen == s.gen
  {
    ReachableInv(noRelay, s);
    hide Reachable;
    ClosedRun(noRelay, s, run);
  }

  lemma {:induction false} ClosedRun(noRelay: bool, s: State, run: seq<Action>)
    requires Inv(s) && s.phase == Closed && Exec(noRelay, s, run).Some?
    ensures var s' := Exec(noRelay, s, run).value; s'.phase == Closed && s'.gen == s.gen
    decreases |run|
  {
    hide Inv, Next;
    if run != [] {
      InvKept(noRelay, s, run[0]);
      ClosedStep(noRelay, s, run[0]);
      ClosedRun(noRelay, Next(noRelay, s, run[0]).value, run[1..]);
    }
  }

  /** No lost wake-up: a waiter still waits on the running flight, or has a version it
      has not seen and so can wake. */
  lemma NoLostWakeup(noRelay: bool, s: State, i: nat)
    requires Reachable(noRelay, s) && i in s.callers && s.callers[i].Waiting?
    ensures (s.phase == Starting && s.callers[i].on == s.gen) || Next(noRelay, s, Wake(i)).Some?
  {
    ReachableInv(noRelay, s);
    hide Reachable, PhaseInv, EndpointOk, TaskOk;
    assert CallerOk(s, s.callers[i]);
    LatestExists(s);
  }

  lemma LatestExists(s: State)
    requires Inv(s)
    ensures s.gen > 0 ==> s.gen in s.flights
    ensures s.gen == 0 ==> s.flights == map[]
  {
    hide PhaseInv, LatestInv, CallerInv;
    assert s.gen == 0 ==> forall f :: f in s.flights ==> false;
  }

  /** What `start()` reports is so: a failure is that of a flight the caller joined or
      owned; cancellation is reported only of a closed fabric, and only to who joined or
      owned the latest flight, which has ended in no other way; and who is refused joined
      no such flight. */
  lemma ReportsAreTrue(noRelay: bool, s: State, i: nat)
    requires Reachable(noRelay, s) && i in s.callers && s.callers[i].Returned?
    ensures match s.callers[i].result
            case GotStarted => s.gen in s.flights && s.flights[s.gen] == Ended(OStarted)
            case GotFailure(f, e) => s.callers[i].flight == Some(f) && f in s.flights && s.flights[f] == Ended(OFailed(e))
            case GotCancelled =>
              && s.phase == Closed && s.callers[i].flight == Some(s.gen)
              && (s.gen in s.flights && s.flights[s.gen].Ended? ==> s.flights[s.gen] == Ended(OCancelled))
            case GotShutdown =>
              && s.phase == Closed
              && (s.gen > 0 && s.callers[i].flight == Some(s.gen) ==>
                    s.gen in s.flights && s.flights[s.gen].Ended? && s.flights[s.gen] != Ended(OCancelled))
  {
    ReachableInv(noRelay, s);
    hide Reachable, HistoryInv, PhaseInv, LatestInv;
    assert CallerOk(s, s.callers[i]);
  }

  /** After the phase is Closed, who joined the latest flight is told it was cancelled
      exactly when that flight had not ended before. */
  lemma WaitersOfClosedFlight(noRelay: bool, s: State, i: nat, seen: nat)
    requires Reachable(noRelay, s) && s.phase == Closed && s.gen > 0
    requires i in s.callers && s.callers[i] == Looping(seen, Some(s.gen))
    ensures s.gen in s.flights
    ensures var f := s.flights[s.gen];
      LookAt(s, i).callers[i].result == (if f == Ended(OStarted) || (f.Ended? && f.outcome.OFailed?) then GotShutdown else GotCancelled)
  {
    ReachableInv(noRelay, s);
    hide Reachable, EndpointOk, TaskOk, CallerInv;
  }
}
