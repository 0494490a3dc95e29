/** Single-flight connect: the per-peer flight table, the guard every owner holds and
    the drain that waits for the table to empty, over every interleaving. A step is
    one section under the table's lock; a guard dropped while the lock is taken
    leaves its cleanup to a task of its own. */
module ConnectFlights {
  import opened Bytes

  /** Where a call of `connect` stands. Every call draws a generation from an atomic
      counter before anything else, and is named by it here. */
  datatype Pc =
    | Ticket(peer: nat)               // the table not yet looked at
    | Owner(peer: nat)                // holds the guard
    | Waiter(peer: nat, flight: nat)  // subscribed to the flight of that generation
    | Deferred(peer: nat)             // guard dropped, cleanup left to a task
    | Left

  datatype State = State(
    draining: bool,
    flights: map<nat, nat>,           // peer to the generation of its flight
    nextGen: nat,
    calls: map<nat, Pc>,              // by generation
    signalled: set<nat>,              // generations whose watch has fired
    observedEmpty: bool)              // the drain has seen an empty table

  datatype Action =
    | Call(peer: nat)
    | Enter(gen: nat)
    | Wake(gen: nat)
    | DropGuard(gen: nat, lockTaken: bool)
    | GiveUp(gen: nat)
    | RunDeferred(gen: nat)
    | Drain
    | Observe

  function Init(): State {
    State(false, map[], 0, map[], {}, false)
  }

  /** A guard's cleanup: only a flight of its own generation is removed. */
  function Cleanup(s: State, peer: nat, gen: nat): State {
    if peer in s.flights && s.flights[peer] == gen
    then s.(flights := s.flights - {peer}, signalled := s.signalled + {gen})
    else s
  }

  /** Admission and registration under one lock. */
  function EnterNext(s: State, gen: nat, peer: nat): State {
    if s.draining then s.(calls := s.calls[gen := Left])
    else if peer in s.flights then s.(calls := s.calls[gen := Waiter(peer, s.flights[peer])])
    else s.(calls := s.calls[gen := Owner(peer)], flights := s.flights[peer := gen])
  }

  function DropNext(s: State, gen: nat, peer: nat, lockTaken: bool): State {
    if lockTaken then s.(calls := s.calls[gen := Deferred(peer)])
    else Cleanup(s.(calls := s.calls[gen := Left]), peer, gen)
  }

  function CallNext(s: State, g: nat, a: Action): Option<State>
    requires g in s.calls
  {
    var pc := s.calls[g];
    if a.Enter? && pc.Ticket? then Some(EnterNext(s, g, pc.peer))
    else if a.Wake? && pc.Waiter? && pc.flight in s.signalled then Some(s.(calls := s.calls[g := Left]))
    else if a.DropGuard? && pc.Owner? then Some(DropNext(s, g, pc.peer, a.lockTaken))
    else if a.GiveUp? && (pc.Ticket? || pc.Waiter?) then Some(s.(calls := s.calls[g := Left]))
    else if a.RunDeferred? && pc.Deferred? then Some(Cleanup(s.(calls := s.calls[g := Left]), pc.peer, g))
    else None
  }

  function Next(s: State, a: Action): Option<State> {
    match a
    case Call(p) => Some(s.(calls := s.calls[s.nextGen := Ticket(p)], nextGen := s.nextGen + 1))
    case Drain => Some(s.(draining := true, signalled := s.signalled + s.flights.Values))
    case Observe => if s.draining && s.flights == map[] then Some(s.(observedEmpty := true)) else None
    case _ => if a.gen in s.calls then CallNext(s, a.gen, a) else None
  }

  function Exec(s: State, run: seq<Action>): Option<State>
    decreases |run|
  {
    if run == [] then Some(s)
    else match Next(s, run[0]) case None => None case Some(s1) => Exec(s1, run[1..])
  }

  ghost predicate Reachable(s: State) {
    exists run: seq<Action> :: Exec(Init(), run) == Some(s)
  }

  // ---- The invariant --------------------------------------------------------------------

  /** The call has a flight of its own to end: its guard is live or its cleanup is
      pending. */
  predicate Responsible(pc: Pc) {
    pc.Owner? || pc.Deferred?
  }

  ghost predicate Table(s: State) {
    && (forall g :: g in s.calls ==> g < s.nextGen)
    && (forall g :: g in s.calls && Responsible(s.calls[g]) ==>
          s.calls[g].peer in s.flights && s.flights[s.calls[g].peer] == g)
    && (forall p :: p in s.flights ==>
          s.flights[p] in s.calls && Responsible(s.calls[s.flights[p]]) && s.calls[s.flights[p]].peer == p)
    && (s.observedEmpty ==> s.draining && s.flights == map[])
  }

  /** A waiter's flight has fired or is still in the table. */
  ghost predicate Awaited(s: State) {
    forall g :: g in s.calls && s.calls[g].Waiter? ==>
      s.calls[g].flight in s.signalled
      || (s.calls[g].peer in s.flights && s.flights[s.calls[g].peer] == s.calls[g].flight)
  }

  ghost predicate Inv(s: State) {
    Table(s) && Awaited(s)
  }

  /** What no later step takes back. */
  ghost predicate Later(s: State, s': State) {
    && (s.draining ==> s'.draining && s'.flights.Items <= s.flights.Items)
    && (s.observedEmpty ==> s'.observedEmpty)
    && s.signalled <= s'.signalled
  }

  lemma CleanupKeepsTable(s: State, g: nat)
    requires Table(s) && g in s.calls && Responsible(s.calls[g])
    ensures Table(Cleanup(s.(calls := s.calls[g := Left]), s.calls[g].peer, g))
  {
  }

  lemma EnterKeepsTable(s: State, g: nat)
    requires Table(s) && g in s.calls && s.calls[g].Ticket?
    ensures Table(EnterNext(s, g, s.calls[g].peer))
  {
  }

  lemma CallKeepsTable(s: State, g: nat, a: Action)
    requires Table(s) && g in s.calls && CallNext(s, g, a).Some?
    ensures Table(CallNext(s, g, a).value)
  {
    if a.Enter? {
      hide Table, EnterNext;
      EnterKeepsTable(s, g);
    } else if a.RunDeferred? || (a.DropGuard? && !a.lockTaken) {
      hide Table, Cleanup;
      CleanupKeepsTable(s, g);
    } else {
      hide EnterNext, Cleanup;
    }
  }

  lemma TableKept(s: State, a: Action)
    requires Table(s) && Next(s, a).Some?
    ensures Table(Next(s, a).value)
  {
    hide CallNext;
    if !a.Call? && !a.Drain? && !a.Observe? {
      hide Table;
      CallKeepsTable(s, a.gen, a);
    }
  }

  lemma AwaitedKept(s: State, a: Action)
    requires Awaited(s) && Next(s, a).Some?
    ensures Awaited(Next(s, a).value)
  {
  }

  lemma StepLater(s: State, a: Action)
    requires Next(s, a).Some?
    ensures Later(s, Next(s, a).value)
  {
  }

  lemma {:induction false} RunKeeps(s: State, run: seq<Action>)
    requires Inv(s) && Exec(s, run).Some?
    ensures Inv(Exec(s, run).value) && Later(s, Exec(s, run).value)
    decreases |run|
  {
    hide Table, Awaited, Next;
    if run != [] {
      TableKept(s, run[0]);
      AwaitedKept(s, run[0]);
      StepLater(s, run[0]);
      RunKeeps(Next(s, run[0]).value, run[1..]);
    }
  }

  lemma ReachableInv(s: State)
    requires Reachable(s)
    ensures Inv(s)
  {
    hide Exec, Later;
    var run :| Exec(Init(), run) == Some(s);
    assert Inv(Init());
    RunKeeps(Init(), run);
  }

  // ---- Properties ------------------------------------------------------------------------

  /** A peer is in the table exactly while the guard of its flight is live or that
      guard's cleanup is pending. */
  lemma EntryIffResponsible(s: State, p: nat)
    requires Reachable(s)
    ensures p in s.flights <==> exists g :: g in s.calls && Responsible(s.calls[g]) && s.calls[g].peer == p
  {
    hide Exec;
    ReachableInv(s);
  }

  /** What a call finds when it enters: the draining table sends it away, a flight of its
      peer makes it wait for that flight, and otherwise it owns a flight of its own. */
  lemma EnterDecides(s: State, g: nat, p: nat)
    requires Reachable(s) && g in s.calls && s.calls[g] == Ticket(p)
    ensures Next(s, Enter(g)).Some?
    ensures
      var s' := Next(s, Enter(g)).value;
      && (s.draining ==> s' == s.(calls := s.calls[g := Left]))
      && (!s.draining && p in s.flights ==> s' == s.(calls := s.calls[g := Waiter(p, s.flights[p])]))
      && (!s.draining && p !in s.flights ==> s' == s.(calls := s.calls[g := Owner(p)], flights := s.flights[p := g]))
  {
    hide Exec;
    ReachableInv(s);
  }

  /** A waiter can leave exactly when its flight has fired, and then it only leaves. */
  lemma WakesExactly(s: State, g: nat)
    requires g in s.calls && s.calls[g].Waiter?
    ensures Next(s, Wake(g)).Some? <==> s.calls[g].flight in s.signalled
    ensures Next(s, Wake(g)).Some? ==> Next(s, Wake(g)).value == s.(calls := s.calls[g := Left])
  {
  }

  /** The drain shuts the table and wakes everybody: every waiter can leave at once. */
  lemma DrainWakesAll(s: State, g: nat)
    requires Reachable(s) && g in s.calls && s.calls[g].Waiter?
    ensures Next(s, Drain).Some? && Next(s, Drain).value.draining
    ensures Next(s, Drain).value.flights == s.flights && Next(s, Drain).value.calls == s.calls
    ensures Next(Next(s, Drain).value, Wake(g)).Some?
  {
    hide Exec;
    ReachableInv(s);
  }

  /** A guard dropped while the table is locked leaves everything to its cleanup; and a
      call that gives up, or whose cleanup has run, has left. */
  lemma GuardDrops(s: State, g: nat, p: nat)
    requires g in s.calls
    ensures s.calls[g] == Owner(p) ==>
      && Next(s, DropGuard(g, true)) == Some(s.(calls := s.calls[g := Deferred(p)]))
      && Next(s, DropGuard(g, false)).Some? && Next(s, DropGuard(g, false)).value.calls == s.calls[g := Left]
    ensures s.calls[g] == Deferred(p) ==>
      Next(s, RunDeferred(g)).Some? && Next(s, RunDeferred(g)).value.calls == s.calls[g := Left]
    ensures s.calls[g].Ticket? || s.calls[g].Waiter? ==> Next(s, GiveUp(g)) == Some(s.(calls := s.calls[g := Left]))
  {
  }

  /** The first call of an idle peer owns its flight. */
  lemma FirstOwns(s: State, p: nat, more: seq<Action>)
    requires Reachable(s) && !s.draining && p !in s.flights
    ensures
      var g := s.nextGen;
      Exec(s, [Call(p), Enter(g)] + more)
        == Exec(s.(calls := s.calls[g := Owner(p)], nextGen := g + 1, flights := s.flights[p := g]), more)
  {
    var g := s.nextGen;
    var run := [Call(p), Enter(g)] + more;
    var s1 := s.(calls := s.calls[g := Ticket(p)], nextGen := g + 1);
    var s2 := s1.(calls := s.calls[g := Owner(p)], flights := s.flights[p := g]);
    assert s1.calls[g := Owner(p)] == s2.calls;
    ExecStep(s, run, s1);
    ExecStep(s1, run[1..], s2);
    assert run[1..][1..] == more;
  }

  /** A second call waits for the first, and leaves once that has dropped its guard; then
      the table is as it was. */
  lemma SecondWaits(s: State, p: nat)
    requires Reachable(s) && !s.draining && p !in s.flights
    ensures
      var g := s.nextGen;
      var end := Exec(s, [Call(p), Enter(g)] + [Call(p), Enter(g + 1), DropGuard(g, false), Wake(g + 1)]);
      end.Some? && end.value.flights == s.flights && end.value.calls == s.calls[g := Left][g + 1 := Left]
  {
    ReachableInv(s);
    var g := s.nextGen;
    var more := [Call(p), Enter(g + 1), DropGuard(g, false), Wake(g + 1)];
    FirstOwns(s, p, more);
    hide Exec;
    var s2 := s.(calls := s.calls[g := Owner(p)], nextGen := g + 1, flights := s.flights[p := g]);
    var s3 := s2.(calls := s2.calls[g + 1 := Ticket(p)], nextGen := g + 2);
    var s4 := s3.(calls := s2.calls[g + 1 := Waiter(p, g)]);
    assert s3.calls[g + 1 := Waiter(p, g)] == s4.calls;
    ExecStep(s2, more, s3);
    ExecStep(s3, more[1..], s4);
    var s5 := Cleanup(s4.(calls := s4.calls[g := Left]), p, g);
    assert s5.flights == s.flights;
    ExecStep(s4, more[2..], s5);
    var s6 := s5.(calls := s5.calls[g + 1 := Left]);
    assert s6.calls == s.calls[g := Left][g + 1 := Left];
    ExecStep(s5, more[3..], s6);
    ExecNone(s6, more[4..]);
  }

  lemma ExecNone(s: State, run: seq<Action>)
    requires run == []
    ensures Exec(s, run) == Some(s)
  {
  }

  lemma ExecStep(s: State, run: seq<Action>, s1: State)
    requires run != [] && Next(s, run[0]) == Some(s1)
    ensures Exec(s, run) == Exec(s1, run[1..])
  {
    hide Next;
  }

  /** Two guards never stand for one peer, so at most one call dials it. */
  lemma OneOwnerPerPeer(s: State, g: nat, h: nat)
    requires Reachable(s) && g in s.calls && h in s.calls
    requires Responsible(s.calls[g]) && Responsible(s.calls[h]) && s.calls[g].peer == s.calls[h].peer
    ensures g == h
  {
    hide Exec;
    ReachableInv(s);
  }

  /** When a guard goes, now or later, it takes its own flight with it and nobody
      else's, and wakes those who wait for it. */
  lemma CleanupTakesItsOwn(s: State, a: Action)
    requires Reachable(s) && Next(s, a).Some?
    requires a.RunDeferred? || (a.DropGuard? && !a.lockTaken)
    ensures a.gen in s.calls && Responsible(s.calls[a.gen])
    ensures s.calls[a.gen].peer in s.flights && s.flights[s.calls[a.gen].peer] == a.gen
    ensures Next(s, a).value.flights == s.flights - {s.calls[a.gen].peer}
    ensures Next(s, a).value.signalled == s.signalled + {a.gen}
  {
    hide Exec;
    ReachableInv(s);
  }

  /** No waiter is forgotten: the flight it waits for has fired, or a guard or a pending
      cleanup that will fire it is still there. */
  lemma NoWaiterIsForgotten(s: State, g: nat)
    requires Reachable(s) && g in s.calls && s.calls[g].Waiter?
    ensures
      var f := s.calls[g].flight;
      f in s.signalled || (f in s.calls && Responsible(s.calls[f]) && s.calls[f].peer == s.calls[g].peer)
  {
    hide Exec;
    ReachableInv(s);
  }

  /** Once the table drains, every entry later found in it was there already. */
  lemma DrainingAdmitsNobody(s: State, run: seq<Action>, p: nat)
    requires Reachable(s) && s.draining && Exec(s, run).Some?
    requires p in Exec(s, run).value.flights
    ensures p in s.flights && Exec(s, run).value.flights[p] == s.flights[p]
  {
    hide Exec, Inv;
    ReachableInv(s);
    RunKeeps(s, run);
    var s' := Exec(s, run).value;
    assert (p, s'.flights[p]) in s'.flights.Items;
  }

  /** A table the drain has seen empty stays empty, and nobody owns a flight again. */
  lemma EmptyForGood(s: State, run: seq<Action>)
    requires Reachable(s) && s.observedEmpty && Exec(s, run).Some?
    ensures Exec(s, run).value.flights == map[]
    ensures forall g :: g in Exec(s, run).value.calls ==> !Responsible(Exec(s, run).value.calls[g])
  {
    hide Exec;
    ReachableInv(s);
    RunKeeps(s, run);
  }
}
