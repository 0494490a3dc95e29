/** `ensure_with` over the file store: any number of callers load the identity or create
    it, with the seed written to a private temporary file and put in place by one
    atomic link. Every step may fail and every caller may die at any point. */
module Secret {
  import opened Bytes

  type Seed = Bytes32

  const SEED_LEN: nat := 32

  datatype Failure = ReadFailed | Corrupted | WriteFailed | NothingFound | Died

  datatype Pc =
    | Loading(seed: Seed)                    // the seed it would generate
    | Writing(seed: Seed, tmp: bytes)        // what its temporary file holds
    | Linking(seed: Seed, tmp: bytes)        // written whole and synced
    | SyncingDir(seed: Seed)                 // linked, directory not yet synced
    | Rereading                              // another caller was first
    | Success(identity: Seed)
    | Failed(why: Failure)

  /** `file` is `identity.key`; `stores` counts the links that put a seed there. */
  datatype State = State(file: Option<bytes>, stores: nat, callers: map<nat, Pc>)

  datatype Action =
    | Call(p: nat, seed: Seed)
    | Load(p: nat, ok: bool)
    | Write(p: nat, k: nat)
    | SyncFile(p: nat)
    | Link(p: nat, ok: bool)
    | SyncDir(p: nat, ok: bool)
    | Fail(p: nat)
    | Die(p: nat)

  function Init(file: Option<bytes>): State {
    State(file, 0, map[])
  }

  /** A stored seed of the wrong length is corruption, never absence. */
  function LoadNext(file: Option<bytes>, pc: Pc, ok: bool): Pc
    requires pc.Loading? || pc.Rereading?
  {
    if !ok then Failed(ReadFailed)
    else
      match file
      case Some(b) => if |b| == SEED_LEN then Success(b) else Failed(Corrupted)
      case None => if pc.Loading? then Writing(pc.seed, []) else Failed(NothingFound)
  }

  function To(s: State, p: nat, pc: Pc): State {
    s.(callers := s.callers[p := pc])
  }

  function CallerNext(s: State, p: nat, a: Action): Option<State>
    requires p in s.callers && !a.Call?
  {
    var pc := s.callers[p];
    if a.Load? && (pc.Loading? || pc.Rereading?) then Some(To(s, p, LoadNext(s.file, pc, a.ok)))
    else if a.Write? && pc.Writing? && |pc.tmp| + a.k <= SEED_LEN then
      Some(To(s, p, Writing(pc.seed, pc.seed[..|pc.tmp| + a.k])))
    else if a.SyncFile? && pc.Writing? && |pc.tmp| == SEED_LEN then Some(To(s, p, Linking(pc.seed, pc.tmp)))
    else if a.Link? && pc.Linking? then
      if !a.ok then Some(To(s, p, Failed(WriteFailed)))
      else if s.file.Some? then Some(To(s, p, Rereading))
      else Some(To(s, p, SyncingDir(pc.seed)).(file := Some(pc.tmp), stores := s.stores + 1))
    else if a.SyncDir? && pc.SyncingDir? then Some(To(s, p, if a.ok then Success(pc.seed) else Failed(WriteFailed)))
    else if a.Fail? && (pc.Writing? || pc.Linking?) then Some(To(s, p, Failed(WriteFailed)))
    else if a.Die? && !pc.Success? then Some(To(s, p, Failed(Died)))
    else None
  }

  function Next(s: State, a: Action): Option<State> {
    if a.Call? then
      if a.p in s.callers then None else Some(To(s, a.p, Loading(a.seed)))
    else if a.p in s.callers then CallerNext(s, a.p, a)
    else None
  }

  function Exec(s: State, run: seq<Action>): Option<State>
    decreases |run|
  {
    if run == [] then Some(s)
    else match Next(s, run[0]) case None => None case Some(s1) => Exec(s1, run[1..])
  }

  ghost predicate Reachable(file: Option<bytes>, s: State) {
    exists run: seq<Action> :: Exec(Init(file), run) == Some(s)
  }

  // ---- The invariant ------------------------------------------------------------------------

  ghost predicate PcOk(s: State, pc: Pc) {
    match pc
    case Writing(seed, tmp) => |tmp| <= SEED_LEN && tmp == seed[..|tmp|]
    case Linking(seed, tmp) => tmp == seed
    case SyncingDir(seed) => s.file == Some(seed)
    case Rereading => s.file.Some?
    case Success(seed) => s.file == Some(seed)
    case Failed(why) => why != NothingFound && (why == Corrupted ==> s.file.Some? && |s.file.value| != SEED_LEN)
    case Loading(_) => true
  }

  ghost predicate Inv(file: Option<bytes>, s: State) {
    && (forall p :: p in s.callers ==> PcOk(s, s.callers[p]))
    && s.stores <= 1
    && (s.stores == 0 ==> s.file == file)
    && (s.stores == 1 ==> file.None? && s.file.Some? && |s.file.value| == SEED_LEN)
  }

  lemma InvKept(file: Option<bytes>, s: State, a: Action)
    requires Inv(file, s) && Next(s, a).Some?
    ensures Inv(file, Next(s, a).value)
    ensures s.file.Some? ==> Next(s, a).value.file == s.file
  {
    if !a.Call? {
      assert PcOk(s, s.callers[a.p]);
    }
  }

  lemma {:induction false} RunKeeps(file: Option<bytes>, s: State, run: seq<Action>)
    requires Inv(file, s) && Exec(s, run).Some?
    ensures Inv(file, Exec(s, run).value)
    ensures s.file.Some? ==> Exec(s, run).value.file == s.file
    decreases |run|
  {
    hide Inv, Next;
    if run != [] {
      InvKept(file, s, run[0]);
      RunKeeps(file, Next(s, run[0]).value, run[1..]);
    }
  }

  lemma ReachableInv(file: Option<bytes>, s: State)
    requires Reachable(file, s)
    ensures Inv(file, s)
  {
    hide Exec;
    var run :| Exec(Init(file), run) == Some(s);
    RunKeeps(file, Init(file), run);
  }

  // ---- Main results ---------------------------------------------------------------------------

  /** All successful callers return the identity of the stored seed, so they agree; the
      store is written at most once, and never where something was stored before. */
  lemma IdentitiesAgree(file: Option<bytes>, s: State, p: nat, q: nat)
    requires Reachable(file, s) && p in s.callers && q in s.callers
    requires s.callers[p].Success? && s.callers[q].Success?
    ensures s.callers[p].identity == s.callers[q].identity
    ensures s.file == Some(s.callers[p].identity)
    ensures s.stores <= 1 && (file.Some? ==> s.stores == 0 && s.file == file)
  {
    hide Exec;
    ReachableInv(file, s);
    assert PcOk(s, s.callers[p]) && PcOk(s, s.callers[q]);
  }

  /** What is stored is never replaced, however the run goes on. */
  lemma NeverOverwritten(file: Option<bytes>, s: State, run: seq<Action>)
    requires Reachable(file, s) && s.file.Some? && Exec(s, run).Some?
    ensures Exec(s, run).value.file == s.file
  {
    hide Exec, Inv;
    ReachableInv(file, s);
    RunKeeps(file, s, run);
  }

  /** A store that starts out empty holds nothing or a whole seed: no caller finds it
      corrupt, and none that lost the race finds it empty. */
  lemma NeverTorn(file: Option<bytes>, s: State, p: nat)
    requires Reachable(file, s) && p in s.callers
    ensures s.callers[p] != Failed(NothingFound)
    ensures file.None? ==> s.file.None? || |s.file.value| == SEED_LEN
    ensures file.None? ==> s.callers[p] != Failed(Corrupted)
  {
    hide Exec;
    ReachableInv(file, s);
    assert PcOk(s, s.callers[p]);
  }

  /** A caller that fails after its link has decided the identity all the same. */
  lemma FailedSyncDecides(file: Option<bytes>, s: State, p: nat, run: seq<Action>, q: nat)
    requires Reachable(file, s) && p in s.callers && s.callers[p].SyncingDir?
    requires Exec(To(s, p, Failed(WriteFailed)), run).Some?
    requires var r := Exec(To(s, p, Failed(WriteFailed)), run).value; q in r.callers && r.callers[q].Success?
    ensures Exec(To(s, p, Failed(WriteFailed)), run).value.callers[q] == Success(s.callers[p].seed)
  {
    hide Exec;
    ReachableInv(file, s);
    assert PcOk(s, s.callers[p]);
    var s1 := To(s, p, Failed(WriteFailed));
    assert Inv(file, s1);
    RunKeeps(file, s1, run);
    assert PcOk(Exec(s1, run).value, Exec(s1, run).value.callers[q]);
  }

  // ---- Callers that nothing disturbs ------------------------------------------------------------

  lemma ExecStep(s: State, a: Action, run: seq<Action>)
    requires Next(s, a).Some?
    ensures Exec(s, [a] + run) == Exec(Next(s, a).value, run)
  {
    hide Next;
    assert ([a] + run)[1..] == run;
  }

  lemma ExecNone(s: State)
    ensures Exec(s, []) == Some(s)
  {
  }

  lemma ToTo(s: State, p: nat, x: Pc, y: Pc)
    ensures To(To(s, p, x), p, y) == To(s, p, y)
    ensures p in To(s, p, x).callers && To(s, p, x).callers[p] == x
  {
    assert s.callers[p := x][p := y] == s.callers[p := y];
  }

  /** A call that reads a stored seed returns its identity, whatever seed it would have
      generated; a stored seed of another length is reported as corrupt, and a store that
      cannot be read as that. Nothing is stored. */
  lemma StoredSeedLoads(s: State, p: nat, seed: Seed, b: bytes)
    requires p !in s.callers && s.file == Some(b)
    ensures |b| == 32 ==> Exec(s, [Call(p, seed)] + ([Load(p, true)] + [])) == Some(To(s, p, Success(b)))
    ensures |b| != 32 ==> Exec(s, [Call(p, seed)] + ([Load(p, true)] + [])) == Some(To(s, p, Failed(Corrupted)))
    ensures Exec(s, [Call(p, seed)] + ([Load(p, false)] + [])) == Some(To(s, p, Failed(ReadFailed)))
  {
    hide Exec;
    var s1 := To(s, p, Loading(seed));
    ToTo(s, p, Loading(seed), LoadNext(s.file, Loading(seed), true));
    ToTo(s, p, Loading(seed), Failed(ReadFailed));
    ExecStep(s, Call(p, seed), [Load(p, true)] + []);
    ExecStep(s, Call(p, seed), [Load(p, false)] + []);
    ExecStep(s1, Load(p, true), []);
    ExecStep(s1, Load(p, false), []);
    ExecNone(Next(s1, Load(p, true)).value);
    ExecNone(Next(s1, Load(p, false)).value);
  }

  /** Where nothing is stored, a call stores the seed it generated and returns its
      identity. */
  lemma AbsentSeedIsCreated(s: State, p: nat, seed: Seed)
    requires p !in s.callers && s.file == None
    ensures
      var run := [Call(p, seed)] + ([Load(p, true)] + ([Write(p, 32)] + ([SyncFile(p)] + ([Link(p, true)] + ([SyncDir(p, true)] + [])))));
      Exec(s, run) == Some(To(s, p, Success(seed)).(file := Some(seed), stores := s.stores + 1))
  {
    hide Exec;
    ExecStep(s, Call(p, seed), [Load(p, true)] + ([Write(p, 32)] + ([SyncFile(p)] + ([Link(p, true)] + ([SyncDir(p, true)] + [])))));
    var s1, s2 := To(s, p, Loading(seed)), To(s, p, Writing(seed, []));
    ToTo(s, p, Loading(seed), Writing(seed, []));
    ExecStep(s1, Load(p, true), [Write(p, 32)] + ([SyncFile(p)] + ([Link(p, true)] + ([SyncDir(p, true)] + []))));
    var s3 := To(s, p, Writing(seed, seed));
    ToTo(s, p, Writing(seed, []), Writing(seed, seed));
    assert seed[..32] == seed;
    ExecStep(s2, Write(p, 32), [SyncFile(p)] + ([Link(p, true)] + ([SyncDir(p, true)] + [])));
    var s4 := To(s, p, Linking(seed, seed));
    ToTo(s, p, Writing(seed, seed), Linking(seed, seed));
    ExecStep(s3, SyncFile(p), [Link(p, true)] + ([SyncDir(p, true)] + []));
    LinkedAndSynced(s, p, seed);
  }

  lemma LinkedAndSynced(s: State, p: nat, seed: Seed)
    requires s.file == None
    ensures
      Exec(To(s, p, Linking(seed, seed)), [Link(p, true)] + ([SyncDir(p, true)] + []))
        == Some(To(s, p, Success(seed)).(file := Some(seed), stores := s.stores + 1))
  {
    hide Exec;
    var s4 := To(s, p, Linking(seed, seed));
    var s5 := To(s, p, SyncingDir(seed)).(file := Some(seed), stores := s.stores + 1);
    ToTo(s, p, Linking(seed, seed), SyncingDir(seed));
    ExecStep(s4, Link(p, true), [SyncDir(p, true)] + []);
    ToTo(s, p, SyncingDir(seed), Success(seed));
    ExecStep(s5, SyncDir(p, true), []);
    ExecNone(Next(s5, SyncDir(p, true)).value);
  }

  /** Who finds at the link that another was first returns the identity stored. */
  lemma LoserLoadsWinner(s: State, p: nat, seed: Seed, b: bytes)
    requires p in s.callers && s.callers[p] == Linking(seed, seed) && s.file == Some(b) && |b| == 32
    ensures Exec(s, [Link(p, true)] + ([Load(p, true)] + [])) == Some(To(s, p, Success(b)))
  {
    hide Exec;
    var s1 := To(s, p, Rereading);
    ExecStep(s, Link(p, true), [Load(p, true)] + []);
    ToTo(s, p, Rereading, Success(b));
    ExecStep(s1, Load(p, true), []);
    ExecNone(Next(s1, Load(p, true)).value);
  }

  /** Until its link a caller leaves the store alone, however far it has come and however
      it ends. */
  lemma OnlyLinksStore(s: State, a: Action)
    requires Next(s, a).Some? && Next(s, a).value.file != s.file
    ensures a.Link? && a.ok && s.file == None
    ensures a.p in s.callers && s.callers[a.p].Linking? && Next(s, a).value.file == Some(s.callers[a.p].tmp)
  {
  }
}
