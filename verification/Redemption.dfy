/** Redemption over every interleaving of processes that share one data directory:
    private caches, the cross-process lock, records appended piecemeal, failed or torn
    appends, crashes, restarts and closing gates; and where the grants are kept: in the
    rosters of the processes, in the directory's image, which each process overwrites
    with its own roster, and at other nodes. Within a process the commit lock and the
    roster mutex let one redemption through at a time. */
module Redemption {
  import opened Bytes
  import opened Facts
  import opened InviteLog
  import opened RedeemVerify

  datatype Pc =
    | Idle
    | Locking(a: Attempt)
    | Reloading(a: Attempt)
    | Appending(a: Attempt, record: bytes, written: nat)
    | Granting(a: Attempt)         // `consume_invite` has returned Ok(true)
    | Dead

  /** A grant for a redemption: who issued it and when, and for which attempt. */
  datatype Issued = Issued(proc: nat, attempt: Attempt, subject: Key, now: u64)

  /** One process: its cache of consumed invites, the root of its roster, the grants its
      roster holds, the shutdown request, the lifecycle gate, and where its redemption
      stands. */
  datatype Proc = Proc(cache: set<Bytes16>, root: Option<Key>, kept: set<Issued>, requested: bool, gate: bool, pc: Pc)

  datatype State = State(
    log: bytes,
    holder: Option<nat>,
    procs: map<nat, Proc>,
    passed: set<Attempt>,          // verified with the gate open
    oks: seq<Bytes16>,             // every Ok(true), in order
    grants: seq<Issued>,           // every grant ever stored in a roster, in order
    image: set<Issued>,            // the grants in the persisted image
    outside: set<Issued>,          // the grants other nodes have been sent
    toldConsumed: set<Attempt>)

  datatype Action =
    | Open(p: nat)
    | Learn(p: nat, root: Key)
    | Request(p: nat)
    | Close(p: nat)
    | Begin(p: nat, a: Attempt)
    | Lock(p: nat)
    | LockFails(p: nat)
    | Reload(p: nat, now: u64)
    | Append(p: nat, k: nat)
    | Sync(p: nat)
    | AppendFails(p: nat)
    | Issue(p: nat, now: u64, disk: bool)
    | Persist(p: nat)
    | Send(p: nat)
    | Receive(p: nat, xs: set<Issued>)
    | Crash(p: nat)

  function Init(): State {
    State([], None, map[], {}, [], [], {}, {}, {})
  }

  function Id(a: Attempt): Bytes16 {
    InviteIdOf(a.token)
  }

  // ---- Steps ------------------------------------------------------------------------------

  function At(s: State, p: nat, pc: Pc): State
    requires p in s.procs
  {
    s.(procs := s.procs[p := s.procs[p].(pc := pc)])
  }

  /** A process opens the directory: it loads the image, and the log without the lock; a
      torn log keeps it from opening. */
  function OpenNext(s: State, p: nat): Option<State> {
    if p in s.procs then None
    else
      match Load(s.log)
      case None => None
      case Some(ids) => Some(s.(procs := s.procs[p := Proc(ids, None, s.image, false, false, Idle)]))
  }

  /** Refused by TLS identity, by the gate or by verification, the attempt changes
      nothing; so does one whose invite the cache already holds. */
  function BeginNext(c: Crypto, fabric: Bytes32, s: State, p: nat, a: Attempt): Option<State>
    requires p in s.procs
  {
    var x := s.procs[p];
    if !x.pc.Idle? then None
    else if a.redeemer != a.peer then Some(s)
    else if x.requested || x.gate then Some(s)
    else if Verify(c, fabric, x.root, a).Err? then Some(s)
    else if Id(a) in x.cache then Some(s.(passed := s.passed + {a}, toldConsumed := s.toldConsumed + {a}))
    else Some(At(s.(passed := s.passed + {a}), p, Locking(a)))
  }

  function LockNext(s: State, p: nat, free: bool): Option<State>
    requires p in s.procs
  {
    var pc := s.procs[p].pc;
    if !pc.Locking? then None
    else if !free then Some(At(s, p, Idle))
    else if s.holder.Some? then None
    else Some(At(s, p, Reloading(pc.a)).(holder := Some(p)))
  }

  /** Under the lock the log is read again, and only then is the invite looked up. */
  function ReloadNext(s: State, p: nat, now: u64): Option<State>
    requires p in s.procs
  {
    var x := s.procs[p];
    if !x.pc.Reloading? then None
    else
      match Load(s.log)
      case None => Some(At(s, p, Idle).(holder := None))
      case Some(ids) =>
        var y := x.(cache := ids);
        if Id(x.pc.a) in ids then
          Some(s.(procs := s.procs[p := y.(pc := Idle)], holder := None, toldConsumed := s.toldConsumed + {x.pc.a}))
        else Some(s.(procs := s.procs[p := y.(pc := Appending(x.pc.a, Record(Id(x.pc.a), now), 0))]))
  }

  /** `write_all` puts the record down in pieces of any size. */
  function AppendNext(s: State, p: nat, k: nat): Option<State>
    requires p in s.procs
  {
    var pc := s.procs[p].pc;
    if !pc.Appending? || |pc.record| < pc.written + k then None
    else Some(At(s, p, pc.(written := pc.written + k)).(log := s.log + pc.record[pc.written..pc.written + k]))
  }

  function SyncNext(s: State, p: nat): Option<State>
    requires p in s.procs
  {
    var x := s.procs[p];
    if !x.pc.Appending? || x.pc.written != |x.pc.record| then None
    else
      var id := Id(x.pc.a);
      Some(s.(procs := s.procs[p := x.(cache := x.cache + {id}, pc := Granting(x.pc.a))],
              holder := None, oks := s.oks + [id]))
  }

  /** Writing or syncing fails: an error, and what was written stays. */
  function AppendFailsNext(s: State, p: nat): Option<State>
    requires p in s.procs
  {
    if s.procs[p].pc.Appending? then Some(At(s, p, Idle).(holder := None)) else None
  }

  /** The grant goes into the roster, and then the roster to disk. When that fails the
      grant stays in the roster all the same. */
  function IssueNext(s: State, p: nat, now: u64, disk: bool): Option<State>
    requires p in s.procs
  {
    var x := s.procs[p];
    if !x.pc.Granting? then None
    else
      var g := Issued(p, x.pc.a, x.pc.a.redeemer, now);
      Some(s.(procs := s.procs[p := x.(kept := x.kept + {g}, pc := Idle)],
              grants := s.grants + [g],
              image := if disk then x.kept + {g} else s.image))
  }

  /** A later change of the roster is persisted: its whole content replaces the image. */
  function PersistNext(s: State, p: nat): Option<State>
    requires p in s.procs
  {
    if s.procs[p].pc.Idle? && !s.procs[p].gate then Some(s.(image := s.procs[p].kept)) else None
  }

  /** The process sends what its roster holds to another node, as a receipt or a dump. */
  function SendNext(s: State, p: nat): Option<State>
    requires p in s.procs
  {
    if s.procs[p].pc.Idle? then Some(s.(outside := s.outside + s.procs[p].kept)) else None
  }

  /** ... or merges what another node has. */
  function ReceiveNext(s: State, p: nat, xs: set<Issued>): Option<State>
    requires p in s.procs
  {
    var x := s.procs[p];
    if x.pc.Idle? && !x.gate && xs <= s.outside then Some(s.(procs := s.procs[p := x.(kept := x.kept + xs)])) else None
  }

  /** The process dies where it stands, with its memory, and the operating system drops
      its lock. */
  function CrashNext(s: State, p: nat): Option<State>
    requires p in s.procs
  {
    if s.procs[p].pc.Dead? then None
    else Some(s.(procs := s.procs[p := s.procs[p].(kept := {}, pc := Dead)],
                 holder := if s.holder == Some(p) then None else s.holder))
  }

  function FlagNext(s: State, p: nat, a: Action): Option<State>
    requires p in s.procs && (a.Learn? || a.Request? || a.Close?)
  {
    var x := s.procs[p];
    match a
    case Learn(_, root) => if x.pc.Idle? && x.root.None? then Some(s.(procs := s.procs[p := x.(root := Some(root))])) else None
    case Request(_) => if x.pc.Dead? then None else Some(s.(procs := s.procs[p := x.(requested := true)]))
    case Close(_) => if x.pc.Idle? && x.requested then Some(s.(procs := s.procs[p := x.(gate := true)])) else None
  }

  function ProcNext(c: Crypto, fabric: Bytes32, s: State, act: Action): Option<State>
    requires !act.Open? && act.p in s.procs
  {
    if act.Begin? then BeginNext(c, fabric, s, act.p, act.a)
    else if act.Lock? then LockNext(s, act.p, true)
    else if act.LockFails? then LockNext(s, act.p, false)
    else if act.Reload? then ReloadNext(s, act.p, act.now)
    else if act.Append? then AppendNext(s, act.p, act.k)
    else if act.Sync? then SyncNext(s, act.p)
    else if act.AppendFails? then AppendFailsNext(s, act.p)
    else if act.Issue? then IssueNext(s, act.p, act.now, act.disk)
    else if act.Persist? then PersistNext(s, act.p)
    else if act.Send? then SendNext(s, act.p)
    else if act.Receive? then ReceiveNext(s, act.p, act.xs)
    else if act.Crash? then CrashNext(s, act.p)
    else FlagNext(s, act.p, act)
  }

  function Next(c: Crypto, fabric: Bytes32, s: State, act: Action): Option<State> {
    if act.Open? then OpenNext(s, act.p)
    else if act.p in s.procs then ProcNext(c, fabric, s, act)
    else None
  }

  function Exec(c: Crypto, fabric: Bytes32, s: State, run: seq<Action>): Option<State>
    decreases |run|
  {
    if run == [] then Some(s)
    else match Next(c, fabric, s, run[0]) case None => None case Some(s1) => Exec(c, fabric, s1, run[1..])
  }

  ghost predicate Reachable(c: Crypto, fabric: Bytes32, s: State) {
    exists run: seq<Action> :: Exec(c, fabric, Init(), run) == Some(s)
  }

  // ---- The invariant ----------------------------------------------------------------------

  predicate Locked(pc: Pc) {
    pc.Reloading? || pc.Appending?
  }

  predicate Busy(pc: Pc) {
    pc.Locking? || pc.Reloading? || pc.Appending? || pc.Granting?
  }

  ghost predicate LockInv(s: State) {
    && (forall p :: p in s.procs ==> (Locked(s.procs[p].pc) <==> s.holder == Some(p)))
    && (s.holder.Some? ==> s.holder.value in s.procs)
  }

  /** The record going down stands at the end of the log, after whole records none of
      which carries its id. */
  ghost predicate TailOk(log: bytes, oks: seq<Bytes16>, pc: Pc)
    requires pc.Appending?
  {
    && |pc.record| == RECORD_LEN && pc.record[..16] == Id(pc.a)
    && pc.written <= RECORD_LEN && pc.written <= |log|
    && var base := log[..|log| - pc.written];
       && |base| % RECORD_LEN == 0
       && log == base + pc.record[..pc.written]
       && Id(pc.a) !in Ids(base)
       && (forall i :: 0 <= i < |oks| ==> oks[i] in Ids(base))
  }

  ghost predicate LogInv(s: State) {
    && (forall p :: p in s.procs ==> s.procs[p].cache <= Ids(s.log))
    && (forall p :: p in s.procs && s.procs[p].pc.Appending? ==> TailOk(s.log, s.oks, s.procs[p].pc))
    && (forall i :: 0 <= i < |s.oks| ==> s.oks[i] in Ids(s.log))
    && (forall a :: a in s.toldConsumed ==> Id(a) in Ids(s.log))
  }

  /** Every consumed id was asked for by an attempt that passed. */
  ghost predicate OriginInv(s: State) {
    && (forall p :: p in s.procs && Busy(s.procs[p].pc) ==> s.procs[p].pc.a in s.passed)
    && (forall id :: id in Ids(s.log) ==> exists a :: a in s.passed && Id(a) == id)
    && s.toldConsumed <= s.passed
  }

  predicate Once(ids: seq<Bytes16>) {
    forall i, j :: 0 <= i < j < |ids| ==> ids[i] != ids[j]
  }

  /** Every Ok(true) is spent at most once. */
  ghost predicate GrantInv(s: State) {
    && Once(s.oks)
    && (forall p :: p in s.procs && s.procs[p].pc.Granting? ==> Id(s.procs[p].pc.a) in s.oks)
    && (forall p, q :: p in s.procs && q in s.procs && p != q && s.procs[p].pc.Granting? && s.procs[q].pc.Granting? ==>
          Id(s.procs[p].pc.a) != Id(s.procs[q].pc.a))
    && (forall g :: 0 <= g < |s.grants| ==> Id(s.grants[g].attempt) in s.oks)
    && (forall g, p :: 0 <= g < |s.grants| && p in s.procs && s.procs[p].pc.Granting? ==>
          Id(s.grants[g].attempt) != Id(s.procs[p].pc.a))
    && (forall g, h :: 0 <= g < h < |s.grants| ==> Id(s.grants[g].attempt) != Id(s.grants[h].attempt))
  }

  /** Verified, by the peer itself, for the root of the process it came to. */
  ghost predicate Authorized(c: Crypto, fabric: Bytes32, a: Attempt) {
    a.redeemer == a.peer && Verify(c, fabric, Some(IssuerOf(a.token)), a) == Ok(a.redeemer)
  }

  ghost predicate AuthInv(c: Crypto, fabric: Bytes32, s: State) {
    && (forall a :: a in s.passed ==> Authorized(c, fabric, a))
    && (forall p :: p in s.procs && Busy(s.procs[p].pc) ==> s.procs[p].root == Some(IssuerOf(s.procs[p].pc.a.token)))
    && (forall p :: p in s.procs && s.procs[p].gate ==> s.procs[p].requested && !Busy(s.procs[p].pc))
    && (forall g :: 0 <= g < |s.grants| ==>
          var x := s.grants[g];
          && x.attempt in s.passed && x.subject == x.attempt.redeemer
          && x.proc in s.procs && s.procs[x.proc].root == Some(IssuerOf(x.attempt.token)))
  }

  /** Wherever a grant is kept, it is one that was issued; the dead keep nothing. */
  ghost predicate KeptInv(s: State) {
    && (forall p, x :: p in s.procs && x in s.procs[p].kept ==> x in s.grants)
    && (forall x :: x in s.image || x in s.outside ==> x in s.grants)
    && (forall p :: p in s.procs && s.procs[p].pc.Dead? ==> s.procs[p].kept == {})
  }

  ghost predicate Inv(c: Crypto, fabric: Bytes32, s: State) {
    LockInv(s) && LogInv(s) && OriginInv(s) && GrantInv(s) && AuthInv(c, fabric, s) && KeptInv(s)
  }

  // ---- Every step keeps it -------------------------------------------------------------------

  lemma LockKept(c: Crypto, fabric: Bytes32, s: State, act: Action)
    requires LockInv(s) && Next(c, fabric, s, act).Some?
    ensures LockInv(Next(c, fabric, s, act).value)
  {
    hide Verify, Ids, Record, Load;
  }

  lemma BeginKeepsAuth(c: Crypto, fabric: Bytes32, s: State, p: nat, a: Attempt)
    requires AuthInv(c, fabric, s) && p in s.procs && BeginNext(c, fabric, s, p, a).Some?
    ensures AuthInv(c, fabric, BeginNext(c, fabric, s, p, a).value)
  {
    hide Verify;
    var root := s.procs[p].root;
    if Verify(c, fabric, root, a).Ok? {
      AcceptedMeans(c, fabric, root, a);
      assert root == Some(IssuerOf(a.token));
    }
  }

  lemma IssueKeepsAuth(c: Crypto, fabric: Bytes32, s: State, p: nat, now: u64, disk: bool)
    requires OriginInv(s) && AuthInv(c, fabric, s) && p in s.procs && IssueNext(s, p, now, disk).Some?
    ensures AuthInv(c, fabric, IssueNext(s, p, now, disk).value)
  {
    hide Ids, Authorized;
  }

  /** A step that passes and issues nothing, and leaves roots and attempts alone. */
  ghost predicate Quiet(s: State, s': State) {
    && s'.passed == s.passed && s'.grants == s.grants
    && (forall p :: p in s.procs ==> p in s'.procs && (s.procs[p].root.Some? ==> s'.procs[p].root == s.procs[p].root))
    && (forall p :: p in s'.procs && Busy(s'.procs[p].pc) ==>
          p in s.procs && Busy(s.procs[p].pc) && s'.procs[p].pc.a == s.procs[p].pc.a && s'.procs[p].root == s.procs[p].root)
    && (forall p :: p in s'.procs && s'.procs[p].gate ==> s'.procs[p].requested && !Busy(s'.procs[p].pc))
  }

  lemma QuietKeepsAuth(c: Crypto, fabric: Bytes32, s: State, s': State)
    requires AuthInv(c, fabric, s) && Quiet(s, s')
    ensures AuthInv(c, fabric, s')
  {
    hide Authorized, Busy;
  }

  predicate Administers(act: Action) {
    act.Open? || act.Learn? || act.Request? || act.Close? || act.Crash? || act.Persist? || act.Send? || act.Receive?
  }

  lemma AdminIsQuiet(c: Crypto, fabric: Bytes32, s: State, act: Action)
    requires AuthInv(c, fabric, s) && Next(c, fabric, s, act).Some?
    requires Administers(act)
    ensures Quiet(s, Next(c, fabric, s, act).value)
  {
    hide Load, Authorized, BeginNext, LockNext, ReloadNext, AppendNext, SyncNext, AppendFailsNext, IssueNext;
  }

  lemma ConsumeIsQuiet(c: Crypto, fabric: Bytes32, s: State, act: Action)
    requires AuthInv(c, fabric, s) && Next(c, fabric, s, act).Some?
    requires act.Lock? || act.LockFails? || act.Reload? || act.Append? || act.Sync? || act.AppendFails?
    ensures Quiet(s, Next(c, fabric, s, act).value)
  {
    hide Load, Record, Authorized, BeginNext, OpenNext, IssueNext, CrashNext, FlagNext, PersistNext, SendNext, ReceiveNext;
  }

  lemma AuthKept(c: Crypto, fabric: Bytes32, s: State, act: Action)
    requires OriginInv(s) && AuthInv(c, fabric, s) && Next(c, fabric, s, act).Some?
    ensures AuthInv(c, fabric, Next(c, fabric, s, act).value)
  {
    hide AuthInv, OriginInv, BeginNext, LockNext, ReloadNext, AppendNext, SyncNext, AppendFailsNext, IssueNext, CrashNext, FlagNext, OpenNext, PersistNext, SendNext, ReceiveNext;
    if act.Begin? {
      BeginKeepsAuth(c, fabric, s, act.p, act.a);
    } else if act.Issue? {
      IssueKeepsAuth(c, fabric, s, act.p, act.now, act.disk);
    } else if Administers(act) {
      AdminIsQuiet(c, fabric, s, act);
      QuietKeepsAuth(c, fabric, s, Next(c, fabric, s, act).value);
    } else {
      ConsumeIsQuiet(c, fabric, s, act);
      QuietKeepsAuth(c, fabric, s, Next(c, fabric, s, act).value);
    }
  }

  lemma SyncKeepsGrants(s: State, p: nat)
    requires LogInv(s) && GrantInv(s) && p in s.procs && SyncNext(s, p).Some?
    ensures GrantInv(SyncNext(s, p).value)
  {
    hide Ids;
    assert TailOk(s.log, s.oks, s.procs[p].pc);
    assert Id(s.procs[p].pc.a) !in s.oks;
  }

  lemma IssueKeepsGrants(s: State, p: nat, now: u64, disk: bool)
    requires GrantInv(s) && p in s.procs && IssueNext(s, p, now, disk).Some?
    ensures GrantInv(IssueNext(s, p, now, disk).value)
  {
  }

  /** A step that issues nothing and puts no process into the granting state. */
  lemma OtherKeepsGrants(s: State, s': State)
    requires GrantInv(s) && s'.oks == s.oks && s'.grants == s.grants
    requires forall p :: p in s'.procs && s'.procs[p].pc.Granting? ==> p in s.procs && s'.procs[p].pc == s.procs[p].pc
    ensures GrantInv(s')
  {
    hide Once;
  }

  lemma GrantKept(c: Crypto, fabric: Bytes32, s: State, act: Action)
    requires LogInv(s) && GrantInv(s) && Next(c, fabric, s, act).Some?
    ensures GrantInv(Next(c, fabric, s, act).value)
  {
    hide Verify, Ids, Record, Load, GrantInv, LogInv;
    if act.Sync? {
      SyncKeepsGrants(s, act.p);
    } else if act.Issue? {
      IssueKeepsGrants(s, act.p, act.now, act.disk);
    } else {
      OtherKeepsGrants(s, Next(c, fabric, s, act).value);
    }
  }

  /** The log before the record that is going down. */
  function Base(s: State, pc: Pc): bytes
    requires pc.Appending? && pc.written <= |s.log|
  {
    s.log[..|s.log| - pc.written]
  }

  lemma AppendMeans(s: State, p: nat, k: nat)
    requires LogInv(s) && p in s.procs && AppendNext(s, p, k).Some?
    ensures
      var s' := AppendNext(s, p, k).value;
      var pc := s.procs[p].pc;
      && TailOk(s'.log, s'.oks, s'.procs[p].pc)
      && Ids(s.log) <= Ids(s'.log)
      && Ids(s'.log) <= Ids(s.log) + {Id(pc.a)}
  {
    hide Ids;
    var s' := AppendNext(s, p, k).value;
    var pc := s.procs[p].pc;
    assert TailOk(s.log, s.oks, pc);
    var base := Base(s, pc);
    var piece := pc.record[pc.written..pc.written + k];
    Assoc(base, pc.record[..pc.written], piece);
    assert pc.record[..pc.written] + piece == pc.record[..pc.written + k];
    assert s'.log[..|base|] == base;
    IdsGrow(s.log, piece);
    IdsGrow(base, pc.record[..pc.written]);
    IdsOfTail(base, pc.record[..pc.written + k]);
    assert pc.record[..RECORD_LEN] == pc.record;
  }

  lemma AppendKeepsLog(s: State, p: nat, k: nat)
    requires LockInv(s) && LogInv(s) && p in s.procs && AppendNext(s, p, k).Some?
    ensures LogInv(AppendNext(s, p, k).value)
  {
    hide Ids, TailOk;
    AppendMeans(s, p, k);
    OneAppends(s, p);
  }

  /** Only the holder of the lock has a record going down. */
  lemma OneAppends(s: State, p: nat)
    requires LockInv(s) && p in s.procs && Locked(s.procs[p].pc)
    ensures forall q :: q in s.procs && q != p ==> !s.procs[q].pc.Appending?
  {
    assert s.holder == Some(p);
    forall q | q in s.procs && q != p
      ensures !s.procs[q].pc.Appending?
    {
      assert !Locked(s.procs[q].pc);
    }
  }

  lemma ReloadKeepsLog(s: State, p: nat, now: u64)
    requires LockInv(s) && LogInv(s) && p in s.procs && ReloadNext(s, p, now).Some?
    ensures LogInv(ReloadNext(s, p, now).value)
  {
    hide Ids;
    assert s.log[..|s.log|] == s.log;
    OneAppends(s, p);
  }

  /** A whole record at the end of the log has its id in it. */
  lemma SyncMeans(s: State, p: nat)
    requires LogInv(s) && p in s.procs && SyncNext(s, p).Some?
    ensures Id(s.procs[p].pc.a) in Ids(s.log)
  {
    hide Ids;
    var pc := s.procs[p].pc;
    assert TailOk(s.log, s.oks, pc);
    assert pc.record[..RECORD_LEN] == pc.record;
    IdsOfTail(Base(s, pc), pc.record);
  }

  lemma SyncKeepsLog(s: State, p: nat)
    requires LockInv(s) && LogInv(s) && p in s.procs && SyncNext(s, p).Some?
    ensures LogInv(SyncNext(s, p).value)
  {
    hide Ids, TailOk;
    SyncMeans(s, p);
    OneAppends(s, p);
  }

  lemma OtherKeepsLog(c: Crypto, fabric: Bytes32, s: State, act: Action)
    requires LogInv(s) && Next(c, fabric, s, act).Some? && !act.Append? && !act.Reload? && !act.Sync?
    ensures LogInv(Next(c, fabric, s, act).value)
  {
    hide Ids, Verify, TailOk;
  }

  lemma LogKept(c: Crypto, fabric: Bytes32, s: State, act: Action)
    requires LockInv(s) && LogInv(s) && Next(c, fabric, s, act).Some?
    ensures LogInv(Next(c, fabric, s, act).value)
  {
    hide LockInv, LogInv, BeginNext, LockNext, AppendNext, ReloadNext, SyncNext;
    if act.Append? {
      AppendKeepsLog(s, act.p, act.k);
    } else if act.Reload? {
      ReloadKeepsLog(s, act.p, act.now);
    } else if act.Sync? {
      SyncKeepsLog(s, act.p);
    } else {
      OtherKeepsLog(c, fabric, s, act);
    }
  }

  lemma AppendKeepsOrigin(s: State, p: nat, k: nat)
    requires LogInv(s) && OriginInv(s) && p in s.procs && AppendNext(s, p, k).Some?
    ensures OriginInv(AppendNext(s, p, k).value)
  {
    hide Ids, LogInv, TailOk;
    AppendMeans(s, p, k);
    assert Busy(s.procs[p].pc);
  }

  lemma OtherKeepsOrigin(c: Crypto, fabric: Bytes32, s: State, act: Action)
    requires OriginInv(s) && Next(c, fabric, s, act).Some? && !act.Append?
    ensures OriginInv(Next(c, fabric, s, act).value)
  {
    hide Ids, Verify, Record, Load;
  }

  lemma KeptKept(c: Crypto, fabric: Bytes32, s: State, act: Action)
    requires KeptInv(s) && Next(c, fabric, s, act).Some?
    ensures KeptInv(Next(c, fabric, s, act).value)
  {
    hide Verify, Ids, Record, Load;
  }

  /** Whatever happens, the invariant is kept. */
  lemma InvKept(c: Crypto, fabric: Bytes32, s: State, act: Action)
    requires Inv(c, fabric, s) && Next(c, fabric, s, act).Some?
    ensures Inv(c, fabric, Next(c, fabric, s, act).value)
  {
    hide LockInv, LogInv, OriginInv, GrantInv, AuthInv, KeptInv, BeginNext, LockNext, AppendNext, ReloadNext, SyncNext;
    KeptKept(c, fabric, s, act);
    LockKept(c, fabric, s, act);
    LogKept(c, fabric, s, act);
    GrantKept(c, fabric, s, act);
    if act.Append? {
      AppendKeepsOrigin(s, act.p, act.k);
    } else {
      OtherKeepsOrigin(c, fabric, s, act);
    }
    AuthKept(c, fabric, s, act);
  }

  lemma {:induction false} RunKeeps(c: Crypto, fabric: Bytes32, s: State, run: seq<Action>)
    requires Inv(c, fabric, s) && Exec(c, fabric, s, run).Some?
    ensures Inv(c, fabric, Exec(c, fabric, s, run).value)
    decreases |run|
  {
    hide Inv, Next;
    if run != [] {
      InvKept(c, fabric, s, run[0]);
      RunKeeps(c, fabric, Next(c, fabric, s, run[0]).value, run[1..]);
    }
  }

  lemma ReachableInv(c: Crypto, fabric: Bytes32, s: State)
    requires Reachable(c, fabric, s)
    ensures Inv(c, fabric, s)
  {
    hide Exec, Verify;
    var run :| Exec(c, fabric, Init(), run) == Some(s);
    assert Inv(c, fabric, Init());
    RunKeeps(c, fabric, Init(), run);
  }

  // ---- Main results ----------------------------------------------------------------------------

  /** An invite id yields at most one Ok(true), and at most one grant is ever stored for
      it, whether it was persisted or not and wherever it is kept. */
  lemma AtMostOnce(c: Crypto, fabric: Bytes32, s: State)
    requires Reachable(c, fabric, s)
    ensures forall i, j :: 0 <= i < j < |s.oks| ==> s.oks[i] != s.oks[j]
    ensures forall g, h :: 0 <= g < h < |s.grants| ==> Id(s.grants[g].attempt) != Id(s.grants[h].attempt)
    ensures forall g :: 0 <= g < |s.grants| ==> Id(s.grants[g].attempt) in s.oks
    ensures forall x :: x in s.image || x in s.outside || (exists p :: p in s.procs && x in s.procs[p].kept) ==> x in s.grants
  {
    hide LockInv, LogInv, OriginInv, AuthInv, Exec;
    ReachableInv(c, fabric, s);
  }

  /** Every grant ever stored goes to the TLS peer of an attempt whose token verified, was live, was
      signed by the root of the issuing process, and whose proof verifies under that
      peer's key for this fabric and this invite. An invite that names its recipient
      admits nobody else. */
  lemma GrantsAreProven(c: Crypto, fabric: Bytes32, s: State, g: nat)
    requires Reachable(c, fabric, s) && g < |s.grants|
    ensures
      var x := s.grants[g];
      var a := x.attempt;
      && x.subject == a.peer && x.proc in s.procs && s.procs[x.proc].root == Some(IssuerOf(a.token))
      && Authentic(c, a.token) && FabricOf(a.token) == fabric && a.now < ExpiryOf(a.token)
      && c.verify(x.subject, PopMessage(fabric, Id(a), a.challenge), a.proof)
      && (a.token.V1? && a.token.one.invite.recipient.Some? ==> x.subject == a.token.one.invite.recipient.value)
      && (a.token.V2? ==> x.subject == a.token.two.invite.recipient)
  {
    hide LockInv, LogInv, OriginInv, GrantInv, Exec, Verify, Authentic, PopMessage;
    ReachableInv(c, fabric, s);
    var a := s.grants[g].attempt;
    assert Authorized(c, fabric, a);
    AcceptedMeans(c, fabric, Some(IssuerOf(a.token)), a);
  }

  /** Only a verified attempt ever consumes an invite, and a
      joiner is told "consumed" only of an invite whose record is in the log. */
  lemma OnlyProvenConsume(c: Crypto, fabric: Bytes32, s: State, id: Bytes16)
    requires Reachable(c, fabric, s)
    ensures id in Ids(s.log) ==> exists a :: a in s.passed && Id(a) == id && Authorized(c, fabric, a)
    ensures forall a :: a in s.toldConsumed ==> Id(a) in Ids(s.log) && Authorized(c, fabric, a)
  {
    hide LockInv, GrantInv, Exec, Ids, Authorized;
    ReachableInv(c, fabric, s);
  }

  ghost predicate Shut(s: State, p: nat) {
    p in s.procs && s.procs[p].requested && !Busy(s.procs[p].pc)
  }

  lemma ShutStep(c: Crypto, fabric: Bytes32, s: State, act: Action, p: nat)
    requires Shut(s, p) && Next(c, fabric, s, act).Some?
    ensures
      var s' := Next(c, fabric, s, act).value;
      && Shut(s', p) && s.grants <= s'.grants
      && (forall g :: |s.grants| <= g < |s'.grants| ==> s'.grants[g].proc != p)
      && (s.procs[p].gate ==> s'.procs[p].gate && s'.procs[p].kept <= s.procs[p].kept)
  {
    hide Verify, Ids, Record, Load;
  }

  lemma {:induction false} ShutForGood(c: Crypto, fabric: Bytes32, s: State, run: seq<Action>, p: nat)
    requires Shut(s, p) && Exec(c, fabric, s, run).Some?
    ensures
      var s' := Exec(c, fabric, s, run).value;
      && Shut(s', p) && s.grants <= s'.grants
      && (forall g :: |s.grants| <= g < |s'.grants| ==> s'.grants[g].proc != p)
      && (s.procs[p].gate ==> s'.procs[p].gate && s'.procs[p].kept <= s.procs[p].kept)
    decreases |run|
  {
    hide Next, Shut;
    if run != [] {
      var s1 := Next(c, fabric, s, run[0]).value;
      ShutStep(c, fabric, s, run[0], p);
      ShutForGood(c, fabric, s1, run[1..], p);
    }
  }

  /** Once a process has closed its gate it has no redemption under way and never stores
      another grant, of its own or merged, however the run goes on. */
  lemma NoGrantBehindTheGate(c: Crypto, fabric: Bytes32, s: State, run: seq<Action>, p: nat)
    requires Reachable(c, fabric, s) && p in s.procs && s.procs[p].gate
    requires Exec(c, fabric, s, run).Some?
    ensures
      var s' := Exec(c, fabric, s, run).value;
      && p in s'.procs && !Busy(s'.procs[p].pc)
      && s.grants <= s'.grants
      && (forall g :: |s.grants| <= g < |s'.grants| ==> s'.grants[g].proc != p)
      && s'.procs[p].kept <= s.procs[p].kept
  {
    hide LockInv, LogInv, OriginInv, GrantInv, Exec;
    ReachableInv(c, fabric, s);
    ShutForGood(c, fabric, s, run, p);
  }

  // ---- What a failed append leaves behind --------------------------------------------------------

  /** The id is in the log and nobody is putting it there. */
  ghost predicate Burnt(s: State, id: Bytes16) {
    id in Ids(s.log) && forall p :: p in s.procs && s.procs[p].pc.Appending? ==> Id(s.procs[p].pc.a) != id
  }

  lemma BurntStep(c: Crypto, fabric: Bytes32, s: State, act: Action, id: Bytes16)
    requires Burnt(s, id) && Next(c, fabric, s, act).Some?
    ensures
      var s' := Next(c, fabric, s, act).value;
      && Burnt(s', id) && s.oks <= s'.oks
      && forall i :: |s.oks| <= i < |s'.oks| ==> s'.oks[i] != id
  {
    hide Verify, Ids, Record;
    if act.Append? {
      var pc := s.procs[act.p].pc;
      IdsGrow(s.log, pc.record[pc.written..pc.written + act.k]);
    }
  }

  lemma {:induction false} BurntForGood(c: Crypto, fabric: Bytes32, s: State, run: seq<Action>, id: Bytes16)
    requires Burnt(s, id) && Exec(c, fabric, s, run).Some?
    ensures
      var s' := Exec(c, fabric, s, run).value;
      s.oks <= s'.oks && forall i :: |s.oks| <= i < |s'.oks| ==> s'.oks[i] != id
    decreases |run|
  {
    hide Next, Burnt;
    if run != [] {
      var s1 := Next(c, fabric, s, run[0]).value;
      BurntStep(c, fabric, s, run[0], id);
      BurntForGood(c, fabric, s1, run[1..], id);
    }
  }

  /** When the record has gone down but the sync fails, the invite is spent and is never
      confirmed, then or ever. */
  lemma FailedSyncBurns(c: Crypto, fabric: Bytes32, s: State, p: nat, run: seq<Action>)
    requires Reachable(c, fabric, s) && p in s.procs
    requires s.procs[p].pc.Appending? && s.procs[p].pc.written == |s.procs[p].pc.record|
    requires Exec(c, fabric, AppendFailsNext(s, p).value, run).Some?
    ensures Id(s.procs[p].pc.a) !in Exec(c, fabric, AppendFailsNext(s, p).value, run).value.oks
  {
    hide OriginInv, GrantInv, AuthInv, Exec, Ids;
    ReachableInv(c, fabric, s);
    assert TailOk(s.log, s.oks, s.procs[p].pc);
    SyncMeans(s, p);
    OneAppends(s, p);
    BurntForGood(c, fabric, AppendFailsNext(s, p).value, run, Id(s.procs[p].pc.a));
  }

  /** The log ends in part of a record and nobody is writing. */
  ghost predicate Torn(s: State) {
    |s.log| % RECORD_LEN != 0 && forall p :: p in s.procs ==> !s.procs[p].pc.Appending?
  }

  lemma TornStep(c: Crypto, fabric: Bytes32, s: State, act: Action)
    requires Torn(s) && Next(c, fabric, s, act).Some?
    ensures var s' := Next(c, fabric, s, act).value; Torn(s') && s'.log == s.log && s'.oks == s.oks
  {
    hide Verify, Ids, Record;
  }

  /** After a torn append no invite is ever consumed again from this directory, by any
      process. */
  lemma {:induction false} TornForGood(c: Crypto, fabric: Bytes32, s: State, run: seq<Action>)
    requires Torn(s) && Exec(c, fabric, s, run).Some?
    ensures Exec(c, fabric, s, run).value.oks == s.oks && Exec(c, fabric, s, run).value.log == s.log
    decreases |run|
  {
    hide Next, Torn;
    if run != [] {
      TornStep(c, fabric, s, run[0]);
      TornForGood(c, fabric, Next(c, fabric, s, run[0]).value, run[1..]);
    }
  }
}
