/** The roster object: in-place merge, root operations, projection and the
    data directory it persists into. */
module RosterStore {
  import opened Bytes
  import opened Facts
  import opened FactCodec
  import opened FactFrames
  import opened RosterState
  import opened Projection
  import opened EffectiveMembers
  import opened RosterImage
  import opened InviteLog
  import RosterDurability

  const QUARANTINE_SAMPLE_CAP: nat := 16

  datatype MergeReport = MergeReport(inserted: nat, duplicates: nat, quarantined: nat)

  datatype RosterError =
    | Encoding
    | NotRoot(caller: Key, root: Option<Key>)
    | InvalidRevokeTarget(id: FactId)
    | LocalFactQuarantined(reason: Reason)
    | Persistence
    | NotFound
    | Corrupted(why: OpenError)

  datatype RevokeTarget = OneGrant(id: FactId) | AllGrantsOf(subject: Key)

  /** Why deliveries among `fs` are refused, in the order they are. */
  function Reasons(c: Crypto, s: State, fs: seq<SignedFact>): seq<Reason>
    decreases |fs|
  {
    if fs == [] then []
    else
      var (s1, o) := Insert(c, s, fs[0]);
      (if o.Quarantined? then [o.reason] else []) + Reasons(c, s1, fs[1..])
  }

  /** The samples after more reasons: of the old ones and those, the first sixteen. */
  function Sampled(before: seq<Reason>, reasons: seq<Reason>): (r: seq<Reason>)
    ensures r <= before + reasons
    ensures |r| == if |before| + |reasons| <= 16 then |before| + |reasons| else 16
  {
    (before + reasons)[..Min(|before + reasons|, QUARANTINE_SAMPLE_CAP)]
  }

  lemma SampledMore(before: seq<Reason>, reasons: seq<Reason>, reason: Reason)
    ensures
      var now := Sampled(before, reasons);
      Sampled(before, reasons + [reason]) == if |now| < QUARANTINE_SAMPLE_CAP then now + [reason] else now
  {
    assert before + (reasons + [reason]) == (before + reasons) + [reason];
  }

  lemma NoneSampled(before: seq<Reason>)
    requires |before| <= QUARANTINE_SAMPLE_CAP
    ensures Sampled(before, []) == before
  {
    assert before + [] == before;
  }

  lemma {:induction false} ReasonsSnoc(c: Crypto, s: State, fs: seq<SignedFact>, sf: SignedFact)
    ensures MergeAll(c, s, fs + [sf]) == Insert(c, MergeAll(c, s, fs), sf).0
    ensures var o := Insert(c, MergeAll(c, s, fs), sf).1;
      Reasons(c, s, fs + [sf]) == Reasons(c, s, fs) + (if o.Quarantined? then [o.reason] else [])
    decreases |fs|
  {
    hide Insert;
    if fs == [] {
      assert [] + [sf] == [sf] && [sf][1..] == [];
      assert MergeAll(c, Insert(c, s, sf).0, []) == Insert(c, s, sf).0;
      assert Reasons(c, Insert(c, s, sf).0, []) == [];
    } else {
      assert (fs + [sf])[1..] == fs[1..] + [sf];
      ReasonsSnoc(c, Insert(c, s, fs[0]).0, fs[1..], sf);
    }
  }

  lemma MergeNothing(c: Crypto, s: State, fs: seq<SignedFact>)
    requires fs == []
    ensures MergeAll(c, s, fs) == s && Reasons(c, s, fs) == []
  {
  }

  /** One more delivery: where the state, the refusals and the number of stored
      facts stand after it. */
  lemma MergeStep(c: Crypto, s: State, fs: seq<SignedFact>, i: nat)
    requires i < |fs| && Good(c, MergeAll(c, s, fs[..i]))
    ensures var at := MergeAll(c, s, fs[..i]);
      var (after, o) := Insert(c, at, fs[i]);
      && MergeAll(c, s, fs[..i + 1]) == after
      && Reasons(c, s, fs[..i + 1]) == (if o.Quarantined? then Reasons(c, s, fs[..i]) + [o.reason] else Reasons(c, s, fs[..i]))
      && (o == Inserted ==> |after.facts| == |at.facts| + 1)
      && (o != Inserted ==> after == at)
  {
    hide Insert, Verifies, ShapeOk, IdOf;
    var at := MergeAll(c, s, fs[..i]);
    ReasonsSnoc(c, s, fs[..i], fs[i]);
    assert fs[..i + 1] == fs[..i] + [fs[i]];
    InsertOutcomes(c, at, fs[i]);
    if Insert(c, at, fs[i]).1 == Inserted {
      assert Insert(c, at, fs[i]).0.facts.Keys == at.facts.Keys + {IdOf(c, fs[i].fact)};
    }
  }

  function Signed(c: Crypto, secret: Bytes32, f: Fact): SignedFact {
    SignedFact(f, c.sign(secret, Canonical(f)))
  }

  function GrantFact(fabric: Bytes32, root: Key, subject: Key, name: Option<bytes>, expiresAt: Option<u64>, now: u64): Fact {
    Fact(FactKind.Grant, fabric, root, subject, name, now, expiresAt, None)
  }

  function RevokeFact(fabric: Bytes32, root: Key, facts: map<FactId, SignedFact>, target: RevokeTarget, now: u64): Fact
    requires target.OneGrant? ==> target.id in facts
  {
    match target
    case OneGrant(id) => Fact(FactKind.Revoke, fabric, root, facts[id].fact.subject, None, now, None, Some(id))
    case AllGrantsOf(k) => Fact(FactKind.Revoke, fabric, root, k, None, now, None, None)
  }

  /** The file `roster.facts`, replaced as a whole, and the log of consumed invites,
      appended to by every process on the directory. */
  class DataDir {
    var image: Option<bytes>
    var log: bytes

    constructor ()
      ensures image == None && log == []
    {
      image, log := None, [];
    }
  }

  datatype ConsumeError = LockTimeout | TornLog | WriteFailed

  /** How the file system answers one consumption: whether the lock is got, how many
      bytes of the record go down, and whether the sync succeeds. */
  datatype Io = Io(locks: bool, written: nat, syncs: bool)

  class Roster {
    const c: Crypto
    const dir: DataDir
    const fabric: Bytes32
    var genesis: Option<FactId>
    var root: Option<Key>
    var facts: map<FactId, SignedFact>
    var consumed: set<Bytes16>
    var quarantined: nat
    var samples: seq<Reason>

    function State(): State
      reads this
    {
      RosterState.State.State(fabric, genesis, root, facts)
    }

    /** The roster in memory and the image on disk. */
    ghost function Disk(): RosterDurability.Disk
      reads this, dir
    {
      RosterDurability.Disk.Disk(State(), dir.image)
    }

    ghost predicate Valid()
      reads this
    {
      Good(c, State()) && Typed(c, State()) && |samples| == Min(quarantined, QUARANTINE_SAMPLE_CAP)
    }

    constructor Empty(c: Crypto, dir: DataDir, fabric: Bytes32)
      requires Load(dir.log).Some?
      ensures Valid() && State() == RosterState.Empty(fabric)
      ensures this.c == c && this.dir == dir && consumed == Ids(dir.log)
    {
      this.c := c;
      this.dir := dir;
      this.fabric := fabric;
      genesis, root, facts := None, None, map[];
      consumed := Ids(dir.log);
      quarantined, samples := 0, [];
    }

    // ---- Merge ------------------------------------------------------------------------

    method ValidateAndInsert(sf: SignedFact) returns (o: Outcome)
      requires Valid() && WellTyped(c, sf.fact)
      modifies this`genesis, this`root, this`facts
      ensures Valid()
      ensures (State(), o) == Insert(c, old(State()), sf)
    {
      InsertKeeps(c, State(), sf);
      TypedKept(c, State(), sf);
      hide IdOf, Verifies, ShapeOk, Good, Typed;
      if sf.fact.fabric != fabric { return Quarantined(CrossFabric); }
      if !Verifies(c, sf) { return Quarantined(BadSignature); }
      if !ShapeOk(sf.fact) { return Quarantined(BadShape); }
      var id := IdOf(c, sf.fact);
      if sf.fact.kind == Genesis {
        if genesis.Some? && genesis.value != id { return Quarantined(ConflictingGenesis); }
        if id in facts && facts[id] != sf { return Quarantined(GenesisCollision); }
      }
      if id in facts {
        return if facts[id] == sf then Duplicate else Quarantined(IdCollision);
      }
      if sf.fact.kind == Genesis && genesis.None? {
        genesis := Some(id);
        root := Some(sf.fact.issuer);
      }
      facts := facts[id := sf];
      return Inserted;
    }

    method RecordQuarantine(reason: Reason)
      requires Valid()
      modifies this`quarantined, this`samples
      ensures Valid() && quarantined == old(quarantined) + 1
      ensures samples == if old(|samples|) < QUARANTINE_SAMPLE_CAP then old(samples) + [reason] else old(samples)
    {
      quarantined := quarantined + 1;
      if |samples| < QUARANTINE_SAMPLE_CAP {
        samples := samples + [reason];
      }
    }

    /** Writes the whole fact set, or fails and leaves the file as it was. */
    method PersistNow(diskOk: bool) returns (ok: bool)
      requires Valid()
      modifies dir`image
      ensures ok == diskOk
      ensures dir.image == if ok then Image(c, State()) else old(dir.image)
    {
      var fs := FactsInOrder(facts);
      GoodIsSendable(c, State());
      SendableIsRepresentable(c, fs);
      hide Sealed, WriteMany;
      var body := EncodeAll(fs);
      if diskOk {
        dir.image := Some(Sealed(c, fabric, body.value));
      }
      return diskOk;
    }

    method Merge(fs: seq<SignedFact>, diskOk: bool) returns (r: Result<MergeReport, RosterError>)
      requires Valid() && forall i :: 0 <= i < |fs| ==> WellTyped(c, fs[i].fact)
      modifies this`genesis, this`root, this`facts, this`quarantined, this`samples, dir`image
      ensures Valid()
      ensures State() == MergeAll(c, old(State()), fs)
      ensures quarantined == old(quarantined) + |Reasons(c, old(State()), fs)|
      ensures samples == Sampled(old(samples), Reasons(c, old(State()), fs))
      ensures r.Ok? <==> diskOk || facts == old(facts)
      ensures r.Ok? ==>
        && r.value.inserted == |facts| - |old(facts)|
        && r.value.quarantined == |Reasons(c, old(State()), fs)|
        && r.value.inserted + r.value.duplicates + r.value.quarantined == |fs|
      ensures r.Err? ==> r.error == Persistence
      ensures dir.image == if facts != old(facts) && diskOk then Image(c, State()) else old(dir.image)
      ensures Disk() == RosterDurability.After(c, old(Disk()), RosterDurability.Deliver(fs, diskOk))
    {
      hide Insert, Good, Typed, MergeAll, Reasons, Sampled, Image, WellTyped;
      ghost var s0 := State();
      var inserted, duplicates, refused := 0, 0, 0;
      MergeNothing(c, s0, fs[..0]);
      NoneSampled(samples);
      for i := 0 to |fs|
        invariant Valid() && State() == MergeAll(c, s0, fs[..i])
        invariant inserted + duplicates + refused == i
        invariant inserted == |facts| - |s0.facts|
        invariant refused == |Reasons(c, s0, fs[..i])|
        invariant samples == Sampled(old(samples), Reasons(c, s0, fs[..i]))
        invariant quarantined == old(quarantined) + refused
        invariant inserted == 0 <==> facts == s0.facts
        invariant dir.image == old(dir.image)
      {
        MergeStep(c, s0, fs, i);
        var o := ValidateAndInsert(fs[i]);
        match o {
          case Inserted =>
            inserted := inserted + 1;
          case Duplicate =>
            duplicates := duplicates + 1;
          case Quarantined(reason) =>
            RecordQuarantine(reason);
            SampledMore(old(samples), Reasons(c, s0, fs[..i]), reason);
            refused := refused + 1;
        }
      }
      assert fs[..|fs|] == fs;
      if inserted > 0 {
        var ok := PersistNow(diskOk);
        if !ok { return Err(Persistence); }
      }
      return Ok(MergeReport(inserted, duplicates, refused));
    }

    // ---- Local facts --------------------------------------------------------------------

    /** What every locally built and signed fact does. */
    ghost predicate Entered(sf: SignedFact, diskOk: bool, r: Result<SignedFact, RosterError>, before: RosterDurability.Disk)
      reads this, dir
    {
      var o := Insert(c, before.state, sf).1;
      && Disk() == RosterDurability.After(c, before, RosterDurability.Enter(sf, diskOk))
      && r == (if o.Quarantined? then Err(LocalFactQuarantined(o.reason)) else if diskOk then Ok(sf) else Err(Persistence))
    }

    /** The fact is in the roster, persisted or not. */
    ghost predicate Kept(sf: SignedFact, before: State)
      reads this
    {
      State() == Insert(c, before, sf).0 && IdOf(c, sf.fact) in facts && facts[IdOf(c, sf.fact)] == sf
    }

    method Enter(sf: SignedFact, diskOk: bool) returns (r: Result<SignedFact, RosterError>)
      requires Valid() && WellTyped(c, sf.fact)
      modifies this`genesis, this`root, this`facts, dir`image
      ensures Valid()
      ensures Entered(sf, diskOk, r, old(Disk()))
      ensures quarantined == old(quarantined) && samples == old(samples)
    {
      hide Insert, Good, Typed;
      var o := ValidateAndInsert(sf);
      if o.Quarantined? { return Err(LocalFactQuarantined(o.reason)); }
      var ok := PersistNow(diskOk);
      return if ok then Ok(sf) else Err(Persistence);
    }

    method BuildAndInsert(secret: Bytes32, f: Fact, diskOk: bool) returns (r: Result<SignedFact, RosterError>)
      requires Valid() && WellTyped(c, f)
      modifies this`genesis, this`root, this`facts, dir`image
      ensures Valid()
      ensures old(root) != Some(c.publicKey(secret)) ==> r == Err(NotRoot(c.publicKey(secret), old(root)))
      ensures old(root) == Some(c.publicKey(secret)) && !Representable(f) ==> r == Err(Encoding)
      ensures old(root) != Some(c.publicKey(secret)) || !Representable(f) ==> State() == old(State()) && dir.image == old(dir.image)
      ensures old(root) == Some(c.publicKey(secret)) && Representable(f) ==>
        Entered(Signed(c, secret, f), diskOk, r, old(Disk()))
    {
      hide Canonical, Good, Typed;
      if root != Some(c.publicKey(secret)) { return Err(NotRoot(c.publicKey(secret), root)); }
      if !Representable(f) { return Err(Encoding); }
      r := Enter(Signed(c, secret, f), diskOk);
    }

    method Grant(secret: Bytes32, subject: Key, name: Option<bytes>, expiresAt: Option<u64>, now: u64, diskOk: bool)
      returns (r: Result<SignedFact, RosterError>)
      requires Valid() && SignVerifies(c) && c.validKey(subject) && (name.Some? ==> Utf8(name.value))
      modifies this`genesis, this`root, this`facts, dir`image
      ensures Valid()
      ensures r.Ok? ==>
        && old(root) == Some(c.publicKey(secret))
        && r.value == Signed(c, secret, GrantFact(fabric, c.publicKey(secret), subject, name, expiresAt, now))
        && r.value.fact == Fact(FactKind.Grant, fabric, c.publicKey(secret), subject, name, now, expiresAt, None)
        && Kept(r.value, old(State()))
        && dir.image == Image(c, State())
      ensures r.Err? ==> dir.image == old(dir.image)
      ensures r.Err? && r.error != Persistence ==> State() == old(State())
      ensures r.Err? && r.error == Persistence ==> Kept(Signed(c, secret, GrantFact(fabric, c.publicKey(secret), subject, name, expiresAt, now)), old(State()))
      ensures r.Err? && r.error.NotRoot? <==> old(root) != Some(c.publicKey(secret))
      ensures r.Err? && r.error == Encoding <==> old(root) == Some(c.publicKey(secret)) && name.Some? && |name.value| > MAX_NAME_BYTES
      ensures r.Err? && r.error.LocalFactQuarantined? <==>
        && old(root) == Some(c.publicKey(secret)) && !(name.Some? && |name.value| > MAX_NAME_BYTES)
        && OtherStored(c, old(facts), Signed(c, secret, GrantFact(fabric, c.publicKey(secret), subject, name, expiresAt, now)))
    {
      hide Typed, Canonical, Insert, IdOf;
      var f := GrantFact(fabric, c.publicKey(secret), subject, name, expiresAt, now);
      r := BuildAndInsert(secret, f, diskOk);
      if Representable(f) {
        InsertStores(c, old(State()), Signed(c, secret, f));
        if old(root) == Some(c.publicKey(secret)) {
          LocalFactAccepted(c, old(State()), secret, f);
        }
      }
    }

    method Revoke(secret: Bytes32, target: RevokeTarget, now: u64, diskOk: bool) returns (r: Result<SignedFact, RosterError>)
      requires Valid() && SignVerifies(c) && (target.AllGrantsOf? ==> c.validKey(target.subject))
      modifies this`genesis, this`root, this`facts, dir`image
      ensures Valid()
      ensures r.Err? && r.error.InvalidRevokeTarget? <==>
        target.OneGrant? && (target.id !in old(facts) || old(facts)[target.id].fact.kind != FactKind.Grant)
      ensures r.Ok? ==>
        && old(root) == Some(c.publicKey(secret))
        && r.value.fact.kind == FactKind.Revoke && r.value.fact.issuer == c.publicKey(secret)
        && r.value.fact.issuedAt == now && r.value.fact.expiresAt == None
        && (target.AllGrantsOf? ==> r.value.fact.subject == target.subject && r.value.fact.target == None)
        && (target.OneGrant? ==> r.value.fact.subject == old(facts)[target.id].fact.subject && r.value.fact.target == Some(target.id))
        && Kept(r.value, old(State()))
        && dir.image == Image(c, State())
      ensures r.Ok? && target.AllGrantsOf? ==> BlanketRevoke(State(), IdOf(c, r.value.fact), target.subject)
      ensures r.Err? ==> dir.image == old(dir.image)
      ensures r.Err? && r.error != Persistence ==> State() == old(State())
      ensures r.Err? && r.error == Persistence ==>
        && (target.OneGrant? ==> target.id in old(facts))
        && Kept(Signed(c, secret, RevokeFact(fabric, c.publicKey(secret), old(facts), target, now)), old(State()))
    {
      hide Good, Canonical;
      var subject;
      match target {
        case OneGrant(id) =>
          if id !in facts || facts[id].fact.kind != FactKind.Grant { return Err(InvalidRevokeTarget(id)); }
          subject := facts[id].fact.subject;
        case AllGrantsOf(k) =>
          subject := k;
      }
      var f := Fact(FactKind.Revoke, fabric, c.publicKey(secret), subject, None, now, None,
                    if target.OneGrant? then Some(target.id) else None);
      r := BuildAndInsert(secret, f, diskOk);
      InsertStores(c, old(State()), Signed(c, secret, f));
    }

    /** Any identity may name itself; a Join admits nobody. */
    method SetDisplayName(secret: Bytes32, name: Option<bytes>, now: u64, diskOk: bool) returns (r: Result<SignedFact, RosterError>)
      requires Valid() && SignVerifies(c) && (name.Some? ==> Utf8(name.value))
      modifies this`genesis, this`root, this`facts, dir`image
      ensures Valid()
      ensures r.Err? && r.error == Encoding <==> name.Some? && |name.value| > MAX_NAME_BYTES
      ensures r.Ok? ==>
        && r.value.fact == Fact(FactKind.Join, fabric, c.publicKey(secret), c.publicKey(secret), name, now, None, None)
        && Kept(r.value, old(State()))
        && dir.image == Image(c, State())
      ensures r.Err? ==> dir.image == old(dir.image)
      ensures r.Err? && r.error != Persistence ==> State() == old(State())
      ensures r.Err? && r.error == Persistence ==>
        Kept(Signed(c, secret, Fact(FactKind.Join, fabric, c.publicKey(secret), c.publicKey(secret), name, now, None, None)), old(State()))
    {
      hide Good, Canonical;
      var me := c.publicKey(secret);
      var f := Fact(FactKind.Join, fabric, me, me, name, now, None, None);
      if !Representable(f) { return Err(Encoding); }
      r := Enter(Signed(c, secret, f), diskOk);
      InsertStores(c, old(State()), Signed(c, secret, f));
    }

    // ---- Consumption ------------------------------------------------------------------------

    /** `consume_invite`, run to its end under the lock. */
    method ConsumeInvite(id: Bytes16, now: u64, io: Io) returns (r: Result<bool, ConsumeError>)
      modifies this`consumed, dir`log
      ensures r == Ok(true) ==>
        && id !in old(consumed) && id !in Ids(old(dir.log)) && |old(dir.log)| % RECORD_LEN == 0
        && dir.log == old(dir.log) + Record(id, now) && consumed == Ids(dir.log)
      ensures r == Ok(false) ==>
        && dir.log == old(dir.log) && id in consumed
        && (id in old(consumed) || id in Ids(dir.log))
      ensures r.Err? ==>
        && id !in consumed
        && old(dir.log) <= dir.log <= old(dir.log) + Record(id, now)
        && (dir.log != old(dir.log) ==> r == Err(WriteFailed) && id !in Ids(old(dir.log)))
      ensures id in old(consumed) ==> r == Ok(false) && consumed == old(consumed)
      ensures r == Err(LockTimeout) <==> id !in old(consumed) && !io.locks
      ensures r == Err(TornLog) <==> id !in old(consumed) && io.locks && |old(dir.log)| % RECORD_LEN != 0
      ensures r == Err(LockTimeout) || r == Err(TornLog) ==> dir.log == old(dir.log)
      ensures id !in old(consumed) && io.locks && |old(dir.log)| % RECORD_LEN == 0 && id !in Ids(old(dir.log)) ==>
        (r == Ok(true) <==> io.written >= RECORD_LEN && io.syncs)
    {
      hide Ids, Record;
      if id in consumed { return Ok(false); }
      if !io.locks { return Err(LockTimeout); }
      var loaded := Load(dir.log);
      if loaded == None { return Err(TornLog); }
      consumed := loaded.value;
      if id in consumed { return Ok(false); }
      var record := Record(id, now);
      assert record[..16] == id by { RecordStarts(id, now); }
      if io.written < RECORD_LEN {
        dir.log := dir.log + record[..io.written];
        return Err(WriteFailed);
      }
      IdsOfTail(dir.log, record);
      dir.log := dir.log + record;
      if !io.syncs { return Err(WriteFailed); }
      consumed := consumed + {id};
      return Ok(true);
    }

    // ---- Projection ------------------------------------------------------------------------

    method EffectiveMembers(now: nat) returns (ms: seq<Member>)
      ensures IsProjection(ViewOf(State()), now, ms)
    {
      ms := MembersOf(ViewOf(State()), now);
    }

    method IsMember(k: Key, now: nat) returns (r: bool)
      ensures r <==> Projection.IsMember(ViewOf(State()), now, k)
    {
      r := IsMemberAt(ViewOf(State()), k, now);
    }
  }

  // ---- Opening ---------------------------------------------------------------------------------

  /** Opens what a data directory holds, replaying it fact by fact. */
  method OpenRoster(c: Crypto, dir: DataDir, fabric: Bytes32) returns (r: Result<Roster, RosterError>)
    ensures dir.image.None? ==> r == Err(NotFound)
    ensures dir.image.Some? ==>
      match Open(c, fabric, dir.image.value, dir.log)
      case Err(e) => r == Err(Corrupted(e))
      case Ok(s) => r.Ok? && fresh(r.value) && r.value.Valid() && r.value.State() == s && r.value.dir == dir && r.value.consumed == Ids(dir.log)
  {
    hide Good, Typed, Insert, Magic, DecodeAllPrefix, Replay, Ids, Roster.Valid;
    if dir.image.None? { return Err(NotFound); }
    var b := dir.image.value;
    if |b| < HEADER_LEN + 4 + CHECKSUM_LEN { return Err(Corrupted(TooShort)); }
    if b[..8] != Magic() { return Err(Corrupted(BadMagic)); }
    if b[8..HEADER_LEN] != fabric { return Err(Corrupted(DirFabricMismatch(b[8..HEADER_LEN]))); }
    var end := |b| - CHECKSUM_LEN;
    if c.hash(b[..end]) != b[end..] { return Err(Corrupted(ChecksumMismatch)); }
    var dump := b[HEADER_LEN..end];
    var decoded := DecodeAllPrefixAt(c, dump);
    if decoded == None || decoded.value.1 != |dump| { return Err(Corrupted(BadDump)); }
    var fs := decoded.value.0;
    DecodedIsTyped(c, dump);
    if Load(dir.log) == None { return Err(Corrupted(TornInviteLog)); }
    var roster := new Roster.Empty(c, dir, fabric);
    for i := 0 to |fs|
      invariant fresh(roster) && roster.Valid() && roster.c == c && roster.dir == dir && roster.fabric == fabric && roster.consumed == Ids(dir.log)
      invariant Replay(c, Empty(fabric), fs) == Replay(c, roster.State(), fs[i..])
    {
      ReplayStep(c, roster.State(), fs, i);
      var o := roster.ValidateAndInsert(fs[i]);
      if o != Inserted { return Err(Corrupted(ReplayRefused)); }
    }
    ReplayEnd(c, roster.State(), fs);
    if roster.facts != map[] && roster.genesis.None? { return Err(Corrupted(NoGenesis)); }
    return Ok(roster);
  }

  lemma ReplayStep(c: Crypto, s: State, fs: seq<SignedFact>, i: nat)
    requires i < |fs|
    ensures Replay(c, s, fs[i..]) ==
      (if Insert(c, s, fs[i]).1 == Inserted then Replay(c, Insert(c, s, fs[i]).0, fs[i + 1..]) else None)
  {
    hide Insert;
    assert fs[i..][1..] == fs[i + 1..];
  }

  lemma ReplayEnd(c: Crypto, s: State, fs: seq<SignedFact>)
    ensures Replay(c, s, fs[|fs|..]) == Some(s)
  {
  }

  function Min(a: nat, b: nat): nat {
    if a < b then a else b
  }

  // ---- Local facts -----------------------------------------------------------------------------------

  /** An accepted or re-delivered fact is stored as delivered, and a refused one
      changes nothing. */
  lemma InsertStores(c: Crypto, s: State, sf: SignedFact)
    requires Good(c, s)
    ensures var (s', o) := Insert(c, s, sf);
      && (o.Quarantined? ==> s' == s)
      && (!o.Quarantined? ==> IdOf(c, sf.fact) in s'.facts && s'.facts[IdOf(c, sf.fact)] == sf)
      && s'.fabric == s.fabric && (s.root.Some? ==> s'.root == s.root)
  {
    hide IdOf, Verifies, ShapeOk;
    InsertKeeps(c, s, sf);
  }

  /** Something else is stored under the fact's id. */
  predicate OtherStored(c: Crypto, facts: map<FactId, SignedFact>, sf: SignedFact) {
    IdOf(c, sf.fact) in facts && facts[IdOf(c, sf.fact)] != sf
  }

  /** A fact the root builds and signs itself is refused only when something else is
      already stored under its id. */
  lemma LocalFactAccepted(c: Crypto, s: State, secret: Bytes32, f: Fact)
    requires Good(c, s) && SignVerifies(c)
    requires Representable(f) && f.fabric == s.fabric && f.issuer == c.publicKey(secret) && ShapeOk(f) && f.kind != FactKind.Genesis
    ensures var sf := Signed(c, secret, f);
      Insert(c, s, sf).1.Quarantined? <==> OtherStored(c, s.facts, sf)
  {
  }
}
