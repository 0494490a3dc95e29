/** What opening a data directory says of any image and log: which fault is reported, and
    which images open, told by the bytes and the facts alone. */
module ImageDamage {
  import opened Bytes
  import opened Facts
  import opened FactCodec
  import opened FactFrames
  import opened RosterState
  import opened RosterImage
  import InviteLog

  /** The image is long enough, and starts with the magic and the fabric id. */
  predicate HeadedBy(b: bytes, fabric: Bytes32) {
    |b| >= 76 && b[..8] == Ascii("DWEBRST1") && b[8..40] == fabric
  }

  predicate Checked(c: Crypto, b: bytes)
    requires |b| >= 76
  {
    c.hash(b[..|b| - 32]) == b[|b| - 32..]
  }

  lemma MagicIs()
    ensures Magic() == Ascii("DWEBRST1")
  {
  }

  /** A short image, a foreign file, another fabric's image and a damaged one are told
      apart, in this order. */
  lemma HeaderFaults(c: Crypto, fabric: Bytes32, b: bytes, log: bytes)
    ensures
      var r := Open(c, fabric, b, log);
      && (r == Err(TooShort) <==> |b| < 76)
      && (r == Err(BadMagic) <==> |b| >= 76 && b[..8] != Ascii("DWEBRST1"))
      && (r.Err? && r.error.DirFabricMismatch? <==> |b| >= 76 && b[..8] == Ascii("DWEBRST1") && b[8..40] != fabric)
      && (r.Err? && r.error.DirFabricMismatch? ==> r.error.stored == b[8..40])
      && (r == Err(ChecksumMismatch) <==> HeadedBy(b, fabric) && !Checked(c, b))
  {
    MagicIs();
    hide Magic, DecodeAll, Replay;
  }

  /** The dump is that of a list of well-typed facts, to the last byte. */
  ghost predicate Dumps(c: Crypto, body: bytes, fs: seq<SignedFact>) {
    AllSendable(c, fs) && |fs| < U32_MODULUS && EncodeAll(fs) == Some(body)
  }

  ghost predicate Dumpable(c: Crypto, body: bytes) {
    exists fs :: Dumps(c, body, fs)
  }

  lemma DumpRead(c: Crypto, body: bytes)
    ensures DecodeAll(c, body).Some? ==> Dumps(c, body, DecodeAll(c, body).value)
    ensures forall fs :: Dumps(c, body, fs) ==> DecodeAll(c, body) == Some(fs)
  {
    hide DecodeAllPrefix, Sendable, EncodeAll;
    if DecodeAll(c, body).Some? {
      var fs := DecodeAll(c, body).value;
      ListRead(c, body);
      WholeListRoundTripExactly(c, fs);
      assert EncodeAll(fs).value + [] == EncodeAll(fs).value;
    }
    forall fs | Dumps(c, body, fs)
      ensures DecodeAll(c, body) == Some(fs)
    {
      WholeListRoundTripExactly(c, fs);
    }
  }

  /** Each fact is acceptable, no id comes twice, and there is one Genesis at most. */
  ghost predicate Replayable(c: Crypto, fabric: Bytes32, fs: seq<SignedFact>) {
    && (forall i :: 0 <= i < |fs| ==> Acceptable(c, fabric, fs[i]))
    && (forall i, j :: 0 <= i < j < |fs| ==> IdOf(c, fs[i].fact) != IdOf(c, fs[j].fact))
    && (forall i, j :: 0 <= i < j < |fs| ==> fs[i].fact.kind != Genesis || fs[j].fact.kind != Genesis)
  }

  /** The same on top of a roster. */
  ghost predicate ReplayableOn(c: Crypto, s: State, fs: seq<SignedFact>) {
    && Replayable(c, s.fabric, fs)
    && (forall i :: 0 <= i < |fs| ==> IdOf(c, fs[i].fact) !in s.facts)
    && (forall i :: 0 <= i < |fs| ==> fs[i].fact.kind != Genesis || s.genesis == None)
  }

  lemma ReplayableHead(c: Crypto, s: State, fs: seq<SignedFact>)
    requires Good(c, s) && fs != []
    ensures ReplayableOn(c, s, fs)
       <==> Insert(c, s, fs[0]).1 == Inserted && ReplayableOn(c, Insert(c, s, fs[0]).0, fs[1..])
  {
    InsertOutcomes(c, s, fs[0]);
    GenesisAfter(c, s, fs[0]);
    hide Insert, Good, Acceptable, IdOf;
    var s1 := Insert(c, s, fs[0]).0;
    if ReplayableOn(c, s, fs) {
      assert forall i :: 0 <= i < |fs[1..]| ==> fs[1..][i] == fs[i + 1];
    }
    if Insert(c, s, fs[0]).1 == Inserted && ReplayableOn(c, s1, fs[1..]) {
      forall i | 1 <= i < |fs|
        ensures Acceptable(c, s.fabric, fs[i]) && IdOf(c, fs[i].fact) !in s1.facts
        ensures fs[i].fact.kind != Genesis || s1.genesis == None
      {
        assert fs[1..][i - 1] == fs[i];
      }
      forall i, j | 1 <= i < j < |fs|
        ensures IdOf(c, fs[i].fact) != IdOf(c, fs[j].fact)
        ensures fs[i].fact.kind != Genesis || fs[j].fact.kind != Genesis
      {
        assert fs[1..][i - 1] == fs[i] && fs[1..][j - 1] == fs[j];
      }
    }
  }

  lemma GenesisAfter(c: Crypto, s: State, sf: SignedFact)
    ensures
      var s' := Insert(c, s, sf).0;
      && s'.fabric == s.fabric
      && (s'.genesis == None <==> s.genesis == None && !(sf.fact.kind == Genesis && Insert(c, s, sf).1 == Inserted))
  {
    hide Verifies, ShapeOk, IdOf;
  }

  lemma {:induction false} ReplaysExactly(c: Crypto, s: State, fs: seq<SignedFact>)
    requires Good(c, s)
    ensures Replay(c, s, fs).Some? <==> ReplayableOn(c, s, fs)
    ensures Replay(c, s, fs).Some? ==>
      var t := Replay(c, s, fs).value;
      && (forall id :: id in t.facts <==> id in s.facts || exists i :: 0 <= i < |fs| && IdOf(c, fs[i].fact) == id)
      && (forall i :: 0 <= i < |fs| ==> IdOf(c, fs[i].fact) in t.facts && t.facts[IdOf(c, fs[i].fact)] == fs[i])
      && (forall id :: id in s.facts ==> t.facts[id] == s.facts[id])
      && (t.genesis == None <==> s.genesis == None && forall i :: 0 <= i < |fs| ==> fs[i].fact.kind != Genesis)
    decreases |fs|
  {
    hide Good, Insert, IdOf;
    if fs == [] {
      assert ReplayableOn(c, s, fs);
    } else {
      ReplayableHead(c, s, fs);
      InsertKeeps(c, s, fs[0]);
      InsertOutcomes(c, s, fs[0]);
      GenesisAfter(c, s, fs[0]);
      hide Replayable, ReplayableOn;
      var s1 := Insert(c, s, fs[0]).0;
      ReplaysExactly(c, s1, fs[1..]);
      if Replay(c, s, fs).Some? {
        ReplayMore(c, s, s1, fs, Replay(c, s, fs).value);
      }
    }
  }

  /** From what the tail of a replay gives to what the whole gives. */
  lemma ReplayMore(c: Crypto, s: State, s1: State, fs: seq<SignedFact>, t: State)
    requires fs != [] && s1.facts == s.facts[IdOf(c, fs[0].fact) := fs[0]] && IdOf(c, fs[0].fact) !in s.facts
    requires s1.genesis == None <==> s.genesis == None && fs[0].fact.kind != Genesis
    requires forall id :: id in t.facts <==> id in s1.facts || exists i :: 0 <= i < |fs[1..]| && IdOf(c, fs[1..][i].fact) == id
    requires forall i :: 0 <= i < |fs[1..]| ==> IdOf(c, fs[1..][i].fact) in t.facts && t.facts[IdOf(c, fs[1..][i].fact)] == fs[1..][i]
    requires forall id :: id in s1.facts ==> t.facts[id] == s1.facts[id]
    requires t.genesis == None <==> s1.genesis == None && forall i :: 0 <= i < |fs[1..]| ==> fs[1..][i].fact.kind != Genesis
    ensures forall id :: id in t.facts <==> id in s.facts || exists i :: 0 <= i < |fs| && IdOf(c, fs[i].fact) == id
    ensures forall i :: 0 <= i < |fs| ==> IdOf(c, fs[i].fact) in t.facts && t.facts[IdOf(c, fs[i].fact)] == fs[i]
    ensures forall id :: id in s.facts ==> t.facts[id] == s.facts[id]
    ensures t.genesis == None <==> s.genesis == None && forall i :: 0 <= i < |fs| ==> fs[i].fact.kind != Genesis
  {
    hide IdOf;
    forall i | 1 <= i < |fs|
      ensures fs[i] == fs[1..][i - 1]
    {
    }
    forall id | id in t.facts && id !in s.facts
      ensures exists i :: 0 <= i < |fs| && IdOf(c, fs[i].fact) == id
    {
      if id !in s1.facts {
        var i :| 0 <= i < |fs[1..]| && IdOf(c, fs[1..][i].fact) == id;
        assert IdOf(c, fs[i + 1].fact) == id;
      } else {
        assert IdOf(c, fs[0].fact) == id;
      }
    }
  }

  /** The roster's facts are those of the list, each under its id. */
  ghost predicate HoldsExactly(c: Crypto, s: State, fs: seq<SignedFact>) {
    && (forall i :: 0 <= i < |fs| ==> IdOf(c, fs[i].fact) in s.facts && s.facts[IdOf(c, fs[i].fact)] == fs[i])
    && (forall id :: id in s.facts ==> exists i :: 0 <= i < |fs| && IdOf(c, fs[i].fact) == id)
  }

  /** A replay into an empty roster. */
  lemma ReplaysAfresh(c: Crypto, fabric: Bytes32, fs: seq<SignedFact>)
    ensures Replay(c, Empty(fabric), fs).Some? <==> Replayable(c, fabric, fs)
    ensures Replay(c, Empty(fabric), fs).Some? ==>
      var t := Replay(c, Empty(fabric), fs).value;
      && HoldsExactly(c, t, fs)
      && (t.genesis == None <==> forall i :: 0 <= i < |fs| ==> fs[i].fact.kind != Genesis)
      && (t.facts == map[] <==> fs == [])
  {
    EmptyIsGood(c, fabric);
    ReplaysExactly(c, Empty(fabric), fs);
    hide Replay, Replayable, Good, IdOf;
    if fs != [] && Replay(c, Empty(fabric), fs).Some? {
      assert IdOf(c, fs[0].fact) in Replay(c, Empty(fabric), fs).value.facts;
    }
  }

  /** Of an image with its header and checksum in order, the dump is refused exactly when
      it is that of no list of facts. */
  lemma DumpRefused(c: Crypto, fabric: Bytes32, b: bytes, log: bytes)
    requires HeadedBy(b, fabric) && Checked(c, b)
    ensures Open(c, fabric, b, log) == Err(BadDump) <==> !Dumpable(c, b[40..|b| - 32])
  {
    OpensDump(c, fabric, b, log);
    DumpRead(c, b[40..|b| - 32]);
    hide Open, DecodeAll, Replay, Dumps, InviteLog.Load;
  }

  /** Of an image that holds a list of facts: a torn log, facts that do not replay and a
      roster without a Genesis are told apart, and every other image opens with exactly
      the facts it holds. */
  lemma DumpOpens(c: Crypto, fabric: Bytes32, b: bytes, log: bytes, fs: seq<SignedFact>)
    requires HeadedBy(b, fabric) && Checked(c, b) && Dumps(c, b[40..|b| - 32], fs)
    ensures
      var r := Open(c, fabric, b, log);
      && (r == Err(TornInviteLog) <==> |log| % 24 != 0)
      && (r == Err(ReplayRefused) <==> |log| % 24 == 0 && !Replayable(c, fabric, fs))
      && (r == Err(NoGenesis) <==>
            && |log| % 24 == 0 && Replayable(c, fabric, fs) && fs != []
            && forall i :: 0 <= i < |fs| ==> fs[i].fact.kind != Genesis)
      && (r.Ok? ==> HoldsExactly(c, r.value, fs))
      && (r.Ok? <==>
            && |log| % 24 == 0 && Replayable(c, fabric, fs)
            && (fs == [] || exists i :: 0 <= i < |fs| && fs[i].fact.kind == Genesis))
  {
    OpensDump(c, fabric, b, log);
    DumpRead(c, b[40..|b| - 32]);
    ReplaysAfresh(c, fabric, fs);
    hide Open, DecodeAll, Replay, Dumps, Replayable, HoldsExactly, InviteLog.Ids;
  }

  lemma OpensDump(c: Crypto, fabric: Bytes32, b: bytes, log: bytes)
    requires HeadedBy(b, fabric) && Checked(c, b)
    ensures Open(c, fabric, b, log) ==
      match DecodeAll(c, b[40..|b| - 32])
      case None => Err(BadDump)
      case Some(fs) =>
        if InviteLog.Load(log).None? then Err(TornInviteLog)
        else
          match Replay(c, Empty(fabric), fs)
          case None => Err(ReplayRefused)
          case Some(s) => if s.facts != map[] && s.genesis.None? then Err(NoGenesis) else Ok(s)
  {
    MagicIs();
    hide Magic, DecodeAll, Replay, InviteLog.Load;
  }
}
