/** The persisted image of a roster and its strict replay. */
module RosterImage {
  import opened Bytes
  import opened Facts
  import opened FactCodec
  import opened FactFrames
  import opened RosterState
  import opened KeyOrder
  import InviteLog

  // "DWEBRST1"
  function Magic(): (b: bytes)
    ensures |b| == 8
  {
    [0x44, 0x57, 0x45, 0x42, 0x52, 0x53, 0x54, 0x31]
  }

  const HEADER_LEN: nat := 40
  const CHECKSUM_LEN: nat := 32

  datatype OpenError =
    | TooShort
    | BadMagic
    | DirFabricMismatch(stored: Bytes32)
    | ChecksumMismatch
    | BadDump
    | TornInviteLog
    | ReplayRefused
    | NoGenesis

  function FactsAt(m: map<FactId, SignedFact>, ids: seq<FactId>): (fs: seq<SignedFact>)
    requires forall i :: 0 <= i < |ids| ==> ids[i] in m
    ensures |fs| == |ids|
    ensures forall i :: 0 <= i < |ids| ==> fs[i] == m[ids[i]]
  {
    if ids == [] then [] else [m[ids[0]]] + FactsAt(m, ids[1..])
  }

  ghost function SortedFacts(m: map<FactId, SignedFact>): (fs: seq<SignedFact>)
    ensures |fs| == |m|
    ensures forall i :: 0 <= i < |fs| ==> fs[i] in m.Values
  {
    assert |m| == |m.Keys|;
    FactsAt(m, SortedIds(m.Keys))
  }

  /** Iterating a `BTreeMap`'s values. */
  method FactsInOrder(m: map<FactId, SignedFact>) returns (fs: seq<SignedFact>)
    ensures fs == SortedFacts(m)
  {
    hide SortedIds;
    var ids := InOrder(m.Keys);
    assert forall i :: 0 <= i < |ids| ==> ids[i] in ids;
    fs := FactsAt(m, ids);
  }

  // ---- The image --------------------------------------------------------------------

  function Sealed(c: Crypto, fabric: Bytes32, body: bytes): bytes {
    Magic() + fabric + body + c.hash(Magic() + fabric + body)
  }

  ghost function Image(c: Crypto, s: State): Option<bytes> {
    match EncodeAll(SortedFacts(s.facts))
    case None => None
    case Some(body) => Some(Sealed(c, s.fabric, body))
  }

  /** Every stored fact must insert afresh. */
  function Replay(c: Crypto, s: State, fs: seq<SignedFact>): Option<State>
    decreases |fs|
  {
    if fs == [] then Some(s)
    else
      var (s1, o) := Insert(c, s, fs[0]);
      if o == Inserted then Replay(c, s1, fs[1..]) else None
  }

  /** `decode_persisted`: the image, and with it the log of consumed invites that every
      roster loads, must be whole. */
  function Open(c: Crypto, fabric: Bytes32, b: bytes, log: bytes): Result<State, OpenError> {
    if |b| < HEADER_LEN + 4 + CHECKSUM_LEN then Err(TooShort)
    else if b[..8] != Magic() then Err(BadMagic)
    else if b[8..HEADER_LEN] != fabric then Err(DirFabricMismatch(b[8..HEADER_LEN]))
    else
      var end := |b| - CHECKSUM_LEN;
      if c.hash(b[..end]) != b[end..] then Err(ChecksumMismatch)
      else
        match DecodeAll(c, b[HEADER_LEN..end])
        case None => Err(BadDump)
        case Some(fs) =>
          if InviteLog.Load(log).None? then Err(TornInviteLog)
          else
            match Replay(c, Empty(fabric), fs)
            case None => Err(ReplayRefused)
            case Some(s) => if s.facts != map[] && s.genesis.None? then Err(NoGenesis) else Ok(s)
  }

  // ---- Round trip ---------------------------------------------------------------------

  /** The fields of stored facts are of Rust's types. */
  ghost predicate Typed(c: Crypto, s: State) {
    forall id :: id in s.facts ==> WellTyped(c, s.facts[id].fact)
  }

  lemma SealedFields(c: Crypto, fabric: Bytes32, body: bytes)
    ensures var b := Sealed(c, fabric, body);
      var end := |b| - CHECKSUM_LEN;
      && |b| == HEADER_LEN + |body| + CHECKSUM_LEN
      && b[..8] == Magic() && b[8..HEADER_LEN] == fabric
      && b[HEADER_LEN..end] == body
      && b[end..] == c.hash(b[..end])
  {
    hide Magic;
    var b := Sealed(c, fabric, body);
    var end := |b| - CHECKSUM_LEN;
    assert b[..end] == Magic() + fabric + body;
    assert b[..8] == Magic();
  }

  lemma GoodIsSendable(c: Crypto, s: State)
    requires Good(c, s) && Typed(c, s)
    ensures AllSendable(c, SortedFacts(s.facts))
  {
    hide IdOf, WellTyped, Canonical, SortedFacts;
    var fs := SortedFacts(s.facts);
    forall i | 0 <= i < |fs| ensures Sendable(c, fs[i]) {
      assert fs[i] in s.facts.Values;
    }
  }

  ghost predicate Part(c: Crypto, acc: State, s: State) {
    && Good(c, acc) && acc.fabric == s.fabric
    && (forall id :: id in acc.facts ==> id in s.facts && acc.facts[id] == s.facts[id])
  }

  lemma WholePart(c: Crypto, acc: State, s: State)
    requires Good(c, s) && Part(c, acc, s) && acc.facts.Keys == s.facts.Keys
    ensures acc == s
  {
    hide IdOf, Acceptable;
    assert acc.facts == s.facts;
  }

  lemma PartGrows(c: Crypto, acc: State, s: State, id: FactId)
    requires Good(c, s) && Part(c, acc, s) && id in s.facts && id !in acc.facts
    ensures var (acc', o) := Insert(c, acc, s.facts[id]);
      o == Inserted && Part(c, acc', s) && acc'.facts.Keys == acc.facts.Keys + {id}
  {
    hide IdOf, Verifies, ShapeOk;
    InsertKeeps(c, acc, s.facts[id]);
    if acc.genesis.Some? {
      assert s.facts[acc.genesis.value].fact.kind == Genesis;
    }
    InsertOutcomes(c, acc, s.facts[id]);
  }

  lemma {:induction false} ReplayRestores(c: Crypto, acc: State, s: State, ids: seq<FactId>)
    requires Good(c, s) && Part(c, acc, s)
    requires forall i :: 0 <= i < |ids| ==> ids[i] in s.facts && ids[i] !in acc.facts
    requires Increasing(ids)
    requires forall id :: id in s.facts ==> id in acc.facts || id in ids
    ensures Replay(c, acc, FactsAt(s.facts, ids)) == Some(s)
    decreases |ids|
  {
    hide Good, Insert, Part;
    if ids == [] {
      assert acc.facts.Keys == s.facts.Keys by { PartIsWithin(c, acc, s); }
      WholePart(c, acc, s);
    } else {
      PartGrows(c, acc, s, ids[0]);
      var acc1 := Insert(c, acc, s.facts[ids[0]]).0;
      assert forall i :: 1 <= i < |ids| ==> Before(ids[0], ids[i]);
      ReplayRestores(c, acc1, s, ids[1..]);
      assert FactsAt(s.facts, ids)[1..] == FactsAt(s.facts, ids[1..]);
    }
  }

  lemma PartIsWithin(c: Crypto, acc: State, s: State)
    requires Part(c, acc, s)
    ensures acc.facts.Keys <= s.facts.Keys
  {
  }

  lemma EmptyIsPart(c: Crypto, s: State)
    ensures Part(c, Empty(s.fabric), s)
  {
  }

  /** Replaying the stored facts in id order inserts every one of them and gives
      back the facts, the Genesis id, the root and the fabric. */
  lemma ReplayOfStored(c: Crypto, s: State)
    requires Good(c, s)
    ensures Replay(c, Empty(s.fabric), SortedFacts(s.facts)) == Some(s)
  {
    hide Good, Insert, Increasing;
    var ids := SortedIds(s.facts.Keys);
    SortedIdsIncrease(s.facts.Keys);
    EmptyIsPart(c, s);
    assert forall i :: 0 <= i < |ids| ==> ids[i] in ids;
    ReplayRestores(c, Empty(s.fabric), s, ids);
  }

  /** What was persisted opens as the same roster exactly when it has a root or is
      empty, holds fewer than 2^32 facts, and the log of consumed invites beside it is
      whole. */
  lemma OpensExactly(c: Crypto, s: State, log: bytes)
    requires Good(c, s) && Typed(c, s)
    ensures Image(c, s).Some?
    ensures Open(c, s.fabric, Image(c, s).value, log) == Ok(s)
            <==> (s.root.Some? || s.facts == map[]) && |s.facts| < U32_MODULUS && InviteLog.Load(log).Some?
  {
    hide SortedFacts, Replay, DecodeAll, Sealed, Typed, Magic, InviteLog.Ids;
    var fs := SortedFacts(s.facts);
    GoodIsSendable(c, s);
    WholeListRoundTripExactly(c, fs);
    var body := EncodeAll(fs).value;
    SealedFields(c, s.fabric, body);
    assert |body| >= 4;
    ReplayOfStored(c, s);
    if |s.facts| >= U32_MODULUS && Open(c, s.fabric, Image(c, s).value, log) == Ok(s) {
      var got := DecodeAll(c, body).value;
      DecodedIsShorter(c, fs);
      ReplayCounts(c, Empty(s.fabric), got);
      assert false;
    }
  }

  /** Beside a torn log nothing opens, and an intact image is refused for the log alone. */
  lemma TornLogOpensNothing(c: Crypto, s: State, fabric: Bytes32, b: bytes, log: bytes)
    requires |log| % InviteLog.RECORD_LEN != 0
    ensures Open(c, fabric, b, log).Err?
    ensures Good(c, s) && Typed(c, s) && |s.facts| < U32_MODULUS ==>
      Image(c, s).Some? && Open(c, s.fabric, Image(c, s).value, log) == Err(TornInviteLog)
  {
    hide SortedFacts, Replay, DecodeAll, Sealed, Typed, Magic, Good;
    if Good(c, s) && Typed(c, s) && |s.facts| < U32_MODULUS {
      var fs := SortedFacts(s.facts);
      GoodIsSendable(c, s);
      WholeListRoundTripExactly(c, fs);
      SealedFields(c, s.fabric, EncodeAll(fs).value);
    }
  }

  /** A dump of 2^32 facts or more decodes to nothing. */
  lemma DecodedIsShorter(c: Crypto, fs: seq<SignedFact>)
    requires AllSendable(c, fs) && |fs| >= U32_MODULUS
    ensures EncodeAll(fs).Some?
    ensures DecodeAll(c, EncodeAll(fs).value).Some? ==> |DecodeAll(c, EncodeAll(fs).value).value| < U32_MODULUS
  {
    hide Sendable, WriteMany, U32Bytes, TakeU32, ParseMany;
    SendableIsRepresentable(c, fs);
    if DecodeAll(c, EncodeAll(fs).value).Some? {
      ListRead(c, EncodeAll(fs).value);
    }
  }

  lemma {:induction false} ReplayCounts(c: Crypto, s: State, fs: seq<SignedFact>)
    requires Replay(c, s, fs).Some?
    ensures |Replay(c, s, fs).value.facts| == |s.facts| + |fs|
    decreases |fs|
  {
    hide Verifies, ShapeOk, IdOf;
    if fs != [] {
      var s1 := Insert(c, s, fs[0]).0;
      assert s1.facts.Keys == s.facts.Keys + {IdOf(c, fs[0].fact)};
      ReplayCounts(c, s1, fs[1..]);
    }
  }

  /** Whatever opens is a good roster of the requested fabric, with a root unless it
      is empty. */
  lemma OpenedIsGood(c: Crypto, fabric: Bytes32, b: bytes, log: bytes)
    requires Open(c, fabric, b, log).Ok?
    ensures var s := Open(c, fabric, b, log).value;
      Good(c, s) && Typed(c, s) && s.fabric == fabric && (s.root.Some? || s.facts == map[])
  {
    hide DecodeAll, Good, Insert;
    var fs := DecodeAll(c, b[HEADER_LEN..|b| - CHECKSUM_LEN]).value;
    EmptyIsGood(c, fabric);
    DecodedIsTyped(c, b[HEADER_LEN..|b| - CHECKSUM_LEN]);
    ReplayIsGood(c, Empty(fabric), fs);
    GenesisIffRoot(c, Open(c, fabric, b, log).value);
  }

  lemma EmptyIsGood(c: Crypto, fabric: Bytes32)
    ensures Good(c, Empty(fabric)) && Typed(c, Empty(fabric))
  {
  }

  lemma GenesisIffRoot(c: Crypto, s: State)
    requires Good(c, s)
    ensures s.genesis.Some? <==> s.root.Some?
  {
  }

  lemma DecodedIsTyped(c: Crypto, b: bytes)
    requires DecodeAll(c, b).Some?
    ensures forall i :: 0 <= i < |DecodeAll(c, b).value| ==> WellTyped(c, DecodeAll(c, b).value[i].fact)
  {
    ListRead(c, b);
  }

  lemma TypedKept(c: Crypto, s: State, sf: SignedFact)
    requires Typed(c, s) && WellTyped(c, sf.fact)
    ensures Typed(c, Insert(c, s, sf).0)
  {
    hide IdOf, Verifies, ShapeOk, WellTyped;
  }

  lemma {:induction false} ReplayIsGood(c: Crypto, s: State, fs: seq<SignedFact>)
    requires Good(c, s) && Typed(c, s) && Replay(c, s, fs).Some?
    requires forall i :: 0 <= i < |fs| ==> WellTyped(c, fs[i].fact)
    ensures var r := Replay(c, s, fs).value; Good(c, r) && Typed(c, r) && r.fabric == s.fabric
    decreases |fs|
  {
    hide Good, Insert, Typed, WellTyped;
    if fs != [] {
      InsertKeeps(c, s, fs[0]);
      TypedKept(c, s, fs[0]);
      ReplayIsGood(c, Insert(c, s, fs[0]).0, fs[1..]);
    }
  }

  /** An intact image of one fabric is refused as another's, not as corrupted. */
  lemma ImageOfOtherFabric(c: Crypto, s: State, other: Bytes32, log: bytes)
    requires Good(c, s) && Typed(c, s) && other != s.fabric
    ensures Image(c, s).Some? && Open(c, other, Image(c, s).value, log) == Err(DirFabricMismatch(s.fabric))
  {
    hide SortedFacts, Replay, DecodeAll, Sealed, Typed, Magic;
    var fs := SortedFacts(s.facts);
    GoodIsSendable(c, s);
    WholeListRoundTripExactly(c, fs);
    SealedFields(c, s.fabric, EncodeAll(fs).value);
  }
}
