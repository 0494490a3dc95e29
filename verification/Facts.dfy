/** Membership facts, their signatures and the abstract cryptography. */
module Facts {
  import opened Bytes

  type Key = Bytes32
  type FactId = Bytes32
  type Signature = Bytes64

  /** Ed25519 and BLAKE3 as uninterpreted functions. `validKey` is
      `EndpointId::from_bytes` succeeding. */
  datatype Crypto = Crypto(
    validKey: bytes -> bool,
    verify: (Key, bytes, Signature) -> bool,
    publicKey: Bytes32 -> Key,
    sign: (Bytes32, bytes) -> Signature,
    hash: bytes -> Bytes32)

  /** Signing with a secret verifies under its public key. */
  ghost predicate SignVerifies(c: Crypto) {
    && (forall s: Bytes32 :: c.validKey(c.publicKey(s)))
    && (forall s: Bytes32, m: bytes :: c.verify(c.publicKey(s), m, c.sign(s, m)))
  }

  datatype FactKind = Genesis | Grant | Join | Revoke

  datatype Fact = Fact(
    kind: FactKind,
    fabric: Bytes32,
    issuer: Key,
    subject: Key,
    name: Option<bytes>,
    issuedAt: u64,
    expiresAt: Option<u64>,
    target: Option<FactId>)

  datatype SignedFact = SignedFact(fact: Fact, signature: Signature)

  const MAX_NAME_BYTES: nat := 512

  /** What Rust's types guarantee of any `Fact`: keys are curve points and the
      display name is UTF-8. */
  predicate WellTyped(c: Crypto, f: Fact) {
    && c.validKey(f.issuer)
    && c.validKey(f.subject)
    && (f.name.Some? ==> Utf8(f.name.value))
  }

  /** `canonical_bytes` succeeds exactly on these. */
  predicate Representable(f: Fact) {
    f.name.Some? ==> |f.name.value| <= MAX_NAME_BYTES
  }

  predicate ValidAt(f: Fact, now: nat) {
    f.expiresAt.Some? ==> now < f.expiresAt.value
  }
}

/** The canonical fact layout and the self-delimiting signed-fact frames. */
module FactCodec {
  import opened Bytes
  import opened Facts

  // "dweb/fact/v1" and a NUL
  function FactDomain(): (b: bytes)
    ensures |b| == 13
  {
    [0x64, 0x77, 0x65, 0x62, 0x2f, 0x66, 0x61, 0x63, 0x74, 0x2f, 0x76, 0x31, 0x00]
  }

  // "dweb/fact-unrepresentable/v1" and a NUL
  const UNREPRESENTABLE: bytes := [0x64, 0x77, 0x65, 0x62, 0x2f, 0x66, 0x61, 0x63, 0x74, 0x2d, 0x75, 0x6e, 0x72, 0x65, 0x70, 0x72,
    0x65, 0x73, 0x65, 0x6e, 0x74, 0x61, 0x62, 0x6c, 0x65, 0x2f, 0x76, 0x31, 0x00]
  const FACT_FIXED_LEN: nat := 119
  const SIGNATURE_LEN: nat := 64

  function KindByte(k: FactKind): byte {
    match k case Genesis => 1 case Grant => 2 case Join => 3 case Revoke => 4
  }

  function KindOf(b: byte): Option<FactKind> {
    if b == 1 then Some(Genesis)
    else if b == 2 then Some(Grant)
    else if b == 3 then Some(Join)
    else if b == 4 then Some(Revoke)
    else None
  }

  function Flag<T>(o: Option<T>): byte {
    if o.Some? then 1 else 0
  }

  function Flags(f: Fact): (b: byte)
    ensures b < 8
    ensures (b % 2 == 1) == f.name.Some?
    ensures (b / 2 % 2 == 1) == f.expiresAt.Some?
    ensures (b / 4 == 1) == f.target.Some?
  {
    Flag(f.name) + 2 * Flag(f.expiresAt) + 4 * Flag(f.target)
  }

  // ---- Encoding ---------------------------------------------------------------

  function FixedPart(f: Fact): (b: bytes)
    ensures |b| == FACT_FIXED_LEN
  {
    FactDomain() + [KindByte(f.kind)] + f.fabric + f.issuer + f.subject + U64Bytes(f.issuedAt) + [Flags(f)]
  }

  function NamePart(n: Option<bytes>): bytes {
    if n.Some? then String16(n.value) else []
  }

  function ExpiryPart(e: Option<u64>): bytes {
    if e.Some? then U64Bytes(e.value) else []
  }

  function TargetPart(t: Option<FactId>): bytes {
    if t.Some? then t.value else []
  }

  /** The three optional fields, in wire order. */
  datatype Optionals = Optionals(name: Option<bytes>, expiresAt: Option<u64>, target: Option<FactId>)

  function OptionalsOf(f: Fact): Optionals {
    Optionals(f.name, f.expiresAt, f.target)
  }

  function OptionalPart(o: Optionals): bytes {
    NamePart(o.name) + (ExpiryPart(o.expiresAt) + TargetPart(o.target))
  }

  /** `canonical_bytes` gives this for a representable fact and an error otherwise. */
  function Canonical(f: Fact): (b: bytes)
    ensures FACT_FIXED_LEN <= |b|
    ensures Representable(f) ==> |b| <= FACT_FIXED_LEN + 2 + MAX_NAME_BYTES + 8 + 32
  {
    FixedPart(f) + OptionalPart(OptionalsOf(f))
  }

  function IdOf(c: Crypto, f: Fact): FactId {
    if Representable(f) then c.hash(Canonical(f)) else c.hash(UNREPRESENTABLE)
  }

  predicate Verifies(c: Crypto, sf: SignedFact) {
    Representable(sf.fact) && c.verify(sf.fact.issuer, Canonical(sf.fact), sf.signature)
  }

  // ---- Strict parsing: the grammar --------------------------------------------

  function ParseName(b: bytes, present: bool): (r: Parsed<Option<bytes>>)
    ensures r.Got? ==> r.value.Some? == present
    ensures r.Got? && present ==> |r.value.value| <= MAX_NAME_BYTES && Utf8(r.value.value)
    ensures r.Got? ==> b == NamePart(r.value) + r.rest
  {
    if !present then Got(None, b)
    else
      match TakeString16(b, MAX_NAME_BYTES)
      case Fail => Fail
      case Got(v, rest) => if Utf8(v) then Got(Some(v), rest) else Fail
  }

  function ParseExpiry(b: bytes, present: bool): (r: Parsed<Option<u64>>)
    ensures r.Got? ==> r.value.Some? == present
    ensures r.Got? ==> b == ExpiryPart(r.value) + r.rest
  {
    if !present then Got(None, b)
    else
      match TakeU64(b)
      case Fail => Fail
      case Got(v, rest) => Got(Some(v), rest)
  }

  function ParseTarget(b: bytes, present: bool): (r: Parsed<Option<FactId>>)
    ensures r.Got? ==> r.value.Some? == present
    ensures r.Got? ==> b == TargetPart(r.value) + r.rest
  {
    if !present then Got(None, b)
    else
      match Take(b, 32)
      case Fail => Fail
      case Got(v, rest) => Got(Some(v), rest)
  }

  function ParseOptionals(b: bytes, flags: byte): Parsed<Optionals>
    requires flags < 8
  {
    match ParseName(b, flags % 2 == 1)
    case Fail => Fail
    case Got(name, b1) =>
      match ParseExpiry(b1, flags / 2 % 2 == 1)
      case Fail => Fail
      case Got(expiresAt, b2) =>
        match ParseTarget(b2, flags / 4 == 1)
        case Fail => Fail
        case Got(target, b3) =>
          Got(Optionals(name, expiresAt, target), b3)
  }

  predicate FixedPartOk(c: Crypto, b: bytes)
    requires |b| >= FACT_FIXED_LEN
  {
    && b[..13] == FactDomain()
    && KindOf(b[13]).Some?
    && c.validKey(b[46..78])
    && c.validKey(b[78..110])
    && b[118] < 8
  }

  /** One canonical fact off the front of `b`. */
  function ParseFact(c: Crypto, b: bytes): Parsed<Fact> {
    if |b| < FACT_FIXED_LEN || !FixedPartOk(c, b) then Fail
    else
      match ParseOptionals(b[FACT_FIXED_LEN..], b[118])
      case Fail => Fail
      case Got(o, rest) =>
        Got(Fact(KindOf(b[13]).value, b[14..46], b[46..78], b[78..110], o.name,
                 U64Of(b[110..118]), o.expiresAt, o.target), rest)
  }

  // ---- The parser is the inverse of the encoder -------------------------------

  lemma FixedPartFields(f: Fact, tail: bytes)
    ensures var b := FixedPart(f) + tail;
      && b[..13] == FactDomain() && b[13] == KindByte(f.kind) && b[14..46] == f.fabric
      && b[46..78] == f.issuer && b[78..110] == f.subject && U64Of(b[110..118]) == f.issuedAt
      && b[118] == Flags(f) && b[119..] == tail
  {
    hide FactDomain, U64Bytes, U64Of, Flags;
    var b := FixedPart(f) + tail;
    U64RoundTrip(f.issuedAt, U64Bytes(0));
    assert b[..13] == FactDomain();
    assert b[14..46] == f.fabric;
    assert b[46..78] == f.issuer;
    assert b[78..110] == f.subject;
    assert b[110..118] == U64Bytes(f.issuedAt);
    assert b[119..] == tail;
  }

  lemma ParseNameWritten(n: Option<bytes>, tail: bytes)
    requires n.Some? ==> |n.value| <= MAX_NAME_BYTES && Utf8(n.value)
    ensures ParseName(NamePart(n) + tail, n.Some?) == Got(n, tail)
  {
    if n.Some? {
      TakeString16Written(n.value, MAX_NAME_BYTES, tail);
    } else {
      assert [] + tail == tail;
    }
  }

  lemma ParseExpiryWritten(e: Option<u64>, tail: bytes)
    ensures ParseExpiry(ExpiryPart(e) + tail, e.Some?) == Got(e, tail)
  {
    if e.Some? {
      TakeU64Written(e.value, tail);
    } else {
      assert [] + tail == tail;
    }
  }

  lemma ParseTargetWritten(t: Option<FactId>, tail: bytes)
    ensures ParseTarget(TargetPart(t) + tail, t.Some?) == Got(t, tail)
  {
    if t.Some? {
      TakeWritten(t.value, tail);
    } else {
      assert [] + tail == tail;
    }
  }

  lemma ParseOptionalsWritten(o: Optionals, tail: bytes)
    requires o.name.Some? ==> |o.name.value| <= MAX_NAME_BYTES && Utf8(o.name.value)
    ensures ParseOptionals(OptionalPart(o) + tail, Flag(o.name) + 2 * Flag(o.expiresAt) + 4 * Flag(o.target)) == Got(o, tail)
  {
    hide U16Bytes, U64Bytes, Utf8, ParseName, ParseExpiry, ParseTarget, NamePart, ExpiryPart, TargetPart;
    var t3 := TargetPart(o.target) + tail;
    var t2 := ExpiryPart(o.expiresAt) + t3;
    var t1 := NamePart(o.name) + t2;
    Assoc(ExpiryPart(o.expiresAt), TargetPart(o.target), tail);
    Assoc(NamePart(o.name), ExpiryPart(o.expiresAt) + TargetPart(o.target), tail);
    ParseNameWritten(o.name, t2);
    ParseExpiryWritten(o.expiresAt, t3);
    ParseTargetWritten(o.target, tail);
  }

  /** Whatever the encoder writes, the parser reads back, leaving the tail. */
  lemma ParseWritten(c: Crypto, f: Fact, tail: bytes)
    requires WellTyped(c, f) && Representable(f)
    ensures ParseFact(c, Canonical(f) + tail) == Got(f, tail)
  {
    hide OptionalPart, ParseOptionals, FixedPart, U64Of;
    var t1 := OptionalPart(OptionalsOf(f)) + tail;
    Assoc(FixedPart(f), OptionalPart(OptionalsOf(f)), tail);
    FixedPartFields(f, t1);
    ParseOptionalsWritten(OptionalsOf(f), tail);
  }

  lemma ParsedOptionals(b: bytes, flags: byte)
    requires flags < 8 && ParseOptionals(b, flags).Got?
    ensures var r := ParseOptionals(b, flags);
      && b == OptionalPart(r.value) + r.rest
      && (r.value.name.Some? ==> |r.value.name.value| <= MAX_NAME_BYTES && Utf8(r.value.name.value))
      && flags == Flag(r.value.name) + 2 * Flag(r.value.expiresAt) + 4 * Flag(r.value.target)
  {
    hide U16Bytes, U64Bytes, Utf8, ParseName, ParseExpiry, ParseTarget, NamePart, ExpiryPart, TargetPart;
    var r := ParseOptionals(b, flags);
    Assoc(ExpiryPart(r.value.expiresAt), TargetPart(r.value.target), r.rest);
    Assoc(NamePart(r.value.name), ExpiryPart(r.value.expiresAt) + TargetPart(r.value.target), r.rest);
  }

  lemma FixedPartRead(c: Crypto, b: bytes, f: Fact)
    requires |b| >= FACT_FIXED_LEN && FixedPartOk(c, b)
    requires f.kind == KindOf(b[13]).value && f.fabric == b[14..46] && f.issuer == b[46..78] && f.subject == b[78..110]
    requires f.issuedAt == U64Of(b[110..118]) && Flags(f) == b[118]
    ensures FixedPart(f) == b[..FACT_FIXED_LEN]
  {
    hide FactDomain, U64Bytes, U64Of, Flags;
    U64RoundTrip(0, b[110..118]);
    assert b[..119] == b[..13] + [b[13]] + b[14..46] + b[46..78] + b[78..110] + b[110..118] + [b[118]];
  }

  /** Whatever the parser accepts is exactly the encoding of what it returns. */
  lemma ParsedIsCanonical(c: Crypto, b: bytes)
    requires ParseFact(c, b).Got?
    ensures var r := ParseFact(c, b);
      WellTyped(c, r.value) && Representable(r.value) && b == Canonical(r.value) + r.rest
  {
    hide OptionalPart, ParseOptionals, FixedPart, U64Of;
    var r := ParseFact(c, b);
    ParsedOptionals(b[FACT_FIXED_LEN..], b[118]);
    FixedPartRead(c, b, r.value);
    SplitAt(b, FACT_FIXED_LEN);
    Assoc(FixedPart(r.value), OptionalPart(OptionalsOf(r.value)), r.rest);
  }

  /** Two facts with one encoding are the same fact. */
  lemma CanonicalInjective(c: Crypto, f: Fact, g: Fact)
    requires WellTyped(c, f) && Representable(f) && WellTyped(c, g) && Representable(g)
    requires Canonical(f) == Canonical(g)
    ensures f == g
  {
    ParseWritten(c, f, []);
    ParseWritten(c, g, []);
  }

  /** Strict form: exactly one canonical fact, no trailing bytes. */
  function DecodeStrict(c: Crypto, b: bytes): Option<Fact> {
    match ParseFact(c, b)
    case Fail => None
    case Got(f, rest) => if rest == [] then Some(f) else None
  }

  lemma DecodeStrictInverse(c: Crypto, f: Fact, b: bytes)
    ensures DecodeStrict(c, b) == Some(f) <==> WellTyped(c, f) && Representable(f) && Canonical(f) == b
  {
    hide ParseFact, Canonical, WellTyped;
    if DecodeStrict(c, b) == Some(f) {
      ParsedIsCanonical(c, b);
      assert Canonical(f) + [] == Canonical(f);
    }
    if WellTyped(c, f) && Representable(f) && Canonical(f) == b {
      ParseWritten(c, f, []);
      assert b + [] == b;
    }
  }

  // ---- Strict parsing: the code -----------------------------------------------

  method ReadName(b: bytes, start: nat, present: bool) returns (ok: bool, name: Option<bytes>, off: nat)
    requires start <= |b|
    ensures off <= |b|
    ensures ParseName(b[start..], present) == if ok then Got(name, b[off..]) else Fail
  {
    off := start;
    name := None;
    if present {
      if |b| < off + 2 { return false, None, off; }
      var nameLen := U16Of(b[off..off + 2]);
      assert b[start..][..2] == b[off..off + 2] && b[start..][2..] == b[off + 2..];
      off := off + 2;
      if nameLen > MAX_NAME_BYTES { return false, None, off; }
      if |b| < off + nameLen { return false, None, off; }
      var bs := b[off..off + nameLen];
      assert b[off..][..nameLen] == bs && b[off..][nameLen..] == b[off + nameLen..];
      if !Utf8(bs) { return false, None, off; }
      off := off + nameLen;
      name := Some(bs);
    }
    ok := true;
  }

  method ReadExpiry(b: bytes, start: nat, present: bool) returns (ok: bool, expiresAt: Option<u64>, off: nat)
    requires start <= |b|
    ensures off <= |b|
    ensures ParseExpiry(b[start..], present) == if ok then Got(expiresAt, b[off..]) else Fail
  {
    hide U64Of;
    off := start;
    expiresAt := None;
    if present {
      if |b| < off + 8 { return false, None, off; }
      assert b[off..][..8] == b[off..off + 8] && b[off..][8..] == b[off + 8..];
      expiresAt := Some(U64Of(b[off..off + 8]));
      off := off + 8;
    }
    ok := true;
  }

  method ReadTarget(b: bytes, start: nat, present: bool) returns (ok: bool, target: Option<FactId>, off: nat)
    requires start <= |b|
    ensures off <= |b|
    ensures ParseTarget(b[start..], present) == if ok then Got(target, b[off..]) else Fail
  {
    off := start;
    target := None;
    if present {
      if |b| < off + 32 { return false, None, off; }
      assert b[off..][..32] == b[off..off + 32] && b[off..][32..] == b[off + 32..];
      target := Some(b[off..off + 32]);
      off := off + 32;
    }
    ok := true;
  }

  method ParseFactPrefix(c: Crypto, b: bytes) returns (r: Option<(Fact, int)>)
    ensures r == AtOffset(b, ParseFact(c, b))
  {
    hide U64Of, FactDomain, ParseName, ParseExpiry, ParseTarget;
    if |b| < FACT_FIXED_LEN { return None; }
    if b[..13] != FactDomain() { return None; }
    var kind := KindOf(b[13]);
    if kind == None { return None; }
    if !c.validKey(b[46..78]) || !c.validKey(b[78..110]) { return None; }
    var flags := b[118];
    if flags >= 8 { return None; }
    var ok, name, off := ReadName(b, FACT_FIXED_LEN, flags % 2 == 1);
    if !ok { return None; }
    var expiresAt, target;
    ok, expiresAt, off := ReadExpiry(b, off, flags / 2 % 2 == 1);
    if !ok { return None; }
    ok, target, off := ReadTarget(b, off, flags / 4 == 1);
    if !ok { return None; }
    return Some((Fact(kind.value, b[14..46], b[46..78], b[78..110], name, U64Of(b[110..118]), expiresAt, target), off));
  }
}

/** Self-delimiting signed-fact frames and counted lists of them. */
module FactFrames {
  import opened Bytes
  import opened Facts
  import opened FactCodec

  predicate Sendable(c: Crypto, sf: SignedFact) {
    WellTyped(c, sf.fact) && Representable(sf.fact)
  }

  /** The length is cut to 32 bits, as the source casts it. */
  function Encode(sf: SignedFact): (b: bytes)
    ensures |b| >= 4 + SIGNATURE_LEN
  {
    U32Bytes(|Canonical(sf.fact)| % U32_MODULUS) + (Canonical(sf.fact) + sf.signature)
  }

  /** One frame off the front: `u32 fact_len || canonical fact || signature`. */
  function ParseFrame(c: Crypto, b: bytes): (r: Parsed<SignedFact>)
    ensures r.Got? ==> |r.rest| + 4 + SIGNATURE_LEN <= |b|
  {
    match TakeU32(b)
    case Fail => Fail
    case Got(n, b1) =>
      match Take(b1, n)
      case Fail => Fail
      case Got(factBytes, b2) =>
        match Take(b2, SIGNATURE_LEN)
        case Fail => Fail
        case Got(sig, rest) =>
          match DecodeStrict(c, factBytes)
          case None => Fail
          case Some(f) => Got(SignedFact(f, sig), rest)
  }

  lemma FrameWritten(c: Crypto, sf: SignedFact, tail: bytes)
    requires Sendable(c, sf)
    ensures ParseFrame(c, Encode(sf) + tail) == Got(sf, tail)
  {
    hide U32Bytes, Canonical, DecodeStrict, TakeU32;
    var fb := Canonical(sf.fact);
    Assoc(U32Bytes(|fb|), fb + sf.signature, tail);
    Assoc(fb, sf.signature, tail);
    TakeU32Written(|fb|, fb + (sf.signature + tail));
    TakeWritten(fb, sf.signature + tail);
    TakeWritten(sf.signature, tail);
    DecodeStrictInverse(c, sf.fact, fb);
  }

  lemma FrameRead(c: Crypto, b: bytes)
    requires ParseFrame(c, b).Got?
    ensures var r := ParseFrame(c, b); Sendable(c, r.value) && b == Encode(r.value) + r.rest
  {
    hide U32Bytes, Canonical, DecodeStrict, TakeU32;
    var r := ParseFrame(c, b);
    var fb := Take(TakeU32(b).rest, TakeU32(b).value).value;
    DecodeStrictInverse(c, r.value.fact, fb);
    Assoc(U32Bytes(|fb|), fb + r.value.signature, r.rest);
    Assoc(fb, r.value.signature, r.rest);
  }

  // ---- Counted lists ----------------------------------------------------------

  predicate AllRepresentable(fs: seq<SignedFact>) {
    forall i :: 0 <= i < |fs| ==> Representable(fs[i].fact)
  }

  predicate AllSendable(c: Crypto, fs: seq<SignedFact>) {
    forall i :: 0 <= i < |fs| ==> Sendable(c, fs[i])
  }

  /** `u32 count || frames`. The count is the length cut to 32 bits, as the
      source casts it. */
  function EncodeAll(fs: seq<SignedFact>): Option<bytes> {
    if AllRepresentable(fs) then Some(U32Bytes(|fs| % U32_MODULUS) + WriteMany(Encode, fs)) else None
  }

  function FrameParser(c: Crypto): bytes -> Parsed<SignedFact> {
    b => ParseFrame(c, b)
  }

  function DecodeAllPrefix(c: Crypto, b: bytes): Parsed<seq<SignedFact>> {
    match TakeU32(b)
    case Fail => Fail
    case Got(n, rest) => ParseMany(FrameParser(c), rest, n)
  }

  function DecodeAll(c: Crypto, b: bytes): Option<seq<SignedFact>> {
    match DecodeAllPrefix(c, b)
    case Fail => None
    case Got(fs, rest) => if rest == [] then Some(fs) else None
  }

  lemma FramesWritten(c: Crypto, fs: seq<SignedFact>, tail: bytes)
    requires AllSendable(c, fs)
    ensures ParseMany(FrameParser(c), WriteMany(Encode, fs) + tail, |fs|) == Got(fs, tail)
  {
    hide Encode, ParseFrame, ReadsAs, Sendable;
    forall i | 0 <= i < |fs|
      ensures ReadsAs(FrameParser(c), Encode, fs[i], fs[i])
    {
      FrameReads(c, fs[i]);
    }
    ManyWritten(FrameParser(c), Encode, fs, fs, tail);
  }

  lemma FrameReads(c: Crypto, sf: SignedFact)
    requires Sendable(c, sf)
    ensures ReadsAs(FrameParser(c), Encode, sf, sf)
  {
    hide Encode, ParseFrame, Sendable;
    forall tail: bytes
      ensures ParseFrame(c, Encode(sf) + tail) == Got(sf, tail)
    {
      FrameWritten(c, sf, tail);
    }
  }

  lemma FramesRead(c: Crypto, b: bytes, n: nat)
    requires ParseMany(FrameParser(c), b, n).Got?
    ensures var r := ParseMany(FrameParser(c), b, n); AllSendable(c, r.value) && b == WriteMany(Encode, r.value) + r.rest
  {
    hide Encode, ParseFrame, Sendable, ParseMany, WriteMany;
    var p := FrameParser(c);
    var ok := (sf: SignedFact) => Sendable(c, sf);
    forall x: bytes | p(x).Got?
      ensures ok(p(x).value) && x == Encode(p(x).value) + p(x).rest
    {
      FrameRead(c, x);
    }
    ManyRead(p, Encode, ok, b, n);
  }

  /** A list is delimited by itself: whatever follows it is left untouched. */
  lemma ListWritten(c: Crypto, fs: seq<SignedFact>, tail: bytes)
    requires AllSendable(c, fs) && |fs| < U32_MODULUS
    ensures EncodeAll(fs).Some?
    ensures DecodeAllPrefix(c, EncodeAll(fs).value + tail) == Got(fs, tail)
  {
    hide U32Bytes, TakeU32, WriteMany, ParseMany;
    Assoc(U32Bytes(|fs|), WriteMany(Encode, fs), tail);
    TakeU32Written(|fs|, WriteMany(Encode, fs) + tail);
    FramesWritten(c, fs, tail);
  }

  /** Whatever list is accepted, its encoding is the bytes it was read from. */
  lemma ListRead(c: Crypto, b: bytes)
    requires DecodeAllPrefix(c, b).Got?
    ensures var r := DecodeAllPrefix(c, b);
      AllSendable(c, r.value) && |r.value| < U32_MODULUS && b == EncodeAll(r.value).value + r.rest
  {
    hide U32Bytes, TakeU32, WriteMany, ParseMany, Sendable;
    var r := DecodeAllPrefix(c, b);
    var head := TakeU32(b);
    FramesRead(c, head.rest, head.value);
    SendableIsRepresentable(c, r.value);
    Assoc(U32Bytes(head.value), WriteMany(Encode, r.value), r.rest);
  }

  lemma SendableIsRepresentable(c: Crypto, fs: seq<SignedFact>)
    requires AllSendable(c, fs)
    ensures AllRepresentable(fs)
  {
  }

  /** The whole-list round trip holds exactly below 2^32 facts: from there on
      the 32-bit count makes the decoder stop early and refuse the tail. */
  lemma WholeListRoundTripExactly(c: Crypto, fs: seq<SignedFact>)
    requires AllSendable(c, fs)
    ensures EncodeAll(fs).Some?
    ensures DecodeAll(c, EncodeAll(fs).value) == Some(fs) <==> |fs| < U32_MODULUS
  {
    hide U32Bytes, TakeU32, WriteMany, ParseMany, Sendable;
    SendableIsRepresentable(c, fs);
    var b := EncodeAll(fs).value;
    var k := |fs| % U32_MODULUS;
    if |fs| < U32_MODULUS {
      ListWritten(c, fs, []);
      assert b + [] == b;
    } else {
      TakeU32Written(k, WriteMany(Encode, fs));
      WriteManySplit(Encode, fs, k);
      FramesWritten(c, fs[..k], WriteMany(Encode, fs[k..]));
    }
  }

  // ---- The code ---------------------------------------------------------------

  /** `SignedFact::decode` on one exact frame. */
  method DecodeFrame(c: Crypto, b: bytes) returns (r: Option<SignedFact>)
    ensures r == match ParseFrame(c, b) case Fail => None case Got(sf, rest) => if rest == [] then Some(sf) else None
  {
    hide U32Of, ParseFact;
    if |b| < 4 + SIGNATURE_LEN { return None; }
    var factLen := U32Of(b[..4]);
    var end := 4 + factLen + SIGNATURE_LEN;
    if |b| != end { return None; }
    var parsed := ParseFactPrefix(c, b[4..4 + factLen]);
    assert b[4..][..factLen] == b[4..4 + factLen] && b[4..][factLen..] == b[4 + factLen..];
    assert b[4 + factLen..][..SIGNATURE_LEN] == b[4 + factLen..];
    if parsed == None || parsed.value.1 != factLen { return None; }
    return Some(SignedFact(parsed.value.0, b[4 + factLen..]));
  }

  method DecodeAllPrefixAt(c: Crypto, b: bytes) returns (r: Option<(seq<SignedFact>, int)>)
    ensures r == AtOffset(b, DecodeAllPrefix(c, b))
  {
    hide U32Of, ParseFrame;
    if |b| < 4 { return None; }
    var count := U32Of(b[..4]);
    var out: seq<SignedFact> := [];
    var off := 4;
    PrependNothing(ParseMany(FrameParser(c), b[4..], count));
    var i := 0;
    while i < count
      invariant 0 <= i <= count && 4 <= off <= |b|
      invariant ParseMany(FrameParser(c), b[4..], count) == Prepend(out, ParseMany(FrameParser(c), b[off..], count - i))
    {
      if |b| < off + 4 { return None; }
      var frameLen := U32Of(b[off..off + 4]);
      var frameEnd := off + 4 + frameLen + SIGNATURE_LEN;
      assert b[off..][..4] == b[off..off + 4];
      FrameExtent(c, b[off..]);
      if |b| < frameEnd { return None; }
      assert b[off..frameEnd] == b[off..][..frameEnd - off] && b[frameEnd..] == b[off..][frameEnd - off..];
      var sf := DecodeFrame(c, b[off..frameEnd]);
      if sf == None { return None; }
      PrependMore(out, sf.value, ParseMany(FrameParser(c), b[frameEnd..], count - i - 1));
      out := out + [sf.value];
      off := frameEnd;
      i := i + 1;
    }
    assert out + [] == out;
    return Some((out, off));
  }

  /** A parse of an exact slice, seen as a parse of a longer string. */
  ghost function Extend(p: Parsed<SignedFact>, rest: bytes): Parsed<SignedFact> {
    match p case Fail => Fail case Got(sf, r) => if r == [] then Got(sf, rest) else Fail
  }

  /** A frame is read from exactly the bytes its length prefix names. */
  lemma FrameExtent(c: Crypto, b: bytes)
    requires |b| >= 4
    ensures var end := 4 + U32Of(b[..4]) + SIGNATURE_LEN;
      && (|b| < end ==> ParseFrame(c, b).Fail?)
      && (|b| >= end ==> ParseFrame(c, b) == Extend(ParseFrame(c, b[..end]), b[end..]))
  {
    var n := U32Of(b[..4]);
    var end := 4 + n + SIGNATURE_LEN;
    if |b| >= end {
      var p := b[..end];
      assert p[..4] == b[..4];
      assert p[4..][..n] == b[4..][..n];
      assert p[4..][n..][..SIGNATURE_LEN] == b[4..][n..][..SIGNATURE_LEN];
      assert b[4..][n..][SIGNATURE_LEN..] == b[end..];
      assert p[4..][n..][SIGNATURE_LEN..] == [];
    }
  }
}
