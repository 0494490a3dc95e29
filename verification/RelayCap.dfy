/** `RelayCapV1`: the relay capability and its `dwebr1.` token string. */
module RelayCap {
  import opened Bytes
  import opened Facts
  import Base64Url

  datatype RelayCap = RelayCap(
    fabric: Bytes32,
    server: Bytes32,
    issuer: Key,
    recipient: Key,
    caps: byte,
    issuedAt: u64,
    expiresAt: u64)

  datatype CapError = ReservedBits | IssuedAfterExpiry | TtlTooLong

  // "dwebr1."
  const PREFIX: bytes := [0x64, 0x77, 0x65, 0x62, 0x72, 0x31, 0x2e]

  // "dweb/relay-cap/v1" and a NUL
  const DOMAIN: bytes := [0x64, 0x77, 0x65, 0x62, 0x2f, 0x72, 0x65, 0x6c, 0x61, 0x79, 0x2d, 0x63, 0x61, 0x70, 0x2f, 0x76, 0x31, 0x00]

  const CANONICAL_LEN: nat := 146
  const WIRE_LEN: nat := 210
  const ENCODED_LEN: nat := 280
  const TOKEN_LEN: nat := 287
  const MAX_TOKEN_LEN: nat := 1024
  const VERSION: byte := 1

  // The known capability bits are the three lowest.
  const KNOWN_LIMIT: nat := 8
  const MAX_TTL_MS: nat := 180 * 24 * 60 * 60 * 1000

  function Canonical(k: RelayCap): (b: bytes)
    ensures |b| == CANONICAL_LEN
  {
    [VERSION] + k.fabric + k.server + k.issuer + k.recipient + [k.caps] + U64Bytes(k.issuedAt) + U64Bytes(k.expiresAt)
  }

  function Token(wire: bytes): bytes {
    PREFIX + Base64Url.Encode(wire)
  }

  function SignAndEncode(c: Crypto, secret: Bytes32, fabric: Bytes32, server: Bytes32, recipient: Key,
                         caps: byte, issuedAt: u64, expiresAt: u64): Result<bytes, CapError>
  {
    if caps >= KNOWN_LIMIT then Err(ReservedBits)
    else if issuedAt > expiresAt then Err(IssuedAfterExpiry)
    else if expiresAt - issuedAt > MAX_TTL_MS then Err(TtlTooLong)
    else
      var k := RelayCap(fabric, server, c.publicKey(secret), recipient, caps, issuedAt, expiresAt);
      Ok(Token(Canonical(k) + c.sign(secret, DOMAIN + Canonical(k))))
  }

  predicate AllSymbols(s: bytes) {
    forall i :: 0 <= i < |s| ==> Base64Url.InAlphabet(s[i])
  }

  /** What the decoder demands of the decoded bytes. The signature is not checked. */
  predicate WireOk(c: Crypto, w: bytes) {
    && |w| == WIRE_LEN
    && w[0] == VERSION
    && w[129] < KNOWN_LIMIT
    && c.validKey(w[65..97])
    && c.validKey(w[97..129])
  }

  function Fields(w: bytes): RelayCap
    requires |w| == WIRE_LEN
  {
    RelayCap(w[1..33], w[33..65], w[65..97], w[97..129], w[129], U64Of(w[130..138]), U64Of(w[138..146]))
  }

  /** Length gate, prefix, fixed length, alphabet, base64, version, reserved bits, keys. */
  function Decode(c: Crypto, s: bytes): Option<RelayCap> {
    if |s| > MAX_TOKEN_LEN then None
    else if |s| < |PREFIX| || s[..|PREFIX|] != PREFIX then None
    else
      var payload := s[|PREFIX|..];
      if |payload| != ENCODED_LEN || !AllSymbols(payload) then None
      else
        match Base64Url.Decode(payload)
        case None => None
        case Some(w) =>
          if |w| != WIRE_LEN || w[0] != VERSION then None
          else if w[129] >= KNOWN_LIMIT then None
          else if !c.validKey(w[65..97]) || !c.validKey(w[97..129]) then None
          else Some(Fields(w))
  }

  // ---- Strings and wires -----------------------------------------------------------------

  function Payload(s: bytes): bytes {
    if |s| < |PREFIX| then [] else s[|PREFIX|..]
  }

  function WireOf(s: bytes): bytes {
    match Base64Url.Decode(Payload(s)) case None => [] case Some(w) => w
  }

  lemma TokenParts(w: bytes)
    requires |w| == WIRE_LEN
    ensures |Token(w)| == TOKEN_LEN && Token(w)[..|PREFIX|] == PREFIX
    ensures Payload(Token(w)) == Base64Url.Encode(w) && AllSymbols(Payload(Token(w)))
    ensures WireOf(Token(w)) == w
  {
    var e := Base64Url.Encode(w);
    assert (PREFIX + e)[|PREFIX|..] == e;
    Base64Url.EncodedDecodes(w);
    Base64Url.WholeGroupsDecode(e);
  }

  /** Every well-formed wire has one token string, and that string is accepted with the
      wire's fields. */
  lemma WireToToken(c: Crypto, w: bytes)
    requires WireOk(c, w)
    ensures |Token(w)| == TOKEN_LEN
    ensures WireOf(Token(w)) == w
    ensures Decode(c, Token(w)) == Some(Fields(w))
  {
    hide Token, Fields;
    TokenParts(w);
    Base64Url.EncodedDecodes(w);
  }

  /** Every accepted string is the token of one well-formed wire. With `WireToToken`
      this makes accepted strings and well-formed wires correspond one to one. They all
      have one length, so the length gate in front of the decoder refuses nothing that
      the rest of it would accept. */
  lemma TokenToWire(c: Crypto, s: bytes)
    requires Decode(c, s).Some?
    ensures |s| == TOKEN_LEN < MAX_TOKEN_LEN
    ensures WireOk(c, WireOf(s))
    ensures Token(WireOf(s)) == s
    ensures Decode(c, s) == Some(Fields(WireOf(s)))
  {
    hide Fields;
    Base64Url.DecodedEncodes(s[|PREFIX|..]);
    SplitAt(s, |PREFIX|);
  }

  lemma FieldsOfCanonical(k: RelayCap, sig: Signature)
    ensures var w := Canonical(k) + sig;
      |w| == WIRE_LEN && w[0] == VERSION && Fields(w) == k && w[146..] == sig && w[..146] == Canonical(k)
  {
    hide U64Bytes, U64Of;
    var w := Canonical(k) + sig;
    U64RoundTrip(k.issuedAt, U64Bytes(0));
    U64RoundTrip(k.expiresAt, U64Bytes(0));
    assert w[1..33] == k.fabric;
    assert w[33..65] == k.server;
    assert w[65..97] == k.issuer;
    assert w[97..129] == k.recipient;
    assert w[130..138] == U64Bytes(k.issuedAt);
    assert w[138..146] == U64Bytes(k.expiresAt);
  }

  lemma CanonicalOfFields(w: bytes)
    requires |w| == WIRE_LEN && w[0] == VERSION
    ensures Canonical(Fields(w)) + w[146..] == w
  {
    hide U64Bytes, U64Of;
    U64RoundTrip(0, w[130..138]);
    U64RoundTrip(0, w[138..146]);
    assert w[..146] == [w[0]] + w[1..33] + w[33..65] + w[65..97] + w[97..129] + [w[129]] + w[130..138] + w[138..146];
  }

  /** Signing refuses exactly reserved bits, an issue time after the expiry and a
      lifetime above 180 days. */
  lemma SignsExactly(c: Crypto, secret: Bytes32, fabric: Bytes32, server: Bytes32, recipient: Key,
                     caps: byte, issuedAt: u64, expiresAt: u64)
    ensures SignAndEncode(c, secret, fabric, server, recipient, caps, issuedAt, expiresAt).Ok?
       <==> caps < KNOWN_LIMIT && issuedAt <= expiresAt <= issuedAt + MAX_TTL_MS
  {
    hide Token, Canonical;
  }

  /** Signing succeeds for known bits and a lifetime from nothing to 180 days, and every
      capability signed is 287 characters long, decodes to the seven fields it was
      signed for, and carries a signature that verifies under its issuer. */
  lemma SignedDecodes(c: Crypto, secret: Bytes32, fabric: Bytes32, server: Bytes32, recipient: Key,
                      caps: byte, issuedAt: u64, expiresAt: u64)
    requires SignVerifies(c) && c.validKey(recipient)
    ensures
      var signed := SignAndEncode(c, secret, fabric, server, recipient, caps, issuedAt, expiresAt);
      var k := RelayCap(fabric, server, c.publicKey(secret), recipient, caps, issuedAt, expiresAt);
      && (signed.Ok? <==> caps < KNOWN_LIMIT && issuedAt <= expiresAt <= issuedAt + MAX_TTL_MS)
      && (signed.Ok? ==>
            && |signed.value| == TOKEN_LEN
            && Decode(c, signed.value) == Some(k)
            && |WireOf(signed.value)| == WIRE_LEN
            && c.verify(k.issuer, DOMAIN + Canonical(k), WireOf(signed.value)[146..]))
  {
    SignsExactly(c, secret, fabric, server, recipient, caps, issuedAt, expiresAt);
    hide Token, Canonical, Fields, Decode, WireOf;
    if SignAndEncode(c, secret, fabric, server, recipient, caps, issuedAt, expiresAt).Ok? {
      var k := RelayCap(fabric, server, c.publicKey(secret), recipient, caps, issuedAt, expiresAt);
      var sig := c.sign(secret, DOMAIN + Canonical(k));
      FieldsOfCanonical(k, sig);
      SignedWireOk(c, k, sig);
      WireToToken(c, Canonical(k) + sig);
    }
  }

  lemma SignedWireOk(c: Crypto, k: RelayCap, sig: Signature)
    requires c.validKey(k.issuer) && c.validKey(k.recipient) && k.caps < KNOWN_LIMIT
    ensures WireOk(c, Canonical(k) + sig)
  {
    hide Canonical;
    FieldsOfCanonical(k, sig);
  }

  /** Token strings differ whenever their wires do. */
  lemma TokenInjective(v: bytes, w: bytes)
    requires |v| == WIRE_LEN && |w| == WIRE_LEN && Token(v) == Token(w)
    ensures v == w
  {
    TokenParts(v);
    TokenParts(w);
  }
}
