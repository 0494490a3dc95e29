/** Signed invites and their token strings: `dweb1.` and `dweb2.` followed by the
    base64url form of the canonical invite and its signature. */
module InviteTokens {
  import opened Bytes
  import opened Facts
  import Base64Url
  import InviteV1
  import InviteV2

  datatype TokenV1 = TokenV1(invite: InviteV1.Invite, signature: Signature)

  datatype TokenV2 = TokenV2(invite: InviteV2.Invite, signature: Signature)

  datatype TokenError = Quarantine | UnsupportedVersion

  datatype InviteVersion = V1(one: TokenV1) | V2(two: TokenV2)

  const SIGNATURE_LEN: nat := 64

  // "dweb1."
  const PREFIX1: bytes := [0x64, 0x77, 0x65, 0x62, 0x31, 0x2e]

  // "dweb2."
  const PREFIX2: bytes := [0x64, 0x77, 0x65, 0x62, 0x32, 0x2e]

  predicate StartsWith(s: bytes, prefix: bytes) {
    |s| >= |prefix| && s[..|prefix|] == prefix
  }

  // ---- The common envelope ---------------------------------------------------------------

  function Seal(prefix: bytes, canonical: bytes, sig: Signature): bytes {
    prefix + Base64Url.Encode(canonical + sig)
  }

  /** The canonical bytes and the signature under a prefix. */
  function Unseal(prefix: bytes, s: bytes): Option<(bytes, Signature)> {
    if !StartsWith(s, prefix) then None
    else
      match Base64Url.Decode(s[|prefix|..])
      case None => None
      case Some(payload) =>
        if |payload| < SIGNATURE_LEN then None
        else
          var split := |payload| - SIGNATURE_LEN;
          Some((payload[..split], payload[split..]))
  }

  lemma SealedUnseals(prefix: bytes, canonical: bytes, sig: Signature)
    ensures StartsWith(Seal(prefix, canonical, sig), prefix)
    ensures Unseal(prefix, Seal(prefix, canonical, sig)) == Some((canonical, sig))
  {
    hide Base64Url.Encode, Base64Url.Decode;
    var payload := canonical + sig;
    var e := Base64Url.Encode(payload);
    Base64Url.EncodedDecodes(payload);
    assert (prefix + e)[..|prefix|] == prefix && (prefix + e)[|prefix|..] == e;
    assert payload[..|canonical|] == canonical && payload[|canonical|..] == sig;
  }

  lemma UnsealedSeals(prefix: bytes, s: bytes)
    requires Unseal(prefix, s).Some?
    ensures var u := Unseal(prefix, s).value; Seal(prefix, u.0, u.1) == s
  {
    hide Base64Url.Encode, Base64Url.Decode;
    var payload := Base64Url.Decode(s[|prefix|..]).value;
    Base64Url.DecodedEncodes(s[|prefix|..]);
    SplitAt(payload, |payload| - SIGNATURE_LEN);
    SplitAt(s, |prefix|);
  }

  // ---- The two versions -------------------------------------------------------------------

  predicate VerifiesV1(c: Crypto, t: TokenV1) {
    match InviteV1.Canonical(t.invite)
    case None => false
    case Some(b) => c.verify(t.invite.issuer, b, t.signature)
  }

  predicate VerifiesV2(c: Crypto, t: TokenV2) {
    match InviteV2.Canonical(c, t.invite)
    case None => false
    case Some(b) => c.verify(t.invite.issuer, b, t.signature)
  }

  function EncodeV1(t: TokenV1): Option<bytes> {
    match InviteV1.Canonical(t.invite)
    case None => None
    case Some(b) => Some(Seal(PREFIX1, b, t.signature))
  }

  function EncodeV2(c: Crypto, t: TokenV2): Option<bytes> {
    match InviteV2.Canonical(c, t.invite)
    case None => None
    case Some(b) => Some(Seal(PREFIX2, b, t.signature))
  }

  function DecodeV1(c: Crypto, s: bytes): Result<TokenV1, TokenError> {
    if StartsWith(s, PREFIX2) then Err(UnsupportedVersion)
    else
      match Unseal(PREFIX1, s)
      case None => Err(Quarantine)
      case Some((b, sig)) =>
        match InviteV1.DecodeStrict(c, b)
        case None => Err(Quarantine)
        case Some(v) => if VerifiesV1(c, TokenV1(v, sig)) then Ok(TokenV1(v, sig)) else Err(Quarantine)
  }

  function DecodeV2(c: Crypto, s: bytes): Result<TokenV2, TokenError> {
    match Unseal(PREFIX2, s)
    case None => Err(Quarantine)
    case Some((b, sig)) =>
      match InviteV2.DecodeStrict(c, b)
      case None => Err(Quarantine)
      case Some(v) => if VerifiesV2(c, TokenV2(v, sig)) then Ok(TokenV2(v, sig)) else Err(Quarantine)
  }

  function DecodeVersion(c: Crypto, s: bytes): Result<InviteVersion, TokenError> {
    if StartsWith(s, PREFIX2) then
      match DecodeV2(c, s) case Ok(t) => Ok(V2(t)) case Err(e) => Err(e)
    else
      match DecodeV1(c, s) case Ok(t) => Ok(V1(t)) case Err(e) => Err(e)
  }

  lemma PrefixesDiffer(s: bytes)
    ensures !(StartsWith(s, PREFIX1) && StartsWith(s, PREFIX2))
  {
    if StartsWith(s, PREFIX1) {
      assert s[4] == s[..6][4] == 0x31;
    }
    if StartsWith(s, PREFIX2) {
      assert s[4] == s[..6][4] == 0x32;
    }
  }

  // ---- Main results -------------------------------------------------------------------------

  /** A `dweb1.` string is accepted as a token exactly when it is that token's encoding
      and the token's signature verifies. */
  lemma DecodesExactlyV1(c: Crypto, s: bytes, t: TokenV1)
    ensures DecodeV1(c, s) == Ok(t) <==>
            InviteV1.WellTyped(c, t.invite) && VerifiesV1(c, t) && EncodeV1(t) == Some(s)
  {
    hide Seal, Unseal, StartsWith, InviteV1.WellTyped, InviteV1.Canonical, InviteV1.DecodeStrict;
    PrefixesDiffer(s);
    if DecodeV1(c, s) == Ok(t) {
      var u := Unseal(PREFIX1, s).value;
      UnsealedSeals(PREFIX1, s);
      InviteV1.DecodesExactly(c, u.0, t.invite);
    }
    if InviteV1.WellTyped(c, t.invite) && VerifiesV1(c, t) && EncodeV1(t) == Some(s) {
      var b := InviteV1.Canonical(t.invite).value;
      SealedUnseals(PREFIX1, b, t.signature);
      InviteV1.DecodesExactly(c, b, t.invite);
    }
  }

  /** The same for `dweb2.`, on invites without IPv6 flow information and scope ids. */
  lemma DecodesExactlyV2(c: Crypto, s: bytes, t: TokenV2)
    ensures DecodeV2(c, s) == Ok(t) <==>
            InviteV2.WellTyped(c, t.invite) && InviteV2.NoScopes(t.invite.addrs) && VerifiesV2(c, t) && EncodeV2(c, t) == Some(s)
  {
    hide Seal, Unseal, StartsWith, InviteV2.WellTyped, InviteV2.Canonical, InviteV2.DecodeStrict, InviteV2.NoScopes;
    if DecodeV2(c, s) == Ok(t) {
      var u := Unseal(PREFIX2, s).value;
      UnsealedSeals(PREFIX2, s);
      InviteV2.DecodesExactly(c, u.0, t.invite);
    }
    if InviteV2.WellTyped(c, t.invite) && InviteV2.NoScopes(t.invite.addrs) && VerifiesV2(c, t) && EncodeV2(c, t) == Some(s) {
      var b := InviteV2.Canonical(c, t.invite).value;
      SealedUnseals(PREFIX2, b, t.signature);
      InviteV2.DecodesExactly(c, b, t.invite);
    }
  }

  /** An invite that its issuer signs over its canonical bytes is accepted, as the version
      it is. */
  lemma IssuedIsAccepted(c: Crypto, secret: Bytes32, v: InviteV1.Invite, w: InviteV2.Invite)
    requires SignVerifies(c)
    ensures InviteV1.WellTyped(c, v) && InviteV1.Canonical(v).Some? && v.issuer == c.publicKey(secret) ==>
      var t := TokenV1(v, c.sign(secret, InviteV1.Canonical(v).value));
      EncodeV1(t).Some? && DecodeVersion(c, EncodeV1(t).value) == Ok(V1(t))
    ensures InviteV2.WellTyped(c, w) && InviteV2.NoScopes(w.addrs) && InviteV2.Canonical(c, w).Some? && w.issuer == c.publicKey(secret) ==>
      var t := TokenV2(w, c.sign(secret, InviteV2.Canonical(c, w).value));
      EncodeV2(c, t).Some? && DecodeVersion(c, EncodeV2(c, t).value) == Ok(V2(t))
  {
    hide InviteV1.Canonical, InviteV2.Canonical, Seal, DecodeV1, DecodeV2, DecodeVersion, InviteV1.WellTyped, InviteV2.WellTyped;
    if InviteV1.WellTyped(c, v) && InviteV1.Canonical(v).Some? && v.issuer == c.publicKey(secret) {
      var t := TokenV1(v, c.sign(secret, InviteV1.Canonical(v).value));
      DecodesExactlyV1(c, EncodeV1(t).value, t);
      VersionsDoNotMix(c, EncodeV1(t).value);
    }
    if InviteV2.WellTyped(c, w) && InviteV2.NoScopes(w.addrs) && InviteV2.Canonical(c, w).Some? && w.issuer == c.publicKey(secret) {
      var t := TokenV2(w, c.sign(secret, InviteV2.Canonical(c, w).value));
      DecodesExactlyV2(c, EncodeV2(c, t).value, t);
      VersionsDoNotMix(c, EncodeV2(c, t).value);
    }
  }

  /** A token is accepted only under the signature of its issuer over its canonical
      bytes. */
  lemma SignedByIssuer(c: Crypto, s: bytes)
    requires DecodeVersion(c, s).Ok?
    ensures match DecodeVersion(c, s).value
      case V1(t) =>
        InviteV1.Canonical(t.invite).Some? && c.verify(t.invite.issuer, InviteV1.Canonical(t.invite).value, t.signature)
      case V2(t) =>
        InviteV2.Canonical(c, t.invite).Some? && c.verify(t.invite.issuer, InviteV2.Canonical(c, t.invite).value, t.signature)
  {
    hide InviteV1.Canonical, InviteV2.Canonical, Unseal, InviteV1.DecodeStrict, InviteV2.DecodeStrict;
  }

  /** No string is a token of both versions; the first decoder names the second version
      as such, and the dispatcher accepts what either of them accepts. */
  lemma VersionsDoNotMix(c: Crypto, s: bytes)
    ensures DecodeV1(c, s).Err? || DecodeV2(c, s).Err?
    ensures StartsWith(s, PREFIX2) <==> DecodeV1(c, s) == Err(UnsupportedVersion)
    ensures StartsWith(s, PREFIX1) ==> DecodeV2(c, s) == Err(Quarantine)
    ensures DecodeVersion(c, s).Ok? <==> DecodeV1(c, s).Ok? || DecodeV2(c, s).Ok?
    ensures forall t :: DecodeVersion(c, s) == Ok(V1(t)) <==> DecodeV1(c, s) == Ok(t)
    ensures forall t :: DecodeVersion(c, s) == Ok(V2(t)) <==> DecodeV2(c, s) == Ok(t)
    ensures DecodeVersion(c, s).Err? ==> DecodeVersion(c, s) == Err(Quarantine)
  {
    hide VerifiesV1, VerifiesV2, InviteV1.DecodeStrict, InviteV2.DecodeStrict, Base64Url.Decode;
    PrefixesDiffer(s);
  }
}
