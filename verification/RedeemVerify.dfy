/** The issuer's verification of a redemption: the checks on token and proof, what is
    sent back when one fails, and what the proof is bound to. */
module RedeemVerify {
  import opened Bytes
  import opened Facts
  import opened InviteTokens
  import RedeemErr

  type Token = InviteVersion

  // "dweb/redeem-pop/v1" and a NUL
  const POP_DOMAIN: bytes := [0x64, 0x77, 0x65, 0x62, 0x2f, 0x72, 0x65, 0x64, 0x65, 0x65, 0x6d, 0x2d, 0x70, 0x6f, 0x70, 0x2f, 0x76, 0x31, 0x00]

  datatype VerifyError =
    | WrongFabric(got: Bytes32, expected: Bytes32)
    | InviteNotRoot
    | BadToken
    | InviteExpired
    | RecipientMismatch
    | BadPoP

  /** One proof of possession, as the session layer hands it over: `peer` is the
      endpoint authenticated by TLS, `redeemer` the key the proof frame names. */
  datatype Attempt = Attempt(
    token: Token,
    peer: Key,
    redeemer: Key,
    challenge: Bytes32,
    proof: Signature,
    now: u64)

  function FabricOf(t: Token): Bytes32 {
    match t case V1(x) => x.invite.fabric case V2(x) => x.invite.fabric
  }

  function InviteIdOf(t: Token): Bytes16 {
    match t case V1(x) => x.invite.inviteId case V2(x) => x.invite.inviteId
  }

  function IssuerOf(t: Token): Key {
    match t case V1(x) => x.invite.issuer case V2(x) => x.invite.issuer
  }

  function ExpiryOf(t: Token): u64 {
    match t case V1(x) => x.invite.expiresAt case V2(x) => x.invite.expiresAt
  }

  /** The second version always names its recipient. */
  function RecipientOf(t: Token): Option<Key> {
    match t case V1(x) => x.invite.recipient case V2(x) => Some(x.invite.recipient)
  }

  predicate Authentic(c: Crypto, t: Token) {
    match t case V1(x) => VerifiesV1(c, x) case V2(x) => VerifiesV2(c, x)
  }

  function PopMessage(fabric: Bytes32, inviteId: Bytes16, challenge: Bytes32): bytes {
    POP_DOMAIN + fabric + inviteId + challenge
  }

  /** `redeem_verify` and `redeem_verify_v2`. */
  function Verify(c: Crypto, fabric: Bytes32, root: Option<Key>, a: Attempt): Result<Key, VerifyError> {
    if FabricOf(a.token) != fabric then Err(WrongFabric(FabricOf(a.token), fabric))
    else if Some(IssuerOf(a.token)) != root then Err(InviteNotRoot)
    else if !Authentic(c, a.token) then Err(BadToken)
    else if a.now >= ExpiryOf(a.token) then Err(InviteExpired)
    else if RecipientOf(a.token).Some? && RecipientOf(a.token).value != a.redeemer then Err(RecipientMismatch)
    else if !c.verify(a.redeemer, PopMessage(fabric, InviteIdOf(a.token), a.challenge), a.proof) then Err(BadPoP)
    else Ok(a.redeemer)
  }

  /** A proof says which fabric, which invite and which challenge it answers: no proof
      serves for another. */
  lemma ProofIsBound(f: Bytes32, i: Bytes16, ch: Bytes32, f': Bytes32, i': Bytes16, ch': Bytes32)
    requires PopMessage(f, i, ch) == PopMessage(f', i', ch')
    ensures f == f' && i == i' && ch == ch'
  {
    var m := PopMessage(f, i, ch);
    assert f == m[19..51] == f';
    assert i == m[51..67] == i';
    assert ch == m[67..] == ch';
  }

  /** An honest joiner that holds a live invite of the root and signs the challenge is
      accepted, and is who is returned. */
  lemma HonestIsAccepted(c: Crypto, fabric: Bytes32, secret: Bytes32, a: Attempt)
    requires SignVerifies(c) && Authentic(c, a.token) && FabricOf(a.token) == fabric
    requires a.now < ExpiryOf(a.token)
    requires a.redeemer == c.publicKey(secret)
    requires RecipientOf(a.token) == None || RecipientOf(a.token) == Some(a.redeemer)
    requires a.proof == c.sign(secret, PopMessage(fabric, InviteIdOf(a.token), a.challenge))
    ensures Verify(c, fabric, Some(IssuerOf(a.token)), a) == Ok(a.redeemer)
  {
    hide Authentic, PopMessage;
  }

  /** What the proof of possession signs. */
  function ProofText(fabric: Bytes32, inviteId: Bytes16, challenge: Bytes32): bytes {
    Ascii("dweb/redeem-pop/v1\0") + fabric + inviteId + challenge
  }

  lemma ProofTextIs(fabric: Bytes32, inviteId: Bytes16, challenge: Bytes32)
    ensures PopMessage(fabric, inviteId, challenge) == ProofText(fabric, inviteId, challenge)
  {
    assert POP_DOMAIN == Ascii("dweb/redeem-pop/v1\0");
  }

  /** Exactly when a version 1 invite is accepted, and of what it is refused for: the first
      of fabric, issuer, signature, expiry, recipient and proof that is wrong. An invite
      that names a recipient serves nobody else. */
  lemma VerifyV1Exactly(c: Crypto, fabric: Bytes32, root: Option<Key>, a: Attempt)
    requires a.token.V1?
    ensures
      var v := a.token.one.invite;
      var r := Verify(c, fabric, root, a);
      && (r.Ok? <==>
            && v.fabric == fabric && root == Some(v.issuer) && VerifiesV1(c, a.token.one) && a.now < v.expiresAt
            && (v.recipient == None || v.recipient == Some(a.redeemer))
            && c.verify(a.redeemer, ProofText(fabric, v.inviteId, a.challenge), a.proof))
      && (r.Ok? ==> r.value == a.redeemer)
      && (r.Err? && r.error.WrongFabric? <==> v.fabric != fabric)
      && (r.Err? && r.error.WrongFabric? ==> r.error == WrongFabric(v.fabric, fabric))
      && (r == Err(InviteNotRoot) <==> v.fabric == fabric && root != Some(v.issuer))
      && (r == Err(BadToken) <==> v.fabric == fabric && root == Some(v.issuer) && !VerifiesV1(c, a.token.one))
      && (r == Err(InviteExpired) <==>
            v.fabric == fabric && root == Some(v.issuer) && VerifiesV1(c, a.token.one) && a.now >= v.expiresAt)
      && (r == Err(RecipientMismatch) <==>
            && v.fabric == fabric && root == Some(v.issuer) && VerifiesV1(c, a.token.one) && a.now < v.expiresAt
            && v.recipient.Some? && v.recipient.value != a.redeemer)
  {
    ProofTextIs(fabric, a.token.one.invite.inviteId, a.challenge);
    hide VerifiesV1, PopMessage, ProofText;
  }

  /** The same of version 2, which always names its recipient. */
  lemma VerifyV2Exactly(c: Crypto, fabric: Bytes32, root: Option<Key>, a: Attempt)
    requires a.token.V2?
    ensures
      var v := a.token.two.invite;
      var r := Verify(c, fabric, root, a);
      && (r.Ok? <==>
            && v.fabric == fabric && root == Some(v.issuer) && VerifiesV2(c, a.token.two) && a.now < v.expiresAt
            && v.recipient == a.redeemer
            && c.verify(a.redeemer, ProofText(fabric, v.inviteId, a.challenge), a.proof))
      && (r.Ok? ==> r.value == a.redeemer)
      && (r.Err? && r.error.WrongFabric? <==> v.fabric != fabric)
      && (r.Err? && r.error.WrongFabric? ==> r.error == WrongFabric(v.fabric, fabric))
      && (r == Err(InviteNotRoot) <==> v.fabric == fabric && root != Some(v.issuer))
      && (r == Err(BadToken) <==> v.fabric == fabric && root == Some(v.issuer) && !VerifiesV2(c, a.token.two))
      && (r == Err(InviteExpired) <==>
            v.fabric == fabric && root == Some(v.issuer) && VerifiesV2(c, a.token.two) && a.now >= v.expiresAt)
      && (r == Err(RecipientMismatch) <==>
            && v.fabric == fabric && root == Some(v.issuer) && VerifiesV2(c, a.token.two) && a.now < v.expiresAt
            && v.recipient != a.redeemer)
  {
    ProofTextIs(fabric, a.token.two.invite.inviteId, a.challenge);
    hide VerifiesV2, PopMessage, ProofText;
  }

  /** Whoever passes is the redeemer named in the proof, and the proof verifies under
      that key for this invite of this fabric; who is named by the invite is who passes. */
  lemma AcceptedMeans(c: Crypto, fabric: Bytes32, root: Option<Key>, a: Attempt)
    requires Verify(c, fabric, root, a).Ok?
    ensures Verify(c, fabric, root, a) == Ok(a.redeemer)
    ensures root == Some(IssuerOf(a.token)) && Authentic(c, a.token) && FabricOf(a.token) == fabric
    ensures a.now < ExpiryOf(a.token)
    ensures c.verify(a.redeemer, PopMessage(fabric, InviteIdOf(a.token), a.challenge), a.proof)
    ensures a.token.V1? && a.token.one.invite.recipient.Some? ==> a.redeemer == a.token.one.invite.recipient.value
    ensures a.token.V2? ==> a.redeemer == a.token.two.invite.recipient
  {
    hide Authentic, PopMessage;
  }

  // ---- What is sent back ------------------------------------------------------------------

  // "wrong fabric "
  const WRONG_FABRIC: bytes := [0x77, 0x72, 0x6f, 0x6e, 0x67, 0x20, 0x66, 0x61, 0x62, 0x72, 0x69, 0x63, 0x20]

  // " vs "
  const VERSUS: bytes := [0x20, 0x76, 0x73, 0x20]

  // "invite expired"
  const EXPIRED: bytes := [0x69, 0x6e, 0x76, 0x69, 0x74, 0x65, 0x20, 0x65, 0x78, 0x70, 0x69, 0x72, 0x65, 0x64]

  // "recipient mismatch"
  const MISMATCH: bytes := [0x72, 0x65, 0x63, 0x69, 0x70, 0x69, 0x65, 0x6e, 0x74, 0x20, 0x6d, 0x69, 0x73, 0x6d, 0x61, 0x74, 0x63, 0x68]

  function HexDigit(n: nat): (d: byte)
    requires n < 16
    ensures RedeemErr.Printable(d)
  {
    if n < 10 then 0x30 + n else 0x61 + n - 10
  }

  function Hex(b: bytes): (h: bytes)
    ensures |h| == 2 * |b|
    ensures forall i :: 0 <= i < |h| ==> RedeemErr.Printable(h[i])
  {
    if b == [] then [] else [HexDigit(b[0] / 16), HexDigit(b[0] % 16)] + Hex(b[1..])
  }

  /** `redeem_verify_emit`: a token that does not verify is met with silence. */
  function Emit(e: VerifyError): Option<RedeemErr.Refusal> {
    match e
    case WrongFabric(got, expected) => Some(RedeemErr.Other(WRONG_FABRIC + Hex(got[..8]) + VERSUS + Hex(expected[..8])))
    case InviteNotRoot => Some(RedeemErr.NotRoot)
    case BadToken => None
    case InviteExpired => Some(RedeemErr.Other(EXPIRED))
    case RecipientMismatch => Some(RedeemErr.Other(MISMATCH))
    case BadPoP => Some(RedeemErr.BadPoP)
  }

  /** The hexadecimal form of bytes, digit by digit. */
  lemma {:induction false} HexAt(b: bytes, i: nat)
    requires i < |b|
    ensures Hex(b)[2 * i] == HexDigit(b[i] / 16) && Hex(b)[2 * i + 1] == HexDigit(b[i] % 16)
    decreases |b|
  {
    hide HexDigit;
    if i > 0 {
      HexAt(b[1..], i - 1);
    }
  }

  lemma DigitsAre()
    ensures seq(16, i requires 0 <= i < 16 => HexDigit(i)) == Ascii("0123456789abcdef")
  {
  }

  /** The texts, as they read. */
  lemma RefusalTexts()
    ensures WRONG_FABRIC == Ascii("wrong fabric ")
    ensures VERSUS == Ascii(" vs ")
    ensures EXPIRED == Ascii("invite expired")
    ensures MISMATCH == Ascii("recipient mismatch")
  {
  }

  /** What the joiner is told of each failure; of a token that does not verify, nothing. */
  function Told(e: VerifyError): Option<RedeemErr.Reason> {
    match e
    case WrongFabric(got, expected) => Some(RedeemErr.Text(WRONG_FABRIC + Hex(got[..8]) + VERSUS + Hex(expected[..8])))
    case InviteNotRoot => Some(RedeemErr.NotRootPhrase)
    case BadToken => None
    case InviteExpired => Some(RedeemErr.Text(EXPIRED))
    case RecipientMismatch => Some(RedeemErr.Text(MISMATCH))
    case BadPoP => Some(RedeemErr.BadPoPPhrase)
  }

  lemma ToldExactly(e: VerifyError)
    ensures Emit(e).Some? <==> Told(e).Some?
    ensures Emit(e).Some? ==>
      RedeemErr.JoinerReads(RedeemErr.EncodeRecord(Emit(e).value)) == Some(RedeemErr.Invalid(Told(e).value))
  {
    if Emit(e).Some? {
      FailureArrives(e);
      RedeemErr.RefusalArrives(Emit(e).value);
    }
    hide RedeemErr.JoinerReads, RedeemErr.EncodeRecord, RedeemErr.Normalize, Hex;
  }

  /** A failed verification never reads to the joiner as a consumed invite, and its
      reason arrives word for word. */
  lemma FailureArrives(e: VerifyError)
    requires Emit(e).Some?
    ensures
      var read := RedeemErr.JoinerReads(RedeemErr.EncodeRecord(Emit(e).value));
      && read.Some? && read.value.Invalid?
      && (Emit(e).value.Other? ==> read == Some(RedeemErr.Invalid(RedeemErr.Text(Emit(e).value.reason))))
  {
    hide RedeemErr.JoinerReads, RedeemErr.EncodeRecord, RedeemErr.PrintableOnly;
    var r := Emit(e).value;
    RedeemErr.RefusalArrives(r);
    if r.Other? {
      RedeemErr.PrintableKept(r.reason);
    }
  }
}
