/** `InviteV1`: the first form of the self-contained invite. */
module InviteV1 {
  import opened Bytes
  import opened Facts

  datatype Invite = Invite(
    fabric: Bytes32,
    inviteId: Bytes16,
    issuer: Key,
    relayUrl: bytes,
    addrs: seq<bytes>,
    expiresAt: u64,
    recipient: Option<Key>)

  const MAX_URL_BYTES: nat := 2048
  const MAX_ADDRS: nat := 4
  const MAX_ADDR_BYTES: nat := 64
  const VERSION: byte := 1
  const HEAD_LEN: nat := 96
  const MIN_LEN: nat := 109

  // "dweb/invite/v1" and a NUL
  function Domain(): (b: bytes)
    ensures |b| == 15
  {
    [0x64, 0x77, 0x65, 0x62, 0x2f, 0x69, 0x6e, 0x76, 0x69, 0x74, 0x65, 0x2f, 0x76, 0x31, 0x00]
  }

  predicate AddrsFit(a: seq<bytes>) {
    forall i :: 0 <= i < |a| ==> |a[i]| <= MAX_ADDR_BYTES
  }

  /** `canonical_bytes` succeeds exactly on these. */
  predicate Encodable(v: Invite) {
    |v.relayUrl| <= MAX_URL_BYTES && |v.addrs| <= MAX_ADDRS && AddrsFit(v.addrs)
  }

  predicate AddrsTyped(a: seq<bytes>) {
    forall i :: 0 <= i < |a| ==> Utf8(a[i])
  }

  /** Rust strings are UTF-8 and endpoint ids are valid keys. */
  predicate WellTyped(c: Crypto, v: Invite) {
    && c.validKey(v.issuer)
    && Utf8(v.relayUrl)
    && AddrsTyped(v.addrs)
    && (v.recipient.Some? ==> c.validKey(v.recipient.value))
  }

  // ---- Encoding -------------------------------------------------------------------------

  function Head(v: Invite): (b: bytes)
    ensures |b| == HEAD_LEN
  {
    Domain() + [VERSION] + v.fabric + v.inviteId + v.issuer
  }

  /** The length is cut to a byte, as the source casts it. */
  function AddrPart(a: bytes): bytes {
    [|a| % 256] + a
  }

  function RecipientPart(r: Option<Key>): bytes {
    if r.Some? then [1] + r.value else [0]
  }

  /** Expiry, flags, optional recipient, and `max_uses`, fixed at one. */
  function End(v: Invite): (b: bytes)
    ensures |b| >= 10
  {
    U64Bytes(v.expiresAt) + (RecipientPart(v.recipient) + [1])
  }

  function Body(v: Invite): (b: bytes)
    requires Encodable(v)
    ensures |b| >= 13
  {
    String16(v.relayUrl) + ([|v.addrs|] + (WriteMany(AddrPart, v.addrs) + End(v)))
  }

  function Canonical(v: Invite): Option<bytes> {
    if Encodable(v) then Some(Head(v) + Body(v)) else None
  }

  // ---- Strict parsing: the grammar ---------------------------------------------------------

  function ParseAddr(b: bytes): Parsed<bytes> {
    if b == [] || b[0] > MAX_ADDR_BYTES then Fail
    else
      match Take(b[1..], b[0])
      case Fail => Fail
      case Got(a, rest) => if Utf8(a) then Got(a, rest) else Fail
  }

  function ParseEnd(c: Crypto, b: bytes): Option<(u64, Option<Key>)> {
    if |b| < 9 || b[8] > 1 then None
    else if b[8] == 0 then
      if b[9..] == [1] then Some((U64Of(b[..8]), None)) else None
    else if |b| < 41 || !c.validKey(b[9..41]) then None
    else if b[41..] == [1] then Some((U64Of(b[..8]), Some(b[9..41]))) else None
  }

  function ParseBody(c: Crypto, b: bytes): Option<(bytes, seq<bytes>, u64, Option<Key>)> {
    match TakeString16(b, MAX_URL_BYTES)
    case Fail => None
    case Got(url, b1) =>
      if !Utf8(url) || b1 == [] || b1[0] > MAX_ADDRS then None
      else
        match ParseMany(ParseAddr, b1[1..], b1[0])
        case Fail => None
        case Got(addrs, b2) =>
          match ParseEnd(c, b2)
          case None => None
          case Some((expiresAt, recipient)) => Some((url, addrs, expiresAt, recipient))
  }

  predicate HeadOk(c: Crypto, b: bytes)
    requires |b| >= HEAD_LEN
  {
    b[..15] == Domain() && b[15] == VERSION && c.validKey(b[64..96])
  }

  function DecodeStrict(c: Crypto, b: bytes): Option<Invite> {
    if |b| < MIN_LEN || !HeadOk(c, b) then None
    else
      match ParseBody(c, b[HEAD_LEN..])
      case None => None
      case Some((url, addrs, expiresAt, recipient)) =>
        Some(Invite(b[16..48], b[48..64], b[64..96], url, addrs, expiresAt, recipient))
  }

  // ---- What is written is read back --------------------------------------------------------

  predicate AddrOk(a: bytes) {
    |a| <= MAX_ADDR_BYTES && Utf8(a)
  }

  lemma AddrReads(a: bytes)
    requires AddrOk(a)
    ensures ReadsAs(ParseAddr, AddrPart, a, a)
  {
    hide Utf8, Take;
    forall tail: bytes
      ensures ParseAddr(AddrPart(a) + tail) == Got(a, tail)
    {
      TakeWritten(a, tail);
      Assoc([|a|], a, tail);
      assert ([|a|] + (a + tail))[1..] == a + tail;
    }
  }

  lemma AddrsWritten(a: seq<bytes>, tail: bytes)
    requires AddrsFit(a) && AddrsTyped(a)
    ensures ParseMany(ParseAddr, WriteMany(AddrPart, a) + tail, |a|) == Got(a, tail)
  {
    hide AddrPart, ParseAddr, Utf8, ReadsAs;
    forall i | 0 <= i < |a|
      ensures ReadsAs(ParseAddr, AddrPart, a[i], a[i])
    {
      AddrReads(a[i]);
    }
    ManyWritten(ParseAddr, AddrPart, a, a, tail);
  }

  lemma EndWritten(c: Crypto, v: Invite)
    requires v.recipient.Some? ==> c.validKey(v.recipient.value)
    ensures ParseEnd(c, End(v)) == Some((v.expiresAt, v.recipient))
  {
    hide U64Bytes, U64Of;
    var b := End(v);
    U64RoundTrip(v.expiresAt, U64Bytes(0));
    assert b[..8] == U64Bytes(v.expiresAt);
    if v.recipient.Some? {
      assert b[9..41] == v.recipient.value && b[41..] == [1];
    } else {
      assert b[9..] == [1];
    }
  }

  lemma BodyWritten(c: Crypto, v: Invite)
    requires WellTyped(c, v) && Encodable(v)
    ensures ParseBody(c, Body(v)) == Some((v.relayUrl, v.addrs, v.expiresAt, v.recipient))
  {
    hide U16Bytes, TakeString16, Utf8, WriteMany, ParseMany, AddrPart, ParseAddr, End, ParseEnd;
    var b2 := WriteMany(AddrPart, v.addrs) + End(v);
    var b1 := [|v.addrs|] + b2;
    TakeString16Written(v.relayUrl, MAX_URL_BYTES, b1);
    assert b1[1..] == b2;
    AddrsWritten(v.addrs, End(v));
    EndWritten(c, v);
  }

  lemma HeadFields(v: Invite, tail: bytes)
    ensures var b := Head(v) + tail;
      && b[..15] == Domain() && b[15] == VERSION && b[16..48] == v.fabric && b[48..64] == v.inviteId
      && b[64..96] == v.issuer && b[96..] == tail
  {
    hide Domain;
    var b := Head(v) + tail;
    assert b[..15] == Domain();
    assert b[16..48] == v.fabric;
    assert b[48..64] == v.inviteId;
    assert b[64..96] == v.issuer;
    assert b[96..] == tail;
  }

  lemma Written(c: Crypto, v: Invite)
    requires WellTyped(c, v) && Canonical(v).Some?
    ensures DecodeStrict(c, Canonical(v).value) == Some(v)
  {
    hide Domain, ParseBody, AddrsTyped, AddrsFit, Utf8, Body;
    HeadFields(v, Body(v));
    BodyWritten(c, v);
  }

  // ---- What is read is what was written ----------------------------------------------------

  lemma AddrRead(b: bytes)
    requires ParseAddr(b).Got?
    ensures var r := ParseAddr(b); AddrOk(r.value) && b == AddrPart(r.value) + r.rest
  {
    hide Utf8;
    assert b == [b[0]] + b[1..];
  }

  lemma AddrsRead(b: bytes, n: nat)
    requires ParseMany(ParseAddr, b, n).Got?
    ensures var r := ParseMany(ParseAddr, b, n);
      AddrsFit(r.value) && AddrsTyped(r.value) && b == WriteMany(AddrPart, r.value) + r.rest
  {
    hide AddrPart, ParseAddr, Utf8, ParseMany, WriteMany;
    forall x: bytes | ParseAddr(x).Got?
      ensures AddrOk(ParseAddr(x).value) && x == AddrPart(ParseAddr(x).value) + ParseAddr(x).rest
    {
      AddrRead(x);
    }
    ManyRead(ParseAddr, AddrPart, AddrOk, b, n);
  }

  lemma EndRead(c: Crypto, b: bytes, v: Invite)
    requires ParseEnd(c, b) == Some((v.expiresAt, v.recipient))
    ensures End(v) == b
    ensures v.recipient.Some? ==> c.validKey(v.recipient.value)
  {
    hide U64Bytes, U64Of;
    U64RoundTrip(0, b[..8]);
    if b[8] == 1 {
      assert b == b[..8] + ([b[8]] + b[9..41] + b[41..]);
    } else {
      assert b == b[..8] + ([b[8]] + b[9..]);
    }
  }

  lemma BodyRead(c: Crypto, b: bytes, v: Invite)
    requires ParseBody(c, b) == Some((v.relayUrl, v.addrs, v.expiresAt, v.recipient))
    ensures Encodable(v) && Body(v) == b
    ensures Utf8(v.relayUrl) && AddrsTyped(v.addrs) && (v.recipient.Some? ==> c.validKey(v.recipient.value))
  {
    hide U16Bytes, Utf8, WriteMany, ParseMany, AddrPart, ParseAddr, End, ParseEnd, AddrsFit, AddrsTyped, TakeString16;
    var b1 := TakeString16(b, MAX_URL_BYTES).rest;
    var b2 := ParseMany(ParseAddr, b1[1..], b1[0]).rest;
    AddrsRead(b1[1..], b1[0]);
    EndRead(c, b2, v);
    assert b1 == [b1[0]] + b1[1..];
  }

  lemma HeadRead(c: Crypto, b: bytes, v: Invite)
    requires |b| >= HEAD_LEN && HeadOk(c, b)
    requires v.fabric == b[16..48] && v.inviteId == b[48..64] && v.issuer == b[64..96]
    ensures Head(v) == b[..HEAD_LEN]
  {
    hide Domain;
    assert b[..96] == b[..15] + [b[15]] + b[16..48] + b[48..64] + b[64..96];
  }

  lemma Read(c: Crypto, b: bytes)
    requires DecodeStrict(c, b).Some?
    ensures var v := DecodeStrict(c, b).value; WellTyped(c, v) && Canonical(v) == Some(b)
  {
    hide Domain, ParseBody, AddrsTyped, AddrsFit, Utf8, Body, Head;
    var v := DecodeStrict(c, b).value;
    BodyRead(c, b[HEAD_LEN..], v);
    HeadRead(c, b, v);
    SplitAt(b, HEAD_LEN);
  }

  /** Encoder and strict decoder are mutual inverses. */
  lemma DecodesExactly(c: Crypto, b: bytes, v: Invite)
    ensures DecodeStrict(c, b) == Some(v) <==> WellTyped(c, v) && Canonical(v) == Some(b)
  {
    hide DecodeStrict, Canonical, WellTyped;
    if DecodeStrict(c, b) == Some(v) {
      Read(c, b);
    }
    if WellTyped(c, v) && Canonical(v) == Some(b) {
      Written(c, v);
    }
  }

  // ---- The code ----------------------------------------------------------------------------

  method ReadAddr(b: bytes, start: nat) returns (ok: bool, addr: bytes, off: nat)
    requires start <= |b|
    ensures off <= |b|
    ensures ParseAddr(b[start..]) == if ok then Got(addr, b[off..]) else Fail
  {
    hide Utf8;
    off := start;
    addr := [];
    if |b| < off + 1 { return false, addr, off; }
    var addrLen := b[off];
    assert b[off..][1..] == b[off + 1..];
    off := off + 1;
    if addrLen > MAX_ADDR_BYTES { return false, addr, off; }
    if |b| < off + addrLen { return false, addr, off; }
    addr := b[off..off + addrLen];
    assert b[off..][..addrLen] == addr && b[off..][addrLen..] == b[off + addrLen..];
    if !Utf8(addr) { return false, addr, off; }
    off := off + addrLen;
    ok := true;
  }

  method ReadAddrs(b: bytes, start: nat, count: nat) returns (ok: bool, addrs: seq<bytes>, off: nat)
    requires start <= |b|
    ensures off <= |b|
    ensures ParseMany(ParseAddr, b[start..], count) == if ok then Got(addrs, b[off..]) else Fail
  {
    hide ParseAddr;
    off := start;
    addrs := [];
    PrependNothing(ParseMany(ParseAddr, b[start..], count));
    for i := 0 to count
      invariant off <= |b|
      invariant ParseMany(ParseAddr, b[start..], count) == Prepend(addrs, ParseMany(ParseAddr, b[off..], count - i))
    {
      var addr;
      ok, addr, off := ReadAddr(b, off);
      if !ok { return false, addrs, off; }
      PrependMore(addrs, addr, ParseMany(ParseAddr, b[off..], count - i - 1));
      addrs := addrs + [addr];
    }
    assert addrs + [] == addrs;
    ok := true;
  }

  method ReadEnd(c: Crypto, b: bytes, start: nat) returns (r: Option<(u64, Option<Key>)>)
    requires start <= |b|
    ensures r == ParseEnd(c, b[start..])
  {
    hide U64Of;
    var off := start;
    ghost var e := b[start..];
    if |b| < off + 8 + 1 { return None; }
    var expiresAt := U64Of(b[off..off + 8]);
    assert e[..8] == b[off..off + 8];
    off := off + 8;
    var flags := b[off];
    off := off + 1;
    if flags > 1 { return None; }
    var recipient := None;
    if flags == 1 {
      if |b| < off + 32 { return None; }
      assert e[9..41] == b[off..off + 32];
      if !c.validKey(b[off..off + 32]) { return None; }
      recipient := Some(b[off..off + 32]);
      off := off + 32;
    }
    assert e[off - start..] == b[off..];
    if |b| != off + 1 { return None; }
    if b[off] != 1 { return None; }
    return Some((expiresAt, recipient));
  }

  /** `decode_strict`, one offset moved over the bytes. */
  method Decode(c: Crypto, b: bytes) returns (r: Option<Invite>)
    ensures r == DecodeStrict(c, b)
  {
    hide U64Of, Domain, ParseMany, ParseEnd, TakeString16, Utf8;
    if |b| < MIN_LEN { return None; }
    if b[..15] != Domain() { return None; }
    if b[15] != VERSION { return None; }
    if !c.validKey(b[64..96]) { return None; }
    var ok, url, off := ReadString16(b, HEAD_LEN, MAX_URL_BYTES);
    if !ok { return None; }
    if !Utf8(url) { return None; }
    if |b| < off + 1 { return None; }
    var count := b[off];
    assert b[off..][1..] == b[off + 1..];
    off := off + 1;
    if count > MAX_ADDRS { return None; }
    var addrs;
    ok, addrs, off := ReadAddrs(b, off, count);
    if !ok { return None; }
    var end := ReadEnd(c, b, off);
    if end == None { return None; }
    return Some(Invite(b[16..48], b[48..64], b[64..96], url, addrs, end.value.0, end.value.1));
  }
}
