/** `InviteV2`: the self-contained invite with embedded relay capabilities. */
module InviteV2 {
  import opened Bytes
  import opened Facts
  import RelayCap

  datatype Relay = Relay(url: bytes, capability: Option<bytes>)

  datatype SocketAddr =
    | V4(ip4: Bytes4, port: u16)
    | V6(ip6: Bytes16, port: u16, flowinfo: u32, scope: u32)

  datatype Invite = Invite(
    fabric: Bytes32,
    inviteId: Bytes16,
    issuer: Key,
    expiresAt: u64,
    recipient: Key,
    relays: seq<Relay>,
    addrs: seq<SocketAddr>)

  const MAX_RELAYS: nat := 8
  const MAX_URL_BYTES: nat := 2048
  const MAX_CAP_BYTES: nat := 512
  const MAX_ADDRS: nat := 4
  const VERSION: byte := 2
  const FAMILY_V4: byte := 4
  const FAMILY_V6: byte := 6
  const HEAD_LEN: nat := 136

  // "dweb/invite/v2" and a NUL
  function Domain(): (b: bytes)
    ensures |b| == 15
  {
    [0x64, 0x77, 0x65, 0x62, 0x2f, 0x69, 0x6e, 0x76, 0x69, 0x74, 0x65, 0x2f, 0x76, 0x32, 0x00]
  }

  // ---- Which invites can be encoded -------------------------------------------------------

  /** The capability is well formed, bound to the recipient, and expires no later than
      the invite. */
  predicate CapBound(c: Crypto, cap: bytes, recipient: Key, expiresAt: u64) {
    match RelayCap.Decode(c, cap)
    case None => false
    case Some(k) => k.recipient == recipient && k.expiresAt <= expiresAt
  }

  predicate RelayOk(c: Crypto, r: Relay, recipient: Key, expiresAt: u64) {
    && |r.url| <= MAX_URL_BYTES
    && (r.capability.Some? ==>
        |r.capability.value| <= MAX_CAP_BYTES && CapBound(c, r.capability.value, recipient, expiresAt))
  }

  predicate RelaysOk(c: Crypto, rs: seq<Relay>, recipient: Key, expiresAt: u64) {
    forall i :: 0 <= i < |rs| ==> RelayOk(c, rs[i], recipient, expiresAt)
  }

  /** `canonical_bytes` succeeds exactly on these. */
  predicate Encodable(c: Crypto, v: Invite) {
    && |v.relays| <= MAX_RELAYS
    && |v.addrs| <= MAX_ADDRS
    && RelaysOk(c, v.relays, v.recipient, v.expiresAt)
  }

  /** Rust strings are UTF-8. */
  predicate RelayTyped(r: Relay) {
    Utf8(r.url) && (r.capability.Some? ==> Utf8(r.capability.value))
  }

  predicate RelaysTyped(rs: seq<Relay>) {
    forall i :: 0 <= i < |rs| ==> RelayTyped(rs[i])
  }

  predicate WellTyped(c: Crypto, v: Invite) {
    c.validKey(v.issuer) && c.validKey(v.recipient) && RelaysTyped(v.relays)
  }

  // ---- Encoding -------------------------------------------------------------------------

  function Head(v: Invite): (b: bytes)
    ensures |b| == HEAD_LEN
  {
    Domain() + [VERSION] + v.fabric + v.inviteId + v.issuer + U64Bytes(v.expiresAt) + v.recipient
  }

  function CapBytes(o: Option<bytes>): bytes {
    if o.Some? then o.value else []
  }

  function RelayPart(r: Relay): bytes {
    String16(r.url) + String16(CapBytes(r.capability))
  }

  /** The wire form keeps the address and the port only. */
  function AddrPart(a: SocketAddr): bytes {
    match a
    case V4(ip, port) => [FAMILY_V4] + (ip + U16Bytes(port))
    case V6(ip, port, _, _) => [FAMILY_V6] + (ip + U16Bytes(port))
  }

  /** Counts are cut to a byte, as the source casts them. */
  function Body(v: Invite): bytes {
    [|v.relays| % 256] + (WriteMany(RelayPart, v.relays) + ([|v.addrs| % 256] + WriteMany(AddrPart, v.addrs)))
  }

  function Canonical(c: Crypto, v: Invite): Option<bytes> {
    if Encodable(c, v) then Some(Head(v) + Body(v)) else None
  }

  // ---- Strict parsing: the grammar ---------------------------------------------------------

  function ParseRelay(c: Crypto, b: bytes, recipient: Key, expiresAt: u64): Parsed<Relay> {
    match TakeString16(b, MAX_URL_BYTES)
    case Fail => Fail
    case Got(url, b1) =>
      if !Utf8(url) then Fail
      else
        match TakeString16(b1, MAX_CAP_BYTES)
        case Fail => Fail
        case Got(cap, rest) =>
          if cap == [] then Got(Relay(url, None), rest)
          else if Utf8(cap) && CapBound(c, cap, recipient, expiresAt) then Got(Relay(url, Some(cap)), rest)
          else Fail
  }

  function RelayParser(c: Crypto, recipient: Key, expiresAt: u64): bytes -> Parsed<Relay> {
    b => ParseRelay(c, b, recipient, expiresAt)
  }

  function ParseAddr(b: bytes): Parsed<SocketAddr> {
    if b == [] then Fail
    else if b[0] == FAMILY_V4 then
      if |b| < 7 then Fail else Got(V4(b[1..5], U16Of(b[5..7])), b[7..])
    else if b[0] == FAMILY_V6 then
      if |b| < 19 then Fail else Got(V6(b[1..17], U16Of(b[17..19]), 0, 0), b[19..])
    else Fail
  }

  predicate HeadOk(c: Crypto, b: bytes)
    requires |b| >= HEAD_LEN
  {
    b[..15] == Domain() && b[15] == VERSION && c.validKey(b[64..96]) && c.validKey(b[104..136])
  }

  /** The two counted lists, and nothing after them. */
  function ParseBody(c: Crypto, b: bytes, recipient: Key, expiresAt: u64): Option<(seq<Relay>, seq<SocketAddr>)> {
    if b == [] || b[0] > MAX_RELAYS then None
    else
      match ParseMany(RelayParser(c, recipient, expiresAt), b[1..], b[0])
      case Fail => None
      case Got(relays, b1) =>
        if b1 == [] || b1[0] > MAX_ADDRS then None
        else
          match ParseMany(ParseAddr, b1[1..], b1[0])
          case Fail => None
          case Got(addrs, rest) => if rest == [] then Some((relays, addrs)) else None
  }

  function DecodeStrict(c: Crypto, b: bytes): Option<Invite> {
    if |b| < HEAD_LEN + 2 || !HeadOk(c, b) then None
    else
      var expiresAt := U64Of(b[96..104]);
      match ParseBody(c, b[HEAD_LEN..], b[104..136], expiresAt)
      case None => None
      case Some((relays, addrs)) =>
        Some(Invite(b[16..48], b[48..64], b[64..96], expiresAt, b[104..136], relays, addrs))
  }

  // ---- What is written is read back --------------------------------------------------------

  function WithoutScope(a: SocketAddr): SocketAddr {
    if a.V6? then V6(a.ip6, a.port, 0, 0) else a
  }

  function WithoutScopes(a: seq<SocketAddr>): (r: seq<SocketAddr>)
    ensures |r| == |a| && forall i :: 0 <= i < |a| ==> r[i] == WithoutScope(a[i])
  {
    seq(|a|, i requires 0 <= i < |a| => WithoutScope(a[i]))
  }

  predicate NoScopes(a: seq<SocketAddr>) {
    forall i :: 0 <= i < |a| && a[i].V6? ==> a[i].flowinfo == 0 && a[i].scope == 0
  }

  lemma NoScopesMeans(a: seq<SocketAddr>)
    ensures NoScopes(a) <==> WithoutScopes(a) == a
  {
    if NoScopes(a) {
      assert forall i :: 0 <= i < |a| ==> WithoutScopes(a)[i] == a[i];
    }
    if WithoutScopes(a) == a {
      assert forall i :: 0 <= i < |a| ==> a[i] == WithoutScope(a[i]);
    }
  }

  predicate RelayGood(c: Crypto, r: Relay, recipient: Key, expiresAt: u64) {
    RelayTyped(r) && RelayOk(c, r, recipient, expiresAt)
  }

  lemma RelayReads(c: Crypto, r: Relay, recipient: Key, expiresAt: u64)
    requires RelayGood(c, r, recipient, expiresAt)
    ensures ReadsAs(RelayParser(c, recipient, expiresAt), RelayPart, r, r)
  {
    hide String16, Utf8, TakeString16, CapBound;
    var cap := CapBytes(r.capability);
    CapIsNotEmpty(c, recipient, expiresAt);
    forall tail: bytes
      ensures ParseRelay(c, RelayPart(r) + tail, recipient, expiresAt) == Got(r, tail)
    {
      Assoc(String16(r.url), String16(cap), tail);
      TakeString16Written(r.url, MAX_URL_BYTES, String16(cap) + tail);
      TakeString16Written(cap, MAX_CAP_BYTES, tail);
    }
  }

  lemma CapIsNotEmpty(c: Crypto, recipient: Key, expiresAt: u64)
    ensures !CapBound(c, [], recipient, expiresAt)
  {
  }

  lemma RelaysWritten(c: Crypto, rs: seq<Relay>, recipient: Key, expiresAt: u64, tail: bytes)
    requires RelaysTyped(rs) && RelaysOk(c, rs, recipient, expiresAt)
    ensures ParseMany(RelayParser(c, recipient, expiresAt), WriteMany(RelayPart, rs) + tail, |rs|) == Got(rs, tail)
  {
    hide RelayPart, RelayParser, ReadsAs, RelayTyped, RelayOk;
    var p := RelayParser(c, recipient, expiresAt);
    forall i | 0 <= i < |rs|
      ensures ReadsAs(p, RelayPart, rs[i], rs[i])
    {
      RelayReads(c, rs[i], recipient, expiresAt);
    }
    ManyWritten(p, RelayPart, rs, rs, tail);
  }

  lemma AddrReads(a: SocketAddr)
    ensures ReadsAs(ParseAddr, AddrPart, a, WithoutScope(a))
  {
    forall tail: bytes
      ensures ParseAddr(AddrPart(a) + tail) == Got(WithoutScope(a), tail)
    {
      AddrWritten(a, tail);
    }
  }

  lemma AddrWritten(a: SocketAddr, tail: bytes)
    ensures ParseAddr(AddrPart(a) + tail) == Got(WithoutScope(a), tail)
  {
    hide U16Bytes, U16Of;
    U16RoundTrip(a.port, U16Bytes(0));
    var b := AddrPart(a) + tail;
    match a {
      case V4(ip, port) =>
        assert b[1..5] == ip && b[5..7] == U16Bytes(port) && b[7..] == tail;
      case V6(ip, port, _, _) =>
        assert b[1..17] == ip && b[17..19] == U16Bytes(port) && b[19..] == tail;
    }
  }

  lemma AddrsWritten(a: seq<SocketAddr>, tail: bytes)
    ensures ParseMany(ParseAddr, WriteMany(AddrPart, a) + tail, |a|) == Got(WithoutScopes(a), tail)
  {
    hide AddrPart, ParseAddr, ReadsAs;
    forall i | 0 <= i < |a|
      ensures ReadsAs(ParseAddr, AddrPart, a[i], WithoutScopes(a)[i])
    {
      AddrReads(a[i]);
    }
    ManyWritten(ParseAddr, AddrPart, a, WithoutScopes(a), tail);
  }

  lemma BodyWritten(c: Crypto, v: Invite)
    requires RelaysTyped(v.relays) && Encodable(c, v)
    ensures ParseBody(c, Body(v), v.recipient, v.expiresAt) == Some((v.relays, WithoutScopes(v.addrs)))
  {
    hide RelayPart, AddrPart, WriteMany, ParseMany, RelayParser, ParseAddr, RelaysTyped, RelaysOk;
    var b1 := [|v.addrs|] + WriteMany(AddrPart, v.addrs);
    RelaysWritten(c, v.relays, v.recipient, v.expiresAt, b1);
    assert Body(v)[1..] == WriteMany(RelayPart, v.relays) + b1;
    AddrsWritten(v.addrs, []);
    assert b1[1..] == WriteMany(AddrPart, v.addrs) + [];
  }

  lemma BodyLength(v: Invite)
    ensures |Body(v)| >= 2
  {
    hide WriteMany;
  }

  lemma HeadFields(v: Invite, tail: bytes)
    ensures var b := Head(v) + tail;
      && b[..15] == Domain() && b[15] == VERSION && b[16..48] == v.fabric && b[48..64] == v.inviteId
      && b[64..96] == v.issuer && U64Of(b[96..104]) == v.expiresAt && b[104..136] == v.recipient && b[136..] == tail
  {
    hide Domain, U64Bytes, U64Of;
    var b := Head(v) + tail;
    U64RoundTrip(v.expiresAt, U64Bytes(0));
    assert b[..15] == Domain();
    assert b[16..48] == v.fabric;
    assert b[48..64] == v.inviteId;
    assert b[64..96] == v.issuer;
    assert b[96..104] == U64Bytes(v.expiresAt);
    assert b[104..136] == v.recipient;
    assert b[136..] == tail;
  }

  /** Whatever `canonical_bytes` accepts decodes to the same invite, but for the flow
      information and scope ids of its IPv6 addresses, which become zero. */
  lemma Written(c: Crypto, v: Invite)
    requires WellTyped(c, v) && Canonical(c, v).Some?
    ensures DecodeStrict(c, Canonical(c, v).value) == Some(v.(addrs := WithoutScopes(v.addrs)))
  {
    hide Domain, U64Of, Body, ParseBody, RelaysTyped, RelaysOk;
    BodyLength(v);
    HeadFields(v, Body(v));
    BodyWritten(c, v);
  }

  // ---- What is read is what was written ----------------------------------------------------

  lemma RelayRead(c: Crypto, b: bytes, recipient: Key, expiresAt: u64)
    requires ParseRelay(c, b, recipient, expiresAt).Got?
    ensures var r := ParseRelay(c, b, recipient, expiresAt);
      RelayGood(c, r.value, recipient, expiresAt) && b == RelayPart(r.value) + r.rest
  {
    hide String16, Utf8, CapBound;
    var r := ParseRelay(c, b, recipient, expiresAt);
    Assoc(String16(r.value.url), String16(CapBytes(r.value.capability)), r.rest);
  }

  lemma RelaysRead(c: Crypto, b: bytes, n: nat, recipient: Key, expiresAt: u64)
    requires ParseMany(RelayParser(c, recipient, expiresAt), b, n).Got?
    ensures var r := ParseMany(RelayParser(c, recipient, expiresAt), b, n);
      && RelaysTyped(r.value) && RelaysOk(c, r.value, recipient, expiresAt)
      && b == WriteMany(RelayPart, r.value) + r.rest
  {
    hide RelayPart, ParseRelay, RelayTyped, RelayOk, ParseMany, WriteMany;
    var p := RelayParser(c, recipient, expiresAt);
    var ok := (r: Relay) => RelayGood(c, r, recipient, expiresAt);
    forall x: bytes | p(x).Got?
      ensures ok(p(x).value) && x == RelayPart(p(x).value) + p(x).rest
    {
      RelayRead(c, x, recipient, expiresAt);
    }
    ManyRead(p, RelayPart, ok, b, n);
  }

  predicate AddrOk(a: SocketAddr) {
    WithoutScope(a) == a
  }

  lemma AddrRead(b: bytes)
    requires ParseAddr(b).Got?
    ensures var r := ParseAddr(b); AddrOk(r.value) && b == AddrPart(r.value) + r.rest
  {
    hide U16Bytes, U16Of;
    if b[0] == FAMILY_V4 {
      U16RoundTrip(0, b[5..7]);
    } else {
      U16RoundTrip(0, b[17..19]);
    }
  }

  lemma AddrsRead(b: bytes, n: nat)
    requires ParseMany(ParseAddr, b, n).Got?
    ensures var r := ParseMany(ParseAddr, b, n); b == WriteMany(AddrPart, r.value) + r.rest && WithoutScopes(r.value) == r.value
  {
    hide AddrPart, ParseAddr, ParseMany, WriteMany;
    forall x: bytes | ParseAddr(x).Got?
      ensures AddrOk(ParseAddr(x).value) && x == AddrPart(ParseAddr(x).value) + ParseAddr(x).rest
    {
      AddrRead(x);
    }
    ManyRead(ParseAddr, AddrPart, AddrOk, b, n);
  }

  lemma BodyRead(c: Crypto, b: bytes, v: Invite)
    requires ParseBody(c, b, v.recipient, v.expiresAt) == Some((v.relays, v.addrs))
    ensures RelaysTyped(v.relays) && Encodable(c, v)
    ensures WithoutScopes(v.addrs) == v.addrs && Body(v) == b
  {
    hide RelayPart, AddrPart, WriteMany, ParseMany, RelayParser, ParseAddr, RelaysTyped, RelaysOk, WithoutScopes;
    var p := RelayParser(c, v.recipient, v.expiresAt);
    var b1 := ParseMany(p, b[1..], b[0]).rest;
    RelaysRead(c, b[1..], b[0], v.recipient, v.expiresAt);
    AddrsRead(b1[1..], b1[0]);
    assert b1 == [b1[0]] + b1[1..];
    assert b == [b[0]] + b[1..];
    assert WriteMany(AddrPart, v.addrs) + [] == WriteMany(AddrPart, v.addrs);
  }

  lemma HeadRead(c: Crypto, b: bytes, v: Invite)
    requires |b| >= HEAD_LEN && HeadOk(c, b)
    requires v.fabric == b[16..48] && v.inviteId == b[48..64] && v.issuer == b[64..96]
    requires v.expiresAt == U64Of(b[96..104]) && v.recipient == b[104..136]
    ensures Head(v) == b[..HEAD_LEN]
  {
    hide Domain, U64Bytes, U64Of;
    U64RoundTrip(0, b[96..104]);
    assert b[..136] == b[..15] + [b[15]] + b[16..48] + b[48..64] + b[64..96] + b[96..104] + b[104..136];
  }

  /** Whatever the decoder accepts is an invite that re-encodes to the same bytes. */
  lemma Read(c: Crypto, b: bytes)
    requires DecodeStrict(c, b).Some?
    ensures var v := DecodeStrict(c, b).value;
      WellTyped(c, v) && Canonical(c, v) == Some(b) && WithoutScopes(v.addrs) == v.addrs
  {
    hide Domain, U64Of, ParseBody, RelaysTyped, RelaysOk, WithoutScopes, Head, Body;
    var v := DecodeStrict(c, b).value;
    BodyRead(c, b[HEAD_LEN..], v);
    HeadRead(c, b, v);
    SplitAt(b, HEAD_LEN);
  }

  // ---- Main results ------------------------------------------------------------------------

  /** Encoder and decoder are mutual inverses on invites without IPv6 flow information
      and scope ids. */
  lemma DecodesExactly(c: Crypto, b: bytes, v: Invite)
    ensures DecodeStrict(c, b) == Some(v) <==> WellTyped(c, v) && NoScopes(v.addrs) && Canonical(c, v) == Some(b)
  {
    hide DecodeStrict, Canonical, WellTyped, NoScopes, WithoutScopes;
    NoScopesMeans(v.addrs);
    if DecodeStrict(c, b) == Some(v) {
      Read(c, b);
    }
    if WellTyped(c, v) && NoScopes(v.addrs) && Canonical(c, v) == Some(b) {
      Written(c, v);
    }
  }

  /** An encodable invite survives the round trip exactly when none of its IPv6
      addresses has flow information or a scope id. */
  lemma RoundTripsExactly(c: Crypto, v: Invite)
    requires WellTyped(c, v) && Canonical(c, v).Some?
    ensures DecodeStrict(c, Canonical(c, v).value) == Some(v) <==> NoScopes(v.addrs)
  {
    hide DecodeStrict, Canonical, WellTyped, NoScopes, WithoutScopes;
    Written(c, v);
    NoScopesMeans(v.addrs);
  }

  /** Every capability of an accepted invite is a well-formed one for the invite's
      recipient that expires no later than the invite. */
  lemma AcceptedCapsAreBound(c: Crypto, b: bytes, i: nat)
    requires DecodeStrict(c, b).Some?
    requires i < |DecodeStrict(c, b).value.relays| && DecodeStrict(c, b).value.relays[i].capability.Some?
    ensures
      var v := DecodeStrict(c, b).value;
      var k := RelayCap.Decode(c, v.relays[i].capability.value);
      k.Some? && k.value.recipient == v.recipient && k.value.expiresAt <= v.expiresAt
  {
    hide DecodeStrict, WellTyped, WithoutScopes, Head, Body;
    Read(c, b);
    CapIsBound(c, DecodeStrict(c, b).value, i);
  }

  lemma CapIsBound(c: Crypto, v: Invite, i: nat)
    requires Encodable(c, v) && i < |v.relays| && v.relays[i].capability.Some?
    ensures CapBound(c, v.relays[i].capability.value, v.recipient, v.expiresAt)
  {
    hide CapBound;
    assert RelayOk(c, v.relays[i], v.recipient, v.expiresAt);
  }

  // ---- The code ----------------------------------------------------------------------------

  method ReadRelay(c: Crypto, b: bytes, start: nat, recipient: Key, expiresAt: u64)
    returns (ok: bool, relay: Relay, off: nat)
    requires start <= |b|
    ensures off <= |b|
    ensures ParseRelay(c, b[start..], recipient, expiresAt) == if ok then Got(relay, b[off..]) else Fail
  {
    hide TakeString16, Utf8, CapBound;
    relay := Relay([], None);
    var url;
    ok, url, off := ReadString16(b, start, MAX_URL_BYTES);
    if !ok { return; }
    if !Utf8(url) { return false, relay, off; }
    var cap;
    ok, cap, off := ReadString16(b, off, MAX_CAP_BYTES);
    if !ok { return; }
    if cap == [] { return true, Relay(url, None), off; }
    if !Utf8(cap) { return false, relay, off; }
    if !CapBound(c, cap, recipient, expiresAt) { return false, relay, off; }
    return true, Relay(url, Some(cap)), off;
  }

  method ReadRelays(c: Crypto, b: bytes, start: nat, count: nat, recipient: Key, expiresAt: u64)
    returns (ok: bool, relays: seq<Relay>, off: nat)
    requires start <= |b|
    ensures off <= |b|
    ensures ParseMany(RelayParser(c, recipient, expiresAt), b[start..], count) == if ok then Got(relays, b[off..]) else Fail
  {
    hide ParseRelay;
    off := start;
    relays := [];
    PrependNothing(ParseMany(RelayParser(c, recipient, expiresAt), b[start..], count));
    for i := 0 to count
      invariant off <= |b|
      invariant ParseMany(RelayParser(c, recipient, expiresAt), b[start..], count)
             == Prepend(relays, ParseMany(RelayParser(c, recipient, expiresAt), b[off..], count - i))
    {
      var relay;
      ok, relay, off := ReadRelay(c, b, off, recipient, expiresAt);
      if !ok { return false, relays, off; }
      PrependMore(relays, relay, ParseMany(RelayParser(c, recipient, expiresAt), b[off..], count - i - 1));
      relays := relays + [relay];
    }
    assert relays + [] == relays;
    ok := true;
  }

  method ReadAddr(b: bytes, start: nat) returns (ok: bool, addr: SocketAddr, off: nat)
    requires start <= |b|
    ensures off <= |b|
    ensures ParseAddr(b[start..]) == if ok then Got(addr, b[off..]) else Fail
  {
    hide U16Of;
    off := start;
    addr := V4([0, 0, 0, 0], 0);
    if |b| < off + 1 { return false, addr, off; }
    var family := b[off];
    off := off + 1;
    if family == FAMILY_V4 {
      if |b| < off + 4 + 2 { return false, addr, off; }
      var ip := b[off..off + 4];
      off := off + 4;
      var port := U16Of(b[off..off + 2]);
      off := off + 2;
      assert b[start..][1..5] == ip && b[start..][5..7] == b[off - 2..off] && b[start..][7..] == b[off..];
      addr := V4(ip, port);
    } else if family == FAMILY_V6 {
      if |b| < off + 16 + 2 { return false, addr, off; }
      var octets := b[off..off + 16];
      off := off + 16;
      var port := U16Of(b[off..off + 2]);
      off := off + 2;
      assert b[start..][1..17] == octets && b[start..][17..19] == b[off - 2..off] && b[start..][19..] == b[off..];
      addr := V6(octets, port, 0, 0);
    } else {
      return false, addr, off;
    }
    ok := true;
  }

  method ReadAddrs(b: bytes, start: nat, count: nat) returns (ok: bool, addrs: seq<SocketAddr>, off: nat)
    requires start <= |b|
    ensures off <= |b|
    ensures ParseMany(ParseAddr, b[start..], count) == if ok then Got(addrs, b[off..]) else Fail
  {
    hide ParseAddr;
    off := start;
    addrs := [];
    PrependNothing(ParseMany(ParseAddr, b[start..], count));
    for i := 0 to count
      invariant off <= |b|
      invariant ParseMany(ParseAddr, b[start..], count) == Prepend(addrs, ParseMany(ParseAddr, b[off..], count - i))
    {
      var addr;
      ok, addr, off := ReadAddr(b, off);
      if !ok { return false, addrs, off; }
      PrependMore(addrs, addr, ParseMany(ParseAddr, b[off..], count - i - 1));
      addrs := addrs + [addr];
    }
    assert addrs + [] == addrs;
    ok := true;
  }

  /** `decode_strict`, one offset moved over the bytes. */
  method Decode(c: Crypto, b: bytes) returns (r: Option<Invite>)
    ensures r == DecodeStrict(c, b)
  {
    hide U64Of, Domain, ParseMany, RelayParser, ParseAddr;
    if |b| < HEAD_LEN + 2 { return None; }
    if b[..15] != Domain() { return None; }
    if b[15] != VERSION { return None; }
    if !c.validKey(b[64..96]) { return None; }
    var expiresAt := U64Of(b[96..104]);
    if !c.validKey(b[104..136]) { return None; }
    var recipient := b[104..136];
    var off := HEAD_LEN;
    var body := b[HEAD_LEN..];
    var relayCount := b[off];
    off := off + 1;
    if relayCount > MAX_RELAYS { return None; }
    assert body[1..] == b[off..];
    var ok, relays, addrs;
    ok, relays, off := ReadRelays(c, b, off, relayCount, recipient, expiresAt);
    if !ok { return None; }
    if |b| < off + 1 { return None; }
    var addrCount := b[off];
    assert b[off..][1..] == b[off + 1..];
    off := off + 1;
    if addrCount > MAX_ADDRS { return None; }
    ok, addrs, off := ReadAddrs(b, off, addrCount);
    if !ok { return None; }
    if |b| != off { return None; }
    return Some(Invite(b[16..48], b[48..64], b[64..96], expiresAt, recipient, relays, addrs));
  }
}
