/** The bytes on the wire and on disk, field by field: what a reader of the format finds
    where. The codecs' own theorems say that each is undone by its reader. */
module WireLayouts {
  import opened Bytes
  import opened Facts
  import FactCodec
  import FactFrames
  import Base64Url
  import RelayCap
  import InviteV1
  import InviteV2
  import InviteTokens
  import InviteLog
  import Frames
  import RedeemErr
  import Receipt

  // ---- Integers and text ------------------------------------------------------------------

  lemma LastByte(n: nat, k: nat)
    requires k > 0 && n < Pow256(k)
    ensures n / 256 < Pow256(k - 1) && BigEndian(n, k) == BigEndian(n / 256, k - 1) + [n % 256]
  {
  }

  /** The most significant byte stands first. */
  lemma IntegerLayout(n16: u16, n32: u32, n64: u64)
    ensures U16Bytes(n16) == [n16 / 0x100, n16 % 0x100]
    ensures U32Bytes(n32) == U16Bytes(n32 / 0x1_0000) + U16Bytes(n32 % 0x1_0000)
    ensures U64Bytes(n64) == U32Bytes(n64 / 0x1_0000_0000) + U32Bytes(n64 % 0x1_0000_0000)
  {
    TwoBytes(n16);
    FourBytes(n32);
    EightBytes(n64);
  }

  lemma TwoBytes(n: u16)
    ensures U16Bytes(n) == [n / 0x100, n % 0x100]
  {
    PowerFacts();
    LastByte(n, 2);
    LastByte(n / 256, 1);
  }

  lemma FourBytes(n: u32)
    ensures U32Bytes(n) == U16Bytes(n / 0x1_0000) + U16Bytes(n % 0x1_0000)
  {
    PowerFacts();
    hide BigEndian;
    LastByte(n, 4);
    LastByte(n / 256, 3);
    TwoBytes(n % 0x1_0000);
    Halves(n, 256, 256);
  }

  lemma Halves(n: nat, a: nat, b: nat)
    requires a == 256 && b == 256
    ensures n / a / b == n / 0x1_0000 && n % 0x1_0000 / 0x100 == n / 256 % 256 && n % 0x1_0000 % 0x100 == n % 256
  {
  }

  lemma EightBytes(n: u64)
    ensures U64Bytes(n) == U32Bytes(n / 0x1_0000_0000) + U32Bytes(n % 0x1_0000_0000)
  {
    PowerFacts();
    Pow256Three();
    hide BigEndian, Pow256;
    LastByte(n, 8);
    LastByte(n / 0x100, 7);
    LastByte(n / 0x1_0000, 6);
    LastByte(n / 0x100_0000, 5);
    var low := n % 0x1_0000_0000;
    FourBytes(low);
    TwoBytes(low / 0x1_0000);
    TwoBytes(low % 0x1_0000);
    Quarters(n);
  }

  lemma Pow256Three()
    ensures Pow256(3) == 0x100_0000 && Pow256(5) == 0x100_0000_0000
    ensures Pow256(6) == 0x1_0000_0000_0000 && Pow256(7) == 0x100_0000_0000_0000
  {
  }

  lemma Quarters(n: nat)
    ensures n / 0x100 / 256 == n / 0x1_0000 && n / 0x1_0000 / 256 == n / 0x100_0000 && n / 0x100_0000 / 256 == n / 0x1_0000_0000
    ensures n % 0x1_0000_0000 / 0x1_0000 / 0x100 == n / 0x100_0000 % 256
    ensures n % 0x1_0000_0000 / 0x1_0000 % 0x100 == n / 0x1_0000 % 256
    ensures n % 0x1_0000_0000 % 0x1_0000 / 0x100 == n / 0x100 % 256
    ensures n % 0x1_0000_0000 % 0x1_0000 % 0x100 == n % 256
  {
  }

  /** The alphabet of section 5 of RFC 4648. */
  lemma AlphabetIs()
    ensures seq(26, i requires 0 <= i < 26 => Base64Url.Symbol(i)) == Ascii("ABCDEFGHIJKLMNOPQRSTUVWXYZ")
    ensures seq(26, i requires 0 <= i < 26 => Base64Url.Symbol(26 + i)) == Ascii("abcdefghijklmnopqrstuvwxyz")
    ensures seq(12, i requires 0 <= i < 12 => Base64Url.Symbol(52 + i)) == Ascii("0123456789-_")
  {
  }

  lemma SixBits(x: byte, y: byte, z: byte)
    ensures
      var n := x * 0x1_0000 + y * 0x100 + z;
      && n / 0x4_0000 == x / 4 && n / 0x1000 % 64 == x % 4 * 16 + y / 16
      && n / 64 % 64 == y % 16 * 4 + z / 64 && n % 64 == z % 64
  {
    var n := x * 0x1_0000 + y * 0x100 + z;
    assert x == x / 4 * 4 + x % 4 && y == y / 16 * 16 + y % 16 && z == z / 64 * 64 + z % 64;
    assert n / 0x4_0000 == x / 4;
    assert n / 0x1000 == x * 16 + y / 16;
    assert n / 64 == x * 1024 + y * 4 + z / 64;
  }

  /** Three bytes are four symbols of six bits each, the first bits first. */
  lemma GroupIs(x: byte, y: byte, z: byte, rest: bytes)
    ensures
      var n := x * 0x1_0000 + y * 0x100 + z;
      Base64Url.Encode([x, y, z] + rest)
        == [Base64Url.Symbol(n / 0x4_0000), Base64Url.Symbol(n / 0x1000 % 64), Base64Url.Symbol(n / 64 % 64), Base64Url.Symbol(n % 64)]
           + Base64Url.Encode(rest)
  {
    hide Base64Url.Symbol;
    SixBits(x, y, z);
    assert ([x, y, z] + rest)[3..] == rest;
  }

  /** One or two bytes left over are two or three symbols, filled up with zero bits. */
  lemma RestIs(x: byte, y: byte)
    ensures Base64Url.Encode([x]) == [Base64Url.Symbol(x / 4), Base64Url.Symbol(x % 4 * 16)]
    ensures
      Base64Url.Encode([x, y])
        == [Base64Url.Symbol(x / 4), Base64Url.Symbol(x % 4 * 16 + y / 16), Base64Url.Symbol(y % 16 * 4)]
  {
    hide Base64Url.Symbol;
  }

  // ---- Facts ----------------------------------------------------------------------------------

  function FactTail(f: Fact): bytes {
    (if f.name.Some? then U16Bytes(|f.name.value| % 0x1_0000) + f.name.value else [])
    + ((if f.expiresAt.Some? then U64Bytes(f.expiresAt.value) else [])
       + (if f.target.Some? then f.target.value else []))
  }

  lemma FactText()
    ensures FactCodec.FactDomain() == Ascii("dweb/fact/v1\0")
  {
  }

  /** The canonical fact. */
  lemma FactLayout(f: Fact)
    ensures
      var b := FactCodec.Canonical(f);
      && |b| >= 119
      && b[..13] == Ascii("dweb/fact/v1\0")
      && b[13] == (match f.kind case Genesis => 1 case Grant => 2 case Join => 3 case Revoke => 4)
      && b[14..46] == f.fabric && b[46..78] == f.issuer && b[78..110] == f.subject && U64Of(b[110..118]) == f.issuedAt
      && b[118] == (if f.name.Some? then 1 else 0) + (if f.expiresAt.Some? then 2 else 0) + (if f.target.Some? then 4 else 0)
      && b[119..] == FactTail(f)
  {
    hide U64Bytes, U64Of, U16Bytes, FactCodec.FactDomain, FactCodec.FixedPart, Ascii;
    FactText();
    FactCodec.FixedPartFields(f, FactCodec.OptionalPart(FactCodec.OptionalsOf(f)));
  }

  /** The signed frame: the length of the fact, the fact, its signature. */
  lemma SignedFrameLayout(sf: SignedFact)
    ensures
      var b := FactFrames.Encode(sf);
      var fact := FactCodec.Canonical(sf.fact);
      && |b| == 4 + |fact| + 64
      && b[..4] == U32Bytes(|fact| % 0x1_0000_0000) && b[4..4 + |fact|] == fact && b[4 + |fact|..] == sf.signature
  {
    hide U32Bytes, FactCodec.Canonical;
  }

  // ---- Capabilities -------------------------------------------------------------------------------

  /** The relay capability and its token. */
  lemma CapLayout(k: RelayCap.RelayCap, sig: Signature)
    ensures
      var w := RelayCap.Canonical(k) + sig;
      && |w| == 210 && w[0] == 1
      && w[1..33] == k.fabric && w[33..65] == k.server && w[65..97] == k.issuer && w[97..129] == k.recipient
      && w[129] == k.caps && w[130..138] == U64Bytes(k.issuedAt) && w[138..146] == U64Bytes(k.expiresAt) && w[146..] == sig
      && RelayCap.Token(w) == RelayCap.PREFIX + Base64Url.Encode(w)
  {
    hide U64Bytes, Base64Url.Encode;
  }

  lemma CapTexts()
    ensures RelayCap.PREFIX == Ascii("dwebr1.")
    ensures RelayCap.DOMAIN == Ascii("dweb/relay-cap/v1\0")
  {
  }

  /** What a token is refused a signature for: reserved bits, an issue time after the
      expiry, or a lifetime of more than 180 days. */
  lemma CapRefused(c: Crypto, secret: Bytes32, fabric: Bytes32, server: Bytes32, recipient: Key, caps: byte, issuedAt: u64, expiresAt: u64)
    ensures
      var r := RelayCap.SignAndEncode(c, secret, fabric, server, recipient, caps, issuedAt, expiresAt);
      && (r == Err(RelayCap.ReservedBits) <==> caps >= 8)
      && (r == Err(RelayCap.IssuedAfterExpiry) <==> caps < 8 && issuedAt > expiresAt)
      && (r == Err(RelayCap.TtlTooLong) <==> caps < 8 && expiresAt > issuedAt + 15_552_000_000)
  {
    hide RelayCap.Token, RelayCap.Canonical;
  }

  // ---- Invites -------------------------------------------------------------------------------------

  /** Version 1: the fixed head, the relay, the counted addresses, and at the end the
      expiry, the optional recipient and the number of uses. */
  lemma InviteV1Layout(v: InviteV1.Invite)
    requires InviteV1.Encodable(v)
    ensures InviteV1.Canonical(v).Some?
    ensures
      var b := InviteV1.Canonical(v).value;
      && |b| >= 96 && b[..15] == Ascii("dweb/invite/v1\0") && b[15] == 1
      && b[16..48] == v.fabric && b[48..64] == v.inviteId && b[64..96] == v.issuer
      && b[96..] == U16Bytes(|v.relayUrl|) + v.relayUrl + [|v.addrs|] + WriteMany(InviteV1.AddrPart, v.addrs)
                    + U64Bytes(v.expiresAt) + (if v.recipient.Some? then [1] + v.recipient.value else [0]) + [1]
  {
    hide U64Bytes, U16Bytes, WriteMany, InviteV1.Domain, InviteV1.End, InviteV1.Head, Ascii;
    var b := InviteV1.Canonical(v).value;
    InviteV1.HeadFields(v, InviteV1.Body(v));
    V1Text();
    V1Body(v);
  }

  lemma V1Text()
    ensures InviteV1.Domain() == Ascii("dweb/invite/v1\0")
  {
  }

  lemma V1Body(v: InviteV1.Invite)
    requires InviteV1.Encodable(v)
    ensures InviteV1.Body(v) ==
      U16Bytes(|v.relayUrl|) + v.relayUrl + [|v.addrs|] + WriteMany(InviteV1.AddrPart, v.addrs)
      + U64Bytes(v.expiresAt) + (if v.recipient.Some? then [1] + v.recipient.value else [0]) + [1]
  {
    hide U64Bytes, U16Bytes, WriteMany;
    var a, u, n, w := U16Bytes(|v.relayUrl|), v.relayUrl, [|v.addrs|], WriteMany(InviteV1.AddrPart, v.addrs);
    var e, r := U64Bytes(v.expiresAt), if v.recipient.Some? then [1] + v.recipient.value else [0];
    assert InviteV1.Body(v) == (a + u) + (n + (w + (e + (r + [1]))));
    Assoc(w, e, r + [1]);
    Assoc(w + e, r, [1]);
  }

  /** An address of version 1 behind its length. */
  lemma AddrV1Layout(a: bytes)
    requires |a| <= 64
    ensures InviteV1.AddrPart(a) == [|a|] + a
  {
  }

  /** Version 2: the fixed head, and the two counted lists. */
  lemma InviteV2Layout(c: Crypto, v: InviteV2.Invite)
    requires InviteV2.Encodable(c, v)
    ensures InviteV2.Canonical(c, v).Some?
    ensures
      var b := InviteV2.Canonical(c, v).value;
      && |b| >= 136 && b[..15] == Ascii("dweb/invite/v2\0") && b[15] == 2
      && b[16..48] == v.fabric && b[48..64] == v.inviteId && b[64..96] == v.issuer
      && b[96..104] == U64Bytes(v.expiresAt) && b[104..136] == v.recipient
      && b[136..] == [|v.relays|] + WriteMany(InviteV2.RelayPart, v.relays) + [|v.addrs|] + WriteMany(InviteV2.AddrPart, v.addrs)
  {
    V2Text();
    V2Head(v, InviteV2.Body(v));
    hide WriteMany, InviteV2.Domain, InviteV2.Head, Ascii, U64Bytes;
    var n, w, m, x := [|v.relays|], WriteMany(InviteV2.RelayPart, v.relays), [|v.addrs|], WriteMany(InviteV2.AddrPart, v.addrs);
    assert InviteV2.Body(v) == n + (w + (m + x));
    assert n + (w + (m + x)) == n + w + m + x;
  }

  lemma V2Text()
    ensures InviteV2.Domain() == Ascii("dweb/invite/v2\0")
  {
  }

  lemma V2Head(v: InviteV2.Invite, tail: bytes)
    ensures
      var b := InviteV2.Head(v) + tail;
      && |b| >= 136 && b[..15] == InviteV2.Domain() && b[15] == 2 && b[16..48] == v.fabric && b[48..64] == v.inviteId
      && b[64..96] == v.issuer && b[96..104] == U64Bytes(v.expiresAt) && b[104..136] == v.recipient && b[136..] == tail
  {
    hide U64Bytes, InviteV2.Domain;
  }

  /** A relay of version 2 with its capability, or nothing for none; and an address. */
  lemma PartsV2Layout(r: InviteV2.Relay, a: InviteV2.SocketAddr)
    requires |r.url| <= 2048 && (r.capability.Some? ==> |r.capability.value| <= 512)
    ensures InviteV2.RelayPart(r) ==
      U16Bytes(|r.url|) + r.url
      + (if r.capability.Some? then U16Bytes(|r.capability.value|) + r.capability.value else U16Bytes(0))
    ensures a.V4? ==> InviteV2.AddrPart(a) == [4] + a.ip4 + U16Bytes(a.port)
    ensures a.V6? ==> InviteV2.AddrPart(a) == [6] + a.ip6 + U16Bytes(a.port)
  {
    hide U16Bytes;
  }

  /** Tokens: the prefix of the version and the encoded invite with its signature. */
  lemma TokenLayout(c: Crypto, one: InviteTokens.TokenV1, two: InviteTokens.TokenV2)
    ensures InviteV1.Canonical(one.invite).Some? ==>
      InviteTokens.EncodeV1(one) == Some(InviteTokens.PREFIX1 + Base64Url.Encode(InviteV1.Canonical(one.invite).value + one.signature))
    ensures InviteV2.Canonical(c, two.invite).Some? ==>
      InviteTokens.EncodeV2(c, two) == Some(InviteTokens.PREFIX2 + Base64Url.Encode(InviteV2.Canonical(c, two.invite).value + two.signature))
    ensures InviteTokens.PREFIX1 == Ascii("dweb1.") && InviteTokens.PREFIX2 == Ascii("dweb2.")
  {
    hide Base64Url.Encode, InviteV1.Canonical, InviteV2.Canonical;
  }

  // ---- The session -------------------------------------------------------------------------------------

  /** A stream frame: the length of type and payload, the type, the payload. */
  lemma FrameLayout(kind: byte, payload: bytes)
    requires |payload| < 0xffff_ffff
    ensures
      var b := Frames.WriteFrame(kind, payload);
      && |b| == 5 + |payload| && b[..4] == U32Bytes(1 + |payload|) && b[4] == kind && b[5..] == payload
  {
    hide U32Bytes;
  }

  /** Why a frame is not read: its length is zero or beyond the limit, or else the stream
      ends before the frame does. */
  lemma FrameRefused(s: bytes, limit: nat)
    ensures
      var r := Frames.ReadFrame(s, limit);
      && (r == Err(Frames.TooLarge) <==> |s| >= 5 && (U32Of(s[..4]) == 0 || 4 + U32Of(s[..4]) > limit))
      && (r == Err(Frames.Io) <==> |s| < 5 || (0 < U32Of(s[..4]) && 4 + U32Of(s[..4]) <= limit && |s| < 4 + U32Of(s[..4])))
  {
    hide U32Of;
  }

  /** A refusal record: its kind, the length of the reason, the reason. */
  lemma RefusalLayout(r: RedeemErr.Refusal)
    ensures r.Consumed? ==> RedeemErr.EncodeRecord(r) == [0, 0]
    ensures r.NotRoot? ==> RedeemErr.EncodeRecord(r) == [1, 0]
    ensures r.BadPoP? ==> RedeemErr.EncodeRecord(r) == [2, 0]
    ensures r.Other? ==>
      RedeemErr.EncodeRecord(r) == [3, |RedeemErr.Normalize(r.reason)|] + RedeemErr.Normalize(r.reason)
  {
    hide RedeemErr.Normalize;
  }

  /** The printable part of a reason, or a fixed phrase if nothing of it is. */
  function Conclusion(payload: bytes, phrase: RedeemErr.Reason): RedeemErr.Rejection {
    var shown := RedeemErr.PrintableOnly(payload);
    RedeemErr.Invalid(if shown == [] then phrase else RedeemErr.Text(shown))
  }

  /** What the joiner makes of one record of any kind, and of several. */
  lemma ReductionExactly(rs: seq<RedeemErr.Record>)
    requires rs != [] && RedeemErr.Fit(rs)
    ensures
      var read := RedeemErr.JoinerReads(RedeemErr.WriteRecords(rs));
      && read.Some?
      && (|rs| > 1 ==> read.value == RedeemErr.Invalid(RedeemErr.Several(|rs|)))
      && (|rs| == 1 && rs[0].kind == 0 ==> read.value == RedeemErr.AlreadyConsumed)
      && (|rs| == 1 && rs[0].kind == 1 ==> read.value == Conclusion(rs[0].payload, RedeemErr.NotRootPhrase))
      && (|rs| == 1 && rs[0].kind == 2 ==> read.value == Conclusion(rs[0].payload, RedeemErr.BadPoPPhrase))
      && (|rs| == 1 && rs[0].kind == 3 ==> read.value == Conclusion(rs[0].payload, RedeemErr.OtherPhrase))
      && (|rs| == 1 && rs[0].kind > 3 ==> read.value == RedeemErr.Invalid(RedeemErr.UnknownKind(rs[0].kind)))
  {
    RedeemErr.DecodesExactly(RedeemErr.WriteRecords(rs), rs);
    hide RedeemErr.ParseRecords, RedeemErr.WriteRecords, RedeemErr.PrintableOnly, RedeemErr.Fit;
  }

  /** Keeping the printable bytes keeps those from 0x20 to 0x7E, in order, and no others. */
  lemma {:induction false} PrintableIs(a: bytes, x: byte, b: bytes)
    ensures RedeemErr.PrintableOnly(a + [x] + b)
         == RedeemErr.PrintableOnly(a) + (if 0x20 <= x <= 0x7E then [x] else []) + RedeemErr.PrintableOnly(b)
    decreases |a|
  {
    if a == [] {
      assert ([] + [x] + b)[1..] == b;
    } else {
      PrintableIs(a[1..], x, b);
      assert (a + [x] + b)[1..] == a[1..] + [x] + b;
    }
  }

  /** An item of the receipt: URL and capability, each behind its length. */
  lemma ItemLayout(x: Receipt.Item)
    requires |x.url| <= 512 && |x.cap| <= 512
    ensures Receipt.ItemPart(x) == U16Bytes(|x.url|) + x.url + (U16Bytes(|x.cap|) + x.cap)
    ensures Receipt.HttpUrl(x.url) <==> Ascii("http://") <= x.url || Ascii("https://") <= x.url
  {
    hide U16Bytes;
    assert Receipt.HTTP == Ascii("http://") && Receipt.HTTPS == Ascii("https://");
  }

  // ---- The log ---------------------------------------------------------------------------------------------

  /** A record of the consumed-invite log: the id and the time; and the ids of a log with
      a record ahead. */
  lemma LogLayout(id: Bytes16, now: u64, log: bytes)
    ensures InviteLog.Record(id, now) == id + U64Bytes(now)
    ensures InviteLog.Ids(InviteLog.Record(id, now) + log) == {id} + InviteLog.Ids(log)
    ensures forall b: bytes :: |b| < 24 ==> InviteLog.Ids(b) == {}
  {
    hide U64Bytes;
    var b := InviteLog.Record(id, now) + log;
    assert b[24..] == log && b[..16] == id;
  }

  // ---- Limits ----------------------------------------------------------------------------------------------

  /** What an invite of version 1 may hold. */
  lemma LimitsV1(v: InviteV1.Invite)
    ensures InviteV1.Canonical(v).Some?
       <==> |v.relayUrl| <= 2048 && |v.addrs| <= 4 && forall i :: 0 <= i < |v.addrs| ==> |v.addrs[i]| <= 64
  {
    hide InviteV1.Head, InviteV1.Body;
  }

  /** What an invite of version 2 may hold: eight relays and four addresses, and of
      capabilities those for its recipient that expire no later than itself. */
  lemma LimitsV2(c: Crypto, v: InviteV2.Invite)
    ensures InviteV2.Canonical(c, v).Some?
       <==>
         && |v.relays| <= 8 && |v.addrs| <= 4
         && forall i :: 0 <= i < |v.relays| ==>
              && |v.relays[i].url| <= 2048
              && (v.relays[i].capability.Some? ==>
                    && |v.relays[i].capability.value| <= 512
                    && var k := RelayCap.Decode(c, v.relays[i].capability.value);
                       k.Some? && k.value.recipient == v.recipient && k.value.expiresAt <= v.expiresAt)
  {
    hide InviteV2.Head, InviteV2.Body, RelayCap.Decode;
  }

  /** Which decoded bytes are a capability: of one length and version, with known bits and
      valid keys. */
  lemma CapWires(c: Crypto, w: bytes)
    ensures RelayCap.WireOk(c, w) <==> |w| == 210 && w[0] == 1 && w[129] < 8 && c.validKey(w[65..97]) && c.validKey(w[97..129])
  {
  }
}
