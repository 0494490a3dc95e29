/** Byte strings, fixed-width big-endian integers and the two kinds of result
    every other module uses. Rust's `String` is modelled as its UTF-8 bytes. */
module Bytes {

  type byte = x: int | 0 <= x < 256
  type bytes = seq<byte>

  type u16 = x: nat | x < 0x1_0000
  type u32 = x: nat | x < 0x1_0000_0000
  type u64 = x: nat | x < 0x1_0000_0000_0000_0000

  type Bytes4 = b: bytes | |b| == 4 witness seq(4, _ => 0)
  type Bytes16 = b: bytes | |b| == 16 witness seq(16, _ => 0)
  type Bytes32 = b: bytes | |b| == 32 witness seq(32, _ => 0)
  type Bytes64 = b: bytes | |b| == 64 witness seq(64, _ => 0)

  const U32_MODULUS: nat := 0x1_0000_0000
  const U64_MAX: u64 := 0xffff_ffff_ffff_ffff

  datatype Option<+T> = None | Some(value: T)

  datatype Result<+T, +E> = Ok(value: T) | Err(error: E)

  /** What is left after reading a value off the front of a byte string. */
  datatype Parsed<+T> = Fail | Got(value: T, rest: bytes)

  predicate IsAscii(s: string) {
    forall i :: 0 <= i < |s| ==> s[i] < '\U{0080}'
  }

  /** The bytes of an ASCII text. */
  function Ascii(s: string): (b: bytes)
    requires IsAscii(s)
    ensures |b| == |s| && forall i :: 0 <= i < |s| ==> b[i] == s[i] as int
  {
    seq(|s|, i requires 0 <= i < |s| => s[i] as int)
  }

  function SatAdd64(a: u64, b: u64): (r: u64)
    ensures a + b <= 0xffff_ffff_ffff_ffff ==> r == a + b
    ensures a + b > 0xffff_ffff_ffff_ffff ==> r == 0xffff_ffff_ffff_ffff
  {
    if a + b > U64_MAX then U64_MAX else a + b
  }

  function SatSub(a: nat, b: nat): (r: nat)
    ensures a >= b ==> r == a - b
    ensures a < b ==> r == 0
  {
    if a < b then 0 else a - b
  }

  lemma Assoc(a: bytes, b: bytes, c: bytes)
    ensures (a + b) + c == a + (b + c)
  {
  }

  lemma SplitAt(b: bytes, n: nat)
    requires n <= |b|
    ensures b == b[..n] + b[n..]
  {
  }

  // ---- Big-endian integers ----------------------------------------------------

  function Pow256(k: nat): (p: nat)
    ensures p > 0
  {
    if k == 0 then 1 else 256 * Pow256(k - 1)
  }

  /** The `k` byte big-endian form of `n`. */
  function BigEndian(n: nat, k: nat): (b: bytes)
    requires n < Pow256(k)
    ensures |b| == k
  {
    if k == 0 then [] else BigEndian(n / 256, k - 1) + [n % 256]
  }

  /** The number a big-endian byte string denotes. On strings of one length the
      numeric order is the lexicographic one, which is how Rust orders arrays. */
  function Num(b: bytes): (n: nat)
    ensures n < Pow256(|b|)
  {
    if b == [] then 0 else Num(b[..|b| - 1]) * 256 + b[|b| - 1]
  }

  lemma {:induction false} NumOfBigEndian(n: nat, k: nat)
    requires n < Pow256(k)
    ensures Num(BigEndian(n, k)) == n
  {
    if k > 0 {
      NumOfBigEndian(n / 256, k - 1);
      var b := BigEndian(n, k);
      assert b[..|b| - 1] == BigEndian(n / 256, k - 1);
    }
  }

  lemma ByteStep(n: nat, x: byte)
    ensures (n * 256 + x) / 256 == n && (n * 256 + x) % 256 == x
  {
  }

  lemma {:induction false} BigEndianOfNum(b: bytes)
    ensures BigEndian(Num(b), |b|) == b
  {
    if b != [] {
      BigEndianOfNum(b[..|b| - 1]);
      ByteStep(Num(b[..|b| - 1]), b[|b| - 1]);
      assert b == b[..|b| - 1] + [b[|b| - 1]];
    }
  }

  /** Equal-length byte strings that denote the same number are equal, so `Num`
      is a total order on them. */
  lemma NumInjective(a: bytes, b: bytes)
    requires |a| == |b| && Num(a) == Num(b)
    ensures a == b
  {
    BigEndianOfNum(a);
    BigEndianOfNum(b);
  }

  lemma PowerFacts()
    ensures Pow256(1) == 0x100
    ensures Pow256(2) == 0x1_0000
    ensures Pow256(4) == 0x1_0000_0000
    ensures Pow256(8) == 0x1_0000_0000_0000_0000
  {
    assert Pow256(2) == 256 * Pow256(1);
    assert Pow256(3) == 256 * Pow256(2);
    assert Pow256(4) == 256 * Pow256(3);
    assert Pow256(5) == 256 * Pow256(4);
    assert Pow256(6) == 256 * Pow256(5);
    assert Pow256(7) == 256 * Pow256(6);
    assert Pow256(8) == 256 * Pow256(7);
  }

  function U16Bytes(n: u16): (b: bytes)
    ensures |b| == 2
  {
    PowerFacts();
    BigEndian(n, 2)
  }

  function U32Bytes(n: u32): (b: bytes)
    ensures |b| == 4
  {
    PowerFacts();
    BigEndian(n, 4)
  }

  function U64Bytes(n: u64): (b: bytes)
    ensures |b| == 8
  {
    PowerFacts();
    BigEndian(n, 8)
  }

  function U16Of(b: bytes): u16
    requires |b| == 2
  {
    PowerFacts();
    Num(b)
  }

  function U32Of(b: bytes): u32
    requires |b| == 4
  {
    PowerFacts();
    Num(b)
  }

  function U64Of(b: bytes): u64
    requires |b| == 8
  {
    PowerFacts();
    Num(b)
  }

  lemma U16RoundTrip(n: u16, b: bytes)
    requires |b| == 2
    ensures U16Of(U16Bytes(n)) == n && U16Bytes(U16Of(b)) == b
  {
    PowerFacts();
    NumOfBigEndian(n, 2);
    BigEndianOfNum(b);
  }

  lemma U32RoundTrip(n: u32, b: bytes)
    requires |b| == 4
    ensures U32Of(U32Bytes(n)) == n && U32Bytes(U32Of(b)) == b
  {
    PowerFacts();
    NumOfBigEndian(n, 4);
    BigEndianOfNum(b);
  }

  lemma U64RoundTrip(n: u64, b: bytes)
    requires |b| == 8
    ensures U64Of(U64Bytes(n)) == n && U64Bytes(U64Of(b)) == b
  {
    PowerFacts();
    NumOfBigEndian(n, 8);
    BigEndianOfNum(b);
  }

  // ---- Reading off the front --------------------------------------------------

  function Take(b: bytes, n: nat): (r: Parsed<bytes>)
    ensures r.Got? <==> |b| >= n
    ensures r.Got? ==> |r.value| == n && b == r.value + r.rest
  {
    if |b| < n then Fail else Got(b[..n], b[n..])
  }

  lemma TakeWritten(v: bytes, tail: bytes)
    ensures Take(v + tail, |v|) == Got(v, tail)
  {
    assert (v + tail)[..|v|] == v;
    assert (v + tail)[|v|..] == tail;
  }

  function TakeU16(b: bytes): (r: Parsed<u16>)
    ensures r.Got? <==> |b| >= 2
    ensures r.Got? ==> b == U16Bytes(r.value) + r.rest
  {
    if |b| < 2 then Fail
    else
      U16RoundTrip(0, b[..2]);
      Got(U16Of(b[..2]), b[2..])
  }

  lemma TakeU16Written(n: u16, tail: bytes)
    ensures TakeU16(U16Bytes(n) + tail) == Got(n, tail)
  {
    U16RoundTrip(n, U16Bytes(n));
    TakeWritten(U16Bytes(n), tail);
  }

  function TakeU32(b: bytes): (r: Parsed<u32>)
    ensures r.Got? <==> |b| >= 4
    ensures r.Got? ==> b == U32Bytes(r.value) + r.rest
  {
    if |b| < 4 then Fail
    else
      U32RoundTrip(0, b[..4]);
      Got(U32Of(b[..4]), b[4..])
  }

  lemma TakeU32Written(n: u32, tail: bytes)
    ensures TakeU32(U32Bytes(n) + tail) == Got(n, tail)
  {
    U32RoundTrip(n, U32Bytes(n));
    TakeWritten(U32Bytes(n), tail);
  }

  function TakeU64(b: bytes): (r: Parsed<u64>)
    ensures r.Got? <==> |b| >= 8
    ensures r.Got? ==> b == U64Bytes(r.value) + r.rest
  {
    if |b| < 8 then Fail
    else
      U64RoundTrip(0, b[..8]);
      Got(U64Of(b[..8]), b[8..])
  }

  lemma TakeU64Written(n: u64, tail: bytes)
    ensures TakeU64(U64Bytes(n) + tail) == Got(n, tail)
  {
    U64RoundTrip(n, U64Bytes(n));
    TakeWritten(U64Bytes(n), tail);
  }

  /** A string behind its length, cut to 16 bits as the source casts it. */
  function String16(s: bytes): bytes {
    U16Bytes(|s| % 0x1_0000) + s
  }

  /** A length-prefixed string: `u16 len || bytes`, refused above `limit`. */
  function TakeString16(b: bytes, limit: nat): (r: Parsed<bytes>)
    ensures r.Got? ==> |r.value| <= limit && |r.value| < 0x1_0000
    ensures r.Got? ==> b == String16(r.value) + r.rest
  {
    match TakeU16(b)
    case Fail => Fail
    case Got(n, rest) =>
      if n > limit then Fail
      else
        match Take(rest, n)
        case Fail => Fail
        case Got(v, tail) =>
          assert b == U16Bytes(n) + (v + tail);
          Got(v, tail)
  }

  lemma TakeString16Written(v: bytes, limit: nat, tail: bytes)
    requires |v| <= limit && |v| < 0x1_0000
    ensures TakeString16(String16(v) + tail, limit) == Got(v, tail)
  {
    hide U16Bytes;
    Assoc(U16Bytes(|v|), v, tail);
    TakeU16Written(|v|, v + tail);
    TakeWritten(v, tail);
  }

  // ---- Counted lists ------------------------------------------------------------

  /** `n` values one after the other, each read by `p`. */
  function ParseMany<T>(p: bytes -> Parsed<T>, b: bytes, n: nat): (r: Parsed<seq<T>>)
    ensures r.Got? ==> |r.value| == n
    decreases n
  {
    if n == 0 then Got([], b)
    else
      match p(b)
      case Fail => Fail
      case Got(v, b1) =>
        match ParseMany(p, b1, n - 1)
        case Fail => Fail
        case Got(more, rest) => Got([v] + more, rest)
  }

  function WriteMany<T>(w: T -> bytes, vs: seq<T>): bytes {
    if vs == [] then [] else w(vs[0]) + WriteMany(w, vs[1..])
  }

  lemma WriteManyNone<T>(w: T -> bytes)
    ensures WriteMany(w, []) == []
  {
  }

  lemma {:induction false} WriteManyMore<T>(w: T -> bytes, vs: seq<T>, v: T)
    ensures WriteMany(w, vs + [v]) == WriteMany(w, vs) + w(v)
    decreases |vs|
  {
    if vs == [] {
      assert [v][1..] == [];
      assert [] + [v] == [v];
      assert w(v) + [] == w(v) == [] + w(v);
    } else {
      assert (vs + [v])[1..] == vs[1..] + [v];
      WriteManyMore(w, vs[1..], v);
      Assoc(w(vs[0]), WriteMany(w, vs[1..]), w(v));
    }
  }

  lemma {:induction false} WriteManySplit<T>(w: T -> bytes, vs: seq<T>, k: nat)
    requires k <= |vs|
    ensures WriteMany(w, vs) == WriteMany(w, vs[..k]) + WriteMany(w, vs[k..])
    decreases k
  {
    if k > 0 {
      WriteManySplit(w, vs[1..], k - 1);
      assert vs[..k][1..] == vs[1..][..k - 1] && vs[k..] == vs[1..][k - 1..];
      Assoc(w(vs[0]), WriteMany(w, vs[..k][1..]), WriteMany(w, vs[k..]));
    } else {
      assert vs[0..] == vs;
    }
  }

  /** What `w` writes for `v`, `p` reads as `u`, whatever follows it. */
  ghost predicate ReadsAs<T(!new)>(p: bytes -> Parsed<T>, w: T -> bytes, v: T, u: T) {
    forall tail: bytes :: p(w(v) + tail) == Got(u, tail)
  }

  lemma {:induction false} ManyWritten<T(!new)>(p: bytes -> Parsed<T>, w: T -> bytes, vs: seq<T>, us: seq<T>, tail: bytes)
    requires |us| == |vs| && forall i :: 0 <= i < |vs| ==> ReadsAs(p, w, vs[i], us[i])
    ensures ParseMany(p, WriteMany(w, vs) + tail, |vs|) == Got(us, tail)
    decreases |vs|
  {
    if vs == [] {
      assert [] + tail == tail;
    } else {
      var more := WriteMany(w, vs[1..]);
      Assoc(w(vs[0]), more, tail);
      assert ReadsAs(p, w, vs[0], us[0]);
      ManyWritten(p, w, vs[1..], us[1..], tail);
      assert us == [us[0]] + us[1..];
    }
  }

  /** Whatever `p` reads is `ok` and is what `w` writes for it. */
  ghost predicate ReadsOnly<T(!new)>(p: bytes -> Parsed<T>, w: T -> bytes, ok: T -> bool) {
    forall b: bytes :: p(b).Got? ==> ok(p(b).value) && b == w(p(b).value) + p(b).rest
  }

  lemma {:induction false} ManyRead<T(!new)>(p: bytes -> Parsed<T>, w: T -> bytes, ok: T -> bool, b: bytes, n: nat)
    requires ReadsOnly(p, w, ok) && ParseMany(p, b, n).Got?
    ensures var r := ParseMany(p, b, n);
      b == WriteMany(w, r.value) + r.rest && forall i :: 0 <= i < |r.value| ==> ok(r.value[i])
    decreases n
  {
    var r := ParseMany(p, b, n);
    if n > 0 {
      var b1 := p(b).rest;
      ManyRead(p, w, ok, b1, n - 1);
      assert r.value[1..] == ParseMany(p, b1, n - 1).value;
      Assoc(w(r.value[0]), WriteMany(w, r.value[1..]), r.rest);
    }
  }

  // ---- Loops that parse ---------------------------------------------------------

  /** A parse result with the offset reached instead of the remaining bytes. */
  function AtOffset<T>(b: bytes, p: Parsed<T>): Option<(T, int)> {
    match p case Fail => None case Got(v, rest) => Some((v, |b| - |rest|))
  }

  /** A list parse that continues one whose elements so far are `out`. */
  ghost function Prepend<T>(out: seq<T>, p: Parsed<seq<T>>): Parsed<seq<T>> {
    match p case Fail => Fail case Got(vs, rest) => Got(out + vs, rest)
  }

  lemma PrependNothing<T>(p: Parsed<seq<T>>)
    ensures Prepend([], p) == p
  {
    if p.Got? {
      assert [] + p.value == p.value;
    }
  }

  lemma PrependMore<T>(out: seq<T>, v: T, p: Parsed<seq<T>>)
    ensures Prepend(out, match p case Fail => Fail case Got(vs, rest) => Got([v] + vs, rest)) == Prepend(out + [v], p)
  {
    match p {
      case Fail =>
      case Got(vs, _) => assert out + ([v] + vs) == (out + [v]) + vs;
    }
  }

  method ReadString16(b: bytes, start: nat, limit: nat) returns (ok: bool, v: bytes, off: nat)
    requires start <= |b|
    ensures off <= |b|
    ensures TakeString16(b[start..], limit) == if ok then Got(v, b[off..]) else Fail
  {
    off := start;
    v := [];
    if |b| < off + 2 { return false, v, off; }
    var n := U16Of(b[off..off + 2]);
    assert b[start..][..2] == b[off..off + 2] && b[start..][2..] == b[off + 2..];
    off := off + 2;
    if n > limit { return false, v, off; }
    if |b| < off + n { return false, v, off; }
    v := b[off..off + n];
    assert b[off..][..n] == v && b[off..][n..] == b[off + n..];
    off := off + n;
    ok := true;
  }

  // ---- UTF-8 ------------------------------------------------------------------

  predicate Continuation(x: byte) { 0x80 <= x <= 0xBF }

  /** Well-formed UTF-8, as `std::str::from_utf8` accepts it (Unicode Standard,
      table 3-7): no overlong forms, no surrogates, nothing above U+10FFFF. */
  predicate Utf8(b: bytes)
    decreases |b|
  {
    || b == []
    || (b[0] < 0x80 && Utf8(b[1..]))
    || (|b| >= 2 && 0xC2 <= b[0] <= 0xDF && Continuation(b[1]) && Utf8(b[2..]))
    || (|b| >= 3 && ThreeByteLead(b[0], b[1]) && Continuation(b[2]) && Utf8(b[3..]))
    || (|b| >= 4 && FourByteLead(b[0], b[1]) && Continuation(b[2]) && Continuation(b[3]) && Utf8(b[4..]))
  }

  predicate ThreeByteLead(x: byte, y: byte) {
    || (x == 0xE0 && 0xA0 <= y <= 0xBF)
    || ((0xE1 <= x <= 0xEC || 0xEE <= x <= 0xEF) && Continuation(y))
    || (x == 0xED && 0x80 <= y <= 0x9F)
  }

  predicate FourByteLead(x: byte, y: byte) {
    || (x == 0xF0 && 0x90 <= y <= 0xBF)
    || (0xF1 <= x <= 0xF3 && Continuation(y))
    || (x == 0xF4 && 0x80 <= y <= 0x8F)
  }

  lemma {:induction false} AsciiIsUtf8(b: bytes)
    requires forall i :: 0 <= i < |b| ==> b[i] < 0x80
    ensures Utf8(b)
  {
    if b != [] {
      AsciiIsUtf8(b[1..]);
    }
  }
}
