/** Well-formed UTF-8 is what encoding Unicode scalar values gives (section 3 of RFC 3629). */
module Utf8Laws {
  import opened Bytes

  /** A code point that is no surrogate. */
  predicate Scalar(c: nat) {
    c < 0xD800 || 0xE000 <= c < 0x11_0000
  }

  function Tail(n: nat): byte {
    0x80 + n % 64
  }

  /** One to four bytes, as the size of the code point asks for. */
  function Encoded(c: nat): bytes
    requires Scalar(c)
  {
    if c < 0x80 then [c]
    else if c < 0x800 then [0xC0 + c / 64, Tail(c)]
    else if c < 0x1_0000 then [0xE0 + c / 4096, Tail(c / 64), Tail(c)]
    else [0xF0 + c / 26_2144, Tail(c / 4096), Tail(c / 64), Tail(c)]
  }

  function EncodedAll(cs: seq<nat>): bytes
    requires forall i :: 0 <= i < |cs| ==> Scalar(cs[i])
  {
    if cs == [] then [] else Encoded(cs[0]) + EncodedAll(cs[1..])
  }

  /** One scalar value more in front. */
  lemma OneMore(c: nat, b: bytes)
    requires Scalar(c) && Utf8(b)
    ensures Utf8(Encoded(c) + b)
  {
    var e := Encoded(c) + b;
    if c < 0x80 {
      assert e[1..] == b;
    } else if c < 0x800 {
      assert e[2..] == b;
    } else if c < 0x1_0000 {
      ThreeBytes(c);
      assert e[3..] == b;
    } else {
      FourBytes(c);
      assert e[4..] == b;
    }
  }

  lemma ThreeBytes(c: nat)
    requires 0x800 <= c < 0x1_0000 && Scalar(c)
    ensures ThreeByteLead(0xE0 + c / 4096, Tail(c / 64))
  {
    var x, y := c / 4096, c / 64 % 64;
    assert c / 64 == x * 64 + y;
  }

  lemma FourBytes(c: nat)
    requires 0x1_0000 <= c < 0x11_0000
    ensures c / 26_2144 <= 4 && FourByteLead(0xF0 + c / 26_2144, Tail(c / 4096))
  {
    var x, y := c / 26_2144, c / 4096 % 64;
    assert c / 4096 == x * 64 + y;
  }

  lemma FromTwo(x: byte, y: byte) returns (c: nat)
    requires 0xC2 <= x <= 0xDF && Continuation(y)
    ensures Scalar(c) && Encoded(c) == [x, y]
  {
    var p: int, q: int := x, y;
    c := (p - 0xC0) * 64 + (q - 0x80);
  }

  lemma FromThree(x: byte, y: byte, z: byte) returns (c: nat)
    requires ThreeByteLead(x, y) && Continuation(z)
    ensures Scalar(c) && Encoded(c) == [x, y, z]
  {
    var p: int, q: int, r: int := x, y, z;
    c := (p - 0xE0) * 4096 + (q - 0x80) * 64 + (r - 0x80);
    assert c / 64 == (p - 0xE0) * 64 + (q - 0x80);
    assert c / 4096 == p - 0xE0;
  }

  lemma FromFour(x: byte, y: byte, z: byte, w: byte) returns (c: nat)
    requires FourByteLead(x, y) && Continuation(z) && Continuation(w)
    ensures Scalar(c) && Encoded(c) == [x, y, z, w]
  {
    var p: int, q: int, r: int, t: int := x, y, z, w;
    c := (p - 0xF0) * 26_2144 + (q - 0x80) * 4096 + (r - 0x80) * 64 + (t - 0x80);
    assert c / 64 == (p - 0xF0) * 4096 + (q - 0x80) * 64 + (r - 0x80);
    assert c / 4096 == (p - 0xF0) * 64 + (q - 0x80);
    assert c / 26_2144 == p - 0xF0;
  }

  /** The scalar value at the front of well-formed bytes, and its length. */
  lemma FirstScalar(b: bytes) returns (c: nat, n: nat)
    requires Utf8(b) && b != []
    ensures Scalar(c) && 0 < n <= |b| && Encoded(c) == b[..n] && Utf8(b[n..])
  {
    if b[0] < 0x80 {
      c, n := b[0], 1;
    } else {
      hide Encoded, Scalar;
      if b[0] <= 0xDF {
        c := FromTwo(b[0], b[1]);
        n := 2;
      } else if b[0] < 0xF0 {
        c := FromThree(b[0], b[1], b[2]);
        n := 3;
      } else {
        c := FromFour(b[0], b[1], b[2], b[3]);
        n := 4;
      }
    }
  }

  /** Bytes are well formed exactly when they encode some scalar values. */
  lemma {:induction false} Utf8Exactly(b: bytes)
    ensures Utf8(b) <==> exists cs: seq<nat> :: (forall i :: 0 <= i < |cs| ==> Scalar(cs[i])) && EncodedAll(cs) == b
  {
    if Utf8(b) {
      var cs := Scalars(b);
    }
    if cs: seq<nat> :| (forall i :: 0 <= i < |cs| ==> Scalar(cs[i])) && EncodedAll(cs) == b {
      AllEncoded(cs);
    }
  }

  lemma {:induction false} AllEncoded(cs: seq<nat>)
    requires forall i :: 0 <= i < |cs| ==> Scalar(cs[i])
    ensures Utf8(EncodedAll(cs))
    decreases |cs|
  {
    hide Encoded, Utf8;
    if cs == [] {
      NothingIsUtf8();
    } else {
      AllEncoded(cs[1..]);
      OneMore(cs[0], EncodedAll(cs[1..]));
    }
  }

  lemma NothingIsUtf8()
    ensures Utf8([])
  {
  }

  lemma {:induction false} Scalars(b: bytes) returns (cs: seq<nat>)
    requires Utf8(b)
    ensures (forall i :: 0 <= i < |cs| ==> Scalar(cs[i])) && EncodedAll(cs) == b
    decreases |b|
  {
    hide Encoded, Utf8;
    if b == [] {
      cs := [];
    } else {
      var c, n := FirstScalar(b);
      var more := Scalars(b[n..]);
      cs := [c] + more;
      assert cs[1..] == more;
      assert b == b[..n] + b[n..];
    }
  }
}
