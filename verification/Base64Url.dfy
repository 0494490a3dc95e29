/** Unpadded base64url, section 5 of RFC 4648, as the token strings use it. Symbols
    are their ASCII bytes. */
module Base64Url {
  import opened Bytes

  predicate InAlphabet(c: byte) {
    0x41 <= c <= 0x5A || 0x61 <= c <= 0x7A || 0x30 <= c <= 0x39 || c == 0x2D || c == 0x5F
  }

  function Symbol(v: nat): (c: byte)
    requires v < 64
    ensures InAlphabet(c)
  {
    if v < 26 then 0x41 + v
    else if v < 52 then 0x61 + v - 26
    else if v < 62 then 0x30 + v - 52
    else if v == 62 then 0x2D else 0x5F
  }

  /** The value of a symbol: the one index of the alphabet where it stands. */
  function Value(c: byte): (v: nat)
    requires InAlphabet(c)
    ensures v < 64 && Symbol(v) == c
  {
    if 0x41 <= c <= 0x5A then c - 0x41
    else if 0x61 <= c <= 0x7A then c - 0x61 + 26
    else if 0x30 <= c <= 0x39 then c - 0x30 + 52
    else if c == 0x2D then 62 else 63
  }

  lemma ValueOfSymbol(v: nat)
    requires v < 64
    ensures Value(Symbol(v)) == v
  {
  }

  // ---- Groups -------------------------------------------------------------------------

  function EncodeGroup(x: byte, y: byte, z: byte): (s: bytes)
    ensures |s| == 4
  {
    [Symbol(x / 4), Symbol(x % 4 * 16 + y / 16), Symbol(y % 16 * 4 + z / 64), Symbol(z % 64)]
  }

  /** The one or two bytes left over. Their unused low bits are zero. */
  function EncodeRest(b: bytes): (s: bytes)
    requires |b| < 3
    ensures |s| == (if |b| == 0 then 0 else |b| + 1)
  {
    if |b| == 0 then []
    else if |b| == 1 then [Symbol(b[0] / 4), Symbol(b[0] % 4 * 16)]
    else [Symbol(b[0] / 4), Symbol(b[0] % 4 * 16 + b[1] / 16), Symbol(b[1] % 16 * 4)]
  }

  function DecodeGroup(p: byte, q: byte, r: byte, t: byte): (b: bytes)
    requires InAlphabet(p) && InAlphabet(q) && InAlphabet(r) && InAlphabet(t)
    ensures |b| == 3
  {
    [Value(p) * 4 + Value(q) / 16, Value(q) % 16 * 16 + Value(r) / 4, Value(r) % 4 * 64 + Value(t)]
  }

  /** A short last group: refused when its unused low bits are not zero. */
  function DecodeRest(s: bytes): (r: Option<bytes>)
    requires |s| < 4
    ensures r.Some? ==> |r.value| < 3
  {
    if |s| == 0 then Some([])
    else if |s| == 1 then None
    else if !InAlphabet(s[0]) || !InAlphabet(s[1]) then None
    else if |s| == 2 then
      if Value(s[1]) % 16 == 0 then Some([Value(s[0]) * 4 + Value(s[1]) / 16]) else None
    else if !InAlphabet(s[2]) || Value(s[2]) % 4 != 0 then None
    else Some([Value(s[0]) * 4 + Value(s[1]) / 16, Value(s[1]) % 16 * 16 + Value(s[2]) / 4])
  }

  function Encode(b: bytes): (s: bytes)
    ensures |s| == |b| / 3 * 4 + (if |b| % 3 == 0 then 0 else |b| % 3 + 1)
    decreases |b|
  {
    if |b| < 3 then EncodeRest(b) else EncodeGroup(b[0], b[1], b[2]) + Encode(b[3..])
  }

  function Decode(s: bytes): Option<bytes>
    decreases |s|
  {
    if |s| < 4 then DecodeRest(s)
    else if !InAlphabet(s[0]) || !InAlphabet(s[1]) || !InAlphabet(s[2]) || !InAlphabet(s[3]) then None
    else
      match Decode(s[4..])
      case None => None
      case Some(rest) => Some(DecodeGroup(s[0], s[1], s[2], s[3]) + rest)
  }

  // ---- Mutual inverses -------------------------------------------------------------------

  lemma GroupRead(x: byte, y: byte, z: byte)
    ensures var s := EncodeGroup(x, y, z);
      InAlphabet(s[0]) && InAlphabet(s[1]) && InAlphabet(s[2]) && InAlphabet(s[3])
      && DecodeGroup(s[0], s[1], s[2], s[3]) == [x, y, z]
  {
    hide Symbol, Value, InAlphabet;
    ValueOfSymbol(x / 4);
    ValueOfSymbol(x % 4 * 16 + y / 16);
    ValueOfSymbol(y % 16 * 4 + z / 64);
    ValueOfSymbol(z % 64);
  }

  lemma GroupWritten(p: byte, q: byte, r: byte, t: byte)
    requires InAlphabet(p) && InAlphabet(q) && InAlphabet(r) && InAlphabet(t)
    ensures var b := DecodeGroup(p, q, r, t); EncodeGroup(b[0], b[1], b[2]) == [p, q, r, t]
  {
    hide Symbol, Value, InAlphabet;
  }

  lemma RestRead(b: bytes)
    requires |b| < 3
    ensures DecodeRest(EncodeRest(b)) == Some(b)
  {
    hide Symbol, Value, InAlphabet;
    if |b| == 1 {
      ValueOfSymbol(b[0] / 4);
      ValueOfSymbol(b[0] % 4 * 16);
      assert b == [b[0]];
    } else if |b| == 2 {
      ValueOfSymbol(b[0] / 4);
      ValueOfSymbol(b[0] % 4 * 16 + b[1] / 16);
      ValueOfSymbol(b[1] % 16 * 4);
      assert b == [b[0], b[1]];
    }
  }

  lemma RestWritten(s: bytes)
    requires |s| < 4 && DecodeRest(s).Some?
    ensures EncodeRest(DecodeRest(s).value) == s
  {
    hide Symbol, Value, InAlphabet;
  }

  /** Whatever is encoded is read back. */
  lemma {:induction false} EncodedDecodes(b: bytes)
    ensures Decode(Encode(b)) == Some(b)
    decreases |b|
  {
    hide EncodeGroup, DecodeGroup, EncodeRest, DecodeRest, InAlphabet;
    if |b| < 3 {
      RestRead(b);
      RestLength(b);
    } else {
      var g := EncodeGroup(b[0], b[1], b[2]);
      GroupRead(b[0], b[1], b[2]);
      EncodedDecodes(b[3..]);
      assert (g + Encode(b[3..]))[4..] == Encode(b[3..]);
      assert b == [b[0], b[1], b[2]] + b[3..];
    }
  }

  lemma RestLength(b: bytes)
    requires |b| < 3
    ensures |EncodeRest(b)| < 4
  {
  }

  /** Whatever is accepted is the encoding of what it decodes to. */
  lemma {:induction false} DecodedEncodes(s: bytes)
    requires Decode(s).Some?
    ensures Encode(Decode(s).value) == s
    decreases |s|
  {
    hide EncodeGroup, DecodeGroup, EncodeRest, DecodeRest, InAlphabet;
    if |s| < 4 {
      RestWritten(s);
    } else {
      var g := DecodeGroup(s[0], s[1], s[2], s[3]);
      var rest := Decode(s[4..]).value;
      GroupWritten(s[0], s[1], s[2], s[3]);
      DecodedEncodes(s[4..]);
      assert (g + rest)[3..] == rest;
      assert s == [s[0], s[1], s[2], s[3]] + s[4..];
    }
  }

  /** A whole number of groups of alphabet symbols is always accepted. */
  lemma {:induction false} WholeGroupsDecode(s: bytes)
    requires |s| % 4 == 0
    ensures Decode(s).Some? <==> forall i :: 0 <= i < |s| ==> InAlphabet(s[i])
    ensures Decode(s).Some? ==> |Decode(s).value| == |s| / 4 * 3
    decreases |s|
  {
    hide InAlphabet;
    if |s| >= 4 {
      WholeGroupsDecode(s[4..]);
      if Decode(s).Some? {
        forall i | 0 <= i < |s| ensures InAlphabet(s[i]) {
          assert i >= 4 ==> s[i] == s[4..][i - 4];
        }
      }
    }
  }
}
