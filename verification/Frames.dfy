/** Stream frames: `u32 length || type || payload`, the length covering type and
    payload. */
module Frames {
  import opened Bytes

  const MAX_REDEEM_FRAME: nat := 32 * 1024

  datatype FrameError = TooLarge | Io

  datatype Frame = Frame(kind: byte, payload: bytes, rest: bytes)

  /** The length is cut to 32 bits, as the source casts it. */
  function WriteFrame(kind: byte, payload: bytes): bytes {
    U32Bytes((1 + |payload|) % U32_MODULUS) + ([kind] + payload)
  }

  /** One frame off a stream that ends after `s`. `limit` bounds the whole frame. */
  function ReadFrame(s: bytes, limit: nat): Result<Frame, FrameError> {
    if |s| < 5 then Err(Io)
    else
      var len := U32Of(s[..4]);
      if len == 0 || 4 + len > limit then Err(TooLarge)
      else if |s| < 4 + len then Err(Io)
      else Ok(Frame(s[4], s[5..4 + len], s[4 + len..]))
  }

  /** Whatever is read is a frame as written, followed by the rest of the stream. */
  lemma FrameRead(s: bytes, limit: nat)
    requires ReadFrame(s, limit).Ok?
    ensures var f := ReadFrame(s, limit).value;
      s == WriteFrame(f.kind, f.payload) + f.rest && 5 + |f.payload| <= limit
  {
    hide U32Bytes, U32Of;
    var f := ReadFrame(s, limit).value;
    var len := U32Of(s[..4]);
    U32RoundTrip(0, s[..4]);
    assert s == s[..4] + ([s[4]] + s[5..4 + len]) + s[4 + len..];
  }

  /** A frame written is read back as it was exactly when it fits the reader's limit
      and its length fits the 32-bit prefix, whatever follows it on the stream. */
  lemma FrameRoundTripsExactly(kind: byte, payload: bytes, rest: bytes, limit: nat)
    ensures ReadFrame(WriteFrame(kind, payload) + rest, limit) == Ok(Frame(kind, payload, rest))
       <==> 5 + |payload| <= limit && 1 + |payload| < U32_MODULUS
  {
    hide U32Bytes, U32Of;
    var len := (1 + |payload|) % U32_MODULUS;
    var s := WriteFrame(kind, payload) + rest;
    U32RoundTrip(len, U32Bytes(0));
    assert s[..4] == U32Bytes(len);
    if 1 + |payload| < U32_MODULUS {
      assert s[5..4 + len] == payload;
      assert s[4 + len..] == rest;
    }
  }
}
