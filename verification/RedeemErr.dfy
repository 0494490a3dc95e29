/** The records of a refused redemption and how the joiner reduces them. */
module RedeemErr {
  import opened Bytes

  /** What the issuer may say. The reason is any UTF-8 text. */
  datatype Refusal = Consumed | NotRoot | BadPoP | Other(reason: bytes)

  datatype Record = Record(kind: byte, payload: bytes)

  datatype Rejection = AlreadyConsumed | Invalid(reason: Reason)

  /** The reason shown: the text received, or a fixed phrase. */
  datatype Reason = Text(text: bytes) | NotRootPhrase | BadPoPPhrase | OtherPhrase | UnknownKind(kind: byte) | Several(count: nat)

  const MAX_PAYLOAD: nat := 255

  predicate Printable(x: byte) { 0x20 <= x <= 0x7E }

  function PrintableOnly(b: bytes): (r: bytes)
    ensures |r| <= |b|
  {
    if b == [] then []
    else if Printable(b[0]) then [b[0]] + PrintableOnly(b[1..])
    else PrintableOnly(b[1..])
  }

  function Normalize(reason: bytes): (r: bytes)
    ensures |r| <= MAX_PAYLOAD
  {
    var p := PrintableOnly(reason);
    if |p| <= MAX_PAYLOAD then p else p[..MAX_PAYLOAD]
  }

  function KindByte(r: Refusal): byte {
    match r case Consumed => 0 case NotRoot => 1 case BadPoP => 2 case Other(_) => 3
  }

  function RecordOf(r: Refusal): (x: Record)
    ensures |x.payload| <= MAX_PAYLOAD
  {
    Record(KindByte(r), if r.Other? then Normalize(r.reason) else [])
  }

  function WriteRecord(r: Record): bytes
    requires |r.payload| <= MAX_PAYLOAD
  {
    [r.kind, |r.payload|] + r.payload
  }

  function EncodeRecord(r: Refusal): bytes {
    WriteRecord(RecordOf(r))
  }

  // ---- Decoding: the grammar -----------------------------------------------------------

  /** A whole record at the front of `b`. */
  predicate Complete(b: bytes) {
    |b| >= 2 && |b| - 2 >= b[1]
  }

  /** All records from offset `off`, or the offset of the one that is cut short. */
  function ParseRecords(b: bytes, off: nat): Result<seq<Record>, nat>
    requires off <= |b|
    decreases |b| - off
  {
    if off == |b| then Ok([])
    else if !Complete(b[off..]) then Err(off)
    else
      var end := off + 2 + b[off + 1];
      match ParseRecords(b, end)
      case Err(at) => Err(at)
      case Ok(more) => Ok([Record(b[off], b[off + 2..end])] + more)
  }

  predicate Fit(rs: seq<Record>) {
    forall i :: 0 <= i < |rs| ==> |rs[i].payload| <= MAX_PAYLOAD
  }

  function WriteRecords(rs: seq<Record>): bytes
    requires Fit(rs)
  {
    if rs == [] then [] else WriteRecord(rs[0]) + WriteRecords(rs[1..])
  }

  lemma {:induction false} RecordsRead(b: bytes, off: nat)
    requires off <= |b| && ParseRecords(b, off).Ok?
    ensures Fit(ParseRecords(b, off).value) && WriteRecords(ParseRecords(b, off).value) == b[off..]
    decreases |b| - off
  {
    if off < |b| {
      var end := off + 2 + b[off + 1];
      RecordsRead(b, end);
      var rs := ParseRecords(b, off).value;
      assert rs[1..] == ParseRecords(b, end).value;
      assert b[off..] == [b[off], b[off + 1]] + b[off + 2..end] + b[end..];
    }
  }

  lemma OneRecord(front: bytes, r: Record, tail: bytes)
    requires |r.payload| <= MAX_PAYLOAD
    ensures
      var b := front + (WriteRecord(r) + tail);
      var off := |front|;
      && off + 2 + |r.payload| <= |b| && Complete(b[off..])
      && b[off] == r.kind && b[off + 1] == |r.payload| && b[off + 2..off + 2 + |r.payload|] == r.payload
  {
    var b := front + (WriteRecord(r) + tail);
    var off := |front|;
    assert b[off..] == WriteRecord(r) + tail;
    assert b[off] == b[off..][0] && b[off + 1] == b[off..][1];
  }

  lemma ParseStep(b: bytes, off: nat)
    requires off < |b| && Complete(b[off..])
    ensures
      var end := off + 2 + b[off + 1];
      && end <= |b|
      && ParseRecords(b, off) == match ParseRecords(b, end)
                                 case Err(at) => Err(at)
                                 case Ok(more) => Ok([Record(b[off], b[off + 2..end])] + more)
  {
  }

  lemma {:induction false} RecordsWritten(rs: seq<Record>, front: bytes)
    requires Fit(rs)
    ensures ParseRecords(front + WriteRecords(rs), |front|) == Ok(rs)
    decreases |rs|
  {
    hide WriteRecord, Complete, ParseRecords;
    if rs == [] {
      NoRecords(front);
    } else {
      var tail := WriteRecords(rs[1..]);
      OneRecord(front, rs[0], tail);
      ParseStep(front + (WriteRecord(rs[0]) + tail), |front|);
      Assoc(front, WriteRecord(rs[0]), tail);
      WriteRecordLength(rs[0]);
      RecordsWritten(rs[1..], front + WriteRecord(rs[0]));
      assert rs == [rs[0]] + rs[1..];
    }
  }

  lemma NoRecords(front: bytes)
    ensures ParseRecords(front + [], |front|) == Ok([])
  {
  }

  lemma WriteRecordLength(r: Record)
    requires |r.payload| <= MAX_PAYLOAD
    ensures |WriteRecord(r)| == 2 + |r.payload|
  {
  }

  /** A payload decodes to a list of records exactly when it is those records written
      one after the other. */
  lemma DecodesExactly(b: bytes, rs: seq<Record>)
    ensures ParseRecords(b, 0) == Ok(rs) <==> Fit(rs) && WriteRecords(rs) == b
  {
    hide ParseRecords, WriteRecords, Fit;
    if ParseRecords(b, 0) == Ok(rs) {
      RecordsRead(b, 0);
      assert b[0..] == b;
    }
    if Fit(rs) && WriteRecords(rs) == b {
      RecordsWritten(rs, []);
      assert [] + b == b;
    }
  }

  /** The offset of a short read: whole records up to it, no whole record at it. */
  lemma {:induction false} ShortReadOffset(b: bytes, off: nat)
    requires off <= |b| && ParseRecords(b, off).Err?
    ensures var at := ParseRecords(b, off).error;
      && off <= at < |b| && !Complete(b[at..])
      && exists rs: seq<Record> {:trigger WriteRecords(rs)} :: Fit(rs) && WriteRecords(rs) == b[off..at]
    decreases |b| - off
  {
    if !Complete(b[off..]) {
      assert Fit([]) && WriteRecords([]) == b[off..off];
    } else {
      var end := off + 2 + b[off + 1];
      ShortReadOffset(b, end);
      var at := ParseRecords(b, off).error;
      var rs: seq<Record> :| Fit(rs) && WriteRecords(rs) == b[end..at];
      var r := Record(b[off], b[off + 2..end]);
      assert ([r] + rs)[1..] == rs;
      assert Fit([r] + rs);
      assert b[off..at] == [b[off], b[off + 1]] + b[off + 2..end] + b[end..at];
      assert WriteRecords([r] + rs) == b[off..at];
    }
  }

  // ---- Decoding: the code ------------------------------------------------------------------

  ghost function Continue(out: seq<Record>, r: Result<seq<Record>, nat>): Result<seq<Record>, nat> {
    match r case Err(at) => Err(at) case Ok(more) => Ok(out + more)
  }

  method DecodeRecords(b: bytes) returns (r: Result<seq<Record>, nat>)
    ensures r == ParseRecords(b, 0)
  {
    var out: seq<Record> := [];
    var off := 0;
    ContinueNothing(ParseRecords(b, 0));
    while off < |b|
      invariant off <= |b|
      invariant ParseRecords(b, 0) == Continue(out, ParseRecords(b, off))
    {
      if off + 2 > |b| { return Err(off); }
      var kind := b[off];
      var len := b[off + 1];
      if off + 2 + len > |b| { return Err(off); }
      var record := Record(kind, b[off + 2..off + 2 + len]);
      ContinueMore(out, record, ParseRecords(b, off + 2 + len));
      out := out + [record];
      off := off + 2 + len;
    }
    assert out + [] == out;
    return Ok(out);
  }

  lemma ContinueNothing(r: Result<seq<Record>, nat>)
    ensures Continue([], r) == r
  {
    if r.Ok? {
      assert [] + r.value == r.value;
    }
  }

  lemma ContinueMore(out: seq<Record>, x: Record, r: Result<seq<Record>, nat>)
    ensures Continue(out, match r case Err(at) => Err(at) case Ok(more) => Ok([x] + more)) == Continue(out + [x], r)
  {
    if r.Ok? {
      assert out + ([x] + r.value) == (out + [x]) + r.value;
    }
  }

  // ---- Reduction ---------------------------------------------------------------------------

  function Shown(payload: bytes, fallback: Reason): Reason {
    var p := PrintableOnly(payload);
    if p == [] then fallback else Text(p)
  }

  function Reduce(rs: seq<Record>): Rejection {
    if |rs| != 1 then Invalid(Several(|rs|))
    else if rs[0].kind == 0 then AlreadyConsumed
    else if rs[0].kind == 1 then Invalid(Shown(rs[0].payload, NotRootPhrase))
    else if rs[0].kind == 2 then Invalid(Shown(rs[0].payload, BadPoPPhrase))
    else if rs[0].kind == 3 then Invalid(Shown(rs[0].payload, OtherPhrase))
    else Invalid(UnknownKind(rs[0].kind))
  }

  /** What the joiner makes of a REDEEM_ERR payload; `None` is a protocol violation. */
  function JoinerReads(b: bytes): Option<Rejection> {
    match ParseRecords(b, 0)
    case Err(_) => None
    case Ok(rs) => if rs == [] then None else Some(Reduce(rs))
  }

  lemma {:induction false} PrintableKept(b: bytes)
    ensures forall i :: 0 <= i < |PrintableOnly(b)| ==> Printable(PrintableOnly(b)[i])
    ensures (forall i :: 0 <= i < |b| ==> Printable(b[i])) <==> PrintableOnly(b) == b
  {
    if b != [] {
      PrintableKept(b[1..]);
      assert b == [b[0]] + b[1..];
      if forall i :: 0 <= i < |b| ==> Printable(b[i]) {
        assert forall i :: 0 <= i < |b[1..]| ==> Printable(b[1..][i]);
      }
      if PrintableOnly(b) == b && Printable(b[0]) {
        assert PrintableOnly(b[1..]) == PrintableOnly(b)[1..] == b[1..];
      }
    }
  }

  /** A normalized reason reads as printable text, and text that is already printable
      and short is not changed. */
  lemma NormalizeMeans(reason: bytes)
    ensures var n := Normalize(reason);
      && n <= PrintableOnly(reason)
      && (|n| < MAX_PAYLOAD ==> n == PrintableOnly(reason))
      && PrintableOnly(n) == n && Normalize(n) == n
  {
    var n := Normalize(reason);
    PrintableKept(reason);
    assert forall i :: 0 <= i < |n| ==> n[i] == PrintableOnly(reason)[i];
    PrintableKept(n);
  }

  /** The joiner concludes that the invite was consumed exactly from one whole record
      of that kind and nothing else: anything more, less or different is refused as
      invalid or as a violation. */
  lemma ConsumedExactly(b: bytes)
    ensures JoinerReads(b) == Some(AlreadyConsumed) <==> |b| >= 2 && b[0] == 0 && |b| - 2 == b[1]
  {
    if |b| >= 2 && |b| - 2 == b[1] {
      assert b[0..] == b;
      assert ParseRecords(b, |b|) == Ok([]);
    } else if JoinerReads(b).Some? {
      assert b[0..] == b;
      var end := b[1] as nat + 2;
      assert ParseRecords(b, end).value != [];
    }
  }

  /** What the issuer refuses with is what the joiner concludes. */
  lemma RefusalArrives(r: Refusal)
    ensures JoinerReads(EncodeRecord(r)) == Some(
      match r
      case Consumed => AlreadyConsumed
      case NotRoot => Invalid(NotRootPhrase)
      case BadPoP => Invalid(BadPoPPhrase)
      case Other(reason) => Invalid(if Normalize(reason) == [] then OtherPhrase else Text(Normalize(reason))))
  {
    hide Normalize, ParseRecords;
    var rs := [RecordOf(r)];
    assert WriteRecords(rs) == EncodeRecord(r) + WriteRecords([]) == EncodeRecord(r);
    DecodesExactly(EncodeRecord(r), rs);
    if r.Other? {
      NormalizeMeans(r.reason);
    }
  }
}
