/** The log of consumed invites: 24-byte records, appended and read back whole. */
module InviteLog {
  import opened Bytes

  const RECORD_LEN: nat := 24

  function Record(id: Bytes16, now: u64): (r: bytes)
    ensures |r| == RECORD_LEN && r[..16] == id
  {
    id + U64Bytes(now)
  }

  /** The ids of the whole records of a log. */
  function Ids(log: bytes): set<Bytes16>
    decreases |log|
  {
    if |log| < RECORD_LEN then {} else {log[..16]} + Ids(log[RECORD_LEN..])
  }

  /** `load_consumed_invites`: a torn log is corruption. */
  function Load(log: bytes): Option<set<Bytes16>> {
    if |log| % RECORD_LEN == 0 then Some(Ids(log)) else None
  }

  /** Whatever is appended, no record is lost. */
  lemma {:induction false} IdsGrow(log: bytes, more: bytes)
    ensures Ids(log) <= Ids(log + more)
    decreases |log|
  {
    if |log| >= RECORD_LEN {
      IdsGrow(log[RECORD_LEN..], more);
      assert (log + more)[RECORD_LEN..] == log[RECORD_LEN..] + more;
      assert (log + more)[..16] == log[..16];
    }
  }

  /** After whole records, part of a record adds nothing and a whole one adds its id. */
  lemma {:induction false} IdsOfTail(log: bytes, tail: bytes)
    requires |log| % RECORD_LEN == 0 && |tail| <= RECORD_LEN
    ensures Ids(log + tail) == Ids(log) + (if |tail| == RECORD_LEN then {tail[..16]} else {})
    decreases |log|
  {
    if |log| >= RECORD_LEN {
      IdsOfTail(log[RECORD_LEN..], tail);
      assert (log + tail)[RECORD_LEN..] == log[RECORD_LEN..] + tail;
      assert (log + tail)[..16] == log[..16];
    } else {
      assert log + tail == tail;
      assert |tail| == RECORD_LEN ==> tail[RECORD_LEN..] == [];
    }
  }

  lemma RecordStarts(id: Bytes16, now: u64)
    ensures Record(id, now)[..16] == id
  {
  }
}
