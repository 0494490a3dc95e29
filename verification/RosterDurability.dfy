/** The roster in memory against the image on disk, over every run of merges and local
    facts whose persisting may fail. */
module RosterDurability {
  import opened Bytes
  import opened Facts
  import opened FactCodec
  import opened FactFrames
  import opened RosterState
  import opened RosterImage

  datatype Disk = Disk(state: State, image: Option<bytes>)

  /** A merge of deliveries, or one locally built fact; `disk` says whether persisting
      succeeds if it is tried. */
  datatype Op = Deliver(fs: seq<SignedFact>, disk: bool) | Enter(sf: SignedFact, disk: bool)

  function NewState(c: Crypto, s: State, op: Op): State {
    match op
    case Deliver(fs, _) => MergeAll(c, s, fs)
    case Enter(sf, _) => Insert(c, s, sf).0
  }

  /** Something was inserted. */
  predicate Inserts(c: Crypto, s: State, op: Op) {
    NewState(c, s, op).facts != s.facts
  }

  /** A merge persists only what it changed; a local fact is persisted again when it was
      there already. */
  predicate Saves(c: Crypto, s: State, op: Op) {
    op.disk && match op
    case Deliver(fs, _) => Inserts(c, s, op)
    case Enter(sf, _) => !Insert(c, s, sf).1.Quarantined?
  }

  ghost function After(c: Crypto, d: Disk, op: Op): Disk {
    var s := NewState(c, d.state, op);
    Disk(s, if Saves(c, d.state, op) then Image(c, s) else d.image)
  }

  ghost function Run(c: Crypto, d: Disk, ops: seq<Op>): Disk
    decreases |ops|
  {
    if ops == [] then d else After(c, Run(c, d, ops[..|ops| - 1]), ops[|ops| - 1])
  }

  predicate WellTypedOp(c: Crypto, op: Op) {
    match op
    case Deliver(fs, _) => forall i :: 0 <= i < |fs| ==> WellTyped(c, fs[i].fact)
    case Enter(sf, _) => WellTyped(c, sf.fact)
  }

  ghost predicate Sound(c: Crypto, s: State) {
    Good(c, s) && Typed(c, s)
  }

  // ---- The state only grows -------------------------------------------------------------

  lemma {:induction false} MergeIsSound(c: Crypto, s: State, fs: seq<SignedFact>)
    requires Sound(c, s) && forall i :: 0 <= i < |fs| ==> WellTyped(c, fs[i].fact)
    ensures Sound(c, MergeAll(c, s, fs)) && Extends(s, MergeAll(c, s, fs))
    decreases |fs|
  {
    hide Good, Typed, Insert, WellTyped;
    if fs != [] {
      InsertKeeps(c, s, fs[0]);
      TypedKept(c, s, fs[0]);
      MergeIsSound(c, Insert(c, s, fs[0]).0, fs[1..]);
      RunKeeps(c, s, fs);
    } else {
      RunKeeps(c, s, fs);
    }
  }

  lemma OpIsSound(c: Crypto, s: State, op: Op)
    requires Sound(c, s) && WellTypedOp(c, op)
    ensures Sound(c, NewState(c, s, op)) && Extends(s, NewState(c, s, op))
  {
    hide Good, Typed, Insert, WellTyped, MergeAll;
    match op
    case Deliver(fs, _) => MergeIsSound(c, s, fs);
    case Enter(sf, _) =>
      InsertKeeps(c, s, sf);
      TypedKept(c, s, sf);
  }

  // ---- Different rosters have different images ------------------------------------------------

  /** Frames written one after the other are read back, so the shorter of two lists with
      one writing is the whole of the longer. */
  lemma FramesDecide(c: Crypto, fs: seq<SignedFact>, gs: seq<SignedFact>)
    requires AllSendable(c, fs) && AllSendable(c, gs) && |fs| <= |gs|
    requires WriteMany(Encode, fs) == WriteMany(Encode, gs)
    ensures |fs| == |gs|
  {
    hide Sendable, Encode, WriteMany, ParseMany;
    var n := |fs|;
    var w := WriteMany(Encode, fs);
    assert w + [] == w;
    FramesWritten(c, fs, []);
    WriteManySplit(Encode, gs, n);
    FramesWritten(c, gs[..n], WriteMany(Encode, gs[n..]));
    NothingWritten(gs[n..]);
  }

  lemma NothingWritten(fs: seq<SignedFact>)
    requires WriteMany(Encode, fs) == []
    ensures fs == []
  {
  }

  /** An older image is the present one only if no fact has been added since. */
  lemma ImageTells(c: Crypto, s: State, t: State)
    requires Sound(c, s) && Sound(c, t) && Extends(s, t) && Image(c, s) == Image(c, t)
    ensures s.facts == t.facts
  {
    GoodIsSendable(c, s);
    GoodIsSendable(c, t);
    hide SortedFacts, Typed, Good, Sealed, Magic, WriteMany, Encode, Sendable;
    var fs, gs := SortedFacts(s.facts), SortedFacts(t.facts);
    SendableIsRepresentable(c, fs);
    SendableIsRepresentable(c, gs);
    var a, b := EncodeAll(fs).value, EncodeAll(gs).value;
    SealedFields(c, s.fabric, a);
    SealedFields(c, t.fabric, b);
    assert a == b;
    assert WriteMany(Encode, fs) == a[4..] == b[4..] == WriteMany(Encode, gs);
    Fewer(s.facts, t.facts);
    FramesDecide(c, fs, gs);
    AsMany(s.facts, t.facts);
  }

  lemma Fewer(m: map<FactId, SignedFact>, n: map<FactId, SignedFact>)
    requires forall id :: id in m ==> id in n
    ensures |m| <= |n|
  {
    assert |m| == |m.Keys| && |n| == |n.Keys|;
    assert n.Keys == m.Keys + (n.Keys - m.Keys);
    assert |n.Keys| == |m.Keys| + |n.Keys - m.Keys|;
  }

  lemma AsMany(m: map<FactId, SignedFact>, n: map<FactId, SignedFact>)
    requires (forall id :: id in m ==> id in n && n[id] == m[id]) && |m| == |n|
    ensures m == n
  {
    assert |m| == |m.Keys| && |n| == |n.Keys|;
    assert n.Keys == m.Keys + (n.Keys - m.Keys);
    assert |n.Keys| == |m.Keys| + |n.Keys - m.Keys|;
    assert n.Keys == m.Keys;
  }

  // ---- Saved or not ---------------------------------------------------------------------------

  /** The image is that of a roster that has only grown since. */
  ghost predicate Behind(c: Crypto, d: Disk) {
    Sound(c, d.state) && exists s :: Sound(c, s) && Extends(s, d.state) && d.image == Image(c, s)
  }

  lemma StaysBehind(c: Crypto, d: Disk, op: Op)
    requires Behind(c, d) && WellTypedOp(c, op)
    ensures
      var e := After(c, d, op);
      && Behind(c, e)
      && (Saves(c, d.state, op) ==> e.image == Image(c, e.state))
      && (!Saves(c, d.state, op) && Inserts(c, d.state, op) ==> e.image != Image(c, e.state))
      && (!Inserts(c, d.state, op) ==> Image(c, e.state) == Image(c, d.state))
  {
    hide Sound, Image, Saves;
    OpIsSound(c, d.state, op);
    var e := After(c, d, op);
    ExtendsItself(e.state);
    var s :| Sound(c, s) && Extends(s, d.state) && d.image == Image(c, s);
    if !Saves(c, d.state, op) && d.image == Image(c, e.state) {
      ImageTells(c, s, e.state);
    }
    if !Inserts(c, d.state, op) {
      ImageOfFacts(c, d.state, e.state);
    }
  }

  lemma ExtendsItself(s: State)
    ensures Extends(s, s)
  {
  }

  lemma ImageOfFacts(c: Crypto, s: State, t: State)
    requires s.facts == t.facts && s.fabric == t.fabric
    ensures Image(c, s) == Image(c, t)
  {
  }

  /** The state before the `i`th operation. */
  ghost function StateBefore(c: Crypto, d: Disk, ops: seq<Op>, i: nat): State
    requires i <= |ops|
  {
    Run(c, d, ops[..i]).state
  }

  /** The `i`th operation inserts something, and neither it nor a later one persists. */
  ghost predicate Unsaved(c: Crypto, d: Disk, ops: seq<Op>, i: nat)
    requires i < |ops|
  {
    && Inserts(c, StateBefore(c, d, ops, i), ops[i])
    && forall k :: i <= k < |ops| ==> !Saves(c, StateBefore(c, d, ops, k), ops[k])
  }

  lemma UnsavedGrows(c: Crypto, d: Disk, ops: seq<Op>, i: nat)
    requires i < |ops| - 1
    ensures Unsaved(c, d, ops, i)
       <==> Unsaved(c, d, ops[..|ops| - 1], i) && !Saves(c, StateBefore(c, d, ops, |ops| - 1), ops[|ops| - 1])
  {
    hide Run, Inserts, Saves;
    var n := |ops| - 1;
    assert forall k :: 0 <= k < n ==> ops[..n][k] == ops[k] && ops[..n][..k] == ops[..k];
  }

  /** Over every run the image is that of the roster in memory exactly when no insertion
      is unsaved: when for each, it or a later operation was persisted. */
  lemma {:induction false} SavedExactly(c: Crypto, d: Disk, ops: seq<Op>)
    requires Sound(c, d.state) && d.image == Image(c, d.state)
    requires forall i :: 0 <= i < |ops| ==> WellTypedOp(c, ops[i])
    ensures Behind(c, Run(c, d, ops))
    ensures Run(c, d, ops).image == Image(c, Run(c, d, ops).state)
       <==> forall i :: 0 <= i < |ops| ==> !Unsaved(c, d, ops, i)
    decreases |ops|
  {
    hide Sound, Inserts, Saves, Image, WellTypedOp, After;
    if ops == [] {
      ExtendsItself(d.state);
    } else {
      var n := |ops| - 1;
      SavedExactly(c, d, ops[..n]);
      StaysBehind(c, Run(c, d, ops[..n]), ops[n]);
      AfterState(c, Run(c, d, ops[..n]), ops[n]);
      forall i | 0 <= i < n
        ensures Unsaved(c, d, ops, i)
           <==> Unsaved(c, d, ops[..n], i) && !Saves(c, StateBefore(c, d, ops, n), ops[n])
      {
        UnsavedGrows(c, d, ops, i);
      }
      hide Behind;
      assert Unsaved(c, d, ops, n) <==> Inserts(c, StateBefore(c, d, ops, n), ops[n]) && !Saves(c, StateBefore(c, d, ops, n), ops[n]);
    }
  }

  lemma AfterState(c: Crypto, d: Disk, op: Op)
    ensures !Saves(c, d.state, op) ==> After(c, d, op).image == d.image
  {
  }

  // ---- Re-delivery ---------------------------------------------------------------------------------

  /** What was delivered once changes nothing when it is delivered again. */
  lemma {:induction false} RedeliveryChangesNothing(c: Crypto, s: State, fs: seq<SignedFact>, gs: seq<SignedFact>)
    requires Good(c, s) && forall i :: 0 <= i < |gs| ==> gs[i] in fs
    ensures MergeAll(c, MergeAll(c, s, fs), gs) == MergeAll(c, s, fs)
    decreases |gs|
  {
    hide Good, Acceptable, IdOf;
    if gs != [] {
      var t := MergeAll(c, s, fs);
      RunKeeps(c, s, fs);
      InsertOutcomes(c, t, gs[0]);
      if Acceptable(c, s.fabric, gs[0]) {
        DeliveredIsStored(c, s, fs, gs[0]);
      }
      assert Insert(c, t, gs[0]).0 == t;
      RedeliveryChangesNothing(c, s, fs, gs[1..]);
    }
  }

  /** So after a merge that failed to persist, delivering the same facts again does not
      persist them, and the image stays behind although the merge succeeds. */
  lemma RedeliveryDoesNotSave(c: Crypto, d: Disk, fs: seq<SignedFact>, gs: seq<SignedFact>)
    requires Behind(c, d) && WellTypedOp(c, Deliver(fs, false)) && forall i :: 0 <= i < |gs| ==> gs[i] in fs
    ensures
      var e := After(c, d, Deliver(fs, false));
      && After(c, e, Deliver(gs, true)) == e
      && (Inserts(c, d.state, Deliver(fs, false)) ==> e.image != Image(c, e.state))
  {
    RedeliveryChangesNothing(c, d.state, fs, gs);
    StaysBehind(c, d, Deliver(fs, false));
    hide Image, Good, Typed, MergeAll;
  }
}
