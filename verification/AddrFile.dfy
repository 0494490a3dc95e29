/** The persisted form of the address store and what a reload brings back. */
module AddrFile {
  import opened Bytes
  import opened AddrSlots
  import opened AddrStore

  datatype Persisted = Persisted(addr: bytes, src: bytes, lastOk: u64, learnedAt: u64)

  datatype PersistEntry = V2(p: Persisted) | V1(addr: bytes)

  /** The text form of endpoint ids. */
  datatype IdText = IdText(show: Key -> bytes, parse: bytes -> Option<Key>)

  ghost predicate Faithful(t: IdText) {
    forall id: Key :: t.parse(t.show(id)) == Some(id)
  }

  // "announced", "manual", "dial-ok" and "observed"
  function Tag(s: Source): bytes {
    match s
    case Announced => [0x61, 0x6e, 0x6e, 0x6f, 0x75, 0x6e, 0x63, 0x65, 0x64]
    case Manual => [0x6d, 0x61, 0x6e, 0x75, 0x61, 0x6c]
    case DialOk => [0x64, 0x69, 0x61, 0x6c, 0x2d, 0x6f, 0x6b]
    case ObservedInbound => [0x6f, 0x62, 0x73, 0x65, 0x72, 0x76, 0x65, 0x64]
  }

  /** An unknown tag is an untrusted observation. */
  function SourceOf(tag: bytes): Source {
    if tag == Tag(Announced) then Announced
    else if tag == Tag(Source.Manual) then Source.Manual
    else if tag == Tag(DialOk) then DialOk
    else ObservedInbound
  }

  lemma TagRoundTrip(s: Source)
    ensures SourceOf(Tag(s)) == s
  {
    assert |Tag(Announced)| == 9 && |Tag(Source.Manual)| == 6 && |Tag(DialOk)| == 7 && |Tag(ObservedInbound)| == 8;
  }

  // ---- Snapshot ---------------------------------------------------------------------------

  function ToPersisted(e: Entry): Persisted {
    Persisted(e.addr, Tag(e.source), e.lastSuccess, e.learnedAt)
  }

  function SavedPart(v: seq<Entry>): seq<Persisted>
    decreases |v|
  {
    if v == [] then []
    else SavedPart(v[..|v| - 1]) + (if Persistable(v[|v| - 1]) then [ToPersisted(v[|v| - 1])] else [])
  }

  /** The first `n` endpoints in insertion order, without those that have nothing to
      persist. */
  function SnapshotOf(t: IdText, s: Store, n: nat): seq<(bytes, seq<Persisted>)>
    requires n <= |s.order|
    decreases n
  {
    if n == 0 then []
    else
      var id := s.order[n - 1];
      var part := if id in s.slots then SavedPart(s.slots[id]) else [];
      SnapshotOf(t, s, n - 1) + (if part == [] then [] else [(t.show(id), part)])
  }

  function Snapshot(t: IdText, s: Store): seq<(bytes, seq<Persisted>)> {
    SnapshotOf(t, s, |s.order|)
  }

  // ---- Load -------------------------------------------------------------------------------

  function EntryOf(p: PersistEntry, now: u64): Entry {
    match p
    case V2(q) => Entry(q.addr, SourceOf(q.src), q.lastOk, q.learnedAt, 0)
    case V1(addr) => Entry(addr, ObservedInbound, 0, now, 0)
  }

  function LoadSlot(v: seq<Entry>, ps: seq<PersistEntry>, now: u64): seq<Entry>
    decreases |ps|
  {
    if ps == [] then v
    else
      var w := LoadSlot(v, ps[..|ps| - 1], now);
      var e := EntryOf(ps[|ps| - 1], now);
      if HasAddr(w, e.addr) then w else w + [e]
  }

  function LoadOne(t: IdText, s: Store, x: (bytes, seq<PersistEntry>), now: u64): Store {
    match t.parse(x.0)
    case None => s
    case Some(id) =>
      var s1 := EnsureSlot(s, id);
      s1.(slots := s1.slots[id := CapAddrs(LoadSlot(s1.slots[id], x.1, now))])
  }

  function Load(t: IdText, file: seq<(bytes, seq<PersistEntry>)>, now: u64): Store
    decreases |file|
  {
    if file == [] then Empty()
    else LoadOne(t, Load(t, file[..|file| - 1], now), file[|file| - 1], now)
  }

  // ---- Every load is a good store --------------------------------------------------------------

  lemma {:induction false} LoadSlotDistinct(v: seq<Entry>, ps: seq<PersistEntry>, now: u64)
    requires DistinctAddrs(v)
    ensures DistinctAddrs(LoadSlot(v, ps, now))
    decreases |ps|
  {
    if ps != [] {
      LoadSlotDistinct(v, ps[..|ps| - 1], now);
    }
  }

  /** Whatever the file says, the store loaded from it meets its bounds. */
  lemma {:induction false} LoadIsGood(t: IdText, file: seq<(bytes, seq<PersistEntry>)>, now: u64)
    ensures Good(Load(t, file, now))
    decreases |file|
  {
    hide EnsureSlot, LoadSlot, DistinctAddrs, CapAddrs, NoRepeats, GoodSlot;
    if file == [] {
      assert NoRepeats([]) by { NoRepeatsNone(); }
    } else {
      var s := Load(t, file[..|file| - 1], now);
      LoadIsGood(t, file[..|file| - 1], now);
      var x := file[|file| - 1];
      if t.parse(x.0).Some? {
        var id := t.parse(x.0).value;
        EnsureSlotMeans(s, id);
        var v := EnsureSlot(s, id).slots[id];
        GoodIsDistinct(v);
        LoadSlotDistinct(v, x.1, now);
        CapAddrsGood(LoadSlot(v, x.1, now));
      }
    }
  }

  lemma NoRepeatsNone()
    ensures NoRepeats([])
  {
  }

  lemma GoodIsDistinct(v: seq<Entry>)
    requires GoodSlot(v)
    ensures DistinctAddrs(v) && |v| <= MAX_ADDRS
  {
  }

  /** The file vouches for that address of that endpoint with a trusted source tag. */
  ghost predicate Vouches(t: IdText, file: seq<(bytes, seq<PersistEntry>)>, id: Key, addr: bytes) {
    exists i, j :: 0 <= i < |file| && 0 <= j < |file[i].1| && t.parse(file[i].0) == Some(id) && TrustedEntry(file[i].1[j], addr)
  }

  predicate TrustedEntry(p: PersistEntry, addr: bytes) {
    p.V2? && p.p.addr == addr && SourceOf(p.p.src) != ObservedInbound
  }

  lemma {:induction false} LoadSlotTrusted(v: seq<Entry>, ps: seq<PersistEntry>, now: u64, addr: bytes)
    requires HasTrusted(LoadSlot(v, ps, now), addr)
    ensures HasTrusted(v, addr) || exists j :: 0 <= j < |ps| && TrustedEntry(ps[j], addr)
    decreases |ps|
  {
    hide HasAddr, SourceOf, Tag;
    if ps != [] {
      var front := ps[..|ps| - 1];
      var w := LoadSlot(v, front, now);
      var r := LoadSlot(v, ps, now);
      var i :| 0 <= i < |r| && r[i].addr == addr && Persistable(r[i]);
      if i < |w| {
        assert w[i] == r[i];
        LoadSlotTrusted(v, front, now, addr);
        if exists j :: 0 <= j < |front| && TrustedEntry(front[j], addr) {
          var j :| 0 <= j < |front| && TrustedEntry(front[j], addr);
          assert ps[j] == front[j];
        }
      } else {
        assert TrustedEntry(ps[|ps| - 1], addr);
      }
    }
  }

  lemma CapKeepsTrust(v: seq<Entry>, addr: bytes)
    requires HasTrusted(CapAddrs(v), addr)
    ensures HasTrusted(v, addr)
  {
    var w := CapAddrs(v);
    var i :| 0 <= i < |w| && w[i].addr == addr && Persistable(w[i]);
    assert w[i] in v;
  }

  /** A reload trusts only what the file names with a trusted tag; the plain strings of
      the first file format are never trusted. */
  lemma {:induction false} LoadTrustsOnlyVouched(t: IdText, file: seq<(bytes, seq<PersistEntry>)>, now: u64, id: Key, addr: bytes)
    requires Trusted(Load(t, file, now), id, addr)
    ensures Vouches(t, file, id, addr)
    decreases |file|
  {
    hide EnsureSlot, LoadSlot, CapAddrs, HasTrusted, TrustedEntry, Good;
    if file != [] {
      var front := file[..|file| - 1];
      var s := Load(t, front, now);
      var x := file[|file| - 1];
      LoadIsGood(t, front, now);
      if Trusted(s, id, addr) {
        LoadTrustsOnlyVouched(t, front, now, id, addr);
        var i, j :| 0 <= i < |front| && 0 <= j < |front[i].1| && t.parse(front[i].0) == Some(id) && TrustedEntry(front[i].1[j], addr);
        assert file[i] == front[i];
      } else {
        var k := t.parse(x.0).value;
        EnsureSlotMeans(s, k);
        var v := EnsureSlot(s, k).slots[k];
        assert k == id;
        NothingTrusted(addr);
        CapKeepsTrust(LoadSlot(v, x.1, now), addr);
        LoadSlotTrusted(v, x.1, now, addr);
        var j :| 0 <= j < |x.1| && TrustedEntry(x.1[j], addr);
        assert file[|file| - 1].1[j] == x.1[j];
      }
    }
  }

  lemma NothingTrusted(addr: bytes)
    ensures !HasTrusted([], addr)
  {
  }

  // ---- Reloading a snapshot ----------------------------------------------------------------------

  function AsFile(snap: seq<(bytes, seq<Persisted>)>): (r: seq<(bytes, seq<PersistEntry>)>)
    ensures |r| == |snap|
    decreases |snap|
  {
    if snap == [] then []
    else AsFile(snap[..|snap| - 1]) + [(snap[|snap| - 1].0, AsEntries(snap[|snap| - 1].1))]
  }

  function AsEntries(ps: seq<Persisted>): (r: seq<PersistEntry>)
    ensures |r| == |ps|
    decreases |ps|
  {
    if ps == [] then [] else AsEntries(ps[..|ps| - 1]) + [V2(ps[|ps| - 1])]
  }

  /** The persistable entries of a slot, in order, with their failures forgiven. */
  function Forgiven(v: seq<Entry>): seq<Entry>
    decreases |v|
  {
    if v == [] then []
    else Forgiven(v[..|v| - 1]) + (if Persistable(v[|v| - 1]) then [v[|v| - 1].(fails := 0)] else [])
  }

  /** The endpoints among the first `n` that have something to persist, in order. */
  function KeptOrder(s: Store, n: nat): seq<Key>
    requires n <= |s.order| && forall i :: 0 <= i < n ==> s.order[i] in s.slots
    decreases n
  {
    if n == 0 then []
    else
      var id := s.order[n - 1];
      KeptOrder(s, n - 1) + (if Forgiven(s.slots[id]) == [] then [] else [id])
  }

  /** What a reload is to bring back: exactly the persistable entries. */
  function Survivors(s: Store, n: nat): Store
    requires n <= |s.order| && forall i :: 0 <= i < n ==> s.order[i] in s.slots
  {
    Store(map id | id in s.slots && id in s.order[..n] && Forgiven(s.slots[id]) != [] :: Forgiven(s.slots[id]), KeptOrder(s, n))
  }

  lemma {:induction false} ForgivenMeans(v: seq<Entry>)
    requires DistinctAddrs(v)
    ensures |Forgiven(v)| <= |v| && DistinctAddrs(Forgiven(v))
    ensures forall a :: HasAddr(Forgiven(v), a) ==> HasAddr(v, a)
    ensures SavedPart(v) == [] <==> Forgiven(v) == []
    decreases |v|
  {
    if v != [] {
      var front := v[..|v| - 1];
      var last := v[|v| - 1];
      ForgivenMeans(front);
      forall a | HasAddr(front, a) ensures HasAddr(v, a) {
        var i :| 0 <= i < |front| && front[i].addr == a;
        assert v[i].addr == a;
      }
      assert !HasAddr(front, last.addr);
      if Persistable(last) {
        PushDistinct(Forgiven(front), last.(fails := 0));
        forall a | HasAddr(Forgiven(v), a) ensures HasAddr(v, a) {
          var i :| 0 <= i < |Forgiven(v)| && Forgiven(v)[i].addr == a;
          if i < |Forgiven(front)| {
            assert Forgiven(front)[i].addr == a;
          } else {
            assert v[|v| - 1].addr == a;
          }
        }
      }
    }
  }

  lemma {:induction false} SlotReloads(v: seq<Entry>, now: u64)
    requires DistinctAddrs(v)
    ensures LoadSlot([], AsEntries(SavedPart(v)), now) == Forgiven(v)
    decreases |v|
  {
    hide Tag, SourceOf;
    if v != [] {
      var front := v[..|v| - 1];
      var last := v[|v| - 1];
      SlotReloads(front, now);
      if Persistable(last) {
        var p := ToPersisted(last);
        var ps := SavedPart(front);
        assert (ps + [p])[..|ps|] == ps;
        var es := AsEntries(ps + [p]);
        assert es == AsEntries(ps) + [V2(p)] && es[..|ps|] == AsEntries(ps);
        TagRoundTrip(last.source);
        assert EntryOf(V2(p), now) == last.(fails := 0);
        ForgivenMeans(front);
        LastIsNew(v);
      } else {
        assert SavedPart(v) == SavedPart(front) && Forgiven(v) == Forgiven(front);
      }
    }
  }

  lemma LastIsNew(v: seq<Entry>)
    requires v != [] && DistinctAddrs(v)
    ensures !HasAddr(v[..|v| - 1], v[|v| - 1].addr)
  {
  }

  lemma {:induction false} KeptOrderMeans(s: Store, n: nat)
    requires n <= |s.order| && forall i :: 0 <= i < n ==> s.order[i] in s.slots
    ensures |KeptOrder(s, n)| <= n
    decreases n
  {
    if n > 0 {
      KeptOrderMeans(s, n - 1);
    }
  }

  lemma GoodOrder(s: Store)
    requires Good(s)
    ensures forall i :: 0 <= i < |s.order| ==> s.order[i] in s.slots
    ensures |s.order| <= MAX_ENDPOINTS
  {
  }

  lemma SurvivorsStep(s: Store, n: nat)
    requires Good(s) && 0 < n <= |s.order| && forall i :: 0 <= i < |s.order| ==> s.order[i] in s.slots
    ensures
      var id := s.order[n - 1];
      var before := Survivors(s, n - 1);
      && id !in before.slots
      && Survivors(s, n) == (if Forgiven(s.slots[id]) == [] then before
                             else Store(before.slots[id := Forgiven(s.slots[id])], before.order + [id]))
  {
    hide Forgiven, Good, KeptOrder;
    var id := s.order[n - 1];
    var before := Survivors(s, n - 1);
    OrderStep(s, n);
    KeptStep(s, n);
    if Forgiven(s.slots[id]) == [] {
      assert Survivors(s, n).slots == before.slots;
    } else {
      assert Survivors(s, n).slots == before.slots[id := Forgiven(s.slots[id])];
    }
  }

  lemma OrderStep(s: Store, n: nat)
    requires Good(s) && 0 < n <= |s.order|
    ensures s.order[n - 1] !in s.order[..n - 1]
    ensures forall k :: k in s.order[..n] <==> k in s.order[..n - 1] || k == s.order[n - 1]
  {
    assert s.order[..n] == s.order[..n - 1] + [s.order[n - 1]];
  }

  lemma KeptStep(s: Store, n: nat)
    requires 0 < n <= |s.order| && forall i :: 0 <= i < |s.order| ==> s.order[i] in s.slots
    ensures KeptOrder(s, n) == KeptOrder(s, n - 1) + (if Forgiven(s.slots[s.order[n - 1]]) == [] then [] else [s.order[n - 1]])
  {
  }

  lemma LoadStep(t: IdText, s: Store, n: nat, now: u64)
    requires Good(s) && Faithful(t) && 0 < n <= |s.order| && forall i :: 0 <= i < |s.order| ==> s.order[i] in s.slots
    requires Forgiven(s.slots[s.order[n - 1]]) != []
    ensures LoadOne(t, Survivors(s, n - 1), (t.show(s.order[n - 1]), AsEntries(SavedPart(s.slots[s.order[n - 1]]))), now)
         == Survivors(s, n)
  {
    hide Forgiven, SavedPart, LoadSlot, DistinctAddrs, NoRepeats, KeptOrder;
    var id := s.order[n - 1];
    var before := Survivors(s, n - 1);
    SurvivorsStep(s, n);
    KeptOrderMeans(s, n - 1);
    assert EnsureSlot(before, id) == Store(before.slots[id := []], before.order + [id]);
    GoodIsDistinct(s.slots[id]);
    SlotReloads(s.slots[id], now);
    ForgivenMeans(s.slots[id]);
  }

  lemma AsFileMore(snap: seq<(bytes, seq<Persisted>)>, x: (bytes, seq<Persisted>))
    ensures AsFile(snap + [x]) == AsFile(snap) + [(x.0, AsEntries(x.1))]
  {
    hide AsEntries;
    assert (snap + [x])[..|snap|] == snap;
  }

  lemma LoadMore(t: IdText, file: seq<(bytes, seq<PersistEntry>)>, x: (bytes, seq<PersistEntry>), now: u64)
    ensures Load(t, file + [x], now) == LoadOne(t, Load(t, file, now), x, now)
  {
    hide LoadOne;
    assert (file + [x])[..|file|] == file;
  }

  lemma {:induction false} PrefixReloads(t: IdText, s: Store, n: nat, now: u64)
    requires Good(s) && Faithful(t) && n <= |s.order| && forall i :: 0 <= i < |s.order| ==> s.order[i] in s.slots
    ensures Load(t, AsFile(SnapshotOf(t, s, n)), now) == Survivors(s, n)
    decreases n
  {
    hide Forgiven, SavedPart, LoadOne, Survivors, NoRepeats, DistinctAddrs, AsEntries, AsFile, Load, Good, GoodSlot;
    if n == 0 {
      NoSurvivors(s);
      assert Load(t, AsFile([]), now) == Empty() by { NothingLoaded(t, now); }
    } else {
      var id := s.order[n - 1];
      var snap := SnapshotOf(t, s, n - 1);
      PrefixReloads(t, s, n - 1, now);
      SurvivorsStep(s, n);
      SlotIsDistinct(s, id);
      ForgivenMeans(s.slots[id]);
      if Forgiven(s.slots[id]) != [] {
        var x := (t.show(id), SavedPart(s.slots[id]));
        AsFileMore(snap, x);
        LoadMore(t, AsFile(snap), (x.0, AsEntries(x.1)), now);
        LoadStep(t, s, n, now);
      } else {
        assert SnapshotOf(t, s, n) == snap;
      }
    }
  }

  lemma NothingLoaded(t: IdText, now: u64)
    ensures Load(t, AsFile([]), now) == Empty()
  {
  }

  lemma SlotIsDistinct(s: Store, id: Key)
    requires Good(s) && id in s.slots
    ensures DistinctAddrs(s.slots[id])
  {
  }

  lemma NoSurvivors(s: Store)
    requires Good(s)
    ensures Survivors(s, 0) == Empty()
  {
    assert s.order[..0] == [];
  }

  /** Reloading a snapshot brings back exactly the persistable entries, slot by slot and
      endpoint by endpoint in their order, with their failures forgiven. */
  lemma ReloadBringsBack(t: IdText, s: Store, now: u64)
    requires Good(s) && Faithful(t)
    ensures forall i :: 0 <= i < |s.order| ==> s.order[i] in s.slots
    ensures Load(t, AsFile(Snapshot(t, s)), now) == Survivors(s, |s.order|)
  {
    hide Good, AsFile, Load, Survivors;
    GoodOrder(s);
    PrefixReloads(t, s, |s.order|, now);
  }

  // ---- Nothing unnamed is ever persisted -----------------------------------------------------------

  lemma {:induction false} SavedIsTrusted(v: seq<Entry>, p: Persisted)
    requires p in SavedPart(v)
    ensures HasTrusted(v, p.addr)
    decreases |v|
  {
    if v != [] {
      var front := v[..|v| - 1];
      if p in SavedPart(front) {
        SavedIsTrusted(front, p);
        var i :| 0 <= i < |front| && front[i].addr == p.addr && Persistable(front[i]);
        assert v[i] == front[i];
      } else {
        assert v[|v| - 1].addr == p.addr;
      }
    }
  }

  lemma {:induction false} SnapshotIsTrusted(t: IdText, s: Store, n: nat, x: (bytes, seq<Persisted>), p: Persisted) returns (id: Key)
    requires n <= |s.order| && x in SnapshotOf(t, s, n) && p in x.1
    ensures x.0 == t.show(id) && Trusted(s, id, p.addr)
    decreases n
  {
    hide SavedPart, HasTrusted;
    if x in SnapshotOf(t, s, n - 1) {
      id := SnapshotIsTrusted(t, s, n - 1, x, p);
    } else {
      id := s.order[n - 1];
      SavedIsTrusted(s.slots[id], p);
    }
  }

  /** Start from any file, run any operations, take a snapshot: every address in it was
      named for its endpoint by an announcement, a manual entry, a dial success, or a
      trusted entry of the file. */
  lemma OnlyNamedIsPersisted(t: IdText, file: seq<(bytes, seq<PersistEntry>)>, now: u64, ops: seq<Op>,
                             x: (bytes, seq<Persisted>), p: Persisted)
    requires x in Snapshot(t, Run(Load(t, file, now), ops)) && p in x.1
    ensures exists id :: x.0 == t.show(id) && NamedFor(t, file, ops, id, p.addr)
  {
    hide Load, Run, Good, Vouches, Trusted;
    var s := Load(t, file, now);
    var id := SnapshotIsTrusted(t, Run(s, ops), |Run(s, ops).order|, x, p);
    LoadIsGood(t, file, now);
    OnlyNamedIsTrusted(s, ops, id, p.addr);
    if Trusted(s, id, p.addr) {
      LoadTrustsOnlyVouched(t, file, now, id, p.addr);
    }
    assert NamedFor(t, file, ops, id, p.addr);
  }

  ghost predicate NamedFor(t: IdText, file: seq<(bytes, seq<PersistEntry>)>, ops: seq<Op>, id: Key, addr: bytes) {
    Vouches(t, file, id, addr) || exists i :: 0 <= i < |ops| && Names(ops[i], id, addr)
  }
}
