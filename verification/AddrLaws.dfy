/** What each recording operation and the pruning establish, read off the entries of the
    slot alone. */
module AddrLaws {
  import opened Bytes
  import opened AddrSlots
  import opened AddrStore
  import AddrFile

  // ---- Recording ----------------------------------------------------------------------------

  /** The slot holds the address at position `i`. */
  predicate HeldAt(v: seq<Entry>, addr: bytes, i: nat) {
    i < |v| && v[i].addr == addr
  }

  lemma IndexIs(v: seq<Entry>, addr: bytes, i: nat)
    requires DistinctAddrs(v) && HeldAt(v, addr, i)
    ensures IndexOf(v, addr) == i
  {
    assert HasAddr(v, addr);
  }

  lemma IndexIsNone(v: seq<Entry>, addr: bytes)
    requires forall i :: 0 <= i < |v| ==> v[i].addr != addr
    ensures IndexOf(v, addr) == |v|
  {
  }

  /** What a slot holds after a new entry: that entry last, and before it the old entries
      in order, but for the first of 1024. */
  ghost predicate Pushed(v: seq<Entry>, e: Entry, r: seq<Entry>) {
    && (|v| < 1024 ==> r == v + [e])
    && (|v| == 1024 ==> r == v[1..] + [e])
  }

  /** A manual entry makes a held address manual and forgives its failures, and enters one
      that is not held as never dialled. */
  lemma ManualExactly(v: seq<Entry>, addr: bytes, now: u64, i: nat)
    requires GoodSlot(v)
    ensures HeldAt(v, addr, i) ==>
      ManualSlot(v, addr, now) == v[i := Entry(addr, Source.Manual, v[i].lastSuccess, v[i].learnedAt, 0)]
    ensures (forall k :: 0 <= k < |v| ==> v[k].addr != addr) ==>
      Pushed(v, Entry(addr, Source.Manual, 0, now, 0), ManualSlot(v, addr, now))
  {
    if HeldAt(v, addr, i) {
      IndexIs(v, addr, i);
    } else if forall k :: 0 <= k < |v| ==> v[k].addr != addr {
      IndexIsNone(v, addr);
    }
    hide IndexOf, HasAddr, DistinctAddrs;
  }

  /** A dial success dates a held address, forgives its failures and makes an observation
      a dialled address; it enters one that is not held as dialled now. */
  lemma SuccessExactly(v: seq<Entry>, addr: bytes, now: u64, i: nat)
    requires GoodSlot(v)
    ensures HeldAt(v, addr, i) ==>
      SuccessSlot(v, addr, now)
        == v[i := Entry(addr, if v[i].source == ObservedInbound then DialOk else v[i].source, now, v[i].learnedAt, 0)]
    ensures (forall k :: 0 <= k < |v| ==> v[k].addr != addr) ==>
      Pushed(v, Entry(addr, DialOk, now, now, 0), SuccessSlot(v, addr, now))
  {
    if HeldAt(v, addr, i) {
      IndexIs(v, addr, i);
    } else if forall k :: 0 <= k < |v| ==> v[k].addr != addr {
      IndexIsNone(v, addr);
    }
    hide IndexOf, HasAddr, DistinctAddrs;
  }

  /** An observation dates a held observation and changes nothing else. */
  lemma ObservedHeld(v: seq<Entry>, addr: bytes, now: u64, i: nat)
    requires DistinctAddrs(v) && HeldAt(v, addr, i)
    ensures v[i].source == ObservedInbound ==>
      ObserveSlot(v, addr, now) == v[i := Entry(addr, ObservedInbound, v[i].lastSuccess, now, v[i].fails)]
    ensures v[i].source != ObservedInbound ==> ObserveSlot(v, addr, now) == v
  {
    IndexIs(v, addr, i);
  }

  function LaterObserved(v: seq<Entry>, at: u64): set<nat> {
    set j | 0 <= j < |v| && v[j].source == ObservedInbound && v[j].learnedAt > at
  }

  /** An address not held is entered as an observation of now, unless four observations
      in the slot are newer. Entries of other sources stay while there is room, and
      nothing else comes in. */
  lemma ObservedNew(v: seq<Entry>, addr: bytes, now: u64)
    requires GoodSlot(v) && forall k :: 0 <= k < |v| ==> v[k].addr != addr
    ensures
      var r := ObserveSlot(v, addr, now);
      var e := Entry(addr, ObservedInbound, 0, now, 0);
      && (e in r <==> |LaterObserved(v, now)| < 4)
      && (forall x :: x in r ==> x in v || x == e)
      && (|v| < 1024 ==> forall x :: x in v && x.source != ObservedInbound ==> x in r)
  {
    IndexIsNone(v, addr);
    var e := Fresh(addr, ObservedInbound, 0, now);
    var w := v + [e];
    hide IndexOf, HasAddr, Without, Crowded, DistinctAddrs;
    NewestIs(v, e);
    forall x
      ensures x in CapObserved(w) <==> exists k: nat :: k < |w| && k !in Crowded(w) && w[k] == x
    {
      WithoutHas(w, Crowded(w), 0, x);
    }
    NewIsNotOld(v, e);
    CapKeepsLast(w, e);
    assert forall k :: 0 <= k < |v| ==> w[k] == v[k];
    OnlyObservedCrowd(w);
  }

  lemma OnlyObservedCrowd(w: seq<Entry>)
    ensures forall k :: k in Crowded(w) ==> k < |w| && w[k].source.ObservedInbound?
  {
  }

  /** The new observation is crowded out exactly by four newer ones. */
  lemma NewestIs(v: seq<Entry>, e: Entry)
    requires e.source == ObservedInbound
    ensures |v| in Crowded(v + [e]) <==> |LaterObserved(v, e.learnedAt)| >= 4
  {
    var w := v + [e];
    assert Newer(w, |v|) == LaterObserved(v, e.learnedAt);
  }

  lemma NewIsNotOld(v: seq<Entry>, e: Entry)
    requires forall k :: 0 <= k < |v| ==> v[k].addr != e.addr
    ensures forall k: nat :: k < |v + [e]| && (v + [e])[k] == e ==> k == |v|
  {
  }

  /** Capping the observations of `w` and then its size loses its last entry only to the
      cap on observations. */
  lemma CapKeepsLast(w: seq<Entry>, e: Entry)
    requires w != [] && |w| <= 1025 && w[|w| - 1] == e
    ensures |w| - 1 !in Crowded(w) ==> e in CapAddrs(CapObserved(w))
    ensures forall x :: x in CapAddrs(CapObserved(w)) ==> x in CapObserved(w)
    ensures |w| <= 1024 ==> CapAddrs(CapObserved(w)) == CapObserved(w)
  {
    hide Crowded;
    var c := CapObserved(w);
    if |w| - 1 !in Crowded(w) {
      LastStays(w, Crowded(w), 0);
      assert c[|c| - 1] == e;
    }
  }

  lemma {:induction false} LastStays(w: seq<Entry>, gone: set<nat>, i: nat)
    requires i < |w| && |w| - 1 !in gone
    ensures var r := Without(w, gone, i); r != [] && r[|r| - 1] == w[|w| - 1]
    decreases |w| - i
  {
    if i < |w| - 1 {
      LastStays(w, gone, i + 1);
    } else {
      assert Without(w, gone, |w|) == [];
    }
  }

  /** The announced entries after an announcement are of now, one for each address. */
  lemma AnnouncedEntries(v: seq<Entry>, addrs: seq<bytes>, now: u64, e: Entry)
    requires e in AnnounceSlot(v, addrs, now) && e.source == Announced
    ensures e == Entry(e.addr, Announced, now, now, 0) && e.addr in addrs
  {
    hide Without, AnnounceEach, HasAddr, HasOther, HasAnnounced;
    var others := Without(v, AnnouncedAt(v), 0);
    OthersRemain(v, e.addr);
    AnnounceEachAdds(others, addrs, now);
    CapAddrsFrom(AnnounceEach(others, addrs, now), e);
    var added := FreshAll(News(others, addrs), now);
    assert e in others || e in added;
    var k :| 0 <= k < |added| && added[k] == e;
    NewsMeans(others, addrs, e.addr);
  }

  /** A failed dial counts once against every address of the slot, up to the largest
      count there is, and then the slot is pruned. */
  lemma FailureCounts(v: seq<Entry>, i: nat)
    requires i < |v|
    ensures |FailEach(v)| == |v|
    ensures var e := FailEach(v)[i];
      && e == v[i].(fails := e.fails)
      && (v[i].fails < 0xffff_ffff ==> e.fails == v[i].fails + 1)
      && (v[i].fails == 0xffff_ffff ==> e.fails == 0xffff_ffff)
  {
  }

  // ---- Pruning ----------------------------------------------------------------------------------

  /** An observation never confirmed by a dial and learned more than ten minutes ago, or an
      address that was not announced and has failed three times. */
  predicate Gone(e: Entry, now: u64) {
    || (e.source == ObservedInbound && e.lastSuccess == 0 && now > e.learnedAt + 600_000)
    || (e.source != Announced && e.fails >= 3)
  }

  lemma GoneIs(e: Entry, now: u64)
    ensures Gone(e, now) <==> Expired(e, now) || Worn(e)
    ensures e.(fails := 0).addr == e.addr && (Gone(e.(fails := 0), now) <==> Expired(e, now))
  {
  }

  lemma StayIs(v: seq<Entry>, now: u64)
    ensures forall e :: e in Stay(v, now) <==> e in v && !Gone(e, now)
  {
    hide Stay, Gone, Expired, Worn;
    forall e
      ensures e in Stay(v, now) <==> e in v && !Gone(e, now)
    {
      StayHas(v, now, e);
      GoneIs(e, now);
    }
  }

  /** What pruning leaves while some address is not gone: those that are not, without the
      observations that four newer ones crowd out. */
  lemma PrunedExactly(v: seq<Entry>, now: u64, e: Entry)
    requires GoodSlot(v) && (exists x :: x in v && !Gone(x, now))
    ensures
      var k := Stay(v, now);
      && (forall x :: x in k <==> x in v && !Gone(x, now))
      && (e in Prune(v, now) <==> exists n ::
            0 <= n < |k| && k[n] == e &&
            (e.source == ObservedInbound ==> |LaterInSlot(k, n)| < 4))
  {
    StayIs(v, now);
    hide Gone, Stay, Without, Newer, KeepLast;
    KeepsStay(v, now);
    PruneNeedsNoCut(v, now);
    var k := Stay(v, now);
    WithoutHas(k, Crowded(k), 0, e);
    forall n: nat | n < |k|
      ensures n in Crowded(k) <==> k[n].source == ObservedInbound && |LaterInSlot(k, n)| >= 4
    {
      NewerIs(k, n);
    }
  }

  /** The observations learned later, or at the same time and further back. */
  function LaterInSlot(k: seq<Entry>, n: nat): set<nat>
    requires n < |k|
  {
    set j | 0 <= j < |k| && k[j].source == ObservedInbound &&
            (k[j].learnedAt > k[n].learnedAt || (k[j].learnedAt == k[n].learnedAt && j > n))
  }

  lemma NewerIs(k: seq<Entry>, n: nat)
    requires n < |k|
    ensures Newer(k, n) == LaterInSlot(k, n)
  {
  }

  lemma KeepsStay(v: seq<Entry>, now: u64)
    requires Stay(v, now) != []
    ensures KeepLast(v, now) == Stay(v, now)
  {
  }

  /** When every address is gone, but one at least not by age, the one dialled last, and
      of those the one learned last, gets another life. */
  lemma LastIsRevived(v: seq<Entry>, now: u64)
    requires GoodSlot(v) && (forall e :: e in v ==> Gone(e, now)) && exists e :: e in v && !Gone(e.(fails := 0), now)
    ensures exists best :: best in v && !Gone(best.(fails := 0), now) && Prune(v, now) == [best.(fails := 0)]
              && forall e :: e in v && !Gone(e.(fails := 0), now) ==>
                   e.lastSuccess < best.lastSuccess || (e.lastSuccess == best.lastSuccess && e.learnedAt <= best.learnedAt)
  {
    StayIs(v, now);
    forall e
      ensures e in Alive(v, now) <==> e in v && !Gone(e.(fails := 0), now)
    {
      AliveHas(v, now, e);
      GoneIs(e, now);
    }
    hide Gone, Alive, Stay, Best, NoLaterThan;
    var e :| e in v && !Gone(e.(fails := 0), now);
    assert e in Alive(v, now);
    NothingIn(Stay(v, now));
    var best := Best(Alive(v, now));
    forall x | x in v && !Gone(x.(fails := 0), now)
      ensures x.lastSuccess < best.lastSuccess || (x.lastSuccess == best.lastSuccess && x.learnedAt <= best.learnedAt)
    {
      BestIsGreatest(Alive(v, now), x);
      NoLaterIs(x, best);
    }
    OneIsKept(v, now, best.(fails := 0));
  }

  lemma NothingIn(v: seq<Entry>)
    ensures (forall e :: e !in v) <==> v == []
  {
    assert v != [] ==> v[0] in v;
  }

  lemma NoLaterIs(a: Entry, b: Entry)
    ensures NoLaterThan(a, b) <==> a.lastSuccess < b.lastSuccess || (a.lastSuccess == b.lastSuccess && a.learnedAt <= b.learnedAt)
  {
  }

  lemma OneIsKept(v: seq<Entry>, now: u64, e: Entry)
    requires KeepLast(v, now) == [e]
    ensures Prune(v, now) == [e]
  {
    hide KeepLast, Crowded;
    CountAll([e]);
    CapObservedCount([e]);
  }

  // ---- The dial order -------------------------------------------------------------------------------

  /** Announced before manual before dialled before observed; of one kind, the one dialled
      later first, and then the one learned later. */
  predicate DialledFirst(a: Entry, b: Entry) {
    || (a.source == Announced && b.source != Announced)
    || (a.source == Source.Manual && (b.source == DialOk || b.source == ObservedInbound))
    || (a.source == DialOk && b.source == ObservedInbound)
    || (a.source == b.source && a.lastSuccess > b.lastSuccess)
    || (a.source == b.source && a.lastSuccess == b.lastSuccess && a.learnedAt >= b.learnedAt)
  }

  /** Of any two addresses in the dial order the earlier one is dialled first by right. */
  lemma DialOrderMeans(v: seq<Entry>, i: nat, j: nat)
    requires i < j < |Sorted(v)|
    ensures DialledFirst(Sorted(v)[i], Sorted(v)[j])
  {
    hide Sorted;
    SortedMeans(v, Sorted(v)[i]);
    assert !Before(Sorted(v)[j], Sorted(v)[i]);
  }

  // ---- The store -------------------------------------------------------------------------------------

  /** An operation on one endpoint leaves the slots of the others alone, but for the
      oldest one that goes when a full store takes a new endpoint; a lookup or a failure
      of an endpoint that is not there changes nothing. */
  lemma OthersUntouched(s: Store, op: Op, k: Key)
    requires Good(s) && k != op.id
    ensures k in Apply(s, op).slots ==> k in s.slots && Apply(s, op).slots[k] == s.slots[k]
    ensures
      k in s.slots && (op.id in s.slots || !Records(op) || |s.order| < 65_536 || k != s.order[0]) ==>
        k in Apply(s, op).slots
    ensures op.id !in s.slots && (op.DialFailure? || op.Order?) ==> Apply(s, op) == s
    ensures op.id !in s.slots && !(op.DialFailure? || op.Order?) ==> op.id in Apply(s, op).slots
  {
    EnsureSlotMeans(s, op.id);
    GoodFits(s);
    hide Good, SlotAfter, EnsureSlot;
  }

  /** The first sight of an endpoint: one observed address, and that is what is dialled. */
  lemma FirstSight(s: Store, id: Key, addr: bytes, now: u64)
    requires Good(s) && id !in s.slots
    ensures
      var t := Apply(s, Observe(id, addr, now));
      && id in t.slots && t.slots[id] == [Entry(addr, ObservedInbound, 0, now, 0)]
      && Addrs(Sorted(Apply(t, Op.Order(id, now)).slots[id])) == [addr]
  {
    EnsureSlotMeans(s, id);
    GoodKept(s, Observe(id, addr, now));
    var e := Entry(addr, ObservedInbound, 0, now, 0);
    hide Good, EnsureSlot, SlotAfter, Prune;
    AloneInSlot(addr, now);
    var t := Apply(s, Observe(id, addr, now));
    assert t.slots[id] == [e];
    StaysAlone(e, now);
    SlotAfterOrder([e], id, now);
    assert [e][..0] == [];
  }

  lemma AloneInSlot(addr: bytes, now: u64)
    ensures forall id :: SlotAfter([], Observe(id, addr, now)) == [Entry(addr, ObservedInbound, 0, now, 0)]
  {
    var e := Fresh(addr, ObservedInbound, 0, now);
    assert [] + [e] == [e];
    CountAll([e]);
    CapObservedCount([e]);
  }

  lemma SlotAfterOrder(v: seq<Entry>, id: Key, now: u64)
    ensures SlotAfter(v, Op.Order(id, now)) == Prune(v, now)
  {
  }

  lemma StaysAlone(e: Entry, now: u64)
    requires e == Entry(e.addr, ObservedInbound, 0, now, 0)
    ensures Prune([e], now) == [e]
  {
    StayAll([e], now);
    OneIsKept([e], now, e);
  }

  // ---- The file --------------------------------------------------------------------------------------------

  /** What an entry of the file is loaded as: the three trusted tags by name, any other tag
      and the plain strings of the first format as observations. */
  lemma LoadedAs(q: AddrFile.Persisted, addr: bytes, now: u64)
    ensures AddrFile.EntryOf(AddrFile.V1(addr), now) == Entry(addr, ObservedInbound, 0, now, 0)
    ensures
      var e := AddrFile.EntryOf(AddrFile.V2(q), now);
      && e == Entry(q.addr, e.source, q.lastOk, q.learnedAt, 0)
      && (e.source == Announced <==> q.src == Ascii("announced"))
      && (e.source == Source.Manual <==> q.src == Ascii("manual"))
      && (e.source == DialOk <==> q.src == Ascii("dial-ok"))
  {
    assert Ascii("announced") == AddrFile.Tag(Announced);
    assert Ascii("manual") == AddrFile.Tag(Source.Manual);
    assert Ascii("dial-ok") == AddrFile.Tag(DialOk);
    assert |Ascii("announced")| == 9 && |Ascii("manual")| == 6 && |Ascii("dial-ok")| == 7;
  }

  /** Of several entries of the file for one address the first is loaded, behind what the
      slot holds, and of those for an address held, none. */
  lemma {:induction false} FirstIsLoaded(v: seq<Entry>, ps: seq<AddrFile.PersistEntry>, now: u64, e: Entry)
    ensures v <= AddrFile.LoadSlot(v, ps, now)
    ensures e in AddrFile.LoadSlot(v, ps, now)
       <==> e in v || exists j :: 0 <= j < |ps| && FirstOfItsAddress(v, ps, now, j) && AddrFile.EntryOf(ps[j], now) == e
    decreases |ps|
  {
    hide AddrFile.EntryOf, FirstOfItsAddress;
    if ps != [] {
      var n := |ps| - 1;
      FirstIsLoaded(v, ps[..n], now, e);
      forall j | 0 <= j < n
        ensures FirstOfItsAddress(v, ps, now, j) == FirstOfItsAddress(v, ps[..n], now, j)
      {
        FirstSame(v, ps, now, n, j);
      }
      LastIsFirst(v, ps, now);
    }
  }

  predicate FirstOfItsAddress(v: seq<Entry>, ps: seq<AddrFile.PersistEntry>, now: u64, j: nat)
    requires j < |ps|
  {
    var a := AddrFile.EntryOf(ps[j], now).addr;
    && (forall i :: 0 <= i < |v| ==> v[i].addr != a)
    && (forall i :: 0 <= i < j ==> AddrFile.EntryOf(ps[i], now).addr != a)
  }

  lemma FirstSame(v: seq<Entry>, ps: seq<AddrFile.PersistEntry>, now: u64, n: nat, j: nat)
    requires j < n <= |ps|
    ensures FirstOfItsAddress(v, ps, now, j) == FirstOfItsAddress(v, ps[..n], now, j)
  {
    hide AddrFile.EntryOf;
    assert forall i :: 0 <= i <= j ==> ps[..n][i] == ps[i];
  }

  /** The last entry is loaded exactly if its address is not there yet. */
  lemma LastIsFirst(v: seq<Entry>, ps: seq<AddrFile.PersistEntry>, now: u64)
    requires ps != []
    ensures
      var n := |ps| - 1;
      HasAddr(AddrFile.LoadSlot(v, ps[..n], now), AddrFile.EntryOf(ps[n], now).addr) <==> !FirstOfItsAddress(v, ps, now, n)
  {
    hide AddrFile.EntryOf, AddrFile.LoadSlot;
    var n := |ps| - 1;
    AddrsLoaded(v, ps[..n], now, AddrFile.EntryOf(ps[n], now).addr);
    assert forall i :: 0 <= i < n ==> ps[..n][i] == ps[i];
  }

  lemma {:induction false} AddrsLoaded(v: seq<Entry>, ps: seq<AddrFile.PersistEntry>, now: u64, a: bytes)
    ensures HasAddr(AddrFile.LoadSlot(v, ps, now), a)
       <==> (exists i :: 0 <= i < |v| && v[i].addr == a) || exists i :: 0 <= i < |ps| && AddrFile.EntryOf(ps[i], now).addr == a
    decreases |ps|
  {
    hide AddrFile.EntryOf;
    if ps != [] {
      var n := |ps| - 1;
      AddrsLoaded(v, ps[..n], now, a);
      assert forall i :: 0 <= i < n ==> ps[..n][i] == ps[i];
      var w := AddrFile.LoadSlot(v, ps[..n], now);
      HasMore(w, AddrFile.EntryOf(ps[n], now), a);
    }
  }

  lemma HasMore(w: seq<Entry>, e: Entry, a: bytes)
    ensures HasAddr(w + [e], a) <==> HasAddr(w, a) || e.addr == a
  {
    if HasAddr(w, a) {
      var i :| 0 <= i < |w| && w[i].addr == a;
      assert (w + [e])[i].addr == a;
    }
    assert (w + [e])[|w|] == e;
  }
}
