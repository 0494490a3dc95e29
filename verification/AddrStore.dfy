/** The bounded store of learned addresses as a value: what each recording operation
    does to it, what every run of them keeps, and what survives a reload. */
module AddrStore {
  import opened Bytes
  import opened AddrSlots

  type Key = Bytes32

  /** `order` is the FIFO of endpoints by first insertion. */
  datatype Store = Store(slots: map<Key, seq<Entry>>, order: seq<Key>)

  datatype Op =
    | Announce(id: Key, addrs: seq<bytes>, now: u64)
    | Manual(id: Key, addr: bytes, now: u64)
    | DialSuccess(id: Key, addr: bytes, now: u64)
    | Observe(id: Key, addr: bytes, now: u64)
    | DialFailure(id: Key, now: u64)
    | Order(id: Key, now: u64)

  const MAX_ENDPOINTS: nat := 65_536

  function Empty(): Store {
    Store(map[], [])
  }

  // ---- Slots --------------------------------------------------------------------------------

  /** Oldest endpoints go while the store is full. */
  function MakeRoom(s: Store): Store
    decreases |s.order|
  {
    if |s.order| < MAX_ENDPOINTS then s
    else MakeRoom(Store(s.slots - {s.order[0]}, s.order[1..]))
  }

  function EnsureSlot(s: Store, id: Key): (r: Store)
    ensures id in r.slots
  {
    if id in s.slots then s
    else var s1 := MakeRoom(s); Store(s1.slots[id := []], s1.order + [id])
  }

  /** The first entry with that address, or the length of the slot. */
  function IndexOf(v: seq<Entry>, addr: bytes): (i: nat)
    ensures i <= |v|
    ensures i < |v| ==> v[i].addr == addr
    ensures i == |v| <==> !HasAddr(v, addr)
  {
    if v == [] then 0
    else if v[0].addr == addr then 0
    else
      var j := IndexOf(v[1..], addr);
      assert HasAddr(v, addr) <==> HasAddr(v[1..], addr) by {
        forall i | 0 <= i < |v[1..]| ensures v[1..][i] == v[i + 1] {}
        if HasAddr(v, addr) {
          var k :| 0 <= k < |v| && v[k].addr == addr;
          assert v[1..][k - 1].addr == addr;
        }
      }
      j + 1
  }

  function AnnouncedAt(v: seq<Entry>): set<nat> {
    set i | 0 <= i < |v| && v[i].source.Announced?
  }

  function Fresh(addr: bytes, source: Source, lastSuccess: u64, now: u64): Entry {
    Entry(addr, source, lastSuccess, now, 0)
  }

  /** An address already in the slot under another source keeps that source. */
  function AnnounceOne(v: seq<Entry>, addr: bytes, now: u64): seq<Entry> {
    var i := IndexOf(v, addr);
    if i == |v| then v + [Fresh(addr, Announced, now, now)]
    else if v[i].source.Announced? then v[i := v[i].(lastSuccess := now, fails := 0)]
    else v
  }

  function AnnounceEach(v: seq<Entry>, addrs: seq<bytes>, now: u64): seq<Entry>
    decreases |addrs|
  {
    if addrs == [] then v
    else AnnounceOne(AnnounceEach(v, addrs[..|addrs| - 1], now), addrs[|addrs| - 1], now)
  }

  function AnnounceSlot(v: seq<Entry>, addrs: seq<bytes>, now: u64): seq<Entry> {
    CapAddrs(AnnounceEach(Without(v, AnnouncedAt(v), 0), addrs, now))
  }

  function ManualSlot(v: seq<Entry>, addr: bytes, now: u64): seq<Entry> {
    var i := IndexOf(v, addr);
    if i < |v| then v[i := v[i].(source := Source.Manual, fails := 0)]
    else CapAddrs(v + [Fresh(addr, Source.Manual, 0, now)])
  }

  function SuccessSlot(v: seq<Entry>, addr: bytes, now: u64): seq<Entry> {
    var i := IndexOf(v, addr);
    if i < |v| then
      var e := v[i].(lastSuccess := now, fails := 0);
      v[i := if e.source.ObservedInbound? then e.(source := DialOk) else e]
    else CapAddrs(v + [Fresh(addr, DialOk, now, now)])
  }

  function ObserveSlot(v: seq<Entry>, addr: bytes, now: u64): seq<Entry> {
    var i := IndexOf(v, addr);
    if i < |v| then
      if v[i].source.ObservedInbound? then v[i := v[i].(learnedAt := now)] else v
    else CapAddrs(CapObserved(v + [Fresh(addr, ObservedInbound, 0, now)]))
  }

  function FailOnce(e: Entry): Entry {
    e.(fails := if e.fails == U32_MAX then U32_MAX else e.fails + 1)
  }

  function FailEach(v: seq<Entry>): (r: seq<Entry>)
    ensures |r| == |v| && forall i :: 0 <= i < |v| ==> r[i] == FailOnce(v[i])
  {
    seq(|v|, i requires 0 <= i < |v| => FailOnce(v[i]))
  }

  function SlotAfter(v: seq<Entry>, op: Op): seq<Entry> {
    match op
    case Announce(_, addrs, now) => AnnounceSlot(v, addrs, now)
    case Manual(_, addr, now) => ManualSlot(v, addr, now)
    case DialSuccess(_, addr, now) => SuccessSlot(v, addr, now)
    case Observe(_, addr, now) => ObserveSlot(v, addr, now)
    case DialFailure(_, now) => Prune(FailEach(v), now)
    case Order(_, now) => Prune(v, now)
  }

  /** A recording makes the slot it needs; a failure and a lookup touch only a slot
      that is there. */
  predicate Records(op: Op) {
    op.Announce? || op.Manual? || op.DialSuccess? || op.Observe?
  }

  function Apply(s: Store, op: Op): Store {
    var s1 := if Records(op) then EnsureSlot(s, op.id) else s;
    if op.id in s1.slots then s1.(slots := s1.slots[op.id := SlotAfter(s1.slots[op.id], op)]) else s1
  }

  function Run(s: Store, ops: seq<Op>): Store
    decreases |ops|
  {
    if ops == [] then s else Apply(Run(s, ops[..|ops| - 1]), ops[|ops| - 1])
  }

  // ---- What every run keeps -------------------------------------------------------------------

  predicate NoRepeats(o: seq<Key>) {
    forall i, j :: 0 <= i < j < |o| ==> o[i] != o[j]
  }

  predicate GoodSlot(v: seq<Entry>) {
    DistinctAddrs(v) && |v| <= MAX_ADDRS
  }

  ghost predicate Good(s: Store) {
    && NoRepeats(s.order)
    && (forall id :: id in s.slots <==> id in s.order)
    && |s.order| <= MAX_ENDPOINTS
    && (forall id :: id in s.slots ==> GoodSlot(s.slots[id]))
  }

  lemma CapAddrsGood(v: seq<Entry>)
    requires DistinctAddrs(v)
    ensures GoodSlot(CapAddrs(v)) && forall e :: e in CapAddrs(v) ==> e in v
  {
  }

  lemma PushDistinct(v: seq<Entry>, e: Entry)
    requires DistinctAddrs(v) && !HasAddr(v, e.addr)
    ensures DistinctAddrs(v + [e])
  {
  }

  lemma {:induction false} AnnounceEachDistinct(v: seq<Entry>, addrs: seq<bytes>, now: u64)
    requires DistinctAddrs(v)
    ensures DistinctAddrs(AnnounceEach(v, addrs, now))
    decreases |addrs|
  {
    hide HasAddr;
    if addrs != [] {
      var front := AnnounceEach(v, addrs[..|addrs| - 1], now);
      var a := addrs[|addrs| - 1];
      AnnounceEachDistinct(v, addrs[..|addrs| - 1], now);
      if IndexOf(front, a) == |front| {
        PushDistinct(front, Fresh(a, Announced, now, now));
      }
    }
  }

  lemma SlotKeptGood(v: seq<Entry>, op: Op)
    requires GoodSlot(v)
    ensures GoodSlot(SlotAfter(v, op))
  {
    hide HasAddr, Without, Prune, Crowded;
    match op {
      case Announce(_, addrs, now) =>
        var w := Without(v, AnnouncedAt(v), 0);
        WithoutDistinct(v, AnnouncedAt(v), 0);
        AnnounceEachDistinct(w, addrs, now);
        CapAddrsGood(AnnounceEach(w, addrs, now));
      case Manual(_, addr, now) =>
        PushGood(v, Fresh(addr, Source.Manual, 0, now));
      case DialSuccess(_, addr, now) =>
        PushGood(v, Fresh(addr, DialOk, now, now));
      case Observe(_, addr, now) =>
        ObserveKeptGood(v, addr, now);
      case DialFailure(_, now) =>
        PruneDistinct(FailEach(v), now);
        PrunedFits(FailEach(v), now);
      case Order(_, now) =>
        PruneDistinct(v, now);
        PrunedFits(v, now);
    }
  }

  lemma PushGood(v: seq<Entry>, e: Entry)
    requires GoodSlot(v)
    ensures !HasAddr(v, e.addr) ==> DistinctAddrs(v + [e]) && GoodSlot(CapAddrs(v + [e]))
  {
    if !HasAddr(v, e.addr) {
      PushDistinct(v, e);
      CapAddrsGood(v + [e]);
    }
  }

  lemma ObserveKeptGood(v: seq<Entry>, addr: bytes, now: u64)
    requires GoodSlot(v)
    ensures GoodSlot(ObserveSlot(v, addr, now))
  {
    hide HasAddr, Without, Crowded, CapAddrs;
    var e := Fresh(addr, ObservedInbound, 0, now);
    PushGood(v, e);
    if IndexOf(v, addr) == |v| {
      WithoutDistinct(v + [e], Crowded(v + [e]), 0);
      CapAddrsGood(CapObserved(v + [e]));
    }
  }

  lemma RoomMeans(s: Store)
    requires Good(s)
    ensures |s.order| < MAX_ENDPOINTS ==> MakeRoom(s) == s
    ensures |s.order| == MAX_ENDPOINTS ==> MakeRoom(s) == Store(s.slots - {s.order[0]}, s.order[1..])
  {
    hide Good, GoodSlot, NoRepeats;
    assert |s.order| <= MAX_ENDPOINTS by { GoodFits(s); }
  }

  lemma GoodFits(s: Store)
    requires Good(s)
    ensures |s.order| <= MAX_ENDPOINTS
  {
  }

  lemma OldestGoes(s: Store)
    requires Good(s) && s.order != []
    ensures Good(Store(s.slots - {s.order[0]}, s.order[1..]))
  {
    hide GoodSlot;
    assert forall k :: k in s.order <==> k == s.order[0] || k in s.order[1..];
  }

  lemma NewestComes(s: Store, id: Key)
    requires Good(s) && id !in s.slots && |s.order| < MAX_ENDPOINTS
    ensures Good(Store(s.slots[id := []], s.order + [id]))
  {
    assert GoodSlot([]);
    hide GoodSlot;
  }

  /** A full store gives up its oldest endpoint, and only that, for a new one. */
  lemma EnsureSlotMeans(s: Store, id: Key)
    requires Good(s)
    ensures var r := EnsureSlot(s, id);
      && Good(r)
      && (id in s.slots ==> r == s)
      && (id !in s.slots ==> r.slots[id] == [])
      && (id !in s.slots && |s.order| < MAX_ENDPOINTS ==> r == Store(s.slots[id := []], s.order + [id]))
      && (id !in s.slots && |s.order| == MAX_ENDPOINTS ==>
            r == Store((s.slots - {s.order[0]})[id := []], s.order[1..] + [id]))
      && (forall k :: k in r.slots && k != id ==> k in s.slots && r.slots[k] == s.slots[k])
  {
    hide Good, GoodSlot, NoRepeats, MakeRoom;
    GoodFits(s);
    RoomMeans(s);
    if id !in s.slots {
      if |s.order| == MAX_ENDPOINTS {
        OldestGoes(s);
      }
      NewestComes(MakeRoom(s), id);
    }
  }

  lemma GoodKept(s: Store, op: Op)
    requires Good(s)
    ensures Good(Apply(s, op))
  {
    hide GoodSlot, SlotAfter, EnsureSlot, NoRepeats;
    if Records(op) {
      EnsureSlotMeans(s, op.id);
    }
    var s1 := if Records(op) then EnsureSlot(s, op.id) else s;
    if op.id in s1.slots {
      SlotKeptGood(s1.slots[op.id], op);
    }
  }

  /** In every run the FIFO is duplicate-free and holds exactly the endpoints of the map,
      at most 65536 of them, and every slot has at most 1024 entries, all with different
      addresses. */
  lemma {:induction false} RunKeepsGood(s: Store, ops: seq<Op>)
    requires Good(s)
    ensures Good(Run(s, ops))
    decreases |ops|
  {
    hide Good, Apply;
    if ops != [] {
      RunKeepsGood(s, ops[..|ops| - 1]);
      GoodKept(Run(s, ops[..|ops| - 1]), ops[|ops| - 1]);
    }
  }

  // ---- Where persistable addresses come from -----------------------------------------------------

  /** The operation vouches for that address of that endpoint. */
  predicate Names(op: Op, id: Key, addr: bytes) {
    match op
    case Announce(k, addrs, _) => k == id && addr in addrs
    case Manual(k, a, _) => k == id && a == addr
    case DialSuccess(k, a, _) => k == id && a == addr
    case _ => false
  }

  predicate HasTrusted(v: seq<Entry>, addr: bytes) {
    exists i :: 0 <= i < |v| && v[i].addr == addr && Persistable(v[i])
  }

  /** Every persistable entry was one before, or is vouched for. */
  ghost predicate Backed(v: seq<Entry>, op: Op, w: seq<Entry>) {
    forall e :: e in w && Persistable(e) ==> HasTrusted(v, e.addr) || Names(op, op.id, e.addr)
  }

  lemma {:induction false} AnnounceEachBacked(v: seq<Entry>, addrs: seq<bytes>, now: u64, e: Entry)
    requires e in AnnounceEach(v, addrs, now) && Persistable(e)
    ensures HasTrusted(v, e.addr) || e.addr in addrs
    decreases |addrs|
  {
    hide HasAddr;
    if addrs != [] {
      var front := AnnounceEach(v, addrs[..|addrs| - 1], now);
      if e in front {
        AnnounceEachBacked(v, addrs[..|addrs| - 1], now, e);
      } else {
        assert e.addr == addrs[|addrs| - 1];
      }
    }
  }

  lemma SlotBacked(v: seq<Entry>, op: Op)
    ensures Backed(v, op, SlotAfter(v, op))
  {
    hide HasAddr, Without, Prune, Crowded, CapAddrs, AnnounceEach;
    var w := SlotAfter(v, op);
    forall e | e in w && Persistable(e)
      ensures HasTrusted(v, e.addr) || Names(op, op.id, e.addr)
    {
      match op {
        case Announce(_, addrs, now) =>
          var u := Without(v, AnnouncedAt(v), 0);
          CapAddrsFrom(AnnounceEach(u, addrs, now), e);
          AnnounceEachBacked(u, addrs, now, e);
          if HasTrusted(u, e.addr) {
            TrustedFrom(v, AnnouncedAt(v), e.addr);
          }
        case Manual(_, addr, now) =>
          PushedFrom(v, Fresh(addr, Source.Manual, 0, now), e);
          assert e in v || e.addr == addr;
        case DialSuccess(_, addr, now) =>
          PushedFrom(v, Fresh(addr, DialOk, now, now), e);
          assert e in v || e.addr == addr;
        case Observe(_, addr, now) =>
          ObservedFrom(v, addr, now, e);
        case DialFailure(_, now) =>
          PruneFrom(FailEach(v), now, e);
        case Order(_, now) =>
          PruneFrom(v, now, e);
      }
    }
  }

  lemma CapAddrsFrom(v: seq<Entry>, e: Entry)
    requires e in CapAddrs(v)
    ensures e in v
  {
  }

  lemma PushedFrom(v: seq<Entry>, x: Entry, e: Entry)
    ensures e in CapAddrs(v + [x]) ==> e in v || e == x
  {
  }

  lemma ObservedFrom(v: seq<Entry>, addr: bytes, now: u64, e: Entry)
    requires e in ObserveSlot(v, addr, now) && Persistable(e)
    ensures e in v
  {
    hide HasAddr, Without, Crowded, CapAddrs;
    var x := Fresh(addr, ObservedInbound, 0, now);
    if IndexOf(v, addr) == |v| {
      CapAddrsFrom(CapObserved(v + [x]), e);
      WithoutHas(v + [x], Crowded(v + [x]), 0, e);
    }
  }

  lemma TrustedFrom(v: seq<Entry>, gone: set<nat>, addr: bytes)
    requires HasTrusted(Without(v, gone, 0), addr)
    ensures HasTrusted(v, addr)
  {
    hide Without;
    var u := Without(v, gone, 0);
    var i :| 0 <= i < |u| && u[i].addr == addr && Persistable(u[i]);
    WithoutHas(v, gone, 0, u[i]);
  }

  ghost predicate Trusted(s: Store, id: Key, addr: bytes) {
    id in s.slots && HasTrusted(s.slots[id], addr)
  }

  lemma TrustStep(s: Store, op: Op, id: Key, addr: bytes)
    requires Good(s) && Trusted(Apply(s, op), id, addr)
    ensures Trusted(s, id, addr) || Names(op, id, addr)
  {
    hide Good, SlotAfter, EnsureSlot, Names;
    if Records(op) {
      EnsureSlotMeans(s, op.id);
    }
    var s1 := if Records(op) then EnsureSlot(s, op.id) else s;
    if op.id in s1.slots && id == op.id {
      SlotBacked(s1.slots[id], op);
    }
  }

  /** In every run, an address is persistable for an endpoint only if it was so at the
      start or some announcement, manual entry or dial success named it for that
      endpoint. */
  lemma {:induction false} OnlyNamedIsTrusted(s: Store, ops: seq<Op>, id: Key, addr: bytes)
    requires Good(s) && Trusted(Run(s, ops), id, addr)
    ensures Trusted(s, id, addr) || exists i :: 0 <= i < |ops| && Names(ops[i], id, addr)
    decreases |ops|
  {
    hide Good, Apply, Trusted, Names;
    if ops != [] {
      var front := ops[..|ops| - 1];
      RunKeepsGood(s, front);
      TrustStep(Run(s, front), ops[|ops| - 1], id, addr);
      if Trusted(Run(s, front), id, addr) {
        OnlyNamedIsTrusted(s, front, id, addr);
        if exists i :: 0 <= i < |front| && Names(front[i], id, addr) {
          var i :| 0 <= i < |front| && Names(front[i], id, addr);
          assert Names(ops[i], id, addr);
        }
      }
    }
  }

  // ---- What an announcement establishes ------------------------------------------------------------

  predicate HasAnnounced(v: seq<Entry>, addr: bytes) {
    exists i :: 0 <= i < |v| && v[i].addr == addr && v[i].source.Announced?
  }

  predicate HasOther(v: seq<Entry>, addr: bytes) {
    exists i :: 0 <= i < |v| && v[i].addr == addr && !v[i].source.Announced?
  }

  /** The addresses of an announcement that the slot does not hold, each once, in the order
      of the announcement. */
  function News(v: seq<Entry>, addrs: seq<bytes>): seq<bytes>
    decreases |addrs|
  {
    if addrs == [] then []
    else
      var before := News(v, addrs[..|addrs| - 1]);
      var a := addrs[|addrs| - 1];
      if HasAddr(v, a) || a in before then before else before + [a]
  }

  function FreshAll(addrs: seq<bytes>, now: u64): (r: seq<Entry>)
    ensures |r| == |addrs| && forall i :: 0 <= i < |r| ==> r[i] == Fresh(addrs[i], Announced, now, now)
  {
    seq(|addrs|, i requires 0 <= i < |addrs| => Fresh(addrs[i], Announced, now, now))
  }

  function Last<T>(s: seq<T>, n: nat): seq<T> {
    if |s| <= n then s else s[|s| - n..]
  }

  lemma {:induction false} NewsMeans(v: seq<Entry>, addrs: seq<bytes>, a: bytes)
    ensures a in News(v, addrs) <==> a in addrs && !HasAddr(v, a)
    decreases |addrs|
  {
    hide HasAddr;
    if addrs != [] {
      NewsMeans(v, addrs[..|addrs| - 1], a);
      assert addrs == addrs[..|addrs| - 1] + [addrs[|addrs| - 1]];
    }
  }

  /** One more address on a slot of others and fresh announcements. */
  lemma AnnounceOneMore(v: seq<Entry>, news: seq<bytes>, a: bytes, now: u64)
    requires forall e :: e in v ==> !e.source.Announced?
    ensures AnnounceOne(v + FreshAll(news, now), a, now)
         == v + FreshAll(if HasAddr(v, a) || a in news then news else news + [a], now)
  {
    var u := v + FreshAll(news, now);
    var i := IndexOf(u, a);
    if HasAddr(v, a) {
      var k :| 0 <= k < |v| && v[k].addr == a;
      assert u[k].addr == a;
    }
    if i < |u| {
      if i < |v| {
        assert u[i] == v[i] && v[i] in v;
      } else {
        assert u[i] == Fresh(news[i - |v|], Announced, now, now);
        assert news[i - |v|] in news;
        assert u[i := u[i].(lastSuccess := now, fails := 0)] == u;
        IndexIsFirst(u, a, i);
      }
    } else {
      InNews(v, news, a, now);
      assert FreshAll(news + [a], now) == FreshAll(news, now) + [Fresh(a, Announced, now, now)];
    }
  }

  lemma {:induction false} IndexIsFirst(u: seq<Entry>, a: bytes, i: nat)
    requires i == IndexOf(u, a)
    ensures forall k :: 0 <= k < i ==> u[k].addr != a
    decreases |u|
  {
    hide HasAddr;
    if u != [] && u[0].addr != a {
      IndexIsFirst(u[1..], a, i - 1);
      forall k | 0 <= k < i ensures u[k].addr != a {
        assert k > 0 ==> u[k] == u[1..][k - 1];
      }
    }
  }

  lemma InNews(v: seq<Entry>, news: seq<bytes>, a: bytes, now: u64)
    ensures HasAddr(v + FreshAll(news, now), a) <==> HasAddr(v, a) || a in news
  {
    var u := v + FreshAll(news, now);
    if a in news {
      var k :| 0 <= k < |news| && news[k] == a;
      assert u[|v| + k].addr == a;
    } else if HasAddr(v, a) {
      var k :| 0 <= k < |v| && v[k].addr == a;
      assert u[k].addr == a;
    }
  }

  /** An announcement on a slot without announced entries adds its news behind them. */
  lemma {:induction false} AnnounceEachAdds(v: seq<Entry>, addrs: seq<bytes>, now: u64)
    requires forall e :: e in v ==> !e.source.Announced?
    ensures AnnounceEach(v, addrs, now) == v + FreshAll(News(v, addrs), now)
    decreases |addrs|
  {
    hide HasAddr, AnnounceOne;
    if addrs == [] {
      assert v + FreshAll([], now) == v;
    } else {
      AnnounceEachAdds(v, addrs[..|addrs| - 1], now);
      AnnounceOneMore(v, News(v, addrs[..|addrs| - 1]), addrs[|addrs| - 1], now);
    }
  }

  lemma OthersRemain(v: seq<Entry>, a: bytes)
    ensures var others := Without(v, AnnouncedAt(v), 0);
      && (forall e :: e in others ==> !e.source.Announced?)
      && (HasAddr(others, a) <==> HasOther(v, a))
  {
    hide Without;
    var others := Without(v, AnnouncedAt(v), 0);
    forall e | e in others ensures !e.source.Announced? {
      WithoutHas(v, AnnouncedAt(v), 0, e);
    }
    if HasAddr(others, a) {
      var k :| 0 <= k < |others| && others[k].addr == a;
      WithoutHas(v, AnnouncedAt(v), 0, others[k]);
    }
    if HasOther(v, a) {
      var k :| 0 <= k < |v| && v[k].addr == a && !v[k].source.Announced?;
      WithoutHas(v, AnnouncedAt(v), 0, v[k]);
    }
  }

  lemma CapSplits(others: seq<Entry>, added: seq<Entry>)
    ensures CapAddrs(others + added)
         == Last(others, SatSub(MAX_ADDRS, |added|)) + Last(added, MAX_ADDRS)
  {
  }

  lemma SplitSources(others: seq<Entry>, news: seq<bytes>, now: u64, a: bytes)
    requires forall e :: e in others ==> !e.source.Announced?
    ensures HasAnnounced(others + FreshAll(news, now), a) <==> a in news
    ensures HasOther(others + FreshAll(news, now), a) <==> HasAddr(others, a)
  {
    var u := others + FreshAll(news, now);
    assert forall k :: 0 <= k < |others| ==> u[k] == others[k] && others[k] in others;
    if a in news {
      var k :| 0 <= k < |news| && news[k] == a;
      assert u[|others| + k].addr == a && u[|others| + k].source.Announced?;
    }
    if HasAnnounced(u, a) {
      var k :| 0 <= k < |u| && u[k].addr == a && u[k].source.Announced?;
      assert k >= |others|;
      assert news[k - |others|] == a;
    }
    if HasOther(u, a) {
      var k :| 0 <= k < |u| && u[k].addr == a && !u[k].source.Announced?;
      assert others[k].addr == a;
    }
    if HasAddr(others, a) {
      var k :| 0 <= k < |others| && others[k].addr == a;
      assert u[k].addr == a && others[k] in others;
    }
  }

  /** Exactly which addresses an announcement leaves in the slot, with the slot at any
      size: announced are the last 1024 of its addresses that were not there under another
      source, and of the others the last that find room beside them. An address first
      seen on an incoming connection so stays an observation. */
  lemma AnnouncedExactly(v: seq<Entry>, addrs: seq<bytes>, now: u64, a: bytes)
    ensures
      var others := Without(v, AnnouncedAt(v), 0);
      var news := News(others, addrs);
      var r := AnnounceSlot(v, addrs, now);
      && (HasAnnounced(r, a) <==> a in Last(news, MAX_ADDRS))
      && (HasOther(r, a) <==> HasAddr(Last(others, SatSub(MAX_ADDRS, |news|)), a))
      && (a in news <==> a in addrs && !HasOther(v, a))
  {
    hide Without, AnnounceEach, News, HasAddr, HasOther, HasAnnounced, CapAddrs;
    var others := Without(v, AnnouncedAt(v), 0);
    var news := News(others, addrs);
    OthersRemain(v, a);
    NewsMeans(others, addrs, a);
    AnnounceEachAdds(others, addrs, now);
    CapSplits(others, FreshAll(news, now));
    var kept := Last(others, SatSub(MAX_ADDRS, |news|));
    assert Last(FreshAll(news, now), MAX_ADDRS) == FreshAll(Last(news, MAX_ADDRS), now);
    assert forall e :: e in kept ==> e in others;
    SplitSources(kept, Last(news, MAX_ADDRS), now, a);
  }

  // ---- What a manual entry and a dial success establish ------------------------------------------------

  predicate HasSource(v: seq<Entry>, addr: bytes, source: Source) {
    exists i :: 0 <= i < |v| && v[i].addr == addr && v[i].source == source && v[i].fails == 0
  }

  lemma PushedIsKept(v: seq<Entry>, e: Entry)
    ensures var r := CapAddrs(v + [e]); r != [] && r[|r| - 1] == e
  {
  }

  /** After a manual entry the address is in the slot as manual, whatever it was, and after
      a dial success it is there with a trusted source, announced if it was announced;
      failures are forgiven. */
  lemma RecordedIsThere(v: seq<Entry>, addr: bytes, now: u64)
    ensures HasSource(ManualSlot(v, addr, now), addr, Source.Manual)
    ensures HasTrusted(SuccessSlot(v, addr, now), addr)
    ensures IndexOf(v, addr) < |v| && v[IndexOf(v, addr)].source.Announced? ==> HasSource(SuccessSlot(v, addr, now), addr, Announced)
  {
    hide CapAddrs, HasAddr;
    var i := IndexOf(v, addr);
    var m, d := ManualSlot(v, addr, now), SuccessSlot(v, addr, now);
    if i < |v| {
      assert m[i].addr == addr && m[i].source == Source.Manual && m[i].fails == 0;
      assert d[i].addr == addr && Persistable(d[i]) && d[i].fails == 0;
    } else {
      PushedIsKept(v, Fresh(addr, Source.Manual, 0, now));
      PushedIsKept(v, Fresh(addr, DialOk, now, now));
      assert m[|m| - 1].addr == addr && d[|d| - 1].addr == addr;
    }
  }

  /** At the store: a manual entry or a dial success makes its address persistable for its
      endpoint, in every state. With `OnlyNamedIsTrusted` this says where persistable
      addresses come from, both ways. */
  lemma NamedIsTrusted(s: Store, op: Op)
    requires op.Manual? || op.DialSuccess?
    ensures Trusted(Apply(s, op), op.id, op.addr)
    ensures op.Manual? ==> HasSource(Apply(s, op).slots[op.id], op.addr, Source.Manual)
  {
    hide EnsureSlot, ManualSlot, SuccessSlot, HasTrusted, HasSource;
    var v := EnsureSlot(s, op.id).slots[op.id];
    RecordedIsThere(v, op.addr, op.now);
    if op.Manual? {
      ManualIsTrusted(ManualSlot(v, op.addr, op.now), op.addr);
    }
  }

  lemma ManualIsTrusted(v: seq<Entry>, addr: bytes)
    requires HasSource(v, addr, Source.Manual)
    ensures HasTrusted(v, addr)
  {
  }
}
