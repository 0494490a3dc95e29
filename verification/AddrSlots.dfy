/** One endpoint's learned addresses: pruning, the two caps and the dial order, on the
    entry list of a single slot. */
module AddrSlots {
  import opened Bytes

  datatype Source = Announced | Manual | DialOk | ObservedInbound

  datatype Entry = Entry(addr: bytes, source: Source, lastSuccess: u64, learnedAt: u64, fails: u32)

  const MAX_ADDRS: nat := 1024
  const FAIL_EVICT_THRESHOLD: nat := 3
  const OBSERVED_TTL_MS: nat := 10 * 60 * 1000
  const OBSERVED_CAP: nat := 4
  const U32_MAX: u32 := 0xffff_ffff

  predicate Persistable(e: Entry) {
    !e.source.ObservedInbound?
  }

  /** An observation never verified and older than its time to live. */
  predicate Expired(e: Entry, now: u64) {
    e.source.ObservedInbound? && e.lastSuccess == 0 && SatSub(now, e.learnedAt) > OBSERVED_TTL_MS
  }

  /** Too many failed dials. What was announced never wears out. */
  predicate Worn(e: Entry) {
    !e.source.Announced? && e.fails >= FAIL_EVICT_THRESHOLD
  }

  predicate DistinctAddrs(v: seq<Entry>) {
    forall i, j :: 0 <= i < j < |v| ==> v[i].addr != v[j].addr
  }

  predicate HasAddr(v: seq<Entry>, addr: bytes) {
    exists i :: 0 <= i < |v| && v[i].addr == addr
  }

  // ---- Removing positions ---------------------------------------------------------------------

  /** The entries from position `i` on that do not stand at a position in `gone`. */
  function Without(v: seq<Entry>, gone: set<nat>, i: nat): (r: seq<Entry>)
    requires i <= |v|
    ensures |r| <= |v| - i
    decreases |v| - i
  {
    if i == |v| then []
    else if i in gone then Without(v, gone, i + 1)
    else [v[i]] + Without(v, gone, i + 1)
  }

  lemma {:induction false} WithoutHas(v: seq<Entry>, gone: set<nat>, i: nat, e: Entry)
    requires i <= |v|
    ensures e in Without(v, gone, i) <==> exists k: nat :: i <= k < |v| && k !in gone && v[k] == e
    decreases |v| - i
  {
    if i < |v| {
      WithoutHas(v, gone, i + 1, e);
    }
  }

  lemma {:induction false} WithoutNothing(v: seq<Entry>, gone: set<nat>, i: nat)
    requires i <= |v| && forall k :: i <= k < |v| ==> k !in gone
    ensures Without(v, gone, i) == v[i..]
    decreases |v| - i
  {
    if i < |v| {
      WithoutNothing(v, gone, i + 1);
    }
  }

  lemma WithoutHasAddr(v: seq<Entry>, gone: set<nat>, i: nat, addr: bytes)
    requires i <= |v| && HasAddr(Without(v, gone, i), addr)
    ensures exists k: nat :: i <= k < |v| && k !in gone && v[k].addr == addr
  {
    var r := Without(v, gone, i);
    var n :| 0 <= n < |r| && r[n].addr == addr;
    WithoutHas(v, gone, i, r[n]);
  }

  lemma {:induction false} WithoutDistinct(v: seq<Entry>, gone: set<nat>, i: nat)
    requires i <= |v| && DistinctAddrs(v)
    ensures DistinctAddrs(Without(v, gone, i))
    decreases |v| - i
  {
    if i < |v| {
      WithoutDistinct(v, gone, i + 1);
      if HasAddr(Without(v, gone, i + 1), v[i].addr) {
        WithoutHasAddr(v, gone, i + 1, v[i].addr);
      }
    }
  }

  function ObservedAt(v: seq<Entry>): set<nat> {
    set i | 0 <= i < |v| && v[i].source.ObservedInbound?
  }

  function ObservedCount(v: seq<Entry>): nat {
    if v == [] then 0 else (if v[0].source.ObservedInbound? then 1 else 0) + ObservedCount(v[1..])
  }

  lemma {:induction false} CountObserved(v: seq<Entry>, gone: set<nat>, i: nat)
    requires i <= |v|
    ensures ObservedCount(Without(v, gone, i)) == |set k | k in ObservedAt(v) && k >= i && k !in gone|
    decreases |v| - i
  {
    var here := set k | k in ObservedAt(v) && k >= i && k !in gone;
    if i == |v| {
      assert here == {};
    } else {
      CountObserved(v, gone, i + 1);
      var later := set k | k in ObservedAt(v) && k >= i + 1 && k !in gone;
      if i in ObservedAt(v) && i !in gone {
        assert here == later + {i};
      } else {
        assert here == later;
      }
    }
  }

  // ---- The cap on observations ------------------------------------------------------------------

  /** Learned earlier, or at the same time and standing earlier in the slot. */
  predicate Older(v: seq<Entry>, i: nat, j: nat)
    requires i < |v| && j < |v|
  {
    v[i].learnedAt < v[j].learnedAt || (v[i].learnedAt == v[j].learnedAt && i < j)
  }

  /** The observed entries learned after the one at `i`. */
  function Newer(v: seq<Entry>, i: nat): set<nat>
    requires i < |v|
  {
    set j | 0 <= j < |v| && v[j].source.ObservedInbound? && Older(v, i, j)
  }

  /** The observed entries that at least four newer ones crowd out. */
  function Crowded(v: seq<Entry>): set<nat> {
    set i | 0 <= i < |v| && v[i].source.ObservedInbound? && |Newer(v, i)| >= OBSERVED_CAP
  }

  function CapObserved(v: seq<Entry>): seq<Entry> {
    Without(v, Crowded(v), 0)
  }

  lemma SubsetSize(a: set<nat>, b: set<nat>)
    requires a <= b
    ensures |a| <= |b|
  {
    assert b == a + (b - a);
  }

  /** The oldest of a set of positions. */
  lemma {:induction false} OldestExists(v: seq<Entry>, s: set<nat>) returns (m: nat)
    requires s != {} && forall i :: i in s ==> i < |v|
    ensures m in s && forall j :: j in s && j != m ==> Older(v, m, j)
    decreases |s|
  {
    var x :| x in s;
    var rest := s - {x};
    if rest == {} {
      m := x;
      assert s == {x};
    } else {
      var y := OldestExists(v, rest);
      m := if Older(v, x, y) then x else y;
      forall j | j in s && j != m ensures Older(v, m, j) {
        assert j != x ==> j in rest;
      }
    }
  }

  lemma {:induction false} NewestExists(v: seq<Entry>, s: set<nat>) returns (m: nat)
    requires s != {} && forall i :: i in s ==> i < |v|
    ensures m in s && forall j :: j in s && j != m ==> Older(v, j, m)
    decreases |s|
  {
    var x :| x in s;
    var rest := s - {x};
    if rest == {} {
      m := x;
      assert s == {x};
    } else {
      var y := NewestExists(v, rest);
      m := if Older(v, y, x) then x else y;
      forall j | j in s && j != m ensures Older(v, j, m) {
        assert j != x ==> j in rest;
      }
    }
  }

  /** What is kept of the observed entries is newer than all that is dropped. */
  lemma KeptAreNewer(v: seq<Entry>, i: nat, j: nat)
    requires i in Crowded(v) && j in ObservedAt(v) && j !in Crowded(v)
    ensures Older(v, i, j)
  {
    if !Older(v, i, j) {
      assert Older(v, j, i);
      SubsetSize(Newer(v, i), Newer(v, j));
    }
  }

  lemma AtMostFourKept(v: seq<Entry>)
    ensures |ObservedAt(v) - Crowded(v)| <= OBSERVED_CAP
  {
    var kept := ObservedAt(v) - Crowded(v);
    if kept != {} {
      var m := OldestExists(v, kept);
      SubsetSize(kept - {m}, Newer(v, m));
    }
  }

  lemma FourAreNewer(v: seq<Entry>)
    requires Crowded(v) != {}
    ensures |ObservedAt(v) - Crowded(v)| >= OBSERVED_CAP && |ObservedAt(v)| > OBSERVED_CAP
  {
    var kept := ObservedAt(v) - Crowded(v);
    var d := NewestExists(v, Crowded(v));
    SubsetSize(Newer(v, d), kept);
    SubsetSize(kept + {d}, ObservedAt(v));
  }

  /** Four observed entries are kept, or all if there are no more. */
  lemma KeptCount(v: seq<Entry>)
    ensures
      var n := |ObservedAt(v)|;
      && |ObservedAt(v) - Crowded(v)| == (if n <= OBSERVED_CAP then n else OBSERVED_CAP)
      && (n <= OBSERVED_CAP <==> Crowded(v) == {})
  {
    hide Older, Newer, Crowded, ObservedAt;
    AtMostFourKept(v);
    if Crowded(v) != {} {
      FourAreNewer(v);
    } else {
      assert ObservedAt(v) - Crowded(v) == ObservedAt(v);
    }
  }

  lemma CountAll(v: seq<Entry>)
    ensures ObservedCount(v) == |ObservedAt(v)|
  {
    var none: set<nat> := {};
    CountObserved(v, none, 0);
    WithoutNothing(v, none, 0);
    assert (set k | k in ObservedAt(v) && k >= 0 && k !in none) == ObservedAt(v);
    assert v[0..] == v;
  }

  lemma CountKept(v: seq<Entry>)
    ensures ObservedCount(CapObserved(v)) == |ObservedAt(v) - Crowded(v)|
  {
    hide Older, Newer, ObservedAt, ObservedCount, Without, Crowded;
    CountObserved(v, Crowded(v), 0);
    assert (set k | k in ObservedAt(v) && k >= 0 && k !in Crowded(v)) == ObservedAt(v) - Crowded(v);
  }

  lemma CapObservedCount(v: seq<Entry>)
    ensures ObservedCount(CapObserved(v)) <= OBSERVED_CAP
    ensures ObservedCount(v) <= OBSERVED_CAP ==> CapObserved(v) == v
  {
    hide Older, Newer, Crowded, ObservedAt, ObservedCount, Without;
    CountAll(v);
    CountKept(v);
    KeptCount(v);
    if ObservedCount(v) <= OBSERVED_CAP {
      WithoutNothing(v, Crowded(v), 0);
      assert v[0..] == v;
    }
  }

  lemma CapObservedEmpty(v: seq<Entry>)
    requires v != []
    ensures CapObserved(v) != []
  {
    hide Older, Newer;
    KeptCount(v);
    var kept := ObservedAt(v) - Crowded(v);
    if kept != {} {
      var x :| x in kept;
      WithoutHas(v, Crowded(v), 0, v[x]);
    } else {
      assert ObservedAt(v) == {};
      WithoutHas(v, Crowded(v), 0, v[0]);
    }
  }

  // ---- Pruning -----------------------------------------------------------------------------------

  function CapAddrs(v: seq<Entry>): (r: seq<Entry>)
    ensures |r| <= MAX_ADDRS
  {
    if |v| > MAX_ADDRS then v[|v| - MAX_ADDRS..] else v
  }

  function Leaving(v: seq<Entry>, now: u64): set<nat> {
    set i | 0 <= i < |v| && (Expired(v[i], now) || Worn(v[i]))
  }

  function ExpiredAt(v: seq<Entry>, now: u64): set<nat> {
    set i | 0 <= i < |v| && Expired(v[i], now)
  }

  function Stay(v: seq<Entry>, now: u64): seq<Entry> {
    Without(v, Leaving(v, now), 0)
  }

  function Alive(v: seq<Entry>, now: u64): seq<Entry> {
    Without(v, ExpiredAt(v, now), 0)
  }

  predicate NoLaterThan(a: Entry, b: Entry) {
    a.lastSuccess < b.lastSuccess || (a.lastSuccess == b.lastSuccess && a.learnedAt <= b.learnedAt)
  }

  /** The last of the entries with the greatest (last success, learned at), as
      `max_by_key` picks it. */
  function Best(v: seq<Entry>): (e: Entry)
    requires v != []
    ensures e in v
    decreases |v|
  {
    var last := v[|v| - 1];
    if |v| == 1 then last
    else if NoLaterThan(Best(v[..|v| - 1]), last) then last
    else Best(v[..|v| - 1])
  }

  /** When failures alone have emptied the slot, its best entry is given another life. */
  function KeepLast(v: seq<Entry>, now: u64): seq<Entry> {
    if Stay(v, now) != [] then Stay(v, now)
    else if Alive(v, now) != [] then [Best(Alive(v, now)).(fails := 0)]
    else []
  }

  function Prune(v: seq<Entry>, now: u64): seq<Entry> {
    CapAddrs(CapObserved(KeepLast(v, now)))
  }

  lemma StayHas(v: seq<Entry>, now: u64, e: Entry)
    ensures e in Stay(v, now) <==> e in v && !Expired(e, now) && !Worn(e)
  {
    WithoutHas(v, Leaving(v, now), 0, e);
  }

  lemma AliveHas(v: seq<Entry>, now: u64, e: Entry)
    ensures e in Alive(v, now) <==> e in v && !Expired(e, now)
  {
    WithoutHas(v, ExpiredAt(v, now), 0, e);
  }

  lemma {:induction false} BestIsGreatest(v: seq<Entry>, e: Entry)
    requires e in v
    ensures NoLaterThan(e, Best(v))
    decreases |v|
  {
    if |v| > 1 && e in v[..|v| - 1] {
      BestIsGreatest(v[..|v| - 1], e);
    }
  }

  lemma KeepLastMeans(v: seq<Entry>, now: u64)
    ensures KeepLast(v, now) == [] <==> forall i :: 0 <= i < |v| ==> Expired(v[i], now)
    ensures |KeepLast(v, now)| <= (if |v| == 0 then 0 else |v|)
    ensures forall e :: e in KeepLast(v, now) ==> !Expired(e, now) && !Worn(e)
  {
    hide Without, Expired, Worn;
    var r := KeepLast(v, now);
    forall e | e in r ensures !Expired(e, now) && !Worn(e) {
      StayHas(v, now, e);
      if Stay(v, now) == [] {
        var best := Best(Alive(v, now));
        AliveHas(v, now, best);
        RevivedIsFresh(best, now);
      }
    }
    if r == [] {
      forall i | 0 <= i < |v| ensures Expired(v[i], now) {
        AliveHas(v, now, v[i]);
      }
    }
    if forall i :: 0 <= i < |v| ==> Expired(v[i], now) {
      if r != [] {
        StayHas(v, now, r[0]);
        if Alive(v, now) != [] {
          AliveHas(v, now, Best(Alive(v, now)));
        }
      }
    }
  }

  lemma RevivedIsFresh(e: Entry, now: u64)
    requires !Expired(e, now)
    ensures !Expired(e.(fails := 0), now) && !Worn(e.(fails := 0))
  {
  }

  /** A slot within its cap needs no cut after pruning. */
  lemma PruneNeedsNoCut(v: seq<Entry>, now: u64)
    requires |v| <= MAX_ADDRS
    ensures Prune(v, now) == CapObserved(KeepLast(v, now))
  {
    hide KeepLast, Crowded, Without;
    KeepLastMeans(v, now);
  }

  /** The slot is pruned to nothing exactly when every entry was an expired
      observation. */
  lemma EmptyExactly(v: seq<Entry>, now: u64)
    ensures Prune(v, now) == [] <==> forall i :: 0 <= i < |v| ==> Expired(v[i], now)
  {
    hide KeepLast, Crowded, Without, Expired, CapObserved;
    KeepLastMeans(v, now);
    var k := KeepLast(v, now);
    if k != [] {
      CapObservedEmpty(k);
    } else {
      CapObservedCount([]);
      assert ObservedCount([]) == 0;
    }
  }

  /** Announced entries stay, whatever their failures. */
  lemma AnnouncedSurvive(v: seq<Entry>, now: u64, e: Entry)
    requires |v| <= MAX_ADDRS && e in v && e.source.Announced?
    ensures e in Prune(v, now)
  {
    hide Newer, Without;
    PruneNeedsNoCut(v, now);
    StayHas(v, now, e);
    var k := KeepLast(v, now);
    assert e in k;
    WithoutHas(k, Crowded(k), 0, e);
    var n :| 0 <= n < |k| && k[n] == e;
    assert n !in Crowded(k);
  }

  /** At most four observations remain. */
  lemma FewObserved(v: seq<Entry>, now: u64)
    requires |v| <= MAX_ADDRS
    ensures ObservedCount(Prune(v, now)) <= OBSERVED_CAP
  {
    hide KeepLast, CapObserved;
    PruneNeedsNoCut(v, now);
    CapObservedCount(KeepLast(v, now));
  }

  lemma PrunedHas(v: seq<Entry>, now: u64, e: Entry)
    requires e in Prune(v, now)
    ensures e in KeepLast(v, now) && !Expired(e, now) && !Worn(e)
  {
    hide KeepLast, Without, Expired, Worn, Crowded;
    var k := KeepLast(v, now);
    KeepLastMeans(v, now);
    WithoutHas(k, Crowded(k), 0, e);
  }

  lemma StayAll(v: seq<Entry>, now: u64)
    requires forall e :: e in v ==> !Expired(e, now) && !Worn(e)
    ensures Stay(v, now) == v
  {
    hide Expired, Worn;
    WithoutNothing(v, Leaving(v, now), 0);
    assert v[0..] == v;
  }

  /** Pruning twice at one time is pruning once. */
  lemma PruneIdempotent(v: seq<Entry>, now: u64)
    requires |v| <= MAX_ADDRS
    ensures Prune(Prune(v, now), now) == Prune(v, now)
  {
    hide Prune, Stay, Alive, CapObserved, Expired, Worn, ObservedCount;
    var p := Prune(v, now);
    forall e | e in p ensures !Expired(e, now) && !Worn(e) {
      PrunedHas(v, now, e);
    }
    PrunedFits(v, now);
    StayAll(p, now);
    if p == [] {
      EmptyExactly(p, now);
    } else {
      FewObserved(v, now);
      CapObservedCount(p);
      PruneNeedsNoCut(p, now);
    }
  }

  lemma PrunedFits(v: seq<Entry>, now: u64)
    ensures |Prune(v, now)| <= MAX_ADDRS
  {
  }

  /** Of the entries that neither expired nor wore out, an observation leaves only to
      make room for four newer ones. */
  lemma CrowdedOutExactly(v: seq<Entry>, now: u64, i: nat)
    requires |v| <= MAX_ADDRS && i < |KeepLast(v, now)| && DistinctAddrs(v)
    ensures var k := KeepLast(v, now);
      k[i] in Prune(v, now) <==> !k[i].source.ObservedInbound? || |Newer(k, i)| < OBSERVED_CAP
  {
    hide KeepLast, Without, Newer;
    PruneNeedsNoCut(v, now);
    var k := KeepLast(v, now);
    KeepLastDistinct(v, now);
    WithoutHas(k, Crowded(k), 0, k[i]);
  }

  lemma KeepLastDistinct(v: seq<Entry>, now: u64)
    requires DistinctAddrs(v)
    ensures DistinctAddrs(KeepLast(v, now))
  {
    hide Without;
    WithoutDistinct(v, Leaving(v, now), 0);
  }

  lemma PruneDistinct(v: seq<Entry>, now: u64)
    requires DistinctAddrs(v)
    ensures DistinctAddrs(Prune(v, now))
  {
    hide KeepLast, Without, Crowded;
    KeepLastDistinct(v, now);
    WithoutDistinct(KeepLast(v, now), Crowded(KeepLast(v, now)), 0);
  }

  /** Pruning brings in nothing: every entry left was there, with its source. */
  lemma PruneFrom(v: seq<Entry>, now: u64, e: Entry)
    requires e in Prune(v, now)
    ensures exists i :: 0 <= i < |v| && (v[i] == e || v[i].(fails := 0) == e)
  {
    hide Without, Expired, Worn, Crowded, Prune, Stay, Alive;
    PrunedHas(v, now, e);
    if Stay(v, now) != [] {
      StayHas(v, now, e);
    } else {
      var best := Best(Alive(v, now));
      AliveHas(v, now, best);
    }
  }

  // ---- The dial order ----------------------------------------------------------------------------

  function Class(s: Source): nat {
    match s case Announced => 0 case Manual => 1 case DialOk => 2 case ObservedInbound => 3
  }

  /** The key the candidates are sorted by; the recent come first within a class. */
  predicate Before(a: Entry, b: Entry) {
    || Class(a.source) < Class(b.source)
    || (Class(a.source) == Class(b.source) && a.lastSuccess > b.lastSuccess)
    || (Class(a.source) == Class(b.source) && a.lastSuccess == b.lastSuccess && a.learnedAt > b.learnedAt)
  }

  /** Inserted behind everything it does not come before. */
  function InsertSorted(v: seq<Entry>, e: Entry): (r: seq<Entry>)
    ensures |r| == |v| + 1
    decreases |v|
  {
    if v != [] && Before(e, v[|v| - 1]) then InsertSorted(v[..|v| - 1], e) + [v[|v| - 1]] else v + [e]
  }

  /** A stable sort. */
  function Sorted(v: seq<Entry>): (r: seq<Entry>)
    ensures |r| == |v|
    decreases |v|
  {
    if v == [] then [] else InsertSorted(Sorted(v[..|v| - 1]), v[|v| - 1])
  }

  predicate InOrder(v: seq<Entry>) {
    forall i, j :: 0 <= i < j < |v| ==> !Before(v[j], v[i])
  }

  predicate Ties(a: Entry, b: Entry) {
    !Before(a, b) && !Before(b, a)
  }

  /** The entries that tie with `k`, in the order they stand. */
  function TiedWith(v: seq<Entry>, k: Entry): seq<Entry>
    decreases |v|
  {
    if v == [] then []
    else TiedWith(v[..|v| - 1], k) + (if Ties(v[|v| - 1], k) then [v[|v| - 1]] else [])
  }

  /** "Does not come before" is a total preorder. */
  lemma Preorder(a: Entry, b: Entry, k: Entry)
    ensures Before(a, b) ==> !Before(b, a)
    ensures !Before(b, a) && !Before(k, b) ==> !Before(k, a)
    ensures Ties(a, k) && Ties(b, k) ==> !Before(a, b)
  {
  }

  lemma {:induction false} InsertPermutes(v: seq<Entry>, e: Entry)
    ensures multiset(InsertSorted(v, e)) == multiset(v) + multiset{e}
    decreases |v|
  {
    hide Before;
    if v != [] && Before(e, v[|v| - 1]) {
      InsertPermutes(v[..|v| - 1], e);
      assert v == v[..|v| - 1] + [v[|v| - 1]];
    }
  }

  lemma {:induction false} InsertOrdered(v: seq<Entry>, e: Entry)
    requires InOrder(v)
    ensures InOrder(InsertSorted(v, e))
    decreases |v|
  {
    hide Before, Class;
    if v != [] && Before(e, v[|v| - 1]) {
      var front := v[..|v| - 1];
      var last := v[|v| - 1];
      var r := InsertSorted(front, e);
      InsertOrdered(front, e);
      InsertPermutes(front, e);
      forall i | 0 <= i < |r| ensures !Before(last, r[i]) {
        assert r[i] in multiset(r);
        Preorder(e, last, last);
        assert r[i] in front || r[i] == e;
      }
    } else if v != [] {
      forall i | 0 <= i < |v| ensures !Before(e, v[i]) {
        Preorder(v[i], v[|v| - 1], e);
      }
    }
  }

  lemma {:induction false} InsertStable(v: seq<Entry>, e: Entry, k: Entry)
    ensures TiedWith(InsertSorted(v, e), k) == TiedWith(v, k) + (if Ties(e, k) then [e] else [])
    decreases |v|
  {
    hide Before, Ties, Class;
    if v != [] && Before(e, v[|v| - 1]) {
      var last := v[|v| - 1];
      var r := InsertSorted(v[..|v| - 1], e);
      InsertStable(v[..|v| - 1], e, k);
      assert (r + [last])[..|r|] == r;
      Preorder(e, last, k);
    } else {
      assert (v + [e])[..|v|] == v;
    }
  }

  /** The dial order is sorted by priority, has exactly the entries of the slot, and
      keeps entries of equal priority in the order of the slot. */
  lemma {:induction false} SortedMeans(v: seq<Entry>, k: Entry)
    ensures InOrder(Sorted(v)) && multiset(Sorted(v)) == multiset(v)
    ensures TiedWith(Sorted(v), k) == TiedWith(v, k)
    decreases |v|
  {
    hide Before, Ties, InsertSorted;
    if v != [] {
      var front := v[..|v| - 1];
      var last := v[|v| - 1];
      SortedMeans(front, k);
      InsertOrdered(Sorted(front), last);
      InsertPermutes(Sorted(front), last);
      InsertStable(Sorted(front), last, k);
      assert v == front + [last];
    }
  }

  function Addrs(v: seq<Entry>): seq<bytes> {
    seq(|v|, i requires 0 <= i < |v| => v[i].addr)
  }

  // ---- The code ------------------------------------------------------------------------------------

  predicate ByAge(v: seq<Entry>, s: seq<nat>) {
    && (forall n :: 0 <= n < |s| ==> s[n] < |v|)
    && forall m, n :: 0 <= m < n < |s| ==> Older(v, s[m], s[n])
  }

  /** The position put among the victims, oldest first. */
  function InsertByAge(v: seq<Entry>, s: seq<nat>, i: nat): (r: seq<nat>)
    requires i < |v| && forall n :: 0 <= n < |s| ==> s[n] < |v|
    ensures forall n :: 0 <= n < |r| ==> r[n] < |v|
    decreases |s|
  {
    if s != [] && Older(v, i, s[|s| - 1]) then InsertByAge(v, s[..|s| - 1], i) + [s[|s| - 1]] else s + [i]
  }

  lemma {:induction false} InsertByAgeMeans(v: seq<Entry>, s: seq<nat>, i: nat)
    requires i < |v| && ByAge(v, s) && i !in s
    ensures ByAge(v, InsertByAge(v, s, i))
    ensures forall x :: x in InsertByAge(v, s, i) <==> x in s || x == i
    decreases |s|
  {
    if s != [] && Older(v, i, s[|s| - 1]) {
      var front := s[..|s| - 1];
      var last := s[|s| - 1];
      var r := InsertByAge(v, front, i);
      InsertByAgeMeans(v, front, i);
      assert s == front + [last];
      forall n | 0 <= n < |r| ensures Older(v, r[n], last) {
        assert r[n] in r;
        assert r[n] in front || r[n] == i;
      }
    } else if s != [] {
      forall n | 0 <= n < |s| ensures Older(v, s[n], i) {
        assert n < |s| - 1 ==> Older(v, s[n], s[|s| - 1]);
        assert s[n] in s;
        assert s[|s| - 1] in s;
      }
    }
  }

  function Elems(s: seq<nat>): set<nat> {
    set x | x in s
  }

  lemma {:induction false} SetSize(s: seq<nat>)
    requires forall m, n :: 0 <= m < n < |s| ==> s[m] != s[n]
    ensures |Elems(s)| == |s|
    decreases |s|
  {
    if s == [] {
      assert Elems(s) == {};
    } else {
      var front := s[..|s| - 1];
      var last := s[|s| - 1];
      SetSize(front);
      assert s == front + [last];
      assert last !in Elems(front);
      assert Elems(s) == Elems(front) + {last};
    }
  }

  lemma NewerIsTheRest(v: seq<Entry>, s: seq<nat>, n: nat)
    requires ByAge(v, s) && n < |s| && forall x :: x in s <==> x in ObservedAt(v)
    ensures |Newer(v, s[n])| == |s| - 1 - n
  {
    var rest := s[n + 1..];
    forall x | x in Newer(v, s[n]) ensures x in rest {
      assert x in s;
      var m :| 0 <= m < |s| && s[m] == x;
      assert m > n;
      assert rest[m - n - 1] == x;
    }
    forall x | x in rest ensures x in Newer(v, s[n]) {
      var m :| 0 <= m < |rest| && rest[m] == x;
      assert s[m + n + 1] == x && x in s;
    }
    assert Newer(v, s[n]) == Elems(rest);
    SetSize(rest);
  }

  /** The oldest ones beyond four are the crowded ones. */
  lemma ExcessIsCrowded(v: seq<Entry>, s: seq<nat>, i: nat)
    requires ByAge(v, s) && |s| > OBSERVED_CAP && forall x :: x in s <==> x in ObservedAt(v)
    ensures i in s[..|s| - OBSERVED_CAP] <==> i in Crowded(v)
  {
    hide Newer, Older;
    var drop := s[..|s| - OBSERVED_CAP];
    assert forall n :: 0 <= n < |drop| ==> drop[n] == s[n];
    if i in s {
      var n :| 0 <= n < |s| && s[n] == i;
      NewerIsTheRest(v, s, n);
      assert i in ObservedAt(v);
      if i in s[..|s| - OBSERVED_CAP] {
        var m :| 0 <= m < |s| - OBSERVED_CAP && s[m] == i;
        NewerIsTheRest(v, s, m);
      }
    } else {
      assert i !in ObservedAt(v);
      assert i !in s[..|s| - OBSERVED_CAP];
    }
  }

  /** `cap_observed`: the observed positions, oldest first; the excess is removed from
      the back of the slot to the front. */
  method CapObservedSlot(v: seq<Entry>) returns (r: seq<Entry>)
    ensures r == CapObserved(v)
  {
    hide Older, Newer, Crowded, InsertByAge;
    var victims: seq<nat> := [];
    for i := 0 to |v|
      invariant ByAge(v, victims)
      invariant forall x: nat :: x in victims <==> x < i && v[x].source.ObservedInbound?
    {
      if v[i].source.ObservedInbound? {
        InsertByAgeMeans(v, victims, i);
        victims := InsertByAge(v, victims, i);
      }
    }
    assert forall x :: x in victims <==> x in ObservedAt(v);
    if |victims| <= OBSERVED_CAP {
      VictimCount(v, victims);
      KeptCount(v);
      WithoutNothing(v, Crowded(v), 0);
      assert v[0..] == v;
      return v;
    }
    var drop := victims[..|victims| - OBSERVED_CAP];
    r := v;
    assert v[..|v|] + [] == v;
    for i := |v| downto 0
      invariant r == v[..i] + Without(v, Crowded(v), i)
    {
      ExcessIsCrowded(v, victims, i);
      if i in drop {
        r := r[..i] + r[i + 1..];
      } else {
        assert v[..i + 1] == v[..i] + [v[i]];
      }
    }
  }

  lemma VictimCount(v: seq<Entry>, s: seq<nat>)
    requires ByAge(v, s) && forall x :: x in s <==> x in ObservedAt(v)
    ensures |ObservedAt(v)| == |s|
  {
    assert ObservedAt(v) == Elems(s);
    SetSize(s);
  }

  /** The first pass of `prune`: `retain`. */
  method RetainSlot(v: seq<Entry>, now: u64) returns (r: seq<Entry>)
    ensures r == Stay(v, now)
  {
    hide Expired, Worn;
    r := [];
    for i := 0 to |v|
      invariant Stay(v, now) == r + Without(v, Leaving(v, now), i)
    {
      if !Expired(v[i], now) && !Worn(v[i]) {
        assert r + ([v[i]] + Without(v, Leaving(v, now), i + 1)) == (r + [v[i]]) + Without(v, Leaving(v, now), i + 1);
        r := r + [v[i]];
      }
    }
  }

  lemma WithoutStep(v: seq<Entry>, gone: set<nat>, i: nat, seen: seq<Entry>)
    requires i < |v|
    ensures seen + Without(v, gone, i) == (if i in gone then seen else seen + [v[i]]) + Without(v, gone, i + 1)
  {
  }

  lemma BestOfMore(seen: seq<Entry>, e: Entry)
    ensures Best(seen + [e]) == if seen == [] || NoLaterThan(Best(seen), e) then e else Best(seen)
  {
    hide NoLaterThan;
    assert (seen + [e])[..|seen|] == seen;
  }

  /** The entry worth another life: the last greatest of those that have not expired. */
  method BestAlive(v: seq<Entry>, now: u64) returns (best: Option<Entry>)
    ensures best == if Alive(v, now) == [] then None else Some(Best(Alive(v, now)))
  {
    hide Expired, NoLaterThan, Best, Without;
    best := None;
    ghost var seen: seq<Entry> := [];
    ghost var gone := ExpiredAt(v, now);
    for i := 0 to |v|
      invariant Alive(v, now) == seen + Without(v, gone, i)
      invariant best == if seen == [] then None else Some(Best(seen))
    {
      WithoutStep(v, gone, i, seen);
      if !Expired(v[i], now) {
        BestOfMore(seen, v[i]);
        if best.None? || NoLaterThan(best.value, v[i]) {
          best := Some(v[i]);
        }
        seen := seen + [v[i]];
      }
    }
    WithoutNone(v, gone);
    assert seen + [] == seen;
  }

  lemma WithoutNone(v: seq<Entry>, gone: set<nat>)
    ensures Without(v, gone, |v|) == []
  {
  }

  /** `prune`, on the slot it finds. */
  method PruneSlot(v: seq<Entry>, now: u64) returns (r: seq<Entry>)
    ensures r == Prune(v, now)
  {
    hide Without, Expired, Worn, CapObserved;
    r := RetainSlot(v, now);
    if r == [] && v != [] {
      var best := BestAlive(v, now);
      if best.Some? {
        r := r + [best.value.(fails := 0)];
      }
    }
    assert r == KeepLast(v, now) by {
      KeepLastMeans(v, now);
    }
    r := CapObservedSlot(r);
    r := CapAddrs(r);
  }

  method SortSlot(v: seq<Entry>) returns (r: seq<Entry>)
    ensures r == Sorted(v)
  {
    hide InsertSorted;
    r := [];
    for i := 0 to |v|
      invariant r == Sorted(v[..i])
    {
      assert v[..i + 1][..i] == v[..i];
      r := InsertSorted(r, v[i]);
    }
    assert v[..|v|] == v;
  }
}
