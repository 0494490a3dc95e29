/** The address store itself: a map of slots and a FIFO of endpoints, changed in place.
    Each method is proved against the operation of `AddrStore` it performs. */
module KnownAddrs {
  import opened Bytes
  import opened AddrSlots
  import opened AddrStore
  import AddrFile

  class KnownAddrs {
    var slots: map<Key, seq<Entry>>
    var order: seq<Key>

    function Contents(): Store
      reads this
    {
      Store(slots, order)
    }

    ghost predicate Valid()
      reads this
    {
      Good(Contents())
    }

    constructor ()
      ensures Valid() && Contents() == Empty()
    {
      slots, order := map[], [];
    }

    method EnsureSlot(id: Key)
      requires Valid()
      modifies this
      ensures Valid() && Contents() == AddrStore.EnsureSlot(old(Contents()), id)
    {
      EnsureSlotMeans(Contents(), id);
      if id !in slots {
        ghost var before := Contents();
        while |order| >= MAX_ENDPOINTS
          invariant MakeRoom(Contents()) == MakeRoom(before)
          decreases |order|
        {
          var victim := order[0];
          order := order[1..];
          slots := slots - {victim};
        }
        order := order + [id];
        slots := slots[id := []];
      }
    }

    /** `announce`. */
    method Announce(id: Key, addrs: seq<bytes>, now: u64)
      requires Valid()
      modifies this
      ensures Valid() && Contents() == Apply(old(Contents()), Op.Announce(id, addrs, now))
    {
      hide Without, AnnounceEach, Good, AnnounceSlot;
      GoodKept(Contents(), Op.Announce(id, addrs, now));
      EnsureSlot(id);
      var slot := AnnounceInto(slots[id], addrs, now);
      slots := slots[id := slot];
    }

    /** `record_manual`. */
    method RecordManual(id: Key, addr: bytes, now: u64)
      requires Valid()
      modifies this
      ensures Valid() && Contents() == Apply(old(Contents()), Op.Manual(id, addr, now))
    {
      GoodKept(Contents(), Op.Manual(id, addr, now));
      EnsureSlot(id);
      var slot := slots[id];
      var k := Find(slot, addr);
      if k < |slot| {
        slots := slots[id := slot[k := slot[k].(source := Source.Manual, fails := 0)]];
        return;
      }
      slots := slots[id := CapAddrs(slot + [Entry(addr, Source.Manual, 0, now, 0)])];
    }

    /** `record_dial_success`. */
    method RecordDialSuccess(id: Key, addr: bytes, now: u64)
      requires Valid()
      modifies this
      ensures Valid() && Contents() == Apply(old(Contents()), DialSuccess(id, addr, now))
    {
      GoodKept(Contents(), DialSuccess(id, addr, now));
      EnsureSlot(id);
      var slot := slots[id];
      var k := Find(slot, addr);
      if k < |slot| {
        var e := slot[k].(lastSuccess := now, fails := 0);
        if e.source == ObservedInbound {
          e := e.(source := DialOk);
        }
        slots := slots[id := slot[k := e]];
        return;
      }
      slots := slots[id := CapAddrs(slot + [Entry(addr, DialOk, now, now, 0)])];
    }

    /** `record_inbound_observed`. */
    method RecordInboundObserved(id: Key, addr: bytes, now: u64)
      requires Valid()
      modifies this
      ensures Valid() && Contents() == Apply(old(Contents()), Observe(id, addr, now))
    {
      hide CapObserved;
      GoodKept(Contents(), Observe(id, addr, now));
      EnsureSlot(id);
      var slot := slots[id];
      var k := Find(slot, addr);
      if k < |slot| {
        if slot[k].source == ObservedInbound {
          slots := slots[id := slot[k := slot[k].(learnedAt := now)]];
        }
        return;
      }
      slot := slot + [Entry(addr, ObservedInbound, 0, now, 0)];
      slot := CapObservedSlot(slot);
      slots := slots[id := CapAddrs(slot)];
    }

    /** `record_dial_failure`. */
    method RecordDialFailure(id: Key, now: u64)
      requires Valid()
      modifies this
      ensures Valid() && Contents() == Apply(old(Contents()), DialFailure(id, now))
    {
      hide Prune;
      GoodKept(Contents(), DialFailure(id, now));
      if id in slots {
        var slot := slots[id];
        ghost var was := slot;
        for i := 0 to |slot|
          invariant |slot| == |was|
          invariant forall j :: 0 <= j < i ==> slot[j] == FailOnce(was[j])
          invariant forall j :: i <= j < |was| ==> slot[j] == was[j]
        {
          var e := slot[i];
          slot := slot[i := e.(fails := if e.fails == U32_MAX then U32_MAX else e.fails + 1)];
        }
        assert slot == FailEach(was);
        slot := PruneSlot(slot, now);
        slots := slots[id := slot];
      }
    }

    /** `ordered_addrs`: prunes the slot and lists it in dial order. */
    method OrderedAddrs(id: Key, now: u64) returns (r: seq<bytes>)
      requires Valid()
      modifies this
      ensures Valid() && Contents() == Apply(old(Contents()), Op.Order(id, now))
      ensures r == if id in slots then Addrs(Sorted(slots[id])) else []
      ensures id in slots <==> id in old(slots)
      ensures id in slots ==> slots[id] == Prune(old(slots[id]), now)
    {
      hide Prune, Sorted;
      GoodKept(Contents(), Op.Order(id, now));
      if id !in slots { return []; }
      var slot := PruneSlot(slots[id], now);
      slots := slots[id := slot];
      var sorted := SortSlot(slot);
      r := Addrs(sorted);
    }

    /** `snapshot_for_persist`. */
    method SnapshotForPersist(t: AddrFile.IdText) returns (r: seq<(bytes, seq<AddrFile.Persisted>)>)
      requires Valid()
      ensures r == AddrFile.Snapshot(t, Contents())
    {
      hide AddrFile.SavedPart, Good;
      r := [];
      for i := 0 to |order|
        invariant r == AddrFile.SnapshotOf(t, Contents(), i)
      {
        var id := order[i];
        if id in slots {
          var part := AddrFile.SavedPart(slots[id]);
          if part != [] {
            r := r + [(t.show(id), part)];
          }
        }
      }
    }

    /** `from_persisted`. */
    constructor FromPersisted(t: AddrFile.IdText, file: seq<(bytes, seq<AddrFile.PersistEntry>)>, now: u64)
      ensures Valid() && Contents() == AddrFile.Load(t, file, now)
    {
      slots, order := map[], [];
      new;
      for i := 0 to |file|
        invariant Valid()
        invariant Contents() == AddrFile.Load(t, file[..i], now)
      {
        assert file[..i + 1][..i] == file[..i];
        AddrFile.LoadIsGood(t, file[..i + 1], now);
        LoadEndpoint(t, file[i], now);
      }
      assert file[..|file|] == file;
    }

    method LoadEndpoint(t: AddrFile.IdText, x: (bytes, seq<AddrFile.PersistEntry>), now: u64)
      requires Valid() && Good(AddrFile.LoadOne(t, Contents(), x, now))
      modifies this
      ensures Valid() && Contents() == AddrFile.LoadOne(t, old(Contents()), x, now)
    {
      var parsed := t.parse(x.0);
      if parsed == None { return; }
      var id := parsed.value;
      EnsureSlot(id);
      var slot := slots[id];
      ghost var was := slot;
      for j := 0 to |x.1|
        invariant slot == AddrFile.LoadSlot(was, x.1[..j], now)
      {
        assert x.1[..j + 1][..j] == x.1[..j];
        var e := AddrFile.EntryOf(x.1[j], now);
        if !HasAddr(slot, e.addr) {
          slot := slot + [e];
        }
      }
      assert x.1[..|x.1|] == x.1;
      slots := slots[id := CapAddrs(slot)];
    }
  }

  /** `iter().find`: the first entry with that address. */
  method Find(v: seq<Entry>, addr: bytes) returns (k: nat)
    ensures k == IndexOf(v, addr)
  {
    k := 0;
    assert v[0..] == v;
    while k < |v|
      invariant k <= |v|
      invariant IndexOf(v, addr) == k + IndexOf(v[k..], addr)
    {
      if v[k].addr == addr { return; }
      assert v[k..][1..] == v[k + 1..];
      k := k + 1;
    }
  }

  /** `retain`: the announced entries go. */
  method Revoke(v: seq<Entry>) returns (r: seq<Entry>)
    ensures r == Without(v, AnnouncedAt(v), 0)
  {
    r := [];
    for i := 0 to |v|
      invariant Without(v, AnnouncedAt(v), 0) == r + Without(v, AnnouncedAt(v), i)
    {
      WithoutStep(v, AnnouncedAt(v), i, r);
      if v[i].source != Announced {
        r := r + [v[i]];
      }
    }
  }

  /** The body of `announce`, on the slot it finds. */
  method AnnounceInto(v: seq<Entry>, addrs: seq<bytes>, now: u64) returns (slot: seq<Entry>)
    ensures slot == AnnounceSlot(v, addrs, now)
  {
    hide Without, HasAddr;
    slot := Revoke(v);
    ghost var kept := slot;
    for i := 0 to |addrs|
      invariant slot == AnnounceEach(kept, addrs[..i], now)
    {
      var a := addrs[i];
      assert addrs[..i + 1][..i] == addrs[..i];
      var k := Find(slot, a);
      if k < |slot| && slot[k].source.Announced? {
        slot := slot[k := slot[k].(lastSuccess := now, fails := 0)];
      } else if k == |slot| {
        slot := slot + [Entry(a, Announced, now, now, 0)];
      }
    }
    assert addrs[..|addrs|] == addrs;
    slot := CapAddrs(slot);
  }
}
