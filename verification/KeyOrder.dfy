/** Rust's order on 32-byte arrays, and picking in that order from a set. */
module KeyOrder {
  import opened Bytes

  predicate Before(a: Bytes32, b: Bytes32) {
    Num(a) < Num(b)
  }

  lemma LeastExists(ids: set<Bytes32>)
    requires ids != {}
    ensures exists k :: k in ids && forall j :: j in ids ==> !Before(j, k)
  {
    var k :| k in ids;
    if ids == {k} {
      assert forall j :: j in ids ==> !Before(j, k);
    } else {
      LeastExists(ids - {k});
      var m :| m in ids - {k} && forall j :: j in ids - {k} ==> !Before(j, m);
      var least := if Before(k, m) then k else m;
      forall j | j in ids ensures !Before(j, least) {
        assert j == k || j in ids - {k};
      }
    }
  }

  ghost function Least(ids: set<Bytes32>): (k: Bytes32)
    requires ids != {}
    ensures k in ids && forall j :: j in ids ==> !Before(j, k)
  {
    LeastExists(ids);
    var k :| k in ids && forall j :: j in ids ==> !Before(j, k);
    k
  }

  ghost predicate Increasing(ids: seq<Bytes32>) {
    forall i, j :: 0 <= i < j < |ids| ==> Before(ids[i], ids[j])
  }

  /** The ids in the order a `BTreeMap` yields them. */
  ghost function SortedIds(ids: set<Bytes32>): (r: seq<Bytes32>)
    ensures forall k :: k in r <==> k in ids
    ensures |r| == |ids|
    decreases |ids|
  {
    if ids == {} then [] else [Least(ids)] + SortedIds(ids - {Least(ids)})
  }

  lemma LeastUnique(ks: set<Bytes32>, k: Bytes32)
    requires k in ks && forall j :: j in ks ==> !Before(j, k)
    ensures Least(ks) == k
  {
    NumInjective(k, Least(ks));
  }

  lemma LeastBeforeRest(ks: set<Bytes32>, k: Bytes32)
    requires k in ks && forall j :: j in ks ==> !Before(j, k)
    ensures forall j :: j in ks - {k} ==> Before(k, j)
  {
    forall j | j in ks - {k} ensures Before(k, j) {
      if Num(j) == Num(k) {
        NumInjective(j, k);
      }
    }
  }

  lemma HeadIncreases(k: Bytes32, more: seq<Bytes32>)
    requires Increasing(more) && forall j :: j in more ==> Before(k, j)
    ensures Increasing([k] + more)
  {
    hide Before;
    forall i | 0 <= i < |more| ensures Before(k, more[i]) {
      assert more[i] in more;
    }
  }

  lemma {:induction false} SortedIdsIncrease(ids: set<Bytes32>)
    ensures Increasing(SortedIds(ids))
    decreases |ids|
  {
    hide Before, Increasing;
    if ids != {} {
      var k := Least(ids);
      SortedIdsIncrease(ids - {k});
      LeastBeforeRest(ids, k);
      HeadIncreases(k, SortedIds(ids - {k}));
    } else {
      NothingIncreases();
    }
  }

  lemma NothingIncreases()
    ensures Increasing([])
  {
  }

  method PickLeast(ks: set<Bytes32>) returns (k: Bytes32)
    requires ks != {}
    ensures k in ks && forall j :: j in ks ==> !Before(j, k)
  {
    LeastExists(ks);
    k :| k in ks && forall j :: j in ks ==> !Before(j, k);
  }

  lemma LeastFirst(ks: set<Bytes32>, k: Bytes32, done: seq<Bytes32>)
    requires k in ks && forall j :: j in ks ==> !Before(j, k)
    ensures done + SortedIds(ks) == (done + [k]) + SortedIds(ks - {k})
  {
    hide SortedIds, Before;
    SortedIdsLeast(ks, k);
    Append(done, k, SortedIds(ks - {k}));
  }

  lemma SortedIdsLeast(ks: set<Bytes32>, k: Bytes32)
    requires k in ks && forall j :: j in ks ==> !Before(j, k)
    ensures SortedIds(ks) == [k] + SortedIds(ks - {k})
  {
    LeastUnique(ks, k);
  }

  lemma Append(xs: seq<Bytes32>, y: Bytes32, zs: seq<Bytes32>)
    ensures xs + ([y] + zs) == (xs + [y]) + zs
  {
  }

  method InOrder(ks: set<Bytes32>) returns (ids: seq<Bytes32>)
    ensures ids == SortedIds(ks)
  {
    hide Before;
    ids := [];
    var rest := ks;
    while rest != {}
      invariant SortedIds(ks) == ids + SortedIds(rest)
      decreases |rest|
    {
      var k := PickLeast(rest);
      LeastFirst(rest, k, ids);
      ids := ids + [k];
      rest := rest - {k};
    }
  }

  /** Every id comes once, and by its bytes as Rust orders arrays. */
  lemma SortedByBytes(ids: set<Bytes32>, i: nat, j: nat)
    requires i < j < |SortedIds(ids)|
    ensures Num(SortedIds(ids)[i]) < Num(SortedIds(ids)[j])
  {
    hide SortedIds;
    SortedIdsIncrease(ids);
  }
}
