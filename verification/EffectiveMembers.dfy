/** The three loops that derive the member list from the facts. */
module EffectiveMembers {
  import opened Bytes
  import opened Facts
  import opened KeyOrder
  import opened RosterState
  import opened Projection

  // ---- Loops over the facts ------------------------------------------------------------------------

  /** `admitting` holds the earliest live grant of each granted subject, among the
      facts seen. */
  ghost predicate AdmittingSoFar(v: View, now: nat, admitting: map<Key, FactId>, seen: set<FactId>) {
    && (forall k :: k in admitting ==>
          && admitting[k] in seen && LiveGrant(v, now, admitting[k]) && v.facts[admitting[k]].subject == k)
    && (forall g :: g in seen && LiveGrant(v, now, g) ==>
          v.facts[g].subject in admitting && !Earlier(v, g, admitting[v.facts[g].subject]))
  }

  ghost predicate Admitting(v: View, now: nat, admitting: map<Key, FactId>) {
    AdmittingSoFar(v, now, admitting, v.facts.Keys)
  }

  ghost predicate NamingSoFar(v: View, now: nat, names: map<Key, FactId>, seen: set<FactId>) {
    && (forall k :: k in names ==> names[k] in seen && SelfJoin(v, now, k, names[k]))
    && (forall j :: j in seen && j in v.facts && SelfJoin(v, now, v.facts[j].subject, j) ==>
          v.facts[j].subject in names && !Earlier(v, names[v.facts[j].subject], j))
  }

  ghost predicate Naming(v: View, now: nat, names: map<Key, FactId>) {
    NamingSoFar(v, now, names, v.facts.Keys)
  }

  lemma AdmitReplaces(v: View, now: nat, admitting: map<Key, FactId>, seen: set<FactId>, id: FactId)
    requires AdmittingSoFar(v, now, admitting, seen) && LiveGrant(v, now, id)
    requires var k := v.facts[id].subject; k in admitting ==> Earlier(v, id, admitting[k])
    ensures AdmittingSoFar(v, now, admitting[v.facts[id].subject := id], seen + {id})
  {
    hide Covered, ValidAt, Num;
  }

  lemma AdmitKeeps(v: View, now: nat, admitting: map<Key, FactId>, seen: set<FactId>, id: FactId)
    requires AdmittingSoFar(v, now, admitting, seen) && LiveGrant(v, now, id)
    requires var k := v.facts[id].subject; k in admitting && !Earlier(v, id, admitting[k])
    ensures AdmittingSoFar(v, now, admitting, seen + {id})
  {
    hide Covered, ValidAt, Num;
  }

  lemma AdmitSkips(v: View, now: nat, admitting: map<Key, FactId>, seen: set<FactId>, id: FactId)
    requires AdmittingSoFar(v, now, admitting, seen) && !LiveGrant(v, now, id)
    ensures AdmittingSoFar(v, now, admitting, seen + {id})
  {
    hide Covered, ValidAt, Num;
  }

  lemma NameReplaces(v: View, now: nat, names: map<Key, FactId>, seen: set<FactId>, id: FactId)
    requires NamingSoFar(v, now, names, seen) && id in v.facts && SelfJoin(v, now, v.facts[id].subject, id)
    requires var k := v.facts[id].subject; k in names ==> Earlier(v, names[k], id)
    ensures NamingSoFar(v, now, names[v.facts[id].subject := id], seen + {id})
  {
    hide ValidAt, Num;
  }

  lemma NameKeeps(v: View, now: nat, names: map<Key, FactId>, seen: set<FactId>, id: FactId)
    requires NamingSoFar(v, now, names, seen) && id in v.facts
    requires SelfJoin(v, now, v.facts[id].subject, id) ==>
      v.facts[id].subject in names && !Earlier(v, names[v.facts[id].subject], id)
    ensures NamingSoFar(v, now, names, seen + {id})
  {
    hide ValidAt, Num;
  }

  // ---- From the maps to the list ---------------------------------------------------------------------

  lemma NameIsChosen(v: View, now: nat, names: map<Key, FactId>, k: Key, fallback: Option<bytes>)
    requires Naming(v, now, names)
    ensures NameOk(v, now, k, fallback, if k in names then v.facts[names[k]].name else fallback)
  {
    hide ValidAt, Num;
    if k in names {
      assert Names(v, now, k, names[k]);
    }
  }

  lemma RootRecord(v: View, now: nat, names: map<Key, FactId>, m: Member)
    requires Naming(v, now, names) && v.root == Some(m.id) && m.since == GenesisTime(v)
    requires m.name == if m.id in names then v.facts[names[m.id]].name else None
    ensures RecordOk(v, now, m)
  {
    NameIsChosen(v, now, names, m.id, None);
  }

  lemma MemberRecord(v: View, now: nat, admitting: map<Key, FactId>, names: map<Key, FactId>, m: Member)
    requires Admitting(v, now, admitting) && Naming(v, now, names) && m.id in admitting
    requires m.since == v.facts[admitting[m.id]].issuedAt
    requires m.name == if m.id in names then v.facts[names[m.id]].name else v.facts[admitting[m.id]].name
    ensures RecordOk(v, now, m) && v.root != Some(m.id)
  {
    hide Covered, ValidAt, Num, NameOk;
    NameIsChosen(v, now, names, m.id, v.facts[admitting[m.id]].name);
    assert Admits(v, now, m.id, admitting[m.id]);
  }

  lemma AscendingSnoc(ms: seq<Member>, m: Member)
    requires |ms| > 0 && Ascending(ms[1..]) && forall i :: 1 <= i < |ms| ==> Before(ms[i].id, m.id)
    ensures Ascending((ms + [m])[1..])
  {
    hide Num;
    assert (ms + [m])[1..] == ms[1..] + [m];
    assert forall i :: 0 <= i < |ms[1..]| ==> ms[1..][i] == ms[i + 1];
  }

  lemma AllMembersListed(v: View, now: nat, admitting: map<Key, FactId>, ms: seq<Member>)
    requires v.root.Some? && Admitting(v, now, admitting)
    requires |ms| > 0 && ms[0].id == v.root.value && Ascending(ms[1..])
    requires forall i :: 0 <= i < |ms| ==> RecordOk(v, now, ms[i])
    requires forall i :: 1 <= i < |ms| ==> ms[i].id in admitting
    requires forall k :: k in admitting ==> exists i :: 1 <= i < |ms| && ms[i].id == k
    ensures IsProjection(v, now, ms)
  {
    hide Covered, ValidAt, RecordOk;
    forall k | IsMember(v, now, k)
      ensures exists i :: 0 <= i < |ms| && ms[i].id == k
    {
      if v.root != Some(k) {
        assert k in admitting;
      }
    }
  }

  // ---- The code ------------------------------------------------------------------

  /** The test a fact passes to admit its subject, given the active revokes. */
  predicate GrantCounts(v: View, revokes: set<FactId>, now: nat, id: FactId)
    requires v.root.Some? && id in v.facts && revokes <= v.facts.Keys
  {
    var f := v.facts[id];
    && f.kind == Grant && f.issuer == v.root.value && f.subject != v.root.value && ValidAt(f, now)
    && !exists r :: r in revokes && Hits(v.facts[r], id, f)
  }

  lemma GrantCountsIsLive(v: View, revokes: set<FactId>, now: nat, id: FactId)
    requires v.root.Some? && id in v.facts && revokes <= v.facts.Keys
    requires forall r :: r in revokes <==> ActiveRevoke(v, now, r)
    ensures GrantCounts(v, revokes, now, id) <==> LiveGrant(v, now, id)
  {
    hide Hits, ValidAt;
  }

  method AdmittingGrants(v: View, now: nat) returns (admitting: map<Key, FactId>)
    requires v.root.Some?
    ensures Admitting(v, now, admitting)
  {
    hide LiveGrant, GrantCounts, AdmittingSoFar, Earlier;
    var revokes := set id | id in v.facts && ActiveRevoke(v, now, id);
    admitting := map[];
    var rest := v.facts.Keys;
    ghost var seen: set<FactId> := {};
    AdmittingNone(v, now);
    while rest != {}
      invariant seen + rest == v.facts.Keys
      invariant AdmittingSoFar(v, now, admitting, seen)
      decreases |rest|
    {
      var id :| id in rest;
      var k := v.facts[id].subject;
      GrantCountsIsLive(v, revokes, now, id);
      AdmittingStored(v, now, admitting, seen);
      if GrantCounts(v, revokes, now, id) {
        if k !in admitting || Earlier(v, id, admitting[k]) {
          AdmitReplaces(v, now, admitting, seen, id);
          admitting := admitting[k := id];
        } else {
          AdmitKeeps(v, now, admitting, seen, id);
        }
      } else {
        AdmitSkips(v, now, admitting, seen, id);
      }
      rest := rest - {id};
      seen := seen + {id};
    }
    assert seen == v.facts.Keys;
  }

  lemma AdmittingNone(v: View, now: nat)
    ensures AdmittingSoFar(v, now, map[], {}) && NamingSoFar(v, now, map[], {})
  {
  }

  lemma AdmittingStored(v: View, now: nat, admitting: map<Key, FactId>, seen: set<FactId>)
    requires AdmittingSoFar(v, now, admitting, seen)
    ensures forall k :: k in admitting ==> admitting[k] in v.facts
  {
  }

  lemma NamingStored(v: View, now: nat, names: map<Key, FactId>, seen: set<FactId>)
    requires NamingSoFar(v, now, names, seen)
    ensures forall k :: k in names ==> names[k] in v.facts
  {
  }

  method LatestNames(v: View, now: nat) returns (names: map<Key, FactId>)
    ensures Naming(v, now, names)
  {
    hide NamingSoFar, Earlier, ValidAt;
    names := map[];
    var rest := v.facts.Keys;
    ghost var seen: set<FactId> := {};
    AdmittingNone(v, now);
    while rest != {}
      invariant seen + rest == v.facts.Keys
      invariant NamingSoFar(v, now, names, seen)
      decreases |rest|
    {
      var id :| id in rest;
      var f := v.facts[id];
      NamingStored(v, now, names, seen);
      if f.kind == Join && f.issuer == f.subject && ValidAt(f, now) && f.name.Some?
         && (f.subject !in names || Earlier(v, names[f.subject], id)) {
        NameReplaces(v, now, names, seen, id);
        names := names[f.subject := id];
      } else {
        NameKeeps(v, now, names, seen, id);
      }
      rest := rest - {id};
      seen := seen + {id};
    }
    assert seen == v.facts.Keys;
  }

  function NameFor(v: View, names: map<Key, FactId>, k: Key, fallback: Option<bytes>): Option<bytes>
    requires k in names ==> names[k] in v.facts
  {
    if k in names then v.facts[names[k]].name else fallback
  }

  /** The derived member list, whatever order the facts are visited in. */
  method MembersOf(v: View, now: nat) returns (ms: seq<Member>)
    ensures IsProjection(v, now, ms)
  {
    if v.root.None? { return []; }
    hide Admitting, Naming, GenesisTime, ListSoFar, RecordOk, IsProjection, Before;
    var root := v.root.value;
    var admitting := AdmittingGrants(v, now);
    var names := LatestNames(v, now);
    MapsStored(v, now, admitting, names);
    ms := [Member(root, NameFor(v, names, root, None), GenesisTime(v))];
    RootRecord(v, now, names, ms[0]);
    ListOfRoot(v, now, admitting, ms[0]);
    var rest := admitting.Keys;
    while rest != {}
      invariant rest <= admitting.Keys
      invariant ListSoFar(v, now, admitting, rest, ms)
      decreases |rest|
    {
      var k := PickLeast(rest);
      var grant := v.facts[admitting[k]];
      var m := Member(k, NameFor(v, names, k, grant.name), grant.issuedAt);
      MemberRecord(v, now, admitting, names, m);
      ListGrows(v, now, admitting, rest, ms, m);
      rest := rest - {k};
      ms := ms + [m];
    }
    ListComplete(v, now, admitting, ms);
  }

  /** The list with every admitted member but those in `rest`, who all sort later. */
  ghost predicate ListSoFar(v: View, now: nat, admitting: map<Key, FactId>, rest: set<Key>, ms: seq<Member>) {
    && |ms| > 0 && v.root == Some(ms[0].id)
    && AllOk(v, now, ms)
    && Admitted(admitting, ms)
    && Lists(admitting, rest, ms)
    && Precedes(rest, ms)
    && Ascending(ms[1..])
  }

  ghost predicate AllOk(v: View, now: nat, ms: seq<Member>) {
    forall i :: 0 <= i < |ms| ==> RecordOk(v, now, ms[i])
  }

  ghost predicate Admitted(admitting: map<Key, FactId>, ms: seq<Member>) {
    forall i :: 1 <= i < |ms| ==> ms[i].id in admitting
  }

  ghost predicate HasMember(ms: seq<Member>, k: Key) {
    exists i :: 1 <= i < |ms| && ms[i].id == k
  }

  ghost predicate Lists(admitting: map<Key, FactId>, rest: set<Key>, ms: seq<Member>) {
    forall k :: k in admitting && k !in rest ==> HasMember(ms, k)
  }

  ghost predicate Precedes(rest: set<Key>, ms: seq<Member>) {
    forall i, k :: 1 <= i < |ms| && k in rest ==> Before(ms[i].id, k)
  }

  lemma ListOfRoot(v: View, now: nat, admitting: map<Key, FactId>, m: Member)
    requires v.root == Some(m.id) && RecordOk(v, now, m)
    ensures ListSoFar(v, now, admitting, admitting.Keys, [m])
  {
    hide RecordOk;
  }

  lemma ListsGrows(admitting: map<Key, FactId>, rest: set<Key>, ms: seq<Member>, m: Member)
    requires Lists(admitting, rest, ms) && ms != []
    ensures Lists(admitting, rest - {m.id}, ms + [m])
  {
    var ms' := ms + [m];
    assert ms'[|ms|] == m;
    forall k | k in admitting && k !in rest - {m.id}
      ensures HasMember(ms', k)
    {
      if k != m.id {
        assert HasMember(ms, k);
        var i :| 1 <= i < |ms| && ms[i].id == k;
        assert ms'[i].id == k;
      }
    }
  }

  lemma PrecedesGrows(rest: set<Key>, ms: seq<Member>, m: Member)
    requires Precedes(rest, ms) && forall j :: j in rest - {m.id} ==> Before(m.id, j)
    ensures Precedes(rest - {m.id}, ms + [m])
  {
    hide Before;
  }

  lemma OkGrows(v: View, now: nat, admitting: map<Key, FactId>, ms: seq<Member>, m: Member)
    requires AllOk(v, now, ms) && Admitted(admitting, ms) && RecordOk(v, now, m) && m.id in admitting
    ensures AllOk(v, now, ms + [m]) && Admitted(admitting, ms + [m])
  {
    hide RecordOk;
  }

  lemma ListGrows(v: View, now: nat, admitting: map<Key, FactId>, rest: set<Key>, ms: seq<Member>, m: Member)
    requires ListSoFar(v, now, admitting, rest, ms) && rest <= admitting.Keys
    requires m.id in rest && (forall j :: j in rest ==> !Before(j, m.id)) && RecordOk(v, now, m)
    ensures ListSoFar(v, now, admitting, rest - {m.id}, ms + [m])
  {
    AllBefore(rest, ms, m);
    hide RecordOk, Before, Ascending, AllOk, Admitted, Lists, Precedes;
    LeastBeforeRest(rest, m.id);
    AscendingSnoc(ms, m);
    OkGrows(v, now, admitting, ms, m);
    ListsGrows(admitting, rest, ms, m);
    PrecedesGrows(rest, ms, m);
  }

  lemma AllBefore(rest: set<Key>, ms: seq<Member>, m: Member)
    requires Precedes(rest, ms) && m.id in rest
    ensures forall i :: 1 <= i < |ms| ==> Before(ms[i].id, m.id)
  {
    hide Before;
  }

  lemma ListComplete(v: View, now: nat, admitting: map<Key, FactId>, ms: seq<Member>)
    requires Admitting(v, now, admitting) && ListSoFar(v, now, admitting, {}, ms)
    ensures IsProjection(v, now, ms)
  {
    hide RecordOk, Before, Ascending;
    forall k | k in admitting ensures exists i :: 1 <= i < |ms| && ms[i].id == k {
      assert HasMember(ms, k);
    }
    AllMembersListed(v, now, admitting, ms);
  }

  lemma MapsStored(v: View, now: nat, admitting: map<Key, FactId>, names: map<Key, FactId>)
    requires Admitting(v, now, admitting) && Naming(v, now, names)
    ensures forall k :: k in admitting ==> admitting[k] in v.facts
    ensures forall k :: k in names ==> names[k] in v.facts
  {
  }

  method IsMemberAt(v: View, k: Key, now: nat) returns (r: bool)
    ensures r <==> IsMember(v, now, k)
  {
    hide RecordOk, Ascending, IsMember;
    var ms := MembersOf(v, now);
    if v.root.None? {
      NobodyWithoutRoot(v, now, k);
      return false;
    }
    r := exists i :: 0 <= i < |ms| && ms[i].id == k;
    if r {
      var i :| 0 <= i < |ms| && ms[i].id == k;
      RecordIsMember(v, now, ms[i]);
    }
  }

  lemma NobodyWithoutRoot(v: View, now: nat, k: Key)
    requires v.root.None?
    ensures !IsMember(v, now, k)
  {
  }
}
