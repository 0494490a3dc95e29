/** The effective members of a fact set at a moment, as a declarative closure. */
module Projection {
  import opened Bytes
  import opened Facts
  import opened FactCodec
  import opened RosterState
  import opened KeyOrder

  datatype Member = Member(id: Key, name: Option<bytes>, since: u64)

  /** The order (issued_at, fact_id). */
  predicate Earlier(v: View, a: FactId, b: FactId)
    requires a in v.facts && b in v.facts
  {
    || v.facts[a].issuedAt < v.facts[b].issuedAt
    || (v.facts[a].issuedAt == v.facts[b].issuedAt && Before(a, b))
  }

  predicate ActiveRevoke(v: View, now: nat, rid: FactId) {
    && rid in v.facts
    && v.facts[rid].kind == Revoke
    && v.root == Some(v.facts[rid].issuer)
    && ValidAt(v.facts[rid], now)
  }

  /** Whether revoke `r` is aimed at grant `gid`. */
  predicate Hits(r: Fact, gid: FactId, g: Fact) {
    if r.target.Some? then r.target.value == gid else r.subject == g.subject
  }

  ghost predicate Covered(v: View, now: nat, gid: FactId)
    requires gid in v.facts
  {
    exists rid :: ActiveRevoke(v, now, rid) && Hits(v.facts[rid], gid, v.facts[gid])
  }

  /** A grant by the root to someone else, unexpired and not revoked. */
  ghost predicate LiveGrant(v: View, now: nat, gid: FactId) {
    && gid in v.facts
    && v.facts[gid].kind == Grant
    && v.root == Some(v.facts[gid].issuer)
    && v.facts[gid].subject != v.facts[gid].issuer
    && ValidAt(v.facts[gid], now)
    && !Covered(v, now, gid)
  }

  ghost predicate Granted(v: View, now: nat, k: Key) {
    exists gid :: LiveGrant(v, now, gid) && v.facts[gid].subject == k
  }

  ghost predicate IsMember(v: View, now: nat, k: Key) {
    v.root == Some(k) || (v.root.Some? && Granted(v, now, k))
  }

  /** The earliest live grant of `k`. */
  ghost predicate Admits(v: View, now: nat, k: Key, gid: FactId) {
    && LiveGrant(v, now, gid) && v.facts[gid].subject == k
    && (forall g :: LiveGrant(v, now, g) && v.facts[g].subject == k ==> !Earlier(v, g, gid))
  }

  predicate SelfJoin(v: View, now: nat, k: Key, jid: FactId) {
    && jid in v.facts
    && v.facts[jid].kind == Join
    && v.facts[jid].issuer == k == v.facts[jid].subject
    && v.facts[jid].name.Some?
    && ValidAt(v.facts[jid], now)
  }

  /** The latest named self-Join of `k`. */
  ghost predicate Names(v: View, now: nat, k: Key, jid: FactId) {
    && SelfJoin(v, now, k, jid)
    && (forall j :: SelfJoin(v, now, k, j) ==> !Earlier(v, jid, j))
  }

  ghost predicate NameOk(v: View, now: nat, k: Key, fallback: Option<bytes>, name: Option<bytes>) {
    || (exists jid :: Names(v, now, k, jid) && name == v.facts[jid].name)
    || ((forall jid :: !SelfJoin(v, now, k, jid)) && name == fallback)
  }

  function GenesisTime(v: View): u64 {
    if v.genesis.Some? && v.genesis.value in v.facts then v.facts[v.genesis.value].issuedAt else 0
  }

  ghost predicate RecordOk(v: View, now: nat, m: Member) {
    if v.root == Some(m.id) then m.since == GenesisTime(v) && NameOk(v, now, m.id, None, m.name)
    else exists gid :: Admits(v, now, m.id, gid) && m.since == v.facts[gid].issuedAt
                       && NameOk(v, now, m.id, v.facts[gid].name, m.name)
  }

  ghost predicate Ascending(ms: seq<Member>) {
    forall i, j :: 0 <= i < j < |ms| ==> Before(ms[i].id, ms[j].id)
  }

  /** The root first, then every other member in ascending key order, each with the
      time of its admitting fact and its chosen name. */
  ghost predicate IsProjection(v: View, now: nat, ms: seq<Member>) {
    if v.root.None? then ms == []
    else
      && |ms| > 0 && ms[0].id == v.root.value
      && Ascending(ms[1..])
      && (forall i :: 0 <= i < |ms| ==> RecordOk(v, now, ms[i]))
      && (forall i :: 1 <= i < |ms| ==> ms[i].id != v.root.value)
      && (forall k :: IsMember(v, now, k) ==> exists i :: 0 <= i < |ms| && ms[i].id == k)
  }

  // ---- The description fixes the list -----------------------------------------------

  lemma EarlierOrOther(v: View, a: FactId, b: FactId)
    requires a in v.facts && b in v.facts && !Earlier(v, a, b) && !Earlier(v, b, a)
    ensures a == b
  {
    NumInjective(a, b);
  }

  lemma NameUnique(v: View, now: nat, k: Key, fallback: Option<bytes>, n1: Option<bytes>, n2: Option<bytes>)
    requires NameOk(v, now, k, fallback, n1) && NameOk(v, now, k, fallback, n2)
    ensures n1 == n2
  {
    if exists jid :: SelfJoin(v, now, k, jid) {
      var j1 :| Names(v, now, k, j1) && n1 == v.facts[j1].name;
      var j2 :| Names(v, now, k, j2) && n2 == v.facts[j2].name;
      EarlierOrOther(v, j1, j2);
    }
  }

  lemma RecordUnique(v: View, now: nat, a: Member, b: Member)
    requires a.id == b.id && RecordOk(v, now, a) && RecordOk(v, now, b)
    ensures a == b
  {
    hide NameOk, Covered, ValidAt, Before;
    if v.root == Some(a.id) {
      NameUnique(v, now, a.id, None, a.name, b.name);
    } else {
      var g1 :| Admits(v, now, a.id, g1) && a.since == v.facts[g1].issuedAt && NameOk(v, now, a.id, v.facts[g1].name, a.name);
      var g2 :| Admits(v, now, b.id, g2) && b.since == v.facts[g2].issuedAt && NameOk(v, now, b.id, v.facts[g2].name, b.name);
      EarlierOrOther(v, g1, g2);
      NameUnique(v, now, a.id, v.facts[g1].name, a.name, b.name);
    }
  }

  ghost predicate Within(xs: seq<Member>, ys: seq<Member>) {
    forall i :: 0 <= i < |xs| ==> xs[i] in ys
  }

  /** The tail of one ascending list is within the tail of the other. */
  lemma AscendingTails(xs: seq<Member>, ys: seq<Member>)
    requires Ascending(xs) && xs != [] && ys != [] && xs[0] == ys[0]
    requires Within(xs, ys)
    ensures Within(xs[1..], ys[1..])
  {
    hide Num;
    forall i | 0 <= i < |xs[1..]| ensures xs[1..][i] in ys[1..] {
      assert xs[i + 1] in ys;
      var j :| 0 <= j < |ys| && ys[j] == xs[i + 1];
      assert Before(xs[0].id, xs[i + 1].id);
      assert ys[1..][j - 1] == xs[i + 1];
    }
  }

  /** The head of an ascending list comes before its other elements. */
  lemma HeadIsFirst(xs: seq<Member>, m: Member)
    requires Ascending(xs) && m in xs
    ensures m == xs[0] || Before(xs[0].id, m.id)
  {
    hide Num;
    var i :| 0 <= i < |xs| && xs[i] == m;
    assert i == 0 || Before(xs[0].id, xs[i].id);
  }

  lemma AscendingHeads(xs: seq<Member>, ys: seq<Member>)
    requires Ascending(xs) && Ascending(ys) && xs != [] && ys != []
    requires Within(xs, ys) && Within(ys, xs)
    ensures xs[0] == ys[0]
  {
    hide Num, Ascending;
    HeadIsFirst(xs, ys[0]);
    HeadIsFirst(ys, xs[0]);
  }

  lemma TailAscends(xs: seq<Member>)
    requires Ascending(xs) && xs != []
    ensures Ascending(xs[1..])
  {
    hide Before;
  }

  lemma EmptyTogether(xs: seq<Member>, ys: seq<Member>)
    requires Within(xs, ys) && Within(ys, xs)
    ensures xs == [] <==> ys == []
  {
    assert xs != [] ==> xs[0] in ys;
    assert ys != [] ==> ys[0] in xs;
  }

  lemma {:induction false} AscendingUnique(xs: seq<Member>, ys: seq<Member>)
    requires Ascending(xs) && Ascending(ys)
    requires Within(xs, ys) && Within(ys, xs)
    ensures xs == ys
    decreases |xs|
  {
    hide Before, Ascending, Within;
    EmptyTogether(xs, ys);
    if xs != [] {
      AscendingHeads(xs, ys);
      AscendingTails(xs, ys);
      AscendingTails(ys, xs);
      TailAscends(xs);
      TailAscends(ys);
      AscendingUnique(xs[1..], ys[1..]);
      assert xs == [xs[0]] + xs[1..] && ys == [ys[0]] + ys[1..];
    }
  }

  lemma RecordIsMember(v: View, now: nat, m: Member)
    requires v.root.Some? && RecordOk(v, now, m)
    ensures IsMember(v, now, m.id)
  {
  }

  lemma MembersMatch(v: View, now: nat, xs: seq<Member>, ys: seq<Member>)
    requires v.root.Some? && IsProjection(v, now, xs) && IsProjection(v, now, ys)
    ensures xs[0] == ys[0]
    ensures forall i :: 1 <= i < |xs| ==> xs[i] in ys[1..]
  {
    hide RecordOk, IsMember;
    RecordUnique(v, now, xs[0], ys[0]);
    forall i | 1 <= i < |xs| ensures xs[i] in ys[1..] {
      RecordIsMember(v, now, xs[i]);
      var j :| 0 <= j < |ys| && ys[j].id == xs[i].id;
      RecordUnique(v, now, xs[i], ys[j]);
      assert ys[1..][j - 1] == xs[i];
    }
  }

  /** One list of members at most satisfies the description. */
  lemma ProjectionUnique(v: View, now: nat, xs: seq<Member>, ys: seq<Member>)
    requires IsProjection(v, now, xs) && IsProjection(v, now, ys)
    ensures xs == ys
  {
    if v.root.Some? {
      MembersMatch(v, now, xs, ys);
      MembersMatch(v, now, ys, xs);
      hide RecordOk, IsMember;
      AscendingUnique(xs[1..], ys[1..]);
      assert xs == [xs[0]] + xs[1..] && ys == [ys[0]] + ys[1..];
    }
  }

  /** Rosters that received the same valid facts, in whatever order, batching and
      duplication, list the same members at every time. */
  lemma SameFactsSameMembers(c: Crypto, fabric: Bytes32, xs: seq<seq<SignedFact>>, ys: seq<seq<SignedFact>>,
                             now: nat, ms: seq<Member>, ns: seq<Member>)
    requires ValidFacts(c, fabric, Flatten(xs)) == ValidFacts(c, fabric, Flatten(ys))
    requires OneGenesis(ValidFacts(c, fabric, Flatten(xs)))
    requires CollisionFree(c, ValidFacts(c, fabric, Flatten(xs)))
    requires IsProjection(ViewOf(MergeBatches(c, RosterState.Empty(fabric), xs)), now, ms)
    requires IsProjection(ViewOf(MergeBatches(c, RosterState.Empty(fabric), ys)), now, ns)
    ensures ms == ns
  {
    hide IsProjection, MergeBatches, ViewOf, Flatten;
    Convergence(c, fabric, xs, ys);
    ProjectionUnique(ViewOf(MergeBatches(c, RosterState.Empty(fabric), xs)), now, ms, ns);
  }

  // ---- What one more fact can do ------------------------------------------------------

  lemma CoverageUnchanged(v: View, w: View, now: nat, gid: FactId)
    requires gid in v.facts && gid in w.facts && v.facts[gid] == w.facts[gid] && w.root == v.root
    requires forall rid :: ActiveRevoke(v, now, rid) ==> rid in w.facts && w.facts[rid] == v.facts[rid]
    ensures Covered(v, now, gid) ==> Covered(w, now, gid)
  {
    if Covered(v, now, gid) {
      var rid :| ActiveRevoke(v, now, rid) && Hits(v.facts[rid], gid, v.facts[gid]);
      assert ActiveRevoke(w, now, rid) && Hits(w.facts[rid], gid, w.facts[gid]);
    }
  }

  /** Once there is a root, a new fact that is no Revoke by the root removes nobody. */
  lemma OnlyRevokesRemove(c: Crypto, s: State, sf: SignedFact, now: nat, k: Key)
    requires Good(c, s) && s.root.Some?
    requires sf.fact.kind != Revoke || s.root != Some(sf.fact.issuer)
    requires IsMember(ViewOf(s), now, k)
    ensures IsMember(ViewOf(Insert(c, s, sf).0), now, k)
  {
    hide IdOf, Verifies, ShapeOk, ValidAt, Covered;
    var v, w := ViewOf(s), ViewOf(Insert(c, s, sf).0);
    if v.root != Some(k) {
      var gid :| LiveGrant(v, now, gid) && v.facts[gid].subject == k;
      CoverageUnchanged(w, v, now, gid);
      assert LiveGrant(w, now, gid);
    }
  }

  /** Once there is a root, a new fact that is no Grant by the root adds nobody. */
  lemma OnlyGrantsAdd(c: Crypto, s: State, sf: SignedFact, now: nat, k: Key)
    requires Good(c, s) && s.root.Some?
    requires sf.fact.kind != Grant || s.root != Some(sf.fact.issuer)
    requires IsMember(ViewOf(Insert(c, s, sf).0), now, k)
    ensures IsMember(ViewOf(s), now, k)
  {
    hide IdOf, Verifies, ShapeOk, ValidAt, Covered;
    var v, w := ViewOf(s), ViewOf(Insert(c, s, sf).0);
    if v.root != Some(k) {
      var gid :| LiveGrant(w, now, gid) && w.facts[gid].subject == k;
      CoverageUnchanged(v, w, now, gid);
      assert LiveGrant(v, now, gid);
    }
  }

  /** Facts not issued by the root never change who is a member. */
  lemma OutsidersChangeNothing(c: Crypto, s: State, sf: SignedFact, now: nat, k: Key)
    requires Good(c, s) && s.root.Some? && s.root != Some(sf.fact.issuer)
    ensures IsMember(ViewOf(Insert(c, s, sf).0), now, k) <==> IsMember(ViewOf(s), now, k)
  {
    if IsMember(ViewOf(s), now, k) {
      OnlyRevokesRemove(c, s, sf, now, k);
    }
    if IsMember(ViewOf(Insert(c, s, sf).0), now, k) {
      OnlyGrantsAdd(c, s, sf, now, k);
    }
  }

  // ---- Revocation is permanent ----------------------------------------------------------

  /** A root revoke of everything granted to `k` that never expires. */
  predicate BlanketRevoke(s: State, rid: FactId, k: Key) {
    && rid in s.facts
    && s.facts[rid].fact.kind == Revoke
    && s.root == Some(s.facts[rid].fact.issuer)
    && s.facts[rid].fact.subject == k
    && s.facts[rid].fact.target.None?
    && s.facts[rid].fact.expiresAt.None?
  }

  /** After a blanket revoke `k` is out at every time of every later state, whatever
      is granted or merged afterwards. */
  lemma RevocationIsPermanent(c: Crypto, s: State, rid: FactId, k: Key, later: seq<SignedFact>, now: nat)
    requires Good(c, s) && BlanketRevoke(s, rid, k) && s.root != Some(k)
    ensures !IsMember(ViewOf(MergeAll(c, s, later)), now, k)
  {
    RunKeeps(c, s, later);
    hide Good, MergeAll;
    var v := ViewOf(MergeAll(c, s, later));
    assert ActiveRevoke(v, now, rid);
    forall gid | gid in v.facts && v.facts[gid].subject == k
      ensures Covered(v, now, gid)
    {
      assert Hits(v.facts[rid], gid, v.facts[gid]);
    }
  }

  /** The root itself is irrevocable. */
  lemma RootStaysMember(c: Crypto, s: State, later: seq<SignedFact>, now: nat, k: Key)
    requires Good(c, s) && s.root == Some(k)
    ensures IsMember(ViewOf(MergeAll(c, s, later)), now, k)
  {
    RunKeeps(c, s, later);
  }
}
