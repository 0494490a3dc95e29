/** Who is a member and as what, read off the fields of the stored facts alone, and what a
    revoke of one grant does for good. */
module MembershipLaws {
  import opened Bytes
  import opened Facts
  import opened FactCodec
  import opened RosterState
  import opened Projection
  import opened KeyOrder

  /** A revoke by the root, unexpired at `now`, that names the grant by its id, or names
      no grant and has the grant's subject. */
  ghost predicate RevokedAt(facts: map<FactId, Fact>, root: Key, now: nat, gid: FactId)
    requires gid in facts
  {
    exists rid ::
      && rid in facts && facts[rid].kind == Revoke && facts[rid].issuer == root
      && (facts[rid].expiresAt == None || now < facts[rid].expiresAt.value)
      && (facts[rid].target == Some(gid) || (facts[rid].target == None && facts[rid].subject == facts[gid].subject))
  }

  /** A grant by the root to `k`, unexpired at `now` and not revoked then. */
  ghost predicate GrantsAt(facts: map<FactId, Fact>, root: Key, now: nat, k: Key, gid: FactId) {
    && gid in facts && facts[gid].kind == Grant && facts[gid].issuer == root && facts[gid].subject == k
    && (facts[gid].expiresAt == None || now < facts[gid].expiresAt.value)
    && !RevokedAt(facts, root, now, gid)
  }

  lemma CoveredByFacts(v: View, now: nat, gid: FactId)
    requires v.root.Some? && gid in v.facts
    ensures Covered(v, now, gid) <==> RevokedAt(v.facts, v.root.value, now, gid)
  {
    if Covered(v, now, gid) {
      var rid :| ActiveRevoke(v, now, rid) && Hits(v.facts[rid], gid, v.facts[gid]);
      assert v.facts[rid].target == Some(gid) || (v.facts[rid].target == None && v.facts[rid].subject == v.facts[gid].subject);
    }
    if rid :| && rid in v.facts && v.facts[rid].kind == Revoke && v.facts[rid].issuer == v.root.value
              && (v.facts[rid].expiresAt == None || now < v.facts[rid].expiresAt.value)
              && (v.facts[rid].target == Some(gid) || (v.facts[rid].target == None && v.facts[rid].subject == v.facts[gid].subject))
    {
      assert ActiveRevoke(v, now, rid) && Hits(v.facts[rid], gid, v.facts[gid]);
    }
  }

  lemma LiveByFacts(v: View, now: nat, k: Key, gid: FactId)
    requires v.root.Some? && k != v.root.value
    ensures LiveGrant(v, now, gid) && v.facts[gid].subject == k <==> GrantsAt(v.facts, v.root.value, now, k, gid)
  {
    if gid in v.facts {
      CoveredByFacts(v, now, gid);
    }
    hide Covered, RevokedAt;
  }

  /** A key is a member exactly if it is the root, or the root granted it membership in a
      fact that is unexpired and that no unexpired revoke by the root names, by id or by
      subject. */
  lemma MemberByFacts(v: View, now: nat, k: Key)
    ensures IsMember(v, now, k)
       <==> v.root.Some? && (k == v.root.value || exists gid :: GrantsAt(v.facts, v.root.value, now, k, gid))
  {
    hide Covered, RevokedAt, ValidAt;
    if v.root.Some? && k != v.root.value {
      forall gid
        ensures LiveGrant(v, now, gid) && v.facts[gid].subject == k <==> GrantsAt(v.facts, v.root.value, now, k, gid)
      {
        LiveByFacts(v, now, k, gid);
      }
    }
  }

  /** First by time of issue, then by id. */
  predicate Precedes(facts: map<FactId, Fact>, a: FactId, b: FactId)
    requires a in facts && b in facts
  {
    facts[a].issuedAt < facts[b].issuedAt || (facts[a].issuedAt == facts[b].issuedAt && Num(a) < Num(b))
  }

  /** A Join that `k` signed about itself, with a name, unexpired at `now`. */
  predicate NamedAt(facts: map<FactId, Fact>, now: nat, k: Key, jid: FactId) {
    && jid in facts && facts[jid].kind == Join && facts[jid].issuer == k && facts[jid].subject == k && facts[jid].name.Some?
    && (facts[jid].expiresAt == None || now < facts[jid].expiresAt.value)
  }

  ghost predicate NamedByFacts(facts: map<FactId, Fact>, now: nat, k: Key, fallback: Option<bytes>, name: Option<bytes>) {
    || (exists jid :: NamedAt(facts, now, k, jid) && name == facts[jid].name
          && forall j :: NamedAt(facts, now, k, j) && j != jid ==> Precedes(facts, j, jid))
    || ((forall j :: !NamedAt(facts, now, k, j)) && name == fallback)
  }

  lemma NameFromFacts(v: View, now: nat, k: Key, fallback: Option<bytes>, name: Option<bytes>)
    requires NameOk(v, now, k, fallback, name)
    ensures NamedByFacts(v.facts, now, k, fallback, name)
  {
    assert forall j :: SelfJoin(v, now, k, j) <==> NamedAt(v.facts, now, k, j);
    hide SelfJoin, NamedAt;
    if jid :| Names(v, now, k, jid) && name == v.facts[jid].name {
      NamedIsStored(v, now, k);
      forall j | NamedAt(v.facts, now, k, j) && j != jid
        ensures Precedes(v.facts, j, jid)
      {
        if !Precedes(v.facts, j, jid) {
          EarlierOrOther(v, j, jid);
        }
      }
    }
  }

  lemma NamedIsStored(v: View, now: nat, k: Key)
    ensures forall j :: NamedAt(v.facts, now, k, j) ==> j in v.facts
  {
  }

  /** A listed member other than the root joined with the first of the grants that admit
      it, and is called what its latest named Join says, or else what that grant says. */
  lemma RecordByFacts(v: View, now: nat, ms: seq<Member>, i: nat)
    requires IsProjection(v, now, ms) && i < |ms| && v.root.Some? && ms[i].id != v.root.value
    ensures exists gid ::
      && GrantsAt(v.facts, v.root.value, now, ms[i].id, gid)
      && (forall g :: GrantsAt(v.facts, v.root.value, now, ms[i].id, g) && g != gid ==> Precedes(v.facts, gid, g))
      && ms[i].since == v.facts[gid].issuedAt
      && NamedByFacts(v.facts, now, ms[i].id, v.facts[gid].name, ms[i].name)
  {
    hide NameOk, NamedByFacts, Covered, GrantsAt, ValidAt;
    var k := ms[i].id;
    assert RecordOk(v, now, ms[i]);
    var gid :| Admits(v, now, k, gid) && ms[i].since == v.facts[gid].issuedAt && NameOk(v, now, k, v.facts[gid].name, ms[i].name);
    LiveByFacts(v, now, k, gid);
    NameFromFacts(v, now, k, v.facts[gid].name, ms[i].name);
    forall g | GrantsAt(v.facts, v.root.value, now, k, g) && g != gid
      ensures g in v.facts && gid in v.facts && Precedes(v.facts, gid, g)
    {
      LiveByFacts(v, now, k, g);
      GrantIsStored(v, now, k, g);
      GrantIsStored(v, now, k, gid);
      if !Precedes(v.facts, gid, g) {
        EarlierOrOther(v, g, gid);
      }
    }
  }

  lemma GrantIsStored(v: View, now: nat, k: Key, gid: FactId)
    requires v.root.Some? && GrantsAt(v.facts, v.root.value, now, k, gid)
    ensures gid in v.facts
  {
  }

  /** The root is listed first, since the Genesis, under its latest named Join. */
  lemma RootByFacts(v: View, now: nat, ms: seq<Member>)
    requires IsProjection(v, now, ms) && v.root.Some?
    ensures ms != [] && ms[0].id == v.root.value
    ensures v.genesis.Some? && v.genesis.value in v.facts ==> ms[0].since == v.facts[v.genesis.value].issuedAt
    ensures NamedByFacts(v.facts, now, v.root.value, None, ms[0].name)
  {
    hide NameOk, NamedByFacts, Covered, LiveGrant;
    assert RecordOk(v, now, ms[0]);
    NameFromFacts(v, now, v.root.value, None, ms[0].name);
  }

  // ---- Revoking one grant ------------------------------------------------------------------------

  /** A revoke by the root that names the grant and never expires. */
  predicate Ends(s: State, rid: FactId, gid: FactId) {
    && rid in s.facts && s.facts[rid].fact.kind == Revoke && s.root == Some(s.facts[rid].fact.issuer)
    && s.facts[rid].fact.target == Some(gid) && s.facts[rid].fact.expiresAt == None
  }

  /** What a revoke of one grant ended stays ended: at every time of every later state no
      such grant admits anybody. So a key whose every grant by the root, then, was ended
      in this way is no member. */
  lemma RevokedGrantIsEnded(c: Crypto, s: State, rid: FactId, gid: FactId, later: seq<SignedFact>, now: nat, k: Key)
    requires Good(c, s) && Ends(s, rid, gid)
    ensures
      var v := ViewOf(MergeAll(c, s, later));
      v.root == s.root && !GrantsAt(v.facts, s.root.value, now, k, gid)
  {
    RunKeeps(c, s, later);
    hide Good, MergeAll;
    var v := ViewOf(MergeAll(c, s, later));
    assert v.facts[rid] == s.facts[rid].fact;
    if gid in v.facts {
      assert RevokedAt(v.facts, s.root.value, now, gid);
    }
  }

  /** A key other than the root is no member at any time of any later state in which every
      grant by the root to it is ended by a revoke that names it and never expires. */
  lemma TargetedOutForGood(c: Crypto, s: State, later: seq<SignedFact>, now: nat, k: Key)
    requires Good(c, s) && s.root.Some? && s.root != Some(k)
    requires forall gid :: gid in MergeAll(c, s, later).facts && MergeAll(c, s, later).facts[gid].fact.kind == Grant
               && s.root == Some(MergeAll(c, s, later).facts[gid].fact.issuer) && MergeAll(c, s, later).facts[gid].fact.subject == k
               ==> exists rid :: Ends(s, rid, gid)
    ensures !IsMember(ViewOf(MergeAll(c, s, later)), now, k)
  {
    RunKeeps(c, s, later);
    var t := MergeAll(c, s, later);
    hide Good, MergeAll, IsMember, Ends, RevokedAt;
    MemberByFacts(ViewOf(t), now, k);
    if gid :| GrantsAt(ViewOf(t).facts, s.root.value, now, k, gid) {
      var rid :| Ends(s, rid, gid);
      RevokedGrantIsEnded(c, s, rid, gid, later, now, k);
    }
  }

  /** A key stays listed while an unexpired grant by the root to it has neither its id nor
      its subject named by an unexpired revoke by the root. */
  lemma OtherGrantStands(c: Crypto, s: State, later: seq<SignedFact>, now: nat, k: Key, gid: FactId)
    requires Good(c, s) && gid in s.facts && s.facts[gid].fact.kind == Grant && s.root == Some(s.facts[gid].fact.issuer)
    requires s.facts[gid].fact.subject == k && (s.facts[gid].fact.expiresAt == None || now < s.facts[gid].fact.expiresAt.value)
    requires
      var t := MergeAll(c, s, later);
      forall rid :: rid in t.facts && t.facts[rid].fact.kind == Revoke && s.root == Some(t.facts[rid].fact.issuer)
               && (t.facts[rid].fact.expiresAt == None || now < t.facts[rid].fact.expiresAt.value)
               ==> t.facts[rid].fact.target != Some(gid) && (t.facts[rid].fact.target.Some? || t.facts[rid].fact.subject != k)
    ensures IsMember(ViewOf(MergeAll(c, s, later)), now, k)
  {
    RunKeeps(c, s, later);
    hide Good, MergeAll, IsMember;
    var v := ViewOf(MergeAll(c, s, later));
    MemberByFacts(v, now, k);
    assert v.facts[gid] == s.facts[gid].fact;
    assert GrantsAt(v.facts, s.root.value, now, k, gid);
  }

  /** After the root the members are listed by their ids as Rust orders byte arrays, each
      once. */
  lemma ListedInOrder(v: View, now: nat, ms: seq<Member>, i: nat, j: nat)
    requires IsProjection(v, now, ms) && v.root.Some? && 1 <= i < j < |ms|
    ensures Num(ms[i].id) < Num(ms[j].id)
  {
    hide RecordOk, IsMember;
    assert ms[1..][i - 1] == ms[i] && ms[1..][j - 1] == ms[j];
  }
}
