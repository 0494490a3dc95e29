/** What a stored redemption grant means for membership. */
module Admission {
  import opened Bytes
  import opened Facts
  import opened FactCodec
  import opened RosterState
  import opened Projection
  import opened RosterStore
  import opened RedeemVerify
  import Redemption

  /** The grant a redemption issues: for the redeemer, without name and expiry. */
  function GrantOf(c: Crypto, fabric: Bytes32, secret: Bytes32, x: Redemption.Issued): SignedFact {
    Signed(c, secret, GrantFact(fabric, c.publicKey(secret), x.subject, None, None, x.now))
  }

  /** A revoke in force at `now` is aimed at the fact, whether it is stored or not. */
  ghost predicate RevokedBefore(c: Crypto, v: View, now: nat, f: Fact) {
    exists rid :: ActiveRevoke(v, now, rid) && Hits(v.facts[rid], IdOf(c, f), f)
  }

  /** The grant goes in, or is there already under the same signature. */
  lemma GrantGoesIn(c: Crypto, s: State, secret: Bytes32, f: Fact)
    requires Good(c, s) && SignVerifies(c) && s.root == Some(c.publicKey(secret))
    requires f == GrantFact(s.fabric, c.publicKey(secret), f.subject, None, None, f.issuedAt)
    requires !OtherStored(c, s.facts, Signed(c, secret, f))
    ensures
      var s' := Insert(c, s, Signed(c, secret, f)).0;
      && s'.root == s.root && s'.facts == s.facts[IdOf(c, f) := Signed(c, secret, f)]
  {
    hide IdOf, Canonical;
    LocalFactAccepted(c, s, secret, f);
    InsertOutcomes(c, s, Signed(c, secret, f));
  }

  /** The new grant is covered exactly by a revoke that was there before. */
  lemma CoveredByOld(c: Crypto, v: View, w: View, now: nat, f: Fact)
    requires f.kind == Grant && w.root == v.root && w.facts == v.facts[IdOf(c, f) := f]
    requires IdOf(c, f) in v.facts ==> v.facts[IdOf(c, f)] == f
    ensures Covered(w, now, IdOf(c, f)) <==> RevokedBefore(c, v, now, f)
    ensures forall gid :: gid in v.facts ==> (LiveGrant(w, now, gid) <==> LiveGrant(v, now, gid))
  {
    hide IdOf, ValidAt;
    assert forall rid :: ActiveRevoke(w, now, rid) <==> ActiveRevoke(v, now, rid);
  }

  /** One more grant without expiry, seen by whom it admits. */
  lemma GrantAdmits(c: Crypto, v: View, w: View, now: nat, f: Fact)
    requires f.kind == Grant && f.expiresAt.None? && v.root == Some(f.issuer)
    requires w.root == v.root && w.facts == v.facts[IdOf(c, f) := f]
    requires IdOf(c, f) in v.facts ==> v.facts[IdOf(c, f)] == f
    ensures IsMember(w, now, f.subject)
       <==> v.root == Some(f.subject) || IsMember(v, now, f.subject) || !RevokedBefore(c, v, now, f)
  {
    var id := IdOf(c, f);
    CoveredByOld(c, v, w, now, f);
    hide IdOf, Covered, RevokedBefore, LiveGrant;
    NewGrantLives(w, now, id);
    LiveAreStored(v, now);
    LiveAreStored(w, now);
    if gid :| LiveGrant(w, now, gid) && w.facts[gid].subject == f.subject {
      assert gid != id ==> gid in v.facts && v.facts[gid] == w.facts[gid];
    }
    if gid :| LiveGrant(v, now, gid) && gid in v.facts && v.facts[gid].subject == f.subject {
      assert gid in w.facts && w.facts[gid].subject == f.subject;
    }
  }

  /** After a redemption grant has been stored, its peer is a member at a time exactly if
      it is the root, or was a member then already, or no stored revoke in force then is
      aimed at the grant: neither at its id nor, in general, at the peer. */
  lemma AdmittedExactly(c: Crypto, s: State, secret: Bytes32, f: Fact, now: nat)
    requires Good(c, s) && SignVerifies(c) && s.root == Some(c.publicKey(secret))
    requires f == GrantFact(s.fabric, c.publicKey(secret), f.subject, None, None, f.issuedAt)
    requires !OtherStored(c, s.facts, Signed(c, secret, f))
    ensures
      var k := f.subject;
      IsMember(ViewOf(Insert(c, s, Signed(c, secret, f)).0), now, k)
      <==> s.root == Some(k) || IsMember(ViewOf(s), now, k) || !RevokedBefore(c, ViewOf(s), now, f)
  {
    GrantGoesIn(c, s, secret, f);
    hide IdOf, Insert, Good, Canonical, IsMember, RevokedBefore;
    var v, w := ViewOf(s), ViewOf(Insert(c, s, Signed(c, secret, f)).0);
    assert w.facts == v.facts[IdOf(c, f) := f];
    GrantAdmits(c, v, w, now, f);
  }

  lemma NewGrantLives(w: View, now: nat, id: FactId)
    requires id in w.facts && w.facts[id].kind == Grant && w.root == Some(w.facts[id].issuer) && w.facts[id].expiresAt.None?
    ensures LiveGrant(w, now, id) <==> w.root != Some(w.facts[id].subject) && !Covered(w, now, id)
  {
  }

  lemma LiveAreStored(v: View, now: nat)
    ensures forall gid :: LiveGrant(v, now, gid) ==> gid in v.facts
  {
  }

  predicate NoRootRevoke(s: State, fs: seq<SignedFact>) {
    forall i :: 0 <= i < |fs| ==> fs[i].fact.kind != Revoke || s.root != Some(fs[i].fact.issuer)
  }

  /** A member stays one at that time whatever is delivered, as long as the root revokes
      nothing more. */
  lemma {:induction false} StaysUntilRevoked(c: Crypto, s: State, fs: seq<SignedFact>, now: nat, k: Key)
    requires Good(c, s) && s.root.Some? && IsMember(ViewOf(s), now, k) && NoRootRevoke(s, fs)
    ensures IsMember(ViewOf(MergeAll(c, s, fs)), now, k)
    decreases |fs|
  {
    hide Good, Insert, IsMember, ViewOf;
    if fs != [] {
      InsertKeeps(c, s, fs[0]);
      OnlyRevokesRemove(c, s, fs[0], now, k);
      StaysUntilRevoked(c, Insert(c, s, fs[0]).0, fs[1..], now, k);
    }
  }

  /** Of every grant that redemption ever stores: its TLS peer is a member from then on,
      until the root revokes something, exactly unless a revoke was aimed at it before.
      A peer that the root revoked for good is no member afterwards although its new
      invite is accepted, consumed and granted: verification does not look at revokes. */
  lemma RedeemedIsMemberExactly(c: Crypto, fabric: Bytes32, r: Redemption.State, g: nat, s: State, secret: Bytes32,
                                later: seq<SignedFact>, now: nat)
    requires Redemption.Reachable(c, fabric, r) && g < |r.grants| && SignVerifies(c)
    requires Good(c, s) && s.fabric == fabric
    requires s.root == Some(c.publicKey(secret)) == Some(IssuerOf(r.grants[g].attempt.token))
    requires !OtherStored(c, s.facts, GrantOf(c, fabric, secret, r.grants[g]))
    ensures
      var peer := r.grants[g].attempt.peer;
      var sf := GrantOf(c, fabric, secret, r.grants[g]);
      var s' := Insert(c, s, sf).0;
      && (IsMember(ViewOf(s'), now, peer)
          <==> s.root == Some(peer) || IsMember(ViewOf(s), now, peer) || !RevokedBefore(c, ViewOf(s), now, sf.fact))
      && (IsMember(ViewOf(s'), now, peer) && NoRootRevoke(s, later) ==> IsMember(ViewOf(MergeAll(c, s', later)), now, peer))
      && (forall rid :: BlanketRevoke(s, rid, peer) && s.root != Some(peer) ==> !IsMember(ViewOf(MergeAll(c, s', later)), now, peer))
  {
    Redemption.GrantsAreProven(c, fabric, r, g);
    hide Redemption.Reachable, Good, ViewOf, IsMember, RevokedBefore, Authentic, PopMessage, IdOf, Canonical, Insert, MergeAll;
    var peer := r.grants[g].attempt.peer;
    var sf := GrantOf(c, fabric, secret, r.grants[g]);
    var s' := Insert(c, s, sf).0;
    AdmittedExactly(c, s, secret, sf.fact, now);
    InsertKeeps(c, s, sf);
    if IsMember(ViewOf(s'), now, peer) && NoRootRevoke(s, later) {
      StaysUntilRevoked(c, s', later, now, peer);
    }
    forall rid | BlanketRevoke(s, rid, peer) && s.root != Some(peer)
      ensures !IsMember(ViewOf(MergeAll(c, s', later)), now, peer)
    {
      RevokeStands(s, s', rid, peer);
      RevocationIsPermanent(c, s', rid, peer, later, now);
    }
  }

  lemma RevokeStands(s: State, s': State, rid: FactId, k: Key)
    requires BlanketRevoke(s, rid, k) && Extends(s, s')
    ensures BlanketRevoke(s', rid, k)
  {
  }
}
