/** The roster as a value: validated union of signed facts under one Genesis. */
module RosterState {
  import opened Bytes
  import opened Facts
  import opened FactCodec

  datatype Reason =
    | CrossFabric
    | BadSignature
    | BadShape
    | ConflictingGenesis
    | GenesisCollision
    | IdCollision

  datatype Outcome = Inserted | Duplicate | Quarantined(reason: Reason)

  datatype State = State(fabric: Bytes32, genesis: Option<FactId>, root: Option<Key>, facts: map<FactId, SignedFact>)

  /** What authorization is derived from: signatures play no part once a fact
      has been accepted. */
  datatype View = View(root: Option<Key>, genesis: Option<FactId>, facts: map<FactId, Fact>)

  function ViewOf(s: State): View {
    View(s.root, s.genesis, map id | id in s.facts :: s.facts[id].fact)
  }

  function Empty(fabric: Bytes32): State {
    State(fabric, None, None, map[])
  }

  predicate ShapeOk(f: Fact) {
    match f.kind
    case Genesis => f.issuer == f.subject && f.name.None? && f.expiresAt.None? && f.target.None?
    case Grant => f.target.None?
    case Join => f.target.None?
    case Revoke => true
  }

  /** A fact that is good by itself: of this fabric, signed by its issuer and
      with no field its kind disallows. */
  predicate Acceptable(c: Crypto, fabric: Bytes32, sf: SignedFact) {
    sf.fact.fabric == fabric && Verifies(c, sf) && ShapeOk(sf.fact)
  }

  /** `validate_and_insert`, check by check. */
  function Insert(c: Crypto, s: State, sf: SignedFact): (State, Outcome) {
    var id := IdOf(c, sf.fact);
    if sf.fact.fabric != s.fabric then (s, Quarantined(CrossFabric))
    else if !Verifies(c, sf) then (s, Quarantined(BadSignature))
    else if !ShapeOk(sf.fact) then (s, Quarantined(BadShape))
    else if sf.fact.kind == Genesis && s.genesis.Some? && s.genesis.value != id then (s, Quarantined(ConflictingGenesis))
    else if sf.fact.kind == Genesis && id in s.facts && s.facts[id] != sf then (s, Quarantined(GenesisCollision))
    else if id in s.facts then (s, if s.facts[id] == sf then Duplicate else Quarantined(IdCollision))
    else if sf.fact.kind == Genesis && s.genesis.None? then
      (State(s.fabric, Some(id), Some(sf.fact.issuer), s.facts[id := sf]), Inserted)
    else (s.(facts := s.facts[id := sf]), Inserted)
  }

  function MergeAll(c: Crypto, s: State, fs: seq<SignedFact>): State
    decreases |fs|
  {
    if fs == [] then s else MergeAll(c, Insert(c, s, fs[0]).0, fs[1..])
  }

  function MergeBatches(c: Crypto, s: State, batches: seq<seq<SignedFact>>): State
    decreases |batches|
  {
    if batches == [] then s else MergeBatches(c, MergeAll(c, s, batches[0]), batches[1..])
  }

  function Flatten(batches: seq<seq<SignedFact>>): seq<SignedFact> {
    if batches == [] then [] else batches[0] + Flatten(batches[1..])
  }

  // ---- What every run keeps -----------------------------------------------------

  /** Each fact is stored under its own id and acceptable, and the Genesis is
      unique and names the root. */
  ghost predicate Good(c: Crypto, s: State) {
    && (forall id :: id in s.facts ==> IdOf(c, s.facts[id].fact) == id && Acceptable(c, s.fabric, s.facts[id]))
    && (s.genesis.Some? <==> s.root.Some?)
    && (s.genesis.Some? ==>
          && s.genesis.value in s.facts
          && s.facts[s.genesis.value].fact.kind == Genesis
          && s.facts[s.genesis.value].fact.issuer == s.root.value)
    && (forall id :: id in s.facts && s.facts[id].fact.kind == Genesis ==> s.genesis == Some(id))
  }

  /** `later` holds everything `earlier` held, and the same root once there is one. */
  ghost predicate Extends(earlier: State, later: State) {
    && later.fabric == earlier.fabric
    && (forall id :: id in earlier.facts ==> id in later.facts && later.facts[id] == earlier.facts[id])
    && (earlier.root.Some? ==> later.root == earlier.root && later.genesis == earlier.genesis)
  }

  lemma InsertKeeps(c: Crypto, s: State, sf: SignedFact)
    requires Good(c, s)
    ensures Good(c, Insert(c, s, sf).0) && Extends(s, Insert(c, s, sf).0)
  {
    hide Verifies, IdOf, ShapeOk;
    InsertExtends(c, s, sf);
    hide Extends;
  }

  lemma InsertExtends(c: Crypto, s: State, sf: SignedFact)
    requires Good(c, s)
    ensures Extends(s, Insert(c, s, sf).0)
  {
    hide Verifies, IdOf, ShapeOk;
  }

  /** Over every run facts only grow, each verified, well-shaped and under its own
      id, and the first Genesis fixes the root for good. */
  lemma {:induction false} RunKeeps(c: Crypto, s: State, fs: seq<SignedFact>)
    requires Good(c, s)
    ensures Good(c, MergeAll(c, s, fs)) && Extends(s, MergeAll(c, s, fs))
    decreases |fs|
  {
    hide Good, Insert;
    if fs != [] {
      InsertKeeps(c, s, fs[0]);
      RunKeeps(c, Insert(c, s, fs[0]).0, fs[1..]);
    }
  }

  lemma {:induction false} MergeConcat(c: Crypto, s: State, xs: seq<SignedFact>, ys: seq<SignedFact>)
    ensures MergeAll(c, s, xs + ys) == MergeAll(c, MergeAll(c, s, xs), ys)
    decreases |xs|
  {
    if xs == [] {
      assert [] + ys == ys;
    } else {
      assert (xs + ys)[1..] == xs[1..] + ys;
      MergeConcat(c, Insert(c, s, xs[0]).0, xs[1..], ys);
    }
  }

  lemma {:induction false} BatchesAreOneMerge(c: Crypto, s: State, batches: seq<seq<SignedFact>>)
    ensures MergeBatches(c, s, batches) == MergeAll(c, s, Flatten(batches))
    decreases |batches|
  {
    if batches != [] {
      MergeConcat(c, s, batches[0], Flatten(batches[1..]));
      BatchesAreOneMerge(c, MergeAll(c, s, batches[0]), batches[1..]);
    }
  }

  /** Exactly which deliveries are stored, which are re-deliveries and which are
      quarantined, without following the order of the checks. */
  lemma InsertOutcomes(c: Crypto, s: State, sf: SignedFact)
    requires Good(c, s)
    ensures var (s', o) := Insert(c, s, sf);
      var id := IdOf(c, sf.fact);
      && (o == Inserted <==>
            Acceptable(c, s.fabric, sf) && id !in s.facts && (sf.fact.kind == Genesis ==> s.genesis.None?))
      && (o == Duplicate <==> id in s.facts && s.facts[id] == sf)
      && (o == Inserted ==> s'.facts == s.facts[id := sf])
      && (o != Inserted ==> s' == s)
  {
    hide Verifies, IdOf;
  }

  /** The issuer signed the fact, and its name is not too long to be signed. */
  predicate SignedByIssuer(c: Crypto, sf: SignedFact) {
    && (sf.fact.name.Some? ==> |sf.fact.name.value| <= 512)
    && c.verify(sf.fact.issuer, Canonical(sf.fact), sf.signature)
  }

  /** A Genesis is its issuer's about itself and carries nothing else; a target is for
      revokes only. */
  predicate OnlyItsFields(f: Fact) {
    && (f.kind == Genesis ==> f.issuer == f.subject && f.name == None && f.expiresAt == None && f.target == None)
    && (f.kind != Revoke ==> f.target == None)
  }

  /** What a delivery is refused for: the first of fabric, signature, fields, Genesis and
      id that is wrong. */
  lemma RefusedFor(c: Crypto, s: State, sf: SignedFact)
    ensures
      var o := Insert(c, s, sf).1;
      var id := IdOf(c, sf.fact);
      var mine := sf.fact.fabric == s.fabric;
      var made := mine && SignedByIssuer(c, sf) && OnlyItsFields(sf.fact);
      var genesis := sf.fact.kind == Genesis;
      && (o == Quarantined(CrossFabric) <==> !mine)
      && (o == Quarantined(BadSignature) <==> mine && !SignedByIssuer(c, sf))
      && (o == Quarantined(BadShape) <==> mine && SignedByIssuer(c, sf) && !OnlyItsFields(sf.fact))
      && (o == Quarantined(ConflictingGenesis) <==> made && genesis && s.genesis.Some? && s.genesis.value != id)
      && (o == Quarantined(GenesisCollision) <==>
            made && genesis && (s.genesis == None || s.genesis == Some(id)) && id in s.facts && s.facts[id] != sf)
      && (o == Quarantined(IdCollision) <==> made && !genesis && id in s.facts && s.facts[id] != sf)
      && (o == Duplicate <==> made && (genesis ==> s.genesis == None || s.genesis == Some(id)) && id in s.facts && s.facts[id] == sf)
  {
    assert SignedByIssuer(c, sf) <==> Verifies(c, sf);
    assert OnlyItsFields(sf.fact) <==> ShapeOk(sf.fact);
    hide SignedByIssuer, Verifies, OnlyItsFields, ShapeOk, IdOf;
  }

  // ---- Convergence ----------------------------------------------------------------

  ghost function ValidFacts(c: Crypto, fabric: Bytes32, fs: seq<SignedFact>): set<Fact> {
    set sf | sf in fs && Acceptable(c, fabric, sf) :: sf.fact
  }

  ghost predicate CollisionFree(c: Crypto, facts: set<Fact>) {
    forall f, g :: f in facts && g in facts && IdOf(c, f) == IdOf(c, g) ==> f == g
  }

  ghost predicate OneGenesis(facts: set<Fact>) {
    forall f, g :: f in facts && g in facts && f.kind == Genesis && g.kind == Genesis ==> f == g
  }

  /** Every stored fact was stored before or delivered. */
  lemma {:induction false} StoredWasDelivered(c: Crypto, s: State, fs: seq<SignedFact>, id: FactId)
    requires Good(c, s) && id in MergeAll(c, s, fs).facts
    ensures id in s.facts || MergeAll(c, s, fs).facts[id] in fs
    decreases |fs|
  {
    hide Good, Verifies, IdOf;
    if fs != [] {
      InsertKeeps(c, s, fs[0]);
      var s1 := Insert(c, s, fs[0]).0;
      StoredWasDelivered(c, s1, fs[1..], id);
      if id in s1.facts && id !in s.facts {
        RunKeeps(c, s1, fs[1..]);
      }
    }
  }

  /** Every acceptable delivery ends up stored, by id, unless it is a Genesis other
      than the one the run settled on. */
  lemma {:induction false} DeliveredIsStored(c: Crypto, s: State, fs: seq<SignedFact>, sf: SignedFact)
    requires Good(c, s) && sf in fs && Acceptable(c, s.fabric, sf)
    ensures var r := MergeAll(c, s, fs);
      var id := IdOf(c, sf.fact);
      id in r.facts || (sf.fact.kind == Genesis && r.genesis.Some? && r.genesis != Some(id))
    decreases |fs|
  {
    hide Verifies, IdOf;
    InsertKeeps(c, s, fs[0]);
    var s1 := Insert(c, s, fs[0]).0;
    if sf == fs[0] {
      RunKeeps(c, s1, fs[1..]);
    } else {
      DeliveredIsStored(c, s1, fs[1..], sf);
    }
  }

  /** The settled roster in closed form: with one Genesis at most and no hash
      collision, it holds the valid facts, each under its id. */
  lemma SettledFacts(c: Crypto, fabric: Bytes32, fs: seq<SignedFact>)
    requires OneGenesis(ValidFacts(c, fabric, fs)) && CollisionFree(c, ValidFacts(c, fabric, fs))
    ensures var v := ViewOf(MergeAll(c, Empty(fabric), fs));
      var facts := ValidFacts(c, fabric, fs);
      && (forall f :: f in facts ==> IdOf(c, f) in v.facts && v.facts[IdOf(c, f)] == f)
      && (forall id :: id in v.facts ==> v.facts[id] in facts && IdOf(c, v.facts[id]) == id)
      && (forall f :: f in facts && f.kind == Genesis ==> v.genesis == Some(IdOf(c, f)) && v.root == Some(f.issuer))
      && ((forall f :: f in facts ==> f.kind != Genesis) ==> v.genesis.None? && v.root.None?)
  {
    hide Verifies, IdOf, Insert, MergeAll;
    var s := Empty(fabric);
    var r := MergeAll(c, s, fs);
    var facts := ValidFacts(c, fabric, fs);
    RunKeeps(c, s, fs);
    forall id | id in r.facts
      ensures r.facts[id] in fs && r.facts[id].fact in facts
    {
      StoredWasDelivered(c, s, fs, id);
    }
    forall f | f in facts
      ensures IdOf(c, f) in r.facts && r.facts[IdOf(c, f)].fact == f
    {
      var sf :| sf in fs && Acceptable(c, fabric, sf) && sf.fact == f;
      DeliveredIsStored(c, s, fs, sf);
      assert r.genesis.Some? ==> r.facts[r.genesis.value].fact in facts;
      assert r.facts[IdOf(c, f)].fact in facts;
    }
  }

  /** Two deliveries of the same valid facts into empty rosters of one fabric, in
      any order, batching and duplication, settle on the same id-to-fact map,
      Genesis and root. */
  lemma Convergence(c: Crypto, fabric: Bytes32, xs: seq<seq<SignedFact>>, ys: seq<seq<SignedFact>>)
    requires ValidFacts(c, fabric, Flatten(xs)) == ValidFacts(c, fabric, Flatten(ys))
    requires OneGenesis(ValidFacts(c, fabric, Flatten(xs)))
    requires CollisionFree(c, ValidFacts(c, fabric, Flatten(xs)))
    ensures ViewOf(MergeBatches(c, Empty(fabric), xs)) == ViewOf(MergeBatches(c, Empty(fabric), ys))
  {
    BatchesAreOneMerge(c, Empty(fabric), xs);
    BatchesAreOneMerge(c, Empty(fabric), ys);
    SameFactsSameView(c, fabric, Flatten(xs), Flatten(ys));
  }

  lemma SameFactsSameView(c: Crypto, fabric: Bytes32, xs: seq<SignedFact>, ys: seq<SignedFact>)
    requires ValidFacts(c, fabric, xs) == ValidFacts(c, fabric, ys)
    requires OneGenesis(ValidFacts(c, fabric, xs)) && CollisionFree(c, ValidFacts(c, fabric, xs))
    ensures ViewOf(MergeAll(c, Empty(fabric), xs)) == ViewOf(MergeAll(c, Empty(fabric), ys))
  {
    hide Verifies, IdOf, Insert, MergeAll, ViewOf, CollisionFree, OneGenesis, ValidFacts;
    SettledFacts(c, fabric, xs);
    SettledFacts(c, fabric, ys);
    var v, w := ViewOf(MergeAll(c, Empty(fabric), xs)), ViewOf(MergeAll(c, Empty(fabric), ys));
    assert v.facts.Keys == w.facts.Keys;
    assert v.facts == w.facts;
  }

  /** Order, batching and duplication are irrelevant for these deliveries. */
  ghost predicate OrderIrrelevant(c: Crypto, fabric: Bytes32, xs: seq<SignedFact>) {
    forall ys :: ValidFacts(c, fabric, ys) == ValidFacts(c, fabric, xs) ==>
      ViewOf(MergeAll(c, Empty(fabric), ys)) == ViewOf(MergeAll(c, Empty(fabric), xs))
  }

  /** A Genesis delivered first to an empty roster is the one it keeps. */
  lemma FirstGenesisWins(c: Crypto, fabric: Bytes32, g: SignedFact, fs: seq<SignedFact>)
    requires Acceptable(c, fabric, g) && g.fact.kind == Genesis
    ensures MergeAll(c, Empty(fabric), [g] + fs).genesis == Some(IdOf(c, g.fact))
    ensures MergeAll(c, Empty(fabric), [g] + fs).root == Some(g.fact.issuer)
  {
    hide Verifies, IdOf;
    var s1 := Insert(c, Empty(fabric), g).0;
    assert ([g] + fs)[1..] == fs;
    InsertKeeps(c, Empty(fabric), g);
    RunKeeps(c, s1, fs);
  }

  /** Convergence holds exactly when the valid facts hold at most one Genesis: with
      two, the one delivered first wins. */
  lemma ConvergesExactly(c: Crypto, fabric: Bytes32, xs: seq<SignedFact>)
    requires CollisionFree(c, ValidFacts(c, fabric, xs))
    ensures OrderIrrelevant(c, fabric, xs) <==> OneGenesis(ValidFacts(c, fabric, xs))
  {
    hide Verifies, IdOf, Insert, MergeAll;
    var facts := ValidFacts(c, fabric, xs);
    if OneGenesis(facts) {
      forall ys | ValidFacts(c, fabric, ys) == facts
        ensures ViewOf(MergeAll(c, Empty(fabric), ys)) == ViewOf(MergeAll(c, Empty(fabric), xs))
      {
        SameFactsSameView(c, fabric, xs, ys);
      }
    } else {
      var f, g :| f in facts && g in facts && f.kind == Genesis && g.kind == Genesis && f != g;
      var sf :| sf in xs && Acceptable(c, fabric, sf) && sf.fact == f;
      var sg :| sg in xs && Acceptable(c, fabric, sg) && sg.fact == g;
      FirstGenesisWins(c, fabric, sf, xs);
      FirstGenesisWins(c, fabric, sg, xs);
      assert ValidFacts(c, fabric, [sf] + xs) == facts;
      assert ValidFacts(c, fabric, [sg] + xs) == facts;
      assert IdOf(c, f) != IdOf(c, g);
    }
  }

  /** Only the id-to-fact map converges: of two valid signatures on one fact the
      first delivered is kept and the other is quarantined as a collision. */
  lemma FirstSignatureWins(c: Crypto, fabric: Bytes32, a: SignedFact, b: SignedFact)
    requires Acceptable(c, fabric, a) && Acceptable(c, fabric, b) && a.fact == b.fact && a.signature != b.signature
    ensures var s := MergeAll(c, Empty(fabric), [a]);
      && Insert(c, s, b).1.Quarantined?
      && MergeAll(c, Empty(fabric), [a, b]) != MergeAll(c, Empty(fabric), [b, a])
  {
    hide Verifies, IdOf;
    var id := IdOf(c, a.fact);
    var sa, sb := Insert(c, Empty(fabric), a).0, Insert(c, Empty(fabric), b).0;
    assert sa.facts[id] == a && sb.facts[id] == b;
    assert [a, b][1..] == [b] && [b, a][1..] == [a];
    assert [a][1..] == [] && [b][1..] == [];
    assert MergeAll(c, Empty(fabric), [a]) == MergeAll(c, sa, []);
    assert MergeAll(c, sa, [b]) == MergeAll(c, Insert(c, sa, b).0, []);
    assert MergeAll(c, sb, [a]) == MergeAll(c, Insert(c, sb, a).0, []);
  }

  // ---- Convergence of the signed state -------------------------------------------------------

  ghost function ValidSigned(c: Crypto, fabric: Bytes32, fs: seq<SignedFact>): set<SignedFact> {
    set sf | sf in fs && Acceptable(c, fabric, sf)
  }

  ghost predicate OneSignature(sfs: set<SignedFact>) {
    forall a, b :: a in sfs && b in sfs && a.fact == b.fact ==> a == b
  }

  /** Every order, batching and duplication of the same acceptable signed facts gives the
      whole state that `xs` gives, signatures included. */
  ghost predicate SignedOrderIrrelevant(c: Crypto, fabric: Bytes32, xs: seq<SignedFact>) {
    forall batches :: ValidSigned(c, fabric, Flatten(batches)) == ValidSigned(c, fabric, xs) ==>
      MergeBatches(c, Empty(fabric), batches) == MergeAll(c, Empty(fabric), xs)
  }

  lemma SameSignedSameFacts(c: Crypto, fabric: Bytes32, xs: seq<SignedFact>, ys: seq<SignedFact>)
    requires ValidSigned(c, fabric, xs) == ValidSigned(c, fabric, ys)
    ensures ValidFacts(c, fabric, xs) == ValidFacts(c, fabric, ys)
  {
    hide Acceptable;
    forall f | f in ValidFacts(c, fabric, xs) ensures f in ValidFacts(c, fabric, ys) {
      var sf :| sf in xs && Acceptable(c, fabric, sf) && sf.fact == f;
      assert sf in ValidSigned(c, fabric, xs);
      assert sf in ys;
    }
    forall f | f in ValidFacts(c, fabric, ys) ensures f in ValidFacts(c, fabric, xs) {
      var sf :| sf in ys && Acceptable(c, fabric, sf) && sf.fact == f;
      assert sf in ValidSigned(c, fabric, ys);
      assert sf in xs;
    }
  }

  /** What a run from an empty roster stores is among the acceptable deliveries. */
  lemma StoredIsValid(c: Crypto, fabric: Bytes32, fs: seq<SignedFact>, id: FactId)
    requires id in MergeAll(c, Empty(fabric), fs).facts
    ensures MergeAll(c, Empty(fabric), fs).facts[id] in ValidSigned(c, fabric, fs)
  {
    hide MergeAll, Insert, IdOf, Verifies, ShapeOk;
    RunKeeps(c, Empty(fabric), fs);
    StoredWasDelivered(c, Empty(fabric), fs, id);
  }

  lemma SameSignedSameState(c: Crypto, fabric: Bytes32, xs: seq<SignedFact>, ys: seq<SignedFact>)
    requires ValidSigned(c, fabric, xs) == ValidSigned(c, fabric, ys)
    requires OneGenesis(ValidFacts(c, fabric, xs)) && OneSignature(ValidSigned(c, fabric, xs))
    requires CollisionFree(c, ValidFacts(c, fabric, xs))
    ensures MergeAll(c, Empty(fabric), xs) == MergeAll(c, Empty(fabric), ys)
  {
    assert Good(c, Empty(fabric));
    hide MergeAll, ValidSigned, ValidFacts, OneGenesis, CollisionFree, Good;
    SameSignedSameFacts(c, fabric, xs, ys);
    SameFactsSameView(c, fabric, xs, ys);
    RunKeeps(c, Empty(fabric), xs);
    RunKeeps(c, Empty(fabric), ys);
    var r, q := MergeAll(c, Empty(fabric), xs), MergeAll(c, Empty(fabric), ys);
    assert ViewOf(r) == ViewOf(q);
    assert forall id :: id in r.facts <==> id in ViewOf(r).facts;
    assert forall id :: id in q.facts <==> id in ViewOf(q).facts;
    forall id | id in r.facts ensures r.facts[id] == q.facts[id] {
      assert ViewOf(r).facts[id] == ViewOf(q).facts[id];
      StoredIsValid(c, fabric, xs, id);
      StoredIsValid(c, fabric, ys, id);
    }
  }

  /** Of two valid signatures on one fact the one delivered first is stored for good. */
  lemma FirstDeliveredIsStored(c: Crypto, fabric: Bytes32, a: SignedFact, fs: seq<SignedFact>)
    requires Acceptable(c, fabric, a)
    ensures var r := MergeAll(c, Empty(fabric), [a] + fs); IdOf(c, a.fact) in r.facts && r.facts[IdOf(c, a.fact)] == a
  {
    hide IdOf, Verifies, ShapeOk;
    var s1 := Insert(c, Empty(fabric), a).0;
    assert ([a] + fs)[0] == a && ([a] + fs)[1..] == fs;
    InsertKeeps(c, Empty(fabric), a);
    RunKeeps(c, s1, fs);
  }

  lemma AheadChangesNoSet(c: Crypto, fabric: Bytes32, a: SignedFact, xs: seq<SignedFact>)
    requires a in xs
    ensures ValidSigned(c, fabric, Flatten([[a] + xs])) == ValidSigned(c, fabric, xs)
    ensures MergeBatches(c, Empty(fabric), [[a] + xs]) == MergeAll(c, Empty(fabric), [a] + xs)
  {
    hide Acceptable, MergeAll;
    var ys := [a] + xs;
    assert [ys][1..] == [];
    assert Flatten([ys]) == ys + Flatten([]) == ys;
    assert MergeBatches(c, MergeAll(c, Empty(fabric), ys), []) == MergeAll(c, Empty(fabric), ys);
  }

  lemma SignedConverges(c: Crypto, fabric: Bytes32, xs: seq<SignedFact>)
    requires CollisionFree(c, ValidFacts(c, fabric, xs))
    requires OneGenesis(ValidFacts(c, fabric, xs)) && OneSignature(ValidSigned(c, fabric, xs))
    ensures SignedOrderIrrelevant(c, fabric, xs)
  {
    hide MergeAll, MergeBatches, Flatten, CollisionFree, OneGenesis, OneSignature, ValidSigned, ValidFacts;
    forall batches | ValidSigned(c, fabric, Flatten(batches)) == ValidSigned(c, fabric, xs)
      ensures MergeBatches(c, Empty(fabric), batches) == MergeAll(c, Empty(fabric), xs)
    {
      BatchesAreOneMerge(c, Empty(fabric), batches);
      SameSignedSameState(c, fabric, xs, Flatten(batches));
    }
  }

  /** Of two different deliveries ahead of the rest, the order shows if the first decides. */
  lemma OrderShows(c: Crypto, fabric: Bytes32, a: SignedFact, b: SignedFact, xs: seq<SignedFact>)
    requires a in xs && b in xs
    requires MergeAll(c, Empty(fabric), [a] + xs) != MergeAll(c, Empty(fabric), [b] + xs)
    ensures !SignedOrderIrrelevant(c, fabric, xs)
  {
    hide MergeAll, Flatten, MergeBatches, Acceptable;
    AheadChangesNoSet(c, fabric, a, xs);
    AheadChangesNoSet(c, fabric, b, xs);
  }

  lemma TwoSignaturesDiffer(c: Crypto, fabric: Bytes32, xs: seq<SignedFact>)
    requires CollisionFree(c, ValidFacts(c, fabric, xs)) && !OneSignature(ValidSigned(c, fabric, xs))
    ensures !SignedOrderIrrelevant(c, fabric, xs)
  {
    hide MergeAll, Acceptable, IdOf, SignedOrderIrrelevant;
    var a, b :| a in ValidSigned(c, fabric, xs) && b in ValidSigned(c, fabric, xs) && a.fact == b.fact && a != b;
    FirstDeliveredIsStored(c, fabric, a, xs);
    FirstDeliveredIsStored(c, fabric, b, xs);
    OrderShows(c, fabric, a, b, xs);
  }

  lemma TwoGenesesDiffer(c: Crypto, fabric: Bytes32, xs: seq<SignedFact>)
    requires CollisionFree(c, ValidFacts(c, fabric, xs)) && !OneGenesis(ValidFacts(c, fabric, xs))
    ensures !SignedOrderIrrelevant(c, fabric, xs)
  {
    hide MergeAll, Acceptable, IdOf, SignedOrderIrrelevant;
    var f, g :| f in ValidFacts(c, fabric, xs) && g in ValidFacts(c, fabric, xs) && f.kind == Genesis && g.kind == Genesis && f != g;
    var sf :| sf in xs && Acceptable(c, fabric, sf) && sf.fact == f;
    var sg :| sg in xs && Acceptable(c, fabric, sg) && sg.fact == g;
    FirstGenesisWins(c, fabric, sf, xs);
    FirstGenesisWins(c, fabric, sg, xs);
    OrderShows(c, fabric, sf, sg, xs);
  }

  /** The whole signed state, as it is persisted, is the same in every order, batching and
      duplication exactly when the acceptable signed facts hold at most one Genesis and
      at most one signature for each fact. */
  lemma SignedConvergesExactly(c: Crypto, fabric: Bytes32, xs: seq<SignedFact>)
    requires CollisionFree(c, ValidFacts(c, fabric, xs))
    ensures SignedOrderIrrelevant(c, fabric, xs)
       <==> OneGenesis(ValidFacts(c, fabric, xs)) && OneSignature(ValidSigned(c, fabric, xs))
  {
    hide SignedOrderIrrelevant, OneGenesis, OneSignature, ValidFacts, ValidSigned, CollisionFree;
    if !OneSignature(ValidSigned(c, fabric, xs)) {
      TwoSignaturesDiffer(c, fabric, xs);
    } else if !OneGenesis(ValidFacts(c, fabric, xs)) {
      TwoGenesesDiffer(c, fabric, xs);
    } else {
      SignedConverges(c, fabric, xs);
    }
  }
}
