/** The REDEEM_OK2 receipt: the roster dump followed by the capabilities minted for
    the redeemer, and the joiner's skip-and-count reading of it. */
module Receipt {
  import opened Bytes
  import opened Facts
  import opened FactFrames
  import Frames
  import InviteV2
  import RelayCap

  datatype Item = Item(url: bytes, cap: bytes)

  datatype Caps = Caps(items: seq<Item>, duplicate: nat, malformed: nat, notRecipient: nat)

  datatype ReceiptV2 = ReceiptV2(facts: seq<SignedFact>, caps: Caps)

  const MAX_ITEMS: nat := 8
  const MAX_ITEM_BYTES: nat := 512
  const MAX_FACTS: nat := 10_000
  const REDEEM_OK2: byte := 0x15
  const MEMBER_CAPS: byte := 1
  const MEMBER_CAP_TTL_MS: nat := 90 * 24 * 60 * 60 * 1000

  // "http://"
  const HTTP: bytes := [0x68, 0x74, 0x74, 0x70, 0x3a, 0x2f, 0x2f]

  // "https://"
  const HTTPS: bytes := [0x68, 0x74, 0x74, 0x70, 0x73, 0x3a, 0x2f, 0x2f]

  // ---- Writing ---------------------------------------------------------------------------

  function ItemPart(x: Item): bytes {
    String16(x.url) + String16(x.cap)
  }

  function FirstEight(xs: seq<Item>): (r: seq<Item>)
    ensures r <= xs && |r| == if |xs| <= MAX_ITEMS then |xs| else MAX_ITEMS
  {
    if |xs| <= MAX_ITEMS then xs else xs[..MAX_ITEMS]
  }

  function Segment(xs: seq<Item>): bytes {
    U32Bytes(|FirstEight(xs)|) + WriteMany(ItemPart, FirstEight(xs))
  }

  /** `encode_ok2_cap_segment`. */
  method EncodeSegment(caps: seq<Item>) returns (out: bytes)
    ensures out == Segment(caps)
  {
    hide U16Bytes, U32Bytes, WriteMany;
    var n := if |caps| < MAX_ITEMS then |caps| else MAX_ITEMS;
    out := U32Bytes(n);
    ghost var head := out;
    WriteManyNone(ItemPart);
    assert caps[..0] == [];
    for i := 0 to n
      invariant out == head + WriteMany(ItemPart, caps[..i])
    {
      var x := caps[i];
      WriteManyMore(ItemPart, caps[..i], x);
      assert caps[..i + 1] == caps[..i] + [x];
      Assoc(head, WriteMany(ItemPart, caps[..i]), ItemPart(x));
      ghost var before := out;
      out := out + U16Bytes(|x.url| % 0x1_0000);
      out := out + x.url;
      out := out + U16Bytes(|x.cap| % 0x1_0000);
      out := out + x.cap;
      assert out == before + ItemPart(x);
    }
    assert caps[..n] == FirstEight(caps);
  }

  // ---- Reading: the grammar ----------------------------------------------------------------

  predicate HttpUrl(u: bytes) {
    HTTP <= u || HTTPS <= u
  }

  predicate ItemOk(x: Item) {
    |x.url| <= MAX_ITEM_BYTES && Utf8(x.url) && HttpUrl(x.url) && |x.cap| <= MAX_ITEM_BYTES
  }

  predicate ItemsOk(xs: seq<Item>) {
    forall i :: 0 <= i < |xs| ==> ItemOk(xs[i])
  }

  function ParseItem(b: bytes): Parsed<Item> {
    match TakeString16(b, MAX_ITEM_BYTES)
    case Fail => Fail
    case Got(url, b1) =>
      if !Utf8(url) || !HttpUrl(url) then Fail
      else
        match TakeString16(b1, MAX_ITEM_BYTES)
        case Fail => Fail
        case Got(cap, rest) => Got(Item(url, cap), rest)
  }

  /** The declared items and nothing after them. */
  function ParseSegment(b: bytes): Option<seq<Item>> {
    match TakeU32(b)
    case Fail => None
    case Got(n, b1) =>
      if n > MAX_ITEMS then None
      else
        match ParseMany(ParseItem, b1, n)
        case Fail => None
        case Got(xs, rest) => if rest == [] then Some(xs) else None
  }

  lemma ItemReads(x: Item)
    requires ItemOk(x)
    ensures ReadsAs(ParseItem, ItemPart, x, x)
  {
    hide String16, Utf8, TakeString16, HttpUrl;
    forall tail: bytes
      ensures ParseItem(ItemPart(x) + tail) == Got(x, tail)
    {
      Assoc(String16(x.url), String16(x.cap), tail);
      TakeString16Written(x.url, MAX_ITEM_BYTES, String16(x.cap) + tail);
      TakeString16Written(x.cap, MAX_ITEM_BYTES, tail);
    }
  }

  lemma ItemsWritten(xs: seq<Item>, tail: bytes)
    requires ItemsOk(xs)
    ensures ParseMany(ParseItem, WriteMany(ItemPart, xs) + tail, |xs|) == Got(xs, tail)
  {
    hide ItemPart, ParseItem, ItemOk, ReadsAs;
    forall i | 0 <= i < |xs|
      ensures ReadsAs(ParseItem, ItemPart, xs[i], xs[i])
    {
      ItemReads(xs[i]);
    }
    ManyWritten(ParseItem, ItemPart, xs, xs, tail);
  }

  lemma ItemRead(b: bytes)
    requires ParseItem(b).Got?
    ensures var r := ParseItem(b); ItemOk(r.value) && b == ItemPart(r.value) + r.rest
  {
    hide String16, Utf8, HttpUrl;
    var r := ParseItem(b);
    Assoc(String16(r.value.url), String16(r.value.cap), r.rest);
  }

  lemma ItemsRead(b: bytes, n: nat)
    requires ParseMany(ParseItem, b, n).Got?
    ensures var r := ParseMany(ParseItem, b, n); ItemsOk(r.value) && b == WriteMany(ItemPart, r.value) + r.rest
  {
    hide ItemPart, ParseItem, ItemOk, ParseMany, WriteMany;
    forall x: bytes | ParseItem(x).Got?
      ensures ItemOk(ParseItem(x).value) && x == ItemPart(ParseItem(x).value) + ParseItem(x).rest
    {
      ItemRead(x);
    }
    ManyRead(ParseItem, ItemPart, ItemOk, b, n);
  }

  /** A tail is accepted as a segment exactly when it is the writing of at most eight
      well-formed items, to the last byte. */
  lemma SegmentExactly(b: bytes, xs: seq<Item>)
    ensures ParseSegment(b) == Some(xs) <==> |xs| <= MAX_ITEMS && ItemsOk(xs) && Segment(xs) == b
  {
    hide U32Bytes, TakeU32, ItemPart, ParseItem, WriteMany, ParseMany, ItemsOk;
    if ParseSegment(b) == Some(xs) {
      var b1 := TakeU32(b).rest;
      ItemsRead(b1, |xs|);
      assert WriteMany(ItemPart, xs) + [] == WriteMany(ItemPart, xs);
    }
    if |xs| <= MAX_ITEMS && ItemsOk(xs) && Segment(xs) == b {
      TakeU32Written(|xs|, WriteMany(ItemPart, xs));
      ItemsWritten(xs, []);
      assert WriteMany(ItemPart, xs) + [] == WriteMany(ItemPart, xs);
    }
  }

  // ---- Skip and count ------------------------------------------------------------------------

  datatype Verdict = Malformed | NotRecipient | Usable

  function Judge(c: Crypto, cap: bytes, redeemer: Key): Verdict {
    if !Utf8(cap) then Malformed
    else
      match RelayCap.Decode(c, cap)
      case None => Malformed
      case Some(k) => if k.recipient != redeemer then NotRecipient else Usable
  }

  predicate HasUrl(xs: seq<Item>, url: bytes) {
    exists i :: 0 <= i < |xs| && xs[i].url == url
  }

  function Count(c: Crypto, acc: Caps, x: Item, redeemer: Key): Caps {
    match Judge(c, x.cap, redeemer)
    case Malformed => acc.(malformed := acc.malformed + 1)
    case NotRecipient => acc.(notRecipient := acc.notRecipient + 1)
    case Usable =>
      if HasUrl(acc.items, x.url) then acc.(duplicate := acc.duplicate + 1)
      else acc.(items := acc.items + [x])
  }

  function Accept(c: Crypto, xs: seq<Item>, redeemer: Key): Caps
    decreases |xs|
  {
    if xs == [] then Caps([], 0, 0, 0)
    else Count(c, Accept(c, xs[..|xs| - 1], redeemer), xs[|xs| - 1], redeemer)
  }

  function ReadSegment(c: Crypto, b: bytes, redeemer: Key): Option<Caps> {
    match ParseSegment(b) case None => None case Some(xs) => Some(Accept(c, xs, redeemer))
  }

  /** The item at `i` is usable and no usable item before it names its URL. */
  predicate IsFirst(c: Crypto, xs: seq<Item>, i: nat, redeemer: Key)
    requires i < |xs|
  {
    && Judge(c, xs[i].cap, redeemer) == Usable
    && forall j :: 0 <= j < i && Judge(c, xs[j].cap, redeemer) == Usable ==> xs[j].url != xs[i].url
  }

  /** The first usable item of every URL, in order, among the first `n`. */
  function Firsts(c: Crypto, xs: seq<Item>, n: nat, redeemer: Key): seq<Item>
    requires n <= |xs|
    decreases n
  {
    if n == 0 then []
    else Firsts(c, xs, n - 1, redeemer) + (if IsFirst(c, xs, n - 1, redeemer) then [xs[n - 1]] else [])
  }

  predicate Distinct(xs: seq<Item>) {
    forall i, j :: 0 <= i < j < |xs| ==> xs[i].url != xs[j].url
  }

  lemma {:induction false} FirstsHave(c: Crypto, xs: seq<Item>, n: nat, redeemer: Key, url: bytes)
    requires n <= |xs|
    ensures HasUrl(Firsts(c, xs, n, redeemer), url)
       <==> exists j :: 0 <= j < n && Judge(c, xs[j].cap, redeemer) == Usable && xs[j].url == url
    decreases n
  {
    hide Judge;
    if n > 0 {
      FirstsHave(c, xs, n - 1, redeemer, url);
      var before := Firsts(c, xs, n - 1, redeemer);
      var now := Firsts(c, xs, n, redeemer);
      assert forall i :: 0 <= i < |before| ==> now[i] == before[i];
      if HasUrl(before, url) {
        var i :| 0 <= i < |before| && before[i].url == url;
        assert now[i].url == url;
      } else if IsFirst(c, xs, n - 1, redeemer) && xs[n - 1].url == url {
        assert now[|before|].url == url;
      }
    }
  }

  lemma {:induction false} FirstsPrefix(c: Crypto, xs: seq<Item>, ys: seq<Item>, n: nat, redeemer: Key)
    requires n <= |xs| <= |ys| && ys[..|xs|] == xs
    ensures Firsts(c, xs, n, redeemer) == Firsts(c, ys, n, redeemer)
    decreases n
  {
    hide Judge;
    if n > 0 {
      FirstsPrefix(c, xs, ys, n - 1, redeemer);
      assert forall j :: 0 <= j < n ==> xs[j] == ys[..|xs|][j] == ys[j];
    }
  }

  /** The accepted items are precisely the first occurrences per URL, in order, of the
      well-formed capabilities bound to the redeemer. */
  lemma {:induction false} AcceptsTheFirsts(c: Crypto, xs: seq<Item>, redeemer: Key)
    ensures Accept(c, xs, redeemer).items == Firsts(c, xs, |xs|, redeemer)
    decreases |xs|
  {
    hide Judge, HasUrl;
    if xs != [] {
      var n := |xs| - 1;
      var front := xs[..n];
      AcceptsTheFirsts(c, front, redeemer);
      FirstsPrefix(c, front, xs, n, redeemer);
      FirstsHave(c, xs, n, redeemer, xs[n].url);
    }
  }

  /** Every declared item is accepted or counted under exactly one heading. */
  lemma {:induction false} CountsAddUp(c: Crypto, xs: seq<Item>, redeemer: Key)
    ensures
      var r := Accept(c, xs, redeemer);
      |r.items| + r.duplicate + r.malformed + r.notRecipient == |xs|
    decreases |xs|
  {
    hide Judge, HasUrl;
    if xs != [] {
      CountsAddUp(c, xs[..|xs| - 1], redeemer);
    }
  }

  /** The capability of the item decodes to one for `k`. */
  predicate IsFor(c: Crypto, x: Item, k: Key) {
    Utf8(x.cap) && RelayCap.Decode(c, x.cap).Some? && RelayCap.Decode(c, x.cap).value.recipient == k
  }

  /** The capability of the item is no text or does not decode. */
  predicate IsMalformed(c: Crypto, x: Item) {
    !Utf8(x.cap) || RelayCap.Decode(c, x.cap).None?
  }

  /** The capability of the item decodes to one for somebody else. */
  predicate IsForeign(c: Crypto, x: Item, k: Key) {
    Utf8(x.cap) && RelayCap.Decode(c, x.cap).Some? && RelayCap.Decode(c, x.cap).value.recipient != k
  }

  /** The item is for the redeemer and names again the URL of an earlier one for it. */
  predicate Repeats(c: Crypto, xs: seq<Item>, i: nat, redeemer: Key)
    requires i < |xs|
  {
    IsFor(c, xs[i], redeemer) && exists j :: 0 <= j < i && IsFor(c, xs[j], redeemer) && xs[j].url == xs[i].url
  }

  function MalformedAt(c: Crypto, xs: seq<Item>): set<nat> {
    set i: nat | 0 <= i < |xs| && IsMalformed(c, xs[i])
  }

  function ForeignAt(c: Crypto, xs: seq<Item>, redeemer: Key): set<nat> {
    set i: nat | 0 <= i < |xs| && IsForeign(c, xs[i], redeemer)
  }

  function RepeatedAt(c: Crypto, xs: seq<Item>, redeemer: Key): set<nat> {
    set i: nat | 0 <= i < |xs| && Repeats(c, xs, i, redeemer)
  }

  /** One more position, counted or not. */
  lemma CountMore(before: set<nat>, now: set<nat>, n: nat, counted: bool)
    requires n !in before && forall i :: i in now <==> i in before || (i == n && counted)
    ensures |now| == |before| + (if counted then 1 else 0)
  {
    assert now == if counted then before + {n} else before;
  }

  lemma MalformedMore(c: Crypto, xs: seq<Item>)
    requires xs != []
    ensures
      var n := |xs| - 1;
      |MalformedAt(c, xs)| == |MalformedAt(c, xs[..n])| + (if IsMalformed(c, xs[n]) then 1 else 0)
  {
    hide IsMalformed;
    var n := |xs| - 1;
    CountMore(MalformedAt(c, xs[..n]), MalformedAt(c, xs), n, IsMalformed(c, xs[n]));
  }

  lemma ForeignMore(c: Crypto, xs: seq<Item>, redeemer: Key)
    requires xs != []
    ensures
      var n := |xs| - 1;
      |ForeignAt(c, xs, redeemer)| == |ForeignAt(c, xs[..n], redeemer)| + (if IsForeign(c, xs[n], redeemer) then 1 else 0)
  {
    hide IsForeign;
    var n := |xs| - 1;
    CountMore(ForeignAt(c, xs[..n], redeemer), ForeignAt(c, xs, redeemer), n, IsForeign(c, xs[n], redeemer));
  }

  lemma RepeatsSame(c: Crypto, xs: seq<Item>, n: nat, redeemer: Key)
    requires n <= |xs|
    ensures forall i :: 0 <= i < n ==> Repeats(c, xs[..n], i, redeemer) == Repeats(c, xs, i, redeemer)
  {
    hide IsFor;
    assert forall i :: 0 <= i < n ==> xs[..n][i] == xs[i];
  }

  lemma RepeatedMore(c: Crypto, xs: seq<Item>, redeemer: Key)
    requires xs != []
    ensures
      var n := |xs| - 1;
      |RepeatedAt(c, xs, redeemer)| == |RepeatedAt(c, xs[..n], redeemer)| + (if Repeats(c, xs, n, redeemer) then 1 else 0)
  {
    hide Repeats;
    var n := |xs| - 1;
    RepeatsSame(c, xs, n, redeemer);
    CountMore(RepeatedAt(c, xs[..n], redeemer), RepeatedAt(c, xs, redeemer), n, Repeats(c, xs, n, redeemer));
  }

  lemma JudgedBy(c: Crypto, x: Item, redeemer: Key)
    ensures Judge(c, x.cap, redeemer) == Usable <==> IsFor(c, x, redeemer)
    ensures Judge(c, x.cap, redeemer) == Malformed <==> IsMalformed(c, x)
    ensures Judge(c, x.cap, redeemer) == NotRecipient <==> IsForeign(c, x, redeemer)
  {
    hide RelayCap.Decode, Utf8;
  }

  /** Each counter counts what it is called: the items whose capability is malformed,
      those whose capability is for somebody else, and those that repeat a URL. */
  lemma {:induction false} CountersMean(c: Crypto, xs: seq<Item>, redeemer: Key)
    ensures
      var r := Accept(c, xs, redeemer);
      && r.malformed == |MalformedAt(c, xs)|
      && r.notRecipient == |ForeignAt(c, xs, redeemer)|
      && r.duplicate == |RepeatedAt(c, xs, redeemer)|
    decreases |xs|
  {
    hide Judge, HasUrl, IsFor, IsMalformed, IsForeign, MalformedAt, ForeignAt, RepeatedAt, Repeats;
    if xs == [] {
      NothingCounted(c, redeemer);
    } else {
      var n := |xs| - 1;
      CountersMean(c, xs[..n], redeemer);
      MalformedMore(c, xs);
      ForeignMore(c, xs, redeemer);
      RepeatedMore(c, xs, redeemer);
      JudgedBy(c, xs[n], redeemer);
      SeenBefore(c, xs, redeemer);
    }
  }

  lemma NothingCounted(c: Crypto, redeemer: Key)
    ensures MalformedAt(c, []) == {} && ForeignAt(c, [], redeemer) == {} && RepeatedAt(c, [], redeemer) == {}
  {
  }

  /** The last item's URL is among those accepted so far exactly when it repeats one. */
  lemma SeenBefore(c: Crypto, xs: seq<Item>, redeemer: Key)
    requires xs != []
    ensures
      var n := |xs| - 1;
      Judge(c, xs[n].cap, redeemer) == Usable ==>
        (HasUrl(Accept(c, xs[..n], redeemer).items, xs[n].url) <==> Repeats(c, xs, n, redeemer))
    ensures Judge(c, xs[|xs| - 1].cap, redeemer) != Usable ==> !Repeats(c, xs, |xs| - 1, redeemer)
  {
    hide Judge, HasUrl, IsFor, Firsts, Accept;
    var n := |xs| - 1;
    var front := xs[..n];
    AcceptsTheFirsts(c, front, redeemer);
    FirstsHave(c, front, n, redeemer, xs[n].url);
    forall j | 0 <= j <= n
      ensures Judge(c, xs[j].cap, redeemer) == Usable <==> IsFor(c, xs[j], redeemer)
    {
      JudgedBy(c, xs[j], redeemer);
    }
  }

  /** No URL is accepted twice, and what is accepted was declared and is usable. */
  lemma {:induction false} AcceptedAreDistinct(c: Crypto, xs: seq<Item>, redeemer: Key)
    ensures
      var r := Accept(c, xs, redeemer).items;
      && Distinct(r)
      && forall i :: 0 <= i < |r| ==> r[i] in xs && Judge(c, r[i].cap, redeemer) == Usable
    decreases |xs|
  {
    hide Judge;
    if xs != [] {
      var front := xs[..|xs| - 1];
      AcceptedAreDistinct(c, front, redeemer);
      assert forall x :: x in front ==> x in xs;
    }
  }

  lemma {:induction false} UsableAreAccepted(c: Crypto, xs: seq<Item>, redeemer: Key)
    requires Distinct(xs) && forall i :: 0 <= i < |xs| ==> Judge(c, xs[i].cap, redeemer) == Usable
    ensures Accept(c, xs, redeemer) == Caps(xs, 0, 0, 0)
    decreases |xs|
  {
    hide Judge;
    if xs != [] {
      UsableAreAccepted(c, xs[..|xs| - 1], redeemer);
      assert xs == xs[..|xs| - 1] + [xs[|xs| - 1]];
    }
  }

  lemma {:induction false} NoSkipNoLoss(c: Crypto, xs: seq<Item>, redeemer: Key)
    requires var r := Accept(c, xs, redeemer); r.duplicate + r.malformed + r.notRecipient == 0
    ensures Accept(c, xs, redeemer).items == xs
    decreases |xs|
  {
    hide Judge, HasUrl;
    if xs != [] {
      NoSkipNoLoss(c, xs[..|xs| - 1], redeemer);
      assert xs == xs[..|xs| - 1] + [xs[|xs| - 1]];
    }
  }

  /** Nothing is skipped exactly when every item is usable and the URLs differ; then
      every item is accepted. */
  lemma NothingSkippedExactly(c: Crypto, xs: seq<Item>, redeemer: Key)
    ensures Accept(c, xs, redeemer) == Caps(xs, 0, 0, 0)
       <==> Distinct(xs) && forall i :: 0 <= i < |xs| ==> Judge(c, xs[i].cap, redeemer) == Usable
    ensures var r := Accept(c, xs, redeemer);
      r.duplicate + r.malformed + r.notRecipient == 0 ==> r.items == xs
  {
    hide Judge, Accept, Distinct;
    var r := Accept(c, xs, redeemer);
    if r.duplicate + r.malformed + r.notRecipient == 0 {
      NoSkipNoLoss(c, xs, redeemer);
      AcceptedAreDistinct(c, xs, redeemer);
    }
    if Distinct(xs) && forall i :: 0 <= i < |xs| ==> Judge(c, xs[i].cap, redeemer) == Usable {
      UsableAreAccepted(c, xs, redeemer);
    }
  }

  // ---- Reading: the code ---------------------------------------------------------------------

  method ReadItem(b: bytes, start: nat) returns (ok: bool, item: Item, off: nat)
    requires start <= |b|
    ensures off <= |b|
    ensures ParseItem(b[start..]) == if ok then Got(item, b[off..]) else Fail
  {
    hide TakeString16, Utf8;
    item := Item([], []);
    var url;
    ok, url, off := ReadString16(b, start, MAX_ITEM_BYTES);
    if !ok { return; }
    if !Utf8(url) { return false, item, off; }
    if !(HTTP <= url || HTTPS <= url) { return false, item, off; }
    var cap;
    ok, cap, off := ReadString16(b, off, MAX_ITEM_BYTES);
    if !ok { return; }
    return true, Item(url, cap), off;
  }

  lemma AcceptNone(c: Crypto, redeemer: Key)
    ensures Accept(c, [], redeemer) == Caps([], 0, 0, 0)
  {
  }

  lemma AcceptMore(c: Crypto, xs: seq<Item>, x: Item, redeemer: Key)
    ensures Accept(c, xs + [x], redeemer) == Count(c, Accept(c, xs, redeemer), x, redeemer)
  {
    hide Judge, HasUrl;
    assert (xs + [x])[..|xs|] == xs;
  }

  /** `parse_ok2_caps`: one pass that reads, judges and counts. */
  method ParseCaps(c: Crypto, tail: bytes, redeemer: Key) returns (r: Option<Caps>)
    ensures r == ReadSegment(c, tail, redeemer)
  {
    hide U32Of, ParseItem, Judge, HasUrl, Accept;
    if |tail| < 4 { return None; }
    var count := U32Of(tail[..4]);
    if count > MAX_ITEMS { return None; }
    var off := 4;
    var out := Caps([], 0, 0, 0);
    ghost var read: seq<Item> := [];
    AcceptNone(c, redeemer);
    PrependNothing(ParseMany(ParseItem, tail[4..], count));
    for i := 0 to count
      invariant off <= |tail|
      invariant ParseMany(ParseItem, tail[4..], count) == Prepend(read, ParseMany(ParseItem, tail[off..], count - i))
      invariant out == Accept(c, read, redeemer)
    {
      var ok, item;
      ok, item, off := ReadItem(tail, off);
      if !ok { return None; }
      PrependMore(read, item, ParseMany(ParseItem, tail[off..], count - i - 1));
      AcceptMore(c, read, item, redeemer);
      read := read + [item];
      out := Count(c, out, item, redeemer);
    }
    assert read + [] == read;
    if off != |tail| { return None; }
    return Some(out);
  }

  // ---- Minting -------------------------------------------------------------------------------

  datatype Restricted = Restricted(url: bytes, server: Bytes32)

  predicate Listed(relays: seq<InviteV2.Relay>, url: bytes) {
    exists i :: 0 <= i < |relays| && relays[i].url == url
  }

  function MintOne(c: Crypto, secret: Bytes32, fabric: Bytes32, x: Restricted, redeemer: Key, now: u64): seq<Item> {
    match RelayCap.SignAndEncode(c, secret, fabric, x.server, redeemer, MEMBER_CAPS, now, SatAdd64(now, MEMBER_CAP_TTL_MS))
    case Err(_) => []
    case Ok(token) => [Item(x.url, token)]
  }

  function Minted(c: Crypto, secret: Bytes32, fabric: Bytes32, rs: seq<Restricted>,
                  redeemer: Key, relays: seq<InviteV2.Relay>, now: u64): seq<Item>
    decreases |rs|
  {
    if rs == [] then []
    else
      var last := rs[|rs| - 1];
      Minted(c, secret, fabric, rs[..|rs| - 1], redeemer, relays, now)
      + (if Listed(relays, last.url) then MintOne(c, secret, fabric, last, redeemer, now) else [])
  }

  /** `mint_for`. */
  method MintFor(c: Crypto, secret: Bytes32, fabric: Bytes32, restricted: seq<Restricted>,
                 redeemer: Key, relays: seq<InviteV2.Relay>, now: u64) returns (out: seq<Item>)
    ensures out == Minted(c, secret, fabric, restricted, redeemer, relays, now)
  {
    hide RelayCap.SignAndEncode, Listed;
    out := [];
    for i := 0 to |restricted|
      invariant out == Minted(c, secret, fabric, restricted[..i], redeemer, relays, now)
    {
      var x := restricted[i];
      assert restricted[..i + 1][..i] == restricted[..i];
      if Listed(relays, x.url) {
        var token := RelayCap.SignAndEncode(c, secret, fabric, x.server, redeemer, MEMBER_CAPS, now, SatAdd64(now, MEMBER_CAP_TTL_MS));
        if token.Ok? {
          out := out + [Item(x.url, token.value)];
        }
      }
    }
    assert restricted[..|restricted|] == restricted;
  }

  /** The restricted relays that the invite lists, in configuration order. */
  function Hits(rs: seq<Restricted>, relays: seq<InviteV2.Relay>): seq<Restricted>
    decreases |rs|
  {
    if rs == [] then []
    else
      var last := rs[|rs| - 1];
      Hits(rs[..|rs| - 1], relays) + (if Listed(relays, last.url) then [last] else [])
  }

  function MemberCap(c: Crypto, secret: Bytes32, fabric: Bytes32, x: Restricted, redeemer: Key, now: u64): RelayCap.RelayCap {
    RelayCap.RelayCap(fabric, x.server, c.publicKey(secret), redeemer, MEMBER_CAPS, now, SatAdd64(now, MEMBER_CAP_TTL_MS))
  }

  /** The hits are the restricted relays whose URL some relay of the invite has, each as
      often as it is configured. */
  lemma {:induction false} HitsMean(rs: seq<Restricted>, relays: seq<InviteV2.Relay>, x: Restricted)
    ensures multiset(Hits(rs, relays))[x]
         == if exists i :: 0 <= i < |relays| && relays[i].url == x.url then multiset(rs)[x] else 0
    decreases |rs|
  {
    if rs != [] {
      HitsMean(rs[..|rs| - 1], relays, x);
      assert rs == rs[..|rs| - 1] + [rs[|rs| - 1]];
    }
  }

  /** ... in the order of the configuration. */
  lemma {:induction false} HitsKeepOrder(rs: seq<Restricted>, more: seq<Restricted>, relays: seq<InviteV2.Relay>)
    ensures Hits(rs + more, relays) == Hits(rs, relays) + Hits(more, relays)
    decreases |more|
  {
    hide Listed;
    if more == [] {
      assert rs + more == rs;
    } else {
      var n := |more| - 1;
      HitsKeepOrder(rs, more[..n], relays);
      assert (rs + more)[..|rs + more| - 1] == rs + more[..n];
    }
  }

  lemma MintOneAlways(c: Crypto, secret: Bytes32, fabric: Bytes32, x: Restricted, redeemer: Key, now: u64)
    requires SignVerifies(c) && c.validKey(redeemer)
    ensures
      var m := MintOne(c, secret, fabric, x, redeemer, now);
      && |m| == 1 && m[0].url == x.url && |m[0].cap| == RelayCap.TOKEN_LEN
      && RelayCap.Decode(c, m[0].cap) == Some(MemberCap(c, secret, fabric, x, redeemer, now))
  {
    var expires := SatAdd64(now, MEMBER_CAP_TTL_MS);
    RelayCap.SignedDecodes(c, secret, fabric, x.server, redeemer, MEMBER_CAPS, now, expires);
  }

  /** A capability is minted for every restricted relay that the invite lists, in order,
      and for no other; each is a member capability of the redeemer for that relay. */
  lemma {:induction false} MintsEveryHit(c: Crypto, secret: Bytes32, fabric: Bytes32, rs: seq<Restricted>,
                                         redeemer: Key, relays: seq<InviteV2.Relay>, now: u64)
    requires SignVerifies(c) && c.validKey(redeemer)
    ensures
      var m := Minted(c, secret, fabric, rs, redeemer, relays, now);
      var h := Hits(rs, relays);
      && |m| == |h|
      && forall i :: 0 <= i < |m| ==>
           && m[i].url == h[i].url && |m[i].cap| == RelayCap.TOKEN_LEN
           && RelayCap.Decode(c, m[i].cap) == Some(MemberCap(c, secret, fabric, h[i], redeemer, now))
    decreases |rs|
  {
    hide MintOne, Listed, RelayCap.Decode;
    if rs != [] {
      MintsEveryHit(c, secret, fabric, rs[..|rs| - 1], redeemer, relays, now);
      MintOneAlways(c, secret, fabric, rs[|rs| - 1], redeemer, now);
    }
  }

  // ---- End to end -----------------------------------------------------------------------------

  /** The issuer's OK2 payload. */
  function WriteReceipt(fs: seq<SignedFact>, caps: seq<Item>): Option<bytes> {
    match EncodeAll(fs) case None => None case Some(dump) => Some(dump + Segment(caps))
  }

  function ReadReceipt(c: Crypto, payload: bytes, redeemer: Key): Option<ReceiptV2> {
    match DecodeAllPrefix(c, payload)
    case Fail => None
    case Got(fs, tail) =>
      if |fs| > MAX_FACTS then None
      else
        match ReadSegment(c, tail, redeemer)
        case None => None
        case Some(caps) => Some(ReceiptV2(fs, caps))
  }

  /** What the joiner gets off the stream when an OK2 frame arrives. */
  function Receive(c: Crypto, stream: bytes, redeemer: Key): Option<ReceiptV2> {
    match Frames.ReadFrame(stream, Frames.MAX_REDEEM_FRAME)
    case Err(_) => None
    case Ok(f) => if f.kind == REDEEM_OK2 then ReadReceipt(c, f.payload, redeemer) else None
  }

  /** A receipt that is read whole, with nothing skipped, is the receipt as written. */
  lemma ReadWhole(c: Crypto, payload: bytes, redeemer: Key, fs: seq<SignedFact>, xs: seq<Item>)
    requires ReadReceipt(c, payload, redeemer) == Some(ReceiptV2(fs, Caps(xs, 0, 0, 0)))
    ensures |fs| <= MAX_FACTS && |xs| <= MAX_ITEMS && ItemsOk(xs) && Distinct(xs)
    ensures WriteReceipt(fs, xs) == Some(payload)
  {
    hide DecodeAllPrefix, EncodeAll, ParseSegment, Segment, Accept, ItemsOk, Distinct, Judge, Sendable;
    var tail := DecodeAllPrefix(c, payload).rest;
    ListRead(c, payload);
    SendableIsRepresentable(c, fs);
    AlwaysWritten(fs, xs);
    assert WriteReceipt(fs, xs) == Some(EncodeAll(fs).value + Segment(xs));
    var read := ParseSegment(tail).value;
    SegmentExactly(tail, read);
    NothingSkippedExactly(c, read, redeemer);
  }

  lemma WrittenRead(c: Crypto, fs: seq<SignedFact>, xs: seq<Item>, redeemer: Key)
    requires AllSendable(c, fs) && |fs| <= MAX_FACTS && |xs| <= MAX_ITEMS && ItemsOk(xs) && Distinct(xs)
    requires forall i :: 0 <= i < |xs| ==> Judge(c, xs[i].cap, redeemer) == Usable
    ensures WriteReceipt(fs, xs).Some?
    ensures ReadReceipt(c, WriteReceipt(fs, xs).value, redeemer) == Some(ReceiptV2(fs, Caps(xs, 0, 0, 0)))
  {
    hide DecodeAllPrefix, EncodeAll, ParseSegment, Segment, Accept, ItemsOk, Distinct, Judge;
    ListWritten(c, fs, Segment(xs));
    SegmentExactly(Segment(xs), xs);
    NothingSkippedExactly(c, xs, redeemer);
  }

  lemma MintedAreUsable(c: Crypto, secret: Bytes32, fabric: Bytes32, rs: seq<Restricted>,
                        redeemer: Key, relays: seq<InviteV2.Relay>, now: u64)
    requires SignVerifies(c) && c.validKey(redeemer)
    ensures
      var m := Minted(c, secret, fabric, rs, redeemer, relays, now);
      forall i :: 0 <= i < |m| ==> Judge(c, m[i].cap, redeemer) == Usable && |m[i].cap| <= MAX_ITEM_BYTES
  {
    hide Minted, RelayCap.Decode, Utf8;
    var m := Minted(c, secret, fabric, rs, redeemer, relays, now);
    MintsEveryHit(c, secret, fabric, rs, redeemer, relays, now);
    forall i | 0 <= i < |m|
      ensures Judge(c, m[i].cap, redeemer) == Usable && |m[i].cap| <= MAX_ITEM_BYTES
    {
      TokenIsUtf8(c, m[i].cap);
    }
  }

  lemma TokenIsUtf8(c: Crypto, s: bytes)
    requires RelayCap.Decode(c, s).Some?
    ensures Utf8(s)
  {
    var payload := s[|RelayCap.PREFIX|..];
    forall i | 0 <= i < |s| ensures s[i] < 0x80 {
      if i < |RelayCap.PREFIX| {
        assert s[i] == s[..|RelayCap.PREFIX|][i] == RelayCap.PREFIX[i];
      } else {
        assert s[i] == payload[i - |RelayCap.PREFIX|];
      }
    }
    AsciiIsUtf8(s);
  }

  predicate UrlsOk(xs: seq<Item>) {
    forall i :: 0 <= i < |xs| ==> |xs[i].url| <= MAX_ITEM_BYTES && Utf8(xs[i].url) && HttpUrl(xs[i].url)
  }

  /** The joiner recovers exactly the facts and all minted capabilities, with no skips,
      exactly when there are at most 10000 facts and at most eight capabilities, their
      URLs are distinct http(s) URLs of at most 512 bytes, and the frame is within the
      joiner's limit. */
  lemma ReceiptArrivesExactly(c: Crypto, secret: Bytes32, fabric: Bytes32, rs: seq<Restricted>, redeemer: Key,
                              relays: seq<InviteV2.Relay>, now: u64, fs: seq<SignedFact>, rest: bytes)
    requires SignVerifies(c) && c.validKey(redeemer) && AllSendable(c, fs)
    ensures
      var m := Minted(c, secret, fabric, rs, redeemer, relays, now);
      && WriteReceipt(fs, m).Some?
      && var p := WriteReceipt(fs, m).value;
         Receive(c, Frames.WriteFrame(REDEEM_OK2, p) + rest, redeemer) == Some(ReceiptV2(fs, Caps(m, 0, 0, 0)))
         <==> |fs| <= MAX_FACTS && |m| <= MAX_ITEMS && UrlsOk(m) && Distinct(m) && 5 + |p| <= Frames.MAX_REDEEM_FRAME
  {
    hide Minted, EncodeAll, Segment, Frames.WriteFrame, Frames.ReadFrame, ReadReceipt, Judge, Distinct, Utf8, HttpUrl;
    var m := Minted(c, secret, fabric, rs, redeemer, relays, now);
    MintedAreUsable(c, secret, fabric, rs, redeemer, relays, now);
    SendableIsRepresentable(c, fs);
    AlwaysWritten(fs, m);
    var p := WriteReceipt(fs, m).value;
    var stream := Frames.WriteFrame(REDEEM_OK2, p) + rest;
    var limit := Frames.MAX_REDEEM_FRAME;
    Frames.FrameRoundTripsExactly(REDEEM_OK2, p, rest, limit);
    if Receive(c, stream, redeemer) == Some(ReceiptV2(fs, Caps(m, 0, 0, 0))) {
      Frames.FrameRead(stream, limit);
      var f := Frames.ReadFrame(stream, limit).value;
      ReadWhole(c, f.payload, redeemer, fs, m);
      assert UrlsOk(m);
      assert f.payload == p;
    }
    if |fs| <= MAX_FACTS && |m| <= MAX_ITEMS && UrlsOk(m) && Distinct(m) && 5 + |p| <= limit {
      assert ItemsOk(m);
      WrittenRead(c, fs, m, redeemer);
      assert Frames.ReadFrame(stream, limit) == Ok(Frames.Frame(REDEEM_OK2, p, rest));
    }
  }

  lemma AlwaysWritten(fs: seq<SignedFact>, xs: seq<Item>)
    requires AllRepresentable(fs)
    ensures WriteReceipt(fs, xs).Some?
  {
  }
}
