/** `SyncMerchantOffersPacket`: the server sends a menu's offers to the
    client field by field, and the client rebuilds them. The byte buffer is
    a sequence of tokens, one per field written; a token's kind stands for
    the width and format of the field (`writeInt`, `writeBoolean`, the item
    stack codec, `writeFloat`, `writeUtf`). */
module SyncOffersPackets {
  import opened Common
  import opened Items
  import opened MultiItemOffers
  import opened MerchantTradeMenus

  datatype Token =
    | IntTok(i: int)
    | BoolTok(b: bool)
    | StackTok(s: Stack)
    | FloatTok(f: real)
    | UtfTok(u: string)

  /** The packet: a container id and the offers. */
  datatype Packet = Packet(containerId: int, offers: seq<Offer>)

  /** A value read from the front of a token sequence, and what is left. */
  datatype Decoded<T> = Decoded(value: T, rest: seq<Token>)

  /** Cost A and the optional cost B as read back, and the multi flag. */
  datatype Header = Header(multi: bool, costA: Cost, costB: Option<Cost>)

  /** The fields every offer carries after its costs. */
  datatype Fields = Fields(result: Stack, uses: int, maxUses: int, xp: int, priceMultiplier: real, demand: int)

  /** The multi-item part: the accepted id list and the display name. */
  datatype MultiPart = MultiPart(ids: seq<string>, name: Option<string>)

  // ---------------------------------------------------------------------
  // Encoding

  /** Each id as a string field, in order. */
  function Utfs(ids: seq<string>): (t: seq<Token>)
    ensures |t| == |ids|
    ensures forall k :: 0 <= k < |ids| ==> t[k] == UtfTok(ids[k])
  {
    seq(|ids|, k requires 0 <= k < |ids| => UtfTok(ids[k]))
  }

  /** Multi flag, cost A's stack, whether cost B is non-empty, and cost B's
      stack only when it is. */
  function EncodeHeader(o: Offer): seq<Token>
  {
    [BoolTok(o.multi.Some?), StackTok(CostStack(o.costA)), BoolTok(!IsEmpty(CostBStack(o)))]
    + (if IsEmpty(CostBStack(o)) then [] else [StackTok(CostBStack(o))])
  }

  /** Result, uses, max uses, xp, price multiplier and demand. */
  function EncodeFields(o: Offer): seq<Token>
  {
    [StackTok(o.result), IntTok(o.uses), IntTok(o.maxUses), IntTok(o.xp), FloatTok(o.priceMultiplier), IntTok(o.demand)]
  }

  /** The id count, the ids, whether there is a display name, and the name
      when there is one. */
  function EncodeMultiPart(m: MultiData): seq<Token>
  {
    [IntTok(|m.acceptedIds|)] + Utfs(m.acceptedIds)
    + (match m.displayName
       case None => [BoolTok(false)]
       case Some(name) => [BoolTok(true), UtfTok(name)])
  }

  /** One offer: header, fields, and the multi-item part for a multi-item
      offer only. */
  function EncodeOffer(o: Offer): seq<Token>
  {
    EncodeHeader(o) + EncodeFields(o) + (if o.multi.Some? then EncodeMultiPart(o.multi.value) else [])
  }

  /** The offers one after another. */
  function EncodeOffers(os: seq<Offer>): seq<Token>
  {
    Concat(os, EncodeOffer)
  }

  /** `encode`: the container id, the offer count, then every offer. */
  function EncodePacket(p: Packet): seq<Token>
  {
    [IntTok(p.containerId), IntTok(|p.offers|)] + EncodeOffers(p.offers)
  }

  // ---------------------------------------------------------------------
  // Decoding

  /** `new ItemCost(stack.getItemHolder().value(), stack.getCount())`: only
      item and count survive. */
  function DecodedCost(s: Stack): (c: Cost)
    ensures !IsEmpty(s) ==> c == Cost(s.item, s.count)
    ensures IsEmpty(s) ==> c == Cost(Air, 0)
  {
    Cost(ItemOf(s), CountOf(s))
  }

  function DecodeHeader(t: seq<Token>): Option<Decoded<Header>>
  {
    if |t| < 3 || !t[0].BoolTok? || !t[1].StackTok? || !t[2].BoolTok? then None
    else if !t[2].b then Some(Decoded(Header(t[0].b, DecodedCost(t[1].s), None), t[3..]))
    else if |t| < 4 || !t[3].StackTok? then None
    else Some(Decoded(Header(t[0].b, DecodedCost(t[1].s), Some(DecodedCost(t[3].s))), t[4..]))
  }

  function DecodeFields(t: seq<Token>): Option<Decoded<Fields>>
  {
    if |t| < 6 || !t[0].StackTok? || !t[1].IntTok? || !t[2].IntTok? || !t[3].IntTok? || !t[4].FloatTok? || !t[5].IntTok? then None
    else Some(Decoded(Fields(t[0].s, t[1].i, t[2].i, t[3].i, t[4].f, t[5].i), t[6..]))
  }

  /** `n` string fields. */
  function DecodeUtfs(t: seq<Token>, n: nat): Option<Decoded<seq<string>>>
  {
    if n == 0 then Some(Decoded([], t))
    else if |t| == 0 || !t[0].UtfTok? then None
    else Prepend([t[0].u], DecodeUtfs(t[1..], n - 1))
  }

  /** A decoded list with `xs` in front of it; failure stays failure. */
  function Prepend<T>(xs: seq<T>, r: Option<Decoded<seq<T>>>): Option<Decoded<seq<T>>>
  {
    match r
    case None => None
    case Some(d) => Some(Decoded(xs + d.value, d.rest))
  }

  /** Nothing in front changes nothing. */
  lemma PrependNothing<T>(r: Option<Decoded<seq<T>>>)
    ensures Prepend([], r) == r
  {
    match r
    case None =>
    case Some(d) => assert [] + d.value == d.value;
  }

  /** A negative id count reads no ids, as a `for` loop up to it would. */
  function DecodeMultiPart(t: seq<Token>): Option<Decoded<MultiPart>>
  {
    if |t| == 0 || !t[0].IntTok? then None
    else match DecodeUtfs(t[1..], Max(0, t[0].i))
      case None => None
      case Some(d) =>
        var r := d.rest;
        if |r| == 0 || !r[0].BoolTok? then None
        else if !r[0].b then Some(Decoded(MultiPart(d.value, None), r[1..]))
        else if |r| < 2 || !r[1].UtfTok? then None
        else Some(Decoded(MultiPart(d.value, Some(r[1].u)), r[2..]))
  }

  /** The offer the client builds. A plain offer takes every field as read.
      A multi-item offer goes through its constructor (no uses, no demand,
      the accepted set resolved again), then has its uses reset and
      increased once per use read: demand is read but dropped. */
  function BuildOffer(h: Header, f: Fields, multi: Option<MultiPart>, resolve: string -> Option<Item>): Offer
  {
    match multi
    case None => Offer(h.costA, h.costB, f.result, f.uses, f.maxUses, f.xp, f.priceMultiplier, f.demand, None)
    case Some(mp) =>
      Offer(h.costA, h.costB, f.result, Max(0, f.uses), f.maxUses, f.xp, f.priceMultiplier, 0,
            Some(MultiData(mp.ids, AcceptedItems(mp.ids, resolve), h.costA.count, mp.name)))
  }

  function DecodeOffer(t: seq<Token>, resolve: string -> Option<Item>): Option<Decoded<Offer>>
  {
    match DecodeHeader(t)
    case None => None
    case Some(h) =>
      match DecodeFields(h.rest)
      case None => None
      case Some(f) =>
        if !h.value.multi then Some(Decoded(BuildOffer(h.value, f.value, None, resolve), f.rest))
        else match DecodeMultiPart(f.rest)
          case None => None
          case Some(m) => Some(Decoded(BuildOffer(h.value, f.value, Some(m.value), resolve), m.rest))
  }

  /** `n` offers one after another. */
  function DecodeOffers(t: seq<Token>, n: nat, resolve: string -> Option<Item>): Option<Decoded<seq<Offer>>>
    decreases n, 1
  {
    if n == 0 then Some(Decoded([], t)) else DecodeFirst(t, n, resolve)
  }

  /** The first of `n > 0` offers, then the others after it. */
  function DecodeFirst(t: seq<Token>, n: nat, resolve: string -> Option<Item>): Option<Decoded<seq<Offer>>>
    requires n > 0
    decreases n, 0
  {
    match DecodeOffer(t, resolve)
    case None => None
    case Some(d) => Prepend([d.value], DecodeOffers(d.rest, n - 1, resolve))
  }

  /** `decode`: container id, offer count, then that many offers (none for
      a negative count). */
  function DecodePacket(t: seq<Token>, resolve: string -> Option<Item>): Option<Decoded<Packet>>
  {
    if |t| < 2 || !t[0].IntTok? || !t[1].IntTok? then None
    else match DecodeOffers(t[2..], Max(0, t[1].i), resolve)
      case None => None
      case Some(d) => Some(Decoded(Packet(t[0].i, d.value), d.rest))
  }

  // ---------------------------------------------------------------------
  // What a round trip gives back

  /** The offer the client ends up with for a sent offer `o`: costs reduced
      to item and count, an empty cost B absent; a plain offer keeps
      everything else; a multi-item offer has its uses clamped at zero, its
      demand zero, its accepted set resolved again and its required count
      taken from cost A. */
  function Received(o: Offer, resolve: string -> Option<Item>): Offer
  {
    var costA := DecodedCost(CostStack(o.costA));
    var costB := if IsEmpty(CostBStack(o)) then None else Some(DecodedCost(CostBStack(o)));
    match o.multi
    case None => Offer(costA, costB, o.result, o.uses, o.maxUses, o.xp, o.priceMultiplier, o.demand, None)
    case Some(m) =>
      Offer(costA, costB, o.result, Max(0, o.uses), o.maxUses, o.xp, o.priceMultiplier, 0,
            Some(MultiData(m.acceptedIds, AcceptedItems(m.acceptedIds, resolve), costA.count, m.displayName)))
  }

  function ReceivedAll(os: seq<Offer>, resolve: string -> Option<Item>): (r: seq<Offer>)
    ensures |r| == |os|
    ensures forall i :: 0 <= i < |os| ==> r[i] == Received(os[i], resolve)
  {
    seq(|os|, i requires 0 <= i < |os| => Received(os[i], resolve))
  }

  /** Costs as a server offer holds them: cost A non-empty, cost B absent
      or non-empty. */
  predicate NormalCosts(o: Offer)
  {
    !IsEmpty(CostStack(o.costA)) && (o.costB.None? || !IsEmpty(CostBStack(o)))
  }

  /** A multi-item offer as its constructor builds it. */
  predicate Constructed(o: Offer, resolve: string -> Option<Item>)
  {
    o.multi.Some? ==>
      && o.multi.value.accepted == AcceptedItems(o.multi.value.acceptedIds, resolve)
      && o.multi.value.requiredCount == o.costA.count
  }

  // ---------------------------------------------------------------------
  // Round trip lemmas

  lemma {:induction false} UtfsRoundTrip(ids: seq<string>, rest: seq<Token>)
    ensures DecodeUtfs(Utfs(ids) + rest, |ids|) == Some(Decoded(ids, rest))
  {
    var t := Utfs(ids) + rest;
    if ids == [] {
      assert t == rest;
    } else {
      assert t[0] == UtfTok(ids[0]);
      assert t[1..] == Utfs(ids[1..]) + rest;
      UtfsRoundTrip(ids[1..], rest);
      assert DecodeUtfs(t, |ids|) == Prepend([ids[0]], DecodeUtfs(t[1..], |ids| - 1));
      assert [ids[0]] + ids[1..] == ids;
    }
  }

  lemma HeaderRoundTrip(o: Offer, rest: seq<Token>)
    ensures DecodeHeader(EncodeHeader(o) + rest) == Some(Decoded(SentHeader(o), rest))
  {
    var t := EncodeHeader(o) + rest;
    if IsEmpty(CostBStack(o)) {
      assert t[3..] == rest;
    } else {
      assert t[4..] == rest;
    }
  }

  lemma FieldsRoundTrip(o: Offer, rest: seq<Token>)
    ensures DecodeFields(EncodeFields(o) + rest)
      == Some(Decoded(Fields(o.result, o.uses, o.maxUses, o.xp, o.priceMultiplier, o.demand), rest))
  {
    assert (EncodeFields(o) + rest)[6..] == rest;
  }

  lemma MultiPartRoundTrip(m: MultiData, rest: seq<Token>)
    ensures DecodeMultiPart(EncodeMultiPart(m) + rest) == Some(Decoded(MultiPart(m.acceptedIds, m.displayName), rest))
  {
    var tail := (match m.displayName
                 case None => [BoolTok(false)]
                 case Some(name) => [BoolTok(true), UtfTok(name)]) + rest;
    var t := EncodeMultiPart(m) + rest;
    assert t[1..] == Utfs(m.acceptedIds) + tail;
    UtfsRoundTrip(m.acceptedIds, tail);
    match m.displayName
    case None => assert tail[1..] == rest;
    case Some(name) => assert tail[2..] == rest;
  }

  /** Decoding an encoded offer, with anything after it, gives back
      `Received(o)` and leaves exactly what followed. */
  lemma OfferRoundTrip(o: Offer, rest: seq<Token>, resolve: string -> Option<Item>)
    ensures DecodeOffer(EncodeOffer(o) + rest, resolve) == Some(Decoded(Received(o, resolve), rest))
  {
    if o.multi.Some? {
      MultiOfferRoundTrip(o, rest, resolve);
    } else {
      PlainOfferRoundTrip(o, rest, resolve);
    }
  }

  lemma PlainOfferRoundTrip(o: Offer, rest: seq<Token>, resolve: string -> Option<Item>)
    requires o.multi.None?
    ensures DecodeOffer(EncodeOffer(o) + rest, resolve) == Some(Decoded(Received(o, resolve), rest))
  {
    var afterHeader := EncodeFields(o) + rest;
    assert EncodeOffer(o) + rest == EncodeHeader(o) + afterHeader;
    DecodePlainOfferParts(o, EncodeOffer(o) + rest, afterHeader, rest, resolve);
  }

  /** The plain round trip, part by part. */
  lemma DecodePlainOfferParts(o: Offer, t: seq<Token>, afterHeader: seq<Token>, rest: seq<Token>,
                              resolve: string -> Option<Item>)
    requires o.multi.None?
    requires t == EncodeHeader(o) + afterHeader && afterHeader == EncodeFields(o) + rest
    ensures DecodeOffer(t, resolve) == Some(Decoded(Received(o, resolve), rest))
  {
    var h := SentHeader(o);
    var f := Fields(o.result, o.uses, o.maxUses, o.xp, o.priceMultiplier, o.demand);
    HeaderRoundTrip(o, afterHeader);
    FieldsRoundTrip(o, rest);
    BuildReceived(o, h, f, None, resolve);
    DecodeOfferPlain(t, h, afterHeader, f, rest, resolve);
  }

  lemma MultiOfferRoundTrip(o: Offer, rest: seq<Token>, resolve: string -> Option<Item>)
    requires o.multi.Some?
    ensures DecodeOffer(EncodeOffer(o) + rest, resolve) == Some(Decoded(Received(o, resolve), rest))
  {
    var afterFields := EncodeMultiPart(o.multi.value) + rest;
    var afterHeader := EncodeFields(o) + afterFields;
    assert EncodeOffer(o) + rest == EncodeHeader(o) + afterHeader;
    DecodeMultiOfferParts(o, EncodeOffer(o) + rest, afterHeader, afterFields, rest, resolve);
  }

  /** The multi-item round trip, part by part. */
  lemma DecodeMultiOfferParts(o: Offer, t: seq<Token>, afterHeader: seq<Token>, afterFields: seq<Token>,
                              rest: seq<Token>, resolve: string -> Option<Item>)
    requires o.multi.Some?
    requires t == EncodeHeader(o) + afterHeader && afterHeader == EncodeFields(o) + afterFields
    requires afterFields == EncodeMultiPart(o.multi.value) + rest
    ensures DecodeOffer(t, resolve) == Some(Decoded(Received(o, resolve), rest))
  {
    var h := SentHeader(o);
    var f := Fields(o.result, o.uses, o.maxUses, o.xp, o.priceMultiplier, o.demand);
    var mp := MultiPart(o.multi.value.acceptedIds, o.multi.value.displayName);
    HeaderRoundTrip(o, afterHeader);
    FieldsRoundTrip(o, afterFields);
    MultiPartRoundTrip(o.multi.value, rest);
    BuildReceived(o, h, f, Some(mp), resolve);
    DecodeOfferMulti(t, h, afterHeader, f, afterFields, mp, rest, resolve);
  }

  /** The header as `o` sends it. */
  function SentHeader(o: Offer): Header
  {
    Header(o.multi.Some?, DecodedCost(CostStack(o.costA)),
           if IsEmpty(CostBStack(o)) then None else Some(DecodedCost(CostBStack(o))))
  }

  /** What the client builds from the parts `o` sends is `Received(o)`. */
  lemma BuildReceived(o: Offer, h: Header, f: Fields, mp: Option<MultiPart>, resolve: string -> Option<Item>)
    requires h == SentHeader(o) && f == Fields(o.result, o.uses, o.maxUses, o.xp, o.priceMultiplier, o.demand)
    requires mp == if o.multi.Some? then Some(MultiPart(o.multi.value.acceptedIds, o.multi.value.displayName)) else None
    ensures BuildOffer(h, f, mp, resolve) == Received(o, resolve)
  {
  }

  lemma DecodeOfferPlain(t: seq<Token>, h: Header, afterHeader: seq<Token>, f: Fields, rest: seq<Token>,
                         resolve: string -> Option<Item>)
    requires !h.multi
    requires DecodeHeader(t) == Some(Decoded(h, afterHeader)) && DecodeFields(afterHeader) == Some(Decoded(f, rest))
    ensures DecodeOffer(t, resolve) == Some(Decoded(BuildOffer(h, f, None, resolve), rest))
  {
  }

  lemma DecodeOfferMulti(t: seq<Token>, h: Header, afterHeader: seq<Token>, f: Fields, afterFields: seq<Token>,
                         mp: MultiPart, rest: seq<Token>, resolve: string -> Option<Item>)
    requires h.multi
    requires DecodeHeader(t) == Some(Decoded(h, afterHeader)) && DecodeFields(afterHeader) == Some(Decoded(f, afterFields))
    requires DecodeMultiPart(afterFields) == Some(Decoded(mp, rest))
    ensures DecodeOffer(t, resolve) == Some(Decoded(BuildOffer(h, f, Some(mp), resolve), rest))
  {
  }

  /** The offers' encoding also splits at the first offer. */
  lemma EncodeOffersFront(os: seq<Offer>)
    requires os != []
    ensures EncodeOffers(os) == EncodeOffer(os[0]) + EncodeOffers(os[1..])
  {
    ConcatFront(os, EncodeOffer);
  }

  lemma {:induction false} OffersRoundTrip(os: seq<Offer>, rest: seq<Token>, resolve: string -> Option<Item>)
    ensures DecodeOffers(EncodeOffers(os) + rest, |os|, resolve) == Some(Decoded(ReceivedAll(os, resolve), rest))
  {
    if os == [] {
      assert EncodeOffers(os) + rest == rest;
    } else {
      EncodeOffersFront(os);
      var t := EncodeOffers(os) + rest;
      var tail := EncodeOffers(os[1..]) + rest;
      assert t == EncodeOffer(os[0]) + tail;
      OfferRoundTrip(os[0], tail, resolve);
      DecodeOffersStep(t, |os|, resolve, Decoded(Received(os[0], resolve), tail));
      OffersRoundTrip(os[1..], rest, resolve);
      ReceivedAllFront(os, resolve);
    }
  }

  /** Decoding several offers reads the first, then the others after it. */
  lemma DecodeOffersStep(t: seq<Token>, n: nat, resolve: string -> Option<Item>, d: Decoded<Offer>)
    requires n > 0 && DecodeOffer(t, resolve) == Some(d)
    ensures DecodeOffers(t, n, resolve) == Prepend([d.value], DecodeOffers(d.rest, n - 1, resolve))
  {
    assert DecodeOffers(t, n, resolve) == DecodeFirst(t, n, resolve);
  }

  lemma ReceivedAllFront(os: seq<Offer>, resolve: string -> Option<Item>)
    requires os != []
    ensures [Received(os[0], resolve)] + ReceivedAll(os[1..], resolve) == ReceivedAll(os, resolve)
  {
  }

  /** decode(encode(p)): the same container id, as many offers, each one
      `Received` from the one sent, and nothing of what follows consumed. */
  lemma PacketRoundTrip(p: Packet, rest: seq<Token>, resolve: string -> Option<Item>)
    ensures DecodePacket(EncodePacket(p) + rest, resolve)
      == Some(Decoded(Packet(p.containerId, ReceivedAll(p.offers, resolve)), rest))
    ensures DecodePacket(EncodePacket(p) + rest, resolve).value.value.containerId == p.containerId
    ensures |DecodePacket(EncodePacket(p) + rest, resolve).value.value.offers| == |p.offers|
  {
    var t := EncodePacket(p) + rest;
    assert t[2..] == EncodeOffers(p.offers) + rest;
    OffersRoundTrip(p.offers, rest, resolve);
  }

  /** A plain offer with normal costs comes back exactly. */
  lemma PlainOfferExact(o: Offer, resolve: string -> Option<Item>)
    requires o.multi.None? && NormalCosts(o)
    ensures Received(o, resolve) == o
  {
  }

  /** A multi-item offer built by its constructor comes back with
      everything but its demand, which is zero on the client; uses come back
      whenever they are not negative. */
  lemma MultiOfferLosesDemand(o: Offer, resolve: string -> Option<Item>)
    requires o.multi.Some? && NormalCosts(o) && Constructed(o, resolve)
    ensures Received(o, resolve) == o.(uses := Max(0, o.uses), demand := 0)
    ensures o.uses >= 0 ==> (Received(o, resolve) == o <==> o.demand == 0)
  {
  }

  /** Cost B is written only when non-empty, and reads back as absent
      exactly when its flag was false. */
  lemma CostBFlag(o: Offer, resolve: string -> Option<Item>)
    ensures EncodeOffer(o)[2] == BoolTok(!IsEmpty(CostBStack(o)))
    ensures Received(o, resolve).costB.None? <==> IsEmpty(CostBStack(o))
    ensures |EncodeHeader(o)| == if IsEmpty(CostBStack(o)) then 3 else 4
  {
  }

  // ---------------------------------------------------------------------
  // The buffer

  /** `FriendlyByteBuf`: what has been written, and how far it has been
      read. */
  class Buffer {
    var contents: seq<Token>
    var readerIndex: nat

    constructor (contents: seq<Token>)
      ensures this.contents == contents && readerIndex == 0
    {
      this.contents := contents;
      readerIndex := 0;
    }

    predicate Valid()
      reads this
    {
      readerIndex <= |contents|
    }

    function Unread(): seq<Token>
      requires Valid()
      reads this
    {
      contents[readerIndex..]
    }

    method Write(tok: Token)
      modifies this
      ensures contents == old(contents) + [tok] && readerIndex == old(readerIndex)
    {
      contents := contents + [tok];
    }

    /** The next field, or `None` at the end of what was written. */
    method Read() returns (tok: Option<Token>)
      requires Valid()
      modifies this
      ensures Valid() && contents == old(contents)
      ensures old(readerIndex) < |contents| ==>
        tok == Some(old(Unread())[0]) && readerIndex == old(readerIndex) + 1 && Unread() == old(Unread())[1..]
      ensures old(readerIndex) >= |contents| ==> tok.None? && readerIndex == old(readerIndex)
    {
      if readerIndex < |contents| {
        tok := Some(contents[readerIndex]);
        readerIndex := readerIndex + 1;
      } else {
        tok := None;
      }
    }
  }

  /** A read that may fail agrees with the specification: it fails exactly
      when the specification does, and otherwise yields its value and
      leaves exactly the rest unread. */
  predicate Agrees<T(==)>(r: Option<T>, d: Option<Decoded<T>>, unread: seq<Token>)
  {
    match d
    case None => r.None?
    case Some(x) => r == Some(x.value) && unread == x.rest
  }

  // ---------------------------------------------------------------------
  // Writing

  method WriteHeader(buf: Buffer, o: Offer)
    modifies buf
    ensures buf.contents == old(buf.contents) + EncodeHeader(o) && buf.readerIndex == old(buf.readerIndex)
  {
    buf.Write(BoolTok(o.multi.Some?));
    buf.Write(StackTok(CostStack(o.costA)));
    var costB := CostBStack(o);
    buf.Write(BoolTok(!IsEmpty(costB)));
    if !IsEmpty(costB) {
      buf.Write(StackTok(costB));
    }
  }

  method WriteFields(buf: Buffer, o: Offer)
    modifies buf
    ensures buf.contents == old(buf.contents) + EncodeFields(o) && buf.readerIndex == old(buf.readerIndex)
  {
    buf.Write(StackTok(o.result));
    buf.Write(IntTok(o.uses));
    buf.Write(IntTok(o.maxUses));
    buf.Write(IntTok(o.xp));
    buf.Write(FloatTok(o.priceMultiplier));
    buf.Write(IntTok(o.demand));
  }

  /** Writes the accepted id list: its length, then each id. */
  method WriteIds(buf: Buffer, ids: seq<string>)
    modifies buf
    ensures buf.contents == old(buf.contents) + [IntTok(|ids|)] + Utfs(ids) && buf.readerIndex == old(buf.readerIndex)
  {
    ghost var start := buf.contents;
    buf.Write(IntTok(|ids|));
    var i := 0;
    while i < |ids|
      invariant 0 <= i <= |ids|
      invariant buf.contents == start + [IntTok(|ids|)] + Utfs(ids[..i])
      invariant buf.readerIndex == old(buf.readerIndex)
    {
      buf.Write(UtfTok(ids[i]));
      UtfsOneMore(ids, i);
      i := i + 1;
    }
    assert ids[..i] == ids;
  }

  lemma UtfsOneMore(ids: seq<string>, i: nat)
    requires i < |ids|
    ensures Utfs(ids[..i + 1]) == Utfs(ids[..i]) + [UtfTok(ids[i])]
  {
  }

  method WriteMultiPart(buf: Buffer, m: MultiData)
    modifies buf
    ensures buf.contents == old(buf.contents) + EncodeMultiPart(m) && buf.readerIndex == old(buf.readerIndex)
  {
    WriteIds(buf, m.acceptedIds);
    match m.displayName
    case None =>
      buf.Write(BoolTok(false));
    case Some(name) =>
      buf.Write(BoolTok(true));
      buf.Write(UtfTok(name));
  }

  method WriteOffer(buf: Buffer, o: Offer)
    modifies buf
    ensures buf.contents == old(buf.contents) + EncodeOffer(o) && buf.readerIndex == old(buf.readerIndex)
  {
    WriteHeader(buf, o);
    WriteFields(buf, o);
    if o.multi.Some? {
      WriteMultiPart(buf, o.multi.value);
    }
  }

  /** `STREAM_CODEC.encode`: appends exactly `EncodePacket(p)`. */
  method Encode(buf: Buffer, p: Packet)
    modifies buf
    ensures buf.contents == old(buf.contents) + EncodePacket(p) && buf.readerIndex == old(buf.readerIndex)
  {
    ghost var start := buf.contents;
    buf.Write(IntTok(p.containerId));
    buf.Write(IntTok(|p.offers|));
    ghost var head := buf.contents;
    assert head + EncodeOffers(p.offers[..0]) == head;
    var i := 0;
    while i < |p.offers|
      invariant 0 <= i <= |p.offers|
      invariant buf.contents == head + EncodeOffers(p.offers[..i])
      invariant buf.readerIndex == old(buf.readerIndex)
    {
      WriteOffer(buf, p.offers[i]);
      EncodeOffersSnoc(head, p.offers, i);
      i := i + 1;
    }
    assert p.offers[..i] == p.offers;
  }

  /** Encoding one more offer appends its tokens. */
  lemma EncodeOffersSnoc(head: seq<Token>, os: seq<Offer>, i: nat)
    requires i < |os|
    ensures head + EncodeOffers(os[..i]) + EncodeOffer(os[i]) == head + EncodeOffers(os[..i + 1])
  {
    ConcatOneMore(os, i, EncodeOffer);
  }

  // ---------------------------------------------------------------------
  // Reading

  method ReadHeader(buf: Buffer) returns (h: Option<Header>)
    requires buf.Valid()
    modifies buf
    ensures buf.Valid() && buf.contents == old(buf.contents)
    ensures Agrees(h, DecodeHeader(old(buf.Unread())), buf.Unread())
  {
    ghost var t := buf.Unread();
    var multi := buf.Read();
    var a := buf.Read();
    var hasB := buf.Read();
    if multi.None? || !multi.value.BoolTok? || a.None? || !a.value.StackTok? || hasB.None? || !hasB.value.BoolTok? {
      h := None;
    } else {
      var costA := Cost(ItemOf(a.value.s), CountOf(a.value.s));
      assert t[1..][1..][1..] == t[3..];
      if !hasB.value.b {
        h := Some(Header(multi.value.b, costA, None));
      } else {
        var b := buf.Read();
        if b.None? || !b.value.StackTok? {
          h := None;
        } else {
          assert t[3..][1..] == t[4..];
          h := Some(Header(multi.value.b, costA, Some(Cost(ItemOf(b.value.s), CountOf(b.value.s)))));
        }
      }
    }
  }

  /** The six fields after the header. A read that fails ends decoding and
      the packet is dropped, so reading on past it changes nothing the
      caller can see. */
  method ReadFields(buf: Buffer) returns (f: Option<Fields>)
    requires buf.Valid()
    modifies buf
    ensures buf.Valid() && buf.contents == old(buf.contents)
    ensures Agrees(f, DecodeFields(old(buf.Unread())), buf.Unread())
  {
    ghost var t := buf.Unread();
    var result := buf.Read();
    var uses := buf.Read();
    var maxUses := buf.Read();
    var xp := buf.Read();
    var priceMultiplier := buf.Read();
    var demand := buf.Read();
    if || result.None? || !result.value.StackTok? || uses.None? || !uses.value.IntTok?
       || maxUses.None? || !maxUses.value.IntTok? || xp.None? || !xp.value.IntTok?
       || priceMultiplier.None? || !priceMultiplier.value.FloatTok? || demand.None? || !demand.value.IntTok?
    {
      f := None;
    } else {
      assert t[1..][1..][1..][1..][1..][1..] == t[6..];
      f := Some(Fields(result.value.s, uses.value.i, maxUses.value.i, xp.value.i, priceMultiplier.value.f, demand.value.i));
    }
  }

  /** Reading one more string keeps the list in front of what is still to
      be read. */
  lemma UtfStep(ids: seq<string>, t: seq<Token>, n: nat)
    requires n > 0 && |t| > 0 && t[0].UtfTok?
    ensures Prepend(ids, DecodeUtfs(t, n)) == Prepend(ids + [t[0].u], DecodeUtfs(t[1..], n - 1))
  {
    match DecodeUtfs(t[1..], n - 1)
    case None =>
    case Some(d) => assert ids + ([t[0].u] + d.value) == ids + [t[0].u] + d.value;
  }

  /** Reading `n` strings fails as soon as one is missing. */
  method ReadUtfs(buf: Buffer, n: nat) returns (ids: Option<seq<string>>)
    requires buf.Valid()
    modifies buf
    ensures buf.Valid() && buf.contents == old(buf.contents)
    ensures Agrees(ids, DecodeUtfs(old(buf.Unread()), n), buf.Unread())
  {
    ghost var t := buf.Unread();
    var read: seq<string> := [];
    PrependNothing(DecodeUtfs(t, n));
    var j := 0;
    while j < n
      invariant 0 <= j <= n
      invariant buf.Valid() && buf.contents == old(buf.contents)
      invariant DecodeUtfs(t, n) == Prepend(read, DecodeUtfs(buf.Unread(), n - j))
    {
      ghost var u := buf.Unread();
      var tok := buf.Read();
      if tok.None? || !tok.value.UtfTok? {
        return None;
      }
      UtfStep(read, u, n - j);
      read := read + [tok.value.u];
      j := j + 1;
    }
    assert read + [] == read;
    return Some(read);
  }

  method ReadMultiPart(buf: Buffer) returns (m: Option<MultiPart>)
    requires buf.Valid()
    modifies buf
    ensures buf.Valid() && buf.contents == old(buf.contents)
    ensures Agrees(m, DecodeMultiPart(old(buf.Unread())), buf.Unread())
  {
    var count := buf.Read();
    if count.None? || !count.value.IntTok? {
      return None;
    }
    var ids := ReadUtfs(buf, Max(0, count.value.i));
    if ids.None? {
      return None;
    }
    ghost var r := buf.Unread();
    var hasName := buf.Read();
    if hasName.None? || !hasName.value.BoolTok? {
      return None;
    }
    if !hasName.value.b {
      return Some(MultiPart(ids.value, None));
    }
    var name := buf.Read();
    if name.None? || !name.value.UtfTok? {
      return None;
    }
    assert buf.Unread() == r[2..];
    return Some(MultiPart(ids.value, Some(name.value.u)));
  }

  /** `decode` of one offer. A multi-item offer is built by its
      constructor, its uses reset, then increased once per use read. */
  method ReadOffer(buf: Buffer, resolve: string -> Option<Item>) returns (o: Option<Offer>)
    requires buf.Valid()
    modifies buf
    ensures buf.Valid() && buf.contents == old(buf.contents)
    ensures Agrees(o, DecodeOffer(old(buf.Unread()), resolve), buf.Unread())
  {
    var h := ReadHeader(buf);
    if h.None? {
      return None;
    }
    var f := ReadFields(buf);
    if f.None? {
      return None;
    }
    var header, fields := h.value, f.value;
    if !header.multi {
      return Some(Offer(header.costA, header.costB, fields.result, fields.uses, fields.maxUses, fields.xp,
                        fields.priceMultiplier, fields.demand, None));
    }
    var m := ReadMultiPart(buf);
    if m.None? {
      return None;
    }
    var offer := NewMultiItemOffer(header.costA, header.costB, fields.result, fields.maxUses, fields.xp,
                                   fields.priceMultiplier, m.value.ids, m.value.name, resolve);
    offer := RestoreUses(offer, fields.uses);
    return Some(offer);
  }

  /** `resetUses`, then `increaseUses` once per use read: the offer ends
      with that many uses, none for a negative count. */
  method RestoreUses(offer: Offer, uses: int) returns (r: Offer)
    ensures r == offer.(uses := Max(0, uses))
  {
    r := offer.(uses := 0);
    var j := 0;
    while j < uses
      invariant 0 <= j <= Max(0, uses)
      invariant r == offer.(uses := j)
    {
      r := IncreaseUses(r);
      j := j + 1;
    }
  }

  /** The offers `decode`'s loop reads with `left` offers to go, `offers`
      read so far and `unread` still in the buffer: a specification in the
      loop's own shape, the loop's test here and one pass of its body in
      `ReadPass`. */
  function ReadFrom(unread: seq<Token>, left: nat, offers: seq<Offer>, resolve: string -> Option<Item>)
    : Option<Decoded<seq<Offer>>>
    decreases left, 1
  {
    if left == 0 then Some(Decoded(offers, unread)) else ReadPass(unread, left, offers, resolve)
  }

  /** One pass: read an offer, or stop with nothing when it cannot be read. */
  function ReadPass(unread: seq<Token>, left: nat, offers: seq<Offer>, resolve: string -> Option<Item>)
    : Option<Decoded<seq<Offer>>>
    requires left > 0
    decreases left, 0
  {
    match DecodeOffer(unread, resolve)
    case None => None
    case Some(d) => ReadFrom(d.rest, left - 1, offers + [d.value], resolve)
  }

  /** Reading in a loop gives the offers read so far in front of the
      recursive decoding of the rest. */
  lemma {:induction false} ReadFromAgrees(unread: seq<Token>, left: nat, offers: seq<Offer>,
                                          resolve: string -> Option<Item>)
    ensures ReadFrom(unread, left, offers, resolve) == Prepend(offers, DecodeOffers(unread, left, resolve))
    decreases left
  {
    if left == 0 {
      assert offers + [] == offers;
    } else {
      assert ReadFrom(unread, left, offers, resolve) == ReadPass(unread, left, offers, resolve);
      assert DecodeOffers(unread, left, resolve) == DecodeFirst(unread, left, resolve);
      match DecodeOffer(unread, resolve)
      case None =>
      case Some(d) =>
        ReadFromAgrees(d.rest, left - 1, offers + [d.value], resolve);
        DecodeOffersStep(unread, left, resolve, d);
        PrependTwice(offers, d.value, DecodeOffers(d.rest, left - 1, resolve));
    }
  }

  /** Putting `x` in front, then `xs`, is putting `xs + [x]` in front. */
  lemma PrependTwice<T>(xs: seq<T>, x: T, r: Option<Decoded<seq<T>>>)
    ensures Prepend(xs, Prepend([x], r)) == Prepend(xs + [x], r)
  {
    match r
    case None =>
    case Some(e) => assert xs + ([x] + e.value) == xs + [x] + e.value;
  }

  /** The loop of `decode`: `n` offers read one after another. */
  method ReadOffers(buf: Buffer, n: nat, resolve: string -> Option<Item>) returns (os: Option<seq<Offer>>)
    requires buf.Valid()
    modifies buf
    ensures buf.Valid() && buf.contents == old(buf.contents)
    ensures Agrees(os, DecodeOffers(old(buf.Unread()), n, resolve), buf.Unread())
  {
    ghost var t := buf.Unread();
    ghost var goal := ReadFrom(t, n, [], resolve);
    var offers: seq<Offer> := [];
    var failed := false;
    var i := 0;
    while i < n && !failed
      invariant 0 <= i <= n
      invariant buf.Valid() && buf.contents == old(buf.contents)
      invariant failed ==> goal == None
      invariant !failed ==> ReadFrom(buf.Unread(), n - i, offers, resolve) == goal
      decreases n - i, if failed then 0 else 1
    {
      var offer := ReadNext(buf, n - i, offers, resolve, goal);
      if offer.None? {
        failed := true;
      } else {
        offers := offers + [offer.value];
        i := i + 1;
      }
    }
    ReadAllAgrees(t, n, resolve);
    os := if failed then None else Some(offers);
  }

  /** One pass of `decode`'s loop: the next offer, stated against the
      loop's specification `goal`. */
  method ReadNext(buf: Buffer, left: nat, offers: seq<Offer>, resolve: string -> Option<Item>,
                  ghost goal: Option<Decoded<seq<Offer>>>)
    returns (offer: Option<Offer>)
    requires buf.Valid() && left > 0
    requires ReadFrom(buf.Unread(), left, offers, resolve) == goal
    modifies buf
    ensures buf.Valid() && buf.contents == old(buf.contents)
    ensures offer.None? ==> goal == None
    ensures offer.Some? ==> ReadFrom(buf.Unread(), left - 1, offers + [offer.value], resolve) == goal
  {
    assert ReadFrom(buf.Unread(), left, offers, resolve) == ReadPass(buf.Unread(), left, offers, resolve);
    offer := ReadOffer(buf, resolve);
  }

  /** From an empty start, the loop's specification is the decoding. */
  lemma ReadAllAgrees(t: seq<Token>, n: nat, resolve: string -> Option<Item>)
    ensures ReadFrom(t, n, [], resolve) == DecodeOffers(t, n, resolve)
  {
    ReadFromAgrees(t, n, [], resolve);
    PrependNothing(DecodeOffers(t, n, resolve));
  }

  /** `STREAM_CODEC.decode`: agrees with `DecodePacket` on what was unread;
      `None` where the buffer runs out or holds a field of the wrong kind.
      The loop runs up to the count read, so a negative count reads no
      offers. */
  method Decode(buf: Buffer, resolve: string -> Option<Item>) returns (p: Option<Packet>)
    requires buf.Valid()
    modifies buf
    ensures buf.Valid() && buf.contents == old(buf.contents)
    ensures Agrees(p, DecodePacket(old(buf.Unread()), resolve), buf.Unread())
  {
    ghost var t := buf.Unread();
    var containerId := buf.Read();
    if containerId.None? || !containerId.value.IntTok? {
      return None;
    }
    var size := buf.Read();
    if size.None? || !size.value.IntTok? {
      return None;
    }
    assert buf.Unread() == t[2..];
    var offers := ReadOffers(buf, Max(0, size.value.i), resolve);
    if offers.None? {
      return None;
    }
    return Some(Packet(containerId.value.i, offers.value));
  }

  /** `handle`: the offers replace the open menu's only when a merchant
      trade menu is open (`menu` not null) with the packet's container id;
      otherwise nothing changes. The sync bookkeeping is untouched. */
  method Handle(menu: MerchantTradeMenu?, p: Packet) returns (applied: bool)
    modifies menu
    ensures applied <==> menu != null && menu.containerId == p.containerId
    ensures applied ==> menu.offers == p.offers
    ensures menu != null ==>
      && menu.lastOfferCount == old(menu.lastOfferCount) && menu.needsSync == old(menu.needsSync)
      && (!applied ==> menu.offers == old(menu.offers))
  {
    if menu != null && menu.containerId == p.containerId {
      menu.SetOffers(p.offers);
      return true;
    }
    return false;
  }
}
