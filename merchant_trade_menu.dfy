/** The server side of a merchant's trade menu: it holds the merchant's
    offers and configured trade entries, executes a trade clicked in the
    grid against the player's 36 main and hotbar slots, and decides when
    the offers are sent to the client again. */
module MerchantTradeMenus {
  import opened Common
  import opened Items
  import opened PlayerInventories
  import opened TradeEntries
  import opened MerchantCosts

  /** `Inventory.items`: the main and hotbar slots. */
  function MainItems(player: Player): seq<Stack>
    requires player.Valid()
    reads player, player.slots
  {
    player.slots[..ItemsSize]
  }

  /** The counting loops of `executeTrade`: the count of every matching
      stack in slot order. */
  method CountMatching(player: Player, matches: Stack -> bool) returns (count: int)
    requires player.Valid()
    ensures count == MatchingTotal(MainItems(player), matches)
  {
    count := 0;
    var i := 0;
    while i < ItemsSize
      invariant 0 <= i <= ItemsSize
      invariant count == MatchingTotal(player.slots[..i], matches)
    {
      var stack := player.slots[i];
      TakeOneMore(player.slots[..], i);
      MatchingTotalSnoc(player.slots[..i], stack, matches);
      if matches(stack) {
        count := count + CountOf(stack);
      }
      i := i + 1;
    }
    assert player.slots[..i] == MainItems(player);
  }

  /** The search for "the" bag in `countRelicCoins` and `removeRelicCoins`:
      the first slot holding a relic coin bag. */
  method FindFirstBag(player: Player) returns (k: Option<nat>)
    requires player.Valid()
    ensures k == FirstWhere(MainItems(player), IsBag)
  {
    ghost var items := MainItems(player);
    var i := 0;
    while i < ItemsSize
      invariant 0 <= i <= ItemsSize
      invariant NoneBefore(items, IsBag, i)
    {
      if IsBag(player.slots[i]) {
        FirstWhereAt(items, IsBag, i);
        return Some(i);
      }
      i := i + 1;
    }
    FirstWhereNone(items, IsBag);
    return None;
  }

  /** `pred` holds for none of the first `i` slots. */
  predicate NoneBefore(s: seq<Stack>, pred: Stack -> bool, i: int)
  {
    forall j :: 0 <= j < i && j < |s| ==> !pred(s[j])
  }

  lemma FirstWhereAt(s: seq<Stack>, pred: Stack -> bool, i: nat)
    requires i < |s| && pred(s[i]) && NoneBefore(s, pred, i)
    ensures FirstWhere(s, pred) == Some(i)
  {
  }

  lemma FirstWhereNone(s: seq<Stack>, pred: Stack -> bool)
    requires NoneBefore(s, pred, |s|)
    ensures FirstWhere(s, pred) == None
  {
  }

  /** `countRelicCoins`: loose coins in the 36 slots plus the first bag's
      coins. */
  method CountRelicCoins(player: Player) returns (count: int)
    requires player.Valid()
    ensures count == RelicCoinsAvailable(MainItems(player))
  {
    count := CountMatching(player, IsCoin);
    var bag := FindFirstBag(player);
    if bag.Some? {
      count := count + BagCoins(player.slots[bag.value]);
    }
  }

  /** `removeItemsMatching`, `removeItems` and the first loop of
      `removeRelicCoins`: while something is owed, each matching stack in
      slot order gives as much as it can. Returns what is still owed. */
  method RemoveMatching(player: Player, matches: Stack -> bool, count: int) returns (owed: int)
    requires player.Valid()
    modifies player.slots
    ensures var r := RemoveInOrder(old(MainItems(player)), matches, count);
      MainItems(player) == r.slots && owed == r.owed
    ensures player.slots[ItemsSize..] == old(player.slots[ItemsSize..])
  {
    ghost var start := MainItems(player);
    ghost var goal := RemoveFrom(start, matches, count, 0);
    var remaining := count;
    var i := 0;
    while i < ItemsSize && remaining > 0
      invariant 0 <= i <= ItemsSize
      invariant RemoveFrom(MainItems(player), matches, remaining, i) == goal
      invariant player.slots[ItemsSize..] == old(player.slots[ItemsSize..])
    {
      ghost var before := MainItems(player);
      var take := RemoveFromSlot(player, i, matches, remaining);
      assert MainItems(player) == before[i := player.slots[i]];
      remaining := remaining - take;
      i := i + 1;
    }
    RemoveFromAgrees(start, matches, count, 0);
    assert start[..0] + RemoveInOrder(start[0..], matches, count).slots == RemoveInOrder(start, matches, count).slots;
    owed := remaining;
  }

  /** The body of the removal loop: a matching stack in slot `i` gives
      min(n, its count). */
  method RemoveFromSlot(player: Player, i: int, matches: Stack -> bool, n: int) returns (take: int)
    requires player.Valid() && 0 <= i < ContainerSize
    modifies player.slots
    ensures var s := old(player.slots[i]);
      && take == (if matches(s) then Min(n, CountOf(s)) else 0)
      && player.slots[..] == old(player.slots[..])[i := if matches(s) then Shrink(s, take) else s]
  {
    var stack := player.slots[i];
    take := 0;
    if matches(stack) {
      take := Min(n, CountOf(stack));
      player.slots[i] := Shrink(stack, take);
    }
  }

  /** `removeRelicCoins`: the loose coins in slot order, then whatever is
      still owed from the first bag. */
  method RemoveRelicCoins(player: Player, amount: int)
    requires player.Valid()
    modifies player.slots
    ensures MainItems(player) == PayCoins(old(MainItems(player)), amount)
    ensures player.slots[ItemsSize..] == old(player.slots[ItemsSize..])
  {
    var owed := RemoveMatching(player, IsCoin, amount);
    if owed > 0 {
      DrawFromFirstBag(player, owed);
    }
  }

  /** The second loop of `removeRelicCoins`, on the first bag only. */
  method DrawFromFirstBag(player: Player, owed: int)
    requires player.Valid()
    modifies player.slots
    ensures MainItems(player) == DrawFromBag(old(MainItems(player)), owed)
    ensures player.slots[ItemsSize..] == old(player.slots[ItemsSize..])
  {
    ghost var items := MainItems(player);
    var bag := FindFirstBag(player);
    if bag.Some? {
      var k := bag.value;
      var coins := BagCoins(player.slots[k]);
      player.slots[k] := player.slots[k].(coins := Some(coins - Min(owed, coins)));
      assert MainItems(player) == items[k := items[k].(coins := Some(coins - Min(owed, coins)))];
    }
  }

  /** Counts what the player holds towards one input. */
  method CountCharge(player: Player, c: Charge) returns (count: int)
    requires player.Valid()
    ensures count == Available(MainItems(player), c)
  {
    if c.coin {
      count := CountRelicCoins(player);
    } else {
      count := CountMatching(player, c.matches);
    }
  }

  /** The affordability check of `executeTrade` and `executeTradeLegacy`:
      each input is compared with what the player holds towards it, both
      measured before anything is taken, so two relic coin inputs are each
      compared with all the coins held (see `CoinInputsCheckedAlone`). */
  method CanAfford(player: Player, a: Charge, b: Option<Charge>) returns (ok: bool)
    requires player.Valid()
    ensures ok == AffordableAsWritten(MainItems(player), a, b)
  {
    var countA := CountCharge(player, a);
    var countB := 0;
    if b.Some? {
      countB := CountCharge(player, b.value);
    }
    ok := countA >= a.count && (b.None? || countB >= b.value.count);
  }

  /** Takes both inputs, the first one first. */
  method PayCharges(player: Player, a: Charge, b: Option<Charge>)
    requires player.Valid()
    modifies player.slots
    ensures MainItems(player) == Settle(old(MainItems(player)), a, b)
    ensures player.slots[ItemsSize..] == old(player.slots[ItemsSize..])
  {
    PayCharge(player, a);
    if b.Some? {
      PayCharge(player, b.value);
    }
  }

  /** Takes one input from the player. */
  method PayCharge(player: Player, c: Charge)
    requires player.Valid()
    modifies player.slots
    ensures MainItems(player) == Pay(old(MainItems(player)), c)
    ensures player.slots[ItemsSize..] == old(player.slots[ItemsSize..])
  {
    if c.coin {
      RemoveRelicCoins(player, c.count);
    } else {
      var _ := RemoveMatching(player, c.matches, c.count);
    }
  }

  class MerchantTradeMenu {
    var offers: seq<Offer>
    const entries: seq<TradeEntry>
    const hasMerchant: bool
    const containerId: int
    var lastOfferCount: int
    var needsSync: bool
    const player: Player

    /** The server-side constructor: the merchant's offers and entries, or
        none without a merchant. The offer count starts at -1 so the first
        broadcast always syncs. */
    constructor (containerId: int, player: Player, hasMerchant: bool, offers: seq<Offer>, entries: seq<TradeEntry>)
      ensures this.containerId == containerId && this.player == player && this.hasMerchant == hasMerchant
      ensures this.offers == (if hasMerchant then offers else [])
      ensures this.entries == (if hasMerchant then entries else [])
      ensures lastOfferCount == -1 && !needsSync
      ensures Pending()
    {
      this.containerId := containerId;
      this.player := player;
      this.hasMerchant := hasMerchant;
      this.offers := if hasMerchant then offers else [];
      this.entries := if hasMerchant then entries else [];
      lastOfferCount := -1;
      needsSync := false;
    }

    /** The client has not seen the current offers: a trade happened, or
        the count differs from the one last sent. */
    predicate Pending()
      reads this
    {
      needsSync || |offers| != lastOfferCount
    }

    /** The inputs of offer `i`: its trade entry's requirements when there
        is an entry at that index, its own costs otherwise. */
    function ChargesAt(i: int, reg: Registry): (Charge, Option<Charge>)
      requires 0 <= i < |offers|
      reads this
    {
      TradeCharges(offers[i], if i < |entries| then Some(entries[i]) else None, reg)
    }

    /** `executeTrade`. Nothing happens without a merchant, for an index
        outside the offers, for an offer out of stock, or when the player
        cannot cover the inputs; checking finishes before anything is
        taken. Otherwise both inputs are taken from the 36 slots, the
        offer's uses go up by one and a sync is due. The check measures each
        input on its own, so a trade paid twice in relic coins can go through
        with fewer coins than its price (`AsWrittenCoinTradeTakes` says what
        it then takes). */
    method ExecuteTrade(tradeIndex: int, reg: Registry) returns (ok: bool)
      requires player.Valid()
      modifies this, player.slots
      ensures lastOfferCount == old(lastOfferCount)
      ensures ok <==>
        && hasMerchant && 0 <= tradeIndex < |old(offers)|
        && !IsOutOfStock(old(offers)[tradeIndex])
        && AffordableAsWritten(old(MainItems(player)), old(ChargesAt(tradeIndex, reg)).0, old(ChargesAt(tradeIndex, reg)).1)
      ensures !ok ==> offers == old(offers) && needsSync == old(needsSync) && player.slots[..] == old(player.slots[..])
      ensures ok ==>
        && offers == old(offers)[tradeIndex := IncreaseUses(old(offers)[tradeIndex])]
        && needsSync && Pending()
        && MainItems(player) == Settle(old(MainItems(player)), old(ChargesAt(tradeIndex, reg)).0, old(ChargesAt(tradeIndex, reg)).1)
        && player.slots[ItemsSize..] == old(player.slots[ItemsSize..])
    {
      if !hasMerchant || tradeIndex < 0 || tradeIndex >= |offers| {
        return false;
      }
      var offer := offers[tradeIndex];
      if IsOutOfStock(offer) {
        return false;
      }
      var charges := ChargesAt(tradeIndex, reg);
      var affordable := CanAfford(player, charges.0, charges.1);
      if !affordable {
        return false;
      }
      PayCharges(player, charges.0, charges.1);
      assert player.slots[..] == MainItems(player) + player.slots[ItemsSize..];
      offers := offers[tradeIndex := IncreaseUses(offer)];
      needsSync := true;
      return true;
    }

    /** `broadcastChanges`: with a merchant, the offers are sent exactly when
        a sync is pending; sending records the count and clears the flag,
        so the next broadcast sends nothing unless something changes. The
        source counts `merchant.getOffers()`; on the server the menu's
        `offers` is that same list (the constructor stores it, and only the
        client calls `setOffers`), so the model counts the menu's `offers`. */
    method BroadcastChanges() returns (synced: bool)
      modifies this
      ensures offers == old(offers)
      ensures synced <==> hasMerchant && old(Pending())
      ensures synced ==> lastOfferCount == |offers| && !needsSync && !Pending()
      ensures !synced ==> lastOfferCount == old(lastOfferCount) && needsSync == old(needsSync)
    {
      if hasMerchant {
        if needsSync || |offers| != lastOfferCount {
          lastOfferCount := |offers|;
          needsSync := false;
          return true;
        }
      }
      return false;
    }

    /** `setOffers`, used when the client receives a sync. */
    method SetOffers(newOffers: seq<Offer>)
      modifies this
      ensures offers == newOffers
      ensures lastOfferCount == old(lastOfferCount) && needsSync == old(needsSync)
    {
      offers := newOffers;
    }
  }
}
