/** Per-player Black Market stock: a cache of each player's offers for one
    rotation, a manual-refresh offset per player, and the rotation each
    player was last told about lucky trades. Offer generation draws on seeded
    randomness and drop data; it enters as a function of player and
    rotation id, and only the countdown-clock padding it ends with is
    modelled. */
module BlackMarketInventory {
  import opened Common
  import opened Items
  import opened BlackMarketConfig

  /** The grid index the countdown clock is meant to occupy. */
  const ClockSlot := 26

  /** `PlayerInventory`: the rotation a cached offer list belongs to. */
  datatype PlayerInventory = PlayerInventory(rotationId: int, offers: seq<Offer>)

  /** `LuckyTradeInfo`. */
  datatype LuckyTradeInfo = LuckyTradeInfo(priceCount: int, usesCount: int)
  {
    /** `totalCount`. */
    function TotalCount(): int
    {
      priceCount + usesCount
    }
  }

  /** The day count `addCountdownClock` shows: ticks / 1000 / 1440. */
  function CountdownDays(worldTime: int): int
  {
    JavaDiv(JavaDiv(TicksUntilRotation(worldTime), 1000), 1440)
  }

  /** With a rotation of 14 days of 24000 ticks the countdown is at most
      336000 ticks, which is 336 "minutes" of 1000 ticks and so never a whole
      day of 1440 of them: the clock always shows 0 days. */
  lemma CountdownDaysAlwaysZero(worldTime: int)
    requires worldTime >= 0
    ensures CountdownDays(worldTime) == 0
  {
    CountdownRange(worldTime);
    var t := TicksUntilRotation(worldTime);
    JavaDivNonNegative(t, 1000);
    JavaDivNonNegative(t / 1000, 1440);
  }

  /** Whole Minecraft days of 24000 ticks left in the rotation. */
  function IntendedCountdownDays(worldTime: int): int
  {
    JavaDiv(TicksUntilRotation(worldTime), TicksPerDay)
  }

  /** The intended count lies in 0..ROTATION_DAYS, is the number of whole
      days left, and shows the full rotation exactly on a boundary. */
  lemma IntendedCountdownDaysRange(worldTime: int)
    requires worldTime >= 0
    ensures 0 <= IntendedCountdownDays(worldTime) <= RotationDays
    ensures IntendedCountdownDays(worldTime) * TicksPerDay <= TicksUntilRotation(worldTime)
         < (IntendedCountdownDays(worldTime) + 1) * TicksPerDay
    ensures worldTime % RotationTicks() == 0 ==> IntendedCountdownDays(worldTime) == RotationDays
  {
    CountdownRange(worldTime);
    var t := TicksUntilRotation(worldTime);
    JavaDivNonNegative(t, TicksPerDay);
  }

  /** Minecraft's formatting code for gold text. */
  const GoldCode := "\U{00A7}6"

  /** The clock's custom name: the gold colour code, then "N day" or
      "N days". */
  function ClockName(days: int): string
  {
    GoldCode + IntToString(days) + " day" + (if days == 1 then "" else "s")
  }

  /** A disabled barrier trade: cost 64 barriers, maxUses 0, no xp. */
  const PaddingOffer := Offer(Cost(Barrier, 64), None, Plain(Barrier, 1), 0, 0, 0, 0.0, 0, None)

  /** The clock trade: disabled like the padding, its result a clock named
      with the day count. */
  function ClockOffer(days: int): Offer
  {
    Offer(Cost(Barrier, 64), None, Plain(Clock, 1).(name := Some(ClockName(days))), 0, 0, 0, 0.0, 0, None)
  }

  /** `addCountdownClock`: pads with barrier trades while there are fewer
      than 26 offers, then appends the clock. The generated offers keep their
      places, the clock is last, it sits at index 26 whenever there were at
      most 26 offers, and every added trade is out of stock. */
  method AddCountdownClock(offers: seq<Offer>, worldTime: int) returns (padded: seq<Offer>)
    ensures |padded| == Max(|offers|, ClockSlot) + 1
    ensures padded[..|offers|] == offers
    ensures forall i :: |offers| <= i < |padded| - 1 ==> padded[i] == PaddingOffer
    ensures padded[|padded| - 1] == ClockOffer(CountdownDays(worldTime))
    ensures |offers| <= ClockSlot ==> padded[ClockSlot] == ClockOffer(CountdownDays(worldTime))
    ensures forall i :: |offers| <= i < |padded| ==> IsOutOfStock(padded[i])
  {
    var clock := ClockOffer(CountdownDays(worldTime));
    padded := offers;
    while |padded| < ClockSlot
      invariant |padded| == Max(|offers|, |padded|) <= Max(|offers|, ClockSlot)
      invariant padded[..|offers|] == offers
      invariant forall i :: |offers| <= i < |padded| ==> padded[i] == PaddingOffer
      decreases ClockSlot - |padded|
    {
      padded := padded + [PaddingOffer];
    }
    padded := padded + [clock];
  }

  class BlackMarketInventory {
    var inventories: map<Uuid, PlayerInventory>
    var offsets: map<Uuid, int>
    var notifications: map<Uuid, int>

    constructor ()
      ensures inventories == map[] && offsets == map[] && notifications == map[]
    {
      inventories := map[];
      offsets := map[];
      notifications := map[];
    }

    /** The player's refresh offset, 0 when none is stored. */
    function Offset(player: Uuid): int
      reads this
    {
      if player in offsets then offsets[player] else 0
    }

    /** The rotation a player sees: the world's rotation plus the offset. */
    function EffectiveRotationId(player: Uuid, worldTime: int): int
      reads this
    {
      RotationId(worldTime) + Offset(player)
    }

    /** The cached list is served: it exists, belongs to the rotation and is
        not empty. */
    predicate CacheHit(player: Uuid, rotationId: int)
      reads this
    {
      player in inventories && inventories[player].rotationId == rotationId
      && |inventories[player].offers| > 0
    }

    /** `getOffersForPlayer`. `trades` stands for the seeded generation of a
        player's trades for a rotation. On a cache hit the cached list is
        returned and nothing changes; otherwise the generated trades, padded
        with barrier trades to 26 and ending in the clock, are cached under
        the effective rotation id.
        Either way the next call in the same rotation is a hit returning the
        same list. */
    method GetOffersForPlayer(player: Uuid, worldTime: int, trades: (Uuid, int) -> seq<Offer>) returns (offers: seq<Offer>)
      modifies this
      ensures offsets == old(offsets) && notifications == old(notifications)
      ensures var id := old(EffectiveRotationId(player, worldTime));
        old(CacheHit(player, id)) ==> offers == old(inventories)[player].offers && inventories == old(inventories)
      ensures var id := old(EffectiveRotationId(player, worldTime));
        !old(CacheHit(player, id)) ==>
          var base := trades(player, id);
          && inventories == old(inventories)[player := PlayerInventory(id, offers)]
          && |offers| == Max(|base|, ClockSlot) + 1 && offers[..|base|] == base
          && (forall i :: |base| <= i < |offers| - 1 ==> offers[i] == PaddingOffer)
          && offers[|offers| - 1] == ClockOffer(CountdownDays(worldTime))
          && (|base| <= ClockSlot ==> offers[ClockSlot] == ClockOffer(CountdownDays(worldTime)))
      ensures CacheHit(player, EffectiveRotationId(player, worldTime))
      ensures inventories[player].offers == offers
    {
      var id := RotationId(worldTime) + Offset(player);
      if player in inventories && inventories[player].rotationId == id && |inventories[player].offers| > 0 {
        offers := inventories[player].offers;
        return;
      }
      offers := AddCountdownClock(trades(player, id), worldTime);
      inventories := inventories[player := PlayerInventory(id, offers)];
    }

    /** `checkForLuckyTrades`. The lucky price and uses bonuses found by
        replaying the seeded rolls are the parameters. Nothing is reported
        for a player already told about this rotation or without a cached
        list for it; a report is made only when some bonus exists, and it is
        remembered so the same rotation is not reported twice. */
    method CheckForLuckyTrades(player: Uuid, rotationId: int, luckyPrice: nat, luckyUses: nat) returns (info: Option<LuckyTradeInfo>)
      modifies this
      ensures inventories == old(inventories) && offsets == old(offsets)
      ensures old(player in notifications && notifications[player] == rotationId) ==> info.None?
      ensures old(player !in inventories || inventories[player].rotationId != rotationId) ==> info.None?
      ensures info.Some? <==>
        && old(!(player in notifications && notifications[player] == rotationId))
        && old(player in inventories && inventories[player].rotationId == rotationId)
        && (luckyPrice > 0 || luckyUses > 0)
      ensures info.Some? ==> info.value == LuckyTradeInfo(luckyPrice, luckyUses) && info.value.TotalCount() > 0
      ensures info.Some? ==> notifications == old(notifications)[player := rotationId]
      ensures info.None? ==> notifications == old(notifications)
    {
      if player in notifications && notifications[player] == rotationId {
        return None;
      }
      if player !in inventories || inventories[player].rotationId != rotationId {
        return None;
      }
      if luckyPrice > 0 || luckyUses > 0 {
        notifications := notifications[player := rotationId];
        return Some(LuckyTradeInfo(luckyPrice, luckyUses));
      }
      return None;
    }

    /** `forceRefreshAll`: every player with a cached list gets one more
        offset, other offsets stay, and the cache is emptied. */
    method ForceRefreshAll()
      modifies this
      ensures inventories == map[]
      ensures offsets.Keys == old(offsets.Keys + inventories.Keys)
      ensures forall p :: p in old(inventories) ==> offsets[p] == old(Offset(p)) + 1
      ensures forall p :: p in offsets && p !in old(inventories) ==> offsets[p] == old(offsets[p])
      ensures notifications == old(notifications)
    {
      var remaining := inventories.Keys;
      ghost var start := offsets;
      ghost var cached := inventories.Keys;
      while remaining != {}
        invariant remaining <= cached
        invariant offsets.Keys == start.Keys + (cached - remaining)
        invariant forall p :: p in cached - remaining ==> offsets[p] == (if p in start then start[p] else 0) + 1
        invariant forall p :: p in offsets && p !in cached - remaining ==> offsets[p] == start[p]
        invariant inventories.Keys == cached && notifications == old(notifications)
        decreases remaining
      {
        var p :| p in remaining;
        var current := if p in offsets then offsets[p] else 0;
        offsets := offsets[p := current + 1];
        remaining := remaining - {p};
      }
      inventories := map[];
    }

    /** `forceRefreshPlayer`: one more offset for that player and its cached
        list dropped; every other player is untouched. */
    method ForceRefreshPlayer(player: Uuid)
      modifies this
      ensures offsets == old(offsets)[player := old(Offset(player)) + 1]
      ensures inventories == old(inventories) - {player}
      ensures notifications == old(notifications)
    {
      var current := Offset(player);
      offsets := offsets[player := current + 1];
      inventories := inventories - {player};
    }
  }
}
