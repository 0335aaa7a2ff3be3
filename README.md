# Cobblemon Custom Merchants — a verified model of its core logic

This project models, in Dafny, the logic at the heart of the Cobblemon Custom
Merchants mod for NeoForge, together with the registry-log parser that ships
beside it. It covers:

- **Trade menu and screen.** A merchant's trade menu takes a trade's inputs
  from the player's inventory. Relic coin inputs are paid first from loose
  coins and then from the first relic coin bag. The client screen lays trades
  out on a 27-slot grid and maps the mouse onto it. Multi-item offers accept
  any of a list of items as their first input.
- **Offer sync packet.** The server sends the menu's offers to the client,
  and the client decodes them.
- **Relic coin bag.** The bag is an item that stores a coin count. Its menu
  and withdraw slot move coins between the bag, the cursor and the inventory.
  A compact renderer prints the bag's count.
- **Daily stores.** Two stores, keyed by player and merchant, record daily
  reward claims and daily trade uses.
- **Black Market.** Offers rotate every 14 Minecraft days; each player has a
  cache and a refresh offset, and the offer list is padded to put a countdown
  clock at index 26.
- **Transaction ledger.** Identical trades are bundled per player within a
  10-second window, then finalised into an append-only list. Five statistics
  maps are kept equal to tallies of that list; the ledger also answers coin
  queries, writes CSV rows and saves itself.
- **Registry-log parser.** It turns the drop registry's log lines into one
  record per item.

How the model is built:

- Each core source file is one module.
- Objects that the mod updates in place are classes: the trade menu, the
  ledger, the two daily stores, the Black Market inventory, the coin bag menu
  and its slot, the player's inventory and the packet buffer. Their methods
  are proved against specification functions.
- Pure helpers are functions with lemmas.
- Item stacks are immutable values stored in the inventory array.
- UUIDs are their text form.
- Clocks, randomness, registries and vanilla inventory outcomes are
  parameters.

## Model

| member | source | states |
|---|---|---|
| BlackMarketConfig.RotationTicks | src/main/java/net/fit/cobblemonmerchants/merchant/blackmarket/BlackMarketConfig.java:88-90 | a rotation lasts a positive whole number of 24000-tick days, exactly `ROTATION_DAYS` (14) of them |
| BlackMarketConfig.CountdownRange | src/main/java/net/fit/cobblemonmerchants/merchant/blackmarket/BlackMarketConfig.java:97-108 | for world time >= 0 the countdown is between 1 tick and a full rotation, is a full rotation exactly on a boundary, and the rotation id counts the whole rotations elapsed |
| BlackMarketConfig.SameRotationUntilCountdown | src/main/java/net/fit/cobblemonmerchants/merchant/blackmarket/BlackMarketConfig.java:97-108 | the rotation id stays the same until the countdown runs out |
| BlackMarketConfig.UniqueQuotient | src/main/java/net/fit/cobblemonmerchants/merchant/blackmarket/BlackMarketConfig.java:97-99 | only one rotation id puts a time between two consecutive rotation boundaries |
| BlackMarketConfig.TimePartsBounds | src/main/java/net/fit/cobblemonmerchants/merchant/blackmarket/BlackMarketConfig.java:115-122 | for ticks >= 0 the printed hours are below 24 and the minutes below 60, and days, hours and minutes add back up to ticks / 1000 |
| BlackMarketConfig.FormatTicksReadsBack | src/main/java/net/fit/cobblemonmerchants/merchant/blackmarket/BlackMarketConfig.java:115-122 | the "Dd Hh Mm" text splits at its spaces and reads back as exactly the days, hours and minutes it was printed from |
| BlackMarketConfig.ReadUnitBack | src/main/java/net/fit/cobblemonmerchants/merchant/blackmarket/BlackMarketConfig.java:121 | a number followed by its unit letter holds no space and reads back as the number |
| BlackMarketInventory.CountdownDaysAlwaysZero | src/main/java/net/fit/cobblemonmerchants/merchant/blackmarket/BlackMarketInventory.java:307-309 | as written, the clock's day count (ticks / 1000 / 1440) is 0 for every world time >= 0 (finding 1) |
| BlackMarketInventory.IntendedCountdownDaysRange | src/main/java/net/fit/cobblemonmerchants/merchant/blackmarket/BlackMarketInventory.java:307-309 | corrected: whole 24000-tick days left lie in 0..14, bracket the remaining ticks, and are 14 exactly on a rotation boundary |
| BlackMarketInventory.AddCountdownClock | src/main/java/net/fit/cobblemonmerchants/merchant/blackmarket/BlackMarketInventory.java:305-357 | the generated offers keep their places; barrier padding fills up to 26 offers; the clock comes last and sits at index 26 when there were at most 26 offers; every added trade is out of stock |
| BlackMarketInventory.BlackMarketInventory.constructor | src/main/java/net/fit/cobblemonmerchants/merchant/blackmarket/BlackMarketInventory.java:27-33 | the cache, the refresh offsets and the notified rotations start empty |
| BlackMarketInventory.BlackMarketInventory.GetOffersForPlayer | src/main/java/net/fit/cobblemonmerchants/merchant/blackmarket/BlackMarketInventory.java:60-88 | a cache hit for the effective rotation (world rotation plus offset) returns the cached list and changes nothing; a miss caches the generated trades, padded with barrier trades to 26 offers, with the clock last and at index 26 when there were at most 26; afterwards the same rotation is always a hit for the returned list |
| BlackMarketInventory.BlackMarketInventory.CheckForLuckyTrades | src/main/java/net/fit/cobblemonmerchants/merchant/blackmarket/BlackMarketInventory.java:98-139 | a report is made iff the player was not yet told about this rotation, has a cached list for it and has some lucky bonus; a report is remembered, nothing else changes |
| BlackMarketInventory.BlackMarketInventory.ForceRefreshAll | src/main/java/net/fit/cobblemonmerchants/merchant/blackmarket/BlackMarketInventory.java:426-437 | every player with a cached list gets its offset raised by one, other offsets stay, and the cache is emptied |
| BlackMarketInventory.BlackMarketInventory.ForceRefreshPlayer | src/main/java/net/fit/cobblemonmerchants/merchant/blackmarket/BlackMarketInventory.java:443-449 | that player's offset is raised by one and its cached list dropped; every other entry is untouched |
| CoinCountRenderer.FormatReadsBack | src/main/java/net/fit/cobblemonmerchants/item/client/CoinCountRenderer.java:20-37 | reading the compact count back gives the count cut down to its shown precision: exact below 1000, hundreds below 10000, thousands above |
| CoinCountRenderer.ShownTruncates | src/main/java/net/fit/cobblemonmerchants/item/client/CoinCountRenderer.java:20-37 | digits are cut off, never rounded: the shown amount never exceeds the count and is less than one precision step below it |
| CoinCountRenderer.SmallReadsBack | src/main/java/net/fit/cobblemonmerchants/item/client/CoinCountRenderer.java:21-22 | below 1000 the text is the exact number |
| CoinCountRenderer.HundredsReadBack | src/main/java/net/fit/cobblemonmerchants/item/client/CoinCountRenderer.java:23-31 | from 1000 to 9999 the text is thousands with one decimal of hundreds, the decimal omitted when it is 0 |
| CoinCountRenderer.EndsInK | src/main/java/net/fit/cobblemonmerchants/item/client/CoinCountRenderer.java:20-37 | the text ends in 'k' exactly when the count is at least 1000 |
| CoinWithdrawSlots.WithdrawAmount | src/main/java/net/fit/cobblemonmerchants/item/menu/CoinWithdrawSlot.java:64-72 | a plain pickup (`Integer.MAX_VALUE`) draws one coin; any other amount is capped by the bag's coins and by 64, and for a non-negative amount never exceeds the bag |
| CoinWithdrawSlots.CoinWithdrawSlot.GetItem | src/main/java/net/fit/cobblemonmerchants/item/menu/CoinWithdrawSlot.java:106-123 | the slot shows one relic coin exactly when the bag has coins, agreeing with `hasItem` |
| CoinWithdrawSlots.CoinWithdrawSlot.Set | src/main/java/net/fit/cobblemonmerchants/item/menu/CoinWithdrawSlot.java:44-55 | a non-empty relic coin stack placed on the slot goes into the bag's count; anything else changes nothing |
| CoinWithdrawSlots.CoinWithdrawSlot.Remove | src/main/java/net/fit/cobblemonmerchants/item/menu/CoinWithdrawSlot.java:57-86 | an empty bag gives nothing; otherwise a fresh coin stack of the withdraw amount leaves the bag, and coins taken plus coins left are the coins there were |
| DailyRewards.ClaimKey | src/main/java/net/fit/cobblemonmerchants/merchant/rewards/DailyRewardManager.java:51-59 | the key is "player:merchant" for a shared cooldown and "player:merchant:entity" when an entity is given, so it always starts with "player:merchant" |
| DailyRewards.ResetAllIsPlayerExact | src/main/java/net/fit/cobblemonmerchants/merchant/rewards/DailyRewardManager.java:101-103 | resetting all of a player's claims matches a claim key iff it belongs to that player (player ids hold no colon) |
| DailyRewards.ResetMerchantSparesSharedKey | src/main/java/net/fit/cobblemonmerchants/merchant/rewards/DailyRewardManager.java:105-108 | resetting one merchant clears its per-entity keys but not the shared-cooldown key of the same player and merchant |
| DailyRewards.FormattedTimeReadsBack | src/main/java/net/fit/cobblemonmerchants/merchant/rewards/DailyRewardManager.java:145-155 | the "Hh Mm" / "Mm" reset text reads back as exactly the whole minutes left |
| DailyRewards.FormattedTimeShowsHours | src/main/java/net/fit/cobblemonmerchants/merchant/rewards/DailyRewardManager.java:145-155 | the text has an hours part exactly when at least an hour is left |
| DailyRewards.ReadHoursAndMinutes | src/main/java/net/fit/cobblemonmerchants/merchant/rewards/DailyRewardManager.java:151 | "Hh Mm" reads back as H * 60 + M minutes |
| DailyRewards.ReadMinutesOnly | src/main/java/net/fit/cobblemonmerchants/merchant/rewards/DailyRewardManager.java:153 | "Mm" reads back as M minutes |
| DailyRewards.DailyRewardManager.constructor | src/main/java/net/fit/cobblemonmerchants/merchant/rewards/DailyRewardManager.java:30-33 | a new manager holds no claims |
| DailyRewards.DailyRewardManager.Load | src/main/java/net/fit/cobblemonmerchants/merchant/rewards/DailyRewardManager.java:172-188 | the claims are the saved entries put one by one, later entries winning |
| DailyRewards.DailyRewardManager.HasClaimedToday | src/main/java/net/fit/cobblemonmerchants/merchant/rewards/DailyRewardManager.java:67-77 | a claim today needs a stored claim under the key; no stored claim means not claimed |
| DailyRewards.DailyRewardManager.DaysSinceLastClaim | src/main/java/net/fit/cobblemonmerchants/merchant/rewards/DailyRewardManager.java:121-131 | -1 without a claim; otherwise the days since it whenever that fits a Java int; 0 after a claim today |
| DailyRewards.DailyRewardManager.RecordClaim | src/main/java/net/fit/cobblemonmerchants/merchant/rewards/DailyRewardManager.java:85-93 | today's day is stored under the key and nothing else changes; afterwards the claim counts as today's and the days since it are 0 |
| DailyRewards.DailyRewardManager.ResetClaims | src/main/java/net/fit/cobblemonmerchants/merchant/rewards/DailyRewardManager.java:100-112 | exactly the keys with the player's prefix ("player:", or "player:merchant:" for one merchant) are removed |
| DailyRewards.DailyRewardManager.Save | src/main/java/net/fit/cobblemonmerchants/merchant/rewards/DailyRewardManager.java:157-170 | one entry per claim with its day, and loading the entries gives back exactly the claims |
| DailyTradeReset.UsageKey | src/main/java/net/fit/cobblemonmerchants/merchant/rewards/DailyTradeResetManager.java:45-47 | the key starts with "player:" and with "player:merchant:", and the text after that prefix reads back as the trade index |
| DailyTradeReset.KeysTellTradesApart | src/main/java/net/fit/cobblemonmerchants/merchant/rewards/DailyTradeResetManager.java:45-47 | two different trade indices of one merchant and player never share a key |
| DailyTradeReset.ResetIsPlayerExact | src/main/java/net/fit/cobblemonmerchants/merchant/rewards/DailyTradeResetManager.java:115-119 | the "player:" prefix removed by a reset matches a usage key iff it belongs to that player |
| DailyTradeReset.NextUsage | src/main/java/net/fit/cobblemonmerchants/merchant/rewards/DailyTradeResetManager.java:98-105 | the stored record is dated today and counts one more use than today's count before |
| DailyTradeReset.CleanupKeepsTodaysCounts | src/main/java/net/fit/cobblemonmerchants/merchant/rewards/DailyTradeResetManager.java:125-142 | cleaning keeps exactly the records not from an earlier day and never changes any key's count for today |
| DailyTradeReset.DailyTradeResetManager.constructor | src/main/java/net/fit/cobblemonmerchants/merchant/rewards/DailyTradeResetManager.java:27-30 | a new manager holds no records |
| DailyTradeReset.DailyTradeResetManager.Load | src/main/java/net/fit/cobblemonmerchants/merchant/rewards/DailyTradeResetManager.java:160-180 | the records are the saved entries put one by one, then cleaned of earlier days |
| DailyTradeReset.DailyTradeResetManager.CanUseTrade | src/main/java/net/fit/cobblemonmerchants/merchant/rewards/DailyTradeResetManager.java:78-81 | a trade can be used exactly when some uses remain today |
| DailyTradeReset.DailyTradeResetManager.GetRemainingUses | src/main/java/net/fit/cobblemonmerchants/merchant/rewards/DailyTradeResetManager.java:86-89 | never negative; remaining plus used reaches the maximum, and equals it while uses remain |
| DailyTradeReset.DailyTradeResetManager.RecordTradeUse | src/main/java/net/fit/cobblemonmerchants/merchant/rewards/DailyTradeResetManager.java:94-110 | only that trade's record changes, and its count for today goes up by exactly one |
| DailyTradeReset.DailyTradeResetManager.ResetPlayerUsage | src/main/java/net/fit/cobblemonmerchants/merchant/rewards/DailyTradeResetManager.java:115-119 | exactly the keys starting with "player:" are removed |
| DailyTradeReset.DailyTradeResetManager.CleanupOldRecords | src/main/java/net/fit/cobblemonmerchants/merchant/rewards/DailyTradeResetManager.java:125-142 | the records from earlier days are removed, the rest kept, and the count returned is the number removed |
| DailyTradeReset.DailyTradeResetManager.Save | src/main/java/net/fit/cobblemonmerchants/merchant/rewards/DailyTradeResetManager.java:144-158 | one entry per record, and loading the entries gives back exactly the records |
| Common.SaveEntries | src/main/java/net/fit/cobblemonmerchants/merchant/rewards/DailyRewardManager.java:161-166 | the saved list has one entry per key of the map, with that key's value |
| Common.SaveLoadRoundTrip | src/main/java/net/fit/cobblemonmerchants/merchant/rewards/DailyRewardManager.java:157-188 | loading what a save wrote gives back the map |
| Common.PlayerPrefixExact | src/main/java/net/fit/cobblemonmerchants/merchant/rewards/DailyRewardManager.java:103 | a key "q:rest" starts with "p:" iff p and q are the same colon-free player id |
| TradeEntries.DisplayStack | src/main/java/net/fit/cobblemonmerchants/merchant/config/ItemRequirement.java:239-251 | an exact requirement shows its stack; a tag shows its first registered item in the requirement's count, or the empty stack for an empty tag |
| TradeEntries.RequirementsShrinkStable | src/main/java/net/fit/cobblemonmerchants/merchant/config/ItemRequirement.java:197-209 | whether a stack matches a requirement (exact, component-blind or tag) or a plain cost depends on its item and components, not on how many remain |
| TradeEntries.CoinShrinkStable | src/main/java/net/fit/cobblemonmerchants/merchant/menu/MerchantTradeMenu.java:437-441 | the relic coin test depends only on the item |
| MerchantCosts.RemoveInOrderAmount | src/main/java/net/fit/cobblemonmerchants/merchant/menu/MerchantTradeMenu.java:286-313 | a removal takes exactly min(count, matching total): what stays owed is the shortfall, the slots lose exactly what was taken, and all of it from matching stacks |
| MerchantCosts.RemoveInOrderOwed | src/main/java/net/fit/cobblemonmerchants/merchant/menu/MerchantTradeMenu.java:286-297 | what is still owed after the walk is max(0, count minus the matching total) |
| MerchantCosts.RemoveInOrderTotal | src/main/java/net/fit/cobblemonmerchants/merchant/menu/MerchantTradeMenu.java:286-297 | the slots lose exactly the number of items taken |
| MerchantCosts.RemoveInOrderMatching | src/main/java/net/fit/cobblemonmerchants/merchant/menu/MerchantTradeMenu.java:286-297 | for a count-blind match the matching stacks lose exactly what was taken |
| MerchantCosts.RemoveInOrderKeeps | src/main/java/net/fit/cobblemonmerchants/merchant/menu/MerchantTradeMenu.java:289-295 | only matching stacks change, each only in its count and never below zero |
| MerchantCosts.RemoveInOrderGreedy | src/main/java/net/fit/cobblemonmerchants/merchant/menu/MerchantTradeMenu.java:289-295 | stacks give in slot order: a later matching stack loses something only once every earlier matching stack is empty |
| MerchantCosts.RemoveFromAgrees | src/main/java/net/fit/cobblemonmerchants/merchant/menu/MerchantTradeMenu.java:289-296 | the in-place walk from slot i keeps the slots before i and does to the rest what the removal does |
| MerchantCosts.DrawFromBagAmount | src/main/java/net/fit/cobblemonmerchants/merchant/menu/MerchantTradeMenu.java:419-431 | drawing from the first bag leaves loose coins alone and takes min(owed, the bag's coins) from it |
| MerchantCosts.PayCoinsAmount | src/main/java/net/fit/cobblemonmerchants/merchant/menu/MerchantTradeMenu.java:404-432 | `removeRelicCoins` takes exactly min(amount, coins available) and touches the bag only when the loose coins fall short |
| MerchantCosts.CoinRemovalKeepsFirstBag | src/main/java/net/fit/cobblemonmerchants/merchant/menu/MerchantTradeMenu.java:408-417 | taking loose coins leaves the first bag and its coins as they were |
| MerchantCosts.TradeChargesShrinkStable | src/main/java/net/fit/cobblemonmerchants/merchant/menu/MerchantTradeMenu.java:138-143 | every input a trade charges, from its entry or (legacy) from the offer's costs, matches by item and components only |
| MerchantCosts.PayAmount | src/main/java/net/fit/cobblemonmerchants/merchant/menu/MerchantTradeMenu.java:185-199 | paying one input takes min(count, available) of what counts for it |
| MerchantCosts.CoinInputsCheckedAlone | src/main/java/net/fit/cobblemonmerchants/merchant/menu/MerchantTradeMenu.java:150-183 | as written, two relic coin inputs of 64 and 36 pass the check against 70 coins held, and paying them leaves no coins: 70 paid for a price of 100 (finding 2) |
| MerchantCosts.AffordableCoinTradePaysInFull | src/main/java/net/fit/cobblemonmerchants/merchant/menu/MerchantTradeMenu.java:150-199 | corrected: with the coin inputs checked together, a trade paid twice in relic coins lowers the coins held by both counts in full |
| MerchantCosts.AsWrittenCoinTradeTakes | src/main/java/net/fit/cobblemonmerchants/merchant/menu/MerchantTradeMenu.java:177-199 | as written, a trade paid twice in relic coins that passes the check takes min(price, coins held): the full price when the coins cover it, otherwise every coin held |
| MerchantTradeMenus.CountMatching | src/main/java/net/fit/cobblemonmerchants/merchant/menu/MerchantTradeMenu.java:154-158 | the count is the sum over the 36 main slots of every matching stack's count |
| MerchantTradeMenus.FindFirstBag | src/main/java/net/fit/cobblemonmerchants/merchant/menu/MerchantTradeMenu.java:390-396 | the bag found is the first relic coin bag in slot order, or none |
| MerchantTradeMenus.CountRelicCoins | src/main/java/net/fit/cobblemonmerchants/merchant/menu/MerchantTradeMenu.java:377-399 | loose coins in the 36 slots plus the coins of the first bag |
| MerchantTradeMenus.RemoveMatching | src/main/java/net/fit/cobblemonmerchants/merchant/menu/MerchantTradeMenu.java:286-313 | the slots become what the in-order removal specifies, the returned amount is what it leaves owed, and the armour and offhand slots are untouched |
| MerchantTradeMenus.RemoveFromSlot | src/main/java/net/fit/cobblemonmerchants/merchant/menu/MerchantTradeMenu.java:290-295 | a matching slot is shrunk by min(owed, its count), a non-matching one left alone, every other slot untouched |
| MerchantTradeMenus.RemoveRelicCoins | src/main/java/net/fit/cobblemonmerchants/merchant/menu/MerchantTradeMenu.java:404-432 | the slots become loose coins paid in slot order, then the shortfall drawn from the first bag |
| MerchantTradeMenus.DrawFromFirstBag | src/main/java/net/fit/cobblemonmerchants/merchant/menu/MerchantTradeMenu.java:419-431 | only the first bag changes, losing min(owed, its coins) |
| MerchantTradeMenus.CountCharge | src/main/java/net/fit/cobblemonmerchants/merchant/menu/MerchantTradeMenu.java:150-159 | relic coin inputs count loose coins plus the bag, other inputs the matching stacks |
| MerchantTradeMenus.CanAfford | src/main/java/net/fit/cobblemonmerchants/merchant/menu/MerchantTradeMenu.java:146-183 | the check as written: it succeeds exactly when each input on its own is covered by what the player holds towards it, both counted before anything is taken |
| MerchantTradeMenus.PayCharges | src/main/java/net/fit/cobblemonmerchants/merchant/menu/MerchantTradeMenu.java:185-199 | the first input is taken, then the second; the armour and offhand slots are untouched |
| MerchantTradeMenus.PayCharge | src/main/java/net/fit/cobblemonmerchants/merchant/menu/MerchantTradeMenu.java:186-190 | one input is taken in relic coins or from matching stacks |
| MerchantTradeMenus.MerchantTradeMenu.constructor | src/main/java/net/fit/cobblemonmerchants/merchant/menu/MerchantTradeMenu.java:74-85 | the merchant's offers and entries, or none without a merchant; the offer count starts at -1 so the first broadcast syncs |
| MerchantTradeMenus.MerchantTradeMenu.ExecuteTrade | src/main/java/net/fit/cobblemonmerchants/merchant/menu/MerchantTradeMenu.java:127-281 | succeeds iff there is a merchant, the index is valid, the offer is in stock and each input on its own is covered (the check as written, so two relic coin inputs are each compared with all coins held); a failure changes nothing; a success takes the inputs, raises the offer's uses by one and makes a sync pending |
| MerchantTradeMenus.MerchantTradeMenu.BroadcastChanges | src/main/java/net/fit/cobblemonmerchants/merchant/menu/MerchantTradeMenu.java:337-354 | with a merchant the offers are sent exactly when a sync is pending; sending records the count and clears the flag, so an unchanged menu is not sent again |
| MerchantTradeMenus.MerchantTradeMenu.SetOffers | src/main/java/net/fit/cobblemonmerchants/merchant/menu/MerchantTradeMenu.java:111-113 | the offers are replaced and the sync state is kept |
| MerchantTradeScreens.BuildPositionToTradeMap | src/main/java/net/fit/cobblemonmerchants/merchant/client/MerchantTradeScreen.java:348-388 | the map built is the reference layout: configured positions first, then the trades without one on the free positions |
| MerchantTradeScreens.PlacePositioned | src/main/java/net/fit/cobblemonmerchants/merchant/client/MerchantTradeScreen.java:354-364 | the first loop yields exactly the in-grid configured positions of the first min(#entries, #offers) trades, and marks exactly those positions used |
| MerchantTradeScreens.PlaceFree | src/main/java/net/fit/cobblemonmerchants/merchant/client/MerchantTradeScreen.java:366-385 | the second loop completes the first pass's map to the reference layout |
| MerchantTradeScreens.PlaceOne | src/main/java/net/fit/cobblemonmerchants/merchant/client/MerchantTradeScreen.java:369-384 | one trade without a position takes the next free position, or the loop stops when the grid is full |
| MerchantTradeScreens.SkipUsed | src/main/java/net/fit/cobblemonmerchants/merchant/client/MerchantTradeScreen.java:374-376 | the scan stops at the first free position from where it starts, skipping exactly used positions |
| MerchantTradeScreens.Positioned | src/main/java/net/fit/cobblemonmerchants/merchant/client/MerchantTradeScreen.java:354-364 | every key of the first pass is a grid position holding a trade configured there |
| MerchantTradeScreens.PositionedLastWins | src/main/java/net/fit/cobblemonmerchants/merchant/client/MerchantTradeScreen.java:355-362 | a grid position is taken in the first pass iff some trade configures it, and then it holds the last such trade |
| MerchantTradeScreens.FreeTrades | src/main/java/net/fit/cobblemonmerchants/merchant/client/MerchantTradeScreen.java:368-372 | the trades without a configured position, in increasing index order |
| MerchantTradeScreens.FreeSlots | src/main/java/net/fit/cobblemonmerchants/merchant/client/MerchantTradeScreen.java:374-376 | the grid positions not taken, in increasing order |
| MerchantTradeScreens.FreeSlotsComplete | src/main/java/net/fit/cobblemonmerchants/merchant/client/MerchantTradeScreen.java:374-376 | every position not taken appears among the free ones |
| MerchantTradeScreens.LayoutInRange | src/main/java/net/fit/cobblemonmerchants/merchant/client/MerchantTradeScreen.java:348-388 | every key of the grid map is one of the 27 positions and every value an offer index |
| MerchantTradeScreens.LayoutInjective | src/main/java/net/fit/cobblemonmerchants/merchant/client/MerchantTradeScreen.java:348-388 | no trade appears at two positions |
| MerchantTradeScreens.PositionedInjective | src/main/java/net/fit/cobblemonmerchants/merchant/client/MerchantTradeScreen.java:355-362 | the first pass places each trade at most once, and only trades with a configured position |
| MerchantTradeScreens.LayoutPositioned | src/main/java/net/fit/cobblemonmerchants/merchant/client/MerchantTradeScreen.java:355-362 | a trade configured at an in-grid position sits there unless a later trade claims the same position |
| MerchantTradeScreens.LayoutOutsideGridUnmapped | src/main/java/net/fit/cobblemonmerchants/merchant/client/MerchantTradeScreen.java:355-372 | a trade configured outside the grid is placed nowhere: not at its position and not among the free trades |
| MerchantTradeScreens.LayoutFreeInOrder | src/main/java/net/fit/cobblemonmerchants/merchant/client/MerchantTradeScreen.java:366-385 | the k-th trade without a position takes the k-th free grid position, lowest first |
| MerchantTradeScreens.LayoutFullWhenCrowded | src/main/java/net/fit/cobblemonmerchants/merchant/client/MerchantTradeScreen.java:374-380 | when there are at least as many trades without a position as free positions, every grid position is filled |
| MerchantTradeScreens.LayoutOneFreeTrade | src/main/java/net/fit/cobblemonmerchants/merchant/client/MerchantTradeScreen.java:366-385 | a single offer without trade entries goes to position 0 |
| MerchantTradeScreens.InSlotIff | src/main/java/net/fit/cobblemonmerchants/merchant/client/MerchantTradeScreen.java:398-405 | a point lies in the 16 by 16 box of a grid position exactly when that position's row and column are computed from the point's offsets |
| MerchantTradeScreens.HoveredTradeIndex | src/main/java/net/fit/cobblemonmerchants/merchant/client/MerchantTradeScreen.java:390-410 | the index returned is the trade whose slot box contains the point, or -1 |
| MerchantTradeScreens.SlotUnder | src/main/java/net/fit/cobblemonmerchants/merchant/client/MerchantTradeScreen.java:396-409 | trying the map's entries in any order gives the trade under the point, or -1 |
| MerchantTradeScreens.HoverTargetMeaning | src/main/java/net/fit/cobblemonmerchants/merchant/client/MerchantTradeScreen.java:390-410 | -1 means exactly that no placed trade's box contains the point; any other answer is an offer index |
| MerchantTradeScreens.MouseClicked | src/main/java/net/fit/cobblemonmerchants/merchant/client/MerchantTradeScreen.java:568-625 | a left click on the daily reward claims it or is refused when already claimed, before any trade is looked at; a left click on a trade sends its index; anything else goes to the vanilla screen |
| MerchantTradeScreens.DailyRewardSlotNotReserved | src/main/java/net/fit/cobblemonmerchants/merchant/client/MerchantTradeScreen.java:348-388 | rendering reserves the daily reward's position but the click grid does not: one offer is placed at position 0 under a reward shown there, and the click goes to the reward |
| MerchantTradeScreens.RewardReserve | src/main/java/net/fit/cobblemonmerchants/merchant/client/MerchantTradeScreen.java:100-103 | the reserved set holds the reward's position exactly when the reward is shown and the position is not negative, and nothing else |
| MerchantTradeScreens.ReservingLayout | src/main/java/net/fit/cobblemonmerchants/merchant/client/MerchantTradeScreen.java:96-158 | the grid as rendering draws it: the first pass as in the click grid, then trades without a position on the positions neither taken nor reserved (ReservedSlotHoldsNoFreeTrade, ReservedRewardSlotIsFree) |
| MerchantTradeScreens.ReservedSlotHoldsNoFreeTrade | src/main/java/net/fit/cobblemonmerchants/merchant/client/MerchantTradeScreen.java:96-158 | with the reward's position reserved, a trade sits under the reward only when its own entry configures that position; reserving nothing gives the click grid Layout |
| MerchantTradeScreens.ReservedRewardSlotIsFree | src/main/java/net/fit/cobblemonmerchants/merchant/client/MerchantTradeScreen.java:96-158 | on the case the click grid gets wrong (one offer, reward at position 0) the reserving grid puts the offer at position 1, so the reward's slot has no trade under it while the reward is hovered there |
| MerchantTradeScreens.CountTextRoundTrip | src/main/java/net/fit/cobblemonmerchants/merchant/client/MerchantTradeScreen.java:324-330 | the count text "Nx" or "N-Mx" reads back as both bounds |
| MultiItemOffers.NewMultiItemOffer | src/main/java/net/fit/cobblemonmerchants/merchant/trading/MultiItemMerchantOffer.java:28-61 | a fresh offer for the display cost with no uses, the id list kept as given, the accepted items computed from it, and a required count equal to the display cost's count |
| MultiItemOffers.AcceptedItems | src/main/java/net/fit/cobblemonmerchants/merchant/trading/MultiItemMerchantOffer.java:48-60 | air is never an accepted item |
| MultiItemOffers.AcceptedItemsExact | src/main/java/net/fit/cobblemonmerchants/merchant/trading/MultiItemMerchantOffer.java:48-60 | an item is accepted iff it is not air and some id in the list resolves to it |
| MultiItemOffers.SatisfiedNeedsAcceptedFirst | src/main/java/net/fit/cobblemonmerchants/merchant/trading/MultiItemMerchantOffer.java:77-84 | a satisfied offer has a non-empty accepted first stack of at least the required count |
| MultiItemOffers.SecondIgnoredWithoutCostB | src/main/java/net/fit/cobblemonmerchants/merchant/trading/MultiItemMerchantOffer.java:86-93 | without a second cost the second stack does not matter, and satisfaction is exactly the first-stack check |
| MultiItemOffers.SecondCheckedWithCostB | src/main/java/net/fit/cobblemonmerchants/merchant/trading/MultiItemMerchantOffer.java:77-94 | with a second cost, satisfaction is the first-stack check plus the second stack being that cost's item in at least its count |
| MultiItemOffers.SatisfiedByMonotone | src/main/java/net/fit/cobblemonmerchants/merchant/trading/MultiItemMerchantOffer.java:77-94 | more of the same items still satisfies the offer |
| MultiItemOffers.CustomDisplayStack | src/main/java/net/fit/cobblemonmerchants/merchant/trading/MultiItemMerchantOffer.java:63-74 | cost A's item and count, carrying the custom name exactly when one is set and non-empty |
| RegistryLog.ParseLogFile | parse_registry_log.py:10-116 | the loop over the lines yields exactly the records of the reference fold over the cleaned lines, the last open record flushed when non-empty |
| RegistryLog.Search | parse_registry_log.py:39 | the groups returned belong to the leftmost match of the pattern; none exactly when no position matches |
| RegistryLog.SearchFrom | parse_registry_log.py:39 | a match found from a position is one at or after it, and none means no position from there matches |
| RegistryLog.MatchAt | parse_registry_log.py:39 | a match has one group per capture (two for a range) and every group is a non-empty run of the pattern's class characters |
| RegistryLog.RunEnd | parse_registry_log.py:39 | the greedy run of class characters stops exactly at the first character outside the class |
| RegistryLog.FirstRuleFrom | parse_registry_log.py:38-110 | the rule chosen is the first in chain order whose label the line contains; none when no label occurs |
| RegistryLog.SetAll | parse_registry_log.py:104-105 | each key gets its group's text, unless a later key repeats it; other keys are untouched and none is removed |
| RegistryLog.CleanAll | parse_registry_log.py:18-23 | one cleaned line per raw line |
| RegistryLog.SeparatorIsSkipped | parse_registry_log.py:26-27 | a line containing "===" or "---" changes nothing, wherever it appears |
| RegistryLog.StartLineOpensRecord | parse_registry_log.py:30-35 | a line starting "minecraft:" or "cobblemon:" closes the open record when non-empty and opens one holding only its item_id |
| RegistryLog.FieldLineTouchesOnlyFirstRule | parse_registry_log.py:38-110 | a field line can change only the fields of the first label it contains |
| RegistryLog.UnlabelledLineIsIgnored | parse_registry_log.py:38-110 | a line containing no label leaves the record as it was |
| RegistryLog.FlagFields | parse_registry_log.py:54-61 | the three flag fields record whether the lower-cased line contains "true" |
| RegistryLog.FlagRules | parse_registry_log.py:54-61 | only cobblemon_exclusive, craftable and growable are flags |
| RegistryLog.GameplayModifier | parse_registry_log.py:84-88 | a gameplay modifier line sets the modifier and the custom flag together, and only when the number pattern matches |
| RegistryLog.PriceRange | parse_registry_log.py:101-105 | a price range line sets both ends from the two groups of the first match, or nothing without a match |
| RegistryLog.PriceRangeDigits | parse_registry_log.py:101-105 | both ends are digit strings; nothing checks that the minimum is below the maximum |
| RegistryLog.LaterValueWins | parse_registry_log.py:54-61 | a later flag line overwrites the earlier value of its field |
| RegistryLog.ItemIdIsNoRuleKey | parse_registry_log.py:35-110 | no label sets item_id, so only a start line sets it |
| RegistryLog.FieldLineKeepsKeys | parse_registry_log.py:38-110 | field lines never remove a field |
| RegistryLog.StepShape | parse_registry_log.py:18-110 | one line closes the open record exactly when it opens a new one, and only a start line sets an item_id |
| RegistryLog.NoStartNoItems | parse_registry_log.py:18-110 | lines that open no record close no record and set no item_id |
| RegistryLog.RunShape | parse_registry_log.py:18-114 | after the first start line, the closed records are one per later start line, plus the preamble when non-empty |
| RegistryLog.RunShapeItemId | parse_registry_log.py:30-35 | once a start line has been read, the open record has an item_id |
| RegistryLog.RunShapePreamble | parse_registry_log.py:32-33 | a non-empty preamble is the first record closed |
| RegistryLog.RecordCount | parse_registry_log.py:10-116 | one record per start line, plus one for field lines before the first start line when they filled a field; that record has no item_id |
| RelicCoinBagItems.WithdrawCoins | src/main/java/net/fit/cobblemonmerchants/item/custom/RelicCoinBagItem.java:81-115 | an empty bag gives nothing; otherwise min(coins, amount) coins leave the bag and nothing else in the container changes |
| RelicCoinBagItems.DepositSlot | src/main/java/net/fit/cobblemonmerchants/item/custom/RelicCoinBagItem.java:135-146 | one slot is emptied of loose coins and their count added to the running total |
| RelicCoinBagItems.DepositAllCoins | src/main/java/net/fit/cobblemonmerchants/item/custom/RelicCoinBagItem.java:121-159 | the count returned is every loose coin in the 41 slots, none are left, every other slot keeps its non-coin stack, the bag gains exactly that count, and coins in bag plus slots are kept |
| RelicCoinBagItems.Emptied | src/main/java/net/fit/cobblemonmerchants/item/custom/RelicCoinBagItem.java:139-146 | a deposited slot holds no coin stack; a slot without coins is unchanged |
| RelicCoinBagItems.ZeroTotalNoCoins | src/main/java/net/fit/cobblemonmerchants/item/custom/RelicCoinBagItem.java:150-156 | slots holding no coins in total hold no coin stack, so a deposit of 0 changes nothing |
| RelicCoinBagItems.Use | src/main/java/net/fit/cobblemonmerchants/item/custom/RelicCoinBagItem.java:40-74 | crouching deposits iff there are loose coins; otherwise, with the other hand empty, a non-empty bag gives up to 64 coins; in every other case the screen opens and nothing changes |
| RelicCoinBagItems.OverrideStackedOnOther | src/main/java/net/fit/cobblemonmerchants/item/custom/RelicCoinBagItem.java:224-252 | a right-click with the bag on the cursor onto coins takes the whole stack into the bag and empties the slot, iff the click is secondary and the slot holds coins; coins in bag plus slots are kept |
| RelicCoinBagItems.OverrideOtherStackedOnMe | src/main/java/net/fit/cobblemonmerchants/item/custom/RelicCoinBagItem.java:254-280 | a right-click with coins on the cursor onto the bag moves them all into the bag and empties the cursor, iff the click is secondary and the cursor holds coins |
| RelicCoinBagMenus.InventoryIndex | src/main/java/net/fit/cobblemonmerchants/item/menu/RelicCoinBagMenu.java:62-76 | menu slots 2..37 show container slots 0..35, each exactly once (main inventory first, then the hotbar) |
| RelicCoinBagMenus.MenuSlotOf | src/main/java/net/fit/cobblemonmerchants/item/menu/RelicCoinBagMenu.java:62-76 | every container slot 0..35 has a menu slot in 2..37 |
| RelicCoinBagMenus.MenuSlotOfRoundTrip | src/main/java/net/fit/cobblemonmerchants/item/menu/RelicCoinBagMenu.java:62-76 | the menu slot of a container slot maps back to that container slot |
| RelicCoinBagMenus.BagUpdateKeepsCoinTotal | src/main/java/net/fit/cobblemonmerchants/item/menu/RelicCoinBagMenu.java:94-96 | rewriting the bag's components leaves the loose coin total unchanged |
| RelicCoinBagMenus.RelicCoinBagMenu.constructor | src/main/java/net/fit/cobblemonmerchants/item/menu/RelicCoinBagMenu.java:37-42 | the menu is bound to the player and to the selected slot that holds the bag |
| RelicCoinBagMenus.RelicCoinBagMenu.SetCoinCount | src/main/java/net/fit/cobblemonmerchants/item/menu/RelicCoinBagMenu.java:94-96 | the bag's coin count becomes max(0, count) and no other slot changes |
| RelicCoinBagMenus.RelicCoinBagMenu.AddCoins | src/main/java/net/fit/cobblemonmerchants/item/menu/RelicCoinBagMenu.java:101-104 | the count becomes max(0, current + amount) and nothing else changes |
| RelicCoinBagMenus.RelicCoinBagMenu.RemoveCoins | src/main/java/net/fit/cobblemonmerchants/item/menu/RelicCoinBagMenu.java:110-117 | succeeds iff the bag holds at least the amount, then takes exactly that many; on failure nothing changes |
| RelicCoinBagMenus.RelicCoinBagMenu.ToggleAutoPickup | src/main/java/net/fit/cobblemonmerchants/item/menu/RelicCoinBagMenu.java:123-139 | the auto-pickup flag (true when unset) is flipped and nothing else changes |
| RelicCoinBagMenus.RelicCoinBagMenu.DepositCarried | src/main/java/net/fit/cobblemonmerchants/item/menu/RelicCoinBagMenu.java:171-174 | the coins on the cursor all go into the bag, the cursor is emptied, and coins held in total are kept |
| RelicCoinBagMenus.RelicCoinBagMenu.WithdrawToCursor | src/main/java/net/fit/cobblemonmerchants/item/menu/RelicCoinBagMenu.java:177-192 | min(coins, 64) with the left button or min(coins, 32) otherwise leave the bag for the cursor; coins held in total are kept |
| RelicCoinBagMenus.RelicCoinBagMenu.WithdrawToInventory | src/main/java/net/fit/cobblemonmerchants/item/menu/RelicCoinBagMenu.java:193-213 | only the coins the inventory accepted leave the bag, and none when the add failed or placed nothing |
| RelicCoinBagMenus.RelicCoinBagMenu.Clicked | src/main/java/net/fit/cobblemonmerchants/item/menu/RelicCoinBagMenu.java:154-223 | slot 1 only flips auto-pickup; slot 0 deposits carried coins, or with an empty cursor and a non-empty bag withdraws per click type, otherwise changes nothing; other slots are left to vanilla |
| RelicCoinBagMenus.RelicCoinBagMenu.DepositSlot | src/main/java/net/fit/cobblemonmerchants/item/menu/RelicCoinBagMenu.java:244-257 | a coin stack in a container slot goes into the bag whole and the slot is left with none; coins held in total are kept |
| RelicCoinBagMenus.RelicCoinBagMenu.QuickMoveStack | src/main/java/net/fit/cobblemonmerchants/item/menu/RelicCoinBagMenu.java:226-282 | a coin stack in an inventory slot is deposited whole; the two special slots and empty slots change nothing; other stacks are left to vanilla |
| SyncOffersPackets.DecodedCost | src/main/java/net/fit/cobblemonmerchants/network/SyncMerchantOffersPacket.java:91-92 | only item and count of a decoded cost stack survive; an empty stack gives air with count 0 |
| SyncOffersPackets.UtfsRoundTrip | src/main/java/net/fit/cobblemonmerchants/network/SyncMerchantOffersPacket.java:117-119 | n written strings are read back as the same list, leaving what follows them |
| SyncOffersPackets.HeaderRoundTrip | src/main/java/net/fit/cobblemonmerchants/network/SyncMerchantOffersPacket.java:88-99 | the multi flag and costs read back as sent, leaving what follows |
| SyncOffersPackets.FieldsRoundTrip | src/main/java/net/fit/cobblemonmerchants/network/SyncMerchantOffersPacket.java:101-109 | result, uses, max uses, xp, price multiplier and demand read back as sent |
| SyncOffersPackets.MultiPartRoundTrip | src/main/java/net/fit/cobblemonmerchants/network/SyncMerchantOffersPacket.java:113-124 | the accepted id list and optional display name read back as sent |
| SyncOffersPackets.PlainOfferRoundTrip | src/main/java/net/fit/cobblemonmerchants/network/SyncMerchantOffersPacket.java:133-135 | a plain offer decodes to the offer the client builds from it, leaving what follows |
| SyncOffersPackets.MultiOfferRoundTrip | src/main/java/net/fit/cobblemonmerchants/network/SyncMerchantOffersPacket.java:113-132 | a multi-item offer decodes to the one its constructor builds, with uses restored and what follows left |
| SyncOffersPackets.OfferRoundTrip | src/main/java/net/fit/cobblemonmerchants/network/SyncMerchantOffersPacket.java:86-136 | decode(encode(o)) is the received form of every offer o, leaving what follows |
| SyncOffersPackets.OffersRoundTrip | src/main/java/net/fit/cobblemonmerchants/network/SyncMerchantOffersPacket.java:86-137 | n encoded offers decode to the received form of each, in order |
| SyncOffersPackets.PacketRoundTrip | src/main/java/net/fit/cobblemonmerchants/network/SyncMerchantOffersPacket.java:32-140 | decode(encode(p)) succeeds with the same container id and one received offer per sent offer, in order |
| SyncOffersPackets.PlainOfferExact | src/main/java/net/fit/cobblemonmerchants/network/SyncMerchantOffersPacket.java:134 | a plain offer with normal costs comes back exactly as sent |
| SyncOffersPackets.MultiOfferLosesDemand | src/main/java/net/fit/cobblemonmerchants/network/SyncMerchantOffersPacket.java:127-132 | a multi-item offer comes back with negative uses clamped to 0 and demand 0, so it is unchanged iff its demand was 0 |
| SyncOffersPackets.CostBFlag | src/main/java/net/fit/cobblemonmerchants/network/SyncMerchantOffersPacket.java:45-49 | cost B is flagged and written iff it is non-empty, and an empty one reads back as absent |
| SyncOffersPackets.WriteHeader | src/main/java/net/fit/cobblemonmerchants/network/SyncMerchantOffersPacket.java:38-49 | the buffer gains exactly the header's encoding |
| SyncOffersPackets.WriteFields | src/main/java/net/fit/cobblemonmerchants/network/SyncMerchantOffersPacket.java:51-59 | the buffer gains exactly the six fields' encoding |
| SyncOffersPackets.WriteIds | src/main/java/net/fit/cobblemonmerchants/network/SyncMerchantOffersPacket.java:65-69 | the buffer gains the id count and then each id, in order |
| SyncOffersPackets.WriteMultiPart | src/main/java/net/fit/cobblemonmerchants/network/SyncMerchantOffersPacket.java:62-76 | the buffer gains exactly the multi-item part's encoding |
| SyncOffersPackets.WriteOffer | src/main/java/net/fit/cobblemonmerchants/network/SyncMerchantOffersPacket.java:36-77 | the buffer gains exactly one offer's encoding |
| SyncOffersPackets.Encode | src/main/java/net/fit/cobblemonmerchants/network/SyncMerchantOffersPacket.java:32-78 | the buffer gains exactly the packet's encoding |
| SyncOffersPackets.ReadHeader | src/main/java/net/fit/cobblemonmerchants/network/SyncMerchantOffersPacket.java:88-99 | the read agrees with header decoding: it fails exactly when decoding does and otherwise consumes the same tokens |
| SyncOffersPackets.ReadFields | src/main/java/net/fit/cobblemonmerchants/network/SyncMerchantOffersPacket.java:101-109 | the read agrees with field decoding |
| SyncOffersPackets.ReadUtfs | src/main/java/net/fit/cobblemonmerchants/network/SyncMerchantOffersPacket.java:117-119 | reading n strings agrees with decoding them and fails as soon as one is missing |
| SyncOffersPackets.ReadMultiPart | src/main/java/net/fit/cobblemonmerchants/network/SyncMerchantOffersPacket.java:115-124 | the read agrees with multi-part decoding; a negative count reads no ids |
| SyncOffersPackets.ReadOffer | src/main/java/net/fit/cobblemonmerchants/network/SyncMerchantOffersPacket.java:86-136 | reading one offer agrees with offer decoding |
| SyncOffersPackets.RestoreUses | src/main/java/net/fit/cobblemonmerchants/network/SyncMerchantOffersPacket.java:129-132 | resetting uses and then increasing them once per use read leaves max(0, uses) |
| SyncOffersPackets.ReadNext | src/main/java/net/fit/cobblemonmerchants/network/SyncMerchantOffersPacket.java:86-136 | one pass of the loop reads the next offer or stops the whole read |
| SyncOffersPackets.ReadOffers | src/main/java/net/fit/cobblemonmerchants/network/SyncMerchantOffersPacket.java:84-137 | the loop over n offers agrees with decoding n offers |
| SyncOffersPackets.ReadFromAgrees | src/main/java/net/fit/cobblemonmerchants/network/SyncMerchantOffersPacket.java:84-137 | the loop's running list followed by the rest is the decoding of all n offers |
| SyncOffersPackets.Decode | src/main/java/net/fit/cobblemonmerchants/network/SyncMerchantOffersPacket.java:81-140 | the whole decode agrees with packet decoding on the unread tokens |
| SyncOffersPackets.Handle | src/main/java/net/fit/cobblemonmerchants/network/SyncMerchantOffersPacket.java:151-160 | the offers replace the menu's iff a merchant trade menu with the packet's container id is open; otherwise nothing changes |
| TransactionRecords.NewRecord | src/main/java/net/fit/cobblemonmerchants/ledger/TransactionRecord.java:28-49 | a new record is one trade (quantity 1) at the given time and id, carrying the given player and name, merchant and name, input item and count, and output item and count |
| TransactionRecords.BundlingIsAnEquivalence | src/main/java/net/fit/cobblemonmerchants/ledger/TransactionRecord.java:81-88 | bundling compatibility is reflexive, symmetric and transitive |
| TransactionRecords.IncrementQuantity | src/main/java/net/fit/cobblemonmerchants/ledger/TransactionRecord.java:93-95 | the quantity grows by one, nothing else changes, and the record still bundles with its old self |
| TransactionRecords.CoinChangeFromTotals | src/main/java/net/fit/cobblemonmerchants/ledger/TransactionRecord.java:120-152 | the coin change is the total received in coins minus the total paid in coins, and 0 when no coins are involved |
| TransactionRecords.CoinChangeIsPerTrade | src/main/java/net/fit/cobblemonmerchants/ledger/TransactionRecord.java:137-152 | the coin change of a bundle is quantity times that of one trade, so each increment adds one trade's change |
| TransactionRecords.CoinChangeStringRoundTrip | src/main/java/net/fit/cobblemonmerchants/ledger/TransactionRecord.java:157-166 | the coin change string parses back to the change, starting with '+' iff it is positive and '-' iff negative |
| TransactionRecords.ShortName | src/main/java/net/fit/cobblemonmerchants/ledger/TransactionRecord.java:198-205 | a missing id gives ""; otherwise the short name is a suffix of the id |
| TransactionRecords.ShortNameCut | src/main/java/net/fit/cobblemonmerchants/ledger/TransactionRecord.java:198-205 | a shortened name drops exactly everything through the first colon and is non-empty; an unshortened one has no colon or only a trailing one |
| TransactionRecords.ShortNameOfNamespacedId | src/main/java/net/fit/cobblemonmerchants/ledger/TransactionRecord.java:198-205 | "namespace:path" shortens to path |
| TransactionRecords.UndoubleDouble | src/main/java/net/fit/cobblemonmerchants/ledger/TransactionRecord.java:210 | doubling every quote is undone by halving doubled quotes |
| TransactionRecords.EscapeCsv | src/main/java/net/fit/cobblemonmerchants/ledger/TransactionRecord.java:207-213 | a missing value gives "", a value without comma, quote or newline stays as is, any other is wrapped in quotes |
| TransactionRecords.EscapeCsvRoundTrip | src/main/java/net/fit/cobblemonmerchants/ledger/TransactionRecord.java:207-213 | unescaping an escaped value gives it back |
| TransactionRecords.Cells | src/main/java/net/fit/cobblemonmerchants/ledger/TransactionRecord.java:171-186 | a row has one cell per header column, with quantity, counts and coin change at their columns |
| TransactionRecords.HeaderHasTwelveColumns | src/main/java/net/fit/cobblemonmerchants/ledger/TransactionRecord.java:191-193 | the header splits at commas into the twelve column names |
| TransactionRecords.HeaderColumnsCommaFree | src/main/java/net/fit/cobblemonmerchants/ledger/TransactionRecord.java:191-193 | no column name contains a comma |
| TransactionRecords.CellsSplitBack | src/main/java/net/fit/cobblemonmerchants/ledger/TransactionRecord.java:171-186 | twelve comma-free cells joined with commas split back into the same cells |
| TransactionRecords.RowMatchesHeader | src/main/java/net/fit/cobblemonmerchants/ledger/TransactionRecord.java:171-193 | with comma-free ids and names a row splits into as many cells as the header has columns, and quantity, counts and coin change read back as numbers from their columns |
| TransactionRecords.RowSplitsIntoFields | src/main/java/net/fit/cobblemonmerchants/ledger/TransactionRecord.java:171-186 | with comma-free ids and names a row splits back into its fields, in order |
| TransactionRecords.NumberFieldsReadBack | src/main/java/net/fit/cobblemonmerchants/ledger/TransactionRecord.java:171-186 | quantity, input count, output count and coin change read back from their fields |
| TransactionRecords.TextCellsHaveNoComma | src/main/java/net/fit/cobblemonmerchants/ledger/TransactionRecord.java:176-182 | escaped comma-free names and shortened ids contain no comma |
| TransactionLedgers.Merge | src/main/java/net/fit/cobblemonmerchants/ledger/TransactionLedger.java:299 | `Map.merge` with sum: the key is added if missing, its value grows by v, every other key keeps its value |
| TransactionLedgers.TallyIsSum | src/main/java/net/fit/cobblemonmerchants/ledger/TransactionLedger.java:298-307 | a tally map built by merging record after record holds, under each key, the sum of the weights of the records with that key |
| TransactionLedgers.TallyKeys | src/main/java/net/fit/cobblemonmerchants/ledger/TransactionLedger.java:298-307 | a key is in the tally iff some record has it |
| TransactionLedgers.StatsOfAppend | src/main/java/net/fit/cobblemonmerchants/ledger/TransactionLedger.java:298-307 | updating the five caches with one more record gives the caches of the longer list |
| TransactionLedgers.GainedMinusSpent | src/main/java/net/fit/cobblemonmerchants/ledger/TransactionLedger.java:635-650 | coins gained minus coins spent over the records of a key is their net coin change |
| TransactionLedgers.TotalIsSumForConstantKey | src/main/java/net/fit/cobblemonmerchants/ledger/TransactionLedger.java:675-677 | the circulation total is the sum of every record's coin change |
| TransactionLedgers.Unsynced | src/main/java/net/fit/cobblemonmerchants/ledger/TransactionLedger.java:562-566 | the unsynced count is at most the number of transactions |
| TransactionLedgers.UnsyncedBounds | src/main/java/net/fit/cobblemonmerchants/ledger/TransactionLedger.java:562-566 | the unsynced count is 0 iff every transaction id is synced, and all of them iff none is |
| TransactionLedgers.Trimmed | src/main/java/net/fit/cobblemonmerchants/ledger/TransactionLedger.java:157-163 | a save keeps the newest min(size, 10000) transactions, in order |
| TransactionLedgers.Without | src/main/java/net/fit/cobblemonmerchants/ledger/TransactionLedger.java:285-286 | removing players leaves exactly the other keys with their values |
| TransactionLedgers.FiledPut | src/main/java/net/fit/cobblemonmerchants/ledger/TransactionLedger.java:226-228 | filing a player's record and stamping its time keeps pending records and times held for the same players |
| TransactionLedgers.FiledRemove | src/main/java/net/fit/cobblemonmerchants/ledger/TransactionLedger.java:285-286 | removing players from both maps keeps them filed |
| TransactionLedgers.DistinctCount | src/main/java/net/fit/cobblemonmerchants/ledger/TransactionLedger.java:258-262 | a list without repeats has as many elements as its set, so each pending record is finalised once |
| TransactionLedgers.TransactionLedger.constructor | src/main/java/net/fit/cobblemonmerchants/ledger/TransactionLedger.java:66-68 | a new ledger is empty, with no webhook, and its statistics agree with the empty list |
| TransactionLedgers.TransactionLedger.Load | src/main/java/net/fit/cobblemonmerchants/ledger/TransactionLedger.java:79-115 | the loaded list, synced ids and webhook settings are the saved ones, nothing is pending, and the statistics are rebuilt to agree with the list |
| TransactionLedgers.TransactionLedger.UpdateStatistics | src/main/java/net/fit/cobblemonmerchants/ledger/TransactionLedger.java:298-307 | one merge into each of the five maps and nothing else changes |
| TransactionLedgers.TransactionLedger.Finalize | src/main/java/net/fit/cobblemonmerchants/ledger/TransactionLedger.java:238-241 | the record is appended to the list and the statistics still agree with it |
| TransactionLedgers.TransactionLedger.RecordTransaction | src/main/java/net/fit/cobblemonmerchants/ledger/TransactionLedger.java:188-233 | a trade that bundles with the player's pending record within 10000 ms only raises its quantity; otherwise any pending record is finalised and the new one becomes pending; the last time is stamped and the statistics keep agreeing; the synced ids and the webhook settings are unchanged |
| TransactionLedgers.TransactionLedger.FinalizeEach | src/main/java/net/fit/cobblemonmerchants/ledger/TransactionLedger.java:258-262 | each chosen pending record is appended exactly once, in some order, and the statistics keep agreeing; the synced ids and the webhook settings are unchanged |
| TransactionLedgers.TransactionLedger.FinalizeAllPending | src/main/java/net/fit/cobblemonmerchants/ledger/TransactionLedger.java:258-264 | every pending record is appended exactly once and both pending maps end empty; the synced ids and the webhook settings are unchanged |
| TransactionLedgers.TransactionLedger.FinalizeExpiredPending | src/main/java/net/fit/cobblemonmerchants/ledger/TransactionLedger.java:270-292 | with records pending, exactly the players whose last trade is more than 10000 ms old are finalised and forgotten; with none pending nothing changes; the synced ids and the webhook settings are unchanged |
| TransactionLedgers.TransactionLedger.FinalizeAndForget | src/main/java/net/fit/cobblemonmerchants/ledger/TransactionLedger.java:284-290 | the given players' records are appended exactly once and only those players are removed from both maps; the synced ids and the webhook settings are unchanged |
| TransactionLedgers.TransactionLedger.ClearAllData | src/main/java/net/fit/cobblemonmerchants/ledger/TransactionLedger.java:783-796 | the list, pending maps, statistics and synced ids end empty; webhook settings stay |
| TransactionLedgers.TransactionLedger.ClearWebhookSynced | src/main/java/net/fit/cobblemonmerchants/ledger/TransactionLedger.java:573-579 | returns how many ids were synced and empties the set; the list, the pending maps, the statistics and the webhook settings are unchanged, so a valid ledger stays valid |
| TransactionLedgers.TransactionLedger.Save | src/main/java/net/fit/cobblemonmerchants/ledger/TransactionLedger.java:139-167 | writes the webhook settings, only those synced ids that belong to a held transaction, and the newest 10000 transactions |
| TransactionLedgers.TransactionLedger.SyncSummary | src/main/java/net/fit/cobblemonmerchants/ledger/TransactionLedger.java:477-495 | zeros without a configured webhook; otherwise [total, already synced, unsynced] with the last two adding up to the total |
| TransactionLedgers.TransactionLedger.PlayerCoinChange | src/main/java/net/fit/cobblemonmerchants/ledger/TransactionLedger.java:621-623 | the cached coin change of a player is the sum of that player's coin changes over the list |
| TransactionLedgers.TransactionLedger.MerchantCoinChange | src/main/java/net/fit/cobblemonmerchants/ledger/TransactionLedger.java:628-630 | the cached coin change of a merchant is the sum of its coin changes over the list |
| TransactionLedgers.TransactionLedger.MerchantTradeCount | src/main/java/net/fit/cobblemonmerchants/ledger/TransactionLedger.java:587-589 | the cached trade count of a merchant is the sum of its quantities over the list |
| TransactionLedgers.TransactionLedger.PlayerTradeCount | src/main/java/net/fit/cobblemonmerchants/ledger/TransactionLedger.java:591-593 | the cached trade count of a player is the sum of its quantities over the list |
| TransactionLedgers.TransactionLedger.OutputItemTradeCount | src/main/java/net/fit/cobblemonmerchants/ledger/TransactionLedger.java:301 | the cached count of an output item is the sum of quantities of its trades |
| TransactionLedgers.TransactionLedger.PlayerGainedMinusSpent | src/main/java/net/fit/cobblemonmerchants/ledger/TransactionLedger.java:635-650 | a player's coins gained minus coins spent equals that player's cached coin change |
| TransactionLedgers.TransactionLedger.MerchantGivenMinusCollected | src/main/java/net/fit/cobblemonmerchants/ledger/TransactionLedger.java:655-670 | a merchant's coins given minus collected equals its cached coin change |
| BlackMarketConfig.NextRotationBoundary | src/main/java/net/fit/cobblemonmerchants/merchant/blackmarket/BlackMarketConfig.java:97-108 | world time plus the countdown is exactly the start of the next rotation, for every world time |
| CoinWithdrawSlots.CoinWithdrawSlot.constructor | src/main/java/net/fit/cobblemonmerchants/item/menu/CoinWithdrawSlot.java:18-21 | the slot is bound to the menu whose bag it draws on |
| TransactionLedgers.CoinsGained | src/main/java/net/fit/cobblemonmerchants/ledger/TransactionLedger.java:635-640 | the coins a key's records gained (positive changes only) are never negative |
| TransactionLedgers.CoinsSpent | src/main/java/net/fit/cobblemonmerchants/ledger/TransactionLedger.java:645-650 | the coins a key's records spent, counted as a positive number, are never negative |
| DailyTradeReset.DailyTradeResetManager.GetUsesToday | src/main/java/net/fit/cobblemonmerchants/merchant/rewards/DailyTradeResetManager.java:53-68 | today's uses of the trade under its key: 0 without a record or when the record is from another day, otherwise the stored count (NextUsage and CleanupKeepsTodaysCounts are stated in these terms) |
| CoinWithdrawSlots.MayPlace | src/main/java/net/fit/cobblemonmerchants/item/menu/CoinWithdrawSlot.java:31-36 | only a relic coin may be placed on the withdraw slot |
| CoinWithdrawSlots.CoinWithdrawSlot.HasItem | src/main/java/net/fit/cobblemonmerchants/item/menu/CoinWithdrawSlot.java:119-123 | the slot holds an item, and may be picked from, exactly when the bag holds coins; GetItem shows a coin exactly then |
| CoinCountRenderer.FormatCoinCount | src/main/java/net/fit/cobblemonmerchants/item/client/CoinCountRenderer.java:20-37 | the plain number below 1000; below 10000 the thousands and, unless it is 0, one truncated decimal, then "k"; from 10000 the whole thousands and "k" (FormatReadsBack, ShownTruncates and EndsInK prove what it shows) |
| BlackMarketConfig.RotationId | src/main/java/net/fit/cobblemonmerchants/merchant/blackmarket/BlackMarketConfig.java:97-99 | world time divided by the rotation length, truncated toward zero like Java's long division (CountdownRange and SameRotationUntilCountdown prove what it means) |
| BlackMarketConfig.TicksUntilRotation | src/main/java/net/fit/cobblemonmerchants/merchant/blackmarket/BlackMarketConfig.java:106-108 | the rotation length minus the truncating remainder of world time (NextRotationBoundary and CountdownRange prove what it means) |
| BlackMarketConfig.FormatTicksAsTime | src/main/java/net/fit/cobblemonmerchants/merchant/blackmarket/BlackMarketConfig.java:115-122 | "Dd Hh Mm" with minutes = ticks / 1000, days = minutes / 1440, hours = (minutes mod 1440) / 60 and minutes mod 60 (TimePartsBounds and FormatTicksReadsBack prove its parts) |
| DailyRewards.FormattedTimeUntilReset | src/main/java/net/fit/cobblemonmerchants/merchant/rewards/DailyRewardManager.java:145-155 | "Hh Mm" with whole hours and the minutes part when an hour or more is left, otherwise "Mm" (FormattedTimeReadsBack and FormattedTimeShowsHours prove what it shows) |
| TransactionRecords.CanBundleWith | src/main/java/net/fit/cobblemonmerchants/ledger/TransactionRecord.java:81-88 | two records bundle when player, merchant, input item and count, and output item and count agree (BundlingIsAnEquivalence) |
| TransactionRecords.CoinChange | src/main/java/net/fit/cobblemonmerchants/ledger/TransactionRecord.java:137-151 | coins gained on the output side minus coins spent on the input side, each scaled by the quantity (CoinChangeFromTotals and CoinChangeIsPerTrade) |
| TransactionRecords.CoinChangeString | src/main/java/net/fit/cobblemonmerchants/ledger/TransactionRecord.java:157-166 | "+n" for a gain, the signed number for a loss, "0" otherwise (CoinChangeStringRoundTrip) |
| TransactionRecords.CsvHeader | src/main/java/net/fit/cobblemonmerchants/ledger/TransactionRecord.java:191-193 | the twelve column names joined by commas (HeaderHasTwelveColumns) |
| TransactionRecords.CsvRow | src/main/java/net/fit/cobblemonmerchants/ledger/TransactionRecord.java:171-186 | the twelve fields in header order, text fields escaped and ids shortened, joined by commas (RowMatchesHeader, RowSplitsIntoFields, NumberFieldsReadBack) |
| MultiItemOffers.SatisfiedBy | src/main/java/net/fit/cobblemonmerchants/merchant/trading/MultiItemMerchantOffer.java:77-93 | the first stack is an accepted item in at least the required count and, when the offer has a second cost, the second stack is that item in at least its count (the Satisfied* and Second* lemmas) |
| RegistryLog.Step | parse_registry_log.py:26-110 | one iteration of the loop on a cleaned line: a separator is skipped, a start line emits the current record and opens a new one, any other line goes to the first matching field rule (StepShape and the per-rule lemmas) |
| RegistryLog.Run | parse_registry_log.py:18-110 | the loop's state after the given cleaned lines, one Step per line in order (RunShape) |
| RegistryLog.Parse | parse_registry_log.py:10-116 | the records of a log: every line cleaned, the loop run, and the last record emitted (ParseLogFile is the loop proved equal to it; RecordCount) |
| MerchantCosts.RemoveInOrder | src/main/java/net/fit/cobblemonmerchants/merchant/menu/MerchantTradeMenu.java:286-297 | the reference removal: slots walked in order while something is owed, each matching stack shrunk by as much as it can give (the RemoveInOrder* lemmas prove its effect) |
| MerchantCosts.PayCoins | src/main/java/net/fit/cobblemonmerchants/merchant/menu/MerchantTradeMenu.java:404-432 | `removeRelicCoins` as a reference: loose coins in slot order, then the shortfall from the first bag (PayCoinsAmount) |
| MerchantCosts.TradeCharges | src/main/java/net/fit/cobblemonmerchants/merchant/menu/MerchantTradeMenu.java:137-143 | the inputs a trade charges: its entry's requirements when it has one, else (`executeTradeLegacy`) the offer's cost A and its non-empty cost B (TradeChargesShrinkStable) |
| MerchantCosts.AffordableAsWritten | src/main/java/net/fit/cobblemonmerchants/merchant/menu/MerchantTradeMenu.java:177-183 | the check as written: each input on its own against everything that counts for it, as CanAfford and ExecuteTrade use it |
| MerchantCosts.AffordableCombined | src/main/java/net/fit/cobblemonmerchants/merchant/menu/MerchantTradeMenu.java:177-183 | corrected: the check as written plus, for two relic coin inputs, their sum against the coins held (finding 2; AffordableCoinTradePaysInFull) |
| MerchantTradeScreens.Layout | src/main/java/net/fit/cobblemonmerchants/merchant/client/MerchantTradeScreen.java:348-388 | the reference grid: positioned trades first, then trades without a position on the free slots in order (BuildPositionToTradeMap equals it; the Layout* lemmas) |
| MerchantTradeScreens.GridPositionAt | src/main/java/net/fit/cobblemonmerchants/merchant/client/MerchantTradeScreen.java:390-409 | the grid slot under the mouse computed directly from the offsets, used as the reference for the slot-by-slot hit test (InSlotIff, SlotUnder) |
| TransactionLedgers.TransactionLedger.UnsyncedCount | src/main/java/net/fit/cobblemonmerchants/ledger/TransactionLedger.java:562-566 | the number of held transactions whose id is not synced (UnsyncedBounds; SyncSummary reports it) |
| MerchantTradeScreens.IsHoveringDailyReward | src/main/java/net/fit/cobblemonmerchants/merchant/client/MerchantTradeScreen.java:293-308 | the point is over the daily reward exactly when the reward is shown, its position is not negative, and the point lies in that position's 16 by 16 slot, even outside the grid (MouseClicked checks it before any trade; DailyRewardSlotNotReserved) |
| MerchantTradeScreens.DailyRewardCountText | src/main/java/net/fit/cobblemonmerchants/merchant/client/MerchantTradeScreen.java:324-330 | "Nx" when the minimum and maximum agree, otherwise "N-Mx" (CountTextRoundTrip reads both bounds back) |
| MerchantTradeScreens.HoverTarget | src/main/java/net/fit/cobblemonmerchants/merchant/client/MerchantTradeScreen.java:390-410 | the trade mapped at the grid slot under the point, or -1 when no mapped slot holds it (HoveredTradeIndex equals it; HoverTargetMeaning) |
| TransactionRecords.TotalInputCost | src/main/java/net/fit/cobblemonmerchants/ledger/TransactionRecord.java:120-122 | the input count times the bundle quantity (CoinChangeFromTotals states the coin change through it) |
| TransactionRecords.TotalOutputReceived | src/main/java/net/fit/cobblemonmerchants/ledger/TransactionRecord.java:127-129 | the output count times the bundle quantity (CoinChangeFromTotals states the coin change through it) |
| RegistryLog.ApplyFields | parse_registry_log.py:37-110 | a field line: the first label of the elif chain that the line contains fills its fields, and a line with no label changes nothing (FieldLineTouchesOnlyFirstRule, UnlabelledLineIsIgnored and the per-rule lemmas) |
| RegistryLog.Clean | parse_registry_log.py:19-23 | the line stripped, then, when it contains "]:", the text after its first "]:" stripped again (CleanAll applies it to every line) |
| SyncOffersPackets.EncodePacket | src/main/java/net/fit/cobblemonmerchants/network/SyncMerchantOffersPacket.java:32-78 | the container id, the offer count, then each offer's tokens in order (Encode writes exactly these; PacketRoundTrip) |
| SyncOffersPackets.DecodePacket | src/main/java/net/fit/cobblemonmerchants/network/SyncMerchantOffersPacket.java:81-140 | reads the container id and count, then that many offers (none for a negative count), failing on a missing or mistyped token (Decode agrees with it; PacketRoundTrip) |
| SyncOffersPackets.Received | src/main/java/net/fit/cobblemonmerchants/network/SyncMerchantOffersPacket.java:81-140 | the offer the client rebuilds: costs cut to item and count, an empty cost B absent, and for a multi-item offer uses clamped at zero, demand zero and the accepted items resolved again (OfferRoundTrip and PacketRoundTrip are stated against it) |
| BlackMarketInventory.LuckyTradeInfo.TotalCount | src/main/java/net/fit/cobblemonmerchants/merchant/blackmarket/BlackMarketInventory.java:543-545 | the lucky price count plus the lucky uses count (CheckForLuckyTrades reports only a positive total) |

## Left out

- Registry-log parser: field lines before the first item line are not dropped. They fill the parser's initial record, which is emitted without an `item_id` (parse_registry_log.py:12-13, 37-41, 113-114). RegistryLog.RecordCount states the resulting count.
- The parser's `main`, `write_csv` and file reading are I/O. The model starts from the list of log lines.
- Java `int` and `long` arithmetic is unbounded here. Overflow is not modelled, for example `usesToday + 1`, `inputCount * quantity`, or a coin count near `Integer.MAX_VALUE`. Java's truncating `/` and `%` are modelled where operands may be negative.
- Clocks (`System.currentTimeMillis`, the epoch day, the time to midnight, world time) are parameters. So are randomness and Black Market offer generation (a function of player and rotation), the lucky price/uses rolls, item and tag registries, and the outcome of vanilla's `Inventory.add`.
- Vanilla `Inventory.add`, item dropping and `moveItemStackTo` are not modelled. Their effect on the player's other slots is left out. RelicCoinBagItems.WithdrawCoins only takes the coins from the bag, and RelicCoinBagMenu.QuickMoveStack leaves non-coin stacks to vanilla.
- MerchantTradeMenus.MerchantTradeMenu.ExecuteTrade: for the same reason its post-state gives the main slots only as the settled inputs; the result stack it hands the player by `Inventory.add` or a drop (MerchantTradeMenu.java:200-204, 269-272) is not in it.
- RelicCoinBagItems.Use: sounds, the status message and opening the bag's screen are side effects without state in the model.
- `appendHoverText` and `onEntityItemUpdate` of the relic coin bag are not modelled. The first calls a `formatCoinCountExact` that CoinCountRenderer.java does not define (RelicCoinBagItem.java:196). The second is entity ticking.
- Rendering, tooltips, sounds and the client-side copy of the coin count (`ContainerData`) are not modelled.
- MerchantTradeScreens.MouseClicked returns the action to take. It does not model the optimistic "claimed" flag or the packets it sends.
- The display-stack cache of multi-item offers is left out: the cached stack is the computed one.
- Item stacks are values. Two references to the same Java `ItemStack` are modelled as one inventory cell. No other aliasing is captured.
- The trade menu reads trade entries as `ItemRequirement`s with an optional grid position. The `TradeEntry` record in MerchantConfig.java:55-66 has different fields and none of the methods the menu calls. The model follows the menu.
- Overlapping requirements: two inputs that draw on the same stacks are each counted against all of them, as the source does; the trade menu models this check as written. For two relic coin inputs the corrected check is the separate AffordableCombined (see Findings).
- TransactionLedger.FinalizeExpiredPending and FinalizeAndForget finalise the expired players' records and then remove them from both maps. The source removes and finalises player by player. The resulting lists and maps are the same.
- Finalisation order follows `HashMap` iteration, which is left open. The contracts hold for every order.
- Ledger CSV file writing, the full CSV export, the webhook HTTP calls and their threads, and logging are I/O. Only the counts `syncAllToWebhook` reports are modelled.
- Ledger diagnostics that only sort or filter the list are not modelled: `getTotalTradeCount`, the top-N lists, `getTransactionsInRange/ForPlayer/ForMerchant`, and the summary report.
- `configureWebhook` and `disableWebhook` are plain setters.
- NBT and codec details of saving are not modelled. A save is the data written (`SavedLedger`, the daily stores' entry lists). Ids are text, so the skipping of stored ids that fail to parse as UUIDs on load is not modelled.
- The packet buffer holds one token per field written. Byte widths, the item stack codec's own encoding, `writeUtf`'s length limit and `enqueueWork` scheduling are left out.
- SyncOffersPackets.ReadFields reads all six fields before checking them, where Java throws at the first bad one. A failed decode is a `None` result and the packet is dropped either way.
- `ROTATION_DAYS` is a mutable static in BlackMarketConfig.java. It is modelled as its initial value 14.
- Common.IsDigit, Common.Lower and Common.Strip are ASCII-only, as the registry-log parser uses them. Python's `\d`, `str.lower` and `str.strip` also act on non-ASCII digits, letters and spaces.
- MerchantTradeScreens.MouseClicked and the hover functions take the mouse position as integers. The source's `(int)` cast of the double coordinates (MerchantTradeScreen.java:596) is not modelled.
- Concurrency is not modelled: the ledger's `ConcurrentLinkedQueue` and the webhook threads.

## Findings

| source | as written | input that shows it | evidently intended | confidence | as-written member | corrected member |
|---|---|---|---|---|---|---|
| src/main/java/net/fit/cobblemonmerchants/merchant/blackmarket/BlackMarketInventory.java:307-309 | the countdown clock's day count is ticks / 1000 / 1440, which is always 0 because a rotation is 14 × 24000 ticks | any world time, for example 0: 336000 ticks until rotation gives 0 days | whole days left, ticks / 24000, between 0 and 14 | high, not executed | BlackMarketInventory.CountdownDaysAlwaysZero | BlackMarketInventory.IntendedCountdownDaysRange |
| src/main/java/net/fit/cobblemonmerchants/merchant/menu/MerchantTradeMenu.java:150-183 | when both inputs of a trade are relic coins, each is checked separately against the same coin total | loose coin stacks of 64 and 6, and a trade asking 64 + 36 coins: both checks pass and the trade goes through, collecting all 70 coins for a price of 100 | both coin inputs together must not exceed the coins held | high, not executed | MerchantCosts.CoinInputsCheckedAlone | MerchantCosts.AffordableCoinTradePaysInFull |
| src/main/java/net/fit/cobblemonmerchants/merchant/client/MerchantTradeScreen.java:348-388 | rendering reserves the daily reward's position (MerchantTradeScreen.java:100-103), but `buildPositionToTradeMap`, which hovering and clicking use, does not, so a trade without a position can be placed under the reward, and a left click there claims the reward instead of trading | no trade entries, one offer, the daily reward shown at position 0: the click grid puts the offer at position 0, rendering draws it at position 1, and a click on position 0 goes to the reward | the click grid reserves the reward's position as rendering does | high, not executed | MerchantTradeScreens.DailyRewardSlotNotReserved | MerchantTradeScreens.ReservedSlotHoldsNoFreeTrade |
