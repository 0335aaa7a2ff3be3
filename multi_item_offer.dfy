/** `MultiItemMerchantOffer`: an offer whose first input may be any of a
    list of items. Item ids are resolved through the game's registry, given
    here as `resolve`: `None` when the id does not parse, otherwise the item
    it names, which is air for an id the registry does not know. */
module MultiItemOffers {
  import opened Common
  import opened Items

  /** The items a list of ids stands for: every id that parses and names an
      item other than air. */
  function AcceptedItems(ids: seq<string>, resolve: string -> Option<Item>): (items: set<Item>)
    ensures Air !in items
  {
    if ids == [] then {}
    else
      var r := resolve(ids[|ids| - 1]);
      AcceptedItems(ids[..|ids| - 1], resolve) + (if r.Some? && r.value != Air then {r.value} else {})
  }

  /** The constructor: a fresh vanilla offer (no uses, no demand) for the
      display cost, plus the id list kept as given, the accepted items and a
      required count equal to the display cost's count. */
  method NewMultiItemOffer(displayCost: Cost, costB: Option<Cost>, result: Stack, maxUses: int, xp: int,
                           priceMultiplier: real, acceptedIds: seq<string>, displayName: Option<string>,
                           resolve: string -> Option<Item>)
    returns (o: Offer)
    ensures o.costA == displayCost && o.costB == costB && o.result == result
    ensures o.uses == 0 && o.demand == 0 && o.maxUses == maxUses && o.xp == xp && o.priceMultiplier == priceMultiplier
    ensures o.multi.Some?
    ensures o.multi.value.acceptedIds == acceptedIds
    ensures o.multi.value.accepted == AcceptedItems(acceptedIds, resolve)
    ensures o.multi.value.requiredCount == displayCost.count
    ensures o.multi.value.displayName == displayName
  {
    var accepted: set<Item> := {};
    var i := 0;
    while i < |acceptedIds|
      invariant 0 <= i <= |acceptedIds|
      invariant accepted == AcceptedItems(acceptedIds[..i], resolve)
    {
      var itemId := acceptedIds[i];
      var item := resolve(itemId);
      if item.Some? && item.value != Air {
        accepted := accepted + {item.value};
      }
      AcceptedItemsSnoc(acceptedIds[..i], itemId, resolve);
      TakeOneMore(acceptedIds, i);
      i := i + 1;
    }
    assert acceptedIds[..i] == acceptedIds;
    o := Offer(displayCost, costB, result, 0, maxUses, xp, priceMultiplier, 0,
               Some(MultiData(acceptedIds, accepted, displayCost.count, displayName)));
  }

  /** One more id adds its item, unless it fails to parse or names air. */
  lemma AcceptedItemsSnoc(ids: seq<string>, id: string, resolve: string -> Option<Item>)
    ensures AcceptedItems(ids + [id], resolve)
      == AcceptedItems(ids, resolve) + (if resolve(id).Some? && resolve(id).value != Air then {resolve(id).value} else {})
  {
    assert (ids + [id])[..|ids|] == ids;
  }

  /** Every accepted item is named by some id of the list, and every id that
      resolves to a real item contributes it. */
  lemma {:induction false} AcceptedItemsExact(ids: seq<string>, resolve: string -> Option<Item>, item: Item)
    ensures item in AcceptedItems(ids, resolve) <==>
      item != Air && exists id :: id in ids && resolve(id) == Some(item)
  {
    if ids != [] {
      var init, last := ids[..|ids| - 1], ids[|ids| - 1];
      AcceptedItemsExact(init, resolve, item);
      assert ids == init + [last];
      if item != Air && exists id :: id in ids && resolve(id) == Some(item) {
        var id :| id in ids && resolve(id) == Some(item);
        if id != last {
          assert id in init;
        }
      }
    }
  }

  /** `satisfiedBy`: the first stack is an accepted item in at least the
      required count, and, when the offer has a non-empty second cost, the
      second stack is that cost's item in at least its count. */
  predicate SatisfiedBy(m: MultiData, costB: Stack, first: Stack, second: Stack)
  {
    var firstMatches := ItemOf(first) in m.accepted && CountOf(first) >= m.requiredCount;
    if !firstMatches then false
    else if !IsEmpty(costB) then ItemOf(costB) == ItemOf(second) && CountOf(second) >= CountOf(costB)
    else true
  }

  /** Satisfaction needs an accepted first item in the required count, so
      an empty first slot never satisfies an offer built by the
      constructor. */
  lemma SatisfiedNeedsAcceptedFirst(m: MultiData, resolve: string -> Option<Item>, costB: Stack, first: Stack, second: Stack)
    requires m.accepted == AcceptedItems(m.acceptedIds, resolve)
    requires SatisfiedBy(m, costB, first, second)
    ensures !IsEmpty(first) && ItemOf(first) in m.accepted
    ensures CountOf(first) >= m.requiredCount
  {
  }

  /** Without a second cost the second stack does not matter. */
  lemma SecondIgnoredWithoutCostB(m: MultiData, costB: Stack, first: Stack, second: Stack, other: Stack)
    requires IsEmpty(costB)
    ensures SatisfiedBy(m, costB, first, second) == SatisfiedBy(m, costB, first, other)
    ensures SatisfiedBy(m, costB, first, second) <==> ItemOf(first) in m.accepted && CountOf(first) >= m.requiredCount
  {
  }

  /** With a second cost, the second stack must be its item in at least its
      count. */
  lemma SecondCheckedWithCostB(m: MultiData, costB: Stack, first: Stack, second: Stack)
    requires !IsEmpty(costB)
    ensures SatisfiedBy(m, costB, first, second) <==>
      && ItemOf(first) in m.accepted && CountOf(first) >= m.requiredCount
      && ItemOf(second) == ItemOf(costB) && CountOf(second) >= CountOf(costB)
  {
  }

  /** More of the same items still satisfies the offer. */
  lemma SatisfiedByMonotone(m: MultiData, costB: Stack, first: Stack, second: Stack, first': Stack, second': Stack)
    requires SatisfiedBy(m, costB, first, second)
    requires ItemOf(first') == ItemOf(first) && CountOf(first') >= CountOf(first)
    requires ItemOf(second') == ItemOf(second) && CountOf(second') >= CountOf(second)
    ensures SatisfiedBy(m, costB, first', second')
  {
  }

  /** `getCustomDisplayStack`: cost A's stack, carrying the custom name when
      one is set and non-empty. The cache only avoids rebuilding it. */
  function CustomDisplayStack(o: Offer): (s: Stack)
    requires o.multi.Some?
    ensures ItemOf(s) == ItemOf(CostStack(o.costA)) && CountOf(s) == CountOf(CostStack(o.costA))
    ensures s.name.Some? <==> o.multi.value.displayName.Some? && o.multi.value.displayName.value != ""
    ensures s.name.Some? ==> s.name == o.multi.value.displayName
  {
    var stack := CostStack(o.costA);
    match o.multi.value.displayName
    case Some(name) => if name != "" then stack.(name := Some(name)) else stack
    case None => stack
  }
}
