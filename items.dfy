/** Item stacks, item costs and merchant offers as the mod sees them. A stack
    is a value here; Java's mutable `ItemStack` objects become array cells or
    fields that the modelled methods overwrite. Only the data components the
    mod reads are kept: the relic coin count and auto-pickup flag of a coin
    bag, and a custom display name. */
module Items {
  import opened Common

  /** A registered item. The items the mod names itself are constructors
      (`minecraft:air`, `minecraft:barrier`, `minecraft:clock`,
      `cobblemon:relic_coin`, `cobblemoncustommerchants:relic_coin_bag`);
      every other item is known by its registry id. Java compares items by
      identity, so two items are the same exactly when they are equal here. */
  datatype Item = Air | Barrier | Clock | RelicCoin | RelicCoinBag | Other(id: string)

  /** Vanilla's largest stack of relic coins. */
  const MaxStack := 64

  datatype Stack = Stack(item: Item, count: int, coins: Option<int>, autoPickup: Option<bool>, name: Option<string>)

  const Empty := Stack(Air, 0, None, None, None)

  /** A fresh stack of `count` of `item` with no components. */
  function Plain(item: Item, count: int): Stack
  {
    Stack(item, count, None, None, None)
  }

  /** `ItemStack.isEmpty`: air or a count of zero or less. */
  predicate IsEmpty(s: Stack)
  {
    s.item == Air || s.count <= 0
  }

  /** `ItemStack.getItem`: an empty stack reports air. */
  function ItemOf(s: Stack): (item: Item)
    ensures IsEmpty(s) ==> item == Air
    ensures item != Air ==> item == s.item && !IsEmpty(s)
  {
    if IsEmpty(s) then Air else s.item
  }

  /** `ItemStack.getCount`: an empty stack counts zero. */
  function CountOf(s: Stack): (n: int)
    ensures n >= 0
    ensures !IsEmpty(s) ==> n == s.count > 0
  {
    if IsEmpty(s) then 0 else s.count
  }

  predicate IsCoin(s: Stack)
  {
    ItemOf(s) == RelicCoin
  }

  predicate IsBag(s: Stack)
  {
    ItemOf(s) == RelicCoinBag
  }

  /** The coins a bag holds: its coin component, 0 when absent. */
  function BagCoins(s: Stack): int
  {
    match s.coins
    case None => 0
    case Some(n) => n
  }

  /** `ItemStack.isSameItemSameComponents`. */
  predicate SameItemSameComponents(a: Stack, b: Stack)
  {
    ItemOf(a) == ItemOf(b)
    && ((IsEmpty(a) && IsEmpty(b))
        || (a.coins == b.coins && a.autoPickup == b.autoPickup && a.name == b.name))
  }

  /** `ItemStack.shrink`: the count becomes `getCount() - n`; item and
      components stay. Taking at most what is there leaves exactly the
      rest. */
  function Shrink(s: Stack, n: int): (t: Stack)
    ensures t.(count := s.count) == s
    ensures 0 <= n <= CountOf(s) ==> CountOf(t) == CountOf(s) - n
  {
    s.(count := CountOf(s) - n)
  }

  /** `ItemCost`: an item and a count. */
  datatype Cost = Cost(item: Item, count: int)

  /** `ItemCost.itemStack`. */
  function CostStack(c: Cost): Stack
  {
    Plain(c.item, c.count)
  }

  /** What a multi-item offer adds to a plain offer. */
  datatype MultiData = MultiData(acceptedIds: seq<string>, accepted: set<Item>, requiredCount: int, displayName: Option<string>)

  /** `MerchantOffer`, with the multi-item part present for a
      `MultiItemMerchantOffer`. The price multiplier is a Java float, carried
      along but never computed with. */
  datatype Offer = Offer(
    costA: Cost,
    costB: Option<Cost>,
    result: Stack,
    uses: int,
    maxUses: int,
    xp: int,
    priceMultiplier: real,
    demand: int,
    multi: Option<MultiData>)

  /** `MerchantOffer.isOutOfStock`. */
  predicate IsOutOfStock(o: Offer)
  {
    o.uses >= o.maxUses
  }

  /** `MerchantOffer.getCostB`: the second cost's stack, or the empty stack. */
  function CostBStack(o: Offer): (s: Stack)
    ensures o.costB.None? ==> IsEmpty(s)
  {
    match o.costB
    case None => Empty
    case Some(c) => CostStack(c)
  }

  /** `MerchantOffer.increaseUses`. */
  function IncreaseUses(o: Offer): (p: Offer)
    ensures p.uses == o.uses + 1 && p.(uses := o.uses) == o
  {
    o.(uses := o.uses + 1)
  }
}
