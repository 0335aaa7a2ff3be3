/** Slot 0 of the relic coin bag's menu. It holds nothing itself: it shows a
    single coin while the bag has coins, swallows coins placed on it into
    the bag, and hands out fresh coin stacks drawn from the bag. */
module CoinWithdrawSlots {
  import opened Common
  import opened Items
  import opened PlayerInventories
  import opened RelicCoinBagMenus

  /** `Integer.MAX_VALUE`, which vanilla passes for a plain pickup. */
  const IntMax := 0x7fff_ffff

  /** `mayPlace`: only relic coins may be put on the slot. */
  predicate MayPlace(stack: Stack)
  {
    ItemOf(stack) == RelicCoin
  }

  /** The number of coins `remove(amount)` draws from a bag holding
      `coinCount > 0`: one for a plain pickup, otherwise the amount asked
      for capped by the bag and by a stack of 64. */
  function WithdrawAmount(amount: int, coinCount: int): (n: int)
    requires coinCount > 0
    ensures amount == IntMax ==> n == 1
    ensures amount != IntMax ==> n <= amount && n <= coinCount && n <= MaxStack
    ensures amount != IntMax ==> n == amount || n == coinCount || n == MaxStack
    ensures 0 <= amount ==> 0 <= n <= coinCount
  {
    if amount == IntMax then 1 else Min(amount, Min(coinCount, MaxStack))
  }

  class CoinWithdrawSlot {
    const menu: RelicCoinBagMenu

    constructor (menu: RelicCoinBagMenu)
      ensures this.menu == menu
    {
      this.menu := menu;
    }

    /** `hasItem` and `mayPickup`: the bag has coins. */
    predicate HasItem()
      requires menu.player.Valid() && 0 <= menu.bagSlot < ContainerSize
      reads this, menu, menu.player, menu.player.slots
    {
      menu.CoinCount() > 0
    }

    /** `getItem`: one display coin while the bag has coins, so the slot
        reports an item exactly when `hasItem` does. */
    function GetItem(): (shown: Stack)
      requires menu.player.Valid() && 0 <= menu.bagSlot < ContainerSize
      reads this, menu, menu.player, menu.player.slots
      ensures !IsEmpty(shown) <==> HasItem()
      ensures HasItem() ==> IsCoin(shown) && CountOf(shown) == 1
    {
      if menu.CoinCount() > 0 then Plain(RelicCoin, 1) else Empty
    }

    /** `set`: a non-empty coin stack placed here goes into the bag; the
        slot itself keeps nothing and any other stack is ignored. */
    method Set(stack: Stack)
      requires menu.Valid()
      modifies menu.player.slots
      ensures menu.Valid()
      ensures !IsEmpty(stack) && MayPlace(stack) ==>
        menu.player.slots[..] == old(menu.player.slots[..])[menu.bagSlot := old(menu.Bag()).(coins := Some(old(menu.CoinCount()) + stack.count))]
      ensures !(!IsEmpty(stack) && MayPlace(stack)) ==> menu.player.slots[..] == old(menu.player.slots[..])
    {
      if !IsEmpty(stack) && MayPlace(stack) {
        menu.AddCoins(CountOf(stack));
      }
    }

    /** `remove`: from an empty bag nothing; otherwise a fresh coin stack of
        `WithdrawAmount` coins, which leave the bag. For any amount vanilla
        asks for (never negative) the coins taken plus the coins left are
        the coins there were, and the stack holds at most 64. */
    method Remove(amount: int) returns (taken: Stack)
      requires menu.Valid()
      modifies menu.player.slots
      ensures menu.Valid()
      ensures old(menu.CoinCount()) <= 0 ==> taken == Empty && menu.player.slots[..] == old(menu.player.slots[..])
      ensures old(menu.CoinCount()) > 0 ==>
        var n := WithdrawAmount(amount, old(menu.CoinCount()));
        && taken == Plain(RelicCoin, n)
        && menu.player.slots[..] == old(menu.player.slots[..])[menu.bagSlot := old(menu.Bag()).(coins := Some(old(menu.CoinCount()) - n))]
      ensures amount >= 0 ==> menu.CoinCount() + CountOf(taken) == old(menu.CoinCount()) && CountOf(taken) <= MaxStack
    {
      var coinCount := menu.CoinCount();
      if coinCount <= 0 {
        return Empty;
      }
      var n := WithdrawAmount(amount, coinCount);
      var ok := menu.RemoveCoins(n);
      if ok {
        return Plain(RelicCoin, n);
      }
      return Empty;
    }
  }
}
