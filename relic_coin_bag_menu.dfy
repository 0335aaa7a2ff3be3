/** The relic coin bag's screen on the server: slot 0 withdraws and deposits
    coins, slot 1 toggles auto-pickup, slots 2..37 show the player's
    inventory. The bag is the stack in the selected hotbar slot, and its coin
    count and auto-pickup flag are components of that stack. */
module RelicCoinBagMenus {
  import opened Common
  import opened Items
  import opened PlayerInventories

  /** Slots of the menu: withdraw, toggle, 27 main and 9 hotbar slots. */
  const MenuSlots := 38

  /** `addPlayerInventorySlots`: the container index behind menu slot
      2..37. Menu slots 2..28 show the main inventory 9..35, slots 29..37 the
      hotbar 0..8, so every main and hotbar slot appears exactly once. */
  function InventoryIndex(menuSlot: int): (i: int)
    requires 2 <= menuSlot < MenuSlots
    ensures 0 <= i < ItemsSize && MenuSlotOf(i) == menuSlot
  {
    if menuSlot < 29 then menuSlot - 2 + 9 else menuSlot - 29
  }

  /** The menu slot showing container index `i` of the main inventory. */
  function MenuSlotOf(i: int): (menuSlot: int)
    requires 0 <= i < ItemsSize
    ensures 2 <= menuSlot < MenuSlots
  {
    if i < 9 then i + 29 else i - 9 + 2
  }

  lemma MenuSlotOfRoundTrip(i: int)
    requires 0 <= i < ItemsSize
    ensures InventoryIndex(MenuSlotOf(i)) == i
  {
  }

  /** Rewriting the bag, which is no coin stack, before and after, leaves
      the loose coins alone. */
  lemma BagUpdateKeepsCoinTotal(s: seq<Stack>, k: int, bag: Stack)
    requires 0 <= k < |s| && !IsCoin(s[k]) && !IsCoin(bag)
    ensures CoinTotal(s[k := bag]) == CoinTotal(s)
  {
    MatchingTotalUpdate(s, k, bag, IsCoin);
  }

  datatype ClickType = Pickup | QuickMove | OtherClick

  class RelicCoinBagMenu {
    const player: Player
    /** The selected hotbar slot holding the bag. */
    const bagSlot: int

    constructor (player: Player, bagSlot: int)
      requires player.Valid() && 0 <= bagSlot < ContainerSize
      ensures this.player == player && this.bagSlot == bagSlot
    {
      this.player := player;
      this.bagSlot := bagSlot;
    }

    /** The bag is in its slot and holds a non-negative count. */
    predicate Valid()
      reads this, player, player.slots
    {
      player.Valid() && 0 <= bagSlot < ContainerSize
      && IsBag(player.slots[bagSlot]) && BagCoins(player.slots[bagSlot]) >= 0
    }

    function Bag(): Stack
      requires player.Valid() && 0 <= bagSlot < ContainerSize
      reads this, player, player.slots
    {
      player.slots[bagSlot]
    }

    /** `getCoinCount` on the server: the bag's coin component, 0 if unset. */
    function CoinCount(): int
      requires player.Valid() && 0 <= bagSlot < ContainerSize
      reads this, player, player.slots
    {
      BagCoins(Bag())
    }

    /** Coins in the bag plus coins loose in the player's slots and cursor. */
    function CoinsHeld(): int
      requires player.Valid() && 0 <= bagSlot < ContainerSize
      reads this, player, player.slots
    {
      CoinCount() + CoinTotal(player.slots[..]) + CoinTotal([player.carried])
    }

    /** `setCoinCount`: stores max(0, count) on the bag and nothing else. */
    method SetCoinCount(count: int)
      requires Valid()
      modifies player.slots
      ensures Valid()
      ensures player.slots[..] == old(player.slots[..])[bagSlot := old(Bag()).(coins := Some(Max(0, count)))]
      ensures CoinCount() == Max(0, count)
    {
      player.slots[bagSlot] := player.slots[bagSlot].(coins := Some(Max(0, count)));
    }

    /** `addCoins`: the count becomes max(0, current + amount). */
    method AddCoins(amount: int)
      requires Valid()
      modifies player.slots
      ensures Valid()
      ensures player.slots[..] == old(player.slots[..])[bagSlot := old(Bag()).(coins := Some(Max(0, old(CoinCount()) + amount)))]
    {
      var current := CoinCount();
      SetCoinCount(current + amount);
    }

    /** `removeCoins`: succeeds exactly when the bag holds at least `amount`,
        and then takes exactly that many; otherwise nothing changes. */
    method RemoveCoins(amount: int) returns (ok: bool)
      requires Valid()
      modifies player.slots
      ensures Valid()
      ensures ok <==> old(CoinCount()) >= amount
      ensures ok ==> player.slots[..] == old(player.slots[..])[bagSlot := old(Bag()).(coins := Some(old(CoinCount()) - amount))]
      ensures !ok ==> player.slots[..] == old(player.slots[..])
    {
      var current := CoinCount();
      if current >= amount {
        SetCoinCount(current - amount);
        return true;
      }
      return false;
    }

    /** `isAutoPickupEnabled`: the flag component, true when unset. */
    function AutoPickupEnabled(): bool
      requires player.Valid() && 0 <= bagSlot < ContainerSize
      reads this, player, player.slots
    {
      match Bag().autoPickup
      case None => true
      case Some(b) => b
    }

    /** `toggleAutoPickup`: stores the opposite of the current flag. */
    method ToggleAutoPickup()
      requires Valid()
      modifies player.slots
      ensures Valid()
      ensures player.slots[..] == old(player.slots[..])[bagSlot := old(Bag()).(autoPickup := Some(!old(AutoPickupEnabled())))]
      ensures AutoPickupEnabled() == !old(AutoPickupEnabled())
    {
      var enabled := AutoPickupEnabled();
      player.slots[bagSlot] := player.slots[bagSlot].(autoPickup := Some(!enabled));
    }

    /** Slot 0 clicked with relic coins on the cursor: they all go into
        the bag and the cursor is emptied. */
    method DepositCarried()
      requires Valid() && IsCoin(player.carried)
      modifies player, player.slots
      ensures Valid() && player.carried == Empty
      ensures player.slots[..] == old(player.slots[..])[bagSlot := old(Bag()).(coins := Some(old(CoinCount()) + old(player.carried.count)))]
      ensures CoinsHeld() == old(CoinsHeld())
    {
      var carried := player.carried;
      ghost var before := player.slots[..];
      MatchingTotalSnoc([], carried, IsCoin);
      AddCoins(carried.count);
      player.carried := Empty;
      MatchingTotalSnoc([], Empty, IsCoin);
      BagUpdateKeepsCoinTotal(before, bagSlot, player.slots[bagSlot]);
    }

    /** Slot 0 picked up with an empty cursor: up to 64 coins (left button)
        or 32 (right button) move from the bag onto the cursor. */
    method WithdrawToCursor(button: int)
      requires Valid() && IsEmpty(player.carried) && CoinCount() > 0
      modifies player, player.slots
      ensures Valid()
      ensures var n := Min(old(CoinCount()), if button == 0 then 64 else 32);
        && player.carried == Plain(RelicCoin, n)
        && player.slots[..] == old(player.slots[..])[bagSlot := old(Bag()).(coins := Some(old(CoinCount()) - n))]
      ensures CoinsHeld() == old(CoinsHeld())
    {
      ghost var loose := CoinTotal(player.slots[..]);
      ghost var before := player.slots[..];
      CoinTotalOne(player.carried);
      var n := Min(CoinCount(), if button == 0 then 64 else 32);
      var _ := RemoveCoins(n);
      BagUpdateKeepsCoinTotal(before, bagSlot, player.slots[bagSlot]);
      assert CoinTotal(player.slots[..]) == loose;
      player.carried := Plain(RelicCoin, n);
      CoinTotalOne(player.carried);
    }

    /** Slot 0 shift-clicked: up to 64 coins are offered to the inventory.
        `accepted` is whether vanilla's `Inventory.add` reported success and
        `leftover` how many coins it could not place; only the placed coins
        leave the bag, and only when the bag can pay them. */
    method WithdrawToInventory(accepted: bool, leftover: int)
      requires Valid()
      modifies player.slots
      ensures Valid()
      ensures var placed := Min(old(CoinCount()), 64) - leftover;
        if accepted && 0 < placed <= old(CoinCount())
        then player.slots[..] == old(player.slots[..])[bagSlot := old(Bag()).(coins := Some(old(CoinCount()) - placed))]
        else player.slots[..] == old(player.slots[..])
    {
      var n := Min(CoinCount(), 64);
      if accepted {
        var placed := n - leftover;
        if placed > 0 {
          var _ := RemoveCoins(placed);
        }
      }
    }

    /** `clicked`: `handled` is false for the inventory slots, which vanilla
        handles. Slot 1 only flips the auto-pickup flag. Slot 0 deposits
        coins from the cursor; with an empty cursor and coins in the bag a
        PICKUP withdraws onto the cursor and a QUICK_MOVE into the
        inventory; anything else on slot 0 changes nothing. */
    method Clicked(slotId: int, button: int, clickType: ClickType, accepted: bool, leftover: int) returns (handled: bool)
      requires Valid()
      modifies player, player.slots
      ensures Valid()
      ensures handled <==> slotId == 0 || slotId == 1
      ensures !handled ==> player.carried == old(player.carried) && player.slots[..] == old(player.slots[..])
      ensures slotId == 1 ==>
        && player.carried == old(player.carried)
        && player.slots[..] == old(player.slots[..])[bagSlot := old(Bag()).(autoPickup := Some(!old(AutoPickupEnabled())))]
      ensures slotId == 0 && old(IsCoin(player.carried)) ==>
        && player.carried == Empty
        && player.slots[..] == old(player.slots[..])[bagSlot := old(Bag()).(coins := Some(old(CoinCount()) + old(player.carried.count)))]
        && CoinsHeld() == old(CoinsHeld())
      ensures slotId == 0 && clickType == Pickup && old(IsEmpty(player.carried)) && old(CoinCount()) > 0 ==>
        var n := Min(old(CoinCount()), if button == 0 then 64 else 32);
        && player.carried == Plain(RelicCoin, n)
        && player.slots[..] == old(player.slots[..])[bagSlot := old(Bag()).(coins := Some(old(CoinCount()) - n))]
        && CoinsHeld() == old(CoinsHeld())
      ensures slotId == 0 && clickType == QuickMove && old(IsEmpty(player.carried)) && old(CoinCount()) > 0 ==>
        var placed := Min(old(CoinCount()), 64) - leftover;
        && player.carried == old(player.carried)
        && (if accepted && 0 < placed <= old(CoinCount())
            then player.slots[..] == old(player.slots[..])[bagSlot := old(Bag()).(coins := Some(old(CoinCount()) - placed))]
            else player.slots[..] == old(player.slots[..]))
      ensures slotId == 0 && old(!IsCoin(player.carried) && (!IsEmpty(player.carried) || CoinCount() <= 0)) ==>
        player.carried == old(player.carried) && player.slots[..] == old(player.slots[..])
      ensures slotId == 0 && clickType == OtherClick && old(!IsCoin(player.carried)) ==>
        player.carried == old(player.carried) && player.slots[..] == old(player.slots[..])
    {
      if slotId == 1 {
        ToggleAutoPickup();
        return true;
      }
      if slotId != 0 {
        return false;
      }
      if IsCoin(player.carried) {
        DepositCarried();
      } else if IsEmpty(player.carried) && CoinCount() > 0 {
        if clickType == Pickup {
          WithdrawToCursor(button);
        } else if clickType == QuickMove {
          WithdrawToInventory(accepted, leftover);
        }
      }
      return true;
    }

    /** The relic coin stack in container slot `i` goes into the bag whole
        and is left with a count of zero. */
    method DepositSlot(i: int)
      requires Valid() && 0 <= i < ContainerSize && IsCoin(player.slots[i])
      modifies player.slots
      ensures Valid()
      ensures var c := old(player.slots[i].count);
        player.slots[..] == old(player.slots[..])[bagSlot := old(Bag()).(coins := Some(old(CoinCount()) + c))][i := Shrink(old(player.slots[i]), c)]
      ensures CountOf(player.slots[i]) == 0
      ensures CoinsHeld() == old(CoinsHeld())
    {
      var stack := player.slots[i];
      ghost var before := player.slots[..];
      AddCoins(stack.count);
      ghost var middle := player.slots[..];
      BagUpdateKeepsCoinTotal(before, bagSlot, middle[bagSlot]);
      player.slots[i] := Shrink(stack, stack.count);
      MatchingTotalUpdate(middle, i, Shrink(stack, stack.count), IsCoin);
      assert player.slots[..] == middle[i := Shrink(stack, stack.count)];
    }

    /** `quickMoveStack` for a relic coin stack in an inventory slot: its
        whole count goes into the bag and the stack is emptied. `handled` is
        false for other stacks, which vanilla moves between inventory and
        hotbar; the two special slots and empty slots change nothing. */
    method QuickMoveStack(index: int) returns (handled: bool)
      requires Valid() && 0 <= index < MenuSlots
      modifies player.slots
      ensures Valid()
      ensures index >= 2 && old(IsCoin(player.slots[InventoryIndex(index)])) ==>
        var i := InventoryIndex(index);
        var c := old(player.slots[i].count);
        && player.slots[..] == old(player.slots[..])[bagSlot := old(Bag()).(coins := Some(old(CoinCount()) + c))][i := Shrink(old(player.slots[i]), c)]
        && CountOf(player.slots[i]) == 0
        && CoinsHeld() == old(CoinsHeld())
      ensures !(index >= 2 && old(IsCoin(player.slots[InventoryIndex(index)]))) ==> player.slots[..] == old(player.slots[..])
      ensures handled <==> index < 2 || old(IsEmpty(player.slots[InventoryIndex(index)])) || old(IsCoin(player.slots[InventoryIndex(index)]))
    {
      if index == 0 || index == 1 {
        return true;
      }
      var i := InventoryIndex(index);
      if IsEmpty(player.slots[i]) {
        return true;
      }
      if IsCoin(player.slots[i]) {
        DepositSlot(i);
        return true;
      }
      return false;
    }
  }
}
