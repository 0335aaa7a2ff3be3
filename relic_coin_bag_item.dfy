/** The relic coin bag item's own behaviour on the server: using it
    deposits or withdraws coins, and right-clicking coins and bag onto each
    other in a menu moves the coins into the bag. The bag is a stack in one
    of the player's container slots, or the cursor stack. */
module RelicCoinBagItems {
  import opened Common
  import opened Items
  import opened PlayerInventories

  /** A slot after a deposit: coins are taken out whole, everything else
      stays. */
  function Emptied(s: Stack): (e: Stack)
    ensures !IsCoin(e)
    ensures !IsCoin(s) ==> e == s
  {
    if IsCoin(s) then Shrink(s, CountOf(s)) else s
  }

  /** Slots without loose coins hold no coins in total. */
  lemma {:induction false} NoCoinsTotalZero(s: seq<Stack>)
    requires forall j :: 0 <= j < |s| ==> !IsCoin(s[j])
    ensures CoinTotal(s) == 0
  {
    if s != [] {
      NoCoinsTotalZero(s[..|s| - 1]);
    }
  }

  /** Coin stacks are never empty, so slots holding no coins in total hold
      no coin stack at all. */
  lemma {:induction false} ZeroTotalNoCoins(s: seq<Stack>)
    requires CoinTotal(s) == 0
    ensures forall j :: 0 <= j < |s| ==> !IsCoin(s[j])
  {
    if s != [] {
      var n := |s| - 1;
      MatchingTotalNonNegative(s[..n], IsCoin);
      ZeroTotalNoCoins(s[..n]);
      assert forall j :: 0 <= j < n ==> s[j] == s[..n][j];
    }
  }

  /** The bag with `n` more coins. */
  function WithMoreCoins(bag: Stack, n: int): (b: Stack)
    ensures BagCoins(b) == BagCoins(bag) + n
    ensures ItemOf(b) == ItemOf(bag)
  {
    bag.(coins := Some(BagCoins(bag) + n))
  }

  /** `withdrawCoins`: an empty bag gives nothing; otherwise
      min(coins, amount) coins leave the bag for the player. Where vanilla
      puts them (inventory or dropped at the feet) is not modelled. */
  method WithdrawCoins(player: Player, bagIndex: int, amount: int) returns (withdrawn: int)
    requires player.Valid() && 0 <= bagIndex < ContainerSize
    modifies player.slots
    ensures old(BagCoins(player.slots[bagIndex])) <= 0 ==> withdrawn == 0 && player.slots[..] == old(player.slots[..])
    ensures old(BagCoins(player.slots[bagIndex])) > 0 ==>
      && withdrawn == Min(old(BagCoins(player.slots[bagIndex])), amount)
      && player.slots[..] == old(player.slots[..])[bagIndex := WithMoreCoins(old(player.slots[bagIndex]), -withdrawn)]
    ensures BagCoins(player.slots[bagIndex]) + withdrawn == old(BagCoins(player.slots[bagIndex]))
  {
    var current := BagCoins(player.slots[bagIndex]);
    if current <= 0 {
      return 0;
    }
    withdrawn := Min(current, amount);
    player.slots[bagIndex] := player.slots[bagIndex].(coins := Some(current - withdrawn));
  }

  /** One step of `depositAllCoins`: slot `i` is emptied of coins, and its
      count is added to the running total. */
  method DepositSlot(player: Player, i: int, ghost start: seq<Stack>, total: int) returns (total': int)
    requires player.Valid() && 0 <= i < ContainerSize && |start| == ContainerSize
    requires player.slots[i] == start[i]
    requires total == CoinTotal(start[..i])
    modifies player.slots
    ensures player.slots[..] == old(player.slots[..])[i := Emptied(start[i])]
    ensures total' == CoinTotal(start[..i + 1])
  {
    TakeOneMore(start, i);
    MatchingTotalSnoc(start[..i], start[i], IsCoin);
    total' := total;
    var stack := player.slots[i];
    if IsCoin(stack) {
      var count := CountOf(stack);
      total' := total' + count;
      player.slots[i] := Shrink(stack, count);
    }
  }

  /** `depositAllCoins`: every coin stack in the 41 container slots goes
      into the bag, which is skipped. The count returned is all the loose
      coins there were, none are left, every other slot is as it was, and
      the bag gains exactly that count. */
  method DepositAllCoins(player: Player, bagIndex: int) returns (total: int)
    requires player.Valid() && 0 <= bagIndex < ContainerSize && IsBag(player.slots[bagIndex])
    modifies player.slots
    ensures total == old(CoinTotal(player.slots[..])) && total >= 0
    ensures CoinTotal(player.slots[..]) == 0
    ensures forall i :: 0 <= i < ContainerSize && i != bagIndex ==> player.slots[i] == Emptied(old(player.slots[i]))
    ensures total > 0 ==> player.slots[bagIndex] == WithMoreCoins(old(player.slots[bagIndex]), total)
    ensures total == 0 ==> player.slots[..] == old(player.slots[..])
    ensures BagCoins(player.slots[bagIndex]) + CoinTotal(player.slots[..]) == old(BagCoins(player.slots[bagIndex]) + CoinTotal(player.slots[..]))
  {
    ghost var start := player.slots[..];
    total := 0;
    var i := 0;
    while i < ContainerSize
      invariant 0 <= i <= ContainerSize
      invariant forall j :: 0 <= j < i ==> player.slots[j] == Emptied(start[j])
      invariant forall j :: i <= j < ContainerSize ==> player.slots[j] == start[j]
      invariant total == CoinTotal(start[..i])
    {
      if i != bagIndex {
        total := DepositSlot(player, i, start, total);
      } else {
        TakeOneMore(start, i);
        MatchingTotalSnoc(start[..i], start[i], IsCoin);
      }
      i := i + 1;
    }
    assert start[..i] == start;
    MatchingTotalNonNegative(start, IsCoin);
    NoCoinsTotalZero(player.slots[..]);
    if total == 0 {
      ZeroTotalNoCoins(start);
      assert player.slots[..] == start;
    }
    if total > 0 {
      ghost var before := player.slots[..];
      player.slots[bagIndex] := WithMoreCoins(player.slots[bagIndex], total);
      MatchingTotalUpdate(before, bagIndex, player.slots[bagIndex], IsCoin);
      assert player.slots[..] == before[bagIndex := player.slots[bagIndex]];
    }
  }

  datatype UseOutcome = Deposited(deposited: int) | Withdrew(withdrawn: int) | OpenedScreen

  /** `use` on the server, with the bag in container slot `handIndex` and
      the other hand in `otherIndex`. Crouching deposits every loose coin
      and opens the bag's screen only when there were none. Otherwise, with
      the other hand empty, a stack of up to 64 coins comes out of a
      non-empty bag; in every other case the screen opens and nothing
      changes. */
  method Use(player: Player, handIndex: int, otherIndex: int, crouching: bool) returns (outcome: UseOutcome)
    requires player.Valid() && 0 <= handIndex < ContainerSize && 0 <= otherIndex < ContainerSize
    requires handIndex != otherIndex && IsBag(player.slots[handIndex])
    modifies player.slots
    ensures outcome.Deposited? <==> crouching && old(CoinTotal(player.slots[..])) > 0
    ensures outcome.Deposited? ==>
      && outcome.deposited == old(CoinTotal(player.slots[..])) && CoinTotal(player.slots[..]) == 0
      && BagCoins(player.slots[handIndex]) == old(BagCoins(player.slots[handIndex])) + outcome.deposited
    ensures outcome.Withdrew? <==> !crouching && old(IsEmpty(player.slots[otherIndex])) && old(BagCoins(player.slots[handIndex])) > 0
    ensures outcome.Withdrew? ==>
      && outcome.withdrawn == Min(old(BagCoins(player.slots[handIndex])), MaxStack)
      && player.slots[..] == old(player.slots[..])[handIndex := WithMoreCoins(old(player.slots[handIndex]), -outcome.withdrawn)]
    ensures outcome.OpenedScreen? ==> player.slots[..] == old(player.slots[..])
  {
    if crouching {
      var deposited := DepositAllCoins(player, handIndex);
      if deposited > 0 {
        return Deposited(deposited);
      }
      return OpenedScreen;
    }
    if IsEmpty(player.slots[otherIndex]) {
      var withdrawn := WithdrawCoins(player, handIndex, MaxStack);
      if withdrawn > 0 {
        return Withdrew(withdrawn);
      }
    }
    return OpenedScreen;
  }

  /** `overrideStackedOnOther`: right-clicking with the bag on the cursor
      onto a slot of coins takes that whole stack into the bag and empties
      the slot. Anything else is left to vanilla (`handled` false) and
      changes nothing here. The coins held in bag and slots are kept. */
  method OverrideStackedOnOther(player: Player, slotIndex: int, secondary: bool) returns (handled: bool)
    requires player.Valid() && 0 <= slotIndex < ContainerSize && IsBag(player.carried)
    modifies player, player.slots
    ensures handled <==> secondary && old(IsCoin(player.slots[slotIndex]))
    ensures handled ==>
      && player.carried == WithMoreCoins(old(player.carried), old(CountOf(player.slots[slotIndex])))
      && player.slots[..] == old(player.slots[..])[slotIndex := Empty]
    ensures !handled ==> player.carried == old(player.carried) && player.slots[..] == old(player.slots[..])
    ensures BagCoins(player.carried) + CoinTotal(player.slots[..]) == old(BagCoins(player.carried) + CoinTotal(player.slots[..]))
  {
    var stack := player.slots[slotIndex];
    if secondary && IsCoin(stack) {
      ghost var before := player.slots[..];
      player.carried := WithMoreCoins(player.carried, CountOf(stack));
      player.slots[slotIndex] := Empty;
      MatchingTotalUpdate(before, slotIndex, Empty, IsCoin);
      assert player.slots[..] == before[slotIndex := Empty];
      return true;
    }
    return false;
  }

  /** `overrideOtherStackedOnMe`: right-clicking coins on the cursor onto
      the bag in slot `bagIndex` moves them all into the bag and empties
      the cursor. Anything else is left to vanilla and changes nothing
      here. */
  method OverrideOtherStackedOnMe(player: Player, bagIndex: int, secondary: bool) returns (handled: bool)
    requires player.Valid() && 0 <= bagIndex < ContainerSize && IsBag(player.slots[bagIndex])
    modifies player, player.slots
    ensures handled <==> secondary && old(IsCoin(player.carried))
    ensures handled ==>
      && player.carried == Empty
      && player.slots[..] == old(player.slots[..])[bagIndex := WithMoreCoins(old(player.slots[bagIndex]), old(CountOf(player.carried)))]
    ensures !handled ==> player.carried == old(player.carried) && player.slots[..] == old(player.slots[..])
    ensures BagCoins(player.slots[bagIndex]) + CoinTotal([player.carried]) == old(BagCoins(player.slots[bagIndex]) + CoinTotal([player.carried]))
  {
    var other := player.carried;
    MatchingTotalSnoc([], other, IsCoin);
    if secondary && !IsEmpty(other) && IsCoin(other) {
      player.slots[bagIndex] := WithMoreCoins(player.slots[bagIndex], CountOf(other));
      player.carried := Empty;
      MatchingTotalSnoc([], Empty, IsCoin);
      return true;
    }
    return false;
  }
}
