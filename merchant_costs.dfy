/** What a trade costs and how the trade menu collects it from the 36 main
    and hotbar slots (`Inventory.items`). Ordinary inputs are counted over
    the matching stacks and taken from them in slot order; relic coin
    inputs also count the coins in the first relic coin bag, which pays
    whatever the loose coins cannot. */
module MerchantCosts {
  import opened Common
  import opened Items
  import opened PlayerInventories
  import opened TradeEntries

  predicate AnyStack(s: Stack)
  {
    true
  }

  /** Items in some slots, whatever they are. */
  function TotalCount(s: seq<Stack>): int
  {
    MatchingTotal(s, AnyStack)
  }

  /** The slots after a removal, and how many were still owed at the end. */
  datatype Removal = Removal(slots: seq<Stack>, owed: int)

  /** `removeItemsMatching`, `removeItems` and the first loop of
      `removeRelicCoins`: walk the slots in order while something is owed,
      shrinking each matching stack by as much as it can give. */
  function RemoveInOrder(s: seq<Stack>, matches: Stack -> bool, n: int): (r: Removal)
    ensures |r.slots| == |s|
  {
    if s == [] || n <= 0 then Removal(s, n)
    else
      var take := if matches(s[0]) then Min(n, CountOf(s[0])) else 0;
      var rest := RemoveInOrder(s[1..], matches, n - take);
      Removal([if matches(s[0]) then Shrink(s[0], take) else s[0]] + rest.slots, rest.owed)
  }

  /** The same walk as the loop runs it: slot `i` onwards of `s` with `n`
      still owed, each slot rewritten in place. */
  function RemoveFrom(s: seq<Stack>, matches: Stack -> bool, n: int, i: nat): Removal
    requires i <= |s|
    decreases |s| - i
  {
    if i == |s| || n <= 0 then Removal(s, n)
    else
      var take := if matches(s[i]) then Min(n, CountOf(s[i])) else 0;
      RemoveFrom(s[i := if matches(s[i]) then Shrink(s[i], take) else s[i]], matches, n - take, i + 1)
  }

  /** The in-place walk from slot `i` keeps the slots before `i` and does
      to the rest what `RemoveInOrder` does. */
  lemma {:induction false} RemoveFromAgrees(s: seq<Stack>, matches: Stack -> bool, n: int, i: nat)
    requires i <= |s|
    ensures var r := RemoveInOrder(s[i..], matches, n);
      RemoveFrom(s, matches, n, i) == Removal(s[..i] + r.slots, r.owed)
    decreases |s| - i
  {
    if i == |s| || n <= 0 {
      assert s[..i] + s[i..] == s;
    } else {
      var take := if matches(s[i]) then Min(n, CountOf(s[i])) else 0;
      var head := if matches(s[i]) then Shrink(s[i], take) else s[i];
      var t := s[i := head];
      assert RemoveFrom(s, matches, n, i) == RemoveFrom(t, matches, n - take, i + 1);
      RemoveFromAgrees(t, matches, n - take, i + 1);
      var u := s[i..];
      var rest := RemoveInOrder(u[1..], matches, n - take);
      UpdateSplit(s, i, head, rest.slots);
      RemoveInOrderUnfold(u, matches, n);
    }
  }

  /** Replacing slot `i` and splitting after it. */
  lemma UpdateSplit(s: seq<Stack>, i: nat, head: Stack, tail: seq<Stack>)
    requires i < |s|
    ensures s[i..][0] == s[i] && s[i := head][i + 1..] == s[i..][1..]
    ensures s[i := head][..i + 1] + tail == s[..i] + ([head] + tail)
  {
    assert s[i := head][..i + 1] == s[..i] + [head];
  }

  /** One step of the removal, as a lemma so that callers need not unfold
      the definition among other facts. */
  lemma RemoveInOrderUnfold(s: seq<Stack>, matches: Stack -> bool, n: int)
    requires s != [] && n > 0
    ensures var take := if matches(s[0]) then Min(n, CountOf(s[0])) else 0;
      var rest := RemoveInOrder(s[1..], matches, n - take);
      RemoveInOrder(s, matches, n)
        == Removal([if matches(s[0]) then Shrink(s[0], take) else s[0]] + rest.slots, rest.owed)
  {
  }

  /** One step of the walk: the first slot gives what it can, and the
      rest of the walk goes on with what is still owed. */
  lemma RemoveInOrderFront(s: seq<Stack>, matches: Stack -> bool, n: int)
    requires s != [] && n > 0
    ensures var take := if matches(s[0]) then Min(n, CountOf(s[0])) else 0;
      var r := RemoveInOrder(s, matches, n);
      var rest := RemoveInOrder(s[1..], matches, n - take);
      && 0 <= take <= n
      && r.slots[0] == (if matches(s[0]) then Shrink(s[0], take) else s[0])
      && r.slots[1..] == rest.slots && r.owed == rest.owed
  {
    var take := if matches(s[0]) then Min(n, CountOf(s[0])) else 0;
    var head := if matches(s[0]) then Shrink(s[0], take) else s[0];
    var rest := RemoveInOrder(s[1..], matches, n - take);
    assert ([head] + rest.slots)[1..] == rest.slots;
  }

  /** What is still owed after a removal: whatever the matching stacks
      could not cover. */
  lemma {:induction false} RemoveInOrderOwed(s: seq<Stack>, matches: Stack -> bool, n: int)
    requires n > 0
    ensures RemoveInOrder(s, matches, n).owed == Max(0, n - MatchingTotal(s, matches))
  {
    if s != [] {
      var take := if matches(s[0]) then Min(n, CountOf(s[0])) else 0;
      RemoveInOrderFront(s, matches, n);
      MatchingTotalFront(s, matches);
      MatchingTotalNonNegative(s[1..], matches);
      if n - take > 0 {
        RemoveInOrderOwed(s[1..], matches, n - take);
      }
    }
  }

  /** The slots lose exactly what was taken. */
  lemma {:induction false} RemoveInOrderTotal(s: seq<Stack>, matches: Stack -> bool, n: int)
    requires n > 0
    ensures var r := RemoveInOrder(s, matches, n);
      TotalCount(r.slots) == TotalCount(s) - (n - r.owed)
  {
    if s != [] {
      var r := RemoveInOrder(s, matches, n);
      var take := if matches(s[0]) then Min(n, CountOf(s[0])) else 0;
      RemoveInOrderFront(s, matches, n);
      MatchingTotalFront(s, AnyStack);
      MatchingTotalFront(r.slots, AnyStack);
      if n - take > 0 {
        RemoveInOrderTotal(s[1..], matches, n - take);
      }
    }
  }

  /** When matching does not depend on the count, the matching stacks
      lose exactly what was taken too. */
  lemma {:induction false} RemoveInOrderMatching(s: seq<Stack>, matches: Stack -> bool, n: int)
    requires n > 0 && ShrinkStable(matches)
    ensures var r := RemoveInOrder(s, matches, n);
      MatchingTotal(r.slots, matches) == MatchingTotal(s, matches) - (n - r.owed)
  {
    if s != [] {
      var r := RemoveInOrder(s, matches, n);
      var take := if matches(s[0]) then Min(n, CountOf(s[0])) else 0;
      RemoveInOrderFront(s, matches, n);
      MatchingTotalFront(s, matches);
      MatchingTotalFront(r.slots, matches);
      if matches(s[0]) && take < CountOf(s[0]) {
        assert matches(r.slots[0]);
      }
      if n - take > 0 {
        RemoveInOrderMatching(s[1..], matches, n - take);
      }
    }
  }

  /** A removal takes exactly min(n, what matches): nothing is owed unless
      the matching stacks ran out, and the slots lose exactly what was
      taken, all of it from matching stacks. */
  lemma RemoveInOrderAmount(s: seq<Stack>, matches: Stack -> bool, n: int)
    ensures var r := RemoveInOrder(s, matches, n);
      && (n <= 0 ==> r.slots == s && r.owed == n)
      && (n > 0 ==> r.owed == Max(0, n - MatchingTotal(s, matches)))
      && (n > 0 ==> TotalCount(r.slots) == TotalCount(s) - (n - r.owed))
      && (n > 0 && ShrinkStable(matches) ==> MatchingTotal(r.slots, matches) == MatchingTotal(s, matches) - (n - r.owed))
  {
    if n > 0 {
      RemoveInOrderOwed(s, matches, n);
      RemoveInOrderTotal(s, matches, n);
      if ShrinkStable(matches) {
        RemoveInOrderMatching(s, matches, n);
      }
    }
  }

  /** Only matching stacks differ between `s` and `t`, each only in its
      count and never below zero. */
  predicate OnlyMatchingShrink(s: seq<Stack>, t: seq<Stack>, matches: Stack -> bool)
    requires |s| == |t|
  {
    && (forall i :: 0 <= i < |s| && !matches(s[i]) ==> t[i] == s[i])
    && (forall i :: 0 <= i < |s| && matches(s[i]) ==>
          t[i].(count := s[i].count) == s[i] && 0 <= CountOf(t[i]) <= CountOf(s[i]))
  }

  /** A later matching stack of `s` has lost something in `t` only if
      every earlier matching one is empty in `t`. */
  predicate GivesInOrder(s: seq<Stack>, t: seq<Stack>, matches: Stack -> bool)
    requires |s| == |t|
  {
    forall i, j :: 0 <= i < j < |s| && matches(s[i]) && matches(s[j]) && CountOf(t[j]) < CountOf(s[j]) ==>
      CountOf(t[i]) == 0
  }

  /** The first slot given as the walk gives it, and the rest related as
      required, relates the whole. */
  lemma KeepsStep(s: seq<Stack>, t: seq<Stack>, rest: seq<Stack>, matches: Stack -> bool, n: int, take: int)
    requires |s| == |t| && s != [] && n > 0 && t[1..] == rest
    requires take == if matches(s[0]) then Min(n, CountOf(s[0])) else 0
    requires t[0] == if matches(s[0]) then Shrink(s[0], take) else s[0]
    requires OnlyMatchingShrink(s[1..], rest, matches)
    ensures OnlyMatchingShrink(s, t, matches)
  {
    forall i | 1 <= i < |s|
      ensures t[i] == t[1..][i - 1] && s[i] == s[1..][i - 1]
    {
    }
  }

  lemma GreedyStep(s: seq<Stack>, t: seq<Stack>, rest: seq<Stack>, matches: Stack -> bool, n: int, take: int)
    requires |s| == |t| && s != [] && n > 0 && t[1..] == rest
    requires take == if matches(s[0]) then Min(n, CountOf(s[0])) else 0
    requires t[0] == if matches(s[0]) then Shrink(s[0], take) else s[0]
    requires n - take <= 0 ==> rest == s[1..]
    requires GivesInOrder(s[1..], rest, matches)
    ensures GivesInOrder(s, t, matches)
  {
    forall i, j | 0 <= i < j < |s| && matches(s[i]) && matches(s[j]) && CountOf(t[j]) < CountOf(s[j])
      ensures CountOf(t[i]) == 0
    {
      assert t[j] == t[1..][j - 1] && s[j] == s[1..][j - 1];
      if i != 0 {
        assert t[i] == t[1..][i - 1] && s[i] == s[1..][i - 1];
      }
    }
  }

  /** The step of `RemoveInOrderKeeps`: from the rest of the slots to all
      of them. */
  lemma KeepsFront(s: seq<Stack>, matches: Stack -> bool, n: int, take: int)
    requires s != [] && n > 0
    requires take == if matches(s[0]) then Min(n, CountOf(s[0])) else 0
    requires OnlyMatchingShrink(s[1..], RemoveInOrder(s[1..], matches, n - take).slots, matches)
    ensures OnlyMatchingShrink(s, RemoveInOrder(s, matches, n).slots, matches)
  {
    RemoveInOrderFront(s, matches, n);
    KeepsStep(s, RemoveInOrder(s, matches, n).slots, RemoveInOrder(s[1..], matches, n - take).slots, matches, n, take);
  }

  /** Only matching stacks change, each only in its count and never below
      zero. */
  lemma {:induction false} RemoveInOrderKeeps(s: seq<Stack>, matches: Stack -> bool, n: int)
    ensures OnlyMatchingShrink(s, RemoveInOrder(s, matches, n).slots, matches)
  {
    if s != [] && n > 0 {
      var take := if matches(s[0]) then Min(n, CountOf(s[0])) else 0;
      RemoveInOrderKeeps(s[1..], matches, n - take);
      KeepsFront(s, matches, n, take);
    }
  }

  /** The step of `RemoveInOrderGreedy`. */
  lemma GreedyFront(s: seq<Stack>, matches: Stack -> bool, n: int, take: int)
    requires s != [] && n > 0
    requires take == if matches(s[0]) then Min(n, CountOf(s[0])) else 0
    requires GivesInOrder(s[1..], RemoveInOrder(s[1..], matches, n - take).slots, matches)
    ensures GivesInOrder(s, RemoveInOrder(s, matches, n).slots, matches)
  {
    RemoveInOrderFront(s, matches, n);
    GreedyStep(s, RemoveInOrder(s, matches, n).slots, RemoveInOrder(s[1..], matches, n - take).slots, matches, n, take);
  }

  /** Stacks give in slot order: a later matching stack gives something
      only once every earlier matching one is empty. */
  lemma {:induction false} RemoveInOrderGreedy(s: seq<Stack>, matches: Stack -> bool, n: int)
    ensures GivesInOrder(s, RemoveInOrder(s, matches, n).slots, matches)
  {
    if s != [] && n > 0 {
      var take := if matches(s[0]) then Min(n, CountOf(s[0])) else 0;
      RemoveInOrderGreedy(s[1..], matches, n - take);
      GreedyFront(s, matches, n, take);
    }
  }

  /** Coins in the first relic coin bag among the slots, 0 without one. */
  function FirstBagCoins(items: seq<Stack>): int
  {
    match FirstWhere(items, IsBag)
    case None => 0
    case Some(k) => BagCoins(items[k])
  }

  /** `countRelicCoins`: loose coins plus the first bag's coins. */
  function RelicCoinsAvailable(items: seq<Stack>): int
  {
    CoinTotal(items) + FirstBagCoins(items)
  }

  /** The second loop of `removeRelicCoins`: the first bag gives what is
      owed, or all it has. */
  function DrawFromBag(items: seq<Stack>, owed: int): (t: seq<Stack>)
    ensures |t| == |items|
  {
    match FirstWhere(items, IsBag)
    case None => items
    case Some(k) =>
      var b := BagCoins(items[k]);
      items[k := items[k].(coins := Some(b - Min(owed, b)))]
  }

  /** `removeRelicCoins`: loose coin stacks in slot order first, and the
      first bag only if coins are still owed. */
  function PayCoins(items: seq<Stack>, n: int): (t: seq<Stack>)
    ensures |t| == |items|
  {
    var r := RemoveInOrder(items, IsCoin, n);
    if r.owed > 0 then DrawFromBag(r.slots, r.owed) else r.slots
  }

  /** Slots that agree on `pred` have the same first match. */
  lemma FirstWhereAgrees(s: seq<Stack>, t: seq<Stack>, pred: Stack -> bool)
    requires |s| == |t| && forall i :: 0 <= i < |s| ==> pred(s[i]) == pred(t[i])
    ensures FirstWhere(s, pred) == FirstWhere(t, pred)
  {
    match FirstWhere(s, pred)
    case None =>
    case Some(k) =>
  }

  /** Taking loose coins leaves every bag where and as it was. */
  lemma CoinRemovalKeepsBags(items: seq<Stack>, n: int)
    ensures var r := RemoveInOrder(items, IsCoin, n);
      && (forall i :: 0 <= i < |items| && IsBag(items[i]) ==> r.slots[i] == items[i])
      && (forall i :: 0 <= i < |items| ==> (IsBag(r.slots[i]) <==> IsBag(items[i])))
      && FirstBagCoins(r.slots) == FirstBagCoins(items)
  {
    var r := RemoveInOrder(items, IsCoin, n);
    RemoveInOrderKeeps(items, IsCoin, n);
    forall i | 0 <= i < |items| && IsCoin(items[i])
      ensures !IsBag(r.slots[i])
    {
      assert r.slots[i].item == items[i].item;
    }
    FirstWhereAgrees(items, r.slots, IsBag);
  }

  /** So the first bag's coins are the same after taking loose coins. */
  lemma CoinRemovalKeepsFirstBag(items: seq<Stack>, n: int)
    ensures FirstBagCoins(RemoveInOrder(items, IsCoin, n).slots) == FirstBagCoins(items)
  {
    CoinRemovalKeepsBags(items, n);
  }

  /** Drawing from the first bag leaves loose coins alone and takes
      min(owed, what the bag holds). */
  lemma DrawFromBagAmount(t: seq<Stack>, owed: int)
    requires owed >= 0 && FirstBagCoins(t) >= 0
    ensures CoinTotal(DrawFromBag(t, owed)) == CoinTotal(t)
    ensures FirstBagCoins(DrawFromBag(t, owed)) == FirstBagCoins(t) - Min(owed, FirstBagCoins(t))
  {
    match FirstWhere(t, IsBag)
    case None =>
    case Some(k) =>
      var b := BagCoins(t[k]);
      var bag := t[k].(coins := Some(b - Min(owed, b)));
      assert ItemOf(bag) == ItemOf(t[k]);
      var u := t[k := bag];
      assert DrawFromBag(t, owed) == u;
      MatchingTotalUpdate(t, k, bag, IsCoin);
      forall i | 0 <= i < |t|
        ensures IsBag(u[i]) == IsBag(t[i])
      {
      }
      FirstWhereAgrees(t, u, IsBag);
  }

  /** `removeRelicCoins` takes exactly min(n, available) coins, and
      touches the bag only when the loose coins fall short. */
  lemma PayCoinsAmount(items: seq<Stack>, n: int)
    requires n >= 0 && FirstBagCoins(items) >= 0
    ensures RelicCoinsAvailable(PayCoins(items, n)) == RelicCoinsAvailable(items) - Min(n, RelicCoinsAvailable(items))
    ensures CoinTotal(items) >= n ==> FirstBagCoins(PayCoins(items, n)) == FirstBagCoins(items)
    ensures FirstBagCoins(PayCoins(items, n)) >= 0
  {
    var r := RemoveInOrder(items, IsCoin, n);
    var t := PayCoins(items, n);
    MatchingTotalNonNegative(items, IsCoin);
    if n == 0 {
      assert t == items;
    } else {
      CoinRemovalOwed(items, n);
      CoinRemovalLoose(items, n);
      CoinRemovalKeepsFirstBag(items, n);
      if r.owed > 0 {
        DrawFromBagAmount(r.slots, r.owed);
      }
      PaidArithmetic(CoinTotal(items), FirstBagCoins(items), n, r.owed, CoinTotal(t), FirstBagCoins(t));
    }
  }

  /** What is still owed after taking `n` loose coins: the shortfall. */
  lemma CoinRemovalOwed(items: seq<Stack>, n: int)
    requires n > 0
    ensures RemoveInOrder(items, IsCoin, n).owed == Max(0, n - CoinTotal(items))
  {
    RemoveInOrderOwed(items, IsCoin, n);
  }

  /** The loose coins lose exactly what was taken. */
  lemma CoinRemovalLoose(items: seq<Stack>, n: int)
    requires n > 0
    ensures var r := RemoveInOrder(items, IsCoin, n);
      CoinTotal(r.slots) == CoinTotal(items) - (n - r.owed)
  {
    CoinShrinkStable();
    RemoveInOrderMatching(items, IsCoin, n);
  }

  /** The count arithmetic of `removeRelicCoins`. */
  lemma PaidArithmetic(loose: int, bag: int, n: int, owed: int, loose': int, bag': int)
    requires n > 0 && loose >= 0 && bag >= 0
    requires owed == Max(0, n - loose)
    requires owed > 0 ==> loose' == loose - (n - owed) && bag' == bag - Min(owed, bag)
    requires owed <= 0 ==> loose' == loose - n && bag' == bag
    ensures loose' + bag' == loose + bag - Min(n, loose + bag)
    ensures loose >= n ==> bag' == bag
    ensures bag' >= 0
  {
  }

  /** One input of a trade: which stacks pay it, how many, and whether it
      is paid in relic coins (bag included). */
  datatype Charge = Charge(matches: Stack -> bool, count: int, coin: bool)

  /** An input as configured in a trade entry. */
  function EntryCharge(r: Requirement, reg: Registry): Charge
  {
    Charge(s => Matches(r, reg, s), r.count, IsCoinRequirement(r, reg))
  }

  /** An input of a plain offer, compared by item and components. */
  function CostCharge(cost: Stack): Charge
  {
    Charge(s => SameItemSameComponents(s, cost), CountOf(cost), IsCoin(cost))
  }

  /** The inputs `executeTrade` charges: the trade entry's requirements
      when the offer has one, otherwise (`executeTradeLegacy`) the offer's
      costs, the second only when non-empty. */
  function TradeCharges(offer: Offer, entry: Option<TradeEntry>, reg: Registry): (Charge, Option<Charge>)
  {
    match entry
    case Some(e) =>
      (EntryCharge(e.input, reg), match e.secondInput case None => None case Some(r) => Some(EntryCharge(r, reg)))
    case None =>
      (CostCharge(CostStack(offer.costA)), if IsEmpty(CostBStack(offer)) then None else Some(CostCharge(CostBStack(offer))))
  }

  /** Every charge a trade can make counts only item and components. */
  lemma TradeChargesShrinkStable(offer: Offer, entry: Option<TradeEntry>, reg: Registry)
    ensures ShrinkStable(TradeCharges(offer, entry, reg).0.matches)
    ensures TradeCharges(offer, entry, reg).1.Some? ==> ShrinkStable(TradeCharges(offer, entry, reg).1.value.matches)
  {
    match entry
    case Some(e) =>
      RequirementsShrinkStable(e.input, reg, Empty);
      if e.secondInput.Some? {
        RequirementsShrinkStable(e.secondInput.value, reg, Empty);
      }
    case None =>
      RequirementsShrinkStable(Exact(Empty, 0, false), reg, CostStack(offer.costA));
      RequirementsShrinkStable(Exact(Empty, 0, false), reg, CostBStack(offer));
  }

  /** What the player holds towards one input. */
  function Available(items: seq<Stack>, c: Charge): int
  {
    if c.coin then RelicCoinsAvailable(items) else MatchingTotal(items, c.matches)
  }

  /** The slots after paying one input. */
  function Pay(items: seq<Stack>, c: Charge): (t: seq<Stack>)
    ensures |t| == |items|
  {
    if c.coin then PayCoins(items, c.count) else RemoveInOrder(items, c.matches, c.count).slots
  }

  /** Paying an input takes min(count, available) of what counts for it. */
  lemma PayAmount(items: seq<Stack>, c: Charge)
    requires c.count >= 0 && FirstBagCoins(items) >= 0 && ShrinkStable(c.matches)
    ensures Available(Pay(items, c), c) == Available(items, c) - Min(c.count, Available(items, c))
  {
    if c.coin {
      PayCoinsAmount(items, c.count);
    } else {
      RemoveInOrderAmount(items, c.matches, c.count);
      MatchingTotalNonNegative(items, c.matches);
    }
  }

  /** The slots after paying the first input and then the second. */
  function Settle(items: seq<Stack>, a: Charge, b: Option<Charge>): (t: seq<Stack>)
    ensures |t| == |items|
  {
    var afterA := Pay(items, a);
    match b
    case None => afterA
    case Some(c) => Pay(afterA, c)
  }

  /** The check `executeTrade` makes: each input against everything that
      counts for it, both measured before anything is taken. */
  predicate AffordableAsWritten(items: seq<Stack>, a: Charge, b: Option<Charge>)
  {
    Available(items, a) >= a.count && (b.None? || Available(items, b.value) >= b.value.count)
  }

  /** The corrected check, with the relic coin inputs combined: when both
      inputs are paid in relic coins they draw on the same coins, so together
      they must be covered. */
  predicate AffordableCombined(items: seq<Stack>, a: Charge, b: Option<Charge>)
  {
    AffordableAsWritten(items, a, b)
    && (b.Some? && a.coin && b.value.coin ==> RelicCoinsAvailable(items) >= a.count + b.value.count)
  }

  /** With 64 and 6 loose coins, a trade asking 64 coins and then 36 more
      passes the check as written, and paying it leaves the player with no
      coins: 70 are paid for a price of 100. */
  lemma CoinInputsCheckedAlone(reg: Registry)
    ensures var items := [Plain(RelicCoin, 64), Plain(RelicCoin, 6)];
      var a := EntryCharge(Exact(Plain(RelicCoin, 64), 64, false), reg);
      var b := EntryCharge(Exact(Plain(RelicCoin, 36), 36, false), reg);
      && AffordableAsWritten(items, a, Some(b))
      && !AffordableCombined(items, a, Some(b))
      && RelicCoinsAvailable(items) == 70 < a.count + b.count
      && RelicCoinsAvailable(Settle(items, a, Some(b))) == 0
  {
    var items := [Plain(RelicCoin, 64), Plain(RelicCoin, 6)];
    var a := EntryCharge(Exact(Plain(RelicCoin, 64), 64, false), reg);
    var b := EntryCharge(Exact(Plain(RelicCoin, 36), 36, false), reg);
    MatchingTotalSnoc([], Plain(RelicCoin, 64), IsCoin);
    MatchingTotalSnoc([Plain(RelicCoin, 64)], Plain(RelicCoin, 6), IsCoin);
    assert [Plain(RelicCoin, 64)] + [Plain(RelicCoin, 6)] == items;
    assert FirstWhere(items, IsBag).None?;
    assert RelicCoinsAvailable(items) == 70;
    PayCoinsAmount(items, 64);
    PayCoinsAmount(Pay(items, a), 36);
  }

  /** With the combined check, a trade paid twice in relic coins takes the
      full price: the coins held drop by both counts. */
  lemma AffordableCoinTradePaysInFull(items: seq<Stack>, a: Charge, b: Charge)
    requires a.coin && b.coin && a.count >= 0 && b.count >= 0 && FirstBagCoins(items) >= 0
    requires AffordableCombined(items, a, Some(b))
    ensures RelicCoinsAvailable(Settle(items, a, Some(b))) == RelicCoinsAvailable(items) - a.count - b.count
  {
    PayCoinsAmount(items, a.count);
    PayCoinsAmount(Pay(items, a), b.count);
  }

  /** What a trade paid twice in relic coins takes once the check as written
      lets it through: the full price when the coins held cover both inputs,
      and otherwise every coin held, which is less than the price. */
  lemma AsWrittenCoinTradeTakes(items: seq<Stack>, a: Charge, b: Charge)
    requires a.coin && b.coin && a.count >= 0 && b.count >= 0 && FirstBagCoins(items) >= 0
    requires AffordableAsWritten(items, a, Some(b))
    ensures var held := RelicCoinsAvailable(items);
      RelicCoinsAvailable(Settle(items, a, Some(b)))
        == if held >= a.count + b.count then held - a.count - b.count else 0
    ensures RelicCoinsAvailable(items) - RelicCoinsAvailable(Settle(items, a, Some(b)))
      == Min(a.count + b.count, RelicCoinsAvailable(items))
  {
    PayCoinsAmount(items, a.count);
    PayCoinsAmount(Pay(items, a), b.count);
  }
}
