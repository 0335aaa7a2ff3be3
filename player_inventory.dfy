/** A player's inventory as the mod touches it: the 41 container slots of
    vanilla's `Inventory` (36 main and hotbar slots, 4 armour slots, the
    offhand) and the stack carried on the cursor of the open menu. */
module PlayerInventories {
  import opened Common
  import opened Items

  /** `Inventory.items`: hotbar 0..8 and main inventory 9..35. */
  const ItemsSize := 36
  /** `Inventory.getContainerSize`. */
  const ContainerSize := 41
  /** The offhand's container index. */
  const OffhandSlot := 40

  class Player {
    const slots: array<Stack>
    var carried: Stack

    constructor (contents: seq<Stack>)
      requires |contents| == ContainerSize
      ensures slots.Length == ContainerSize && slots[..] == contents && carried == Empty
      ensures fresh(slots)
    {
      slots := new Stack[ContainerSize](i requires 0 <= i < ContainerSize => contents[i]);
      carried := Empty;
    }

    predicate Valid()
      reads this
    {
      slots.Length == ContainerSize
    }
  }

  /** Sum of the counts of the stacks `matches` accepts. */
  function MatchingTotal(s: seq<Stack>, matches: Stack -> bool): int
  {
    if s == [] then 0
    else MatchingTotal(s[..|s| - 1], matches) + (if matches(s[|s| - 1]) then CountOf(s[|s| - 1]) else 0)
  }

  lemma {:induction false} MatchingTotalNonNegative(s: seq<Stack>, matches: Stack -> bool)
    ensures MatchingTotal(s, matches) >= 0
  {
    if s != [] {
      MatchingTotalNonNegative(s[..|s| - 1], matches);
    }
  }

  /** The relic coins lying loose in some slots. */
  function CoinTotal(s: seq<Stack>): int
  {
    MatchingTotal(s, IsCoin)
  }

  /** A single slot holds its count of coins when it is a coin stack. */
  lemma CoinTotalOne(x: Stack)
    ensures CoinTotal([x]) == if IsCoin(x) then CountOf(x) else 0
  {
    MatchingTotalSnoc([], x, IsCoin);
    assert [] + [x] == [x];
  }

  /** Adding one more slot at the end adds its count when it matches. */
  lemma MatchingTotalSnoc(s: seq<Stack>, x: Stack, matches: Stack -> bool)
    ensures MatchingTotal(s + [x], matches) == MatchingTotal(s, matches) + (if matches(x) then CountOf(x) else 0)
  {
    assert (s + [x])[..|s|] == s;
  }

  /** The total read from the front: the first slot's share plus the
      rest. */
  lemma {:induction false} MatchingTotalCons(x: Stack, s: seq<Stack>, matches: Stack -> bool)
    ensures MatchingTotal([x] + s, matches) == (if matches(x) then CountOf(x) else 0) + MatchingTotal(s, matches)
    decreases |s|
  {
    if s != [] {
      var n := |s| - 1;
      assert ([x] + s)[..|s|] == [x] + s[..n];
      MatchingTotalCons(x, s[..n], matches);
    }
  }

  /** The same, for a non-empty sequence split at its first slot. */
  lemma MatchingTotalFront(s: seq<Stack>, matches: Stack -> bool)
    requires s != []
    ensures MatchingTotal(s, matches) == (if matches(s[0]) then CountOf(s[0]) else 0) + MatchingTotal(s[1..], matches)
  {
    MatchingTotalCons(s[0], s[1..], matches);
    assert [s[0]] + s[1..] == s;
  }

  /** Changing one slot changes the total by the difference of what it
      contributes. */
  lemma {:induction false} MatchingTotalUpdate(s: seq<Stack>, i: int, x: Stack, matches: Stack -> bool)
    requires 0 <= i < |s|
    ensures MatchingTotal(s[i := x], matches)
         == MatchingTotal(s, matches)
            - (if matches(s[i]) then CountOf(s[i]) else 0)
            + (if matches(x) then CountOf(x) else 0)
    decreases |s|
  {
    var n := |s| - 1;
    if i == n {
      assert s[i := x][..n] == s[..n];
    } else {
      assert s[i := x][..n] == s[..n][i := x];
      MatchingTotalUpdate(s[..n], i, x, matches);
    }
  }

  /** Index of the first stack `pred` accepts, if any. */
  function FirstWhere(s: seq<Stack>, pred: Stack -> bool): (r: Option<nat>)
    ensures r.Some? ==> r.value < |s| && pred(s[r.value]) && forall j :: 0 <= j < r.value ==> !pred(s[j])
    ensures r.None? ==> forall j :: 0 <= j < |s| ==> !pred(s[j])
  {
    if s == [] then None
    else if pred(s[0]) then Some(0)
    else match FirstWhere(s[1..], pred)
      case None => None
      case Some(k) => Some(k + 1)
  }
}
