/** A merchant's configured trade as the trade menu and screen read it: one
    or two item requirements and an optional grid position. A requirement
    names an exact item or an item tag; tag membership and the registry's
    first item of a tag come from the game's registries and enter as a
    `Registry` value. */
module TradeEntries {
  import opened Common
  import opened Items

  /** `ItemRequirement`: exactly one of an exact stack or a tag, a count,
      and for exact stacks whether data components are ignored. */
  datatype Requirement =
    | Exact(stack: Stack, count: int, ignoreComponents: bool)
    | Tag(tag: string, count: int)

  /** Tag membership of an item id, and the first registered item of a
      tag. */
  datatype Registry = Registry(inTag: (Item, string) -> bool, firstInTag: string -> Option<Item>)

  /** A configured trade: its inputs and its optional grid position. */
  datatype TradeEntry = TradeEntry(input: Requirement, secondInput: Option<Requirement>, position: Option<int>)

  /** `ItemRequirement.matches`: same item when components are ignored,
      same item and components otherwise, tag membership for a tag. */
  predicate Matches(r: Requirement, reg: Registry, s: Stack)
  {
    match r
    case Exact(stack, _, ignore) =>
      if ignore then ItemOf(s) == ItemOf(stack) else SameItemSameComponents(s, stack)
    case Tag(tag, _) => reg.inTag(ItemOf(s), tag)
  }

  /** `ItemRequirement.getDisplayStack`: the exact stack, or the tag's first
      item with the requirement's count, or nothing for an empty tag. */
  function DisplayStack(r: Requirement, reg: Registry): (d: Stack)
    ensures r.Exact? ==> d == r.stack
    ensures r.Tag? && reg.firstInTag(r.tag).None? ==> IsEmpty(d)
    ensures r.Tag? && reg.firstInTag(r.tag).Some? ==> d.item == reg.firstInTag(r.tag).value && d.count == r.count
  {
    match r
    case Exact(stack, _, _) => stack
    case Tag(tag, count) =>
      match reg.firstInTag(tag)
      case None => Empty
      case Some(id) => Plain(id, count)
  }

  /** `isRelicCoin(ItemRequirement)`: the display stack is a non-empty
      relic coin stack. */
  predicate IsCoinRequirement(r: Requirement, reg: Registry)
  {
    IsCoin(DisplayStack(r, reg))
  }

  /** Whether a stack matches depends on its item and components, not on
      how many there are, as long as some are left. */
  ghost predicate ShrinkStable(matches: Stack -> bool)
  {
    forall x: Stack, k: int :: matches(x) && 0 <= k < CountOf(x) ==> matches(Shrink(x, k))
  }

  /** Shrinking a stack by less than its count keeps it non-empty and of
      the same item. */
  lemma ShrinkKeepsItem(x: Stack, k: int)
    requires 0 <= k < CountOf(x)
    ensures !IsEmpty(Shrink(x, k)) && ItemOf(Shrink(x, k)) == ItemOf(x)
  {
  }

  /** Every kind of requirement, and the plain stack comparison the menu
      also counts with, is shrink-stable. */
  lemma RequirementsShrinkStable(r: Requirement, reg: Registry, cost: Stack)
    ensures ShrinkStable(s => Matches(r, reg, s))
    ensures ShrinkStable(s => SameItemSameComponents(s, cost))
  {
    forall x: Stack, k: int | 0 <= k < CountOf(x)
      ensures !IsEmpty(Shrink(x, k)) && ItemOf(Shrink(x, k)) == ItemOf(x)
    {
      ShrinkKeepsItem(x, k);
    }
  }

  /** So is the relic coin test. */
  lemma CoinShrinkStable()
    ensures ShrinkStable(IsCoin)
  {
    forall x: Stack, k: int | 0 <= k < CountOf(x)
      ensures !IsEmpty(Shrink(x, k)) && ItemOf(Shrink(x, k)) == ItemOf(x)
    {
      ShrinkKeepsItem(x, k);
    }
  }
}
