/** The client-side merchant screen's logic: which trade sits at which of the
    27 grid slots, which slot the mouse is over, what a left click does, and
    the daily reward's count text. A trade entry's configured position is
    given as `positions[i]`; `offerCount` is the number of offers. */
module MerchantTradeScreens {
  import opened Common

  const TradesPerRow := 9
  const MaxVisibleRows := 3
  /** `TRADES_PER_ROW * MAX_VISIBLE_ROWS`. */
  const GridSize := 27
  const ImageWidth := 176
  /** `114 + MAX_VISIBLE_ROWS * 18`. */
  const ImageHeight := 168

  predicate InGrid(p: int)
  {
    0 <= p < GridSize
  }

  /** Trade `i` has a trade entry that configures a position. */
  predicate HasPosition(positions: seq<Option<int>>, i: int)
  {
    0 <= i < |positions| && positions[i].Some?
  }

  // ---------------------------------------------------------------- the grid map

  /** The first pass over trades `0..k-1`: each configured position inside
      the grid is mapped to its trade, a later trade replacing an earlier
      one. */
  function Positioned(positions: seq<Option<int>>, k: nat): (m: map<int, int>)
    requires k <= |positions|
    ensures forall p :: p in m ==> InGrid(p) && 0 <= m[p] < k && positions[m[p]] == Some(p)
  {
    if k == 0 then map[]
    else
      var m := Positioned(positions, k - 1);
      match positions[k - 1]
      case None => m
      case Some(p) => if InGrid(p) then m[p := k - 1] else m
  }

  /** A grid position is taken in the first pass exactly when some trade
      configures it, and it goes to the last such trade. */
  lemma {:induction false} PositionedLastWins(positions: seq<Option<int>>, k: nat, p: int)
    requires k <= |positions| && InGrid(p)
    ensures p in Positioned(positions, k) <==> exists i :: 0 <= i < k && positions[i] == Some(p)
    ensures p in Positioned(positions, k) ==>
      forall j :: Positioned(positions, k)[p] < j < k ==> positions[j] != Some(p)
  {
    if k > 0 {
      PositionedLastWins(positions, k - 1, p);
      if positions[k - 1] == Some(p) {
        assert p in Positioned(positions, k);
      }
    }
  }

  /** The trades from index `i` on that configure no position, in order. */
  function FreeTrades(positions: seq<Option<int>>, n: int, i: nat): (r: seq<int>)
    decreases n - i
    ensures forall k :: 0 <= k < |r| ==> i <= r[k] < n && !HasPosition(positions, r[k])
    ensures forall a, b :: 0 <= a < b < |r| ==> r[a] < r[b]
  {
    if i >= n then []
    else (if HasPosition(positions, i) then [] else [i]) + FreeTrades(positions, n, i + 1)
  }

  /** The grid positions from `p` on that are not `taken`, in order. */
  function FreeSlots(taken: set<int>, p: nat): (r: seq<int>)
    decreases GridSize - p
    ensures forall k :: 0 <= k < |r| ==> p <= r[k] < GridSize && r[k] !in taken
    ensures forall a, b :: 0 <= a < b < |r| ==> r[a] < r[b]
  {
    if p >= GridSize then []
    else (if p in taken then [] else [p]) + FreeSlots(taken, p + 1)
  }

  /** Every free position from `p` on is listed. */
  lemma {:induction false} FreeSlotsComplete(taken: set<int>, p: nat, q: int)
    requires p <= q < GridSize && q !in taken
    ensures q in FreeSlots(taken, p)
    decreases GridSize - p
  {
    if p < q {
      FreeSlotsComplete(taken, p + 1, q);
    }
  }

  /** The k-th slot gets the k-th trade, for as many pairs as there are. */
  function Pair(trades: seq<int>, slots: seq<int>): (m: map<int, int>)
    ensures forall p :: p in m ==> p in slots && m[p] in trades
  {
    if trades == [] || slots == [] then map[]
    else Pair(trades[1..], slots[1..])[slots[0] := trades[0]]
  }

  /** The trade grid as a reference definition: the configured positions of
      the first min(#entries, #offers) trades, then the trades without a
      position, in index order, on the free positions, lowest first, for as
      long as positions remain. */
  function Layout(positions: seq<Option<int>>, offerCount: nat): map<int, int>
  {
    Fixed(positions, offerCount) + Pair(FreeTrades(positions, offerCount, 0), OpenSlots(positions, offerCount))
  }

  /** The first pass: the configured positions of the first
      min(#entries, #offers) trades. */
  function Fixed(positions: seq<Option<int>>, offerCount: nat): map<int, int>
  {
    Positioned(positions, Min(|positions|, offerCount))
  }

  /** The grid positions the first pass leaves free, lowest first. */
  function OpenSlots(positions: seq<Option<int>>, offerCount: nat): (r: seq<int>)
    ensures forall k :: 0 <= k < |r| ==> r[k] !in Fixed(positions, offerCount)
    ensures forall a, b :: 0 <= a < b < |r| ==> r[a] < r[b]
  {
    FreeSlots(Fixed(positions, offerCount).Keys, 0)
  }

  /** `buildPositionToTradeMap`: the positioned pass, then the free pass. */
  method BuildPositionToTradeMap(positions: seq<Option<int>>, offerCount: nat) returns (m: map<int, int>)
    ensures m == Layout(positions, offerCount)
  {
    var fixed, used := PlacePositioned(positions, offerCount);
    m := PlaceFree(positions, offerCount, fixed, used);
  }

  /** The first loop of `buildPositionToTradeMap`: every trade below
      min(#entries, #offers) with a position inside the grid is put there,
      and the position is marked used. */
  method PlacePositioned(positions: seq<Option<int>>, offerCount: nat) returns (m: map<int, int>, used: set<int>)
    ensures m == Fixed(positions, offerCount) && used == m.Keys
  {
    m := map[];
    used := {};
    var i := 0;
    while i < |positions| && i < offerCount
      invariant 0 <= i <= Min(|positions|, offerCount)
      invariant m == Positioned(positions, i) && used == m.Keys
    {
      if positions[i].Some? {
        var pos := positions[i].value;
        if 0 <= pos < TradesPerRow * MaxVisibleRows {
          m := m[pos := i];
          used := used + {pos};
        }
      }
      i := i + 1;
    }
  }

  /** The inner scan of the free placement: step past grid slots already
      taken. Every slot used beyond the fixed ones lies before `start`, so
      the slots skipped are fixed ones and the free slots left are the same. */
  method SkipUsed(used: set<int>, taken: set<int>, start: nat) returns (next: nat)
    requires UsedBelow(used, taken, start)
    ensures start <= next && UsedBelow(used, taken, next)
    ensures next < TradesPerRow * MaxVisibleRows ==> next !in used
    ensures FreeSlots(taken, next) == FreeSlots(taken, start)
  {
    next := start;
    while next < TradesPerRow * MaxVisibleRows && next in used
      invariant start <= next
      invariant FreeSlots(taken, next) == FreeSlots(taken, start)
    {
      FreeSlotsSkip(taken, next);
      next := next + 1;
    }
  }

  /** The second loop of `buildPositionToTradeMap`: each trade without a
      position takes the next unused position; the loop stops once the grid
      is full. */
  method PlaceFree(positions: seq<Option<int>>, offerCount: nat, fixed: map<int, int>, used0: set<int>)
    returns (m: map<int, int>)
    requires fixed == Fixed(positions, offerCount) && used0 == fixed.Keys
    ensures m == Layout(positions, offerCount)
  {
    m := fixed;
    var used := used0;
    ghost var goal := Layout(positions, offerCount);
    LayoutSplit(positions, offerCount, m);
    var next := 0;
    var i := 0;
    while i < offerCount
      invariant 0 <= i <= offerCount && 0 <= next
      invariant fixed.Keys <= used
      invariant UsedBelow(used, fixed.Keys, next)
      invariant PlacedSoFar(m, positions, offerCount, i, fixed.Keys, next, goal)
    {
      var hasPosition := i < |positions| && positions[i].Some?;
      if hasPosition {
        FreeTradesSkip(m, positions, offerCount, i, fixed.Keys, next, goal);
        i := i + 1;
      } else {
        var placed;
        m, used, next, placed := PlaceOne(m, used, positions, offerCount, i, fixed.Keys, next, goal);
        if !placed {
          break;
        }
        i := i + 1;
      }
    }
    NothingLeft(m, positions, offerCount, i, fixed.Keys, next, goal);
  }

  /** One trade without a position: step past the used slots, then put the
      trade on the first free one, if the grid has one left. */
  method PlaceOne(m: map<int, int>, used: set<int>, positions: seq<Option<int>>, n: nat, i: nat, taken: set<int>,
                  next: nat, ghost goal: map<int, int>)
    returns (m': map<int, int>, used': set<int>, next': nat, placed: bool)
    requires i < n && !HasPosition(positions, i)
    requires taken <= used && UsedBelow(used, taken, next)
    requires PlacedSoFar(m, positions, n, i, taken, next, goal)
    ensures taken <= used' && UsedBelow(used', taken, next')
    ensures placed ==> PlacedSoFar(m', positions, n, i + 1, taken, next', goal)
    ensures !placed ==> next' >= GridSize && PlacedSoFar(m', positions, n, i, taken, next', goal)
  {
    var slot := SkipUsed(used, taken, next);
    FreeSlotsSame(m, positions, n, i, taken, next, slot, goal);
    if slot < TradesPerRow * MaxVisibleRows {
      FreeStep(m, positions, n, i, taken, slot, goal);
      UsedBelowAdd(used, taken, slot);
      m', used', next', placed := m[slot := i], used + {slot}, slot + 1, true;
    } else {
      m', used', next', placed := m, used, slot, false;
    }
  }

  /** The loop invariant of the free placement: the map so far plus the
      pairing of the trades and positions still to come is the layout. */
  predicate PlacedSoFar(m: map<int, int>, positions: seq<Option<int>>, n: nat, i: nat, taken: set<int>, next: nat,
                        goal: map<int, int>)
  {
    m + Pair(FreeTrades(positions, n, i), FreeSlots(taken, next)) == goal
  }

  /** Every used position that is not a fixed one lies below `bound`. */
  predicate UsedBelow(used: set<int>, taken: set<int>, bound: int)
  {
    forall p :: p in used && p !in taken ==> p < bound
  }

  lemma UsedBelowAdd(used: set<int>, taken: set<int>, next: int)
    requires UsedBelow(used, taken, next)
    ensures UsedBelow(used + {next}, taken, next + 1)
  {
  }

  lemma KeysUpdate(m: map<int, int>, k: int, v: int)
    ensures m[k := v].Keys == m.Keys + {k}
  {
  }

  lemma FreeSlotsSkip(taken: set<int>, p: nat)
    requires p in taken
    ensures FreeSlots(taken, p) == FreeSlots(taken, p + 1)
  {
  }

  lemma LayoutSplit(positions: seq<Option<int>>, n: nat, fixed: map<int, int>)
    requires fixed == Fixed(positions, n)
    ensures PlacedSoFar(fixed, positions, n, 0, fixed.Keys, 0, Layout(positions, n))
  {
  }

  lemma FreeTradesSkip(m: map<int, int>, positions: seq<Option<int>>, n: nat, i: nat, taken: set<int>, next: nat,
                       goal: map<int, int>)
    requires HasPosition(positions, i) && PlacedSoFar(m, positions, n, i, taken, next, goal)
    ensures PlacedSoFar(m, positions, n, i + 1, taken, next, goal)
  {
    assert FreeTrades(positions, n, i) == FreeTrades(positions, n, i + 1);
  }

  lemma FreeSlotsSame(m: map<int, int>, positions: seq<Option<int>>, n: nat, i: nat, taken: set<int>, start: nat,
                      next: nat, goal: map<int, int>)
    requires FreeSlots(taken, next) == FreeSlots(taken, start) && PlacedSoFar(m, positions, n, i, taken, start, goal)
    ensures PlacedSoFar(m, positions, n, i, taken, next, goal)
  {
  }

  /** Once the trades or the free positions have run out, the map is
      complete. */
  lemma NothingLeft(m: map<int, int>, positions: seq<Option<int>>, n: nat, i: nat, taken: set<int>, next: nat,
                    goal: map<int, int>)
    requires i >= n || next >= GridSize
    requires PlacedSoFar(m, positions, n, i, taken, next, goal)
    ensures m == goal
  {
    UnionEmpty(m, Pair(FreeTrades(positions, n, i), FreeSlots(taken, next)));
  }

  /** Placing free trade `i` at free slot `next` moves one pair from the
      part still to come into the map built so far. */
  lemma FreeStep(m: map<int, int>, positions: seq<Option<int>>, n: nat, i: nat, taken: set<int>, next: nat,
                 goal: map<int, int>)
    requires i < n && !HasPosition(positions, i) && next < GridSize && next !in taken
    requires PlacedSoFar(m, positions, n, i, taken, next, goal)
    ensures PlacedSoFar(m[next := i], positions, n, i + 1, taken, next + 1, goal)
  {
    var trades, trades' := FreeTrades(positions, n, i), FreeTrades(positions, n, i + 1);
    var slots, slots' := FreeSlots(taken, next), FreeSlots(taken, next + 1);
    assert trades == [i] + trades';
    assert slots == [next] + slots';
    assert trades[1..] == trades' && slots[1..] == slots';
    assert Pair(trades, slots) == Pair(trades', slots')[next := i];
    UnionUpdate(m, Pair(trades', slots'), next, i);
  }

  lemma UnionEmpty(m: map<int, int>, rest: map<int, int>)
    requires rest == map[]
    ensures m + rest == m
  {
  }

  lemma UnionEmptyLeft(m: map<int, int>)
    ensures map[] + m == m
  {
  }

  lemma UnionUpdate(m: map<int, int>, rest: map<int, int>, k: int, v: int)
    requires k !in rest
    ensures m[k := v] + rest == m + rest[k := v]
  {
  }

  // ---------------------------------------------------------------- grid properties

  /** Every key is a grid position and every value an offer index. */
  lemma LayoutInRange(positions: seq<Option<int>>, n: nat)
    ensures forall p :: p in Layout(positions, n) ==> InGrid(p) && 0 <= Layout(positions, n)[p] < n
  {
    var fixed := Fixed(positions, n);
    PairInRange(FreeTrades(positions, n, 0), FreeSlots(fixed.Keys, 0), n);
  }

  /** Pairing offer indexes below `n` with grid positions stays in range. */
  lemma PairInRange(trades: seq<int>, slots: seq<int>, n: int)
    requires forall k :: 0 <= k < |trades| ==> 0 <= trades[k] < n
    requires forall k :: 0 <= k < |slots| ==> InGrid(slots[k])
    ensures forall p :: p in Pair(trades, slots) ==> InGrid(p) && 0 <= Pair(trades, slots)[p] < n
  {
  }

  /** No two keys share a value. */
  predicate Injective(m: map<int, int>)
  {
    forall p, q :: p in m && q in m && p != q ==> m[p] != m[q]
  }

  /** Pairing two strictly increasing sequences gives each value to one
      key only. */
  lemma {:induction false} PairInjective(trades: seq<int>, slots: seq<int>)
    requires forall a, b :: 0 <= a < b < |trades| ==> trades[a] < trades[b]
    requires forall a, b :: 0 <= a < b < |slots| ==> slots[a] < slots[b]
    ensures Injective(Pair(trades, slots))
  {
    if trades != [] && slots != [] {
      var rest := Pair(trades[1..], slots[1..]);
      PairInjective(trades[1..], slots[1..]);
      assert forall p :: p in rest ==> rest[p] in trades[1..] && rest[p] != trades[0];
    }
  }

  /** Two injective maps with disjoint keys and disjoint values join into an
      injective map. */
  lemma UnionInjective(a: map<int, int>, b: map<int, int>)
    requires Injective(a) && Injective(b)
    requires forall p :: p in b ==> p !in a
    requires forall p, q :: p in a && q in b ==> a[p] != b[q]
    ensures Injective(a + b)
  {
    forall p, q | p in a + b && q in a + b && p != q
      ensures (a + b)[p] != (a + b)[q]
    {
      if p in b && q in b {
      } else if p in b {
        assert (a + b)[q] == a[q];
      } else if q in b {
        assert (a + b)[p] == a[p];
      }
    }
  }

  /** Each trade index appears at most once in the grid. */
  lemma LayoutInjective(positions: seq<Option<int>>, n: nat)
    ensures Injective(Layout(positions, n))
  {
    var fixed := Fixed(positions, n);
    var trades := FreeTrades(positions, n, 0);
    var slots := FreeSlots(fixed.Keys, 0);
    var free := Pair(trades, slots);
    PairInjective(trades, slots);
    PositionedInjective(positions, Min(|positions|, n));
    FreePartApart(fixed, positions, trades, slots);
    UnionInjective(fixed, free);
  }

  /** A configured position holds the last trade configured there, so no
      two positions hold the same trade. */
  lemma PositionedInjective(positions: seq<Option<int>>, k: nat)
    requires k <= |positions|
    ensures Injective(Positioned(positions, k))
    ensures forall p :: p in Positioned(positions, k) ==> HasPosition(positions, Positioned(positions, k)[p])
  {
  }

  /** The free part uses free positions and trades without a position. */
  lemma FreePartApart(fixed: map<int, int>, positions: seq<Option<int>>, trades: seq<int>, slots: seq<int>)
    requires forall p :: p in fixed ==> HasPosition(positions, fixed[p])
    requires forall k :: 0 <= k < |trades| ==> !HasPosition(positions, trades[k])
    requires forall k :: 0 <= k < |slots| ==> slots[k] !in fixed
    ensures forall p :: p in Pair(trades, slots) ==> p !in fixed
    ensures forall p, q :: p in fixed && q in Pair(trades, slots) ==> fixed[p] != Pair(trades, slots)[q]
  {
  }

  /** A trade configured at grid position `p` sits there unless a later
      trade is configured at `p` too. */
  lemma LayoutPositioned(positions: seq<Option<int>>, n: nat, i: nat, p: int)
    requires i < Min(|positions|, n) && positions[i] == Some(p) && InGrid(p)
    requires forall j :: i < j < Min(|positions|, n) ==> positions[j] != Some(p)
    ensures p in Layout(positions, n) && Layout(positions, n)[p] == i
  {
    var k := Min(|positions|, n);
    var fixed := Positioned(positions, k);
    PositionedLastWins(positions, k, p);
    var free := Pair(FreeTrades(positions, n, 0), FreeSlots(fixed.Keys, 0));
    assert p !in free;
    assert positions[fixed[p]] == Some(p);
  }

  /** A trade configured outside the grid is neither placed at its position
      nor given a free one. */
  lemma LayoutOutsideGridUnmapped(positions: seq<Option<int>>, n: nat, i: nat)
    requires i < |positions| && positions[i].Some? && !InGrid(positions[i].value)
    ensures forall p :: p in Layout(positions, n) ==> Layout(positions, n)[p] != i
  {
    var fixed := Fixed(positions, n);
    var trades := FreeTrades(positions, n, 0);
    var free := Pair(trades, FreeSlots(fixed.Keys, 0));
    var layout := fixed + free;
    assert layout == Layout(positions, n);
    forall p | p in layout
      ensures layout[p] != i
    {
      if p in free {
        var k :| 0 <= k < |trades| && trades[k] == free[p];
        assert !HasPosition(positions, trades[k]);
      } else {
        assert positions[fixed[p]] == Some(p) && InGrid(p);
      }
    }
  }

  /** The k-th slot of a pairing, while both sequences last. */
  lemma {:induction false} PairAt(trades: seq<int>, slots: seq<int>, k: nat)
    requires k < |trades| && k < |slots|
    requires forall a, b :: 0 <= a < b < |slots| ==> slots[a] < slots[b]
    ensures slots[k] in Pair(trades, slots) && Pair(trades, slots)[slots[k]] == trades[k]
  {
    if k > 0 {
      PairAt(trades[1..], slots[1..], k - 1);
      assert slots[0] < slots[k];
    }
  }

  /** Pairing as many trades as there are slots uses every slot. */
  lemma {:induction false} PairFull(trades: seq<int>, slots: seq<int>)
    requires |slots| <= |trades|
    ensures forall k :: 0 <= k < |slots| ==> slots[k] in Pair(trades, slots)
  {
    if slots != [] {
      PairFull(trades[1..], slots[1..]);
      assert forall k :: 1 <= k < |slots| ==> slots[k] == slots[1..][k - 1];
    }
  }

  /** The k-th trade without a position takes the k-th free grid position,
      lowest first. */
  lemma LayoutFreeInOrder(positions: seq<Option<int>>, n: nat, k: nat)
    requires k < |FreeTrades(positions, n, 0)| && k < |OpenSlots(positions, n)|
    ensures var slot := OpenSlots(positions, n)[k];
      && slot !in Fixed(positions, n) && slot in Layout(positions, n)
      && Layout(positions, n)[slot] == FreeTrades(positions, n, 0)[k]
  {
    var slots := OpenSlots(positions, n);
    assert slots[k] !in Fixed(positions, n);
    UnionPairAt(Fixed(positions, n), FreeTrades(positions, n, 0), slots, Layout(positions, n), k);
  }

  /** The k-th pair of a pairing laid over `fixed` on slots outside it. */
  lemma UnionPairAt(fixed: map<int, int>, trades: seq<int>, slots: seq<int>, layout: map<int, int>, k: nat)
    requires layout == fixed + Pair(trades, slots)
    requires k < |trades| && k < |slots| && slots[k] !in fixed
    requires forall a, b :: 0 <= a < b < |slots| ==> slots[a] < slots[b]
    ensures slots[k] in layout && layout[slots[k]] == trades[k]
  {
    PairAt(trades, slots, k);
  }

  /** When there are at least as many trades without a position as free
      positions, the grid is full; the remaining trades are not shown. */
  lemma LayoutFullWhenCrowded(positions: seq<Option<int>>, n: nat)
    requires |OpenSlots(positions, n)| <= |FreeTrades(positions, n, 0)|
    ensures forall p :: InGrid(p) ==> p in Layout(positions, n)
  {
    var fixed, trades, slots := Fixed(positions, n), FreeTrades(positions, n, 0), OpenSlots(positions, n);
    PairFull(trades, slots);
    forall p | InGrid(p) && p !in fixed
      ensures p in slots
    {
      FreeSlotsComplete(fixed.Keys, 0, p);
    }
    UnionCoversGrid(fixed, Pair(trades, slots), slots, Layout(positions, n));
  }

  /** A map over `fixed` that adds every free slot covers the grid. */
  lemma UnionCoversGrid(fixed: map<int, int>, free: map<int, int>, slots: seq<int>, layout: map<int, int>)
    requires layout == fixed + free
    requires forall k :: 0 <= k < |slots| ==> slots[k] in free
    requires forall p :: InGrid(p) && p !in fixed ==> p in slots
    ensures forall p :: InGrid(p) ==> p in layout
  {
    forall p | InGrid(p) && p !in fixed
      ensures p in free
    {
      var k :| 0 <= k < |slots| && slots[k] == p;
    }
  }

  // ---------------------------------------------------------------- slot geometry

  /** The screen's left edge: `(width - imageWidth) / 2`, truncating. */
  function Left(width: int): int
  {
    JavaDiv(width - ImageWidth, 2)
  }

  /** The screen's top edge: `(height - imageHeight) / 2`, truncating. */
  function Top(height: int): int
  {
    JavaDiv(height - ImageHeight, 2)
  }

  /** The slot of grid position `p`: column p mod 9, row p / 9, 18 pixels
      apart, the first at (left + 8, top + 18). */
  function SlotX(left: int, p: nat): int
  {
    left + 8 + (p % TradesPerRow) * 18
  }

  function SlotY(top: int, p: nat): int
  {
    top + 18 + (p / TradesPerRow) * 18
  }

  /** The half-open 16 by 16 hit box of a slot. */
  predicate InSlot(left: int, top: int, p: nat, mx: int, my: int)
  {
    SlotX(left, p) <= mx < SlotX(left, p) + 16 && SlotY(top, p) <= my < SlotY(top, p) + 16
  }

  /** The grid position under the point, computed directly from the offsets:
      the column and row are the offsets divided by 18, and the point must
      not lie in the two-pixel gap after a slot. */
  function GridPositionAt(left: int, top: int, mx: int, my: int): Option<int>
  {
    var dx := mx - left - 8;
    var dy := my - top - 18;
    if dx < 0 || dy < 0 then None
    else if dx / 18 < TradesPerRow && dy / 18 < MaxVisibleRows && dx % 18 < 16 && dy % 18 < 16
    then Some(dy / 18 * TradesPerRow + dx / 18)
    else None
  }

  lemma DivBy18(x: int, q: int)
    requires 18 * q <= x < 18 * q + 18
    ensures x / 18 == q && x % 18 == x - 18 * q
  {
  }

  lemma DivBy9(p: int, row: int, col: int)
    requires 0 <= col < 9 && p == row * 9 + col
    ensures p / 9 == row && p % 9 == col
  {
  }

  /** A point lies in the hit box of grid position `p` exactly when it is
      the position under the point; so no two slots overlap. */
  lemma InSlotIff(left: int, top: int, p: int, mx: int, my: int)
    requires InGrid(p)
    ensures InSlot(left, top, p, mx, my) <==> GridPositionAt(left, top, mx, my) == Some(p)
  {
    var dx := mx - left - 8;
    var dy := my - top - 18;
    var col, row := p % 9, p / 9;
    if InSlot(left, top, p, mx, my) {
      DivBy18(dx, col);
      DivBy18(dy, row);
    }
    if GridPositionAt(left, top, mx, my) == Some(p) {
      DivBy9(p, dy / 18, dx / 18);
      DivBy18(dx, col);
      DivBy18(dy, row);
    }
  }

  /** The trade under the point, or -1. */
  function HoverTarget(grid: map<int, int>, left: int, top: int, mx: int, my: int): int
  {
    match GridPositionAt(left, top, mx, my)
    case None => -1
    case Some(p) => if p in grid then grid[p] else -1
  }

  /** `getHoveredTradeIndex`: the trade whose slot contains the point, or
      -1. */
  method HoveredTradeIndex(positions: seq<Option<int>>, offerCount: nat, width: int, height: int, mx: int, my: int)
    returns (index: int)
    ensures index == HoverTarget(Layout(positions, offerCount), Left(width), Top(height), mx, my)
  {
    var x := JavaDiv(width - ImageWidth, 2);
    var y := JavaDiv(height - ImageHeight, 2);
    var grid := BuildPositionToTradeMap(positions, offerCount);
    LayoutInRange(positions, offerCount);
    index := SlotUnder(grid, x, y, mx, my);
  }

  /** The loop of `getHoveredTradeIndex`: the map's entries are tried in
      whatever order they come; the first whose slot contains the point
      gives its trade. Slots do not overlap, so the order does not matter. */
  method SlotUnder(grid: map<int, int>, x: int, y: int, mx: int, my: int) returns (index: int)
    requires forall p :: p in grid ==> InGrid(p)
    ensures index == HoverTarget(grid, x, y, mx, my)
  {
    var rest: set<int> := grid.Keys;
    while rest != {}
      invariant rest <= grid.Keys
      invariant forall p :: p in grid && p !in rest ==> !InSlot(x, y, p, mx, my)
      decreases |rest|
    {
      NonEmptyHasElement(rest);
      var position :| position in rest;
      var slotX := SlotX(x, position);
      var slotY := SlotY(y, position);
      if mx >= slotX && mx < slotX + 16 && my >= slotY && my < slotY + 16 {
        InSlotIff(x, y, position, mx, my);
        return grid[position];
      }
      rest := rest - {position};
    }
    var at := GridPositionAt(x, y, mx, my);
    if at.Some? && at.value in grid {
      InSlotIff(x, y, at.value, mx, my);
    }
    return -1;
  }

  lemma NonEmptyHasElement(s: set<int>)
    requires s != {}
    ensures exists p :: p in s
  {
    if forall p :: p !in s {
      assert false;
    }
  }

  /** Over the real grid, -1 means exactly that no placed trade's slot
      contains the point; any other answer is an offer index. */
  lemma HoverTargetMeaning(positions: seq<Option<int>>, n: nat, left: int, top: int, mx: int, my: int)
    ensures var t := HoverTarget(Layout(positions, n), left, top, mx, my);
      && (t == -1 <==> forall p :: p in Layout(positions, n) ==> !InSlot(left, top, p, mx, my))
      && (t != -1 ==> 0 <= t < n)
  {
    var grid := Layout(positions, n);
    LayoutInRange(positions, n);
    var at := GridPositionAt(left, top, mx, my);
    if at.Some? && at.value in grid {
      InSlotIff(left, top, at.value, mx, my);
    }
    forall p | p in grid && InSlot(left, top, p, mx, my)
      ensures at == Some(p)
    {
      InSlotIff(left, top, p, mx, my);
    }
  }

  // ---------------------------------------------------------------- clicks

  /** `isHoveringDailyReward`: the reward is shown, has a position, and its
      slot contains the point. The position need not lie in the grid. */
  predicate IsHoveringDailyReward(hasDisplay: bool, position: int, left: int, top: int, mx: int, my: int)
  {
    hasDisplay && position >= 0 && InSlot(left, top, position, mx, my)
  }

  datatype ClickAction = ClaimDailyReward | DailyRewardAlreadyClaimed | SendTrade(index: int) | PassOn

  /** `mouseClicked`: a left click on the daily reward claims it (or is
      refused when already claimed) before any trade is looked at; a left
      click on a trade sends its index to the server; everything else goes
      to the vanilla screen. */
  method MouseClicked(positions: seq<Option<int>>, offerCount: nat, width: int, height: int,
                      hasDailyReward: bool, dailyPosition: int, claimed: bool,
                      mx: int, my: int, button: int) returns (action: ClickAction)
    ensures var left, top := Left(width), Top(height);
      var daily := IsHoveringDailyReward(hasDailyReward, dailyPosition, left, top, mx, my);
      var trade := HoverTarget(Layout(positions, offerCount), left, top, mx, my);
      && (button != 0 ==> action == PassOn)
      && (button == 0 && daily ==> action == (if claimed then DailyRewardAlreadyClaimed else ClaimDailyReward))
      && (button == 0 && !daily && trade >= 0 ==> action == SendTrade(trade))
      && (button == 0 && !daily && trade < 0 ==> action == PassOn)
  {
    if button == 0 {
      var left := JavaDiv(width - ImageWidth, 2);
      var top := JavaDiv(height - ImageHeight, 2);
      if hasDailyReward && dailyPosition >= 0 && InSlot(left, top, dailyPosition, mx, my) {
        if !claimed {
          return ClaimDailyReward;
        }
        return DailyRewardAlreadyClaimed;
      }
      var tradeIndex := HoveredTradeIndex(positions, offerCount, width, height, mx, my);
      if tradeIndex >= 0 {
        return SendTrade(tradeIndex);
      }
    }
    return PassOn;
  }

  /** Rendering reserves the daily reward's position, but the grid used for
      hovering and clicking does not: with the reward at position 0 and one
      offer without a position, that trade is placed under the reward, and
      a click there goes to the reward. */
  lemma DailyRewardSlotNotReserved(left: int, top: int)
    ensures Layout([], 1) == map[0 := 0]
    ensures HoverTarget(Layout([], 1), left, top, SlotX(left, 0), SlotY(top, 0)) == 0
    ensures IsHoveringDailyReward(true, 0, left, top, SlotX(left, 0), SlotY(top, 0))
  {
    LayoutOneFreeTrade();
    InSlotIff(left, top, 0, SlotX(left, 0), SlotY(top, 0));
  }

  /** The position `renderTradeItems` reserves for the daily reward: its
      position when the reward is shown and the position is not negative. */
  function RewardReserve(hasDisplay: bool, position: int): (r: set<int>)
    ensures position in r <==> hasDisplay && position >= 0
    ensures forall p :: p in r ==> p == position
  {
    if hasDisplay && position >= 0 then {position} else {}
  }

  /** The grid as `renderTradeItems` draws it, and as the click grid is
      evidently meant to be: the first pass as before, then the trades
      without a position on the positions neither taken nor reserved. */
  function ReservingLayout(positions: seq<Option<int>>, offerCount: nat, reserved: set<int>): map<int, int>
  {
    Fixed(positions, offerCount)
      + Pair(FreeTrades(positions, offerCount, 0), FreeSlots(Fixed(positions, offerCount).Keys + reserved, 0))
  }

  /** With the reward's position reserved, no trade without a position is
      placed under the reward: a trade sits there only when its own entry
      configures that position. Reserving nothing gives the click grid. */
  lemma ReservedSlotHoldsNoFreeTrade(positions: seq<Option<int>>, n: nat, hasDisplay: bool, position: int)
    ensures var grid := ReservingLayout(positions, n, RewardReserve(hasDisplay, position));
      hasDisplay && position >= 0 && position in grid ==>
        position in Fixed(positions, n) && grid[position] == Fixed(positions, n)[position]
        && positions[grid[position]] == Some(position)
    ensures ReservingLayout(positions, n, {}) == Layout(positions, n)
  {
    var fixed := Fixed(positions, n);
    var free := Pair(FreeTrades(positions, n, 0), FreeSlots(fixed.Keys + RewardReserve(hasDisplay, position), 0));
    if hasDisplay && position >= 0 {
      assert position !in free;
    }
    assert fixed.Keys + {} == fixed.Keys;
  }

  /** The corrected grid on the case the click grid gets wrong: one offer
      without a trade entry and the reward at position 0. The offer moves to
      position 1, so a click on the reward's slot finds no trade under it. */
  lemma ReservedRewardSlotIsFree(left: int, top: int)
    ensures ReservingLayout([], 1, RewardReserve(true, 0)) == map[1 := 0]
    ensures HoverTarget(ReservingLayout([], 1, RewardReserve(true, 0)), left, top, SlotX(left, 0), SlotY(top, 0)) == -1
    ensures IsHoveringDailyReward(true, 0, left, top, SlotX(left, 0), SlotY(top, 0))
  {
    ReservedOneFreeTrade();
    InSlotIff(left, top, 0, SlotX(left, 0), SlotY(top, 0));
  }

  /** One offer, no trade entries, position 0 reserved: the offer goes to
      position 1. */
  lemma ReservedOneFreeTrade()
    ensures ReservingLayout([], 1, RewardReserve(true, 0)) == map[1 := 0]
  {
    var fixed := Fixed([], 1);
    assert fixed == map[] by {
      assert Positioned([], 0) == map[];
    }
    var taken := fixed.Keys + RewardReserve(true, 0);
    var slots := FreeSlots(taken, 0);
    FirstFreeAfterZero(taken);
    assert FreeTrades([], 1, 0) == [0] by {
      assert FreeTrades([], 1, 1) == [];
    }
    assert Pair([0], slots) == map[1 := 0] by {
      assert Pair([0][1..], slots[1..]) == map[];
    }
    UnionEmptyLeft(Pair([0], slots));
  }

  /** With 0 taken and 1 free, the first free position is 1. */
  lemma FirstFreeAfterZero(taken: set<int>)
    requires 0 in taken && 1 !in taken
    ensures |FreeSlots(taken, 0)| > 0 && FreeSlots(taken, 0)[0] == 1
  {
    assert FreeSlots(taken, 1) == [1] + FreeSlots(taken, 2);
    assert FreeSlots(taken, 0) == FreeSlots(taken, 1);
  }

  /** One offer, no trade entries: the offer goes to position 0. */
  lemma LayoutOneFreeTrade()
    ensures Layout([], 1) == map[0 := 0]
  {
    var fixed: map<int, int> := Positioned([], 0);
    assert fixed == map[];
    LayoutSplit([], 1, fixed);
    var slots := FreeSlots(fixed.Keys, 0);
    assert FreeTrades([], 1, 0) == [0];
    assert slots == [0] + FreeSlots(fixed.Keys, 1);
    assert Pair([0], slots) == Pair([], slots[1..])[0 := 0];
    UnionEmptyLeft(Pair([0], slots));
  }

  // ---------------------------------------------------------------- count text

  /** The daily reward tooltip's count: `minx` when both bounds agree,
      `min-maxx` otherwise. */
  function DailyRewardCountText(minCount: int, maxCount: int): string
  {
    if minCount == maxCount then IntToString(minCount) + "x"
    else IntToString(minCount) + "-" + IntToString(maxCount) + "x"
  }

  /** Reads the count text back: drop the trailing `x`, then split at the
      first `-` that is not a leading sign. */
  function ParseCountText(t: string): Option<(int, int)>
  {
    if |t| < 2 || t[|t| - 1] != 'x' then None
    else ParseBounds(t[..|t| - 1])
  }

  function ParseBounds(body: string): Option<(int, int)>
    requires |body| >= 1
  {
    match IndexOfFrom(body, "-", 1)
    case None => ParsePair(body, body)
    case Some(k) => ParsePair(body[..k], body[k + 1..])
  }

  function ParsePair(lo: string, hi: string): Option<(int, int)>
  {
    match (ParseInt(lo), ParseInt(hi))
    case (Some(a), Some(b)) => Some((a, b))
    case _ => None
  }

  /** A printed number has a minus sign at most in front. */
  lemma IntToStringSignFirst(i: int)
    ensures forall k :: 1 <= k < |IntToString(i)| ==> IsDigit(IntToString(i)[k])
  {
    var s := IntToString(i);
    if i < 0 {
      assert forall k :: 1 <= k < |s| ==> s[k] == NatToString(-i)[k - 1];
    }
  }

  /** The count text names both bounds, and whether they agree. */
  lemma CountTextRoundTrip(minCount: int, maxCount: int)
    ensures ParseCountText(DailyRewardCountText(minCount, maxCount)) == Some((minCount, maxCount))
  {
    var t := DailyRewardCountText(minCount, maxCount);
    var a := IntToString(minCount);
    IntToStringSignFirst(minCount);
    IntToStringRoundTrip(minCount);
    if minCount == maxCount {
      assert t[..|t| - 1] == a;
      NoDashAfterSign(a);
      assert ParsePair(a, a) == Some((minCount, minCount));
    } else {
      var b := IntToString(maxCount);
      IntToStringRoundTrip(maxCount);
      var body := a + "-" + b;
      assert t[..|t| - 1] == body;
      DashAfterFirstNumber(a, b);
      assert body[..|a|] == a;
      assert body[|a| + 1..] == b;
      assert ParsePair(a, b) == Some((minCount, maxCount));
    }
  }

  lemma NoDashAfterSign(a: string)
    requires |a| >= 1 && forall k :: 1 <= k < |a| ==> IsDigit(a[k])
    ensures IndexOfFrom(a, "-", 1) == None
  {
    forall j | 1 <= j
      ensures !OccursAt(a, "-", j)
    {
      if j < |a| {
        assert a[j..j + 1] == [a[j]];
      }
    }
  }

  lemma DashAfterFirstNumber(a: string, b: string)
    requires |a| >= 1 && forall k :: 1 <= k < |a| ==> IsDigit(a[k])
    ensures IndexOfFrom(a + "-" + b, "-", 1) == Some(|a|)
  {
    var body := a + "-" + b;
    assert OccursAt(body, "-", |a|) by {
      assert body[|a|..|a| + 1] == "-";
    }
    forall j | 1 <= j < |a|
      ensures !OccursAt(body, "-", j)
    {
      assert body[j..j + 1] == [a[j]];
    }
  }
}
