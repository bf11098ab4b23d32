/** Thick-wall placement: find the first bid thick enough to hide behind and rest one
    order on the level just below it. The pricer and the record that explains its
    choice scan the book separately; they are proved to find the same level. */
module LegacyWall {
  import opened Fifo
  import opened OrderSizing
  import opened ProtectedExit
  import opened Wrappers
  import Laddering

  /** A tick below one cent selects the cumulative rule. */
  const CENT_TICK := 100

  datatype Rules = Rules(maxSpread: int, tick: int, rangeMin: real, rangeMax: real, wall: int, cumulative: int)

  function Whole(l: Level): int { Trunc(l.size, SHARE) }

  /** Whole shares on the first `n` levels. */
  function Cum(bids: seq<Level>, n: nat): int
    requires n <= |bids|
  {
    if n == 0 then 0 else Cum(bids, n - 1) + Whole(bids[n - 1])
  }

  predicate Fine(r: Rules) { r.tick < CENT_TICK }

  /** The rule that walks down the book no further than the spread allows. */
  predicate Ranged(r: Rules) { !Fine(r) && r.maxSpread != 2 }

  function MinPrice(bids: seq<Level>, r: Rules): int
    requires bids != []
  {
    bids[0].price - r.maxSpread * r.tick
  }

  /** Level `i` lies in the part of the book the rule looks at. */
  ghost predicate Scanned(bids: seq<Level>, r: Rules, i: int)
    requires 0 <= i < |bids|
  {
    if Fine(r) then true
    else if r.maxSpread == 2 then i == 0
    else forall j | 0 <= j <= i :: bids[j].price >= MinPrice(bids, r)
  }

  ghost predicate Qualifies(bids: seq<Level>, r: Rules, i: int)
    requires 0 <= i < |bids|
  {
    if Fine(r) then Cum(bids, i + 1) > r.cumulative else Whole(bids[i]) > r.wall
  }

  /** `h` is the first level in sight that qualifies, if there is one. */
  ghost predicate FirstHit(h: Option<nat>, bids: seq<Level>, r: Rules) {
    match h
    case Some(i) =>
      && i < |bids| && Scanned(bids, r, i) && Qualifies(bids, r, i)
      && forall j | 0 <= j < i :: !Qualifies(bids, r, j)
    case None =>
      forall j | 0 <= j < |bids| && Scanned(bids, r, j) :: !Qualifies(bids, r, j)
  }

  lemma {:induction false} HitUnique(h: Option<nat>, k: Option<nat>, bids: seq<Level>, r: Rules)
    requires FirstHit(h, bids, r) && FirstHit(k, bids, r)
    ensures h == k
  {
    if h.Some? { assert Qualifies(bids, r, h.value); }
    if k.Some? { assert Qualifies(bids, r, k.value); }
  }

  /** The level below `i` may carry the order. */
  predicate Usable(bids: seq<Level>, r: Rules, i: nat) {
    && i + 1 < |bids|
    && Laddering.InRange(bids[i + 1], r.rangeMin, r.rangeMax)
    && (Ranged(r) ==> bids[i + 1].price >= MinPrice(bids, r))
  }

  ghost function PriceBelow(h: Option<nat>, bids: seq<Level>, r: Rules): Option<int> {
    if h.Some? && Usable(bids, r, h.value) then Some(bids[h.value + 1].price) else None
  }

  ghost predicate Priced(p: Option<int>, bids: seq<Level>, r: Rules) {
    exists h :: FirstHit(h, bids, r) && p == PriceBelow(h, bids, r)
  }

  method DetermineOrderPrice(bids: seq<Level>, r: Rules) returns (p: Option<int>)
    ensures Priced(p, bids, r)
  {
    if bids == [] {
      assert FirstHit(None, bids, r);
      return None;
    }
    if Fine(r) {
      p := Cumulative(bids, r);
    } else if r.maxSpread == 2 {
      p := Spread2Coarse(bids, r);
    } else {
      p := SpreadGe3Coarse(bids, r);
    }
  }

  method Cumulative(bids: seq<Level>, r: Rules) returns (p: Option<int>)
    requires Fine(r)
    ensures Priced(p, bids, r)
  {
    var cumulative := 0;
    for i := 0 to |bids|
      invariant cumulative == Cum(bids, i)
      invariant forall j | 0 <= j < i :: !Qualifies(bids, r, j)
    {
      cumulative := cumulative + Whole(bids[i]);
      if cumulative > r.cumulative {
        assert FirstHit(Some(i), bids, r);
        if i + 1 >= |bids| {
          return None;
        }
        var target := bids[i + 1].price;
        if r.rangeMin <= target as real <= r.rangeMax {
          return Some(target);
        }
        return None;
      }
    }
    assert FirstHit(None, bids, r);
    return None;
  }

  method Spread2Coarse(bids: seq<Level>, r: Rules) returns (p: Option<int>)
    requires !Fine(r) && r.maxSpread == 2 && bids != []
    ensures Priced(p, bids, r)
  {
    if Whole(bids[0]) <= r.wall {
      assert FirstHit(None, bids, r);
      return None;
    }
    assert FirstHit(Some(0), bids, r);
    if |bids| < 2 {
      return None;
    }
    var target := bids[1].price;
    if r.rangeMin <= target as real <= r.rangeMax {
      return Some(target);
    }
    return None;
  }

  method SpreadGe3Coarse(bids: seq<Level>, r: Rules) returns (p: Option<int>)
    requires Ranged(r) && bids != []
    ensures Priced(p, bids, r)
  {
    var minPrice := bids[0].price - r.maxSpread * r.tick;
    for i := 0 to |bids|
      invariant forall j | 0 <= j < i :: bids[j].price >= minPrice && !Qualifies(bids, r, j)
    {
      if bids[i].price < minPrice {
        assert forall j | i <= j < |bids| :: !Scanned(bids, r, j);
        assert FirstHit(None, bids, r);
        return None;
      }
      if Whole(bids[i]) > r.wall {
        assert FirstHit(Some(i), bids, r);
        if i + 1 < |bids| {
          var target := bids[i + 1].price;
          if target >= minPrice && r.rangeMin <= target as real <= r.rangeMax {
            return Some(target);
          }
        }
        return None;
      }
    }
    assert FirstHit(None, bids, r);
    return None;
  }

  // ---------------------------------------------------------------- the explanation record

  datatype Marked = Marked(price: int, size: int, cum: int)

  datatype Reason = Placed | NoBook | Cliff | NothingThick | NextUnusable | TooFewShares

  datatype Explained = Explained(reason: Reason, hit: Option<nat>, price: int, shares: int, levels: seq<Marked>)

  datatype Sizing = Sizing(minSize: int, mode: SizeMode, balance: int, customUsd: int)

  ghost predicate MarksBook(levels: seq<Marked>, bids: seq<Level>) {
    && |levels| == |bids|
    && forall i | 0 <= i < |bids| :: levels[i] == Marked(bids[i].price, bids[i].size, Cum(bids, i + 1))
  }

  method MarkLevels(bids: seq<Level>) returns (levels: seq<Marked>)
    ensures MarksBook(levels, bids)
  {
    levels := [];
    var running := 0;
    for i := 0 to |bids|
      invariant |levels| == i && running == Cum(bids, i)
      invariant forall j | 0 <= j < i :: levels[j] == Marked(bids[j].price, bids[j].size, Cum(bids, j + 1))
    {
      running := running + Whole(bids[i]);
      levels := levels + [Marked(bids[i].price, bids[i].size, running)];
    }
  }

  /** How many of the marked levels the record claims the pricer looked at. */
  method ScannedPrefix(levels: seq<Marked>, bids: seq<Level>, r: Rules) returns (n: nat)
    requires MarksBook(levels, bids) && bids != []
    ensures n <= |bids| && forall i | 0 <= i < |bids| :: i < n <==> Scanned(bids, r, i)
  {
    if Fine(r) {
      return |levels|;
    }
    if r.maxSpread == 2 {
      return 1;
    }
    var minPrice := levels[0].price - r.maxSpread * r.tick;
    n := 0;
    while n < |levels| && levels[n].price >= minPrice
      invariant n <= |levels| && forall j | 0 <= j < n :: bids[j].price >= minPrice
    {
      n := n + 1;
    }
  }

  method FindHit(levels: seq<Marked>, bids: seq<Level>, r: Rules) returns (h: Option<nat>)
    requires MarksBook(levels, bids) && bids != []
    ensures FirstHit(h, bids, r)
  {
    var n := ScannedPrefix(levels, bids, r);
    for i := 0 to n
      invariant forall j | 0 <= j < i :: !Qualifies(bids, r, j)
    {
      if if Fine(r) then levels[i].cum > r.cumulative else Trunc(levels[i].size, SHARE) > r.wall {
        return Some(i);
      }
    }
    return None;
  }

  ghost predicate Explains(d: Explained, bids: seq<Level>, r: Rules, s: Sizing, cliff: real) {
    if bids == [] || s.minSize <= 0 then d.reason.NoBook?
    else if Laddering.Unsupported(bids, r.rangeMin, cliff) then d.reason.Cliff? && MarksBook(d.levels, bids)
    else
      && MarksBook(d.levels, bids) && FirstHit(d.hit, bids, r)
      && exists p :: Priced(p, bids, r) && Concludes(d, p, s)
  }

  ghost predicate Concludes(d: Explained, p: Option<int>, s: Sizing) {
    if p.None? then d.reason == (if d.hit.None? then NothingThick else NextUnusable)
    else
      var n := ComputeOrderSize(s.mode, p.value, s.balance, s.minSize, s.customUsd);
      if n.None? then d.reason.TooFewShares? else d.reason.Placed? && d.price == p.value && d.shares == n.value
  }

  method ExplainLegacyOrder(bids: seq<Level>, r: Rules, s: Sizing, cliff: real) returns (d: Explained)
    ensures Explains(d, bids, r, s, cliff)
  {
    if bids == [] || s.minSize <= 0 {
      return Explained(NoBook, None, 0, 0, []);
    }
    var levels := MarkLevels(bids);
    if Laddering.HasCliffBelow(bids, r.rangeMin, cliff) {
      return Explained(Cliff, None, 0, 0, levels);
    }
    var price := DetermineOrderPrice(bids, r);
    var hit := FindHit(levels, bids, r);
    if price.None? {
      return Explained(if hit.None? then NothingThick else NextUnusable, hit, 0, 0, levels);
    }
    var shares := ComputeOrderSize(s.mode, price.value, s.balance, s.minSize, s.customUsd);
    if shares.None? {
      return Explained(TooFewShares, hit, 0, 0, levels);
    }
    return Explained(Placed, hit, price.value, shares.value, levels);
  }

  // ---------------------------------------------------------------- what the record guarantees

  /** The record and the pricer agree whenever pricing was reached: a placed order is
      priced one level below the level the record names, that level is the first one
      in sight that qualified, and a record that names none means there was no price. */
  lemma {:induction false} ExplanationRefinesPricer(d: Explained, p: Option<int>, bids: seq<Level>, r: Rules,
                                                    s: Sizing, cliff: real)
    requires Explains(d, bids, r, s, cliff) && Priced(p, bids, r)
    requires !d.reason.NoBook? && !d.reason.Cliff?
    ensures FirstHit(d.hit, bids, r) && p == PriceBelow(d.hit, bids, r)
    ensures d.hit.None? ==> p.None? && d.reason.NothingThick?
    ensures d.reason.NextUnusable? <==> d.hit.Some? && !Usable(bids, r, d.hit.value)
    ensures d.reason.Placed? ==> p == Some(d.price)
    ensures d.reason.Placed? ==> d.hit.Some? && d.hit.value + 1 < |d.levels|
                                 && d.price == d.levels[d.hit.value + 1].price
  {
    var q :| Priced(q, bids, r) && Concludes(d, q, s);
    var h :| FirstHit(h, bids, r) && q == PriceBelow(h, bids, r);
    var k :| FirstHit(k, bids, r) && p == PriceBelow(k, bids, r);
    HitUnique(h, d.hit, bids, r);
    HitUnique(k, d.hit, bids, r);
  }

  /** What is placed sits on a bid of the book inside the reward range, just behind
      the wall, no further below the best bid than the spread allows, and is no
      smaller than the smallest order that qualifies. */
  lemma {:induction false} PlacedBehindWall(d: Explained, bids: seq<Level>, r: Rules, s: Sizing, cliff: real)
    requires Explains(d, bids, r, s, cliff) && d.reason.Placed?
    ensures exists l :: l in bids && l.price == d.price && Laddering.InRange(l, r.rangeMin, r.rangeMax)
    ensures d.hit.Some? && d.hit.value + 1 < |bids| && d.price == bids[d.hit.value + 1].price
    ensures Qualifies(bids, r, d.hit.value)
    ensures Ranged(r) ==> bids[0].price - d.price <= r.maxSpread * r.tick
    ensures d.price > 0 && 0 < s.minSize <= d.shares
    ensures !Laddering.Unsupported(bids, r.rangeMin, cliff)
  {
    var p :| Priced(p, bids, r) && Concludes(d, p, s);
    ExplanationRefinesPricer(d, p, bids, r, s, cliff);
    assert Usable(bids, r, d.hit.value);
    assert bids[d.hit.value + 1] in bids;
  }

  /** The review of resting buys also applies the gap veto, which this placement mode
      does not: an order it places is kept exactly when its price is in the price band
      and the book's widest gap is not vetoed. */
  lemma {:induction false} PlacedOrderSurvives(d: Explained, v: Laddering.Verdict, bids: seq<Level>, r: Rules,
                                               s: Sizing, cliff: real, minCents: real, maxCents: real,
                                               veto: real, gap: int, split: int)
    requires Explains(d, bids, r, s, cliff) && d.reason.Placed?
    requires Laddering.Reviewed(v, d.price, bids, r.rangeMin, r.rangeMax, minCents, maxCents, cliff, veto)
    requires Laddering.WidestGap(Laddering.SortedLevels(bids), gap, split)
    ensures v.Kept? <==> 100.0 * minCents <= d.price as real <= 100.0 * maxCents && !Laddering.TooWide(gap, veto)
  {
    PlacedBehindWall(d, bids, r, s, cliff);
    if minCents * Laddering.CENT <= d.price as real <= maxCents * Laddering.CENT {
      var g, k: int :| Laddering.WidestGap(Laddering.SortedLevels(bids), g, k)
                       && v == (if Laddering.TooWide(g, veto) then Laddering.OverGap else Laddering.Kept);
      Laddering.WidestGapUnique(Laddering.SortedLevels(bids), g, k, gap, split);
    }
  }

  function VetoedBook(): seq<Level> {
    [Level(5000, 3000 * SHARE), Level(4900, 100 * SHARE), Level(4000, 100 * SHARE)]
  }

  function VetoedRules(): Rules { Rules(3, 100, 4500.0, 5500.0, 2000, 6000) }

  lemma {:induction false} VetoedPrice(p: Option<int>)
    requires Priced(p, VetoedBook(), VetoedRules())
    ensures p == Some(4900)
  {
    var bids, r := VetoedBook(), VetoedRules();
    var h :| FirstHit(h, bids, r) && p == PriceBelow(h, bids, r);
    assert Qualifies(bids, r, 0) && Scanned(bids, r, 0);
    HitUnique(h, Some(0), bids, r);
  }

  lemma {:induction false} VetoedGap(g: int, k: int)
    requires Laddering.WidestGap(Laddering.SortedLevels(VetoedBook()), g, k)
    ensures Laddering.TooWide(g, 5.0)
  {
    Laddering.SortedStays(VetoedBook());
    assert Laddering.Gap(VetoedBook(), 1) == 900;
  }

  /** A book on which the same settings place an order and then cancel it: the wall at
      50 cents carries an order at 49, and the 9 cent gap below exceeds the veto. */
  lemma {:induction false} PlaceThenCancel(d: Explained, v: Laddering.Verdict)
    requires Explains(d, VetoedBook(), VetoedRules(), Sizing(50, MinSize, 0, 0), 0.0)
    requires Laddering.Reviewed(v, d.price, VetoedBook(), 4500.0, 5500.0, 10.0, 90.0, 0.0, 5.0)
    ensures d.reason.Placed? && d.price == 4900 && v.OverGap?
  {
    var p :| Priced(p, VetoedBook(), VetoedRules()) && Concludes(d, p, Sizing(50, MinSize, 0, 0));
    VetoedPrice(p);
    var g, k: int :| Laddering.WidestGap(Laddering.SortedLevels(VetoedBook()), g, k)
                     && v == (if Laddering.TooWide(g, 5.0) then Laddering.OverGap else Laddering.Kept);
    VetoedGap(g, k);
  }
}
