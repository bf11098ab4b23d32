/** Quotes for the two ways out of a position: a protected sell down the bids, or
    buying the complement and merging the pair for one dollar a share. */
module ProtectedExit {
  import opened Fifo
  import opened Sorting
  import opened Wrappers
  import MergeAccounting

  const DOLLAR := MergeAccounting.DOLLAR

  datatype Level = Level(price: int, size: int)

  /** Shares taken at a price. */
  datatype Take = Take(price: int, qty: int)

  function LevelPrice(l: Level): int { l.price }

  function LevelPriceDown(l: Level): int { -l.price }

  ghost predicate Descending(bids: seq<Level>) {
    forall i, j | 0 <= i < j < |bids| :: bids[i].price >= bids[j].price
  }

  ghost predicate Ascending(asks: seq<Level>) {
    forall i, j | 0 <= i < j < |asks| :: asks[i].price <= asks[j].price
  }

  lemma {:induction false} SortDescends(bids: seq<Level>)
    ensures Descending(StableSort(bids, LevelPriceDown))
  {
    var s := StableSort(bids, LevelPriceDown);
    StableSortSorts(bids, LevelPriceDown);
    forall i, j | 0 <= i < j < |s| ensures s[i].price >= s[j].price {
      assert LevelPriceDown(s[i]) <= LevelPriceDown(s[j]);
    }
  }

  lemma {:induction false} SortAscends(asks: seq<Level>)
    ensures Ascending(StableSort(asks, LevelPrice))
  {
    var s := StableSort(asks, LevelPrice);
    StableSortSorts(asks, LevelPrice);
    forall i, j | 0 <= i < j < |s| ensures s[i].price <= s[j].price {
      assert LevelPrice(s[i]) <= LevelPrice(s[j]);
    }
  }

  predicate Tradable(l: Level) { l.price > 0 && l.size > 0 }

  /** Shares on offer on the tradable levels. */
  function Depth(book: seq<Level>): int {
    if book == [] then 0 else (if Tradable(book[0]) then book[0].size else 0) + Depth(book[1..])
  }

  function Qty(ts: seq<Take>): int {
    if ts == [] then 0 else ts[0].qty + Qty(ts[1..])
  }

  function Money(ts: seq<Take>): int {
    if ts == [] then 0 else ts[0].price * ts[0].qty + Money(ts[1..])
  }

  /** How an exchange fills an order of `size` against a book from the best level
      on, skipping what `limit` excludes: the specification of both walks and the
      behaviour of a fill-and-kill sell with that limit. */
  function Sweep(book: seq<Level>, size: int, admits: Level -> bool): seq<Take> {
    if book == [] || size <= 0 then []
    else if Tradable(book[0]) && admits(book[0]) then
      [Take(book[0].price, Min(book[0].size, size))] + Sweep(book[1..], size - Min(book[0].size, size), admits)
    else Sweep(book[1..], size, admits)
  }

  function Any(): Level -> bool { (l: Level) => true }

  ghost function AtLeast(limit: int): Level -> bool { (l: Level) => l.price >= limit }

  datatype Walk = Walk(levels: seq<Take>, executable: int, worst: Option<int>)

  lemma {:induction false} TakesAppend(a: seq<Take>, b: seq<Take>)
    ensures Qty(a + b) == Qty(a) + Qty(b)
    ensures Money(a + b) == Money(a) + Money(b)
  {
    if a == [] {
      assert a + b == b;
    } else {
      assert (a + b)[1..] == a[1..] + b;
      TakesAppend(a[1..], b);
    }
  }

  lemma {:induction false} SweepQty(book: seq<Level>, size: int)
    ensures Qty(Sweep(book, size, Any())) == Min(Max(0, size), Depth(book))
    ensures Depth(book) >= 0
  {
    if book != [] {
      SweepQty(book[1..], size);
      if size > 0 && Tradable(book[0]) {
        var t := Min(book[0].size, size);
        SweepQty(book[1..], size - t);
        var rest := Sweep(book[1..], size - t, Any());
        assert ([Take(book[0].price, t)] + rest)[1..] == rest;
      }
    }
  }

  /** One step of a walk: the take at level `i` moves from what is to come to what is done. */
  lemma {:induction false} SweepNext(done: seq<Take>, book: seq<Level>, i: nat, remaining: int, admits: Level -> bool)
    requires i < |book| && remaining > 0 && Tradable(book[i]) && admits(book[i])
    ensures var t := Take(book[i].price, Min(book[i].size, remaining));
            && done + Sweep(book[i..], remaining, admits)
               == (done + [t]) + Sweep(book[i + 1..], remaining - t.qty, admits)
            && Qty(done + [t]) == Qty(done) + t.qty && Money(done + [t]) == Money(done) + t.price * t.qty
  {
    var t := Take(book[i].price, Min(book[i].size, remaining));
    assert book[i..][0] == book[i] && book[i..][1..] == book[i + 1..];
    TakesAppend(done, [t]);
  }

  lemma {:induction false} SweepSkip(book: seq<Level>, i: nat, remaining: int, admits: Level -> bool)
    requires i < |book| && remaining > 0 && !(Tradable(book[i]) && admits(book[i]))
    ensures Sweep(book[i..], remaining, admits) == Sweep(book[i + 1..], remaining, admits)
  {
    assert book[i..][0] == book[i] && book[i..][1..] == book[i + 1..];
  }

  lemma {:induction false} SweepDone(done: seq<Take>, book: seq<Level>, i: nat, remaining: int, admits: Level -> bool)
    requires i <= |book| && (i == |book| || remaining <= 0)
    ensures done + Sweep(book[i..], remaining, admits) == done
  {
  }

  /** Walks down the bids. What is executable is the smaller of the order and the
      tradable depth. */
  method BidWalk(bids: seq<Level>, size: int) returns (w: Walk)
    ensures w.levels == Sweep(bids, size, Any())
    ensures w.executable == Min(Max(0, size), Depth(bids)) == Qty(w.levels)
    ensures w.worst == LastPrice(w.levels)
  {
    SweepQty(bids, size);
    if size <= 0 {
      return Walk([], 0, None);
    }
    var levels, executable, worst := WalkLevels(bids, size);
    w := Walk(levels, executable, worst);
  }

  ghost function LastPrice(levels: seq<Take>): Option<int> {
    if levels == [] then None else Some(levels[|levels| - 1].price)
  }

  method WalkLevels(bids: seq<Level>, size: int) returns (levels: seq<Take>, executable: int, worst: Option<int>)
    requires size > 0
    ensures levels == Sweep(bids, size, Any()) && executable == Qty(levels) && worst == LastPrice(levels)
  {
    var remaining := size;
    levels, executable, worst := [], 0, None;
    var i := 0;
    while i < |bids| && remaining > 0
      invariant 0 <= i <= |bids|
      invariant levels + Sweep(bids[i..], remaining, Any()) == Sweep(bids, size, Any())
      invariant executable == Qty(levels) && worst == LastPrice(levels)
    {
      var b := bids[i];
      if b.price > 0 && b.size > 0 {
        var take := Min(b.size, remaining);
        SweepNext(levels, bids, i, remaining, Any());
        levels := levels + [Take(b.price, take)];
        executable := executable + take;
        worst := Some(b.price);
        remaining := remaining - take;
      } else {
        SweepSkip(bids, i, remaining, Any());
      }
      i := i + 1;
    }
    SweepDone(levels, bids, i, remaining, Any());
  }

  // ---------------------------------------------------------------- optimality of the walk

  /** `x[i]` shares taken from level `i`, never more than it offers. */
  ghost predicate Allocation(x: seq<int>, book: seq<Level>) {
    && |x| == |book|
    && forall i | 0 <= i < |x| :: 0 <= x[i] <= (if Tradable(book[i]) then book[i].size else 0)
  }

  ghost function Shares(x: seq<int>): int {
    if x == [] then 0 else x[0] + Shares(x[1..])
  }

  ghost function Proceeds(x: seq<int>, book: seq<Level>): int
    requires |x| == |book|
  {
    if x == [] then 0 else book[0].price * x[0] + Proceeds(x[1..], book[1..])
  }

  lemma {:induction false} CheaperTail(x: seq<int>, book: seq<Level>, w: int)
    requires Allocation(x, book) && forall i | 0 <= i < |book| :: book[i].price <= w
    ensures Proceeds(x, book) <= w * Shares(x) && 0 <= Shares(x)
  {
    if x != [] {
      CheaperTail(x[1..], book[1..], w);
      MulMono(book[0].price, w, x[0]);
      assert w * (x[0] + Shares(x[1..])) == w * x[0] + w * Shares(x[1..]);
    }
  }

  /** `w` separates what the sweep takes from what it leaves. */
  ghost predicate Separates(w: int, book: seq<Level>, size: int) {
    if book == [] then true
    else if size <= 0 then forall i | 0 <= i < |book| :: book[i].price <= w
    else if !Tradable(book[0]) then Separates(w, book[1..], size)
    else
      && book[0].price >= w
      && (book[0].size > size ==> book[0].price <= w)
      && Separates(w, book[1..], size - Min(book[0].size, size))
  }

  lemma {:induction false} SweepHead(book: seq<Level>, size: int, admits: Level -> bool)
    requires book != [] && size > 0 && Tradable(book[0]) && admits(book[0])
    ensures var t := Min(book[0].size, size);
            var rest := Sweep(book[1..], size - t, admits);
            && Sweep(book, size, admits) == [Take(book[0].price, t)] + rest
            && Qty(Sweep(book, size, admits)) == t + Qty(rest)
            && Money(Sweep(book, size, admits)) == book[0].price * t + Money(rest)
  {
    var t := Min(book[0].size, size);
    var rest := Sweep(book[1..], size - t, admits);
    assert ([Take(book[0].price, t)] + rest)[1..] == rest;
  }

  /** One level more: `p` its price, `t` and `x` what the sweep and the rival take. */
  lemma {:induction false} HeadGain(p: int, w: int, t: int, x: int, q: int, xs: int, sweep: int, rival: int)
    requires rival - w * xs <= sweep - w * q
    requires (p >= w && t >= x) || (p == w)
    ensures p * x + rival - w * (x + xs) <= p * t + sweep - w * (t + q)
  {
    assert w * (x + xs) == w * x + w * xs && w * (t + q) == w * t + w * q;
    var a, b := p - w, t - x;
    assert a * b >= 0;
    assert a * b == p * t - p * x - w * t + w * x;
  }

  /** Measured against a separating price, the sweep beats every allocation,
      level by level. */
  lemma {:induction false} SweepBeatsAt(book: seq<Level>, size: int, x: seq<int>, w: int)
    requires Allocation(x, book) && Separates(w, book, size)
    ensures Proceeds(x, book) - w * Shares(x)
         <= Money(Sweep(book, size, Any())) - w * Qty(Sweep(book, size, Any()))
  {
    if book == [] {
    } else if size <= 0 {
      CheaperTail(x, book, w);
    } else if !Tradable(book[0]) {
      SweepBeatsAt(book[1..], size, x[1..], w);
      assert x[0] == 0;
    } else {
      var t := Min(book[0].size, size);
      var rest := Sweep(book[1..], size - t, Any());
      SweepBeatsAt(book[1..], size - t, x[1..], w);
      SweepHead(book, size, Any());
      HeadGain(book[0].price, w, t, x[0], Qty(rest), Shares(x[1..]), Money(rest), Proceeds(x[1..], book[1..]));
    }
  }

  lemma {:induction false} TakesAreLevels(book: seq<Level>, size: int, bound: int)
    requires forall i | 0 <= i < |book| :: book[i].price <= bound
    ensures forall k | 0 <= k < |Sweep(book, size, Any())| :: Sweep(book, size, Any())[k].price <= bound
  {
    if book != [] && size > 0 {
      TakesAreLevels(book[1..], size, bound);
      if Tradable(book[0]) {
        TakesAreLevels(book[1..], size - Min(book[0].size, size), bound);
        SweepHead(book, size, Any());
      }
    }
  }

  /** On a descending book the last price taken separates, and nothing is taken below it. */
  lemma {:induction false} WorstSeparates(book: seq<Level>, size: int)
    requires Descending(book) && Sweep(book, size, Any()) != []
    ensures var s := Sweep(book, size, Any());
            && Separates(s[|s| - 1].price, book, size)
            && forall k | 0 <= k < |s| :: s[k].price >= s[|s| - 1].price
  {
    var tail := book[1..];
    assert Descending(tail);
    if !Tradable(book[0]) {
      WorstSeparates(tail, size);
    } else {
      var t := Min(book[0].size, size);
      var rest := Sweep(tail, size - t, Any());
      SweepHead(book, size, Any());
      TakesAreLevels(tail, size - t, book[0].price);
      if rest != [] {
        WorstSeparates(tail, size - t);
      } else {
        NothingTakenSeparates(tail, size - t, book[0].price);
      }
    }
  }

  lemma {:induction false} NothingTakenSeparates(book: seq<Level>, size: int, w: int)
    requires Sweep(book, size, Any()) == [] && forall i | 0 <= i < |book| :: book[i].price <= w
    ensures Separates(w, book, size)
  {
    if book != [] && size > 0 {
      NothingTakenSeparates(book[1..], size, w);
    }
  }

  /** The walk is optimal: no other way of selling the same number of shares into
      the same descending book brings in more. */
  lemma {:induction false} BidWalkOptimal(bids: seq<Level>, size: int, x: seq<int>)
    requires Descending(bids) && Allocation(x, bids)
    requires Shares(x) == Qty(Sweep(bids, size, Any()))
    ensures Proceeds(x, bids) <= Money(Sweep(bids, size, Any()))
  {
    var s := Sweep(bids, size, Any());
    if s != [] {
      WorstSeparates(bids, size);
      SweepBeatsAt(bids, size, x, s[|s| - 1].price);
    } else if bids != [] {
      CheaperTail(x, bids, bids[0].price);
      assert bids[0].price * Shares(x) == 0;
    }
  }

  lemma {:induction false} AllocationWithinDepth(x: seq<int>, book: seq<Level>)
    requires Allocation(x, book)
    ensures 0 <= Shares(x) <= Depth(book)
  {
    if x != [] { AllocationWithinDepth(x[1..], book[1..]); }
  }

  lemma {:induction false} SweepMoney(book: seq<Level>, size: int)
    ensures Money(Sweep(book, size, Any())) >= 0
  {
    if book != [] && size > 0 {
      if Tradable(book[0]) {
        var t := Min(book[0].size, size);
        SweepHead(book, size, Any());
        SweepMoney(book[1..], size - t);
        MulMono(0, t, book[0].price);
      } else {
        SweepMoney(book[1..], size);
      }
    }
  }

  lemma {:induction false} SweepMonotone(book: seq<Level>, a: int, b: int)
    requires a <= b
    ensures Money(Sweep(book, a, Any())) <= Money(Sweep(book, b, Any()))
  {
    if a <= 0 {
      SweepMoney(book, b);
    } else if book != [] {
      if Tradable(book[0]) {
        var ta, tb := Min(book[0].size, a), Min(book[0].size, b);
        SweepHead(book, a, Any());
        SweepHead(book, b, Any());
        SweepMonotone(book[1..], a - ta, b - tb);
        MulMono(ta, tb, book[0].price);
      } else {
        SweepMonotone(book[1..], a, b);
      }
    }
  }

  /** No way of selling at most `size` shares into the bids recovers more than the walk. */
  lemma {:induction false} WalkRecoversMost(bids: seq<Level>, size: int, x: seq<int>)
    requires Descending(bids) && Allocation(x, bids) && Shares(x) <= size
    ensures Proceeds(x, bids) <= Money(Sweep(bids, size, Any()))
  {
    AllocationWithinDepth(x, bids);
    SweepQty(bids, Shares(x));
    BidWalkOptimal(bids, Shares(x), x);
    SweepMonotone(bids, Shares(x), size);
  }

  /** A limit at or below every price taken excludes nothing. */
  lemma {:induction false} LimitExcludesNothing(book: seq<Level>, size: int, limit: int)
    requires forall k | 0 <= k < |Sweep(book, size, Any())| :: Sweep(book, size, Any())[k].price >= limit
    ensures Sweep(book, size, AtLeast(limit)) == Sweep(book, size, Any())
  {
    if book != [] && size > 0 {
      if Tradable(book[0]) {
        SweepHead(book, size, Any());
        var rest := Sweep(book[1..], size - Min(book[0].size, size), Any());
        assert Sweep(book, size, Any())[0].price == book[0].price;
        forall k | 0 <= k < |rest| ensures rest[k].price >= limit {
          assert rest[k] == Sweep(book, size, Any())[k + 1];
        }
        LimitExcludesNothing(book[1..], size - Min(book[0].size, size), limit);
      } else {
        assert Sweep(book, size, Any()) == Sweep(book[1..], size, Any());
        LimitExcludesNothing(book[1..], size, limit);
      }
    }
  }

  /** A fill-and-kill sell limited at the worst price fills exactly the planned
      levels when the book has not moved, and never below that price. */
  lemma {:induction false} FakFillsThePlan(bids: seq<Level>, size: int)
    requires Descending(bids) && Sweep(bids, size, Any()) != []
    ensures var s := Sweep(bids, size, Any());
            && Sweep(bids, size, AtLeast(s[|s| - 1].price)) == s
            && forall k | 0 <= k < |s| :: s[k].price >= s[|s| - 1].price
  {
    var s := Sweep(bids, size, Any());
    WorstSeparates(bids, size);
    LimitExcludesNothing(bids, size, s[|s| - 1].price);
  }

  datatype FakPlan = FakPlan(worst: int, executable: int, recovery: int, full: bool)

  /** The protected sell: its limit, and what it recovers on this book. */
  function FakQuote(bids: seq<Level>, size: int): Option<FakPlan> {
    var s := Sweep(bids, size, Any());
    if s == [] then None
    else Some(FakPlan(s[|s| - 1].price, Qty(s), Money(s), Qty(s) >= size))
  }

  method ProtectedFakPlan(bids: seq<Level>, size: int) returns (plan: Option<FakPlan>)
    ensures plan == FakQuote(bids, size)
    ensures plan.Some? ==> (plan.value.full <==> size <= Depth(bids))
    ensures plan.None? <==> size <= 0 || Depth(bids) == 0
  {
    var w := BidWalk(bids, size);
    SweepQty(bids, size);
    SweepPositive(bids, size);
    if w.worst.None? {
      return None;
    }
    return Some(FakPlan(w.worst.value, w.executable, Money(w.levels), w.executable >= size));
  }

  lemma {:induction false} SweepPositive(book: seq<Level>, size: int)
    ensures Sweep(book, size, Any()) == [] <==> size <= 0 || Depth(book) == 0
  {
    if book != [] {
      SweepPositive(book[1..], size);
      SweepQty(book[1..], size);
      if size > 0 && Tradable(book[0]) { SweepHead(book, size, Any()); }
    }
  }

  /** First usable ask, otherwise the best bid. */
  function MakerSellPrice(asks: seq<Level>, bestBid: Option<int>): (p: Option<int>)
    ensures p.Some? ==> p.value > 0
  {
    if asks == [] then (if bestBid.Some? && bestBid.value > 0 then bestBid else None)
    else if 0 < asks[0].price < DOLLAR then Some(asks[0].price)
    else MakerSellPrice(asks[1..], bestBid)
  }

  /** The price is the first ask strictly between nothing and one dollar; without such an
      ask it is the best bid, if that is a price. */
  lemma {:induction false} MakerSellPriceExactly(asks: seq<Level>, bestBid: Option<int>, i: nat)
    ensures i < |asks| && 1 <= asks[i].price && asks[i].price <= 9_999
            && (forall k | 0 <= k < i :: asks[k].price < 1 || asks[k].price > 9_999)
            ==> MakerSellPrice(asks, bestBid) == Some(asks[i].price)
    ensures (forall k | 0 <= k < |asks| :: asks[k].price < 1 || asks[k].price > 9_999)
            ==> MakerSellPrice(asks, bestBid) == if bestBid.Some? && bestBid.value >= 1 then bestBid else None
  {
    if asks != [] {
      MakerSellPriceExactly(asks[1..], bestBid, if i > 0 then i - 1 else 0);
    }
  }

  // ---------------------------------------------------------------- complement and merge

  datatype Refusal = NoSize | BelowMinShares | DirectAtLeastAsGood | TooShallow

  datatype MergeQuote =
    | Infeasible(reason: Refusal)
    | Feasible(worst: int, cost: int, recovery: int, levels: seq<Take>)

  /** Buying `size` at this level and merging still yields at least `floor`. */
  function Within(size: int, floor: int): Level -> bool {
    (l: Level) => (DOLLAR - l.price) * size >= floor
  }

  /** Depth on tradable levels that pay the floor. */
  ghost function DepthWithin(asks: seq<Level>, size: int, floor: int): int {
    if asks == [] then 0
    else (if Tradable(asks[0]) && Within(size, floor)(asks[0]) then asks[0].size else 0)
         + DepthWithin(asks[1..], size, floor)
  }

  /** Quotes the merge route against `direct`, the recovery of selling outright. */
  function QuoteOf(asks: seq<Level>, size: int, direct: int, advantage: int, minShares: int): MergeQuote {
    var floor := direct + advantage;
    var s := Sweep(asks, size, Within(size, floor));
    if size <= 0 then Infeasible(NoSize)
    else if size < minShares then Infeasible(BelowMinShares)
    else if DOLLAR * size <= floor then Infeasible(DirectAtLeastAsGood)
    else if s == [] || Qty(s) < size then Infeasible(TooShallow)
    else Feasible(s[|s| - 1].price, Money(s), DOLLAR * size, s)
  }

  lemma {:induction false} SweepWithinQty(asks: seq<Level>, want: int, size: int, floor: int)
    ensures Qty(Sweep(asks, want, Within(size, floor))) == Min(Max(0, want), DepthWithin(asks, size, floor))
    ensures DepthWithin(asks, size, floor) >= 0
  {
    if asks != [] {
      SweepWithinQty(asks[1..], want, size, floor);
      if want > 0 && Tradable(asks[0]) && Within(size, floor)(asks[0]) {
        var t := Min(asks[0].size, want);
        SweepWithinQty(asks[1..], want - t, size, floor);
        var rest := Sweep(asks[1..], want - t, Within(size, floor));
        assert ([Take(asks[0].price, t)] + rest)[1..] == rest;
      }
    }
  }

  method QuoteMergeRoute(asks: seq<Level>, size: int, direct: int, advantage: int, minShares: int)
    returns (q: MergeQuote)
    ensures q == QuoteOf(asks, size, direct, advantage, minShares)
    ensures q == Infeasible(TooShallow) <==>
            size > 0 && size >= minShares && DOLLAR * size > direct + advantage
            && DepthWithin(asks, size, direct + advantage) < size
  {
    if size <= 0 {
      return Infeasible(NoSize);
    }
    if size < minShares {
      return Infeasible(BelowMinShares);
    }
    var floor := direct + advantage;
    if DOLLAR * size <= floor {
      return Infeasible(DirectAtLeastAsGood);
    }
    var levels, cost, remaining := SweepAsks(asks, size, floor);
    SweepWithinQty(asks, size, size, floor);
    if remaining > 0 {
      return Infeasible(TooShallow);
    }
    return Feasible(levels[|levels| - 1].price, cost, DOLLAR * size, levels);
  }

  /** Walks up the asks that are cheap enough until `size` is covered. */
  method SweepAsks(asks: seq<Level>, size: int, floor: int) returns (levels: seq<Take>, cost: int, remaining: int)
    requires size > 0
    ensures levels == Sweep(asks, size, Within(size, floor))
    ensures cost == Money(levels) && remaining == size - Qty(levels)
  {
    levels, cost, remaining := [], 0, size;
    var i := 0;
    while i < |asks| && remaining > 0
      invariant 0 <= i <= |asks| && 0 <= remaining
      invariant levels + Sweep(asks[i..], remaining, Within(size, floor)) == Sweep(asks, size, Within(size, floor))
      invariant cost == Money(levels) && Qty(levels) + remaining == size
    {
      var a := asks[i];
      if !(a.price <= 0 || a.size <= 0 || (DOLLAR - a.price) * size < floor) {
        var take := Min(a.size, remaining);
        SweepNext(levels, asks, i, remaining, Within(size, floor));
        levels := levels + [Take(a.price, take)];
        cost := cost + a.price * take;
        remaining := remaining - take;
      } else {
        SweepSkip(asks, i, remaining, Within(size, floor));
      }
      i := i + 1;
    }
    SweepDone(levels, asks, i, remaining, Within(size, floor));
  }

  lemma {:induction false} SweepAdmitted(asks: seq<Level>, want: int, size: int, floor: int)
    ensures forall k | 0 <= k < |Sweep(asks, want, Within(size, floor))| ::
              (DOLLAR - Sweep(asks, want, Within(size, floor))[k].price) * size >= floor
  {
    if asks != [] && want > 0 {
      SweepAdmitted(asks[1..], want, size, floor);
      SweepAdmitted(asks[1..], want - Min(asks[0].size, want), size, floor);
    }
  }

  /** Takes of a real fill: every share at or below the limit price. */
  ghost predicate FilledAtOrBelow(fill: seq<Take>, limit: int) {
    forall k | 0 <= k < |fill| :: fill[k].qty >= 0 && fill[k].price <= limit
  }

  lemma {:induction false} FillCostBound(fill: seq<Take>, limit: int)
    requires FilledAtOrBelow(fill, limit)
    ensures Money(fill) <= limit * Qty(fill)
  {
    if fill != [] {
      FillCostBound(fill[1..], limit);
      MulMono(fill[0].price, limit, fill[0].qty);
      assert limit * (fill[0].qty + Qty(fill[1..])) == limit * fill[0].qty + limit * Qty(fill[1..]);
    }
  }

  /** Whatever the book does after the quote, a fill of exactly `size` at or below
      the returned limit, merged, yields at least the direct recovery plus the
      required advantage. */
  lemma {:induction false} FeasibleFillPays(asks: seq<Level>, size: int, direct: int, advantage: int,
                                            minShares: int, fill: seq<Take>)
    requires QuoteOf(asks, size, direct, advantage, minShares).Feasible?
    requires FilledAtOrBelow(fill, QuoteOf(asks, size, direct, advantage, minShares).worst) && Qty(fill) == size
    ensures DOLLAR * size - Money(fill) >= direct + advantage
  {
    WorstAdmitted(asks, size, direct, advantage, minShares);
    var worst := QuoteOf(asks, size, direct, advantage, minShares).worst;
    FillCostBound(fill, worst);
    Fifo.Distribute(DOLLAR, worst, size, 0);
  }

  lemma {:induction false} WorstAdmitted(asks: seq<Level>, size: int, direct: int, advantage: int, minShares: int)
    requires QuoteOf(asks, size, direct, advantage, minShares).Feasible?
    ensures (DOLLAR - QuoteOf(asks, size, direct, advantage, minShares).worst) * size >= direct + advantage
  {
    SweepAdmitted(asks, size, size, direct + advantage);
  }

  lemma {:induction false} SweepRises(asks: seq<Level>, want: int, admits: Level -> bool)
    requires Ascending(asks)
    ensures var s := Sweep(asks, want, admits);
            && (forall i, j | 0 <= i < j < |s| :: s[i].price <= s[j].price)
            && (forall i | 0 <= i < |s| :: s[i].qty > 0)
            && (asks != [] ==> forall i | 0 <= i < |s| :: asks[0].price <= s[i].price)
  {
    if asks != [] && want > 0 {
      assert Ascending(asks[1..]);
      if Tradable(asks[0]) && admits(asks[0]) {
        SweepRises(asks[1..], want - Min(asks[0].size, want), admits);
        SweepHead(asks, want, admits);
      } else {
        SweepRises(asks[1..], want, admits);
        assert Sweep(asks, want, admits) == Sweep(asks[1..], want, admits);
      }
    }
  }

  /** On ascending asks the limit price covers the quoted levels, so the order can
      be filled in full from the book it was quoted on, at the quoted cost. */
  lemma {:induction false} LimitCoversTheQuote(asks: seq<Level>, size: int, direct: int, advantage: int, minShares: int)
    requires Ascending(asks) && QuoteOf(asks, size, direct, advantage, minShares).Feasible?
    ensures var q := QuoteOf(asks, size, direct, advantage, minShares);
            && FilledAtOrBelow(q.levels, q.worst)
            && Qty(q.levels) == size
            && q.recovery - q.cost >= direct + advantage
  {
    SweepRises(asks, size, Within(size, direct + advantage));
    SweepWithinQty(asks, size, size, direct + advantage);
    FeasibleFillPays(asks, size, direct, advantage, minShares,
                     QuoteOf(asks, size, direct, advantage, minShares).levels);
  }

  // ---------------------------------------------------------------- code and documented decision

  /** A dearer level pays less; where one pays the floor, a cheaper one does. */
  lemma {:induction false} CheaperPaysToo(p: int, w: int, size: int)
    requires p <= w && size > 0
    ensures (DOLLAR - w) * size <= (DOLLAR - p) * size
    ensures p < w ==> (DOLLAR - w) * size < (DOLLAR - p) * size
  {
    var d := w - p;
    assert (DOLLAR - p) * size == (DOLLAR - w) * size + d * size;
    if d > 0 { ProductAtLeast(d, size); }
  }

  lemma {:induction false} ProductAtLeast(a: int, b: int)
    requires a > 0 && b > 0
    ensures a * b > 0
  {
  }

  lemma {:induction false} NoneWithin(asks: seq<Level>, size: int, floor: int)
    requires forall i | 0 <= i < |asks| :: (DOLLAR - asks[i].price) * size < floor
    ensures DepthWithin(asks, size, floor) == 0
  {
    if asks != [] { NoneWithin(asks[1..], size, floor); }
  }

  /** Every take pays the floor. */
  ghost predicate AllPay(ts: seq<Take>, size: int, floor: int) {
    forall k | 0 <= k < |ts| :: (DOLLAR - ts[k].price) * size >= floor
  }

  /** Where the cheap enough levels cover the order, the cheapest shares are among them. */
  lemma {:induction false} CoveredPays(asks: seq<Level>, want: int, size: int, floor: int)
    requires Ascending(asks) && size > 0 && DepthWithin(asks, size, floor) >= want
    ensures AllPay(Sweep(asks, want, Any()), size, floor)
  {
    if asks != [] && want > 0 {
      assert Ascending(asks[1..]);
      if !Tradable(asks[0]) {
        CoveredPays(asks[1..], want, size, floor);
      } else {
        if (DOLLAR - asks[0].price) * size < floor { DearHead(asks, size, floor); }
        CoveredPays(asks[1..], want - Min(asks[0].size, want), size, floor) by {
          SweepWithinQty(asks[1..], 0, size, floor);
        }
        SweepHead(asks, want, Any());
      }
    }
  }

  lemma {:induction false} DearHead(asks: seq<Level>, size: int, floor: int)
    requires Ascending(asks) && size > 0 && asks != [] && (DOLLAR - asks[0].price) * size < floor
    ensures DepthWithin(asks, size, floor) == 0
  {
    forall i | 0 <= i < |asks| ensures (DOLLAR - asks[i].price) * size < floor {
      CheaperPaysToo(asks[0].price, asks[i].price, size);
    }
    NoneWithin(asks, size, floor);
  }

  /** Where every share of the plain sweep pays, the price test excludes nothing. */
  lemma {:induction false} TestExcludesNothing(asks: seq<Level>, want: int, size: int, floor: int)
    requires AllPay(Sweep(asks, want, Any()), size, floor)
    ensures Sweep(asks, want, Within(size, floor)) == Sweep(asks, want, Any())
  {
    if asks != [] && want > 0 {
      if Tradable(asks[0]) {
        SweepHead(asks, want, Any());
        var rest := Sweep(asks[1..], want - Min(asks[0].size, want), Any());
        assert Sweep(asks, want, Any())[0].price == asks[0].price;
        assert Sweep(asks, want, Any())[1..] == rest;
        assert AllPay(rest, size, floor);
        TestExcludesNothing(asks[1..], want - Min(asks[0].size, want), size, floor);
      } else {
        TestExcludesNothing(asks[1..], want, size, floor);
      }
    }
  }

  /** The order asks for something and the book can cover it. */
  ghost predicate Coverable(asks: seq<Level>, size: int, minShares: int) {
    0 < size <= Depth(asks) && size >= minShares
  }

  /** The shares the order would get, cheapest first, at no more than they must cost. */
  ghost function Cheapest(asks: seq<Level>, size: int): (s: seq<Take>)
    requires 0 < size <= Depth(asks)
    ensures s == Sweep(asks, size, Any()) && s != [] && Qty(s) == size
  {
    SweepQty(asks, size);
    Sweep(asks, size, Any())
  }

  /** On every ascending book the code buys the complement if and only if the book
      covers the order and its dearest share needed still pays the floor. */
  lemma {:induction false} FeasibleExactly(asks: seq<Level>, size: int, direct: int, advantage: int, minShares: int)
    requires Ascending(asks)
    ensures QuoteOf(asks, size, direct, advantage, minShares).Feasible?
       <==> Coverable(asks, size, minShares)
            && var s := Cheapest(asks, size); (DOLLAR - s[|s| - 1].price) * size >= direct + advantage
    ensures QuoteOf(asks, size, direct, advantage, minShares).Feasible? ==>
              QuoteOf(asks, size, direct, advantage, minShares).levels == Sweep(asks, size, Any())
  {
    hide Sweep, DepthWithin, Ascending, Money;
    var floor := direct + advantage;
    SweepWithinQty(asks, size, size, floor);
    SweepQty(asks, size);
    if QuoteOf(asks, size, direct, advantage, minShares).Feasible? {
      CoveredPays(asks, size, size, floor);
      TestExcludesNothing(asks, size, size, floor);
    }
    if Coverable(asks, size, minShares) {
      var s := Cheapest(asks, size);
      if (DOLLAR - s[|s| - 1].price) * size >= floor {
        DearestDecides(asks, size, floor);
        TestExcludesNothing(asks, size, size, floor);
        SomethingLeft(asks, size);
      }
    }
  }

  lemma {:induction false} DearestDecides(asks: seq<Level>, size: int, floor: int)
    requires Ascending(asks) && 0 < size <= Depth(asks)
    requires var s := Cheapest(asks, size); (DOLLAR - s[|s| - 1].price) * size >= floor
    ensures AllPay(Sweep(asks, size, Any()), size, floor)
    ensures DOLLAR * size > floor
  {
    hide Sweep, Depth, Ascending;
    var s := Cheapest(asks, size);
    SweepRises(asks, size, Any());
    assert s == Sweep(asks, size, Any());
    forall k | 0 <= k < |s| ensures (DOLLAR - s[k].price) * size >= floor {
      assert k < |s| - 1 ==> s[k].price <= s[|s| - 1].price;
      CheaperPaysToo(s[k].price, s[|s| - 1].price, size);
    }
    PricesPositive(asks, size);
    CheaperPaysToo(0, s[|s| - 1].price, size);
  }

  lemma {:induction false} PricesPositive(asks: seq<Level>, want: int)
    ensures forall k | 0 <= k < |Sweep(asks, want, Any())| :: Sweep(asks, want, Any())[k].price > 0
  {
    if asks != [] && want > 0 {
      PricesPositive(asks[1..], want);
      PricesPositive(asks[1..], want - Min(asks[0].size, want));
    }
  }

  lemma {:induction false} SomethingLeft(asks: seq<Level>, size: int)
    requires 0 < size <= Depth(asks)
    ensures Sweep(asks, size, Any()) != [] && Qty(Sweep(asks, size, Any())) == size
  {
    SweepQty(asks, size);
  }

  /** The documented decision: buying at what the book asks and merging yields more than
      selling outright plus the advantage. */
  ghost predicate WorthMerging(asks: seq<Level>, size: int, direct: int, advantage: int, minShares: int) {
    Coverable(asks, size, minShares) && DOLLAR * size - Money(Cheapest(asks, size)) > direct + advantage
  }

  lemma {:induction false} FillCostAtLeast(fill: seq<Take>, low: int)
    requires forall k | 0 <= k < |fill| :: fill[k].qty >= 0 && low <= fill[k].price
    ensures low * Qty(fill) <= Money(fill)
  {
    if fill != [] {
      FillCostAtLeast(fill[1..], low);
      MulMono(low, fill[0].price, fill[0].qty);
      Fifo.Distribute(low, 0, fill[0].qty, Qty(fill[1..]));
    }
  }

  /** Rising takes cost no more than the dearest for all, and less when the first is cheaper. */
  lemma {:induction false} RisingCost(s: seq<Take>)
    requires s != [] && (forall i, j | 0 <= i < j < |s| :: s[i].price <= s[j].price)
    requires forall i | 0 <= i < |s| :: s[i].qty > 0
    ensures var first, last := s[0].price, s[|s| - 1].price;
            && first * Qty(s) <= Money(s) <= last * Qty(s)
            && (first < last ==> Money(s) < last * Qty(s))
  {
    var first, last, rest := s[0].price, s[|s| - 1].price, s[1..];
    FillCostAtLeast(s, first);
    FillCostBound(rest, last);
    MulMono(first, last, s[0].qty);
    Fifo.Distribute(last, first, s[0].qty, Qty(rest));
    Fifo.Distribute(last, first, s[0].qty, 0);
    if first < last { ProductAtLeast(last - first, s[0].qty); }
  }

  /** Where the code buys, the gain is strict, as documented, if and only if the cheapest
      share taken is strictly within the bound; a tie means they all stand at it. */
  lemma {:induction false} StrictExactly(asks: seq<Level>, size: int, direct: int, advantage: int, minShares: int)
    requires Ascending(asks) && QuoteOf(asks, size, direct, advantage, minShares).Feasible?
    ensures var q := QuoteOf(asks, size, direct, advantage, minShares);
            && q.levels != []
            && (q.recovery - q.cost > direct + advantage
                <==> (DOLLAR - q.levels[0].price) * size > direct + advantage)
  {
    hide Sweep, Ascending;
    var q := QuoteOf(asks, size, direct, advantage, minShares);
    FeasibleExactly(asks, size, direct, advantage, minShares);
    SweepRises(asks, size, Any());
    SomethingLeft(asks, size);
    RisingCost(q.levels);
    StrictGain(q.levels[0].price, q.worst, size, q.cost, direct + advantage);
  }

  lemma {:induction false} StrictGain(first: int, last: int, size: int, cost: int, floor: int)
    requires size > 0 && first <= last && first * size <= cost <= last * size
    requires first < last ==> cost < last * size
    requires (DOLLAR - last) * size >= floor
    ensures DOLLAR * size - cost > floor <==> (DOLLAR - first) * size > floor
  {
    CheaperPaysToo(first, last, size);
    Fifo.Distribute(DOLLAR, last, size, 0);
    Fifo.Distribute(DOLLAR, first, size, 0);
  }

  /** Code and documentation decide alike exactly when, with a dearest share within the
      bound, the cheapest is strictly within it, and with a dearest share beyond the bound
      the average gains nothing either. */
  lemma {:induction false} DecidesAsDocumented(asks: seq<Level>, size: int, direct: int, advantage: int, minShares: int)
    requires Ascending(asks)
    ensures (QuoteOf(asks, size, direct, advantage, minShares).Feasible?
             <==> WorthMerging(asks, size, direct, advantage, minShares))
       <==> (Coverable(asks, size, minShares) ==>
               var s, floor := Cheapest(asks, size), direct + advantage;
               if (DOLLAR - s[|s| - 1].price) * size >= floor then (DOLLAR - s[0].price) * size > floor
               else DOLLAR * size - Money(s) <= floor)
  {
    hide Sweep, Ascending, Money, Depth;
    FeasibleExactly(asks, size, direct, advantage, minShares);
    if QuoteOf(asks, size, direct, advantage, minShares).Feasible? {
      StrictExactly(asks, size, direct, advantage, minShares);
    }
  }

  /** The comparison is not strict: a merge that exactly ties with selling plus
      the advantage is taken. */
  lemma {:induction false} TieIsTaken()
    ensures var q := QuoteOf([Level(4000, 1_000_000)], 1_000_000, 5900 * 1_000_000, 100 * 1_000_000, 0);
            q.Feasible? && q.recovery - q.cost == 5900 * 1_000_000 + 100 * 1_000_000
  {
    var asks := [Level(4000, 1_000_000)];
    var s := [Take(4000, 1_000_000)];
    assert asks[1..] == [];
    assert Sweep(asks, 1_000_000, Within(1_000_000, 6000 * 1_000_000)) == s;
    assert s[1..] == [] && Qty(s) == 1_000_000 && Money(s) == 4000 * 1_000_000;
  }

  /** The average cost does not decide: half at 10 and half at 90 cents average
      well under the 60 cent bound, and the route is still refused. */
  lemma {:induction false} CheapOnAverageIsRefused()
    ensures QuoteOf([Level(1000, 500_000), Level(9000, 500_000)], 1_000_000, 4000 * 1_000_000, 0, 0)
         == Infeasible(TooShallow)
    ensures DOLLAR * 1_000_000 - (1000 * 500_000 + 9000 * 500_000) > 4000 * 1_000_000
  {
    var asks := [Level(1000, 500_000), Level(9000, 500_000)];
    assert asks[1..] == [Level(9000, 500_000)] && asks[1..][1..] == [];
    assert DepthWithin(asks[1..], 1_000_000, 4000 * 1_000_000) == 0;
    assert DepthWithin(asks, 1_000_000, 4000 * 1_000_000) == 500_000;
    SweepWithinQty(asks, 1_000_000, 1_000_000, 4000 * 1_000_000);
  }
}
