/** The monitor's own exit, used when the router is absent or declines: one resting
    sell that never undercuts cost, or a market sell on profit or at the stop. */
module TakeProfit {
  import opened Wrappers

  /** Nearest whole number; on a tie either neighbour would do here. */
  function Round(x: real): int { (x + 0.5).Floor }

  function Ceil(x: real): int { -((-x).Floor) }

  function Abs(x: real): real { if x < 0.0 then -x else x }

  function MaxR(a: real, b: real): real { if a >= b then a else b }

  /** How close to a tick still counts as on it, in ticks. */
  const DUST := 0.0001

  /** The whole tick a price of `units` ticks moves to: the first above it less dust. */
  function WholeTick(units: real): (n: int)
    ensures n as real - 1.0 <= units - DUST < n as real
  {
    var near := Round(units);
    if Abs(units - near as real) < DUST then near
    else
      var up := Ceil(units);
      assert up as real - 1.0 < units <= up as real;
      assert up as real - 1.0 > units - DUST ==> near == up - 1;
      up
  }

  function TickUnits(price: real, tick: real): int
    requires tick > 0.0
  {
    WholeTick(price / tick)
  }

  function CeilToTick(price: real, tick: real): real {
    if tick <= 0.0 then price else TickUnits(price, tick) as real * tick
  }

  /** The least multiple of the tick strictly above the price less dust. */
  lemma {:induction false} CeilToTickIsLeast(price: real, tick: real, m: int)
    requires tick > 0.0
    ensures CeilToTick(price, tick) > price - DUST * tick
    ensures CeilToTick(price, tick) <= price + tick
    ensures m as real * tick > price - DUST * tick <==> CeilToTick(price, tick) <= m as real * tick
  {
    hide WholeTick;
    Quotient(price, tick);
    LeastMultiple(TickUnits(price, tick), price / tick, price, tick);
    AboveEdge(TickUnits(price, tick), m, price / tick, price, tick);
  }

  lemma {:induction false} Quotient(price: real, tick: real)
    requires tick > 0.0
    ensures price / tick * tick == price
  {
  }

  lemma {:induction false} AboveEdge(n: int, m: int, u: real, price: real, tick: real)
    requires tick > 0.0 && u * tick == price && n as real - 1.0 <= u - DUST < n as real
    ensures m as real * tick > price - DUST * tick <==> n as real * tick <= m as real * tick
  {
    Distribute(u, DUST, tick);
    MultipleAbove(n, m, u - DUST, tick, price - DUST * tick);
  }

  lemma {:induction false} LeastMultiple(n: int, u: real, price: real, tick: real)
    requires tick > 0.0 && u * tick == price && n as real - 1.0 <= u - DUST < n as real
    ensures price - DUST * tick < n as real * tick <= price + tick
  {
    var x := n as real;
    Scale(u - DUST, x, tick);
    Distribute(u, DUST, tick);
    assert x - 1.0 <= u;
    Scale(x - 1.0, u, tick);
    Distribute(x, 1.0, tick);
    assert x * tick - 1.0 * tick <= price;
  }

  lemma {:induction false} Distribute(a: real, b: real, k: real)
    ensures (a - b) * k == a * k - b * k
  {
  }

  /** Between two whole numbers of ticks there is no multiple of the tick. */
  lemma {:induction false} MultipleAbove(n: int, m: int, low: real, tick: real, edge: real)
    requires tick > 0.0 && n as real - 1.0 <= low < n as real && low * tick == edge
    ensures m as real * tick > edge <==> n as real * tick <= m as real * tick
  {
    if m >= n {
      Scale(low, m as real, tick);
      Scale(n as real, m as real, tick);
    } else {
      assert m as real <= n as real - 1.0;
      Scale(m as real, low, tick);
      Scale(m as real, n as real, tick);
    }
  }

  lemma {:induction false} Scale(a: real, b: real, k: real)
    requires k > 0.0
    ensures a < b ==> a * k < b * k
    ensures a <= b ==> a * k <= b * k
  {
    if a < b {
      PositiveProduct(b - a, k);
      assert (b - a) * k == b * k - a * k;
    } else if a == b {
      assert a * k == b * k;
    }
  }

  lemma {:induction false} PositiveProduct(x: real, y: real)
    requires x > 0.0 && y > 0.0
    ensures x * y > 0.0
  {
  }

  ghost predicate InDust(m: int, price: real, tick: real) {
    price - DUST * tick < m as real * tick < price
  }

  /** The price is a little above a multiple of the tick. */
  ghost predicate JustAboveTick(price: real, tick: real) {
    exists m: int :: InDust(m, price, tick)
  }

  /** Rounding up lands below the price exactly when the price is less than the dust
      above a multiple of the tick. */
  lemma {:induction false} BelowExactly(price: real, tick: real)
    requires tick > 0.0
    ensures CeilToTick(price, tick) < price <==> JustAboveTick(price, tick)
  {
    hide CeilToTick, InDust;
    var n := TickUnits(price, tick);
    CeilIsMultiple(price, tick);
    CeilToTickIsLeast(price, tick, n);
    if CeilToTick(price, tick) < price {
      InDustBounds(n, price, tick);
    }
    if JustAboveTick(price, tick) {
      var m :| InDust(m, price, tick);
      InDustBounds(m, price, tick);
      CeilToTickIsLeast(price, tick, m);
    }
  }

  lemma {:induction false} CeilIsMultiple(price: real, tick: real)
    requires tick > 0.0
    ensures CeilToTick(price, tick) == TickUnits(price, tick) as real * tick
  {
  }

  lemma {:induction false} InDustBounds(m: int, price: real, tick: real)
    ensures InDust(m, price, tick) <==> price - DUST * tick < m as real * tick && m as real * tick < price
  {
  }

  /** A cost of 30.00015 cents on whole cents is rounded up. */
  lemma {:induction false} RoundsAbove()
    ensures CeilToTick(0.3000015, 0.01) == 0.31
  {
    CeilToTickIsLeast(0.3000015, 0.01, 31);
    CeilToTickIsLeast(0.3000015, 0.01, 30);
    CeilIsMultiple(0.3000015, 0.01);
    var n := TickUnits(0.3000015, 0.01);
    if n >= 32 { Scale(32.0, n as real, 0.01); }
    if n <= 30 { Scale(n as real, 30.0, 0.01); }
  }

  /** A cost of 30.00005 cents on whole cents is rounded down. */
  lemma {:induction false} RoundsBelow()
    ensures CeilToTick(0.3000005, 0.01) == 0.30 < 0.3000005
  {
    assert InDust(30, 0.3000005, 0.01);
    CeilToTickIsLeast(0.3000005, 0.01, 30);
    CeilToTickIsLeast(0.3000005, 0.01, 29);
    CeilIsMultiple(0.3000005, 0.01);
    var n := TickUnits(0.3000005, 0.01);
    if n >= 31 { Scale(31.0, n as real, 0.01); }
    if n <= 29 { Scale(n as real, 29.0, 0.01); }
  }

  datatype StopMode = Off | Fixed | Percent

  /** Loss per share, in price, at which the position is dumped. */
  function EffectiveThetaStop(cost: real, mode: StopMode, percent: real, cents: real): (t: Option<real>)
    ensures t.None? <==> mode.Off?
    ensures t.Some? ==> t.value >= 0.0
  {
    match mode
    case Off => None
    case Fixed => Some(MaxR(0.0, cents / 100.0))
    case Percent => Some(MaxR(0.0, cost * percent / 100.0))
  }

  /** The threshold in the user's figures: cents of a dollar, or a share of the cost. */
  lemma {:induction false} StopInFigures(cost: real, percent: real, cents: real)
    ensures EffectiveThetaStop(cost, Fixed, percent, cents).value * 100.0 == if cents > 0.0 then cents else 0.0
    ensures EffectiveThetaStop(cost, Percent, percent, cents).value * 100.0
         == if cost * percent > 0.0 then cost * percent else 0.0
  {
  }

  datatype Tier = A | AMarket | B0 | BPark | NoTier

  datatype ExitPlan = Rest(tier: Tier, price: real) | Market(tier: Tier) | Noop

  predicate StopReached(cost: real, bid: Option<real>, stop: Option<real>) {
    stop.Some? && bid.Some? && cost - bid.value >= stop.value
  }

  predicate NoBook(bid: Option<real>, ask: Option<real>) {
    bid.None? && (ask.None? || ask.value <= 0.0)
  }

  function PlanExit(cost: real, bid: Option<real>, ask: Option<real>, tick: real,
                    stop: Option<real>, takeAtMarket: bool): ExitPlan {
    var floor := CeilToTick(cost, tick);
    if takeAtMarket then
      if bid.Some? && cost < bid.value then Market(AMarket)
      else if StopReached(cost, bid, stop) then Market(B0)
      else if NoBook(bid, ask) then Noop
      else Rest(BPark, floor)
    else
      if bid.Some? && cost <= bid.value then
        Rest(A, if ask.Some? && ask.value > 0.0 then MaxR(ask.value, floor) else floor)
      else if StopReached(cost, bid, stop) then Market(B0)
      else if NoBook(bid, ask) then Noop
      else Rest(BPark, floor)
  }

  /** The plan never rests below cost less dust, and sells at market only at a
      profit or with the loss at the stop. */
  lemma {:induction false} PlanExitNeverUndercuts(cost: real, bid: Option<real>, ask: Option<real>, tick: real,
                               stop: Option<real>, takeAtMarket: bool)
    requires tick > 0.0
    ensures var p := PlanExit(cost, bid, ask, tick, stop, takeAtMarket);
            && (p.Rest? ==> p.price > cost - DUST * tick && p.price >= CeilToTick(cost, tick))
            && (p.Market? ==> bid.Some? && (bid.value > cost || StopReached(cost, bid, stop)))
            && (p.Noop? <==> NoBook(bid, ask))
  {
    CeilToTickIsLeast(cost, tick, 0);
  }

  /** The price is the first multiple of the tick above the cost less 1e-4 of a tick. */
  ghost predicate FirstTickAbove(price: real, cost: real, tick: real) {
    exists n: int :: AtTick(n, price, tick) && price - tick <= cost - tick / 10_000.0 < price
  }

  ghost predicate AtTick(n: int, price: real, tick: real) { price == n as real * tick }

  lemma {:induction false} CeilIsFirst(cost: real, tick: real)
    requires tick > 0.0
    ensures FirstTickAbove(CeilToTick(cost, tick), cost, tick)
  {
    var n := TickUnits(cost, tick);
    CeilIsMultiple(cost, tick);
    CeilToTickIsLeast(cost, tick, n);
    CeilToTickIsLeast(cost, tick, n - 1);
    Distribute(n as real, 1.0, tick);
    assert (n - 1) as real == n as real - 1.0;
    assert AtTick(n, CeilToTick(cost, tick), tick);
  }

  /** When a position is sold at market: with a bid above its cost exactly in market mode,
      with a bid below it exactly when the loss has reached a stop that is set, and with a
      bid at cost only in market mode with a stop at nothing. */
  ghost predicate SoldAtMarket(cost: real, bid: Option<real>, stop: Option<real>, takeAtMarket: bool) {
    && bid.Some?
    && if bid.value > cost then takeAtMarket
       else if bid.value < cost then stop.Some? && bid.value <= cost - stop.value
       else takeAtMarket && stop.Some? && stop.value <= 0.0
  }

  /** The price a position rests at: the first tick above its cost, or an ask above that
      when maker mode is in profit. */
  ghost predicate RestsAt(price: real, cost: real, bid: Option<real>, ask: Option<real>, tick: real,
                          takeAtMarket: bool) {
    if !takeAtMarket && bid.Some? && bid.value >= cost && ask.Some? && ask.value > 0.0 then
      (price == ask.value && exists f :: f <= price && FirstTickAbove(f, cost, tick))
      || (price > ask.value && FirstTickAbove(price, cost, tick))
    else FirstTickAbove(price, cost, tick)
  }

  /** Every exit: market, rest at a price, or nothing on an empty book, each in exactly
      its case. */
  lemma {:induction false} PlanExitExactly(cost: real, bid: Option<real>, ask: Option<real>, tick: real,
                                           stop: Option<real>, takeAtMarket: bool)
    requires tick > 0.0
    ensures var p := PlanExit(cost, bid, ask, tick, stop, takeAtMarket);
            && (p.Market? <==> SoldAtMarket(cost, bid, stop, takeAtMarket))
            && (p.Noop? <==> bid.None? && (ask.None? || ask.value <= 0.0))
            && (p.Rest? ==> RestsAt(p.price, cost, bid, ask, tick, takeAtMarket))
            && (p.Market? ==> (p.tier == AMarket <==> bid.value > cost) && (p.tier == B0 <==> bid.value <= cost))
            && (p.Rest? ==> (p.tier == A <==> !takeAtMarket && bid.Some? && bid.value >= cost)
                            && (p.tier == A || p.tier == BPark))
  {
    hide CeilToTick, FirstTickAbove;
    CeilIsFirst(cost, tick);
  }

  /** The cost is a little above a multiple of the tick, and the exit does not rest at
      an ask that clears it. */
  ghost predicate RestsLow(p: ExitPlan, cost: real, ask: Option<real>, tick: real) {
    p.Rest? && JustAboveTick(cost, tick) && !(p.tier.A? && ask.Some? && ask.value > 0.0 && ask.value >= cost)
  }

  /** A resting exit is below cost in exactly this case. */
  lemma {:induction false} RestsBelowExactly(cost: real, bid: Option<real>, ask: Option<real>, tick: real,
                                             stop: Option<real>, takeAtMarket: bool)
    requires tick > 0.0 && PlanExit(cost, bid, ask, tick, stop, takeAtMarket).Rest?
    ensures var p := PlanExit(cost, bid, ask, tick, stop, takeAtMarket);
            p.price < cost <==> RestsLow(p, cost, ask, tick)
  {
    hide CeilToTick, JustAboveTick;
    BelowExactly(cost, tick);
  }

  datatype SellOrder = SellOrder(id: string, price: real, original: real, matched: real)

  function Remaining(o: SellOrder): real { o.original - o.matched }

  function RemainingAll(os: seq<SellOrder>): real {
    if os == [] then 0.0 else Remaining(os[0]) + RemainingAll(os[1..])
  }

  function Ids(os: seq<SellOrder>): (ids: seq<string>)
    ensures |ids| == |os| && forall i | 0 <= i < |os| :: ids[i] == os[i].id
  {
    seq(|os|, i requires 0 <= i < |os| => os[i].id)
  }

  datatype SellPlan = Nothing | Keep | Replace(cancelIds: seq<string>)

  /** One sell at the wanted price covering the position within tolerance. */
  ghost predicate Covers(os: seq<SellOrder>, size: real, want: real, tick: real) {
    && |os| == 1
    && Abs(os[0].price - want) < tick / 2.0
    && Abs(Remaining(os[0]) - size) <= MaxR(1.0, size / 100.0)
  }

  function PlanTakeProfit(size: real, want: real, tick: real, sells: seq<SellOrder>): SellPlan {
    if size <= 0.0 || want <= 0.0 || tick <= 0.0 then Nothing
    else if |sells| == 1 && Abs(sells[0].price - want) < tick / 2.0
            && Abs(RemainingAll(sells) - size) <= MaxR(1.0, size / 100.0)
    then Keep
    else Replace(Ids(sells))
  }

  /** Keeping is decided exactly by the one covering sell: less than half a tick off the
      wanted price, with what is left of it within one share or one percent of the size. */
  lemma {:induction false} KeepIffCovered(size: real, want: real, tick: real, sells: seq<SellOrder>)
    requires size > 0.0 && want > 0.0 && tick > 0.0
    ensures PlanTakeProfit(size, want, tick, sells) == Keep <==> Covers(sells, size, want, tick)
    ensures Covers(sells, size, want, tick)
       <==> |sells| == 1
            && var o := sells[0]; var left := o.original - o.matched;
            && want - tick / 2.0 < o.price < want + tick / 2.0
            && ((size - 1.0 <= left <= size + 1.0)
                || (100.0 * size - size <= 100.0 * left <= 100.0 * size + size))
  {
    if |sells| == 1 {
      assert sells[1..] == [];
      assert RemainingAll(sells) == Remaining(sells[0]) + 0.0;
    }
  }

  /** A kept sell on the tick grid is exactly at the wanted grid price. */
  lemma {:induction false} KeptOnGridIsExact(n: int, m: int, tick: real)
    requires tick > 0.0 && Abs(n as real * tick - m as real * tick) < tick / 2.0
    ensures n == m
  {
    var d := n - m;
    assert n as real * tick - m as real * tick == d as real * tick;
    if d >= 1 { Scale(1.0, d as real, tick); }
    if d <= -1 { Scale(d as real, -1.0, tick); }
  }

  /** Orders whose id is not among `ids`. */
  function Without(os: seq<SellOrder>, ids: seq<string>): seq<SellOrder> {
    if os == [] then []
    else (if os[0].id in ids then [] else [os[0]]) + Without(os[1..], ids)
  }

  lemma {:induction false} WithoutAll(os: seq<SellOrder>, ids: seq<string>)
    requires forall o | o in os :: o.id in ids
    ensures Without(os, ids) == []
  {
    if os != [] { WithoutAll(os[1..], ids); }
  }

  /** What the exchange answers to the two calls an exit may make. */
  datatype Answers = Answers(cancelOk: bool, placeOk: bool, newId: string)

  datatype Outcome = Outcome(sells: seq<SellOrder>, sold: bool)

  lemma {:induction false} WithoutOwnIds(sells: seq<SellOrder>)
    ensures Without(sells, Ids(sells)) == []
  {
    forall o | o in sells ensures o.id in Ids(sells) {
      var i :| 0 <= i < |sells| && sells[i] == o;
      assert Ids(sells)[i] == o.id;
    }
    WithoutAll(sells, Ids(sells));
  }

  /** Leaves a covering sell alone, and otherwise replaces all sells by one at `want`. */
  method RestAt(size: real, want: real, tick: real, sells: seq<SellOrder>, answers: Answers)
    returns (left: seq<SellOrder>)
    requires tick > 0.0 && size > 0.0
    ensures want <= 0.0 || Covers(sells, size, want, tick) ==> left == sells
    ensures want > 0.0 && (sells == [] || answers.cancelOk) && answers.placeOk ==> Covers(left, size, want, tick)
    ensures !answers.placeOk || (sells != [] && !answers.cancelOk) ==> forall o | o in left :: o in sells
    ensures forall o | o in left && o !in sells :: o == SellOrder(answers.newId, want, size, 0.0)
  {
    left := sells;
    var p := PlanTakeProfit(size, want, tick, sells);
    if want > 0.0 { KeepIffCovered(size, want, tick, sells); }
    if p == Nothing || p == Keep {
      return;
    }
    if p.cancelIds != [] {
      if !answers.cancelOk {
        return;
      }
      WithoutOwnIds(sells);
      left := Without(sells, p.cancelIds);
    }
    if answers.placeOk {
      left := left + [SellOrder(answers.newId, want, size, 0.0)];
    }
  }

  /** One exit decision for a position of known cost; `sells` are its resting
      sells on the exchange, `outcome.sells` those resting afterwards. */
  method ExitPosition(cost: Option<real>, size: real, bid: Option<real>, ask: Option<real>, tick: real,
                      stop: Option<real>, takeAtMarket: bool, sells: seq<SellOrder>, answers: Answers)
    returns (outcome: Outcome, plan: ExitPlan)
    requires tick > 0.0
    ensures cost.None? || cost.value <= 0.0 || size <= 0.0 ==> outcome == Outcome(sells, false) && plan == Noop
    ensures cost.Some? && cost.value > 0.0 && size > 0.0 ==>
              plan == PlanExit(cost.value, bid, ask, tick, stop, takeAtMarket)
    ensures outcome.sold ==> plan.Market?
    ensures outcome.sold <==> cost.Some? && cost.value > 0.0 && size > 0.0 && answers.placeOk
                              && SoldAtMarket(cost.value, bid, stop, takeAtMarket)
    ensures forall o | o in outcome.sells && o !in sells ::
              && cost.Some? && RestsAt(o.price, cost.value, bid, ask, tick, takeAtMarket)
              && o.original == size && o.matched == 0.0 && o.id == answers.newId
    ensures outcome.sold ==> cost.Some? && bid.Some? && (bid.value > cost.value || StopReached(cost.value, bid, stop))
    ensures plan.Noop? ==> outcome.sells == sells
    ensures forall o | o in outcome.sells && o !in sells :: cost.Some? && o.price > cost.value - DUST * tick
    ensures forall o | o in outcome.sells && o !in sells ::
              && cost.Some? && plan.Rest? && o.price == plan.price
              && (o.price < cost.value <==> RestsLow(plan, cost.value, ask, tick))
    ensures plan.Rest? && plan.price > 0.0 && (sells == [] || answers.cancelOk) && answers.placeOk ==>
              Covers(outcome.sells, size, plan.price, tick)
    ensures plan.Rest? && plan.price > 0.0 && Covers(sells, size, plan.price, tick) ==>
              outcome == Outcome(sells, false)
    ensures plan.Rest? && (!answers.placeOk || (sells != [] && !answers.cancelOk)) ==>
              forall o | o in outcome.sells :: o in sells
    ensures plan.Market? ==>
              outcome.sold == answers.placeOk && outcome.sells == (if answers.cancelOk then [] else sells)
  {
    if cost.None? || cost.value <= 0.0 || size <= 0.0 {
      return Outcome(sells, false), Noop;
    }
    hide PlanExit, CeilToTick, RestsLow, Covers, SoldAtMarket, RestsAt;
    PlanExitExactly(cost.value, bid, ask, tick, stop, takeAtMarket);
    plan := PlanExit(cost.value, bid, ask, tick, stop, takeAtMarket);
    PlanExitNeverUndercuts(cost.value, bid, ask, tick, stop, takeAtMarket);
    WithoutOwnIds(sells);
    match plan
    case Noop =>
      outcome := Outcome(sells, false);
    case Rest(_, price) =>
      RestsBelowExactly(cost.value, bid, ask, tick, stop, takeAtMarket);
      var floor := CeilToTick(cost.value, tick);
      var want := if price < floor - 0.000000001 then floor else price;
      var left := RestAt(size, want, tick, sells, answers);
      outcome := Outcome(left, false);
    case Market(_) =>
      var left := sells;
      if sells != [] && answers.cancelOk {
        left := Without(sells, Ids(sells));
      }
      outcome := Outcome(left, answers.placeOk);
  }

  /** Any number of ticks with the same quotes and position: as soon as one tick leaves
      a covering sell, every later tick leaves exactly that sell, whatever the exchange
      would have answered; a tick whose calls go through leaves one. */
  method UnchangedTicks(cost: Option<real>, size: real, bid: Option<real>, ask: Option<real>, tick: real,
                        stop: Option<real>, takeAtMarket: bool, sells: seq<SellOrder>, answers: seq<Answers>)
    returns (outcomes: seq<Outcome>, plan: ExitPlan)
    requires tick > 0.0 && cost.Some? && cost.value > 0.0 && size > 0.0
    ensures plan == PlanExit(cost.value, bid, ask, tick, stop, takeAtMarket) && |outcomes| == |answers|
    ensures plan.Rest? && plan.price > 0.0 ==>
              && (forall i | 0 <= i < |answers| && answers[i].cancelOk && answers[i].placeOk ::
                    Covers(outcomes[i].sells, size, plan.price, tick))
              && (forall i, j | 0 <= i < j < |answers| && Covers(outcomes[i].sells, size, plan.price, tick) ::
                    outcomes[j] == Outcome(outcomes[i].sells, false))
              && (Covers(sells, size, plan.price, tick) ==>
                    forall i | 0 <= i < |answers| :: outcomes[i] == Outcome(sells, false))
  {
    plan := PlanExit(cost.value, bid, ask, tick, stop, takeAtMarket);
    outcomes := [];
    var resting := sells;
    for n := 0 to |answers|
      invariant |outcomes| == n && resting == if n == 0 then sells else outcomes[n - 1].sells
      invariant plan.Rest? && plan.price > 0.0 ==>
                  && (forall i | 0 <= i < n && answers[i].cancelOk && answers[i].placeOk ::
                        Covers(outcomes[i].sells, size, plan.price, tick))
                  && (forall i, j | 0 <= i < j < n && Covers(outcomes[i].sells, size, plan.price, tick) ::
                        outcomes[j] == Outcome(outcomes[i].sells, false))
                  && (Covers(sells, size, plan.price, tick) ==>
                        forall i | 0 <= i < n :: outcomes[i] == Outcome(sells, false))
    {
      hide Covers, PlanExit;
      var outcome, _ := ExitPosition(cost, size, bid, ask, tick, stop, takeAtMarket, resting, answers[n]);
      outcomes := outcomes + [outcome];
      resting := outcome.sells;
    }
  }
}
