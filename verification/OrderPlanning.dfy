/** Orders for the two sides of a market out of one budget, in either pricing mode,
    and the part of a placing round that turns them into cancels and new orders. */
module OrderPlanning {
  import opened Fifo
  import opened OrderSizing
  import opened BuyReconcile
  import opened ProtectedExit
  import opened Wrappers
  import Laddering
  import LegacyWall

  datatype Side = Side(token: string, bids: seq<Level>, rangeMin: real, rangeMax: real, minSize: int,
                       maxSpread: int, tick: int)

  /** An order a side's pricing asks for, before budget and share cap. */
  datatype Want = Want(price: int, shares: int, minSize: int)

  function Cost(o: Order): int { o.shares * (o.price * SHARE) }

  function CostOf(ladder: seq<Order>): int {
    if ladder == [] then 0 else Cost(ladder[0]) + CostOf(ladder[1..])
  }

  function SharesOf(ladder: seq<Order>): int {
    if ladder == [] then 0 else ladder[0].shares + SharesOf(ladder[1..])
  }

  function Affordable(price: int, money: int): int {
    if price > 0 then Trunc(money, price * SHARE) else 0
  }

  /** The wanted order cut to the money and the shares left, or nothing when the cut
      leaves less than the smallest order that qualifies. */
  ghost function FitTo(w: Option<Want>, money: int, count: int): seq<Order> {
    if w.None? then []
    else
      var n := Min(w.value.shares, Min(Affordable(w.value.price, money), count));
      if n < w.value.minSize then [] else [Order(w.value.price, n)]
  }

  datatype Plan = Plan(a: seq<Order>, b: seq<Order>)

  ghost function PlanCost(p: Plan): int { CostOf(p.a) + CostOf(p.b) }

  ghost function PlanShares(p: Plan): int { SharesOf(p.a) + SharesOf(p.b) }

  ghost predicate GapWants(w: Option<Want>, side: Option<Side>, s: Laddering.Settings, shares: Option<int>) {
    if side.None? then w.None?
    else
      var v := side.value;
      exists d :: Laddering.Decided(d, v.bids, v.rangeMin, v.rangeMax, v.minSize, s, shares)
                  && w == if d.Place? then Some(Want(d.price, d.shares, v.minSize)) else None
  }

  datatype WallSettings = WallSettings(wall: int, cumulative: int, cliff: real, mode: SizeMode, customUsd: int)

  function RulesOf(v: Side, s: WallSettings): LegacyWall.Rules {
    LegacyWall.Rules(v.maxSpread, v.tick, v.rangeMin, v.rangeMax, s.wall, s.cumulative)
  }

  ghost predicate WallWants(w: Option<Want>, side: Option<Side>, s: WallSettings, balance: int) {
    if side.None? then w.None?
    else
      var v := side.value;
      var rules := LegacyWall.Rules(v.maxSpread, v.tick, v.rangeMin, v.rangeMax, s.wall, s.cumulative);
      exists d :: LegacyWall.Explains(d, v.bids, rules,
                                      LegacyWall.Sizing(v.minSize, s.mode, balance, s.customUsd), s.cliff)
                  && w == if d.reason.Placed? then Some(Want(d.price, d.shares, v.minSize)) else None
  }

  // ---------------------------------------------------------------- budget safety

  ghost predicate Sensible(w: Option<Want>) { w.Some? ==> w.value.minSize > 0 }

  /** A side gets the largest order up to the wanted one that money and shares allow,
      and goes without exactly when its smallest qualifying order is not allowed. */
  lemma {:induction false} FitsMost(w: Want, money: int, count: int)
    requires w.minSize > 0 && w.price > 0 && money >= 0
    ensures var fit := FitTo(Some(w), money, count);
            && (fit == [] <==> w.shares < w.minSize || count < w.minSize || money < w.minSize * (w.price * SHARE))
            && (fit != [] ==> FitOf(fit[0], w, money, count))
  {
    TruncFits(money, w.price * SHARE, w.minSize);
    var n := Min(w.shares, Min(Affordable(w.price, money), count));
    TruncFits(money, w.price * SHARE, n);
    TruncFits(money, w.price * SHARE, n + 1);
  }

  ghost predicate FitOf(o: Order, w: Want, money: int, count: int) {
    && o.price == w.price && w.minSize <= o.shares <= w.shares && o.shares <= count
    && o.shares * (o.price * 1_000_000) <= money
    && (o.shares == w.shares || o.shares == count || (o.shares + 1) * (o.price * 1_000_000) > money)
  }

  /** The side gets the largest order up to the wanted one that money and shares allow,
      and goes without exactly when it wants nothing, at a price of nothing, or its
      smallest qualifying order is not allowed. Money counts price units times millionths of a share. */
  ghost predicate Largest(ladder: seq<Order>, w: Option<Want>, money: int, count: int) {
    if w.None? then ladder == []
    else
      && |ladder| <= 1
      && (ladder == [] <==> w.value.price <= 0 || w.value.shares < w.value.minSize || count < w.value.minSize
                            || money < w.value.minSize * (w.value.price * 1_000_000))
      && (ladder != [] ==> FitOf(ladder[0], w.value, money, count))
  }

  ghost function Spent(ladder: seq<Order>): int {
    if ladder == [] then 0 else ladder[0].shares * (ladder[0].price * 1_000_000)
  }

  ghost function Taken(ladder: seq<Order>): int { if ladder == [] then 0 else ladder[0].shares }

  /** Out of one budget the first side gets the largest order it wants, and the second the
      largest that what the first left allows. */
  lemma {:induction false} LargestOrders(a: seq<Order>, b: seq<Order>, wa: Option<Want>, wb: Option<Want>,
                                         budget: int, cap: int)
    requires SharesBudget(a, b, wa, wb, budget, cap) && budget >= 0 && cap >= 0
    requires Sensible(wa) && Sensible(wb)
    ensures Largest(a, wa, budget, cap) && Largest(b, wb, budget - Spent(a), cap - Taken(a))
    ensures Spent(a) + Spent(b) <= budget && Taken(a) + Taken(b) <= cap
  {
    hide FitTo;
    FitIsLargest(wa, budget, cap);
    FitIsLargest(wb, budget - Spent(a), cap - Taken(a));
    SpentIsCost(a);
  }

  lemma {:induction false} SpentIsCost(ladder: seq<Order>)
    requires |ladder| <= 1
    ensures CostOf(ladder) == Spent(ladder) && SharesOf(ladder) == Taken(ladder)
  {
    if ladder != [] {
      assert ladder[1..] == [];
    }
  }

  lemma {:induction false} FitIsLargest(w: Option<Want>, money: int, count: int)
    requires Sensible(w) && money >= 0 && count >= 0
    ensures Largest(FitTo(w, money, count), w, money, count)
    ensures Spent(FitTo(w, money, count)) <= money && Taken(FitTo(w, money, count)) <= count
  {
    if w.Some? && w.value.price > 0 { FitsMost(w.value, money, count); }
  }

  lemma {:induction false} FitWithin(w: Option<Want>, money: int, count: int)
    requires Sensible(w) && money >= 0 && count >= 0
    ensures 0 <= CostOf(FitTo(w, money, count)) <= money && 0 <= SharesOf(FitTo(w, money, count)) <= count
  {
    if w.Some? {
      if w.value.price > 0 {
        FitsMost(w.value, money, count);
        var fit := FitTo(w, money, count);
        if fit != [] {
          Times(0, fit[0].shares, fit[0].price * SHARE);
          assert fit == [fit[0]];
        }
      }
    }
  }

  /** The first side is cut to the whole budget, the second to what the first left. */
  ghost predicate SharesBudget(a: seq<Order>, b: seq<Order>, wa: Option<Want>, wb: Option<Want>, budget: int,
                               cap: int) {
    a == FitTo(wa, budget, cap) && b == FitTo(wb, budget - CostOf(a), cap - SharesOf(a))
  }

  /** Both sides together stay within budget and share cap. */
  lemma {:induction false} WithinBudget(a: seq<Order>, b: seq<Order>, wa: Option<Want>, wb: Option<Want>,
                                        budget: int, cap: int)
    requires SharesBudget(a, b, wa, wb, budget, cap) && budget >= 0 && cap >= 0
    requires Sensible(wa) && Sensible(wb)
    ensures 0 <= PlanCost(Plan(a, b)) <= budget && 0 <= PlanShares(Plan(a, b)) <= cap
  {
    FitWithin(wa, budget, cap);
    FitWithin(wb, budget - CostOf(a), cap - SharesOf(a));
  }

  /** An order on a bid of the side's book, inside its reward range, at least as large
      as the reward asks for. */
  ghost predicate Qualified(o: Order, side: Side) {
    && o.price > 0 && 0 < side.minSize <= o.shares
    && exists l :: l in side.bids && l.price == o.price
                   && side.rangeMin <= l.price as real && l.price as real <= side.rangeMax
  }

  /** At most one order, and a qualified one. */
  ghost predicate LadderOn(ladder: seq<Order>, side: Option<Side>) {
    |ladder| <= 1 && (ladder != [] ==> side.Some? && Qualified(ladder[0], side.value))
  }

  lemma {:induction false} GapWantsQualify(w: Option<Want>, side: Option<Side>, s: Laddering.Settings,
                                           shares: Option<int>, money: int, count: int)
    requires GapWants(w, side, s, shares)
    ensures Sensible(w)
    ensures LadderOn(FitTo(w, money, count), side)
  {
    if w.Some? {
      var v := side.value;
      var d :| Laddering.Decided(d, v.bids, v.rangeMin, v.rangeMax, v.minSize, s, shares)
               && w == if d.Place? then Some(Want(d.price, d.shares, v.minSize)) else None;
      Laddering.PlacedOnBid(d, v.bids, v.rangeMin, v.rangeMax, v.minSize, s, shares);
    }
  }

  lemma {:induction false} WallWantsQualify(w: Option<Want>, side: Option<Side>, s: WallSettings,
                                            balance: int, money: int, count: int)
    requires WallWants(w, side, s, balance)
    ensures Sensible(w)
    ensures LadderOn(FitTo(w, money, count), side)
  {
    if w.Some? {
      var v := side.value;
      var sizing := LegacyWall.Sizing(v.minSize, s.mode, balance, s.customUsd);
      var d :| LegacyWall.Explains(d, v.bids, RulesOf(v, s), sizing, s.cliff)
               && w == if d.reason.Placed? then Some(Want(d.price, d.shares, v.minSize)) else None;
      LegacyWall.PlacedBehindWall(d, v.bids, RulesOf(v, s), sizing, s.cliff);
    }
  }

  // ---------------------------------------------------------------- the two planners

  /** `ladder` is a side's part of a plan and `w` what its pricing asked for. */
  ghost predicate GapPlan(ladder: seq<Order>, w: Option<Want>, side: Option<Side>, s: Laddering.Settings,
                          shares: Option<int>) {
    GapWants(w, side, s, shares) && LadderOn(ladder, side) && Sensible(w)
  }

  ghost predicate WallPlan(ladder: seq<Order>, w: Option<Want>, side: Option<Side>, s: WallSettings, balance: int) {
    WallWants(w, side, s, balance) && LadderOn(ladder, side) && Sensible(w)
  }

  method GapLadder(side: Option<Side>, money: int, count: int, s: Laddering.Settings, shares: Option<int>)
    returns (ladder: seq<Order>, w: Option<Want>)
    ensures ladder == FitTo(w, money, count) && GapPlan(ladder, w, side, s, shares)
  {
    if side.None? {
      return [], None;
    }
    var v := side.value;
    var plan := Laddering.ExplainGapSingleOrder(v.bids, v.rangeMin, v.rangeMax, v.minSize, s, shares);
    if !plan.Place? {
      return [], None;
    }
    w := Some(Want(plan.price, plan.shares, v.minSize));
    var placed := Min(plan.shares, Min(Affordable(plan.price, money), count));
    ladder := if placed < v.minSize then [] else [Order(plan.price, placed)];
    GapWantsQualify(w, side, s, shares, money, count);
  }

  method WallLadder(side: Option<Side>, money: int, count: int, s: WallSettings, balance: int)
    returns (ladder: seq<Order>, w: Option<Want>)
    ensures ladder == FitTo(w, money, count) && WallPlan(ladder, w, side, s, balance)
  {
    if side.None? {
      return [], None;
    }
    var v := side.value;
    var d := LegacyWall.ExplainLegacyOrder(
      v.bids, RulesOf(v, s), LegacyWall.Sizing(v.minSize, s.mode, balance, s.customUsd), s.cliff);
    if !d.reason.Placed? {
      return [], None;
    }
    w := Some(Want(d.price, d.shares, v.minSize));
    var placed := Min(d.shares, Min(Affordable(d.price, money), count));
    ladder := if placed < v.minSize then [] else [Order(d.price, placed)];
    WallWantsQualify(w, side, s, balance, money, count);
  }

  /** Both sides out of one budget; `wa` and `wb` are what their pricing asked for. */
  method ComputeMarketSingleOrders(sideA: Option<Side>, sideB: Option<Side>, budget: int, cap: int,
                                   s: Laddering.Settings, shares: Option<int>)
    returns (a: seq<Order>, b: seq<Order>, wa: Option<Want>, wb: Option<Want>)
    ensures GapPlan(a, wa, sideA, s, shares) && GapPlan(b, wb, sideB, s, shares)
    ensures SharesBudget(a, b, wa, wb, budget, cap)
  {
    hide GapPlan, FitTo, CostOf, SharesOf;
    a, wa := GapLadder(sideA, budget, cap, s, shares);
    var spentUsd, spentShares := CostOf(a), SharesOf(a);
    b, wb := GapLadder(sideB, budget - spentUsd, cap - spentShares, s, shares);
  }

  method ComputeMarketLegacyOrders(sideA: Option<Side>, sideB: Option<Side>, budget: int, cap: int, balance: int,
                                   s: WallSettings)
    returns (a: seq<Order>, b: seq<Order>, wa: Option<Want>, wb: Option<Want>)
    ensures WallPlan(a, wa, sideA, s, balance) && WallPlan(b, wb, sideB, s, balance)
    ensures SharesBudget(a, b, wa, wb, budget, cap)
  {
    hide WallPlan, FitTo, CostOf, SharesOf;
    a, wa := WallLadder(sideA, budget, cap, s, balance);
    var spentUsd, spentShares := CostOf(a), SharesOf(a);
    b, wb := WallLadder(sideB, budget - spentUsd, cap - spentShares, s, balance);
  }

  // ---------------------------------------------------------------- one market of a placing round

  datatype Mode = GapSingle(gap: Laddering.Settings, tierShares: Option<int>) | ThickWall(wall: WallSettings)

  datatype Limits = Limits(maxExposureUsd: int, maxExposureShares: int)

  /** What the account holds in the market: value in money, shares in millionths. */
  datatype Held = Held(value: int, shares: int, tokens: set<string>)

  datatype Step = Step(cancels: seq<string>, places: seq<Order>)

  /** What the pricing of the mode asks for on a side. */
  ghost predicate ModeWants(w: Option<Want>, side: Option<Side>, m: Mode, balance: int) {
    match m
    case GapSingle(gap, tierShares) => GapWants(w, side, gap, tierShares)
    case ThickWall(wall) => WallWants(w, side, wall, balance)
  }

  /** The plan gives both sides the largest orders their pricing wants out of the budget. */
  ghost predicate PlansLargest(ladders: Plan, sideA: Option<Side>, sideB: Option<Side>, m: Mode, balance: int,
                               budget: int, cap: int)
  {
    exists wa, wb ::
      && ModeWants(wa, sideA, m, balance) && ModeWants(wb, sideB, m, balance)
      && Largest(ladders.a, wa, budget, cap)
      && Largest(ladders.b, wb, budget - Spent(ladders.a), cap - Taken(ladders.a))
  }

  /** The plan of a round: with money left under balance and exposure limit and whole
      shares left under the share limit, the largest orders on the sides without holdings;
      otherwise none. */
  ghost predicate RoundPlans(ladders: Plan, sideA: Side, sideB: Option<Side>, m: Mode, balance: int, lim: Limits,
                             held: Held)
  {
    var money := (if balance <= lim.maxExposureUsd then balance else lim.maxExposureUsd) - held.value;
    var count := lim.maxExposureShares - Trunc(held.shares, 1_000_000);
    var a := if sideA.token in held.tokens then None else Some(sideA);
    var b := if sideB.Some? && sideB.value.token in held.tokens then None else sideB;
    if money > 0 && count > 0 then PlansLargest(ladders, a, b, m, balance, money, count) else ladders == Plan([], [])
  }

  function Exposure(balance: int, lim: Limits): int { Min(balance, lim.maxExposureUsd) }

  function SizeTolerance(m: Mode): real { if m.ThickWall? && !m.wall.mode.MinSize? then 0.10 else 0.01 }

  predicate Paused(side: Option<Side>, held: Held) { side.Some? && side.value.token in held.tokens }

  function Active(side: Option<Side>, held: Held): Option<Side> { if Paused(side, held) then None else side }

  /** Cancels and new orders for the two sides; `ladders` are the targets used. */
  method PlaceMarket(sideA: Side, sideB: Option<Side>, resting: map<string, seq<Resting>>, m: Mode,
                     balance: int, lim: Limits, held: Held)
    returns (stepA: Step, stepB: Step, ladders: Plan)
    ensures RoundPlans(ladders, sideA, sideB, m, balance, lim, held)
    ensures RoundRespects(Some(sideA), sideB, ladders, balance, lim, held)
    ensures StepFor(stepA, Some(sideA), ladders.a, resting, m, balance, lim, held)
    ensures StepFor(stepB, sideB, ladders.b, resting, m, balance, lim, held)
  {
    hide PlansLargest, LadderOn, PlanCost, PlanShares, StepOf, Trunc, Active, CostOf, SharesOf;
    var budget := Max(0, Exposure(balance, lim) - held.value);
    var cap := Max(0, lim.maxExposureShares - Trunc(held.shares, SHARE));
    var budgetOk := budget > 0 && cap > 0;
    ladders := Plan([], []);
    if budgetOk {
      ladders := PlanLadders(Active(Some(sideA), held), Active(sideB, held), m, balance, budget, cap);
      ActiveSides(sideA, sideB, held, ladders);
    } else {
      NothingPlanned(Some(sideA), sideB);
    }
    stepA := PlaceSide(Some(sideA), ladders.a, resting, m, budgetOk, held);
    stepB := PlaceSide(sideB, ladders.b, resting, m, budgetOk, held);
  }

  lemma {:induction false} ActiveSides(sideA: Side, sideB: Option<Side>, held: Held, ladders: Plan)
    requires LadderOn(ladders.a, Active(Some(sideA), held)) && LadderOn(ladders.b, Active(sideB, held))
    ensures Active(Some(sideA), held) == if sideA.token in held.tokens then None else Some(sideA)
    ensures Active(sideB, held) == if sideB.Some? && sideB.value.token in held.tokens then None else sideB
    ensures LadderFor(ladders.a, Some(sideA), held) && LadderFor(ladders.b, sideB, held)
  {
  }

  lemma {:induction false} NothingPlanned(sideA: Option<Side>, sideB: Option<Side>)
    ensures LadderOn([], sideA) && LadderOn([], sideB)
  {
  }

  method PlaceSide(side: Option<Side>, ladder: seq<Order>, resting: map<string, seq<Resting>>, m: Mode,
                   budgetOk: bool, held: Held)
    returns (step: Step)
    ensures step == StepOf(side, ladder, resting, m, budgetOk, held)
  {
    step := Step([], []);
    if side.Some? {
      var rest := RestingOn(resting, side.value.token);
      if Paused(side, held) {
        var c, p := ReconcileBuyOrders([], rest, 0.01);
        step := Step(c, p);
      } else if budgetOk {
        var c, p := ReconcileBuyOrders(ladder, rest, SizeTolerance(m));
        step := Step(c, p);
      }
    }
  }

  function RestingOn(resting: map<string, seq<Resting>>, token: string): seq<Resting> {
    if token in resting then resting[token] else []
  }

  method PlanLadders(sideA: Option<Side>, sideB: Option<Side>, m: Mode, balance: int, budget: int, cap: int)
    returns (ladders: Plan)
    requires budget > 0 && cap > 0
    ensures 0 <= PlanCost(ladders) <= budget && 0 <= PlanShares(ladders) <= cap
    ensures LadderOn(ladders.a, sideA) && LadderOn(ladders.b, sideB)
    ensures PlansLargest(ladders, sideA, sideB, m, balance, budget, cap)
  {
    hide GapWants, WallWants, Largest;
    var a, b, wa, wb;
    if m.ThickWall? {
      a, b, wa, wb := ComputeMarketLegacyOrders(sideA, sideB, budget, cap, balance, m.wall);
    } else {
      a, b, wa, wb := ComputeMarketSingleOrders(sideA, sideB, budget, cap, m.gap, m.tierShares);
    }
    WithinBudget(a, b, wa, wb, budget, cap);
    LargestOrders(a, b, wa, wb, budget, cap);
    ladders := Plan(a, b);
    assert ModeWants(wa, sideA, m, balance) && ModeWants(wb, sideB, m, balance);
  }

  /** At most one order, only on a side without holdings, and a qualified one. */
  ghost predicate LadderFor(ladder: seq<Order>, side: Option<Side>, held: Held) {
    LadderOn(ladder, side) && (ladder != [] ==> !Paused(side, held))
  }

  /** Holdings and targets together respect both exposure limits whenever anything is
      targeted at all. */
  ghost predicate RoundRespects(sideA: Option<Side>, sideB: Option<Side>, ladders: Plan, balance: int, lim: Limits,
                                held: Held)
  {
    && LadderFor(ladders.a, sideA, held) && LadderFor(ladders.b, sideB, held)
    && (ladders == Plan([], [])
        || (held.value + PlanCost(ladders) <= Exposure(balance, lim)
            && Trunc(held.shares, SHARE) + PlanShares(ladders) <= lim.maxExposureShares))
  }

  /** A held side loses all its buys; a side in budget is converged on its ladder, with a
      tolerance of ten percent where the wanted size follows the balance and of one percent
      elsewhere; a side out of budget is left alone. */
  ghost function StepOf(side: Option<Side>, ladder: seq<Order>, resting: map<string, seq<Resting>>, m: Mode,
                        budgetOk: bool, held: Held): Step
  {
    if side.None? then Step([], [])
    else
      var rest := if side.value.token in resting then resting[side.value.token] else [];
      if side.value.token in held.tokens then Step(Dropped(rest, [], 0.01, |rest|), [])
      else if budgetOk then
        var tol := if m.ThickWall? && m.wall.mode != MinSize then 0.10 else 0.01;
        Step(Dropped(rest, ladder, tol, |rest|), Missing(rest, ladder, tol, |ladder|))
      else Step([], [])
  }

  ghost predicate StepFor(step: Step, side: Option<Side>, ladder: seq<Order>, resting: map<string, seq<Resting>>,
                          m: Mode, balance: int, lim: Limits, held: Held)
  {
    var money := (if balance <= lim.maxExposureUsd then balance else lim.maxExposureUsd) - held.value;
    var count := lim.maxExposureShares - Trunc(held.shares, 1_000_000);
    step == StepOf(side, ladder, resting, m, money > 0 && count > 0, held)
  }

  // ---------------------------------------------------------------- what rests after the round

  /** Money needed if every order of a book fills completely. */
  ghost function BookValue(book: seq<Resting>): int {
    if book == [] then 0 else book[0].price * Remaining(book[0]) + BookValue(book[1..])
  }

  /** What the size tolerance lets a kept order exceed its target by. */
  ghost function Slack(ladder: seq<Order>, pct: real): real {
    if ladder == [] then 0.0 else ladder[0].price as real * Tolerance(ladder[0].shares, pct)
  }

  /** A book settled on at most one target holds just that one order. */
  lemma {:induction false} SettledOnOne(book: seq<Resting>, ladder: seq<Order>, pct: real)
    requires Settled(book, ladder, pct) && |ladder| <= 1
    ensures ladder == [] ==> book == []
    ensures ladder != [] ==> |book| == 1 && book[0].price == ladder[0].price
                             && Off(book[0], ladder[0].shares) as real <= Tolerance(ladder[0].shares, pct)
  {
    forall o | o in book
      ensures ladder != [] && o.price == ladder[0].price && Target(ladder, o.price) == Some(ladder[0].shares)
    {
      assert Fits(o, ladder, pct);
      OnlyTarget(ladder, o.price);
    }
    SecondPrice(book, if ladder == [] then 0 else ladder[0].price);
    if ladder != [] {
      assert ladder[0] in ladder;
      assert PriceIn(book, ladder[0].price);
      assert Fits(book[0], ladder, pct);
    }
  }

  lemma {:induction false} SecondPrice(book: seq<Resting>, p: int)
    requires DistinctBook(book)
    ensures |book| > 1 ==> exists o :: o in book && o.price != p
    ensures |book| > 0 ==> exists o :: o in book
  {
    if |book| > 0 { assert book[0] in book; }
    if |book| > 1 { assert book[1] in book; }
  }

  lemma {:induction false} SettledValue(book: seq<Resting>, ladder: seq<Order>, pct: real)
    requires Settled(book, ladder, pct) && |ladder| <= 1
    requires ladder != [] ==> ladder[0].price > 0
    ensures BookValue(book) as real <= CostOf(ladder) as real + Slack(ladder, pct)
  {
    SettledOnOne(book, ladder, pct);
    if ladder != [] {
      var tol := Tolerance(ladder[0].shares, pct);
      OverTarget(book[0], ladder[0], tol);
      assert BookValue(book) == book[0].price * Remaining(book[0]);
      assert CostOf(ladder) == Cost(ladder[0]);
    }
  }

  lemma {:induction false} OnlyTarget(ladder: seq<Order>, p: int)
    requires |ladder| <= 1 && Target(ladder, p).Some?
    ensures ladder != [] && ladder[0].price == p && Target(ladder, p) == Some(ladder[0].shares)
  {
    assert ladder[..|ladder| - 1] == [];
    assert Target([], p).None?;
  }

  lemma {:induction false} OverTarget(o: Resting, t: Order, tol: real)
    requires o.price == t.price > 0 && Off(o, t.shares) as real <= tol
    ensures (o.price * Remaining(o)) as real <= Cost(t) as real + t.price as real * tol
  {
    var over := Remaining(o) - t.shares * SHARE;
    assert o.price * Remaining(o) == t.price * over + Cost(t);
    if over as real < tol {
      assert t.price as real * (tol - over as real) >= 0.0;
    }
  }

  /** Once both sides have settled on their targets, holdings plus everything resting
      stay inside the exposure limit up to the tolerance on the kept orders; with
      nothing targeted, nothing rests. */
  lemma {:induction false} ExposureAfterRound(sideA: Option<Side>, sideB: Option<Side>, ladders: Plan,
                                              balance: int, lim: Limits, held: Held, bookA: seq<Resting>,
                                              bookB: seq<Resting>, pct: real)
    requires RoundRespects(sideA, sideB, ladders, balance, lim, held)
    requires Settled(bookA, ladders.a, pct) && Settled(bookB, ladders.b, pct)
    ensures ladders == Plan([], []) ==> bookA == bookB == []
    ensures ladders != Plan([], []) ==>
              (held.value + BookValue(bookA) + BookValue(bookB)) as real
              <= Exposure(balance, lim) as real + Slack(ladders.a, pct) + Slack(ladders.b, pct)
  {
    SettledOnOne(bookA, ladders.a, pct);
    SettledOnOne(bookB, ladders.b, pct);
    SettledValue(bookA, ladders.a, pct);
    SettledValue(bookB, ladders.b, pct);
  }

  /** Carrying out a side's step settles it on its ladder. */
  lemma {:induction false} StepSettles(side: Option<Side>, ladder: seq<Order>,
                                       resting: map<string, seq<Resting>>, m: Mode, budgetOk: bool,
                                       held: Held, placed: seq<Resting>)
    requires side.Some? && LadderFor(ladder, side, held)
    requires Identified(RestingOn(resting, side.value.token))
    requires Opens(placed, StepOf(side, ladder, resting, m, budgetOk, held).places)
    ensures var rest := RestingOn(resting, side.value.token);
            var after := Left(rest, StepOf(side, ladder, resting, m, budgetOk, held).cancels) + placed;
            && (Paused(side, held) ==> after == [])
            && (!Paused(side, held) && budgetOk ==> Settled(after, ladder, SizeTolerance(m)))
            && (!Paused(side, held) && !budgetOk ==> after == rest)
  {
    var rest := RestingOn(resting, side.value.token);
    if Paused(side, held) {
      assert Missing(rest, [], 0.01, 0) == [];
      ReconcileSettles(rest, [], 0.01, placed);
      SettledOnOne(Left(rest, Dropped(rest, [], 0.01, |rest|)) + placed, [], 0.01);
    } else if budgetOk {
      ReconcileSettles(rest, ladder, SizeTolerance(m), placed);
    } else {
      NothingCancelled(rest);
    }
  }

  lemma {:induction false} NothingCancelled(rest: seq<Resting>)
    ensures Left(rest, []) == rest
  {
    if rest != [] { NothingCancelled(rest[..|rest| - 1]); }
  }
}
