/** What the router does with one position: which route the position takes, which of
    the two exits is better on the books that were read, and the rows it reserves. */
module RouterChoices {
  import opened Fifo
  import opened Sorting
  import opened Wrappers
  import opened MergeEvents
  import opened MergeProtocol
  import opened ProtectedExit
  import opened RouterSteps
  import MergeAccounting
  import CostBasis
  import TakeProfit

  datatype OpenOrder = OpenOrder(id: string, asset: string, isSell: bool)

  datatype SellReply = SellRejected | SellRaised | SellAs(id: string)

  /** What the outside world answers while one position is routed. */
  datatype RouteInputs = RouteInputs(
    exitWait: int, mergeEnabled: bool, minShares: int, advantage: int,
    cost: Option<real>, lots: seq<Lot>, otherLots: seq<Lot>,
    bestBid: Option<int>, bestAsk: Option<int>,
    stopMode: TakeProfit.StopMode, stopPercent: real, stopCents: real,
    relayerOk: bool, bids: Option<seq<Level>>, listedComplement: Option<string>, asks: Option<seq<Level>>,
    fok: FokReply, sell: SellReply, merge: EventAnswers)

  datatype Choice =
    | Decline
    | Hold
    | MergePair(other: string, q: int)
    | Compare
    | MakerSell(price: int)

  function StopHit(cost: real, inp: RouteInputs): bool {
    var stop := TakeProfit.EffectiveThetaStop(cost, inp.stopMode, inp.stopPercent, inp.stopCents * 10_000.0);
    inp.bestBid.Some? && TakeProfit.StopReached(cost, Some(inp.bestBid.value as real), stop)
  }

  /** When the maker wait of these lots ends. */
  function Deadline(lots: seq<Lot>, exitWait: int, now: int): int {
    var oldest := CostBasis.OldestTs(lots);
    (if oldest.Some? then oldest.value else now) + exitWait
  }

  /** The route a position takes. `busy`: the market has an active event; `resting`:
      its own maker sell is still open. */
  function RouteChoice(pos: Position, ps: seq<Position>, busy: bool, resting: bool, inp: RouteInputs, now: int): Choice
  {
    if pos.size <= 0 || pos.cid == "" then Decline
    else if inp.exitWait <= 0 && !inp.mergeEnabled then Decline
    else if busy then Hold
    else if inp.cost.None? || inp.cost.value <= 0.0 then Decline
    else
      var pair := if inp.mergeEnabled then PairFor(ps, pos.cid, pos.asset) else None;
      if pair.Some? && MergeAccounting.PairAmount(pos.size, pair.value.1) >= inp.minShares && inp.relayerOk then
        MergePair(pair.value.0, MergeAccounting.PairAmount(pos.size, pair.value.1))
      else if StopHit(inp.cost.value, inp) || inp.exitWait <= 0 then Compare
      else if Deadline(inp.lots, inp.exitWait, now) <= now then Compare
      else if resting then Hold
      else
        var price := MakerSellPrice([], inp.bestAsk);
        if price.None? then Hold else MakerSell(price.value)
  }

  // ---------------------------------------------------------------- which route, in the reported figures

  /** Nothing keeps the position from being routed by its market: it has a size, a market
      without an active event and a cost, and fast exits are on. */
  ghost predicate Idle(pos: Position, busy: bool, inp: RouteInputs) {
    && pos.size > 0 && pos.cid != "" && !busy && (inp.exitWait > 0 || inp.mergeEnabled)
    && inp.cost.Some? && inp.cost.value > 0.0
  }

  /** Entry `i` is the first other asset held in the market of the position. */
  ghost predicate FirstOther(ps: seq<Position>, pos: Position, i: nat) {
    && i < |ps| && ps[i].cid == pos.cid && ps[i].asset != pos.asset && ps[i].size > 0
    && forall k | 0 <= k < i :: ps[k].cid != pos.cid || ps[k].asset == pos.asset || ps[k].size <= 0
  }

  /** Both sides hold enough for a merge of pairs, and the relayer can be used. */
  ghost predicate Mergeable(ps: seq<Position>, pos: Position, inp: RouteInputs, i: nat) {
    && FirstOther(ps, pos, i) && inp.mergeEnabled && inp.relayerOk
    && pos.size >= inp.minShares && ps[i].size >= inp.minShares
  }

  /** The loss per share has reached the stop: so many cents of a dollar, or so many
      percent of the cost; prices count ten-thousandths of a dollar. */
  ghost predicate AtStop(inp: RouteInputs) {
    && inp.cost.Some? && inp.bestBid.Some?
    && var loss := inp.cost.value - inp.bestBid.value as real;
       match inp.stopMode
       case Off => false
       case Fixed => loss >= 0.0 && loss >= 100.0 * inp.stopCents
       case Percent => loss >= 0.0 && 100.0 * loss >= inp.cost.value * inp.stopPercent
  }

  /** Some lot with a purchase time has been held for the whole maker wait. */
  ghost predicate WaitOver(lots: seq<Lot>, exitWait: int, now: int) {
    exists i :: 0 <= i < |lots| && lots[i].ts > 0 && now >= lots[i].ts + exitWait
  }

  lemma {:induction false} PairForFirst(ps: seq<Position>, pos: Position)
    ensures PairFor(ps, pos.cid, pos.asset).None? <==> forall i: nat :: !FirstOther(ps, pos, i)
    ensures PairFor(ps, pos.cid, pos.asset).Some? ==>
              exists i: nat :: FirstOther(ps, pos, i)
                               && PairFor(ps, pos.cid, pos.asset).value == (ps[i].asset, ps[i].size)
  {
    if ps == [] {
    } else if ps[0].cid == pos.cid && ps[0].asset != pos.asset && ps[0].size > 0 {
      assert FirstOther(ps, pos, 0);
    } else {
      PairForFirst(ps[1..], pos);
      forall i: nat | FirstOther(ps[1..], pos, i) ensures FirstOther(ps, pos, i + 1) {
        forall k | 0 <= k < i + 1 ensures ps[k].cid != pos.cid || ps[k].asset == pos.asset || ps[k].size <= 0 {
          if k > 0 { assert ps[k] == ps[1..][k - 1]; }
        }
      }
      forall i: nat | FirstOther(ps, pos, i) ensures i > 0 && FirstOther(ps[1..], pos, i - 1) {
        forall k | 0 <= k < i - 1
          ensures ps[1..][k].cid != pos.cid || ps[1..][k].asset == pos.asset || ps[1..][k].size <= 0
        {
          assert ps[1..][k] == ps[k + 1];
        }
      }
    }
  }

  lemma {:induction false} OneFirst(ps: seq<Position>, pos: Position, i: nat, j: nat)
    requires FirstOther(ps, pos, i) && FirstOther(ps, pos, j)
    ensures i == j
  {
  }

  lemma {:induction false} StopInPrices(inp: RouteInputs)
    requires inp.cost.Some? && inp.cost.value > 0.0
    ensures StopHit(inp.cost.value, inp) <==> AtStop(inp)
  {
    TakeProfit.StopInFigures(inp.cost.value, inp.stopPercent, inp.stopCents * 10_000.0);
  }

  lemma {:induction false} WaitInTimes(lots: seq<Lot>, exitWait: int, now: int)
    requires exitWait > 0
    ensures Deadline(lots, exitWait, now) <= now <==> WaitOver(lots, exitWait, now)
  {
    CostBasis.OldestIsLeast(lots);
  }

  /** Every route in exactly its case. An idle position merges its pair if it can;
      otherwise its exits are compared when it is at its stop, when there is no maker wait
      or when some lot has been held for the whole wait; otherwise it keeps its resting
      sell, rests one at the best ask, or waits for an ask. */
  lemma {:induction false} RouteExactly(pos: Position, ps: seq<Position>, busy: bool, resting: bool, inp: RouteInputs,
                                        now: int)
    ensures var c := RouteChoice(pos, ps, busy, resting, inp, now);
            var merging := exists i: nat :: Mergeable(ps, pos, inp, i);
            var compared := AtStop(inp) || inp.exitWait <= 0 || WaitOver(inp.lots, inp.exitWait, now);
            && (c.MergePair? <==> Idle(pos, busy, inp) && merging)
            && (forall i: nat | c.MergePair? && Mergeable(ps, pos, inp, i) ::
                  c == MergePair(ps[i].asset, if pos.size <= ps[i].size then pos.size else ps[i].size))
            && (c.Compare? <==> Idle(pos, busy, inp) && !merging && compared)
            && (c.MakerSell? <==> Idle(pos, busy, inp) && !merging && !compared && !resting
                                  && inp.bestAsk.Some? && inp.bestAsk.value > 0)
            && (c.MakerSell? ==> c.price == inp.bestAsk.value)
            && (c.Hold? <==> (busy && pos.size > 0 && pos.cid != "" && (inp.exitWait > 0 || inp.mergeEnabled))
                             || (Idle(pos, busy, inp) && !merging && !compared
                                 && (resting || inp.bestAsk.None? || inp.bestAsk.value <= 0)))
  {
    hide StopHit, AtStop, WaitOver, Deadline, PairFor, FirstOther;
    if Idle(pos, busy, inp) {
      StopInPrices(inp);
      if inp.exitWait > 0 { WaitInTimes(inp.lots, inp.exitWait, now); }
      PairForFirst(ps, pos);
      MergeableIsPair(pos, ps, inp);
    }
  }

  lemma {:induction false} MergeableIsPair(pos: Position, ps: seq<Position>, inp: RouteInputs)
    requires pos.size > 0
    ensures var pair := PairFor(ps, pos.cid, pos.asset);
            && ((exists i: nat :: Mergeable(ps, pos, inp, i))
                <==> inp.mergeEnabled && inp.relayerOk && pair.Some? && pos.size >= inp.minShares
                     && pair.value.1 >= inp.minShares)
            && (forall i: nat | Mergeable(ps, pos, inp, i) :: pair == Some((ps[i].asset, ps[i].size)))
            && (pair.Some? ==> pair.value.1 > 0)
  {
    hide PairFor;
    PairForFirst(ps, pos);
    if PairFor(ps, pos.cid, pos.asset).Some? {
      var i: nat :| FirstOther(ps, pos, i) && PairFor(ps, pos.cid, pos.asset).value == (ps[i].asset, ps[i].size);
      forall j: nat | FirstOther(ps, pos, j) ensures j == i { OneFirst(ps, pos, i, j); }
      assert Mergeable(ps, pos, inp, i)
        <==> inp.mergeEnabled && inp.relayerOk && pos.size >= inp.minShares && ps[i].size >= inp.minShares;
    }
  }

  /** On unchanged figures a position that has come to be compared stays so. */
  lemma {:induction false} WaitStaysOver(pos: Position, ps: seq<Position>, resting: bool, inp: RouteInputs,
                                         now: int, later: int, stillResting: bool)
    requires now <= later && RouteChoice(pos, ps, false, resting, inp, now).Compare?
    ensures RouteChoice(pos, ps, false, stillResting, inp, later).Compare?
  {
    hide RouteChoice;
    RouteExactly(pos, ps, false, resting, inp, now);
    RouteExactly(pos, ps, false, stillResting, inp, later);
  }

  function Complement(ps: seq<Position>, pos: Position, inp: RouteInputs): Option<string> {
    var pair := PairFor(ps, pos.cid, pos.asset);
    if pair.Some? then Some(pair.value.0) else inp.listedComplement
  }

  /** The better of the two exits on the books that were read. */
  datatype Exit = NoExit | BuyComplement(token: string, worst: int, floor: int) | SellDown(worst: int)

  function BestExit(pos: Position, ps: seq<Position>, inp: RouteInputs): Exit {
    if inp.bids.None? then NoExit
    else
      var direct := FakQuote(StableSort(inp.bids.value, LevelPriceDown), pos.size);
      if direct.None? then NoExit
      else
        var comp := Complement(ps, pos, inp);
        if inp.mergeEnabled && inp.relayerOk && comp.Some? && comp.value != "" && inp.asks.Some? then
          var q := QuoteOf(StableSort(inp.asks.value, LevelPrice), pos.size, direct.value.recovery,
                           inp.advantage, inp.minShares);
          if q.Feasible? then BuyComplement(comp.value, q.worst, direct.value.recovery + inp.advantage)
          else SellDown(direct.value.worst)
        else SellDown(direct.value.worst)
  }

  /** The token to complete the pair with: the first other asset held in the market, or
      else the one that is listed for it. */
  ghost predicate Completes(token: string, pos: Position, ps: seq<Position>, inp: RouteInputs) {
    || (exists i: nat :: FirstOther(ps, pos, i) && token == ps[i].asset)
    || ((forall i: nat :: !FirstOther(ps, pos, i)) && inp.listedComplement == Some(token))
  }

  lemma {:induction false} ComplementCompletes(pos: Position, ps: seq<Position>, inp: RouteInputs, token: string)
    ensures Complement(ps, pos, inp) == Some(token) <==> Completes(token, pos, ps, inp)
  {
    hide PairFor;
    PairForFirst(ps, pos);
    if PairFor(ps, pos.cid, pos.asset).Some? {
      var i: nat :| FirstOther(ps, pos, i) && PairFor(ps, pos.cid, pos.asset).value == (ps[i].asset, ps[i].size);
      forall j: nat | FirstOther(ps, pos, j) ensures j == i { OneFirst(ps, pos, i, j); }
    }
  }

  /** What selling the position into these bids recovers, best first. */
  ghost function SoldInto(bids: seq<Level>, size: int): seq<Take> {
    Sweep(StableSort(bids, LevelPriceDown), size, Any())
  }

  /** The pair can be completed with this token: merging is on and possible, both books
      are there, and the asks cover the position with their dearest share needed still
      paying the sale plus the advantage. */
  ghost predicate PaysToComplete(token: string, pos: Position, ps: seq<Position>, inp: RouteInputs) {
    && inp.mergeEnabled && inp.relayerOk && token != "" && Completes(token, pos, ps, inp)
    && inp.bids.Some? && SoldInto(inp.bids.value, pos.size) != []
    && inp.asks.Some?
    && var asks := StableSort(inp.asks.value, LevelPrice);
       && Coverable(asks, pos.size, inp.minShares)
       && var s := Cheapest(asks, pos.size);
          (DOLLAR - s[|s| - 1].price) * pos.size >= Money(SoldInto(inp.bids.value, pos.size)) + inp.advantage
  }

  /** Each exit in exactly its case, with its limit and what it must pay. */
  lemma {:induction false} ExitExactly(pos: Position, ps: seq<Position>, inp: RouteInputs)
    requires pos.size > 0
    ensures var x := BestExit(pos, ps, inp);
            && (x.NoExit? <==> inp.bids.None? || SoldInto(inp.bids.value, pos.size) == [])
            && (x.BuyComplement? <==> exists token :: PaysToComplete(token, pos, ps, inp))
            && (x.BuyComplement? ==>
                  && PaysToComplete(x.token, pos, ps, inp)
                  && x.worst == LastOf(Cheapest(StableSort(inp.asks.value, LevelPrice), pos.size))
                  && x.floor == Money(SoldInto(inp.bids.value, pos.size)) + inp.advantage)
            && (x.SellDown? ==> x.worst == LastOf(SoldInto(inp.bids.value, pos.size)))
  {
    hide Sweep, Depth, Money, Completes, Complement, QuoteOf;
    if inp.bids.Some? && SoldInto(inp.bids.value, pos.size) != [] {
      var direct := Money(SoldInto(inp.bids.value, pos.size));
      forall token ensures Complement(ps, pos, inp) == Some(token) <==> Completes(token, pos, ps, inp) {
        ComplementCompletes(pos, ps, inp, token);
      }
      if inp.asks.Some? {
        SortAscends(inp.asks.value);
        FeasibleExactly(StableSort(inp.asks.value, LevelPrice), pos.size, direct, inp.advantage, inp.minShares);
        QuotedWorst(StableSort(inp.asks.value, LevelPrice), pos.size, direct, inp.advantage, inp.minShares);
      }
      var x := BestExit(pos, ps, inp);
      if x.BuyComplement? { assert PaysToComplete(x.token, pos, ps, inp); }
      forall token | PaysToComplete(token, pos, ps, inp) ensures x.BuyComplement? {
        assert Complement(ps, pos, inp) == Some(token);
      }
    }
  }

  lemma {:induction false} QuotedWorst(asks: seq<Level>, size: int, direct: int, advantage: int, minShares: int)
    ensures var q := QuoteOf(asks, size, direct, advantage, minShares);
            q.Feasible? ==> q.levels != [] && q.worst == LastOf(q.levels)
  {
  }

  ghost function LastOf(s: seq<Take>): int
    requires s != []
  {
    s[|s| - 1].price
  }

  /** Choosing the complement pays: however the book moves meanwhile, a fill of the
      whole position at no more than the limit, merged, beats every way of selling into
      the bids that were read by at least the advantage asked for. */
  lemma {:induction false} ComplementBeatsEverySale(pos: Position, ps: seq<Position>, inp: RouteInputs,
                                                    fill: seq<Take>, x: seq<int>)
    requires BestExit(pos, ps, inp).BuyComplement?
    requires FilledAtOrBelow(fill, BestExit(pos, ps, inp).worst) && Qty(fill) == pos.size
    requires Allocation(x, StableSort(inp.bids.value, LevelPriceDown)) && Shares(x) <= pos.size
    ensures DOLLAR * pos.size - Money(fill)
            >= Proceeds(x, StableSort(inp.bids.value, LevelPriceDown)) + inp.advantage
  {
    var bids, asks := StableSort(inp.bids.value, LevelPriceDown), StableSort(inp.asks.value, LevelPrice);
    var direct := FakQuote(bids, pos.size).value.recovery;
    SortDescends(inp.bids.value);
    WalkRecoversMost(bids, pos.size, x);
    FeasibleFillPays(asks, pos.size, direct, inp.advantage, inp.minShares, fill);
  }

  function PairRowOf(wallet: string, pos: Position, other: string, q: int, yesCost: int, noCost: int): Row {
    Row(wallet, pos.cid, pos.asset, other, Pair, q, yesCost, noCost, "", "", "", Ready, 0, 0, 0, 0)
  }

  function FokRowOf(wallet: string, pos: Position, comp: string, yesCost: int): Row {
    Row(wallet, pos.cid, pos.asset, comp, FokMerge, pos.size, yesCost, 0, "", "", "", Ready, 0, 0, 0, 0)
  }

  /** What a confirmed pair merge books as profit exceeds one dollar a pair less what
      both inventories lose by exactly the legs that were not covered, so it is right if
      and only if each leg is covered by lots of known cost or holds nothing at all. */
  lemma {:induction false} PairProfitExactly(wallet: string, pos: Position, other: string, q: int,
                                             mine: seq<CostBasis.Fill>, others: seq<CostBasis.Fill>, otherSize: int,
                                             merges: seq<int>)
    requires CostBasis.PaidFor(mine) && CostBasis.PaidFor(others) && q > 0
    ensures var yesCost := MergeAccounting.BookedCost(CostBasis.CostLots(mine, pos.size, merges), q);
            var noCost := MergeAccounting.BookedCost(CostBasis.CostLots(others, otherSize, merges), q);
            var profit := ProfitOf(PairRowOf(wallet, pos, other, q, yesCost, noCost));
            var earned := DOLLAR * q - MergeAccounting.LostTo(mine, merges, q)
                          - MergeAccounting.LostTo(others, merges, q);
            && (var r := PairRowOf(wallet, pos, other, q, yesCost, noCost);
                r.yes == pos.asset && r.yesCost == yesCost && r.no == other && r.noCost == noCost)
            && profit == earned + MergeAccounting.Unbooked(mine, pos.size, merges, q)
                         + MergeAccounting.Unbooked(others, otherSize, merges, q)
            && profit >= earned
            && (profit == earned <==> LegRight(mine, pos.size, merges, q) && LegRight(others, otherSize, merges, q))
  {
    hide CostBasis.CostLots, CostBasis.Rebuild, MergeAccounting.LostTo, MergeAccounting.Covered;
    MergeAccounting.LegBookedExactly(mine, pos.size, merges, q);
    MergeAccounting.LegBookedExactly(others, otherSize, merges, q);
  }

  /** The leg is covered by lots of known cost, or holds nothing at all. */
  ghost predicate LegRight(fills: seq<CostBasis.Fill>, size: int, merges: seq<int>, q: int) {
    MergeAccounting.Covered(fills, size, merges, q) || CostBasis.Rebuild(fills, merges) == []
  }

  /** A completed pair books the bought side at nothing: the profit exceeds what was
      earned by all that was paid for it, and by the held side if that is not covered. */
  lemma {:induction false} FokProfitExactly(wallet: string, pos: Position, comp: string, paid: int,
                                            mine: seq<CostBasis.Fill>, merges: seq<int>)
    requires CostBasis.PaidFor(mine) && pos.size > 0 && paid >= 0
    ensures var yesCost := MergeAccounting.BookedCost(CostBasis.CostLots(mine, pos.size, merges), pos.size);
            var profit := ProfitOf(FokRowOf(wallet, pos, comp, yesCost));
            var earned := DOLLAR * pos.size - MergeAccounting.LostTo(mine, merges, pos.size) - paid;
            && profit == earned + paid + MergeAccounting.Unbooked(mine, pos.size, merges, pos.size)
            && (profit == earned <==> paid == 0 && LegRight(mine, pos.size, merges, pos.size))
  {
    hide CostBasis.CostLots, CostBasis.Rebuild, MergeAccounting.LostTo, MergeAccounting.Covered;
    MergeAccounting.LegBookedExactly(mine, pos.size, merges, pos.size);
  }

  // ---------------------------------------------------------------- a leg within tolerance but not covered

  /** One purchase of 99.5 shares at 40 cents. */
  function AlmostAll(): seq<CostBasis.Fill> { [CostBasis.Fill(CostBasis.Buy, 4000, 99_500_000, 1, "t", 0)] }

  function Hundred(asset: string): Position { Position(asset, "m", 100_000_000) }

  /** Reported as 100 shares it has a known cost, the router merges all of it as a pair,
      and books it at nothing although 39.80 dollars are lost. */
  lemma {:induction false} UncoveredLegBooksNothing(inp: RouteInputs, now: int)
    requires inp.mergeEnabled && inp.relayerOk && inp.minShares <= 100_000_000 && inp.cost == Some(4000.0)
    ensures CostBasis.CostKnown(AlmostAll(), 100_000_000, [])
    ensures var q := CostBasis.CostLots(AlmostAll(), 100_000_000, []);
            Value(q) as real / Total(q) as real == 4000.0
            && MergeAccounting.BookedCost(q, 100_000_000) == 0
    ensures MergeAccounting.LostTo(AlmostAll(), [], 100_000_000) == 4000 * 99_500_000
    ensures RouteChoice(Hundred("Y"), [Hundred("Y"), Hundred("N")], false, false, inp, now)
         == MergePair("N", 100_000_000)
  {
    AlmostAllRebuilt();
    MergeAccounting.ReserveMatchesRebuild(AlmostAll(), [], 100_000_000);
    var ps := [Hundred("Y"), Hundred("N")];
    assert "Y"[0] != "N"[0] && ps[1..] == [Hundred("N")];
    assert PairFor(ps, "m", "Y") == PairFor(ps[1..], "m", "Y");
  }

  lemma {:induction false} AlmostAllRebuilt()
    ensures CostBasis.Rebuild(AlmostAll(), []) == [Lot(4000, 99_500_000, 1, "t")]
    ensures Total([Lot(4000, 99_500_000, 1, "t")]) == 99_500_000
    ensures Value([Lot(4000, 99_500_000, 1, "t")]) == 4000 * 99_500_000
  {
    var f, l := AlmostAll()[0], [Lot(4000, 99_500_000, 1, "t")];
    SortAppendsLatest([], f, CostBasis.FillTs);
    assert [] + [f] == AlmostAll() && AlmostAll()[..0] == [];
    assert [] + l == l && l[1..] == [];
  }

  /** The reserved row once the FOK call has been answered. */
  function AfterFok(r: Row, reply: FokReply, now: int): Row {
    match reply
    case Rejected => Failing(r, now)
    case Lost => r
    case Answer(status, id) =>
      WithStatus(if id != "" then RowAfter(r, StoreOrder(0, id, now)) else r, status, now)
  }

  function WithStatus(r: Row, status: FokStatus, now: int): Row {
    match status
    case MatchedNow => WithComp(r, "matched", now)
    case DelayedFill => WithComp(r, "delayed", now)
    case OddStatus => Failing(r, now)
  }

  predicate SellOf(o: OpenOrder, asset: string) { o.isSell && o.asset == asset }

  /** A sell that can be cancelled; one without an id cannot. */
  predicate Cancellable(o: OpenOrder, asset: string) { SellOf(o, asset) && o.id != "" }

  predicate IsOpen(orders: seq<OpenOrder>, id: string) {
    exists o :: o in orders && o.id == id
  }

  /** The managed sell of the asset is among the orders. */
  predicate RestingIn(managed: map<string, string>, orders: seq<OpenOrder>, asset: string) {
    asset in managed && IsOpen(orders, managed[asset])
  }

  predicate HasSell(orders: seq<OpenOrder>, asset: string) {
    exists o :: o in orders && Cancellable(o, asset)
  }

  /** The orders that are not sells of the asset, in their order. */
  function Others(orders: seq<OpenOrder>, asset: string): (r: seq<OpenOrder>)
    ensures forall o | o in r :: o in orders && !SellOf(o, asset)
  {
    if orders == [] then []
    else
      var o := orders[|orders| - 1];
      Others(orders[..|orders| - 1], asset) + if SellOf(o, asset) then [] else [o]
  }

  /** The open orders once the sells of an asset have been cancelled. */
  function Forgotten(orders: seq<OpenOrder>, asset: string): seq<OpenOrder> {
    if HasSell(orders, asset) then Others(orders, asset) else orders
  }

  /** The managed sells once the sells of an asset have been cancelled. */
  function AfterCancel(managed: map<string, string>, orders: seq<OpenOrder>, asset: string): map<string, string> {
    if HasSell(orders, asset) then managed - {asset} else managed
  }

  /** The sells of the asset are forgotten: if one of them has an id, every order but the
      sells of the asset stays and the managed sell of the asset goes; otherwise nothing
      changes. */
  ghost predicate Clears(was: seq<OpenOrder>, orders: seq<OpenOrder>, wasManaged: map<string, string>,
                         managed: map<string, string>, asset: string)
  {
    if exists s :: s in was && s.isSell && s.asset == asset && s.id != "" then
      && (forall o :: o in orders <==> o in was && !(o.isSell && o.asset == asset))
      && (forall a :: a in managed <==> a in wasManaged && a != asset)
      && (forall a | a in managed :: managed[a] == wasManaged[a])
    else orders == was && managed == wasManaged
  }

  lemma {:induction false} ForgottenClears(orders: seq<OpenOrder>, managed: map<string, string>, asset: string)
    ensures Clears(orders, Forgotten(orders, asset), managed, AfterCancel(managed, orders, asset), asset)
  {
    forall o | o in orders && !(o.isSell && o.asset == asset) ensures o in Others(orders, asset) {
      OthersKeep(orders, asset, o);
    }
    forall o | o in Others(orders, asset) ensures o in orders && !(o.isSell && o.asset == asset) {}
    if s :| s in orders && s.isSell && s.asset == asset && s.id != "" {
      assert Cancellable(s, asset);
    } else {
      forall o | o in orders ensures !Cancellable(o, asset) {}
    }
  }

  /** The open orders and managed sells once a position has been routed. A maker sell
      replaces the sells of the asset and is managed if it came back with an id; a sale
      clears them, and so does a comparison when a sell still rests though its wait is over
      (`due`), which is no longer managed then; otherwise nothing changes. The orders
      after a merge or the purchase of a complement are not stated here. */
  ghost predicate OrdersAfter(choice: Choice, exit: Exit, sell: SellReply, due: bool, was: seq<OpenOrder>,
                              orders: seq<OpenOrder>, wasManaged: map<string, string>, managed: map<string, string>,
                              asset: string)
  {
    match choice
    case MakerSell(_) =>
      if sell.SellAs? && sell.id != "" then
        && Clears(was, orders, wasManaged - {asset}, managed - {asset}, asset)
        && asset in managed && managed[asset] == sell.id
      else Clears(was, orders, wasManaged, managed, asset)
    case Compare =>
      exit.BuyComplement?
      || if due || exit.SellDown? then
           Clears(was, orders, if due then wasManaged - {asset} else wasManaged, managed, asset)
         else orders == was && managed == wasManaged
    case MergePair(_, _) => true
    case _ => orders == was && managed == wasManaged
  }

  lemma {:induction false} OrdersKept(exit: Exit, sell: SellReply, orders: seq<OpenOrder>,
                                      managed: map<string, string>, asset: string)
    ensures forall choice: Choice, due: bool | choice.Decline? || choice.Hold? ::
              OrdersAfter(choice, exit, sell, due, orders, orders, managed, managed, asset)
    ensures forall choice: Choice, due: bool, next: seq<OpenOrder>, held: map<string, string> | choice.MergePair? ::
              OrdersAfter(choice, exit, sell, due, orders, next, managed, held, asset)
  {
  }

  lemma {:induction false} OrdersReplaced(price: int, exit: Exit, sell: SellReply, orders: seq<OpenOrder>,
                                          managed: map<string, string>, asset: string)
    ensures var cleared := AfterCancel(managed, orders, asset);
            var next := if sell.SellAs? && sell.id != "" then cleared[asset := sell.id] else cleared;
            forall due: bool ::
              OrdersAfter(MakerSell(price), exit, sell, due, orders, Forgotten(orders, asset), managed, next, asset)
  {
    hide Clears;
    ForgottenClears(orders, managed, asset);
    ForgottenClears(orders, managed - {asset}, asset);
    if sell.SellAs? {
      assert AfterCancel(managed, orders, asset)[asset := sell.id] - {asset}
          == AfterCancel(managed - {asset}, orders, asset);
    }
  }

  lemma {:induction false} OrdersCompared(exit: Exit, sell: SellReply, due: bool, orders: seq<OpenOrder>,
                                          managed: map<string, string>, asset: string)
    ensures var left := if due then Forgotten(orders, asset) else orders;
            var held := if due then AfterCancel(managed, orders, asset) - {asset} else managed;
            && (exit.NoExit? ==> OrdersAfter(Compare, exit, sell, due, orders, left, managed, held, asset))
            && (exit.SellDown? ==> OrdersAfter(Compare, exit, sell, due, orders, Forgotten(left, asset), managed,
                                               AfterCancel(held, left, asset), asset))
            && (exit.BuyComplement? ==>
                  forall o, m :: OrdersAfter(Compare, exit, sell, due, orders, o, managed, m, asset))
  {
    hide Clears;
    ForgottenClears(orders, managed, asset);
    ForgottenClears(orders, managed - {asset}, asset);
    ForgetTwice(orders, managed, asset);
  }

  /** Orders and managed sells may only have gone. */
  ghost predicate Fewer(was: seq<OpenOrder>, orders: seq<OpenOrder>, wasManaged: map<string, string>,
                        managed: map<string, string>)
  {
    && (forall o | o in orders :: o in was)
    && (forall a | a in managed :: a in wasManaged && managed[a] == wasManaged[a])
  }

  lemma {:induction false} FewerTwice(orders: seq<OpenOrder>, managed: map<string, string>, yes: string, no: string)
    ensures Fewer(orders, Forgotten(Forgotten(orders, yes), no), managed,
                  AfterCancel(AfterCancel(managed, orders, yes), Forgotten(orders, yes), no))
  {
  }

  /** Forgetting them again changes nothing. */
  lemma {:induction false} ForgetTwice(orders: seq<OpenOrder>, managed: map<string, string>, asset: string)
    ensures Forgotten(Forgotten(orders, asset), asset) == Forgotten(orders, asset)
    ensures AfterCancel(managed, orders, asset) - {asset} == AfterCancel(managed - {asset}, orders, asset)
    ensures AfterCancel(AfterCancel(managed, orders, asset) - {asset}, Forgotten(orders, asset), asset)
         == AfterCancel(managed - {asset}, orders, asset)
  {
    if HasSell(orders, asset) {
      forall o | o in Others(orders, asset) ensures !Cancellable(o, asset) {}
    }
  }

  lemma {:induction false} OthersKeep(orders: seq<OpenOrder>, asset: string, o: OpenOrder)
    requires o in orders && !(o.isSell && o.asset == asset)
    ensures o in Others(orders, asset)
  {
    var n := |orders| - 1;
    if o != orders[n] {
      assert orders == orders[..n] + [orders[n]];
      OthersKeep(orders[..n], asset, o);
    }
  }

  /** The managed sell of the asset is still among the open orders. */
  ghost predicate StillRests(managed: map<string, string>, orders: seq<OpenOrder>, asset: string) {
    asset in managed && exists o :: o in orders && o.id == managed[asset]
  }

  /** A complement is bought and its reply is lost. */
  predicate LosesFok(choice: Choice, pos: Position, ps: seq<Position>, inp: RouteInputs) {
    choice.Compare? && BestExit(pos, ps, inp).BuyComplement? && inp.fok.Lost?
  }

  /** Positions the router leaves to the monitor without looking at events. */
  predicate RoutedAway(pos: Position, inp: RouteInputs) {
    pos.size <= 0 || pos.cid == "" || (inp.exitWait <= 0 && !inp.mergeEnabled)
  }
}
