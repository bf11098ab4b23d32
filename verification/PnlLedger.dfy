/** The daily ledger of a wallet: rewards, realised sales and confirmed merges are
    recomputed from their sources and written over the stored days. Ledger amounts
    count ten-thousandths of an inventory value unit, the precision of a fee. */
module PnlLedger {
  import opened Fifo
  import opened Sorting
  import opened Wrappers
  import opened CostBasis
  import opened Pnl
  import opened MergeEvents

  /** Ledger units in one inventory value unit. */
  const UNIT := 10_000

  datatype Income = Income(reward: int, rebate: int)

  datatype PnlRow = PnlRow(reward: int, rebate: int, sellProfit: int, loss: int, fee: int, mergePnl: int, net: int)

  function MakeRow(i: Income, z: DayPnl, mergePnl: int): PnlRow {
    PnlRow(i.reward, i.rebate, UNIT * z.profit, UNIT * z.loss, z.fee, UNIT * mergePnl,
           i.reward + i.rebate + UNIT * z.profit + UNIT * mergePnl - UNIT * z.loss - z.fee)
  }

  class DailyPnl {
    var rows: map<(string, int), PnlRow>

    constructor ()
      ensures rows == map[]
    {
      rows := map[];
    }

    /** Writes the day's row, replacing one that is there. */
    method UpsertDailyPnl(wallet: string, day: int, i: Income, z: DayPnl, mergePnl: int)
      modifies this
      ensures rows == old(rows)[(wallet, day) := MakeRow(i, z, mergePnl)]
    {
      rows := rows[(wallet, day) := MakeRow(i, z, mergePnl)];
    }
  }

  /** Profit postings of confirmed merges, on the day they were confirmed. */
  function MergePostings(events: seq<Row>): seq<Posting> {
    if events == [] then []
    else
      var e := events[|events| - 1];
      MergePostings(events[..|events| - 1]) + [Posting(BeijingDay(e.confirmedAt), e.pnl)]
  }

  function Amount(m: map<int, int>, d: int): int { if d in m then m[d] else 0 }

  method MergePnlByDay(events: seq<Row>) returns (out: map<int, int>)
    ensures forall d :: Amount(out, d) == DaySum(MergePostings(events), d)
  {
    out := map[];
    for i := 0 to |events|
      invariant forall d :: Amount(out, d) == DaySum(MergePostings(events[..i]), d)
    {
      var e := events[i];
      assert events[..i + 1][..i] == events[..i];
      var ps := MergePostings(events[..i]);
      assert MergePostings(events[..i + 1]) == ps + [Posting(BeijingDay(e.confirmedAt), e.pnl)];
      forall d: int ensures DaySum(MergePostings(events[..i + 1]), d)
                    == DaySum(ps, d) + (if BeijingDay(e.confirmedAt) == d then e.pnl else 0)
      {
        SumsAppend(ps, Posting(BeijingDay(e.confirmedAt), e.pnl), d);
      }
      out := out[BeijingDay(e.confirmedAt) := Amount(out, BeijingDay(e.confirmedAt)) + e.pnl];
    }
    assert events[..|events|] == events;
  }

  function Plus(a: DayPnl, b: DayPnl): DayPnl { DayPnl(a.profit + b.profit, a.loss + b.loss, a.fee + b.fee) }

  /** Day `d` over all traded assets. */
  ghost function AssetsDay(assets: seq<seq<Fill>>, d: int): DayPnl {
    if assets == [] then QUIET
    else
      var x, y := AssetsDay(assets[..|assets| - 1], d), DayOf(StableSort(assets[|assets| - 1], FillTs), d);
      DayPnl(y.profit + x.profit, y.loss + x.loss, y.fee + x.fee)
  }

  /** Adds one asset's days into the running totals. */
  method AddDays(total: map<int, DayPnl>, days: map<int, DayPnl>) returns (sum: map<int, DayPnl>)
    ensures forall d :: Get(sum, d) == Plus(Get(total, d), Get(days, d))
  {
    sum := map d | d in total.Keys + days.Keys :: Plus(Get(total, d), Get(days, d));
  }

  function IncomeOf(m: map<int, Income>, d: int): Income { if d in m then m[d] else Income(0, 0) }

  /** The row day `d` must hold, in ledger units: income, gains, losses, fees and merge
      profit of the day, and their balance. */
  ghost function Expected(income: map<int, Income>, assets: seq<seq<Fill>>, merges: seq<Row>, d: int): PnlRow {
    var z, merged := AssetsDay(assets, d), DaySum(MergePostings(merges), d);
    var reward, rebate := if d in income then income[d].reward else 0, if d in income then income[d].rebate else 0;
    PnlRow(reward, rebate, 10_000 * z.profit, 10_000 * z.loss, z.fee, 10_000 * merged,
           10_000 * (z.profit - z.loss + merged) + (reward + rebate) - z.fee)
  }

  /** `after` is `before` with the wallet's days `from..to` recomputed. */
  ghost predicate IsRebuilt(before: map<(string, int), PnlRow>, after: map<(string, int), PnlRow>, wallet: string,
                            from: int, to: int, income: map<int, Income>, assets: seq<seq<Fill>>, merges: seq<Row>)
  {
    forall w: string, d: int ::
      if w == wallet && from <= d <= to then
        (w, d) in after && after[(w, d)] == Expected(income, assets, merges, d)
      else
        ((w, d) in after <==> (w, d) in before) && ((w, d) in after ==> after[(w, d)] == before[(w, d)])
  }

  method RebuildWalletPnl(table: DailyPnl, events: EventTable, wallet: string, from: int, to: int,
                          income: map<int, Income>, assets: seq<seq<Fill>>)
    modifies table
    ensures IsRebuilt(old(table.rows), table.rows, wallet, from, to, income, assets,
                      ConfirmedRows(events.rows, Some(wallet)))
  {
    hide AssetsDay, DaySum, MergePostings, ConfirmedRows, ConfirmedInTime;
    var realized := SumAssets(assets);
    var confirmed := events.GetConfirmedMergeEvents(Some(wallet));
    var merged := MergePnlByDay(confirmed);
    var d := from;
    while d <= to
      invariant from <= d
      invariant d <= to + 1 || d == from
      invariant IsRebuilt(old(table.rows), table.rows, wallet, from, d - 1, income, assets, confirmed)
    {
      assert Get(realized, d) == AssetsDay(assets, d);
      assert Amount(merged, d) == DaySum(MergePostings(confirmed), d);
      ghost var mid := table.rows;
      table.UpsertDailyPnl(wallet, d, IncomeOf(income, d), Get(realized, d), Amount(merged, d));
      RebuiltOneMore(old(table.rows), mid, wallet, from, d, income, assets, confirmed);
      d := d + 1;
    }
    NothingBeyond(old(table.rows), table.rows, wallet, from, d - 1, to, income, assets, confirmed);
  }

  method SumAssets(assets: seq<seq<Fill>>) returns (realized: map<int, DayPnl>)
    ensures forall d :: Get(realized, d) == AssetsDay(assets, d)
  {
    realized := map[];
    for i := 0 to |assets|
      invariant forall d :: Get(realized, d) == AssetsDay(assets[..i], d)
    {
      var days, lots := RealizedPnlByDay(assets[i]);
      ghost var before := realized;
      realized := AddDays(realized, days);
      forall d ensures Get(realized, d) == AssetsDay(assets[..i + 1], d) {
        AssetsDayStep(assets, i, d);
        assert Get(before, d) == AssetsDay(assets[..i], d);
      }
    }
    assert assets[..|assets|] == assets;
  }

  lemma {:induction false} AssetsDayStep(assets: seq<seq<Fill>>, i: nat, d: int)
    requires i < |assets|
    ensures AssetsDay(assets[..i + 1], d) == Plus(AssetsDay(assets[..i], d), DayOf(StableSort(assets[i], FillTs), d))
  {
    assert assets[..i + 1][..i] == assets[..i];
  }

  lemma {:induction false} RebuiltOneMore(before: map<(string, int), PnlRow>, mid: map<(string, int), PnlRow>,
                                          wallet: string, from: int, d: int, income: map<int, Income>,
                                          assets: seq<seq<Fill>>, merges: seq<Row>)
    requires from <= d && IsRebuilt(before, mid, wallet, from, d - 1, income, assets, merges)
    ensures IsRebuilt(before, mid[(wallet, d) := Expected(income, assets, merges, d)], wallet, from, d,
                      income, assets, merges)
  {
  }

  lemma {:induction false} NothingBeyond(before: map<(string, int), PnlRow>,
                                         after: map<(string, int), PnlRow>, wallet: string, from: int,
                                         last: int, to: int, income: map<int, Income>, assets: seq<seq<Fill>>,
                                         merges: seq<Row>)
    requires IsRebuilt(before, after, wallet, from, last, income, assets, merges)
    requires last == to || (to < from && last < from)
    ensures IsRebuilt(before, after, wallet, from, to, income, assets, merges)
  {
  }

  /** Rebuilding again from the same sources changes nothing. */
  lemma {:induction false} RebuildIsIdempotent(a: map<(string, int), PnlRow>, b: map<(string, int), PnlRow>,
                                               c: map<(string, int), PnlRow>, wallet: string, from: int,
                                               to: int, income: map<int, Income>, assets: seq<seq<Fill>>,
                                               merges: seq<Row>)
    requires IsRebuilt(a, b, wallet, from, to, income, assets, merges)
    requires IsRebuilt(b, c, wallet, from, to, income, assets, merges)
    ensures b == c
  {
    forall k ensures (k in b <==> k in c) && (k in b ==> b[k] == c[k]) {
      var (w, d) := k;
      assert (w, d) == k;
    }
  }

  // ---------------------------------------------------------------- the ledger adds up

  ghost function NetTotal(income: map<int, Income>, assets: seq<seq<Fill>>, merges: seq<Row>, lo: int, hi: int): int
    decreases hi - lo
  {
    if lo >= hi then 0 else Expected(income, assets, merges, lo).net + NetTotal(income, assets, merges, lo + 1, hi)
  }

  ghost function IncomeTotal(income: map<int, Income>, lo: int, hi: int): int
    decreases hi - lo
  {
    if lo >= hi then 0
    else (if lo in income then income[lo].reward + income[lo].rebate else 0) + IncomeTotal(income, lo + 1, hi)
  }

  ghost function FeeTotal(assets: seq<seq<Fill>>, lo: int, hi: int): int
    decreases hi - lo
  {
    if lo >= hi then 0 else AssetsDay(assets, lo).fee + FeeTotal(assets, lo + 1, hi)
  }

  ghost function SalesTotal(assets: seq<seq<Fill>>, lo: int, hi: int): int
    decreases hi - lo
  {
    if lo >= hi then 0
    else AssetsDay(assets, lo).profit - AssetsDay(assets, lo).loss + SalesTotal(assets, lo + 1, hi)
  }

  lemma {:induction false} NetSplits(income: map<int, Income>, assets: seq<seq<Fill>>, merges: seq<Row>,
                                     lo: int, hi: int)
    ensures NetTotal(income, assets, merges, lo, hi)
         == IncomeTotal(income, lo, hi) + UNIT * SalesTotal(assets, lo, hi)
            + UNIT * RangeSum(MergePostings(merges), lo, hi) - FeeTotal(assets, lo, hi)
    decreases hi - lo
  {
    if lo < hi { NetSplits(income, assets, merges, lo + 1, hi); }
  }

  lemma {:induction false} SalesTotalStep(assets: seq<seq<Fill>>, lo: int, hi: int)
    requires assets != []
    ensures SalesTotal(assets, lo, hi)
         == SalesTotal(assets[..|assets| - 1], lo, hi) + NetOver(StableSort(assets[|assets| - 1], FillTs), lo, hi)
    decreases hi - lo
  {
    if lo < hi { SalesTotalStep(assets, lo + 1, hi); }
  }

  lemma {:induction false} NoSales(lo: int, hi: int)
    ensures SalesTotal([], lo, hi) == 0
    decreases hi - lo
  {
    if lo < hi { NoSales(lo + 1, hi); }
  }

  /** What the sales of all assets earned: proceeds less the cost of what is gone. */
  ghost function TradingGain(assets: seq<seq<Fill>>): int {
    if assets == [] then 0
    else
      var a := assets[|assets| - 1];
      TradingGain(assets[..|assets| - 1])
      + MatchedProceeds(StableSort(a, FillTs)) - (Value(Bought(StableSort(a, FillTs))) - Value(Rebuild(a, [])))
  }

  lemma {:induction false} SalesAreTradingGain(assets: seq<seq<Fill>>, lo: int, hi: int)
    requires forall a | a in assets :: Covers(lo, hi, a)
    ensures SalesTotal(assets, lo, hi) == TradingGain(assets)
  {
    if assets == [] {
      NoSales(lo, hi);
    } else {
      SalesAreTradingGain(assets[..|assets| - 1], lo, hi);
      SalesTotalStep(assets, lo, hi);
      LedgerConserves(assets[|assets| - 1], lo, hi);
    }
  }

  lemma {:induction false} MergeSum(events: seq<Row>)
    ensures AllSum(MergePostings(events)) == MergeProfit(events)
    ensures forall p | p in MergePostings(events) :: exists e :: e in events && p.day == BeijingDay(e.confirmedAt)
  {
    if events != [] {
      var init, e := events[..|events| - 1], events[|events| - 1];
      MergeSum(init);
      SumsAppend(MergePostings(init), Posting(BeijingDay(e.confirmedAt), e.pnl), 0);
      forall p | p in MergePostings(events) ensures exists x :: x in events && p.day == BeijingDay(x.confirmedAt) {
        if p in MergePostings(init) {
          var x :| x in init && p.day == BeijingDay(x.confirmedAt);
          assert x in events;
        } else {
          assert e in events;
        }
      }
    }
  }

  function MergeProfit(events: seq<Row>): int {
    if events == [] then 0 else MergeProfit(events[..|events| - 1]) + events[|events| - 1].pnl
  }

  /** Over a window that covers everything, the stored net is income, plus what the
      sales earned, plus the profit of each confirmed merge once, less fees. */
  lemma {:induction false} LedgerAddsUp(income: map<int, Income>, assets: seq<seq<Fill>>, merges: seq<Row>,
                                        lo: int, hi: int)
    requires lo <= hi && forall a | a in assets :: Covers(lo, hi, a)
    requires forall e | e in merges :: lo <= BeijingDay(e.confirmedAt) < hi
    ensures NetTotal(income, assets, merges, lo, hi)
         == IncomeTotal(income, lo, hi) + UNIT * (TradingGain(assets) + MergeProfit(merges)) - FeeTotal(assets, lo, hi)
  {
    NetSplits(income, assets, merges, lo, hi);
    SalesAreTradingGain(assets, lo, hi);
    MergeSum(merges);
    forall p | p in MergePostings(merges) ensures lo <= p.day < hi {
      var e :| e in merges && p.day == BeijingDay(e.confirmedAt);
    }
    BucketsAddUp(MergePostings(merges), lo, hi);
  }
}
