/** Realised profit of one asset by UTC+8 day, and the wallet ledger built on it. */
module Pnl {
  import opened Fifo
  import opened Sorting
  import opened CostBasis

  /** An amount booked on a day. */
  datatype Posting = Posting(day: int, amount: int)

  datatype DayPnl = DayPnl(profit: int, loss: int, fee: int)

  const QUIET := DayPnl(0, 0, 0)

  /** UTC+8 calendar day of an epoch second. */
  function BeijingDay(ts: int): int { (ts + 8 * 3600) / 86400 }

  /** Taker fee; a ten-thousandth of it is the fee in inventory value units. */
  function Fee(f: Fill): int {
    if f.feeBps <= 0 then 0 else f.feeBps * f.price * f.size
  }

  function DaySum(ps: seq<Posting>, d: int): int {
    if ps == [] then 0
    else DaySum(ps[..|ps| - 1], d) + (if ps[|ps| - 1].day == d then ps[|ps| - 1].amount else 0)
  }

  ghost function AllSum(ps: seq<Posting>): int {
    if ps == [] then 0 else AllSum(ps[..|ps| - 1]) + ps[|ps| - 1].amount
  }

  /** Sum of the day sums over `lo <= d < hi`. */
  ghost function RangeSum(ps: seq<Posting>, lo: int, hi: int): int
    decreases hi - lo
  {
    if lo >= hi then 0 else DaySum(ps, lo) + RangeSum(ps, lo + 1, hi)
  }

  lemma {:induction false} RangeSumStep(ps: seq<Posting>, p: Posting, lo: int, hi: int)
    requires lo <= hi
    ensures RangeSum(ps + [p], lo, hi) == RangeSum(ps, lo, hi) + (if lo <= p.day < hi then p.amount else 0)
    decreases hi - lo
  {
    assert (ps + [p])[..|ps|] == ps;
    if lo < hi { RangeSumStep(ps, p, lo + 1, hi); }
  }

  lemma {:induction false} RangeSumEmpty(lo: int, hi: int)
    ensures RangeSum([], lo, hi) == 0
    decreases hi - lo
  {
    if lo < hi { RangeSumEmpty(lo + 1, hi); }
  }

  /** Bucketing by day loses nothing: over a window that covers every posting the
      buckets add up to the whole. */
  lemma {:induction false} BucketsAddUp(ps: seq<Posting>, lo: int, hi: int)
    requires lo <= hi && forall p | p in ps :: lo <= p.day < hi
    ensures RangeSum(ps, lo, hi) == AllSum(ps)
  {
    if ps == [] {
      RangeSumEmpty(lo, hi);
    } else {
      var init, p := ps[..|ps| - 1], ps[|ps| - 1];
      assert ps == init + [p];
      BucketsAddUp(init, lo, hi);
      RangeSumStep(init, p, lo, hi);
    }
  }

  /** Profit of one fill against the queue it meets; only sells have any. */
  ghost function SaleProfit(q: seq<Lot>, f: Fill): int {
    if f.size > 0 && f.side.Sell? then Realized(q, f.price, f.size) else 0
  }

  /** Day `d` begins eight hours before it does at UTC, and lasts 24 hours. */
  ghost predicate OnDay(ts: int, d: int) { 86_400 * d <= ts + 28_800 && ts + 28_800 < 86_400 * (d + 1) }

  lemma {:induction false} DayHolds(ts: int, d: int)
    ensures BeijingDay(ts) == d <==> OnDay(ts, d)
  {
  }

  /** Day `d` after one more fill: gains, losses and fees are kept apart. A fill with a
      rate pays so many ten-thousandths of its price times its size; only sells gain or
      lose. */
  ghost function Booked(was: DayPnl, q: seq<Lot>, f: Fill, d: int): DayPnl {
    if !OnDay(f.ts, d) then was
    else
      var r := if f.side == Sell && f.size > 0 then Realized(q, f.price, f.size) else 0;
      var fee := if f.feeBps > 0 then f.price * f.size * f.feeBps else 0;
      DayPnl(was.profit + if r > 0 then r else 0, was.loss + if r < 0 then -r else 0, was.fee + fee)
  }

  ghost function DayOf(fs: seq<Fill>, d: int): DayPnl {
    if fs == [] then QUIET
    else Booked(DayOf(fs[..|fs| - 1], d), Replay(fs[..|fs| - 1]), fs[|fs| - 1], d)
  }

  function Get(m: map<int, DayPnl>, d: int): DayPnl {
    if d in m then m[d] else QUIET
  }

  /** Profit by day of one asset. A day appears exactly when something was booked. */
  method RealizedPnlByDay(fills: seq<Fill>) returns (out: map<int, DayPnl>, lots: seq<Lot>)
    ensures forall d :: Get(out, d) == DayOf(StableSort(fills, FillTs), d)
    ensures forall d :: d in out ==> out[d] != QUIET
    ensures lots == Replay(StableSort(fills, FillTs))
  {
    var ordered := StableSort(fills, FillTs);
    var all: map<int, DayPnl> := map[];
    lots := [];
    for i := 0 to |ordered|
      invariant lots == Replay(ordered[..i])
      invariant forall d :: Get(all, d) == DayOf(ordered[..i], d)
    {
      assert ordered[..i + 1][..i] == ordered[..i];
      all, lots := BookFill(all, lots, ordered[i]);
    }
    assert ordered[..|ordered|] == ordered;
    out := map d | d in all && all[d] != QUIET :: all[d];
  }

  /** The loop body: fee first, then the queue or the offsetting sale. */
  method BookFill(was: map<int, DayPnl>, q: seq<Lot>, f: Fill) returns (all: map<int, DayPnl>, lots: seq<Lot>)
    ensures lots == Step(q, f)
    ensures forall d :: Get(all, d) == Booked(Get(was, d), q, f, d)
  {
    hide OnDay, BeijingDay;
    all, lots := was, q;
    var day, fee := BeijingDay(f.ts), Fee(f);
    forall d ensures OnDay(f.ts, d) <==> d == day { DayHolds(f.ts, d); }
    if fee != 0 {
      all := all[day := Get(all, day).(fee := Get(all, day).fee + fee)];
    }
    if f.size > 0 {
      if f.side == Buy {
        lots := lots + [LotOf(f)];
      } else if f.side == Sell {
        var realized, matched;
        realized, matched, lots := MatchSale(lots, f.price, f.size);
        if matched {
          var today := Get(all, day);
          if realized >= 0 {
            all := all[day := today.(profit := today.profit + realized)];
          } else {
            all := all[day := today.(loss := today.loss - realized)];
          }
        }
      }
    }
  }

  /** Offsets one sale against the oldest lots. */
  method MatchSale(q: seq<Lot>, price: int, size: int) returns (realized: int, matched: bool, lots: seq<Lot>)
    ensures realized == Realized(q, price, size)
    ensures lots == Consume(q, size)
    ensures matched <==> q != [] && size > 0
  {
    realized, matched, lots := 0, false, q;
    var qty := size;
    while qty > 0 && lots != []
      invariant realized + Realized(lots, price, qty) == Realized(q, price, size)
      invariant Consume(lots, qty) == Consume(q, size)
      invariant matched || (lots == q && qty == size)
      invariant matched ==> q != [] && size > 0
      decreases |lots|, qty
    {
      var take := Min(lots[0].take, qty);
      realized := realized + (price - lots[0].price) * take;
      qty := qty - take;
      matched := true;
      if lots[0].take - take <= 0 {
        lots := lots[1..];
      } else {
        lots := [lots[0].(take := lots[0].take - take)] + lots[1..];
        break;
      }
    }
  }

  // ---------------------------------------------------------------- conservation

  /** One posting per fill: its profit, on its day. */
  ghost function Sales(fs: seq<Fill>): seq<Posting> {
    if fs == [] then []
    else
      var p, f := fs[..|fs| - 1], fs[|fs| - 1];
      Sales(p) + [Posting(BeijingDay(f.ts), SaleProfit(Replay(p), f))]
  }

  lemma {:induction false} SumsAppend(ps: seq<Posting>, x: Posting, d: int)
    ensures DaySum(ps + [x], d) == DaySum(ps, d) + (if x.day == d then x.amount else 0)
    ensures AllSum(ps + [x]) == AllSum(ps) + x.amount
  {
    assert (ps + [x])[..|ps|] == ps;
  }

  lemma {:induction false} DayNet(fs: seq<Fill>, d: int)
    ensures DayOf(fs, d).profit - DayOf(fs, d).loss == DaySum(Sales(fs), d)
    ensures DayOf(fs, d).profit >= 0 && DayOf(fs, d).loss >= 0
  {
    if fs != [] {
      var p, f := fs[..|fs| - 1], fs[|fs| - 1];
      DayNet(p, d);
      SumsAppend(Sales(p), Posting(BeijingDay(f.ts), SaleProfit(Replay(p), f)), d);
    }
  }

  /** Proceeds of the shares that sells could be matched against. */
  ghost function MatchedProceeds(fs: seq<Fill>): int {
    if fs == [] then 0
    else
      var p, f := fs[..|fs| - 1], fs[|fs| - 1];
      MatchedProceeds(p) + (if f.size > 0 && f.side.Sell? then f.price * Min(f.size, Walk(p)) else 0)
  }

  lemma {:induction false} ValueAppend(a: seq<Lot>, l: Lot)
    ensures Value(a + [l]) == Value(a) + l.price * l.take
  {
    if a == [] {
      assert a + [l] == [l];
      assert [l][1..] == [];
    } else {
      assert (a + [l])[1..] == a[1..] + [l];
      ValueAppend(a[1..], l);
    }
  }

  /** Shares bought at cost, by one fill. */
  ghost function BuyCost(f: Fill): int { if f.size > 0 && f.side.Buy? then f.price * f.size else 0 }

  /** One fill: its profit is what it sold for, plus what it bought at cost, less
      the rise in the value of the inventory. */
  lemma {:induction false} SaleConserves(q: seq<Lot>, f: Fill)
    requires Positive(q)
    ensures SaleProfit(q, f)
         == (if f.size > 0 && f.side.Sell? then f.price * Min(f.size, Total(q)) else 0)
            + Value(Step(q, f)) - Value(q) - BuyCost(f)
  {
    if f.size > 0 && f.side.Buy? {
      ValueAppend(q, LotOf(f));
    } else if f.size > 0 && f.side.Sell? {
      RealizedConserves(q, f.price, f.size);
    }
  }

  lemma {:induction false} BoughtValue(b: seq<Lot>, f: Fill)
    ensures Value(BoughtStep(b, f)) == Value(b) + BuyCost(f)
  {
    if f.size > 0 && f.side.Buy? { ValueAppend(b, LotOf(f)); }
  }

  /** All profit ever booked is what the matched shares brought in less what the
      shares no longer held had cost. */
  lemma {:induction false} SalesConserve(fs: seq<Fill>)
    ensures AllSum(Sales(fs)) == MatchedProceeds(fs) - (Value(Bought(fs)) - Value(Replay(fs)))
  {
    if fs != [] {
      var p, f := fs[..|fs| - 1], fs[|fs| - 1];
      SalesConserve(p);
      ReplayShape(p);
      NewestTotal(Bought(p), Walk(p));
      SaleConserves(Replay(p), f);
      BoughtValue(Bought(p), f);
      SumsAppend(Sales(p), Posting(BeijingDay(f.ts), SaleProfit(Replay(p), f)), 0);
    }
  }

  ghost predicate Covers(lo: int, hi: int, fs: seq<Fill>) {
    lo <= hi && forall f | f in fs :: lo <= BeijingDay(f.ts) < hi
  }

  lemma {:induction false} SalesWithin(fs: seq<Fill>, lo: int, hi: int)
    requires Covers(lo, hi, fs)
    ensures forall p | p in Sales(fs) :: lo <= p.day < hi
  {
    if fs != [] { SalesWithin(fs[..|fs| - 1], lo, hi); }
  }

  /** Net of the reported days `lo <= d < hi`. */
  ghost function NetOver(fs: seq<Fill>, lo: int, hi: int): int
    decreases hi - lo
  {
    if lo >= hi then 0 else DayOf(fs, lo).profit - DayOf(fs, lo).loss + NetOver(fs, lo + 1, hi)
  }

  lemma {:induction false} NetIsRangeSum(fs: seq<Fill>, lo: int, hi: int)
    ensures NetOver(fs, lo, hi) == RangeSum(Sales(fs), lo, hi)
    decreases hi - lo
  {
    if lo < hi {
      DayNet(fs, lo);
      NetIsRangeSum(fs, lo + 1, hi);
    }
  }

  /** Ledger conservation for an asset without merges: summed over the days, sell
      profit less loss is matched proceeds minus (total buy cost minus the cost of
      the lots left), and the lots left are those of the cost reconstruction. */
  lemma {:induction false} LedgerConserves(fills: seq<Fill>, lo: int, hi: int)
    requires Covers(lo, hi, fills)
    ensures var fs := StableSort(fills, FillTs);
            NetOver(fs, lo, hi) == MatchedProceeds(fs) - (Value(Bought(fs)) - Value(Rebuild(fills, [])))
  {
    var fs := StableSort(fills, FillTs);
    StableSortPermutes(fills, FillTs);
    SalesWithin(fs, lo, hi);
    BucketsAddUp(Sales(fs), lo, hi);
    NetIsRangeSum(fs, lo, hi);
    SalesConserve(fs);
  }
}
