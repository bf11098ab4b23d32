/** Gap-tier placement: grade the whole bid book by its widest gap, then rest one
    order on the topmost in-range level whose coefficient clears the grade. */
module Laddering {
  import opened Fifo
  import opened Sorting
  import opened Wrappers
  import opened ProtectedExit

  /** Price units in one cent. */
  const CENT := 100.0

  datatype AmountRow = AmountRow(upper: int, value: real)

  function RowUpper(r: AmountRow): int { r.upper }

  function FirstCovering(rows: seq<AmountRow>, price: int): Option<real> {
    if rows == [] then None
    else if price <= rows[0].upper then Some(rows[0].value)
    else FirstCovering(rows[1..], price)
  }

  /** Value of the tightest row whose upper bound covers the price. */
  function AmountValue(price: int, table: seq<AmountRow>): Option<real> {
    FirstCovering(StableSort(table, RowUpper), price)
  }

  /** `v` belongs to the lowest bound that covers the price, if any covers it. */
  ghost predicate Tightest(v: Option<real>, price: int, table: seq<AmountRow>) {
    if v.None? then forall r | r in table :: r.upper < price
    else exists r :: r in table && price <= r.upper && r.value == v.value
                     && forall q | q in table && price <= q.upper :: r.upper <= q.upper
  }

  lemma {:induction false} FirstCoveringIsTightest(rows: seq<AmountRow>, price: int)
    requires SortedBy(rows, RowUpper)
    ensures Tightest(FirstCovering(rows, price), price, rows)
  {
    if rows != [] {
      assert rows == [rows[0]] + rows[1..];
      forall r | r in rows[1..] ensures rows[0].upper <= r.upper {
        var i :| 0 <= i < |rows| - 1 && rows[1..][i] == r;
        assert RowUpper(rows[0]) <= RowUpper(rows[i + 1]);
      }
      if price <= rows[0].upper {
        assert rows[0] in rows;
      } else {
        assert SortedBy(rows[1..], RowUpper) by {
          forall i, j | 0 <= i < j < |rows| - 1 ensures RowUpper(rows[1..][i]) <= RowUpper(rows[1..][j]) {
            assert RowUpper(rows[i + 1]) <= RowUpper(rows[j + 1]);
          }
        }
        FirstCoveringIsTightest(rows[1..], price);
      }
    }
  }

  lemma {:induction false} AmountValueIsTightest(price: int, table: seq<AmountRow>)
    ensures Tightest(AmountValue(price, table), price, table)
  {
    var rows := StableSort(table, RowUpper);
    StableSortSorts(table, RowUpper);
    StableSortPermutes(table, RowUpper);
    FirstCoveringIsTightest(rows, price);
  }

  /** No bid supports the stretch of `cents` just under the reward range. */
  predicate HasCliffBelow(bids: seq<Level>, rangeMin: real, cents: real) {
    && cents > 0.0 && bids != []
    && forall b | b in bids :: !(rangeMin - cents * CENT <= b.price as real < rangeMin)
  }

  /** What a cliff is, in figures: a probe of some cents is asked for, and the book has no
      bid within so many cents under the reward range. */
  ghost predicate Unsupported(bids: seq<Level>, rangeMin: real, cents: real) {
    && cents > 0.0 && bids != []
    && forall b | b in bids :: b.price as real >= rangeMin || rangeMin - b.price as real > 100.0 * cents
  }

  function SortedLevels(bids: seq<Level>): seq<Level> { StableSort(bids, LevelPriceDown) }

  lemma {:induction false} SortedLevelsDescend(bids: seq<Level>)
    ensures Descending(SortedLevels(bids))
    ensures forall l :: l in SortedLevels(bids) <==> l in bids
  {
    SortDescends(bids);
    StableSortPermutes(bids, LevelPriceDown);
  }

  /** Sorting leaves a book that already descends as it is. */
  lemma {:induction false} SortedStays(bids: seq<Level>)
    requires Descending(bids)
    ensures SortedLevels(bids) == bids
  {
    if bids != [] {
      var rest := bids[..|bids| - 1];
      SortedStays(rest);
      assert bids == rest + [bids[|bids| - 1]];
      SortAppendsLatest(rest, bids[|bids| - 1], LevelPriceDown);
    }
  }

  function Gap(levels: seq<Level>, i: nat): int
    requires i + 1 < |levels|
  {
    levels[i].price - levels[i + 1].price
  }

  /** `gap` is the widest gap of the book and `split` the first level above it. */
  ghost predicate WidestGap(levels: seq<Level>, gap: int, split: int) {
    && gap >= 0
    && (forall i: nat | i + 1 < |levels| :: Gap(levels, i) <= gap)
    && (gap == 0 ==> split == |levels| - 1)
    && (gap > 0 ==> 0 <= split < |levels| - 1 && Gap(levels, split) == gap
                    && forall i: nat | i < split :: Gap(levels, i) < gap)
  }

  lemma {:induction false} WidestGapUnique(levels: seq<Level>, g: int, k: int, g': int, k': int)
    requires WidestGap(levels, g, k) && WidestGap(levels, g', k')
    ensures g == g' && k == k'
  {
    if g > 0 { assert Gap(levels, k) == g; }
    if g' > 0 { assert Gap(levels, k') == g'; }
  }

  method MaxGapAndSplit(levels: seq<Level>) returns (gap: int, split: int)
    ensures WidestGap(levels, gap, split)
  {
    gap, split := 0, |levels| - 1;
    var i := 0;
    while i < |levels| - 1
      invariant 0 <= i && (i <= |levels| - 1 || i == 0)
      invariant gap >= 0 && forall k: nat | k < i && k + 1 < |levels| :: Gap(levels, k) <= gap
      invariant gap == 0 ==> split == |levels| - 1
      invariant gap > 0 ==> 0 <= split < i && Gap(levels, split) == gap
                            && forall k: nat | k < split :: Gap(levels, k) < gap
    {
      var g := levels[i].price - levels[i + 1].price;
      assert g == Gap(levels, i);
      if g > gap {
        gap, split := g, i;
      }
      i := i + 1;
    }
  }

  method MaxGap(bids: seq<Level>) returns (gap: int)
    ensures exists k :: WidestGap(SortedLevels(bids), gap, k)
  {
    var k;
    gap, k := MaxGapAndSplit(SortedLevels(bids));
  }

  /** Template and tier settings of this placement mode; gaps and probes in cents. */
  datatype Settings = Settings(
    table: seq<AmountRow>, wide: real, mid: real, high1: real, min1: real, min2: real, min3: real,
    cliff: real, high2: real, high3: real, veto: real)

  function Coeff(l: Level, minSize: int, table: seq<AmountRow>): real
    requires minSize > 0
  {
    var v := AmountValue(l.price, table);
    if v.Some? && v.value > 0.0 then (l.size as real / 1_000_000.0) / (minSize as real * v.value) else 0.0
  }

  /** The coefficient of a level: its shares in units of the smallest order times the value
      of the tightest row that covers its price, and nothing without such a row. */
  lemma {:induction false} CoeffExactly(l: Level, minSize: int, table: seq<AmountRow>)
    requires minSize > 0
    ensures exists v :: Tightest(v, l.price, table)
                        && if v.Some? && v.value > 0.0 then
                             Coeff(l, minSize, table) * minSize as real * v.value * 1_000_000.0 == l.size as real
                           else Coeff(l, minSize, table) == 0.0
  {
    AmountValueIsTightest(l.price, table);
    var v := AmountValue(l.price, table);
    if v.Some? && v.value > 0.0 {
      Quotient(l.size as real / 1_000_000.0, minSize as real, v.value);
    }
    assert Tightest(v, l.price, table);
  }

  lemma {:induction false} Quotient(a: real, b: real, c: real)
    requires b > 0.0 && c > 0.0
    ensures b * c > 0.0 && a / (b * c) * b * c == a
  {
  }

  function CoeffSum(levels: seq<Level>, n: nat, minSize: int, table: seq<AmountRow>): real
    requires minSize > 0 && n <= |levels|
  {
    if n == 0 then 0.0 else CoeffSum(levels, n - 1, minSize, table) + Coeff(levels[n - 1], minSize, table)
  }

  predicate InRange(l: Level, rangeMin: real, rangeMax: real) {
    rangeMin <= l.price as real <= rangeMax
  }

  /** Grade of a gap: coefficient to clear, and the sum the upper side must reach. */
  datatype Grade = Grade(minCoeff: real, gate: real)

  function GradeOf(gap: int, s: Settings): Grade {
    if gap as real > s.wide * CENT then Grade(s.min1, s.high1)
    else if gap as real >= s.mid * CENT then Grade(s.min2, s.high2)
    else Grade(s.min3, s.high3)
  }

  predicate Vetoed(gap: int, veto: real) { veto > 0.0 && gap as real > veto * CENT }

  datatype Skip = NoBook | NoneInRange | Cliff | GapVeto | GateClosed | NoneClears

  datatype Decision =
    | Skipped(reason: Skip)
    | Place(index: nat, price: int, shares: int, gap: int, split: int)

  /** The decision the rules prescribe. */
  ghost predicate Decided(d: Decision, bids: seq<Level>, rangeMin: real, rangeMax: real, minSize: int,
                          s: Settings, shares: Option<int>)
  {
    var levels := SortedLevels(bids);
    if minSize <= 0 || bids == [] then d == Skipped(NoBook)
    else if forall l | l in levels :: l.price as real < rangeMin || l.price as real > rangeMax then
      d == Skipped(NoneInRange)
    else if Unsupported(bids, rangeMin, s.cliff) then d == Skipped(Cliff)
    else exists gap, split: int :: WidestGap(levels, gap, split)
                                   && Graded(d, levels, gap, split, rangeMin, rangeMax, minSize, s, shares)
  }

  /** The level is in the reward range and its coefficient above the least one. */
  ghost predicate Clears(l: Level, rangeMin: real, rangeMax: real, minSize: int, s: Settings, least: real)
    requires minSize > 0
  {
    rangeMin <= l.price as real && l.price as real <= rangeMax && Coeff(l, minSize, s.table) > least
  }

  /** The least coefficient for a gap in cents: the first above the wide threshold, the
      second from the middle one on, the third below. */
  ghost function LeastCoeff(gap: int, s: Settings): real {
    if gap as real > 100.0 * s.wide then s.min1 else if gap as real < 100.0 * s.mid then s.min3 else s.min2
  }

  /** The sum that the levels down to the gap must reach. */
  ghost function LeastSum(gap: int, s: Settings): real {
    if gap as real > 100.0 * s.wide then s.high1 else if gap as real < 100.0 * s.mid then s.high3 else s.high2
  }

  ghost predicate TooWide(gap: int, cents: real) { cents > 0.0 && gap as real > 100.0 * cents }

  ghost predicate Graded(d: Decision, levels: seq<Level>, gap: int, split: int, rangeMin: real, rangeMax: real,
                         minSize: int, s: Settings, shares: Option<int>)
    requires minSize > 0
  {
    var least := LeastCoeff(gap, s);
    if TooWide(gap, s.veto) then d == Skipped(GapVeto)
    else if !(0 <= split < |levels|) then false
    else if CoeffSum(levels, split + 1, minSize, s.table) < LeastSum(gap, s) then d == Skipped(GateClosed)
    else match d
      case Skipped(r) => 
        && r == NoneClears
        && forall j | 0 <= j < |levels| :: !Clears(levels[j], rangeMin, rangeMax, minSize, s, least)
      case Place(i, price, n, g', k) =>
        && i < |levels| && Clears(levels[i], rangeMin, rangeMax, minSize, s, least)
        && (forall j | 0 <= j < i :: !Clears(levels[j], rangeMin, rangeMax, minSize, s, least))
        && price == levels[i].price && g' == gap && k == split
        && n == (if shares.Some? then shares.value else minSize)
  }

  method ExplainGapSingleOrder(bids: seq<Level>, rangeMin: real, rangeMax: real, minSize: int,
                               s: Settings, shares: Option<int>) returns (d: Decision)
    ensures Decided(d, bids, rangeMin, rangeMax, minSize, s, shares)
  {
    if minSize <= 0 || bids == [] {
      return Skipped(NoBook);
    }
    var levels := SortedLevels(bids);
    SortedLevelsDescend(bids);
    assert levels != [] by { assert bids[0] in levels; }
    var any := false;
    for i := 0 to |levels|
      invariant any <==> exists k :: 0 <= k < i && InRange(levels[k], rangeMin, rangeMax)
    {
      if InRange(levels[i], rangeMin, rangeMax) {
        any := true;
      }
    }
    if !any {
      return Skipped(NoneInRange);
    }
    if HasCliffBelow(bids, rangeMin, s.cliff) {
      return Skipped(Cliff);
    }
    var gap, split := MaxGapAndSplit(levels);
    d := Grading(levels, gap, split, rangeMin, rangeMax, minSize, s, shares);
  }

  /** From the widest gap on: veto, gate, then the first level that clears. */
  method Grading(levels: seq<Level>, gap: int, split: int, rangeMin: real, rangeMax: real, minSize: int,
                 s: Settings, shares: Option<int>) returns (d: Decision)
    requires minSize > 0 && levels != [] && WidestGap(levels, gap, split)
    ensures Graded(d, levels, gap, split, rangeMin, rangeMax, minSize, s, shares)
  {
    if Vetoed(gap, s.veto) {
      return Skipped(GapVeto);
    }
    var g := GradeOf(gap, s);
    var highSum := 0.0;
    for i := 0 to split + 1
      invariant highSum == CoeffSum(levels, i, minSize, s.table)
    {
      highSum := highSum + Coeff(levels[i], minSize, s.table);
    }
    if highSum < g.gate {
      return Skipped(GateClosed);
    }
    for i := 0 to |levels|
      invariant forall j | 0 <= j < i :: !Clears(levels[j], rangeMin, rangeMax, minSize, s, g.minCoeff)
    {
      if InRange(levels[i], rangeMin, rangeMax) && Coeff(levels[i], minSize, s.table) > g.minCoeff {
        return Place(i, levels[i].price, if shares.Some? then shares.value else minSize, gap, split);
      }
    }
    return Skipped(NoneClears);
  }

  // ---------------------------------------------------------------- the review of a resting order

  datatype Verdict = Kept | OutsidePriceBand | OutsideReward | OverCliff | OverGap

  /** The last four checks of the monitor on a resting buy, in their order. */
  ghost predicate Reviewed(v: Verdict, price: int, bids: seq<Level>, rangeMin: real, rangeMax: real,
                           minCents: real, maxCents: real, cliff: real, veto: real)
  {
    if !(100.0 * minCents <= price as real <= 100.0 * maxCents) then v == OutsidePriceBand
    else if !(rangeMin <= price as real <= rangeMax) then v == OutsideReward
    else if Unsupported(bids, rangeMin, cliff) then v == OverCliff
    else exists gap, split: int :: WidestGap(SortedLevels(bids), gap, split)
                                   && v == (if TooWide(gap, veto) then OverGap else Kept)
  }

  method ReviewRestingBuy(price: int, bids: seq<Level>, rangeMin: real, rangeMax: real,
                          minCents: real, maxCents: real, cliff: real, veto: real) returns (v: Verdict)
    ensures Reviewed(v, price, bids, rangeMin, rangeMax, minCents, maxCents, cliff, veto)
  {
    if price as real < minCents * CENT || price as real > maxCents * CENT {
      return OutsidePriceBand;
    }
    if !(rangeMin <= price as real <= rangeMax) {
      return OutsideReward;
    }
    if HasCliffBelow(bids, rangeMin, cliff) {
      return OverCliff;
    }
    var gap := MaxGap(bids);
    if veto > 0.0 && gap as real > veto * CENT {
      return OverGap;
    }
    return Kept;
  }

  /** Placing and reviewing agree on one book: an order this mode places is kept
      exactly when its own price lies in the price band, which placement never
      checked; no other check can cancel it. */
  lemma {:induction false} PlacedOrderSurvives(d: Decision, v: Verdict, bids: seq<Level>, rangeMin: real,
                                               rangeMax: real, minSize: int, s: Settings, shares: Option<int>,
                                               minCents: real, maxCents: real)
    requires Decided(d, bids, rangeMin, rangeMax, minSize, s, shares) && d.Place?
    requires Reviewed(v, d.price, bids, rangeMin, rangeMax, minCents, maxCents, s.cliff, s.veto)
    ensures v == Kept || v == OutsidePriceBand
    ensures v == Kept <==> 100.0 * minCents <= d.price as real <= 100.0 * maxCents
  {
    var levels := SortedLevels(bids);
    var gap, split: int :| WidestGap(levels, gap, split)
                           && Graded(d, levels, gap, split, rangeMin, rangeMax, minSize, s, shares);
    assert Clears(levels[d.index], rangeMin, rangeMax, minSize, s, LeastCoeff(gap, s));
    if minCents * CENT <= d.price as real <= maxCents * CENT {
      var gap', split': int :| WidestGap(levels, gap', split') && v == if TooWide(gap', s.veto) then OverGap else Kept;
      WidestGapUnique(levels, gap, split, gap', split');
    }
  }

  /** What is placed sits on a bid of the book, inside the reward range. */
  lemma {:induction false} PlacedOnBid(d: Decision, bids: seq<Level>, rangeMin: real, rangeMax: real, minSize: int,
                    s: Settings, shares: Option<int>)
    requires Decided(d, bids, rangeMin, rangeMax, minSize, s, shares) && d.Place?
    ensures exists l :: l in bids && l.price == d.price && InRange(l, rangeMin, rangeMax)
    ensures minSize > 0 && d.shares == (if shares.Some? then shares.value else minSize)
  {
    var levels := SortedLevels(bids);
    var gap, split: int :| WidestGap(levels, gap, split)
                           && Graded(d, levels, gap, split, rangeMin, rangeMax, minSize, s, shares);
    assert Clears(levels[d.index], rangeMin, rangeMax, minSize, s, LeastCoeff(gap, s));
    SortedLevelsDescend(bids);
    assert levels[d.index] in bids;
  }

  /** The decision is a function of the book and the settings. */
  lemma {:induction false} DecisionUnique(d: Decision, e: Decision, bids: seq<Level>, rangeMin: real,
                                          rangeMax: real, minSize: int, s: Settings, shares: Option<int>)
    requires Decided(d, bids, rangeMin, rangeMax, minSize, s, shares)
    requires Decided(e, bids, rangeMin, rangeMax, minSize, s, shares)
    ensures d == e
  {
    var levels := SortedLevels(bids);
    if minSize > 0 && bids != [] && !(forall l | l in levels :: !InRange(l, rangeMin, rangeMax))
       && !Unsupported(bids, rangeMin, s.cliff)
    {
      var g, k: int :| WidestGap(levels, g, k) && Graded(d, levels, g, k, rangeMin, rangeMax, minSize, s, shares);
      var g', k': int :| WidestGap(levels, g', k') && Graded(e, levels, g', k', rangeMin, rangeMax, minSize, s, shares);
      WidestGapUnique(levels, g, k, g', k');
      SameGrading(d, e, levels, g, k, rangeMin, rangeMax, minSize, s, shares);
    }
  }

  lemma {:induction false} SameGrading(d: Decision, e: Decision, levels: seq<Level>, g: int, k: int,
                                       rangeMin: real, rangeMax: real, minSize: int, s: Settings,
                                       shares: Option<int>)
    requires minSize > 0
    requires Graded(d, levels, g, k, rangeMin, rangeMax, minSize, s, shares)
    requires Graded(e, levels, g, k, rangeMin, rangeMax, minSize, s, shares)
    ensures d == e
  {
    if d.Place? { assert Clears(levels[d.index], rangeMin, rangeMax, minSize, s, LeastCoeff(g, s)); }
    if e.Place? { assert Clears(levels[e.index], rangeMin, rangeMax, minSize, s, LeastCoeff(g, s)); }
  }

  // ---------------------------------------------------------------- an order outside the price band

  function LowBook(): seq<Level> { [Level(5000, 1_000_000), Level(2000, 100_000_000)] }

  function LowSettings(): Settings {
    Settings([AmountRow(10_000, 1.0)], 50.0, 40.0, 0.0, 1.0, 1.0, 1.0, 0.0, 0.0, 0.0, 0.0)
  }

  lemma {:induction false} LowCoeff(l: Level)
    requires l.price <= 10_000
    ensures Coeff(l, 10, LowSettings().table) == (l.size as real / 1_000_000.0) / 10.0
  {
    var table := LowSettings().table;
    assert table == [] + [AmountRow(10_000, 1.0)];
    SortAppendsLatest([], AmountRow(10_000, 1.0), RowUpper);
    assert StableSort(table, RowUpper) == table;
  }

  lemma {:induction false} LowGap(gap: int, split: int)
    requires WidestGap(SortedLevels(LowBook()), gap, split)
    ensures SortedLevels(LowBook()) == LowBook() && gap == 3000 && split == 0
  {
    SortedStays(LowBook());
    assert Gap(LowBook(), 0) == 3000;
  }

  /** The best bid is in the band of 30 to 90 cents, yet the order goes to 20 cents and
      the review cancels it. */
  lemma {:induction false} PlacedOutsideBand(d: Decision, v: Verdict)
    requires Decided(d, LowBook(), 1500.0, 6000.0, 10, LowSettings(), None)
    requires Reviewed(v, 2000, LowBook(), 1500.0, 6000.0, 30.0, 90.0, 0.0, 0.0)
    ensures 30.0 * CENT <= LowBook()[0].price as real <= 90.0 * CENT
    ensures d.Place? && d.price == 2000 && v == OutsidePriceBand
  {
    var bids, s := LowBook(), LowSettings();
    SortedStays(bids);
    assert InRange(bids[0], 1500.0, 6000.0);
    var gap, split: int :| WidestGap(SortedLevels(bids), gap, split)
                           && Graded(d, SortedLevels(bids), gap, split, 1500.0, 6000.0, 10, s, None);
    LowGap(gap, split);
    LowCoeff(bids[0]);
    LowCoeff(bids[1]);
    LowChoice(d, gap, split);
  }

  lemma {:induction false} LowChoice(d: Decision, gap: int, split: int)
    requires Graded(d, LowBook(), gap, split, 1500.0, 6000.0, 10, LowSettings(), None)
    requires gap == 3000 && split == 0
    requires Coeff(LowBook()[0], 10, LowSettings().table) == 0.1 && Coeff(LowBook()[1], 10, LowSettings().table) == 10.0
    ensures d.Place? && d.price == 2000
  {
    var bids, s := LowBook(), LowSettings();
    assert CoeffSum(bids, 0, 10, s.table) == 0.0 && CoeffSum(bids, 1, 10, s.table) == 0.1;
    assert LeastCoeff(gap, s) == 1.0 && LeastSum(gap, s) == 0.0;
    assert !Clears(bids[0], 1500.0, 6000.0, 10, s, 1.0) && Clears(bids[1], 1500.0, 6000.0, 10, s, 1.0);
  }
}
