/** Cost reconstruction: replay our fills into a FIFO queue, burn the confirmed
    merges from its front, and price what is left. */
module CostBasis {
  import opened Fifo
  import opened Sorting
  import opened Wrappers

  datatype Side = Buy | Sell | Other

  datatype Fill = Fill(side: Side, price: int, size: int, ts: int, tid: string, feeBps: int)

  function FillTs(f: Fill): int { f.ts }

  function LotOf(f: Fill): Lot { Lot(f.price, f.size, f.ts, f.tid) }

  /** One fill: a buy joins the queue, a sell takes from its front, a fill
      without size or with an unknown side is skipped. */
  function Step(q: seq<Lot>, f: Fill): seq<Lot> {
    if f.size <= 0 || f.side.Other? then q
    else if f.side.Buy? then q + [LotOf(f)]
    else Consume(q, f.size)
  }

  function Replay(fs: seq<Fill>): seq<Lot> {
    if fs == [] then [] else Step(Replay(fs[..|fs| - 1]), fs[|fs| - 1])
  }

  function Burn(q: seq<Lot>, merges: seq<int>): seq<Lot> {
    if merges == [] then q else Consume(Burn(q, merges[..|merges| - 1]), merges[|merges| - 1])
  }

  /** The queue that the reconstruction leaves: all fills by time, then all merges. */
  ghost function Rebuild(fills: seq<Fill>, merges: seq<int>): seq<Lot> {
    Burn(Replay(StableSort(fills, FillTs)), merges)
  }

  /** The rebuilt queue agrees with the reported position within one share or one percent. */
  predicate Credible(recon: int, size: int) {
    recon > 0 && 100 * (if recon >= size then recon - size else size - recon) <= Max(100 * SHARE, size)
  }

  /** The size is there to explain and the fills explain it. */
  ghost predicate CostKnown(fills: seq<Fill>, size: int, merges: seq<int>) {
    size > 0 && fills != [] && Credible(Total(Rebuild(fills, merges)), size)
  }

  /** The lots a position is given: the rebuilt queue if it is credible, else none. */
  ghost function CostLots(fills: seq<Fill>, size: int, merges: seq<int>): seq<Lot> {
    if CostKnown(fills, size, merges) then Rebuild(fills, merges) else []
  }

  method PositionCostWithLots(fills: seq<Fill>, size: int, merges: seq<int>)
    returns (cost: Option<real>, result: seq<Lot>)
    ensures var q := Rebuild(fills, merges);
            if size > 0 && fills != [] && Credible(Total(q), size)
            then cost == Some(Value(q) as real / Total(q) as real) && result == q
            else cost == None && result == []
    ensures result == CostLots(fills, size, merges)
    ensures cost.Some? <==> var n := Walk(StableSort(fills, FillTs)) - Burnt(merges);
                            && size > 0 && fills != [] && n > 0
                            && (-1_000_000 <= n - size <= 1_000_000 || -size <= 100 * (n - size) <= size)
  {
    CostKnownExactly(fills, size, merges);
    if size <= 0 || fills == [] {
      return None, [];
    }
    var ordered := StableSort(fills, FillTs);
    var lots: seq<Lot> := [];
    for i := 0 to |ordered|
      invariant lots == Replay(ordered[..i])
    {
      var f := ordered[i];
      assert ordered[..i + 1][..i] == ordered[..i];
      if f.size > 0 {
        if f.side == Buy {
          lots := lots + [LotOf(f)];
        } else if f.side == Sell {
          lots := TakeFromFront(lots, f.size);
        }
      }
    }
    assert ordered[..|ordered|] == ordered;
    for i := 0 to |merges|
      invariant lots == Burn(Replay(ordered), merges[..i])
    {
      assert merges[..i + 1][..i] == merges[..i];
      lots := TakeFromFront(lots, merges[i]);
    }
    assert merges[..|merges|] == merges;
    var recon := Total(lots);
    if !Credible(recon, size) {
      return None, [];
    }
    return Some(Value(lots) as real / recon as real), lots;
  }

  /** The inner loop that a sell and a merge share: cut the oldest lot, drop it
      once it is empty, go on with what is still wanted. */
  method TakeFromFront(q: seq<Lot>, wanted: int) returns (lots: seq<Lot>)
    ensures lots == Consume(q, wanted)
  {
    lots := q;
    var qty := wanted;
    while qty > 0 && lots != []
      invariant Consume(lots, qty) == Consume(q, wanted)
      decreases |lots|, qty
    {
      var take := Min(lots[0].take, qty);
      var left := lots[0].take - take;
      qty := qty - take;
      if left <= 0 {
        lots := lots[1..];
      } else {
        lots := [lots[0].(take := left)] + lots[1..];
        break;
      }
    }
  }

  // ---------------------------------------------------------------- shape of what is left

  /** Everything bought, in order, untouched by sells. */
  ghost function Bought(fs: seq<Fill>): seq<Lot> {
    if fs == [] then [] else BoughtStep(Bought(fs[..|fs| - 1]), fs[|fs| - 1])
  }

  ghost function BoughtStep(b: seq<Lot>, f: Fill): seq<Lot> {
    if f.size > 0 && f.side.Buy? then b + [LotOf(f)] else b
  }

  /** Shares held, as a walk reflected at zero: unmatched sells are lost. */
  ghost function Walk(fs: seq<Fill>): int {
    if fs == [] then 0 else WalkOne(Walk(fs[..|fs| - 1]), fs[|fs| - 1])
  }

  ghost function WalkOne(w: int, f: Fill): int {
    if f.size <= 0 || f.side.Other? then w
    else if f.side.Buy? then w + f.size
    else Max(0, w - f.size)
  }

  ghost function Burnt(merges: seq<int>): int {
    if merges == [] then 0 else Burnt(merges[..|merges| - 1]) + Max(0, merges[|merges| - 1])
  }

  lemma {:induction false} BurnIsConsume(q: seq<Lot>, merges: seq<int>)
    requires Positive(q)
    ensures Burnt(merges) >= 0
    ensures Burn(q, merges) == Consume(q, Burnt(merges))
  {
    if merges != [] {
      var p, m := merges[..|merges| - 1], merges[|merges| - 1];
      BurnIsConsume(q, p);
      if m > 0 { ConsumeSplit(q, Burnt(p), m); }
    }
  }

  lemma {:induction false} WalkStep(b: seq<Lot>, w: int, f: Fill)
    requires Positive(b) && 0 <= w <= Total(b)
    ensures var b', w' := BoughtStep(b, f), WalkOne(w, f);
            && Step(Newest(b, w), f) == Newest(b', w')
            && Positive(b') && 0 <= w' <= Total(b')
  {
    if f.size > 0 && f.side.Buy? {
      NewestAfterBuy(b, w, LotOf(f));
    } else if f.size > 0 && f.side.Sell? {
      NewestAfterConsume(b, w, f.size);
    }
  }

  lemma {:induction false} ReplayShape(fs: seq<Fill>)
    ensures Positive(Bought(fs)) && 0 <= Walk(fs) <= Total(Bought(fs))
    ensures Replay(fs) == Newest(Bought(fs), Walk(fs))
  {
    if fs != [] {
      ReplayShape(fs[..|fs| - 1]);
      WalkStep(Bought(fs[..|fs| - 1]), Walk(fs[..|fs| - 1]), fs[|fs| - 1]);
    }
  }

  lemma {:induction false} BurnNewest(b: seq<Lot>, w: int, merges: seq<int>)
    requires Positive(b) && 0 <= w <= Total(b)
    ensures Burnt(merges) >= 0
    ensures Burn(Newest(b, w), merges) == Newest(b, Max(0, w - Burnt(merges)))
  {
    NewestTotal(b, w);
    BurnIsConsume(Newest(b, w), merges);
    NewestAfterConsume(b, w, Burnt(merges));
  }

  lemma {:induction false} RebuildIsNewest(fills: seq<Fill>, merges: seq<int>)
    ensures var fs := StableSort(fills, FillTs);
            var count := Max(0, Walk(fs) - Burnt(merges));
            && Positive(Bought(fs)) && 0 <= count <= Total(Bought(fs))
            && Rebuild(fills, merges) == Newest(Bought(fs), count)
  {
    var fs := StableSort(fills, FillTs);
    ReplayShape(fs);
    BurnNewest(Bought(fs), Walk(fs), merges);
  }

  /** The lots left are the newest bought shares with at most one lot cut, and
      there are as many of them as the reflected walk says. */
  lemma {:induction false} RemainingLots(fills: seq<Fill>, merges: seq<int>)
    ensures var q, fs := Rebuild(fills, merges), StableSort(fills, FillTs);
            && Positive(q)
            && TrimmedSuffix(q, Bought(fs))
            && Total(q) == Max(0, Walk(fs) - Burnt(merges))
  {
    var fs := StableSort(fills, FillTs);
    var count := Max(0, Walk(fs) - Burnt(merges));
    RebuildIsNewest(fills, merges);
    NewestTotal(Bought(fs), count);
    ConsumeIsTrimmedSuffix(Bought(fs), Total(Bought(fs)) - count);
  }

  /** Fills are replayed in the order of their times, and those of one time as reported. */
  lemma {:induction false} ReplayedInTime(fills: seq<Fill>)
    ensures var s := StableSort(fills, FillTs);
            && multiset(s) == multiset(fills)
            && (forall i, j | 0 <= i < j < |s| :: s[i].ts <= s[j].ts)
            && (forall t: int :: WithKey(s, FillTs, t) == WithKey(fills, FillTs, t))
  {
    StableSortPermutes(fills, FillTs);
    StableSortSorts(fills, FillTs);
    var s := StableSort(fills, FillTs);
    forall i, j | 0 <= i < j < |s| ensures s[i].ts <= s[j].ts {
      assert FillTs(s[i]) <= FillTs(s[j]);
    }
    forall t: int ensures WithKey(s, FillTs, t) == WithKey(fills, FillTs, t) {
      StableSortIsStable(fills, FillTs, t);
    }
  }

  /** When a cost is known, in counts alone: there is a position and there are fills, and
      the shares they leave, as a walk of buys and sells reflected at zero less the merges,
      are some and differ from the reported ones by at most one share or one percent. */
  lemma {:induction false} CostKnownExactly(fills: seq<Fill>, size: int, merges: seq<int>)
    ensures CostKnown(fills, size, merges)
       <==> var n := Walk(StableSort(fills, FillTs)) - Burnt(merges);
            && size > 0 && fills != [] && n > 0
            && (-1_000_000 <= n - size <= 1_000_000 || -size <= 100 * (n - size) <= size)
  {
    hide Rebuild, Walk, Burnt, StableSort;
    RemainingLots(fills, merges);
  }

  /** Where shares left the wallet without a fill to show it, so that its history explains
      that many more than are reported, the cost stays known if and only if they are
      within one share or one percent. */
  lemma {:induction false} UnseenSalesHideCost(fills: seq<Fill>, size: int, merges: seq<int>, gone: int)
    requires size > 0 && gone >= 0 && Total(Rebuild(fills, merges)) == size + gone
    ensures CostKnown(fills, size, merges) <==> gone <= 1_000_000 || 100 * gone <= size
  {
    hide Rebuild, Walk, Burnt, StableSort;
    CostKnownExactly(fills, size, merges);
    RemainingLots(fills, merges);
    NoFillsNoLots(fills, merges);
  }

  lemma {:induction false} NoFillsNoLots(fills: seq<Fill>, merges: seq<int>)
    ensures fills == [] ==> Total(Rebuild(fills, merges)) == 0
  {
    RemainingLots(fills, merges);
    if fills == [] { NothingBurnt(merges); }
  }

  lemma {:induction false} NothingBurnt(merges: seq<int>)
    ensures Burnt(merges) >= 0
  {
    if merges != [] { NothingBurnt(merges[..|merges| - 1]); }
  }

  /** The reconstructed cost is never outside the prices of the lots still held. */
  lemma {:induction false} CostBetweenLotPrices(q: seq<Lot>, lo: int, hi: int)
    requires Positive(q) && q != []
    requires forall i | 0 <= i < |q| :: lo <= q[i].price <= hi
    ensures Total(q) > 0
    ensures lo as real <= Value(q) as real / Total(q) as real <= hi as real
  {
    ValueBetween(q, lo, hi);
    TotalPositive(q);
    QuotientBetween(Value(q), Total(q), lo, hi);
  }

  lemma {:induction false} QuotientBetween(v: int, t: int, lo: int, hi: int)
    requires t > 0 && lo * t <= v <= hi * t
    ensures lo as real <= v as real / t as real <= hi as real
  {
    var r := v as real / t as real;
    assert r * t as real == v as real;
    assert (lo * t) as real == lo as real * t as real;
    assert (hi * t) as real == hi as real * t as real;
    assert (r - lo as real) * t as real >= 0.0;
    assert (hi as real - r) * t as real >= 0.0;
  }

  ghost predicate PaidFor(fills: seq<Fill>) {
    forall f | f in fills && f.side.Buy? :: f.price > 0
  }

  ghost predicate Priced(q: seq<Lot>) {
    forall i | 0 <= i < |q| :: q[i].price > 0
  }

  lemma {:induction false} BoughtPriced(fs: seq<Fill>)
    requires PaidFor(fs)
    ensures Priced(Bought(fs))
  {
    if fs != [] { BoughtPriced(fs[..|fs| - 1]); }
  }

  lemma {:induction false} SuffixPriced(q: seq<Lot>, b: seq<Lot>)
    requires TrimmedSuffix(q, b) && Priced(b)
    ensures Priced(q)
  {
    forall i | 0 <= i < |q| ensures q[i].price > 0 {
      if i > 0 { assert q[i] == q[1..][i - 1] == b[|b| - |q| + 1..][i - 1]; }
    }
  }

  /** What was paid for has a price in every lot that is left. */
  lemma {:induction false} RebuildPriced(fills: seq<Fill>, merges: seq<int>)
    requires PaidFor(fills)
    ensures Positive(Rebuild(fills, merges)) && Priced(Rebuild(fills, merges))
  {
    hide Rebuild, Bought, StableSort, TrimmedSuffix, Priced, Positive;
    RemainingLots(fills, merges);
    StableSortPermutes(fills, FillTs);
    BoughtPriced(StableSort(fills, FillTs));
    SuffixPriced(Rebuild(fills, merges), Bought(StableSort(fills, FillTs)));
  }

  // ---------------------------------------------------------------- merges after all fills

  /** One account event in time order. */
  datatype Event = Trade(fill: Fill) | Merged(qty: int)

  ghost function FillsOf(evs: seq<Event>): seq<Fill> {
    if evs == [] then []
    else
      var e := evs[|evs| - 1];
      FillsOf(evs[..|evs| - 1]) + (if e.Trade? then [e.fill] else [])
  }

  ghost function MergesOf(evs: seq<Event>): seq<int> {
    if evs == [] then []
    else
      var e := evs[|evs| - 1];
      MergesOf(evs[..|evs| - 1]) + (if e.Merged? then [e.qty] else [])
  }

  /** What really happened: fills and merges interleaved as they occurred. */
  ghost function Interleaved(evs: seq<Event>): seq<Lot> {
    if evs == [] then []
    else
      var q := Interleaved(evs[..|evs| - 1]);
      match evs[|evs| - 1]
      case Trade(f) => Step(q, f)
      case Merged(m) => Consume(q, m)
  }

  ghost function Sold(fs: seq<Fill>): int {
    if fs == [] then 0
    else
      var f := fs[|fs| - 1];
      Sold(fs[..|fs| - 1]) + (if f.size > 0 && f.side.Sell? then f.size else 0)
  }

  ghost function Used(evs: seq<Event>): int { Sold(FillsOf(evs)) + Burnt(MergesOf(evs)) }

  /** No chronological prefix uses more shares than had been bought by then. */
  ghost predicate NeverOverdrawn(evs: seq<Event>) {
    evs == [] || (NeverOverdrawn(evs[..|evs| - 1]) && Used(evs) <= Total(Bought(FillsOf(evs))))
  }

  lemma {:induction false} SplitLast(evs: seq<Event>)
    requires evs != []
    ensures var p, e := evs[..|evs| - 1], evs[|evs| - 1];
            && (e.Trade? ==> FillsOf(evs)[..|FillsOf(evs)| - 1] == FillsOf(p) && MergesOf(evs) == MergesOf(p))
            && (e.Merged? ==> MergesOf(evs)[..|MergesOf(evs)| - 1] == MergesOf(p) && FillsOf(evs) == FillsOf(p))
  {
  }

  lemma {:induction false} UsedNonNegative(fs: seq<Fill>, ms: seq<int>)
    ensures Sold(fs) >= 0 && Burnt(ms) >= 0
  {
    if fs != [] { UsedNonNegative(fs[..|fs| - 1], ms); }
    else if ms != [] { UsedNonNegative(fs, ms[..|ms| - 1]); }
  }

  /** Shares held under the true history, as a walk reflected at zero. */
  ghost function TrueWalk(evs: seq<Event>): int {
    if evs == [] then 0
    else
      var w := TrueWalk(evs[..|evs| - 1]);
      match evs[|evs| - 1]
      case Trade(f) => WalkOne(w, f)
      case Merged(m) => Max(0, w - Max(0, m))
  }

  lemma {:induction false} InterleavedIsNewest(evs: seq<Event>)
    ensures var b := Bought(FillsOf(evs));
            && Positive(b) && 0 <= TrueWalk(evs) <= Total(b)
            && Interleaved(evs) == Newest(b, TrueWalk(evs))
  {
    if evs != [] {
      var p := evs[..|evs| - 1];
      InterleavedIsNewest(p);
      SplitLast(evs);
      match evs[|evs| - 1]
      case Trade(f) => WalkStep(Bought(FillsOf(p)), TrueWalk(p), f);
      case Merged(m) => NewestAfterConsume(Bought(FillsOf(p)), TrueWalk(p), m);
    }
  }

  /** For every history whatever, deferring the merges is harmless exactly when
      two running share counts agree, which needs no queue to check. */
  lemma {:induction false} DeferredMergesHarmlessExactly(evs: seq<Event>, fills: seq<Fill>)
    requires StableSort(fills, FillTs) == FillsOf(evs)
    ensures Rebuild(fills, MergesOf(evs)) == Interleaved(evs)
       <==> TrueWalk(evs) == Max(0, Walk(FillsOf(evs)) - Burnt(MergesOf(evs)))
  {
    hide Rebuild, Interleaved, Newest, Bought, Walk, TrueWalk, Burnt, StableSort, FillsOf, MergesOf;
    RebuildIsNewest(fills, MergesOf(evs));
    InterleavedIsNewest(evs);
    NewestInjective(Bought(FillsOf(evs)), TrueWalk(evs), Max(0, Walk(FillsOf(evs)) - Burnt(MergesOf(evs))));
  }

  lemma {:induction false} TradeCounts(p: seq<Event>, f: Fill)
    ensures var evs, fs := p + [Trade(f)], FillsOf(p);
            && FillsOf(evs) == fs + [f] && MergesOf(evs) == MergesOf(p)
            && Walk(fs + [f]) == WalkOne(Walk(fs), f)
            && Sold(fs + [f]) == Sold(fs) + (if f.size > 0 && f.side.Sell? then f.size else 0)
            && Total(Bought(fs + [f])) == Total(Bought(fs)) + (if f.size > 0 && f.side.Buy? then f.size else 0)
  {
    assert (p + [Trade(f)])[..|p|] == p && (FillsOf(p) + [f])[..|FillsOf(p)|] == FillsOf(p);
    TotalAppend(Bought(FillsOf(p)), [LotOf(f)]);
  }

  lemma {:induction false} MergeCounts(p: seq<Event>, m: int)
    ensures var evs := p + [Merged(m)];
            FillsOf(evs) == FillsOf(p) && Burnt(MergesOf(evs)) == Burnt(MergesOf(p)) + Max(0, m)
  {
    assert (p + [Merged(m)])[..|p|] == p && (MergesOf(p) + [m])[..|MergesOf(p)|] == MergesOf(p);
  }

  /** Neither walk has hit zero so far. */
  ghost predicate Unreflected(evs: seq<Event>) {
    && TrueWalk(evs) == Total(Bought(FillsOf(evs))) - Used(evs)
    && Walk(FillsOf(evs)) == Total(Bought(FillsOf(evs))) - Sold(FillsOf(evs))
  }

  lemma {:induction false} UnreflectedTrade(p: seq<Event>, f: Fill)
    requires Unreflected(p) && Used(p + [Trade(f)]) <= Total(Bought(FillsOf(p + [Trade(f)])))
    ensures Unreflected(p + [Trade(f)])
  {
    assert (p + [Trade(f)])[..|p|] == p;
    TradeCounts(p, f);
    UsedNonNegative(FillsOf(p), MergesOf(p));
  }

  lemma {:induction false} UnreflectedMerge(p: seq<Event>, m: int)
    requires Unreflected(p) && Used(p + [Merged(m)]) <= Total(Bought(FillsOf(p + [Merged(m)])))
    ensures Unreflected(p + [Merged(m)])
  {
    assert (p + [Merged(m)])[..|p|] == p;
    MergeCounts(p, m);
  }

  /** Without overdraft no walk is ever reflected. */
  lemma {:induction false} WalksUnreflected(evs: seq<Event>)
    requires NeverOverdrawn(evs)
    ensures Unreflected(evs)
  {
    if evs != [] {
      var p, e := evs[..|evs| - 1], evs[|evs| - 1];
      WalksUnreflected(p);
      assert evs == p + [e];
      match e
      case Trade(f) => UnreflectedTrade(p, f);
      case Merged(m) => UnreflectedMerge(p, m);
    }
  }

  lemma {:induction false} WalksMeet(evs: seq<Event>)
    requires NeverOverdrawn(evs)
    ensures TrueWalk(evs) == Max(0, Walk(FillsOf(evs)) - Burnt(MergesOf(evs)))
  {
    WalksUnreflected(evs);
    InterleavedIsNewest(evs);
  }

  /** Burning all merges after all fills leaves exactly the queue of the true
      history, for every history that never overdraws. */
  lemma {:induction false} DeferredMergesHarmless(evs: seq<Event>, fills: seq<Fill>)
    requires NeverOverdrawn(evs)
    requires StableSort(fills, FillTs) == FillsOf(evs)
    ensures Rebuild(fills, MergesOf(evs)) == Interleaved(evs)
  {
    WalksMeet(evs);
    DeferredMergesHarmlessExactly(evs, fills);
  }

  /** A merge confirmed while the fill that fed it is still missing from the
      stream eats a later purchase: five shares too few are reconstructed. */
  lemma {:induction false} DeferredMergesCanDiffer() returns (evs: seq<Event>, fills: seq<Fill>)
    ensures StableSort(fills, FillTs) == FillsOf(evs)
    ensures Total(Interleaved(evs)) == 10
    ensures Total(Rebuild(fills, MergesOf(evs))) == 5
  {
    hide Interleaved, Rebuild, Newest;
    var f := Fill(Buy, 5000, 10, 2, "t", 0);
    evs, fills := [] + [Merged(5)] + [Trade(f)], [f];
    SortAppendsLatest([], f, FillTs);
    assert [] + [f] == fills && [] + [5] == [5];
    MergeCounts([], 5);
    TradeCounts([] + [Merged(5)], f);
    assert evs[..1] == [] + [Merged(5)] && ([] + [Merged(5)])[..0] == [];
    assert TrueWalk(evs[..1]) == 0 && TrueWalk(evs) == 10;
    assert [5][..0] == [] && Burnt([5]) == 5 && Walk(fills) == 10;
    InterleavedIsNewest(evs);
    RebuildIsNewest(fills, [5]);
    NewestTotal(Bought(fills), 10);
    NewestTotal(Bought(fills), 5);
  }

  // ---------------------------------------------------------------- the Maker deadline

  /** Earliest usable purchase time among the lots; lots without a time are ignored. */
  function OldestTs(q: seq<Lot>): Option<int> {
    if q == [] then None
    else
      var rest := OldestTs(q[1..]);
      if q[0].ts > 0 && (rest.None? || q[0].ts < rest.value) then Some(q[0].ts) else rest
  }

  lemma {:induction false} OldestIsLeast(q: seq<Lot>)
    ensures forall i | 0 <= i < |q| && q[i].ts > 0 :: OldestTs(q).Some? && OldestTs(q).value <= q[i].ts
    ensures OldestTs(q).Some? ==> exists i :: 0 <= i < |q| && q[i].ts == OldestTs(q).value > 0
  {
    if q != [] {
      OldestIsLeast(q[1..]);
      forall i | 0 <= i < |q| && q[i].ts > 0 ensures OldestTs(q).Some? && OldestTs(q).value <= q[i].ts {
        if i > 0 { assert q[1..][i - 1] == q[i]; }
      }
      if OldestTs(q).Some? && OldestTs(q) == OldestTs(q[1..]) {
        var i :| 0 <= i < |q[1..]| && q[1..][i].ts == OldestTs(q).value;
        assert q[i + 1].ts == OldestTs(q).value;
      } else if OldestTs(q).Some? {
        assert q[0].ts == OldestTs(q).value;
      }
    }
  }

  /** The two deadlines compare the right way round whenever both exist. */
  ghost predicate NotEarlier(before: Option<int>, after: Option<int>) {
    before.Some? && after.Some? ==> before.value <= after.value
  }

  lemma {:induction false} SuffixNotEarlier(r: seq<Lot>, q: seq<Lot>)
    requires TrimmedSuffix(r, q)
    ensures NotEarlier(OldestTs(q), OldestTs(r))
  {
    OldestIsLeast(q);
    OldestIsLeast(r);
    if OldestTs(r).Some? {
      var i :| 0 <= i < |r| && r[i].ts == OldestTs(r).value > 0;
      var k := |q| - |r|;
      assert q[k + i].ts == r[i].ts by {
        if i > 0 { assert r[i] == r[1..][i - 1] == q[k + 1..][i - 1]; }
      }
    }
  }

  lemma {:induction false} BoughtTimes(fs: seq<Fill>, last: int)
    requires forall f | f in fs :: f.ts <= last
    ensures NoLaterThan(Bought(fs), last)
  {
    if fs != [] { BoughtTimes(fs[..|fs| - 1], last); }
  }

  lemma {:induction false} SuffixTimes(q: seq<Lot>, b: seq<Lot>, last: int)
    requires TrimmedSuffix(q, b) && NoLaterThan(b, last)
    ensures NoLaterThan(q, last)
  {
    forall l | l in q ensures l.ts <= last {
      if l != q[0] {
        assert l in q[1..];
        assert l in b[|b| - |q| + 1..];
      } else {
        assert b[|b| - |q|] in b;
      }
    }
  }

  lemma {:induction false} BuyNotEarlier(q: seq<Lot>, l: Lot)
    requires NoLaterThan(q, l.ts)
    ensures NotEarlier(OldestTs(q), OldestTs(q + [l]))
  {
    OldestIsLeast(q);
    OldestIsLeast(q + [l]);
  }

  /** A fill that arrives later never moves the deadline earlier, even though it
      is replayed before the merges. */
  lemma {:induction false} DeadlineNeverEarlier(fills: seq<Fill>, f: Fill, merges: seq<int>)
    requires forall g | g in fills :: g.ts <= f.ts
    ensures NotEarlier(OldestTs(Rebuild(fills, merges)), OldestTs(Rebuild(fills + [f], merges)))
  {
    LaterFillSortsLast(fills, f);
    ReplayedLaterNotEarlier(StableSort(fills, FillTs), f, merges);
  }

  lemma {:induction false} ReplayedLaterNotEarlier(fs: seq<Fill>, f: Fill, merges: seq<int>)
    requires NoLaterThan(Bought(fs), f.ts)
    ensures NotEarlier(OldestTs(Burn(Replay(fs), merges)), OldestTs(Burn(Replay(fs + [f]), merges)))
  {
    hide Bought, BoughtStep, Walk, WalkOne, Newest, OldestTs, Burn, Burnt, Step;
    var b, w := Bought(fs), Walk(fs);
    ReplayShape(fs);
    WalkStep(b, w, f);
    BurnNewest(b, w, merges);
    BurnNewest(BoughtStep(b, f), WalkOne(w, f), merges);
    LaterFillNotEarlier(b, w, Burnt(merges), f);
    assert (fs + [f])[..|fs|] == fs;
  }

  lemma {:induction false} LaterFillSortsLast(fills: seq<Fill>, f: Fill)
    requires forall g | g in fills :: g.ts <= f.ts
    ensures StableSort(fills + [f], FillTs) == StableSort(fills, FillTs) + [f]
    ensures NoLaterThan(Bought(StableSort(fills, FillTs)), f.ts)
  {
    SortAppendsLatest(fills, f, FillTs);
    StableSortPermutes(fills, FillTs);
    BoughtTimes(StableSort(fills, FillTs), f.ts);
  }

  lemma {:induction false} LaterFillNotEarlier(b: seq<Lot>, w: int, m: int, f: Fill)
    requires Positive(b) && 0 <= w <= Total(b) && 0 <= m
    requires NoLaterThan(b, f.ts)
    ensures NotEarlier(OldestTs(Newest(b, Max(0, w - m))),
                       OldestTs(Newest(BoughtStep(b, f), Max(0, WalkOne(w, f) - m))))
  {
    if f.size > 0 && f.side.Sell? {
      FewerNotEarlier(b, Max(0, w - m), Max(0, Max(0, w - f.size) - m));
    } else if f.size > 0 && f.side.Buy? && m <= w {
      NewestAfterBuy(b, w - m, LotOf(f));
      HeldBuyNotEarlier(b, w - m, LotOf(f));
    } else if f.size > 0 && f.side.Buy? {
      NewestTotal(b, 0);
    }
  }

  lemma {:induction false} FewerNotEarlier(b: seq<Lot>, n: int, k: int)
    requires Positive(b) && 0 <= k <= n <= Total(b)
    ensures NotEarlier(OldestTs(Newest(b, n)), OldestTs(Newest(b, k)))
  {
    NewestAfterConsume(b, n, n - k);
    NewestTotal(b, n);
    ConsumeIsTrimmedSuffix(Newest(b, n), n - k);
    SuffixNotEarlier(Newest(b, k), Newest(b, n));
  }

  ghost predicate NoLaterThan(q: seq<Lot>, last: int) {
    forall l | l in q :: l.ts <= last
  }

  lemma {:induction false} HeldBuyNotEarlier(b: seq<Lot>, n: int, l: Lot)
    requires Positive(b) && 0 <= n <= Total(b) && NoLaterThan(b, l.ts)
    ensures NotEarlier(OldestTs(Newest(b, n)), OldestTs(Newest(b, n) + [l]))
  {
    ConsumeIsTrimmedSuffix(b, Total(b) - n);
    SuffixBuyNotEarlier(Newest(b, n), b, l);
  }

  lemma {:induction false} SuffixBuyNotEarlier(q: seq<Lot>, b: seq<Lot>, l: Lot)
    requires TrimmedSuffix(q, b) && NoLaterThan(b, l.ts)
    ensures NotEarlier(OldestTs(q), OldestTs(q + [l]))
  {
    SuffixTimes(q, b, l.ts);
    BuyNotEarlier(q, l);
  }

  /** A further confirmed merge never moves the deadline earlier either. */
  lemma {:induction false} DeadlineSurvivesMerge(fills: seq<Fill>, merges: seq<int>, m: int)
    ensures NotEarlier(OldestTs(Rebuild(fills, merges)), OldestTs(Rebuild(fills, merges + [m])))
  {
    assert (merges + [m])[..|merges|] == merges;
    RemainingLots(fills, merges);
    ConsumeIsTrimmedSuffix(Rebuild(fills, merges), m);
    SuffixNotEarlier(Consume(Rebuild(fills, merges), m), Rebuild(fills, merges));
  }
}
