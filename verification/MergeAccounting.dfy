/** Cost of the shares a merge burns. The lots are shared, mutable records: what
    one call consumes is gone for every other holder of the same records. */
module MergeAccounting {
  import opened Fifo
  import opened Sorting
  import opened Wrappers
  import CostBasis

  /** One dollar in price units; a merged pair pays exactly one dollar. */
  const DOLLAR := 10_000

  class LotCell {
    var price: int
    var take: int
    const ts: int
    const tid: string

    constructor (lot: Lot)
      ensures price == lot.price && take == lot.take && ts == lot.ts && tid == lot.tid
    {
      price, take, ts, tid := lot.price, lot.take, lot.ts, lot.tid;
    }

    ghost function AsLot(): Lot
      reads this
    {
      Lot(price, take, ts, tid)
    }
  }

  ghost function Snapshot(cells: seq<LotCell>): (s: seq<Lot>)
    reads cells
  {
    seq(|cells|, i requires 0 <= i < |cells| reads cells => cells[i].AsLot())
  }

  /** The records that still hold shares. */
  ghost function Live(q: seq<Lot>): seq<Lot> {
    if q == [] then [] else (if q[0].take > 0 then [q[0]] else []) + Live(q[1..])
  }

  ghost predicate Distinct(cells: seq<LotCell>) {
    forall i, j | 0 <= i < j < |cells| :: cells[i] != cells[j]
  }

  ghost predicate NonNegative(q: seq<Lot>) {
    forall i | 0 <= i < |q| :: q[i].take >= 0
  }

  lemma {:induction false} LiveHeld(q: seq<Lot>)
    requires NonNegative(q)
    ensures Positive(Live(q))
    ensures Total(Live(q)) == Total(q)
  {
    if q != [] {
      LiveHeld(q[1..]);
      var rest := Live(q[1..]);
      if q[0].take > 0 {
        assert Live(q) == [q[0]] + rest && ([q[0]] + rest)[1..] == rest;
      } else {
        assert Live(q) == [] + rest == rest;
      }
    }
  }

  lemma {:induction false} LiveValue(q: seq<Lot>)
    requires NonNegative(q)
    ensures Value(Live(q)) == Value(q)
  {
    if q != [] {
      LiveValue(q[1..]);
      if q[0].take > 0 {
        assert Live(q)[1..] == Live(q[1..]);
      } else {
        assert Live(q) == Live(q[1..]);
      }
    }
  }

  lemma {:induction false} LiveSkipsEmpty(q: seq<Lot>, n: nat)
    requires n <= |q| && forall j | 0 <= j < n :: q[j].take == 0
    ensures Live(q) == Live(q[n..])
  {
    if n > 0 {
      LiveSkipsEmpty(q[1..], n - 1);
      assert q[1..][n - 1..] == q[n..];
    } else {
      assert q[n..] == q;
    }
  }

  lemma {:induction false} LiveFrom(q: seq<Lot>, i: nat)
    requires i < |q| && forall j | 0 <= j < i :: q[j].take == 0
    ensures Live(q) == (if q[i].take > 0 then [q[i]] else []) + Live(q[i + 1..])
  {
    LiveSkipsEmpty(q, i);
    LiveHead(q[i..]);
    assert q[i..][1..] == q[i + 1..];
  }

  lemma {:induction false} LiveHead(q: seq<Lot>)
    requires q != []
    ensures Live(q) == (if q[0].take > 0 then [q[0]] else []) + Live(q[1..])
  {
    assert [] + Live(q[1..]) == Live(q[1..]);
  }

  lemma {:induction false} ConsumeHead(l: Lot, rest: seq<Lot>, need: int)
    requires need > 0
    ensures Consume([l] + rest, need)
         == if l.take <= need then Consume(rest, need - l.take) else [l.(take := l.take - need)] + rest
  {
    assert ([l] + rest)[1..] == rest;
  }

  /** Taking `used` shares from the first non-empty record is taking them from
      the front of the live queue. */
  lemma {:induction false} TakeFromLive(q: seq<Lot>, i: nat, used: int, need: int)
    requires i < |q| && forall j | 0 <= j < i :: q[j].take == 0
    requires q[i].take > 0 && need > 0 && used == Min(q[i].take, need)
    ensures Consume(Live(q[i := q[i].(take := q[i].take - used)]), need - used) == Consume(Live(q), need)
  {
    hide Live, Consume;
    var r, rest := q[i := q[i].(take := q[i].take - used)], Live(q[i + 1..]);
    LiveFrom(q, i);
    LiveFrom(r, i);
    assert r[i + 1..] == q[i + 1..];
    ConsumeHead(q[i], rest, need);
    if used < q[i].take {
      ConsumeNothing(Live(r), need - used);
    } else {
      assert Live(r) == [] + rest == rest;
    }
  }

  lemma {:induction false} ConsumeNothing(q: seq<Lot>, need: int)
    requires need <= 0
    ensures Consume(q, need) == q
  {
  }

  lemma {:induction false} TakeFromRecord(q: seq<Lot>, i: nat, used: int, need: int)
    requires i < |q| && forall j | 0 <= j < i :: q[j].take == 0
    requires q[i].take > 0 && need > 0 && used == Min(q[i].take, need)
    ensures var r := q[i := q[i].(take := q[i].take - used)];
            && Consume(Live(r), need - used) == Consume(Live(q), need)
            && Value(q) - Value(r) == q[i].price * used
            && Total(q) - Total(r) == used
  {
    hide Live, Consume, Value, Total;
    TakeFromLive(q, i, used, need);
    ChangeOne(q, i, q[i].take - used);
    Spread(q[i].price, q[i].take, used);
  }

  lemma {:induction false} Spread(p: int, t: int, u: int)
    ensures p * (t - u) == p * t - p * u
  {
  }

  lemma {:induction false} ChangeOne(q: seq<Lot>, i: nat, t: int)
    requires i < |q|
    ensures var r := q[i := q[i].(take := t)];
            && Value(r) == Value(q) - q[i].price * q[i].take + q[i].price * t
            && Total(r) == Total(q) - q[i].take + t
  {
    var r := q[i := q[i].(take := t)];
    if i > 0 {
      ChangeOne(q[1..], i - 1, t);
      assert r[1..] == q[1..][i - 1 := q[i].(take := t)];
    } else {
      assert r[1..] == q[1..];
    }
  }

  lemma {:induction false} NothingLeft(q: seq<Lot>)
    requires forall j | 0 <= j < |q| :: q[j].take == 0
    ensures Total(q) == 0
  {
    if q != [] { NothingLeft(q[1..]); }
  }

  /** Takes what one non-empty record can give. */
  method UseRecord(cells: seq<LotCell>, i: nat, need: int) returns (used: int)
    requires i < |cells| && Distinct(cells) && NonNegative(Snapshot(cells))
    requires cells[i].take > 0 && need > 0 && forall j | 0 <= j < i :: Snapshot(cells)[j].take == 0
    modifies cells[i]
    ensures used == Min(old(cells[i].take), need)
    ensures var q := old(Snapshot(cells));
            && Snapshot(cells) == q[i := q[i].(take := q[i].take - used)]
            && Consume(Live(Snapshot(cells)), need - used) == Consume(Live(q), need)
            && Value(q) - Value(Snapshot(cells)) == cells[i].price * used
            && Total(q) - Total(Snapshot(cells)) == used
            && NonNegative(Snapshot(cells))
  {
    hide Live, Consume, Value, Total;
    var take := cells[i].take;
    used := Min(take, need);
    ghost var q := Snapshot(cells);
    TakeFromRecord(q, i, used, need);
    cells[i].take := take - used;
    assert Snapshot(cells) == q[i := q[i].(take := take - used)];
  }

  /** Consumes `qty` shares from the front. The price paid is the fall in the
      value of the inventory; too few shares means no price and no change. */
  method ConsumeFifoCost(cells: seq<LotCell>, qty: int) returns (cost: Option<int>, kept: seq<LotCell>)
    requires Distinct(cells) && NonNegative(Snapshot(cells))
    modifies cells
    ensures NonNegative(Snapshot(cells))
    ensures old(Total(Snapshot(cells))) < qty && 0 < qty <==> cost == None
    ensures cost == None || qty <= 0 ==> kept == cells && Snapshot(cells) == old(Snapshot(cells))
    ensures cost.Some? ==>
              && cost.value == old(Value(Snapshot(cells))) - Value(Snapshot(cells))
              && Live(Snapshot(cells)) == Consume(old(Live(Snapshot(cells))), qty)
              && (qty > 0 ==> Snapshot(kept) == Live(Snapshot(cells)))
              && (forall c | c in kept :: c in cells)
  {
    if qty <= 0 {
      return Some(0), cells;
    }
    var total := SumTakes(cells);
    if total < qty {
      return None, cells;
    }
    var paid := Drain(cells, qty);
    kept := KeepNonEmpty(cells);
    cost := Some(paid);
  }

  /** The consuming loop, once enough shares are known to be there. */
  method Drain(cells: seq<LotCell>, qty: int) returns (paid: int)
    requires Distinct(cells) && NonNegative(Snapshot(cells))
    requires 0 < qty <= Total(Snapshot(cells))
    modifies cells
    ensures NonNegative(Snapshot(cells))
    ensures Live(Snapshot(cells)) == Consume(old(Live(Snapshot(cells))), qty)
    ensures paid == old(Value(Snapshot(cells))) - Value(Snapshot(cells))
  {
    ghost var before := Snapshot(cells);
    paid := 0;
    var need, i := qty, 0;
    while i < |cells| && need > 0
      invariant 0 <= i <= |cells| && 0 <= need <= Total(Snapshot(cells))
      invariant NonNegative(Snapshot(cells))
      invariant need > 0 ==> forall j | 0 <= j < i :: Snapshot(cells)[j].take == 0
      invariant Consume(Live(Snapshot(cells)), need) == Consume(Live(before), qty)
      invariant paid == Value(before) - Value(Snapshot(cells))
    {
      if cells[i].take > 0 {
        var used := UseRecord(cells, i, need);
        paid := paid + cells[i].price * used;
        need := need - used;
      }
      i := i + 1;
    }
    if need > 0 {
      NothingLeft(Snapshot(cells));
      assert false;
    }
  }

  method SumTakes(cells: seq<LotCell>) returns (total: int)
    ensures total == Total(Snapshot(cells))
  {
    total := 0;
    ghost var s := Snapshot(cells);
    assert s[..0] == [];
    for i := 0 to |cells|
      invariant total == Total(s[..i])
    {
      assert s[..i + 1] == s[..i] + [s[i]];
      TotalAppend(s[..i], [s[i]]);
      total := total + cells[i].take;
    }
    assert s[..|cells|] == s;
  }

  lemma {:induction false} SnapshotAppend(cells: seq<LotCell>, c: LotCell)
    ensures Snapshot(cells + [c]) == Snapshot(cells) + [c.AsLot()]
  {
  }

  lemma {:induction false} LiveNone()
    ensures Live([]) == []
  {
  }

  method KeepNonEmpty(cells: seq<LotCell>) returns (kept: seq<LotCell>)
    ensures Snapshot(kept) == Live(Snapshot(cells))
    ensures forall c | c in kept :: c in cells
  {
    hide Live;
    kept := [];
    ghost var s := Snapshot(cells);
    assert Snapshot(kept) == [] && s[0..] == s;
    for i := 0 to |cells|
      invariant Snapshot(kept) + Live(s[i..]) == Live(s)
      invariant forall c | c in kept :: c in cells
    {
      LiveHead(s[i..]);
      assert s[i..][1..] == s[i + 1..];
      if cells[i].take > 0 {
        SnapshotAppend(kept, cells[i]);
        kept := kept + [cells[i]];
      } else {
        assert [] + Live(s[i + 1..]) == Live(s[i + 1..]);
      }
    }
    LiveNone();
    assert s[|cells|..] == [];
  }

  function MergeRecovery(amount: int): int { DOLLAR * amount }

  function MergeRealizedPnl(amount: int, yesCost: int, noCost: int, fees: int): int {
    MergeRecovery(amount) - yesCost - noCost - fees
  }

  /** Number of whole pairs that can be merged. */
  function PairAmount(yes: int, no: int): (q: int)
    ensures q >= 0
    ensures yes >= 0 && no >= 0 ==> q <= yes && q <= no && (q == yes || q == no)
  {
    Max(0, Min(yes, no))
  }

  /** Shares really taken leave a mark on the records. */
  lemma {:induction false} TakenShows(q: seq<Lot>, r: seq<Lot>, qty: int)
    requires NonNegative(q) && NonNegative(r) && 0 < qty <= Total(q) && Live(r) == Consume(Live(q), qty)
    ensures r != q
  {
    hide Live, Consume, Total;
    LiveHeld(q);
    LiveHeld(r);
    ConsumeTotal(Live(q), qty);
  }

  /** Profit of one confirmed merge against both inventories. When only one side
      is short the other side has been consumed all the same; both stay untouched
      exactly when both are short. */
  method MergeEventPnlFromLots(amount: int, yes: seq<LotCell>, no: seq<LotCell>, fees: int)
    returns (pnl: int, yesCost: int, noCost: int, ok: bool)
    requires Distinct(yes) && Distinct(no) && (forall c | c in yes :: c !in no)
    requires NonNegative(Snapshot(yes)) && NonNegative(Snapshot(no))
    modifies yes, no
    ensures ok == (amount <= 0 || (amount <= old(Total(Snapshot(yes))) && amount <= old(Total(Snapshot(no)))))
    ensures ok ==>
              && Live(Snapshot(yes)) == Consume(old(Live(Snapshot(yes))), amount)
              && Live(Snapshot(no)) == Consume(old(Live(Snapshot(no))), amount)
              && yesCost == old(Value(Snapshot(yes))) - Value(Snapshot(yes))
              && noCost == old(Value(Snapshot(no))) - Value(Snapshot(no))
              && pnl == DOLLAR * amount - yesCost - noCost - fees
    ensures !ok ==> pnl == 0 && yesCost == 0 && noCost == 0
    ensures !ok && amount <= old(Total(Snapshot(yes))) ==>
              Live(Snapshot(yes)) == Consume(old(Live(Snapshot(yes))), amount)
    ensures !ok && amount <= old(Total(Snapshot(no))) ==>
              Live(Snapshot(no)) == Consume(old(Live(Snapshot(no))), amount)
    ensures amount > 0 ==> (Snapshot(yes) == old(Snapshot(yes)) <==> amount > old(Total(Snapshot(yes))))
    ensures amount > 0 ==> (Snapshot(no) == old(Snapshot(no)) <==> amount > old(Total(Snapshot(no))))
  {
    ghost var no0 := Snapshot(no);
    forall i | 0 <= i < |no| ensures no[i] !in yes && no0[i] == no[i].AsLot() {
      assert no[i] in no;
    }
    var y, _ := ConsumeFifoCost(yes, amount);
    assert forall i | 0 <= i < |no| :: no[i].AsLot() == no0[i];
    assert Snapshot(no) == no0;
    ghost var yes1 := Snapshot(yes);
    assert forall i | 0 <= i < |yes| :: yes1[i] == yes[i].AsLot();
    var n, _ := ConsumeFifoCost(no, amount);
    assert forall i | 0 <= i < |yes| :: yes[i] in yes && yes[i] !in no && yes[i].AsLot() == yes1[i];
    assert Snapshot(yes) == yes1;
    if 0 < amount <= old(Total(Snapshot(yes))) { TakenShows(old(Snapshot(yes)), Snapshot(yes), amount); }
    if 0 < amount <= old(Total(Snapshot(no))) { TakenShows(old(Snapshot(no)), Snapshot(no), amount); }
    if y.None? || n.None? {
      return 0, 0, 0, false;
    }
    return MergeRealizedPnl(amount, y.value, n.value, fees), y.value, n.value, true;
  }

  /** Price of `qty` shares off the front of a queue, as the router reserves it. */
  function ReservedCost(q: seq<Lot>, qty: int): Option<int> {
    if qty <= 0 then Some(0)
    else if Total(q) < qty then None
    else Some(Value(q) - Value(Consume(q, qty)))
  }

  /** What an event is booked with: a cost that cannot be had counts as zero. */
  function BookedCost(lots: seq<Lot>, qty: int): int {
    var c := ReservedCost(lots, qty);
    if c.Some? then c.value else 0
  }

  /** What the rebuilt inventory loses when a merge of `qty` is appended. */
  ghost function LostTo(fills: seq<CostBasis.Fill>, merges: seq<int>, qty: int): int {
    Value(CostBasis.Rebuild(fills, merges)) - Value(CostBasis.Rebuild(fills, merges + [qty]))
  }

  lemma {:induction false} AppendedMerge(fills: seq<CostBasis.Fill>, merges: seq<int>, qty: int)
    ensures CostBasis.Rebuild(fills, merges + [qty]) == Consume(CostBasis.Rebuild(fills, merges), qty)
    ensures Positive(CostBasis.Rebuild(fills, merges))
  {
    assert (merges + [qty])[..|merges|] == merges;
    CostBasis.RemainingLots(fills, merges);
  }

  /** For every amount: the cost booked from the rebuilt lots is what the inventory
      loses if and only if the lots cover the amount or are worth nothing. Otherwise
      nothing is booked and all they are worth is lost. */
  lemma {:induction false} ReserveMatchesRebuild(fills: seq<CostBasis.Fill>, merges: seq<int>, qty: int)
    ensures var q := CostBasis.Rebuild(fills, merges);
            && (BookedCost(q, qty) == LostTo(fills, merges, qty) <==> qty <= Total(q) || Value(q) == 0)
            && (qty > Total(q) ==> BookedCost(q, qty) == 0 && LostTo(fills, merges, qty) == Value(q))
            && Total(CostBasis.Rebuild(fills, merges + [qty])) == Max(0, Total(q) - Max(0, qty))
  {
    hide CostBasis.Rebuild;
    var q := CostBasis.Rebuild(fills, merges);
    AppendedMerge(fills, merges, qty);
    TotalPositive(q);
    ConsumeTotal(q, qty);
  }

  /** The cost is known and the lots cover the amount. */
  ghost predicate Covered(fills: seq<CostBasis.Fill>, size: int, merges: seq<int>, qty: int) {
    CostBasis.CostKnown(fills, size, merges) && qty <= Total(CostBasis.Rebuild(fills, merges))
  }

  /** The part of the loss an event is not booked with. */
  ghost function Unbooked(fills: seq<CostBasis.Fill>, size: int, merges: seq<int>, qty: int): int {
    LostTo(fills, merges, qty) - BookedCost(CostBasis.CostLots(fills, size, merges), qty)
  }

  /** One leg of an event, from the lots the position was given: either the whole loss
      is booked or none of it, and all of it exactly when the leg is covered or nothing
      is held. */
  lemma {:induction false} LegBookedExactly(fills: seq<CostBasis.Fill>, size: int, merges: seq<int>, qty: int)
    requires CostBasis.PaidFor(fills) && qty > 0
    ensures Unbooked(fills, size, merges, qty)
         == if Covered(fills, size, merges, qty) then 0 else LostTo(fills, merges, qty)
    ensures LostTo(fills, merges, qty) >= 0
    ensures LostTo(fills, merges, qty) == 0 <==> CostBasis.Rebuild(fills, merges) == []
  {
    hide CostBasis.Rebuild;
    var q := CostBasis.Rebuild(fills, merges);
    CostBasis.RebuildPriced(fills, merges);
    AppendedMerge(fills, merges, qty);
    ReserveMatchesRebuild(fills, merges, qty);
    TotalPositive(q);
    ConsumeTotal(q, qty);
    if q != [] { LossPositive(q, qty); }
  }

  lemma {:induction false} LossPositive(q: seq<Lot>, qty: int)
    requires Positive(q) && q != [] && qty > 0 && forall i | 0 <= i < |q| :: q[i].price > 0
    ensures Value(Consume(q, qty)) < Value(q)
  {
    RealizedConserves(q, 0, qty);
    LossNegative(q, qty);
  }

  /** Reserving q1 and then q2 from the same records costs what q1 + q2 would. */
  lemma {:induction false} ReservationsAdd(q: seq<Lot>, q1: int, q2: int)
    requires Positive(q) && 0 <= q1 && 0 <= q2 && q1 + q2 <= Total(q)
    ensures ReservedCost(q, q1).Some? && ReservedCost(Consume(q, q1), q2).Some?
    ensures ReservedCost(q, q1 + q2)
         == Some(ReservedCost(q, q1).value + ReservedCost(Consume(q, q1), q2).value)
  {
    ConsumeSplit(q, q1, q2);
    ConsumeTotal(q, q1);
  }

  lemma {:induction false} LossNegative(q: seq<Lot>, qty: int)
    requires Positive(q) && 0 < qty && q != [] && forall i | 0 <= i < |q| :: q[i].price > 0
    ensures Realized(q, 0, qty) < 0
  {
    ProductPositive(q[0].price, q[0].take);
    ProductPositive(q[0].price, qty);
    if q[0].take < qty && |q| > 1 {
      LossNegative(q[1..], qty - q[0].take);
    }
  }

  lemma {:induction false} ProductPositive(a: int, b: int)
    requires a > 0 && b > 0
    ensures a * b > 0
  {
  }

  /** What is charged to a second event that reserves the same size from records
      a first event has consumed: nothing at all, exactly when fewer than twice
      the shares are held, although the inventory would lose a positive amount. */
  lemma {:induction false} StaleReservationIsFree(q: seq<Lot>, qty: int)
    requires Positive(q) && 0 < qty <= Total(q) && forall i | 0 <= i < |q| :: q[i].price > 0
    ensures ReservedCost(q, qty).Some? && ReservedCost(q, qty).value > 0
    ensures ReservedCost(Consume(q, qty), qty).None? <==> Total(q) < 2 * qty
  {
    ConsumeTotal(q, qty);
    LossPositive(q, qty);
  }

  /** Within one tick the records stay consumed even if the first merge came to
      nothing. A second reservation of the same size then finds a price exactly
      when twice the shares are held, and that price is of the next shares, not
      of the ones the inventory would lose. */
  method ReserveTwice(cells: seq<LotCell>, qty: int) returns (first: Option<int>, second: Option<int>)
    requires Distinct(cells) && NonNegative(Snapshot(cells))
    requires 0 < qty <= Total(Snapshot(cells))
    modifies cells
    ensures first == old(ReservedCost(Live(Snapshot(cells)), qty))
    ensures second.Some? <==> 2 * qty <= old(Total(Snapshot(cells)))
    ensures second == old(ReservedCost(Consume(Live(Snapshot(cells)), qty), qty))
  {
    first := ReserveOnce(cells, qty);
    second := ReserveOnce(cells, qty);
  }

  /** One reservation seen from the live queue. */
  method ReserveOnce(cells: seq<LotCell>, qty: int) returns (cost: Option<int>)
    requires Distinct(cells) && NonNegative(Snapshot(cells)) && 0 < qty
    modifies cells
    ensures NonNegative(Snapshot(cells))
    ensures cost == old(ReservedCost(Live(Snapshot(cells)), qty))
    ensures cost.Some? ==> Live(Snapshot(cells)) == Consume(old(Live(Snapshot(cells))), qty)
    ensures cost.Some? <==> qty <= old(Total(Snapshot(cells)))
    ensures cost.Some? ==> Total(Snapshot(cells)) == old(Total(Snapshot(cells))) - qty
  {
    hide Live, Consume, Value, Total, Distinct, Positive;
    LiveHeld(Snapshot(cells));
    LiveValue(Snapshot(cells));
    ConsumeTotal(Live(Snapshot(cells)), qty);
    var kept: seq<LotCell>;
    cost, kept := ConsumeFifoCost(cells, qty);
    LiveHeld(Snapshot(cells));
    LiveValue(Snapshot(cells));
  }
}
