/** FIFO inventory: a queue of bought lots, oldest first, from which sells and
    merges take shares. Shares count millionths of a share, prices count
    ten-thousandths of a dollar, so every product below is an exact integer. */
module Fifo {

  /** Millionths in one share. */
  const SHARE := 1_000_000

  datatype Lot = Lot(price: int, take: int, ts: int, tid: string)

  function Min(a: int, b: int): int { if a <= b then a else b }

  function Max(a: int, b: int): int { if a >= b then a else b }

  ghost predicate Positive(q: seq<Lot>) {
    forall i | 0 <= i < |q| :: q[i].take > 0
  }

  function Total(q: seq<Lot>): int {
    if q == [] then 0 else q[0].take + Total(q[1..])
  }

  /** Cost of everything in the queue, price times shares. */
  function Value(q: seq<Lot>): int {
    if q == [] then 0 else q[0].price * q[0].take + Value(q[1..])
  }

  /** The queue after `qty` shares have been taken from its front. */
  function Consume(q: seq<Lot>, qty: int): seq<Lot> {
    if q == [] || qty <= 0 then q
    else if q[0].take <= qty then Consume(q[1..], qty - q[0].take)
    else [q[0].(take := q[0].take - qty)] + q[1..]
  }

  /** `r` is what is left of `b` once a prefix is gone and at most the first
      remaining lot has been cut down. */
  ghost predicate TrimmedSuffix(r: seq<Lot>, b: seq<Lot>) {
    && |r| <= |b|
    && (r != [] ==>
          var k := |b| - |r|;
          && 0 < r[0].take <= b[k].take
          && r[0] == b[k].(take := r[0].take)
          && r[1..] == b[k + 1..])
  }

  lemma {:induction false} TotalAppend(a: seq<Lot>, b: seq<Lot>)
    ensures Total(a + b) == Total(a) + Total(b)
  {
    if a == [] {
      assert a + b == b;
    } else {
      assert (a + b)[1..] == a[1..] + b;
      TotalAppend(a[1..], b);
    }
  }

  lemma {:induction false} TotalPositive(q: seq<Lot>)
    requires Positive(q)
    ensures Total(q) >= 0
    ensures Total(q) == 0 <==> q == []
  {
    if q != [] { TotalPositive(q[1..]); }
  }

  lemma {:induction false} ConsumeTotal(q: seq<Lot>, qty: int)
    requires Positive(q)
    ensures Positive(Consume(q, qty))
    ensures Total(Consume(q, qty)) == Max(0, Total(q) - Max(0, qty))
    ensures Consume(q, qty) == [] <==> Total(q) <= Max(0, qty)
  {
    TotalPositive(q);
    if q != [] && qty > 0 && q[0].take <= qty {
      ConsumeTotal(q[1..], qty - q[0].take);
    } else if q != [] && qty > 0 {
      TotalPositive(q[1..]);
    }
  }

  /** Two consumptions in a row are one of the sum. */
  lemma {:induction false} ConsumeSplit(q: seq<Lot>, a: int, b: int)
    requires a >= 0 && b >= 0 && Positive(q)
    ensures Consume(Consume(q, a), b) == Consume(q, a + b)
  {
    if q != [] && a > 0 {
      if q[0].take <= a {
        ConsumeSplit(q[1..], a - q[0].take, b);
      } else {
        var h := [q[0].(take := q[0].take - a)] + q[1..];
        assert h[1..] == q[1..];
      }
    }
  }

  /** A lot bought later does not change who pays for shares that were there. */
  lemma {:induction false} ConsumeAppend(q: seq<Lot>, t: seq<Lot>, qty: int)
    requires Positive(q) && qty <= Total(q)
    ensures Consume(q + t, qty) == Consume(q, qty) + t
  {
    if q != [] && qty > 0 {
      var head := q[0];
      assert (q + t)[0] == head && (q + t)[1..] == q[1..] + t;
      if head.take <= qty {
        ConsumeAppend(q[1..], t, qty - head.take);
      } else {
        var cut := [head.(take := head.take - qty)];
        assert Consume(q + t, qty) == cut + (q[1..] + t);
        assert Consume(q, qty) == cut + q[1..];
      }
    }
  }

  lemma {:induction false} ConsumeIsTrimmedSuffix(q: seq<Lot>, qty: int)
    requires Positive(q)
    ensures TrimmedSuffix(Consume(q, qty), q)
  {
    if q != [] && qty > 0 && q[0].take <= qty {
      ConsumeIsTrimmedSuffix(q[1..], qty - q[0].take);
      var r := Consume(q[1..], qty - q[0].take);
      if r != [] {
        assert q[1..][|q[1..]| - |r|] == q[|q| - |r|];
        assert q[1..][|q[1..]| - |r| + 1..] == q[|q| - |r| + 1..];
      }
    }
  }

  /** The newest `count` shares of a bought stream. */
  ghost function Newest(b: seq<Lot>, count: int): seq<Lot> {
    Consume(b, Total(b) - count)
  }

  lemma {:induction false} NewestTotal(b: seq<Lot>, count: int)
    requires Positive(b) && 0 <= count <= Total(b)
    ensures Positive(Newest(b, count))
    ensures Total(Newest(b, count)) == count
    ensures count == 0 <==> Newest(b, count) == []
  {
    ConsumeTotal(b, Total(b) - count);
  }

  lemma {:induction false} NewestInjective(b: seq<Lot>, m: int, n: int)
    requires Positive(b) && 0 <= m <= Total(b) && 0 <= n <= Total(b)
    ensures Newest(b, m) == Newest(b, n) <==> m == n
  {
    NewestTotal(b, m);
    NewestTotal(b, n);
  }

  lemma {:induction false} NewestAfterConsume(b: seq<Lot>, count: int, qty: int)
    requires Positive(b) && 0 <= count <= Total(b)
    ensures Consume(Newest(b, count), qty) == Newest(b, Max(0, count - Max(0, qty)))
  {
    if qty > 0 {
      ConsumeSplit(b, Total(b) - count, qty);
      ConsumeTotal(b, Total(b) - count + qty);
      ConsumeTotal(b, Total(b));
    }
  }

  lemma {:induction false} NewestAfterBuy(b: seq<Lot>, count: int, l: Lot)
    requires Positive(b) && 0 <= count <= Total(b) && l.take > 0
    ensures Newest(b, count) + [l] == Newest(b + [l], count + l.take)
    ensures Positive(b + [l]) && Total(b + [l]) == Total(b) + l.take
  {
    TotalAppend(b, [l]);
    ConsumeAppend(b, [l], Total(b) - count);
  }

  /** A weighted average of the queue lies between its cheapest and dearest lot. */
  lemma {:induction false} ValueBetween(q: seq<Lot>, lo: int, hi: int)
    requires Positive(q)
    requires forall i | 0 <= i < |q| :: lo <= q[i].price <= hi
    ensures lo * Total(q) <= Value(q) <= hi * Total(q)
  {
    if q != [] {
      ValueBetween(q[1..], lo, hi);
      var p, t, n := q[0].price, q[0].take, Total(q[1..]);
      assert lo * t <= p * t <= hi * t by { MulMono(lo, p, t); MulMono(p, hi, t); }
      assert lo * (t + n) == lo * t + lo * n;
      assert hi * (t + n) == hi * t + hi * n;
    }
  }

  lemma {:induction false} MulMono(a: int, b: int, k: int)
    requires a <= b && 0 <= k
    ensures a * k <= b * k
  {
  }

  /** Profit of selling `qty` shares at `price` against the front of the queue. */
  function Realized(q: seq<Lot>, price: int, qty: int): int {
    if q == [] || qty <= 0 then 0
    else if q[0].take <= qty then (price - q[0].price) * q[0].take + Realized(q[1..], price, qty - q[0].take)
    else (price - q[0].price) * qty
  }

  /** Conservation of one sale: profit is the matched proceeds less the fall in
      the value of the inventory. */
  lemma {:induction false} RealizedConserves(q: seq<Lot>, price: int, qty: int)
    requires Positive(q)
    ensures Realized(q, price, qty)
         == price * Min(Max(0, qty), Total(q)) - (Value(q) - Value(Consume(q, qty)))
  {
    TotalPositive(q);
    if q != [] && qty > 0 {
      TotalPositive(q[1..]);
      var t, c := q[0].take, q[0].price;
      if t <= qty {
        RealizedConserves(q[1..], price, qty - t);
        Distribute(price, c, t, Min(qty - t, Total(q[1..])));
      } else {
        var r := [q[0].(take := t - qty)] + q[1..];
        assert r[1..] == q[1..];
        Distribute(c, price, t - qty, qty);
      }
    }
  }

  lemma {:induction false} Distribute(a: int, b: int, m: int, n: int)
    ensures a * (m + n) == a * m + a * n
    ensures (a - b) * m == a * m - b * m && (b - a) * n == b * n - a * n
  {
  }
}
