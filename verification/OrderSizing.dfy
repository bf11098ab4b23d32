/** How many whole shares an order may hold. Money counts price units times
    millionths of a share, so one whole share at `price` costs `price * SHARE`. */
module OrderSizing {
  import opened Fifo
  import opened Wrappers

  /** Whole part of `n / d`, dropping the fraction towards zero. */
  function Trunc(n: int, d: int): int
    requires d > 0
  {
    if n >= 0 then n / d else -((-n) / d)
  }

  /** A count fits in `n / d` exactly when its multiple of `d` does; below zero the
      fraction is dropped upwards. */
  lemma {:induction false} TruncFits(n: int, d: int, k: int)
    requires d > 0
    ensures n >= 0 ==> (k <= Trunc(n, d) <==> k * d <= n)
    ensures n < 0 ==> (k <= Trunc(n, d) <==> k * d < n + d)
  {
    var q := Trunc(n, d);
    if n >= 0 {
      assert q * d <= n < (q + 1) * d;
    } else {
      var m := (-n) / d;
      assert m * d <= -n < (m + 1) * d && q == -m;
      assert q * d == -(m * d) && (q + 1) * d == q * d + d && -(m + 1) * d == q * d - d;
    }
    if k <= q {
      Times(k, q, d);
    } else {
      Times(q + 1, k, d);
    }
  }

  lemma {:induction false} Times(a: int, b: int, d: int)
    requires a <= b && d > 0
    ensures a * d <= b * d
  {
  }

  datatype SizeMode = MinSize | Custom | Balance

  function Budget(mode: SizeMode, balance: int, customUsd: int): int {
    if mode.Balance? || balance <= customUsd then balance else customUsd
  }

  function ComputeOrderSize(mode: SizeMode, price: int, balance: int, minSize: int, customUsd: int): Option<int> {
    if price <= 0 then None
    else if mode.MinSize? then Some(minSize)
    else
      var size := Trunc(Budget(mode, balance, customUsd), price * SHARE);
      if size < minSize then None else Some(size)
  }

  /** The two spending modes buy as much as the budget pays for, which is the balance and
      in custom mode at most the custom amount, and give up exactly when it does not pay
      for the smallest order that qualifies; the third buys just that order. */
  lemma {:induction false} SpendingModesFillTheBudget(mode: SizeMode, price: int, balance: int, minSize: int,
                                                      customUsd: int)
    requires price > 0 && minSize > 0
    ensures mode == MinSize ==> ComputeOrderSize(mode, price, balance, minSize, customUsd) == Some(minSize)
    ensures mode != MinSize ==>
              var n := ComputeOrderSize(mode, price, balance, minSize, customUsd);
              var budget := if mode == Custom && customUsd < balance then customUsd else balance;
              && (n.None? <==> budget < minSize * (price * 1_000_000))
              && (n.Some? ==> n.value >= minSize && n.value * (price * 1_000_000) <= budget
                              && budget < (n.value + 1) * (price * 1_000_000))
  {
    var budget, cost := Budget(mode, balance, customUsd), price * SHARE;
    if budget >= 0 {
      TruncFits(budget, cost, minSize);
      TruncFits(budget, cost, Trunc(budget, cost));
      TruncFits(budget, cost, Trunc(budget, cost) + 1);
    } else {
      Times(0, minSize, cost);
      assert Trunc(budget, cost) <= 0;
    }
  }
}
