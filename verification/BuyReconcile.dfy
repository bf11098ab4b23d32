/** Converging the resting buys of one token on a target ladder: cancel what is off
    target, place what is missing, leave the rest in its queue position. */
module BuyReconcile {
  import opened Fifo
  import opened OrderSizing
  import opened Wrappers

  datatype Order = Order(price: int, shares: int)

  /** A buy on the exchange; sizes in millionths of a share. */
  datatype Resting = Resting(id: Option<string>, price: int, size: int, matched: int)

  function Remaining(o: Resting): int { o.size - o.matched }

  /** Shares wanted at a price; the last entry wins if the ladder repeats one. */
  function Target(ladder: seq<Order>, price: int): Option<int> {
    if ladder == [] then None
    else if ladder[|ladder| - 1].price == price then Some(ladder[|ladder| - 1].shares)
    else Target(ladder[..|ladder| - 1], price)
  }

  function Tolerance(shares: int, pct: real): real {
    var part := pct * (shares * SHARE) as real;
    if part > SHARE as real then part else SHARE as real
  }

  function Off(o: Resting, shares: int): int {
    if Remaining(o) >= shares * SHARE then Remaining(o) - shares * SHARE else shares * SHARE - Remaining(o)
  }

  /** The order rests at a target price with about the target quantity left. */
  predicate Fits(o: Resting, ladder: seq<Order>, pct: real) {
    var want := Target(ladder, o.price);
    want.Some? && Off(o, want.value) as real <= Tolerance(want.value, pct)
  }

  /** Entry `k` is the last of the ladder at this price. */
  ghost predicate LastAt(ladder: seq<Order>, price: int, k: nat) {
    && k < |ladder| && ladder[k].price == price
    && forall j | k < j < |ladder| :: ladder[j].price != price
  }

  lemma {:induction false} TargetIsLast(ladder: seq<Order>, price: int)
    ensures Target(ladder, price).None? ==> forall k: nat :: !LastAt(ladder, price, k)
    ensures Target(ladder, price).Some? ==>
              exists k: nat :: LastAt(ladder, price, k) && ladder[k].shares == Target(ladder, price).value
  {
    if ladder != [] {
      var n := |ladder| - 1;
      if ladder[n].price == price {
        assert LastAt(ladder, price, n);
      } else {
        TargetIsLast(ladder[..n], price);
        forall k: nat | LastAt(ladder, price, k) ensures LastAt(ladder[..n], price, k) {}
        forall k: nat | LastAt(ladder[..n], price, k) ensures LastAt(ladder, price, k) {}
      }
    }
  }

  /** An order fits exactly when its price is a target price and what is left of it,
      size less what has been filled, differs from the target by at most one share or
      the given part of the target. */
  lemma {:induction false} FitsExactly(o: Resting, ladder: seq<Order>, pct: real)
    ensures Fits(o, ladder, pct)
       <==> exists k: nat :: LastAt(ladder, o.price, k)
                             && var target := ladder[k].shares * 1_000_000;
                                var off := (o.size - o.matched - target) as real;
                                -1_000_000.0 <= off <= 1_000_000.0
                                || -(pct * target as real) <= off <= pct * target as real
  {
    TargetIsLast(ladder, o.price);
    forall j: nat, k: nat | LastAt(ladder, o.price, j) && LastAt(ladder, o.price, k) ensures j == k {}
  }

  /** Some order among the first `n` holds the target price `price`. */
  ghost predicate Held(resting: seq<Resting>, ladder: seq<Order>, pct: real, n: nat, price: int)
    requires n <= |resting|
  {
    exists i :: 0 <= i < n && resting[i].price == price && Fits(resting[i], ladder, pct)
  }

  /** The first fitting order at its price is kept, and only that one. */
  ghost predicate Keeper(resting: seq<Resting>, ladder: seq<Order>, pct: real, i: nat)
    requires i < |resting|
  {
    Fits(resting[i], ladder, pct) && !Held(resting, ladder, pct, i, resting[i].price)
  }

  ghost function Dropped(resting: seq<Resting>, ladder: seq<Order>, pct: real, n: nat): seq<string>
    requires n <= |resting|
  {
    if n == 0 then []
    else if Keeper(resting, ladder, pct, n - 1) || resting[n - 1].id.None? then Dropped(resting, ladder, pct, n - 1)
    else Dropped(resting, ladder, pct, n - 1) + [resting[n - 1].id.value]
  }

  ghost function Missing(resting: seq<Resting>, ladder: seq<Order>, pct: real, n: nat): seq<Order>
    requires n <= |ladder|
  {
    if n == 0 then []
    else
      Missing(resting, ladder, pct, n - 1)
      + if Held(resting, ladder, pct, |resting|, ladder[n - 1].price) then [] else [ladder[n - 1]]
  }

  method ReconcileBuyOrders(ladder: seq<Order>, resting: seq<Resting>, pct: real)
    returns (cancelIds: seq<string>, toPlace: seq<Order>)
    ensures cancelIds == Dropped(resting, ladder, pct, |resting|)
    ensures toPlace == Missing(resting, ladder, pct, |ladder|)
  {
    var keep: set<int> := {};
    cancelIds, toPlace := [], [];
    for i := 0 to |resting|
      invariant forall p :: p in keep <==> Held(resting, ladder, pct, i, p)
      invariant cancelIds == Dropped(resting, ladder, pct, i)
    {
      var o := resting[i];
      if o.price !in keep && Fits(o, ladder, pct) {
        keep := keep + {o.price};
      } else if o.id.Some? {
        cancelIds := cancelIds + [o.id.value];
      }
      HeldStep(resting, ladder, pct, i);
    }
    for i := 0 to |ladder|
      invariant toPlace == Missing(resting, ladder, pct, i)
    {
      if ladder[i].price !in keep {
        toPlace := toPlace + [ladder[i]];
      }
    }
  }

  lemma {:induction false} HeldStep(resting: seq<Resting>, ladder: seq<Order>, pct: real, i: nat)
    requires i < |resting|
    ensures forall p :: Held(resting, ladder, pct, i + 1, p)
                        <==> Held(resting, ladder, pct, i, p)
                             || (p == resting[i].price && Fits(resting[i], ladder, pct))
  {
  }

  // ---------------------------------------------------------------- what the two lists achieve

  ghost predicate Identified(book: seq<Resting>) {
    && (forall i | 0 <= i < |book| :: book[i].id.Some?)
    && (forall i, j | 0 <= i < j < |book| :: book[i].id != book[j].id)
  }

  ghost predicate DistinctPrices(ladder: seq<Order>) {
    forall i, j | 0 <= i < j < |ladder| :: ladder[i].price != ladder[j].price
  }

  /** What rests once the exchange has carried out a cancel list. */
  ghost function Left(resting: seq<Resting>, cancelIds: seq<string>): seq<Resting> {
    if resting == [] then []
    else
      var o := resting[|resting| - 1];
      Left(resting[..|resting| - 1], cancelIds)
      + if o.id.Some? && o.id.value in cancelIds then [] else [o]
  }

  /** The orders the exchange opens for a place list. */
  ghost predicate Opens(placed: seq<Resting>, toPlace: seq<Order>) {
    && |placed| == |toPlace|
    && forall i | 0 <= i < |toPlace| ::
         placed[i].price == toPlace[i].price && Remaining(placed[i]) == toPlace[i].shares * SHARE
  }

  ghost predicate DistinctBook(book: seq<Resting>) {
    forall i, j | 0 <= i < j < |book| :: book[i].price != book[j].price
  }

  ghost predicate PriceIn(book: seq<Resting>, p: int) {
    exists o :: o in book && o.price == p
  }

  ghost predicate AllFit(book: seq<Resting>, ladder: seq<Order>, pct: real) {
    forall o | o in book :: Fits(o, ladder, pct)
  }

  /** Exactly one order per target price, each within tolerance, and nothing else. */
  ghost predicate Settled(book: seq<Resting>, ladder: seq<Order>, pct: real) {
    AllFit(book, ladder, pct) && DistinctBook(book) && forall t | t in ladder :: PriceIn(book, t.price)
  }

  lemma {:induction false} InDropped(resting: seq<Resting>, ladder: seq<Order>, pct: real, n: nat, i: nat)
    requires Identified(resting) && n <= |resting| && i < |resting|
    ensures resting[i].id.value in Dropped(resting, ladder, pct, n) <==> i < n && !Keeper(resting, ladder, pct, i)
  {
    if n > 0 {
      InDropped(resting, ladder, pct, n - 1, i);
      if i < n - 1 { assert resting[i].id != resting[n - 1].id; }
      if i > n - 1 { assert resting[n - 1].id != resting[i].id; }
    }
  }

  ghost function Kept(resting: seq<Resting>, ladder: seq<Order>, pct: real, n: nat): seq<Resting>
    requires n <= |resting|
  {
    if n == 0 then []
    else Kept(resting, ladder, pct, n - 1) + if Keeper(resting, ladder, pct, n - 1) then [resting[n - 1]] else []
  }

  lemma {:induction false} LeftIsKept(resting: seq<Resting>, ladder: seq<Order>, pct: real, n: nat)
    requires Identified(resting) && n <= |resting|
    ensures Left(resting[..n], Dropped(resting, ladder, pct, |resting|)) == Kept(resting, ladder, pct, n)
  {
    if n > 0 {
      LeftIsKept(resting, ladder, pct, n - 1);
      assert resting[..n][..n - 1] == resting[..n - 1];
      InDropped(resting, ladder, pct, |resting|, n - 1);
    }
  }

  /** Kept orders fit, hold different prices, and cover every price that is held. */
  lemma {:induction false} KeptFits(resting: seq<Resting>, ladder: seq<Order>, pct: real, n: nat)
    requires n <= |resting|
    ensures AllFit(Kept(resting, ladder, pct, n), ladder, pct)
    ensures DistinctBook(Kept(resting, ladder, pct, n))
    ensures forall p :: Held(resting, ladder, pct, n, p) <==> PriceIn(Kept(resting, ladder, pct, n), p)
  {
    if n > 0 {
      KeptFits(resting, ladder, pct, n - 1);
      HeldStep(resting, ladder, pct, n - 1);
      var k, x := Kept(resting, ladder, pct, n - 1), resting[n - 1];
      PriceInAppend(k, [x]);
      if Keeper(resting, ladder, pct, n - 1) {
        assert !PriceIn(k, x.price);
        DistinctAppend(k, [x]);
        assert forall p :: PriceIn([x], p) <==> p == x.price;
      } else {
        assert k + [] == k;
      }
    }
  }

  lemma {:induction false} PriceInAppend(a: seq<Resting>, b: seq<Resting>)
    ensures forall p :: PriceIn(a + b, p) <==> PriceIn(a, p) || PriceIn(b, p)
    ensures forall o | o in b :: PriceIn(b, o.price)
  {
    forall p | PriceIn(a, p) ensures PriceIn(a + b, p) {
      var o :| o in a && o.price == p;
      assert o in a + b;
    }
    forall p | PriceIn(b, p) ensures PriceIn(a + b, p) {
      var o :| o in b && o.price == p;
      assert o in a + b;
    }
  }

  lemma {:induction false} DistinctAppend(a: seq<Resting>, b: seq<Resting>)
    requires DistinctBook(a) && DistinctBook(b)
    requires forall o | o in b :: !PriceIn(a, o.price)
    ensures DistinctBook(a + b)
  {
    var book := a + b;
    forall i, j | 0 <= i < j < |book| ensures book[i].price != book[j].price {
      if i < |a| <= j {
        assert a[i] in a && b[j - |a|] in b;
      }
    }
  }

  lemma {:induction false} MissingOrders(resting: seq<Resting>, ladder: seq<Order>, pct: real, n: nat)
    requires n <= |ladder| && DistinctPrices(ladder)
    ensures forall o | o in Missing(resting, ladder, pct, n) ::
              o in ladder[..n] && !Held(resting, ladder, pct, |resting|, o.price)
    ensures DistinctPrices(Missing(resting, ladder, pct, n))
    ensures forall k | 0 <= k < n ::
              Held(resting, ladder, pct, |resting|, ladder[k].price) || ladder[k] in Missing(resting, ladder, pct, n)
  {
    if n > 0 {
      MissingOrders(resting, ladder, pct, n - 1);
      assert ladder[..n] == ladder[..n - 1] + [ladder[n - 1]];
      NewPrice(Missing(resting, ladder, pct, n - 1), ladder, n - 1);
    }
  }

  lemma {:induction false} NewPrice(m: seq<Order>, ladder: seq<Order>, n: nat)
    requires DistinctPrices(ladder) && DistinctPrices(m) && n < |ladder|
    requires forall o | o in m :: o in ladder[..n]
    ensures DistinctPrices(m + [ladder[n]])
  {
    forall i | 0 <= i < |m| ensures m[i].price != ladder[n].price {
      assert m[i] in ladder[..n];
    }
  }

  lemma {:induction false} TargetOf(ladder: seq<Order>, k: nat)
    requires DistinctPrices(ladder) && k < |ladder|
    ensures Target(ladder, ladder[k].price) == Some(ladder[k].shares)
  {
    if k < |ladder| - 1 {
      TargetOf(ladder[..|ladder| - 1], k);
    }
  }

  /** Carrying out the cancel list and the place list settles the token. */
  lemma {:induction false} ReconcileSettles(resting: seq<Resting>, ladder: seq<Order>, pct: real, placed: seq<Resting>)
    requires Identified(resting) && DistinctPrices(ladder)
    requires Opens(placed, Missing(resting, ladder, pct, |ladder|))
    ensures Settled(Left(resting, Dropped(resting, ladder, pct, |resting|)) + placed, ladder, pct)
  {
    var n, m := |resting|, Missing(resting, ladder, pct, |ladder|);
    var kept := Kept(resting, ladder, pct, n);
    assert resting[..n] == resting && ladder[..|ladder|] == ladder;
    LeftIsKept(resting, ladder, pct, n);
    KeptFits(resting, ladder, pct, n);
    MissingOrders(resting, ladder, pct, |ladder|);
    OpenedFit(m, ladder, pct, placed);
    PriceInAppend(kept, placed);
    DistinctAppend(kept, placed);
    forall t | t in ladder ensures PriceIn(kept + placed, t.price) {
      if t in m { assert PriceIn(placed, t.price); }
    }
  }

  lemma {:induction false} OpenedFit(m: seq<Order>, ladder: seq<Order>, pct: real, placed: seq<Resting>)
    requires DistinctPrices(ladder) && DistinctPrices(m) && Opens(placed, m)
    requires forall o | o in m :: o in ladder
    ensures AllFit(placed, ladder, pct) && DistinctBook(placed)
    ensures forall o | o in placed :: exists t :: t in m && t.price == o.price
    ensures forall t | t in m :: PriceIn(placed, t.price)
  {
    forall i | 0 <= i < |placed| ensures Fits(placed[i], ladder, pct) && m[i] in m && m[i].price == placed[i].price {
      assert m[i] in ladder;
      var k :| 0 <= k < |ladder| && ladder[k] == m[i];
      TargetOf(ladder, k);
    }
    forall t | t in m ensures PriceIn(placed, t.price) {
      var i :| 0 <= i < |m| && m[i] == t;
      assert placed[i] in placed;
    }
  }

  ghost predicate Quiet(book: seq<Resting>, ladder: seq<Order>, pct: real) {
    Dropped(book, ladder, pct, |book|) == [] && Missing(book, ladder, pct, |ladder|) == []
  }

  /** Reconciling asks for nothing exactly when the token is settled, so a second run
      right after the first changes nothing. */
  lemma {:induction false} QuietIffSettled(book: seq<Resting>, ladder: seq<Order>, pct: real)
    requires Identified(book)
    ensures Quiet(book, ladder, pct) <==> Settled(book, ladder, pct)
  {
    NoneDropped(book, ladder, pct, |book|);
    NoneMissing(book, ladder, pct, |ladder|);
    AllKept(book, ladder, pct);
    if AllFit(book, ladder, pct) {
      forall p ensures Held(book, ladder, pct, |book|, p) <==> PriceIn(book, p) {
        if PriceIn(book, p) {
          var o :| o in book && o.price == p;
          var i :| 0 <= i < |book| && book[i] == o;
          assert Held(book, ladder, pct, |book|, book[i].price);
        }
      }
    }
  }

  lemma {:induction false} AllKept(book: seq<Resting>, ladder: seq<Order>, pct: real)
    ensures (forall i | 0 <= i < |book| :: Keeper(book, ladder, pct, i))
            <==> AllFit(book, ladder, pct) && DistinctBook(book)
  {
    if forall i | 0 <= i < |book| :: Keeper(book, ladder, pct, i) {
      forall i, j | 0 <= i < j < |book| ensures book[i].price != book[j].price {
        assert Keeper(book, ladder, pct, i) && Keeper(book, ladder, pct, j);
      }
      forall i | 0 <= i < |book| ensures Fits(book[i], ladder, pct) { assert Keeper(book, ladder, pct, i); }
    }
  }

  lemma {:induction false} NoneDropped(book: seq<Resting>, ladder: seq<Order>, pct: real, n: nat)
    requires Identified(book) && n <= |book|
    ensures Dropped(book, ladder, pct, n) == [] <==> forall i | 0 <= i < n :: Keeper(book, ladder, pct, i)
  {
    if n > 0 { NoneDropped(book, ladder, pct, n - 1); }
  }

  lemma {:induction false} NoneMissing(book: seq<Resting>, ladder: seq<Order>, pct: real, n: nat)
    requires n <= |ladder|
    ensures Missing(book, ladder, pct, n) == []
            <==> forall k | 0 <= k < n :: Held(book, ladder, pct, |book|, ladder[k].price)
  {
    if n > 0 { NoneMissing(book, ladder, pct, n - 1); }
  }
}
