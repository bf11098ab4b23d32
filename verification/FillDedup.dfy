/** Detecting new buy fills: a set of handled fills kept in memory, primed from the
    full history after a start, against an exchange whose answers may repeat, omit or
    reorder trades, or fail. */
module FillDedup {
  import opened Fifo
  import opened Sorting
  import opened Wrappers
  import CostBasis

  /** What one party traded. */
  datatype Leg = Leg(asset: string, side: CostBasis.Side, price: int, size: int, feeBps: int)

  /** One maker order of a trade; addresses and sides already normalised. */
  datatype MakerOrder = MakerOrder(maker: string, order: Option<string>, leg: Leg)

  /** A trade as reported; `taker` is the leg of the trade itself, ours if `weTook`. */
  datatype Trade = Trade(id: Option<string>, market: string, ts: int, makers: seq<MakerOrder>, weTook: bool, taker: Leg)

  datatype Key = Key(trade: Option<string>, order: Option<string>)

  datatype Event = Event(key: Key, market: string, size: int, ts: int)

  function EventTs(e: Event): int { e.ts }

  function EventOf(tr: Trade, mo: MakerOrder): Event { Event(Key(tr.id, mo.order), tr.market, mo.leg.size, tr.ts) }

  predicate Fresh(tr: Trade, mo: MakerOrder, funder: string, seen: set<Key>) {
    mo.maker == funder && mo.leg.side.Buy? && Key(tr.id, mo.order) !in seen
  }

  /** Our unseen buys among the first `n` maker orders of a trade. */
  function OursIn(tr: Trade, n: nat, funder: string, seen: set<Key>): seq<Event>
    requires n <= |tr.makers|
  {
    if n == 0 then []
    else
      OursIn(tr, n - 1, funder, seen)
      + if Fresh(tr, tr.makers[n - 1], funder, seen) then [EventOf(tr, tr.makers[n - 1])] else []
  }

  function Flatten(trades: seq<Trade>, n: nat, funder: string, seen: set<Key>): seq<Event>
    requires n <= |trades|
  {
    if n == 0 then []
    else
      Flatten(trades, n - 1, funder, seen)
      + OursIn(trades[n - 1], |trades[n - 1].makers|, funder, seen)
  }

  function NewFills(trades: seq<Trade>, funder: string, seen: set<Key>): seq<Event> {
    StableSort(Flatten(trades, |trades|, funder, seen), EventTs)
  }

  method SelectNewBuyFills(trades: seq<Trade>, funder: string, seen: set<Key>) returns (events: seq<Event>)
    ensures events == NewFills(trades, funder, seen)
  {
    events := [];
    for i := 0 to |trades|
      invariant events == Flatten(trades, i, funder, seen)
    {
      var tr := trades[i];
      ghost var before := events;
      for j := 0 to |tr.makers|
        invariant events == before + OursIn(tr, j, funder, seen)
      {
        if Fresh(tr, tr.makers[j], funder, seen) {
          events := events + [EventOf(tr, tr.makers[j])];
        }
      }
    }
    events := StableSort(events, EventTs);
  }

  ghost predicate Mentions(trades: seq<Trade>, funder: string, e: Event) {
    exists i, j :: 0 <= i < |trades| && 0 <= j < |trades[i].makers|
                   && Fresh(trades[i], trades[i].makers[j], funder, {}) && e == EventOf(trades[i], trades[i].makers[j])
  }

  lemma {:induction false} OursInOnly(tr: Trade, n: nat, funder: string, seen: set<Key>, e: Event)
    requires n <= |tr.makers|
    ensures e in OursIn(tr, n, funder, seen)
            <==> exists j :: 0 <= j < n && Fresh(tr, tr.makers[j], funder, seen) && e == EventOf(tr, tr.makers[j])
  {
    if n > 0 { OursInOnly(tr, n - 1, funder, seen, e); }
  }

  lemma {:induction false} FlattenOnly(trades: seq<Trade>, n: nat, funder: string, seen: set<Key>, e: Event)
    requires n <= |trades|
    ensures e in Flatten(trades, n, funder, seen) <==> e.key !in seen && Mentions(trades[..n], funder, e)
  {
    if n > 0 {
      FlattenOnly(trades, n - 1, funder, seen, e);
      OursInOnly(trades[n - 1], |trades[n - 1].makers|, funder, seen, e);
      MentionsStep(trades, n, funder, e);
    }
  }

  lemma {:induction false} MentionsStep(trades: seq<Trade>, n: nat, funder: string, e: Event)
    requires 0 < n <= |trades|
    ensures var tr := trades[n - 1];
            Mentions(trades[..n], funder, e)
            <==> Mentions(trades[..n - 1], funder, e)
                 || exists j :: 0 <= j < |tr.makers| && Fresh(tr, tr.makers[j], funder, {})
                                && e == EventOf(tr, tr.makers[j])
  {
    if Mentions(trades[..n - 1], funder, e) {
      var i, j :| 0 <= i < n - 1 && 0 <= j < |trades[..n - 1][i].makers|
                  && Fresh(trades[..n - 1][i], trades[..n - 1][i].makers[j], funder, {})
                  && e == EventOf(trades[..n - 1][i], trades[..n - 1][i].makers[j]);
      assert trades[..n][i] == trades[..n - 1][i];
    }
    assert trades[..n][n - 1] == trades[n - 1];
  }

  /** The new fills are exactly the fills the answer mentions for us that were not
      handled before, oldest first, and those of one moment in order of arrival. */
  lemma {:induction false} NewFillsExactly(trades: seq<Trade>, funder: string, seen: set<Key>, e: Event)
    ensures e in NewFills(trades, funder, seen) <==> e.key !in seen && Mentions(trades, funder, e)
    ensures var es := NewFills(trades, funder, seen); forall i, j | 0 <= i < j < |es| :: es[i].ts <= es[j].ts
    ensures WithKey(NewFills(trades, funder, seen), EventTs, e.ts)
         == WithKey(Flatten(trades, |trades|, funder, seen), EventTs, e.ts)
  {
    StableSortIsStable(Flatten(trades, |trades|, funder, seen), EventTs, e.ts);
    assert trades[..|trades|] == trades;
    FlattenOnly(trades, |trades|, funder, seen, e);
    StableSortPermutes(Flatten(trades, |trades|, funder, seen), EventTs);
    StableSortSorts(Flatten(trades, |trades|, funder, seen), EventTs);
    var es := NewFills(trades, funder, seen);
    forall i, j | 0 <= i < j < |es| ensures es[i].ts <= es[j].ts {
      assert EventTs(es[i]) <= EventTs(es[j]);
    }
  }

  /** The same in the reported fields: an event is among the new fills exactly when some
      trade names one of our maker orders that bought, under a pair of trade and order
      not seen, with the market and time of the trade and the size of the order. */
  lemma {:induction false} NewFillsInFields(trades: seq<Trade>, funder: string, seen: set<Key>, e: Event)
    ensures e in NewFills(trades, funder, seen)
       <==> exists tr, mo :: tr in trades && mo in tr.makers
                             && mo.maker == funder && mo.leg.side == CostBasis.Buy
                             && e.key.trade == tr.id && e.key.order == mo.order && e.key !in seen
                             && e.market == tr.market && e.ts == tr.ts && e.size == mo.leg.size
  {
    NewFillsExactly(trades, funder, seen, e);
    if Mentions(trades, funder, e) {
      var i, j :| 0 <= i < |trades| && 0 <= j < |trades[i].makers|
                  && Fresh(trades[i], trades[i].makers[j], funder, {}) && e == EventOf(trades[i], trades[i].makers[j]);
      assert trades[i] in trades && trades[i].makers[j] in trades[i].makers;
    }
    forall tr, mo | tr in trades && mo in tr.makers && mo.maker == funder && mo.leg.side == CostBasis.Buy
                    && e.key.trade == tr.id && e.key.order == mo.order && e.key !in seen
                    && e.market == tr.market && e.ts == tr.ts && e.size == mo.leg.size
      ensures Mentions(trades, funder, e)
    {
      var i :| 0 <= i < |trades| && trades[i] == tr;
      var j :| 0 <= j < |tr.makers| && tr.makers[j] == mo;
      assert e == EventOf(tr, mo);
    }
  }

  // ---------------------------------------------------------------- repeats within one answer

  ghost predicate DistinctKeys(events: seq<Event>) {
    forall i, j | 0 <= i < j < |events| :: events[i].key != events[j].key
  }

  lemma {:induction false} NoneIsDistinct()
    ensures DistinctKeys([])
  {
  }

  ghost function KeysOf(events: seq<Event>): set<Key> { set e | e in events :: e.key }

  lemma {:induction false} DistinctBySize(events: seq<Event>)
    ensures |KeysOf(events)| <= |events|
    ensures DistinctKeys(events) <==> |KeysOf(events)| == |events|
  {
    if events != [] {
      var p, x := events[..|events| - 1], events[|events| - 1];
      DistinctBySize(p);
      assert events == p + [x];
      assert KeysOf(events) == KeysOf(p) + {x.key};
      assert DistinctKeys(events) <==> DistinctKeys(p) && x.key !in KeysOf(p) by { DistinctAppend(p, x); }
    }
  }

  lemma {:induction false} DistinctAppend(p: seq<Event>, x: Event)
    ensures DistinctKeys(p + [x]) <==> DistinctKeys(p) && x.key !in KeysOf(p)
  {
    var s := p + [x];
    if DistinctKeys(s) {
      forall i, j | 0 <= i < j < |p| ensures p[i].key != p[j].key { assert s[i].key != s[j].key; }
      forall e | e in p ensures e.key != x.key {
        var i :| 0 <= i < |p| && p[i] == e;
        assert s[i].key != s[|p|].key;
      }
    }
  }

  /** Sorting neither makes nor hides a repeat. */
  lemma {:induction false} SortKeepsDistinct(events: seq<Event>)
    ensures DistinctKeys(StableSort(events, EventTs)) <==> DistinctKeys(events)
  {
    var r := StableSort(events, EventTs);
    StableSortPermutes(events, EventTs);
    assert |r| == |multiset(r)| == |multiset(events)| == |events|;
    assert KeysOf(r) == KeysOf(events);
    DistinctBySize(r);
    DistinctBySize(events);
  }

  ghost predicate NoneShared(a: seq<Event>, b: seq<Event>) {
    forall x, y | x in a && y in b :: x.key != y.key
  }

  lemma {:induction false} DistinctConcat(a: seq<Event>, b: seq<Event>)
    ensures DistinctKeys(a + b) <==> DistinctKeys(a) && DistinctKeys(b) && NoneShared(a, b)
  {
    var s := a + b;
    if DistinctKeys(s) {
      forall i, j | 0 <= i < j < |a| ensures a[i].key != a[j].key { assert s[i].key != s[j].key; }
      forall i, j | 0 <= i < j < |b| ensures b[i].key != b[j].key { assert s[|a| + i].key != s[|a| + j].key; }
      forall x, y | x in a && y in b ensures x.key != y.key {
        var i, j :| 0 <= i < |a| && 0 <= j < |b| && a[i] == x && b[j] == y;
        assert s[i].key != s[|a| + j].key;
      }
    }
  }

  function KeyOf(tr: Trade, mo: MakerOrder): Key { Key(tr.id, mo.order) }

  /** The first `n` maker orders of the trade name no unseen order of ours twice. */
  ghost predicate NoOrderTwice(tr: Trade, n: nat, funder: string, seen: set<Key>)
    requires n <= |tr.makers|
  {
    forall j, l | 0 <= j < l < n && Fresh(tr, tr.makers[j], funder, seen) && Fresh(tr, tr.makers[l], funder, seen) ::
      tr.makers[j].order != tr.makers[l].order
  }

  lemma {:induction false} OursInDistinct(tr: Trade, n: nat, funder: string, seen: set<Key>)
    requires n <= |tr.makers|
    ensures DistinctKeys(OursIn(tr, n, funder, seen)) <==> NoOrderTwice(tr, n, funder, seen)
  {
    if n > 0 {
      var p, mo := OursIn(tr, n - 1, funder, seen), tr.makers[n - 1];
      OursInDistinct(tr, n - 1, funder, seen);
      if Fresh(tr, mo, funder, seen) {
        DistinctAppend(p, EventOf(tr, mo));
        OursInKey(tr, n - 1, funder, seen, mo.order);
      } else {
        assert OursIn(tr, n, funder, seen) == p;
      }
    }
  }

  lemma {:induction false} OursInKey(tr: Trade, n: nat, funder: string, seen: set<Key>, order: Option<string>)
    requires n <= |tr.makers|
    ensures Key(tr.id, order) in KeysOf(OursIn(tr, n, funder, seen))
       <==> exists j :: 0 <= j < n && Fresh(tr, tr.makers[j], funder, seen) && tr.makers[j].order == order
  {
    hide Fresh;
    if n > 0 {
      var p, mo := OursIn(tr, n - 1, funder, seen), tr.makers[n - 1];
      OursInKey(tr, n - 1, funder, seen, order);
      assert KeysOf(p + [EventOf(tr, mo)]) == KeysOf(p) + {KeyOf(tr, mo)};
    }
  }

  /** The trade mentions an unseen order of ours under this key. */
  ghost predicate NamesKey(tr: Trade, funder: string, seen: set<Key>, k: Key) {
    exists j :: 0 <= j < |tr.makers| && Fresh(tr, tr.makers[j], funder, seen) && KeyOf(tr, tr.makers[j]) == k
  }

  /** No unseen pair of trade and order of ours stands at two places of the answer,
      neither within one trade nor in two. */
  ghost predicate NoPairTwice(trades: seq<Trade>, n: nat, funder: string, seen: set<Key>)
    requires n <= |trades|
  {
    && (forall i | 0 <= i < n :: NoOrderTwice(trades[i], |trades[i].makers|, funder, seen))
    && (forall i, j, k | 0 <= i < j < n && NamesKey(trades[i], funder, seen, k) ::
          !NamesKey(trades[j], funder, seen, k))
  }

  lemma {:induction false} OursInNames(tr: Trade, funder: string, seen: set<Key>, k: Key)
    ensures k in KeysOf(OursIn(tr, |tr.makers|, funder, seen)) <==> NamesKey(tr, funder, seen, k)
  {
    var events := OursIn(tr, |tr.makers|, funder, seen);
    if k in KeysOf(events) {
      var e :| e in events && e.key == k;
      OursInOnly(tr, |tr.makers|, funder, seen, e);
    }
    if NamesKey(tr, funder, seen, k) {
      var j :| 0 <= j < |tr.makers| && Fresh(tr, tr.makers[j], funder, seen) && KeyOf(tr, tr.makers[j]) == k;
      OursInOnly(tr, |tr.makers|, funder, seen, EventOf(tr, tr.makers[j]));
    }
  }

  lemma {:induction false} FlattenNames(trades: seq<Trade>, n: nat, funder: string, seen: set<Key>, k: Key)
    requires n <= |trades|
    ensures k in KeysOf(Flatten(trades, n, funder, seen))
       <==> exists i :: 0 <= i < n && NamesKey(trades[i], funder, seen, k)
  {
    hide NamesKey;
    if n > 0 {
      var p, q := Flatten(trades, n - 1, funder, seen), OursIn(trades[n - 1], |trades[n - 1].makers|, funder, seen);
      FlattenNames(trades, n - 1, funder, seen, k);
      OursInNames(trades[n - 1], funder, seen, k);
      assert KeysOf(p + q) == KeysOf(p) + KeysOf(q);
    }
  }

  lemma {:induction false} SharedKeys(a: seq<Event>, b: seq<Event>)
    ensures NoneShared(a, b) <==> KeysOf(a) !! KeysOf(b)
  {
    if !(KeysOf(a) !! KeysOf(b)) {
      var k :| k in KeysOf(a) && k in KeysOf(b);
      var x, y :| x in a && y in b && x.key == k && y.key == k;
      assert !NoneShared(a, b);
    }
    if !NoneShared(a, b) {
      var x, y :| x in a && y in b && x.key == y.key;
      assert x.key in KeysOf(a) && x.key in KeysOf(b);
    }
  }

  lemma {:induction false} FlattenDistinct(trades: seq<Trade>, n: nat, funder: string, seen: set<Key>)
    requires n <= |trades|
    ensures DistinctKeys(Flatten(trades, n, funder, seen)) <==> NoPairTwice(trades, n, funder, seen)
  {
    hide DistinctKeys, NoOrderTwice, NamesKey, KeysOf, NoneShared, OursIn;
    if n == 0 {
      NoneIsDistinct();
    } else {
      var tr, p := trades[n - 1], Flatten(trades, n - 1, funder, seen);
      var q := OursIn(tr, |tr.makers|, funder, seen);
      FlattenDistinct(trades, n - 1, funder, seen);
      OursInDistinct(tr, |tr.makers|, funder, seen);
      DistinctConcat(p, q);
      LastNamesNew(trades, n, funder, seen);
    }
  }

  lemma {:induction false} LastNamesNew(trades: seq<Trade>, n: nat, funder: string, seen: set<Key>)
    requires 0 < n <= |trades|
    ensures NoneShared(Flatten(trades, n - 1, funder, seen),
                       OursIn(trades[n - 1], |trades[n - 1].makers|, funder, seen))
       <==> forall i, k | 0 <= i < n - 1 && NamesKey(trades[i], funder, seen, k) ::
              !NamesKey(trades[n - 1], funder, seen, k)
  {
    hide NamesKey, KeysOf, NoneShared, Flatten, OursIn;
    var tr, p := trades[n - 1], Flatten(trades, n - 1, funder, seen);
    var q := OursIn(tr, |tr.makers|, funder, seen);
    SharedKeys(p, q);
    forall k ensures k in KeysOf(p) <==> exists i :: 0 <= i < n - 1 && NamesKey(trades[i], funder, seen, k) {
      FlattenNames(trades, n - 1, funder, seen, k);
    }
    forall k ensures k in KeysOf(q) <==> NamesKey(tr, funder, seen, k) {
      OursInNames(tr, funder, seen, k);
    }
  }

  /** Within one answer every fill is handled once exactly when no unseen pair of trade
      and order of ours is reported twice. */
  lemma {:induction false} OnceUnlessRepeated(trades: seq<Trade>, funder: string, seen: set<Key>)
    ensures DistinctKeys(NewFills(trades, funder, seen)) <==> NoPairTwice(trades, |trades|, funder, seen)
  {
    SortKeepsDistinct(Flatten(trades, |trades|, funder, seen));
    FlattenDistinct(trades, |trades|, funder, seen);
  }

  // ---------------------------------------------------------------- the fills of one token

  function FillOf(tr: Trade, leg: Leg): CostBasis.Fill {
    CostBasis.Fill(leg.side, leg.price, leg.size, tr.ts, if tr.id.Some? then tr.id.value else "", leg.feeBps)
  }

  /** Our maker fills of the token among the first `n` maker orders. */
  function MakerFills(tr: Trade, n: nat, funder: string, asset: string): seq<CostBasis.Fill>
    requires n <= |tr.makers|
  {
    if n == 0 then []
    else
      var mo := tr.makers[n - 1];
      MakerFills(tr, n - 1, funder, asset)
      + if mo.maker == funder && mo.leg.asset == asset then [FillOf(tr, mo.leg)] else []
  }

  predicate WeMade(tr: Trade, n: nat, funder: string)
    requires n <= |tr.makers|
  {
    exists j :: 0 <= j < n && tr.makers[j].maker == funder
  }

  /** What a trade adds to the stream of a token: our maker fills, or the taker leg
      when none of its maker orders is ours, never both. */
  function FillsIn(tr: Trade, funder: string, asset: string): seq<CostBasis.Fill> {
    if WeMade(tr, |tr.makers|, funder) then MakerFills(tr, |tr.makers|, funder, asset)
    else if tr.weTook && tr.taker.asset == asset then [FillOf(tr, tr.taker)]
    else []
  }

  /** The fill is that of a leg: side, price, size and fee rate of the leg, time and id of
      the trade, or no id where the trade has none. */
  ghost predicate Records(f: CostBasis.Fill, tr: Trade, leg: Leg) {
    && f.side == leg.side && f.price == leg.price && f.size == leg.size && f.feeBps == leg.feeBps
    && f.ts == tr.ts && f.tid == match tr.id case None => "" case Some(id) => id
  }

  ghost predicate OursOn(mo: MakerOrder, funder: string, asset: string) {
    mo.maker == funder && mo.leg.asset == asset
  }

  /** `js` are the positions of our maker orders on the token among the first `n`, each
      once and in order, and `fills` are their fills. */
  ghost predicate CountsEach(tr: Trade, n: nat, funder: string, asset: string, js: seq<nat>, fills: seq<CostBasis.Fill>)
    requires n <= |tr.makers|
  {
    && (forall i, k | 0 <= i < k < |js| :: js[i] < js[k])
    && (forall j | j in js :: j < n && OursOn(tr.makers[j], funder, asset))
    && (forall j | 0 <= j < n && OursOn(tr.makers[j], funder, asset) :: j in js)
    && |fills| == |js|
    && (forall i | 0 <= i < |js| :: js[i] < n && Records(fills[i], tr, tr.makers[js[i]].leg))
  }

  lemma {:induction false} MakerFillsEach(tr: Trade, n: nat, funder: string, asset: string) returns (js: seq<nat>)
    requires n <= |tr.makers|
    ensures CountsEach(tr, n, funder, asset, js, MakerFills(tr, n, funder, asset))
  {
    if n == 0 {
      js := [];
    } else {
      js := MakerFillsEach(tr, n - 1, funder, asset);
      js := CountsNext(tr, n, funder, asset, js, MakerFills(tr, n - 1, funder, asset));
    }
  }

  lemma {:induction false} RecordsLeg(tr: Trade, leg: Leg)
    ensures Records(FillOf(tr, leg), tr, leg)
  {
  }

  lemma {:induction false} CountsNext(tr: Trade, n: nat, funder: string, asset: string, js: seq<nat>,
                                      fills: seq<CostBasis.Fill>) returns (ks: seq<nat>)
    requires 0 < n <= |tr.makers| && CountsEach(tr, n - 1, funder, asset, js, fills)
    ensures var mo := tr.makers[n - 1];
            CountsEach(tr, n, funder, asset, ks, fills + if OursOn(mo, funder, asset) then [FillOf(tr, mo.leg)] else [])
  {
    hide FillOf, OursOn, Records;
    var leg := tr.makers[n - 1].leg;
    assert Records(FillOf(tr, leg), tr, leg) by { RecordsLeg(tr, leg); }
    ks := js;
    if OursOn(tr.makers[n - 1], funder, asset) {
      ks := js + [n - 1];
      assert n - 1 in ks;
      forall j | j in ks ensures j < n && OursOn(tr.makers[j], funder, asset) {
        assert j in js || j == n - 1;
      }
    }
  }

  /** No trade is counted from both sides and no leg is lost or doubled: when some maker
      order is ours, each of our maker orders on the token counts once, in order;
      otherwise only the taker leg counts, if it is ours and on the token. */
  lemma {:induction false} OneSideOnly(tr: Trade, funder: string, asset: string) returns (js: seq<nat>)
    ensures (exists mo :: mo in tr.makers && mo.maker == funder) ==>
              CountsEach(tr, |tr.makers|, funder, asset, js, FillsIn(tr, funder, asset))
    ensures (forall mo | mo in tr.makers :: mo.maker != funder) ==>
              var fills := FillsIn(tr, funder, asset);
              if tr.weTook && tr.taker.asset == asset then |fills| == 1 && Records(fills[0], tr, tr.taker)
              else fills == []
  {
    js := MakerFillsEach(tr, |tr.makers|, funder, asset);
  }

  function AssetFills(trades: seq<Trade>, n: nat, funder: string, asset: string): seq<CostBasis.Fill>
    requires n <= |trades|
  {
    if n == 0 then [] else AssetFills(trades, n - 1, funder, asset) + FillsIn(trades[n - 1], funder, asset)
  }

  method ExtractFills(trades: seq<Trade>, funder: string, asset: string) returns (out: seq<CostBasis.Fill>)
    ensures out == AssetFills(trades, |trades|, funder, asset)
  {
    out := [];
    for i := 0 to |trades|
      invariant out == AssetFills(trades, i, funder, asset)
    {
      var fills := ExtractFrom(trades[i], funder, asset);
      out := out + fills;
    }
  }

  method ExtractFrom(tr: Trade, funder: string, asset: string) returns (fills: seq<CostBasis.Fill>)
    ensures fills == FillsIn(tr, funder, asset)
  {
    fills := [];
    var made := false;
    for j := 0 to |tr.makers|
      invariant made == WeMade(tr, j, funder)
      invariant fills == MakerFills(tr, j, funder, asset)
      invariant !made ==> fills == []
    {
      var mo := tr.makers[j];
      if mo.maker == funder {
        made := true;
        if mo.leg.asset == asset {
          fills := fills + [FillOf(tr, mo.leg)];
        }
      }
    }
    if !made && tr.weTook && tr.taker.asset == asset {
      fills := fills + [FillOf(tr, tr.taker)];
    }
  }

  // ---------------------------------------------------------------- the monitor

  datatype State = State(seen: set<Key>, afterTs: int, primePending: bool)

  /** What the exchange answers in a tick; `None` stands for a failed call. */
  datatype Answers = Answers(prime: Option<seq<Trade>>, fills: Option<seq<Trade>>, open: Option<set<string>>)

  function Absorb(s: State, events: seq<Event>): State {
    if events == [] then s
    else
      var n := |events| - 1;
      var r := Absorb(s, events[..n]);
      r.(seen := r.seen + {events[n].key}, afterTs := Max(r.afterTs, events[n].ts))
  }

  /** State after priming is attempted with an answer. */
  function Primed(s: State, funder: string, answer: Option<seq<Trade>>): State {
    if answer.None? then s
    else Absorb(s, NewFills(answer.value, funder, {})).(primePending := false)
  }

  /** State in which a tick's fills are looked for. */
  function Ready(s: State, funder: string, a: Answers): State {
    if s.primePending then Primed(s, funder, a.prime) else s
  }

  /** The fills a tick handles. */
  function Handled(s: State, funder: string, a: Answers): seq<Event> {
    var r := Ready(s, funder, a);
    if r.primePending || a.fills.None? then [] else NewFills(a.fills.value, funder, r.seen)
  }

  function Tick(s: State, funder: string, a: Answers): State {
    Absorb(Ready(s, funder, a), Handled(s, funder, a))
  }

  class OrderMonitor {
    const funder: string
    var seen: set<Key>
    var afterTs: int
    var primePending: bool

    constructor (funder: string)
      ensures this.funder == funder && Value() == State({}, 0, false)
    {
      this.funder, seen, afterTs, primePending := funder, {}, 0, false;
    }

    function Value(): State
      reads this
    {
      State(seen, afterTs, primePending)
    }

    /** Start-up: `recorded` holds the times of the stored trades and actions. */
    method InitWatermark(recorded: seq<int>, answer: Option<seq<Trade>>)
      modifies this
      ensures Value() == Started(old(Value()), funder, recorded, answer)
    {
      afterTs := Latest(recorded);
      var ok := PrimeSeenKeys(answer);
      if !ok {
        primePending := true;
      }
    }

    method PrimeSeenKeys(answer: Option<seq<Trade>>) returns (ok: bool)
      modifies this
      ensures ok <==> answer.Some?
      ensures Value() == Primed(old(Value()), funder, answer)
    {
      if answer.None? {
        return false;
      }
      var events := SelectNewBuyFills(answer.value, funder, {});
      for i := 0 to |events|
        invariant Value() == Absorb(old(Value()), events[..i])
      {
        assert events[..i + 1][..i] == events[..i];
        seen := seen + {events[i].key};
        afterTs := Max(afterTs, events[i].ts);
      }
      assert events[..|events|] == events;
      primePending := false;
      return true;
    }

    /** One tick. Returns what was handled, the markets put on cooldown and the orders
        whose unfilled rest was cancelled; `accepts` says which cancels go through. */
    method CheckBuyOrders(a: Answers, accepts: set<string>)
      returns (handled: seq<Event>, cooled: set<string>, cancelled: set<string>)
      modifies this
      ensures handled == Handled(old(Value()), funder, a)
      ensures Value() == Tick(old(Value()), funder, a)
      ensures cooled == CooledBy(handled)
      ensures cancelled == CancelledBy(handled, if a.open.Some? then a.open.value else {}, accepts)
    {
      handled, cooled, cancelled := [], {}, {};
      if primePending {
        var ok := PrimeSeenKeys(a.prime);
        if !ok {
          return;
        }
      }
      if a.fills.None? {
        return;
      }
      handled := SelectNewBuyFills(a.fills.value, funder, seen);
      cooled, cancelled := HandleFills(handled, OpenIds(a), accepts);
    }

    method HandleFills(handled: seq<Event>, open: set<string>, accepts: set<string>)
      returns (cooled: set<string>, cancelled: set<string>)
      modifies this
      ensures Value() == Absorb(old(Value()), handled)
      ensures cooled == CooledBy(handled) && cancelled == CancelledBy(handled, open, accepts)
    {
      cooled, cancelled := {}, {};
      for i := 0 to |handled|
        invariant Value() == Absorb(old(Value()), handled[..i])
        invariant cooled == CooledBy(handled[..i]) && cancelled == CancelledBy(handled[..i], open, accepts)
      {
        var e := handled[i];
        assert handled[..i + 1][..i] == handled[..i];
        if e.size > 0 {
          cooled := cooled + {e.market};
          if e.key.order.Some? {
            var id := e.key.order.value;
            if id in open && id !in cancelled && id in accepts {
              cancelled := cancelled + {id};
            }
          }
        }
        seen := seen + {e.key};
        afterTs := Max(afterTs, e.ts);
      }
      assert handled[..|handled|] == handled;
    }
  }

  /** Orders still resting; a failed read counts as none. */
  function OpenIds(a: Answers): set<string> { if a.open.Some? then a.open.value else {} }

  function CooledBy(events: seq<Event>): set<string> {
    if events == [] then {}
    else
      var e := events[|events| - 1];
      CooledBy(events[..|events| - 1]) + if e.size > 0 then {e.market} else {}
  }

  function CancelledBy(events: seq<Event>, open: set<string>, accepts: set<string>): set<string> {
    if events == [] then {}
    else
      var e := events[|events| - 1];
      CancelledBy(events[..|events| - 1], open, accepts)
      + if e.size > 0 && e.key.order.Some? && e.key.order.value in open * accepts then {e.key.order.value} else {}
  }

  /** A market cools down exactly when a fill of positive size in it was handled, and
      only orders that still rest and were hit by such a fill are cancelled. */
  lemma {:induction false} EffectsOfFills(events: seq<Event>, open: set<string>, accepts: set<string>,
                                          market: string, id: string)
    ensures market in CooledBy(events) <==> exists e :: e in events && e.size > 0 && e.market == market
    ensures id in CancelledBy(events, open, accepts)
            <==> id in open && id in accepts && exists e :: e in events && e.size > 0 && e.key.order == Some(id)
  {
    CooledExactly(events, market);
    CancelledExactly(events, open, accepts, id);
  }

  lemma {:induction false} CooledExactly(events: seq<Event>, market: string)
    ensures market in CooledBy(events) <==> exists e :: e in events && e.size > 0 && e.market == market
  {
    if events != [] {
      CooledExactly(events[..|events| - 1], market);
      assert events == events[..|events| - 1] + [events[|events| - 1]];
    }
  }

  lemma {:induction false} CancelledExactly(events: seq<Event>, open: set<string>, accepts: set<string>, id: string)
    ensures id in CancelledBy(events, open, accepts)
            <==> id in open && id in accepts && exists e :: e in events && e.size > 0 && e.key.order == Some(id)
  {
    if events != [] {
      CancelledExactly(events[..|events| - 1], open, accepts, id);
      assert events == events[..|events| - 1] + [events[|events| - 1]];
    }
  }

  /** The greatest of the times, and zero without any. */
  function Latest(times: seq<int>): (t: int)
    ensures times == [] ==> t == 0
    ensures times != [] ==> t in times && forall u | u in times :: u <= t
  {
    if times == [] then 0
    else if |times| == 1 then times[0]
    else
      assert times == times[..|times| - 1] + [times[|times| - 1]];
      Max(Latest(times[..|times| - 1]), times[|times| - 1])
  }

  function Started(s: State, funder: string, recorded: seq<int>, answer: Option<seq<Trade>>): State {
    var p := Primed(s.(afterTs := Latest(recorded)), funder, answer);
    if answer.None? then p.(primePending := true) else p
  }

  // ---------------------------------------------------------------- whole runs

  ghost predicate KeyIn(events: seq<Event>, k: Key) {
    exists e :: e in events && e.key == k
  }

  lemma {:induction false} AbsorbSeen(s: State, events: seq<Event>)
    ensures forall k :: k in Absorb(s, events).seen <==> k in s.seen || KeyIn(events, k)
    ensures Absorb(s, events).afterTs >= s.afterTs
    ensures forall e | e in events :: Absorb(s, events).afterTs >= e.ts
    ensures Absorb(s, events).primePending == s.primePending
  {
    if events != [] {
      var n := |events| - 1;
      AbsorbSeen(s, events[..n]);
      KeyInAppend(events[..n], events[n]);
      assert events == events[..n] + [events[n]];
    }
  }

  lemma {:induction false} KeyInAppend(p: seq<Event>, x: Event)
    ensures forall k :: KeyIn(p + [x], k) <==> KeyIn(p, k) || k == x.key
  {
    assert x in p + [x];
    forall k | KeyIn(p, k) ensures KeyIn(p + [x], k) {
      var e :| e in p && e.key == k;
      assert e in p + [x];
    }
  }

  /** `states` are the states a run of ticks passes through, from its first one on. */
  ghost predicate IsRun(states: seq<State>, funder: string, run: seq<Answers>) {
    && |states| == |run| + 1
    && forall k | 0 <= k < |run| :: TickLeads(states, funder, run, k)
  }

  ghost predicate TickLeads(states: seq<State>, funder: string, run: seq<Answers>, k: nat)
    requires k < |run| < |states|
  {
    states[k + 1] == Tick(states[k], funder, run[k])
  }

  lemma {:induction false} RunLength(states: seq<State>, funder: string, run: seq<Answers>)
    requires IsRun(states, funder, run)
    ensures |states| == |run| + 1
  {
  }

  /** Nothing seen is forgotten, the watermark never goes back, priming stays done. */
  ghost predicate Grows(s: State, t: State) {
    s.seen <= t.seen && s.afterTs <= t.afterTs && (!s.primePending ==> !t.primePending)
  }

  lemma {:induction false} TickGrows(s: State, funder: string, a: Answers)
    ensures Grows(s, Ready(s, funder, a)) && Grows(s, Tick(s, funder, a))
    ensures Ready(s, funder, a).seen <= Tick(s, funder, a).seen
  {
    if s.primePending && a.prime.Some? {
      AbsorbSeen(s, NewFills(a.prime.value, funder, {}));
    }
    AbsorbSeen(Ready(s, funder, a), Handled(s, funder, a));
  }

  lemma {:induction false} NextGrows(states: seq<State>, funder: string, run: seq<Answers>, n: nat)
    requires IsRun(states, funder, run) && n < |run|
    ensures Grows(states[n], states[n + 1])
  {
    assert TickLeads(states, funder, run, n);
    TickGrows(states[n], funder, run[n]);
  }

  lemma {:induction false} RunGrows(states: seq<State>, funder: string, run: seq<Answers>, i: nat, j: nat)
    requires IsRun(states, funder, run) && i <= j <= |run|
    ensures Grows(states[i], states[j])
  {
    if i < j {
      RunGrows(states, funder, run, i, j - 1);
      NextGrows(states, funder, run, j - 1);
      GrowsOn(states[i], states[j - 1], states[j]);
    }
  }

  lemma {:induction false} GrowsOn(a: State, b: State, c: State)
    requires Grows(a, b) && Grows(b, c)
    ensures Grows(a, c)
  {
  }

  /** A tick handles only keys it had not seen, and has seen them afterwards. */
  lemma {:induction false} HandledOnce(s: State, funder: string, a: Answers, e: Event)
    requires e in Handled(s, funder, a)
    ensures e.key !in s.seen && e.key !in Ready(s, funder, a).seen && e.key in Tick(s, funder, a).seen
  {
    TickGrows(s, funder, a);
    NewFillsExactly(a.fills.value, funder, Ready(s, funder, a).seen, e);
    AbsorbSeen(Ready(s, funder, a), Handled(s, funder, a));
    assert KeyIn(Handled(s, funder, a), e.key);
  }

  lemma {:induction false} OnceSeenNotHandled(states: seq<State>, funder: string, run: seq<Answers>, i: nat, j: nat,
                                              k: Key, f: Event)
    requires IsRun(states, funder, run) && i <= j < |run|
    requires k in states[i].seen && f in Handled(states[j], funder, run[j])
    ensures k != f.key
  {
    RunGrows(states, funder, run, i, j);
    HandledOnce(states[j], funder, run[j], f);
  }

  /** Whatever the exchange answers, a fill handled in one tick is handled in no later
      one. */
  lemma {:induction false} NeverHandledTwice(states: seq<State>, funder: string, run: seq<Answers>, i: nat, j: nat,
                                             e: Event, f: Event)
    requires IsRun(states, funder, run) && i < j < |run|
    requires e in Handled(states[i], funder, run[i]) && f in Handled(states[j], funder, run[j])
    ensures e.key != f.key
  {
    hide Handled, Tick, Ready;
    assert TickLeads(states, funder, run, i);
    HandledOnce(states[i], funder, run[i], e);
    OnceSeenNotHandled(states, funder, run, i + 1, j, e.key, f);
  }

  /** What a successful priming answer mentioned is handled neither then nor later. */
  lemma {:induction false} PrimedNeverHandled(states: seq<State>, funder: string, run: seq<Answers>, i: nat, j: nat,
                                              e: Event, f: Event)
    requires IsRun(states, funder, run) && i <= j < |run| && states[i].primePending
    requires run[i].prime.Some? && Mentions(run[i].prime.value, funder, e)
    requires f in Handled(states[j], funder, run[j])
    ensures e.key != f.key
  {
    hide Handled, Ready, Tick, Mentions;
    PrimingSees(states[i], funder, run[i], e);
    assert TickLeads(states, funder, run, i) && states[i + 1] == Tick(states[i], funder, run[i]);
    if i < j {
      OnceSeenNotHandled(states, funder, run, i + 1, j, e.key, f);
    } else {
      HandledOnce(states[i], funder, run[i], f);
    }
  }

  lemma {:induction false} PrimingSees(s: State, funder: string, a: Answers, e: Event)
    requires s.primePending && a.prime.Some? && Mentions(a.prime.value, funder, e)
    ensures e.key in Ready(s, funder, a).seen && e.key in Tick(s, funder, a).seen
  {
    var events := NewFills(a.prime.value, funder, {});
    NewFillsExactly(a.prime.value, funder, {}, e);
    AbsorbSeen(s, events);
    assert KeyIn(events, e.key);
    TickGrows(s, funder, a);
  }

  /** History that a successful priming at the start mentioned is never handled. */
  lemma {:induction false} HistoryNeverHandled(s: State, funder: string, recorded: seq<int>, history: seq<Trade>,
                                               states: seq<State>, run: seq<Answers>, j: nat, e: Event, f: Event)
    requires IsRun(states, funder, run) && states[0] == Started(s, funder, recorded, Some(history))
    requires Mentions(history, funder, e)
    requires j < |run| && f in Handled(states[j], funder, run[j])
    ensures e.key != f.key
  {
    StartSees(s, funder, recorded, history, e);
    OnceSeenNotHandled(states, funder, run, 0, j, e.key, f);
  }

  lemma {:induction false} StartSees(s: State, funder: string, recorded: seq<int>, history: seq<Trade>, e: Event)
    requires Mentions(history, funder, e)
    ensures e.key in Started(s, funder, recorded, Some(history)).seen
  {
    NewFillsExactly(history, funder, {}, e);
    AbsorbSeen(s.(afterTs := Latest(recorded)), NewFills(history, funder, {}));
    assert KeyIn(NewFills(history, funder, {}), e.key);
  }

  /** After a start whose priming failed nothing is handled until some tick primes. */
  lemma {:induction false} NothingBeforePriming(states: seq<State>, funder: string, run: seq<Answers>, j: nat)
    requires IsRun(states, funder, run) && states[0].primePending
    requires j < |run| && forall i | 0 <= i <= j :: run[i].prime.None?
    ensures states[j].primePending && Handled(states[j], funder, run[j]) == []
  {
    if j > 0 {
      NothingBeforePriming(states, funder, run, j - 1);
      assert TickLeads(states, funder, run, j - 1);
    }
  }

  /** Nothing is lost either: once primed, a tick whose answer mentions a fill of ours
      leaves that fill among the handled ones, now or earlier. */
  lemma {:induction false} MentionedIsHandled(s: State, funder: string, a: Answers, e: Event)
    requires a.fills.Some? && !Ready(s, funder, a).primePending && Mentions(a.fills.value, funder, e)
    ensures e.key in Ready(s, funder, a).seen || e in Handled(s, funder, a)
    ensures e.key in Tick(s, funder, a).seen
  {
    NewFillsExactly(a.fills.value, funder, Ready(s, funder, a).seen, e);
    AbsorbSeen(Ready(s, funder, a), Handled(s, funder, a));
    if e in Handled(s, funder, a) { assert KeyIn(Handled(s, funder, a), e.key); }
  }

  /** The answer in which a tick looks for fills reports an unseen pair of ours twice. */
  ghost predicate Repeats(s: State, funder: string, a: Answers) {
    var r := Ready(s, funder, a);
    !r.primePending && a.fills.Some? && !NoPairTwice(a.fills.value, |a.fills.value|, funder, r.seen)
  }

  /** Everything the first `n` ticks of a run handle, in order. */
  ghost function AllHandled(states: seq<State>, funder: string, run: seq<Answers>, n: nat): seq<Event>
    requires n <= |run| < |states|
  {
    if n == 0 then [] else AllHandled(states, funder, run, n - 1) + Handled(states[n - 1], funder, run[n - 1])
  }

  lemma {:induction false} HandledDistinct(s: State, funder: string, a: Answers)
    ensures DistinctKeys(Handled(s, funder, a)) <==> !Repeats(s, funder, a)
  {
    hide NoPairTwice, NewFills;
    if a.fills.Some? {
      OnceUnlessRepeated(a.fills.value, funder, Ready(s, funder, a).seen);
    }
  }

  lemma {:induction false} HandledSomeTick(states: seq<State>, funder: string, run: seq<Answers>, n: nat, e: Event)
    returns (i: nat)
    requires n <= |run| < |states| && e in AllHandled(states, funder, run, n)
    ensures i < n && e in Handled(states[i], funder, run[i])
  {
    hide Handled;
    if e in Handled(states[n - 1], funder, run[n - 1]) {
      i := n - 1;
    } else {
      i := HandledSomeTick(states, funder, run, n - 1, e);
    }
  }

  lemma {:induction false} NothingShared(states: seq<State>, funder: string, run: seq<Answers>, n: nat)
    requires IsRun(states, funder, run) && n < |run|
    ensures NoneShared(AllHandled(states, funder, run, n), Handled(states[n], funder, run[n]))
  {
    hide Handled, AllHandled, IsRun;
    RunLength(states, funder, run);
    var p, q := AllHandled(states, funder, run, n), Handled(states[n], funder, run[n]);
    forall x, y | x in p && y in q ensures x.key != y.key {
      var i := HandledSomeTick(states, funder, run, n, x);
      NeverHandledTwice(states, funder, run, i, n, x, y);
    }
  }

  /** Over every run, whatever the exchange answers, omits or fails: no fill is handled
      twice if and only if no answer reports an unseen pair of ours twice. */
  lemma {:induction false} AtMostOnceExactly(states: seq<State>, funder: string, run: seq<Answers>, n: nat)
    requires IsRun(states, funder, run) && n <= |run|
    ensures DistinctKeys(AllHandled(states, funder, run, n))
       <==> forall k | 0 <= k < n :: !Repeats(states[k], funder, run[k])
  {
    hide DistinctKeys, Repeats, Handled, NoneShared, IsRun;
    RunLength(states, funder, run);
    if n == 0 {
      NoneIsDistinct();
    } else {
      var p, q := AllHandled(states, funder, run, n - 1), Handled(states[n - 1], funder, run[n - 1]);
      AtMostOnceExactly(states, funder, run, n - 1);
      HandledDistinct(states[n - 1], funder, run[n - 1]);
      DistinctConcat(p, q);
      NothingShared(states, funder, run, n - 1);
    }
  }

  /** Within one answer a repeated trade is handled as often as it is repeated. */
  lemma {:induction false} RepeatInOneAnswer(tr: Trade, mo: MakerOrder, funder: string, seen: set<Key>)
    requires tr.makers == [mo] && Fresh(tr, mo, funder, seen)
    ensures NewFills([tr, tr], funder, seen) == [EventOf(tr, mo), EventOf(tr, mo)]
  {
    assert OursIn(tr, 0, funder, seen) == [] && OursIn(tr, 1, funder, seen) == [EventOf(tr, mo)];
    FlattenTwice(tr, funder, seen);
    SortTwice(EventOf(tr, mo));
  }

  lemma {:induction false} FlattenTwice(tr: Trade, funder: string, seen: set<Key>)
    ensures var x := OursIn(tr, |tr.makers|, funder, seen); Flatten([tr, tr], 2, funder, seen) == x + x
  {
    var trades := [tr, tr];
    assert Flatten(trades, 0, funder, seen) == [];
    assert Flatten(trades, 1, funder, seen) == OursIn(tr, |tr.makers|, funder, seen);
  }

  lemma {:induction false} SortTwice(e: Event)
    ensures StableSort([e] + [e], EventTs) == [e, e]
  {
    SortAppendsLatest([], e, EventTs);
    assert [] + [e] == [e];
    SortAppendsLatest([e], e, EventTs);
  }
}
