/** The two windows of the exit protocol, exactly: for which next act a FOK or a merge
    request can be followed by a second one in its market before the first is settled,
    over every continuation of every run. */
module MergeWindows {
  import opened Wrappers
  import opened MergeEvents
  import opened MergeProtocol
  import opened MergeSafety
  import MergeAccounting

  // ---------------------------------------------------------------- when exactly a second FOK is safe

  /** In every continuation of `p`, whatever the answers and crashes, the order of the
      FOK at `i` is read as full, filled or dead before another leaves for its market. */
  ghost predicate NeverSentTwice(s: Proto, p: seq<Act>, i: nat)
    requires i < |p| && p[i].FokCall?
  {
    forall c: seq<Act>, j: nat |
      Legal(s, p + c) && i < j < |p + c| && (p + c)[j].FokCall? && SameMarket(s, p + c, i, j) ::
      ReadBetween(p + c, p[i].e, AmountOf(s, p, i), i, j)
  }

  /** Right after a FOK that was not refused, its market is safe from a second one if
      and only if the next act stores the order id and the reply was matched or delayed. */
  lemma {:induction false} NeverSentTwiceExactly(s: Proto, p: seq<Act>, i: nat)
    requires Start(s) && Legal(s, p) && |p| == i + 2 && p[i].FokCall? && !p[i].reply.Rejected?
    ensures NeverSentTwice(s, p, i) <==> p[i + 1].StoreOrder? && MatchedOrDelayed(p[i].reply)
  {
    hide Next, Enabled, Legal, Run;
    JustSent(s, p, i);
    if p[i + 1].StoreOrder? { StoresAnswer(Run(s, p[..i + 1]), p[i], p[i + 1]); }
    if p[i + 1].StoreOrder? && MatchedOrDelayed(p[i].reply) {
      forall c: seq<Act>, j: nat |
        Legal(s, p + c) && i < j < |p + c| && (p + c)[j].FokCall? && SameMarket(s, p + c, i, j)
        ensures ReadBetween(p + c, p[i].e, AmountOf(s, p, i), i, j)
      {
        var log := p + c;
        assert log[i] == p[i] && log[i + 1] == p[i + 1] && log[..i] == p[..i];
        var q, k := NoSecondFokInFlight(s, log, i, j);
      }
    } else {
      var l := SecondFok(s, p, i);
      assert l == p + l[|p|..];
    }
  }

  lemma {:induction false} StoresAnswer(m: Proto, sent: Act, b: Act)
    requires FreshlySent(m, sent, m.wallet) && Enabled(m, b) && b.StoreOrder?
    ensures b.e == sent.e && sent.reply.Answer? && sent.reply.orderId != ""
  {
  }

  /** The event a reply belongs to is as it was reserved. */
  ghost predicate FreshlySent(m: Proto, sent: Act, wallet: string) {
    && sent.FokCall? && m.focus == FokAnswered(sent.e, sent.reply) && sent.e < |m.rows| && m.wallet == wallet
    && NewRow(m.rows[sent.e], wallet) && m.rows[sent.e].route.FokMerge?
    && (MergeAccounting.DOLLAR - sent.price) * m.rows[sent.e].amount >= sent.floor
  }

  lemma {:induction false} SentFresh(m: Proto, sent: Act)
    requires Enabled(m, sent) && sent.FokCall?
    requires m.focus.Reserved? ==> m.focus.e == |m.rows| - 1 && NewRow(m.rows[m.focus.e], m.wallet)
    ensures FreshlySent(Next(m, sent), sent, m.wallet)
  {
  }

  lemma {:induction false} JustSent(s: Proto, p: seq<Act>, i: nat)
    requires Start(s) && Legal(s, p) && i + 1 < |p| && p[i].FokCall?
    ensures FreshlySent(Run(s, p[..i + 1]), p[i], s.wallet)
    ensures Enabled(Run(s, p[..i + 1]), p[i + 1])
    ensures Run(s, p[..i + 2]) == Next(Run(s, p[..i + 1]), p[i + 1])
    ensures OneActivePerMarket(Run(s, p[..i + 1]).rows)
    ensures p[i].e < |Run(s, p[..i]).rows| && AmountOf(s, p, i) == Run(s, p[..i + 1]).rows[p[i].e].amount
  {
    hide Next, Enabled, Legal, Run, OneActivePerMarket;
    LegalPrefix(s, p, i);
    LegalPrefix(s, p, i + 1);
    FocusOrigin(s, p[..i]);
    RunSafety(s, p[..i]);
    RunSafety(s, p[..i + 1]);
    SentFresh(Run(s, p[..i]), p[i]);
    CallKeepsRows(Run(s, p[..i]), p[i]);
  }

  lemma {:induction false} CallKeepsRows(m: Proto, a: Act)
    requires Enabled(m, a) && (a.FokCall? || a.MergeCall?)
    ensures Next(m, a).rows == m.rows && a.e < |m.rows|
  {
  }

  /** Failing an event frees its market. */
  lemma {:induction false} FailFrees(m: Proto, f: Act)
    requires OneActivePerMarket(m.rows) && f.Fail? && Enabled(m, f)
    ensures !HasActive(Next(m, f).rows, m.wallet, m.rows[f.e].cid)
    ensures Next(m, f).wallet == m.wallet && |Next(m, f).rows| == |m.rows|
    ensures forall k | 0 <= k < |m.rows| :: Next(m, f).rows[k].cid == m.rows[k].cid
  {
    var r := m.rows[f.e];
    forall k | 0 <= k < |m.rows| && k != f.e && Active(m.rows[k])
      ensures m.rows[k].wallet != r.wallet || m.rows[k].cid != r.cid
    {
    }
  }

  lemma {:induction false} Extend(s: Proto, p: seq<Act>, a: Act)
    requires Legal(s, p) && Enabled(Run(s, p), a)
    ensures Legal(s, p + [a]) && Run(s, p + [a]) == Next(Run(s, p), a)
  {
    hide Next, Enabled;
    var l := p + [a];
    assert l[..|p|] == p;
    forall k | 0 <= k < |l| ensures Possible(s, l, k) {
      if k < |p| {
        assert Possible(s, p, k);
        assert l[..k] == p[..k];
      }
    }
  }

  /** `l` continues `p` without reading an order. */
  ghost predicate GoesOn(p: seq<Act>, l: seq<Act>) {
    p <= l && forall k | |p| <= k < |l| :: !l[k].OrderQuery?
  }

  /** The market of `r` is free, and event `e` belongs to it. */
  ghost predicate FreeLike(m: Proto, r: Row, e: nat) {
    e < |m.rows| && m.rows[e].cid == r.cid && !HasActive(m.rows, m.wallet, r.cid)
  }

  /** In a free market the event can be reserved once more. */
  lemma {:induction false} ReserveAgain(s: Proto, p: seq<Act>, e: nat, r: Row)
    requires Legal(s, p) && FreeLike(Run(s, p), r, e) && NewRow(r, Run(s, p).wallet)
    requires Backed(Run(s, p).positions, r)
    ensures Legal(s, p + [Reserve(r)])
    ensures var m, n := Run(s, p), Run(s, p + [Reserve(r)]);
            n.wallet == m.wallet && n.rows == m.rows + [r] && n.focus == Reserved(|m.rows|)
  {
    hide Legal, Run;
    Extend(s, p, Reserve(r));
  }

  /** The next tick reports these balances. */
  lemma {:induction false} Report(s: Proto, p: seq<Act>, ps: seq<Position>)
    requires Legal(s, p)
    ensures Legal(s, p + [Tick(ps)]) && Run(s, p + [Tick(ps)]) == Run(s, p).(positions := ps, focus := Nothing)
  {
    hide Legal, Run;
    Extend(s, p, Tick(ps));
  }

  /** Only the side that a FOK is to complete. */
  function Alone(r: Row): seq<Position> { [Position(r.yes, r.cid, r.amount)] }

  lemma {:induction false} AloneIsNoPair(r: Row)
    requires r.amount > 0
    ensures !PairHeld(Alone(r), r)
    ensures r.route.FokMerge? ==> Backed(Alone(r), r)
  {
    assert Alone(r)[..0] == [];
    if r.no != r.yes { assert SizeOf(Alone(r), r.cid, r.no) == 0; }
  }

  lemma {:induction false} CallAgain(s: Proto, p: seq<Act>, e: nat, r: Row, price: int, floor: int, reply: FokReply)
    requires Legal(s, p) && Run(s, p).focus == Reserved(e) && e < |Run(s, p).rows| && Run(s, p).rows[e] == r
    requires r.wallet == Run(s, p).wallet && r.route.FokMerge?
    requires (MergeAccounting.DOLLAR - price) * r.amount >= floor
    ensures Legal(s, p + [FokCall(e, price, floor, reply)])
  {
    Extend(s, p, FokCall(e, price, floor, reply));
  }

  /** In a free market a second FOK leaves in a tick that reports what the first was to
      complete. */
  lemma {:induction false} SendAgain(s: Proto, p: seq<Act>, i: nat, r: Row) returns (l: seq<Act>)
    requires i < |p| && p[i].FokCall? && Legal(s, p) && FreeLike(Run(s, p), r, p[i].e)
    requires NewRow(r, Run(s, p).wallet) && r.route.FokMerge?
    requires (MergeAccounting.DOLLAR - p[i].price) * r.amount >= p[i].floor
    ensures GoesOn(p, l) && |l| == |p| + 3 && Legal(s, l) && l[|l| - 1].FokCall? && SameMarket(s, l, i, |l| - 1)
  {
    hide Next, Enabled, Legal, Run;
    var n := |Run(s, p).rows|;
    var p0 := p + [Tick(Alone(r))];
    var p1, call := p0 + [Reserve(r)], FokCall(n, p[i].price, p[i].floor, p[i].reply);
    Report(s, p, Alone(r));
    AloneIsNoPair(r);
    ReserveAgain(s, p0, p[i].e, r);
    CallAgain(s, p1, n, r, call.price, call.floor, call.reply);
    l := p1 + [call];
    SameThere(s, p1, l, i, p[i].e);
  }

  lemma {:induction false} SameThere(s: Proto, p: seq<Act>, l: seq<Act>, i: nat, e: nat)
    requires i < |p| && p[i].FokCall? && p[i].e == e && |l| == |p| + 1 && p <= l && l[|p|].FokCall?
    requires var rows := Run(s, p).rows; e < |rows| && l[|p|].e < |rows| && rows[e].cid == rows[l[|p|].e].cid
    ensures SameMarket(s, l, i, |l| - 1)
  {
    assert l[..|l| - 1] == p && l[i] == p[i];
  }

  /** Until its id is stored or it is failed, the event can only stay as it is. */
  lemma {:induction false} StillUnstored(m: Proto, b: Act, e: nat)
    requires Enabled(m, b) && m.focus.FokAnswered? && m.focus.e == e && e < |m.rows|
    requires NewRow(m.rows[e], m.wallet) && m.rows[e].route.FokMerge?
    requires !b.StoreOrder? && !(b.Fail? && b.e == e)
    ensures e < |Next(m, b).rows|
    ensures var r := Next(m, b).rows[e];
            && r.status.Ready? && r.orderId == "" && r.route.FokMerge? && r.amount > 0
            && r.cid == m.rows[e].cid && r.wallet == m.wallet && Next(m, b).wallet == m.wallet
  {
  }

  lemma {:induction false} GiveUp(s: Proto, p: seq<Act>, f: Act)
    requires Start(s) && Legal(s, p) && f.Fail? && Enabled(Run(s, p), f)
    ensures Legal(s, p + [f]) && FreeLike(Run(s, p + [f]), Run(s, p).rows[f.e], f.e)
    ensures Run(s, p + [f]).wallet == Run(s, p).wallet
  {
    RunSafety(s, p);
    Extend(s, p, f);
    FailFrees(Run(s, p), f);
  }

  /** After a crash, with the pair not complete yet, recovery gives an event without an
      id up. */
  lemma {:induction false} CrashAndGiveUp(s: Proto, p: seq<Act>, e: nat) returns (l: seq<Act>)
    requires Start(s) && Legal(s, p) && e < |Run(s, p).rows| && Run(s, p).rows[e].wallet == Run(s, p).wallet
    requires var r := Run(s, p).rows[e]; r.status.Ready? && r.orderId == "" && r.route.FokMerge? && r.amount > 0
    ensures GoesOn(p, l) && Legal(s, l)
    ensures FreeLike(Run(s, l), Run(s, p).rows[e], e) && Run(s, l).wallet == Run(s, p).wallet
  {
    hide Next, Legal, Run;
    var r := Run(s, p).rows[e];
    var p2 := CrashAndReport(s, p, Alone(r));
    AloneIsNoPair(r);
    GiveUp(s, p2, Fail(e, NeverStored, 0));
    l := p2 + [Fail(e, NeverStored, 0)];
  }

  /** An odd reply fails the event even after its id was stored. */
  lemma {:induction false} OddGivesUp(m: Proto, sent: Act, b: Act)
    requires FreshlySent(m, sent, m.wallet) && Enabled(m, b) && b.StoreOrder? && !MatchedOrDelayed(sent.reply)
    ensures b.e == sent.e && Enabled(Next(m, b), Fail(sent.e, FokOdd, 0)) && Next(m, b).wallet == m.wallet
    ensures sent.e < |Next(m, b).rows| && Next(m, b).rows[sent.e].cid == m.rows[sent.e].cid
  {
  }

  lemma {:induction false} NotReadYet(m: Proto, b: Act, e: nat)
    requires Enabled(m, b) && e < |m.rows| && m.rows[e].orderId == ""
    ensures !(b.OrderQuery? && b.e == e)
  {
  }

  /** A way on from an event whose id was not stored, or whose reply was odd, that
      frees its market without reading the order. */
  lemma {:induction false} FreeWithoutReading(s: Proto, p: seq<Act>, i: nat) returns (l: seq<Act>)
    requires Start(s) && Legal(s, p) && |p| == i + 2 && p[i].FokCall? && !p[i].reply.Rejected?
    requires !(p[i + 1].StoreOrder? && MatchedOrDelayed(p[i].reply))
    ensures p[i].e < |Run(s, p[..i + 1]).rows|
    ensures GoesOn(p, l) && Legal(s, l) && FreeLike(Run(s, l), Run(s, p[..i + 1]).rows[p[i].e], p[i].e)
    ensures Run(s, l).wallet == s.wallet
  {
    hide Next, Enabled, Legal, Run;
    JustSent(s, p, i);
    var m, b, e := Run(s, p[..i + 1]), p[i + 1], p[i].e;
    assert p[..i + 2] == p;
    if b.Fail? && b.e == e {
      FailFrees(m, b);
      l := p;
    } else if b.StoreOrder? {
      l := p + [Fail(e, FokOdd, 0)];
      OddGivesUp(m, p[i], b);
      GiveUp(s, p, Fail(e, FokOdd, 0));
    } else {
      StillUnstored(m, b, e);
      l := CrashAndGiveUp(s, p, e);
    }
  }

  /** A way to a second FOK that never reads the first order. */
  lemma {:induction false} SecondFok(s: Proto, p: seq<Act>, i: nat) returns (l: seq<Act>)
    requires Start(s) && Legal(s, p) && |p| == i + 2 && p[i].FokCall? && !p[i].reply.Rejected?
    requires !(p[i + 1].StoreOrder? && MatchedOrDelayed(p[i].reply))
    ensures p <= l && |l| >= |p| + 3 && Legal(s, l) && l[|l| - 1].FokCall?
    ensures SameMarket(s, l, i, |l| - 1) && !ReadBetween(l, p[i].e, AmountOf(s, p, i), i, |l| - 1)
  {
    hide Next, Enabled, Legal, Run;
    JustSent(s, p, i);
    var f := FreeWithoutReading(s, p, i);
    assert f[i] == p[i];
    l := SendAgain(s, f, i, Run(s, p[..i + 1]).rows[p[i].e]);
    NotReadYet(Run(s, p[..i + 1]), p[i + 1], p[i].e);
    NotRead(p, f, l, p[i].e, AmountOf(s, p, i));
  }

  lemma {:induction false} NotRead(p: seq<Act>, f: seq<Act>, l: seq<Act>, e: nat, amount: int)
    requires |p| >= 2 && !(p[|p| - 1].OrderQuery? && p[|p| - 1].e == e) && GoesOn(p, f) && GoesOn(f, l)
    ensures !ReadBetween(l, e, amount, |p| - 2, |l| - 1)
  {
    forall q | |p| - 2 < q < |l| ensures !(l[q].OrderQuery? && l[q].e == e) {
      if q < |f| { assert l[q] == f[q]; }
      if q < |p| { assert f[q] == p[q]; }
    }
  }

  // ---------------------------------------------------------------- the unstored order id

  const EMPTY := Proto("w", [], [], Nothing)

  function FokRow(): Row {
    Row("w", "m", "Y", "N", FokMerge, 1_000_000, 0, 0, "", "", "", Ready, 0, 0, 0, 0)
  }

  function Holding(): seq<Position> { [Position("Y", "m", 1_000_000)] }

  /** The process dies between the reply and the write of the order id. Recovery
      finds no id and no pair yet, gives the event up, and the next tick buys the
      complement again while the first order may still fill. */
  function DoubleBuy(): seq<Act> {
    [Tick(Holding()), Reserve(FokRow()), FokCall(0, 1000, 0, Answer(DelayedFill, "x")), Crash,
     Tick(Holding()), Fail(0, NeverStored, 1), Reserve(FokRow()), FokCall(1, 1000, 0, Answer(DelayedFill, "y"))]
  }

  function BuyState(n: nat): Proto {
    var dead := RowAfter(FokRow(), DoubleBuy()[5]);
    Proto("w",
          if n < 2 then [] else if n < 6 then [FokRow()] else if n == 6 then [dead] else [dead, FokRow()],
          if n == 0 || n == 4 then [] else Holding(),
          if n == 2 then Reserved(0) else if n == 3 then FokAnswered(0, Answer(DelayedFill, "x"))
          else if n == 7 then Reserved(1) else if n == 8 then FokAnswered(1, Answer(DelayedFill, "y")) else Nothing)
  }

  lemma {:induction false} BuyStep(n: nat)
    requires n < 8
    ensures Enabled(BuyState(n), DoubleBuy()[n]) && Next(BuyState(n), DoubleBuy()[n]) == BuyState(n + 1)
  {
    if n == 5 { NoPairYet(); }
  }

  lemma {:induction false} BuyRun(n: nat)
    requires n <= 8
    ensures Legal(EMPTY, DoubleBuy()[..n]) && Run(EMPTY, DoubleBuy()[..n]) == BuyState(n)
  {
    var log, trace := DoubleBuy()[..n], seq(n + 1, k requires k >= 0 => BuyState(k));
    forall k | 0 <= k < |log| ensures Enabled(trace[k], log[k]) && trace[k + 1] == Next(trace[k], log[k]) {
      BuyStep(k);
      assert log[k] == DoubleBuy()[k];
    }
    TraceIsRun(trace, log);
  }

  lemma {:induction false} UnstoredIdAllowsDoubleBuy()
    ensures Start(EMPTY) && Legal(EMPTY, DoubleBuy())
    ensures DoubleBuy()[2].FokCall? && DoubleBuy()[7].FokCall? && SameMarket(EMPTY, DoubleBuy(), 2, 7)
    ensures !CleanReply(DoubleBuy(), 2) && !Settled(DoubleBuy()[..7], 0)
  {
    BuyRun(8);
    BuyRun(7);
    assert DoubleBuy()[..8] == DoubleBuy();
    FirstBuyUnsettled();
  }

  lemma {:induction false} FirstBuyUnsettled()
    ensures !Settled(DoubleBuy()[..7], 0)
  {
    forall k | 0 <= k < 7 ensures !Settles(DoubleBuy()[..7][k], 0) {
      assert DoubleBuy()[..7][k] == DoubleBuy()[k];
    }
  }

  lemma {:induction false} NoPairYet()
    ensures !PairHeld(Holding(), FokRow())
  {
    assert Holding()[..0] == [];
    assert SizeOf(Holding(), "m", "N") == 0 by { assert "N"[0] != "Y"[0]; }
  }

  // ---------------------------------------------------------------- when exactly a second merge is safe

  /** Both merge requests of a run concern one market. */
  ghost predicate SameMergeMarket(s: Proto, log: seq<Act>, i: nat, j: nat)
    requires i < j < |log| && log[i].MergeCall? && log[j].MergeCall?
  {
    var rows := Run(s, log[..j]).rows;
    && log[i].e < |rows| && log[j].e < |rows|
    && rows[log[i].e].cid == rows[log[j].e].cid
  }

  /** Between the two moments the relayer called the merge done or broken, or the
      answer came after the timeout. */
  ghost predicate SettledBetween(log: seq<Act>, e: nat, i: int, j: int) {
    exists q :: i < q < j && 0 <= q < |log| && log[q].RelayerQuery? && log[q].e == e
                && (log[q].state.Done? || log[q].state.Broken? || log[q].late)
  }

  ghost predicate IsSubmitted(s: Proto, log: seq<Act>, n: nat, e: nat)
    requires n <= |log|
  {
    e < |Run(s, log[..n]).rows| && Run(s, log[..n]).rows[e].status.Submitted?
  }

  /** A submitted event that is no longer active was confirmed or failed in between. */
  lemma {:induction false} EndedBy(s: Proto, log: seq<Act>, a: nat, b: nat, e: nat) returns (k: nat)
    requires Start(s) && Legal(s, log) && a <= b <= |log| && IsSubmitted(s, log, a, e)
    requires e < |Run(s, log[..b]).rows| && !Active(Run(s, log[..b]).rows[e])
    ensures a <= k < b && (log[k].Confirm? || log[k].Fail?) && log[k].e == e && IsSubmitted(s, log, k, e)
    decreases b
  {
    hide Next, Enabled, Legal, Run;
    LegalPrefix(s, log, b - 1);
    LaterRow(s, log, a, b - 1, e);
    if IsSubmitted(s, log, b - 1, e) {
      k := b - 1;
      EndsHere(Run(s, log[..k]), log[k], e);
    } else {
      k := EndedBy(s, log, a, b - 1, e);
    }
  }

  lemma {:induction false} EndsHere(m: Proto, a: Act, e: nat)
    requires Enabled(m, a) && e < |m.rows| && m.rows[e].status.Submitted? && !Active(Next(m, a).rows[e])
    ensures (a.Confirm? || a.Fail?) && a.e == e
  {
  }

  /** What ends a submitted event has just heard from the relayer. */
  lemma {:induction false} EndHeard(s: Proto, log: seq<Act>, k: nat) returns (q: nat)
    requires Start(s) && Legal(s, log) && k < |log| && (log[k].Confirm? || log[k].Fail?)
    requires IsSubmitted(s, log, k, log[k].e)
    ensures q < k && log[q].RelayerQuery? && log[q].e == log[k].e
    ensures log[q].state.Done? || log[q].state.Broken? || log[q].late
  {
    hide Next, Enabled, Legal, Run;
    LegalPrefix(s, log, k);
    EndEvidence(Run(s, log[..k]), log[k]);
    q := RelayerReadThisTick(s, log, k);
  }

  lemma {:induction false} EndEvidence(m: Proto, a: Act)
    requires Enabled(m, a) && (a.Confirm? || a.Fail?) && a.e < |m.rows| && m.rows[a.e].status.Submitted?
    ensures m.focus.RelayerRead? && m.focus.e == a.e
    ensures m.focus.state.Done? || m.focus.state.Broken? || m.focus.late
  {
  }

  /** The relayer is asked about an event only once it is submitted. */
  lemma {:induction false} HeardAfterCall(s: Proto, log: seq<Act>, i: nat, q: nat)
    requires Start(s) && Legal(s, log) && i < |log| && q < |log| && log[i].MergeCall?
    requires log[q].RelayerQuery? && log[q].e == log[i].e
    ensures i < q
  {
    hide Next, Enabled, Legal, Run;
    if q < i {
      LegalPrefix(s, log, q);
      AsksSubmitted(Run(s, log[..q]), log[q]);
      MergeCallNeedsReady(s, log, i);
      LaterRow(s, log, q, i, log[i].e);
    }
  }

  lemma {:induction false} AsksSubmitted(m: Proto, a: Act)
    requires Enabled(m, a) && a.RelayerQuery?
    ensures a.e < |m.rows| && m.rows[a.e].status.Submitted?
  {
  }

  lemma {:induction false} TxJustStored(s: Proto, log: seq<Act>, i: nat)
    requires Legal(s, log) && i + 1 < |log| && log[i].MergeCall? && log[i + 1].StoreTx?
    ensures log[i + 1].e == log[i].e && IsSubmitted(s, log, i + 2, log[i].e)
  {
    hide Next, Enabled, Legal, Run;
    LegalPrefix(s, log, i);
    LegalPrefix(s, log, i + 1);
    StoresAnswered(Run(s, log[..i]), log[i], log[i + 1]);
  }

  lemma {:induction false} StoresAnswered(m: Proto, call: Act, b: Act)
    requires Enabled(m, call) && call.MergeCall? && Enabled(Next(m, call), b) && b.StoreTx?
    ensures b.e == call.e && b.e < |Next(Next(m, call), b).rows|
    ensures Next(Next(m, call), b).rows[b.e].status.Submitted?
  {
  }

  lemma {:induction false} EarlierMergeEnded(s: Proto, log: seq<Act>, i: nat, j: nat)
    requires Start(s) && Legal(s, log) && i < j < |log| && log[i].MergeCall? && log[j].MergeCall?
    requires SameMergeMarket(s, log, i, j) && log[i].e != log[j].e
    ensures !Active(Run(s, log[..j]).rows[log[i].e])
  {
    hide Next, Enabled, Legal, Run;
    MergeCallNeedsReady(s, log, i);
    MergeCallNeedsReady(s, log, j);
    LegalPrefix(s, log, i);
    LegalPrefix(s, log, j);
    RunSafety(s, log[..i]);
    RunSafety(s, log[..j]);
    LaterRow(s, log, i, j, log[i].e);
  }

  /** With the transaction id stored next, the relayer is asked to merge again in the
      market only after it has settled the first request or kept silent too long. */
  lemma {:induction false} NoSecondMergeInFlight(s: Proto, log: seq<Act>, i: nat, j: nat)
    requires Start(s) && Legal(s, log) && i < j < |log| && log[i].MergeCall? && log[j].MergeCall?
    requires log[i + 1].StoreTx? && SameMergeMarket(s, log, i, j)
    ensures SettledBetween(log, log[i].e, i, j)
  {
    hide Next, Enabled, Legal, Run;
    TxJustStored(s, log, i);
    MergeCallNeedsReady(s, log, j);
    if log[i].e == log[j].e { StoredTxEndsReady(s, log, i + 1, j); }
    EarlierMergeEnded(s, log, i, j);
    var k := EndedBy(s, log, i + 2, j, log[i].e);
    var q := EndHeard(s, log, k);
    HeardAfterCall(s, log, i, q);
  }

  /** In every continuation of `p`, whatever the answers and crashes, the request at
      `i` is settled before another leaves for its market. */
  ghost predicate NeverMergedTwice(s: Proto, p: seq<Act>, i: nat)
    requires i < |p| && p[i].MergeCall?
  {
    forall c: seq<Act>, j: nat |
      Legal(s, p + c) && i < j < |p + c| && (p + c)[j].MergeCall? && SameMergeMarket(s, p + c, i, j) ::
      SettledBetween(p + c, p[i].e, i, j)
  }

  /** Shares of two tokens of a market, as every event is about. */
  predicate WholePair(r: Row) { r.yes != "" && r.no != "" && r.yes != r.no && r.cid != "" && r.amount > 0 }

  ghost predicate CallsPair(s: Proto, p: seq<Act>, i: nat)
    requires i < |p| && p[i].MergeCall?
  {
    p[i].e < |Run(s, p[..i]).rows| && WholePair(Run(s, p[..i]).rows[p[i].e])
  }

  /** Right after a merge request its market is safe from a second one if and only if
      the next act stores the transaction id. */
  lemma {:induction false} NeverMergedTwiceExactly(s: Proto, p: seq<Act>, i: nat)
    requires Start(s) && Legal(s, p) && |p| == i + 2 && p[i].MergeCall? && CallsPair(s, p, i)
    ensures NeverMergedTwice(s, p, i) <==> p[i + 1].StoreTx?
  {
    hide Next, Enabled, Legal, Run;
    if p[i + 1].StoreTx? {
      forall c: seq<Act>, j: nat |
        Legal(s, p + c) && i < j < |p + c| && (p + c)[j].MergeCall? && SameMergeMarket(s, p + c, i, j)
        ensures SettledBetween(p + c, p[i].e, i, j)
      {
        assert (p + c)[i] == p[i] && (p + c)[i + 1] == p[i + 1];
        NoSecondMergeInFlight(s, p + c, i, j);
      }
    } else {
      var l := SecondMerge(s, p, i);
      assert l == p + l[|p|..];
    }
  }

  /** The event a merge request was sent for is still ready. */
  ghost predicate FreshlyCalled(m: Proto, call: Act, wallet: string) {
    && call.MergeCall? && m.focus.MergeAnswered? && m.focus.e == call.e && call.e < |m.rows| && m.wallet == wallet
    && m.rows[call.e].status.Ready? && m.rows[call.e].wallet == wallet
  }

  lemma {:induction false} CalledFresh(m: Proto, call: Act)
    requires Enabled(m, call) && call.MergeCall?
    ensures FreshlyCalled(Next(m, call), call, m.wallet) && Next(m, call).rows == m.rows
  {
  }

  lemma {:induction false} JustCalled(s: Proto, p: seq<Act>, i: nat)
    requires Start(s) && Legal(s, p) && i + 1 < |p| && p[i].MergeCall?
    ensures FreshlyCalled(Run(s, p[..i + 1]), p[i], s.wallet)
    ensures Run(s, p[..i + 1]).rows == Run(s, p[..i]).rows
    ensures Enabled(Run(s, p[..i + 1]), p[i + 1])
    ensures Run(s, p[..i + 2]) == Next(Run(s, p[..i + 1]), p[i + 1])
    ensures OneActivePerMarket(Run(s, p[..i + 1]).rows)
  {
    hide Next, Enabled, Legal, Run, OneActivePerMarket;
    LegalPrefix(s, p, i);
    LegalPrefix(s, p, i + 1);
    RunSafety(s, p[..i]);
    RunSafety(s, p[..i + 1]);
    CalledFresh(Run(s, p[..i]), p[i]);
  }

  /** Until its transaction is stored or it is failed, the event stays ready. */
  lemma {:induction false} StillReady(m: Proto, b: Act, e: nat)
    requires Enabled(m, b) && m.focus.MergeAnswered? && m.focus.e == e && e < |m.rows| && m.rows[e].status.Ready?
    requires !b.StoreTx? && !(b.Fail? && b.e == e)
    ensures e < |Next(m, b).rows|
    ensures Next(m, b).rows[e].status.Ready? && SameOperation(m.rows[e], Next(m, b).rows[e])
    ensures Next(m, b).wallet == m.wallet
  {
  }

  function PairOf(r: Row): seq<Position> { [Position(r.yes, r.cid, r.amount), Position(r.no, r.cid, r.amount)] }

  lemma {:induction false} PairOfHeld(r: Row)
    requires WholePair(r)
    ensures PairHeld(PairOf(r), r)
    ensures r.route.Pair? ==> Backed(PairOf(r), r)
  {
    var ps := PairOf(r);
    assert ps[1..] == [ps[1]] && PairFor(ps, r.cid, r.yes) == PairFor(ps[1..], r.cid, r.yes) == Some((r.no, r.amount));
    assert ps[0] in ps;
    assert ps[..1] == [Position(r.yes, r.cid, r.amount)] && ps[..1][..0] == [];
    assert SizeOf(ps, r.cid, r.no) == r.amount;
    assert SizeOf(ps, r.cid, r.yes) == SizeOf(ps[..1], r.cid, r.yes) == r.amount;
  }

  /** `l` continues `p` without hearing from the relayer, and ends in a merge request. */
  ghost predicate EndsInMerge(p: seq<Act>, l: seq<Act>) {
    && p <= l && |p| < |l| && l[|l| - 1].MergeCall?
    && forall k | |p| <= k < |l| :: !l[k].RelayerQuery?
  }

  /** The order is reported dead; with the pair there it is merged all the same. */
  const DEAD := OrderView(0, false, true)

  /** After a crash, with the pair reported, a ready event is merged again. */
  lemma {:induction false} MergeAfterCrash(s: Proto, p: seq<Act>, e: nat) returns (l: seq<Act>)
    requires Legal(s, p) && e < |Run(s, p).rows| && Run(s, p).rows[e].wallet == Run(s, p).wallet
    requires Run(s, p).rows[e].status.Ready? && WholePair(Run(s, p).rows[e])
    ensures Legal(s, l) && EndsInMerge(p, l) && l[|l| - 1].e == e && Run(s, l[..|l| - 1]).rows == Run(s, p).rows
  {
    hide Next, Enabled, Legal, Run;
    var r := Run(s, p).rows[e];
    PairOfHeld(r);
    var p2 := CrashAndReport(s, p, PairOf(r));
    var p3 := p2;
    if r.route.FokMerge? && r.orderId != "" {
      p3 := p2 + [OrderQuery(e, DEAD)];
      AskAgain(s, p2, e, DEAD);
    }
    CallForMerge(s, p3, e, r);
    l := p3 + [MergeCall(e, true, Raised)];
    assert l[..|l| - 1] == p3;
  }

  /** The process dies, and the next tick reports these balances. */
  lemma {:induction false} CrashAndReport(s: Proto, p: seq<Act>, ps: seq<Position>) returns (l: seq<Act>)
    requires Legal(s, p)
    ensures l == p + [Crash, Tick(ps)] && Legal(s, l)
    ensures Run(s, l) == Run(s, p).(positions := ps, focus := Nothing)
  {
    hide Legal, Run;
    Extend(s, p, Crash);
    Extend(s, p + [Crash], Tick(ps));
    l := p + [Crash, Tick(ps)];
    assert l == p + [Crash] + [Tick(ps)];
  }

  lemma {:induction false} AskAgain(s: Proto, p: seq<Act>, e: nat, v: OrderView)
    requires Legal(s, p) && e < |Run(s, p).rows| && Run(s, p).rows[e].wallet == Run(s, p).wallet
    requires var r := Run(s, p).rows[e]; r.status.Ready? && r.route.FokMerge? && r.orderId != ""
    ensures Legal(s, p + [OrderQuery(e, v)]) && Run(s, p + [OrderQuery(e, v)]) == Run(s, p).(focus := OrderRead(e, v))
  {
    hide Legal, Run;
    Extend(s, p, OrderQuery(e, v));
  }

  lemma {:induction false} CallForMerge(s: Proto, p: seq<Act>, e: nat, r: Row)
    requires Legal(s, p) && e < |Run(s, p).rows| && Run(s, p).rows[e] == r && r.wallet == Run(s, p).wallet
    requires r.status.Ready? && PairHeld(Run(s, p).positions, r) && !Routing(Run(s, p).focus)
    requires r.route.FokMerge? && r.orderId != "" ==> Run(s, p).focus == OrderRead(e, DEAD)
    ensures Legal(s, p + [MergeCall(e, true, Raised)])
  {
    hide Legal, Run;
    Extend(s, p, MergeCall(e, true, Raised));
  }

  /** In a free market the pair is reserved and merged anew in a tick that reports it. */
  lemma {:induction false} MergeAnew(s: Proto, p: seq<Act>, r: Row, e: nat) returns (l: seq<Act>)
    requires Legal(s, p) && FreeLike(Run(s, p), r, e) && NewRow(r, Run(s, p).wallet) && r.route.Pair? && WholePair(r)
    ensures Legal(s, l) && EndsInMerge(p, l)
    ensures Run(s, l[..|l| - 1]).rows == Run(s, p).rows + [r] && l[|l| - 1].e == |Run(s, p).rows|
  {
    hide Legal, Run;
    var n := |Run(s, p).rows|;
    var p0 := p + [Tick(PairOf(r))];
    var p1 := p0 + [Reserve(r)];
    Report(s, p, PairOf(r));
    PairOfHeld(r);
    ReserveAgain(s, p0, e, r);
    Extend(s, p1, MergeCall(n, true, Raised));
    l := p1 + [MergeCall(n, true, Raised)];
    assert l[..|l| - 1] == p1;
  }

  function FreshPair(r: Row): Row {
    r.(route := Pair, status := Ready, orderId := "", comp := "", txId := "", recovered := 0, pnl := 0,
       updatedAt := 0, confirmedAt := 0)
  }

  /** A way to a second merge request that never hears from the relayer. */
  lemma {:induction false} SecondMerge(s: Proto, p: seq<Act>, i: nat) returns (l: seq<Act>)
    requires Start(s) && Legal(s, p) && |p| == i + 2 && p[i].MergeCall? && CallsPair(s, p, i) && !p[i + 1].StoreTx?
    ensures p <= l && |p| < |l| && Legal(s, l) && l[|l| - 1].MergeCall?
    ensures SameMergeMarket(s, l, i, |l| - 1) && !SettledBetween(l, p[i].e, i, |l| - 1)
  {
    hide Next, Enabled, Legal, Run, OneActivePerMarket;
    JustCalled(s, p, i);
    var m, b, e := Run(s, p[..i + 1]), p[i + 1], p[i].e;
    assert p[..i + 2] == p;
    NotAskedYet(m, b, e);
    if b.Fail? && b.e == e {
      FailFrees(m, b);
      l := MergeAnew(s, p, FreshPair(m.rows[e]), e);
    } else {
      StillReady(m, b, e);
      l := MergeAfterCrash(s, p, e);
    }
    assert l[i] == p[i];
    Unheard(p, l, i, e);
  }

  lemma {:induction false} NotAskedYet(m: Proto, b: Act, e: nat)
    requires Enabled(m, b) && e < |m.rows| && m.rows[e].status.Ready?
    ensures !(b.RelayerQuery? && b.e == e)
  {
  }

  lemma {:induction false} Unheard(p: seq<Act>, l: seq<Act>, i: nat, e: nat)
    requires |p| == i + 2 && EndsInMerge(p, l) && !(p[i + 1].RelayerQuery? && p[i + 1].e == e)
    ensures !SettledBetween(l, e, i, |l| - 1)
  {
    forall q | i < q < |l| ensures !(l[q].RelayerQuery? && l[q].e == e) {
      if q < |p| { assert l[q] == p[q]; }
    }
  }

  // ---------------------------------------------------------------- the unstored transaction id

  /** Without it a crash after acceptance, with balances that still show the pair,
      sends the merge again. */
  function DoubleMerge(): seq<Act> {
    [Tick(FullPair()), Reserve(PairRow()), MergeCall(0, true, Tx("t")), Crash,
     Tick(FullPair()), MergeCall(0, true, Tx("u"))]
  }

  function FullPair(): seq<Position> { [Position("Y", "m", 1_000_000), Position("N", "m", 1_000_000)] }

  function PairRow(): Row { FokRow().(route := Pair) }

  function MergeState(n: nat): Proto {
    Proto("w",
          if n < 2 then [] else [PairRow()],
          if n == 0 || n == 4 then [] else FullPair(),
          if n == 2 then Reserved(0) else if n == 3 then MergeAnswered(0, Tx("t"))
          else if n == 6 then MergeAnswered(0, Tx("u")) else Nothing)
  }

  lemma {:induction false} MergeStep(n: nat)
    requires n < 6
    ensures Enabled(MergeState(n), DoubleMerge()[n]) && Next(MergeState(n), DoubleMerge()[n]) == MergeState(n + 1)
  {
    if n == 5 { PairThere(); }
  }

  lemma {:induction false} MergeRun(n: nat)
    requires n <= 6
    ensures Legal(EMPTY, DoubleMerge()[..n]) && Run(EMPTY, DoubleMerge()[..n]) == MergeState(n)
  {
    var log, trace := DoubleMerge()[..n], seq(n + 1, k requires k >= 0 => MergeState(k));
    forall k | 0 <= k < |log| ensures Enabled(trace[k], log[k]) && trace[k + 1] == Next(trace[k], log[k]) {
      MergeStep(k);
      assert log[k] == DoubleMerge()[k];
    }
    TraceIsRun(trace, log);
  }

  lemma {:induction false} UnstoredTxAllowsDoubleMerge()
    ensures Start(EMPTY) && Legal(EMPTY, DoubleMerge()) && !TxStoredPromptly(DoubleMerge())
    ensures DoubleMerge()[2].MergeCall? && DoubleMerge()[2].accepted && DoubleMerge()[2].e == 0
    ensures DoubleMerge()[5].MergeCall? && DoubleMerge()[5].accepted && DoubleMerge()[5].e == 0
  {
    var d := DoubleMerge();
    MergeRun(6);
    assert d[..6] == d;
    assert d[2].MergeCall? && d[2].accepted && d[3] == Crash;
  }

  lemma {:induction false} PairThere()
    ensures PairHeld(FullPair(), PairRow())
  {
    var ps := FullPair();
    assert ps[..1] == [Position("Y", "m", 1_000_000)];
    assert SizeOf(ps, "m", "N") == 1_000_000;
    assert SizeOf(ps, "m", "Y") == SizeOf(ps[..1], "m", "Y") by { assert "Y"[0] != "N"[0]; }
  }
}
