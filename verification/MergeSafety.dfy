/** What the exit protocol guarantees over every run, and the two windows in which
    a crash or a lost reply breaks more than that. */
module MergeSafety {
  import opened Sorting
  import opened Wrappers
  import opened MergeEvents
  import opened MergeProtocol
  import MergeAccounting

  // ---------------------------------------------------------------- where the focus comes from

  ghost predicate SentAs(log: seq<Act>, e: nat, reply: FokReply) {
    exists k :: 0 <= k < |log| && log[k].FokCall? && log[k].e == e && log[k].reply == reply
  }

  ghost predicate MergeCalled(log: seq<Act>, e: nat) {
    exists k :: 0 <= k < |log| && log[k].MergeCall? && log[k].e == e
  }

  /** The focus always names something that is in the log, and a reservation in
      focus is still untouched. */
  lemma {:induction false} FocusOrigin(s: Proto, log: seq<Act>)
    requires Start(s) && Legal(s, log)
    ensures Originates(Run(s, log), log, s.wallet)
  {
    hide Next, Enabled;
    if log != [] {
      var p, a := log[..|log| - 1], log[|log| - 1];
      LegalLast(s, log);
      FocusOrigin(s, p);
      RunSafety(s, p);
      FocusStep(Run(s, p), p, a, s.wallet);
      assert log == p + [a];
    }
  }

  ghost predicate Originates(m: Proto, log: seq<Act>, wallet: string) {
    && (m.focus.Reserved? ==> m.focus.e == |m.rows| - 1 && NewRow(m.rows[m.focus.e], wallet))
    && (m.focus.FokAnswered? ==> SentAs(log, m.focus.e, m.focus.reply))
    && (m.focus.MergeAnswered? ==> MergeCalled(log, m.focus.e))
  }

  lemma {:induction false} FocusStep(m: Proto, p: seq<Act>, a: Act, wallet: string)
    requires Originates(m, p, wallet) && Enabled(m, a) && m.wallet == wallet
    ensures Originates(Next(m, a), p + [a], wallet)
  {
    var log := p + [a];
    assert log[|p|] == a;
    if m.focus.FokAnswered? {
      var k :| 0 <= k < |p| && p[k].FokCall? && p[k].e == m.focus.e && p[k].reply == m.focus.reply;
      assert log[k] == p[k];
    } else if m.focus.MergeAnswered? {
      var k :| 0 <= k < |p| && p[k].MergeCall? && p[k].e == m.focus.e;
      assert log[k] == p[k];
    }
  }

  lemma {:induction false} LaterRow(s: Proto, log: seq<Act>, i: nat, j: nat, e: nat)
    requires Start(s) && Legal(s, log) && i <= j <= |log| && e < |Run(s, log[..i]).rows|
    ensures e < |Run(s, log[..j]).rows|
    ensures RowEvolves(Run(s, log[..i]).rows[e], Run(s, log[..j]).rows[e])
  {
    RunSafetyBetween(s, log, i, j);
  }

  // ---------------------------------------------------------------- one FOK per event

  lemma {:induction false} NeverReservedAgain(s: Proto, log: seq<Act>, i: nat, k: nat)
    requires Start(s) && Legal(s, log) && i < k <= |log| && (log[i].FokCall? || log[i].MergeCall?)
    ensures log[i].e < |Run(s, log[..k]).rows| && Run(s, log[..k]).focus != Reserved(log[i].e)
    decreases k
  {
    hide Next, Enabled;
    LegalPrefix(s, log, k - 1);
    if i + 1 < k {
      NeverReservedAgain(s, log, i, k - 1);
      StaysUnreserved(Run(s, log[..k - 1]), log[k - 1], log[i].e);
    } else {
      UsesFocus(Run(s, log[..i]), log[i]);
    }
  }

  lemma {:induction false} StaysUnreserved(m: Proto, a: Act, e: nat)
    requires Enabled(m, a) && e < |m.rows| && m.focus != Reserved(e)
    ensures e < |Next(m, a).rows| && Next(m, a).focus != Reserved(e)
  {
  }

  lemma {:induction false} UsesFocus(m: Proto, a: Act)
    requires Enabled(m, a) && (a.FokCall? || a.MergeCall?)
    ensures a.e < |Next(m, a).rows| && Next(m, a).focus != Reserved(a.e)
  {
  }

  lemma {:induction false} SentReserved(m: Proto, a: Act)
    requires Enabled(m, a) && a.FokCall?
    ensures m.focus == Reserved(a.e) && a.e < |m.rows| && m.rows[a.e].route.FokMerge?
    ensures m.rows[a.e].wallet == m.wallet
  {
  }

  lemma {:induction false} KeepsRows(m: Proto, a: Act)
    requires Enabled(m, a)
    ensures |m.rows| <= |Next(m, a).rows|
  {
  }

  /** Two FOK calls of a run never belong to the same event. */
  lemma {:induction false} AtMostOneFok(s: Proto, log: seq<Act>, i: nat, j: nat)
    requires Start(s) && Legal(s, log) && i < j < |log| && log[i].FokCall? && log[j].FokCall?
    ensures log[i].e != log[j].e
  {
    hide Next, Enabled, Legal, Run;
    NeverReservedAgain(s, log, i, j);
    LegalPrefix(s, log, j);
    SentReserved(Run(s, log[..j]), log[j]);
  }

  // ---------------------------------------------------------------- a new FOK needs a settled past

  /** The exchange refused the FOK, or its order was reported dead while the pair
      was absent, or the pair was seen and a merge was asked for. */
  ghost predicate Settles(a: Act, e: nat) {
    || (a.FokCall? && a.e == e && a.reply.Rejected?)
    || (a.MergeCall? && a.e == e)
    || (a.Fail? && a.e == e && a.cause.OrderDead?)
  }

  /** The event was given up although its FOK may still fill. */
  ghost predicate Abandons(a: Act, e: nat) {
    a.Fail? && a.e == e && (a.cause.NeverStored? || a.cause.FokOdd?)
  }

  ghost predicate Settled(log: seq<Act>, e: nat) { exists k :: 0 <= k < |log| && Settles(log[k], e) }

  ghost predicate Abandoned(log: seq<Act>, e: nat) { exists k :: 0 <= k < |log| && Abandons(log[k], e) }

  lemma {:induction false} SettledGrows(log: seq<Act>, a: Act, e: nat)
    ensures Settled(log, e) || Settles(a, e) ==> Settled(log + [a], e)
    ensures Abandoned(log, e) || Abandons(a, e) ==> Abandoned(log + [a], e)
  {
    var l := log + [a];
    assert l[|log|] == a;
    if Settled(log, e) {
      var k :| 0 <= k < |log| && Settles(log[k], e);
      assert Settles(l[k], e);
    }
    if Abandoned(log, e) {
      var k :| 0 <= k < |log| && Abandons(log[k], e);
      assert Abandons(l[k], e);
    }
  }

  lemma {:induction false} MergeCallSettles(log: seq<Act>, e: nat)
    requires MergeCalled(log, e)
    ensures Settled(log, e)
  {
    var k :| 0 <= k < |log| && log[k].MergeCall? && log[k].e == e;
    assert Settles(log[k], e);
  }

  lemma {:induction false} RejectionSettles(log: seq<Act>, e: nat)
    requires SentAs(log, e, Rejected)
    ensures Settled(log, e)
  {
    var k :| 0 <= k < |log| && log[k].FokCall? && log[k].e == e && log[k].reply == Rejected;
    assert Settles(log[k], e);
  }

  /** An event past READY has been settled or abandoned; past SUBMITTED it was settled. */
  ghost predicate Accounted(m: Proto, log: seq<Act>, e: nat) {
    && e < |m.rows| && m.rows[e].route.FokMerge?
    && (!m.rows[e].status.Ready? ==> Settled(log, e) || Abandoned(log, e))
    && (m.rows[e].status.Submitted? ==> Settled(log, e))
  }

  lemma {:induction false} AccountedStep(s: Proto, log: seq<Act>, a: Act, e: nat)
    requires Start(s) && Legal(s, log) && Enabled(Run(s, log), a) && Accounted(Run(s, log), log, e)
    ensures Accounted(Next(Run(s, log), a), log + [a], e)
  {
    var m := Run(s, log);
    StepRow(m, a, e);
    SettledGrows(log, a, e);
    if Concerns(a) && a.e == e && (a.StoreTx? || (a.Fail? && a.cause.NoTxId?)) {
      FocusOrigin(s, log);
      MergeCallSettles(log, e);
    } else if Concerns(a) && a.e == e && a.Fail? && a.cause.FokRejected? {
      FocusOrigin(s, log);
      RejectionSettles(log, e);
    }
  }

  lemma {:induction false} FokAccounted(s: Proto, log: seq<Act>, i: nat)
    requires Start(s) && Legal(s, log) && i < |log| && log[i].FokCall?
    ensures Accounted(Run(s, log), log, log[i].e)
    decreases |log|
  {
    var p, a := log[..|log| - 1], log[|log| - 1];
    assert log == p + [a];
    LegalPrefix(s, log, |log| - 1);
    if i < |p| {
      assert p[i] == log[i];
      FokAccounted(s, p, i);
      AccountedStep(s, p, a, log[i].e);
    } else {
      FocusOrigin(s, p);
    }
  }

  /** Both FOKs of a run went to one market. */
  ghost predicate SameMarket(s: Proto, log: seq<Act>, i: nat, j: nat)
    requires i < j < |log| && log[i].FokCall? && log[j].FokCall?
  {
    var rows := Run(s, log[..j]).rows;
    && log[i].e < |rows| && log[j].e < |rows|
    && rows[log[i].e].cid == rows[log[j].e].cid
  }

  lemma {:induction false} EarlierEventInactive(s: Proto, log: seq<Act>, i: nat, j: nat)
    requires Start(s) && Legal(s, log) && i < j < |log| && log[i].FokCall? && log[j].FokCall?
    requires SameMarket(s, log, i, j)
    ensures !Active(Run(s, log[..j]).rows[log[i].e])
  {
    hide Next, Enabled, Legal, Run;
    LegalPrefix(s, log, j);
    LegalPrefix(s, log, i);
    SentReserved(Run(s, log[..i]), log[i]);
    SentReserved(Run(s, log[..j]), log[j]);
    AtMostOneFok(s, log, i, j);
    FocusOrigin(s, log[..j]);
    RunSafety(s, log[..j]);
    LaterRow(s, log, i, j, log[i].e);
    RunSafety(s, log[..i]);
  }

  /** Whatever the answers and crashes: when a second FOK leaves for a market,
      each earlier one there was settled, or its event had been abandoned. */
  lemma {:induction false} FokOnlyAfterSettledOrAbandoned(s: Proto, log: seq<Act>, i: nat, j: nat)
    requires Start(s) && Legal(s, log) && i < j < |log| && log[i].FokCall? && log[j].FokCall?
    requires SameMarket(s, log, i, j)
    ensures Settled(log[..j], log[i].e) || Abandoned(log[..j], log[i].e)
  {
    hide Next, Enabled, Legal, Run;
    LegalPrefix(s, log, j);
    assert log[..j][i] == log[i];
    FokAccounted(s, log[..j], i);
    EarlierEventInactive(s, log, i, j);
  }

  ghost predicate MatchedOrDelayed(reply: FokReply) { reply.Answer? && !reply.status.OddStatus? }

  /** The reply left nothing open: refused, or matched or delayed under an id that
      was stored before anything else happened. */
  ghost predicate CleanReply(log: seq<Act>, i: nat)
    requires i < |log| && log[i].FokCall?
  {
    || log[i].reply.Rejected?
    || (&& MatchedOrDelayed(log[i].reply) && log[i].reply.orderId != ""
        && (i + 1 < |log| ==> log[i + 1].StoreOrder? && log[i + 1].e == log[i].e))
  }

  lemma {:induction false} StoredStays(s: Proto, log: seq<Act>, i: nat, k: nat)
    requires Start(s) && Legal(s, log) && i < k <= |log| && log[i].StoreOrder?
    ensures log[i].e < |Run(s, log[..k]).rows| && Run(s, log[..k]).rows[log[i].e].orderId != ""
  {
    hide Next, Enabled, Legal, Run;
    LegalPrefix(s, log, i);
    StoresId(Run(s, log[..i]), log[i]);
    LaterRow(s, log, i + 1, k, log[i].e);
  }

  lemma {:induction false} StoresId(m: Proto, a: Act)
    requires Enabled(m, a) && a.StoreOrder?
    ensures a.e < |Next(m, a).rows| && Next(m, a).rows[a.e].orderId != ""
  {
  }

  /** The focus on an answered FOK carries the reply of the one call for that event. */
  lemma {:induction false} FocusIsReply(s: Proto, log: seq<Act>, i: nat, k: nat)
    requires Start(s) && Legal(s, log) && i < |log| && k <= |log| && log[i].FokCall?
    requires Run(s, log[..k]).focus.FokAnswered? && Run(s, log[..k]).focus.e == log[i].e
    ensures Run(s, log[..k]).focus.reply == log[i].reply
  {
    LegalPrefix(s, log, k);
    var p := log[..k];
    FocusOrigin(s, p);
    var j :| 0 <= j < |p| && p[j].FokCall? && p[j].e == log[i].e && p[j].reply == Run(s, p).focus.reply;
    assert log[j] == p[j];
    SentOnce(s, log, i, j);
  }

  lemma {:induction false} SentOnce(s: Proto, log: seq<Act>, i: nat, j: nat)
    requires Start(s) && Legal(s, log) && i < |log| && j < |log|
    requires log[i].FokCall? && log[j].FokCall? && log[i].e == log[j].e
    ensures i == j
  {
    if i < j {
      AtMostOneFok(s, log, i, j);
    } else if j < i {
      AtMostOneFok(s, log, j, i);
    }
  }

  lemma {:induction false} OddMeansOddReply(s: Proto, log: seq<Act>, i: nat, k: nat)
    requires Start(s) && Legal(s, log) && i < |log| && k < |log| && log[i].FokCall?
    requires log[k].Fail? && log[k].cause.FokOdd? && log[k].e == log[i].e
    ensures log[i].reply.Answer? && log[i].reply.status.OddStatus?
  {
    hide Next, Enabled, Legal, Run;
    LegalPrefix(s, log, k);
    FailsOdd(Run(s, log[..k]), log[k]);
    FocusIsReply(s, log, i, k);
  }

  lemma {:induction false} FailsOdd(m: Proto, f: Act)
    requires Enabled(m, f) && f.Fail? && f.cause.FokOdd?
    ensures m.focus.FokAnswered? && m.focus.e == f.e && m.focus.reply.Answer? && m.focus.reply.status.OddStatus?
  {
  }

  lemma {:induction false} StoredNeverGivenUp(s: Proto, log: seq<Act>, i: nat, k: nat)
    requires Start(s) && Legal(s, log) && i < |log| && k < |log| && log[i].FokCall?
    requires i + 1 < |log| ==> log[i + 1].StoreOrder? && log[i + 1].e == log[i].e
    requires log[k].Fail? && log[k].e == log[i].e
    ensures k > i + 1 && !log[k].cause.NeverStored?
  {
    hide Next, Enabled, Legal, Run;
    if k > i + 1 {
      StoredStays(s, log, i + 1, k);
      GivenUpHadNoId(s, log, k);
    } else if k < i {
      FailedNeverSent(s, log, k, i);
    }
  }

  lemma {:induction false} GivenUpHadNoId(s: Proto, log: seq<Act>, k: nat)
    requires Legal(s, log) && k < |log| && log[k].Fail?
    ensures log[k].e < |Run(s, log[..k]).rows|
    ensures log[k].cause.NeverStored? ==> Run(s, log[..k]).rows[log[k].e].orderId == ""
  {
    hide Next, Enabled, Legal, Run;
    LegalPrefix(s, log, k);
    GivesUpUnstored(Run(s, log[..k]), log[k]);
  }

  lemma {:induction false} GivesUpUnstored(m: Proto, f: Act)
    requires Enabled(m, f) && f.Fail?
    ensures f.e < |m.rows| && Active(m.rows[f.e]) && !Active(Next(m, f).rows[f.e])
    ensures f.cause.NeverStored? ==> m.rows[f.e].orderId == ""
  {
  }

  lemma {:induction false} FailedNeverSent(s: Proto, log: seq<Act>, k: nat, i: nat)
    requires Start(s) && Legal(s, log) && k < i < |log| && log[k].Fail? && log[i].FokCall?
    ensures log[k].e != log[i].e
  {
    hide Next, Enabled, Legal, Run;
    LegalPrefix(s, log, k);
    LegalPrefix(s, log, i);
    FocusOrigin(s, log[..i]);
    SentReserved(Run(s, log[..i]), log[i]);
    GivesUpUnstored(Run(s, log[..k]), log[k]);
    KeepsRows(Run(s, log[..k]), log[k]);
    LaterRow(s, log, k + 1, i, log[k].e);
  }

  /** A clean reply is never abandoned. */
  lemma {:induction false} CleanNeverAbandoned(s: Proto, log: seq<Act>, i: nat, k: nat)
    requires Start(s) && Legal(s, log) && i < |log| && k < |log| && log[i].FokCall?
    requires CleanReply(log, i) && !log[i].reply.Rejected?
    ensures !Abandons(log[k], log[i].e)
  {
    if Abandons(log[k], log[i].e) {
      StoredNeverGivenUp(s, log, i, k);
      OddMeansOddReply(s, log, i, k);
      assert false;
    }
  }

  /** The event of a FOK is neither merged nor failed before the FOK has been sent. */
  lemma {:induction false} SettledLater(s: Proto, log: seq<Act>, i: nat, k: nat)
    requires Start(s) && Legal(s, log) && i < |log| && k < |log| && log[i].FokCall?
    requires !log[i].reply.Rejected? && Settles(log[k], log[i].e)
    ensures i < k && !log[k].FokCall?
  {
    hide Next, Enabled, Legal, Run;
    if k < i {
      if log[k].Fail? {
        FailedNeverSent(s, log, k, i);
      } else {
        NeverReservedAgain(s, log, k, i);
        LegalPrefix(s, log, i);
        SentReserved(Run(s, log[..i]), log[i]);
      }
    } else if i < k && log[k].FokCall? {
      AtMostOneFok(s, log, i, k);
    }
  }

  /** An order query in focus was answered in the current tick. */
  lemma {:induction false} OrderReadThisTick(s: Proto, log: seq<Act>, n: nat) returns (k: nat)
    requires Start(s) && n <= |log| && Run(s, log[..n]).focus.OrderRead?
    ensures k < n && log[k].OrderQuery? && QuietSince(log, k, n)
    ensures Run(s, log[..n]).focus == OrderRead(log[k].e, log[k].view)
  {
    assert n > 0 by { assert log[..0] == []; }
    assert log[..n][..n - 1] == log[..n - 1];
    if log[n - 1].OrderQuery? {
      k := n - 1;
    } else {
      OrderFocusKept(Run(s, log[..n - 1]), log[n - 1]);
      k := OrderReadThisTick(s, log, n - 1);
    }
  }

  lemma {:induction false} OrderFocusKept(m: Proto, a: Act)
    requires Next(m, a).focus.OrderRead? && !a.OrderQuery?
    ensures m.focus == Next(m, a).focus && !a.Tick? && !a.Crash?
  {
  }

  /** Only an event whose id is stored has its order read. */
  lemma {:induction false} ReadAfterSent(s: Proto, log: seq<Act>, i: nat, q: nat)
    requires Start(s) && Legal(s, log) && i < |log| && q < |log| && log[i].FokCall?
    requires log[q].OrderQuery? && log[q].e == log[i].e
    ensures i < q
  {
    hide Next, Enabled, Legal, Run;
    if q < i {
      LegalPrefix(s, log, q);
      LegalPrefix(s, log, i);
      FocusOrigin(s, log[..i]);
      SentReserved(Run(s, log[..i]), log[i]);
      ReadsStored(Run(s, log[..q]), log[q]);
      LaterRow(s, log, q, i, log[i].e);
    }
  }

  lemma {:induction false} ReadsStored(m: Proto, a: Act)
    requires Enabled(m, a) && a.OrderQuery?
    ensures a.e < |m.rows| && m.rows[a.e].orderId != ""
  {
  }

  /** Shares the FOK at `i` was sent for. */
  ghost function AmountOf(s: Proto, log: seq<Act>, i: nat): int
    requires i < |log| && log[i].FokCall?
  {
    var rows := Run(s, log[..i]).rows;
    if log[i].e < |rows| then rows[log[i].e].amount else 0
  }

  /** Between the two moments the first order was read as full, filled or dead. */
  ghost predicate ReadBetween(log: seq<Act>, e: nat, amount: int, i: int, j: int) {
    exists q :: i < q < j && 0 <= q < |log| && log[q].OrderQuery? && log[q].e == e && Ends(log[q].view, amount)
  }

  /** With its id stored, an event is settled only in a tick that has read its order
      as full, filled or dead. */
  lemma {:induction false} SettlementRead(s: Proto, log: seq<Act>, i: nat, k: nat) returns (q: nat)
    requires Start(s) && Legal(s, log) && i < |log| && k < |log| && log[i].FokCall?
    requires CleanReply(log, i) && !log[i].reply.Rejected? && Settles(log[k], log[i].e)
    ensures i < q < k && log[q].OrderQuery? && log[q].e == log[i].e && QuietSince(log, q, k)
    ensures Ends(log[q].view, AmountOf(s, log, i))
  {
    hide Next, Enabled, Legal, Run;
    SettledLater(s, log, i, k);
    StoredRow(s, log, i, k);
    LegalPrefix(s, log, k);
    SettlesRead(Run(s, log[..k]), log[k], log[i].e);
    q := OrderReadThisTick(s, log, k);
    ReadAfterSent(s, log, i, q);
  }

  lemma {:induction false} SettlesRead(m: Proto, a: Act, e: nat)
    requires Enabled(m, a) && Settles(a, e) && !a.FokCall? && e < |m.rows|
    requires m.rows[e].route.FokMerge? && m.rows[e].orderId != ""
    ensures m.focus.OrderRead? && m.focus.e == e && Ends(m.focus.view, m.rows[e].amount)
  {
  }

  lemma {:induction false} StoredRow(s: Proto, log: seq<Act>, i: nat, k: nat)
    requires Start(s) && Legal(s, log) && i < k < |log| && log[i].FokCall?
    requires log[i + 1].StoreOrder? && log[i + 1].e == log[i].e && !log[k].StoreOrder?
    ensures var rows := Run(s, log[..k]).rows;
            && log[i].e < |rows| && rows[log[i].e].route.FokMerge? && rows[log[i].e].orderId != ""
            && rows[log[i].e].amount == AmountOf(s, log, i)
  {
    hide Next, Enabled, Legal, Run;
    LegalPrefix(s, log, i);
    SentReserved(Run(s, log[..i]), log[i]);
    StoredStays(s, log, i + 1, k);
    LaterRow(s, log, i, k, log[i].e);
  }

  /** No double purchase: after a FOK that was matched or delayed and whose id was
      stored next, another FOK leaves for the market only when the event has been
      settled, in a tick that had read the first order as full, filled or dead. */
  lemma {:induction false} NoSecondFokInFlight(s: Proto, log: seq<Act>, i: nat, j: nat) returns (q: nat, k: nat)
    requires Start(s) && Legal(s, log) && i < j < |log| && log[i].FokCall? && log[j].FokCall?
    requires SameMarket(s, log, i, j)
    requires CleanReply(log, i) && !log[i].reply.Rejected?
    ensures i < q < k < j && log[q].OrderQuery? && log[q].e == log[i].e && QuietSince(log, q, k)
    ensures Ends(log[q].view, AmountOf(s, log, i)) && Settles(log[k], log[i].e)
  {
    FokOnlyAfterSettledOrAbandoned(s, log, i, j);
    if Abandoned(log[..j], log[i].e) {
      k :| 0 <= k < |log[..j]| && Abandons(log[..j][k], log[i].e);
      assert log[..j][k] == log[k];
      CleanNeverAbandoned(s, log, i, k);
    }
    k :| 0 <= k < |log[..j]| && Settles(log[..j][k], log[i].e);
    assert log[..j][k] == log[k];
    q := SettlementRead(s, log, i, k);
  }

  // ---------------------------------------------------------------- confirmation

  /** An event is confirmed at most once, and never after it failed. */
  lemma {:induction false} ConfirmedOnce(s: Proto, log: seq<Act>, i: nat, j: nat)
    requires Start(s) && Legal(s, log) && i < j < |log|
    requires (log[i].Confirm? || log[i].Fail?) && (log[j].Confirm? || log[j].Fail?)
    ensures log[i].e != log[j].e
  {
    hide Next, Enabled, Legal, Run;
    LegalPrefix(s, log, i);
    LegalPrefix(s, log, j);
    EndsActive(Run(s, log[..i]), log[i]);
    EndsActive(Run(s, log[..j]), log[j]);
    LaterRow(s, log, i + 1, j, log[i].e);
  }

  lemma {:induction false} EndsActive(m: Proto, a: Act)
    requires Enabled(m, a) && (a.Confirm? || a.Fail?)
    ensures a.e < |m.rows| && Active(m.rows[a.e])
    ensures |Next(m, a).rows| == |m.rows| && Terminal(Next(m, a).rows[a.e])
  {
  }

  ghost predicate QuietSince(log: seq<Act>, k: nat, n: nat) {
    forall l | k < l < n && l < |log| :: !log[l].Tick? && !log[l].Crash?
  }

  /** A relayer answer in focus was read in the current tick. */
  lemma {:induction false} RelayerReadThisTick(s: Proto, log: seq<Act>, n: nat) returns (k: nat)
    requires Start(s) && n <= |log| && Run(s, log[..n]).focus.RelayerRead?
    ensures k < n && log[k].RelayerQuery? && QuietSince(log, k, n)
    ensures Run(s, log[..n]).focus == RelayerRead(log[k].e, log[k].state, log[k].late)
  {
    assert n > 0 by { assert log[..0] == []; }
    assert log[..n][..n - 1] == log[..n - 1];
    if log[n - 1].RelayerQuery? {
      k := n - 1;
    } else {
      FocusKept(Run(s, log[..n - 1]), log[n - 1]);
      k := RelayerReadThisTick(s, log, n - 1);
    }
  }

  lemma {:induction false} FocusKept(m: Proto, a: Act)
    requires Next(m, a).focus.RelayerRead? && !a.RelayerQuery?
    ensures m.focus == Next(m, a).focus && !a.Tick? && !a.Crash?
  {
  }

  /** CONFIRMED is reached only from SUBMITTED, in the tick of a relayer answer that
      said done, or with the pair gone from the balances of that tick after a
      failure or the timeout. */
  lemma {:induction false} ConfirmJustified(s: Proto, log: seq<Act>, i: nat) returns (k: nat)
    requires Start(s) && Legal(s, log) && i < |log| && log[i].Confirm?
    ensures k < i && log[k].RelayerQuery? && log[k].e == log[i].e && QuietSince(log, k, i)
    ensures var m, e := Run(s, log[..i]), log[i].e;
            && e < |m.rows| && m.rows[e].status.Submitted?
            && (log[k].state.Done? || (!PairHeld(m.positions, m.rows[e]) && (log[k].state.Broken? || log[k].late)))
  {
    hide Next, Enabled, Legal, Run;
    LegalPrefix(s, log, i);
    ConfirmHeard(Run(s, log[..i]), log[i]);
    k := RelayerReadThisTick(s, log, i);
  }

  lemma {:induction false} ConfirmHeard(m: Proto, a: Act)
    requires Enabled(m, a) && a.Confirm?
    ensures a.e < |m.rows| && m.rows[a.e].status.Submitted? && ConfirmEvidence(m, m.rows[a.e], a.e)
  {
  }

  // ---------------------------------------------------------------- profit is counted once

  ghost function PnlSum(rows: seq<Row>): int {
    if rows == [] then 0 else PnlSum(rows[..|rows| - 1]) + rows[|rows| - 1].pnl
  }

  /** Profit the ledger reads for one wallet. */
  ghost function Booked(m: Proto): int { PnlSum(ConfirmedRows(m.rows, Some(m.wallet))) }

  /** Profit the confirmations of a run are entitled to. */
  ghost function Earned(s: Proto, log: seq<Act>): int {
    if log == [] then 0
    else
      var p, a := log[..|log| - 1], log[|log| - 1];
      Earned(s, p) + (if a.Confirm? && a.e < |Run(s, p).rows| then ProfitOf(Run(s, p).rows[a.e]) else 0)
  }

  function Counted(r: Row, wallet: string): int {
    if r.status.Confirmed? && r.wallet == wallet then r.pnl else 0
  }

  ghost function CountedSum(rows: seq<Row>, wallet: string): int {
    if rows == [] then 0 else CountedSum(rows[..|rows| - 1], wallet) + Counted(rows[|rows| - 1], wallet)
  }

  lemma {:induction false} BookedIsCounted(rows: seq<Row>, wallet: string)
    ensures PnlSum(ConfirmedRows(rows, Some(wallet))) == CountedSum(rows, wallet)
  {
    ConfirmedIsCounted(rows, wallet);
    PnlOfSorted(ConfirmedOf(rows, Some(wallet)));
  }

  lemma {:induction false} PnlOfSorted(rows: seq<Row>)
    ensures PnlSum(StableSort(rows, ConfirmedAt)) == PnlSum(rows)
  {
    if rows != [] {
      var p, r := rows[..|rows| - 1], rows[|rows| - 1];
      PnlOfSorted(p);
      PnlOfInserted(r, StableSort(p, ConfirmedAt));
    }
  }

  lemma {:induction false} PnlOfInserted(r: Row, rows: seq<Row>)
    ensures PnlSum(Insert(r, rows, ConfirmedAt)) == PnlSum(rows) + r.pnl
  {
    if rows == [] || ConfirmedAt(r) < ConfirmedAt(rows[0]) {
      PnlHead(r, rows);
    } else {
      PnlOfInserted(r, rows[1..]);
      PnlHead(rows[0], Insert(r, rows[1..], ConfirmedAt));
      PnlHead(rows[0], rows[1..]);
      assert rows == [rows[0]] + rows[1..];
    }
  }

  lemma {:induction false} PnlHead(r: Row, rows: seq<Row>)
    ensures PnlSum([r] + rows) == r.pnl + PnlSum(rows)
  {
    var all, n := [r] + rows, |rows|;
    if rows == [] {
      assert all[..0] == [];
    } else {
      PnlHead(r, rows[..n - 1]);
      assert all[..n] == [r] + rows[..n - 1];
    }
  }

  lemma {:induction false} ConfirmedIsCounted(rows: seq<Row>, wallet: string)
    ensures PnlSum(ConfirmedOf(rows, Some(wallet))) == CountedSum(rows, wallet)
  {
    if rows != [] {
      var p, r := rows[..|rows| - 1], rows[|rows| - 1];
      ConfirmedIsCounted(p, wallet);
      var c := ConfirmedOf(p, Some(wallet));
      assert (c + [r])[..|c|] == c;
      assert c + [] == c;
    }
  }

  lemma {:induction false} CountedAppend(rows: seq<Row>, r: Row, wallet: string)
    ensures CountedSum(rows + [r], wallet) == CountedSum(rows, wallet) + Counted(r, wallet)
  {
    assert (rows + [r])[..|rows|] == rows;
  }

  lemma {:induction false} CountedUpdate(rows: seq<Row>, i: nat, r: Row, wallet: string)
    requires i < |rows|
    ensures CountedSum(rows[i := r], wallet) == CountedSum(rows, wallet) - Counted(rows[i], wallet) + Counted(r, wallet)
  {
    var n := |rows| - 1;
    if i == n {
      assert rows[i := r][..n] == rows[..n];
    } else {
      CountedUpdate(rows[..n], i, r, wallet);
      assert rows[i := r][..n] == rows[..n][i := r];
    }
  }

  /** Over any run the ledger's merge profit grows by exactly the profit of each
      confirmation, once; ready, submitted and failed events add nothing. */
  lemma {:induction false} ProfitCountedOnce(s: Proto, log: seq<Act>)
    requires Start(s) && Legal(s, log)
    ensures Booked(Run(s, log)) == Booked(s) + Earned(s, log)
  {
    hide Next, Booked, OneActivePerMarket, TableEvolves;
    if log != [] {
      var p, a := log[..|log| - 1], log[|log| - 1];
      LegalLast(s, log);
      ProfitCountedOnce(s, p);
      RunSafety(s, p);
      BookedStep(Run(s, p), a);
    }
  }

  lemma {:induction false} BookedStep(m: Proto, a: Act)
    requires Enabled(m, a)
    ensures Booked(Next(m, a)) == Booked(m) + (if a.Confirm? then ProfitOf(m.rows[a.e]) else 0)
  {
    BookedIsCounted(m.rows, m.wallet);
    BookedIsCounted(Next(m, a).rows, m.wallet);
    CountedStep(m, a);
  }

  lemma {:induction false} CountedStep(m: Proto, a: Act)
    requires Enabled(m, a)
    ensures Next(m, a).wallet == m.wallet
    ensures CountedSum(Next(m, a).rows, m.wallet)
            == CountedSum(m.rows, m.wallet) + (if a.Confirm? then ProfitOf(m.rows[a.e]) else 0)
  {
    if a.Reserve? {
      CountedAppend(m.rows, a.row, m.wallet);
    } else if WritesRow(a) {
      CountedUpdate(m.rows, a.e, RowAfter(m.rows[a.e], a), m.wallet);
      WriteCounts(m.rows[a.e], a, m.wallet);
    }
  }

  lemma {:induction false} WriteCounts(r: Row, a: Act, wallet: string)
    requires WritesRow(a) && Active(r) && r.wallet == wallet
    ensures Counted(RowAfter(r, a), wallet) - Counted(r, wallet) == if a.Confirm? then ProfitOf(r) else 0
  {
  }

  // ---------------------------------------------------------------- accepted merges

  /** Every accepted merge answered with a transaction id that was stored next. */
  ghost predicate TxStoredPromptly(log: seq<Act>) {
    forall i | 0 <= i < |log| && log[i].MergeCall? && log[i].accepted ::
      i + 1 < |log| ==> log[i + 1].StoreTx? && log[i + 1].e == log[i].e
  }

  /** Under that hypothesis the relayer accepts at most one merge per event. */
  lemma {:induction false} AcceptedAtMostOnce(s: Proto, log: seq<Act>, i: nat, j: nat)
    requires Start(s) && Legal(s, log) && TxStoredPromptly(log)
    requires i < j < |log| && log[i].MergeCall? && log[i].accepted && log[j].MergeCall?
    ensures log[i].e != log[j].e
  {
    if j > i + 1 && log[i].e == log[j].e {
      MergeCallNeedsReady(s, log, j);
      StoredTxEndsReady(s, log, i + 1, j);
    }
  }

  lemma {:induction false} MergeCallNeedsReady(s: Proto, log: seq<Act>, j: nat)
    requires Legal(s, log) && j < |log| && log[j].MergeCall?
    ensures ReadyRow(Run(s, log[..j]), log[j].e)
  {
    hide Next, Enabled, Legal, Run;
    LegalPrefix(s, log, j);
    MergesReady(Run(s, log[..j]), log[j]);
  }

  /** The wallet's own event `e` is ready. */
  ghost predicate ReadyRow(m: Proto, e: nat) {
    e < |m.rows| && m.rows[e].status.Ready? && m.rows[e].wallet == m.wallet
  }

  lemma {:induction false} MergesReady(m: Proto, a: Act)
    requires Enabled(m, a) && a.MergeCall?
    ensures ReadyRow(m, a.e)
  {
  }

  lemma {:induction false} StoredTxEndsReady(s: Proto, log: seq<Act>, k: nat, j: nat)
    requires Start(s) && Legal(s, log) && k < j <= |log| && log[k].StoreTx?
    ensures log[k].e < |Run(s, log[..j]).rows| && !Run(s, log[..j]).rows[log[k].e].status.Ready?
  {
    hide Next, Enabled, Legal, Run;
    LegalPrefix(s, log, k);
    StoresTx(Run(s, log[..k]), log[k]);
    LaterRow(s, log, k + 1, j, log[k].e);
  }

  lemma {:induction false} StoresTx(m: Proto, a: Act)
    requires Enabled(m, a) && a.StoreTx?
    ensures a.e < |Next(m, a).rows| && Next(m, a).rows[a.e].status.Submitted?
  {
  }
}
