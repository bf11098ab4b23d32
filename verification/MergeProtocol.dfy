/** The exit protocol as a labelled transition system. Every effect the router has
    (a row written, a call sent together with the answer it met) is one act; a run
    is a sequence of acts with ticks and crashes anywhere in between. `Enabled`
    says when the router's call structure can perform an act. */
module MergeProtocol {
  import opened Fifo
  import opened Wrappers
  import opened MergeEvents
  import MergeAccounting

  datatype Position = Position(asset: string, cid: string, size: int)

  datatype FokStatus = MatchedNow | DelayedFill | OddStatus

  /** `Lost`: the call raised, so nothing is known about the order. */
  datatype FokReply = Rejected | Lost | Answer(status: FokStatus, orderId: string)

  /** What an order query reports; one status text can say both things ("unmatched"). */
  datatype OrderView = OrderView(matched: int, saysFilled: bool, saysDead: bool)

  datatype MergeReply = Raised | Tx(id: string)

  datatype RelayerState = Done | Broken | Unsettled

  datatype Cause = FokRejected | FokOdd | NeverStored | OrderDead | PairGone | NoTxId | RelayerBroke

  datatype SellKind = Maker | ProtectedFak

  datatype Act =
    | Tick(positions: seq<Position>)
    | Crash
    | Reserve(row: Row)
    | FokCall(e: nat, price: int, floor: int, reply: FokReply)
    | StoreOrder(e: nat, orderId: string, at: int)
    | SetComp(e: nat, comp: string, at: int)
    | OrderQuery(e: nat, view: OrderView)
    | MergeCall(e: nat, accepted: bool, result: MergeReply)
    | StoreTx(e: nat, txId: string, at: int)
    | RelayerQuery(e: nat, state: RelayerState, late: bool, now: int, timeout: int)
    | Confirm(e: nat, at: int)
    | Fail(e: nat, cause: Cause, at: int)
    | SellPlaced(pos: Position, kind: SellKind, price: int)

  /** The last answer the router is still acting on. */
  datatype Focus =
    | Nothing
    | Reserved(e: nat)
    | FokAnswered(e: nat, reply: FokReply)
    | OrderRead(e: nat, view: OrderView)
    | MergeAnswered(e: nat, result: MergeReply)
    | RelayerRead(e: nat, state: RelayerState, late: bool)

  datatype Proto = Proto(wallet: string, rows: seq<Row>, positions: seq<Position>, focus: Focus)

  /** Reported size of an asset in a market; the last entry wins. */
  function SizeOf(ps: seq<Position>, cid: string, asset: string): int {
    if ps == [] then 0
    else
      var p := ps[|ps| - 1];
      if p.cid == cid && p.asset == asset then p.size else SizeOf(ps[..|ps| - 1], cid, asset)
  }

  /** First other asset held in the market, with its size. */
  function PairFor(ps: seq<Position>, cid: string, asset: string): (r: Option<(string, int)>)
    ensures r.Some? ==> r.value.0 != asset && r.value.1 > 0
  {
    if ps == [] then None
    else if ps[0].cid == cid && ps[0].asset != asset && ps[0].size > 0 then Some((ps[0].asset, ps[0].size))
    else PairFor(ps[1..], cid, asset)
  }

  /** The reported balances already hold the whole pair of the event. */
  predicate PairHeld(ps: seq<Position>, r: Row) {
    && r.yes != "" && r.no != ""
    && MergeAccounting.PairAmount(SizeOf(ps, r.cid, r.yes), if r.no == r.yes then 0 else SizeOf(ps, r.cid, r.no))
       >= r.amount
  }

  function Confirmation(r: Row, at: int): Changes {
    Changes(Some(Confirmed), None, None, None,
            Some(MergeAccounting.MergeRecovery(r.amount)), Some(ProfitOf(r)), Some(at))
  }

  function RowAfter(r: Row, a: Act): Row {
    match a
    case StoreOrder(_, id, at) => Updated(r, NO_CHANGE.(orderId := Some(id)), at)
    case SetComp(_, comp, at) => Updated(r, NO_CHANGE.(comp := Some(comp)), at)
    case StoreTx(_, tx, at) =>
      Updated(r, NO_CHANGE.(status := Some(Submitted), txId := Some(tx), comp := Some("merged-submitted")), at)
    case Confirm(_, at) => Updated(r, Confirmation(r, at), at)
    case Fail(_, _, at) => Updated(r, NO_CHANGE.(status := Some(Failed)), at)
    case _ => r
  }

  predicate WritesRow(a: Act) { a.StoreOrder? || a.SetComp? || a.StoreTx? || a.Confirm? || a.Fail? }

  predicate Concerns(a: Act) { WritesRow(a) || a.FokCall? || a.OrderQuery? || a.MergeCall? || a.RelayerQuery? }

  function NextFocus(s: Proto, a: Act): Focus {
    match a
    case Tick(_) => Nothing
    case Crash => Nothing
    case Reserve(_) => Reserved(|s.rows|)
    case FokCall(e, _, _, reply) => FokAnswered(e, reply)
    case OrderQuery(e, view) => OrderRead(e, view)
    case MergeCall(e, _, reply) => MergeAnswered(e, reply)
    case RelayerQuery(e, state, late, _, _) => RelayerRead(e, state, late)
    case _ => s.focus
  }

  function Next(s: Proto, a: Act): Proto {
    s.(rows := if a.Reserve? then s.rows + [a.row]
               else if WritesRow(a) && a.e < |s.rows| then s.rows[a.e := RowAfter(s.rows[a.e], a)]
               else s.rows,
       positions := if a.Tick? then a.positions else if a.Crash? then [] else s.positions,
       focus := NextFocus(s, a))
  }

  /** A row as it is inserted. */
  predicate NewRow(r: Row, wallet: string) {
    && r.wallet == wallet && r.cid != "" && r.amount > 0 && r.status.Ready?
    && r.orderId == "" && r.comp == "" && r.txId == ""
    && r.recovered == 0 && r.pnl == 0 && r.updatedAt == 0 && r.confirmedAt == 0
    && (r.route.FokMerge? ==> r.no != "" && r.noCost == 0)
  }

  /** The reported positions hold what the row is for: one of exactly the amount to be
      completed, or a position and its first counterpart, merged as far as they go. */
  ghost predicate Backed(ps: seq<Position>, r: Row) {
    match r.route
    case FokMerge => Position(r.yes, r.cid, r.amount) in ps
    case Pair =>
      var other := PairFor(ps, r.cid, r.yes);
      other.Some? && other.value.0 == r.no
      && exists p :: p in ps && p.asset == r.yes && p.cid == r.cid
                     && r.amount == MergeAccounting.PairAmount(p.size, other.value.1)
  }

  /** A position is being routed: its event was reserved or its FOK answered in this
      very tick, so reconciliation is over. */
  predicate Routing(f: Focus) { f.Reserved? || f.FokAnswered? }

  /** The order was reported full, filled or dead. */
  predicate Ends(v: OrderView, amount: int) { v.matched >= amount || v.saysFilled || v.saysDead }

  /** What a FOK order must report before its pair is merged. */
  predicate Delivers(v: OrderView, amount: int, pair: bool) { v.matched >= amount || (Ends(v, amount) && pair) }

  predicate FailEnabled(s: Proto, r: Row, e: nat, cause: Cause) {
    match cause
    case FokRejected => s.focus == FokAnswered(e, Rejected) && r.status.Ready?
    case FokOdd => s.focus.FokAnswered? && s.focus.e == e && s.focus.reply.Answer?
                   && s.focus.reply.status.OddStatus? && r.status.Ready?
    case NeverStored => r.status.Ready? && r.route.FokMerge? && r.orderId == "" && !PairHeld(s.positions, r)
                        && !Routing(s.focus)
    case OrderDead => s.focus.OrderRead? && s.focus.e == e && s.focus.view.saysDead && r.status.Ready?
                      && !PairHeld(s.positions, r)
    case PairGone => r.status.Ready? && r.route.Pair? && !PairHeld(s.positions, r) && !Routing(s.focus)
    case NoTxId => s.focus == MergeAnswered(e, Tx("")) && r.status.Ready?
    case RelayerBroke => s.focus.RelayerRead? && s.focus.e == e && s.focus.state.Broken? && r.status.Submitted?
                         && PairHeld(s.positions, r)
  }

  /** The relayer reported success, or the pair is gone from the reported balances
      after a failure or past the timeout. */
  predicate ConfirmEvidence(s: Proto, r: Row, e: nat) {
    && s.focus.RelayerRead? && s.focus.e == e
    && (s.focus.state.Done?
        || (!PairHeld(s.positions, r) && (s.focus.state.Broken? || s.focus.late)))
  }

  predicate EnabledOn(s: Proto, r: Row, a: Act)
    requires Concerns(a)
  {
    match a
    case FokCall(e, price, floor, _) =>
      s.focus == Reserved(e) && r.route.FokMerge?
      && (MergeAccounting.DOLLAR - price) * r.amount >= floor
    case StoreOrder(e, id, _) =>
      s.focus.FokAnswered? && s.focus.e == e && s.focus.reply.Answer? && s.focus.reply.orderId == id
      && id != "" && r.status.Ready? && r.orderId == ""
    case SetComp(e, _, _) => r.status.Ready? && !s.focus.Reserved?
    case OrderQuery(e, _) => r.status.Ready? && r.route.FokMerge? && r.orderId != ""
    case MergeCall(e, accepted, reply) =>
      r.status.Ready?
      && (if r.route.Pair? then s.focus == Reserved(e) || (PairHeld(s.positions, r) && !Routing(s.focus))
          else if r.orderId == "" then PairHeld(s.positions, r) && !Routing(s.focus)
          else s.focus.OrderRead? && s.focus.e == e && Delivers(s.focus.view, r.amount, PairHeld(s.positions, r)))
    case StoreTx(e, tx, _) => s.focus == MergeAnswered(e, Tx(tx)) && tx != "" && r.status.Ready?
    case RelayerQuery(e, _, late, now, timeout) => r.status.Submitted? && late == (now - r.updatedAt > timeout)
    case Confirm(e, _) => r.status.Submitted? && ConfirmEvidence(s, r, e)
    case Fail(e, cause, _) => FailEnabled(s, r, e, cause)
    case _ => true
  }

  ghost predicate Enabled(s: Proto, a: Act) {
    if Concerns(a) then a.e < |s.rows| && s.rows[a.e].wallet == s.wallet && EnabledOn(s, s.rows[a.e], a)
    else match a
      case Reserve(row) =>
        NewRow(row, s.wallet) && Backed(s.positions, row) && !HasActive(s.rows, s.wallet, row.cid)
      case SellPlaced(pos, _, _) =>
        pos in s.positions && pos.size > 0 && pos.cid != "" && !HasActive(s.rows, s.wallet, pos.cid)
      case _ => true
  }

  function Run(s: Proto, log: seq<Act>): Proto {
    if log == [] then s else Next(Run(s, log[..|log| - 1]), log[|log| - 1])
  }

  /** Act `k` can be performed in the state the acts before it lead to. */
  ghost predicate Possible(s: Proto, log: seq<Act>, k: nat)
    requires k < |log|
  {
    Enabled(Run(s, log[..k]), log[k])
  }

  ghost predicate Legal(s: Proto, log: seq<Act>) {
    forall k | 0 <= k < |log| :: Possible(s, log, k)
  }

  /** Where a run may begin: any table that respects the index, nothing in flight. */
  ghost predicate Start(s: Proto) { OneActivePerMarket(s.rows) && s.focus == Nothing && s.positions == [] }

  /** The states a run passes through, written out: the form in which a program
      that performs the acts one by one keeps its history. */
  ghost predicate IsTrace(trace: seq<Proto>, log: seq<Act>) {
    && |trace| == |log| + 1
    && Start(trace[0])
    && forall k | 0 <= k < |log| :: Follows(trace, log, k)
  }

  /** Act `k` can be performed in state `k` and leads to the next. */
  ghost predicate Follows(trace: seq<Proto>, log: seq<Act>, k: nat)
    requires k < |log| < |trace|
  {
    Enabled(trace[k], log[k]) && trace[k + 1] == Next(trace[k], log[k])
  }

  lemma {:induction false} TraceIsRun(trace: seq<Proto>, log: seq<Act>)
    requires IsTrace(trace, log)
    ensures Legal(trace[0], log) && Run(trace[0], log) == trace[|log|]
  {
    hide Next, Enabled, Run;
    forall k | 0 <= k < |log| ensures Possible(trace[0], log, k) {
      RunIsTrace(trace, log, k);
      assert Follows(trace, log, k);
    }
    RunIsTrace(trace, log, |log|);
    assert log[..|log|] == log;
  }

  lemma {:induction false} RunIsTrace(trace: seq<Proto>, log: seq<Act>, k: nat)
    requires IsTrace(trace, log) && k <= |log|
    ensures Run(trace[0], log[..k]) == trace[k]
  {
    hide Next, Enabled;
    if k > 0 {
      RunIsTrace(trace, log, k - 1);
      assert Follows(trace, log, k - 1);
      assert log[..k][..k - 1] == log[..k - 1];
    }
  }

  lemma {:induction false} FirstOfTrace(trace: seq<Proto>, log: seq<Act>)
    requires IsTrace(trace, log)
    ensures |trace| == |log| + 1 && Start(trace[0])
  {
  }

  lemma {:induction false} TraceExtend(trace: seq<Proto>, log: seq<Act>, a: Act)
    requires trace != [] && IsTrace(trace, log) && Enabled(trace[|trace| - 1], a)
    ensures IsTrace(trace + [Next(trace[|trace| - 1], a)], log + [a])
  {
    hide Next, Enabled;
    var t, l := trace + [Next(trace[|log|], a)], log + [a];
    forall k | 0 <= k < |l| ensures Follows(t, l, k) {
      if k < |log| { assert Follows(trace, log, k); }
    }
  }

  // ---------------------------------------------------------------- plumbing

  lemma {:induction false} LegalPrefix(s: Proto, log: seq<Act>, k: nat)
    requires Legal(s, log) && k <= |log|
    ensures Legal(s, log[..k])
    ensures k < |log| ==> Enabled(Run(s, log[..k]), log[k]) && Run(s, log[..k + 1]) == Next(Run(s, log[..k]), log[k])
  {
    hide Next, Enabled;
    var p := log[..k];
    forall j | 0 <= j < k ensures Possible(s, p, j) {
      assert Possible(s, log, j);
      assert p[..j] == log[..j];
    }
    if k < |log| {
      assert Possible(s, log, k);
      assert log[..k + 1][..k] == p;
    }
  }

  lemma {:induction false} LegalLast(s: Proto, log: seq<Act>)
    requires Legal(s, log) && log != []
    ensures var n := |log| - 1;
            Legal(s, log[..n]) && Enabled(Run(s, log[..n]), log[n]) && Run(s, log) == Next(Run(s, log[..n]), log[n])
  {
    hide Next, Enabled;
    LegalPrefix(s, log, |log| - 1);
  }

  // ---------------------------------------------------------------- one step

  lemma {:induction false} NextReserve(s: Proto, row: Row)
    requires NewRow(row, s.wallet) && Backed(s.positions, row) && !HasActive(s.rows, s.wallet, row.cid)
    ensures Enabled(s, Reserve(row))
    ensures var n := Next(s, Reserve(row));
            n.rows == s.rows + [row] && n.positions == s.positions && n.wallet == s.wallet
  {
  }

  lemma {:induction false} NextCall(s: Proto, a: Act)
    requires a.FokCall? || a.OrderQuery? || a.MergeCall? || a.RelayerQuery? || a.SellPlaced?
    ensures var n := Next(s, a); n.rows == s.rows && n.positions == s.positions && n.wallet == s.wallet
  {
  }

  /** One act moves a row along at most one edge of the status diagram. */
  ghost predicate OneEdge(a: Status, b: Status) {
    a == b || (a.Ready? && b.Submitted?) || (a.Submitted? && b.Confirmed?) || ((a.Ready? || a.Submitted?) && b.Failed?)
  }

  lemma {:induction false} StepRow(s: Proto, a: Act, i: nat)
    requires Enabled(s, a) && i < |s.rows|
    ensures RowEvolves(s.rows[i], Next(s, a).rows[i])
    ensures OneEdge(s.rows[i].status, Next(s, a).rows[i].status)
  {
  }

  lemma {:induction false} StepTable(s: Proto, a: Act)
    requires Enabled(s, a)
    ensures TableEvolves(s.rows, Next(s, a).rows) && Next(s, a).wallet == s.wallet
  {
    forall i | 0 <= i < |s.rows| ensures RowEvolves(s.rows[i], Next(s, a).rows[i]) {
      StepRow(s, a, i);
    }
  }

  lemma {:induction false} StepKeepsIndex(s: Proto, a: Act)
    requires Enabled(s, a) && OneActivePerMarket(s.rows)
    ensures OneActivePerMarket(Next(s, a).rows)
  {
    var t := Next(s, a).rows;
    forall i, j | 0 <= i < j < |t| && Active(t[i]) && Active(t[j])
      ensures t[i].wallet != t[j].wallet || t[i].cid != t[j].cid
    {
      if j < |s.rows| {
        StepRow(s, a, i);
        StepRow(s, a, j);
      } else {
        assert a.Reserve? && t[i] == s.rows[i];
      }
    }
  }

  // ---------------------------------------------------------------- safety over whole runs

  /** In every run, with any answers and crashes anywhere: one active row per
      market, rows only move forward, terminal rows never change, the transaction
      id is written once. */
  lemma {:induction false} RunSafety(s: Proto, log: seq<Act>)
    requires Start(s) && Legal(s, log)
    ensures OneActivePerMarket(Run(s, log).rows)
    ensures TableEvolves(s.rows, Run(s, log).rows)
    ensures Run(s, log).wallet == s.wallet
  {
    hide Next, Enabled, RowEvolves, OneActivePerMarket;
    if log == [] {
      TableEvolvesSame(s.rows);
    } else {
      var p := log[..|log| - 1];
      LegalLast(s, log);
      RunSafety(s, p);
      var m, a := Run(s, p), log[|log| - 1];
      StepKeepsIndex(m, a);
      StepTable(m, a);
      TableEvolvesTransitive(s.rows, m.rows, Next(m, a).rows);
    }
  }

  /** The same between any two moments of a run. */
  lemma {:induction false} RunSafetyBetween(s: Proto, log: seq<Act>, i: nat, j: nat)
    requires Start(s) && Legal(s, log) && i <= j <= |log|
    ensures TableEvolves(Run(s, log[..i]).rows, Run(s, log[..j]).rows)
    decreases j
  {
    hide Next, Enabled, RowEvolves, Legal, Run;
    if i == j {
      TableEvolvesSame(Run(s, log[..i]).rows);
    } else {
      RunSafetyBetween(s, log, i, j - 1);
      LegalPrefix(s, log, j - 1);
      var m, a := Run(s, log[..j - 1]), log[j - 1];
      StepTable(m, a);
      TableEvolvesTransitive(Run(s, log[..i]).rows, m.rows, Next(m, a).rows);
    }
  }

  /** Two histories of one run, the second longer: the table has only evolved. */
  lemma {:induction false} TraceEvolves(t0: seq<Proto>, l0: seq<Act>, t1: seq<Proto>, l1: seq<Act>)
    requires IsTrace(t0, l0) && IsTrace(t1, l1) && t0[0] == t1[0] && l0 <= l1
    ensures TableEvolves(t0[|l0|].rows, t1[|l1|].rows)
  {
    hide Next, Enabled, IsTrace, RowEvolves, Legal, Run;
    TraceIsRun(t0, l0);
    TraceIsRun(t1, l1);
    FirstOfTrace(t1, l1);
    assert l1[..|l0|] == l0 && l1[..|l1|] == l1;
    RunSafetyBetween(t1[0], l1, |l0|, |l1|);
  }
}
