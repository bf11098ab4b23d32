/** The router that turns filled reward buys back into cash: sell as maker, merge a
    pair, buy the complement and merge, or sell into the bids under a limit. Every
    answer of the exchange, the relayer and the clock is an input; `fuse` counts the
    effects left before the process dies. `log` records each effect as an act of
    the merge protocol, and every method keeps the log a legal run of it. */
module ExitRouter {
  import opened Fifo
  import opened Sorting
  import opened Wrappers
  import opened MergeEvents
  import opened MergeProtocol
  import opened ProtectedExit
  import opened RouterChoices
  import opened RouterSteps
  import MergeAccounting
  import CostBasis
  import TakeProfit

  const LIST_LIMIT := 100

  /** How a call ended: normally, by the death of the process, or by an exception. */
  datatype Outcome = Ok | Crashed | Threw {
    predicate IsFailure() { !Ok? }
    function PropagateFailure(): Outcome { this }
  }

  datatype TickInputs = TickInputs(
    fuse: nat, now: int, positions: seq<Position>, orders: seq<OpenOrder>,
    events: nat -> EventAnswers, skip: nat -> bool, routes: nat -> RouteInputs)

  /** What routing may change: rows, history, open orders, managed sells and poll times. */
  datatype Snap = Snap(rows: seq<Row>, log: seq<Act>, orders: seq<OpenOrder>, managed: map<string, string>,
                       polls: map<nat, int>)

  /** Where a tick begins in the history, where its effects end, and where the next begins. */
  datatype Span = Span(begin: nat, end: nat, next: nat)

  class Router {
    const wallet: string
    const table: EventTable
    ghost const start: Proto
    var managed: map<string, string>
    var pollAfter: map<nat, int>
    var openOrders: seq<OpenOrder>
    var positions: seq<Position>
    var fuse: nat
    ghost var log: seq<Act>
    ghost var trace: seq<Proto>

    ghost function State(): Proto
      requires trace != []
      reads this
    {
      trace[|trace| - 1]
    }

    ghost predicate Valid()
      reads this, table
    {
      && table.Valid()
      && trace != [] && trace[0] == start && IsTrace(trace, log)
      && State().wallet == wallet && State().rows == table.rows && State().positions == positions
    }

    /** Poll time of an event; none stored means now. */
    predicate Due(e: nat, now: int)
      reads this
    {
      e !in pollAfter || now >= pollAfter[e]
    }

    /** Each effect uses up one unit of the fuse, and the process dies only without any. */
    twostate predicate Burns(o: Outcome)
      reads this
    {
      fuse + |log| == old(fuse) + |old(log)| && (o.Crashed? ==> fuse == 0)
    }

    constructor (wallet: string, table: EventTable)
      requires table.Valid()
      ensures Valid() && this.table == table && this.wallet == wallet && log == [] && start.rows == table.rows
    {
      this.wallet, this.table := wallet, table;
      managed, pollAfter, openOrders, positions, fuse := map[], map[], [], [], 0;
      start := Proto(wallet, table.rows, [], Nothing);
      log, trace := [], [Proto(wallet, table.rows, [], Nothing)];
    }

    // -------------------------------------------------------------- effects

    /** An outside call and its answer. */
    method Call(ghost a: Act) returns (o: Outcome)
      requires Valid() && Enabled(State(), a)
      requires a.FokCall? || a.OrderQuery? || a.MergeCall? || a.RelayerQuery? || a.SellPlaced?
      modifies this`log, this`trace, this`fuse
      ensures Burns(o)
      ensures Valid() && !o.Threw?
      ensures o.Ok? ==> log == old(log) + [a] && State() == Next(old(State()), a)
      ensures o.Crashed? ==> log == old(log) && State() == old(State())
    {
      hide IsTrace, OneActivePerMarket, Next, Enabled;
      NextCall(State(), a);
      if fuse == 0 {
        return Crashed;
      }
      fuse := fuse - 1;
      TraceExtend(trace, log, a);
      trace, log := trace + [Next(State(), a)], log + [a];
      return Ok;
    }

    /** One UPDATE of the event table. */
    method Write(e: nat, c: Changes, at: int, ghost a: Act) returns (o: Outcome)
      requires Valid() && Enabled(State(), a) && WritesRow(a) && a.e == e
      requires e < |table.rows| && RowAfter(table.rows[e], a) == Updated(table.rows[e], c, at)
      modifies this`log, this`trace, this`fuse, table
      ensures Burns(o)
      ensures Valid() && !o.Threw?
      ensures o.Ok? ==> log == old(log) + [a] && State() == Next(old(State()), a)
      ensures o.Ok? ==> table.rows == old(table.rows)[e := RowAfter(old(table.rows)[e], a)]
      ensures o.Crashed? ==> log == old(log) && State() == old(State()) && table.rows == old(table.rows)
    {
      hide IsTrace, OneActivePerMarket;
      if fuse == 0 {
        return Crashed;
      }
      fuse := fuse - 1;
      TraceExtend(trace, log, a);
      StepRow(State(), a, e);
      var ok := table.UpdateMergeEvent(e, c, at);
      assert ok;
      trace, log := trace + [Next(State(), a)], log + [a];
      return Ok;
    }

    /** Notes how far the complement or the merge has come; the event stays ready. */
    method MarkComp(e: nat, comp: string, now: int) returns (o: Outcome)
      requires Valid() && e < |table.rows| && table.rows[e].wallet == wallet && table.rows[e].status.Ready?
      requires !State().focus.Reserved?
      modifies this`log, this`trace, this`fuse, table
      ensures Burns(o)
      ensures Valid() && !o.Threw? && old(log) <= log && State().focus == old(State().focus)
      ensures OnlyRow(old(table.rows), table.rows, e)
      ensures table.rows[e] == if o.Ok? then WithComp(old(table.rows)[e], comp, now) else old(table.rows)[e]
      ensures o.Ok? ==> log == old(log) + [SetComp(e, comp, now)]
    {
      hide IsTrace, OneActivePerMarket;
      o := Write(e, NO_CHANGE.(comp := Some(comp)), now, SetComp(e, comp, now));
    }

    /** Fails an event once; failing it again has no effect. */
    method FailEvent(e: nat, now: int, ghost cause: Cause) returns (o: Outcome)
      requires Valid() && e < |table.rows|
      requires table.rows[e].status.Failed? || Enabled(State(), Fail(e, cause, now))
      modifies this`log, this`trace, this`fuse, this`pollAfter, table
      ensures Burns(o)
      ensures Valid() && !o.Threw? && old(log) <= log
      ensures State().focus == old(State().focus)
      ensures OnlyRow(old(table.rows), table.rows, e) && pollAfter - {e} == old(pollAfter) - {e}
      ensures old(table.rows)[e].status.Failed? ==>
                o.Ok? && table.rows == old(table.rows) && log == old(log) && pollAfter == old(pollAfter)
      ensures o.Ok? && !old(table.rows)[e].status.Failed? ==>
                table.rows[e] == Failing(old(table.rows)[e], now) && log == old(log) + [Fail(e, cause, now)]
                && pollAfter == old(pollAfter) - {e}
    {
      hide IsTrace, OneActivePerMarket;
      if table.rows[e].status.Failed? {
        return Ok;
      }
      :- Write(e, NO_CHANGE.(status := Some(Failed)), now, Fail(e, cause, now));
      pollAfter := pollAfter - {e};
      return Ok;
    }

    /** Only row `e` may differ. */
    static ghost predicate OnlyRow(before: seq<Row>, after: seq<Row>, e: nat) {
      e < |before| && |after| == |before| && after == before[e := after[e]]
    }

    /** Confirms an event once; confirming it again has no effect. */
    method FinalizeConfirmed(e: nat, now: int) returns (o: Outcome)
      requires Valid() && e < |table.rows|
      requires table.rows[e].status.Confirmed? || Enabled(State(), Confirm(e, now))
      modifies this`log, this`trace, this`fuse, table
      ensures Burns(o)
      ensures Valid() && !o.Threw? && old(log) <= log
      ensures State().focus == old(State().focus)
      ensures OnlyRow(old(table.rows), table.rows, e)
      ensures old(table.rows)[e].status.Confirmed? ==> o.Ok? && table.rows == old(table.rows) && log == old(log)
      ensures o.Ok? && !old(table.rows)[e].status.Confirmed? ==>
                table.rows[e] == Confirming(old(table.rows)[e], now) && log == old(log) + [Confirm(e, now)]
    {
      hide IsTrace, OneActivePerMarket;
      var cur := table.rows[e];
      if cur.status.Confirmed? {
        return Ok;
      }
      o := Write(e, Confirmation(cur, now), now, Confirm(e, now));
    }

    /** Forgets every open sell of an asset; the exchange may still refuse the cancel. */
    method CancelSells(asset: string)
      modifies this`openOrders, this`managed
      ensures openOrders == Forgotten(old(openOrders), asset)
      ensures managed == AfterCancel(old(managed), old(openOrders), asset)
      ensures Clears(old(openOrders), openOrders, old(managed), managed, asset)
    {
      hide Clears, HasSell, Others;
      ForgottenClears(openOrders, managed, asset);
      if HasSell(openOrders, asset) {
        openOrders := OrdersBeside(asset);
        managed := managed - {asset};
      }
    }

    /** Forgets the sells of both sides of a pair. */
    method CancelPair(yes: string, no: string)
      modifies this`openOrders, this`managed
      ensures openOrders == Forgotten(Forgotten(old(openOrders), yes), no)
      ensures managed
           == AfterCancel(AfterCancel(old(managed), old(openOrders), yes), Forgotten(old(openOrders), yes), no)
      ensures Fewer(old(openOrders), openOrders, old(managed), managed) && NoOpenSell(yes) && NoOpenSell(no)
    {
      FewerTwice(openOrders, managed, yes, no);
      CancelSells(yes);
      CancelSells(no);
    }

    /** The open orders that are not sells of the asset. */
    method OrdersBeside(asset: string) returns (kept: seq<OpenOrder>)
      ensures kept == Others(openOrders, asset)
    {
      kept := [];
      for i := 0 to |openOrders|
        invariant kept == Others(openOrders[..i], asset)
      {
        assert openOrders[..i + 1][..i] == openOrders[..i];
        if !SellOf(openOrders[i], asset) {
          kept := kept + [openOrders[i]];
        }
      }
      assert openOrders[..|openOrders|] == openOrders;
    }

    // -------------------------------------------------------------- merge

    ghost predicate NoOpenSell(asset: string)
      reads this
    {
      forall o | o in openOrders :: !Cancellable(o, asset)
    }

    /** The history since `was` and the poll times are those of the step. */
    ghost predicate Did(was: seq<Act>, step: Step)
      reads this
    {
      log == was + step.acts && pollAfter == step.polls
    }

    /** Clears the sells of both sides, then asks the relayer to merge. */
    method SubmitMerge(e: nat, ans: EventAnswers) returns (o: Outcome)
      requires Valid() && e < |table.rows| && Enabled(State(), MergeCall(e, ans.accepted, ans.merge))
      modifies this, table
      ensures Burns(o) && Fewer(old(openOrders), openOrders, old(managed), managed)
      ensures Valid() && !o.Threw? && old(log) <= log && positions == old(positions)
      ensures !Routing(old(State().focus)) || o.Ok? ==> !Routing(State().focus)
      ensures OnlyRow(old(table.rows), table.rows, e) && pollAfter - {e} == old(pollAfter) - {e}
      ensures o.Ok? ==> table.rows[e] == AfterSubmit(old(table.rows)[e], ans)
      ensures o.Ok? ==> Did(old(log), SubmitStep(e, old(pollAfter), ans))
      ensures var r := old(table.rows)[e];
              && openOrders == Forgotten(Forgotten(old(openOrders), r.yes), r.no)
              && managed == AfterCancel(AfterCancel(old(managed), old(openOrders), r.yes),
                                        Forgotten(old(openOrders), r.yes), r.no)
              && NoOpenSell(r.yes) && NoOpenSell(r.no)
    {
      hide IsTrace, OneActivePerMarket, RowAfter, AfterSubmit, SubmitStep, Forgotten, AfterCancel, Fewer;
      var r := table.rows[e];
      CancelPair(r.yes, r.no);
      :- Call(MergeCall(e, ans.accepted, ans.merge));
      o := AfterMergeCall(e, ans);
      SubmitStartsWithCall(e, old(pollAfter), ans);
    }

    method AfterMergeCall(e: nat, ans: EventAnswers) returns (o: Outcome)
      requires Valid() && e < |table.rows| && table.rows[e].wallet == wallet && table.rows[e].status.Ready?
      requires State().focus == MergeAnswered(e, ans.merge)
      modifies this`log, this`trace, this`fuse, this`pollAfter, table
      ensures Burns(o)
      ensures Valid() && !o.Threw? && old(log) <= log && State().focus == old(State().focus)
      ensures OnlyRow(old(table.rows), table.rows, e) && pollAfter - {e} == old(pollAfter) - {e}
      ensures o.Ok? ==> table.rows[e] == AfterSubmit(old(table.rows)[e], ans)
      ensures var step := SubmitStep(e, old(pollAfter), ans);
              o.Ok? ==> Did(old(log), step.(acts := step.acts[1..]))
    {
      hide IsTrace, OneActivePerMarket;
      match ans.merge
      case Raised =>
        :- MarkComp(e, "submit-failed", ans.now);
        pollAfter := pollAfter[e := ans.now + POLL_FAIL_BACKOFF];
        return Ok;
      case Tx(id) =>
        if id == "" {
          o := FailEvent(e, ans.now, NoTxId);
          return;
        }
        :- Write(e, NO_CHANGE.(status := Some(Submitted), txId := Some(id), comp := Some("merged-submitted")),
                 ans.now, StoreTx(e, id, ans.now));
        pollAfter := pollAfter[e := ans.now + POLL_INTERVAL];
        return Ok;
    }

    // -------------------------------------------------------------- reconciliation

    /** Whether the reported balances hold the pair, read entry by entry. */
    method PairBalanceOk(r: Row) returns (ok: bool)
      ensures ok == PairHeld(positions, r)
    {
      if r.yes == "" || r.no == "" {
        return false;
      }
      var yesSize, noSize := 0, 0;
      for i := 0 to |positions|
        invariant yesSize == SizeOf(positions[..i], r.cid, r.yes)
        invariant noSize == if r.no == r.yes then 0 else SizeOf(positions[..i], r.cid, r.no)
      {
        var p := positions[i];
        assert positions[..i + 1][..i] == positions[..i];
        if p.cid == r.cid {
          if p.asset == r.yes {
            yesSize := p.size;
          } else if p.asset == r.no {
            noSize := p.size;
          }
        }
      }
      assert positions[..|positions|] == positions;
      return MergeAccounting.PairAmount(yesSize, noSize) >= r.amount;
    }

    /** Whatever handling one event may touch. */
    twostate predicate OnlyEvent(e: nat, o: Outcome)
      reads this, table
    {
      && !o.Threw? && old(log) <= log && positions == old(positions)
      && trace != [] && !Routing(State().focus)
      && OnlyRow(old(table.rows), table.rows, e)
      && pollAfter - {e} == old(pollAfter) - {e}
      && Burns(o) && Fewer(old(openOrders), openOrders, old(managed), managed)
    }

    method ReconcileEvent(e: nat, ev: Row, ans: EventAnswers) returns (o: Outcome)
      requires Valid() && e < |table.rows| && table.rows[e] == ev && ev.wallet == wallet
      requires !Routing(State().focus)
      modifies this, table
      ensures Valid() && OnlyEvent(e, o)
      ensures o.Ok? ==> table.rows[e] == Reconciled(ev, PairHeld(positions, ev), old(Due(e, ans.now)), ans)
      ensures o.Ok? ==>
                Did(old(log), EventStep(e, ev, PairHeld(positions, ev), old(Due(e, ans.now)), old(pollAfter), ans))
    {
      hide IsTrace, OneActivePerMarket, RowAfter, AfterSubmit, Failing, Confirming, SubmitStep, OrderStep, PollStep;
      match ev.status
      case Ready =>
        if ev.route.FokMerge? && ev.orderId != "" {
          o := ReconcileFokOrder(e, ev, ans);
          return;
        }
        var pair := PairBalanceOk(ev);
        if pair {
          o := SubmitMerge(e, ans);
        } else {
          o := FailEvent(e, ans.now, if ev.route.Pair? then PairGone else NeverStored);
        }
      case Submitted =>
        o := PollMerge(e, ev, ans);
      case Confirmed =>
        o := Ok;
      case Failed =>
        o := Ok;
    }

    method ReconcileFokOrder(e: nat, ev: Row, ans: EventAnswers) returns (o: Outcome)
      requires Valid() && e < |table.rows| && table.rows[e] == ev && ev.wallet == wallet
      requires !Routing(State().focus)
      requires ev.status.Ready? && ev.route.FokMerge? && ev.orderId != ""
      modifies this, table
      ensures Valid() && OnlyEvent(e, o)
      ensures o.Ok? ==> table.rows[e] == Reconciled(ev, PairHeld(positions, ev), old(Due(e, ans.now)), ans)
      ensures o.Ok? ==>
                var pair := PairHeld(positions, ev);
                Did(old(log), if old(Due(e, ans.now)) then OrderStep(e, ev, pair, old(pollAfter), ans)
                              else Step([], old(pollAfter)))
    {
      hide IsTrace, OneActivePerMarket, RowAfter, AfterSubmit, Failing, Confirming, WithComp, FokStep;
      if e in pollAfter && ans.now < pollAfter[e] {
        return Ok;
      }
      pollAfter := pollAfter[e := ans.now + POLL_INTERVAL];
      if ans.order.None? {
        return Ok;
      }
      o := AskOrder(e, ev, ans.order.value, ans);
    }

    /** Reads the order once and acts on it. */
    method AskOrder(e: nat, ev: Row, v: OrderView, ans: EventAnswers) returns (o: Outcome)
      requires Valid() && e < |table.rows| && table.rows[e] == ev && ev.wallet == wallet
      requires !Routing(State().focus) && ans.order == Some(v)
      requires ev.status.Ready? && ev.route.FokMerge? && ev.orderId != ""
      modifies this, table
      ensures Valid() && OnlyEvent(e, o)
      ensures o.Ok? ==> table.rows[e] == Reconciled(ev, PairHeld(positions, ev), true, ans)
      ensures var rest := FokStep(e, ev, v, PairHeld(positions, ev), old(pollAfter), ans);
              o.Ok? ==> Did(old(log), After([OrderQuery(e, v)], rest))
    {
      hide IsTrace, OneActivePerMarket, RowAfter, Reconciled, FokStep;
      o := Call(OrderQuery(e, v));
      if o.Ok? {
        o := DecideFok(e, ev, v, ans);
      }
    }

    /** Notes the fill, then asks for the merge. */
    method MarkAndSubmit(e: nat, ans: EventAnswers) returns (o: Outcome)
      requires Valid() && e < |table.rows| && !Routing(State().focus)
      requires Enabled(State(), MergeCall(e, ans.accepted, ans.merge))
      modifies this, table
      ensures Valid() && OnlyEvent(e, o)
      ensures o.Ok? ==> table.rows[e] == AfterSubmit(WithComp(old(table.rows)[e], "matched", ans.now), ans)
      ensures o.Ok? ==> Did(old(log), After([SetComp(e, "matched", ans.now)], SubmitStep(e, old(pollAfter), ans)))
    {
      hide IsTrace, OneActivePerMarket, AfterSubmit, SubmitStep;
      o := MarkComp(e, "matched", ans.now);
      if o.Ok? {
        o := SubmitMerge(e, ans);
      }
    }

    /** Acts on the order state that was just read. */
    method DecideFok(e: nat, ev: Row, v: OrderView, ans: EventAnswers) returns (o: Outcome)
      requires Valid() && e < |table.rows| && table.rows[e] == ev && ev.wallet == wallet
      requires State().focus == OrderRead(e, v) && ans.order == Some(v)
      requires ev.status.Ready? && ev.route.FokMerge? && ev.orderId != ""
      modifies this, table
      ensures Valid() && OnlyEvent(e, o)
      ensures o.Ok? ==> table.rows[e] == Reconciled(ev, PairHeld(positions, ev), true, ans)
      ensures o.Ok? ==> Did(old(log), FokStep(e, ev, v, PairHeld(positions, ev), old(pollAfter), ans))
    {
      hide IsTrace, OneActivePerMarket, RowAfter, AfterSubmit, Failing, Confirming, WithComp, SubmitStep;
      var filled := v.matched >= ev.amount;
      var pair := PairBalanceOk(ev);
      if (filled || v.saysFilled) && (filled || pair) {
        o := MarkAndSubmit(e, ans);
        return;
      }
      if v.saysDead {
        if pair {
          o := SubmitMerge(e, ans);
        } else {
          o := FailEvent(e, ans.now, OrderDead);
        }
        return;
      }
      o := MarkComp(e, "delayed", ans.now);
    }

    method PollMerge(e: nat, ev: Row, ans: EventAnswers) returns (o: Outcome)
      requires Valid() && e < |table.rows| && table.rows[e] == ev && ev.wallet == wallet
      requires !Routing(State().focus) && ev.status.Submitted?
      modifies this, table
      ensures Valid() && OnlyEvent(e, o)
      ensures o.Ok? ==> table.rows[e] == Reconciled(ev, PairHeld(positions, ev), old(Due(e, ans.now)), ans)
      ensures o.Ok? ==>
                Did(old(log), if old(Due(e, ans.now)) then PollStep(e, ev, PairHeld(positions, ev), old(pollAfter), ans)
                              else Step([], old(pollAfter)))
    {
      hide IsTrace, OneActivePerMarket, RowAfter, AfterSubmit, Failing, Confirming, WithComp, StateStep;
      if e in pollAfter && ans.now < pollAfter[e] {
        return Ok;
      }
      if ev.txId == "" {
        pollAfter := pollAfter[e := ans.now + POLL_INTERVAL];
        return Ok;
      }
      if ans.relayer.None? {
        pollAfter := pollAfter[e := ans.now + POLL_FAIL_BACKOFF];
        return Ok;
      }
      var late := ans.now - ev.updatedAt > ans.timeout;
      :- Call(RelayerQuery(e, ans.relayer.value, late, ans.now, ans.timeout));
      o := DecidePoll(e, ev, ans.relayer.value, late, ans);
    }

    /** Acts on the relayer state that was just read. */
    method DecidePoll(e: nat, ev: Row, state: RelayerState, late: bool, ans: EventAnswers) returns (o: Outcome)
      requires Valid() && e < |table.rows| && table.rows[e] == ev && ev.wallet == wallet
      requires State().focus == RelayerRead(e, state, late) && ans.relayer == Some(state)
      requires ev.status.Submitted? && ev.txId != "" && late == (ans.now - ev.updatedAt > ans.timeout)
      modifies this, table
      ensures Valid() && OnlyEvent(e, o)
      ensures o.Ok? ==> table.rows[e] == Reconciled(ev, PairHeld(positions, ev), true, ans)
      ensures o.Ok? ==> Did(old(log), StateStep(e, state, late, PairHeld(positions, ev), old(pollAfter), ans))
    {
      hide IsTrace, OneActivePerMarket, RowAfter, AfterSubmit, Failing, Confirming, WithComp;
      var pair := PairBalanceOk(ev);
      if state.Done? {
        o := FinalizeConfirmed(e, ans.now);
        return;
      }
      if state.Broken? {
        if pair {
          o := FailEvent(e, ans.now, RelayerBroke);
        } else {
          o := FinalizeConfirmed(e, ans.now);
        }
        return;
      }
      if late {
        if !pair {
          o := FinalizeConfirmed(e, ans.now);
          return;
        }
        pollAfter := pollAfter[e := ans.now + POLL_STALL_BACKOFF];
        return Ok;
      }
      pollAfter := pollAfter[e := ans.now + POLL_INTERVAL];
      return Ok;
    }

    // -------------------------------------------------------------- one tick

    /** The wallet's active events, ready ones first, each once. */
    method ListActive() returns (ids: seq<nat>)
      ensures forall j, k | 0 <= j < k < |ids| :: ids[j] != ids[k]
      ensures forall k | 0 <= k < |ids| ::
                ids[k] < |table.rows| && Active(table.rows[ids[k]]) && table.rows[ids[k]].wallet == wallet
      ensures |ids| < LIST_LIMIT ==>
                forall e | 0 <= e < |table.rows| && Active(table.rows[e]) && table.rows[e].wallet == wallet :: e in ids
    {
      var ready := table.ListMergeEvents(wallet, Ready, LIST_LIMIT);
      var submitted := table.ListMergeEvents(wallet, Submitted, LIST_LIMIT);
      ids := ready + submitted;
    }

    /** Recovers or advances the wallet's active events, ready ones first. Each is
        handled from the row it was listed with. */
    method ReconcileEvents(answers: nat -> EventAnswers) returns (o: Outcome, ids: seq<nat>)
      requires Valid() && !Routing(State().focus)
      modifies this, table
      ensures Burns(o) && Fewer(old(openOrders), openOrders, old(managed), managed)
      ensures ids == [] ==> openOrders == old(openOrders) && managed == old(managed)
      ensures Valid() && !o.Threw? && old(log) <= log && positions == old(positions) && !Routing(State().focus)
      ensures |table.rows| == |old(table.rows)|
      ensures forall k | 0 <= k < |ids| ::
                ids[k] < |table.rows| && Active(old(table.rows)[ids[k]]) && old(table.rows)[ids[k]].wallet == wallet
      ensures |ids| < LIST_LIMIT ==>
                forall e | 0 <= e < |table.rows| && Active(old(table.rows)[e]) && old(table.rows)[e].wallet == wallet ::
                  e in ids
      ensures o.Ok? ==> forall e | 0 <= e < |table.rows| ::
                table.rows[e] == RowHandled(old(table.rows)[e], e, e in ids, positions, old(pollAfter), answers)
    {
      ids := ListActive();
      o := ReconcileAll(ids, answers);
    }

    method ReconcileAll(ids: seq<nat>, answers: nat -> EventAnswers) returns (o: Outcome)
      requires Valid() && !Routing(State().focus)
      requires forall j, k | 0 <= j < k < |ids| :: ids[j] != ids[k]
      requires forall k | 0 <= k < |ids| :: ids[k] < |table.rows| && table.rows[ids[k]].wallet == wallet
      modifies this, table
      ensures Burns(o) && Fewer(old(openOrders), openOrders, old(managed), managed)
      ensures ids == [] ==> openOrders == old(openOrders) && managed == old(managed)
      ensures Valid() && !o.Threw? && old(log) <= log && positions == old(positions) && !Routing(State().focus)
      ensures |table.rows| == |old(table.rows)|
      ensures o.Ok? ==> Progress(ids, old(table.rows), old(pollAfter), answers)
    {
      hide IsTrace, OneActivePerMarket, RowHandled;
      var rows := table.rows;
      ghost var polls := pollAfter;
      forall e | 0 <= e < |rows| ensures rows[e] == RowHandled(rows[e], e, false, positions, polls, answers) {
        NotListed(rows[e], e, positions, polls, answers);
      }
      var i := 0;
      while i < |ids|
        invariant 0 <= i <= |ids|
        invariant Valid() && old(log) <= log && positions == old(positions) && !Routing(State().focus)
        invariant fuse + |log| == old(fuse) + |old(log)| && Fewer(old(openOrders), openOrders, old(managed), managed)
        invariant i == 0 ==> openOrders == old(openOrders) && managed == old(managed)
        invariant Progress(ids[..i], rows, polls, answers)
      {
        o := ReconcileListed(ids[..i], ids[i], rows, polls, answers);
        assert ids[..i + 1] == ids[..i] + [ids[i]];
        if o.Crashed? {
          return;
        }
        i := i + 1;
      }
      assert ids[..|ids|] == ids;
      o := Ok;
    }

    /** The events in `done` have been handled, all others are as they were. */
    ghost predicate Progress(done: seq<nat>, rows: seq<Row>, polls: map<nat, int>, answers: nat -> EventAnswers)
      reads this, table
    {
      && |table.rows| == |rows|
      && (forall e: nat | e !in done :: SamePoll(pollAfter, polls, e))
      && (forall e | 0 <= e < |rows| ::
            table.rows[e] == RowHandled(rows[e], e, e in done, positions, polls, answers))
    }

    method ReconcileListed(ghost done: seq<nat>, e: nat, rows: seq<Row>, ghost polls: map<nat, int>,
                           answers: nat -> EventAnswers) returns (o: Outcome)
      requires Valid() && !Routing(State().focus) && Progress(done, rows, polls, answers)
      requires e < |rows| && e !in done && rows[e].wallet == wallet
      modifies this, table
      ensures Burns(o) && Fewer(old(openOrders), openOrders, old(managed), managed)
      ensures Valid() && !o.Threw? && old(log) <= log && positions == old(positions) && !Routing(State().focus)
      ensures |table.rows| == |rows|
      ensures o.Ok? ==> Progress(done + [e], rows, polls, answers)
    {
      hide IsTrace, OneActivePerMarket;
      assert SamePoll(pollAfter, polls, e);
      ghost var was := pollAfter;
      o := ReconcileEvent(e, rows[e], answers(e));
      forall x: nat | x !in done + [e] ensures SamePoll(pollAfter, polls, x) {
        assert x !in done && SamePoll(was, polls, x);
        assert x in pollAfter - {e} <==> x in was - {e};
      }
    }

    static predicate SamePoll(a: map<nat, int>, b: map<nat, int>, e: nat) {
      (e in a <==> e in b) && (e in a ==> a[e] == b[e])
    }

    predicate OrderOpen(id: string)
      reads this
    {
      IsOpen(openOrders, id)
    }

    /** Drops every managed sell whose order is no longer open. */
    method ReconcileManagedSells()
      modifies this`managed
      ensures forall a :: a in managed <==> StillRests(old(managed), openOrders, a)
      ensures forall a | a in managed :: a in old(managed) && managed[a] == old(managed)[a]
    {
      var keys := managed.Keys;
      while keys != {}
        invariant keys <= managed.Keys <= old(managed).Keys
        invariant forall a | a in managed :: managed[a] == old(managed)[a]
        invariant forall a | a in old(managed) && a !in keys :: a in managed <==> OrderOpen(old(managed)[a])
        decreases keys
      {
        var a :| a in keys;
        keys := keys - {a};
        if !OrderOpen(managed[a]) {
          managed := managed - {a};
        }
      }
    }

    /** Takes over the reported balances and orders, then recovers the events. */
    method ReconcilePending(t: TickInputs) returns (o: Outcome, ids: seq<nat>)
      requires Valid()
      modifies this, table
      ensures Valid() && !o.Threw? && old(log) + [Tick(t.positions)] <= log && positions == t.positions
      ensures fuse + |log| == old(fuse) + |old(log)| + 1 && (o.Crashed? ==> fuse == 0)
      ensures forall x | x in openOrders :: x in t.orders
      ensures forall a | a in managed :: StillRests(old(managed), t.orders, a) && managed[a] == old(managed)[a]
      ensures ids == [] ==> openOrders == t.orders && forall a | StillRests(old(managed), t.orders, a) :: a in managed
      ensures forall e | e in ids ::
                e < |old(table.rows)| && Active(old(table.rows)[e]) && old(table.rows)[e].wallet == wallet
      ensures |table.rows| == |old(table.rows)| && !Routing(State().focus)
      ensures |ids| < LIST_LIMIT ==>
                forall e | 0 <= e < |table.rows| && Active(old(table.rows)[e]) && old(table.rows)[e].wallet == wallet ::
                  e in ids
      ensures o.Ok? ==> forall e | 0 <= e < |table.rows| ::
                table.rows[e] == RowHandled(old(table.rows)[e], e, e in ids, t.positions, old(pollAfter), t.events)
    {
      TraceExtend(trace, log, Tick(t.positions));
      trace, log := trace + [Next(State(), Tick(t.positions))], log + [Tick(t.positions)];
      positions, openOrders := t.positions, t.orders;
      ReconcileManagedSells();
      o, ids := ReconcileEvents(t.events);
    }

    // -------------------------------------------------------------- routing a position

    /** INSERT of an event the index admits. */
    method ReserveEvent(row: Row) returns (o: Outcome, e: nat)
      requires Valid() && NewRow(row, wallet) && Backed(positions, row) && !HasActive(table.rows, wallet, row.cid)
      modifies this`log, this`trace, this`fuse, table
      ensures Burns(o)
      ensures Valid() && !o.Threw?
      ensures o.Ok? ==> log == old(log) + [Reserve(row)] && State() == Next(old(State()), Reserve(row))
      ensures o.Ok? ==> e == |old(table.rows)| && table.rows == old(table.rows) + [row]
      ensures o.Crashed? ==> log == old(log) && table.rows == old(table.rows)
    {
      hide IsTrace, OneActivePerMarket, HasActive, Next, Enabled;
      NextReserve(State(), row);
      e := 0;
      if fuse == 0 {
        return Crashed, 0;
      }
      fuse := fuse - 1;
      TraceExtend(trace, log, Reserve(row));
      var id := table.CreateMergeEvent(row);
      trace, log := trace + [Next(State(), Reserve(row))], log + [Reserve(row)];
      return Ok, id.value;
    }

    /** Routing only ever adds to the history and to the table. */
    twostate predicate Routed(o: Outcome)
      reads this, table
    {
      old(log) <= log && positions == old(positions) && old(table.rows) <= table.rows && Burns(o)
    }

    /** A position of this tick that has a size and a market. */
    predicate Routable(pos: Position)
      reads this
    {
      pos in positions && pos.size > 0 && pos.cid != ""
    }

    static predicate Appended(was: seq<Row>, rows: seq<Row>, r: Row) { rows == was + [r] }

    /** The row reserved for merging `q` pairs, each side at its own FIFO cost. */
    function PairRowFor(pos: Position, other: string, q: int, inp: RouteInputs): Row {
      PairRowOf(wallet, pos, other, q, MergeAccounting.BookedCost(inp.lots, q),
                MergeAccounting.BookedCost(inp.otherLots, q))
    }

    ghost function Now(orders: seq<OpenOrder>): Snap
      reads this, table
    {
      Snap(table.rows, log, orders, managed, pollAfter)
    }

    /** The event is reserved and its merge asked for, in that order. */
    static ghost predicate Merged(a: Snap, b: Snap, row: Row, ans: EventAnswers) {
      var step := SubmitStep(|a.rows|, a.polls, ans);
      && Appended(a.rows, b.rows, AfterSubmit(row, ans))
      && b.log == a.log + [Reserve(row)] + step.acts && b.polls == step.polls
    }

    method PairMergeRoute(pos: Position, other: string, q: int, inp: RouteInputs) returns (o: Outcome)
      requires Valid() && !HasActive(table.rows, wallet, pos.cid) && Routable(pos)
      requires var pair := PairFor(positions, pos.cid, pos.asset);
               pair.Some? && other == pair.value.0 && q == MergeAccounting.PairAmount(pos.size, pair.value.1)
      modifies this, table
      ensures Valid() && Routed(o) && !o.Threw?
      ensures o.Ok? ==> var yesCost, noCost := MergeAccounting.BookedCost(inp.lots, q),
                                               MergeAccounting.BookedCost(inp.otherLots, q);
                        Merged(old(Now(openOrders)), Now(openOrders),
                               PairRowOf(wallet, pos, other, q, yesCost, noCost), inp.merge)
    {
      hide IsTrace, OneActivePerMarket;
      var row := PairRowFor(pos, other, q, inp);
      var e :- ReserveEvent(row);
      o := SubmitMerge(e, inp.merge);
      assert table.rows[..e] == old(table.rows);
    }

    /** The reservation precedes the call, and nothing comes between. */
    ghost predicate ReservedAndSent(was: seq<Act>, now: seq<Act>, e: nat, row: Row, worst: int, floor: int,
                                    reply: FokReply) {
      was + [Reserve(row), FokCall(e, worst, floor, reply)] <= now
    }

    /** Reserves the event, then sends one FOK for exactly the position size. */
    method StartFokMerge(pos: Position, comp: string, worst: int, floor: int, inp: RouteInputs, now: int)
      returns (o: Outcome)
      requires Valid() && !HasActive(table.rows, wallet, pos.cid) && Routable(pos) && comp != ""
      requires (DOLLAR - worst) * pos.size >= floor
      modifies this, table
      ensures Valid() && Routed(o)
      ensures !o.Crashed? ==> Appended(old(table.rows), table.rows,
                AfterFok(FokRowOf(wallet, pos, comp, MergeAccounting.BookedCost(inp.lots, pos.size)), inp.fok, now))
      ensures !o.Crashed? ==> (o.Threw? <==> inp.fok.Lost?)
      ensures o.Threw? ==> HasActive(table.rows, wallet, pos.cid)
      ensures !o.Crashed? ==> ReservedAndSent(old(log), log, |old(table.rows)|,
                FokRowOf(wallet, pos, comp, MergeAccounting.BookedCost(inp.lots, pos.size)), worst, floor, inp.fok)
    {
      hide IsTrace, OneActivePerMarket;
      var row := FokRowOf(wallet, pos, comp, MergeAccounting.BookedCost(inp.lots, pos.size));
      var e :- ReserveEvent(row);
      :- Call(FokCall(e, worst, floor, inp.fok));
      if inp.fok.Lost? {
        assert table.rows[e] == row;
        return Threw;
      }
      o := SettleFok(e, row, inp.fok, now);
      assert table.rows[..e] == old(table.rows);
    }

    /** Stores what the exchange answered about the FOK that was just sent. */
    method SettleFok(e: nat, row: Row, reply: FokReply, now: int) returns (o: Outcome)
      requires Valid() && e < |table.rows| && table.rows[e] == row && NewRow(row, wallet)
      requires State().focus == FokAnswered(e, reply) && !reply.Lost?
      modifies this, table
      ensures Burns(o)
      ensures Valid() && !o.Threw? && old(log) <= log && positions == old(positions)
      ensures OnlyRow(old(table.rows), table.rows, e)
      ensures o.Ok? ==> table.rows[e] == AfterFok(row, reply, now)
    {
      hide IsTrace, OneActivePerMarket;
      if reply.Rejected? {
        o := FailEvent(e, now, FokRejected);
        return;
      }
      if reply.orderId != "" {
        :- Write(e, NO_CHANGE.(orderId := Some(reply.orderId)), now, StoreOrder(e, reply.orderId, now));
      }
      o := SettleStatus(e, reply, now);
    }

    method SettleStatus(e: nat, reply: FokReply, now: int) returns (o: Outcome)
      requires Valid() && e < |table.rows| && table.rows[e].wallet == wallet && table.rows[e].status.Ready?
      requires State().focus == FokAnswered(e, reply) && reply.Answer?
      modifies this, table
      ensures Burns(o)
      ensures Valid() && !o.Threw? && old(log) <= log && positions == old(positions)
      ensures OnlyRow(old(table.rows), table.rows, e)
      ensures o.Ok? ==> table.rows[e] == WithStatus(old(table.rows)[e], reply.status, now)
    {
      hide IsTrace, OneActivePerMarket;
      match reply.status
      case MatchedNow =>
        o := MarkComp(e, "matched", now);
      case DelayedFill =>
        o := MarkComp(e, "delayed", now);
      case OddStatus =>
        o := FailEvent(e, now, FokOdd);
    }

    /** Sends one sell of the whole position at a price; the market has no active event. */
    method SendSell(pos: Position, kind: SellKind, price: int) returns (o: Outcome)
      requires Valid() && !HasActive(table.rows, wallet, pos.cid) && Routable(pos)
      modifies this
      ensures Burns(o)
      ensures Valid() && !o.Threw? && positions == old(positions)
      ensures log == if o.Ok? then old(log) + [SellPlaced(pos, kind, price)] else old(log)
      ensures openOrders == Forgotten(old(openOrders), pos.asset)
      ensures managed == AfterCancel(old(managed), old(openOrders), pos.asset)
    {
      hide IsTrace, OneActivePerMarket;
      CancelSells(pos.asset);
      o := Call(SellPlaced(pos, kind, price));
    }

    method ProtectedFak(pos: Position, worst: int) returns (o: Outcome)
      requires Valid() && !HasActive(table.rows, wallet, pos.cid) && Routable(pos)
      modifies this
      ensures Burns(o)
      ensures Valid() && !o.Threw? && positions == old(positions)
      ensures log == if o.Ok? then old(log) + [SellPlaced(pos, MergeProtocol.ProtectedFak, worst)] else old(log)
      ensures openOrders == Forgotten(old(openOrders), pos.asset)
      ensures managed == AfterCancel(old(managed), old(openOrders), pos.asset)
    {
      hide IsTrace, OneActivePerMarket;
      o := SendSell(pos, MergeProtocol.ProtectedFak, worst);
    }

    /** Reads both books and takes the better exit. */
    method RouteCompare(pos: Position, inp: RouteInputs, now: int) returns (o: Outcome)
      requires Valid() && !HasActive(table.rows, wallet, pos.cid) && Routable(pos)
      modifies this, table
      ensures Valid() && Routed(o)
      ensures !o.Crashed? ==> Compared(old(table.rows), table.rows, old(log), log,
                                       BestExit(pos, positions, inp), pos, inp, now)
      ensures !o.Crashed? ==> (o.Threw? <==> BestExit(pos, positions, inp).BuyComplement? && inp.fok.Lost?)
      ensures o.Threw? ==> HasActive(table.rows, wallet, pos.cid)
      ensures BestExit(pos, old(positions), inp).NoExit? ==> openOrders == old(openOrders) && managed == old(managed)
      ensures BestExit(pos, old(positions), inp).SellDown? ==>
                openOrders == Forgotten(old(openOrders), pos.asset)
                && managed == AfterCancel(old(managed), old(openOrders), pos.asset)
    {
      hide IsTrace, OneActivePerMarket;
      var exit := QuoteExits(pos, inp);
      match exit
      case NoExit =>
        o := Ok;
      case BuyComplement(token, worst, floor) =>
        o := StartFokMerge(pos, token, worst, floor, inp, now);
      case SellDown(worst) =>
        o := ProtectedFak(pos, worst);
    }

    /** Reads the books and quotes both routes; a complement is bought only where
        the quote says it pays the floor. */
    method QuoteExits(pos: Position, inp: RouteInputs) returns (exit: Exit)
      ensures exit == BestExit(pos, positions, inp)
      ensures exit.BuyComplement? ==> (DOLLAR - exit.worst) * pos.size >= exit.floor && exit.token != ""
    {
      if inp.bids.None? {
        return NoExit;
      }
      var direct := ProtectedFakPlan(StableSort(inp.bids.value, LevelPriceDown), pos.size);
      if direct.None? {
        return NoExit;
      }
      var comp := Complement(positions, pos, inp);
      if inp.mergeEnabled && inp.relayerOk && comp.Some? && comp.value != "" && inp.asks.Some? {
        var asks, floor := StableSort(inp.asks.value, LevelPrice), direct.value.recovery + inp.advantage;
        var quote := QuoteMergeRoute(asks, pos.size, direct.value.recovery, inp.advantage, inp.minShares);
        if quote.Feasible? {
          SweepAdmitted(asks, pos.size, pos.size, floor);
          return BuyComplement(comp.value, quote.worst, floor);
        }
      }
      return SellDown(direct.value.worst);
    }

    /** Table and history after a comparison that ended in `exit`. */
    ghost predicate Compared(was: seq<Row>, rows: seq<Row>, wasLog: seq<Act>, newLog: seq<Act>,
                             exit: Exit, pos: Position, inp: RouteInputs, now: int)
    {
      match exit
      case NoExit => rows == was && newLog == wasLog
      case SellDown(worst) => rows == was && newLog == wasLog + [SellPlaced(pos, MergeProtocol.ProtectedFak, worst)]
      case BuyComplement(token, worst, floor) =>
        var row := FokRowOf(wallet, pos, token, MergeAccounting.BookedCost(inp.lots, pos.size));
        && rows == was + [AfterFok(row, inp.fok, now)]
        && ReservedAndSent(wasLog, newLog, |was|, row, worst, floor, inp.fok)
    }

    method MakerRoute(pos: Position, price: int, inp: RouteInputs) returns (o: Outcome)
      requires Valid() && !HasActive(table.rows, wallet, pos.cid) && Routable(pos)
      modifies this
      ensures Burns(o)
      ensures Valid() && !o.Threw? && positions == old(positions)
      ensures log == if o.Ok? then old(log) + [SellPlaced(pos, Maker, price)] else old(log)
      ensures openOrders == Forgotten(old(openOrders), pos.asset)
      ensures var cleared := AfterCancel(old(managed), old(openOrders), pos.asset);
              managed == if o.Ok? && inp.sell.SellAs? && inp.sell.id != "" then cleared[pos.asset := inp.sell.id]
                         else cleared
    {
      hide IsTrace, OneActivePerMarket;
      o := SendSell(pos, Maker, price);
      if o.Ok? && inp.sell.SellAs? && inp.sell.id != "" {
        managed := managed[pos.asset := inp.sell.id];
      }
    }

    predicate Resting(asset: string)
      reads this
    {
      RestingIn(managed, openOrders, asset)
    }

    /** Compares the exits; `due`: a maker sell still rests although its wait is over. */
    method CompareNow(pos: Position, inp: RouteInputs, now: int, due: bool) returns (o: Outcome)
      requires Valid() && !HasActive(table.rows, wallet, pos.cid) && Routable(pos)
      modifies this, table
      ensures Valid() && Routed(o)
      ensures !o.Crashed? ==> Compared(old(table.rows), table.rows, old(log), log,
                                       BestExit(pos, positions, inp), pos, inp, now)
      ensures !o.Crashed? ==> (o.Threw? <==> BestExit(pos, positions, inp).BuyComplement? && inp.fok.Lost?)
      ensures o.Threw? ==> HasActive(table.rows, wallet, pos.cid)
      ensures OrdersAfter(Compare, BestExit(pos, old(positions), inp), inp.sell, due, old(openOrders), openOrders,
                          old(managed), managed, pos.asset)
    {
      hide IsTrace, OneActivePerMarket, OrdersAfter, Forgotten, AfterCancel, BestExit, Compared;
      OrdersCompared(BestExit(pos, positions, inp), inp.sell, due, openOrders, managed, pos.asset);
      if due {
        CancelSells(pos.asset);
        managed := managed - {pos.asset};
      }
      o := RouteCompare(pos, inp, now);
    }

    /** What routing one position does: the route the reported figures select, with its
        row, its calls and the orders it leaves. */
    ghost predicate Routes(a: Snap, b: Snap, pos: Position, ps: seq<Position>, inp: RouteInputs, now: int) {
      var resting := StillRests(a.managed, a.orders, pos.asset);
      var choice := RouteChoice(pos, ps, HasActive(a.rows, wallet, pos.cid), resting, inp, now);
      && OrdersAfter(choice, BestExit(pos, ps, inp), inp.sell, resting && !AtStop(inp) && inp.exitWait > 0,
                     a.orders, b.orders, a.managed, b.managed, pos.asset)
      && match choice
         case MergePair(other, q) =>
           var yesCost, noCost := MergeAccounting.BookedCost(inp.lots, q), MergeAccounting.BookedCost(inp.otherLots, q);
           Merged(a, b, PairRowOf(wallet, pos, other, q, yesCost, noCost), inp.merge)
         case Compare => Compared(a.rows, b.rows, a.log, b.log, BestExit(pos, ps, inp), pos, inp, now)
         case MakerSell(price) => b.rows == a.rows && b.log == a.log + [SellPlaced(pos, Maker, price)]
         case _ => b.rows == a.rows && b.log == a.log
    }

    /** Routes one position. `handled` is false when the upstream exit must act. */
    method RoutePosition(pos: Position, inp: RouteInputs, now: int)
      returns (o: Outcome, handled: bool, ghost choice: Choice)
      requires Valid() && pos in positions
      modifies this, table
      ensures Valid() && Routed(o)
      ensures choice == RouteChoice(pos, old(positions), old(HasActive(table.rows, wallet, pos.cid)),
                                    old(StillRests(managed, openOrders, pos.asset)), inp, now)
      ensures handled <==> o.Ok? && !choice.Decline?
      ensures !o.Crashed? ==> (o.Threw? <==> LosesFok(choice, pos, old(positions), inp))
      ensures !o.Crashed? && !handled ==> (HasActive(table.rows, wallet, pos.cid)
                <==> o.Threw? || old(HasActive(table.rows, wallet, pos.cid)))
      ensures !o.Crashed? && old(HasActive(table.rows, wallet, pos.cid)) ==> (!handled <==> RoutedAway(pos, inp))
      ensures choice.Decline? || choice.Hold? ==> o.Ok?
      ensures !o.Crashed? ==> Routes(old(Now(openOrders)), Now(openOrders), pos, old(positions), inp, now)
    {
      hide IsTrace, OneActivePerMarket, OrdersAfter, Forgotten, AfterCancel, BestExit, AtStop, StopHit, Compared,
           Deadline, PairFor, MakerSellPrice, PairRowOf;
      OrdersKept(BestExit(pos, positions, inp), inp.sell, openOrders, managed, pos.asset);
      if inp.cost.Some? && inp.cost.value > 0.0 { StopInPrices(inp); }
      handled := false;
      var active := table.GetActiveMergeEvent(wallet, pos.cid);
      var resting := Resting(pos.asset);
      choice := RouteChoice(pos, positions, active.Some?, resting, inp, now);
      if pos.size <= 0 || pos.cid == "" {
        return Ok, false, choice;
      }
      if inp.exitWait <= 0 && !inp.mergeEnabled {
        return Ok, false, choice;
      }
      if active.Some? {
        return Ok, true, choice;
      }
      if inp.cost.None? || inp.cost.value <= 0.0 {
        return Ok, false, choice;
      }
      if inp.mergeEnabled {
        var pair := PairFor(positions, pos.cid, pos.asset);
        if pair.Some? {
          var q := MergeAccounting.PairAmount(pos.size, pair.value.1);
          if q >= inp.minShares && inp.relayerOk {
            o := PairMergeRoute(pos, pair.value.0, q, inp);
            handled := o.Ok?;
            return;
          }
        }
      }
      if StopHit(inp.cost.value, inp) || inp.exitWait <= 0 || Deadline(inp.lots, inp.exitWait, now) <= now {
        o := CompareNow(pos, inp, now, resting && !StopHit(inp.cost.value, inp) && inp.exitWait > 0);
        handled := o.Ok?;
        return;
      }
      if resting {
        return Ok, true, choice;
      }
      var price := MakerSellPrice([], inp.bestAsk);
      if price.None? {
        return Ok, true, choice;
      }
      ghost var orders, sells := openOrders, managed;
      o := MakerRoute(pos, price.value, inp);
      handled := o.Ok?;
      OrdersReplaced(price.value, BestExit(pos, positions, inp), inp.sell, orders, sells, pos.asset);
    }

    /** The routing of this position, on the orders to be used, buys a complement and
        loses the reply. */
    ghost predicate WillLoseFok(pos: Position, orders: seq<OpenOrder>, inp: RouteInputs, now: int)
      reads this, table
    {
      var active := HasActive(table.rows, wallet, pos.cid);
      var resting := StillRests(managed, orders, pos.asset);
      LosesFok(RouteChoice(pos, positions, active, resting, inp, now), pos, positions, inp)
    }

    /** The outer guard of routing. It goes back to the tick's open orders, unless they
        are empty; an exception leaves the position to the monitor. The monitor then
        acts on a market whose event is active exactly when the reply to a FOK was
        lost, or the position is routed away although an earlier event is active. */
    method RouteQuietly(pos: Position, orders: seq<OpenOrder>, inp: RouteInputs, now: int)
      returns (o: Outcome, handled: bool)
      requires Valid() && pos in positions
      modifies this, table
      ensures Burns(o)
      ensures Valid() && old(log) <= log && positions == old(positions)
      ensures o.Threw? ==> !handled
      ensures !o.Crashed? ==>
                (o.Threw? <==> old(WillLoseFok(pos, if orders != [] then orders else openOrders, inp, now)))
      ensures !o.Crashed? ==> (!handled && HasActive(table.rows, wallet, pos.cid)
                <==> old(WillLoseFok(pos, if orders != [] then orders else openOrders, inp, now))
                     || (old(HasActive(table.rows, wallet, pos.cid)) && RoutedAway(pos, inp)))
      ensures !o.Crashed? ==>
                Routes(old(Now(if orders != [] then orders else openOrders)), Now(openOrders), pos, positions, inp, now)
    {
      hide IsTrace, OneActivePerMarket, Routes;
      if orders != [] {
        openOrders := orders;
      }
      ghost var choice;
      o, handled, choice := RoutePosition(pos, inp, now);
    }

    // -------------------------------------------------------------- whole runs

    /** A new process: only the table and the history survive. */
    method Restart()
      requires Valid()
      modifies this
      ensures Valid() && log == old(log) + [Crash]
      ensures managed == map[] && pollAfter == map[] && openOrders == [] && positions == []
    {
      TraceExtend(trace, log, Crash);
      trace, log := trace + [Next(State(), Crash)], log + [Crash];
      managed, pollAfter, openOrders, positions := map[], map[], [], [];
    }

    /** Each position that is not skipped is routed in turn, on the orders of the tick if
        there are any. */
    ghost predicate RoutesAll(snaps: seq<Snap>, n: nat, t: TickInputs)
      requires n <= |t.positions|
    {
      && |snaps| == n + 1
      && forall i | 0 <= i < n ::
           if t.skip(i) then snaps[i + 1] == snaps[i]
           else Routes(OnOrders(snaps[i], t.orders), snaps[i + 1], t.positions[i], t.positions, t.routes(i), t.now)
    }

    static ghost function OnOrders(s: Snap, orders: seq<OpenOrder>): Snap {
      if orders != [] then s.(orders := orders) else s
    }

    /** One tick: reconcile, then route each position that is not skipped. An
        exception on one position does not stop the next. `snaps` are the states after
        reconciling and after each position. */
    method RunTick(t: TickInputs) returns (o: Outcome, ghost snaps: seq<Snap>, ghost ids: seq<nat>)
      requires Valid()
      modifies this, table
      ensures Valid() && !o.Threw? && old(log) + [Tick(t.positions)] <= log
      ensures |log| <= |old(log)| + 1 + t.fuse && (o.Crashed? ==> |log| == |old(log)| + 1 + t.fuse)
      ensures var was := old(table.rows); forall e | e in ids :: e < |was| && Active(was[e]) && was[e].wallet == wallet
      ensures |ids| < LIST_LIMIT ==>
                var was := old(table.rows);
                forall e | 0 <= e < |was| && Active(was[e]) && was[e].wallet == wallet :: e in ids
      ensures o.Ok? ==>
                && RoutesAll(snaps, |t.positions|, t) && snaps[|t.positions|] == Now(openOrders)
                && var was, rows := old(table.rows), snaps[0].rows;
                   |rows| == |was|
                   && forall e | 0 <= e < |rows| ::
                        rows[e] == RowHandled(was[e], e, e in ids, t.positions, old(pollAfter), t.events)
    {
      hide IsTrace, OneActivePerMarket, Routes, RowHandled;
      fuse := t.fuse;
      snaps := [];
      o, ids := ReconcilePending(t);
      if o.Crashed? {
        return;
      }
      snaps := [Now(openOrders)];
      ghost var first := snaps[0];
      var i := 0;
      while i < |t.positions|
        invariant i <= |t.positions| && RoutesAll(snaps, i, t) && snaps[i] == Now(openOrders) && snaps[0] == first
        invariant Valid() && old(log) + [Tick(t.positions)] <= log && positions == t.positions
        invariant fuse + |log| == t.fuse + |old(log)| + 1
      {
        if !t.skip(i) {
          var handled;
          o, handled := RouteQuietly(t.positions[i], t.orders, t.routes(i), t.now);
          if o.Crashed? {
            return;
          }
        }
        snaps := snaps + [Now(openOrders)];
        i := i + 1;
      }
      o := Ok;
    }

    /** The history from `from` to `to` falls into the first `n` ticks, in their order: each
        begins with its balances and has at most the effects of its fuse; if it has all of
        them the process may have died, and a restart follows. */
    static ghost predicate Begun(ts: seq<TickInputs>, n: nat, spans: seq<Span>, log: seq<Act>, from: nat, to: nat)
      requires n <= |ts|
    {
      if n == 0 then spans == [] && from == to
      else
        && |spans| == n
        && var s := spans[n - 1];
           && s.begin < s.end <= s.next == to <= |log| && TickSpan(ts[n - 1], s, log)
           && Begun(ts, n - 1, spans[..n - 1], log, from, s.begin)
    }

    static ghost predicate TickSpan(t: TickInputs, s: Span, log: seq<Act>)
      requires s.begin < s.end <= s.next <= |log|
    {
      && log[s.begin] == Tick(t.positions) && s.end <= s.begin + 1 + t.fuse
      && (s.next == s.end || (s.end == s.begin + 1 + t.fuse && s.next == s.end + 1 && log[s.end] == Crash))
    }

    /** Any number of ticks with any inputs, dying and restarting only where the fuse
        runs out: one active event per market throughout, rows only move forward, and
        the whole history is one legal run of the protocol. */
    method RunAll(ts: seq<TickInputs>) returns (ghost spans: seq<Span>)
      requires Valid()
      modifies this, table
      ensures Valid() && old(log) <= log && Begun(ts, |ts|, spans, log, |old(log)|, |log|)
      ensures OneActivePerMarket(table.rows) && TableEvolves(old(table.rows), table.rows)
      ensures Legal(start, log) && Run(start, log) == State()
    {
      ghost var wasTrace, wasLog := trace, log;
      spans := RunTicks(ts);
      TraceIsRun(trace, log);
      TraceEvolves(wasTrace, wasLog, trace, log);
    }

    method RunTicks(ts: seq<TickInputs>) returns (ghost spans: seq<Span>)
      requires Valid()
      modifies this, table
      ensures Valid() && old(log) <= log && Begun(ts, |ts|, spans, log, |old(log)|, |log|)
    {
      spans := [];
      var i := 0;
      while i < |ts|
        invariant i <= |ts| && Valid() && old(log) <= log && Begun(ts, i, spans, log, |old(log)|, |log|)
      {
        hide IsTrace, OneActivePerMarket, RoutesAll, Begun;
        ghost var was := log;
        var o, _, _ := RunTick(ts[i]);
        ghost var end := |log|;
        if o.Crashed? {
          Restart();
        }
        BegunMore(ts, i, spans, was, log, |old(log)|, |was|);
        spans := spans + [Span(|was|, end, |log|)];
        BegunNext(ts, i + 1, spans, log, |old(log)|);
        i := i + 1;
      }
    }

    static lemma {:induction false} BegunNext(ts: seq<TickInputs>, n: nat, spans: seq<Span>, log: seq<Act>, from: nat)
      requires 0 < n <= |ts| && |spans| == n
      requires var s := spans[n - 1]; s.begin < s.end <= s.next == |log| && TickSpan(ts[n - 1], s, log)
      requires Begun(ts, n - 1, spans[..n - 1], log, from, spans[n - 1].begin)
      ensures Begun(ts, n, spans, log, from, |log|)
    {
    }

    static lemma {:induction false} BegunMore(ts: seq<TickInputs>, n: nat, spans: seq<Span>, was: seq<Act>,
                                              log: seq<Act>, from: nat, to: nat)
      requires n <= |ts| && Begun(ts, n, spans, was, from, to) && was <= log
      ensures Begun(ts, n, spans, log, from, to)
    {
      if n > 0 { BegunMore(ts, n - 1, spans[..n - 1], was, log, from, spans[n - 1].begin); }
    }
  }
}
