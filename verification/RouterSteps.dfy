/** What reconciling one event makes of its row, and the calls and writes that get it
    there: the specification the router's reconciliation is proved against. */
module RouterSteps {
  import opened Wrappers
  import opened MergeEvents
  import opened MergeProtocol

  const POLL_INTERVAL := 30
  const POLL_FAIL_BACKOFF := 120
  const POLL_STALL_BACKOFF := 300

  /** What the outside world answers while one event is handled. */
  datatype EventAnswers = EventAnswers(now: int, timeout: int, order: Option<OrderView>,
                                       merge: MergeReply, accepted: bool, relayer: Option<RelayerState>)

  function AfterSubmit(r: Row, ans: EventAnswers): Row {
    match ans.merge
    case Raised => Updated(r, NO_CHANGE.(comp := Some("submit-failed")), ans.now)
    case Tx(id) => if id == "" then Failing(r, ans.now) else RowAfter(r, StoreTx(0, id, ans.now))
  }

  function Failing(r: Row, now: int): Row { RowAfter(r, Fail(0, NoTxId, now)) }

  function Confirming(r: Row, now: int): Row { RowAfter(r, Confirm(0, now)) }

  function WithComp(r: Row, comp: string, now: int): Row { RowAfter(r, SetComp(0, comp, now)) }

  /** What one reconciliation makes of an event. `pair`: the reported balances hold
      the whole pair; `due`: the poll backoff has run out. */
  function Reconciled(r: Row, pair: bool, due: bool, ans: EventAnswers): Row {
    if r.status.Ready? then
      if r.route.Pair? || r.orderId == "" then
        (if pair then AfterSubmit(r, ans) else Failing(r, ans.now))
      else if !due || ans.order.None? then r
      else
        var v := ans.order.value;
        var filled := v.matched >= r.amount;
        if (filled || v.saysFilled) && (filled || pair) then AfterSubmit(WithComp(r, "matched", ans.now), ans)
        else if v.saysDead then (if pair then AfterSubmit(r, ans) else Failing(r, ans.now))
        else WithComp(r, "delayed", ans.now)
    else if r.status.Submitted? && due && r.txId != "" && ans.relayer.Some? then
      match ans.relayer.value
      case Done => Confirming(r, ans.now)
      case Broken => if pair then Failing(r, ans.now) else Confirming(r, ans.now)
      case Unsettled => if ans.now - r.updatedAt > ans.timeout && !pair then Confirming(r, ans.now) else r
    else r
  }

  /** What one reconciliation sends and writes, in order, and the poll times it leaves. */
  datatype Step = Step(acts: seq<Act>, polls: map<nat, int>)

  function SubmitStep(e: nat, polls: map<nat, int>, ans: EventAnswers): Step {
    var call := MergeCall(e, ans.accepted, ans.merge);
    match ans.merge
    case Raised => Step([call, SetComp(e, "submit-failed", ans.now)], polls[e := ans.now + POLL_FAIL_BACKOFF])
    case Tx(id) =>
      if id == "" then Step([call, Fail(e, NoTxId, ans.now)], polls - {e})
      else Step([call, StoreTx(e, id, ans.now)], polls[e := ans.now + POLL_INTERVAL])
  }

  function After(acts: seq<Act>, rest: Step): Step { Step(acts + rest.acts, rest.polls) }

  /** One order read, then what its report asks for. */
  function FokStep(e: nat, r: Row, v: OrderView, pair: bool, polls: map<nat, int>, ans: EventAnswers): Step {
    if (v.matched >= r.amount || v.saysFilled) && (v.matched >= r.amount || pair) then
      After([SetComp(e, "matched", ans.now)], SubmitStep(e, polls, ans))
    else if v.saysDead then
      (if pair then SubmitStep(e, polls, ans) else Step([Fail(e, OrderDead, ans.now)], polls - {e}))
    else Step([SetComp(e, "delayed", ans.now)], polls)
  }

  function OrderStep(e: nat, r: Row, pair: bool, polls: map<nat, int>, ans: EventAnswers): Step {
    var asked := polls[e := ans.now + POLL_INTERVAL];
    if ans.order.None? then Step([], asked)
    else After([OrderQuery(e, ans.order.value)], FokStep(e, r, ans.order.value, pair, asked, ans))
  }

  function Late(r: Row, ans: EventAnswers): bool { ans.now - r.updatedAt > ans.timeout }

  /** What the relayer's state asks for. */
  function StateStep(e: nat, state: RelayerState, late: bool, pair: bool, polls: map<nat, int>,
                     ans: EventAnswers): Step {
    match state
    case Done => Step([Confirm(e, ans.now)], polls)
    case Broken =>
      if pair then Step([Fail(e, RelayerBroke, ans.now)], polls - {e}) else Step([Confirm(e, ans.now)], polls)
    case Unsettled =>
      if late && !pair then Step([Confirm(e, ans.now)], polls)
      else Step([], polls[e := ans.now + if late then POLL_STALL_BACKOFF else POLL_INTERVAL])
  }

  function PollStep(e: nat, r: Row, pair: bool, polls: map<nat, int>, ans: EventAnswers): Step {
    if r.txId == "" then Step([], polls[e := ans.now + POLL_INTERVAL])
    else if ans.relayer.None? then Step([], polls[e := ans.now + POLL_FAIL_BACKOFF])
    else
      After([RelayerQuery(e, ans.relayer.value, Late(r, ans), ans.now, ans.timeout)],
            StateStep(e, ans.relayer.value, Late(r, ans), pair, polls, ans))
  }

  /** An event that is polled: it has an order or a transaction to ask about. */
  predicate Polled(r: Row) { (r.status.Ready? && r.route.FokMerge? && r.orderId != "") || r.status.Submitted? }

  function EventStep(e: nat, r: Row, pair: bool, due: bool, polls: map<nat, int>, ans: EventAnswers): Step {
    if Terminal(r) || (Polled(r) && !due) then Step([], polls)
    else if r.status.Submitted? then PollStep(e, r, pair, polls, ans)
    else if Polled(r) then OrderStep(e, r, pair, polls, ans)
    else if pair then SubmitStep(e, polls, ans)
    else Step([Fail(e, if r.route.Pair? then PairGone else NeverStored, ans.now)], polls - {e})
  }

  function RowAfterAll(r: Row, acts: seq<Act>): Row
    decreases |acts|
  {
    if acts == [] then r else RowAfterAll(RowAfter(r, acts[0]), acts[1..])
  }

  lemma {:induction false} RowAfterFirst(r: Row, a: Act, rest: seq<Act>)
    ensures RowAfterAll(r, [a] + rest) == RowAfterAll(RowAfter(r, a), rest)
  {
    assert ([a] + rest)[1..] == rest;
  }

  lemma {:induction false} RowAfterOne(r: Row, a: Act)
    ensures RowAfterAll(r, [a]) == RowAfter(r, a)
  {
    assert [a][1..] == [];
  }

  /** What a write makes of a row does not depend on the id written to. */
  lemma {:induction false} RowAfterAnywhere(r: Row, e: nat, now: int, cause: Cause, text: string)
    ensures RowAfter(r, Fail(e, cause, now)) == Failing(r, now)
    ensures RowAfter(r, Confirm(e, now)) == Confirming(r, now)
    ensures RowAfter(r, SetComp(e, text, now)) == WithComp(r, text, now)
    ensures RowAfter(r, StoreTx(e, text, now)) == RowAfter(r, StoreTx(0, text, now))
  {
    hide Updated, Confirmation;
  }

  lemma {:induction false} SubmitStartsWithCall(e: nat, polls: map<nat, int>, ans: EventAnswers)
    ensures var acts := SubmitStep(e, polls, ans).acts;
            acts != [] && acts == [MergeCall(e, ans.accepted, ans.merge)] + acts[1..]
  {
  }

  lemma {:induction false} SubmitMakesRow(e: nat, r: Row, polls: map<nat, int>, ans: EventAnswers)
    ensures RowAfterAll(r, SubmitStep(e, polls, ans).acts) == AfterSubmit(r, ans)
  {
    var acts := SubmitStep(e, polls, ans).acts;
    assert acts == [acts[0]] + [acts[1]];
    RowAfterFirst(r, acts[0], [acts[1]]);
    RowAfterOne(r, acts[1]);
  }

  lemma {:induction false} FokMakesRow(e: nat, r: Row, v: OrderView, pair: bool, polls: map<nat, int>,
                                       ans: EventAnswers)
    requires Polled(r) && r.status.Ready? && ans.order == Some(v)
    ensures RowAfterAll(r, FokStep(e, r, v, pair, polls, ans).acts) == Reconciled(r, pair, true, ans)
  {
    hide RowAfter, RowAfterAll, SubmitStep, AfterSubmit, Failing, WithComp;
    if (v.matched >= r.amount || v.saysFilled) && (v.matched >= r.amount || pair) {
      RowAfterAnywhere(r, e, ans.now, OrderDead, "matched");
      RowAfterFirst(r, SetComp(e, "matched", ans.now), SubmitStep(e, polls, ans).acts);
      SubmitMakesRow(e, WithComp(r, "matched", ans.now), polls, ans);
    } else if v.saysDead {
      SubmitMakesRow(e, r, polls, ans);
      RowAfterAnywhere(r, e, ans.now, OrderDead, "");
      RowAfterOne(r, Fail(e, OrderDead, ans.now));
    } else {
      RowAfterAnywhere(r, e, ans.now, OrderDead, "delayed");
      RowAfterOne(r, SetComp(e, "delayed", ans.now));
    }
  }

  lemma {:induction false} PollMakesRow(e: nat, r: Row, pair: bool, polls: map<nat, int>, ans: EventAnswers)
    requires r.status.Submitted?
    ensures RowAfterAll(r, PollStep(e, r, pair, polls, ans).acts) == Reconciled(r, pair, true, ans)
  {
    var acts := PollStep(e, r, pair, polls, ans).acts;
    if acts != [] {
      RowAfterFirst(r, acts[0], acts[1..]);
      assert acts == [acts[0]] + acts[1..];
      if |acts| == 2 {
        assert acts[1..] == [acts[1]];
        RowAfterOne(r, acts[1]);
      }
    }
  }

  lemma {:induction false} OrderMakesRow(e: nat, r: Row, pair: bool, polls: map<nat, int>, ans: EventAnswers)
    requires Polled(r) && r.status.Ready?
    ensures RowAfterAll(r, OrderStep(e, r, pair, polls, ans).acts) == Reconciled(r, pair, true, ans)
  {
    hide FokStep;
    if ans.order.Some? {
      var asked, v := polls[e := ans.now + POLL_INTERVAL], ans.order.value;
      RowAfterFirst(r, OrderQuery(e, v), FokStep(e, r, v, pair, asked, ans).acts);
      FokMakesRow(e, r, v, pair, asked, ans);
    }
  }

  /** The acts of a reconciliation make exactly the row it is said to leave. */
  lemma {:induction false} StepMakesRow(e: nat, r: Row, pair: bool, due: bool, polls: map<nat, int>, ans: EventAnswers)
    ensures RowAfterAll(r, EventStep(e, r, pair, due, polls, ans).acts) == Reconciled(r, pair, due, ans)
  {
    hide OrderStep, PollStep, SubmitStep, RowAfter, AfterSubmit, Failing, Confirming, WithComp;
    if !Terminal(r) && (due || !Polled(r)) {
      if r.status.Submitted? {
        PollMakesRow(e, r, pair, polls, ans);
      } else if Polled(r) {
        OrderMakesRow(e, r, pair, polls, ans);
      } else {
        var cause := if r.route.Pair? then PairGone else NeverStored;
        SubmitMakesRow(e, r, polls, ans);
        RowAfterAnywhere(r, e, ans.now, cause, "");
        RowAfterOne(r, Fail(e, cause, ans.now));
      }
    }
  }

  /** The backoff holds an active event back exactly when the event is polled: one
      that still has neither order nor transaction is retried at once. */
  lemma {:induction false} BackoffHoldsPolledOnly(e: nat, r: Row, pair: bool, polls: map<nat, int>, ans: EventAnswers)
    requires Active(r)
    ensures EventStep(e, r, pair, false, polls, ans).acts == [] <==> Polled(r)
    ensures Polled(r) ==> Reconciled(r, pair, false, ans) == r
    ensures !Polled(r) ==> Reconciled(r, pair, false, ans) == Reconciled(r, pair, true, ans)
  {
  }

  /** The next poll of an event, in seconds from now: after a merge request that was taken
      30, after one that raised 120, none after one that is refused; after an order that
      could not be read or is still open 30; after the relayer was asked 120 if that
      failed, 300 if it is late and 30 otherwise, and the old time once it has settled. */
  lemma {:induction false} NextPoll(e: nat, r: Row, pair: bool, polls: map<nat, int>, ans: EventAnswers)
    ensures SubmitStep(e, polls, ans).polls == if ans.merge.Raised? then polls[e := ans.now + 120]
                                               else if ans.merge.id == "" then polls - {e} else polls[e := ans.now + 30]
    ensures ans.order.None? || !Ends(ans.order.value, r.amount) ==>
              OrderStep(e, r, pair, polls, ans).polls == polls[e := ans.now + 30]
    ensures var next := PollStep(e, r, pair, polls, ans).polls;
            var late := ans.now > r.updatedAt + ans.timeout;
            if r.txId == "" then next == polls[e := ans.now + 30]
            else if ans.relayer.None? then next == polls[e := ans.now + 120]
            else if ans.relayer.value.Unsettled? && (!late || pair) then
              next == polls[e := ans.now + if late then 300 else 30]
            else if ans.relayer.value.Broken? && pair then next == polls - {e}
            else next == polls
  {
  }

  predicate DueAt(polls: map<nat, int>, e: nat, now: int) {
    e !in polls || now >= polls[e]
  }

  /** Row `e` once the listed events have been handled with these answers. */
  function RowHandled(r: Row, e: nat, listed: bool, ps: seq<Position>, polls: map<nat, int>,
                      answers: nat -> EventAnswers): Row {
    if listed then Reconciled(r, PairHeld(ps, r), DueAt(polls, e, answers(e).now), answers(e)) else r
  }

  lemma {:induction false} NotListed(r: Row, e: nat, ps: seq<Position>, polls: map<nat, int>,
                                     answers: nat -> EventAnswers)
    ensures RowHandled(r, e, false, ps, polls, answers) == r
  {
  }
}
