/** How long an event stays active, and with it its market on hold: exactly what ends
    it in one visit, and how long a silent relayer keeps it over whole runs. */
module EventLife {
  import opened Wrappers
  import opened MergeEvents
  import opened MergeProtocol
  import opened RouterSteps
  import MergeSafety

  // ---------------------------------------------------------------- one visit and many

  /** One reconciliation of an event: what the balances show, whether its backoff has
      run out, and what the outside answers. */
  datatype Visit = Visit(pair: bool, due: bool, ans: EventAnswers)

  /** The relayer calls the merge done or broken, or is silent beyond the timeout with
      the pair gone from the balances. */
  predicate Settling(r: Row, v: Visit) {
    && v.due && r.txId != "" && v.ans.relayer.Some?
    && (!v.ans.relayer.value.Unsettled? || (Late(r, v.ans) && !v.pair))
  }

  /** A ready event is given up: its merge is answered without an id, or the pair it
      needs is not there. */
  predicate GivenUp(r: Row, v: Visit) {
    var refused := v.ans.merge == Tx("");
    if r.route.Pair? || r.orderId == "" then !v.pair || refused
    else
      v.due && v.ans.order.Some?
      && var o := v.ans.order.value;
         if o.matched >= r.amount || (v.pair && (o.saysFilled || o.saysDead)) then refused else o.saysDead
  }

  predicate Ending(r: Row, v: Visit) { if r.status.Submitted? then Settling(r, v) else GivenUp(r, v) }

  /** An active event survives a visit exactly when nothing in it ends the event. */
  lemma {:induction false} SurvivesExactly(r: Row, v: Visit)
    requires Active(r)
    ensures Active(Reconciled(r, v.pair, v.due, v.ans)) <==> !Ending(r, v)
  {
    StatusAfter(r, v.ans);
    StatusAfter(WithComp(r, "matched", v.ans.now), v.ans);
    hide AfterSubmit, Failing, Confirming, WithComp;
  }

  lemma {:induction false} StatusAfter(r: Row, ans: EventAnswers)
    ensures Failing(r, ans.now).status.Failed? && Confirming(r, ans.now).status.Confirmed?
    ensures AfterSubmit(r, ans).status == if ans.merge.Raised? then r.status
                                          else if ans.merge.id == "" then Failed else Submitted
    ensures forall text :: WithComp(r, text, ans.now).status == r.status
  {
  }

  function Visited(r: Row, vs: seq<Visit>): Row
    decreases |vs|
  {
    if vs == [] then r else Visited(Reconciled(r, vs[0].pair, vs[0].due, vs[0].ans), vs[1..])
  }

  lemma {:induction false} EndedForGood(r: Row, vs: seq<Visit>)
    requires Terminal(r)
    ensures Visited(r, vs) == r
  {
    if vs != [] { EndedForGood(r, vs[1..]); }
  }

  /** Over any number of visits a submitted event stays exactly as it is, and active, if
      and only if none of them settles it: with a relayer that never decides and a pair
      that is still reported, for ever. */
  lemma {:induction false} SubmittedStaysExactly(r: Row, vs: seq<Visit>)
    requires r.status.Submitted?
    ensures Active(Visited(r, vs)) <==> forall k | 0 <= k < |vs| :: !Settling(r, vs[k])
    ensures Active(Visited(r, vs)) ==> Visited(r, vs) == r
  {
    hide Settling, Reconciled;
    if vs != [] {
      var v, rest := vs[0], vs[1..];
      SurvivesExactly(r, v);
      if Settling(r, v) {
        EndedForGood(Reconciled(r, v.pair, v.due, v.ans), rest);
      } else {
        WaitsUnchanged(r, v);
        SubmittedStaysExactly(r, rest);
        assert forall k | 0 < k < |vs| :: vs[k] == rest[k - 1];
      }
    }
  }

  lemma {:induction false} WaitsUnchanged(r: Row, v: Visit)
    requires r.status.Submitted? && !Settling(r, v)
    ensures Reconciled(r, v.pair, v.due, v.ans) == r
  {
  }

  // ---------------------------------------------------------------- over whole runs

  /** The relayer's answer decides nothing about the event. */
  ghost predicate Undecided(ps: seq<Position>, r: Row, state: RelayerState, late: bool) {
    state.Unsettled? && (late ==> PairHeld(ps, r))
  }

  /** Event `e` is as in `r`, and no answer in hand decides it. */
  ghost predicate Waiting(m: Proto, e: nat, r: Row) {
    && e < |m.rows| && m.rows[e] == r && r.wallet == m.wallet
    && (m.focus.RelayerRead? && m.focus.e == e ==> Undecided(m.positions, r, m.focus.state, m.focus.late))
  }

  /** The act reserves, buys, sells or merges in the market. */
  ghost predicate WorksOn(m: Proto, a: Act, cid: string) {
    || (a.Reserve? && a.row.cid == cid)
    || (a.SellPlaced? && a.pos.cid == cid)
    || ((a.FokCall? || a.MergeCall?) && a.e < |m.rows| && m.rows[a.e].cid == cid)
  }

  lemma {:induction false} WaitsOn(m: Proto, a: Act, e: nat, r: Row)
    requires OneActivePerMarket(m.rows) && Waiting(m, e, r) && r.status.Submitted? && Enabled(m, a)
    requires a.RelayerQuery? && a.e == e ==> Undecided(m.positions, r, a.state, a.late)
    ensures Waiting(Next(m, a), e, r)
  {
    hide OneActivePerMarket, PairHeld;
  }

  lemma {:induction false} MarketHeld(m: Proto, a: Act, e: nat)
    requires OneActivePerMarket(m.rows) && e < |m.rows| && m.rows[e].status.Submitted? && m.rows[e].wallet == m.wallet
    requires Enabled(m, a)
    requires m.focus.Reserved? ==> m.focus.e < |m.rows| && m.rows[m.focus.e].status.Ready?
    ensures !WorksOn(m, a, m.rows[e].cid)
  {
    if a.FokCall? || a.MergeCall? {
      assert m.rows[a.e].status.Ready? && m.rows[a.e].wallet == m.wallet;
    }
  }

  /** In every run, whatever else happens and wherever it crashes: while each answer of
      the relayer about a submitted event is undecided, the event stays exactly as it is
      and nothing is reserved, bought, sold or merged in its market. */
  lemma {:induction false} SilenceHoldsTheMarket(s: Proto, log: seq<Act>, i: nat, j: nat, e: nat, r: Row)
    requires Start(s) && Legal(s, log) && i <= j <= |log|
    requires Waiting(Run(s, log[..i]), e, r) && r.status.Submitted?
    requires forall q | i <= q < j && log[q].RelayerQuery? && log[q].e == e ::
               Undecided(Run(s, log[..q]).positions, r, log[q].state, log[q].late)
    ensures Waiting(Run(s, log[..j]), e, r)
    ensures forall q | i <= q < j :: !WorksOn(Run(s, log[..q]), log[q], r.cid)
  {
    hide Next, Enabled, Legal, Run, Undecided, Waiting, WorksOn;
    if i < j {
      SilenceHoldsTheMarket(s, log, i, j - 1, e, r);
      var m, a := Run(s, log[..j - 1]), log[j - 1];
      LegalPrefix(s, log, j - 1);
      RunSafety(s, log[..j - 1]);
      MergeSafety.FocusOrigin(s, log[..j - 1]);
      WaitsOn(m, a, e, r);
      WaitsHeld(m, a, e, r, log[..j - 1]);
    }
  }

  lemma {:induction false} WaitsHeld(m: Proto, a: Act, e: nat, r: Row, log: seq<Act>)
    requires OneActivePerMarket(m.rows) && Waiting(m, e, r) && r.status.Submitted? && Enabled(m, a)
    requires MergeSafety.Originates(m, log, m.wallet)
    ensures !WorksOn(m, a, r.cid)
  {
    hide Enabled, OneActivePerMarket;
    MarketHeld(m, a, e);
  }
}
