/** The merge_events table: one row per merge operation, and a partial unique
    index that allows one active row per wallet and market. */
module MergeEvents {
  import opened Sorting
  import opened Wrappers
  import MergeAccounting

  datatype Route = Pair | FokMerge

  datatype Status = Ready | Submitted | Confirmed | Failed

  datatype Row = Row(wallet: string, cid: string, yes: string, no: string, route: Route,
                     amount: int, yesCost: int, noCost: int,
                     orderId: string, comp: string, txId: string, status: Status,
                     recovered: int, pnl: int, updatedAt: int, confirmedAt: int)

  predicate Active(r: Row) { r.status.Ready? || r.status.Submitted? }

  predicate Terminal(r: Row) { !Active(r) }

  /** The columns fixed when the row is inserted. */
  ghost predicate SameOperation(r: Row, t: Row) {
    && r.wallet == t.wallet && r.cid == t.cid && r.yes == t.yes && r.no == t.no && r.route == t.route
    && r.amount == t.amount && r.yesCost == t.yesCost && r.noCost == t.noCost
  }

  ghost predicate OneActivePerMarket(rows: seq<Row>) {
    forall i, j | 0 <= i < j < |rows| && Active(rows[i]) && Active(rows[j]) ::
      rows[i].wallet != rows[j].wallet || rows[i].cid != rows[j].cid
  }

  /** READY to SUBMITTED to CONFIRMED, or out of either active state to FAILED. */
  ghost predicate StatusReaches(a: Status, b: Status) {
    || a == b
    || (a.Ready? && (b.Submitted? || b.Confirmed? || b.Failed?))
    || (a.Submitted? && (b.Confirmed? || b.Failed?))
  }

  /** What may have happened to a row between two moments of a run. */
  ghost predicate RowEvolves(r: Row, t: Row) {
    && SameOperation(r, t)
    && StatusReaches(r.status, t.status)
    && (Terminal(r) ==> t == r)
    && (!r.status.Ready? || t.status.Ready? ==> t.txId == r.txId)
    && (r.orderId != "" ==> t.orderId == r.orderId)
  }

  ghost predicate TableEvolves(a: seq<Row>, b: seq<Row>) {
    && |a| <= |b|
    && forall i | 0 <= i < |a| :: RowEvolves(a[i], b[i])
  }

  lemma {:induction false} TableEvolvesSame(a: seq<Row>)
    ensures TableEvolves(a, a)
  {
  }

  lemma {:induction false} TableEvolvesTransitive(a: seq<Row>, b: seq<Row>, c: seq<Row>)
    requires TableEvolves(a, b) && TableEvolves(b, c)
    ensures TableEvolves(a, c)
  {
    forall i | 0 <= i < |a| ensures RowEvolves(a[i], c[i]) {
      assert RowEvolves(a[i], b[i]) && RowEvolves(b[i], c[i]);
    }
  }

  /** Column values of one UPDATE; a missing one keeps its column. */
  datatype Changes = Changes(status: Option<Status>, orderId: Option<string>, comp: Option<string>,
                             txId: Option<string>, recovered: Option<int>, pnl: Option<int>,
                             confirmedAt: Option<int>)

  const NO_CHANGE := Changes(None, None, None, None, None, None, None)

  function Pick<T>(o: Option<T>, current: T): T { if o.Some? then o.value else current }

  function Updated(r: Row, c: Changes, at: int): Row {
    r.(status := Pick(c.status, r.status), orderId := Pick(c.orderId, r.orderId), comp := Pick(c.comp, r.comp),
       txId := Pick(c.txId, r.txId), recovered := Pick(c.recovered, r.recovered), pnl := Pick(c.pnl, r.pnl),
       confirmedAt := Pick(c.confirmedAt, r.confirmedAt), updatedAt := at)
  }

  function ProfitOf(r: Row): int {
    MergeAccounting.MergeRealizedPnl(r.amount, r.yesCost, r.noCost, 0)
  }

  /** Index of the active row of a market, if it has one. */
  ghost predicate HasActive(rows: seq<Row>, wallet: string, cid: string) {
    exists i :: 0 <= i < |rows| && rows[i].wallet == wallet && rows[i].cid == cid && Active(rows[i])
  }

  class EventTable {
    var rows: seq<Row>

    ghost predicate Valid()
      reads this
    {
      OneActivePerMarket(rows)
    }

    constructor ()
      ensures Valid() && rows == []
    {
      rows := [];
    }

    /** Inserts a READY row unless the unique index forbids it. */
    method CreateMergeEvent(row: Row) returns (id: Option<nat>)
      requires Valid() && row.status.Ready?
      modifies this
      ensures Valid()
      ensures id.None? <==> old(HasActive(rows, row.wallet, row.cid))
      ensures id.None? ==> rows == old(rows)
      ensures id.Some? ==> id.value == |old(rows)| && rows == old(rows) + [row]
    {
      var active := GetActiveMergeEvent(row.wallet, row.cid);
      if active.Some? {
        return None;
      }
      id := Some(|rows|);
      rows := rows + [row];
    }

    /** Latest active row of this wallet and market. */
    method GetActiveMergeEvent(wallet: string, cid: string) returns (id: Option<nat>)
      ensures id.Some? <==> HasActive(rows, wallet, cid)
      ensures id.Some? ==> id.value < |rows| && Active(rows[id.value])
      ensures id.Some? ==> rows[id.value].wallet == wallet && rows[id.value].cid == cid
    {
      var i := |rows|;
      while i > 0
        invariant 0 <= i <= |rows|
        invariant forall k | i <= k < |rows| ::
                    !(rows[k].wallet == wallet && rows[k].cid == cid && Active(rows[k]))
      {
        i := i - 1;
        if rows[i].wallet == wallet && rows[i].cid == cid && Active(rows[i]) {
          return Some(i);
        }
      }
      return None;
    }

    /** Ids of this wallet's rows in one status, newest first, at most `limit`. */
    method ListMergeEvents(wallet: string, status: Status, limit: nat) returns (ids: seq<nat>)
      ensures |ids| <= limit
      ensures forall k | 0 <= k < |ids| ::
                ids[k] < |rows| && rows[ids[k]].wallet == wallet && rows[ids[k]].status == status
      ensures forall j, k | 0 <= j < k < |ids| :: ids[j] > ids[k]
      ensures |ids| < limit ==>
                forall i | 0 <= i < |rows| && rows[i].wallet == wallet && rows[i].status == status :: i in ids
      ensures forall i | 0 <= i < |rows| && rows[i].wallet == wallet && rows[i].status == status && i !in ids ::
                forall k | 0 <= k < |ids| :: i < ids[k]
    {
      ids := [];
      var i := |rows|;
      while i > 0 && |ids| < limit
        invariant 0 <= i <= |rows| && |ids| <= limit
        invariant forall k | 0 <= k < |ids| ::
                    i <= ids[k] < |rows| && rows[ids[k]].wallet == wallet && rows[ids[k]].status == status
        invariant forall j, k | 0 <= j < k < |ids| :: ids[j] > ids[k]
        invariant forall k | i <= k < |rows| && rows[k].wallet == wallet && rows[k].status == status :: k in ids
      {
        i := i - 1;
        if rows[i].wallet == wallet && rows[i].status == status {
          ids := ids + [i];
        }
      }
    }

    /** One UPDATE by id. It is refused only where it would leave a second active
        row in the market. */
    method UpdateMergeEvent(id: nat, c: Changes, at: int) returns (ok: bool)
      requires Valid() && id < |rows|
      modifies this
      ensures Valid()
      ensures ok ==> rows == old(rows)[id := Updated(old(rows)[id], c, at)]
      ensures !ok ==> rows == old(rows)
      ensures old(Active(rows[id])) || !Active(Updated(old(rows)[id], c, at)) ==> ok
    {
      var r := Updated(rows[id], c, at);
      if Active(r) && !Active(rows[id]) {
        var other := GetActiveMergeEvent(r.wallet, r.cid);
        if other.Some? {
          return false;
        }
      }
      rows := rows[id := r];
      return true;
    }

    /** CONFIRMED rows, of one wallet or of all of them, by confirmation time, then id. */
    method GetConfirmedMergeEvents(wallet: Option<string>) returns (out: seq<Row>)
      ensures out == ConfirmedRows(rows, wallet)
      ensures ConfirmedInTime(out, rows, wallet)
    {
      hide ConfirmedInTime;
      ConfirmedInOrder(rows, wallet);
      out := [];
      for i := 0 to |rows|
        invariant out == ConfirmedOf(rows[..i], wallet)
      {
        assert rows[..i + 1][..i] == rows[..i];
        if rows[i].status.Confirmed? && (wallet.None? || rows[i].wallet == wallet.value) {
          out := out + [rows[i]];
        }
      }
      assert rows[..|rows|] == rows;
      out := StableSort(out, ConfirmedAt);
    }
  }

  function ConfirmedAt(r: Row): int { r.confirmedAt }

  function ConfirmedRows(rows: seq<Row>, wallet: Option<string>): seq<Row> {
    StableSort(ConfirmedOf(rows, wallet), ConfirmedAt)
  }

  /** The CONFIRMED rows in id order. */
  function ConfirmedOf(rows: seq<Row>, wallet: Option<string>): seq<Row> {
    if rows == [] then []
    else
      var r := rows[|rows| - 1];
      ConfirmedOf(rows[..|rows| - 1], wallet)
      + (if r.status.Confirmed? && (wallet.None? || r.wallet == wallet.value) then [r] else [])
  }

  /** Exactly the confirmed rows of the wallet, or of all, by confirmation time. */
  ghost predicate ConfirmedInTime(out: seq<Row>, rows: seq<Row>, wallet: Option<string>) {
    && (forall r :: r in out <==> r in rows && r.status.Confirmed? && (wallet.None? || r.wallet == wallet.value))
    && (forall i, j | 0 <= i < j < |out| :: out[i].confirmedAt <= out[j].confirmedAt)
  }

  lemma {:induction false} ConfirmedInOrder(rows: seq<Row>, wallet: Option<string>)
    ensures ConfirmedInTime(ConfirmedRows(rows, wallet), rows, wallet)
  {
    ConfirmedAreThose(rows, wallet);
    StableSortPermutes(ConfirmedOf(rows, wallet), ConfirmedAt);
    StableSortSorts(ConfirmedOf(rows, wallet), ConfirmedAt);
    var out := ConfirmedRows(rows, wallet);
    forall i, j | 0 <= i < j < |out| ensures out[i].confirmedAt <= out[j].confirmedAt {
      assert ConfirmedAt(out[i]) <= ConfirmedAt(out[j]);
    }
  }

  lemma {:induction false} ConfirmedAreThose(rows: seq<Row>, wallet: Option<string>)
    ensures forall r :: r in ConfirmedOf(rows, wallet)
                        <==> r in rows && r.status.Confirmed? && (wallet.None? || r.wallet == wallet.value)
  {
    if rows != [] {
      var n := |rows| - 1;
      ConfirmedAreThose(rows[..n], wallet);
      assert rows == rows[..n] + [rows[n]];
    }
  }
}
