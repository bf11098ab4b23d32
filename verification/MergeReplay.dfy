/** The merges that a wallet's cost reconstruction burns. The monitor takes the
    confirmed rows of the market from every wallet, not only from its own. */
module MergeReplay {
  import opened Fifo
  import opened Sorting
  import opened Wrappers
  import opened MergeEvents
  import opened CostBasis

  /** Amounts of the rows of one market. */
  function Amounts(rs: seq<Row>, cid: string): seq<int> {
    if rs == [] then []
    else
      var r := rs[|rs| - 1];
      Amounts(rs[..|rs| - 1], cid) + if r.cid == cid then [r.amount] else []
  }

  /** The confirmed merges of a market, of one wallet or of all, in order of confirmation. */
  ghost function MergesFor(rows: seq<Row>, wallet: Option<string>, cid: string): seq<int> {
    Amounts(ConfirmedRows(rows, wallet), cid)
  }

  method MergeEventsFor(table: EventTable, cid: string) returns (merges: seq<int>)
    ensures merges == MergesFor(table.rows, None, cid)
  {
    var events := table.GetConfirmedMergeEvents(None);
    merges := [];
    for i := 0 to |events|
      invariant merges == Amounts(events[..i], cid)
    {
      assert events[..i + 1][..i] == events[..i];
      if events[i].cid == cid {
        merges := merges + [events[i].amount];
      }
    }
    assert events[..|events|] == events;
  }

  ghost predicate Foreign(r: Row, wallet: string, cid: string) {
    r.status.Confirmed? && r.wallet != wallet && r.cid == cid
  }

  /** Pairs that other wallets have merged in the market. */
  ghost function ForeignShares(rows: seq<Row>, wallet: string, cid: string): int {
    if rows == [] then 0
    else
      var r := rows[|rows| - 1];
      ForeignShares(rows[..|rows| - 1], wallet, cid) + if Foreign(r, wallet, cid) then Max(0, r.amount) else 0
  }

  // ---------------------------------------------------------------- what the order of rows does not change

  ghost function BurntBy(r: Row, cid: string): int { if r.cid == cid then Max(0, r.amount) else 0 }

  lemma {:induction false} BurntLast(rs: seq<Row>, r: Row, cid: string)
    ensures Burnt(Amounts(rs + [r], cid)) == Burnt(Amounts(rs, cid)) + BurntBy(r, cid)
  {
    var ms := Amounts(rs, cid);
    assert (rs + [r])[..|rs|] == rs && (ms + [r.amount])[..|ms|] == ms;
    assert Amounts(rs + [r], cid) == if r.cid == cid then ms + [r.amount] else ms;
  }

  lemma {:induction false} BurntFirst(r: Row, rs: seq<Row>, cid: string)
    ensures Burnt(Amounts([r] + rs, cid)) == BurntBy(r, cid) + Burnt(Amounts(rs, cid))
  {
    hide Burnt, Amounts, BurntBy;
    if rs == [] {
      assert [r] + rs == [] + [r];
      BurntLast([], r, cid);
      NothingBurnt(cid);
    } else {
      var p, x := rs[..|rs| - 1], rs[|rs| - 1];
      assert rs == p + [x] && [r] + rs == ([r] + p) + [x];
      BurntFirst(r, p, cid);
      BurntLast([r] + p, x, cid);
      BurntLast(p, x, cid);
    }
  }

  lemma {:induction false} NothingBurnt(cid: string)
    ensures Burnt(Amounts([], cid)) == 0
  {
  }

  lemma {:induction false} BurntInserted(r: Row, rs: seq<Row>, cid: string)
    ensures Burnt(Amounts(Insert(r, rs, ConfirmedAt), cid)) == BurntBy(r, cid) + Burnt(Amounts(rs, cid))
  {
    hide Burnt, Amounts, BurntBy;
    BurntFirst(r, rs, cid);
    if rs != [] && ConfirmedAt(rs[0]) <= ConfirmedAt(r) {
      BurntInserted(r, rs[1..], cid);
      BurntFirst(rs[0], Insert(r, rs[1..], ConfirmedAt), cid);
      BurntFirst(rs[0], rs[1..], cid);
      assert rs == [rs[0]] + rs[1..];
    }
  }

  lemma {:induction false} BurntSorted(rs: seq<Row>, cid: string)
    ensures Burnt(Amounts(StableSort(rs, ConfirmedAt), cid)) == Burnt(Amounts(rs, cid))
  {
    hide Burnt, Amounts, BurntBy;
    if rs != [] {
      var p, r := rs[..|rs| - 1], rs[|rs| - 1];
      assert rs == p + [r];
      BurntSorted(p, cid);
      BurntInserted(r, StableSort(p, ConfirmedAt), cid);
      BurntLast(p, r, cid);
    }
  }

  lemma {:induction false} BurntOwnAndForeign(rows: seq<Row>, wallet: string, cid: string)
    ensures Burnt(Amounts(ConfirmedOf(rows, None), cid))
         == Burnt(Amounts(ConfirmedOf(rows, Some(wallet)), cid)) + ForeignShares(rows, wallet, cid)
  {
    hide Burnt, Amounts;
    if rows != [] {
      var p, r := rows[..|rows| - 1], rows[|rows| - 1];
      var all, own := ConfirmedOf(p, None), ConfirmedOf(p, Some(wallet));
      BurntOwnAndForeign(p, wallet, cid);
      BurntLast(all, r, cid);
      BurntLast(own, r, cid);
      assert all + [] == all && own + [] == own;
    } else {
      NothingBurnt(cid);
    }
  }

  lemma {:induction false} ForeignAnywhere(rows: seq<Row>, wallet: string, cid: string)
    ensures ForeignShares(rows, wallet, cid) >= 0
    ensures ForeignShares(rows, wallet, cid) == 0
       <==> forall i | 0 <= i < |rows| && Foreign(rows[i], wallet, cid) :: rows[i].amount <= 0
  {
    if rows != [] { ForeignAnywhere(rows[..|rows| - 1], wallet, cid); }
  }

  // ---------------------------------------------------------------- when foreign merges do harm

  /** For every table and every fills: the merges of other wallets take that many shares
      off the wallet's rebuilt position, and leave its lots as they should be if and only
      if no other wallet has merged a pair in the market or the position is empty anyway. */
  lemma {:induction false} ForeignMergesHarmlessExactly(fills: seq<Fill>, rows: seq<Row>, wallet: string, cid: string)
    ensures var own := Rebuild(fills, MergesFor(rows, Some(wallet), cid));
            var used := Rebuild(fills, MergesFor(rows, None, cid));
            && Total(used) == Max(0, Total(own) - ForeignShares(rows, wallet, cid))
            && (used == own
                <==> own == [] || forall i | 0 <= i < |rows| && Foreign(rows[i], wallet, cid) :: rows[i].amount <= 0)
  {
    var mine, all := MergesFor(rows, Some(wallet), cid), MergesFor(rows, None, cid);
    BurntSorted(ConfirmedOf(rows, Some(wallet)), cid);
    BurntSorted(ConfirmedOf(rows, None), cid);
    BurntOwnAndForeign(rows, wallet, cid);
    ForeignAnywhere(rows, wallet, cid);
    MoreBurnt(fills, mine, all, ForeignShares(rows, wallet, cid));
  }

  lemma {:induction false} MoreBurnt(fills: seq<Fill>, mine: seq<int>, all: seq<int>, extra: int)
    requires extra >= 0 && Burnt(all) == Burnt(mine) + extra
    ensures Total(Rebuild(fills, all)) == Max(0, Total(Rebuild(fills, mine)) - extra)
    ensures Rebuild(fills, all) == Rebuild(fills, mine) <==> extra == 0 || Rebuild(fills, mine) == []
  {
    hide Rebuild, Newest, Walk, Bought, Burnt, StableSort;
    var b, w := Bought(StableSort(fills, FillTs)), Walk(StableSort(fills, FillTs));
    RebuildIsNewest(fills, mine);
    RebuildIsNewest(fills, all);
    NewestTotal(b, Max(0, w - Burnt(mine)));
    NewestTotal(b, Max(0, w - Burnt(all)));
    NewestInjective(b, Max(0, w - Burnt(mine)), Max(0, w - Burnt(all)));
  }

  /** Where the wallet's own history explains the reported size exactly, its cost stays
      known if and only if the foreign merges are fewer than the position and within
      tolerance; otherwise the position is left without cost, and so without an exit. */
  lemma {:induction false} ForeignMergesHideCost(fills: seq<Fill>, rows: seq<Row>, wallet: string, cid: string,
                                                 size: int)
    requires size > 0 && Total(Rebuild(fills, MergesFor(rows, Some(wallet), cid))) == size
    ensures var foreign := ForeignShares(rows, wallet, cid);
            (Credible(Total(Rebuild(fills, MergesFor(rows, None, cid))), size)
             <==> foreign < size && 100 * foreign <= Max(100 * SHARE, size))
  {
    hide Rebuild, MergesFor;
    ForeignMergesHarmlessExactly(fills, rows, wallet, cid);
    ForeignAnywhere(rows, wallet, cid);
  }
}
