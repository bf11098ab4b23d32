# Verified model of the market-making engine

This project models the decision logic of the Polymarket reward market maker in Dafny and proves
what that logic guarantees. It covers six parts of the system.

- **The exit and merge protocol** (`MergeEvents`, `MergeProtocol`, `MergeSafety`,
  `MergeWindows`, `EventLife`, `RouterSteps`, `RouterChoices`, `ExitRouter`).
  The event table with its unique index is a class; the router is a class whose fields are the
  volatile state and whose every outside call takes its answer from the inputs. Each effect (a
  reservation, an order, a relayer call, a row update, a new tick, a crash) is an act of a state
  machine. A `fuse` counts the effects left before the process dies, so a run may end after any
  effect; a restart keeps only the table. The router is proved to perform legal acts only, and the
  safety results are proved of every legal run, whatever the exchange and the relayer answer. Where
  safety depends on an id being stored in time, `MergeWindows` gives the exact condition.
- **FIFO inventory** (`Fifo`, `CostBasis`, `MergeAccounting`, `MergeReplay`, `Pnl`, `PnlLedger`). The
  three loops that consume lots are methods over queues, or over heap cells where the source changes
  the caller's lots in place, and are proved against one specification, `Consume`.
- **The monitor's own exit** (`TakeProfit`): tick rounding, the exit tiers and the single resting sell.
- **Order-book quotes** (`ProtectedExit`): the bid walk, the protected sell, the merge route.
- **Order planning** (`Laddering`, `LegacyWall`, `OrderSizing`, `OrderPlanning`, `BuyReconcile`):
  both pricing modes, the shared budget, and the convergence of resting buys.
- **Discovery and fill detection** (`Discovery`, `FillDedup`): the shared filter against the
  per-wallet filter, and the deduplication of fills over unreliable answers.

`Wrappers` and `Sorting` hold an option type and the stable sort the engine uses.

Units: shares are integers in millionths, prices integers in ten-thousandths of a dollar, money
their product, so a comparison with 1e-9 in the source is a comparison with zero here. Reward
ranges, risk coefficients, gap thresholds, rewards, ages and the tick arithmetic of the monitor's
exit are `real`. The ledger uses a unit 10 000 times finer, so that fees in basis points are exact.

Every lemma is marked `{:induction false}`: inductions are written out. Run
`dafny verify dfyconfig.toml` to verify the project.

## Where code and documentation differ

The model follows the code in each case.

- `engine/protected_exit.py:100-101` says the merge route is taken if and only if its gain is
  strictly larger. The code compares level by level and accepts equality: `FeasibleExactly` says
  what it decides on every book, `DecidesAsDocumented` on which books that is the documented
  decision, and `TieIsTaken` and `CheapOnAverageIsRefused` give a book for each way to differ.
- `engine/take_profit.py:113-122` applies merges after all fills. `DeferredMergesHarmlessExactly`
  says for which histories that makes no difference; `DeferredMergesCanDiffer` gives one where it does.
- `engine/merge_accounting.py:42` changes the lots of the caller, and the caller's lots are cached
  for the tick (`engine/monitor.py:203-238`). A second reservation in the same tick is priced from
  already consumed lots, and gets no price at all, hence cost 0, exactly when fewer than twice the
  shares are held (`StaleReservationIsFree`, `ReserveTwice`).
- `engine/merge_accounting.py:46-66` consumes the YES lots even when the NO side turns out short.
- `engine/exit_router.py:613-650` announces a retry after a backoff, but READY events without an
  order id are retried in the next tick (`engine/exit_router.py:515-541`); only order and relayer
  polls honour `_poll_after` (`BackoffHoldsPolledOnly`).
- `engine/monitor.py:240-253` replays the confirmed merges of all wallets of the market, not only
  those of its own wallet. `ForeignMergesHarmlessExactly` says how many shares that takes off the
  rebuilt position and when it changes nothing; `ForeignMergesHideCost` says when the cost is lost.
- `engine/exit_router.py:14-15` and `engine/exit_router.py:449-450` promise that an undecided order is
  never followed by a second FOK, even after a crash. That holds exactly when the order id was stored
  right after a matched or delayed reply (`NeverSentTwiceExactly`, with a run in
  `UnstoredIdAllowsDoubleBuy`); for merge requests it takes the stored transaction id
  (`NeverMergedTwiceExactly`, `UnstoredTxAllowsDoubleMerge`).
- A reply to a FOK that is lost leaves the event active and the position with the monitor
  (`engine/exit_router.py:203-205`, `engine/monitor.py:715-722`), which may then sell what the event is
  about to merge: `RouteQuietly` says exactly when.
- `engine/fills.py:7` promises one handling per trade and order. Over a run that holds if and only if
  no answer reports one of our unseen pairs at two places (`AtMostOnceExactly`).
- "Never sells below cost" (`engine/take_profit.py:16-29`) holds up to 1e-4 of a tick: a price is
  rounded below itself exactly when it is less than that above a multiple of the tick
  (`BelowExactly`, `RestsBelowExactly`, with a price in `RoundsBelow`).
- `engine/merge_accounting.py:20-22` asks callers to treat a shortage of lots as an unknown cost. The
  router books it as zero (`engine/exit_router.py:284-292`, `engine/exit_router.py:462`), and it meets
  one wherever the rebuilt size is below the reported one but within one share or one percent, or the
  cost of the other side is unknown. The profit of the merge is then too large by all that leg is
  worth: `LegBookedExactly` and `PairProfitExactly` say when, `UncoveredLegBooksNothing` gives a case.
- `engine/exit_router.py:463` books the bought side of a FOK merge at nothing and nothing corrects it
  later, so its profit is too large by all that was paid for it (`FokProfitExactly`).
- Placing checks the best bid against the price band, the review checks the order's own price
  (`engine/scanner.py:635`, `engine/monitor.py:1449-1456`): `PlacedOutsideBand` is a book on which an
  order is placed and then cancelled. The thick-wall mode ignores the gap veto that the review
  applies (`engine/legacy_wall.py:323-334`, `engine/monitor.py:1583-1585`): `PlaceThenCancel`.

## Model

| member | source | states |
|---|---|---|
| MergeEvents.EventTable.CreateMergeEvent | models/database.py:892-924 | inserts the row exactly when the market has no active event of the wallet, otherwise refuses and changes nothing; the unique index stays intact |
| MergeEvents.EventTable.GetActiveMergeEvent | models/database.py:926-935 | returns an active event of the wallet and market, or none exactly when there is none |
| MergeEvents.EventTable.ListMergeEvents | models/database.py:969-1002 | the rows of the wallet in a status, newest first, without repetition; a row left out by the limit is older than every row listed |
| MergeEvents.EventTable.UpdateMergeEvent | models/database.py:943-967 | changes exactly the given fields of one row and its update time |
| MergeEvents.EventTable.GetConfirmedMergeEvents | models/database.py:1004-1023 | exactly the confirmed rows, of one wallet or of all, by confirmation time and then id |
| MergeProtocol.RunSafety | engine/exit_router.py:446-721 | over every run: at most one READY or SUBMITTED row per wallet and market; what an event is about never changes |
| MergeProtocol.RunSafetyBetween | models/database.py:892-967 | between any two moments of a run rows only move READY, SUBMITTED, CONFIRMED or to FAILED; terminal rows never change; an order id once set stays and the transaction id changes only when a row leaves READY |
| MergeProtocol.StepRow | engine/exit_router.py:613-721 | one act moves a row along at most one edge of the status diagram |
| MergeProtocol.StepKeepsIndex | models/database.py:213-215 | no act of the protocol breaks the unique index |
| MergeSafety.AtMostOneFok | engine/exit_router.py:446-492 | over every run with crashes anywhere each event sends at most one FOK |
| MergeSafety.FocusOrigin | engine/exit_router.py:446-492 | every reply being acted on belongs to a call in the history, and a reservation being acted on is still untouched |
| MergeSafety.FokOnlyAfterSettledOrAbandoned | engine/exit_router.py:514-583 | whatever the answers, a new FOK for a market leaves only after each earlier one was refused, found dead without its pair, followed by a merge request (which with a stored order id needs that order just read as full, filled or dead), or its event was given up |
| MergeSafety.CleanNeverAbandoned | engine/exit_router.py:474-492 | an event whose FOK was matched or delayed and whose order id was stored next is never given up |
| MergeSafety.NoSecondFokInFlight | engine/exit_router.py:446-583 | after a FOK that was matched or delayed and whose id was stored next, a second FOK for the market leaves only after that order was read as full, filled or dead and, in the same tick, its pair was asked to be merged or its event failed |
| MergeWindows.NeverSentTwiceExactly | engine/exit_router.py:474-583 | right after a FOK that was not refused: in every continuation, with any answers and crashes, its order is read as ended before a second FOK leaves for the market, if and only if the next act stores the order id and the reply was matched or delayed |
| MergeWindows.SecondFok | engine/exit_router.py:474-528 | from every other state a continuation, in which ticks report the position to be completed, sends a second FOK to that market without ever having read the first order |
| MergeWindows.UnstoredIdAllowsDoubleBuy | engine/exit_router.py:474-528 | one such run in full: the process dies between the FOK and the write of its id |
| MergeSafety.ConfirmedOnce | engine/exit_router.py:690-721 | over every run an event is confirmed or failed at most once in all |
| MergeSafety.ConfirmJustified | engine/exit_router.py:652-710 | a confirmation starts from SUBMITTED and follows a relayer answer of the same tick that said done, or said failed or came after the timeout with the pair gone from the reported balances |
| MergeSafety.ProfitCountedOnce | engine/merge_accounting.py:69-80 | over every run the merge profit the ledger reads grows by exactly the profit of each confirmation, once; events in other states add nothing |
| MergeSafety.AcceptedAtMostOnce | engine/exit_router.py:613-650 | if every accepted merge has its transaction id stored next, no event asks the relayer again after an acceptance |
| MergeWindows.NoSecondMergeInFlight | engine/exit_router.py:613-688 | with the transaction id stored next, a second merge request for the market leaves only after the relayer settled the first or stayed silent beyond the timeout |
| MergeWindows.NeverMergedTwiceExactly | engine/exit_router.py:613-688 | right after a merge request for shares of two tokens of a market: in every continuation the first is settled before a second leaves for the market, if and only if the next act stores the transaction id |
| MergeWindows.SecondMerge | engine/exit_router.py:628-644 | from every other state a continuation, in which ticks still report the pair, asks for a second merge in that market without ever having heard of the first |
| MergeWindows.UnstoredTxAllowsDoubleMerge | engine/exit_router.py:628-644 | one such run in full, with both requests accepted |
| RouterChoices.ComplementBeatsEverySale | engine/exit_router.py:405-418 | when the router buys the complement, any fill of the whole position at or below the limit, merged, yields at least the advantage more than any way of selling into the bids that were read |
| ExitRouter.Router.ListActive | engine/exit_router.py:496-507 | each active event of the wallet once, and all of them unless the limit was reached |
| ExitRouter.Router.ReconcileEvents | engine/exit_router.py:496-512 | handles each listed active event once, from the row and the backoff it was listed with; every other row stays as it was |
| ExitRouter.Router.ReconcileEvent | engine/exit_router.py:514-542 | the row afterwards, the calls and writes in their order, and the poll times left are those that status, reported balances, backoff and answers prescribe; nothing else changes |
| RouterSteps.StepMakesRow | engine/exit_router.py:514-721 | for every event and answers, carrying out the prescribed calls and writes one by one makes exactly the prescribed row |
| RouterSteps.BackoffHoldsPolledOnly | engine/exit_router.py:515-541 | a backoff that has not run out holds an active event back if and only if it has an order or a transaction to poll; any other is handled as if there were no backoff |
| RouterSteps.NextPoll | engine/exit_router.py:544-688 | the next poll is 30, 120 or 300 seconds ahead, or none, as the answer prescribes |
| EventLife.SurvivesExactly | engine/exit_router.py:514-688 | an active event survives a visit if and only if its merge is not answered without an id, its pair or order is not found gone, and the relayer does not settle it |
| EventLife.SubmittedStaysExactly | engine/exit_router.py:652-688 | over any number of visits a submitted event stays active, and unchanged, if and only if in none of them the relayer says done or failed, or is silent past the timeout with the pair gone |
| EventLife.SilenceHoldsTheMarket | engine/exit_router.py:219-226 | over every run with crashes anywhere: as long as no answer about a submitted event decides it, the event never changes and nothing is reserved, bought, sold or merged by the router in its market |
| ExitRouter.Router.ReconcileFokOrder | engine/exit_router.py:544-583 | within the backoff does nothing; otherwise sets the next poll 30 seconds ahead, reads the order once, and does with row, relayer and poll time what the answer prescribes |
| ExitRouter.Router.DecideFok | engine/exit_router.py:557-583 | merges when filled, or reported filled with the pair present; gives up only a dead order without its pair |
| ExitRouter.Router.PairBalanceOk | engine/exit_router.py:585-600 | true exactly when both sides of the event are reported with at least its amount of pairs |
| ExitRouter.Router.SubmitMerge | engine/exit_router.py:613-650 | forgets the sells of both sides and no other order, sends exactly one merge, and stores the id with a poll in 30 seconds, or stays ready with one in 120, or fails the event and forgets its poll time |
| ExitRouter.Router.PollMerge | engine/exit_router.py:652-688 | within the backoff does nothing; otherwise asks the relayer once, confirms, fails or waits as state, timeout and balances prescribe, and sets the next poll 30, 120 or 300 seconds ahead |
| ExitRouter.Router.FinalizeConfirmed | engine/exit_router.py:690-710 | writes recovery, profit and time of one confirmation, and only on that row; a second time it does nothing |
| ExitRouter.Router.FailEvent | engine/exit_router.py:712-721 | fails only that row and forgets only its poll time; a second time it does nothing |
| ExitRouter.Router.StartFokMerge | engine/exit_router.py:446-492 | reserves the event before the call, sends one FOK for exactly the position size at a price that pays the floor, and leaves the row the reply prescribes |
| ExitRouter.Router.SettleFok | engine/exit_router.py:476-492 | refusal fails the row, otherwise the id is stored before the state of the fill |
| ExitRouter.Router.PairMergeRoute | engine/exit_router.py:248-282 | reserves the pair with its FIFO cost, then asks for the merge; row, history and poll times are those the reply prescribes |
| ExitRouter.Router.ReserveEvent | engine/exit_router.py:457-470 | appends a READY row exactly when the market has no active event |
| ExitRouter.Router.QuoteExits | engine/exit_router.py:378-422 | the better of the two exits on the sorted books |
| RouterChoices.ExitExactly | engine/exit_router.py:378-442 | each exit in exactly its case, on the raw books: none without bids to sell into; the complement (the first other asset held, else the listed one) if and only if its sorted asks cover the position and the dearest share needed pays the sale plus the advantage; otherwise a sale limited at the last price it needs |
| ExitRouter.Router.RouteCompare | engine/exit_router.py:378-422 | carries out the better exit: buys the complement for the position size within the limit, sells the whole position with the worst planned price as limit, or does nothing without bids |
| ExitRouter.Router.MakerRoute | engine/exit_router.py:296-348 | forgets the old sells of the asset, sends one of the whole position at the quoted price, and manages it exactly when an id came back |
| ExitRouter.Router.RoutePosition | engine/exit_router.py:209-244 | takes the route `RouteExactly` gives; open orders and managed sells afterwards are those of that route; raises exactly when a complement is bought and the reply is lost |
| RouterChoices.RouteExactly | engine/exit_router.py:209-328 | every route in exactly its case: an idle position of known cost merges its pair if both sides hold the least size and the relayer is usable; otherwise its exits are compared if and only if it is at its stop, has no maker wait, or some lot with a purchase time has been held for the whole wait; otherwise it keeps its resting sell, rests one at the best ask, or waits for one |
| RouterChoices.WaitStaysOver | engine/exit_router.py:301-320 | on unchanged figures a position whose exits are compared is compared at every later time |
| ExitRouter.Router.RouteQuietly | engine/exit_router.py:188-207 | the monitor acts on a market with an active event if and only if the inputs choose to buy a complement whose reply is lost, or an earlier event is active and the position is passed over (no size, no market id, or fast exits off) |
| ExitRouter.Router.CancelSells | engine/exit_router.py:353-374 | if a sell of the asset has an id, every order but the sells of the asset stays and its managed sell goes; otherwise nothing changes |
| ExitRouter.Router.ReconcileManagedSells | engine/exit_router.py:771-791 | keeps a managed sell exactly while its order is still open |
| ExitRouter.Router.ReconcilePending | engine/exit_router.py:160-186 | takes over positions and orders of the tick, then reconciles the events |
| ExitRouter.Router.Restart | engine/exit_router.py:55-91 | a crash wipes the volatile part and leaves the table |
| ExitRouter.Router.RunTick | engine/monitor.py:663-690 | unless the process dies, a tick handles the listed events and then routes every position that is not skipped, in turn, each by the route and with the rows, calls and orders of `RouteExactly` and `ExitExactly` |
| ExitRouter.Router.RunAll | engine/exit_router.py:160-246 | any number of ticks with any answers and crashes: the history falls into the ticks, in order, each with at most the effects of its fuse and a restart only after all of them; it is one legal run: the index holds, rows only move forward, and the table is the one the run computes |
| Fifo.ConsumeSplit | engine/merge_accounting.py:16-43 | taking a and then b shares off a queue is taking a + b |
| Fifo.RealizedConserves | engine/pnl.py:108-128 | the profit of a sale is matched proceeds less the fall in inventory value |
| CostBasis.PositionCostWithLots | engine/take_profit.py:67-138 | returns the weighted cost and lots of the rebuilt queue, exactly when there are a size, fills and shares left by them, and those differ from the size by at most one share or one percent, above or below |
| CostBasis.ReplayedInTime | engine/take_profit.py:85-86 | fills are replayed in the order of their times, each once, and those of one time as reported |
| CostBasis.CostKnownExactly | engine/take_profit.py:85-138 | the same condition in counts alone: the walk of buys and sells reflected at zero, less the merges |
| CostBasis.UnseenSalesHideCost | engine/take_profit.py:125-138 | a position whose history explains more shares than are reported keeps a known cost if and only if the excess is within one share or one percent |
| CostBasis.RemainingLots | engine/take_profit.py:85-138 | the lots left are the newest bought shares with at most the first lot trimmed; their total is the walk of buys and sells reflected at zero, less the merges |
| CostBasis.CostBetweenLotPrices | engine/take_profit.py:123-138 | the weighted cost lies between the lowest and highest price of the lots left |
| CostBasis.DeferredMergesHarmlessExactly | engine/take_profit.py:113-122 | for every history: merges after all fills give the queue of the true order of events if and only if two running share counts agree |
| CostBasis.DeferredMergesHarmless | engine/take_profit.py:113-122 | they agree on every history in which no chronological prefix uses more shares than were bought |
| CostBasis.DeferredMergesCanDiffer | engine/take_profit.py:113-122 | a history with a merge before the fill that fed it, where the rebuilt position is too small |
| CostBasis.DeadlineNeverEarlier | engine/exit_router.py:125-132 | a later fill never moves the oldest purchase time, and with it the Maker deadline, earlier |
| CostBasis.DeadlineSurvivesMerge | engine/exit_router.py:301-305 | neither does a further merge |
| CostBasis.OldestIsLeast | engine/exit_router.py:125-132 | the time used is the least positive purchase time among the lots left |
| MergeAccounting.ConsumeFifoCost | engine/merge_accounting.py:16-43 | refuses without touching a lot when too few shares are held; otherwise cuts the caller's lots from the front in place, keeps the non-empty ones, and returns the value taken |
| MergeAccounting.MergeEventPnlFromLots | engine/merge_accounting.py:46-66 | profit is one dollar a pair less both costs and fees; when one side is short the other is consumed all the same; a side stays untouched if and only if it is short |
| MergeAccounting.PairAmount | engine/merge_accounting.py:83-85 | the most pairs that both sides can supply, never negative |
| MergeAccounting.ReserveMatchesRebuild | engine/exit_router.py:284-286 | for every amount: the cost booked from rebuilt lots is what the inventory loses by that merge if and only if the lots cover it or are worth nothing; otherwise nothing is booked and all they are worth is lost |
| MergeAccounting.LegBookedExactly | engine/exit_router.py:260-292 | one leg of an event, from the lots the position is given: all that is lost is booked if and only if the lots are known and cover the amount or nothing is held, otherwise none of it |
| RouterChoices.PairProfitExactly | engine/exit_router.py:260-269 | the profit of a pair merge exceeds one dollar a pair less what both inventories lose by exactly the legs not booked, and is right if and only if both are |
| RouterChoices.FokProfitExactly | engine/exit_router.py:446-464 | the profit of a FOK merge exceeds what it earned by all that was paid for the bought side, and by the held side if that is not booked |
| RouterChoices.UncoveredLegBooksNothing | engine/exit_router.py:248-286 | 99.5 shares bought at 40 cents and reported as 100 have a known cost, are merged as 100 pairs, and are booked at nothing |
| MergeAccounting.ReservationsAdd | engine/exit_router.py:260-286 | reserving q1 and then q2 costs what reserving q1 + q2 costs |
| MergeAccounting.StaleReservationIsFree | engine/exit_router.py:268-286 | a second reservation of the same size from the same lots finds no cost if and only if fewer than twice the shares are held |
| MergeAccounting.ReserveTwice | engine/exit_router.py:260-286 | the same on the heap: what two reservations from the same lots return |
| MergeReplay.MergeEventsFor | engine/monitor.py:240-253 | the amounts of the market's confirmed merges of all wallets, in order of confirmation |
| MergeReplay.ForeignMergesHarmlessExactly | engine/monitor.py:240-253 | for every table and fills: merges of other wallets take their number of shares off the rebuilt position, and change nothing if and only if there are none in the market or the position is empty |
| MergeReplay.ForeignMergesHideCost | engine/take_profit.py:125-138 | a position its own history explains keeps a known cost if and only if the foreign merges are fewer than the position and within one share or one percent |
| Pnl.RealizedPnlByDay | engine/pnl.py:95-142 | each day holds the profit, loss and fees of the sales of that day, and the lots left are those of the replay |
| Pnl.DayHolds | engine/pnl.py:9-20 | a fill belongs to the day that began at most 24 hours before it, eight hours ahead of UTC |
| Pnl.BucketsAddUp | engine/pnl.py:104-106 | the day buckets of a window add up to the postings in it |
| Pnl.LedgerConserves | engine/pnl.py:95-142 | summed over the days, profit less loss is matched sale proceeds minus (total buy cost minus cost of the lots left), and these are the lots of the cost reconstruction |
| PnlLedger.DailyPnl.UpsertDailyPnl | models/database.py:1055-1074 | replaces or adds one day of one wallet and leaves every other row |
| PnlLedger.MergePnlByDay | engine/merge_accounting.py:69-80 | each day holds the sum of the merge profits confirmed on it |
| PnlLedger.RebuildWalletPnl | engine/pnl_ledger.py:27-71 | every day of the range holds income, sales of all assets and confirmed merge profit; nothing outside the wallet and range changes |
| PnlLedger.RebuildIsIdempotent | engine/pnl_ledger.py:53-71 | rebuilding again from the same sources changes nothing |
| PnlLedger.LedgerAddsUp | engine/pnl_ledger.py:27-71 | over a window that covers everything net is income plus trading gain plus each merge profit once, less fees |
| TakeProfit.WholeTick | engine/take_profit.py:16-29 | the rounded number of ticks is the first above the price less dust |
| TakeProfit.CeilToTickIsLeast | engine/take_profit.py:16-29 | the result is the least tick multiple strictly above price minus 1e-4 of a tick |
| TakeProfit.BelowExactly | engine/take_profit.py:16-29 | the result is below the price if and only if the price is less than 1e-4 of a tick above a multiple of the tick |
| TakeProfit.RoundsBelow | engine/take_profit.py:16-29 | a price of 30.00005 cents is rounded to 30 |
| TakeProfit.RoundsAbove | engine/take_profit.py:16-29 | a price of 30.00015 cents is rounded to 31 |
| TakeProfit.EffectiveThetaStop | engine/take_profit.py:182-202 | no threshold exactly when the stop is off, never a negative one |
| TakeProfit.StopInFigures | engine/take_profit.py:182-202 | the threshold is the set number of cents, or the set percentage of the cost, and nothing if that is negative |
| TakeProfit.PlanExitExactly | engine/take_profit.py:230-297 | every exit in exactly its case: with a bid above cost a market exit if and only if market mode is on, with a bid below cost if and only if the loss has reached a stop that is set, at cost only in market mode with a stop of nothing; no exit on an empty book; otherwise it rests at the first tick above cost, or at a higher ask when maker mode is in profit |
| TakeProfit.PlanExitNeverUndercuts | engine/take_profit.py:230-297 | a resting exit is above cost less dust; a market exit needs a bid above cost or the stop reached |
| TakeProfit.RestsBelowExactly | engine/take_profit.py:230-297 | a resting exit is below cost if and only if the cost is that little above a multiple of the tick and the exit does not rest at an ask that clears the cost |
| TakeProfit.KeepIffCovered | engine/take_profit.py:45-64 | resting sells are kept if and only if there is one, less than half a tick off the wanted price, and what is left of it is within one share or one percent of the size |
| TakeProfit.KeptOnGridIsExact | engine/take_profit.py:36-37 | a kept sell whose price is on the tick grid is exactly at the wanted price |
| TakeProfit.ExitPosition | engine/monitor.py:689-853 | sells at market if and only if `PlanExitExactly` says so and the order goes through; any new sell is for the whole size at the price prescribed there, below cost exactly in the case of `RestsBelowExactly`; a covering sell stays untouched, and successful calls leave exactly one |
| TakeProfit.RestAt | engine/monitor.py:811-853 | leaves a covering sell alone, otherwise cancels all sells and places one, as far as the calls succeed |
| TakeProfit.UnchangedTicks | engine/monitor.py:816-831 | over any number of ticks with the same quotes: from the first tick that leaves a covering sell on, every tick leaves exactly that sell, whatever the exchange would answer |
| ProtectedExit.BidWalk | engine/protected_exit.py:19-46 | takes what an exchange would fill; executable is the smaller of size and tradable depth; worst is the last price taken |
| ProtectedExit.BidWalkOptimal | engine/protected_exit.py:19-46 | on descending bids no other allocation of the same quantity recovers more |
| ProtectedExit.WalkRecoversMost | engine/protected_exit.py:49-66 | no allocation of at most the wanted size recovers more |
| ProtectedExit.ProtectedFakPlan | engine/protected_exit.py:49-66 | a plan exists exactly for a positive size and some depth, and is full exactly when the depth suffices |
| ProtectedExit.FakFillsThePlan | engine/protected_exit.py:49-66 | a FAK at the worst price against the same book fills exactly the planned levels |
| ProtectedExit.MakerSellPrice | engine/protected_exit.py:69-81 | the first ask between 0 and 1, else the best bid, else none |
| ProtectedExit.MakerSellPriceExactly | engine/protected_exit.py:69-81 | the price at every position of the first ask strictly between 0 and 1, and without one the best bid if that is a price |
| ProtectedExit.QuoteMergeRoute | engine/protected_exit.py:89-150 | refuses for depth exactly when the asks that are cheap enough hold less than the size |
| ProtectedExit.FeasibleFillPays | engine/protected_exit.py:111-150 | any later fill of exactly the size at or below the limit yields at least the direct recovery plus the advantage |
| ProtectedExit.LimitCoversTheQuote | engine/protected_exit.py:122-150 | on ascending asks no quoted level is above the limit, so the quote itself can fill |
| ProtectedExit.FeasibleExactly | engine/protected_exit.py:111-150 | on every ascending book the merge route is quoted if and only if the book covers an order of at least the minimum and the dearest share needed still pays the direct recovery plus the advantage |
| ProtectedExit.StrictExactly | engine/protected_exit.py:111-150 | for a quoted route the gain is strictly larger if and only if the cheapest share taken is strictly within the bound |
| ProtectedExit.DecidesAsDocumented | engine/protected_exit.py:98-103 | the code decides as documented if and only if, with the dearest share within the bound, the cheapest is strictly within it, and, with the dearest beyond it, the average does not gain either |
| ProtectedExit.TieIsTaken | engine/protected_exit.py:89-150 | a quote with exactly the required gain is feasible |
| ProtectedExit.CheapOnAverageIsRefused | engine/protected_exit.py:89-150 | a book whose average cost would satisfy the documented condition is refused |
| Laddering.AmountValueIsTightest | engine/laddering.py:10-28 | the value belongs to the lowest bound that covers the price, and is missing exactly when none does |
| Laddering.CoeffExactly | engine/laddering.py:154-160 | the coefficient is the shares over the smallest order times the value of the tightest bound, and zero without one |
| Laddering.SortedLevelsDescend | engine/laddering.py:52-58 | the sorted book descends and has the same levels |
| Laddering.MaxGapAndSplit | engine/laddering.py:61-76 | the widest gap of the book and the first level above it |
| Laddering.MaxGap | engine/laddering.py:79-85 | the widest gap of the sorted book |
| Laddering.ExplainGapSingleOrder | engine/laddering.py:88-213 | places on the topmost in-range level above the threshold of the rule its widest gap selects, and gives the first reason that applies otherwise |
| Laddering.DecisionUnique | engine/laddering.py:88-213 | book and settings determine the decision |
| Laddering.PlacedOnBid | engine/laddering.py:184-213 | a placed order is on a bid inside the reward range |
| Laddering.ReviewRestingBuy | engine/monitor.py:1449-1649 | the first of price band, reward range, cliff and gap veto that a resting buy fails |
| Laddering.PlacedOrderSurvives | engine/laddering.py:152-209 | reviewed on the book it was placed on, an order is kept if and only if its own price is in the price band |
| Laddering.PlacedOutsideBand | engine/scanner.py:635 | a book with its best bid in the band whose order is placed outside it and cancelled |
| LegacyWall.DetermineOrderPrice | engine/legacy_wall.py:9-43 | the price one level below the first qualifying level in sight, if that level may carry an order |
| LegacyWall.Cumulative | engine/legacy_wall.py:46-63 | the same for the running total on fine ticks |
| LegacyWall.Spread2Coarse | engine/legacy_wall.py:66-80 | the same when only the best bid is looked at |
| LegacyWall.SpreadGe3Coarse | engine/legacy_wall.py:83-111 | the same within the spread below the best bid, never looking past the first wall |
| LegacyWall.MarkLevels | engine/legacy_wall.py:159-164 | each level with the whole shares down to it |
| LegacyWall.FindHit | engine/legacy_wall.py:192-219 | the recorded level is the first qualifying level in sight |
| LegacyWall.ExplainLegacyOrder | engine/legacy_wall.py:120-266 | the first reason that applies, with the recorded level and the price and shares placed |
| LegacyWall.ExplanationRefinesPricer | engine/legacy_wall.py:173-251 | on all three rules the record and the pricer agree: a placed price is one level below the recorded level, and a record without a level means the pricer had no price |
| LegacyWall.PlacedBehindWall | engine/legacy_wall.py:83-111 | a placed order is on a bid in the reward range, directly behind the wall, within the spread of the best bid and large enough |
| LegacyWall.PlacedOrderSurvives | engine/monitor.py:1449-1649 | such an order is kept if and only if its price is in the band and the widest gap is not vetoed |
| LegacyWall.PlaceThenCancel | engine/legacy_wall.py:323-334 | a book on which the same settings place an order and cancel it for the gap |
| OrderSizing.SpendingModesFillTheBudget | engine/order_sizing.py:8-35 | the two spending modes buy as many shares as the balance, in custom mode at most the custom amount, pays for, and none if and only if that does not pay for the smallest order; the third mode asks for exactly that order |
| OrderPlanning.ComputeMarketSingleOrders | engine/laddering.py:337-398 | side a is cut to the budget and side b to what a left, each from the gap-tier decision of its own book |
| OrderPlanning.ComputeMarketLegacyOrders | engine/legacy_wall.py:323-374 | the same from the thick-wall decisions |
| OrderPlanning.FitsMost | engine/laddering.py:388-394 | a side gets the most shares wanted, affordable and allowed, and goes without if and only if its smallest order is not |
| OrderPlanning.WithinBudget | engine/laddering.py:337-398 | both sides together cost at most the budget and hold at most the share cap |
| OrderPlanning.LargestOrders | engine/laddering.py:337-398 | both sides out of one budget: the first gets the largest order it wants, the second the largest that is left for it, and a side goes without exactly when its smallest order is not allowed |
| OrderPlanning.GapWantsQualify | engine/laddering.py:216-254 | what a side may place in gap-tier mode is on one of its bids in its reward range and large enough |
| OrderPlanning.WallWantsQualify | engine/legacy_wall.py:323-374 | the same in thick-wall mode |
| OrderPlanning.PlanLadders | engine/manager.py:463-513 | in either mode side a gets the largest order its pricing wants that budget and cap allow, side b the largest that what a leaves allows; each is a qualified order of its side |
| OrderPlanning.PlaceMarket | engine/manager.py:457-565 | with money left under balance and exposure limit and whole shares under the share limit, the sides without holdings get those largest orders and their buys converge on them; otherwise nothing is targeted or touched; a held side gets no target and loses its buys |
| OrderPlanning.StepSettles | engine/manager.py:535-565 | carrying out a side's step leaves it settled on its target, empty when held, untouched when out of budget |
| OrderPlanning.ExposureAfterRound | engine/manager.py:457-565 | once settled, holdings plus everything resting stay within the exposure limit up to the size tolerance; with nothing targeted nothing rests |
| BuyReconcile.ReconcileBuyOrders | engine/laddering.py:401-439 | cancels exactly the identified orders that are not the first fitting one at a target price, and places exactly the targets no order holds |
| BuyReconcile.FitsExactly | engine/laddering.py:401-439 | an order fits if and only if its price is a target price and what is left of it differs from the target by at most one share or the given part of it |
| BuyReconcile.ReconcileSettles | engine/laddering.py:401-439 | carrying out both lists leaves exactly one order per target price, within tolerance on the remaining size, and nothing else |
| BuyReconcile.QuietIffSettled | engine/laddering.py:401-439 | both lists are empty if and only if the orders are settled |
| Discovery.IncludedUnion | engine/categories.py:12-16 | the categories some template includes |
| Discovery.LoosestNewMarketHours | engine/scanner.py:163-187 | the least protection time if all templates shield the market, else zero |
| Discovery.LoosestDrops | engine/scanner.py:305-309 | a market is too new for the shared pass if and only if it is too new for every template |
| Discovery.UnionWants | engine/scanner.py:301-302 | the union accepts a market if and only if some template does |
| Discovery.DiscoverCandidates | engine/scanner.py:259-310 | keeps exactly the markets outside the blacklist that the templates do not all reject on one count; a reward is fetched if and only if some template accepts the size or none restricts it, and some template accepts the days left where they are known |
| Discovery.PrefilterForTemplate | engine/scanner.py:521-577 | the markets that pass all conditions of the template, in pool order |
| Discovery.PassesInFigures | engine/scanner.py:521-577 | a market passes if and only if each condition holds in the reported figures: category, both rewards, days left, age, cooldown, size and a price in the band |
| Discovery.SharedDropIsSafe | engine/scanner.py:292-310 | a market the shared pass drops would be dropped at that time by every template's filter, whatever its precise reward and cooldowns |
| Discovery.SharedPassIsCoarse | engine/scanner.py:292-310 | the converse fails: a market kept although both templates reject it for different reasons |
| Discovery.SurvivorsArePriced | engine/scanner.py:278-290 | a market some template lets through always has its own reward fetched |
| Discovery.NothingEligibleIsLost | engine/scanner.py:196-310 | the two together, also after templates are collapsed |
| Discovery.PartialTagsSameVerdict | engine/scanner.py:206-211 | looking up only the categories the templates name changes no template's verdict |
| Discovery.ActiveTemplates | engine/manager.py:1060-1092 | keeps exactly one template per key |
| Discovery.CollapsingIsInvisible | engine/manager.py:1073-1089 | templates with equal keys may be collapsed without changing what is dropped or priced |
| FillDedup.SelectNewBuyFills | engine/fills.py:11-45 | our unseen buys of all trades, sorted by time, ties in order of arrival |
| FillDedup.NewFillsExactly | engine/fills.py:11-45 | the result holds exactly the buys the answer mentions for us whose key was not seen, oldest first, those of one moment in order of arrival |
| FillDedup.NewFillsInFields | engine/fills.py:11-45 | an event is handled if and only if some trade names a maker order of ours that bought, under an unseen pair of trade and order, and it carries that pair, the market and time of the trade and the size of the order |
| FillDedup.ExtractFills | engine/fills.py:48-98 | the fills of one token, trade by trade |
| FillDedup.OneSideOnly | engine/fills.py:48-98 | of a trade with a maker order of ours each of our maker legs on the token counts exactly once, in order, and never the taker leg; of any other trade only our taker leg counts; each fill has side, price, size and rate of its leg, and time and id of the trade |
| FillDedup.OrderMonitor.InitWatermark | engine/monitor.py:149-179 | watermark from the latest stored time, then one attempt at priming; a failure leaves priming pending |
| FillDedup.OrderMonitor.PrimeSeenKeys | engine/monitor.py:181-197 | on an answer all its fills count as seen and priming is done, otherwise nothing changes |
| FillDedup.OrderMonitor.CheckBuyOrders | engine/monitor.py:256-344 | one tick as the state machine prescribes, with the cooldowns set and the rests cancelled |
| FillDedup.EffectsOfFills | engine/monitor.py:302-344 | a market cools down if and only if a fill of positive size in it was handled; only orders still open and so hit are cancelled |
| FillDedup.RunGrows | engine/monitor.py:256-300 | over every run nothing seen is forgotten, the watermark never goes back and priming stays done |
| FillDedup.NeverHandledTwice | engine/monitor.py:256-300 | whatever the server answers, a trade and order handled in one tick is never handled in a later one |
| FillDedup.PrimedNeverHandled | engine/monitor.py:181-197 | what a successful priming mentioned is not handled in that tick or any later one |
| FillDedup.HistoryNeverHandled | engine/monitor.py:149-197 | the same for the priming at the start |
| FillDedup.NothingBeforePriming | engine/monitor.py:259-260 | until a priming succeeds nothing is handled |
| FillDedup.MentionedIsHandled | engine/monitor.py:271-300 | no fill an answer mentions is lost: it is handled now or was handled or primed before |
| FillDedup.OnceUnlessRepeated | engine/fills.py:11-45 | within one answer no key is handled twice if and only if no unseen pair of trade and order of ours stands at two places of it |
| FillDedup.AtMostOnceExactly | engine/monitor.py:256-300 | over every run no fill is handled twice if and only if no answer repeats an unseen pair of ours |
| FillDedup.RepeatInOneAnswer | engine/fills.py:11-45 | a trade repeated within one answer is handled twice |

## Left out

- HTTP, proxies, retries, the CLOB and relayer clients, ABI encoding, key encryption, web routes, JavaScript and schema migration; their answers are inputs.
- Reason texts, price-basis texts, status snapshots, action records, logging and the catalogue counts.
- Thread interleavings and scan generations: one thread drives a wallet's router and monitor.
- Database errors other than the unique index; rows of other wallets do not change during a run of the router.
- The clock within a tick is one constant; MergeEvents.EventTable.ListMergeEvents takes creation order for id order and models the first page only.
- The router reads lots per position as values; the in-place change of cached lots is modelled in `MergeAccounting` and not carried into `ExitRouter`.
- Cancels of the router act on its local list; whether the exchange refuses one has no effect there, as in the source.
- Order status strings are reduced to whether they say filled and whether they say dead.
- ExitRouter.Router.RoutePosition: routes a position reported in the same tick, as the monitor calls it (`engine/monitor.py:667-680`).
- ExitRouter.Router.RunAll: ticks are the router's share of a tick; sells and cancels of the monitor are not part of the protocol history.
- MergeSafety.AcceptedAtMostOnce: needs the transaction id stored right after acceptance; `MergeWindows.NeverMergedTwiceExactly` shows that this is exact.
- MergeSafety.NoSecondFokInFlight: needs a matched or delayed reply with the order id stored next; `MergeWindows.NeverSentTwiceExactly` shows that this is exact.
- ExitRouter.Router.FinalizeConfirmed: on a row not yet confirmed it asks of its caller what its call sites ensure, a submitted row with the evidence at hand.
- ExitRouter.Router.FailEvent: on a row not yet failed it asks of its caller one of the causes its call sites have.
- Pnl.LedgerConserves: states conservation for assets without merges, because the daily PnL loop takes no merge events.
- `reward_rebate_by_day`, `our_traded_assets`, weekly windows and date strings: filters and sums that would add easy members; days are integers.
- IEEE rounding and the rounding to 4 or 6 decimals that removes float dust: prices are integers on the 1e-4 grid and gaps are exact.
- TakeProfit.ExitPosition: does not model low-balance liquidation, resolution dumps and compliance checks other than the four that `Laddering.ReviewRestingBuy` states.
- OrderPlanning.PlaceMarket: plans one market from one balance reading; the market loop with its concurrency limit, dropout cancels, order limit and failing calls is not modelled.
- OrderPlanning.ComputeMarketSingleOrders: the two-element loop over the sides is written as two calls, with the budget spent by the first carried to the second.
- Discovery.DiscoverCandidates: a failed category query, paging and cancellation of a scan are not modelled; the reward fetched per market is an input.
- FillDedup.OrderMonitor.CheckBuyOrders: a cancel of an order either goes through or not for the whole tick; addresses and sides arrive in normalised case.
- The book part of the filter (`book_eligible`), spreads and tier settings beyond their sizes.
