# Prodigy: a verified model of the execution, reconciliation and research core

Prodigy runs a signal daemon (Python) that writes trade intents into SQLite and an
executor (Rust) that carries them out on a futures exchange, reconciles its tables
with the exchange, and takes operator commands. This project models the parts whose
correctness depends on state that changes step by step, and proves what they keep
over every run. Quantities the program holds as 64-bit floats are real numbers here.

To verify everything, run `dafny verify dfyconfig.toml` in this directory.

## The modules

**Executing one intent.** `ExchangeModel` is an adversary: live orders fill in any
portions, vanish at any time, cancels lose races, placements are refused or taken on
with the acknowledgement lost, reads fail. It keeps only that a fill never shrinks,
never exceeds its order and freezes once the order is terminal, and that a client
order id is accepted once. `Execution` is the maker/cancel/taker state machine,
`Driver.IntentRun` the driver loop with its own variables (`liveClientOid`,
`liveOrderSize`, `cumulativeFilledBase`), and `Journal` an independent history of
what the exchange accepted. The driver's invariant ties the three views together:
whenever an order is placed no earlier order of the intent can still trade, and the
counted base is exactly what the earlier orders filled. The exchange also keeps a log of
every request with its answer, and whatever way a run ends is justified by that log: an
intent is failed for an unconfirmed cancel, say, only if no answer of the whole window
showed the order done or gone. `Sizing` turns that history
into bounds on total base and notional, `Risk` connects the approved notional to the
account's cap and shows approvals to be the most that fits, `ClientOid` shows client order ids name intent, mode and attempt
uniquely, and `ExecutorLoop` carries everything over any number of ticks, crashes
and restarts.

**Reconciliation.** `Ledger` holds the order and fill tables with the statements that
merge fills and order detail. `Reconcile` is one pass as a function, `ReconcileLoop`
the loops that update rows by key, proved to compute that function.

**Shared tables.** `ActiveLock` (the executor lock with stale takeover), `CloseAll`
(confirmation codes) and `SignalDaemon` (competing daemons) are histories over any
interleaving of any number of actors. Each has a class whose methods are the
transactions, proved to do what the step function says.

**Research.** `LotBook` reads a signal stream without knowing its producer;
`ScoreBook` is the score-to-signal loop, `Simulator` the bar simulator,
`SimulatorRuns` and `LotLifetimes` what its runs keep, `SimulatedPnl` what a
trade row earns and at which prices the exit rules act, and `SimulatedCap` the relation
between the two books. `Backfill` is the paging loop with its checkpoint, `Splits`
the purged walk-forward folds.

## Where code and comments disagree

The model follows the code.

- `crates/executor/src/executor.rs:1400-1403` says maker and taker sum to exactly the
  target base. Open orders are sized by remaining notional at a refreshed price, so
  they do not: `Sizing.SumsToTargetIffPriceSame` says exactly when they pass it, when
  they stop short of it, and when they sum to it.
- `crates/executor/src/executor.rs:103-105` and `:286-289` say a stuck `accepted`
  intent is never taken up again. `pending_intents` and `accept_intent` both match
  `pending` and `accepted` (`crates/executor/src/db.rs:6-35`), so it is; what keeps a
  re-run from placing another order is the stable client order id.
- A zero-size position row of our symbol counts as an imported position, while the
  clearing rule counts its size: the override is then raised and lifted on every other
  pass, and the tables come to rest exactly when no row is listed
  (`Reconcile.SettlesExactlyWhenNoRowListed`).
- A fill row that holds a listed trade's id without naming the trade, as a row from before
  trade ids were stored can, hides that trade for good and keeps reviving its order
  (`Reconcile.RecordsEveryTradeExactlyWhenIdsFree`, `Reconcile.OccupiedFillIdKeepsFlapping`).
- `crates/executor/src/reconcile.rs:162-166` names a drift of a held position by its sign.
  For shorts that is the wrong way round: a short that was reduced is reported as added to
  (`Reconcile.DriftNamedRightlyExactlyForLongs`). The override is raised either way.
- `src/prodigy/ml/splits.py:61-66` asks for a gap larger than the label horizon and
  then makes the gap exclusive; a gap equal to the horizon is enough
  (`Splits.LabelsStayBeforeExactlyWithinTheGap`).
- `src/prodigy/ml/example_trainer.py:126-132` counts the label cutoff in time, not in
  rows. With a gap in the data a label does reach the holdout (`Splits.AGapLeaks`).

## Model

| member | source | states |
|---|---|---|
| ClientOid.DecimalInjective | crates/executor/src/executor.rs:1046-1052 | two attempt numbers with the same decimal text are the same number |
| ClientOid.StableClientOidInjective | crates/executor/src/executor.rs:1046-1052 | a client order id determines intent id, mode and attempt, for all intent ids including ones that contain dashes |
| ClientOid.OfOneIntent | crates/executor/src/executor.rs:1046-1052 | no client order id belongs to two intents |
| Sizing.RoundDownBounds | crates/executor/src/executor.rs:1274-1289 | rounding down to lots gives a whole number of lots, less than one lot below the value and at most 1e-9 lots above it |
| Sizing.WholeLotsSurvive | crates/executor/src/executor.rs:1274-1289 | a size that is already whole lots is not rounded down to one lot less |
| Sizing.MakersRestTakersCross | crates/executor/src/executor.rs:962-972 | every order is priced at a quote of the market; a maker never reaches the opposite quote and a taker always does, on either side |
| Sizing.DustExactly | crates/executor/src/executor.rs:989-999 | nothing more is ordered if and only if something has filled and less than the smallest order is missing |
| Sizing.CloseNeverOverfills | crates/executor/src/executor.rs:1529-1546 | all orders of a close together fill at most the position plus one rounding slack of 1e-9 lots, however many attempts |
| Sizing.OpenBaseBound | crates/executor/src/executor.rs:1547-1558 | if no attempt was priced below lo, an open fills at most approved/lo of base plus one slack |
| Sizing.OpenNotionalBound | crates/executor/src/executor.rs:1804-1815 | if no attempt was priced above hi, the notional filled at the attempts' prices is at most target times hi plus one slack |
| Sizing.SumsToTargetIffPriceSame | crates/executor/src/executor.rs:1400-1403 | over all executions of an open with a maker at the target's price and a last order at a refreshed one: none passes the target iff the price has not dropped, none that filled whole stops a lot short iff it has not risen, so the orders sum to the target, to the lot, iff the price is the same |
| Sizing.DroppedPricePasses | crates/executor/src/executor.rs:1547-1558 | for every dropped price there are a target and an execution that passes it |
| Sizing.RisenPriceStopsShort | crates/executor/src/executor.rs:1547-1558 | for every risen price there are a target and an execution that stops a lot short though its last order filled whole |
| Sizing.FullLastLegReachesTarget | crates/executor/src/executor.rs:1529-1546 | a close whose last order filled whole is within one lot of its position |
| Risk.ApprovedOpenFitsCap | crates/executor/src/risk.rs:36-90 | an approved opening is positive, within the intent's limits, and fits equity times the cap on top of present gross notional; margin, freshness and readiness held |
| Risk.OpensUnlessItReduces | crates/executor/src/executor.rs:897-899 | the opening gates apply to every action but reduce and close |
| Risk.OpeningGetsTheMostThatFits | crates/executor/src/risk.rs:36-90 | an opening passes if and only if no gate fails and some positive amount fits intent, order limit and cap, and it is approved for the greatest such amount |
| Risk.DeRiskingGetsWhatItAsks | crates/executor/src/risk.rs:36-90 | closing and reducing are approved for all they ask within the order limit, whatever the cap, and never for less than nothing |
| Risk.DeRiskingPassesUnlessBust | crates/executor/src/risk.rs:36-90 | closing and reducing pass the gate if and only if equity is positive |
| Execution.IntentExecution.OnOrderPlaced | crates/executor/src/state.rs:60-63 | the whole new machine state after a placement |
| Execution.IntentExecution.OnTakerSent | crates/executor/src/state.rs:65-68 | the whole new machine state after the taker went out |
| Execution.IntentExecution.OnOrderTimeout | crates/executor/src/state.rs:74-76 | the whole new machine state after a timeout |
| Execution.IntentExecution.OnOrderCancelled | crates/executor/src/state.rs:83-87 | a cancelled maker frees the slot and consumes one attempt |
| Execution.IntentExecution.OnOrderFilled | crates/executor/src/state.rs:89-93 | the whole new machine state after a fill |
| Execution.RunInvariant | crates/executor/src/state.rs:39-93 | on every run the flags fit together and the commands issued are at most 2N+1 before the closing one, N being the maker attempts allowed |
| Execution.NeverWaitsNeverCancelsNothing | crates/executor/src/executor.rs:1464-1929 | the Wait command and a cancel without a live order are unreachable |
| Execution.CapNeverHitIff | crates/executor/src/executor.rs:1461-1470 | a cap on issued commands cuts no run short if and only if it is at least 2N+2, for every N; 12 suffices for N=2 |
| Execution.PlacementsAreDistinct | crates/executor/src/state.rs:39-58 | each maker attempt is asked for at most once and in order, the taker at most once and last |
| Execution.TakerAfterEveryMaker | crates/executor/src/state.rs:39-58 | on every run the taker is asked for only after each of the N maker attempts was |
| ExchangeModel.Exchange.PlaceOrder | crates/executor/src/executor.rs:1568-1602 | an acknowledged placement had a new id; an unacknowledged one may or may not have been taken on |
| ExchangeModel.Exchange.GetOrderDetail | crates/executor/src/executor.rs:1129-1146 | a read is truthful about its moment, or fails |
| Journal.AtMostOneOrderPerAttempt | crates/executor/src/executor.rs:1559-1602 | an intent has at most N+1 orders on the exchange |
| Journal.RetiredFillsFreeze | crates/executor/src/executor.rs:1657-1741 | orders confirmed gone keep their fills whatever the exchange does next |
| Journal.ConsistentPersists | crates/executor/src/executor.rs:1464-1929 | the history stays true as the exchange moves on |
| Journal.ConsistentExtends | crates/executor/src/executor.rs:1472-1602 | a new order placed with all earlier ones gone and counted, and sized from what is left, extends the history |
| Driver.PollMeans | crates/executor/src/executor.rs:1090-1146 | an answer is taken for filled, gone or live exactly when it says so; a failed read counts as live |
| Driver.LiveExactlyWhenWorking | crates/executor/src/executor.rs:1090-1102 | a truthful read is taken for live if and only if the order can still trade, for every order but a listed one of no size |
| Driver.BuysExactly | crates/executor/src/executor.rs:942-953 | an order buys if and only if it opens a long or closes a short |
| Driver.IntentRun.Place | crates/executor/src/executor.rs:1568-1602 | a placement is made only when no order of the intent can trade and the counted base is exactly what earlier orders filled, priced off the market and let through by the gate on the account it goes by; it extends the history by just that order or not at all |
| Driver.IntentRun.Submit | crates/executor/src/executor.rs:1559-1612 | recording, placing and acknowledging one attempt; going on means the order is on the exchange, has its local row and is the only uncounted one; a refused one leaves a rejected row and failed the intent because the price was not positive or the exchange refused it |
| Driver.IntentRun.Recheck | crates/executor/src/executor.rs:1480-1515 | before a retry and before the taker: goes on exactly on prices and an account just answered that pass the risk gate, and otherwise ends for the request or check that failed |
| Driver.IntentRun.Retire | crates/executor/src/executor.rs:1657-1741 | counting a terminal order's fill once makes counted base and local rows agree with the exchange for all orders |
| Driver.IntentRun.PlaceMaker | crates/executor/src/executor.rs:1472-1656 | a maker attempt keeps the agreement of machine, loop variables, rows and exchange, takes the step the machine allows, rests every retry on a fresh market and account, and ends the run only for a reason in the log |
| Driver.IntentRun.AwaitMaker | crates/executor/src/executor.rs:1603-1655 | polling ends in a fill counted once, on the answer that said filled, or in a requested cancel, when no answer did, under every sequence of answers and partial fills |
| Driver.IntentRun.CancelCurrent | crates/executor/src/executor.rs:1657-1741 | after a cancel was sent the run goes on exactly on the first answer that shows the order done or gone, with its fill counted once, also when the fill won the race; it fails the intent only if no answer of the whole window did |
| Driver.IntentRun.CountCancelled | crates/executor/src/executor.rs:1704-1741 | a gone maker's fill is counted once; a whole fill ends the execution, anything less frees the next attempt |
| Driver.IntentRun.Watch | crates/executor/src/executor.rs:1603-1712 | polling stops at the first answer that shows the order done or gone, which then describes it truly and finally; a live verdict means every answer of the window was unreadable or showed it able to trade |
| Driver.IntentRun.PlaceTaker | crates/executor/src/executor.rs:1742-1918 | the taker is re-checked, sized from what is left and placed only with nothing else working |
| Driver.IntentRun.AwaitTaker | crates/executor/src/executor.rs:1849-1918 | a counted fill of a retired taker completes the intent, partly filled and vanished included; it is failed only for a vanished taker without a fill or a whole window in which it was never seen done or gone |
| Driver.IntentRun.Issue | crates/executor/src/executor.rs:1471-1929 | each command keeps the invariant and takes an allowed step, leaves other intents' rows alone, and records how it ended |
| Driver.IntentRun.Drive | crates/executor/src/executor.rs:1464-1929 | the loop ends within 2N+2 commands; done means all orders retired, counted and recorded, the intent executed, and either only dust left or the last order filled, called filled, or a vanished taker; any other ending is justified by what the exchange answered, and every order was priced and risk-checked on answers just given (the first on those of its approval) |
| Driver.IntentRun.SurvivesDrift | crates/executor/src/executor.rs:1464-1929 | time passing on the exchange disturbs none of the agreement |
| ExecutorLoop.Executor.Admit | crates/executor/src/executor.rs:1309-1375 | an intent is taken up if and only if it is waiting and no gate refuses it: the stop and the override refuse openings alone; a refusal names a gate that holds |
| ExecutorLoop.Executor.ProcessOneIntent | crates/executor/src/executor.rs:1300-1931 | an intent is carried out if and only if it is waiting, no gate holds, and there is a position to close or a price to size an open by; its ending is then justified by the exchange's answers, and otherwise nothing is asked of the exchange and the reason given holds; an intent whose orders are known from an earlier run gets no new order; a new history was decided on just the intent, account, market and position given; done means rows and exchange agree |
| ExecutorLoop.Executor.Execute | crates/executor/src/executor.rs:1457-1931 | one run adds at most one history per intent and keeps every other intent's |
| ExecutorLoop.Executor.WorkOn | crates/executor/src/executor.rs:140-323 | one waiting intent: the stop fails an opening, missing market data, account, audit row or ticker leave it untouched, otherwise it is resolved unless the process crashes, and carried out if and only if nothing gates it and there is something to size; in margin danger everything is wound down first; no other intent gets an order |
| ExecutorLoop.Executor.HandleMarginDanger | crates/executor/src/executor.rs:481-638 | a cancel goes out for every working order and a sell-down of its rounded base for every holding above dust, unless a write fails on the way; no order of any intent is added |
| ExecutorLoop.BaseBoughtTheNotional | crates/executor/src/executor.rs:526-532 | the base sold is what the notional bought at the entry price; a row without one counts for nothing |
| ExecutorLoop.Executor.ProcessPendingIntentsOnce | crates/executor/src/executor.rs:140-323 | without a crash every waiting intent the pass could work on is resolved; one it could not work on keeps its status and gets no order; an executed or failed intent is never taken up again; all histories are kept |
| ExecutorLoop.Executor.RunForever | crates/executor/src/executor.rs:140-323 | the same over any number of ticks, arrivals and crashes |
| ExecutorLoop.Executor.AtMostOneOrderPerAttemptEver | crates/executor/src/executor.rs:1046-1052 | over all crashes and restarts the exchange accepts at most N+1 orders for one intent |
| ExecutorLoop.CloseGuarantee | crates/executor/src/executor.rs:1529-1546 | a close, over all its runs and whatever the exchange does later, fills at most the position it was decided on plus one slack |
| ExecutorLoop.DoneCloseReachesTheTarget | crates/executor/src/executor.rs:1525-1546 | a done close is within one lot of its position, unless its last order was called filled, or as a taker vanished, short of its size |
| ExecutorLoop.OpenGuarantee | crates/executor/src/executor.rs:1547-1558 | an open stays within approved/lo of base, and, if priced nowhere above its reference, keeps entry gross notional plus fills within equity times the cap plus one slack |
| Store.Database.AcceptIntent | crates/executor/src/db.rs:27-35 | accepting succeeds exactly on a pending or accepted row and touches no other |
| Store.Database.SetIntentStatus | crates/executor/src/db.rs:37-55 | a status write changes that row alone |
| Ledger.RepairKeepsRows | crates/executor/src/reconcile.rs:497-514 | repairing fills neither adds nor removes order rows nor changes their identity, and only appends fills |
| Ledger.PageRecordsUntraded | crates/executor/src/reconcile.rs:239-298 | after a page every fill of our orders listed without a trade id is recorded under its own id, and only real fills of our orders were added |
| Ledger.UntradedFillsDiffer | crates/executor/src/reconcile.rs:278-282 | fills of one order without trade ids are told apart by their times |
| Ledger.NetIsBoughtLessSold | crates/executor/src/db.rs:405-414 | the system net base is what the counted buys filled less what the counted sells filled |
| Ledger.SumIsPart | crates/executor/src/db.rs:502-539 | an order's recorded fills sum to exactly the trades they name, each once |
| Ledger.SumAtMostCum | crates/executor/src/db.rs:502-539 | that sum never exceeds what the exchange filled, and equals it when every trade is recorded |
| Ledger.InsertTruthful | crates/executor/src/db.rs:602-623 | recording a trade keeps one row per trade id |
| Ledger.RepairOneKeepsLedger | crates/executor/src/reconcile.rs:239-298 | one repaired trade never lowers filled size, never takes it past the exchange, never counts twice |
| Ledger.PageKeepsLedger | crates/executor/src/reconcile.rs:497-514 | the same for a whole page, whatever its order, repetition and gaps |
| Ledger.ObserveKeepsLedger | crates/executor/src/db.rs:454-539 | the same for any mix of pages and order detail; a detail makes the row exact |
| Ledger.NewTradeCompletesTheRow | crates/executor/src/db.rs:502-539 | a page that brings a new trade and leaves none of the order's trades unrecorded makes filled size the exact total |
| Ledger.HistoryKeepsLedger | crates/executor/src/reconcile.rs:497-514 | over any history of truthful observations in time order filled size only grows and never passes the exchange's cumulative fill |
| Ledger.HistorySettlesStatus | crates/executor/src/db.rs:454-539 | over any such history a row turns filled if and only if its recorded fill, once synced, is within dust of its positive size, and otherwise keeps its status: the exchange has filled what is called filled, and a working order short of its size stays one |
| Reconcile.InactiveOverrideMeansInSync | crates/executor/src/reconcile.rs:545-876 | a completed detecting pass that leaves the override inactive leaves what the exchange holds, long less short, within dust of what the counted orders bought less what they sold |
| Reconcile.OverrideAfterAPass | crates/executor/src/reconcile.rs:338-876 | the exact law of the override: a completed pass raises it if and only if a foreign order is pending, a fill belongs to no order, a working order vanished unfilled, or a position is not accounted for; it lifts it if and only if it was raised before and nothing of ours is pending or held |
| Reconcile.ConfirmedRowSays | crates/executor/src/reconcile.rs:203-237 | what looking up a missing order makes of its row: gone, filled, left or to be reconciled, each exactly when, with the reported fill recorded |
| Reconcile.ClosesExactlyWhatCounted | crates/executor/src/db.rs:541-553 | a position closed from outside closes exactly the rows that counted towards it |
| Reconcile.DriftNamedRightlyExactlyForLongs | crates/executor/src/reconcile.rs:142-167 | a drift on the side expected is named added or reduced rightly if and only if the position is long |
| Reconcile.DriftClosesExactlyAcrossSides | crates/executor/src/reconcile.rs:142-167 | a drift counts as closed if and only if our orders imply the other side, or none |
| Reconcile.PositionIsTheExchanges | crates/executor/src/reconcile.rs:649-784 | after a pass the local position is one the exchange lists, or none when nothing above dust is listed |
| Reconcile.ImportRecordsForeign | crates/executor/src/reconcile.rs:392-472 | importing leaves every known row alone, records each foreign order as it was last listed, as nobody's intent, and nothing else |
| Reconcile.RaisedStaysForThisPass | crates/executor/src/reconcile.rs:815-876 | no pass both enters and clears the override; cleared only follows active |
| Reconcile.FlatPassQuiesces | crates/executor/src/reconcile.rs:483-876 | one pass over a flat exchange, zero-size rows included, from any local state with free fill ids, records every listed trade, settles every order and nets to dust |
| Reconcile.QuiescedPass | crates/executor/src/reconcile.rs:483-876 | from there a pass changes nothing but clears a raised override |
| Reconcile.FlatExchangeSettlesInTwoPasses | crates/executor/src/reconcile.rs:338-876 | from any local state with free fill ids two passes over an unchanging flat exchange with no row listed reach a fixed point: override not active, no position, net within dust |
| Reconcile.RecordsEveryTradeExactlyWhenIdsFree | crates/executor/src/reconcile.rs:239-298 | a pass records every trade listed for our orders if and only if no recorded row holds a listed trade's fill id without naming that trade |
| Reconcile.OccupiedFillIdKeepsFlapping | crates/executor/src/reconcile.rs:278-288 | an order whose one trade is hidden that way is revived and closed on every pass, and the override alternates for ever |
| Reconcile.ZeroSizeRowKeepsFlapping | crates/executor/src/reconcile.rs:707-740 | with a zero-size row of ours the override alternates between active and cleared from the first pass on, from any local state with free fill ids |
| Reconcile.SettlesExactlyWhenNoRowListed | crates/executor/src/reconcile.rs:338-876 | on a flat exchange, from any local state with free fill ids, no pass after the second changes anything if and only if no row of ours is listed |
| Reconcile.AbandonedNeverLifts | crates/executor/src/reconcile.rs:338-876 | a pass abandoned at any row of any loop, or between loops, never lifts an override |
| Reconcile.SettlesAfterAbandonedPass | crates/executor/src/reconcile.rs:338-876 | after a pass abandoned anywhere, two passes settle as from anywhere |
| Reconcile.ClosedRowsNetToZero | crates/executor/src/db.rs:541-553 | closing the filled system orders leaves a net base of zero |
| Reconcile.ImportKeepsOverride | crates/executor/src/reconcile.rs:392-472 | importing pending orders raises the override at most once and never lowers it |
| ReconcileLoop.LocalTables.ImportPendingOrders | crates/executor/src/reconcile.rs:392-472 | the import loop leaves the tables as the import phase says |
| ReconcileLoop.LocalTables.RepairMissingFills | crates/executor/src/reconcile.rs:483-541 | the fill loop leaves the tables as the repair phase says, for the rows it got to when an error stops it |
| ReconcileLoop.LocalTables.ConfirmOrder | crates/executor/src/reconcile.rs:203-237 | the keyed updates for one missing order change its row and no other, by its verdict |
| ReconcileLoop.LocalTables.ConfirmMissingOrders | crates/executor/src/reconcile.rs:545-647 | the loop over working orders leaves each row it got to as confirming it alone would |
| ReconcileLoop.LocalTables.ClassifyPositions | crates/executor/src/reconcile.rs:649-784 | the position loop leaves the tables as the position phase says, for the rows it got to |
| ReconcileLoop.LocalTables.SyncMissingPosition | crates/executor/src/reconcile.rs:926-961 | a vanished position closes the system orders exactly when they still net to more than dust |
| ReconcileLoop.LocalTables.ReconcileOnce | crates/executor/src/reconcile.rs:338-876 | a completed pass leaves the tables exactly as the pass function does; only a failed request or statement, or a listed order whose id is another row's, abandons one, at a row of one of its stages |
| ActiveLock.StateTable.TryAcquire | crates/executor/src/db.rs:686-741 | succeeds exactly on an absent lock or a complete one whose readable heartbeat is older than the timeout; otherwise changes nothing |
| ActiveLock.StateTable.Beats | crates/executor/src/db.rs:743-769 | true exactly for the holder, and then refreshes the heartbeat alone |
| ActiveLock.StateTable.GiveUp | crates/executor/src/db.rs:771-797 | true exactly for the holder, and then removes all four rows |
| ActiveLock.Daemon.Tick | crates/executor/src/daemon.rs:447-534 | a tick whose heartbeat finds the lock lost stops the process and runs nothing; any other runs the queues once, even if others take the lock over before that |
| ActiveLock.EveryRunHasItsTick | crates/executor/src/daemon.rs:449-534 | every queue run belongs to a tick whose heartbeat found the lock held |
| ActiveLock.LoserRunsAtMostOnceMore | crates/executor/src/daemon.rs:449-534 | over any interleaving, an instance that lost the lock runs the queues at most once more, for the tick it was in the middle of; a tick whose heartbeat follows the loss runs none |
| ActiveLock.AlwaysWhole | crates/executor/src/db.rs:686-797 | over any history the four rows are all present or all absent |
| ActiveLock.DeposedStaysDeposed | crates/executor/src/db.rs:743-797 | after losing the lock an instance's heartbeats and releases all return false and change nothing |
| ActiveLock.TicksDoNotAlternate | crates/executor/src/daemon.rs:449-457 | once another instance ticked, no heartbeat of the old one's ticks succeeds again |
| ActiveLock.SoleOwnerBetweenTicks | crates/executor/src/daemon.rs:449-457 | between two ticks of one session nobody else held the lock at any moment |
| ActiveLock.NeverDisplaced | crates/executor/src/db.rs:686-741 | on a shared nondecreasing clock an owner whose gaps never exceed the timeout is never displaced |
| ActiveLock.DisplacedExactlyWhenStale | crates/executor/src/db.rs:700-712 | a takeover is granted if and only if the last beat is older than the timeout |
| ActiveLock.LockChangesHands | crates/executor/src/db.rs:686-797 | whoever acquired the lock, and nobody else, may beat and release it; after the release anybody may acquire it and beat it in turn; beating leaves the start time |
| CloseAll.Tables.Start | crates/executor/src/telegram_query.rs:914-967 | a start replaces its user's confirmation, or fails without an executor |
| CloseAll.Tables.QueueControlCommand | crates/executor/src/telegram_query.rs:864-907 | queues for the executor active at that moment, or nothing |
| CloseAll.Tables.ConfirmCloseAll | crates/executor/src/telegram_query.rs:1037-1136 | the savepoint ends as the step function says, including its rollback |
| CloseAll.Tables.CancelCloseAll | crates/executor/src/telegram_query.rs:1138-1211 | a cancel is refused for the same reasons as a confirm, and otherwise ends the confirmation |
| CloseAll.ActiveExactlyWhileLockHolds | crates/executor/src/telegram_query.rs:429-473 | an executor counts as active if and only if no instance could take its lock over at that moment, and the target named is the holder |
| CloseAll.PendingHasAStart | crates/executor/src/telegram_query.rs:914-967 | a pending row always stems from a start not cancelled, used or superseded since |
| CloseAll.QueuesExactlyWhenAnswering | crates/executor/src/telegram_query.rs:1037-1136 | over any history a confirm queues a command if and only if it has the code of the user's start in force, in time, with the executor seen then active now; the command is addressed to that executor |
| CloseAll.AnsweredExactly | crates/executor/src/telegram_query.rs:1037-1211 | while a start is in force a confirm or cancel is told expired exactly after its sixty seconds, and bad code exactly in time with another code |
| CloseAll.CancelsExactlyWhenAnswering | crates/executor/src/telegram_query.rs:1138-1211 | over any history a cancel takes effect if and only if it gives the code of a start in force in time, and then no start is in force |
| CloseAll.OnlyConfirmsQueue | crates/executor/src/telegram_query.rs:864-1211 | nothing else adds to the queue |
| CloseAll.AtMostOneCommandPerStart | crates/executor/src/telegram_query.rs:1037-1136 | one generated confirmation queues at most one command |
| SignalDaemon.Database.FinishRun | src/prodigy/signals/daemon.py:381-442 | the write transaction ends as the step function says, and reports a decision exactly when it marked the bar |
| SignalDaemon.Database.ProcessDecision | src/prodigy/signals/daemon.py:139-162 | intent and marker are written together, or neither |
| SignalDaemon.AtMostOneIntentPerKey | src/prodigy/signals/daemon.py:346-442 | any number of daemons and any executor steps: at most one intent is inserted per processed key |
| SignalDaemon.IntentAndMarkerTogether | src/prodigy/signals/daemon.py:396-438 | a run writes intent and marker, a no-signal marker, or nothing |
| SignalDaemon.WritesExactly | src/prodigy/signals/daemon.py:381-442 | an intent is inserted if and only if nothing is in the way, its id is free and one is wanted: an open on a flat symbol with a strong score, a close on a score turned against the side held or a full holding time with a weak score; with nothing wanted the bar is marked no signal; else nothing changes |
| SignalDaemon.SkipsForTheReasonGiven | src/prodigy/signals/daemon.py:308-343 | a skip names a reason that holds |
| SignalDaemon.HoldingBarsFit | src/prodigy/signals/daemon.py:294-305 | holding time is the whole bars that fit between opening and close |
| SignalDaemon.InsertsOnlyWhenClear | src/prodigy/signals/daemon.py:308-343 | an intent is inserted only on fresh state with no override, no unresolved intent and no unfinished system order |
| SignalDaemon.IntentsFitThePosition | src/prodigy/signals/daemon.py:110-136 | an open needs a flat position, faces its score and is sized between the configured fractions of the cap; a close names the side held, and the score opposes it or it was held its full time with a weak score |
| SignalDaemon.NeverTwoUnresolved | src/prodigy/signals/state.py:33-43 | with an executor that only resolves intents, no symbol ever has two unresolved ones |
| LotBook.RemoveExact | src/prodigy/research/signals.py:60-63 | closing a lot takes exactly its notional off the sum and leaves the others |
| LotBook.WithinGross | src/prodigy/research/simulator.py:166-193 | a book with lots left out has no more gross notional |
| LotBook.WithinRemove | src/prodigy/research/simulator.py:154-161 | closing the same id in both books keeps one inside the other |
| ScoreBook.ScoreToLotSignals | src/prodigy/research/signals.py:39-119 | the loop produces exactly the stream of the step function |
| ScoreBook.NotionalInRange | src/prodigy/research/signals.py:19-27 | a lot is sized between the two configured fractions of the cap |
| ScoreBook.NotionalGrowsWithTheScore | src/prodigy/research/signals.py:19-27 | size is linear in the score's strength, from the smallest fraction of the cap at the open threshold to the largest at one, the same for either sign; with the threshold at one every lot is the smallest, past it the largest |
| ScoreBook.BarDoesExactly | src/prodigy/research/signals.py:46-100 | every bar of every stream closes exactly the lots its score opposes, and opens one on a side if and only if the score asks for that side, every earlier open on it is a cooldown ago, and the cap has room over the lots still open |
| ScoreBook.AlwaysSound | src/prodigy/research/signals.py:46-100 | at every bar lot ids are unique, closes match open lots, tracked notional is the sum over open lots and at most cap + 1e-9 |
| ScoreBook.AlwaysSpaced | src/prodigy/research/signals.py:80-84 | opens on one side are at least the cooldown apart |
| ScoreBook.AlwaysOneSided | src/prodigy/research/signals.py:52-59 | with close threshold at most open threshold all open lots face one way |
| ScoreBook.OneSidedExactlyWhenOpeningCloses | src/prodigy/research/signals.py:52-100 | with room for two smallest lots the book is always one-sided if and only if the close threshold is at most the open threshold |
| Simulator.FillPricePositive | src/prodigy/research/simulator.py:244-252 | fills keep a positive price under slippage below one |
| Simulator.Evaluate | src/prodigy/research/simulator.py:334-415 | the exit checks, updating a lot's fields in order, give the outcome function |
| Simulator.Signals | src/prodigy/research/simulator.py:152-164 | the bar's signals in order, closes finding the first lot by id |
| Simulator.ExitsOfBar | src/prodigy/research/simulator.py:166-193 | every open lot is evaluated once and realized profit grows by just the trades made |
| Simulator.ForceClose | src/prodigy/research/simulator.py:198-210 | the lots left at the end are closed at the last bar, and their profit is what realized and unrealized-at-end grow by |
| Simulator.SimulateLots | src/prodigy/research/simulator.py:108-231 | the whole simulation computes the run function, forced closes and rewritten last row included |
| SimulatorRuns.EveryOpenTradedOnce | src/prodigy/research/simulator.py:143-212 | by the end nothing is open, and each id, side, size and entry bar has as many trade rows as open signals |
| SimulatorRuns.AlwaysBooked | src/prodigy/research/simulator.py:152-193 | at every bar open lots and trades together are exactly the opens so far |
| SimulatorRuns.EquityIsWhatTradesEarned | src/prodigy/research/simulator.py:195-212 | every equity row is initial equity plus the pnl of trades closed by that bar, the last row with forced closes |
| SimulatorRuns.SlippageWorksAgainstTheLot | src/prodigy/research/simulator.py:243-295 | entry is never better than the entry bar's close and exit never better than the exit bar's, for either side |
| SimulatorRuns.OppositeLotsPayOnlyFees | src/prodigy/research/simulator.py:277-306 | a long and a short of one size opened and closed together without slippage earn exactly minus their four fees; their funding cancels |
| LotLifetimes.LotsAndTradesAreRight | src/prodigy/research/simulator.py:334-415 | an open lot met no stop loss, no trailing stop and no expired holding at any bar of its life, its stop is the tightest offered since it began to trail, and each trade's reason holds |
| LotLifetimes.EveryTradeIsRight | src/prodigy/research/simulator.py:334-415 | the same of every trade row at the end of the run |
| LotLifetimes.EvaluationIsRight | src/prodigy/research/simulator.py:334-415 | one bar's evaluation keeps a lot rightly open or closes it for the first rule that applies |
| LotLifetimes.StopOnlyTightens | src/prodigy/research/simulator.py:371-386 | later bars never loosen the trailing stop |
| LotLifetimes.LongHeldMeansConfirmed | src/prodigy/research/simulator.py:388-413 | a lot open beyond the holding time had a confirming review within the last extension window |
| SimulatedPnl.EveryTradeEarnsItsMove | src/prodigy/research/simulator.py:234-306 | every trade row of a run bought its notional at entry; a long earned its sale less its notional, a short its notional less the buy-back, each less both fees and funding |
| SimulatedPnl.WinsExactlyWhenPriceMoves | src/prodigy/research/simulator.py:297-306 | without fees and funding a trade row wins if and only if the price moved its way |
| SimulatedPnl.LongsPayShortsReceive | src/prodigy/research/simulator.py:299-301 | rates that are not negative cost every long and pay every short of the run |
| SimulatedPnl.FundingAddsUp | src/prodigy/research/simulator.py:309-324 | funding over a span is that of its two halves, each moment once, both ends included |
| SimulatedPnl.RebateIsGivenBack | src/prodigy/research/simulator.py:103-105 | fee charged plus rebate is the taker rate |
| SimulatedPnl.ProfitIsAPriceLevel | src/prodigy/research/simulator.py:358-374 | a lot has earned a fraction of its notional if and only if the close has reached one price, on either side |
| SimulatedPnl.StopLossIsAPriceLevel | src/prodigy/research/simulator.py:360-368 | a stop-loss trade closed at or beyond that price, and no trade of the run sat through it before |
| SimulatedPnl.TrailingStartsAtAPriceLevel | src/prodigy/research/simulator.py:370-374 | a trailing exit had reached the price at which trailing starts |
| SimulatedPnl.SwingsAreExtremes | src/prodigy/research/simulator.py:327-331 | swing low and high are the least low and the greatest high of the window |
| SimulatedPnl.WindowIsTheLastBars | src/prodigy/research/simulator.py:327-331 | the window is the last lookback bars, or as many as there are |
| SimulatedPnl.StopIsClearOfTheSwing | src/prodigy/research/simulator.py:375-386 | an offered stop stays below every low, or above every high, of the window by the buffer, and touches it at one |
| SimulatedPnl.TrailingExitsPastTheBestStop | src/prodigy/research/simulator.py:375-386 | a trailing exit closed under the highest stop offered to a long, over the lowest offered to a short |
| SimulatedPnl.ReviewedAfterItsHours | src/prodigy/research/simulator.py:388-413 | a lot closed at its review was held its hours in fifteen-minute bars, unconfirmed then, and had used up in full any extension |
| SimulatedPnl.HeldOnWithinTheExtension | src/prodigy/research/simulator.py:388-413 | a lot open past its hours was confirmed less than the extension hours ago, or at this bar |
| SimulatedPnl.ConfirmsExactlyWhatWouldOpen | src/prodigy/research/signals.py:30-35 | a score confirms a held lot if and only if it is strong enough to open one on that side |
| SimulatedCap.OpenLotsAreWithinTheStream | src/prodigy/research/simulator.py:143-193 | for any well-bracketed stream and any prices, simulated open lots are the stream's open lots with some left out |
| SimulatedCap.FlatIsTheStream | src/prodigy/research/simulator.py:78-91 | looking the stream up bar by bar and putting it together gives the stream again |
| SimulatedCap.SimulatedWithinCap | src/prodigy/research/simulator.py:143-193 | on one bar grid simulated gross notional is at most cap + 1e-9 at every bar |
| Backfill.Backfiller.FetchAll | src/prodigy/data/backfill.py:175-198 | the cursor loop ends for every exchange and collects the pages the recursion describes |
| Backfill.Backfiller.RunBackfill | src/prodigy/data/backfill.py:141-314 | rows and checkpoint after a backfill; a failed price fetch changes neither, a failed funding fetch comes after the price rows and leaves the checkpoint |
| Backfill.PagesAreOneStretch | src/prodigy/data/backfill.py:175-193 | pages of at least two bars put together are one stretch of the exchange's bars, up to the end of the window or of the data |
| Backfill.StoresExactlyTheWindow | src/prodigy/data/backfill.py:175-206 | what is stored is exactly the exchange's bars in [start, end), each once, in order |
| Backfill.WindowIsTheRowsInside | src/prodigy/data/backfill.py:199-203 | the rows kept are the fetched rows with a time in [start, end) |
| Backfill.KeepsTheFirstOfEachTime | src/prodigy/data/backfill.py:205-206 | of each time the first row is stored and no other |
| Backfill.StoresEveryWindowIffPagesHoldTwo | src/prodigy/data/backfill.py:189-192 | every window of every exchange is stored exactly if and only if pages hold at least two bars, for every bar length |
| Backfill.SmallPagesStopShort | src/prodigy/data/backfill.py:189-192 | with smaller pages two adjacent bars are already too many |
| Backfill.CheckpointMovesExactlyWhenComplete | src/prodigy/data/backfill.py:262-289 | for any exchange the checkpoint moves if and only if the window's rows strictly increase, cover every expected time, and have no nulls and no negative volume (funding clean) |
| Backfill.CheckpointMeansStoredComplete | src/prodigy/data/quality.py:60-88 | a moved checkpoint means the stored rows are the window, complete |
| Splits.PurgedWalkForwardSplits | src/prodigy/ml/splits.py:23-86 | the loop ends at the first window that gives no fold, and the folds are those of the windows before it |
| Splits.FoldIsItsWindow | src/prodigy/ml/splits.py:43-79 | a fold validates on exactly the rows of its window and trains on exactly the rows whose row a gap later still precedes it |
| Splits.BoundariesAreEven | src/prodigy/ml/splits.py:43-80 | the windows start at the shortest training time and then every step |
| Splits.GoesOnExactlyWithRows | src/prodigy/ml/splits.py:44-69 | the walk goes on if and only if the window has rows, all before the holdout, and there are rows to train on |
| Splits.LabelsStayBeforeExactlyWithinTheGap | src/prodigy/ml/splits.py:61-70 | no training label reaches validation if and only if the horizon is at most the purge gap |
| Splits.FoldsStayInOrder | src/prodigy/ml/splits.py:44-79 | train end before validation start, validation end before the holdout |
| Splits.ValidationWindowsAreDisjoint | src/prodigy/ml/splits.py:80-80 | with steps at least the validation length no row validates twice |
| Splits.FinalLabelsStayOutOfHoldout | src/prodigy/ml/example_trainer.py:130-136 | on a gap-free grid the final model's labels stay out of the holdout |
| Splits.FinalLabelsSafeExactlyWithEnoughRows | src/prodigy/ml/example_trainer.py:130-136 | on any data they do if and only if at least as many rows as the horizon lie between cutoff and holdout, or nothing is left to train on |
| Splits.AGapLeaks | src/prodigy/ml/example_trainer.py:130-136 | a data set with a gap whose final training label lies in the holdout |

## Left out

- HTTP, WebSocket, signing and JSON parsing: the exchange answers with parsed records or fails.
- f64 rounding, apart from the 1e-9-lot epsilon of the size rounding and the 1e-9 cap tolerance; price formatting.
- SQLite internals: a statement, savepoint or `begin immediate` block is one atomic step. A failing write in the middle of an execution is one of the breakdowns (`InfraError`, `Crashed`) the driver may meet at any request.
- WebSocket refreshes of order rows (`crates/executor/src/db.rs:219-231`), which can lower a filled size between reconcile passes, and re-recording an attempt after a crash, which resets it; the ledger properties are about reconciliation alone.
- Reconcile.InactiveOverrideMeansInSync: the exchange is constant within one pass and lists at most one row per side of the symbol.
- ReconcileLoop.LocalTables.ReconcileOnce: an error stops a pass between the rows of a loop, not between the statements of one row.
- Reconcile.FlatExchangeSettlesInTwoPasses: fills of ours carry trade ids, belong to local orders, and find their fill ids free; the last is what `Reconcile.OccupiedFillIdKeepsFlapping` shows to be needed, though an occupied id can also do no harm.
- Driver.IntentRun.Drive: executed does not mean target reached, because a taker that vanished after a partial fill completes the intent in the code too.
- Driver.IntentRun.Watch: polling windows are an arbitrary finite number of polls instead of a deadline.
- Driver.IntentRun.Submit: an open priced at no positive price fails without a request, where the code sends a size the exchange refuses.
- ExecutorLoop.Executor.ProcessOneIntent: the caller's market and account snapshots are arbitrary values.
- ExecutorLoop.Executor.HandleMarginDanger: the working orders and holdings it reads are arbitrary lists, the local rows of its own orders are not kept, and a failing read of them is left out.
- CloseAll.QueuesExactlyWhenAnswering: the code hash is any injective function; trimming of the lock rows is not modelled. The executor a start saw is a parameter of the start, because the code reads it before its savepoint.
- ActiveLock.NeverDisplaced: the clocks of all instances are assumed shared and nondecreasing over the transactions, as the heartbeats' own time stamps are taken before each statement.
- ActiveLock.Daemon.Tick: a tick cut short after its heartbeat by the bounded runtime or a failing write, which runs nothing, is left out.
- SignalDaemon.IntentsFitThePosition: the notional is not rounded to 8 decimals, because amounts are real numbers here.
- Splits.PurgedWalkForwardSplits: an empty frame, which the code rejects with an index error, a negative gap and a step that is not positive are outside it.
- SignalDaemon.NeverTwoUnresolved: assumes the executor adds no unresolved intent of its own; intents written by operator tools are outside this model.
- SignalDaemon.AtMostOneIntentPerKey: assumes the executor removes no processed marker; no statement in the repository does.
- Simulator.SimulateLots: the average true range is an input series, lots are values instead of shared dictionaries, prices are positive and open signals have a positive notional (the code divides by it), and funding rows are those of the one symbol.
- Backfill.Backfiller.RunBackfill: funding rows enter only as clean or not; daily partition files and the per-day counts of the quality summary are not modelled.
- The equity snapshot rows, event and audit rows, Telegram formatting and navigation, smoke reports, configuration loading and command-line tools.
- Demo reset and close helpers, model training, factor formulas and information-coefficient statistics.
- Position ownership timestamps (`opened_at`, `adopted_at`) and the source intent of a position row.
- decide_intent's wiring to data refresh and scoring: a run that fails before its write transaction changes no table.
